/**
 * Dataset cells and their parsers: datasets/export.go, datasets/tabular_formats.go and
 * datasets/external_formats.go.
 */
module Printers {
  import opened Wrappers
  import opened Sums
  import opened Orders
  import opened Sorting
  import opened Text
  import opened Decimal

  /** An id that survives a cell: visible, without surrounding space, without separators. */
  predicate CleanId(id: string) {
    id != "" && Trimmed(id) && NoDelim(id)
  }

  // ----- Id lists

  /** Trimmed, non-empty, first occurrences only, in order. */
  function DistinctIds(parts: seq<string>): (r: seq<string>)
  {
    if parts == [] then []
    else
      var r, id := DistinctIds(parts[..|parts| - 1]), Trim(parts[|parts| - 1]);
      if id == "" || id in r then r else r + [id]
  }

  function ParsedIds(s: string): seq<string> {
    DistinctIds(Fields(Trim(s)))
  }

  /** `parseDelimitedIDs`. */
  method ParseDelimitedIds(s: string) returns (out: seq<string>)
    ensures out == ParsedIds(s)
  {
    var t := Trim(s);
    if t == "" {
      return [];
    }
    var parts := Fields(t);
    out := [];
    var seen: set<string> := {};
    for k := 0 to |parts|
      invariant out == DistinctIds(parts[..k])
      invariant forall id :: id in seen <==> id in out
    {
      assert parts[..k + 1][..k] == parts[..k];
      var part := Trim(parts[k]);
      if part == "" {
        continue;
      }
      if part in seen {
        continue;
      }
      seen := seen + {part};
      out := out + [part];
    }
    assert parts[..|parts|] == parts;
  }

  /** Where an id occurs for the first time. */
  ghost function FirstAt(parts: seq<string>): set<nat> {
    set k: nat | k < |parts| && Trim(parts[k]) != "" && forall m :: 0 <= m < k ==> Trim(parts[m]) != Trim(parts[k])
  }

  /** The ids of `r` stand at places `at`. */
  ghost predicate PlacedAt(parts: seq<string>, r: seq<string>, at: seq<nat>) {
    |at| == |r| && forall j :: 0 <= j < |at| ==> at[j] < |parts| && r[j] == Trim(parts[at[j]])
  }

  ghost predicate AllIn(parts: seq<string>, r: seq<string>) {
    forall k :: 0 <= k < |parts| && Trim(parts[k]) != "" ==> Trim(parts[k]) in r
  }

  /** The ids kept stand at places `at`, and all others repeat one of them. */
  ghost predicate KeptAt(parts: seq<string>, at: seq<nat>) {
    PlacedAt(parts, DistinctIds(parts), at) && AllIn(parts, DistinctIds(parts))
  }

  /** The ids kept are the first occurrences of the non-empty trimmed parts, in order. */
  lemma {:induction false} DistinctInOrder(parts: seq<string>) returns (at: seq<nat>)
    ensures ListsInOrder(at, FirstAt(parts)) && KeptAt(parts, at)
  {
    at := [];
    if parts != [] {
      var n := |parts| - 1;
      at := DistinctInOrder(parts[..n]);
      FirstAtNext(parts, at);
      KeptAtNext(parts, at);
      if IsNew(parts) {
        OneMoreListed(at, FirstAt(parts[..n]), n);
        at := at + [n];
      }
    }
  }

  /** The last part brings a new id. */
  predicate IsNew(parts: seq<string>)
    requires parts != []
  {
    var n := |parts| - 1;
    Trim(parts[n]) != "" && Trim(parts[n]) !in DistinctIds(parts[..n])
  }

  lemma FirstAtNext(parts: seq<string>, at: seq<nat>)
    requires parts != [] && KeptAt(parts[..|parts| - 1], at)
    ensures var n := |parts| - 1;
            FirstAt(parts) == FirstAt(parts[..n]) + if IsNew(parts) then {n} else {}
  {
  }

  lemma KeptAtNext(parts: seq<string>, at: seq<nat>)
    requires parts != [] && KeptAt(parts[..|parts| - 1], at)
    ensures KeptAt(parts, if IsNew(parts) then at + [|parts| - 1] else at)
  {
    var n := |parts| - 1;
    var r := DistinctIds(parts[..n]);
    PlacedNext(parts, r, at);
    AllInNext(parts, r);
  }

  lemma PlacedNext(parts: seq<string>, r: seq<string>, at: seq<nat>)
    requires parts != [] && PlacedAt(parts[..|parts| - 1], r, at)
    ensures PlacedAt(parts, r, at) && PlacedAt(parts, r + [Trim(parts[|parts| - 1])], at + [|parts| - 1])
  {
  }

  lemma AllInNext(parts: seq<string>, r: seq<string>)
    requires parts != [] && AllIn(parts[..|parts| - 1], r)
    ensures var id := Trim(parts[|parts| - 1]);
            AllIn(parts, r + [id]) && (id == "" || id in r ==> AllIn(parts, r))
  {
    var n := |parts| - 1;
    forall k | 0 <= k < n && Trim(parts[k]) != "" ensures Trim(parts[k]) in r {
      assert parts[..n][k] == parts[k];
    }
  }

  ghost predicate CleanList(ids: seq<string>) {
    NoDup(ids) && forall i :: 0 <= i < |ids| ==> CleanId(ids[i])
  }

  lemma TrimKeepsNoDelim(s: string)
    requires NoDelim(s)
    ensures NoDelim(Trim(s)) && Trimmed(Trim(s))
  {
    TrimProps(s);
  }

  lemma {:induction false} DistinctIdsClean(parts: seq<string>)
    requires forall i :: 0 <= i < |parts| ==> NoDelim(parts[i])
    ensures CleanList(DistinctIds(parts))
  {
    if parts != [] {
      DistinctIdsClean(parts[..|parts| - 1]);
      TrimKeepsNoDelim(parts[|parts| - 1]);
    }
  }

  lemma {:induction false} DistinctIdsOfClean(ids: seq<string>)
    requires CleanList(ids)
    ensures DistinctIds(ids) == ids
  {
    if ids != [] {
      var n := |ids| - 1;
      DistinctIdsOfClean(ids[..n]);
      TrimProps(ids[n]);
      assert ids == ids[..n] + [ids[n]];
    }
  }

  /** A joined id list reads back as itself exactly when its ids are clean and distinct. */
  lemma IdListRoundTripIff(ids: seq<string>)
    ensures ParsedIds(Join(ids)) == ids <==> CleanList(ids)
  {
    var parts := Fields(Trim(Join(ids)));
    DistinctIdsClean(parts);
    if CleanList(ids) {
      JoinTrimmed(ids);
      TrimProps(Join(ids));
      FieldsOfJoin(ids);
      DistinctIdsOfClean(ids);
    }
  }

  // ----- Score cells

  /** One `id=score` or `id:score` entry; anything else is skipped. */
  function ParseEntry(part: string): Option<(string, int)> {
    var p := Trim(part);
    if '=' in p then KeyValue(p, Pos(p, '='))
    else if ':' in p then KeyValue(p, Pos(p, ':'))
    else None
  }

  /** Splits at position `i`, trims both sides and reads the number. */
  function KeyValue(p: string, i: nat): Option<(string, int)>
    requires i < |p|
  {
    var key, value := Trim(p[..i]), Atoi(Trim(p[i + 1..]));
    if value.None? || key == "" then None else Some((key, value.value))
  }

  /** `p` is `a`, then a separator, then `b`: the first equals sign or, without any, the first colon. */
  ghost predicate SplitsAt(p: string, a: string, sep: char, b: string) {
    && p == a + [sep] + b
    && (sep == '=' || sep == ':') && sep !in a && (sep == ':' ==> '=' !in p)
  }

  lemma SplitAtPos(p: string, a: string, sep: char, b: string)
    requires SplitsAt(p, a, sep, b)
    ensures sep in p && Pos(p, sep) == |a| && p[..|a|] == a && p[|a| + 1..] == b
  {
    PosAfterPrefix(a, sep, b);
    assert p[|a|] == sep;
  }

  lemma SplitIsRead(part: string, a: string, sep: char, b: string)
    requires SplitsAt(Trim(part), a, sep, b)
    ensures ParseEntry(part) == var v := Atoi(Trim(b));
                                if v.None? || Trim(a) == "" then None else Some((Trim(a), v.value))
  {
    SplitAtPos(Trim(part), a, sep, b);
  }

  lemma SplitOfRead(part: string) returns (a: string, sep: char, b: string)
    requires ParseEntry(part).Some?
    ensures SplitsAt(Trim(part), a, sep, b)
  {
    var p := Trim(part);
    sep := if '=' in p then '=' else ':';
    a, b := SplitFirst(p, sep);
  }

  lemma SplitFirst(p: string, c: char) returns (a: string, b: string)
    requires c in p
    ensures p == a + [c] + b && c !in a
  {
    var i := Pos(p, c);
    a, b := p[..i], p[i + 1..];
    assert p == p[..i] + [p[i]] + p[i + 1..];
  }

  /** The part is a key, a separator and a number, with white space around each. */
  ghost predicate IsEntry(part: string, key: string, value: int) {
    exists a, sep, b ::
      SplitsAt(Trim(part), a, sep, b) && key == Trim(a) != "" && Atoi(Trim(b)) == Some(value)
  }

  /** Which parts are read as which entry. */
  lemma EntryReadIff(part: string, key: string, value: int)
    ensures ParseEntry(part) == Some((key, value)) <==> IsEntry(part, key, value)
  {
    if ParseEntry(part).Some? {
      var a, sep, b := SplitOfRead(part);
      SplitIsRead(part, a, sep, b);
    }
    if IsEntry(part, key, value) {
      var a, sep, b :| SplitsAt(Trim(part), a, sep, b) && key == Trim(a) != "" && Atoi(Trim(b)) == Some(value);
      SplitIsRead(part, a, sep, b);
    }
  }

  /** Later entries overwrite earlier ones; unreadable parts are skipped. */
  function Collect(parts: seq<string>, read: string -> Option<(string, int)>): map<string, int> {
    if parts == [] then map[]
    else
      var m, e := Collect(parts[..|parts| - 1], read), read(parts[|parts| - 1]);
      if e.None? then m else m[e.value.0 := e.value.1]
  }

  /** Part k is the last one read as an entry for `key`. */
  ghost predicate LastFor(parts: seq<string>, read: string -> Option<(string, int)>, key: string, k: nat) {
    && k < |parts| && read(parts[k]).Some? && read(parts[k]).value.0 == key
    && forall m :: k < m < |parts| && read(parts[m]).Some? ==> read(parts[m]).value.0 != key
  }

  /** A key has the value of the last part read for it, and no other key is there. */
  lemma {:induction false} LastEntryWins(parts: seq<string>, read: string -> Option<(string, int)>, key: string)
    ensures key in Collect(parts, read) <==> exists k: nat :: LastFor(parts, read, key, k)
    ensures forall k: nat :: LastFor(parts, read, key, k) ==>
              key in Collect(parts, read) && Collect(parts, read)[key] == read(parts[k]).value.1
  {
    if parts != [] {
      var n := |parts| - 1;
      LastEntryWins(parts[..n], read, key);
      if read(parts[n]).Some? && read(parts[n]).value.0 == key {
        assert LastFor(parts, read, key, n);
      } else {
        forall k: nat ensures LastFor(parts, read, key, k) <==> LastFor(parts[..n], read, key, k) {
        }
      }
    }
  }

  function Reader(): string -> Option<(string, int)> {
    (part: string) => ParseEntry(part)
  }

  function ScoreMap(parts: seq<string>): map<string, int> {
    Collect(parts, Reader())
  }

  lemma ScoreMapNext(parts: seq<string>, k: nat)
    requires k < |parts|
    ensures var m, e := ScoreMap(parts[..k]), ParseEntry(parts[k]);
            ScoreMap(parts[..k + 1]) == if e.None? then m else m[e.value.0 := e.value.1]
  {
    assert parts[..k + 1][..k] == parts[..k];
  }

  /** `parseTabularScores`. */
  method ParseTabularScores(s: string) returns (out: map<string, int>)
    ensures out == ScoreMap(Fields(s))
  {
    out := map[];
    var parts := Fields(s);
    for k := 0 to |parts|
      invariant out == ScoreMap(parts[..k])
    {
      ScoreMapNext(parts, k);
      var e := ParseEntry(parts[k]);
      if e.Some? {
        out := out[e.value.0 := e.value.1];
      }
    }
    assert parts[..|parts|] == parts;
  }

  function Entry(id: string, score: int): string {
    id + "=" + Itoa(score)
  }

  function Entries(ids: seq<string>, scores: map<string, Int64>): (r: seq<string>)
    requires forall i :: 0 <= i < |ids| ==> ids[i] in scores
    ensures |r| == |ids| && forall i :: 0 <= i < |ids| ==> r[i] == Entry(ids[i], scores[ids[i]])
  {
    seq(|ids|, i requires 0 <= i < |ids| => Entry(ids[i], scores[ids[i]]))
  }

  /** The scored candidates in ballot order: trimmed, non-empty ids that carry a score. */
  function Listed(candidateIds: seq<string>, scores: map<string, Int64>): (r: seq<string>)
    ensures forall i :: 0 <= i < |r| ==> r[i] in scores
  {
    if candidateIds == [] then []
    else
      var n := |candidateIds| - 1;
      var id := Trim(candidateIds[n]);
      Listed(candidateIds[..n], scores) + if id != "" && id in scores then [id] else []
  }

  /** Where a candidate with a score is listed. */
  ghost function ScoredAt(candidateIds: seq<string>, scores: map<string, Int64>): set<nat> {
    set k: nat | k < |candidateIds| && Trim(candidateIds[k]) != "" && Trim(candidateIds[k]) in scores
  }

  /** The cell starts with the listed candidates that have a score, in the order of the list. */
  lemma {:induction false} ListedInOrder(candidateIds: seq<string>, scores: map<string, Int64>) returns (at: seq<nat>)
    ensures ListsInOrder(at, ScoredAt(candidateIds, scores)) && |at| == |Listed(candidateIds, scores)|
    ensures forall j :: 0 <= j < |at| ==>
              at[j] < |candidateIds| && Listed(candidateIds, scores)[j] == Trim(candidateIds[at[j]])
  {
    at := [];
    if candidateIds != [] {
      var n := |candidateIds| - 1;
      at := ListedInOrder(candidateIds[..n], scores);
      var id, before := Trim(candidateIds[n]), ScoredAt(candidateIds[..n], scores);
      assert ScoredAt(candidateIds, scores) == before + if id != "" && id in scores then {n} else {};
      if id != "" && id in scores {
        OneMoreListed(at, before, n);
        at := at + [n];
      }
    }
  }

  function ByText(): (string, string) -> bool {
    (a: string, b: string) => StringLess(a, b)
  }

  lemma ByTextIsStrictOrder()
    ensures StrictOrder(ByText())
  {
    forall x ensures !ByText()(x, x) {
      LexIrreflexive(Codes(x));
    }
    forall x, y, z | ByText()(x, y) && ByText()(y, z) ensures ByText()(x, z) {
      LexTransitive(Codes(x), Codes(y), Codes(z));
    }
    forall x, y ensures ByText()(x, y) || x == y || ByText()(y, x) {
      StringTotal(x, y);
    }
  }

  /** `extra` are the keys of no listed candidate, in text order. */
  ghost predicate ExtraOrder(candidateIds: seq<string>, scores: map<string, Int64>, extra: seq<string>) {
    && SortedBy(ByText(), extra)
    && forall id :: id in extra <==> id in scores && id !in Listed(candidateIds, scores)
  }

  /** The listed candidates first, then the others. */
  ghost function ScoresCell(candidateIds: seq<string>, scores: map<string, Int64>, extra: seq<string>): string
    requires ExtraOrder(candidateIds, scores, extra)
  {
    Join(Entries(Listed(candidateIds, scores), scores) + Entries(extra, scores))
  }

  /** The order, and so the cell, does not depend on Go's random map iteration. */
  lemma ExtraOrderUnique(candidateIds: seq<string>, scores: map<string, Int64>, a: seq<string>, b: seq<string>)
    requires ExtraOrder(candidateIds, scores, a) && ExtraOrder(candidateIds, scores, b)
    ensures a == b
  {
    ByTextIsStrictOrder();
    SortedByUnique(ByText(), a, b);
  }

  lemma PrintedCoverKeys(candidateIds: seq<string>, scores: map<string, Int64>, extra: seq<string>)
    requires ExtraOrder(candidateIds, scores, extra)
    ensures var ids := Listed(candidateIds, scores) + extra;
            && (forall id :: id in ids <==> id in scores)
            && forall i :: 0 <= i < |ids| ==> ids[i] in scores
  {
  }

  /** One more candidate in the list. */
  lemma ListedNext(candidateIds: seq<string>, scores: map<string, Int64>, k: nat)
    requires k < |candidateIds|
    ensures var id, listed := Trim(candidateIds[k]), Listed(candidateIds[..k], scores);
            if id != "" && id in scores
            then Listed(candidateIds[..k + 1], scores) == listed + [id]
                 && Entries(Listed(candidateIds[..k + 1], scores), scores)
                    == Entries(listed, scores) + [Entry(id, scores[id])]
            else Listed(candidateIds[..k + 1], scores) == listed
  {
    assert candidateIds[..k + 1][..k] == candidateIds[..k];
  }

  /** The candidate loop of `scoresExportCell`. */
  method ListedEntries(candidateIds: seq<string>, scores: map<string, Int64>)
    returns (parts: seq<string>, used: set<string>)
    ensures parts == Entries(Listed(candidateIds, scores), scores)
    ensures forall id :: id in used <==> id in Listed(candidateIds, scores)
  {
    used, parts := {}, [];
    for k := 0 to |candidateIds|
      invariant forall id :: id in used <==> id in Listed(candidateIds[..k], scores)
      invariant parts == Entries(Listed(candidateIds[..k], scores), scores)
    {
      ListedNext(candidateIds, scores, k);
      var id := Trim(candidateIds[k]);
      if id == "" {
        continue;
      }
      if id in scores {
        parts := parts + [Entry(id, scores[id])];
        used := used + {id};
      }
    }
    assert candidateIds[..|candidateIds|] == candidateIds;
  }

  /** `scoresExportCell`: the listed candidates first, then the other keys in text order. */
  method ScoresExportCell(candidateIds: seq<string>, scores: map<string, Int64>) returns (cell: string)
    ensures exists extra :: ExtraOrder(candidateIds, scores, extra) && cell == ScoresCell(candidateIds, scores, extra)
    ensures ScoreMap(Fields(cell)) == scores <==> forall id :: id in scores ==> CleanKey(id)
  {
    if scores == map[] {
      NothingListed(candidateIds, scores);
      ScoreCellRoundTripIff(candidateIds, scores, []);
      cell := "";
      assert ExtraOrder(candidateIds, scores, []) && cell == ScoresCell(candidateIds, scores, []);
      return;
    }
    var parts, used := ListedEntries(candidateIds, scores);
    var others := CollectExtra(scores, used);
    SortExtra(others);
    var sorted := SortBy(ByText(), others);
    var more := ExtraEntries(sorted, scores);
    cell := Join(parts + more);
    assert ExtraOrder(candidateIds, scores, sorted) && cell == ScoresCell(candidateIds, scores, sorted);
    ScoreCellRoundTripIff(candidateIds, scores, sorted);
  }

  lemma {:induction false} NothingListed(candidateIds: seq<string>, scores: map<string, Int64>)
    requires scores == map[]
    ensures Listed(candidateIds, scores) == []
  {
    if candidateIds != [] {
      NothingListed(candidateIds[..|candidateIds| - 1], scores);
    }
  }

  lemma EntriesNext(ids: seq<string>, scores: map<string, Int64>, k: nat)
    requires k < |ids| && forall i :: 0 <= i < |ids| ==> ids[i] in scores
    ensures Entries(ids, scores)[..k + 1] == Entries(ids, scores)[..k] + [Entry(ids[k], scores[ids[k]])]
  {
    var r := Entries(ids, scores);
    assert r[..k + 1] == r[..k] + [r[k]];
  }

  /** The loop over the remaining keys. */
  method ExtraEntries(extra: seq<string>, scores: map<string, Int64>) returns (parts: seq<string>)
    requires forall id :: id in extra ==> id in scores
    ensures forall i :: 0 <= i < |extra| ==> extra[i] in scores
    ensures parts == Entries(extra, scores)
  {
    parts := [];
    for k := 0 to |extra|
      invariant parts == Entries(extra, scores)[..k]
    {
      EntriesNext(extra, scores, k);
      parts := parts + [Entry(extra[k], scores[extra[k]])];
    }
  }

  /** The keys not yet printed, in whatever order the map yields them. */
  method CollectExtra(scores: map<string, Int64>, used: set<string>) returns (extra: seq<string>)
    ensures NoDup(extra) && forall id :: id in extra <==> id in scores && id !in used
  {
    extra := [];
    var rest := scores.Keys;
    while rest != {}
      invariant rest <= scores.Keys
      invariant NoDup(extra) && forall id :: id in extra <==> id in scores && id !in rest && id !in used
      decreases rest
    {
      var id :| id in rest;
      rest := rest - {id};
      if id !in used {
        extra := extra + [id];
      }
    }
  }

  lemma SortExtra(extra: seq<string>)
    requires NoDup(extra)
    ensures SortedBy(ByText(), SortBy(ByText(), extra))
  {
    ByTextIsStrictOrder();
    SortByIsSorted(ByText(), extra);
  }

  /** A key that survives a score cell: clean, and without the equals sign. */
  predicate CleanKey(id: string) {
    CleanId(id) && '=' !in id
  }

  lemma PosAfterPrefix(a: string, c: char, b: string)
    requires c !in a
    ensures Pos(a + [c] + b, c) == |a|
  {
    var p := a + [c] + b;
    assert p[|a|] == c;
    assert forall i :: 0 <= i < |a| ==> p[i] == a[i];
  }

  lemma NumberIsPlain(score: Int64)
    ensures Trimmed(Itoa(score)) && NoDelim(Itoa(score))
  {
  }

  lemma EntryShape(id: string, score: Int64)
    requires CleanKey(id)
    ensures Entry(id, score) != "" && NoDelim(Entry(id, score)) && Trimmed(Entry(id, score))
    ensures '=' in Entry(id, score) && Pos(Entry(id, score), '=') == |id|
  {
    var number := Itoa(score);
    var p := Entry(id, score);
    assert p == id + ['='] + number;
    NumberIsPlain(score);
    PosAfterPrefix(id, '=', number);
    assert p[|id|] == '=';
  }

  lemma OwnKeyValue(id: string, score: Int64)
    requires CleanKey(id)
    ensures KeyValue(Entry(id, score), |id|) == Some((id, score as int))
  {
    var number := Itoa(score);
    var p := Entry(id, score);
    assert p[..|id|] == id && p[|id| + 1..] == number;
    NumberIsPlain(score);
    TrimProps(id);
    TrimProps(number);
    AtoiItoa(score);
  }

  lemma ParseOwnEntry(id: string, score: Int64)
    requires CleanKey(id)
    ensures ParseEntry(Entry(id, score)) == Some((id, score as int))
    ensures Entry(id, score) != "" && NoDelim(Entry(id, score))
  {
    EntryShape(id, score);
    TrimProps(Entry(id, score));
    OwnKeyValue(id, score);
  }

  function Restricted(ids: seq<string>, scores: map<string, Int64>): map<string, int> {
    map id | id in ids && id in scores :: scores[id]
  }

  lemma EntriesAppend(a: seq<string>, b: seq<string>, scores: map<string, Int64>)
    requires forall i :: 0 <= i < |a| ==> a[i] in scores
    requires forall i :: 0 <= i < |b| ==> b[i] in scores
    ensures forall i :: 0 <= i < |a + b| ==> (a + b)[i] in scores
    ensures Entries(a + b, scores) == Entries(a, scores) + Entries(b, scores)
  {
  }

  lemma {:induction false} CollectReadable(
    parts: seq<string>, read: string -> Option<(string, int)>, ids: seq<string>, scores: map<string, Int64>)
    requires |parts| == |ids|
    requires forall i :: 0 <= i < |ids| ==> ids[i] in scores && read(parts[i]) == Some((ids[i], scores[ids[i]] as int))
    ensures Collect(parts, read) == Restricted(ids, scores)
  {
    if ids != [] {
      var n := |ids| - 1;
      CollectReadable(parts[..n], read, ids[..n], scores);
      assert ids == ids[..n] + [ids[n]];
    }
  }

  lemma ScoreMapOfEntries(ids: seq<string>, scores: map<string, Int64>)
    requires forall i :: 0 <= i < |ids| ==> ids[i] in scores && CleanKey(ids[i])
    ensures ScoreMap(Entries(ids, scores)) == Restricted(ids, scores)
  {
    var parts := Entries(ids, scores);
    forall i | 0 <= i < |ids| ensures Reader()(parts[i]) == Some((ids[i], scores[ids[i]] as int)) {
      ParseOwnEntry(ids[i], scores[ids[i]]);
    }
    CollectReadable(parts, Reader(), ids, scores);
  }

  lemma KeyBeforeIsClean(p: string, at: nat)
    requires NoDelim(p) && at < |p| && '=' !in p[..at] && Trim(p[..at]) != ""
    ensures CleanKey(Trim(p[..at]))
  {
    TrimProps(p[..at]);
  }

  lemma ParsedKeyClean(part: string)
    requires NoDelim(part) && ParseEntry(part).Some?
    ensures CleanKey(ParseEntry(part).value.0)
  {
    var p := Trim(part);
    TrimKeepsNoDelim(part);
    if '=' in p {
      KeyBeforeIsClean(p, Pos(p, '='));
    } else {
      KeyBeforeIsClean(p, Pos(p, ':'));
    }
  }

  lemma {:induction false} ScoreMapKeysClean(parts: seq<string>)
    requires forall i :: 0 <= i < |parts| ==> NoDelim(parts[i])
    ensures forall id :: id in ScoreMap(parts) ==> CleanKey(id)
  {
    if parts != [] {
      var n := |parts| - 1;
      ScoreMapKeysClean(parts[..n]);
      if Reader()(parts[n]).Some? {
        ParsedKeyClean(parts[n]);
      }
    }
  }

  lemma ScoreCellReadsBack(ids: seq<string>, scores: map<string, Int64>)
    requires forall i :: 0 <= i < |ids| ==> ids[i] in scores && CleanKey(ids[i])
    requires forall id :: id in ids <==> id in scores
    ensures ScoreMap(Fields(Join(Entries(ids, scores)))) == scores
  {
    var parts := Entries(ids, scores);
    forall i | 0 <= i < |parts| ensures parts[i] != "" && NoDelim(parts[i]) {
      ParseOwnEntry(ids[i], scores[ids[i]]);
    }
    FieldsOfJoin(parts);
    ScoreMapOfEntries(ids, scores);
  }

  /** A score cell reads back as the same map exactly when all its keys are clean. */
  lemma ScoreCellRoundTripIff(candidateIds: seq<string>, scores: map<string, Int64>, extra: seq<string>)
    requires ExtraOrder(candidateIds, scores, extra)
    ensures ScoreMap(Fields(ScoresCell(candidateIds, scores, extra))) == scores
            <==> forall id :: id in scores ==> CleanKey(id)
  {
    var ids := Listed(candidateIds, scores) + extra;
    PrintedCoverKeys(candidateIds, scores, extra);
    EntriesAppend(Listed(candidateIds, scores), extra, scores);
    ScoreMapKeysClean(Fields(Join(Entries(ids, scores))));
    if forall id :: id in scores ==> CleanKey(id) {
      ScoreCellReadsBack(ids, scores);
    }
  }

  // ----- Spreadsheet columns

  function Letter(k: nat): (c: char)
    requires k < 26
    ensures 'A' <= c <= 'Z' && c as int - 'A' as int == k
  {
    (k + 'A' as int) as char
  }

  predicate Letters(s: string) {
    forall i :: 0 <= i < |s| ==> 'A' <= s[i] <= 'Z'
  }

  function Column(col: nat): (s: string)
    ensures Letters(s) && (s == "" <==> col == 0)
  {
    if col == 0 then "" else Column((col - 1) / 26) + [Letter((col - 1) % 26)]
  }

  /** `xlsxColumnName`. */
  method XlsxColumnName(col: int) returns (name: string)
    ensures name == if col <= 0 then "A" else Column(col)
  {
    if col <= 0 {
      return "A";
    }
    var c: nat := col;
    name := [];
    while c > 0
      invariant Column(c) + name == Column(col)
    {
      c := c - 1;
      ghost var before := name;
      name := [Letter(c % 26)] + name;
      assert Column(c + 1) + before == Column(c / 26) + name;
      c := c / 26;
    }
  }

  /** The column number a name stands for: base 26 with digits 1..26. */
  function ColumnNumber(s: string): nat
    requires Letters(s)
  {
    if s == "" then 0
    else 26 * ColumnNumber(s[..|s| - 1]) + (s[|s| - 1] as int - 'A' as int) + 1
  }

  /** Each positive number has its own name. */
  lemma {:induction false} NumberOfColumn(col: nat)
    ensures ColumnNumber(Column(col)) == col
  {
    if col > 0 {
      NumberOfColumn((col - 1) / 26);
      var s := Column(col);
      assert s[..|s| - 1] == Column((col - 1) / 26);
    }
  }

  /** Each non-empty string of capital letters names a column. */
  lemma {:induction false} ColumnOfNumber(s: string)
    requires Letters(s)
    ensures Column(ColumnNumber(s)) == s
    ensures s != "" ==> ColumnNumber(s) > 0
  {
    if s != "" {
      var n := |s| - 1;
      ColumnOfNumber(s[..n]);
      var k := s[n] as int - 'A' as int;
      assert ColumnNumber(s) - 1 == 26 * ColumnNumber(s[..n]) + k;
      assert Letter(k) == s[n];
      assert s == s[..n] + [s[n]];
    }
  }

  /** Names collide only among the non-positive numbers and one. */
  lemma ColumnNamesInjective(a: int, b: int)
    ensures (if a <= 0 then "A" else Column(a)) == (if b <= 0 then "A" else Column(b))
            <==> a == b || (a <= 1 && b <= 1)
  {
    assert Column(0) == "";
    assert Column(1) == "A";
    NumberOfColumn(if a <= 0 then 1 else a);
    NumberOfColumn(if b <= 0 then 1 else b);
  }
}
