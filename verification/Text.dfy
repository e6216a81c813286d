/** The string functions of the Go standard library that the dataset code relies on. */
module Text {
  /** `unicode.IsSpace`. */
  predicate IsSpace(c: char) {
    var u := c as int;
    || 0x09 <= u <= 0x0D || u == 0x20 || u == 0x85 || u == 0xA0 || u == 0x1680
    || 0x2000 <= u <= 0x200A || u == 0x2028 || u == 0x2029 || u == 0x202F || u == 0x205F || u == 0x3000
  }

  function TrimLeft(s: string): string {
    if s != "" && IsSpace(s[0]) then TrimLeft(s[1..]) else s
  }

  function TrimRight(s: string): string {
    if s != "" && IsSpace(s[|s| - 1]) then TrimRight(s[..|s| - 1]) else s
  }

  /** Neither starts nor ends with white space. */
  predicate Trimmed(s: string) {
    s == "" || (!IsSpace(s[0]) && !IsSpace(s[|s| - 1]))
  }

  /** `strings.TrimSpace`. */
  function Trim(s: string): string {
    TrimRight(TrimLeft(s))
  }

  lemma {:induction false} TrimLeftProps(s: string)
    ensures var r := TrimLeft(s);
            (r == "" || !IsSpace(r[0])) && |r| <= |s| && r == s[|s| - |r|..]
  {
    if s != "" && IsSpace(s[0]) {
      TrimLeftProps(s[1..]);
    }
  }

  lemma {:induction false} TrimRightProps(s: string)
    ensures var r := TrimRight(s);
            (r == "" || !IsSpace(r[|r| - 1])) && |r| <= |s| && r == s[..|r|]
  {
    if s != "" && IsSpace(s[|s| - 1]) {
      TrimRightProps(s[..|s| - 1]);
    }
  }

  /** Trimming yields a trimmed string and leaves trimmed strings alone. */
  lemma TrimProps(s: string)
    ensures Trimmed(Trim(s))
    ensures Trimmed(s) ==> Trim(s) == s
    ensures forall i :: 0 <= i < |Trim(s)| ==> Trim(s)[i] in s
  {
    TrimLeftProps(s);
    TrimRightProps(TrimLeft(s));
  }

  /** What is trimmed off is white space only. */
  lemma TrimIs(s: string) returns (i: nat, j: nat)
    ensures i <= j <= |s| && Trim(s) == s[i..j]
    ensures forall k :: 0 <= k < i || j <= k < |s| ==> IsSpace(s[k])
  {
    i := LeftTrimmed(s);
    var n := RightTrimmed(s[i..]);
    j := i + n;
    assert s[i..][..n] == s[i..j];
    forall k | j <= k < |s| ensures IsSpace(s[k]) {
      assert s[k] == s[i..][k - i];
    }
  }

  lemma {:induction false} LeftTrimmed(s: string) returns (i: nat)
    ensures i <= |s| && TrimLeft(s) == s[i..] && forall k :: 0 <= k < i ==> IsSpace(s[k])
  {
    i := 0;
    if s != "" && IsSpace(s[0]) {
      i := LeftTrimmed(s[1..]);
      assert s[1..][i..] == s[i + 1..];
      assert forall k :: 1 <= k < i + 1 ==> s[k] == s[1..][k - 1];
      i := i + 1;
    }
  }

  lemma {:induction false} RightTrimmed(s: string) returns (j: nat)
    ensures j <= |s| && TrimRight(s) == s[..j] && forall k :: j <= k < |s| ==> IsSpace(s[k])
  {
    j := |s|;
    if s != "" && IsSpace(s[|s| - 1]) {
      j := RightTrimmed(s[..|s| - 1]);
      assert s[..|s| - 1][..j] == s[..j];
      assert forall k :: j <= k < |s| - 1 ==> s[k] == s[..|s| - 1][k];
    }
  }

  /** The separators of id lists and score cells. */
  predicate IsDelim(c: char) { c == ',' || c == '|' || c == '>' }

  predicate NoDelim(s: string) {
    forall i :: 0 <= i < |s| ==> !IsDelim(s[i])
  }

  function Close(cur: string): seq<string> { if cur == "" then [] else [cur] }

  /** `strings.FieldsFunc`, with `cur` the field being read. */
  function FieldsFrom(cur: string, s: string): (r: seq<string>)
    requires NoDelim(cur)
    ensures forall i :: 0 <= i < |r| ==> r[i] != "" && NoDelim(r[i])
    decreases |s|
  {
    if s == "" then Close(cur)
    else if IsDelim(s[0]) then Close(cur) + FieldsFrom("", s[1..])
    else FieldsFrom(cur + [s[0]], s[1..])
  }

  function Fields(s: string): (r: seq<string>)
    ensures forall i :: 0 <= i < |r| ==> r[i] != "" && NoDelim(r[i])
  {
    FieldsFrom("", s)
  }

  /** Any separator ends a field, and a string without one is a single field: this fixes the fields of every string. */
  lemma FieldsSplit(s: string, c: char, t: string)
    requires IsDelim(c)
    ensures Fields(s + [c] + t) == Fields(s) + Fields(t)
    ensures NoDelim(s) ==> Fields(s) == if s == "" then [] else [s]
  {
    FieldsFromSplit("", s, c, t);
    if NoDelim(s) {
      ReadWord("", s, "");
      assert s + "" == s && "" + s == s;
    }
  }

  lemma {:induction false} FieldsFromSplit(cur: string, s: string, c: char, t: string)
    requires NoDelim(cur) && IsDelim(c)
    ensures FieldsFrom(cur, s + [c] + t) == FieldsFrom(cur, s) + FieldsFrom("", t)
    decreases |s|
  {
    if s == "" {
      assert s + [c] + t == [c] + t;
    } else {
      assert (s + [c] + t)[1..] == s[1..] + [c] + t;
      if IsDelim(s[0]) {
        FieldsFromSplit("", s[1..], c, t);
      } else {
        FieldsFromSplit(cur + [s[0]], s[1..], c, t);
      }
    }
  }

  /** `strings.Join(parts, "|")`. */
  function Join(parts: seq<string>): string {
    if parts == [] then ""
    else if |parts| == 1 then parts[0]
    else parts[0] + "|" + Join(parts[1..])
  }

  lemma {:induction false} ReadWord(cur: string, w: string, s: string)
    requires NoDelim(cur) && NoDelim(w)
    ensures FieldsFrom(cur, w + s) == FieldsFrom(cur + w, s)
    decreases |w|
  {
    if w == "" {
      assert w + s == s && cur + w == cur;
    } else {
      assert (w + s)[0] == w[0] ;
      assert (w + s)[1..] == w[1..] + s;
      ReadWord(cur + [w[0]], w[1..], s);
      assert cur + [w[0]] + w[1..] == cur + w;
    }
  }

  /** Splitting undoes joining for non-empty words without separators. */
  lemma {:induction false} FieldsOfJoin(parts: seq<string>)
    requires forall i :: 0 <= i < |parts| ==> parts[i] != "" && NoDelim(parts[i])
    ensures Fields(Join(parts)) == parts
  {
    if parts != [] {
      var w := parts[0];
      assert "" + w == w;
      if |parts| == 1 {
        ReadWord("", w, "");
        assert w + "" == w;
      } else {
        var rest := "|" + Join(parts[1..]);
        ReadWord("", w, rest);
        assert Join(parts) == w + rest;
        assert rest[1..] == Join(parts[1..]);
        FieldsOfJoin(parts[1..]);
        assert parts == [w] + parts[1..];
      }
    }
  }

  lemma {:induction false} JoinTrimmed(parts: seq<string>)
    requires forall i :: 0 <= i < |parts| ==> parts[i] != "" && Trimmed(parts[i])
    ensures Trimmed(Join(parts))
    ensures parts != [] ==> Join(parts) != ""
  {
    if |parts| > 1 {
      JoinTrimmed(parts[1..]);
      var j := Join(parts[1..]);
      assert Join(parts)[|Join(parts)| - 1] == j[|j| - 1];
    }
  }
}

/** Decimal numbers: `strconv.Itoa`, `strconv.Atoi` and the hand-written `itoa` of datasets/other.go. */
module Decimal {
  import opened Wrappers

  const INT_MIN := -0x8000_0000_0000_0000
  const INT_MAX := 0x7fff_ffff_ffff_ffff

  /** Go's `int` on a 64-bit machine. */
  type Int64 = x: int | INT_MIN <= x <= INT_MAX witness 0

  function Digit(d: nat): (c: char)
    requires d < 10
    ensures '0' <= c <= '9' && c as int - '0' as int == d
  {
    (d + '0' as int) as char
  }

  predicate AllDigits(s: string) {
    forall i :: 0 <= i < |s| ==> '0' <= s[i] <= '9'
  }

  /** Decimal digits, most significant first. */
  function Digits(n: nat): (s: string)
    ensures s != "" && AllDigits(s)
  {
    if n < 10 then [Digit(n)] else Digits(n / 10) + [Digit(n % 10)]
  }

  function Value(s: string): nat
    requires AllDigits(s)
  {
    if s == "" then 0
    else 10 * Value(s[..|s| - 1]) + (s[|s| - 1] as int - '0' as int)
  }

  lemma {:induction false} ValueOfDigits(n: nat)
    ensures Value(Digits(n)) == n
  {
    if n >= 10 {
      ValueOfDigits(n / 10);
      var s := Digits(n);
      assert s[..|s| - 1] == Digits(n / 10);
    } else {
      assert Digits(n)[..0] == "";
    }
  }

  /** `strconv.Itoa`. */
  function Itoa(i: int): (s: string)
    ensures s != "" && AllDigits(s[1..]) && (s[0] == '-' || '0' <= s[0] <= '9')
    ensures '0' <= s[|s| - 1] <= '9'
  {
    if i < 0 then "-" + Digits(-i) else Digits(i)
  }

  /** `strconv.Atoi`: an optional sign, then digits, within the range of `int`. */
  function Atoi(s: string): Option<int> {
    var signed := s != "" && (s[0] == '+' || s[0] == '-');
    var body := if signed then s[1..] else s;
    if body == "" || !AllDigits(body) then None
    else
      var v := if signed && s[0] == '-' then -(Value(body) as int) else Value(body);
      if INT_MIN <= v <= INT_MAX then Some(v) else None
  }

  lemma AtoiUnsigned(s: string, v: nat)
    requires s != "" && AllDigits(s) && Value(s) == v <= INT_MAX
    ensures Atoi(s) == Some(v)
  {
  }

  lemma AtoiNegative(s: string, v: nat)
    requires s != "" && AllDigits(s) && Value(s) == v && v <= -INT_MIN
    ensures Atoi("-" + s) == Some(0 - v)
  {
    assert ("-" + s)[1..] == s;
  }

  /** Parsing undoes printing on every machine integer. */
  lemma AtoiItoa(i: Int64)
    ensures Atoi(Itoa(i)) == Some(i)
  {
    var v: nat := if i < 0 then 0 - i else i;
    ValueOfDigits(v);
    if i < 0 {
      AtoiNegative(Digits(v), v);
    } else {
      AtoiUnsigned(Digits(v), v);
    }
  }

  function Pow10(k: nat): nat { if k == 0 then 1 else 10 * Pow10(k - 1) }

  function DigitsOrNothing(n: nat): string { if n == 0 then "" else Digits(n) }

  lemma NineteenDigits()
    ensures INT_MAX < Pow10(19)
  {
    assert Pow10(5) == 100000;
    assert Pow10(10) == 10000000000;
    assert Pow10(15) == 1000000000000000;
  }

  lemma OneDigitLess(i: nat, k: nat, rest: string)
    requires 0 < i < Pow10(k)
    ensures k > 0 && i / 10 < Pow10(k - 1)
    ensures DigitsOrNothing(i / 10) + ([Digit(i % 10)] + rest) == DigitsOrNothing(i) + rest
  {
  }

  /** The digits of `n` from place `pos` on are `done`; those of `i` are still to go before them. */
  ghost predicate Filling(i: nat, pos: nat, done: string, n: nat) {
    && 13 <= pos <= 32 && (i == 0 ==> pos < 32) && i < Pow10(pos - 13)
    && DigitsOrNothing(i) + done == DigitsOrNothing(n)
  }

  lemma FillingNext(i: nat, pos: nat, done: string, n: nat)
    requires i > 0 && Filling(i, pos, done, n)
    ensures pos > 13 && Filling(i / 10, pos - 1, [Digit(i % 10)] + done, n)
  {
    OneDigitLess(i, pos - 13, done);
  }

  lemma FillingStarts(n: nat)
    requires 0 < n <= INT_MAX
    ensures Filling(n, 32, "", n)
  {
    NineteenDigits();
    assert DigitsOrNothing(n) + "" == DigitsOrNothing(n);
  }

  /** Writes one digit before the others. */
  method PutDigit(b: array<char>, pos: nat, digit: char, ghost done: string)
    requires 0 < pos <= b.Length && b[pos..] == done
    modifies b
    ensures b[pos - 1..] == [digit] + done
  {
    b[pos - 1] := digit;
    assert b[pos..] == done;
  }

  /** The loop of `itoa`: digits go into the buffer from its end. */
  method FillDigits(b: array<char>, n: nat) returns (pos: nat)
    requires b.Length == 32 && 0 < n <= INT_MAX
    modifies b
    ensures 13 <= pos < 32 && b[pos..] == Digits(n)
  {
    var i: nat := n;
    pos := b.Length;
    ghost var done := "";
    FillingStarts(n);
    while i > 0
      invariant Filling(i, pos, done, n)
      invariant b[pos..] == done
    {
      FillingNext(i, pos, done, n);
      PutDigit(b, pos, Digit(i % 10), done);
      pos := pos - 1;
      done := [Digit(i % 10)] + done;
      i := i / 10;
    }
  }

  /**
   * `itoa`. Negating the smallest integer overflows back to itself, so for that one value only
   * the sign is written.
   */
  method ItoaBuffer(n: Int64) returns (s: string)
    ensures s == if n == INT_MIN then "-" else Itoa(n)
  {
    if n == 0 {
      return "0";
    }
    var i: int := n;
    var neg := false;
    if i < 0 {
      neg := true;
      i := if i == INT_MIN then i else -i;
    }
    var b := new char[32](_ => '0');
    var pos := 32;
    if i > 0 {
      pos := FillDigits(b, i);
    }
    ghost var digits := b[pos..];
    if neg {
      pos := pos - 1;
      b[pos] := '-';
      assert b[pos..] == "-" + digits;
    }
    s := b[pos..];
  }
}
