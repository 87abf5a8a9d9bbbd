/** How Postgres reads the text of a route parameter compared with an integer
    primary key: the input syntax of the int4 type. Text it cannot read makes the
    query fail, which the handlers answer with a 500. */
module Postgres {
  import opened Js

  const MinInt4 := -0x8000_0000
  const MaxInt4 := 0x7fff_ffff

  /** The white space int4 input skips around the number (C `isspace`). */
  predicate IsCSpace(c: char) {
    c == ' ' || c == '\t' || c == '\n' || c == '\r' || c == '\U{B}' || c == '\U{C}'
  }

  predicate IsDecimal(c: char) {
    '0' <= c <= '9'
  }

  predicate AllDecimal(s: string) {
    forall i :: 0 <= i < |s| ==> IsDecimal(s[i])
  }

  /** Drops the leading white space. */
  function SkipSpace(s: string): (r: string)
    ensures |r| <= |s| && r == s[|s| - |r|..]
    ensures forall i :: 0 <= i < |s| - |r| ==> IsCSpace(s[i])
    ensures r == [] || !IsCSpace(r[0])
  {
    if s != [] && IsCSpace(s[0]) then
      var r := SkipSpace(s[1..]);
      assert forall i :: 1 <= i < |s| - |r| ==> s[i] == s[1..][i - 1];
      r
    else s
  }

  /** Drops the trailing white space. */
  function DropSpace(s: string): (r: string)
    ensures |r| <= |s| && r == s[..|r|]
    ensures forall i :: |r| <= i < |s| ==> IsCSpace(s[i])
    ensures r == [] || !IsCSpace(r[|r| - 1])
  {
    if s != [] && IsCSpace(s[|s| - 1]) then DropSpace(s[..|s| - 1]) else s
  }

  /** The int4 input function: optional white space, an optional sign, one or
      more decimal digits, optional white space, and a value in the 32-bit range.
      Anything else is an input syntax or range error (None). */
  function Int4Input(s: string): (v: Option<int>)
    ensures v.Some? ==> MinInt4 <= v.value <= MaxInt4
  {
    Int4Core(DropSpace(SkipSpace(s)))
  }

  /** The number between the white space: a sign, digits and the range check. */
  function Int4Core(core: string): (v: Option<int>)
    ensures v.Some? ==> MinInt4 <= v.value <= MaxInt4
    ensures v.Some? ==> core != [] && (core[0] == '-' || core[0] == '+' || IsDecimal(core[0]))
  {
    var signed := core != [] && (core[0] == '-' || core[0] == '+');
    var digits := if signed then core[1..] else core;
    if digits == [] || !AllDecimal(digits) then None
    else
      var n := DigitsValue(digits, 10);
      var value := if core[0] == '-' then 0 - n else n;
      if MinInt4 <= value <= MaxInt4 then Some(value) else None
  }

  /** Text that is not a whole integer is refused. */
  lemma Int4RejectsNonIntegers()
    ensures Int4Input("7abc") == None
    ensures Int4Input("7.9") == None
    ensures Int4Input("0x7") == None
  {
    NoSpaceAround("7abc");
    NonDigitRejected("7abc", 1);
    NoSpaceAround("7.9");
    NonDigitRejected("7.9", 1);
    NoSpaceAround("0x7");
    NonDigitRejected("0x7", 1);
  }

  /** Text without white space at either end is read as it stands. */
  lemma NoSpaceAround(s: string)
    requires s == [] || (!IsCSpace(s[0]) && !IsCSpace(s[|s| - 1]))
    ensures SkipSpace(s) == s && DropSpace(s) == s
  {
  }

  /** A character after the first that is no decimal digit makes the text no
      integer, whatever else it holds. */
  lemma NonDigitRejected(core: string, k: int)
    requires 1 <= k < |core| && !IsDecimal(core[k])
    ensures Int4Core(core) == None
  {
    var signed := core[0] == '-' || core[0] == '+';
    var digits := if signed then core[1..] else core;
    var j := if signed then k - 1 else k;
    assert digits[j] == core[k];
  }

  /** White space around a number is accepted. */
  lemma Int4SkipsSpace()
    ensures Int4Input(" 42 ") == Some(42)
  {
    assert " 42 "[1..] == "42 ";
    NoSpaceAround("42 "[..2]);
    assert "42 "[..2] == "42";
    assert Int4Input(" 42 ") == Int4Core("42");
    assert "42"[..1] == "4";
    assert "4"[..0] == [];
    assert DigitsValue("42", 10) == 42;
  }

  /** Whatever int4 input accepts, JavaScript's parseInt reads as the same number:
      parseInt skips a superset of the white space, and stops at the first
      character after the digits. */
  lemma Int4AgreesWithParseInt(s: string)
    requires Int4Input(s).Some?
    ensures ParseInt(s) == Int4Input(s)
  {
    var rest := SkipSpace(s);
    var core := DropSpace(rest);
    assert rest[0] == core[0];
    SkipSpaceIsTrimStart(s);
    RestParses(rest);
  }

  /** Where int4 input's white space ends at a sign or digit, trimStart stops too. */
  lemma SkipSpaceIsTrimStart(s: string)
    requires SkipSpace(s) != [] && !IsSpace(SkipSpace(s)[0])
    ensures TrimStart(s) == SkipSpace(s)
  {
    var rest := SkipSpace(s);
    SplitAt(s, |s| - |rest|);
    TrimStartSkips(s[..|s| - |rest|], rest);
  }

  /** parseInt, once past the white space, reads what int4 input reads. */
  lemma RestParses(rest: string)
    requires Int4Core(DropSpace(rest)).Some?
    ensures ParseSigned(rest) == Int4Core(DropSpace(rest))
  {
    var core := DropSpace(rest);
    SplitAt(rest, |core|);
    CoreParses(core, rest[|core|..]);
  }

  /** parseInt of a number int4 input accepts, followed by white space. */
  lemma CoreParses(core: string, tail: string)
    requires Int4Core(core).Some?
    requires forall i :: 0 <= i < |tail| ==> IsCSpace(tail[i])
    ensures ParseSigned(core + tail) == Int4Core(core)
  {
    var rest := core + tail;
    var signed := core[0] == '-' || core[0] == '+';
    var digits := if signed then core[1..] else core;
    var n := DigitsValue(digits, 10);
    var v: int := if core[0] == '-' then 0 - (n as int) else n as int;
    assert Int4Core(core) == Some(v);
    assert rest[0] == core[0];
    var unsigned := if signed then rest[1..] else rest;
    assert unsigned == digits + tail by {
      if signed {
        DropHead(core, tail);
      }
    }
    UnsignedParses(digits, tail);
    SignedParses(rest, n);
  }

  lemma SplitAt(s: string, k: int)
    requires 0 <= k <= |s|
    ensures s == s[..k] + s[k..]
  {
  }

  lemma DropHead(a: string, b: string)
    requires a != []
    ensures (a + b)[1..] == a[1..] + b
  {
  }

  /** parseInt after the white space applies the sign to the unsigned reading. */
  lemma SignedParses(t: string, n: nat)
    requires t != []
    requires ParseUnsigned(if t[0] == '-' || t[0] == '+' then t[1..] else t) == Some(n)
    ensures ParseSigned(t) == Some(if t[0] == '-' then 0 - (n as int) else n as int)
  {
  }

  /** Decimal digits followed by white space read as their value. */
  lemma UnsignedParses(digits: string, tail: string)
    requires digits != [] && AllDecimal(digits)
    requires forall i :: 0 <= i < |tail| ==> IsCSpace(tail[i])
    ensures ParseUnsigned(digits + tail) == Some(DigitsValue(digits, 10))
  {
    var u := digits + tail;
    assert !(|u| >= 2 && u[0] == '0' && (u[1] == 'x' || u[1] == 'X')) by {
      if |u| >= 2 && u[0] == '0' {
        if |digits| >= 2 {
          assert u[1] == digits[1];
        } else {
          assert u[1] == tail[0];
        }
      }
    }
    assert tail == [] || DigitValue(tail[0]) >= 10;
    DigitPrefixStops(digits, tail);
  }

  /** A prefix of parseInt's white space is what trimStart removes. */
  lemma {:induction false} TrimStartSkips(w: string, a: string)
    requires forall i :: 0 <= i < |w| ==> IsCSpace(w[i])
    requires a == [] || !IsSpace(a[0])
    ensures TrimStart(w + a) == a
    decreases |w|
  {
    if w == [] {
      assert w + a == a;
    } else {
      assert (w + a)[0] == w[0];
      assert (w + a)[1..] == w[1..] + a;
      TrimStartSkips(w[1..], a);
    }
  }

  /** Reading digits stops at the first character that is not one. */
  lemma {:induction false} DigitPrefixStops(digits: string, tail: string)
    requires AllDecimal(digits)
    requires tail == [] || DigitValue(tail[0]) >= 10
    ensures DigitPrefix(digits + tail, 10) == digits
  {
    if digits == [] {
      assert digits + tail == tail;
    } else {
      assert (digits + tail)[0] == digits[0];
      assert (digits + tail)[1..] == digits[1..] + tail;
      DigitPrefixStops(digits[1..], tail);
    }
  }

  /** Every 32-bit integer, written in decimal, reads back as itself; any other
      integer is out of range. */
  lemma Int4ReadsDecimal(i: int)
    ensures Int4Input(IntString(i)) == if MinInt4 <= i <= MaxInt4 then Some(i) else None
  {
    var n: nat := if i < 0 then -i else i;
    var s := IntString(i);
    var d := DecimalString(n);
    IntStringUnpadded(i);
    DecimalDigitsValue(n);
    if i < 0 {
      assert s[1..] == d;
    }
    CoreReadsDigits(s, d);
  }

  /** String(i) has no white space around it. */
  lemma IntStringUnpadded(i: int)
    ensures SkipSpace(IntString(i)) == IntString(i) && DropSpace(IntString(i)) == IntString(i)
  {
    var s := IntString(i);
    var d := DecimalString(if i < 0 then -i else i);
    assert s[|s| - 1] == d[|d| - 1];
    NoSpaceAround(s);
  }

  /** A sign-free or minus-signed run of digits reads as its value, when in range. */
  lemma CoreReadsDigits(core: string, digits: string)
    requires core == digits || (core != [] && core[0] == '-' && core[1..] == digits)
    requires digits != [] && forall k :: 0 <= k < |digits| ==> '0' <= digits[k] <= '9'
    ensures var v := (if core == digits then 1 else -1) * DigitsValue(digits, 10);
      Int4Core(core) == if MinInt4 <= v <= MaxInt4 then Some(v) else None
  {
    assert AllDecimal(digits);
    if core != digits {
      assert core[0] == '-';
    }
  }
}
