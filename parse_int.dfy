/**
 * JavaScript's global `parseInt(string)` with no radix argument: skip leading white
 * space, read an optional sign, switch to base 16 after a `0x`/`0X` prefix, then read the
 * longest run of digits. `None` stands for NaN, the result when no digit is read.
 */
module JsParseInt {
  import opened Wrappers
  import opened Text

  predicate IsDecDigit(c: char) {
    '0' <= c <= '9'
  }

  predicate IsHexDigit(c: char) {
    IsDecDigit(c) || 'a' <= c <= 'f' || 'A' <= c <= 'F'
  }

  /** A digit of base 10, or of base 16 when `hex` holds. */
  predicate IsDigit(c: char, hex: bool) {
    if hex then IsHexDigit(c) else IsDecDigit(c)
  }

  function DigitValue(c: char): (v: nat)
    requires IsHexDigit(c)
    ensures v < 16 && (IsDecDigit(c) ==> v < 10)
  {
    if IsDecDigit(c) then c as int - '0' as int
    else if 'a' <= c <= 'f' then c as int - 'a' as int + 10
    else c as int - 'A' as int + 10
  }

  /** The longest prefix of `s` made of digits. */
  function DigitRun(s: string, hex: bool): (r: string)
    ensures |r| <= |s| && r == s[..|r|]
    ensures forall k :: 0 <= k < |r| ==> IsDigit(r[k], hex)
    ensures |r| < |s| ==> !IsDigit(s[|r|], hex)
    decreases |s|
  {
    if s != [] && IsDigit(s[0], hex) then
      var rest := DigitRun(s[1..], hex);
      assert [s[0]] + rest == s[..1 + |rest|];
      [s[0]] + rest
    else []
  }

  /** The number a run of digits denotes, most significant digit first. */
  function Value(ds: string, hex: bool): nat
    requires forall k :: 0 <= k < |ds| ==> IsDigit(ds[k], hex)
    decreases |ds|
  {
    if ds == [] then 0
    else
      var last := ds[|ds| - 1];
      assert IsDigit(last, hex);
      Value(ds[..|ds| - 1], hex) * (if hex then 16 else 10) + DigitValue(last)
  }

  /** A `0x` or `0X` prefix selects base 16. */
  predicate HasHexPrefix(u: string) {
    |u| >= 2 && u[0] == '0' && (u[1] == 'x' || u[1] == 'X')
  }

  /** The digits after the sign: `None` when there are none. */
  function ParseUnsigned(u: string): (r: Option<nat>)
    ensures r.None? <==> DigitRun(if HasHexPrefix(u) then u[2..] else u, HasHexPrefix(u)) == []
  {
    var hex := HasHexPrefix(u);
    var ds := DigitRun(if hex then u[2..] else u, hex);
    if ds == [] then None else Some(Value(ds, hex))
  }

  /** No character of `s` is a decimal digit. */
  predicate NoDecDigit(s: string) {
    forall k :: 0 <= k < |s| ==> !IsDecDigit(s[k])
  }

  function ParseInt(s: string): (r: Option<int>)
    ensures TrimStart(s) == [] ==> r.None?
    ensures r.Some? && r.value < 0 ==> TrimStart(s)[0] == '-'
  {
    var t := TrimStart(s);
    var negative := t != [] && t[0] == '-';
    var u := if t != [] && (t[0] == '-' || t[0] == '+') then t[1..] else t;
    match ParseUnsigned(u)
    case None => None
    case Some(v) => Some(if negative then -(v as int) else v)
  }

  /** Text without a decimal digit reads as NaN: it has no digits, and no `0x` prefix either. */
  lemma ParseIntNoDigit(s: string)
    ensures NoDecDigit(s) ==> ParseInt(s).None?
  {
    var t := TrimStart(s);
    var u := if t != [] && (t[0] == '-' || t[0] == '+') then t[1..] else t;
    if NoDecDigit(s) {
      assert u == s[|s| - |u|..];
      assert NoDecDigit(u) by {
        assert forall k :: 0 <= k < |u| ==> u[k] == s[|s| - |u| + k];
      }
      NoDigitUnsigned(u);
    }
  }

  /** Without a decimal digit there is neither a digit run nor a `0x` prefix. */
  lemma NoDigitUnsigned(u: string)
    requires NoDecDigit(u)
    ensures ParseUnsigned(u).None?
  {
    if u != [] {
      assert !IsDecDigit(u[0]);
    }
  }

  /** A decimal run read from the start, not mistaken for a hexadecimal prefix. */
  lemma ParseUnsignedDecimal(ds: string, rest: string)
    requires |ds| >= 1 && forall k :: 0 <= k < |ds| ==> IsDecDigit(ds[k])
    requires rest == [] || !IsDecDigit(rest[0])
    requires ds == "0" && rest != [] ==> rest[0] != 'x' && rest[0] != 'X'
    ensures ParseUnsigned(ds + rest) == Some(Value(ds, false))
  {
    var u := ds + rest;
    assert !HasHexPrefix(u) by {
      if |ds| >= 2 {
        assert u[1] == ds[1];
      } else if |u| >= 2 {
        assert u[1] == rest[0];
      }
    }
    DigitRunOf(ds, rest, false);
  }

  /**
   * `parseInt(s) || 0`: NaN (and zero) become 0, so text without a digit counts as 0, while a
   * numeral counts as its value.
   */
  function ParseIntOr0(s: string): (n: int)
    ensures NoDecDigit(s) ==> n == 0
    ensures IsDigitString(s) ==> n == Number(s)
  {
    var r := ParseInt(s);
    ParseIntNoDigit(s);
    assert IsDigitString(s) ==> r == Some(Number(s) as int) by {
      if IsDigitString(s) {
        ParseDigits(s);
      }
    }
    match r
    case Some(v) => v
    case None => 0
  }

  /** `parseInt(parts[i])`, where an index past the end reads `undefined`, whose parse is NaN. */
  function ParseIntAt(parts: seq<string>, i: nat): (r: Option<int>)
    ensures i >= |parts| ==> r.None?
  {
    if i < |parts| then ParseInt(parts[i]) else None
  }

  /** A present part that is a numeral reads as its value; one without a digit as NaN. */
  lemma ParseIntAtPart(parts: seq<string>, i: nat)
    ensures i < |parts| && NoDecDigit(parts[i]) ==> ParseIntAt(parts, i).None?
    ensures i < |parts| && IsDigitString(parts[i]) ==> ParseIntAt(parts, i) == Some(Number(parts[i]) as int)
  {
    if i < |parts| {
      ParseIntNoDigit(parts[i]);
      if IsDigitString(parts[i]) {
        ParseDigits(parts[i]);
      }
    }
  }

  /** The decimal numeral of `n`, without leading zeros. */
  function DecimalString(n: nat): (r: string)
    ensures |r| >= 1 && (|r| > 1 ==> r[0] != '0')
    ensures forall k :: 0 <= k < |r| ==> IsDecDigit(r[k])
  {
    if n < 10 then [('0' as int + n) as char]
    else DecimalString(n / 10) + [('0' as int + n % 10) as char]
  }

  lemma {:induction false} ValueOfDecimalString(n: nat)
    ensures Value(DecimalString(n), false) == n
  {
    if n >= 10 {
      ValueOfDecimalString(n / 10);
      assert DecimalString(n)[..|DecimalString(n)| - 1] == DecimalString(n / 10);
    }
  }

  /** A digit run followed by a non-digit is read in full and no further. */
  lemma {:induction false} DigitRunOf(ds: string, rest: string, hex: bool)
    requires forall k :: 0 <= k < |ds| ==> IsDigit(ds[k], hex)
    requires rest == [] || !IsDigit(rest[0], hex)
    ensures DigitRun(ds + rest, hex) == ds
    decreases |ds|
  {
    if ds == [] {
      assert ds + rest == rest;
    } else {
      DigitRunOf(ds[1..], rest, hex);
      assert (ds + rest)[1..] == ds[1..] + rest;
      assert IsDigit((ds + rest)[0], hex);
    }
  }

  /** A digit is neither white space nor a sign. */
  lemma DigitIsNoSpace(c: char)
    requires IsDecDigit(c)
    ensures !IsSpace(c) && c != '-' && c != '+'
  {
  }

  /** Leading white space is skipped; without a sign, the rest is read unsigned. */
  lemma ParseIntSkipsSpaces(ws: string, u: string)
    requires forall k :: 0 <= k < |ws| ==> IsSpace(ws[k])
    requires u == [] || (!IsSpace(u[0]) && u[0] != '-' && u[0] != '+')
    ensures ParseInt(ws + u) == ParseUnsigned(u)
  {
    TrimStartSpaces(ws, u);
  }

  /**
   * parseInt reads a decimal numeral that follows white space and stops at the first
   * non-digit, unless the numeral is a lone `0` followed by `x`, which makes it hexadecimal.
   */
  lemma ParseIntDecimal(ws: string, ds: string, rest: string)
    requires forall k :: 0 <= k < |ws| ==> IsSpace(ws[k])
    requires |ds| >= 1 && forall k :: 0 <= k < |ds| ==> IsDecDigit(ds[k])
    requires rest == [] || !IsDecDigit(rest[0])
    requires ds == "0" && rest != [] ==> rest[0] != 'x' && rest[0] != 'X'
    ensures ParseInt(ws + (ds + rest)) == Some(Value(ds, false))
  {
    var u := ds + rest;
    DigitIsNoSpace(u[0]) by {
      assert u[0] == ds[0];
    }
    ParseIntSkipsSpaces(ws, u);
    ParseUnsignedDecimal(ds, rest);
  }

  /** A leading minus sign negates the unsigned reading of what follows it. */
  lemma ParseIntMinus(u: string, v: nat)
    requires ParseUnsigned(u) == Some(v)
    ensures ParseInt("-" + u) == Some(-(v as int))
  {
    var s := "-" + u;
    assert s[0] == '-' && s[1..] == u;
    assert TrimStart(s) == s;
  }

  /** The numeral of `m` is read as exactly its digits. */
  lemma ParseUnsignedDecimalString(m: nat)
    ensures ParseUnsigned(DecimalString(m)) == Some(m)
  {
    var ds := DecimalString(m);
    ParseUnsignedDecimal(ds, "");
    assert ds + "" == ds;
    ValueOfDecimalString(m);
  }

  /** Text that starts with a digit is read unsigned from its first character. */
  lemma ParseIntFromDigit(u: string)
    requires u != [] && IsDecDigit(u[0])
    ensures ParseInt(u) == ParseUnsigned(u)
  {
    assert !IsSpace(u[0]);
    TrimStartNoSpace(u);
  }

  /** Round trip: parseInt reads back the decimal numeral of any natural number. */
  lemma ParseIntRoundTrip(n: nat)
    ensures ParseInt(DecimalString(n)) == Some(n)
  {
    ParseUnsignedDecimalString(n);
    ParseIntFromDigit(DecimalString(n));
  }

  /** Round trip for a negative number written with a leading minus sign. */
  lemma ParseIntRoundTripNegative(n: nat)
    ensures ParseInt("-" + DecimalString(n)) == Some(-(n as int))
  {
    ParseUnsignedDecimalString(n);
    ParseIntMinus(DecimalString(n), n);
  }

  /** A non-empty run of ASCII digits. */
  predicate IsDigitString(x: string) {
    |x| >= 1 && forall k :: 0 <= k < |x| ==> IsDecDigit(x[k])
  }

  /**
   * The decimal number written by `x`, a character that is not a digit counting as 0; for
   * the digit runs a regular expression captures with `\d` it is the value of the digits.
   */
  function Number(x: string): nat
    decreases |x|
  {
    if x == [] then 0
    else
      var last := x[|x| - 1];
      Number(x[..|x| - 1]) * 10 + (if IsDecDigit(last) then DigitValue(last) else 0)
  }

  /** On a run of digits, `Number` is the value parseInt reads. */
  lemma {:induction false} NumberIsValue(x: string)
    requires forall k :: 0 <= k < |x| ==> IsDecDigit(x[k])
    ensures forall k :: 0 <= k < |x| ==> IsDigit(x[k], false)
    ensures Number(x) == Value(x, false)
    decreases |x|
  {
    if x != [] {
      NumberIsValue(x[..|x| - 1]);
    }
  }

  /** parseInt reads a run of digits as its decimal value. */
  lemma ParseDigits(x: string)
    requires IsDigitString(x)
    ensures ParseInt(x) == Some(Number(x) as int)
  {
    ParseIntDecimal("", x, "");
    NumberIsValue(x);
    assert "" + (x + "") == x;
  }
}
