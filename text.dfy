/**
 * The string operations of JavaScript that the site relies on: `trim`, `toLowerCase`,
 * `includes`, `startsWith` and `split`. A string is a sequence of characters (Unicode scalar
 * values), where JavaScript counts UTF-16 code units; the two agree on the Basic Multilingual Plane.
 */
module Text {

  /** The white space and line terminators that `trim` and `parseInt` skip. */
  predicate IsSpace(c: char) {
    || c == ' ' || c == '\t' || c == '\n' || c == '\U{000B}' || c == '\U{000C}' || c == '\r'
    || c == '\U{00A0}' || c == '\U{1680}' || ('\U{2000}' <= c <= '\U{200A}')
    || c == '\U{2028}' || c == '\U{2029}' || c == '\U{202F}' || c == '\U{205F}'
    || c == '\U{3000}' || c == '\U{FEFF}'
  }

  /** `trimStart`: drops the leading white space, and only that. */
  function TrimStart(s: string): (r: string)
    ensures |r| <= |s| && r == s[|s| - |r|..]
    ensures forall k :: 0 <= k < |s| - |r| ==> IsSpace(s[k])
    ensures r != [] ==> !IsSpace(r[0])
    decreases |s|
  {
    if s != [] && IsSpace(s[0]) then TrimStart(s[1..]) else s
  }

  /** `trimEnd`: drops the trailing white space, and only that. */
  function TrimEnd(s: string): (r: string)
    ensures |r| <= |s| && r == s[..|r|]
    ensures forall k :: |r| <= k < |s| ==> IsSpace(s[k])
    ensures r != [] ==> !IsSpace(r[|r| - 1])
    decreases |s|
  {
    if s != [] && IsSpace(s[|s| - 1]) then TrimEnd(s[..|s| - 1]) else s
  }

  /** Text that does not start with white space is left alone by `trimStart`. */
  lemma TrimStartNoSpace(s: string)
    requires s == [] || !IsSpace(s[0])
    ensures TrimStart(s) == s
  {
  }

  /** `trimStart` drops a leading white-space character and goes on with the rest. */
  lemma TrimStartSkip(s: string)
    requires s != [] && IsSpace(s[0])
    ensures TrimStart(s) == TrimStart(s[1..])
  {
  }

  /** White space followed by something that does not start with white space trims to it. */
  lemma {:induction false} TrimStartSpaces(ws: string, x: string)
    requires forall k :: 0 <= k < |ws| ==> IsSpace(ws[k])
    requires x == [] || !IsSpace(x[0])
    ensures TrimStart(ws + x) == x
    decreases |ws|
  {
    if ws == [] {
      assert ws + x == x;
      TrimStartNoSpace(x);
    } else {
      var s := ws + x;
      assert s[1..] == ws[1..] + x;
      assert forall k :: 0 <= k < |ws[1..]| ==> ws[1..][k] == ws[k + 1];
      TrimStartSpaces(ws[1..], x);
      assert s[0] == ws[0];
      TrimStartSkip(s);
    }
  }

  /** `trim`: the text between the leading and the trailing white space. */
  function Trim(s: string): string {
    TrimEnd(TrimStart(s))
  }

  /** The number of white-space characters `trimStart` removes. */
  function LeadingSpace(s: string): nat {
    |s| - |TrimStart(s)|
  }

  /**
   * `trim` cuts out a middle slice, starting after the leading white space, whose surroundings
   * are white space and whose ends are not.
   */
  lemma TrimIsSlice(s: string)
    ensures LeadingSpace(s) + |Trim(s)| <= |s|
    ensures Trim(s) == s[LeadingSpace(s)..LeadingSpace(s) + |Trim(s)|]
    ensures forall k :: 0 <= k < LeadingSpace(s) ==> IsSpace(s[k])
    ensures forall k :: LeadingSpace(s) + |Trim(s)| <= k < |s| ==> IsSpace(s[k])
    ensures Trim(s) != [] ==> !IsSpace(Trim(s)[0]) && !IsSpace(Trim(s)[|Trim(s)| - 1])
  {
    PrefixOfSuffix(s, TrimStart(s), Trim(s));
    TrimEnds(s);
  }

  /** The text `trim` keeps begins and ends with a character that is not white space. */
  lemma TrimEnds(s: string)
    ensures Trim(s) != [] ==> !IsSpace(Trim(s)[0]) && !IsSpace(Trim(s)[|Trim(s)| - 1])
  {
    var t := TrimStart(s);
    if Trim(s) != [] {
      assert Trim(s)[0] == t[0];
    }
  }

  /** A prefix `e` of a suffix `t` of `s` is a slice of `s`, and what follows it in `s` follows it in `t`. */
  lemma PrefixOfSuffix(s: string, t: string, e: string)
    requires |t| <= |s| && t == s[|s| - |t|..]
    requires |e| <= |t| && e == t[..|e|]
    requires forall k :: |e| <= k < |t| ==> IsSpace(t[k])
    ensures e == s[|s| - |t|..|s| - |t| + |e|]
    ensures forall k :: |s| - |t| + |e| <= k < |s| ==> IsSpace(s[k])
  {
    var a := |s| - |t|;
    forall k | a + |e| <= k < |s| ensures IsSpace(s[k]) {
      assert s[k] == t[k - a];
    }
  }

  /** `toLowerCase` of one code unit, for the Basic Latin and Latin-1 capitals. */
  function LowerChar(c: char): char {
    if 'A' <= c <= 'Z' || ('\U{00C0}' <= c <= '\U{00DE}' && c != '\U{00D7}') then (c as int + 32) as char else c
  }

  /** `toLowerCase`: lower-cases every code unit and keeps the length. */
  function Lower(s: string): string {
    seq(|s|, i requires 0 <= i < |s| => LowerChar(s[i]))
  }

  /** Lower-casing twice is lower-casing once. */
  lemma LowerIdempotent(s: string)
    ensures Lower(Lower(s)) == Lower(s)
  {
  }

  /** `t` occurs in `s` starting at position `i`. */
  predicate OccursAt(s: string, t: string, i: int) {
    0 <= i <= |s| - |t| && s[i..i + |t|] == t
  }

  /** Lower-casing works piece by piece. */
  lemma LowerAppend(a: string, b: string)
    ensures Lower(a + b) == Lower(a) + Lower(b)
  {
    assert forall i :: 0 <= i < |a| ==> (a + b)[i] == a[i];
    assert forall i :: |a| <= i < |a| + |b| ==> (a + b)[i] == b[i - |a|];
  }

  /** `s.includes(t)`: `t` occurs in `s` at some position. */
  predicate Includes(s: string, t: string) {
    exists i :: 0 <= i <= |s| - |t| && OccursAt(s, t, i)
  }

  /** `s.startsWith(p)`. */
  predicate StartsWith(s: string, p: string) {
    |p| <= |s| && s[..|p|] == p
  }

  /** Containment is transitive: a string holding `t` holds everything `t` holds. */
  lemma IncludesTransitive(s: string, t: string, u: string)
    requires Includes(s, t) && Includes(t, u)
    ensures Includes(s, u)
  {
    var i :| 0 <= i <= |s| - |t| && OccursAt(s, t, i);
    var j :| 0 <= j <= |t| - |u| && OccursAt(t, u, j);
    assert s[i..i + |t|] == t && t[j..j + |u|] == u;
    forall k | 0 <= k < |u| ensures s[i + j + k] == u[k] {
      assert s[i + j + k] == s[i..i + |t|][j + k] == t[j + k] == t[j..j + |u|][k];
    }
    assert s[i + j..i + j + |u|] == u;
    assert OccursAt(s, u, i + j);
  }

  /** Lower-casing commutes with containment of an already lower-case needle. */
  lemma IncludesLower(s: string, t: string)
    requires Includes(s, t)
    ensures Includes(Lower(s), Lower(t))
  {
    var i :| 0 <= i <= |s| - |t| && OccursAt(s, t, i);
    assert s[i..i + |t|] == t;
    assert Lower(s)[i..i + |t|] == Lower(t);
    assert OccursAt(Lower(s), Lower(t), i);
  }

  /** `s.split(c)` for a one-character separator: the pieces between the separators. */
  function Split(s: string, c: char): (r: seq<string>)
    ensures |r| >= 1
    ensures forall i :: 0 <= i < |r| ==> c !in r[i]
    ensures Join(r, c) == s
    ensures |r| == 1 <==> c !in s
    decreases |s|
  {
    if s == [] then [""]
    else
      var rest := Split(s[1..], c);
      if s[0] == c then [""] + rest
      else
        assert s == [s[0]] + s[1..];
        [[s[0]] + rest[0]] + rest[1..]
  }

  /** The pieces glued back together with the separator between each two. */
  function Join(pieces: seq<string>, c: char): string
    requires |pieces| >= 1
    decreases |pieces|
  {
    if |pieces| == 1 then pieces[0] else pieces[0] + [c] + Join(pieces[1..], c)
  }

  /** Splitting text that starts with a separator-free piece and a separator. */
  lemma {:induction false} SplitCons(a: string, c: char, b: string)
    requires c !in a
    ensures Split(a + [c] + b, c) == [a] + Split(b, c)
    decreases |a|
  {
    if a == [] {
      assert a + [c] + b == [c] + b;
      assert ([c] + b)[1..] == b;
    } else {
      var s := a + [c] + b;
      assert s[0] == a[0] && s[1..] == a[1..] + [c] + b;
      SplitCons(a[1..], c, b);
      var rest := Split(s[1..], c);
      assert rest[0] == a[1..] && rest[1..] == Split(b, c);
      assert [a[0]] + a[1..] == a;
    }
  }

  /** A piece without the separator splits into itself. */
  lemma SplitWhole(x: string, c: char)
    requires c !in x
    ensures Split(x, c) == [x]
  {
    var r := Split(x, c);
    assert |r| == 1 && Join(r, c) == r[0];
  }

  /** Splitting `a` + separator + `b` when neither piece holds the separator. */
  lemma SplitTwo(a: string, c: char, b: string)
    requires c !in a && c !in b
    ensures Split(a + [c] + b, c) == [a, b]
  {
    SplitCons(a, c, b);
    SplitWhole(b, c);
  }
}
