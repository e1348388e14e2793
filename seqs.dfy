/** The array operations the pages use: `filter`, `slice(0, n)` and `find`. */
module Seqs {
  import opened Wrappers

  /** `Array.prototype.filter`: the elements that satisfy `p`, in their original order. */
  function Filter<T>(s: seq<T>, p: T -> bool): (r: seq<T>)
    ensures |r| <= |s|
    ensures forall i :: 0 <= i < |r| ==> r[i] in s && p(r[i])
    ensures forall i :: 0 <= i < |s| && p(s[i]) ==> s[i] in r
    decreases |s|
  {
    if s == [] then [] else (if p(s[0]) then [s[0]] else []) + Filter(s[1..], p)
  }

  /** `slice(0, n)`: the first `n` elements, or all of them when there are fewer. */
  function Take<T>(s: seq<T>, n: nat): (r: seq<T>)
    ensures |r| == if n < |s| then n else |s|
    ensures r == s[..|r|]
  {
    if n < |s| then s[..n] else s
  }

  /**
   * `r` holds the first `n` elements of `s` that satisfy `p`, in order, or all of them when there
   * are fewer: `r` is what `p` keeps of some prefix of `s`, and that prefix falls short of the
   * whole list only once `n` elements are kept, so no qualifying element is passed over.
   */
  predicate FirstQualifying<T(==)>(r: seq<T>, s: seq<T>, p: T -> bool, n: nat) {
    |r| <= n && exists c :: 0 <= c <= |s| && r == Filter(s[..c], p) && (c < |s| ==> |r| == n)
  }

  /** `filter(p).slice(0, n)` keeps exactly the first `n` qualifying elements. */
  lemma {:induction false} TakeFilterFirst<T>(s: seq<T>, p: T -> bool, n: nat)
    ensures FirstQualifying(Take(Filter(s, p), n), s, p, n)
    decreases |s|
  {
    var r := Take(Filter(s, p), n);
    if s == [] || n == 0 {
      assert s[..0] == [];
      assert r == Filter(s[..0], p);
    } else {
      var m: nat := if p(s[0]) then n - 1 else n;
      TakeFilterFirst(s[1..], p, m);
      var r' := Take(Filter(s[1..], p), m);
      var c' :| 0 <= c' <= |s[1..]| && r' == Filter(s[1..][..c'], p) && (c' < |s[1..]| ==> |r'| == m);
      var c := c' + 1;
      assert s[..c][0] == s[0] && s[..c][1..] == s[1..][..c'];
      if p(s[0]) {
        assert Filter(s, p) == [s[0]] + Filter(s[1..], p);
        assert r == [s[0]] + r';
      } else {
        assert Filter(s, p) == Filter(s[1..], p);
      }
      assert r == Filter(s[..c], p);
    }
  }

  /** `Array.prototype.find`: the first element satisfying `p`, or `None` when there is none. */
  function FindFirst<T>(s: seq<T>, p: T -> bool): (r: Option<T>)
    ensures r.None? <==> forall k :: 0 <= k < |s| ==> !p(s[k])
    ensures r.Some? ==> exists k :: 0 <= k < |s| && s[k] == r.value && p(s[k]) &&
                                    forall j :: 0 <= j < k ==> !p(s[j])
    decreases |s|
  {
    if s == [] then None
    else if p(s[0]) then Some(s[0])
    else
      var r := FindFirst(s[1..], p);
      assert r.Some? ==> exists k :: 0 <= k < |s[1..]| && s[1..][k] == r.value && p(s[1..][k]) &&
                                     forall j :: 0 <= j < k ==> !p(s[1..][j]);
      assert r.Some? ==> exists k :: 0 <= k < |s| && s[k] == r.value && p(s[k]) &&
                                     forall j :: 0 <= j < k ==> !p(s[j]) by {
        if r.Some? {
          var k :| 0 <= k < |s[1..]| && s[1..][k] == r.value && p(s[1..][k]) &&
                   forall j :: 0 <= j < k ==> !p(s[1..][j]);
          assert s[k + 1] == r.value && forall j :: 0 <= j < k + 1 ==> !p(s[j]);
        }
      }
      r
  }

  /** `a` is a subsequence of `b`: `a` is obtained from `b` by deleting elements, keeping order. */
  predicate IsSubseq<T(==)>(a: seq<T>, b: seq<T>)
    decreases |b|
  {
    if a == [] then true
    else if b == [] then false
    else if a[0] == b[0] then IsSubseq(a[1..], b[1..])
    else IsSubseq(a, b[1..])
  }

  /** Every pair of elements, in list order, is related by `rel` (e.g. "not later than"). */
  predicate Pairwise<T>(s: seq<T>, rel: (T, T) -> bool) {
    forall i, j :: 0 <= i < j < |s| ==> rel(s[i], s[j])
  }

  /**
   * In a list ordered by `rel`, the first `n` elements come before every element left out:
   * `rel` relates each taken element to each dropped one.
   */
  lemma TakeComesFirst<T>(s: seq<T>, n: nat, rel: (T, T) -> bool)
    requires Pairwise(s, rel)
    ensures forall x, j :: x in s && x !in Take(s, n) && 0 <= j < |Take(s, n)| ==> rel(Take(s, n)[j], x)
  {
    var t := Take(s, n);
    forall x, j | x in s && x !in t && 0 <= j < |t| ensures rel(t[j], x) {
      var k :| 0 <= k < |s| && s[k] == x;
      if k < |t| {
        assert false;
      }
      assert t[j] == s[j];
    }
  }

  /** Filtering keeps the order of what it keeps. */
  lemma {:induction false} FilterIsSubseq<T>(s: seq<T>, p: T -> bool)
    ensures IsSubseq(Filter(s, p), s)
    decreases |s|
  {
    if s != [] {
      FilterIsSubseq(s[1..], p);
      if p(s[0]) {
        assert Filter(s, p)[1..] == Filter(s[1..], p);
      } else {
        assert Filter(s, p) == Filter(s[1..], p);
        SubseqOfTail(Filter(s[1..], p), s);
      }
    }
  }

  /** A subsequence of the tail is a subsequence of the whole. */
  lemma {:induction false} SubseqOfTail<T>(a: seq<T>, b: seq<T>)
    requires b != [] && IsSubseq(a, b[1..])
    ensures IsSubseq(a, b)
    decreases |a| + |b|
  {
    if a != [] && a[0] == b[0] {
      SubseqDropHead(a, b[1..]);
    }
  }

  /** Deleting the first element of a subsequence leaves a subsequence. */
  lemma {:induction false} SubseqDropHead<T>(a: seq<T>, c: seq<T>)
    requires a != [] && IsSubseq(a, c)
    ensures IsSubseq(a[1..], c)
    decreases |a| + |c|
  {
    if a[0] == c[0] {
      SubseqOfTail(a[1..], c);
    } else {
      SubseqDropHead(a, c[1..]);
      SubseqOfTail(a[1..], c);
    }
  }

  /** A prefix is a subsequence. */
  lemma {:induction false} PrefixIsSubseq<T>(s: seq<T>, n: nat)
    requires n <= |s|
    ensures IsSubseq(s[..n], s)
    decreases n
  {
    if n > 0 {
      PrefixIsSubseq(s[1..], n - 1);
      assert s[..n][1..] == s[1..][..n - 1];
    }
  }

  /** Every element of a subsequence is an element of the sequence. */
  lemma {:induction false} SubseqMembers<T>(a: seq<T>, b: seq<T>)
    requires IsSubseq(a, b)
    ensures forall x :: x in a ==> x in b
    decreases |b|
  {
    if a != [] {
      if a[0] == b[0] {
        SubseqMembers(a[1..], b[1..]);
        forall x | x in a ensures x in b {
          if x != a[0] { assert x in a[1..]; }
        }
      } else {
        SubseqMembers(a, b[1..]);
      }
    }
  }

  /** A pairwise ordering (such as "sorted by date, newest first") survives deleting elements. */
  lemma {:induction false} SubseqPairwise<T>(a: seq<T>, b: seq<T>, rel: (T, T) -> bool)
    requires IsSubseq(a, b) && Pairwise(b, rel)
    ensures Pairwise(a, rel)
    decreases |b|
  {
    if a != [] {
      if a[0] == b[0] {
        SubseqPairwise(a[1..], b[1..], rel);
        SubseqMembers(a[1..], b[1..]);
        forall i, j | 0 <= i < j < |a| ensures rel(a[i], a[j]) {
          if i == 0 {
            assert a[j] in a[1..];
            var k :| 0 <= k < |b[1..]| && b[1..][k] == a[j];
            assert b[k + 1] == a[j];
          } else {
            assert a[i] == a[1..][i - 1] && a[j] == a[1..][j - 1];
          }
        }
      } else {
        assert Pairwise(b[1..], rel) by {
          forall i, j | 0 <= i < j < |b[1..]| ensures rel(b[1..][i], b[1..][j]) {
            assert b[1..][i] == b[i + 1] && b[1..][j] == b[j + 1];
          }
        }
        SubseqPairwise(a, b[1..], rel);
      }
    }
  }

  /** `p` and its negation split a list: the two parts together hold every element exactly once. */
  lemma {:induction false} FilterPartition<T>(s: seq<T>, p: T -> bool, q: T -> bool)
    requires forall x :: q(x) == !p(x)
    ensures |Filter(s, p)| + |Filter(s, q)| == |s|
    ensures multiset(Filter(s, p)) + multiset(Filter(s, q)) == multiset(s)
    decreases |s|
  {
    if s != [] {
      FilterPartition(s[1..], p, q);
      assert s == [s[0]] + s[1..];
    }
  }

  /** A filter that every element passes keeps the whole list. */
  lemma {:induction false} FilterAll<T>(s: seq<T>, p: T -> bool)
    requires forall k :: 0 <= k < |s| ==> p(s[k])
    ensures Filter(s, p) == s
    decreases |s|
  {
    if s != [] {
      FilterAll(s[1..], p);
    }
  }

  /** A filter that exactly one position of the list passes keeps one element. */
  lemma {:induction false} FilterSingle<T>(s: seq<T>, p: T -> bool, k: nat)
    requires k < |s| && p(s[k])
    requires forall j :: 0 <= j < |s| && j != k ==> !p(s[j])
    ensures Filter(s, p) == [s[k]]
    decreases |s|
  {
    if k == 0 {
      FilterNone(s[1..], p);
    } else {
      FilterSingle(s[1..], p, k - 1);
    }
  }

  /** A filter that no element passes keeps nothing. */
  lemma {:induction false} FilterNone<T>(s: seq<T>, p: T -> bool)
    requires forall k :: 0 <= k < |s| ==> !p(s[k])
    ensures Filter(s, p) == []
    decreases |s|
  {
    if s != [] {
      FilterNone(s[1..], p);
    }
  }

  /** Two disjoint filters together keep exactly what the filter of their union keeps. */
  lemma {:induction false} FilterSplit<T>(s: seq<T>, p: T -> bool, q: T -> bool, either: T -> bool)
    requires forall x :: either(x) == (p(x) || q(x))
    requires forall x :: !(p(x) && q(x))
    ensures multiset(Filter(s, p)) + multiset(Filter(s, q)) == multiset(Filter(s, either))
    decreases |s|
  {
    if s != [] {
      FilterSplit(s[1..], p, q, either);
    }
  }

  /** What one pass of a `for` loop over a list does: nothing, push a value, or end the loop. */
  datatype Step<U> = Skip | Emit(value: U) | Stop

  /** The values a loop pushes, in list order, up to the first element that ends the loop. */
  function Collect<T, U>(s: seq<T>, f: T -> Step<U>): (r: seq<U>)
    ensures |r| <= |s|
    decreases |s|
  {
    if s == [] then []
    else
      match f(s[0])
      case Skip => Collect(s[1..], f)
      case Emit(u) => [u] + Collect(s[1..], f)
      case Stop => []
  }

  /** What every emitted value satisfies, every pushed value satisfies. */
  lemma {:induction false} CollectAll<T, U>(s: seq<T>, f: T -> Step<U>, p: U -> bool)
    requires forall k :: 0 <= k < |s| && f(s[k]).Emit? ==> p(f(s[k]).value)
    ensures forall k :: 0 <= k < |Collect(s, f)| ==> p(Collect(s, f)[k])
    decreases |s|
  {
    if s != [] {
      assert forall k :: 0 <= k < |s[1..]| ==> s[1..][k] == s[k + 1];
      CollectAll(s[1..], f, p);
    }
  }

  /** An element emitted before anything ends the loop has its value pushed. */
  lemma {:induction false} CollectKeeps<T, U>(s: seq<T>, f: T -> Step<U>, k: nat)
    requires k < |s| && f(s[k]).Emit?
    requires forall j :: 0 <= j < k ==> !f(s[j]).Stop?
    ensures f(s[k]).value in Collect(s, f)
    decreases k
  {
    if k > 0 {
      assert forall j :: 0 <= j < k - 1 ==> s[1..][j] == s[j + 1];
      assert s[1..][k - 1] == s[k];
      CollectKeeps(s[1..], f, k - 1);
    }
  }

  /** An element that ends the loop drops everything after it. */
  lemma {:induction false} CollectStopAt<T, U>(s: seq<T>, f: T -> Step<U>, k: nat)
    requires k < |s| && f(s[k]).Stop?
    ensures Collect(s, f) == Collect(s[..k], f)
    decreases k
  {
    if k > 0 {
      assert s[1..][k - 1] == s[k];
      CollectStopAt(s[1..], f, k - 1);
      assert s[..k][0] == s[0] && s[..k][1..] == s[1..][..k - 1];
    }
  }

  /** Before anything ends the loop, a list is collected piece by piece. */
  lemma {:induction false} CollectAppend<T, U>(a: seq<T>, b: seq<T>, f: T -> Step<U>)
    requires forall k :: 0 <= k < |a| ==> !f(a[k]).Stop?
    ensures Collect(a + b, f) == Collect(a, f) + Collect(b, f)
    decreases |a|
  {
    if a == [] {
      assert a + b == b;
    } else {
      assert (a + b)[0] == a[0] && (a + b)[1..] == a[1..] + b;
      assert forall k :: 0 <= k < |a[1..]| ==> a[1..][k] == a[k + 1];
      CollectAppend(a[1..], b, f);
    }
  }

  /** An element the loop skips can be deleted without changing what is pushed. */
  lemma {:induction false} CollectSkip<T, U>(a: seq<T>, x: T, b: seq<T>, f: T -> Step<U>)
    requires f(x).Skip?
    ensures Collect(a + [x] + b, f) == Collect(a + b, f)
    decreases |a|
  {
    if a == [] {
      assert a + [x] + b == [x] + b && a + b == b;
      assert ([x] + b)[1..] == b;
    } else {
      assert (a + [x] + b)[0] == a[0] && (a + [x] + b)[1..] == a[1..] + [x] + b;
      assert (a + b)[0] == a[0] && (a + b)[1..] == a[1..] + b;
      CollectSkip(a[1..], x, b, f);
    }
  }

  /** One more pass of the loop, from position `i`. */
  lemma CollectFrom<T, U>(s: seq<T>, f: T -> Step<U>, i: nat)
    requires i < |s|
    ensures Collect(s[i..], f) == match f(s[i])
                                  case Skip => Collect(s[i + 1..], f)
                                  case Emit(u) => [u] + Collect(s[i + 1..], f)
                                  case Stop => []
  {
    assert s[i..][0] == s[i] && s[i..][1..] == s[i + 1..];
  }

  /** Being a subsequence is transitive. */
  lemma {:induction false} SubseqTrans<T>(a: seq<T>, b: seq<T>, c: seq<T>)
    requires IsSubseq(a, b) && IsSubseq(b, c)
    ensures IsSubseq(a, c)
    decreases |c|
  {
    if a != [] {
      if b[0] == c[0] {
        if a[0] == b[0] {
          SubseqTrans(a[1..], b[1..], c[1..]);
        } else {
          SubseqTrans(a, b[1..], c[1..]);
          SubseqOfTail(a, c);
        }
      } else {
        SubseqTrans(a, b, c[1..]);
        SubseqOfTail(a, c);
      }
    }
  }
}
