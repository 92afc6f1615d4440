/** Order-preserving selection over sequences: the model of `Array.prototype.filter`. */
module Seqs {

  /** The elements of `s` that satisfy `p`, in their original order. */
  function Select<T>(s: seq<T>, p: T -> bool): (r: seq<T>)
    ensures |r| <= |s|
    ensures forall i :: 0 <= i < |r| ==> p(r[i]) && r[i] in s
  {
    if s == [] then []
    else if p(s[0]) then [s[0]] + Select(s[1..], p)
    else Select(s[1..], p)
  }

  /** `a` can be obtained from `b` by deleting elements, keeping the rest in order. */
  ghost predicate IsSubsequence<T>(a: seq<T>, b: seq<T>)
    decreases |b|
  {
    || a == []
    || (b != [] && ((a[0] == b[0] && IsSubsequence(a[1..], b[1..])) || IsSubsequence(a, b[1..])))
  }

  lemma {:induction false} SubsequenceReflexive<T>(s: seq<T>)
    ensures IsSubsequence(s, s)
    decreases |s|
  {
    if s != [] {
      SubsequenceReflexive(s[1..]);
    }
  }

  lemma {:induction false} SubsequenceNotLonger<T>(a: seq<T>, b: seq<T>)
    requires IsSubsequence(a, b)
    ensures |a| <= |b|
    decreases |b|
  {
    if a != [] {
      if a[0] == b[0] && IsSubsequence(a[1..], b[1..]) {
        SubsequenceNotLonger(a[1..], b[1..]);
      } else {
        SubsequenceNotLonger(a, b[1..]);
      }
    }
  }

  /** Selection deletes elements and never reorders the ones it keeps. */
  lemma {:induction false} SelectIsSubsequence<T>(s: seq<T>, p: T -> bool)
    ensures IsSubsequence(Select(s, p), s)
    decreases |s|
  {
    if s != [] {
      SelectIsSubsequence(s[1..], p);
      var r := Select(s, p);
      if p(s[0]) {
        assert r[0] == s[0] && r[1..] == Select(s[1..], p);
      }
    }
  }

  /** Every element of `s` that satisfies `p` survives the selection. */
  lemma {:induction false} SelectKeeps<T>(s: seq<T>, p: T -> bool, x: T)
    requires x in s && p(x)
    ensures x in Select(s, p)
    decreases |s|
  {
    if s[0] != x {
      SelectKeeps(s[1..], p, x);
    }
  }

  /** Selection keeps every copy of a satisfying element and no copy of any other. */
  lemma {:induction false} SelectCount<T>(s: seq<T>, p: T -> bool, x: T)
    ensures multiset(Select(s, p))[x] == if p(x) then multiset(s)[x] else 0
    decreases |s|
  {
    if s != [] {
      SelectCount(s[1..], p, x);
      assert s == [s[0]] + s[1..];
      assert multiset(s) == multiset([s[0]]) + multiset(s[1..]);
    }
  }

  /** When every element satisfies `p`, the selection is the identity. */
  lemma {:induction false} SelectAll<T>(s: seq<T>, p: T -> bool)
    requires forall i :: 0 <= i < |s| ==> p(s[i])
    ensures Select(s, p) == s
    decreases |s|
  {
    if s != [] {
      SelectAll(s[1..], p);
    }
  }

  /** When no element satisfies `p`, the selection is empty. */
  lemma {:induction false} SelectNone<T>(s: seq<T>, p: T -> bool)
    requires forall i :: 0 <= i < |s| ==> !p(s[i])
    ensures Select(s, p) == []
    decreases |s|
  {
    if s != [] {
      SelectNone(s[1..], p);
    }
  }

  /** Two selections can be applied in either order. */
  lemma {:induction false} SelectCommutes<T>(s: seq<T>, p: T -> bool, q: T -> bool)
    ensures Select(Select(s, p), q) == Select(Select(s, q), p)
    decreases |s|
  {
    if s != [] {
      SelectCommutes(s[1..], p, q);
      var sp, sq := Select(s[1..], p), Select(s[1..], q);
      if p(s[0]) {
        assert ([s[0]] + sp)[0] == s[0] && ([s[0]] + sp)[1..] == sp;
      }
      if q(s[0]) {
        assert ([s[0]] + sq)[0] == s[0] && ([s[0]] + sq)[1..] == sq;
      }
    }
  }

  /** `s.map(f)`. */
  function Map<T, U>(s: seq<T>, f: T -> U): (r: seq<U>)
    ensures |r| == |s|
    ensures forall i :: 0 <= i < |s| ==> r[i] == f(s[i])
  {
    seq(|s|, i requires 0 <= i < |s| => f(s[i]))
  }

  /** Selection over a sequence with a known first element. */
  lemma SelectCons<T>(x: T, s: seq<T>, p: T -> bool)
    ensures Select([x] + s, p) == if p(x) then [x] + Select(s, p) else Select(s, p)
  {
    assert ([x] + s)[1..] == s;
  }

  /** Mapping a sequence with a known first element. */
  lemma MapCons<T, U>(x: T, s: seq<T>, f: T -> U)
    ensures Map([x] + s, f) == [f(x)] + Map(s, f)
  {
    var l, r := Map([x] + s, f), [f(x)] + Map(s, f);
    forall i | 0 <= i < |l|
      ensures l[i] == r[i]
    {
      if i > 0 {
        assert ([x] + s)[i] == s[i - 1];
      }
    }
  }

  /** Selecting after mapping is mapping after selecting with the composed test. */
  lemma {:induction false} SelectMap<T, U>(s: seq<T>, f: T -> U, p: U -> bool, q: T -> bool)
    requires forall x :: q(x) == p(f(x))
    ensures Select(Map(s, f), p) == Map(Select(s, q), f)
    decreases |s|
  {
    if s != [] {
      SelectMap(s[1..], f, p, q);
      assert s == [s[0]] + s[1..];
      MapCons(s[0], s[1..], f);
      SelectCons(f(s[0]), Map(s[1..], f), p);
      if q(s[0]) {
        MapCons(s[0], Select(s[1..], q), f);
      }
    }
  }

  /** Selection keeps a key that tells the elements apart telling them apart. */
  lemma {:induction false} SelectKeepsDistinct<T, K>(s: seq<T>, p: T -> bool, key: T -> K)
    requires forall i, j :: 0 <= i < j < |s| ==> key(s[i]) != key(s[j])
    ensures forall i, j :: 0 <= i < j < |Select(s, p)| ==> key(Select(s, p)[i]) != key(Select(s, p)[j])
    decreases |s|
  {
    if s != [] {
      SelectKeepsDistinct(s[1..], p, key);
      if p(s[0]) {
        var r := Select(s, p);
        var t := Select(s[1..], p);
        assert r == [s[0]] + t;
        forall j | 0 < j < |r|
          ensures key(r[0]) != key(r[j])
        {
          assert r[j] == t[j - 1] && t[j - 1] in s[1..];
          var m :| 0 <= m < |s[1..]| && s[1..][m] == t[j - 1];
          assert s[m + 1] == r[j];
        }
      }
    }
  }
}
