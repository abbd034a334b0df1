/**
 * Order-preserving selection from a sequence (a list comprehension with
 * an `if`), and the subsequence relation it establishes.
 */
module Sequences {

  /** The elements of `s` that satisfy `p`, in their order. */
  function Keep<T>(s: seq<T>, p: T -> bool): seq<T>
  {
    if s == [] then []
    else
      var last := s[|s| - 1];
      Keep(s[..|s| - 1], p) + (if p(last) then [last] else [])
  }

  /** `r` is `s` with some elements left out, the others kept in order. */
  predicate IsSubsequence<T(==)>(r: seq<T>, s: seq<T>)
    decreases |s|
  {
    r == []
    || (s != [] &&
        ((r[|r| - 1] == s[|s| - 1] && IsSubsequence(r[..|r| - 1], s[..|s| - 1]))
         || IsSubsequence(r, s[..|s| - 1])))
  }

  lemma {:induction false} KeepAppend<T>(a: seq<T>, b: seq<T>, p: T -> bool)
    ensures Keep(a + b, p) == Keep(a, p) + Keep(b, p)
    decreases |b|
  {
    if b == [] {
      assert a + b == a;
    } else {
      assert (a + b)[..|a + b| - 1] == a + b[..|b| - 1];
      KeepAppend(a, b[..|b| - 1], p);
    }
  }

  lemma {:induction false} KeepIsSubsequence<T>(s: seq<T>, p: T -> bool)
    ensures IsSubsequence(Keep(s, p), s)
    decreases |s|
  {
    if s != [] {
      var init := s[..|s| - 1];
      KeepIsSubsequence(init, p);
      var m := Keep(s, p);
      if p(s[|s| - 1]) {
        assert m == Keep(init, p) + [s[|s| - 1]];
        assert m[..|m| - 1] == Keep(init, p);
        assert m[|m| - 1] == s[|s| - 1];
      } else {
        assert m == Keep(init, p);
      }
    }
  }

  lemma {:induction false} KeepMembers<T>(s: seq<T>, p: T -> bool, x: T)
    ensures x in Keep(s, p) <==> x in s && p(x)
    decreases |s|
  {
    if s != [] {
      var init := s[..|s| - 1];
      KeepMembers(init, p, x);
      assert s == init + [s[|s| - 1]];
    }
  }

  lemma {:induction false} KeepAll<T>(s: seq<T>, p: T -> bool)
    requires forall i :: 0 <= i < |s| ==> p(s[i])
    ensures Keep(s, p) == s
    decreases |s|
  {
    if s != [] {
      KeepAll(s[..|s| - 1], p);
    }
  }

  lemma {:induction false} SubsequencePrefix<T>(r: seq<T>, s: seq<T>, k: nat)
    requires IsSubsequence(r, s) && k <= |r|
    ensures IsSubsequence(r[..k], s)
    decreases |s|
  {
    if k > 0 && k < |r| {
      var s' := s[..|s| - 1];
      if r[|r| - 1] == s[|s| - 1] && IsSubsequence(r[..|r| - 1], s') {
        SubsequencePrefix(r[..|r| - 1], s', k);
        assert r[..|r| - 1][..k] == r[..k];
      } else {
        SubsequencePrefix(r, s', k);
      }
    } else if k == |r| {
      assert r[..k] == r;
    }
  }

  /** `f` applied to each element of `s` with its position, counted on from `n + 1`. */
  function Numbered<T, U>(s: seq<T>, n: nat, f: (T, nat) -> U): (r: seq<U>)
    ensures |r| == |s|
    ensures forall i :: 0 <= i < |s| ==> r[i] == f(s[i], n + i + 1)
  {
    seq(|s|, i requires 0 <= i < |s| => f(s[i], n + i + 1))
  }

  lemma NumberedStep<T, U>(s: seq<T>, x: T, n: nat, f: (T, nat) -> U)
    ensures Numbered(s + [x], n, f) == Numbered(s, n, f) + [f(x, n + |s| + 1)]
  {
    var l := Numbered(s + [x], n, f);
    var r := Numbered(s, n, f) + [f(x, n + |s| + 1)];
    forall i | 0 <= i < |l| ensures l[i] == r[i] {
      if i < |s| {
        assert (s + [x])[i] == s[i];
      }
    }
  }

  /** Numbering goes on across the boundary of two sequences. */
  lemma NumberedAppend<T, U>(a: seq<T>, b: seq<T>, n: nat, f: (T, nat) -> U)
    ensures Numbered(a + b, n, f) == Numbered(a, n, f) + Numbered(b, n + |a|, f)
  {
    var l := Numbered(a + b, n, f);
    var r := Numbered(a, n, f) + Numbered(b, n + |a|, f);
    forall i | 0 <= i < |l| ensures l[i] == r[i] {
      if i < |a| {
        assert (a + b)[i] == a[i];
      } else {
        assert (a + b)[i] == b[i - |a|];
        assert n + |a| + (i - |a|) + 1 == n + i + 1;
      }
    }
  }

  /** Numbering `b` on after `a` extends the numbering of `a`. */
  lemma NumberedExtend<T, U>(t0: seq<U>, a: seq<T>, b: seq<T>, n: nat, f: (T, nat) -> U, r: seq<U>)
    requires r == t0 + Numbered(a, n, f) + Numbered(b, n + |a|, f)
    ensures r == t0 + Numbered(a + b, n, f)
  {
    NumberedAppend(a, b, n, f);
  }

  /** `[f(x) for x in s]` */
  function Map<T, U>(s: seq<T>, f: T -> U): (r: seq<U>)
    ensures |r| == |s|
    ensures forall i :: 0 <= i < |s| ==> r[i] == f(s[i])
  {
    seq(|s|, i requires 0 <= i < |s| => f(s[i]))
  }

  lemma MapCons<T, U>(x: T, s: seq<T>, f: T -> U)
    ensures Map([x] + s, f) == [f(x)] + Map(s, f)
  {
    var l := Map([x] + s, f);
    var r := [f(x)] + Map(s, f);
    forall i | 0 <= i < |l| ensures l[i] == r[i] {
      if i > 0 {
        assert ([x] + s)[i] == s[i - 1];
      }
    }
  }

  lemma MapPrefixStep<T, U>(s: seq<T>, n: nat, f: T -> U)
    requires n < |s|
    ensures Map(s[..n + 1], f) == Map(s[..n], f) + [f(s[n])]
  {
    var l := Map(s[..n + 1], f);
    var r := Map(s[..n], f) + [f(s[n])];
    forall i | 0 <= i < |l| ensures l[i] == r[i] {
      assert s[..n + 1][i] == s[i];
    }
  }

  /** The sequences `f` gives for the elements of `s`, one after another. */
  function FlatMap<T, U>(s: seq<T>, f: T -> seq<U>): seq<U>
  {
    if s == [] then [] else FlatMap(s[..|s| - 1], f) + f(s[|s| - 1])
  }

  lemma FlatMapStep<T, U>(s: seq<T>, x: T, f: T -> seq<U>)
    ensures FlatMap(s + [x], f) == FlatMap(s, f) + f(x)
  {
    assert (s + [x])[..|s|] == s;
  }

}
