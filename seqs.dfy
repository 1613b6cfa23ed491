/** The array built-ins the core relies on (`find`, `some`, `slice`), and
    sequence predicates used to state their results. */
module Seqs {
  import opened Wrappers

  /** `findIndex`: the first position whose element satisfies `p`. */
  function FindIndex<T>(s: seq<T>, p: T -> bool): (r: Option<nat>)
    ensures r.Some? ==> r.value < |s| && p(s[r.value])
    ensures r.Some? ==> forall j :: 0 <= j < r.value ==> !p(s[j])
    ensures r.None? ==> forall j :: 0 <= j < |s| ==> !p(s[j])
  {
    if |s| == 0 then None
    else if p(s[0]) then Some(0)
    else match FindIndex(s[1..], p)
      case None => None
      case Some(k) => Some(k + 1)
  }

  /** `indexOf`: the position of the first occurrence of `x`, or -1. */
  function IndexOf<T(==)>(s: seq<T>, x: T): (r: int)
    ensures -1 <= r < |s|
    ensures r == -1 <==> x !in s
    ensures 0 <= r ==> s[r] == x && x !in s[..r]
  {
    if |s| == 0 then -1
    else if s[0] == x then 0
    else
      var k := IndexOf(s[1..], x);
      if k == -1 then -1
      else
        assert s[..k + 1] == [s[0]] + s[1..][..k];
        k + 1
  }

  /** `find`: the first element satisfying `p`, or `undefined`. */
  function Find<T>(s: seq<T>, p: T -> bool): (r: Option<T>)
    ensures r.Some? ==> exists k :: 0 <= k < |s| && s[k] == r.value && p(s[k]) &&
                                    forall j :: 0 <= j < k ==> !p(s[j])
    ensures r.None? ==> forall j :: 0 <= j < |s| ==> !p(s[j])
  {
    match FindIndex(s, p)
    case None => None
    case Some(k) => Some(s[k])
  }

  /** `some`. */
  function Any<T>(s: seq<T>, p: T -> bool): (r: bool)
    ensures r <==> exists j :: 0 <= j < |s| && p(s[j])
  {
    FindIndex(s, p).Some?
  }

  /** `slice(0, n)` for `n >= 0`; a negative `n` gives no elements here. */
  function Take<T>(s: seq<T>, n: int): (r: seq<T>)
    ensures |r| == if n <= 0 then 0 else if n < |s| then n else |s|
    ensures forall i :: 0 <= i < |r| ==> r[i] == s[i]
  {
    if n <= 0 then [] else if n < |s| then s[..n] else s
  }

  predicate NoDuplicates<T(==)>(s: seq<T>) {
    forall i, j :: 0 <= i < j < |s| ==> s[i] != s[j]
  }

  /** `a` is obtained from `b` by deleting elements, keeping the order. */
  predicate Subseq<T(==)>(a: seq<T>, b: seq<T>)
    decreases |b|
  {
    if a == [] then true
    else if b == [] then false
    else if a[|a| - 1] == b[|b| - 1] then Subseq(a[..|a| - 1], b[..|b| - 1])
    else Subseq(a, b[..|b| - 1])
  }

  lemma {:induction false} SubseqExtend<T>(a: seq<T>, b: seq<T>, x: T)
    requires Subseq(a, b)
    ensures Subseq(a, b + [x])
    decreases |b|, 1
  {
    var b' := b + [x];
    assert b'[..|b'| - 1] == b;
    if a == [] {
    } else if a[|a| - 1] == x {
      // Matching x against the end of a would also be a subsequence, but the
      // definition matches greedily from the end, so show a[..|a|-1] fits in b.
      SubseqDropLast(a, b);
    }
  }

  lemma {:induction false} SubseqDropLast<T>(a: seq<T>, b: seq<T>)
    requires a != [] && Subseq(a, b)
    ensures Subseq(a[..|a| - 1], b)
    decreases |b|, 0
  {
    var b0 := b[..|b| - 1];
    if a[|a| - 1] == b[|b| - 1] {
      assert Subseq(a[..|a| - 1], b0);
      SubseqExtend(a[..|a| - 1], b0, b[|b| - 1]);
      assert b0 + [b[|b| - 1]] == b;
    } else {
      SubseqDropLast(a, b0);
      SubseqExtend(a[..|a| - 1], b0, b[|b| - 1]);
      assert b0 + [b[|b| - 1]] == b;
    }
  }

  lemma SubseqBoth<T>(a: seq<T>, b: seq<T>, x: T)
    requires Subseq(a, b)
    ensures Subseq(a + [x], b + [x])
  {
    assert (a + [x])[..|a|] == a;
    assert (b + [x])[..|b|] == b;
  }
}
