/** Small shared vocabulary: an optional value, a success-or-error result and
    sums over sequences of integers. */
module Common {

  /** A value that may be missing (Python's `None`, a NaN cell). */
  datatype Option<T> = None | Some(value: T) {
    function GetOr(default: T): T {
      match this
      case Some(v) => v
      case None => default
    }
  }

  /** Either a computed value or the error that aborted the computation. */
  datatype Result<T, E> = Ok(value: T) | Err(error: E)

  /** The sum of `f` over the elements of a sequence. */
  function SumBy<T>(xs: seq<T>, f: T -> int): int {
    if |xs| == 0 then 0 else f(xs[0]) + SumBy(xs[1..], f)
  }

  lemma {:induction false} SumAppend<T>(a: seq<T>, b: seq<T>, f: T -> int)
    ensures SumBy(a + b, f) == SumBy(a, f) + SumBy(b, f)
  {
    if |a| == 0 {
      assert a + b == b;
    } else {
      assert (a + b)[1..] == a[1..] + b;
      SumAppend(a[1..], b, f);
    }
  }

  /** Removing the element at position `j` removes exactly its value from the sum. */
  lemma {:induction false} SumRemove<T>(a: seq<T>, j: int, f: T -> int)
    requires 0 <= j < |a|
    ensures SumBy(a, f) == f(a[j]) + SumBy(a[..j] + a[j + 1..], f)
  {
    assert a == a[..j] + a[j..];
    SumAppend(a[..j], a[j..], f);
    assert a[j..][1..] == a[j + 1..];
    SumAppend(a[..j], a[j + 1..], f);
  }

  /** Sums do not depend on the order of the elements. */
  lemma {:induction false} SumPermutation<T>(a: seq<T>, b: seq<T>, f: T -> int)
    requires multiset(a) == multiset(b)
    ensures SumBy(a, f) == SumBy(b, f)
    decreases |a|
  {
    if |a| == 0 {
      assert |b| == |multiset(b)| == 0;
    } else {
      assert a[0] in multiset(b);
      var j :| 0 <= j < |b| && b[j] == a[0];
      var b' := b[..j] + b[j + 1..];
      RemoveMatching(a, b, j);
      SumPermutation(a[1..], b', f);
      SumRemove(b, j, f);
    }
  }

  /** Taking the first element of `a` out of both of two permutations of each
      other leaves two permutations of each other. */
  lemma {:induction false} RemoveMatching<T>(a: seq<T>, b: seq<T>, j: nat)
    requires multiset(a) == multiset(b)
    requires |a| > 0 && j < |b| && b[j] == a[0]
    ensures multiset(a[1..]) == multiset(b[..j] + b[j + 1..])
  {
    var b' := b[..j] + b[j + 1..];
    assert b == b[..j] + [b[j]] + b[j + 1..];
    assert multiset(b) == multiset(b[..j]) + multiset{b[j]} + multiset(b[j + 1..]);
    assert a == [a[0]] + a[1..];
    assert multiset(a) == multiset{a[0]} + multiset(a[1..]);
    assert multiset(b') == multiset(b[..j]) + multiset(b[j + 1..]);
    calc {
      multiset(a[1..]);
      multiset(a) - multiset{a[0]};
      multiset(b) - multiset{b[j]};
      multiset(b');
    }
  }

  /** `f` on each element in turn, stopping at the first error. */
  function MapResult<T, U, E>(xs: seq<T>, f: T --> Result<U, E>): (r: Result<seq<U>, E>)
    requires forall i :: 0 <= i < |xs| ==> f.requires(xs[i])
    ensures r.Ok? ==> |r.value| == |xs| && forall i :: 0 <= i < |xs| ==> f(xs[i]) == Ok(r.value[i])
    ensures r.Err? ==> exists i :: 0 <= i < |xs| && f(xs[i]) == Err(r.error)
    ensures (forall i :: 0 <= i < |xs| ==> f(xs[i]).Ok?) ==> r.Ok?
  {
    if |xs| == 0 then Ok([])
    else
      var head := f(xs[0]);
      var rest := MapResult(xs[1..], f);
      assert forall i :: 1 <= i < |xs| ==> xs[i] == xs[1..][i - 1];
      if head.Err? then Err(head.error)
      else if rest.Err? then Err(rest.error)
      else
        var all := [head.value] + rest.value;
        assert forall i :: 1 <= i < |all| ==> all[i] == rest.value[i - 1];
        Ok(all)
  }

  /** `f` applied to every element. */
  function Map<T, U>(xs: seq<T>, f: T -> U): (ys: seq<U>)
    ensures |ys| == |xs| && forall i :: 0 <= i < |xs| ==> ys[i] == f(xs[i])
  {
    seq(|xs|, i requires 0 <= i < |xs| => f(xs[i]))
  }

  lemma {:induction false} MapAppend<T, U>(a: seq<T>, b: seq<T>, f: T -> U)
    ensures Map(a + b, f) == Map(a, f) + Map(b, f)
  {
  }

  /** Mapping two permutations of each other gives two permutations of each
      other. */
  lemma {:induction false} MapPermutation<T, U>(a: seq<T>, b: seq<T>, f: T -> U)
    requires multiset(a) == multiset(b)
    ensures multiset(Map(a, f)) == multiset(Map(b, f))
    decreases |a|
  {
    if |a| == 0 {
      assert |b| == |multiset(b)| == 0;
    } else {
      assert a[0] in multiset(b);
      var j :| 0 <= j < |b| && b[j] == a[0];
      var b' := b[..j] + b[j + 1..];
      RemoveMatching(a, b, j);
      assert b == b[..j] + [b[j]] + b[j + 1..];
      assert a == [a[0]] + a[1..];
      MapPermutation(a[1..], b', f);
      MapAppend([a[0]], a[1..], f);
      MapAppend(b[..j] + [b[j]], b[j + 1..], f);
      MapAppend(b[..j], [b[j]], f);
      MapAppend(b[..j], b[j + 1..], f);
    }
  }

  /** The position of the last element satisfying `p`: what a dictionary
      filled in one pass keeps for a key, a later element overwriting an
      earlier one. */
  function LastWhere<T>(xs: seq<T>, p: T -> bool): (j: Option<nat>)
    ensures j.Some? ==> j.value < |xs| && p(xs[j.value])
    ensures j.Some? ==> forall k :: j.value < k < |xs| ==> !p(xs[k])
    ensures j.None? ==> forall k :: 0 <= k < |xs| ==> !p(xs[k])
  {
    if |xs| == 0 then None
    else if p(xs[|xs| - 1]) then Some(|xs| - 1)
    else LastWhere(xs[..|xs| - 1], p)
  }

  /** Where the middle part of a three-part concatenation lands. */
  lemma {:induction false} Concat3Middle<T>(a: seq<T>, b: seq<T>, c: seq<T>, i: nat)
    requires i < |b|
    ensures (a + b + c)[|a| + i] == b[i]
  {
  }

  /** Where the last part of a three-part concatenation lands. */
  lemma {:induction false} Concat3Last<T>(a: seq<T>, b: seq<T>, c: seq<T>, k: nat)
    requires k < |c|
    ensures (a + b + c)[|a| + |b| + k] == c[k]
  {
  }
}
