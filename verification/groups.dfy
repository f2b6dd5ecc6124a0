/** Grouping rows by a key, as `groupby` does: the distinct keys, the rows of
    each key in input order, and the facts that the groups partition the
    rows and that sums over the groups add up to sums over the rows. */
module Groups {
  import opened Common
  import opened Sorting

  predicate NoDuplicates<K(==)>(ks: seq<K>) {
    forall i, j :: 0 <= i < j < |ks| ==> ks[i] != ks[j]
  }

  /** The rows whose key is `k`, in input order. */
  function Members<T(!new), K(==)>(xs: seq<T>, key: T -> K, k: K): (ms: seq<T>)
    ensures |ms| <= |xs|
    ensures forall x :: x in ms ==> x in xs && key(x) == k
  {
    if |xs| == 0 then []
    else
      var last := xs[|xs| - 1];
      Members(xs[..|xs| - 1], key, k) + (if key(last) == k then [last] else [])
  }

  /** Every row of key `k` is among the members of `k`. */
  lemma {:induction false} MembersComplete<T(!new), K>(xs: seq<T>, key: T -> K, x: T)
    requires x in xs
    ensures x in Members(xs, key, key(x))
  {
    var n := |xs|;
    if xs[n - 1] != x {
      assert x in xs[..n - 1] by {
        var i :| 0 <= i < n && xs[i] == x;
        assert xs[..n - 1][i] == x;
      }
      MembersComplete(xs[..n - 1], key, x);
    }
  }

  /** The distinct elements, in order of first appearance. */
  function Distinct<K(==,!new)>(ks: seq<K>): (ds: seq<K>)
    ensures forall k :: k in ds <==> k in ks
    ensures NoDuplicates(ds)
  {
    if |ks| == 0 then []
    else
      var prefix := ks[..|ks| - 1];
      var last := ks[|ks| - 1];
      assert ks == prefix + [last];
      var prev := Distinct(prefix);
      if last in prefix then prev
      else
        var ds := prev + [last];
        assert forall i :: 0 <= i < |prev| ==> ds[i] == prev[i];
        ds
  }

  /** Some row has key `k`. */
  ghost predicate HasRow<T(!new), K>(xs: seq<T>, key: T -> K, k: K) {
    exists x :: x in xs && key(x) == k
  }

  /** The keys of the rows, each once, in order of first appearance. */
  function KeysOf<T(!new), K(==,!new)>(xs: seq<T>, key: T -> K): (ks: seq<K>)
    ensures NoDuplicates(ks)
    ensures forall x :: x in xs ==> key(x) in ks
    ensures forall k :: k in ks ==> HasRow(xs, key, k)
  {
    var all := Map(xs, key);
    assert forall x :: x in xs ==> key(x) in all by {
      forall x | x in xs ensures key(x) in all {
        var i :| 0 <= i < |xs| && xs[i] == x;
        assert all[i] == key(x);
      }
    }
    Distinct(all)
  }

  /** The members of each key of `ks`, in the order of `ks`. */
  function GroupAll<T(!new), K(==)>(xs: seq<T>, key: T -> K, ks: seq<K>): (gs: seq<seq<T>>)
    ensures |gs| == |ks| && forall i :: 0 <= i < |ks| ==> gs[i] == Members(xs, key, ks[i])
  {
    seq(|ks|, i requires 0 <= i < |ks| => Members(xs, key, ks[i]))
  }

  function Flatten<T>(xss: seq<seq<T>>): seq<T> {
    if |xss| == 0 then [] else xss[0] + Flatten(xss[1..])
  }

  lemma {:induction false} FlattenAppend<T>(a: seq<seq<T>>, b: seq<seq<T>>)
    ensures Flatten(a + b) == Flatten(a) + Flatten(b)
  {
    if |a| == 0 {
      assert a + b == b;
    } else {
      assert (a + b)[1..] == a[1..] + b;
      FlattenAppend(a[1..], b);
    }
  }

  /** A row whose key is not among `ks` changes none of their groups. */
  lemma {:induction false} GroupAllOther<T(!new), K>(xs: seq<T>, key: T -> K, ks: seq<K>, x: T)
    requires key(x) !in ks
    ensures GroupAll(xs + [x], key, ks) == GroupAll(xs, key, ks)
  {
    forall i | 0 <= i < |ks| ensures Members(xs + [x], key, ks[i]) == Members(xs, key, ks[i]) {
      MembersSnoc(xs, key, ks[i], x);
    }
  }

  /** A row whose key occurs once among `ks` adds exactly itself to the
      grouped rows. */
  lemma {:induction false} GroupAllSnoc<T(!new), K>(xs: seq<T>, key: T -> K, ks: seq<K>, x: T)
    requires NoDuplicates(ks) && key(x) in ks
    ensures multiset(Flatten(GroupAll(xs + [x], key, ks))) == multiset(Flatten(GroupAll(xs, key, ks))) + multiset{x}
  {
    GroupAllTail(xs + [x], key, ks);
    GroupAllTail(xs, key, ks);
    NoDuplicatesTail(ks);
    MembersSnoc(xs, key, ks[0], x);
    if key(x) == ks[0] {
      GroupAllOther(xs, key, ks[1..], x);
    } else {
      GroupAllSnoc(xs, key, ks[1..], x);
    }
    SnocOneSide(Members(xs + [x], key, ks[0]), Members(xs, key, ks[0]),
      Flatten(GroupAll(xs + [x], key, ks[1..])), Flatten(GroupAll(xs, key, ks[1..])), x);
  }

  /** Adding `x` to one of two concatenated parts adds it to the whole. */
  lemma {:induction false} SnocOneSide<T>(a: seq<T>, b: seq<T>, ra: seq<T>, rb: seq<T>, x: T)
    requires (a == b + [x] && ra == rb) || (a == b && multiset(ra) == multiset(rb) + multiset{x})
    ensures multiset(a + ra) == multiset(b + rb) + multiset{x}
  {
  }

  lemma {:induction false} MembersSnoc<T(!new), K>(xs: seq<T>, key: T -> K, k: K, x: T)
    ensures Members(xs + [x], key, k) == Members(xs, key, k) + (if key(x) == k then [x] else [])
  {
    assert (xs + [x])[..|xs|] == xs;
  }

  /** Without duplicates, the head does not recur in the tail. */
  lemma {:induction false} NoDuplicatesTail<K>(ks: seq<K>)
    requires NoDuplicates(ks) && |ks| > 0
    ensures NoDuplicates(ks[1..]) && ks[0] !in ks[1..]
  {
    var rest := ks[1..];
    forall i, j | 0 <= i < j < |rest| ensures rest[i] != rest[j] {
      assert rest[i] == ks[i + 1] && rest[j] == ks[j + 1];
    }
    forall i | 0 <= i < |rest| ensures rest[i] != ks[0] {
      assert rest[i] == ks[i + 1];
    }
  }

  lemma {:induction false} GroupAllTail<T(!new), K>(xs: seq<T>, key: T -> K, ks: seq<K>)
    requires |ks| > 0
    ensures Flatten(GroupAll(xs, key, ks)) == Members(xs, key, ks[0]) + Flatten(GroupAll(xs, key, ks[1..]))
  {
    assert GroupAll(xs, key, ks)[1..] == GroupAll(xs, key, ks[1..]);
  }

  /** With distinct keys covering every row, the groups partition the rows:
      together they hold every row exactly as often as the input does. */
  lemma {:induction false} PartitionMultiset<T(!new), K>(xs: seq<T>, key: T -> K, ks: seq<K>)
    requires NoDuplicates(ks)
    requires forall x :: x in xs ==> key(x) in ks
    ensures multiset(Flatten(GroupAll(xs, key, ks))) == multiset(xs)
  {
    if |xs| == 0 {
      assert forall i :: 0 <= i < |ks| ==> GroupAll(xs, key, ks)[i] == [];
      FlattenEmpty(GroupAll(xs, key, ks));
    } else {
      var n := |xs|;
      var prefix := xs[..n - 1];
      var x := xs[n - 1];
      assert xs == prefix + [x];
      assert forall y :: y in prefix ==> y in xs;
      PartitionMultiset(prefix, key, ks);
      GroupAllSnoc(prefix, key, ks, x);
    }
  }

  lemma {:induction false} FlattenEmpty<T>(xss: seq<seq<T>>)
    requires forall i :: 0 <= i < |xss| ==> xss[i] == []
    ensures Flatten(xss) == []
  {
    if |xss| > 0 {
      assert forall i :: 0 <= i < |xss[1..]| ==> xss[1..][i] == xss[i + 1];
      FlattenEmpty(xss[1..]);
    }
  }

  /** The sum over the flattened groups is the sum of the group sums. */
  lemma {:induction false} SumFlatten<T>(xss: seq<seq<T>>, f: T -> int, sums: seq<int>)
    requires |sums| == |xss| && forall i :: 0 <= i < |xss| ==> sums[i] == SumBy(xss[i], f)
    ensures SumBy(Flatten(xss), f) == SumBy(sums, Identity)
  {
    if |xss| > 0 {
      SumAppend(xss[0], Flatten(xss[1..]), f);
      SumFlatten(xss[1..], f, sums[1..]);
    }
  }

  function Identity(v: int): int { v }

  /** Sums over the groups add up to the sum over the rows. */
  lemma {:induction false} PartitionSum<T(!new), K>(xs: seq<T>, key: T -> K, ks: seq<K>, f: T -> int, sums: seq<int>)
    requires NoDuplicates(ks)
    requires forall x :: x in xs ==> key(x) in ks
    requires |sums| == |ks| && forall i :: 0 <= i < |ks| ==> sums[i] == SumBy(Members(xs, key, ks[i]), f)
    ensures SumBy(sums, Identity) == SumBy(xs, f)
  {
    var gs := GroupAll(xs, key, ks);
    SumFlatten(gs, f, sums);
    PartitionMultiset(xs, key, ks);
    SumPermutation(Flatten(gs), xs, f);
  }

  /** Values computed one per group of the sorted keys, each the sum over
      its group, add up to the sum over the rows. */
  lemma {:induction false} KeyedSum<T(!new), G>(xs: seq<T>, key: T -> seq<string>, f: T -> int, gs: seq<G>, total: G -> int)
    requires |gs| == |SortedKeys(xs, key)|
    requires forall i :: 0 <= i < |gs| ==> total(gs[i]) == SumBy(Members(xs, key, SortedKeys(xs, key)[i]), f)
    ensures SumBy(gs, total) == SumBy(xs, f)
  {
    var ks := SortedKeys(xs, key);
    var sums := Map(gs, total);
    PartitionSum(xs, key, ks, f, sums);
    SumsAgree(gs, total, sums);
  }

  lemma {:induction false} SumsAgree<G>(gs: seq<G>, total: G -> int, sums: seq<int>)
    requires |sums| == |gs| && forall i :: 0 <= i < |gs| ==> sums[i] == total(gs[i])
    ensures SumBy(gs, total) == SumBy(sums, Identity)
  {
    if |gs| > 0 {
      SumsAgree(gs[1..], total, sums[1..]);
    }
  }

  /** Without duplicates every element occurs once. */
  lemma {:induction false} NoDuplicatesOnce<K>(s: seq<K>, x: K)
    requires NoDuplicates(s)
    ensures multiset(s)[x] <= 1
  {
    if |s| > 0 {
      NoDuplicatesTail(s);
      NoDuplicatesOnce(s[1..], x);
      assert s == [s[0]] + s[1..];
      assert multiset(s) == multiset{s[0]} + multiset(s[1..]);
    }
  }

  /** An element at two positions occurs at least twice. */
  lemma {:induction false} Twice<K>(s: seq<K>, i: nat, j: nat)
    requires i < j < |s| && s[i] == s[j]
    ensures multiset(s)[s[i]] >= 2
  {
    assert s == s[..i] + [s[i]] + s[i + 1..j] + [s[j]] + s[j + 1..];
  }

  /** Reordering keeps a sequence free of duplicates. */
  lemma {:induction false} NoDuplicatesPermutation<K>(a: seq<K>, b: seq<K>)
    requires NoDuplicates(a) && multiset(a) == multiset(b)
    ensures NoDuplicates(b)
  {
    forall i, j | 0 <= i < j < |b| ensures b[i] != b[j] {
      if b[i] == b[j] {
        Twice(b, i, j);
        NoDuplicatesOnce(a, b[i]);
      }
    }
  }

  /** The keys of the rows, each once, in ascending order: the group order
      of `groupby(..., sort=True)`. */
  function SortedKeys<T(!new)>(xs: seq<T>, key: T -> seq<string>): (ks: seq<seq<string>>)
    ensures NoDuplicates(ks)
    ensures forall x :: x in xs ==> key(x) in ks
    ensures forall k :: k in ks ==> HasRow(xs, key, k)
  {
    var ds := KeysOf(xs, key);
    var ks := SortBy(ds, KeyLe);
    NoDuplicatesPermutation(ds, ks);
    assert forall k :: k in ks <==> k in ds by {
      forall k ensures k in ks <==> k in ds {
        assert k in ks <==> k in multiset(ks);
        assert k in ds <==> k in multiset(ds);
      }
    }
    ks
  }

  /** The keys come in ascending order. */
  lemma {:induction false} SortedKeysOrdered<T(!new)>(xs: seq<T>, key: T -> seq<string>)
    ensures Sorted(SortedKeys(xs, key), KeyLe)
  {
    KeyLeTotalPreorder();
    SortBySorted(KeysOf(xs, key), KeyLe);
  }

  /** The position of a row's key among the sorted keys; the row is one of
      that key's members. */
  lemma {:induction false} GroupOf<T(!new)>(xs: seq<T>, key: T -> seq<string>, x: T) returns (m: nat)
    requires x in xs
    ensures var ks := SortedKeys(xs, key); m < |ks| && ks[m] == key(x) && x in Members(xs, key, ks[m])
  {
    var ks := SortedKeys(xs, key);
    assert key(x) in ks;
    m :| 0 <= m < |ks| && ks[m] == key(x);
    MembersComplete(xs, key, x);
  }

  /** The groups of the sorted keys are nonempty. */
  lemma {:induction false} MembersNonEmpty<T(!new), K>(xs: seq<T>, key: T -> K, k: K)
    requires HasRow(xs, key, k)
    ensures |Members(xs, key, k)| > 0
  {
    var x :| x in xs && key(x) == k;
    MembersComplete(xs, key, x);
  }

  /** Every key of the sorted keys has a nonempty group. */
  lemma {:induction false} SortedKeysNonEmpty<T(!new)>(xs: seq<T>, key: T -> seq<string>)
    ensures var ks := SortedKeys(xs, key);
      forall i :: 0 <= i < |ks| ==> |Members(xs, key, ks[i])| > 0
  {
    var ks := SortedKeys(xs, key);
    forall i | 0 <= i < |ks| ensures |Members(xs, key, ks[i])| > 0 {
      assert ks[i] in ks;
      MembersNonEmpty(xs, key, ks[i]);
    }
  }
}
