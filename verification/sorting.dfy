/** Sorting by a caller-supplied ordering, as `sort_values` and `groupby`
    order rows.  The sort is an insertion sort: it keeps elements that compare
    equal in their input order, as the stable multi-column sort of pandas
    does. */
module Sorting {

  /** `le` is a total preorder: any two elements compare, transitively. */
  ghost predicate TotalPreorder<T(!new)>(le: (T, T) -> bool) {
    && (forall a, b :: le(a, b) || le(b, a))
    && (forall a, b, c :: le(a, b) && le(b, c) ==> le(a, c))
  }

  predicate Sorted<T>(xs: seq<T>, le: (T, T) -> bool) {
    forall i, j :: 0 <= i < j < |xs| ==> le(xs[i], xs[j])
  }

  /** `x` placed before the first element it does not come after. */
  function Insert<T>(x: T, xs: seq<T>, le: (T, T) -> bool): (r: seq<T>)
    ensures |r| == |xs| + 1
    ensures multiset(r) == multiset(xs) + multiset{x}
  {
    if |xs| == 0 || le(x, xs[0]) then [x] + xs
    else
      assert xs == [xs[0]] + xs[1..];
      [xs[0]] + Insert(x, xs[1..], le)
  }

  /** The elements of `xs` in the order `le`, ties in input order. */
  function SortBy<T>(xs: seq<T>, le: (T, T) -> bool): (r: seq<T>)
    ensures |r| == |xs|
    ensures multiset(r) == multiset(xs)
  {
    if |xs| == 0 then []
    else
      assert xs == [xs[0]] + xs[1..];
      Insert(xs[0], SortBy(xs[1..], le), le)
  }

  lemma {:induction false} SortedTail<T>(xs: seq<T>, le: (T, T) -> bool)
    requires Sorted(xs, le) && |xs| > 0
    ensures Sorted(xs[1..], le)
  {
    forall i, j | 0 <= i < j < |xs| - 1 ensures le(xs[1..][i], xs[1..][j]) {
      assert xs[1..][i] == xs[i + 1] && xs[1..][j] == xs[j + 1];
    }
  }

  /** Inserting into a sorted sequence keeps it sorted. */
  lemma {:induction false} InsertSorted<T(!new)>(x: T, xs: seq<T>, le: (T, T) -> bool)
    requires TotalPreorder(le) && Sorted(xs, le)
    ensures Sorted(Insert(x, xs, le), le)
  {
    var r := Insert(x, xs, le);
    if |xs| > 0 && !le(x, xs[0]) {
      var rest := Insert(x, xs[1..], le);
      SortedTail(xs, le);
      InsertSorted(x, xs[1..], le);
      forall k | 0 <= k < |rest| ensures le(xs[0], rest[k]) {
        assert rest[k] in multiset(rest);
        if rest[k] != x {
          assert rest[k] in multiset(xs[1..]);
          var m :| 0 <= m < |xs[1..]| && xs[1..][m] == rest[k];
          assert xs[m + 1] == rest[k];
        }
      }
      forall i, j | 0 <= i < j < |r| ensures le(r[i], r[j]) {
        assert r[j] == rest[j - 1];
        if i > 0 {
          assert r[i] == rest[i - 1];
        }
      }
    } else if |xs| > 0 {
      forall i, j | 0 <= i < j < |r| ensures le(r[i], r[j]) {
        assert r[j] == xs[j - 1];
        if i > 0 {
          assert r[i] == xs[i - 1];
        } else if j > 1 {
          assert le(xs[0], xs[j - 1]);
        }
      }
    }
  }

  /** `SortBy` sorts. */
  lemma {:induction false} SortBySorted<T(!new)>(xs: seq<T>, le: (T, T) -> bool)
    requires TotalPreorder(le)
    ensures Sorted(SortBy(xs, le), le)
  {
    if |xs| > 0 {
      SortBySorted(xs[1..], le);
      InsertSorted(xs[0], SortBy(xs[1..], le), le);
    }
  }

  // ---------------------------------------------------------------------
  // Stability: elements that compare equal keep their input order.

  /** `a` and `b` compare equal under `le`. */
  predicate Tied<T>(a: T, b: T, le: (T, T) -> bool) {
    le(a, b) && le(b, a)
  }

  /** The elements of `xs` that compare equal to `x`, in order. */
  function TiesOf<T>(xs: seq<T>, x: T, le: (T, T) -> bool): (ts: seq<T>)
    ensures |ts| <= |xs|
    ensures forall k :: 0 <= k < |ts| ==> Tied(x, ts[k], le)
  {
    if |xs| == 0 then []
    else (if Tied(x, xs[0], le) then [xs[0]] else []) + TiesOf(xs[1..], x, le)
  }

  /** Inserting `y` puts it in front of every element it ties with: among
      the elements tied with `x`, `y` (when it is one) comes first and the
      others keep their order. */
  lemma {:induction false} InsertTies<T>(y: T, xs: seq<T>, x: T, le: (T, T) -> bool)
    requires forall z :: Tied(x, y, le) && Tied(x, z, le) ==> le(y, z)
    ensures TiesOf(Insert(y, xs, le), x, le) == (if Tied(x, y, le) then [y] else []) + TiesOf(xs, x, le)
  {
    var r := Insert(y, xs, le);
    var h := if Tied(x, y, le) then [y] else [];
    if |xs| == 0 || le(y, xs[0]) {
      assert r == [y] + xs;
      assert r[0] == y && r[1..] == xs;
    } else {
      var t := Insert(y, xs[1..], le);
      var g := if Tied(x, xs[0], le) then [xs[0]] else [];
      assert r == [xs[0]] + t;
      assert r[0] == xs[0] && r[1..] == t;
      InsertTies(y, xs[1..], x, le);
      assert g == [] || h == [];
      calc {
        TiesOf(r, x, le);
        g + TiesOf(t, x, le);
        g + (h + TiesOf(xs[1..], x, le));
        h + (g + TiesOf(xs[1..], x, le));
        h + TiesOf(xs, x, le);
      }
    }
  }

  /** Two elements tied with a third compare either way. */
  lemma {:induction false} TiedTransitive<T(!new)>(x: T, y: T, le: (T, T) -> bool)
    requires TotalPreorder(le)
    ensures forall z :: Tied(x, y, le) && Tied(x, z, le) ==> le(y, z)
  {
  }

  /** `SortBy` is stable: the elements tied with any `x` come out in their
      input order. */
  lemma {:induction false} SortByStable<T(!new)>(xs: seq<T>, x: T, le: (T, T) -> bool)
    requires TotalPreorder(le)
    ensures TiesOf(SortBy(xs, le), x, le) == TiesOf(xs, x, le)
  {
    if |xs| > 0 {
      TiedTransitive(x, xs[0], le);
      SortByStable(xs[1..], x, le);
      InsertTies(xs[0], SortBy(xs[1..], le), x, le);
    }
  }

  // ---------------------------------------------------------------------
  // Lexicographic order, as Python compares strings and tuples.

  /** `lt` is a strict total order. */
  ghost predicate StrictTotal<T(!new)>(lt: (T, T) -> bool) {
    && (forall a :: !lt(a, a))
    && (forall a, b, c :: lt(a, b) && lt(b, c) ==> lt(a, c))
    && (forall a, b :: a == b || lt(a, b) || lt(b, a))
  }

  /** `a` is a prefix of `b` or comes before it at the first difference. */
  predicate LexLe<T(==)>(a: seq<T>, b: seq<T>, lt: (T, T) -> bool) {
    |a| == 0 || (|b| > 0 && (lt(a[0], b[0]) || (a[0] == b[0] && LexLe(a[1..], b[1..], lt))))
  }

  lemma {:induction false} LexTotal<T(!new)>(a: seq<T>, b: seq<T>, lt: (T, T) -> bool)
    requires StrictTotal(lt)
    ensures LexLe(a, b, lt) || LexLe(b, a, lt)
  {
    if |a| > 0 && |b| > 0 && a[0] == b[0] {
      LexTotal(a[1..], b[1..], lt);
    }
  }

  lemma {:induction false} LexTrans<T(!new)>(a: seq<T>, b: seq<T>, c: seq<T>, lt: (T, T) -> bool)
    requires StrictTotal(lt) && LexLe(a, b, lt) && LexLe(b, c, lt)
    ensures LexLe(a, c, lt)
  {
    if |a| > 0 && a[0] == b[0] && b[0] == c[0] {
      LexTrans(a[1..], b[1..], c[1..], lt);
    }
  }

  lemma {:induction false} LexAntisym<T(!new)>(a: seq<T>, b: seq<T>, lt: (T, T) -> bool)
    requires StrictTotal(lt) && LexLe(a, b, lt) && LexLe(b, a, lt)
    ensures a == b
  {
    if |a| > 0 {
      LexAntisym(a[1..], b[1..], lt);
      assert a == [a[0]] + a[1..] && b == [b[0]] + b[1..];
    }
  }

  predicate CharLt(a: char, b: char) {
    a < b
  }

  /** Python's `<` on strings: by code point, a prefix first. */
  predicate StrLt(a: string, b: string) {
    LexLe(a, b, CharLt) && a != b
  }

  /** Python's `<=` on tuples of strings. */
  predicate KeyLe(a: seq<string>, b: seq<string>) {
    LexLe(a, b, StrLt)
  }

  lemma {:induction false} StrLtStrictTotal()
    ensures StrictTotal(CharLt) && StrictTotal(StrLt)
  {
    forall a: string, b: string, c: string | StrLt(a, b) && StrLt(b, c) ensures StrLt(a, c) {
      LexTrans(a, b, c, CharLt);
      if a == c {
        LexAntisym(a, b, CharLt);
      }
    }
    forall a: string, b: string ensures a == b || StrLt(a, b) || StrLt(b, a) {
      LexTotal(a, b, CharLt);
    }
  }

  /** Key tuples are totally ordered, so they can be sorted. */
  lemma {:induction false} KeyLeTotalPreorder()
    ensures TotalPreorder(KeyLe)
  {
    StrLtStrictTotal();
    forall a, b ensures KeyLe(a, b) || KeyLe(b, a) {
      LexTotal(a, b, StrLt);
    }
    forall a, b, c | KeyLe(a, b) && KeyLe(b, c) ensures KeyLe(a, c) {
      LexTrans(a, b, c, StrLt);
    }
  }

  /** Two key tuples that sort both ways are equal. */
  lemma {:induction false} KeyLeAntisym(a: seq<string>, b: seq<string>)
    requires KeyLe(a, b) && KeyLe(b, a)
    ensures a == b
  {
    StrLtStrictTotal();
    LexAntisym(a, b, StrLt);
  }
}
