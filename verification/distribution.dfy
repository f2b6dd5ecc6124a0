/** The distribution engine (`distribute_discrepancies`, backend/app.py):
    lot lines are grouped by (article, inventory, status, unit, zone,
    location); each group's discrepancy is the counted quantity minus the
    theoretical total; the group's lines are put in strategy order and the
    discrepancy is spread over them: a surplus goes entirely onto the first
    line, a shortfall drains the lines one after the other. */
module Distribution {
  import opened Common
  import opened Decimal
  import opened Dates
  import opened Records
  import opened Discrepancy
  import opened Groups
  import opened Sorting

  /** `FIFO`, `LIFO`, or anything else (original order). */
  datatype Strategy = Fifo | Lifo | AsListed

  function StrategyOf(name: string): Strategy {
    if name == "FIFO" then Fifo else if name == "LIFO" then Lifo else AsListed
  }

  /** The six grouping columns. */
  function GroupKey(l: LotLine): seq<string> {
    [l.article, l.inventory, l.status, l.unit, l.zone, l.location]
  }

  function Original(l: LotLine): int { l.original }

  function Adjustment(l: LotLine): int { l.adjustment }

  function Corrected(l: LotLine): int { l.corrected }

  /** A line with its allocation undone. */
  function Base(l: LotLine): LotLine {
    l.(adjustment := 0, corrected := l.original)
  }

  // ---------------------------------------------------------------------
  // Strategy order.

  /** Python's `<=` on strings. */
  predicate StrLe(a: string, b: string) {
    LexLe(a, b, CharLt)
  }

  /** Ascending by (lot date, lot number), an undated line after every dated
      one: `sort_values(['Date_Lot', 'NUMERO_LOT'], na_position='last')`. */
  predicate FifoLe(a: LotLine, b: LotLine) {
    match (a.lotDate, b.lotDate)
    case (Some(x), Some(y)) => Before(x, y) || (x == y && StrLe(a.lot, b.lot))
    case (Some(_), None) => true
    case (None, Some(_)) => false
    case (None, None) => StrLe(a.lot, b.lot)
  }

  /** Descending by (lot date, lot number), undated lines first: the same key
      compared the other way round. */
  predicate LifoLe(a: LotLine, b: LotLine) {
    FifoLe(b, a)
  }

  lemma {:induction false} StrLeTotal()
    ensures forall a, b :: StrLe(a, b) || StrLe(b, a)
    ensures forall a, b, c :: StrLe(a, b) && StrLe(b, c) ==> StrLe(a, c)
  {
    StrLtStrictTotal();
    forall a: string, b: string ensures StrLe(a, b) || StrLe(b, a) {
      LexTotal(a, b, CharLt);
    }
    forall a: string, b: string, c: string | StrLe(a, b) && StrLe(b, c) ensures StrLe(a, c) {
      LexTrans(a, b, c, CharLt);
    }
  }

  lemma {:induction false} FifoTotalPreorder()
    ensures TotalPreorder(FifoLe) && TotalPreorder(LifoLe)
  {
    StrLeTotal();
    forall a: LotLine, b: LotLine ensures FifoLe(a, b) || FifoLe(b, a) {
      if a.lotDate.Some? && b.lotDate.Some? {
        BeforeStrictTotal(a.lotDate.value, b.lotDate.value, a.lotDate.value);
      }
    }
    forall a: LotLine, b: LotLine, c: LotLine | FifoLe(a, b) && FifoLe(b, c) ensures FifoLe(a, c) {
      if a.lotDate.Some? && b.lotDate.Some? && c.lotDate.Some? {
        BeforeStrictTotal(a.lotDate.value, b.lotDate.value, c.lotDate.value);
      }
    }
  }

  /** The lines of a group in strategy order. */
  function Order(group: seq<LotLine>, strategy: Strategy): (ordered: seq<LotLine>)
    ensures multiset(ordered) == multiset(group) && |ordered| == |group|
    ensures strategy == AsListed ==> ordered == group
  {
    match strategy
    case Fifo => SortBy(group, FifoLe)
    case Lifo => SortBy(group, LifoLe)
    case AsListed => group
  }

  /** The multi-column sort is stable: lines with the same lot date and lot
      keep their order in the group, under either strategy. */
  lemma {:induction false} OrderStable(group: seq<LotLine>, strategy: Strategy, x: LotLine)
    ensures strategy == Fifo ==> TiesOf(Order(group, strategy), x, FifoLe) == TiesOf(group, x, FifoLe)
    ensures strategy == Lifo ==> TiesOf(Order(group, strategy), x, LifoLe) == TiesOf(group, x, LifoLe)
  {
    FifoTotalPreorder();
    SortByStable(group, x, FifoLe);
    SortByStable(group, x, LifoLe);
  }

  /** FIFO puts the lines in ascending (date, lot) order, LIFO in
      descending order. */
  lemma {:induction false} OrderSorted(group: seq<LotLine>, strategy: Strategy)
    ensures strategy == Fifo ==> Sorted(Order(group, strategy), FifoLe)
    ensures strategy == Lifo ==> Sorted(Order(group, strategy), LifoLe)
  {
    FifoTotalPreorder();
    SortBySorted(group, FifoLe);
    SortBySorted(group, LifoLe);
  }

  // ---------------------------------------------------------------------
  // Allocation.

  /** The lines with their adjustments, and what was left undistributed. */
  datatype Allocation = Allocation(lines: seq<LotLine>, remaining: int)

  /** One step of the allocation loop: the line with its adjustment and the
      discrepancy still to distribute.  Only the adjustment and the corrected
      quantity change, corrected = original + adjustment, and the adjustment
      takes from the discrepancy exactly what it gives the line.  A surplus
      goes wholly onto the first line and passes over the others; a
      shortfall takes at most the line's stock, and passes on only once the
      line is empty. */
  function AllocateLine(l: LotLine, rem: int, first: bool): (p: (LotLine, int))
    ensures Base(p.0) == Base(l) && p.0.corrected == l.original + p.0.adjustment
    ensures p.0.adjustment + p.1 == rem
    ensures rem == 0 ==> p.0.adjustment == 0 && p.1 == 0
    ensures rem > 0 && first ==> p.0.adjustment == rem && p.1 == 0
    ensures rem > 0 && !first ==> p.0.adjustment == 0 && p.1 == rem
    ensures rem < 0 && l.original >= 0 ==>
      && -l.original <= p.0.adjustment <= 0
      && rem <= p.1 <= 0 && 0 <= p.0.corrected <= l.original
      && (p.1 < 0 ==> p.0.corrected == 0)
  {
    var q := l.original;
    if rem == 0 then (l.(adjustment := 0, corrected := q), 0)
    else if rem > 0 then
      if first then (l.(adjustment := rem, corrected := q + rem), 0)
      else (l.(adjustment := 0, corrected := q), rem)
    else if -rem >= q then (l.(adjustment := -q, corrected := 0), rem + q)
    else (l.(adjustment := rem, corrected := q + rem), 0)
  }

  /** The allocation loop over the lines in strategy order; `first` holds for
      the first line only. */
  function Allocate(lines: seq<LotLine>, rem: int, first: bool): (a: Allocation)
    ensures |a.lines| == |lines|
    ensures SumBy(a.lines, Adjustment) == rem - a.remaining
    ensures SumBy(a.lines, Corrected) == SumBy(lines, Original) + rem - a.remaining
  {
    if |lines| == 0 then Allocation([], rem)
    else
      var (l, r) := AllocateLine(lines[0], rem, first);
      var rest := Allocate(lines[1..], r, false);
      assert ([l] + rest.lines)[1..] == rest.lines;
      Allocation([l] + rest.lines, rest.remaining)
  }

  /** Allocation changes nothing but the adjustment and the corrected
      quantity, and keeps corrected = original + adjustment. */
  lemma {:induction false} AllocateShape(lines: seq<LotLine>, rem: int, first: bool)
    ensures var a := Allocate(lines, rem, first);
      forall i :: 0 <= i < |lines| ==>
        Base(a.lines[i]) == Base(lines[i]) && a.lines[i].corrected == lines[i].original + a.lines[i].adjustment
  {
    if |lines| > 0 {
      var (l, r) := AllocateLine(lines[0], rem, first);
      AllocateShape(lines[1..], r, false);
    }
  }

  /** Nothing to distribute: no line is adjusted. */
  lemma {:induction false} AllocateNothing(lines: seq<LotLine>, first: bool)
    ensures var a := Allocate(lines, 0, first);
      a.remaining == 0 && forall i :: 0 <= i < |a.lines| ==> a.lines[i].adjustment == 0
  {
    if |lines| > 0 {
      AllocateNothing(lines[1..], false);
    }
  }

  /** A surplus goes entirely onto the first line; no other line moves. */
  lemma {:induction false} AllocateSurplus(lines: seq<LotLine>, delta: int)
    requires delta > 0 && |lines| > 0
    ensures var a := Allocate(lines, delta, true);
      && a.remaining == 0
      && a.lines[0].adjustment == delta
      && forall i :: 1 <= i < |a.lines| ==> a.lines[i].adjustment == 0
  {
    AllocateNothing(lines[1..], false);
  }

  /** All originals are non-negative. */
  predicate NonNegative(lines: seq<LotLine>) {
    forall i :: 0 <= i < |lines| ==> lines[i].original >= 0
  }

  /** A line drained completely. */
  predicate Drained(l: LotLine) {
    l.corrected == 0
  }

  /** A line drained only partly. */
  predicate Partial(l: LotLine) {
    l.adjustment != 0 && l.corrected != 0
  }

  /** A shortfall on non-negative stock takes from every line between nothing
      and all of its stock, and leaves no surplus behind. */
  lemma {:induction false} AllocateShortfall(lines: seq<LotLine>, rem: int, first: bool)
    requires rem <= 0 && NonNegative(lines)
    ensures var a := Allocate(lines, rem, first);
      && a.remaining <= 0
      && forall i :: 0 <= i < |lines| ==>
           -lines[i].original <= a.lines[i].adjustment <= 0 && 0 <= a.lines[i].corrected <= lines[i].original
  {
    if |lines| > 0 {
      var (l, r) := AllocateLine(lines[0], rem, first);
      var tail := lines[1..];
      NonNegativeSubset(lines, tail);
      AllocateShortfall(tail, r, false);
      AllocateShape(tail, r, false);
      var a := Allocate(lines, rem, first);
      var t := Allocate(tail, r, false);
      forall i | 1 <= i < |lines|
        ensures -lines[i].original <= a.lines[i].adjustment <= 0 && 0 <= a.lines[i].corrected <= lines[i].original
      {
        assert a.lines[i] == t.lines[i - 1] && lines[i] == tail[i - 1];
      }
    }
  }

  /** A shortfall drains the lines in order: a line is adjusted only when
      every line before it has been drained, and after a partly drained line
      nothing moves. */
  lemma {:induction false} AllocateDrainsInOrder(lines: seq<LotLine>, rem: int, first: bool, i: nat, j: nat)
    requires rem <= 0 && NonNegative(lines) && i < j < |lines|
    ensures var a := Allocate(lines, rem, first);
      && (a.lines[j].adjustment != 0 ==> Drained(a.lines[i]))
      && (Partial(a.lines[i]) ==> a.lines[j].adjustment == 0)
  {
    var (l, r) := AllocateLine(lines[0], rem, first);
    var tail := lines[1..];
    var a := Allocate(lines, rem, first);
    var t := Allocate(tail, r, false);
    assert a.lines[j] == t.lines[j - 1];
    if i > 0 {
      NonNegativeSubset(lines, tail);
      AllocateDrainsInOrder(tail, r, false, i - 1, j - 1);
      assert a.lines[i] == t.lines[i - 1];
    } else {
      assert a.lines[0] == l;
      if r == 0 {
        AllocateNothing(tail, false);
      }
    }
  }

  /** What is left undistributed: nothing when the stock covers the shortfall,
      otherwise exactly the part of the shortfall beyond the stock. */
  lemma {:induction false} AllocateResidual(lines: seq<LotLine>, rem: int, first: bool)
    requires rem <= 0 && NonNegative(lines)
    ensures var a := Allocate(lines, rem, first);
      var total := SumBy(lines, Original);
      a.remaining == (if rem + total >= 0 then 0 else rem + total)
  {
    if |lines| > 0 {
      var (l, r) := AllocateLine(lines[0], rem, first);
      var tail := lines[1..];
      NonNegativeSubset(lines, tail);
      AllocateResidual(tail, r, false);
      NonNegativeSum(tail);
    }
  }

  lemma {:induction false} NonNegativeSum(lines: seq<LotLine>)
    requires NonNegative(lines)
    ensures SumBy(lines, Original) >= 0
  {
    if |lines| > 0 {
      assert NonNegative(lines[1..]) by {
        forall i | 0 <= i < |lines| - 1 ensures lines[1..][i].original >= 0 {
          assert lines[1..][i] == lines[i + 1];
        }
      }
      NonNegativeSum(lines[1..]);
    }
  }

  // ---------------------------------------------------------------------
  // Groups.

  /** The counted total of a group is not a number (text makes the
      subtraction raise; a missing cell is not modelled). */
  datatype DistributionError = CountNotNumeric(article: string, inventory: string)

  /** One group's outcome: its key, its discrepancy and its allocation. */
  datatype GroupResult = GroupResult(key: seq<string>, delta: int, allocation: Allocation)

  /** The allocation of a discrepancy over a group in strategy order. */
  function GroupAllocation(group: seq<LotLine>, strategy: Strategy, delta: int): (a: Allocation)
    ensures multiset(Map(a.lines, Base)) == multiset(Map(group, Base))
    ensures forall k :: 0 <= k < |a.lines| ==> a.lines[k].corrected == a.lines[k].original + a.lines[k].adjustment
    ensures |group| > 0 && NonNegative(group) ==>
      var c := SumBy(group, Original) + delta;
      SumBy(a.lines, Corrected) == (if c >= 0 then c else 0)
  {
    OrderedAllocation(group, Order(group, strategy), delta);
    Allocate(Order(group, strategy), delta, true)
  }

  /** Allocating over a reordering of a group keeps its lines, and on
      non-negative stock reaches the group's count. */
  lemma {:induction false} OrderedAllocation(group: seq<LotLine>, ordered: seq<LotLine>, delta: int)
    requires multiset(ordered) == multiset(group)
    ensures var a := Allocate(ordered, delta, true);
      && multiset(Map(a.lines, Base)) == multiset(Map(group, Base))
      && (forall k :: 0 <= k < |a.lines| ==> a.lines[k].corrected == a.lines[k].original + a.lines[k].adjustment)
      && (|group| > 0 && NonNegative(group) ==>
            var c := SumBy(group, Original) + delta;
            SumBy(a.lines, Corrected) == (if c >= 0 then c else 0))
  {
    AllocateShape(ordered, delta, true);
    AllocateBases(group, ordered, delta);
    if |group| > 0 && NonNegative(group) {
      PermutedMatchesCount(group, ordered, SumBy(group, Original) + delta);
    }
  }

  /** Allocating over a reordering of a group returns the group's lines,
      each once. */
  lemma {:induction false} AllocateBases(group: seq<LotLine>, ordered: seq<LotLine>, delta: int)
    requires multiset(ordered) == multiset(group)
    ensures multiset(Map(Allocate(ordered, delta, true).lines, Base)) == multiset(Map(group, Base))
  {
    AllocateShape(ordered, delta, true);
    assert Map(Allocate(ordered, delta, true).lines, Base) == Map(ordered, Base);
    MapPermutation(ordered, group, Base);
  }

  /** One group: discrepancy = counted (read on the group's first line) minus
      the theoretical total, spread in strategy order.  A group whose count
      is not a number fails.  Otherwise the allocated lines are the group's
      own lines, each once, with only their adjustments set and
      corrected = original + adjustment; on non-negative stock the corrected
      quantities add up to the count, or to 0 when the count is negative. */
  function DistributeGroup(group: seq<LotLine>, strategy: Strategy): (r: Result<GroupResult, DistributionError>)
    requires |group| > 0
    ensures r.Err? <==> !group[0].counted.Number?
    ensures r.Err? ==> r.error == CountNotNumeric(group[0].article, group[0].inventory)
    ensures r.Ok? ==> r.value.delta == group[0].counted.micro - SumBy(group, Original)
    ensures r.Ok? ==> multiset(Map(r.value.allocation.lines, Base)) == multiset(Map(group, Base))
    ensures r.Ok? ==> forall k :: 0 <= k < |r.value.allocation.lines| ==>
      r.value.allocation.lines[k].corrected == r.value.allocation.lines[k].original + r.value.allocation.lines[k].adjustment
    ensures r.Ok? && NonNegative(group) ==>
      var c := group[0].counted.micro;
      SumBy(r.value.allocation.lines, Corrected) == (if c >= 0 then c else 0)
    ensures r.Ok? ==> r.value.allocation == GroupAllocation(group, strategy, r.value.delta)
  {
    match group[0].counted
    case Number(c) =>
      var delta := c - SumBy(group, Original);
      Ok(GroupResult(GroupKey(group[0]), delta, GroupAllocation(group, strategy, delta)))
    case _ => Err(CountNotNumeric(group[0].article, group[0].inventory))
  }

  /** The groups one after the other, stopping at the first failing one. */
  function DistributeGroups(groups: seq<seq<LotLine>>, strategy: Strategy): (r: Result<seq<GroupResult>, DistributionError>)
    requires forall i :: 0 <= i < |groups| ==> |groups[i]| > 0
    ensures r.Ok? ==> |r.value| == |groups|
    ensures r.Ok? ==> forall i :: 0 <= i < |groups| ==> DistributeGroup(groups[i], strategy) == Ok(r.value[i])
    ensures r.Err? ==> exists i :: 0 <= i < |groups| && DistributeGroup(groups[i], strategy) == Err(r.error)
    ensures (forall i :: 0 <= i < |groups| ==> DistributeGroup(groups[i], strategy).Ok?) ==> r.Ok?
  {
    MapResult(groups, g requires |g| > 0 => DistributeGroup(g, strategy))
  }

  /** The distributed lines of the groups, one group after the other. */
  function Concatenated(results: seq<GroupResult>): seq<LotLine> {
    if |results| == 0 then [] else results[0].allocation.lines + Concatenated(results[1..])
  }

  /** `distribute_discrepancies` before the found-stock adjustments are
      appended: the groups in ascending key order, each one's lines in
      strategy order with their adjustments. */
  function Distribute(lines: seq<LotLine>, strategy: Strategy): (r: Result<seq<LotLine>, DistributionError>)
    ensures r.Err? ==> exists l :: l in lines && !l.counted.Number? && r.error == CountNotNumeric(l.article, l.inventory)
  {
    var groups := GroupAll(lines, GroupKey, SortedKeys(lines, GroupKey));
    SortedKeysNonEmpty(lines, GroupKey);
    match DistributeGroups(groups, strategy)
    case Err(e) =>
      var i :| 0 <= i < |groups| && DistributeGroup(groups[i], strategy) == Err(e);
      assert groups[i][0] in groups[i];
      Err(e)
    case Ok(results) => Ok(Concatenated(results))
  }

  // ---------------------------------------------------------------------
  // Properties of the whole distribution.

  lemma {:induction false} ConcatenatedMember(results: seq<GroupResult>, l: LotLine)
    requires l in Concatenated(results)
    ensures exists i :: 0 <= i < |results| && l in results[i].allocation.lines
  {
    if l !in results[0].allocation.lines {
      ConcatenatedMember(results[1..], l);
      var i :| 0 <= i < |results[1..]| && l in results[1..][i].allocation.lines;
      assert results[1..][i] == results[i + 1];
    }
  }

  lemma {:induction false} ConcatenatedBases(results: seq<GroupResult>, groups: seq<seq<LotLine>>)
    requires |results| == |groups|
    requires forall i :: 0 <= i < |groups| ==>
      multiset(Map(results[i].allocation.lines, Base)) == multiset(Map(groups[i], Base))
    ensures multiset(Map(Concatenated(results), Base)) == multiset(Map(Flatten(groups), Base))
  {
    if |results| > 0 {
      assert forall i :: 0 <= i < |groups[1..]| ==> results[1..][i] == results[i + 1] && groups[1..][i] == groups[i + 1];
      ConcatenatedBases(results[1..], groups[1..]);
      MapAppend(results[0].allocation.lines, Concatenated(results[1..]), Base);
      MapAppend(groups[0], Flatten(groups[1..]), Base);
    }
  }

  /** Distribution only sets adjustments: undoing them gives back the input
      lines, each exactly once, and every line keeps
      corrected = original + adjustment. */
  lemma {:induction false} DistributePermutes(lines: seq<LotLine>, strategy: Strategy)
    ensures var r := Distribute(lines, strategy);
      r.Ok? ==>
        && |r.value| == |lines|
        && multiset(Map(r.value, Base)) == multiset(Map(lines, Base))
  {
    var r := Distribute(lines, strategy);
    if r.Ok? {
      var ks := SortedKeys(lines, GroupKey);
      SortedKeysNonEmpty(lines, GroupKey);
      var groups := GroupAll(lines, GroupKey, ks);
      var results := DistributeGroups(groups, strategy).value;
      assert forall i :: 0 <= i < |groups| ==> DistributeGroup(groups[i], strategy) == Ok(results[i]);
      ConcatenatedBases(results, groups);
      PartitionMultiset(lines, GroupKey, ks);
      MapPermutation(Flatten(groups), lines, Base);
      assert |Map(r.value, Base)| == |multiset(Map(r.value, Base))| == |multiset(Map(lines, Base))| == |Map(lines, Base)|;
    }
  }

  /** An allocated line keeps corrected = original + adjustment, and is not
      negative when the stock was not. */
  lemma {:induction false} AllocatedConsistent(lines: seq<LotLine>, rem: int, l: LotLine)
    requires l in Allocate(lines, rem, true).lines
    ensures l.corrected == l.original + l.adjustment
    ensures NonNegative(lines) ==> l.corrected >= 0
  {
    var a := Allocate(lines, rem, true);
    var j :| 0 <= j < |a.lines| && a.lines[j] == l;
    AllocateShape(lines, rem, true);
    if NonNegative(lines) {
      AllocateNonNegative(lines, rem, true);
    }
  }

  lemma {:induction false} GroupConsistent(group: seq<LotLine>, strategy: Strategy, l: LotLine)
    requires |group| > 0 && DistributeGroup(group, strategy).Ok?
    requires l in DistributeGroup(group, strategy).value.allocation.lines
    ensures l.corrected == l.original + l.adjustment
    ensures NonNegative(group) ==> l.corrected >= 0
  {
    var ordered := Order(group, strategy);
    AllocatedConsistent(ordered, DistributeGroup(group, strategy).value.delta, l);
    if NonNegative(group) {
      NonNegativePermutation(group, ordered);
    }
  }

  /** No line leaves the identity corrected = original + adjustment, and
      non-negative stock is never driven below zero. */
  lemma {:induction false} DistributeConsistent(lines: seq<LotLine>, strategy: Strategy, l: LotLine)
    ensures var r := Distribute(lines, strategy);
      r.Ok? && l in r.value ==>
        && l.corrected == l.original + l.adjustment
        && (NonNegative(lines) ==> l.corrected >= 0)
  {
    var r := Distribute(lines, strategy);
    if r.Ok? && l in r.value {
      var ks := SortedKeys(lines, GroupKey);
      SortedKeysNonEmpty(lines, GroupKey);
      var groups := GroupAll(lines, GroupKey, ks);
      var results := DistributeGroups(groups, strategy).value;
      ConcatenatedMember(results, l);
      var i :| 0 <= i < |results| && l in results[i].allocation.lines;
      var group := groups[i];
      GroupConsistent(group, strategy, l);
      if NonNegative(lines) {
        NonNegativeSubset(lines, group);
      }
    }
  }

  lemma {:induction false} NonNegativeSubset(lines: seq<LotLine>, part: seq<LotLine>)
    requires NonNegative(lines) && forall l :: l in part ==> l in lines
    ensures NonNegative(part)
  {
    forall i | 0 <= i < |part| ensures part[i].original >= 0 {
      assert part[i] in part;
    }
  }

  /** On non-negative stock no corrected quantity is negative. */
  lemma {:induction false} AllocateNonNegative(lines: seq<LotLine>, rem: int, first: bool)
    requires NonNegative(lines)
    ensures var a := Allocate(lines, rem, first);
      forall i :: 0 <= i < |a.lines| ==> a.lines[i].corrected >= 0
  {
    if |lines| > 0 {
      var (l, r) := AllocateLine(lines[0], rem, first);
      NonNegativeSubset(lines, lines[1..]);
      AllocateNonNegative(lines[1..], r, false);
      var a := Allocate(lines, rem, first);
      assert forall i :: 1 <= i < |a.lines| ==> a.lines[i] == Allocate(lines[1..], r, false).lines[i - 1];
    }
  }

  /** Allocating `count - total` over non-negative stock leaves corrected
      quantities adding up to the count (nothing, when it is negative). */
  lemma {:induction false} AllocateMatchesCount(lines: seq<LotLine>, count: int)
    requires |lines| > 0 && NonNegative(lines)
    ensures var a := Allocate(lines, count - SumBy(lines, Original), true);
      SumBy(a.lines, Corrected) == (if count >= 0 then count else 0)
  {
    var delta := count - SumBy(lines, Original);
    NonNegativeSum(lines);
    if delta > 0 {
      AllocateSurplus(lines, delta);
    } else {
      AllocateResidual(lines, delta, true);
    }
  }

  lemma {:induction false} NonNegativePermutation(a: seq<LotLine>, b: seq<LotLine>)
    requires NonNegative(a) && multiset(a) == multiset(b)
    ensures NonNegative(b)
  {
    forall i | 0 <= i < |b| ensures b[i].original >= 0 {
      assert b[i] in multiset(a);
      var j :| 0 <= j < |a| && a[j] == b[i];
    }
  }

  /** The same for the stock in any order. */
  lemma {:induction false} PermutedMatchesCount(group: seq<LotLine>, ordered: seq<LotLine>, count: int)
    requires |group| > 0 && NonNegative(group) && multiset(ordered) == multiset(group)
    ensures var a := Allocate(ordered, count - SumBy(group, Original), true);
      SumBy(a.lines, Corrected) == (if count >= 0 then count else 0)
  {
    SumPermutation(ordered, group, Original);
    NonNegativePermutation(group, ordered);
    assert |ordered| == |multiset(group)| > 0;
    AllocateMatchesCount(ordered, count);
  }

  /** Every line carries the counted value `count` gives its (article,
      inventory), as the lines of a discrepancy calculation do. */
  predicate CountedBy(lines: seq<LotLine>, count: (string, string) -> Cell) {
    forall i :: 0 <= i < |lines| ==> lines[i].counted == count(lines[i].article, lines[i].inventory)
  }

  /** When counts are shared per (article, inventory), distribution fails
      exactly when some line's counted value is not a number. */
  lemma {:induction false} DistributeFailsOn(lines: seq<LotLine>, strategy: Strategy, count: (string, string) -> Cell)
    requires CountedBy(lines, count)
    ensures Distribute(lines, strategy).Err? <==> exists i :: 0 <= i < |lines| && !lines[i].counted.Number?
  {
    if Distribute(lines, strategy).Err? {
      var l :| l in lines && !l.counted.Number?;
      assert exists i :: 0 <= i < |lines| && lines[i] == l;
    }
    if i :| 0 <= i < |lines| && !lines[i].counted.Number? {
      UncountedFails(lines, strategy, count, i);
    }
  }

  /** A line without a numeric count makes its group, and so the whole
      distribution, fail. */
  lemma {:induction false} UncountedFails(lines: seq<LotLine>, strategy: Strategy, count: (string, string) -> Cell, i: nat)
    requires CountedBy(lines, count) && i < |lines| && !lines[i].counted.Number?
    ensures Distribute(lines, strategy).Err?
  {
    var m := UncountedGroup(lines, count, i);
    SortedKeysNonEmpty(lines, GroupKey);
    DistributeGroupsErr(GroupAll(lines, GroupKey, SortedKeys(lines, GroupKey)), strategy, m);
    DistributeErr(lines, strategy);
  }

  /** The group of a line without a numeric count starts with a line
      without one. */
  lemma {:induction false} UncountedGroup(lines: seq<LotLine>, count: (string, string) -> Cell, i: nat) returns (m: nat)
    requires CountedBy(lines, count) && i < |lines| && !lines[i].counted.Number?
    ensures var groups := GroupAll(lines, GroupKey, SortedKeys(lines, GroupKey));
      m < |groups| && |groups[m]| > 0 && !groups[m][0].counted.Number?
  {
    var l := lines[i];
    m := GroupOf(lines, GroupKey, l);
    var group := GroupAll(lines, GroupKey, SortedKeys(lines, GroupKey))[m];
    assert group[0] in group;
    var j :| 0 <= j < |lines| && lines[j] == group[0];
    assert GroupKey(lines[j]) == GroupKey(l);
  }

  /** The distribution fails exactly when one of its groups does. */
  lemma {:induction false} DistributeErr(lines: seq<LotLine>, strategy: Strategy)
    ensures var groups := GroupAll(lines, GroupKey, SortedKeys(lines, GroupKey));
      && (forall i :: 0 <= i < |groups| ==> |groups[i]| > 0)
      && (Distribute(lines, strategy).Err? <==> DistributeGroups(groups, strategy).Err?)
  {
    SortedKeysNonEmpty(lines, GroupKey);
  }

  /** One failing group makes the whole distribution fail. */
  lemma {:induction false} DistributeGroupsErr(groups: seq<seq<LotLine>>, strategy: Strategy, m: nat)
    requires forall i :: 0 <= i < |groups| ==> |groups[i]| > 0
    requires m < |groups| && DistributeGroup(groups[m], strategy).Err?
    ensures DistributeGroups(groups, strategy).Err?
  {
  }

  /** On the lot lines of a discrepancy calculation, distribution fails
      exactly when some record's counted quantity is not a number. */
  lemma {:induction false} DistributeFails(records: seq<StockRecord>, rows: seq<TemplateRow>, strategy: Strategy)
    ensures Distribute(Discrepancies(records, rows), strategy).Err? <==>
      exists i :: 0 <= i < |records| && !CountedFor(rows, records[i].article, records[i].inventory).Number?
  {
    var lines := Discrepancies(records, rows);
    var count := (a, inv) => CountedFor(rows, a, inv);
    assert CountedBy(lines, count);
    DistributeFailsOn(lines, strategy, count);
  }
}
