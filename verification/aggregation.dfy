/** The aggregator (`aggregate_data`, backend/services/file_processor.py):
    stock records are grouped by the configured key columns plus the
    inventory number; each group carries its total theoretical quantity, the
    session and site of its first record, its earliest lot date and its
    priority lot type; the groups are ordered by lot-type rank, then by
    earliest date with undated groups first. */
module Aggregation {
  import opened Common
  import opened Dates
  import opened Lots
  import opened Records
  import opened Groups
  import opened Sorting

  datatype AggregateError = EmptyInput | NoValidKey

  /** One row of the aggregated extract. */
  datatype Group = Group(
    key: seq<string>,
    total: int,
    session: string,
    site: string,
    dateMin: Option<Date>,
    priority: LotType)

  /** The default key columns: article, status, location, zone, unit. */
  function DefaultKeys(schema: Schema): seq<nat> {
    [schema.article, schema.status, schema.location, schema.zone, schema.unit]
  }

  /** The key columns actually used: the configured ones, the inventory
      column appended when missing, then only those that exist (a position
      past the last column stands for a configured name the extract lacks). */
  function EffectiveKeys(keys: seq<nat>, schema: Schema): (cols: seq<nat>)
    ensures forall i :: 0 <= i < |cols| ==> cols[i] < schema.width
    ensures forall c :: c in cols <==> (c in keys || c == schema.inventory) && c < schema.width
  {
    var wanted := keys + (if schema.inventory in keys then [] else [schema.inventory]);
    KeepExisting(wanted, schema.width)
  }

  function KeepExisting(cols: seq<nat>, width: nat): (r: seq<nat>)
    ensures forall i :: 0 <= i < |r| ==> r[i] < width
    ensures forall c :: c in r <==> c in cols && c < width
  {
    if |cols| == 0 then []
    else
      var rest := KeepExisting(cols[1..], width);
      assert forall c :: c in cols <==> c == cols[0] || c in cols[1..];
      if cols[0] < width then [cols[0]] + rest else rest
  }

  /** A field of a record, empty past its last field. */
  function Field(r: StockRecord, c: nat): string {
    if c < |r.fields| then r.fields[c] else ""
  }

  function RecordKey(r: StockRecord, cols: seq<nat>): (k: seq<string>)
    ensures |k| == |cols| && forall i :: 0 <= i < |cols| ==> k[i] == Field(r, cols[i])
  {
    seq(|cols|, i requires 0 <= i < |cols| => Field(r, cols[i]))
  }

  /** The grouping key as a function value. */
  function KeyFn(cols: seq<nat>): StockRecord -> seq<string> {
    r => RecordKey(r, cols)
  }

  function Quantity(r: StockRecord): int { r.quantity }

  function Total(g: Group): int { g.total }

  function LotDates(rs: seq<StockRecord>): (ds: seq<Option<Date>>)
    ensures |ds| == |rs| && forall i :: 0 <= i < |rs| ==> ds[i] == rs[i].lotDate
  {
    seq(|rs|, i requires 0 <= i < |rs| => rs[i].lotDate)
  }

  function LotTypes(rs: seq<StockRecord>): (ts: seq<LotType>)
    ensures |ts| == |rs| && forall i :: 0 <= i < |rs| ==> ts[i] == rs[i].lotType
  {
    seq(|rs|, i requires 0 <= i < |rs| => rs[i].lotType)
  }

  /** One aggregated row from the records of a group: the key, the session
      and site of the first record, the quantity sum, the earliest lot date
      (none exactly when no record is dated) and the type of highest
      priority among the records. */
  function MakeGroup(key: seq<string>, members: seq<StockRecord>): (g: Group)
    requires |members| > 0
    ensures g.key == key && g.session == members[0].session && g.site == members[0].site
    ensures g.total == SumBy(members, Quantity)
    ensures g.dateMin.None? <==> forall i :: 0 <= i < |members| ==> members[i].lotDate.None?
    ensures g.dateMin.Some? ==>
      && (exists i :: 0 <= i < |members| && members[i].lotDate == g.dateMin)
      && forall i :: 0 <= i < |members| && members[i].lotDate.Some? ==> NotAfter(g.dateMin.value, members[i].lotDate.value)
    ensures exists i :: 0 <= i < |members| && members[i].lotType == g.priority
    ensures forall i :: 0 <= i < |members| ==> Priority(g.priority) <= Priority(members[i].lotType)
  {
    var ds := LotDates(members);
    var ts := LotTypes(members);
    assert ts[0] in ts;
    assert forall i :: 0 <= i < |members| ==> ts[i] in ts;
    Group(
      key,
      SumBy(members, Quantity),
      members[0].session,
      members[0].site,
      MinDate(LotDates(members)),
      PriorityLotType(LotTypes(members)))
  }

  /** Earliest date, an undated group counting as `datetime.min`. */
  predicate DateKeyLe(a: Option<Date>, b: Option<Date>) {
    match (a, b)
    case (None, _) => true
    case (Some(_), None) => false
    case (Some(x), Some(y)) => NotAfter(x, y)
  }

  /** The sort key `(type rank, date)` compared as a tuple. */
  predicate GroupLe(a: Group, b: Group) {
    TypeRank(a.priority) < TypeRank(b.priority)
    || (TypeRank(a.priority) == TypeRank(b.priority) && DateKeyLe(a.dateMin, b.dateMin))
  }

  lemma {:induction false} GroupLeTotalPreorder()
    ensures TotalPreorder(GroupLe)
  {
    forall a: Group, b: Group ensures GroupLe(a, b) || GroupLe(b, a) {
      if a.dateMin.Some? && b.dateMin.Some? {
        BeforeStrictTotal(a.dateMin.value, b.dateMin.value, a.dateMin.value);
      }
    }
    forall a: Group, b: Group, c: Group | GroupLe(a, b) && GroupLe(b, c) ensures GroupLe(a, c) {
      if a.dateMin.Some? && b.dateMin.Some? && c.dateMin.Some? {
        BeforeStrictTotal(a.dateMin.value, b.dateMin.value, c.dateMin.value);
      }
    }
  }

  /** The groups of the records under the given key columns: one group per
      distinct key, no two with the same key, in ascending key order; every
      record's key has a group and every group's key is some record's. */
  function GroupRecords(records: seq<StockRecord>, cols: seq<nat>): (gs: seq<Group>)
    ensures forall i, j :: 0 <= i < j < |gs| ==> gs[i].key != gs[j].key && KeyLe(gs[i].key, gs[j].key)
    ensures forall r :: r in records ==> exists i :: 0 <= i < |gs| && gs[i].key == RecordKey(r, cols)
    ensures forall i :: 0 <= i < |gs| ==> exists r :: r in records && RecordKey(r, cols) == gs[i].key
    ensures var ks := SortedKeys(records, KeyFn(cols));
      && |gs| == |ks|
      && forall i :: 0 <= i < |ks| ==>
        |Members(records, KeyFn(cols), ks[i])| > 0 && gs[i] == MakeGroup(ks[i], Members(records, KeyFn(cols), ks[i]))
  {
    var kf := KeyFn(cols);
    var ks := SortedKeys(records, kf);
    SortedKeysNonEmpty(records, kf);
    var gs := seq(|ks|, i requires 0 <= i < |ks| => MakeGroup(ks[i], Members(records, kf, ks[i])));
    KeyedGroups(records, cols, gs);
    gs
  }

  /** Groups carrying the sorted keys one for one have distinct ascending
      keys, one for every record and each from some record. */
  lemma {:induction false} KeyedGroups(records: seq<StockRecord>, cols: seq<nat>, gs: seq<Group>)
    requires var ks := SortedKeys(records, KeyFn(cols));
      |gs| == |ks| && forall i :: 0 <= i < |ks| ==> gs[i].key == ks[i]
    ensures forall i, j :: 0 <= i < j < |gs| ==> gs[i].key != gs[j].key && KeyLe(gs[i].key, gs[j].key)
    ensures forall r :: r in records ==> exists i :: 0 <= i < |gs| && gs[i].key == RecordKey(r, cols)
    ensures forall i :: 0 <= i < |gs| ==> exists r :: r in records && RecordKey(r, cols) == gs[i].key
  {
    var kf := KeyFn(cols);
    var ks := SortedKeys(records, kf);
    SortedKeysOrdered(records, kf);
    forall r | r in records ensures exists i :: 0 <= i < |gs| && gs[i].key == RecordKey(r, cols) {
      assert kf(r) in ks;
      var i :| 0 <= i < |ks| && ks[i] == kf(r);
      assert gs[i].key == RecordKey(r, cols);
    }
    forall i | 0 <= i < |gs| ensures exists r :: r in records && RecordKey(r, cols) == gs[i].key {
      assert ks[i] in ks;
      assert HasRow(records, kf, ks[i]);
      var r :| r in records && kf(r) == ks[i];
      assert RecordKey(r, cols) == gs[i].key;
    }
  }

  /** `aggregate_data`. */
  function Aggregate(records: seq<StockRecord>, keys: seq<nat>, schema: Schema): (r: Result<seq<Group>, AggregateError>)
    requires ValidSchema(schema)
    ensures r.Err? <==> |records| == 0
    ensures r.Err? ==> r.error == EmptyInput
    ensures r.Ok? ==> Sorted(r.value, GroupLe)
    ensures r.Ok? ==> multiset(r.value) == multiset(GroupRecords(records, EffectiveKeys(keys, schema)))
  {
    if |records| == 0 then Err(EmptyInput)
    else
      var cols := EffectiveKeys(keys, schema);
      assert schema.inventory in cols;
      if |cols| == 0 then Err(NoValidKey)
      else
        GroupLeTotalPreorder();
        SortBySorted(GroupRecords(records, cols), GroupLe);
        Ok(SortBy(GroupRecords(records, cols), GroupLe))
  }

  // ---------------------------------------------------------------------
  // Properties.

  /** The inventory number is always one of the key columns, so no key is
      ever missing and records of different inventories never share a
      group. */
  lemma {:induction false} InventoryIsKey(keys: seq<nat>, schema: Schema)
    requires ValidSchema(schema)
    ensures schema.inventory in EffectiveKeys(keys, schema)
    ensures forall c :: c in keys && c < schema.width ==> c in EffectiveKeys(keys, schema)
  {
  }

  /** Each group's figures come from exactly its own records: the total is
      their quantity sum, the date the earliest of their lot dates, the type
      the priority type among theirs. */
  lemma {:induction false} GroupFigures(records: seq<StockRecord>, cols: seq<nat>, i: nat)
    requires i < |GroupRecords(records, cols)|
    ensures var g := GroupRecords(records, cols)[i];
      var ms := Members(records, KeyFn(cols), g.key);
      && |ms| > 0
      && (forall r :: r in ms <==> r in records && RecordKey(r, cols) == g.key)
      && g.total == SumBy(ms, Quantity)
      && g.dateMin == MinDate(LotDates(ms))
      && g.priority == PriorityLotType(LotTypes(ms))
      && g.session == ms[0].session && g.site == ms[0].site
  {
    var kf := KeyFn(cols);
    var g := GroupRecords(records, cols)[i];
    forall r | r in records && RecordKey(r, cols) == g.key ensures r in Members(records, kf, g.key) {
      MembersComplete(records, kf, r);
    }
  }

  /** Aggregation loses no quantity: the group totals add up to the sum of
      the record quantities, whatever order the groups are sorted in. */
  lemma {:induction false} AggregateConserves(records: seq<StockRecord>, keys: seq<nat>, schema: Schema)
    requires ValidSchema(schema)
    ensures var r := Aggregate(records, keys, schema);
      r.Ok? ==> SumBy(r.value, Total) == SumBy(records, Quantity)
  {
    var r := Aggregate(records, keys, schema);
    if r.Ok? {
      var gs := GroupRecords(records, EffectiveKeys(keys, schema));
      GroupsConserve(records, EffectiveKeys(keys, schema));
      SumPermutation(r.value, gs, Total);
    }
  }

  /** The group totals add up to the sum of the record quantities. */
  lemma {:induction false} GroupsConserve(records: seq<StockRecord>, cols: seq<nat>)
    ensures SumBy(GroupRecords(records, cols), Total) == SumBy(records, Quantity)
  {
    var kf := KeyFn(cols);
    var gs := GroupRecords(records, cols);
    forall i | 0 <= i < |gs|
      ensures Total(gs[i]) == SumBy(Members(records, kf, SortedKeys(records, kf)[i]), Quantity)
    {
    }
    KeyedSum(records, kf, Quantity, gs, Total);
  }

  /** The aggregated groups are exactly the groups of the records, each
      once: sorting only reorders them. */
  lemma {:induction false} AggregateGroups(records: seq<StockRecord>, keys: seq<nat>, schema: Schema)
    requires ValidSchema(schema)
    ensures var r := Aggregate(records, keys, schema);
      r.Ok? ==>
        var gs := GroupRecords(records, EffectiveKeys(keys, schema));
        && |r.value| == |gs|
        && (forall g :: g in r.value <==> g in gs)
  {
    var r := Aggregate(records, keys, schema);
    if r.Ok? {
      var gs := GroupRecords(records, EffectiveKeys(keys, schema));
      assert |r.value| == |multiset(r.value)| == |multiset(gs)| == |gs|;
      forall g ensures g in r.value <==> g in gs {
        assert g in r.value <==> g in multiset(r.value);
        assert g in gs <==> g in multiset(gs);
      }
    }
  }
}
