/** The discrepancy calculator (`_calculate_discrepancies`, backend/app.py):
    the counted quantities of the completed template are looked up per
    (article, inventory) and attached to every stock record, which becomes a
    lot line with no adjustment yet. */
module Discrepancy {
  import opened Common
  import opened Text
  import opened Decimal
  import opened Dates
  import opened Lots
  import opened Records

  /** A row of the completed count template: article, inventory, the
      theoretical and counted quantities and the location, as the user left
      them. */
  datatype TemplateRow = TemplateRow(
    article: string,
    inventory: string,
    theoretical: Cell,
    counted: Cell,
    location: Cell)

  /** A lot line: one stock record with its counted quantity and, once the
      discrepancy is distributed, its adjustment and corrected quantity. */
  datatype LotLine = LotLine(
    article: string,
    inventory: string,
    lot: string,
    lotType: LotType,
    original: int,
    counted: Cell,
    adjustment: int,
    corrected: int,
    lotDate: Option<Date>,
    raw: string,
    status: string,
    unit: string,
    zone: string,
    location: string)

  predicate CountsFor(row: TemplateRow, article: string, inventory: string) {
    row.article == article && row.inventory == inventory
  }

  function CountsForFn(article: string, inventory: string): TemplateRow -> bool {
    row => CountsFor(row, article, inventory)
  }

  /** The position of the last template row for (article, inventory). */
  function LastMatch(rows: seq<TemplateRow>, article: string, inventory: string): (j: Option<nat>)
    ensures j.Some? ==> j.value < |rows| && CountsFor(rows[j.value], article, inventory)
    ensures j.Some? ==> forall k :: j.value < k < |rows| ==> !CountsFor(rows[k], article, inventory)
    ensures j.None? ==> forall k :: 0 <= k < |rows| ==> !CountsFor(rows[k], article, inventory)
  {
    LastWhere(rows, CountsForFn(article, inventory))
  }

  /** `real_quantities_dict.get(key, 0)`: the counted cell of the last
      template row for the pair, 0 when the pair was not counted. */
  function CountedFor(rows: seq<TemplateRow>, article: string, inventory: string): Cell {
    match LastMatch(rows, article, inventory)
    case Some(j) => rows[j].counted
    case None => Number(0)
  }

  /** The dictionary of counted quantities, built as the comparison builds it:
      one pass over the template, a later row overwriting an earlier one. */
  method CountIndex(rows: seq<TemplateRow>) returns (m: map<(string, string), Cell>)
    ensures forall a, i :: (a, i) in m <==> LastMatch(rows, a, i).Some?
    ensures forall a, i :: (a, i) in m ==> m[(a, i)] == CountedFor(rows, a, i)
  {
    m := map[];
    for n := 0 to |rows|
      invariant forall a, i :: (a, i) in m <==> LastMatch(rows[..n], a, i).Some?
      invariant forall a, i :: (a, i) in m ==> m[(a, i)] == CountedFor(rows[..n], a, i)
    {
      assert rows[..n + 1][..n] == rows[..n];
      m := m[(rows[n].article, rows[n].inventory) := rows[n].counted];
    }
    assert rows[..|rows|] == rows;
  }

  /** A stock record as a lot line: lot number stripped, counted quantity
      attached, nothing adjusted yet. */
  function DiscrepancyLine(r: StockRecord, counted: Cell): LotLine {
    LotLine(
      r.article, r.inventory, Strip(r.lot), r.lotType,
      r.quantity, counted, 0, r.quantity,
      r.lotDate, r.raw, r.status, r.unit, r.zone, r.location)
  }

  /** `_calculate_discrepancies`: one lot line per stock record, in order.
      Each line keeps its record's key fields, lot type, date and raw text,
      with the lot stripped; nothing is adjusted yet, so the corrected
      quantity is the theoretical one; the counted value is the one recorded
      for the record's (article, inventory). */
  function Discrepancies(records: seq<StockRecord>, rows: seq<TemplateRow>): (ls: seq<LotLine>)
    ensures |ls| == |records|
    ensures forall i :: 0 <= i < |records| ==>
      && ls[i].article == records[i].article && ls[i].inventory == records[i].inventory
      && ls[i].lot == Strip(records[i].lot) && ls[i].lotType == records[i].lotType
      && ls[i].lotDate == records[i].lotDate && ls[i].raw == records[i].raw
      && ls[i].status == records[i].status && ls[i].unit == records[i].unit
      && ls[i].zone == records[i].zone && ls[i].location == records[i].location
      && ls[i].adjustment == 0 && ls[i].corrected == ls[i].original == records[i].quantity
      && ls[i].counted == CountedFor(rows, records[i].article, records[i].inventory)
    ensures forall i :: 0 <= i < |records| ==>
      ls[i] == DiscrepancyLine(records[i], CountedFor(rows, records[i].article, records[i].inventory))
  {
    seq(|records|, i requires 0 <= i < |records| =>
      DiscrepancyLine(records[i], CountedFor(rows, records[i].article, records[i].inventory)))
  }

  /** Every lot line is its record with no adjustment and its corrected
      quantity equal to the theoretical one; its counted value is that of the
      last template row for its (article, inventory), or 0 when none. */
  lemma {:induction false} DiscrepanciesFaithful(records: seq<StockRecord>, rows: seq<TemplateRow>, i: nat)
    requires i < |records|
    ensures var l := Discrepancies(records, rows)[i];
      var r := records[i];
      && l.article == r.article && l.inventory == r.inventory && l.lot == Strip(r.lot)
      && l.lotType == r.lotType && l.lotDate == r.lotDate && l.raw == r.raw
      && l.adjustment == 0 && l.corrected == l.original == r.quantity
      && ((exists j :: 0 <= j < |rows| && CountsFor(rows[j], r.article, r.inventory)
             && l.counted == rows[j].counted
             && forall k :: j < k < |rows| ==> !CountsFor(rows[k], r.article, r.inventory))
          || (l.counted == Number(0) && forall k :: 0 <= k < |rows| ==> !CountsFor(rows[k], r.article, r.inventory)))
  {
    var r := records[i];
    match LastMatch(rows, r.article, r.inventory)
    case Some(j) =>
    case None =>
  }
}
