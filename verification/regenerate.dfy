/** The record regenerator (`generate_final_file`, backend/app.py): the
    original stock lines are written back with their theoretical quantity in
    field 5, the corrected quantity in field 6 and the count indicator in
    field 7, the lot replaced by "LOTECART" on found-stock lines and the
    location replaced where the count template changed it; the new found-stock
    lines follow, numbered above every existing rank. */
module Regenerate {
  import opened Common
  import opened Text
  import opened Decimal
  import opened Lots
  import opened Records
  import opened Discrepancy
  import opened Lotecart

  // ---------------------------------------------------------------------
  // The adjustment dictionary.

  /** One row of the distributed data as the regenerator reads it: its key
      (article, inventory, stripped lot), its corrected quantity and its lot
      type. */
  datatype Entry = Entry(article: string, inventory: string, lot: string, corrected: int, lotType: LotType)

  function EntryOfLine(l: LotLine): Entry {
    Entry(l.article, l.inventory, Strip(l.lot), l.corrected, l.lotType)
  }

  /** A found-stock adjustment carries the lot type "lotecart". */
  function EntryOfAdjustment(a: Adjustment): Entry {
    Entry(a.article, a.inventory, Strip(a.lot), a.corrected, Lotecart)
  }

  /** The distributed lines followed by the found-stock adjustments appended
      to them. */
  function Entries(lines: seq<LotLine>, adjs: seq<Adjustment>): (es: seq<Entry>)
    ensures |es| == |lines| + |adjs|
    ensures forall k :: 0 <= k < |lines| ==> es[k] == EntryOfLine(lines[k])
    ensures forall k :: 0 <= k < |adjs| ==> es[|lines| + k] == EntryOfAdjustment(adjs[k])
  {
    seq(|lines| + |adjs|, k requires 0 <= k < |lines| + |adjs| =>
      if k < |lines| then EntryOfLine(lines[k]) else EntryOfAdjustment(adjs[k - |lines|]))
  }

  predicate Keyed(e: Entry, article: string, inventory: string, lot: string) {
    e.article == article && e.inventory == inventory && e.lot == lot
  }

  function KeyedFn(article: string, inventory: string, lot: string): Entry -> bool {
    e => Keyed(e, article, inventory, lot)
  }

  /** The position of the last entry with the given key. */
  function LastEntry(es: seq<Entry>, article: string, inventory: string, lot: string): Option<nat> {
    LastWhere(es, KeyedFn(article, inventory, lot))
  }

  /** `adjustments_dict.get(key)`: the last entry with the key, a later row
      overwriting an earlier one. */
  function EntryFor(es: seq<Entry>, article: string, inventory: string, lot: string): Option<Entry> {
    match LastEntry(es, article, inventory, lot)
    case Some(j) => Some(es[j])
    case None => None
  }

  /** The dictionary as the regenerator builds it, in one pass over the entries. */
  method IndexEntries(es: seq<Entry>) returns (m: map<(string, string, string), Entry>)
    ensures forall a, i, t :: (a, i, t) in m <==> LastEntry(es, a, i, t).Some?
    ensures forall a, i, t :: (a, i, t) in m ==> Some(m[(a, i, t)]) == EntryFor(es, a, i, t)
  {
    m := map[];
    for n := 0 to |es|
      invariant forall a, i, t :: (a, i, t) in m <==> LastEntry(es[..n], a, i, t).Some?
      invariant forall a, i, t :: (a, i, t) in m ==> Some(m[(a, i, t)]) == EntryFor(es[..n], a, i, t)
    {
      assert es[..n + 1][..n] == es[..n];
      m := m[(es[n].article, es[n].inventory, es[n].lot) := es[n]];
    }
    assert es[..|es|] == es;
  }

  // ---------------------------------------------------------------------
  // Location overrides.

  /** A template row that changes the location: article and inventory given,
      and a location cell holding non-blank text. */
  predicate Overrides(row: TemplateRow) {
    row.article != "" && row.inventory != "" && row.location.Text? && Strip(row.location.text) != ""
  }

  predicate OverridesFor(row: TemplateRow, article: string, inventory: string) {
    CountsFor(row, article, inventory) && Overrides(row)
  }

  function OverridesFn(article: string, inventory: string): TemplateRow -> bool {
    row => OverridesFor(row, article, inventory)
  }

  /** The position of the last template row changing the location of
      (article, inventory). */
  function LastOverride(rows: seq<TemplateRow>, article: string, inventory: string): Option<nat> {
    LastWhere(rows, OverridesFn(article, inventory))
  }

  /** `emplacement_updates.get((article, inventory))`: the stripped location of
      the last row changing it. */
  function LocationFor(rows: seq<TemplateRow>, article: string, inventory: string): (loc: Option<string>)
    ensures loc.Some? ==> loc.value != ""
    ensures loc.None? <==> forall k :: 0 <= k < |rows| ==> !OverridesFor(rows[k], article, inventory)
    ensures loc.Some? ==>
      exists j :: 0 <= j < |rows| && OverridesFor(rows[j], article, inventory)
        && loc.value == Strip(rows[j].location.text)
        && forall k :: j < k < |rows| ==> !OverridesFor(rows[k], article, inventory)
  {
    match LastOverride(rows, article, inventory)
    case Some(j) => Some(Strip(rows[j].location.text))
    case None => None
  }

  /** The location dictionary, built as the regenerator builds it: one pass over
      the template, a later override replacing an earlier one. */
  method IndexLocations(rows: seq<TemplateRow>) returns (m: map<(string, string), string>)
    ensures forall a, i :: (a, i) in m <==> LocationFor(rows, a, i).Some?
    ensures forall a, i :: (a, i) in m ==> Some(m[(a, i)]) == LocationFor(rows, a, i)
  {
    m := map[];
    for n := 0 to |rows|
      invariant forall a, i :: (a, i) in m <==> LocationFor(rows[..n], a, i).Some?
      invariant forall a, i :: (a, i) in m ==> Some(m[(a, i)]) == LocationFor(rows[..n], a, i)
    {
      forall a, i ensures LocationFor(rows[..n + 1], a, i)
        == if OverridesFor(rows[n], a, i) then Some(Strip(rows[n].location.text)) else LocationFor(rows[..n], a, i)
      {
        LocationStep(rows, n, a, i);
      }
      if Overrides(rows[n]) {
        m := m[(rows[n].article, rows[n].inventory) := Strip(rows[n].location.text)];
      }
    }
    assert rows[..|rows|] == rows;
  }

  /** One more template row changes the location of its own pair and of no
      other. */
  lemma {:induction false} LocationStep(rows: seq<TemplateRow>, n: nat, article: string, inventory: string)
    requires n < |rows|
    ensures LocationFor(rows[..n + 1], article, inventory)
      == if OverridesFor(rows[n], article, inventory) then Some(Strip(rows[n].location.text))
         else LocationFor(rows[..n], article, inventory)
  {
    assert rows[..n + 1][..n] == rows[..n];
  }

  // ---------------------------------------------------------------------
  // Replaying the original lines.

  /** The fields of a stock line as written back.  Field 5 keeps the
      theoretical quantity.  A line with an entry gets the corrected quantity,
      comma-separated, in field 6 and indicator 2 exactly when that quantity is
      zero (1 otherwise), and lot "LOTECART" when the entry is found stock; a
      line without one repeats field 5 in field 6 with indicator 1.  A location
      override replaces field 9. */
  function ReplayParts(parts: seq<string>, entry: Option<Entry>, location: Option<string>): (r: seq<string>)
    requires |parts| >= 15
    ensures |r| == |parts|
    ensures r[5] == parts[5]
    ensures entry.Some? ==> r[6] == ToCsvNumber(Number(entry.value.corrected), ",")
                            && ParseQuantity(r[6]) == Some(entry.value.corrected)
    ensures entry.None? ==> r[6] == parts[5]
    ensures r[7] == "2" <==> entry.Some? && entry.value.corrected == 0
    ensures r[7] == "1" || r[7] == "2"
    ensures r[14] == (if entry.Some? && entry.value.lotType == Lotecart then "LOTECART" else parts[14])
    ensures r[9] == (if location.Some? then location.value else parts[9])
    ensures forall j :: 0 <= j < |parts| && j != 6 && j != 7 && j != 9 && j != 14 ==> r[j] == parts[j]
  {
    ReplayedFields(parts, entry, location, CsvQuantity);
    if entry.Some? then
      CommaNumber(entry.value.corrected);
      Relocate(ApplyEntry(parts, entry, CsvQuantity), location)
    else Relocate(ApplyEntry(parts, entry, CsvQuantity), location)
  }

  /** `_to_csv_number(corrected, ',')`. */
  function CsvQuantity(v: int): string {
    ToCsvNumber(Number(v), ",")
  }

  /** The quantity, indicator and lot fields of a written-back line, with
      `show` writing the corrected quantity. */
  function ApplyEntry(parts: seq<string>, entry: Option<Entry>, show: int -> string): (r: seq<string>)
    requires |parts| >= 15
    ensures |r| == |parts|
  {
    match entry
    case Some(e) =>
      var p := parts[6 := show(e.corrected)][7 := if e.corrected == 0 then "2" else "1"];
      if e.lotType == Lotecart then p[14 := "LOTECART"] else p
    case None => parts[6 := parts[5]][7 := "1"]
  }

  /** The location field of a written-back line. */
  function Relocate(parts: seq<string>, location: Option<string>): (r: seq<string>)
    requires |parts| >= 15
    ensures |r| == |parts|
  {
    match location
    case Some(loc) => parts[9 := loc]
    case None => parts
  }

  function RecordParts(r: StockRecord): seq<string> {
    Split(r.raw, ';')
  }

  /** Only lines of at least 15 fields are written back. */
  predicate Written(r: StockRecord) {
    |RecordParts(r)| >= 15
  }

  /** The written-back fields of one stock record. */
  function ReplayRecordParts(r: StockRecord, es: seq<Entry>, rows: seq<TemplateRow>): (p: seq<string>)
    requires Written(r)
    ensures |p| == |RecordParts(r)|
  {
    ReplayParts(RecordParts(r), EntryFor(es, r.article, r.inventory, Strip(r.lot)), LocationFor(rows, r.article, r.inventory))
  }

  /** The records that are written back, in order. */
  function WrittenRecords(records: seq<StockRecord>): (ws: seq<StockRecord>)
    ensures |ws| <= |records|
    ensures forall i :: 0 <= i < |ws| ==> Written(ws[i])
  {
    if |records| == 0 then []
    else
      var rest := WrittenRecords(records[1..]);
      if Written(records[0]) then [records[0]] + rest else rest
  }

  /** The records written back are exactly those of at least 15 fields. */
  lemma {:induction false} WrittenRecordsMembers(records: seq<StockRecord>, r: StockRecord)
    ensures r in WrittenRecords(records) <==> r in records && Written(r)
  {
    if |records| > 0 {
      WrittenRecordsMembers(records[1..], r);
      assert r in records <==> r == records[0] || r in records[1..];
    }
  }

  /** The original lines as written back. */
  function ReplayRecords(records: seq<StockRecord>, es: seq<Entry>, rows: seq<TemplateRow>): (ls: seq<string>)
    ensures |ls| == |WrittenRecords(records)|
  {
    var ws := WrittenRecords(records);
    seq(|ws|, i requires 0 <= i < |ws| => JoinFields(ReplayRecordParts(ws[i], es, rows)))
  }

  // ---------------------------------------------------------------------
  // Ranks and new lines.

  /** The rank (field 3) of a written-back record, when it reads as an
      integer. */
  function RankOf(r: StockRecord): Option<int> {
    if Written(r) then ParseInt(RecordParts(r)[3]) else None
  }

  /** `max_line_number`: the largest rank of the written-back records, 0 when
      there is none or all are smaller. */
  function MaxRank(records: seq<StockRecord>): (m: int)
    ensures m >= 0
    ensures forall i :: 0 <= i < |records| && RankOf(records[i]).Some? ==> RankOf(records[i]).value <= m
    ensures m == 0 || exists i :: 0 <= i < |records| && RankOf(records[i]) == Some(m)
  {
    var ranks := Map(records, RankOf);
    var m := MaxOf(ranks);
    assert m != 0 ==> exists i :: 0 <= i < |records| && RankOf(records[i]) == Some(m) by {
      if m != 0 {
        var i :| 0 <= i < |ranks| && ranks[i] == Some(m);
        assert RankOf(records[i]) == Some(m);
      }
    }
    m
  }

  /** The largest of the present ranks, at least 0. */
  function MaxOf(ranks: seq<Option<int>>): (m: int)
    ensures m >= 0
    ensures forall i :: 0 <= i < |ranks| && ranks[i].Some? ==> ranks[i].value <= m
    ensures m == 0 || exists i :: 0 <= i < |ranks| && ranks[i] == Some(m)
  {
    if |ranks| == 0 then 0
    else
      var init := ranks[..|ranks| - 1];
      var prev := MaxOf(init);
      assert forall i :: 0 <= i < |init| ==> init[i] == ranks[i];
      match ranks[|ranks| - 1]
      case Some(v) => if v > prev then v else prev
      case None => prev
  }

  /** The adjustments the regenerator hands to the new-line generator: new
      lines that are not updates of an existing line. */
  function NewAdjustments(adjs: seq<Adjustment>): (ns: seq<Adjustment>)
    ensures |ns| <= |adjs|
  {
    if |adjs| == 0 then []
    else
      var rest := NewAdjustments(adjs[1..]);
      if adjs[0].isNew && !adjs[0].isUpdate then [adjs[0]] + rest else rest
  }

  /** The adjustments handed on are exactly the new lines that are not
      updates. */
  lemma {:induction false} NewAdjustmentsMembers(adjs: seq<Adjustment>, a: Adjustment)
    ensures a in NewAdjustments(adjs) <==> a in adjs && a.isNew && !a.isUpdate
  {
    if |adjs| > 0 {
      NewAdjustmentsMembers(adjs[1..], a);
      assert a in adjs <==> a == adjs[0] || a in adjs[1..];
    }
  }

  /** The new lines' quantities moved to the final layout: field 5 becomes 0
      (there was no stock before) and field 6 takes the found quantity with a
      comma as decimal separator. */
  function AdaptParts(parts: seq<string>): (r: seq<string>)
    requires |parts| >= 15
    ensures |r| == |parts|
  {
    parts[5 := "0"][6 := ReplaceChar(parts[5], '.', ',')]
  }

  function AdaptLine(line: string): string {
    var parts := Split(line, ';');
    if |parts| >= 15 then JoinFields(AdaptParts(parts)) else line
  }

  /** The found-stock lines appended to the final file. */
  function FinalNewLines(adjs: seq<Adjustment>, maxRank: int): (ls: seq<string>)
    ensures |ls| == |Usable(NewAdjustments(adjs))|
  {
    Map(GenerateLotecartLines(NewAdjustments(adjs), maxRank), AdaptLine)
  }

  /** `generate_final_file`: header lines, the written-back original lines,
      then the new found-stock lines numbered above every existing rank. */
  function GenerateFinal(
    headers: seq<string>, records: seq<StockRecord>, lines: seq<LotLine>,
    adjs: seq<Adjustment>, rows: seq<TemplateRow>): (out: seq<string>)
    ensures |out| == |headers| + |WrittenRecords(records)| + |Usable(NewAdjustments(adjs))|
    ensures out[..|headers|] == headers
  {
    headers + ReplayRecords(records, Entries(lines, adjs), rows) + FinalNewLines(adjs, MaxRank(records))
  }

  // ---------------------------------------------------------------------
  // Properties.

  /** What a written-back line holds, for any printer `show` of the
      corrected quantity. */
  lemma {:induction false} ReplayedFields(parts: seq<string>, entry: Option<Entry>, location: Option<string>, show: int -> string)
    requires |parts| >= 15
    ensures var r := Relocate(ApplyEntry(parts, entry, show), location);
      && r[5] == parts[5]
      && r[6] == (if entry.Some? then show(entry.value.corrected) else parts[5])
      && r[7] == (if entry.Some? && entry.value.corrected == 0 then "2" else "1")
      && r[14] == (if entry.Some? && entry.value.lotType == Lotecart then "LOTECART" else parts[14])
      && r[9] == (if location.Some? then location.value else parts[9])
      && (forall j :: 0 <= j < |parts| && j != 6 && j != 7 && j != 9 && j != 14 ==> r[j] == parts[j])
  {
    var p := ApplyEntry(parts, entry, show);
    EntryFields(parts, entry, show);
    RelocateFields(p, location);
  }

  lemma {:induction false} EntryFields(parts: seq<string>, entry: Option<Entry>, show: int -> string)
    requires |parts| >= 15
    ensures var r := ApplyEntry(parts, entry, show);
      && r[6] == (if entry.Some? then show(entry.value.corrected) else parts[5])
      && r[7] == (if entry.Some? && entry.value.corrected == 0 then "2" else "1")
      && r[14] == (if entry.Some? && entry.value.lotType == Lotecart then "LOTECART" else parts[14])
      && (forall j :: 0 <= j < |parts| && j != 6 && j != 7 && j != 14 ==> r[j] == parts[j])
  {
  }

  lemma {:induction false} RelocateFields(parts: seq<string>, location: Option<string>)
    requires |parts| >= 15
    ensures var r := Relocate(parts, location);
      && r[9] == (if location.Some? then location.value else parts[9])
      && (forall j :: 0 <= j < |parts| && j != 9 ==> r[j] == parts[j])
  {
  }

  /** A written-back line splits back into its fields when the location
      written into it holds no separator. */
  lemma {:induction false} ReplaySplit(r: StockRecord, es: seq<Entry>, rows: seq<TemplateRow>)
    requires Written(r)
    requires LocationFor(rows, r.article, r.inventory).Some? ==> ';' !in LocationFor(rows, r.article, r.inventory).value
    ensures Split(JoinFields(ReplayRecordParts(r, es, rows)), ';') == ReplayRecordParts(r, es, rows)
  {
    var entry := EntryFor(es, r.article, r.inventory, Strip(r.lot));
    if entry.Some? {
      CommaNumber(entry.value.corrected);
    }
    ReplayPartsSplit(RecordParts(r), entry, LocationFor(rows, r.article, r.inventory), CsvQuantity);
  }

  lemma {:induction false} ReplayPartsSplit(parts: seq<string>, entry: Option<Entry>, location: Option<string>, show: int -> string)
    requires |parts| >= 15 && NoSeparator(parts, ';')
    requires entry.Some? ==> ';' !in show(entry.value.corrected)
    requires location.Some? ==> ';' !in location.value
    ensures var p := Relocate(ApplyEntry(parts, entry, show), location);
      Split(JoinFields(p), ';') == p
  {
    var p := Relocate(ApplyEntry(parts, entry, show), location);
    ReplayedFields(parts, entry, location, show);
    forall j | 0 <= j < |p| ensures ';' !in p[j] {
      if j != 6 && j != 7 && j != 9 && j != 14 {
        assert p[j] == parts[j];
      }
    }
    SplitJoin(p, ';');
  }

  /** A found-stock line of the final file, split into its fields: the
      reference line's fields with the k-th rank above the existing maximum,
      quantity 0 before and the found quantity after (comma-separated, reading
      back as that quantity), indicator 2 and lot "LOTECART". */
  lemma {:induction false} FinalNewLineFields(adjs: seq<Adjustment>, maxRank: int, k: nat)
    requires k < |Usable(NewAdjustments(adjs))|
    ensures var u := Usable(NewAdjustments(adjs))[k];
      var l := Split(FinalNewLines(adjs, maxRank)[k], ';');
      && |l| == |u.0|
      && ParseInt(l[3]) == Some(maxRank + 1000 * (k + 1))
      && l[5] == "0"
      && l[6] == ToCsvNumber(Number(u.1), ",")
      && ParseQuantity(l[6]) == Some(u.1)
      && l[7] == "2" && l[14] == "LOTECART"
      && (forall j :: 0 <= j < |l| && j != 3 && j != 5 && j != 6 && j != 7 && j != 14 ==> l[j] == u.0[j])
  {
    var ns := NewAdjustments(adjs);
    var u := Usable(ns)[k];
    var rank := maxRank + 1000 * (k + 1);
    NewLineSplit(ns, maxRank, k);
    NewLineAt(ns, maxRank, k);
    UsableParts(ns, k);
    var generated := GenerateLotecartLines(ns, maxRank)[k];
    assert Split(generated, ';') == Stamp(u.0, IntToString(rank), FormatMicro(u.1));
    assert FinalNewLines(adjs, maxRank)[k] == AdaptLine(generated);
    AdaptedFields(u.0, rank, u.1);
  }

  /** A new line moved to the final layout, split back into its fields. */
  lemma {:induction false} AdaptedFields(parts: seq<string>, rank: int, quantity: int)
    requires |parts| >= 15 && NoSeparator(parts, ';')
    ensures var l := Split(JoinFields(AdaptParts(Stamp(parts, IntToString(rank), FormatMicro(quantity)))), ';');
      && |l| == |parts|
      && ParseInt(l[3]) == Some(rank)
      && l[5] == "0"
      && l[6] == ToCsvNumber(Number(quantity), ",")
      && ParseQuantity(l[6]) == Some(quantity)
      && l[7] == "2" && l[14] == "LOTECART"
      && (forall j :: 0 <= j < |l| && j != 3 && j != 5 && j != 6 && j != 7 && j != 14 ==> l[j] == parts[j])
  {
    var r := IntToString(rank);
    var q := FormatMicro(quantity);
    CommaNumber(quantity);
    assert ReplaceChar(q, '.', ',') == ToCsvNumber(Number(quantity), ",");
    ParseIntToString(rank);
    IntToStringChars(rank, ';');
    AdaptedStampSplit(parts, r, q);
  }

  /** A stamped line moved to the final layout splits back into its fields:
      field 5 is 0 and field 6 the quantity with a comma for the point. */
  lemma {:induction false} AdaptedStampSplit(parts: seq<string>, rank: string, quantity: string)
    requires |parts| >= 15 && NoSeparator(parts, ';')
    requires ';' !in rank && ';' !in ReplaceChar(quantity, '.', ',')
    ensures var l := Split(JoinFields(AdaptParts(Stamp(parts, rank, quantity))), ';');
      && |l| == |parts|
      && l[3] == rank && l[5] == "0" && l[6] == ReplaceChar(quantity, '.', ',')
      && l[7] == "2" && l[14] == "LOTECART"
      && (forall j :: 0 <= j < |l| && j != 3 && j != 5 && j != 6 && j != 7 && j != 14 ==> l[j] == parts[j])
  {
    var l := Stamp(parts, rank, quantity);
    var adapted := AdaptParts(l);
    StampFields(parts, rank, quantity);
    forall j | 0 <= j < |adapted| ensures ';' !in adapted[j] {
      if j != 3 && j != 5 && j != 6 && j != 7 && j != 14 {
        assert adapted[j] == parts[j];
      }
    }
    SplitJoin(adapted, ';');
  }

  /** Every new line's rank is above the rank of every written-back line. */
  lemma {:induction false} NewRanksAbove(records: seq<StockRecord>, adjs: seq<Adjustment>, k: nat, i: nat)
    requires k < |Usable(NewAdjustments(adjs))| && i < |records|
    ensures var l := Split(FinalNewLines(adjs, MaxRank(records))[k], ';');
      && |l| > 3
      && ParseInt(l[3]).Some?
      && (RankOf(records[i]).Some? ==> RankOf(records[i]).value < ParseInt(l[3]).value)
  {
    FinalNewLineFields(adjs, MaxRank(records), k);
    if RankOf(records[i]).Some? {
    }
  }

  /** The new lines' ranks increase strictly, so no two new lines share one. */
  lemma {:induction false} NewRanksIncrease(adjs: seq<Adjustment>, maxRank: int, k: nat, k': nat)
    requires k < k' < |Usable(NewAdjustments(adjs))|
    ensures var l := Split(FinalNewLines(adjs, maxRank)[k], ';');
      var l' := Split(FinalNewLines(adjs, maxRank)[k'], ';');
      && |l| > 3 && |l'| > 3
      && ParseInt(l[3]).Some? && ParseInt(l'[3]).Some?
      && ParseInt(l[3]).value < ParseInt(l'[3]).value
  {
    FinalNewLineFields(adjs, maxRank, k);
    FinalNewLineFields(adjs, maxRank, k');
  }

  /** After the headers come the written-back lines, in record order. */
  lemma {:induction false} FinalReplayedLine(
    headers: seq<string>, records: seq<StockRecord>, lines: seq<LotLine>,
    adjs: seq<Adjustment>, rows: seq<TemplateRow>, i: nat)
    requires i < |WrittenRecords(records)|
    ensures |headers| + i < |GenerateFinal(headers, records, lines, adjs, rows)|
    ensures GenerateFinal(headers, records, lines, adjs, rows)[|headers| + i]
      == JoinFields(ReplayRecordParts(WrittenRecords(records)[i], Entries(lines, adjs), rows))
  {
    var r := ReplayRecords(records, Entries(lines, adjs), rows);
    var n := FinalNewLines(adjs, MaxRank(records));
    Concat3Middle(headers, r, n, i);
    ReplayRecordAt(records, Entries(lines, adjs), rows, i);
  }

  /** The i-th written-back line is the i-th written record replayed. */
  lemma {:induction false} ReplayRecordAt(records: seq<StockRecord>, es: seq<Entry>, rows: seq<TemplateRow>, i: nat)
    requires i < |WrittenRecords(records)|
    ensures ReplayRecords(records, es, rows)[i] == JoinFields(ReplayRecordParts(WrittenRecords(records)[i], es, rows))
  {
  }

  /** After the written-back lines come the new lines, in adjustment order. */
  lemma {:induction false} FinalNewLine(
    headers: seq<string>, records: seq<StockRecord>, lines: seq<LotLine>,
    adjs: seq<Adjustment>, rows: seq<TemplateRow>, k: nat)
    requires k < |Usable(NewAdjustments(adjs))|
    ensures |headers| + |WrittenRecords(records)| + k < |GenerateFinal(headers, records, lines, adjs, rows)|
    ensures GenerateFinal(headers, records, lines, adjs, rows)[|headers| + |WrittenRecords(records)| + k]
      == FinalNewLines(adjs, MaxRank(records))[k]
  {
    var r := ReplayRecords(records, Entries(lines, adjs), rows);
    var n := FinalNewLines(adjs, MaxRank(records));
    Concat3Last(headers, r, n, k);
  }

  /** A distributed line whose key no later line and no found-stock
      adjustment shares is written back with its own corrected quantity. */
  lemma {:induction false} LineEntry(lines: seq<LotLine>, adjs: seq<Adjustment>, i: nat)
    requires i < |lines|
    requires forall k :: i < k < |lines| ==> !Keyed(EntryOfLine(lines[k]), lines[i].article, lines[i].inventory, Strip(lines[i].lot))
    requires forall k :: 0 <= k < |adjs| ==> !Keyed(EntryOfAdjustment(adjs[k]), lines[i].article, lines[i].inventory, Strip(lines[i].lot))
    ensures EntryFor(Entries(lines, adjs), lines[i].article, lines[i].inventory, Strip(lines[i].lot)) == Some(EntryOfLine(lines[i]))
  {
    var es := Entries(lines, adjs);
    var l := lines[i];
    var t := Strip(l.lot);
    forall n | i < n < |es| ensures !Keyed(es[n], l.article, l.inventory, t) {
      if n < |lines| {
        assert es[n] == EntryOfLine(lines[n]);
      } else {
        assert es[n] == EntryOfAdjustment(adjs[n - |lines|]);
      }
    }
    EntryForLast(es, l.article, l.inventory, t, i);
  }

  /** Found-stock adjustments are appended after the distributed lines, so
      an adjustment whose key no later adjustment shares is the entry found
      for that key, whatever distributed line carries the same key. */
  lemma {:induction false} AdjustmentEntry(lines: seq<LotLine>, adjs: seq<Adjustment>, i: nat)
    requires i < |adjs|
    requires forall k :: i < k < |adjs| ==> !Keyed(EntryOfAdjustment(adjs[k]), adjs[i].article, adjs[i].inventory, Strip(adjs[i].lot))
    ensures EntryFor(Entries(lines, adjs), adjs[i].article, adjs[i].inventory, Strip(adjs[i].lot)) == Some(EntryOfAdjustment(adjs[i]))
  {
    var es := Entries(lines, adjs);
    var a := adjs[i];
    var t := Strip(a.lot);
    forall n | |lines| + i < n < |es| ensures !Keyed(es[n], a.article, a.inventory, t) {
      assert es[n] == EntryOfAdjustment(adjs[n - |lines|]);
    }
    EntryForLast(es, a.article, a.inventory, t, |lines| + i);
  }

  /** An entry with the key that no later entry shares is the one found. */
  lemma {:induction false} EntryForLast(es: seq<Entry>, article: string, inventory: string, lot: string, i: nat)
    requires i < |es| && Keyed(es[i], article, inventory, lot)
    requires forall n :: i < n < |es| ==> !Keyed(es[n], article, inventory, lot)
    ensures EntryFor(es, article, inventory, lot) == Some(es[i])
  {
    assert KeyedFn(article, inventory, lot)(es[i]);
  }
}
