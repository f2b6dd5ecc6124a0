/** The found-stock handler (backend/services/lotecart_processor.py): a
    template row whose theoretical quantity is 0 but whose counted quantity is
    positive is stock found during the count (a LOTECART candidate).  Each
    candidate either updates an existing zero-quantity line of the article or
    becomes a new line copied from a reference line of the article, with a
    fresh rank, the counted quantity, count indicator 2 and lot "LOTECART". */
module Lotecart {
  import opened Common
  import opened Text
  import opened Decimal
  import opened Dates
  import opened Lots
  import opened Records
  import opened Discrepancy

  // ---------------------------------------------------------------------
  // Detection.

  /** A found-stock candidate: the counted quantity is also its discrepancy. */
  datatype Candidate = Candidate(article: string, inventory: string, counted: int)

  /** A template quantity as the detector reads it: normalised, parsed, and 0
      when it does not read as a number. */
  function TemplateQuantity(c: Cell): int {
    CellQuantity(c).GetOr(0)
  }

  predicate IsCandidate(row: TemplateRow) {
    TemplateQuantity(row.theoretical) == 0 && TemplateQuantity(row.counted) > 0
  }

  function CandidateOf(row: TemplateRow): Candidate {
    Candidate(row.article, row.inventory, TemplateQuantity(row.counted))
  }

  /** `detect_lotecart_candidates`: the candidate rows, in template order. */
  function DetectCandidates(rows: seq<TemplateRow>): (cs: seq<Candidate>)
    ensures |cs| <= |rows|
    ensures forall k :: 0 <= k < |cs| ==> cs[k].counted > 0
  {
    if |rows| == 0 then []
    else (if IsCandidate(rows[0]) then [CandidateOf(rows[0])] else []) + DetectCandidates(rows[1..])
  }

  /** Every candidate comes from a template row with theoretical quantity 0
      and a positive counted quantity. */
  lemma {:induction false} DetectSound(rows: seq<TemplateRow>, c: Candidate)
    requires c in DetectCandidates(rows)
    ensures exists i :: 0 <= i < |rows| && IsCandidate(rows[i]) && c == CandidateOf(rows[i])
  {
    if IsCandidate(rows[0]) && c == CandidateOf(rows[0]) {
    } else {
      DetectSound(rows[1..], c);
      var i :| 0 <= i < |rows[1..]| && IsCandidate(rows[1..][i]) && c == CandidateOf(rows[1..][i]);
      assert rows[1..][i] == rows[i + 1];
    }
  }

  /** Every such template row yields a candidate. */
  lemma {:induction false} DetectComplete(rows: seq<TemplateRow>, i: nat)
    requires i < |rows| && IsCandidate(rows[i])
    ensures CandidateOf(rows[i]) in DetectCandidates(rows)
  {
    if i > 0 {
      DetectComplete(rows[1..], i - 1);
      assert rows[1..][i - 1] == rows[i];
    }
  }

  // ---------------------------------------------------------------------
  // Adjustments.

  /** A found-stock adjustment: an update of an existing line (`isUpdate`,
      carrying that line's raw text) or a new line (`isNew`, carrying the raw
      text of the line it is copied from). */
  datatype Adjustment = Adjustment(
    article: string,
    inventory: string,
    lot: string,
    original: int,
    adjustment: int,
    corrected: int,
    lotDate: Option<Date>,
    raw: Option<string>,
    reference: Option<string>,
    isNew: bool,
    isUpdate: bool)

  /** The position of the first record satisfying `p`. */
  function First(records: seq<StockRecord>, p: StockRecord -> bool): (k: Option<nat>)
    ensures k.Some? ==> k.value < |records| && p(records[k.value])
    ensures k.Some? ==> forall j :: 0 <= j < k.value ==> !p(records[j])
    ensures k.None? ==> forall j :: 0 <= j < |records| ==> !p(records[j])
  {
    if |records| == 0 then None
    else if p(records[0]) then Some(0)
    else
      match First(records[1..], p)
      case None => None
      case Some(k) => Some(k + 1)
  }

  /** An existing line of the article and inventory with quantity 0. */
  predicate IsZeroLine(r: StockRecord, article: string, inventory: string) {
    r.article == article && r.inventory == inventory && r.quantity == 0
  }

  function ZeroLine(article: string, inventory: string): StockRecord -> bool {
    r => IsZeroLine(r, article, inventory)
  }

  /** A line of the article, and of the inventory when one is given. */
  predicate IsReference(r: StockRecord, article: string, inventory: string) {
    r.article == article && (inventory == "" || r.inventory == inventory)
  }

  function ReferenceLine(article: string, inventory: string): StockRecord -> bool {
    r => IsReference(r, article, inventory)
  }

  /** The adjustment one candidate yields, if any: there is one exactly when
      the extract holds a line of the candidate's article (and of its
      inventory, when it names one).  It is exactly one of update and new
      line, starts from 0, and brings the quantity to the counted one. */
  function AdjustmentFor(c: Candidate, records: seq<StockRecord>): (a: Option<Adjustment>)
    ensures a.Some? <==> exists j :: 0 <= j < |records| && IsReference(records[j], c.article, c.inventory)
    ensures a.Some? ==>
      && (a.value.isNew != a.value.isUpdate)
      && a.value.original == 0
      && a.value.adjustment == a.value.corrected == c.counted
      && a.value.article == c.article && a.value.inventory == c.inventory
      && (a.value.isNew <==> a.value.lot == "LOTECART" && a.value.raw.None? && a.value.reference.Some?)
      && (a.value.isUpdate ==> a.value.raw.Some? && a.value.reference.None?)
  {
    ReferenceSearch(records, c.article, c.inventory);
    match First(records, ZeroLine(c.article, c.inventory))
    case Some(k) =>
      var r := records[k];
      Some(Adjustment(c.article, c.inventory, r.lot, 0, c.counted, c.counted, r.lotDate, Some(r.raw), None, false, true))
    case None =>
      match First(records, ReferenceLine(c.article, c.inventory))
      case Some(k) =>
        Some(Adjustment(c.article, c.inventory, "LOTECART", 0, c.counted, c.counted, None, None, Some(records[k].raw), true, false))
      case None => None
  }

  /** `create_lotecart_adjustments`: the adjustments of the candidates, in
      candidate order; a candidate with no line of its article yields none. */
  function CreateAdjustments(cs: seq<Candidate>, records: seq<StockRecord>): (adjs: seq<Adjustment>)
    ensures |adjs| <= |cs|
    ensures forall k :: 0 <= k < |adjs| ==>
      && adjs[k].isNew != adjs[k].isUpdate
      && adjs[k].original == 0 && adjs[k].adjustment == adjs[k].corrected
  {
    if |cs| == 0 then []
    else
      (match AdjustmentFor(cs[0], records) case Some(a) => [a] case None => [])
      + CreateAdjustments(cs[1..], records)
  }

  /** An existing zero-quantity line is updated in place: the first such line
      of the article and inventory lends its lot, lot date and raw text, and
      its quantity becomes the counted one. */
  lemma {:induction false} UpdatesZeroLine(c: Candidate, records: seq<StockRecord>, k: nat)
    requires k < |records| && IsZeroLine(records[k], c.article, c.inventory)
    requires forall j :: 0 <= j < k ==> !IsZeroLine(records[j], c.article, c.inventory)
    ensures AdjustmentFor(c, records) == Some(Adjustment(
      c.article, c.inventory, records[k].lot, 0, c.counted, c.counted,
      records[k].lotDate, Some(records[k].raw), None, false, true))
  {
    assert ZeroLine(c.article, c.inventory)(records[k]);
  }

  /** Without a zero-quantity line, a new line is copied from the first line
      of the article (and of the inventory, when the candidate names one);
      without any such line the candidate yields nothing. */
  lemma {:induction false} NewFromReference(c: Candidate, records: seq<StockRecord>)
    requires forall j :: 0 <= j < |records| ==> !IsZeroLine(records[j], c.article, c.inventory)
    ensures match First(records, ReferenceLine(c.article, c.inventory))
      case Some(k) =>
        AdjustmentFor(c, records) == Some(Adjustment(
          c.article, c.inventory, "LOTECART", 0, c.counted, c.counted,
          None, None, Some(records[k].raw), true, false))
        && IsReference(records[k], c.article, c.inventory)
        && forall j :: 0 <= j < k ==> !IsReference(records[j], c.article, c.inventory)
      case None =>
        AdjustmentFor(c, records) == None
        && forall j :: 0 <= j < |records| ==> !IsReference(records[j], c.article, c.inventory)
  {
    var g := First(records, ReferenceLine(c.article, c.inventory));
    match g
    case Some(k) =>
      assert ReferenceLine(c.article, c.inventory)(records[k]);
      forall j | 0 <= j < k ensures !IsReference(records[j], c.article, c.inventory) {
        assert !ReferenceLine(c.article, c.inventory)(records[j]);
      }
    case None =>
      forall j | 0 <= j < |records| ensures !IsReference(records[j], c.article, c.inventory) {
        assert !ReferenceLine(c.article, c.inventory)(records[j]);
      }
  }

  /** Search facts behind `AdjustmentFor`: a zero-quantity line of the
      article and inventory is a line of the article, and the reference
      search fails exactly when no line of the article qualifies. */
  lemma {:induction false} ReferenceSearch(records: seq<StockRecord>, article: string, inventory: string)
    ensures var f := First(records, ZeroLine(article, inventory));
      f.Some? ==> IsReference(records[f.value], article, inventory)
    ensures First(records, ReferenceLine(article, inventory)).None? <==>
      forall j :: 0 <= j < |records| ==> !IsReference(records[j], article, inventory)
  {
    var f := First(records, ZeroLine(article, inventory));
    var g := First(records, ReferenceLine(article, inventory));
    if f.Some? {
      assert ZeroLine(article, inventory)(records[f.value]);
    }
    if g.Some? {
      assert ReferenceLine(article, inventory)(records[g.value]);
    } else {
      forall j | 0 <= j < |records| ensures !IsReference(records[j], article, inventory) {
        assert !ReferenceLine(article, inventory)(records[j]);
      }
    }
  }

  /** Every adjustment comes from one of the candidates. */
  lemma {:induction false} CreateSound(cs: seq<Candidate>, records: seq<StockRecord>, a: Adjustment)
    requires a in CreateAdjustments(cs, records)
    ensures exists c :: c in cs && AdjustmentFor(c, records) == Some(a)
  {
    if AdjustmentFor(cs[0], records) == Some(a) {
      assert cs[0] in cs;
    } else {
      CreateSound(cs[1..], records, a);
      var c :| c in cs[1..] && AdjustmentFor(c, records) == Some(a);
      assert c in cs;
    }
  }

  /** Every candidate's adjustment is among the adjustments. */
  lemma {:induction false} CreateComplete(cs: seq<Candidate>, records: seq<StockRecord>, i: nat)
    requires i < |cs| && AdjustmentFor(cs[i], records).Some?
    ensures AdjustmentFor(cs[i], records).value in CreateAdjustments(cs, records)
  {
    if i > 0 {
      CreateComplete(cs[1..], records, i - 1);
      assert cs[1..][i - 1] == cs[i];
    }
  }

  // ---------------------------------------------------------------------
  // New lines.

  /** The fields of the reference line a new line is copied from, when the
      adjustment is a new line and its reference is usable: not missing, not
      blank, not the text of a missing value, and at least 15 fields long. */
  function ReferenceParts(a: Adjustment): (parts: Option<seq<string>>)
    ensures parts.Some? ==> |parts.value| >= 15 && NoSeparator(parts.value, ';')
    ensures parts.Some? ==> a.isNew && a.reference.Some? && Join(parts.value, ';') == Strip(a.reference.value)
    ensures !a.isNew || a.reference.None? ==> parts.None?
    ensures a.isNew && a.reference.Some? ==>
      var s := Strip(a.reference.value);
      (parts.Some? <==> s != "" && AsciiLower(s) != "nan" && AsciiLower(s) != "none" && |Split(s, ';')| >= 15)
      && (parts.Some? ==> parts.value == Split(s, ';'))
  {
    if !a.isNew then None
    else
      match a.reference
      case None => None
      case Some(ref) =>
        var s := Strip(ref);
        var low := AsciiLower(s);
        if s == "" || low == "nan" || low == "none" then None
        else
          var parts := Split(s, ';');
          JoinSplit(s, ';');
          if |parts| < 15 then None else Some(parts)
  }

  /** A new line's fields: rank, theoretical and counted quantity, count
      indicator 2 and lot "LOTECART" written over the reference fields. */
  function Stamp(parts: seq<string>, rank: string, quantity: string): (r: seq<string>)
    requires |parts| >= 15
    ensures |r| == |parts|
  {
    parts[3 := rank][5 := quantity][6 := quantity][7 := "2"][14 := "LOTECART"]
  }

  /** The loop of `generate_lotecart_lines` over the usable adjustments:
      each reference takes the next rank, 1000 above the previous one, and
      keeps its quantity. */
  function Numbered(us: seq<(seq<string>, int)>, current: int): (ns: seq<(seq<string>, int, int)>)
    ensures |ns| == |us|
  {
    if |us| == 0 then []
    else [(us[0].0, current + 1000, us[0].1)] + Numbered(us[1..], current + 1000)
  }

  /** The fields of the new lines, one per usable adjustment: its reference
      stamped with its rank and its quantity. */
  function NewLineParts(adjs: seq<Adjustment>, current: int): (ls: seq<seq<string>>)
    ensures |ls| == |Usable(adjs)|
  {
    var us := Usable(adjs);
    var ns := Numbered(us, current);
    seq(|ns|, k requires 0 <= k < |ns| =>
      NumberedAt(us, current, k);
      Stamp(ns[k].0, IntToString(ns[k].1), FormatNumber(Number(ns[k].2))))
  }

  function JoinFields(parts: seq<string>): string {
    Join(parts, ';')
  }

  /** `generate_lotecart_lines`: one printed line per usable adjustment,
      which splits back into that adjustment's stamped fields. */
  function GenerateLotecartLines(adjs: seq<Adjustment>, maxRank: int): (lines: seq<string>)
    ensures |lines| == |Usable(adjs)|
    ensures forall k :: 0 <= k < |lines| ==> Split(lines[k], ';') == NewLineParts(adjs, maxRank)[k]
  {
    NewLinesSplit(adjs, maxRank);
    Map(NewLineParts(adjs, maxRank), JoinFields)
  }

  /** The usable adjustments with their reference fields, in order: the
      reference for the numbering below. */
  function Usable(adjs: seq<Adjustment>): (us: seq<(seq<string>, int)>)
    ensures forall k :: 0 <= k < |us| ==> |us[k].0| >= 15
  {
    if |adjs| == 0 then []
    else
      match ReferenceParts(adjs[0])
      case None => Usable(adjs[1..])
      case Some(parts) => [(parts, adjs[0].corrected)] + Usable(adjs[1..])
  }

  /** The k-th numbered reference is the k-th usable one with rank
      `current + 1000 * (k + 1)`. */
  lemma {:induction false} NumberedAt(us: seq<(seq<string>, int)>, current: int, k: nat)
    requires k < |us|
    ensures Numbered(us, current)[k] == (us[k].0, current + 1000 * (k + 1), us[k].1)
  {
    if k > 0 {
      var rest := us[1..];
      assert (current + 1000) + 1000 * ((k - 1) + 1) == current + 1000 * (k + 1);
      NumberedAt(rest, current + 1000, k - 1);
      assert rest[k - 1] == us[k];
      assert Numbered(us, current)[k] == Numbered(rest, current + 1000)[k - 1];
    }
  }

  /** The k-th new line is the k-th usable reference stamped with its rank
      and quantity. */
  lemma {:induction false} NewLineAt(adjs: seq<Adjustment>, current: int, k: nat)
    requires k < |Usable(adjs)|
    ensures var u := Usable(adjs)[k];
      NewLineParts(adjs, current)[k] == Stamp(u.0, IntToString(current + 1000 * (k + 1)), FormatMicro(u.1))
  {
    NumberedAt(Usable(adjs), current, k);
  }

  /** What a new line holds: the reference fields except the rank, both
      quantities (the corrected one, printed as a number), indicator 2 and lot
      "LOTECART"; its rank is above `current` and above every earlier new
      line's. */
  lemma {:induction false} NewLineFields(adjs: seq<Adjustment>, current: int, k: nat)
    requires k < |Usable(adjs)|
    ensures |NewLineParts(adjs, current)| == |Usable(adjs)|
    ensures var l := NewLineParts(adjs, current)[k];
      var u := Usable(adjs)[k];
      && |l| == |u.0|
      && l[3] == IntToString(current + 1000 * (k + 1))
      && l[5] == l[6] == FormatMicro(u.1)
      && l[7] == "2" && l[14] == "LOTECART"
      && (forall j :: 0 <= j < |l| && j != 3 && j != 5 && j != 6 && j != 7 && j != 14 ==> l[j] == u.0[j])
      && ParseInt(l[3]) == Some(current + 1000 * (k + 1))
      && current + 1000 * (k + 1) > current
  {
    var u := Usable(adjs)[k];
    var rank := current + 1000 * (k + 1);
    NewLineAt(adjs, current, k);
    StampFields(u.0, IntToString(rank), FormatMicro(u.1));
    ParseIntToString(rank);
  }

  lemma {:induction false} StampFields(parts: seq<string>, rank: string, quantity: string)
    requires |parts| >= 15
    ensures var l := Stamp(parts, rank, quantity);
      && l[3] == rank
      && l[5] == l[6] == quantity
      && l[7] == "2" && l[14] == "LOTECART"
      && (forall j :: 0 <= j < |l| && j != 3 && j != 5 && j != 6 && j != 7 && j != 14 ==> l[j] == parts[j])
  {
  }

  /** Every new line's fields split back out of their joined text. */
  lemma {:induction false} NewLinesSplit(adjs: seq<Adjustment>, current: int)
    ensures forall k :: 0 <= k < |NewLineParts(adjs, current)| ==>
      Split(Join(NewLineParts(adjs, current)[k], ';'), ';') == NewLineParts(adjs, current)[k]
  {
    forall k | 0 <= k < |NewLineParts(adjs, current)|
      ensures Split(Join(NewLineParts(adjs, current)[k], ';'), ';') == NewLineParts(adjs, current)[k]
    {
      NewLineSplit(adjs, current, k);
    }
  }

  lemma {:induction false} NewLineSplit(adjs: seq<Adjustment>, current: int, k: nat)
    requires k < |Usable(adjs)|
    ensures Split(Join(NewLineParts(adjs, current)[k], ';'), ';') == NewLineParts(adjs, current)[k]
  {
    var u := Usable(adjs)[k];
    var rank := current + 1000 * (k + 1);
    var l := NewLineParts(adjs, current)[k];
    NewLineAt(adjs, current, k);
    UsableParts(adjs, k);
    NumberCharsExclude(FormatMicro(u.1), ';');
    IntToStringChars(rank, ';');
    StampNoSeparator(u.0, IntToString(rank), FormatMicro(u.1));
    SplitJoin(l, ';');
  }

  /** Stamping separator-free texts keeps the fields free of the separator. */
  lemma {:induction false} StampNoSeparator(parts: seq<string>, rank: string, quantity: string)
    requires |parts| >= 15 && NoSeparator(parts, ';')
    requires ';' !in rank && ';' !in quantity
    ensures NoSeparator(Stamp(parts, rank, quantity), ';')
  {
    var l := Stamp(parts, rank, quantity);
    StampFields(parts, rank, quantity);
    forall j | 0 <= j < |l| ensures ';' !in l[j] {
      if j != 3 && j != 5 && j != 6 && j != 7 && j != 14 {
        assert l[j] == parts[j];
      }
    }
  }

  /** The fields of a usable adjustment come from splitting its reference. */
  lemma {:induction false} UsableParts(adjs: seq<Adjustment>, k: nat)
    requires k < |Usable(adjs)|
    ensures NoSeparator(Usable(adjs)[k].0, ';')
  {
    match ReferenceParts(adjs[0])
    case None =>
      UsableParts(adjs[1..], k);
    case Some(parts) =>
      if k > 0 {
        UsableParts(adjs[1..], k - 1);
      }
  }

  // ---------------------------------------------------------------------
  // Order: each pass works row by row, so it distributes over concatenation.

  /** Detection keeps template order: the candidates of two stretches of
      rows are those of the first followed by those of the second, and one
      row yields itself as a candidate exactly when it is one. */
  lemma {:induction false} DetectAppend(a: seq<TemplateRow>, b: seq<TemplateRow>)
    ensures DetectCandidates(a + b) == DetectCandidates(a) + DetectCandidates(b)
    ensures forall row :: DetectCandidates([row]) == if IsCandidate(row) then [CandidateOf(row)] else []
    decreases |a|
  {
    forall row ensures DetectCandidates([row]) == if IsCandidate(row) then [CandidateOf(row)] else [] {
      assert [row][1..] == [];
    }
    if |a| > 0 {
      assert (a + b)[1..] == a[1..] + b;
      DetectAppend(a[1..], b);
    } else {
      assert a + b == b;
    }
  }

  /** Adjustments keep candidate order: those of two stretches of candidates
      are those of the first followed by those of the second, and one
      candidate yields its own adjustment, if any. */
  lemma {:induction false} CreateAppend(a: seq<Candidate>, b: seq<Candidate>, records: seq<StockRecord>)
    ensures CreateAdjustments(a + b, records) == CreateAdjustments(a, records) + CreateAdjustments(b, records)
    ensures forall c ::
              CreateAdjustments([c], records) == (match AdjustmentFor(c, records) case Some(x) => [x] case None => [])
    decreases |a|
  {
    forall c ensures CreateAdjustments([c], records) ==
      (match AdjustmentFor(c, records) case Some(x) => [x] case None => [])
    {
      assert [c][1..] == [];
    }
    if |a| > 0 {
      assert (a + b)[1..] == a[1..] + b;
      CreateAppend(a[1..], b, records);
    } else {
      assert a + b == b;
    }
  }

  /** The usable references keep adjustment order: those of two stretches of
      adjustments are those of the first followed by those of the second,
      and one adjustment contributes its fields and corrected quantity
      exactly when its reference is usable. */
  lemma {:induction false} UsableAppend(a: seq<Adjustment>, b: seq<Adjustment>)
    ensures Usable(a + b) == Usable(a) + Usable(b)
    ensures forall x ::
              Usable([x]) == (match ReferenceParts(x) case Some(parts) => [(parts, x.corrected)] case None => [])
    decreases |a|
  {
    forall x ensures Usable([x]) ==
      (match ReferenceParts(x) case Some(parts) => [(parts, x.corrected)] case None => [])
    {
      assert [x][1..] == [];
    }
    if |a| > 0 {
      assert (a + b)[1..] == a[1..] + b;
      UsableAppend(a[1..], b);
    } else {
      assert a + b == b;
    }
  }
}
