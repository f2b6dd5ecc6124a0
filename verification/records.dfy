/** The record parser (backend/services/file_processor.py): the lines of an
    ERP extract, read from a CSV file or a spreadsheet, are classified into
    header lines (`E`, `L`), stock lines (`S`) and everything else; stock
    lines become stock records with a coerced quantity and a classified lot.

    The column map, the allowed site codes and the session year are
    parameters; reading files is left to the caller, which passes the lines
    (CSV, without line terminators) or the cells (spreadsheet, None for an
    empty cell). */
module Records {
  import opened Common
  import opened Text
  import opened Decimal
  import opened Dates
  import opened Lots

  /** The column map: how many columns a stock line has and where the named
      columns sit. */
  datatype Schema = Schema(
    width: nat,
    lineType: nat,
    site: nat,
    session: nat,
    inventory: nat,
    article: nat,
    status: nat,
    quantity: nat,
    unit: nat,
    zone: nat,
    location: nat,
    lot: nat)

  predicate ValidSchema(s: Schema) {
    && s.lineType < s.width && s.site < s.width && s.session < s.width
    && s.inventory < s.width && s.article < s.width && s.status < s.width
    && s.quantity < s.width && s.unit < s.width && s.zone < s.width
    && s.location < s.width && s.lot < s.width
  }

  /** One stock line as a row of the extract: its fields, the named columns,
      the coerced quantity, what the lot classifier found, and the raw text
      the line is regenerated from. */
  datatype StockRecord = StockRecord(
    fields: seq<string>,
    site: string,
    session: string,
    inventory: string,
    article: string,
    status: string,
    unit: string,
    zone: string,
    location: string,
    lot: string,
    quantity: int,
    lotDate: Option<Date>,
    lotType: LotType,
    raw: string)

  /** How a line is classified. */
  datatype LineKind = Header(text: string) | Stock(parts: seq<string>) | Ignored

  /** A stock line with its 1-based position in the input. */
  datatype DataLine = DataLine(number: nat, parts: seq<string>)

  datatype ParseError =
    | ShortDataLine(lineNumber: nat, found: nat)
    | NoDataLines

  /** The parsed extract: header lines in order, one record per stock line,
      how many quantities were replaced by 0, and the inventory date. */
  datatype Extract = Extract(
    headers: seq<string>,
    records: seq<StockRecord>,
    invalidQuantities: nat,
    inventoryDate: Option<Date>)

  // ---------------------------------------------------------------------
  // Quantity coercion.

  /** The quantity a record keeps: the normalised text read as a number, 0
      when it does not read as one (`treat_invalid_quantity_as_zero`, on by
      default). */
  function CoercedQuantity(text: string): int {
    ParseQuantity(text).GetOr(0)
  }

  /** How many of the texts `parse` does not read. */
  function CountFailing(parse: string -> Option<int>, texts: seq<string>): (n: nat)
    ensures n <= |texts|
  {
    if |texts| == 0 then 0
    else CountFailing(parse, texts[..|texts| - 1]) + (if parse(texts[|texts| - 1]).None? then 1 else 0)
  }

  /** How many of the texts do not read as a quantity. */
  function CountInvalid(texts: seq<string>): nat {
    CountFailing(ParseQuantity, texts)
  }

  lemma {:induction false} CountFailingStep(parse: string -> Option<int>, texts: seq<string>, i: nat)
    requires i < |texts|
    ensures CountFailing(parse, texts[..i + 1]) == CountFailing(parse, texts[..i]) + (if parse(texts[i]).None? then 1 else 0)
  {
    assert texts[..i + 1][..i] == texts[..i];
  }

  /** One text after coercion with the reading `parse`: the value read, else
      0 when invalid quantities count as zero, else missing (NaN). */
  function CoerceWith(parse: string -> Option<int>, text: string, asZero: bool): Option<int> {
    match parse(text)
    case Some(v) => Some(v)
    case None => if asZero then Some(0) else None
  }

  /** One quantity after coercion. */
  function Coerce(text: string, asZero: bool): Option<int> {
    CoerceWith(ParseQuantity, text, asZero)
  }

  /** The coercion loop over a column, for any reading of its texts: the
      coerced values and how many texts did not read. */
  method CoerceColumn(texts: seq<string>, asZero: bool, parse: string -> Option<int>)
    returns (values: seq<Option<int>>, invalid: nat)
    ensures |values| == |texts|
    ensures forall i :: 0 <= i < |texts| ==> values[i] == CoerceWith(parse, texts[i], asZero)
    ensures invalid == CountFailing(parse, texts)
  {
    values := [];
    invalid := 0;
    for i := 0 to |texts|
      invariant |values| == i
      invariant forall k :: 0 <= k < i ==> values[k] == CoerceWith(parse, texts[k], asZero)
      invariant invalid == CountFailing(parse, texts[..i])
    {
      CountFailingStep(parse, texts, i);
      var c := CoerceWith(parse, texts[i], asZero);
      if parse(texts[i]).None? {
        invalid := invalid + 1;
      }
      values := values + [c];
    }
    assert texts[..|texts|] == texts;
  }

  /** The invalid-quantity count the processor reports after an upload, as
      the processor keeps it: the attribute is set only when the flag is on and
      some quantity is invalid, and otherwise keeps what an earlier upload
      left in it. */
  function ReportedInvalid(invalid: nat, asZero: bool, previous: nat): nat {
    if asZero && invalid > 0 then invalid else previous
  }

  /** The count the upload report evidently means: the quantities of this
      upload replaced by 0. */
  function ReplacedInvalid(invalid: nat, asZero: bool): nat {
    if asZero then invalid else 0
  }

  /** `_process_dataframe`'s quantity column as written: every text
      normalised and read; with `asZero` the unreadable ones become 0, without
      it they stay missing (NaN).  The reported count is the number of
      unreadable texts only when the flag is on and there is one; otherwise it
      is the count an earlier upload left on the shared processor. */
  method CoerceQuantities(texts: seq<string>, asZero: bool, previous: nat) returns (values: seq<Option<int>>, reported: nat)
    ensures |values| == |texts|
    ensures forall i :: 0 <= i < |texts| ==> values[i] == Coerce(texts[i], asZero)
    ensures asZero ==> forall i :: 0 <= i < |texts| ==> values[i] == Some(CoercedQuantity(texts[i]))
    ensures asZero && CountInvalid(texts) > 0 ==> reported == CountInvalid(texts)
    ensures !asZero || CountInvalid(texts) == 0 ==> reported == previous
    ensures reported == ReportedInvalid(CountInvalid(texts), asZero, previous)
  {
    var invalid;
    values, invalid := CoerceColumn(texts, asZero, ParseQuantity);
    reported := ReportedInvalid(invalid, asZero, previous);
  }

  /** The same column with the count reset for every upload: the number of
      texts replaced by 0, which is every unreadable one when the flag is on
      and none when it is off. */
  method CoerceQuantitiesFresh(texts: seq<string>, asZero: bool) returns (values: seq<Option<int>>, replaced: nat)
    ensures |values| == |texts|
    ensures forall i :: 0 <= i < |texts| ==> values[i] == Coerce(texts[i], asZero)
    ensures asZero ==> forall i :: 0 <= i < |texts| && ParseQuantity(texts[i]).None? ==> values[i] == Some(0)
    ensures asZero ==> replaced == CountInvalid(texts)
    ensures !asZero ==> replaced == 0
    ensures replaced == ReplacedInvalid(CountInvalid(texts), asZero)
  {
    var invalid;
    values, invalid := CoerceColumn(texts, asZero, ParseQuantity);
    replaced := ReplacedInvalid(invalid, asZero);
  }

  /** `abc` does not read as a quantity. */
  lemma {:induction false} LettersUnreadable()
    ensures ParseQuantity("abc") == None
  {
    assert ' ' !in "abc" && '\U{A0}' !in "abc" && ',' !in "abc" && Trimmed("abc");
    assert IndexOf("abc", '.') == 3;
    assert !IsDigit("abc"[0]);
  }

  /** A first upload with an unreadable quantity followed by a clean one: the
      shared processor still reports the first upload's count, where the
      second upload replaced nothing. */
  lemma {:induction false} StaleInvalidCount(first: seq<string>, second: seq<string>)
    ensures CountInvalid(first) > 0 && CountInvalid(second) == 0 ==>
      var afterFirst := ReportedInvalid(CountInvalid(first), true, 0);
      && ReportedInvalid(CountInvalid(second), true, afterFirst) == CountInvalid(first) > 0
      && ReplacedInvalid(CountInvalid(second), true) == 0
  {
  }

  /** An upload whose only quantity is `abc`, then one whose only quantity
      is `5`: the second upload reports 1 replaced quantity and replaced
      none. */
  lemma {:induction false} StaleInvalidExample()
    ensures ReportedInvalid(CountInvalid(["5"]), true, ReportedInvalid(CountInvalid(["abc"]), true, 0)) == 1
    ensures ReplacedInvalid(CountInvalid(["5"]), true) == 0
  {
    LettersUnreadable();
    DigitReads();
    CountSingle("abc");
    CountSingle("5");
  }

  /** A one-text column counts 1 exactly when its text does not read. */
  lemma {:induction false} CountSingle(t: string)
    ensures CountInvalid([t]) == if ParseQuantity(t).None? then 1 else 0
  {
    assert [t][..0] == [];
  }

  // ---------------------------------------------------------------------
  // Line classification.

  /** A CSV line: stripped; `E;` and `L;` lines are headers (kept as
      stripped), `S;` lines are split on `;`, anything else (blank lines
      included) is ignored. */
  function CsvKind(line: string): (k: LineKind)
    ensures k.Header? ==> k.text == Strip(line)
    ensures k.Stock? ==> Join(k.parts, ';') == Strip(line) && NoSeparator(k.parts, ';')
  {
    var s := Strip(line);
    if StartsWith(s, "E;") || StartsWith(s, "L;") then Header(s)
    else if StartsWith(s, "S;") then
      JoinSplit(s, ';');
      Stock(Split(s, ';'))
    else Ignored
  }

  /** A spreadsheet cell as text: stripped, empty when the cell is empty. */
  function CellText(c: Option<string>): string {
    match c
    case Some(v) => Strip(v)
    case None => ""
  }

  /** A spreadsheet row: its first `width` cells as text; the line type is
      the cell in the line-type column (empty when the row is shorter); `E`
      and `L` rows are headers, joined with `;`; `S` rows are stock lines. */
  function SheetKind(row: seq<Option<string>>, schema: Schema): (k: LineKind)
    ensures k.Stock? ==> |k.parts| <= schema.width && |k.parts| <= |row|
    ensures k.Stock? ==> |k.parts| == schema.width || |k.parts| == |row|
    ensures k.Stock? ==> forall i :: 0 <= i < |k.parts| ==> k.parts[i] == CellText(row[i])
  {
    var n := if |row| < schema.width then |row| else schema.width;
    var parts := seq(n, i requires 0 <= i < n => CellText(row[i]));
    if |parts| == 0 then Ignored
    else
      var lineType := if |parts| > schema.lineType then parts[schema.lineType] else "";
      if lineType == "E" || lineType == "L" then Header(Join(parts, ';'))
      else if lineType == "S" then Stock(parts)
      else Ignored
  }

  /** A spreadsheet row is a header exactly when its line-type cell reads
      `E` or `L`, and a stock line exactly when it reads `S`. */
  lemma {:induction false} SheetKinds(row: seq<Option<string>>, schema: Schema)
    requires ValidSchema(schema)
    ensures SheetKind(row, schema).Header? <==>
      schema.lineType < |row| && (CellText(row[schema.lineType]) == "E" || CellText(row[schema.lineType]) == "L")
    ensures SheetKind(row, schema).Stock? <==>
      schema.lineType < |row| && CellText(row[schema.lineType]) == "S"
  {
    var n := if |row| < schema.width then |row| else schema.width;
    if schema.lineType < |row| {
      assert schema.lineType < n;
    }
  }

  /** The number of header lines among the first `i` lines. */
  function HeaderCount(kinds: seq<LineKind>, i: nat): nat
    requires i <= |kinds|
  {
    if i == 0 then 0 else HeaderCount(kinds, i - 1) + (if kinds[i - 1].Header? then 1 else 0)
  }

  lemma {:induction false} HeaderCountPrefix(kinds: seq<LineKind>, m: nat)
    requires m <= |kinds|
    ensures forall i :: 0 <= i <= m ==> HeaderCount(kinds[..m], i) == HeaderCount(kinds, i)
  {
    forall i | 0 <= i <= m
      ensures HeaderCount(kinds[..m], i) == HeaderCount(kinds, i)
    {
      HeaderCountAt(kinds, m, i);
    }
  }

  lemma {:induction false} HeaderCountAt(kinds: seq<LineKind>, m: nat, i: nat)
    requires i <= m <= |kinds|
    ensures HeaderCount(kinds[..m], i) == HeaderCount(kinds, i)
  {
    if i > 0 {
      HeaderCountAt(kinds, m, i - 1);
    }
  }

  /** The header texts, in input order: one per header line, the header of
      line `i` standing after those of the lines before it. */
  function Headers(kinds: seq<LineKind>): (hs: seq<string>)
    ensures |hs| == HeaderCount(kinds, |kinds|) <= |kinds|
    ensures forall i :: 0 <= i < |kinds| && kinds[i].Header? ==>
      HeaderCount(kinds, i) < |hs| && hs[HeaderCount(kinds, i)] == kinds[i].text
  {
    if |kinds| == 0 then []
    else
      var init := kinds[..|kinds| - 1];
      HeaderCountPrefix(kinds, |init|);
      Headers(init) + (if kinds[|init|].Header? then [kinds[|init|].text] else [])
  }

  /** Stock line `d` is line `d.number` (1-based) of the input. */
  predicate Numbered(kinds: seq<LineKind>, d: DataLine) {
    1 <= d.number <= |kinds| && kinds[d.number - 1] == Stock(d.parts)
  }

  /** The stock lines with their line numbers, in input order. */
  function StockLines(kinds: seq<LineKind>): (ds: seq<DataLine>)
    ensures |ds| <= |kinds|
    ensures forall i :: 0 <= i < |ds| ==> Numbered(kinds, ds[i])
  {
    if |kinds| == 0 then []
    else
      var n := |kinds|;
      var prev := StockLines(kinds[..n - 1]);
      assert forall i :: 0 <= i < |prev| ==> Numbered(kinds, prev[i]) by {
        forall i | 0 <= i < |prev| ensures Numbered(kinds, prev[i]) {
          assert Numbered(kinds[..n - 1], prev[i]);
          assert kinds[..n - 1][prev[i].number - 1] == kinds[prev[i].number - 1];
        }
      }
      if kinds[n - 1].Stock? then prev + [DataLine(n, kinds[n - 1].parts)] else prev
  }

  /** The stock lines keep the input order. */
  lemma {:induction false} StockLinesOrdered(kinds: seq<LineKind>, i: nat, j: nat)
    requires i < j < |StockLines(kinds)|
    ensures StockLines(kinds)[i].number < StockLines(kinds)[j].number
  {
    var n := |kinds|;
    var prev := StockLines(kinds[..n - 1]);
    var ds := StockLines(kinds);
    assert ds[i] == prev[i];
    if j < |prev| {
      StockLinesOrdered(kinds[..n - 1], i, j);
      assert ds[j] == prev[j];
    } else {
      assert Numbered(kinds[..n - 1], prev[i]);
    }
  }

  /** Every stock line of the input is listed. */
  lemma {:induction false} StockLinesComplete(kinds: seq<LineKind>, p: nat)
    requires p < |kinds| && kinds[p].Stock?
    ensures exists i :: 0 <= i < |StockLines(kinds)| && StockLines(kinds)[i].number == p + 1
  {
    var n := |kinds|;
    var prev := StockLines(kinds[..n - 1]);
    var ds := StockLines(kinds);
    if p == n - 1 {
      assert ds[|prev|].number == p + 1;
    } else {
      assert kinds[..n - 1][p] == kinds[p];
      StockLinesComplete(kinds[..n - 1], p);
      var i :| 0 <= i < |prev| && prev[i].number == p + 1;
      assert ds[i] == prev[i];
    }
  }

  /** The position of the first stock line with fewer than `width` fields;
      `|ds|` when there is none. */
  function FirstShort(ds: seq<DataLine>, width: nat): (k: nat)
    ensures k <= |ds|
    ensures forall j :: 0 <= j < k ==> |ds[j].parts| >= width
    ensures k < |ds| ==> |ds[k].parts| < width
  {
    if |ds| == 0 then 0
    else if |ds[0].parts| < width then 0
    else
      assert forall j :: 1 <= j < |ds| ==> ds[j] == ds[1..][j - 1];
      1 + FirstShort(ds[1..], width)
  }

  /** Appending a line to lines that are all long enough. */
  lemma {:induction false} FirstShortAppend(a: seq<DataLine>, d: DataLine, width: nat)
    requires FirstShort(a, width) == |a|
    ensures FirstShort(a + [d], width) == if |d.parts| < width then |a| else |a| + 1
  {
    assert (a + [d])[|a|] == d;
  }

  /** A short line found in a prefix is the first short line of the whole. */
  lemma {:induction false} FirstShortPrefix(a: seq<DataLine>, b: seq<DataLine>, width: nat)
    requires a <= b && FirstShort(a, width) < |a|
    ensures FirstShort(b, width) == FirstShort(a, width)
  {
    var k := FirstShort(a, width);
    var m := FirstShort(b, width);
    assert b[k] == a[k];
  }

  // ---------------------------------------------------------------------
  // Records.

  /** A stock record from the first `width` fields of a stock line. */
  function MakeRecord(parts: seq<string>, schema: Schema, sites: set<string>): (r: StockRecord)
    requires ValidSchema(schema) && |parts| == schema.width
    ensures r.fields == parts && r.raw == Join(parts, ';')
    ensures r.article == parts[schema.article] && r.inventory == parts[schema.inventory]
    ensures r.lot == parts[schema.lot] && r.location == parts[schema.location]
    ensures r.site == parts[schema.site] && r.session == parts[schema.session]
    ensures r.status == parts[schema.status] && r.unit == parts[schema.unit] && r.zone == parts[schema.zone]
    ensures r.quantity == CoercedQuantity(parts[schema.quantity])
    ensures LotInfo(r.lotDate, r.lotType) == ClassifyLot(parts[schema.lot], sites)
  {
    var info := ClassifyLot(parts[schema.lot], sites);
    StockRecord(
      parts,
      parts[schema.site], parts[schema.session], parts[schema.inventory],
      parts[schema.article], parts[schema.status], parts[schema.unit],
      parts[schema.zone], parts[schema.location], parts[schema.lot],
      CoercedQuantity(parts[schema.quantity]),
      info.date, info.lotType,
      Join(parts, ';'))
  }

  /** Stock lines in, records out, one for one and in order; the caller has
      checked every line is long enough.  Each record holds the first `width`
      fields of its line, joined back into its raw text, with the named
      columns read from their positions in the line. */
  function MakeRecords(ds: seq<DataLine>, schema: Schema, sites: set<string>): (rs: seq<StockRecord>)
    requires ValidSchema(schema)
    requires forall i :: 0 <= i < |ds| ==> |ds[i].parts| >= schema.width
    ensures |rs| == |ds|
    ensures forall i :: 0 <= i < |ds| ==>
      && rs[i].fields == ds[i].parts[..schema.width] && rs[i].raw == Join(rs[i].fields, ';')
      && rs[i].article == ds[i].parts[schema.article] && rs[i].inventory == ds[i].parts[schema.inventory]
      && rs[i].lot == ds[i].parts[schema.lot]
      && rs[i].quantity == CoercedQuantity(ds[i].parts[schema.quantity])
    ensures forall i :: 0 <= i < |ds| ==> rs[i] == MakeRecord(ds[i].parts[..schema.width], schema, sites)
  {
    seq(|ds|, i requires 0 <= i < |ds| => MakeRecord(ds[i].parts[..schema.width], schema, sites))
  }

  /** The end of `_process_csv_file` / `_process_xlsx_file`: fail on the
      first short stock line, fail when there is no stock line, otherwise
      build the records, count the replaced quantities and read the inventory
      date from the first stock line. */
  function Assemble(kinds: seq<LineKind>, schema: Schema, sites: set<string>, sessionYear: int): (r: Result<Extract, ParseError>)
    requires ValidSchema(schema)
    ensures r.Ok? ==> r.value.headers == Headers(kinds) && |r.value.records| == |StockLines(kinds)| > 0
  {
    var ds := StockLines(kinds);
    var k := FirstShort(ds, schema.width);
    if k < |ds| then Err(ShortDataLine(ds[k].number, |ds[k].parts|))
    else if |ds| == 0 then Err(NoDataLines)
    else Ok(Build(Headers(kinds), ds, schema, sites, sessionYear))
  }

  /** The extract from the headers and the (long enough) stock lines. */
  function Build(headers: seq<string>, ds: seq<DataLine>, schema: Schema, sites: set<string>, sessionYear: int): (e: Extract)
    requires ValidSchema(schema) && |ds| > 0
    requires forall i :: 0 <= i < |ds| ==> |ds[i].parts| >= schema.width
    ensures e.headers == headers && |e.records| == |ds|
  {
    var records := MakeRecords(ds, schema, sites);
    var texts := seq(|ds|, i requires 0 <= i < |ds| => ds[i].parts[schema.quantity]);
    Extract(headers, records, CountInvalid(texts), InventoryDate(ds[0].parts[schema.inventory], sessionYear))
  }

  /** `_process_csv_file` on the lines of the file: it fails for want of
      data exactly when no stripped line starts `S;`, and on a short line
      exactly when some `S;` line has fewer fields than the schema. */
  function ParseCsv(lines: seq<string>, schema: Schema, sites: set<string>, sessionYear: int): (r: Result<Extract, ParseError>)
    requires ValidSchema(schema)
    ensures (r.Err? && r.error == NoDataLines) <==> forall i :: 0 <= i < |lines| ==> !StartsWith(Strip(lines[i]), "S;")
    ensures (r.Err? && r.error.ShortDataLine?) <==>
      exists i :: 0 <= i < |lines| && StartsWith(Strip(lines[i]), "S;") && |Split(Strip(lines[i]), ';')| < schema.width
  {
    CsvErrors(lines, schema, sites, sessionYear);
    Assemble(CsvLineKinds(lines), schema, sites, sessionYear)
  }

  /** The kind of every line of a file. */
  function CsvLineKinds(lines: seq<string>): (kinds: seq<LineKind>)
    ensures |kinds| == |lines| && forall i :: 0 <= i < |lines| ==> kinds[i] == CsvKind(lines[i])
  {
    seq(|lines|, i requires 0 <= i < |lines| => CsvKind(lines[i]))
  }

  /** The two parse errors of a file, in terms of its lines. */
  lemma {:induction false} CsvErrors(lines: seq<string>, schema: Schema, sites: set<string>, sessionYear: int)
    requires ValidSchema(schema)
    ensures var r := Assemble(CsvLineKinds(lines), schema, sites, sessionYear);
      && ((r.Err? && r.error == NoDataLines) <==> forall i :: 0 <= i < |lines| ==> !StartsWith(Strip(lines[i]), "S;"))
      && ((r.Err? && r.error.ShortDataLine?) <==>
        exists i :: 0 <= i < |lines| && StartsWith(Strip(lines[i]), "S;") && |Split(Strip(lines[i]), ';')| < schema.width)
  {
    var kinds := CsvLineKinds(lines);
    CsvKindsAll(lines, kinds);
    NoDataFails(kinds, schema, sites, sessionYear);
    ShortLineFails(kinds, schema, sites, sessionYear);
  }

  /** `_process_xlsx_file` on the rows of the sheet: it fails for want of
      data exactly when no row's line-type cell reads `S`, and on a short
      line exactly when some such row has fewer cells than the schema. */
  function ParseSheet(rows: seq<seq<Option<string>>>, schema: Schema, sites: set<string>, sessionYear: int): (r: Result<Extract, ParseError>)
    requires ValidSchema(schema)
    ensures (r.Err? && r.error == NoDataLines) <==>
      forall i :: 0 <= i < |rows| ==> !(schema.lineType < |rows[i]| && CellText(rows[i][schema.lineType]) == "S")
    ensures (r.Err? && r.error.ShortDataLine?) <==>
      exists i :: 0 <= i < |rows| && schema.lineType < |rows[i]| && CellText(rows[i][schema.lineType]) == "S"
        && |rows[i]| < schema.width
  {
    SheetErrors(rows, schema, sites, sessionYear);
    Assemble(SheetRowKinds(rows, schema), schema, sites, sessionYear)
  }

  /** The kind of every row of a sheet. */
  function SheetRowKinds(rows: seq<seq<Option<string>>>, schema: Schema): (kinds: seq<LineKind>)
    requires ValidSchema(schema)
    ensures |kinds| == |rows| && forall i :: 0 <= i < |rows| ==> kinds[i] == SheetKind(rows[i], schema)
  {
    seq(|rows|, i requires 0 <= i < |rows| => SheetKind(rows[i], schema))
  }

  /** The two parse errors of a sheet, in terms of its rows. */
  lemma {:induction false} SheetErrors(rows: seq<seq<Option<string>>>, schema: Schema, sites: set<string>, sessionYear: int)
    requires ValidSchema(schema)
    ensures var r := Assemble(SheetRowKinds(rows, schema), schema, sites, sessionYear);
      && ((r.Err? && r.error == NoDataLines) <==>
        forall i :: 0 <= i < |rows| ==> !(schema.lineType < |rows[i]| && CellText(rows[i][schema.lineType]) == "S"))
      && ((r.Err? && r.error.ShortDataLine?) <==>
        exists i :: 0 <= i < |rows| && schema.lineType < |rows[i]| && CellText(rows[i][schema.lineType]) == "S"
          && |rows[i]| < schema.width)
  {
    var kinds := SheetRowKinds(rows, schema);
    SheetKindsAll(rows, schema, kinds);
    NoDataFails(kinds, schema, sites, sessionYear);
    ShortLineFails(kinds, schema, sites, sessionYear);
  }

  /** `CsvKinds` for every line of a file. */
  lemma {:induction false} CsvKindsAll(lines: seq<string>, kinds: seq<LineKind>)
    requires |kinds| == |lines| && forall i :: 0 <= i < |lines| ==> kinds[i] == CsvKind(lines[i])
    ensures forall i :: 0 <= i < |lines| ==> (kinds[i].Stock? <==> StartsWith(Strip(lines[i]), "S;"))
    ensures forall i :: 0 <= i < |lines| && kinds[i].Stock? ==> kinds[i].parts == Split(Strip(lines[i]), ';')
  {
    forall i | 0 <= i < |lines| ensures kinds[i].Stock? <==> StartsWith(Strip(lines[i]), "S;") {
      CsvKinds(lines[i]);
    }
  }

  /** `SheetKinds` for every row of a sheet. */
  lemma {:induction false} SheetKindsAll(rows: seq<seq<Option<string>>>, schema: Schema, kinds: seq<LineKind>)
    requires ValidSchema(schema)
    requires |kinds| == |rows| && forall i :: 0 <= i < |rows| ==> kinds[i] == SheetKind(rows[i], schema)
    ensures forall i :: 0 <= i < |rows| ==>
      (kinds[i].Stock? <==> schema.lineType < |rows[i]| && CellText(rows[i][schema.lineType]) == "S")
    ensures forall i :: 0 <= i < |rows| && kinds[i].Stock? ==> (|kinds[i].parts| < schema.width <==> |rows[i]| < schema.width)
  {
    forall i | 0 <= i < |rows| ensures kinds[i].Stock? <==> schema.lineType < |rows[i]| && CellText(rows[i][schema.lineType]) == "S" {
      SheetKinds(rows[i], schema);
    }
  }

  // ---------------------------------------------------------------------
  // Properties.

  /** A parse fails on a short line exactly when some stock line is short. */
  lemma {:induction false} ShortLineFails(kinds: seq<LineKind>, schema: Schema, sites: set<string>, sessionYear: int)
    requires ValidSchema(schema)
    ensures var r := Assemble(kinds, schema, sites, sessionYear);
      (r.Err? && r.error.ShortDataLine?) <==>
        exists p :: 0 <= p < |kinds| && kinds[p].Stock? && |kinds[p].parts| < schema.width
  {
    var ds := StockLines(kinds);
    var k := FirstShort(ds, schema.width);
    if exists p :: 0 <= p < |kinds| && kinds[p].Stock? && |kinds[p].parts| < schema.width {
      var p :| 0 <= p < |kinds| && kinds[p].Stock? && |kinds[p].parts| < schema.width;
      StockLinesComplete(kinds, p);
      var i :| 0 <= i < |ds| && ds[i].number == p + 1;
      assert Numbered(kinds, ds[i]);
      assert k <= i;
    }
    if k < |ds| {
      assert Numbered(kinds, ds[k]);
      assert kinds[ds[k].number - 1].Stock?;
    }
  }

  /** The line a short-line failure names is a short stock line, and every
      stock line before it is long enough. */
  lemma {:induction false} ShortLineIsFirst(kinds: seq<LineKind>, schema: Schema, sites: set<string>, sessionYear: int)
    requires ValidSchema(schema)
    ensures var r := Assemble(kinds, schema, sites, sessionYear);
      r.Err? && r.error.ShortDataLine? ==>
        var n := r.error.lineNumber;
        && 1 <= n <= |kinds|
        && kinds[n - 1].Stock? && |kinds[n - 1].parts| == r.error.found < schema.width
        && forall p :: 0 <= p < n - 1 && kinds[p].Stock? ==> |kinds[p].parts| >= schema.width
  {
    var ds := StockLines(kinds);
    var k := FirstShort(ds, schema.width);
    if k < |ds| {
      assert Numbered(kinds, ds[k]);
      forall p | 0 <= p < ds[k].number - 1 && kinds[p].Stock?
        ensures |kinds[p].parts| >= schema.width
      {
        StockLinesComplete(kinds, p);
        var j :| 0 <= j < |ds| && ds[j].number == p + 1;
        assert Numbered(kinds, ds[j]);
        if k < j {
          StockLinesOrdered(kinds, k, j);
        }
      }
    }
  }

  /** A parse fails for want of data exactly when there is no stock line. */
  lemma {:induction false} NoDataFails(kinds: seq<LineKind>, schema: Schema, sites: set<string>, sessionYear: int)
    requires ValidSchema(schema)
    ensures var r := Assemble(kinds, schema, sites, sessionYear);
      (r.Err? && r.error == NoDataLines) <==> forall p :: 0 <= p < |kinds| ==> !kinds[p].Stock?
  {
    var ds := StockLines(kinds);
    if exists p :: 0 <= p < |kinds| && kinds[p].Stock? {
      var p :| 0 <= p < |kinds| && kinds[p].Stock?;
      StockLinesComplete(kinds, p);
    }
  }

  /** Record `i` of a successful parse holds exactly the first `width` fields
      of stock line `i`, and splitting its raw text gives those fields back. */
  lemma {:induction false} AssembledRecordAt(kinds: seq<LineKind>, schema: Schema, sites: set<string>, sessionYear: int, i: nat)
    requires ValidSchema(schema)
    requires forall p :: 0 <= p < |kinds| && kinds[p].Stock? ==> NoSeparator(kinds[p].parts, ';')
    ensures var r := Assemble(kinds, schema, sites, sessionYear);
      r.Ok? && i < |r.value.records| ==>
        && i < |StockLines(kinds)| && |StockLines(kinds)[i].parts| >= schema.width
        && r.value.records[i].fields == StockLines(kinds)[i].parts[..schema.width]
        && Split(r.value.records[i].raw, ';') == r.value.records[i].fields
  {
    var r := Assemble(kinds, schema, sites, sessionYear);
    if r.Ok? && i < |r.value.records| {
      var ds := StockLines(kinds);
      AssembledRecords(kinds, schema, sites, sessionYear);
      assert Numbered(kinds, ds[i]);
      RecordRaw(ds[i].parts, schema, sites);
    }
  }

  /** The records of a successful parse are those made from its stock lines. */
  lemma {:induction false} AssembledRecords(kinds: seq<LineKind>, schema: Schema, sites: set<string>, sessionYear: int)
    requires ValidSchema(schema)
    ensures var r := Assemble(kinds, schema, sites, sessionYear);
      r.Ok? ==>
        && FirstShort(StockLines(kinds), schema.width) == |StockLines(kinds)|
        && r.value.records == MakeRecords(StockLines(kinds), schema, sites)
  {
  }

  /** A record made from separator-free fields splits back into them. */
  lemma {:induction false} RecordRaw(parts: seq<string>, schema: Schema, sites: set<string>)
    requires ValidSchema(schema) && |parts| >= schema.width && NoSeparator(parts, ';')
    ensures var rec := MakeRecord(parts[..schema.width], schema, sites);
      Split(rec.raw, ';') == rec.fields
  {
    var f := parts[..schema.width];
    assert NoSeparator(f, ';') by {
      forall k | 0 <= k < |f| ensures ';' !in f[k] {
        assert f[k] == parts[k];
      }
    }
    SplitJoin(f, ';');
  }

  /** Every stock line the CSV classifier produces is free of separators, so
      the record properties hold for CSV input. */
  lemma {:induction false} CsvStockParts(lines: seq<string>)
    ensures var kinds := seq(|lines|, i requires 0 <= i < |lines| => CsvKind(lines[i]));
      forall p :: 0 <= p < |kinds| && kinds[p].Stock? ==> NoSeparator(kinds[p].parts, ';')
  {
  }

  /** CSV header lines are the stripped `E;` and `L;` lines, verbatim and in
      order; stock lines are the stripped `S;` lines; nothing else is kept. */
  lemma {:induction false} CsvKinds(line: string)
    ensures CsvKind(line).Header? <==> StartsWith(Strip(line), "E;") || StartsWith(Strip(line), "L;")
    ensures CsvKind(line).Stock? <==> StartsWith(Strip(line), "S;")
    ensures Strip(line) == "" ==> CsvKind(line) == Ignored
  {
  }

  // ---------------------------------------------------------------------
  // The scan as the reader performs it: one pass, returning at the first
  // short stock line.

  lemma {:induction false} StockLinesPrefix(kinds: seq<LineKind>, k: nat)
    requires k <= |kinds|
    ensures StockLines(kinds[..k]) <= StockLines(kinds)
    decreases |kinds|
  {
    if k < |kinds| {
      var n := |kinds|;
      assert kinds[..n - 1][..k] == kinds[..k];
      StockLinesPrefix(kinds[..n - 1], k);
    } else {
      assert kinds[..k] == kinds;
    }
  }

  /** The one-pass scan: collect headers and stock lines, stop at the first
      short stock line. */
  method Scan(kinds: seq<LineKind>, schema: Schema, sites: set<string>, sessionYear: int)
    returns (r: Result<Extract, ParseError>)
    requires ValidSchema(schema)
    ensures r == Assemble(kinds, schema, sites, sessionYear)
  {
    var headers, data, stop := ScanLines(kinds, schema.width);
    if stop.Some? {
      return Err(ShortDataLine(stop.value.number, |stop.value.parts|));
    }
    if |data| == 0 {
      return Err(NoDataLines);
    }
    r := Ok(Build(headers, data, schema, sites, sessionYear));
  }

  /** The pass over the lines: the header and stock lines in order, stopping
      at the first stock line shorter than `width`. */
  method ScanLines(kinds: seq<LineKind>, width: nat)
    returns (headers: seq<string>, data: seq<DataLine>, stop: Option<DataLine>)
    ensures var ds := StockLines(kinds); var k := FirstShort(ds, width);
      if k < |ds| then stop == Some(ds[k])
      else stop.None? && headers == Headers(kinds) && data == ds
  {
    headers := [];
    data := [];
    for i := 0 to |kinds|
      invariant headers == Headers(kinds[..i])
      invariant data == StockLines(kinds[..i])
      invariant FirstShort(data, width) == |data|
    {
      ScanStep(kinds, i);
      match kinds[i]
      case Header(t) =>
        headers := headers + [t];
      case Stock(parts) =>
        FirstShortAppend(data, DataLine(i + 1, parts), width);
        if |parts| < width {
          ScanStopsAt(kinds, i, width);
          return headers, data, Some(DataLine(i + 1, parts));
        }
        data := data + [DataLine(i + 1, parts)];
      case Ignored =>
    }
    assert kinds[..|kinds|] == kinds;
    stop := None;
  }

  /** One more line extends the headers or the stock lines by that line. */
  lemma {:induction false} ScanStep(kinds: seq<LineKind>, i: nat)
    requires i < |kinds|
    ensures Headers(kinds[..i + 1]) == Headers(kinds[..i]) + (if kinds[i].Header? then [kinds[i].text] else [])
    ensures StockLines(kinds[..i + 1]) == StockLines(kinds[..i]) + (if kinds[i].Stock? then [DataLine(i + 1, kinds[i].parts)] else [])
  {
    var next := kinds[..i + 1];
    assert next[..i] == kinds[..i] && next[i] == kinds[i];
  }

  /** The first short stock line of the file is the first short one met. */
  lemma {:induction false} ScanStopsAt(kinds: seq<LineKind>, i: nat, width: nat)
    requires i < |kinds|
    requires kinds[i].Stock? && |kinds[i].parts| < width
    requires FirstShort(StockLines(kinds[..i + 1]), width) == |StockLines(kinds[..i])|
    requires StockLines(kinds[..i + 1]) == StockLines(kinds[..i]) + [DataLine(i + 1, kinds[i].parts)]
    ensures var ds := StockLines(kinds); var k := FirstShort(ds, width);
      k < |ds| && ds[k] == DataLine(i + 1, kinds[i].parts)
  {
    var a := StockLines(kinds[..i + 1]);
    StockLinesPrefix(kinds, i + 1);
    FirstShortPrefix(a, StockLines(kinds), width);
    assert StockLines(kinds)[|a| - 1] == a[|a| - 1];
  }
}
