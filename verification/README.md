# Inventory reconciliation core, modelled in Dafny

The system reconciles a warehouse stock extract with the result of a physical
count. It has five parts:

- **Parser.** A semicolon-separated extract (CSV, or the same layout read from a
  spreadsheet) holds `E`/`L` header lines and `S` stock lines. The parser turns
  the stock lines into records.
- **Lot classification.** Each record's lot number is classified. A type-1 lot is
  a 5-character site code, a `DDMMYY` date and 4 characters. A type-2 lot is
  `LOT` followed by 6 digits. Anything else is unknown.
- **Aggregator.** The records are grouped into a count template.
- **Discrepancy and distribution.** The counted quantities of the completed
  template give one discrepancy per (article, inventory, status, unit, zone,
  location) group. That discrepancy is spread over the group's lots in FIFO,
  LIFO or listed order.
- **Found stock.** Template rows with theoretical quantity 0 and a positive
  count are found stock, written `LOTECART`. Each one updates an existing
  zero-quantity line or becomes a new line.
- **Regenerator.** The extract is written back with theoretical quantities in
  field 5, corrected quantities in field 6 and the count indicator in field 7.
  New found-stock lines follow, numbered above every existing rank.

Quantities are exact integers in micro-units (10^6 per unit). Python's text
operations (`strip`, `split`, `join`, `float`, `int`, `f"{x:.6f}"`) are written
out in `text.dfy` and `decimal.dfy`. Each module follows one part of the
program:

| file | models |
|---|---|
| `common.dfy`, `text.dfy`, `dates.dfy`, `sorting.dfy`, `groups.dfy` | sums, Python strings and integers, calendar dates, sorting, `groupby` |
| `decimal.dfy` | quantity parsing and `_format_number` / `_to_csv_number` |
| `lots.dfy` | `_extract_date_from_lot`, `_extract_inventory_date`, `_get_priority_lot_type` |
| `records.dfy` | `_process_csv_file`, `_process_xlsx_file`, `_process_dataframe` |
| `aggregation.dfy` | `aggregate_data` |
| `discrepancy.dfy` | `_calculate_discrepancies` |
| `distribution.dfy` | `distribute_discrepancies` |
| `lotecart.dfy` | `lotecart_processor.py` |
| `regenerate.dfy` | `generate_final_file` |

## Model

| member | source | states |
|---|---|---|
| Text.StripIdentity | backend/services/file_processor.py:263 | text with no surrounding whitespace is left unchanged by `strip` |
| Text.Split | backend/app.py:410 | `split(';')` yields at least one part and no part contains the separator |
| Text.JoinSplit | backend/app.py:469 | joining the parts of a split gives the original text back |
| Text.SplitJoin | backend/services/file_processor.py:292 | splitting a join of separator-free parts gives the same parts back |
| Text.ReplaceChar | backend/app.py:492 | `replace('.', ',')` keeps the length and changes exactly the occurrences of the replaced character |
| Text.ReplaceInverse | backend/app.py:99-106 | replacing `.` by `,` is undone by replacing `,` by `.` when the text had no `,` |
| Text.RStripChar | backend/app.py:94 | `rstrip(c)` leaves a prefix that does not end in `c` and removes only `c`s |
| Text.NatToString | backend/services/lotecart_processor.py:301 | the decimal text of a number has only digits, reads back as the number and has no leading zero |
| Text.ParseIntToString | backend/app.py:419-424 | `int(str(i)) == i` for every integer |
| Text.FixedDigits | backend/services/file_processor.py:524-532 | a zero-padded field of fixed width reads back as its number |
| Common.SumPermutation | backend/services/file_processor.py:588-608 | a sum does not depend on the order of its terms |
| Common.MapResult | backend/app.py:235-292 | a step applied to every item succeeds exactly when it succeeds on each item, and its error is one of the items' errors |
| Common.LastWhere | backend/app.py:177-183 | finds the last position satisfying the predicate; nothing after it satisfies it, and the result is empty only when nothing does |
| Dates.MakeDate | backend/services/file_processor.py:529-532 | `datetime(y, m, d)` succeeds exactly when the date is a calendar date, leap years included |
| Dates.DaysInMonth | backend/services/file_processor.py:529-532 | every month has between 28 and 31 days |
| Dates.BeforeStrictTotal | backend/app.py:244-249 | date order is irreflexive, transitive and total |
| Dates.MinDate | backend/services/file_processor.py:594-600 | the earliest of the present dates, none only when every date is missing; it is one of the dates and not after any of them |
| Sorting.SortBy | backend/services/file_processor.py:611-618 | sorting yields a permutation of its input |
| Sorting.SortBySorted | backend/services/file_processor.py:611-618 | for a total preorder the sorted result is ordered |
| Sorting.InsertSorted | backend/services/file_processor.py:611-618 | inserting into an ordered sequence keeps it ordered |
| Sorting.InsertTies | backend/app.py:244-249 | an inserted element goes before every element it ties with, and the other tied elements keep their order |
| Sorting.SortByStable | backend/app.py:244-249 | for a total preorder, the elements tied with any given one come out in their input order |
| Sorting.KeyLeTotalPreorder | backend/services/file_processor.py:588-589 | the lexicographic order of string tuples used by `groupby(sort=True)` is a total preorder |
| Sorting.KeyLeAntisym | backend/services/file_processor.py:588-589 | two key tuples ordered both ways are equal |
| Groups.Members | backend/services/file_processor.py:588-589 | a group holds only rows of its input that have its key |
| Groups.MembersComplete | backend/services/file_processor.py:588-589 | every row lies in the group of its own key |
| Groups.SortedKeys | backend/services/file_processor.py:588-589 | the keys are distinct, every row's key is among them, and each key belongs to some row |
| Groups.SortedKeysOrdered | backend/services/file_processor.py:588-589 | the group keys come in ascending order |
| Groups.GroupOf | backend/app.py:235 | every row has a group whose key is its key and which contains it |
| Groups.PartitionMultiset | backend/app.py:235 | the groups together hold every row exactly as often as the input does |
| Groups.KeyedSum | backend/services/file_processor.py:588-608 | per-group sums add up to the sum over all rows |
| Decimal.FormatNumber | backend/app.py:71-97 | a printed number reads back as exactly its value; text keeps the value it reads as once stripped and comma-normalised, and comes back normalised when it reads as none; a missing value prints `nan` |
| Decimal.FormatMicro | backend/app.py:91-95 | the numeric branch reads back as the quantity, is never empty, does not end in `.`, has no trailing zero after the point, and uses only digits, `.` and `-` |
| Decimal.FormatTextIdempotent | backend/app.py:79-95 | formatting the formatted text of a number gives the same text |
| Decimal.FormatMicroCanonical | backend/app.py:91-95 | printing to six decimals and then stripping zeros and the point gives the shortest decimal text of the value |
| Decimal.CanonicalRoundTrip | backend/app.py:91-95 | the shortest decimal text of a value reads back as that value |
| Decimal.ToCsvNumber | backend/app.py:99-106 | with a comma separator a printed quantity has no `.` and no `;` and the quantity normalisation reads it back as its value; any other separator leaves `_format_number`'s text unchanged |
| Decimal.CommaNumber | backend/app.py:99-106 | the comma spelling of a printed quantity has no `.` and no `;` and reads back as the quantity |
| Decimal.NormalizeQuantity | backend/services/file_processor.py:442-449 | spaces and no-break spaces are removed, then each comma becomes a point and every other character stays in place; text without those characters is unchanged |
| Decimal.ParseQuantity | backend/services/file_processor.py:442-449 | text with no space or no-break space reads as `to_numeric` reads it once its commas become points and the ASCII whitespace at its ends is skipped; trimmed point-decimal text reads as plain decimal text |
| Decimal.NormalizeAppend | backend/services/file_processor.py:442-449 | the normalisation works character by character, so it distributes over concatenation |
| Decimal.TrimAscii | backend/services/file_processor.py:442-449 | the text left for the number parser has no ASCII whitespace (tab to carriage return, space) at either end, and text without any there is unchanged |
| Decimal.TrimPadded | backend/services/file_processor.py:442-449 | ASCII whitespace added around a text does not change what the parser sees |
| Decimal.PaddedQuantity | backend/services/lotecart_processor.py:65-73 | a quantity surrounded by tabs, line breaks or spaces reads as the bare quantity (`"5\t"` reads as 5) |
| Decimal.DigitReads | backend/services/file_processor.py:442-449 | the text `5` reads as the quantity 5 |
| Decimal.FixedText | backend/app.py:91 | the six fractional digits of `:.6f` read back as the fraction |
| Decimal.FractionText | backend/app.py:93-94 | the significant fraction digits have no trailing zero |
| Decimal.SpellRoundTrip | backend/app.py:91-95 | integer part and significant fraction, with the sign, read back as the signed value |
| Decimal.StripZerosValue | backend/app.py:94 | dropping trailing zeros from fraction digits divides their value by the matching power of ten |
| Lots.ClassifyLot | backend/services/file_processor.py:493-541 | a lot is type 1 exactly when its stripped text has the type-1 shape and a known site code, and type 2 exactly when it is `LOT` plus 6 digits; a date is reported only for type 1, and a type-1 lot carries exactly the date its `DDMMYY` digits name, or none when they name no calendar date |
| Lots.LotDate | backend/services/file_processor.py:518-532 | `DDMMYY` gives the date (2000 + YY, MM, DD) exactly when that is a calendar date, and no date otherwise |
| Lots.ClassifyEncoded | backend/services/file_processor.py:493-532 | a lot built from a known site, a calendar date of 2000..2099 and a suffix is classified type 1 with that date |
| Lots.ClassifyImpossibleDate | backend/services/file_processor.py:518-533 | a type-1 lot from a known site whose digits name no calendar date is type 1 without a date |
| Lots.NoThirtyFirstFebruary | backend/services/file_processor.py:518-533 | `310224` names no date, although day and month pass the 1..31 and 1..12 range check |
| Lots.ClassifyType2 | backend/services/file_processor.py:535-539 | `LOT` followed by six digits is type 2 and carries no date |
| Lots.InventoryDate | backend/services/file_processor.py:543-563 | with no `DDMMINV` anywhere there is no date; otherwise the leftmost match gives `date(session year, MM, DD)`, or no date when that is not a calendar date |
| Lots.InventoryDateEncoded | backend/services/file_processor.py:543-563 | an inventory number starting `DDMMINV` gives the date of that day and month in the session year, or none when that is not a calendar date |
| Lots.FindInvMatch | backend/services/file_processor.py:551-552 | finds the first position where `\d{2}\d{2}INV` matches |
| Lots.PriorityLotType | backend/services/file_processor.py:626-635 | the priority type is one of the group's types and comes first in the order type 1, type 2, LOTECART, potential LOTECART, unknown; an empty group is unknown |
| Lots.TypeRank | backend/services/file_processor.py:611-613 | the sort rank is 1 to 4, and below 4 exactly for type 1, type 2 and LOTECART |
| Records.CsvKind | backend/services/file_processor.py:263-271 | a header line keeps its stripped text; a stock line's parts join back to the stripped line and contain no `;` |
| Records.CsvKinds | backend/services/file_processor.py:263-271 | a line is a header exactly when it starts `E;` or `L;` and a stock line exactly when it starts `S;`; a blank line is skipped |
| Records.SheetKind | backend/services/file_processor.py:362-407 | a spreadsheet stock row keeps its stripped cells, up to the schema width or the row's end |
| Records.SheetKinds | backend/services/file_processor.py:371-382 | a spreadsheet row is a header exactly when its line-type cell reads `E` or `L`, and a stock line exactly when it reads `S` |
| Records.Headers | backend/services/file_processor.py:263-268 | one header text per header line, and the header of line `i` stands right after those of the lines before it |
| Records.StockLines | backend/services/file_processor.py:269-292 | every stock line is recorded with its 1-based line number |
| Records.StockLinesOrdered | backend/services/file_processor.py:269-292 | stock lines keep their input order |
| Records.StockLinesComplete | backend/services/file_processor.py:269-292 | every stock line of the input is recorded |
| Records.MakeRecord | backend/services/file_processor.py:436-491 | a record keeps its fields and its raw text, reads site, session, inventory, article, status, unit, zone, lot and location from their columns, coerces the quantity, and carries the lot classifier's result |
| Records.MakeRecords | backend/services/file_processor.py:285-292 | one record per stock line, in order; each keeps the line's first schema-width fields, joins them back as its raw text, reads article, inventory and lot from their columns and coerces the quantity |
| Records.Assemble | backend/services/file_processor.py:251-315 | a successful parse keeps every header line and yields one record per stock line, at least one |
| Records.ShortLineFails | backend/services/file_processor.py:272-278 | parsing fails on a short line exactly when some stock line has fewer fields than the schema |
| Records.ShortLineIsFirst | backend/services/file_processor.py:272-278 | the error names the first short stock line, its 1-based number and its field count |
| Records.NoDataFails | backend/services/file_processor.py:294-295 | parsing fails with "no data" exactly when there is no stock line |
| Records.AssembledRecordAt | backend/services/file_processor.py:285-292 | each record holds the first schema-width fields of its stock line, and its raw text splits back into them |
| Records.Scan | backend/services/file_processor.py:251-315 | the single pass over the lines, stopping at the first short line, gives the parse result |
| Records.ParseCsv | backend/services/file_processor.py:251-315 | a CSV extract fails for want of data exactly when no stripped line starts `S;`, and fails on a short line exactly when some such line has fewer fields than the schema |
| Records.ParseSheet | backend/services/file_processor.py:362-407 | a spreadsheet fails for want of data exactly when no row's line-type cell reads `S`, and fails on a short line exactly when some such row is narrower than the schema |
| Records.CoerceQuantities | backend/services/file_processor.py:442-476 | as written: every quantity is normalised and read, and an unreadable one becomes 0 when the flag is on; the stored count becomes the number of unreadable texts only when the flag is on and there is one, and otherwise keeps the value an earlier upload left |
| Records.CoerceQuantitiesFresh | backend/services/file_processor.py:451-476 | corrected: the same values, with the count of this upload's replaced quantities, which is every unreadable one when the flag is on and 0 otherwise |
| Records.StaleInvalidCount | backend/app.py:599 | after an upload with unreadable quantities, a clean upload still reports the earlier count, while it replaced none |
| Records.StaleInvalidExample | backend/app.py:599 | an upload with quantity `abc` followed by one with quantity `5`: the second reports 1 replacement and replaced nothing |
| Records.CoerceColumn | backend/services/file_processor.py:442-457 | the column loop coerces each text and counts the unreadable ones, for any reading of the texts |
| Records.CountFailingStep | backend/services/file_processor.py:451-457 | extending the column by one text adds one to the count exactly when that text is unreadable |
| Aggregation.EffectiveKeys | backend/services/file_processor.py:572-586 | the group keys are the configured columns plus the inventory column, restricted to existing columns |
| Aggregation.InventoryIsKey | backend/services/file_processor.py:576-579 | the inventory column is always a key, and no existing configured column is dropped |
| Aggregation.Aggregate | backend/services/file_processor.py:565-624 | an empty extract is an error; otherwise the groups are those of the records, sorted by (type rank, earliest date) |
| Aggregation.MakeGroup | backend/services/file_processor.py:588-608 | a group row carries its key, the first record's session and site, the quantity sum, a lot date that is absent exactly when no record is dated and otherwise some record's date no later than any other, and a type held by some record with no record's type ahead of it in priority |
| Aggregation.GroupRecords | backend/services/file_processor.py:588-608 | the groups have distinct keys in ascending order, every record's key has a group, and every group's key is some record's |
| Aggregation.GroupFigures | backend/services/file_processor.py:588-608 | a group's records are exactly those with its key; its total is their quantity sum, its date the earliest lot date, its type the priority type, its session and site those of the first record |
| Aggregation.GroupLeTotalPreorder | backend/services/file_processor.py:611-618 | the sort key order is a total preorder, so the sort is well defined |
| Aggregation.AggregateConserves | backend/services/file_processor.py:565-624 | the group totals add up to the sum of the record quantities |
| Aggregation.AggregateGroups | backend/services/file_processor.py:611-618 | sorting neither loses, adds nor duplicates a group |
| Discrepancy.CountIndex | backend/app.py:177-183 | the counted-quantity dictionary holds exactly the counted pairs, each with the last template row's value |
| Discrepancy.Discrepancies | backend/app.py:172-220 | one lot line per record, in order; each keeps the record's article, inventory, lot type, lot date, raw text, status, unit, zone and location, strips the lot, has no adjustment, a corrected quantity equal to the theoretical one, and the counted value recorded for its (article, inventory) |
| Discrepancy.DiscrepanciesFaithful | backend/app.py:186-218 | each lot line is its record with the lot stripped, no adjustment yet, and the count of the last template row for its pair, or 0 when there is none |
| Distribution.FifoTotalPreorder | backend/app.py:244-249 | the FIFO and LIFO orders are total preorders |
| Distribution.Order | backend/app.py:244-252 | the strategy order permutes the group, and the listed order leaves it unchanged |
| Distribution.OrderedAllocation | backend/app.py:263-292 | allocating over any reordering of a group returns its lines, each once, with corrected = original + adjustment, and on non-negative stock reaches the stock plus the discrepancy, or 0 |
| Distribution.GroupAllocation | backend/app.py:244-292 | the strategy-ordered allocation returns the group's own lines, each once, with corrected = original + adjustment, and on non-negative stock brings the corrected total to the stock plus the discrepancy, or to 0 |
| Distribution.OrderStable | backend/app.py:244-249 | under FIFO and LIFO, lines with the same lot date and lot keep their order in the group |
| Distribution.OrderSorted | backend/app.py:244-249 | FIFO puts lines in ascending (lot date, lot) order with undated lines last; LIFO is the reverse |
| Distribution.AllocateShape | backend/app.py:255-292 | allocation keeps each line's identity, and the corrected quantity is the original plus the adjustment |
| Distribution.AllocateLine | backend/app.py:257-283 | one line's step: it keeps the line, sets corrected = original + adjustment, and splits the remaining discrepancy into the adjustment and what is passed on; a surplus goes on the first line only, and a shortfall takes at most the line's stock, emptying it whenever anything is passed on |
| Distribution.Allocate | backend/app.py:255-292 | the adjustments add up to the distributed part of the discrepancy, and the corrected quantities exceed the originals by that part |
| Distribution.AllocateNothing | backend/app.py:255-292 | a zero discrepancy adjusts nothing |
| Distribution.AllocateSurplus | backend/app.py:258-262 | a surplus goes entirely onto the first line |
| Distribution.AllocateShortfall | backend/app.py:263-292 | a shortfall takes from each line at most its stock, never drives a line negative, and never adds stock |
| Distribution.AllocateDrainsInOrder | backend/app.py:263-292 | a line is touched only after every earlier line is empty, and nothing moves after a partly drained line |
| Distribution.AllocateResidual | backend/app.py:263-292 | what remains of a shortfall is 0 when the stock covers it, otherwise the part beyond the stock |
| Distribution.AllocateMatchesCount | backend/app.py:237-292 | distributing count minus stock brings the corrected total to the count, or to 0 when the count is negative |
| Distribution.DistributeGroup | backend/app.py:235-292 | a group fails exactly when its count is not a number; otherwise its discrepancy is the count minus the theoretical total, its allocated lines are its own lines each once with corrected = original + adjustment, and on non-negative stock the corrected quantities add up to the count, or to 0 when the count is negative |
| Distribution.DistributeGroups | backend/app.py:235-292 | distribution succeeds exactly when every group does, and an error is some group's error |
| Distribution.Distribute | backend/app.py:222-332 | a failure names a line whose count is not a number |
| Distribution.DistributePermutes | backend/app.py:222-300 | distribution returns every input line exactly once, its allocation aside |
| Distribution.DistributeConsistent | backend/app.py:255-292 | every output line has corrected = original + adjustment, and it is never negative when no stock was |
| Distribution.DistributeFailsOn | backend/app.py:237-239 | when each pair has one count, distribution fails exactly when some line's count is not a number |
| Distribution.DistributeFails | backend/app.py:172-292 | discrepancy calculation followed by distribution fails exactly when some record's counted quantity is not a number |
| Lotecart.DetectCandidates | backend/services/lotecart_processor.py:46-106 | there are at most as many candidates as rows, each with a positive count |
| Lotecart.DetectSound | backend/services/lotecart_processor.py:77-80 | every candidate comes from a row with theoretical quantity 0 and a positive count |
| Lotecart.DetectComplete | backend/services/lotecart_processor.py:77-80 | every such row yields a candidate |
| Lotecart.DetectAppend | backend/services/lotecart_processor.py:77-80 | detection keeps template order: two stretches of rows give the candidates of the first, then those of the second, and a single row gives itself exactly when it is a candidate |
| Lotecart.UpdatesZeroLine | backend/services/lotecart_processor.py:136-174 | the first zero-quantity line of the article and inventory is updated to the counted quantity, keeping its lot, date and raw text |
| Lotecart.NewFromReference | backend/services/lotecart_processor.py:176-217 | without a zero line, the first line of the article becomes the reference of a new `LOTECART` line with the counted quantity; with no line of the article there is no adjustment |
| Lotecart.AdjustmentFor | backend/services/lotecart_processor.py:136-217 | a candidate yields an adjustment exactly when the extract has a line of its article (and of its inventory, when it names one); the adjustment is either an update or a new line, starts from 0, and both its adjustment and its corrected quantity are the count |
| Lotecart.CreateAdjustments | backend/services/lotecart_processor.py:108-229 | at most one adjustment per candidate, each either an update or a new line, starting from 0 with corrected = adjustment |
| Lotecart.CreateSound | backend/services/lotecart_processor.py:108-229 | every adjustment comes from some candidate |
| Lotecart.CreateComplete | backend/services/lotecart_processor.py:108-229 | every candidate with an adjustment contributes it |
| Lotecart.CreateAppend | backend/services/lotecart_processor.py:127-222 | adjustments keep candidate order: two stretches of candidates give the adjustments of the first, then those of the second, and a single candidate gives its own adjustment, if any |
| Lotecart.ReferenceParts | backend/services/lotecart_processor.py:256-298 | a new adjustment with a reference yields fields exactly when the stripped reference is not blank, not `nan` or `none` in any case, and splits into at least 15 fields; the fields are that split, none contains `;`, and they join back to the stripped reference; any other adjustment yields none |
| Lotecart.UsableAppend | backend/services/lotecart_processor.py:253-298 | the usable references keep adjustment order: two stretches of adjustments give those of the first, then those of the second, and one adjustment gives its fields and corrected quantity exactly when its reference is usable |
| Lotecart.StampFields | backend/services/lotecart_processor.py:305-317 | a new line changes only the rank, the two quantities, the indicator (to 2) and the lot (to `LOTECART`) |
| Lotecart.NumberedAt | backend/services/lotecart_processor.py:301 | the k-th usable reference gets rank current + 1000·(k+1) |
| Lotecart.NewLineFields | backend/services/lotecart_processor.py:231-336 | each new line copies its reference except the rank, which reads back as a number above the current maximum, the quantities, the indicator 2 and the lot `LOTECART` |
| Lotecart.GenerateLotecartLines | backend/services/lotecart_processor.py:231-336 | one printed line per usable adjustment, which splits back into that adjustment's stamped fields |
| Regenerate.Entries | backend/app.py:302-316 | the adjusted lines come first, then the found-stock adjustments |
| Regenerate.IndexEntries | backend/app.py:364-376 | the adjustment dictionary holds exactly the keyed lines, each with the last entry for its key |
| Regenerate.EntryForLast | backend/app.py:364-376 | the entry for a key is the last one with that key |
| Regenerate.LineEntry | backend/app.py:364-376 | an adjusted line whose key is not repeated later is written back with its own corrected quantity |
| Regenerate.AdjustmentEntry | backend/app.py:314-316 | a found-stock adjustment appended after the distributed lines overrides any distributed line with the same (article, inventory, lot) key when the dictionary is looked up |
| Regenerate.LocationFor | backend/app.py:394-406 | a pair has a location override exactly when some template row of that pair gives non-blank location text; the override is the stripped text of the last such row |
| Regenerate.IndexLocations | backend/app.py:394-406 | the location dictionary built in one pass holds exactly the overridden pairs, each with the location of the last row changing it |
| Regenerate.ReplayParts | backend/app.py:428-466 | field 5 is kept; field 6 holds the corrected quantity, which reads back as that quantity, or repeats field 5 without an entry; the indicator is 2 exactly when the corrected quantity is 0; only found-stock entries rename the lot; only an override moves the location; every other field is unchanged |
| Regenerate.ReplaySplit | backend/app.py:410-469 | a rewritten line splits back into its rewritten fields |
| Regenerate.WrittenRecordsMembers | backend/app.py:412 | exactly the records with at least 15 raw fields are written back |
| Regenerate.MaxRank | backend/app.py:419-424 | the maximum rank is at least 0 and every readable rank, and is 0 or one of the readable ranks |
| Regenerate.NewAdjustmentsMembers | backend/app.py:472-475 | only new found-stock adjustments that are not updates produce new lines |
| Regenerate.FinalNewLineFields | backend/app.py:471-495 | a new line copies its reference except for a rank above the existing maximum, quantity 0 before and the found quantity after (comma-separated, reading back as that quantity), indicator 2 and lot `LOTECART` |
| Regenerate.AdaptedStampSplit | backend/app.py:484-493 | the adaptation sets field 5 to 0 and field 6 to the found quantity with a comma for the point |
| Regenerate.NewRanksAbove | backend/app.py:419-424 | every new line's rank is above every readable existing rank |
| Regenerate.NewRanksIncrease | backend/services/lotecart_processor.py:301 | the new lines' ranks strictly increase |
| Regenerate.GenerateFinal | backend/app.py:388-495 | the final file starts with the header lines and has one more line per written record and per new found-stock line |
| Regenerate.FinalReplayedLine | backend/app.py:409-469 | the line after the headers for a written record is that record's rewritten line |
| Regenerate.FinalNewLine | backend/app.py:471-495 | the lines after the records are the adapted new found-stock lines |

## Left out

- File I/O, the Flask routes, sessions, logging, the database layer and the summary and validation helpers are outside the core. Spreadsheet cells arrive as parameters.
- The column configuration is a parameter: the schema positions, the known site codes and the session year. The config service is not part of this model.
- Floating point: quantities are exact micro-units. A text with more than six fractional digits, an exponent, `inf`/`nan` or `_` is treated as unreadable, where Python's `float` would accept it. Only ASCII whitespace is skipped at the ends of a quantity, as pandas' own number parser does; other Unicode spaces make it unreadable.
- The `1e-9` zero test is exact zero in micro-units, which is the same test at that precision.
- The 0.01 "remaining discrepancy" warning only logs, so it is not modelled.
- Python's `\d`, `int()` and `.lower()` are modelled on ASCII only. Text.ParseInt, used for the rank read at backend/app.py:421, also rejects the `_` digit separators (`1_000`) that `int()` accepts, so such a rank counts as unreadable.
- Aggregation.Aggregate: states the sortedness and the multiset of the groups, not their order among equal sort keys, because the pandas default sort is not stable.
- Distribution.Distribute: a blank or text count is an error (`CountNotNumeric`). In the source, a missing value becomes NaN and propagates rather than raising.
- Rows whose grouping key holds NaN are not modelled; `groupby` drops them.
- Aggregation's `NoValidKey` error cannot occur, because the inventory column is always a key.
- The spreadsheet reader is assumed to cut rows at the schema width.
- Records.CoerceQuantities models the invalid-quantity flag both ways. The record pipeline uses the default, which replaces unreadable quantities by 0, and takes its invalid count from Records.CoerceQuantitiesFresh. The import inside the `try` at backend/services/file_processor.py:458-477 is taken to succeed.
- The `lotecart_counter` statistic of the found-stock processor is not modelled.
- Undated groups sort first in the aggregated template: a missing earliest date becomes `datetime.min` (backend/services/file_processor.py:614). The model follows the code.
- A location override is keyed by (article, inventory), so it applies to every line of that pair.

## Findings

| source | as written | input that shows it | evidently intended | confidence | as-written member | corrected member |
|---|---|---|---|---|---|---|
| backend/services/file_processor.py:451-476 | the shared processor's `_last_invalid_qty_count` is set only when an upload has unreadable quantities and is never reset, and backend/app.py:599 reports it for every later upload | an upload whose only quantity is `abc`, then one whose only quantity is `5`: the second reports 1 replaced quantity | the count of this upload's replaced quantities, 0 for a clean upload | medium, not executed | Records.StaleInvalidExample | Records.CoerceQuantitiesFresh |
