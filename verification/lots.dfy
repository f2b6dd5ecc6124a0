/** Lot numbers and inventory numbers: the lot classifier, the inventory
    date extractor and the priority among lot types
    (backend/services/file_processor.py).

    The default patterns are modelled as character-class checks on
    fixed-length text: type 1 is `^([A-Z0-9]{5})(\d{6})([A-Z0-9]{4})$` (a site
    code, `DDMMYY`, a suffix), type 2 is `^LOT(\d{6})$`, and the inventory date
    is the leftmost match of `(\d{2})(\d{2})INV`. */
module Lots {
  import opened Common
  import opened Text
  import opened Dates

  /** The lot types the pipeline assigns, in the order of priority. */
  datatype LotType = Type1 | Type2 | Lotecart | PotentialLotecart | Unknown

  /** What the classifier reports about one lot: its date, when the lot
      carries a valid one, and its type. */
  datatype LotInfo = LotInfo(date: Option<Date>, lotType: LotType)

  predicate IsUpperAlnum(c: char) {
    'A' <= c <= 'Z' || IsDigit(c)
  }

  predicate AllUpperAlnum(s: string) {
    forall i :: 0 <= i < |s| ==> IsUpperAlnum(s[i])
  }

  /** `[A-Z0-9]{5}` `\d{6}` `[A-Z0-9]{4}`, the whole text. */
  predicate Type1Shape(s: string) {
    |s| == 15 && AllUpperAlnum(s[..5]) && AllDigits(s[5..11]) && AllUpperAlnum(s[11..])
  }

  /** `LOT` `\d{6}`, the whole text. */
  predicate Type2Shape(s: string) {
    |s| == 9 && s[..3] == "LOT" && AllDigits(s[3..])
  }

  /** The date a type-1 lot carries in its `DDMMYY` digits: day 1..31 and
      month 1..12 are checked first, then the calendar; the year is
      `2000 + YY`. */
  function LotDate(ddmmyy: string): (r: Option<Date>)
    requires |ddmmyy| == 6 && AllDigits(ddmmyy)
    ensures r.Some? ==> Valid(r.value) && 2000 <= r.value.year <= 2099
    ensures var d := Date(2000 + DigitsValue(ddmmyy[4..6]), DigitsValue(ddmmyy[2..4]), DigitsValue(ddmmyy[0..2]));
      (r.Some? <==> Valid(d)) && (r.Some? ==> r.value == d)
  {
    DigitsSlice(ddmmyy, 0, 2);
    DigitsSlice(ddmmyy, 2, 4);
    DigitsSlice(ddmmyy, 4, 6);
    var day := DigitsValue(ddmmyy[0..2]);
    var month := DigitsValue(ddmmyy[2..4]);
    var year := DigitsValue(ddmmyy[4..6]) + 2000;
    if !(1 <= day <= 31 && 1 <= month <= 12) then None
    else
      DigitsBound(ddmmyy[4..6]);
      MakeDate(year, month, day)
  }

  /** `_extract_date_from_lot`: the lot text is stripped; a type-1 lot whose
      site is not in the allow-list is unknown; a type-1 lot from an allowed
      site is type 1, dated as its digits say when that date exists; `LOT`
      and six digits is type 2 without a date; anything else is unknown. */
  function ClassifyLot(lot: string, sites: set<string>): (info: LotInfo)
    ensures info.lotType == Type1 || info.lotType == Type2 || info.lotType == Unknown
    ensures info.lotType == Type1 <==> Type1Shape(Strip(lot)) && Strip(lot)[..5] in sites
    ensures info.lotType == Type2 <==> Type2Shape(Strip(lot))
    ensures info.date.Some? ==> info.lotType == Type1 && Valid(info.date.value)
    ensures info.date.Some? ==> 2000 <= info.date.value.year <= 2099
    ensures info.lotType == Type1 ==> info.date == LotDate(Strip(lot)[5..11])
  {
    var s := Strip(lot);
    if Type1Shape(s) then
      if s[..5] !in sites then LotInfo(None, Unknown)
      else LotInfo(LotDate(s[5..11]), Type1)
    else if Type2Shape(s) then LotInfo(None, Type2)
    else LotInfo(None, Unknown)
  }

  /** A type-1 lot number: site code, `DDMMYY` of a date of this century,
      suffix. */
  function EncodeLot(site: string, d: Date, suffix: string): string
    requires 0 <= d.day < 100 && 0 <= d.month < 100 && 2000 <= d.year < 2100
  {
    Pow10Two();
    site + FixedDigits(d.day, 2) + FixedDigits(d.month, 2)
      + FixedDigits(d.year - 2000, 2) + suffix
  }

  /** The digits of a valid date of this century read back as that date. */
  lemma {:induction false} LotDateEncoded(d: Date)
    requires Valid(d) && 2000 <= d.year < 2100
    ensures Pow10(2) == 100
    ensures LotDate(FixedDigits(d.day, 2) + FixedDigits(d.month, 2) + FixedDigits(d.year - 2000, 2)) == Some(d)
  {
    Pow10Two();
    var dd := FixedDigits(d.day, 2);
    var mm := FixedDigits(d.month, 2);
    var yy := FixedDigits(d.year - 2000, 2);
    var s := dd + mm + yy;
    assert s[0..2] == dd && s[2..4] == mm && s[4..6] == yy;
    assert MakeDate(d.year, d.month, d.day) == Some(d);
  }

  /** The classifier reads back the date a type-1 lot number was made from. */
  lemma {:induction false} ClassifyEncoded(site: string, d: Date, suffix: string, sites: set<string>)
    requires |site| == 5 && AllUpperAlnum(site) && site in sites
    requires |suffix| == 4 && AllUpperAlnum(suffix)
    requires Valid(d) && 2000 <= d.year < 2100
    ensures ClassifyLot(EncodeLot(site, d, suffix), sites) == LotInfo(Some(d), Type1)
  {
    LotDateEncoded(d);
    var dd := FixedDigits(d.day, 2);
    var mm := FixedDigits(d.month, 2);
    var yy := FixedDigits(d.year - 2000, 2);
    var s := EncodeLot(site, d, suffix);
    assert s == site + (dd + mm + yy) + suffix;
    assert s[..5] == site;
    assert s[5..11] == dd + mm + yy;
    assert s[11..] == suffix;
    assert !IsSpace(s[0]) && !IsSpace(s[14]);
    StripIdentity(s);
    assert Type1Shape(s);
  }

  /** A type-1 lot from an allowed site whose digits name no date is still
      type 1, without a date. */
  lemma {:induction false} ClassifyImpossibleDate(site: string, ddmmyy: string, suffix: string, sites: set<string>)
    requires |site| == 5 && AllUpperAlnum(site) && site in sites
    requires |ddmmyy| == 6 && AllDigits(ddmmyy)
    requires !Valid(Date(2000 + DigitsValue(ddmmyy[4..6]), DigitsValue(ddmmyy[2..4]), DigitsValue(ddmmyy[0..2])))
    requires |suffix| == 4 && AllUpperAlnum(suffix)
    ensures ClassifyLot(site + ddmmyy + suffix, sites) == LotInfo(None, Type1)
  {
    var s := site + ddmmyy + suffix;
    assert s[..5] == site && s[5..11] == ddmmyy && s[11..] == suffix;
    assert !IsSpace(s[0]) && !IsSpace(s[14]);
    StripIdentity(s);
    assert Type1Shape(s);
  }

  /** 31 February 2024 does not exist, so `310224` gives no date. */
  lemma {:induction false} NoThirtyFirstFebruary()
    ensures LotDate("310224") == None
  {
    var s := "310224";
    assert s[0..2] == "31" && s[2..4] == "02" && s[4..6] == "24";
    assert DigitsValue("31") == 31 && DigitsValue("02") == 2;
  }

  /** A lot of the second kind is classified as type 2 whatever the allowed
      sites. */
  lemma {:induction false} ClassifyType2(digits: string, sites: set<string>)
    requires |digits| == 6 && AllDigits(digits)
    ensures ClassifyLot("LOT" + digits, sites) == LotInfo(None, Type2)
  {
    var s := "LOT" + digits;
    assert s[..3] == "LOT" && s[3..] == digits;
    assert !IsSpace(s[0]) && !IsSpace(s[8]);
    StripIdentity(s);
  }

  // ---------------------------------------------------------------------
  // Inventory date.

  /** `(\d{2})(\d{2})INV` matches at position `k`. */
  predicate InvMatchAt(s: string, k: nat) {
    k + 7 <= |s| && AllDigits(s[k..k + 2]) && AllDigits(s[k + 2..k + 4]) && s[k + 4..k + 7] == "INV"
  }

  /** The leftmost match at or after `from`, as `re.search` finds it. */
  function FindInvMatch(s: string, from: nat): (k: Option<nat>)
    ensures k.Some? ==> from <= k.value && InvMatchAt(s, k.value)
    ensures k.Some? ==> forall j :: from <= j < k.value ==> !InvMatchAt(s, j)
    ensures k.None? ==> forall j :: from <= j ==> !InvMatchAt(s, j)
    decreases |s| - from
  {
    if from + 7 > |s| then None
    else if InvMatchAt(s, from) then Some(from)
    else FindInvMatch(s, from + 1)
  }

  /** The search from the start finds the leftmost match. */
  lemma {:induction false} LeftmostFound(inv: string)
    ensures forall k: nat :: InvMatchAt(inv, k) && (forall j :: 0 <= j < k ==> !InvMatchAt(inv, j)) ==>
      FindInvMatch(inv, 0) == Some(k)
  {
    forall k: nat | InvMatchAt(inv, k) && (forall j :: 0 <= j < k ==> !InvMatchAt(inv, j))
      ensures FindInvMatch(inv, 0) == Some(k)
    {
      var f := FindInvMatch(inv, 0);
      assert f.Some?;
      assert !(f.value < k) && !(k < f.value);
    }
  }

  /** `_extract_inventory_date`: an empty inventory number has no date; the
      leftmost `DDMMINV` gives `date(session year, MM, DD)`, or no date when
      that date does not exist; no match gives no date. */
  function InventoryDate(inv: string, sessionYear: int): (r: Option<Date>)
    ensures r.Some? ==> Valid(r.value) && r.value.year == sessionYear
    ensures r.Some? ==> exists k :: InvMatchAt(inv, k)
    ensures (forall k: nat :: !InvMatchAt(inv, k)) ==> r.None?
    ensures forall k: nat :: InvMatchAt(inv, k) && (forall j :: 0 <= j < k ==> !InvMatchAt(inv, j)) ==>
      r == MakeDate(sessionYear, DigitsValue(inv[k + 2..k + 4]), DigitsValue(inv[k..k + 2]))
  {
    LeftmostFound(inv);
    if inv == "" then None
    else
      match FindInvMatch(inv, 0)
      case None => None
      case Some(k) =>
        MakeDate(sessionYear, DigitsValue(inv[k + 2..k + 4]), DigitsValue(inv[k..k + 2]))
  }

  /** An inventory number made of `DDMMINV` and any tail carries that day and
      month of the session year, when the date exists. */
  lemma {:induction false} InventoryDateEncoded(day: nat, month: nat, tail: string, sessionYear: int)
    requires day < 100 && month < 100
    ensures InventoryDate(FixedDigits(day, 2) + FixedDigits(month, 2) + "INV" + tail, sessionYear)
         == MakeDate(sessionYear, month, day)
  {
    Pow10Two();
    var dd := FixedDigits(day, 2);
    var mm := FixedDigits(month, 2);
    var s := dd + mm + "INV" + tail;
    assert s[0..4] == dd + mm && s[4..7] == "INV";
    assert s[0..2] == dd && s[2..4] == mm;
    assert InvMatchAt(s, 0);
  }

  // ---------------------------------------------------------------------
  // Priority among lot types.

  /** The priority order `_get_priority_lot_type` walks. */
  const PriorityOrder: seq<LotType> := [Type1, Type2, Lotecart, PotentialLotecart, Unknown]

  /** Position of a type in the priority order. */
  function Priority(t: LotType): (p: nat)
    ensures p < |PriorityOrder| && PriorityOrder[p] == t
  {
    match t
    case Type1 => 0
    case Type2 => 1
    case Lotecart => 2
    case PotentialLotecart => 3
    case Unknown => 4
  }

  /** The first type of `order` that occurs in `types`. */
  function FirstPresent(order: seq<LotType>, types: seq<LotType>): (r: Option<nat>)
    ensures r.Some? ==> r.value < |order| && order[r.value] in types
    ensures r.Some? ==> forall j :: 0 <= j < r.value ==> order[j] !in types
    ensures r.None? ==> forall j :: 0 <= j < |order| ==> order[j] !in types
  {
    if |order| == 0 then None
    else if order[0] in types then Some(0)
    else
      match FirstPresent(order[1..], types)
      case None => None
      case Some(j) => Some(j + 1)
  }

  /** `_get_priority_lot_type`: the first type of the priority order present
      in the group, unknown when there is none. */
  function PriorityLotType(types: seq<LotType>): (t: LotType)
    ensures |types| > 0 ==> t in types
    ensures |types| == 0 ==> t == Unknown
    ensures forall u :: u in types ==> Priority(t) <= Priority(u)
  {
    PriorityFirst(types);
    match FirstPresent(PriorityOrder, types)
    case Some(j) => PriorityOrder[j]
    case None => Unknown
  }

  /** The first present type of the priority order is present and no
      type of the group comes before it. */
  lemma {:induction false} PriorityFirst(types: seq<LotType>)
    ensures var r := FirstPresent(PriorityOrder, types);
      && (|types| > 0 ==> r.Some?)
      && (r.Some? ==> forall u :: u in types ==> r.value <= Priority(u))
  {
    var r := FirstPresent(PriorityOrder, types);
    if |types| > 0 {
      var p := Priority(types[0]);
      assert PriorityOrder[p] in types;
    }
    forall u | u in types && r.Some? ensures r.value <= Priority(u) {
      var p := Priority(u);
      assert PriorityOrder[p] in types;
    }
  }

  /** The sort rank of the aggregated groups: type 1, type 2, found stock,
      then everything else at rank 4. */
  function TypeRank(t: LotType): (r: nat)
    ensures 1 <= r <= 4
    ensures r < 4 <==> t == Type1 || t == Type2 || t == Lotecart
  {
    match t
    case Type1 => 1
    case Type2 => 2
    case Lotecart => 3
    case _ => 4
  }
}
