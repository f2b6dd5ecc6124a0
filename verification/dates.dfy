/** Calendar dates as Python's `datetime.date` knows them: the proleptic
    Gregorian calendar over the years 1 to 9999. */
module Dates {
  import opened Common

  datatype Date = Date(year: int, month: int, day: int)

  predicate IsLeap(y: int) {
    y % 4 == 0 && (y % 100 != 0 || y % 400 == 0)
  }

  function DaysInMonth(y: int, m: int): (n: int)
    requires 1 <= m <= 12
    ensures 28 <= n <= 31
  {
    if m == 2 then (if IsLeap(y) then 29 else 28)
    else if m == 4 || m == 6 || m == 9 || m == 11 then 30
    else 31
  }

  /** The dates `date(y, m, d)` accepts without raising ValueError. */
  predicate Valid(d: Date) {
    && 1 <= d.year <= 9999
    && 1 <= d.month <= 12
    && 1 <= d.day <= DaysInMonth(d.year, d.month)
  }

  /** `date(y, m, d)`; None where Python raises ValueError. */
  function MakeDate(y: int, m: int, d: int): (r: Option<Date>)
    ensures r.Some? <==> Valid(Date(y, m, d))
    ensures r.Some? ==> r.value == Date(y, m, d)
  {
    if 1 <= y <= 9999 && 1 <= m <= 12 && 1 <= d <= DaysInMonth(y, m) then Some(Date(y, m, d))
    else None
  }

  /** Chronological order: by year, then month, then day. */
  predicate Before(a: Date, b: Date) {
    || a.year < b.year
    || (a.year == b.year && a.month < b.month)
    || (a.year == b.year && a.month == b.month && a.day < b.day)
  }

  predicate NotAfter(a: Date, b: Date) {
    Before(a, b) || a == b
  }

  /** `Before` is a strict total order. */
  lemma {:induction false} BeforeStrictTotal(a: Date, b: Date, c: Date)
    ensures !Before(a, a)
    ensures Before(a, b) && Before(b, c) ==> Before(a, c)
    ensures a == b || Before(a, b) || Before(b, a)
  {
  }

  /** The earlier of two dates. */
  function Earlier(a: Date, b: Date): (r: Date)
    ensures NotAfter(r, a) && NotAfter(r, b)
    ensures r == a || r == b
  {
    if Before(b, a) then b else a
  }

  /** Python's `min(...)` over the present dates, None when there are none. */
  function MinDate(ds: seq<Option<Date>>): (r: Option<Date>)
    ensures r.None? <==> forall i :: 0 <= i < |ds| ==> ds[i].None?
    ensures r.Some? ==> exists i :: 0 <= i < |ds| && ds[i] == r
    ensures r.Some? ==> forall i :: 0 <= i < |ds| && ds[i].Some? ==> NotAfter(r.value, ds[i].value)
  {
    if |ds| == 0 then None
    else
      var rest := MinDate(ds[1..]);
      assert forall i :: 1 <= i < |ds| ==> ds[i] == ds[1..][i - 1];
      match ds[0]
      case None => rest
      case Some(d) =>
        match rest
        case None => Some(d)
        case Some(e) =>
          assert forall x: Date :: NotAfter(e, x) ==> NotAfter(Earlier(d, e), x) by {
            forall x: Date | NotAfter(e, x) ensures NotAfter(Earlier(d, e), x) {
              BeforeStrictTotal(Earlier(d, e), e, x);
            }
          }
          Some(Earlier(d, e))
  }
}
