/**
 * Millisecond timestamps as the records use them: an exchange sends a
 * `u64` count of milliseconds, the code casts it with `as i64` and asks
 * `DateTime::<Utc>::from_timestamp_millis` for a date, which exists only
 * within chrono's range of years (262144 BCE to 262142 CE, proleptic
 * Gregorian). A date is kept as its millisecond count, so
 * `timestamp_millis` gives the count back unchanged.
 */
module UtcTime {
  import opened Wrappers
  import opened BoundedInts
  import opened Strings

  /** Milliseconds of 262144 BCE January 1 00:00:00.000. */
  const MIN_MILLIS: int := -8334601315200000
  /** Milliseconds of 262142 CE December 31 23:59:59.999. */
  const MAX_MILLIS: int := 8210266876799999

  /** `x as i64` for a `u64`: the upper half wraps around to negative values. */
  function AsI64(x: u64): (r: int)
    ensures -TWO_TO_THE_63 <= r < TWO_TO_THE_63
    ensures (r - x) % TWO_TO_THE_64 == 0
    ensures x < TWO_TO_THE_63 <==> r == x
  {
    if x < TWO_TO_THE_63 then x else x - TWO_TO_THE_64
  }

  /** `DateTime::from_timestamp_millis`: a date exactly inside chrono's range. */
  function FromTimestampMillis(ms: int): (r: Option<int>)
    ensures r.Some? <==> MIN_MILLIS <= ms <= MAX_MILLIS
    ensures r.Some? ==> r.value == ms
  {
    if MIN_MILLIS <= ms <= MAX_MILLIS then Some(ms) else None
  }

  /** The date of a `u64` millisecond field after the `as i64` cast. */
  function DateOfU64Millis(x: u64): Option<int>
  {
    FromTimestampMillis(AsI64(x))
  }

  /**
   * Which `u64` fields give a date: every count up to chrono's last
   * millisecond, none between that and 2^63, and, through the wrap-around,
   * the counts within |MIN_MILLIS| of 2^64, which land before 1970.
   */
  lemma U64Dates(x: u64)
    ensures x <= MAX_MILLIS ==> DateOfU64Millis(x) == Some(x)
    ensures MAX_MILLIS < x < TWO_TO_THE_63 ==> DateOfU64Millis(x).None?
    ensures TWO_TO_THE_63 <= x ==>
      (DateOfU64Millis(x).Some? <==> x >= TWO_TO_THE_64 + MIN_MILLIS)
    ensures TWO_TO_THE_63 <= x && DateOfU64Millis(x).Some? ==> DateOfU64Millis(x).value < 0
  {
  }

  // ---------------------------------------------------------------------
  // Calendar dates
  // ---------------------------------------------------------------------

  /** A calendar date (`NaiveDate`), years counted from 0. */
  datatype Date = Date(year: nat, month: nat, day: nat)

  /**
   * chrono's "%Y-%m-%d", which is also `NaiveDate`'s `Display`: the year
   * with at least four digits and a '+' when it has more, then the month
   * and the day with two digits each.
   */
  function IsoDate(d: Date): (r: string)
    ensures '/' !in r
  {
    var y := if d.year > 9999 then "+" + NatToString(d.year) else PadNat(d.year, 4);
    var text := y + "-" + PadNat(d.month, 2) + "-" + PadNat(d.day, 2);
    assert forall i :: 0 <= i < |text| ==> text[i] != '/';
    text
  }

  /** A leap year of the proleptic Gregorian calendar. */
  predicate LeapYear(y: nat)
  {
    y % 4 == 0 && (y % 100 != 0 || y % 400 == 0)
  }

  /** The number of days of month `m` (1 to 12) of year `y`. */
  function DaysInMonth(y: nat, m: nat): (r: nat)
    requires 1 <= m <= 12
    ensures 28 <= r <= 31
    ensures r == 29 <==> m == 2 && LeapYear(y)
  {
    if m == 2 then (if LeapYear(y) then 29 else 28)
    else if m == 4 || m == 6 || m == 9 || m == 11 then 30
    else 31
  }

  /** A day that exists in the calendar, as `NaiveDate::from_ymd_opt` accepts it. */
  predicate ValidDate(d: Date)
  {
    1 <= d.month <= 12 && 1 <= d.day <= DaysInMonth(d.year, d.month)
  }

  /** A date of years 0 to 9999 renders as exactly "YYYY-MM-DD". */
  lemma IsoDateShape(d: Date)
    requires d.year <= 9999 && d.month < 100 && d.day < 100
    ensures var r := IsoDate(d);
      |r| == 10 && r[4] == '-' && r[7] == '-'
      && forall i :: 0 <= i < 10 && i != 4 && i != 7 ==> IsAsciiDigit(r[i])
  {
    PadNatWidth(d.year, 4);
    PadNatWidth(d.month, 2);
    PadNatWidth(d.day, 2);
    var y, m, dd := PadNat(d.year, 4), PadNat(d.month, 2), PadNat(d.day, 2);
    var r := IsoDate(d);
    assert r == y + "-" + m + "-" + dd;
    forall i | 0 <= i < 10 && i != 4 && i != 7 ensures IsAsciiDigit(r[i]) {
      if i < 4 {
        assert r[i] == y[i];
      } else if i < 7 {
        assert r[i] == m[i - 5];
      } else {
        assert r[i] == dd[i - 8];
      }
    }
  }
}
