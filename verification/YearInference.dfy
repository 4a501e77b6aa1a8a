/** The year of a stamp without one (causal.py): syslog stamps in the format of section 4.1.2 of
    RFC 3164 are placed next to an anchor, across the turn of the year if need be. */
module YearInference {

  const DAY: int := 86_400_000_000

  /** A calendar date and the microseconds since its midnight. */
  datatype Stamp = Stamp(year: nat, month: nat, day: nat, clock: nat)

  predicate IsLeap(year: nat) {
    year % 4 == 0 && (year % 100 != 0 || year % 400 == 0)
  }

  function MonthDays(month: nat, leap: bool): nat {
    if month == 2 then (if leap then 29 else 28)
    else if month == 4 || month == 6 || month == 9 || month == 11 then 30
    else 31
  }

  /** A stamp the parser can produce. */
  predicate Valid(s: Stamp) {
    && 1 <= s.year && 1 <= s.month <= 12 && s.clock < DAY
    && 1 <= s.day <= MonthDays(s.month, IsLeap(s.year))
  }

  function DaysBefore(month: nat, leap: bool): nat {
    if month <= 1 then 0 else DaysBefore(month - 1, leap) + MonthDays(month - 1, leap)
  }

  function YearDays(year: nat): nat {
    if IsLeap(year) then 366 else 365
  }

  function NewYear(year: nat): nat {
    if year <= 1 then 0 else NewYear(year - 1) + YearDays(year - 1)
  }

  /** Microseconds on the calendar's own clock. */
  function Instant(s: Stamp): int {
    (NewYear(s.year) + DaysBefore(s.month, IsLeap(s.year)) + s.day) * DAY + s.clock
  }

  function Distance(a: Stamp, b: Stamp): nat {
    var d := Instant(a) - Instant(b);
    if d < 0 then -d else d
  }

  predicate IsLate(s: Stamp) {
    s.month == 11 || s.month == 12
  }

  predicate IsEarly(s: Stamp) {
    s.month == 1 || s.month == 2
  }

  /** `_is_rollover_pair` */
  predicate RolloverPair(parsed: Stamp, anchor: Stamp) {
    (IsLate(parsed) && IsEarly(anchor)) || (IsEarly(parsed) && IsLate(anchor))
  }

  /** `_with_year`: a leap day falls back to the 28th in a common year. */
  function WithYear(s: Stamp, year: nat): Stamp {
    if s.month == 2 && s.day == 29 && !IsLeap(year) then s.(year := year, day := 28) else s.(year := year)
  }

  /** The year a stamp belongs to next to its anchor. */
  function YearBy(parsed: Stamp, anchor: Stamp): nat
    requires anchor.year > 0
  {
    if IsLate(parsed) && IsEarly(anchor) then anchor.year - 1
    else if IsEarly(parsed) && IsLate(anchor) then anchor.year + 1
    else anchor.year
  }

  // --------------------------------------------------------- where the dates lie

  lemma EarlyDays(s: Stamp)
    requires Valid(s) && IsEarly(s)
    ensures NewYear(s.year) * DAY <= Instant(s) - DAY
    ensures Instant(s) < (NewYear(s.year) + 61) * DAY
    ensures !IsLeap(s.year) ==> Instant(s) < (NewYear(s.year) + 60) * DAY
  {
    assert DaysBefore(2, IsLeap(s.year)) == DaysBefore(1, IsLeap(s.year)) + 31;
    var days := NewYear(s.year) + DaysBefore(s.month, IsLeap(s.year)) + s.day;
    Scaled(NewYear(s.year) + 1, days);
  }

  lemma LateDays(s: Stamp)
    requires Valid(s) && IsLate(s)
    ensures (NewYear(s.year) + YearDays(s.year) - 60) * DAY <= Instant(s)
    ensures Instant(s) < (NewYear(s.year + 1) + 1) * DAY
  {
    var leap := IsLeap(s.year);
    BeforeNovember(leap);
    var days := NewYear(s.year) + DaysBefore(s.month, leap) + s.day;
    Scaled(NewYear(s.year) + YearDays(s.year) - 60, days);
    Scaled(days, NewYear(s.year + 1));
  }

  lemma BeforeNovember(leap: bool)
    ensures DaysBefore(11, leap) == (if leap then 305 else 304) && DaysBefore(12, leap) == DaysBefore(11, leap) + 30
  {
    assert DaysBefore(2, leap) == 31 && DaysBefore(3, leap) == if leap then 60 else 59;
    assert DaysBefore(4, leap) == DaysBefore(3, leap) + 31 && DaysBefore(5, leap) == DaysBefore(4, leap) + 30;
    assert DaysBefore(6, leap) == DaysBefore(5, leap) + 31 && DaysBefore(7, leap) == DaysBefore(6, leap) + 30;
    assert DaysBefore(8, leap) == DaysBefore(7, leap) + 31 && DaysBefore(9, leap) == DaysBefore(8, leap) + 31;
    assert DaysBefore(10, leap) == DaysBefore(9, leap) + 30 && DaysBefore(11, leap) == DaysBefore(10, leap) + 31;
  }

  lemma Scaled(a: int, b: int)
    requires a <= b
    ensures a * DAY <= b * DAY
  {
  }

  lemma WithYearValid(s: Stamp, year: nat)
    requires Valid(s) && year > 0
    ensures Valid(WithYear(s, year)) && WithYear(s, year).month == s.month
  {
  }

  /** A late stamp is 60 days or fewer before new year, an early one within 60 days after. */
  lemma AcrossNewYear(late: Stamp, early: Stamp)
    requires Valid(late) && Valid(early) && IsLate(late) && IsEarly(early)
    ensures early.year == late.year + 1 ==> 0 < Instant(early) - Instant(late) < 121 * DAY
    ensures early.year <= late.year ==> Instant(late) - Instant(early) >= 243 * DAY
    ensures early.year > late.year + 1 ==> Instant(early) - Instant(late) >= 364 * DAY
  {
    EarlyDays(early);
    LateDays(late);
    if early.year > late.year + 1 { NewYearGrows(late.year + 2, early.year); }
    if early.year <= late.year { NewYearGrows(early.year, late.year); }
  }

  lemma {:induction false} NewYearGrows(a: nat, b: nat)
    requires 1 <= a <= b
    ensures NewYear(a) <= NewYear(b)
  {
    if a < b { NewYearGrows(a, b - 1); }
  }

  /** Of the three years tried, the one next to the anchor across new year is the nearest. */
  lemma NearestYear(parsed: Stamp, anchor: Stamp, year: nat)
    requires Valid(parsed) && Valid(anchor) && anchor.year > 1 && RolloverPair(parsed, anchor)
    requires anchor.year - 1 <= year <= anchor.year + 1
    ensures Distance(WithYear(parsed, YearBy(parsed, anchor)), anchor) < 121 * DAY
    ensures year != YearBy(parsed, anchor) ==> Distance(WithYear(parsed, year), anchor) >= 243 * DAY
  {
    WithYearValid(parsed, year);
    WithYearValid(parsed, YearBy(parsed, anchor));
    if IsLate(parsed) {
      AcrossNewYear(WithYear(parsed, year), anchor);
      AcrossNewYear(WithYear(parsed, YearBy(parsed, anchor)), anchor);
    } else {
      AcrossNewYear(anchor, WithYear(parsed, year));
      AcrossNewYear(anchor, WithYear(parsed, YearBy(parsed, anchor)));
    }
  }

  /** `_restamp_yearless`: the nearest of three years decides, and the choice is the year the
      months alone say. */
  method Restamp(parsed: Stamp, anchor: Stamp) returns (r: Stamp)
    requires Valid(parsed) && Valid(anchor) && anchor.year > 1
    ensures r == WithYear(parsed, YearBy(parsed, anchor))
    ensures r.year == if parsed.month >= 11 && anchor.month <= 2 then anchor.year - 1
                      else if parsed.month <= 2 && anchor.month >= 11 then anchor.year + 1
                      else anchor.year
    ensures RolloverPair(parsed, anchor) ==>
              forall y: nat :: anchor.year - 1 <= y <= anchor.year + 1 ==>
                Distance(r, anchor) <= Distance(WithYear(parsed, y), anchor)
    ensures r.month == parsed.month && r.clock == parsed.clock && Valid(r)
    ensures r.day == if parsed.month == 2 && parsed.day == 29 && !IsLeap(r.year) then 28 else parsed.day
  {
    if !RolloverPair(parsed, anchor) {
      return WithYear(parsed, anchor.year);
    }
    forall y: nat | anchor.year - 1 <= y <= anchor.year + 1
      ensures Distance(WithYear(parsed, YearBy(parsed, anchor)), anchor) <= Distance(WithYear(parsed, y), anchor)
    {
      NearestYear(parsed, anchor, y);
    }
    var year := anchor.year - 1;
    r := WithYear(parsed, year);
    var nearest := Distance(r, anchor);
    NearestYear(parsed, anchor, year);
    while year < anchor.year + 1
      invariant anchor.year - 1 <= year <= anchor.year + 1
      invariant nearest == Distance(r, anchor)
      invariant YearBy(parsed, anchor) <= year ==> r == WithYear(parsed, YearBy(parsed, anchor))
      invariant YearBy(parsed, anchor) > year ==> nearest >= 243 * DAY
    {
      year := year + 1;
      NearestYear(parsed, anchor, year);
      var candidate := WithYear(parsed, year);
      var delta := Distance(candidate, anchor);
      if delta < nearest {
        r, nearest := candidate, delta;
      }
    }
  }

  /** A stamp on the other side of new year lands within 121 days of its anchor. */
  lemma RolloverLandsNear(parsed: Stamp, anchor: Stamp)
    requires Valid(parsed) && Valid(anchor) && anchor.year > 1 && RolloverPair(parsed, anchor)
    ensures Distance(WithYear(parsed, YearBy(parsed, anchor)), anchor) < 121 * DAY
  {
    NearestYear(parsed, anchor, anchor.year);
  }

  /** November and December stay before January and February exactly under a winter anchor. */
  lemma LateBeforeEarlyIff(late: Stamp, early: Stamp, anchor: Stamp)
    requires Valid(late) && Valid(early) && Valid(anchor) && anchor.year > 1
    requires IsLate(late) && IsEarly(early)
    ensures Instant(WithYear(late, YearBy(late, anchor))) < Instant(WithYear(early, YearBy(early, anchor))) <==>
              IsLate(anchor) || IsEarly(anchor)
  {
    WithYearValid(late, YearBy(late, anchor));
    WithYearValid(early, YearBy(early, anchor));
    AcrossNewYear(WithYear(late, YearBy(late, anchor)), WithYear(early, YearBy(early, anchor)));
  }
}
