/**
  Proleptic Gregorian day arithmetic.

  `CivilFromDays` is the daemon's log-timestamp conversion and `DaysFromCivil`
  the build tool's date parser; they live in different crates and are documented
  as inverses. Years are `i32` in both: the final cast of `civil_from_days`
  truncates, while `y - 1` in `days_from_civil` must not overflow.
 */
module Calendar {
  import opened Bits

  datatype Date = Date(year: int, month: int, day: int)

  const I32_MIN: int := -0x8000_0000
  const I32_MAX: int := 0x7fff_ffff
  const I64_MIN: int := -0x8000_0000_0000_0000
  const I64_MAX: int := 0x7fff_ffff_ffff_ffff

  /** The value an `i32` holds after a truncating cast of `v`. */
  function WrapI32(v: int): int {
    (v - I32_MIN) % 0x1_0000_0000 + I32_MIN
  }

  // ---------------------------------------------------------------- source

  /** Shift from 1970-01-01 to the start of the 400-year era at 0000-03-01. */
  const EPOCH_SHIFT := 719_468
  const DAYS_PER_ERA := 146_097

  function YearOfEra(doe: int): int {
    (doe - doe / 1460 + doe / 36_524 - doe / 146_096) / 365
  }

  /** Days of an era before its year `yoe` (years start on 1 March). */
  function YearStart(yoe: int): int {
    365 * yoe + yoe / 4 - yoe / 100
  }

  /** Days of a March-based year before its month `mp`. */
  function MonthStart(mp: int): int {
    (153 * mp + 2) / 5
  }

  /** `civil_from_days` before its final cast of the year to `i32`. */
  function CivilWide(z0: int): Date {
    var z := z0 + EPOCH_SHIFT;
    var era := z / DAYS_PER_ERA;
    var doe := z - era * DAYS_PER_ERA;
    var yoe := YearOfEra(doe);
    var doy := doe - YearStart(yoe);
    var mp := (5 * doy + 2) / 153;
    var d := doy - MonthStart(mp) + 1;
    var m := if mp < 10 then mp + 3 else mp - 9;
    var y := yoe + era * 400;
    Date(if m <= 2 then y + 1 else y, m, d)
  }

  function CivilFromDays(z: int): Date
    requires I64_MIN <= z && z + EPOCH_SHIFT <= I64_MAX
  {
    var c := CivilWide(z);
    Date(WrapI32(c.year), c.month, c.day)
  }

  /** `days_from_civil` once the year is March-based. */
  function DaysFromMarch(y: int, m: int, d: int): int {
    var era := y / 400;
    var yoe := y - era * 400;
    var mp := if m > 2 then m - 3 else m + 9;
    var doy := MonthStart(mp) + d - 1;
    era * DAYS_PER_ERA + (YearStart(yoe) + doy) - EPOCH_SHIFT
  }

  /** The same function without the `i32` width of its year. */
  function DaysWide(c: Date): int {
    DaysFromMarch(if c.month <= 2 then c.year - 1 else c.year, c.month, c.day)
  }

  /** The year is an `i32` and so is the March-based year computed from it. */
  predicate InWidth(c: Date) {
    I32_MIN <= (if c.month <= 2 then c.year - 1 else c.year) && c.year <= I32_MAX
  }

  function DaysFromCivil(c: Date): int
    requires InWidth(c)
  {
    DaysWide(c)
  }

  // ------------------------------------------------- the Gregorian calendar

  predicate IsLeap(y: int) {
    y % 4 == 0 && (y % 100 != 0 || y % 400 == 0)
  }

  function DaysInMonth(y: int, m: int): int {
    if m == 2 then (if IsLeap(y) then 29 else 28)
    else if m == 4 || m == 6 || m == 9 || m == 11 then 30
    else 31
  }

  predicate Valid(c: Date) {
    1 <= c.month <= 12 && 1 <= c.day <= DaysInMonth(c.year, c.month)
  }

  function NextDay(c: Date): Date {
    if c.day < DaysInMonth(c.year, c.month) then Date(c.year, c.month, c.day + 1)
    else if c.month < 12 then Date(c.year, c.month + 1, 1)
    else Date(c.year + 1, 1, 1)
  }

  // ---------------------------------------------------------------- proofs

  /** Length of the March-based year `yoe` of an era. */
  function YearLength(yoe: int): int {
    if IsLeap(yoe + 1) then 366 else 365
  }

  /** The division chain of `civil_from_days` inverts the era's year starts. */
  lemma YearOfEraInverts(yoe: int, doy: int)
    requires 0 <= yoe < 400 && 0 <= doy < YearLength(yoe)
    ensures 0 <= YearStart(yoe) + doy < DAYS_PER_ERA
    ensures YearOfEra(YearStart(yoe) + doy) == yoe
  {
    // yoe == 100c + 4q + r, so YearStart(yoe) == 36524c + 1461q + 365r.
    var c, q, r := yoe / 100, yoe % 100 / 4, yoe % 4;
    YearParts(yoe, c, q, r);
    LeapParts(c, q, r);
    DivisionChain(c, q, r, doy);
  }

  lemma YearParts(yoe: int, c: int, q: int, r: int)
    requires 0 <= yoe < 400 && c == yoe / 100 && q == yoe % 100 / 4 && r == yoe % 4
    ensures yoe == 100 * c + 4 * q + r && yoe / 4 == 25 * c + q
    ensures 0 <= c < 4 && 0 <= q < 25 && 0 <= r < 4
  {
  }

  /** In these parts a March-based year is long exactly when it ends a 4-year
      cycle that does not end a century, or ends the era. */
  lemma LeapParts(c: int, q: int, r: int)
    requires 0 <= c < 4 && 0 <= q < 25 && 0 <= r < 4
    ensures IsLeap(100 * c + 4 * q + r + 1) <==> r == 3 && (q < 24 || c == 3)
  {
    var y := 100 * c + 4 * q + r + 1;
    assert y % 4 == (r + 1) % 4;
    if r == 3 {
      assert y == 100 * c + 4 * (q + 1);
      assert y % 100 == 0 <==> q == 24;
    }
  }

  lemma DivisionChain(c: int, q: int, r: int, doy: int)
    requires 0 <= c < 4 && 0 <= q < 25 && 0 <= r < 4
    requires 0 <= doy < 366 && (doy == 365 ==> r == 3 && (q < 24 || c == 3))
    ensures YearOfEra(36_524 * c + 1461 * q + 365 * r + doy) == 100 * c + 4 * q + r
  {
    var doe := 36_524 * c + 1461 * q + 365 * r + doy;
    var t := if 24 * c + q + 365 * r + doy >= 1460 then 1 else 0;
    var last := if doe == 146_096 then 1 else 0;
    assert doe / 1460 == 25 * c + q + t;
    assert doe / 36_524 == c + last;
    assert doe / 146_096 == last;
  }

  /** Every day of an era lies in exactly one of its years. */
  lemma YearOfEraBounds(doe: int)
    requires 0 <= doe < DAYS_PER_ERA
    ensures 0 <= YearOfEra(doe) < 400
    ensures 0 <= doe - YearStart(YearOfEra(doe)) < YearLength(YearOfEra(doe))
  {
    // Exhibit the year by peeling centuries, then 4-year cycles, then years.
    var c := if doe == 146_096 then 3 else doe / 36_524;
    var inC := doe - 36_524 * c;
    var q := inC / 1461;
    var inQ := inC - 1461 * q;
    var r := if inQ == 1460 then 3 else inQ / 365;
    var yoe := 100 * c + 4 * q + r;
    assert yoe / 4 == 25 * c + q && yoe / 100 == c;
    YearOfEraInverts(yoe, inQ - 365 * r);
  }

  lemma MonthInverts(mp: int, k: int)
    requires 0 <= mp < 12 && 0 <= k < MonthStart(mp + 1) - MonthStart(mp)
    ensures (5 * (MonthStart(mp) + k) + 2) / 153 == mp
  {
  }

  lemma MonthBounds(doy: int)
    requires 0 <= doy <= 365
    ensures var mp := (5 * doy + 2) / 153;
            0 <= mp < 12 && MonthStart(mp) <= doy < MonthStart(mp + 1)
  {
  }

  function MarchMonth(m: int): int { if m > 2 then m - 3 else m + 9 }

  /** Month lengths of the March-based year are the calendar's, February last. */
  lemma MonthLengths(y: int, m: int)
    requires 1 <= m <= 12
    ensures var mp := MarchMonth(m);
            DaysInMonth(y, m) == if m == 2 then YearLength(y - 1) - MonthStart(11)
                                 else MonthStart(mp + 1) - MonthStart(mp)
  {
  }

  lemma EraSplit(era: int, k: int)
    requires 0 <= k < 400
    ensures (era * 400 + k) / 400 == era && (era * 400 + k) % 400 == k
    ensures IsLeap(era * 400 + k + 1) == IsLeap(k + 1)
  {
    Shift4(100 * era, k + 1);
    Shift100(4 * era, k + 1);
    Shift400(era, k + 1);
    assert 400 * era + (k + 1) == 100 * (4 * era) + (k + 1) == 4 * (100 * era) + (k + 1);
  }

  lemma Shift4(a: int, k: int) ensures (4 * a + k) % 4 == k % 4 {}
  lemma Shift100(a: int, k: int) ensures (100 * a + k) % 100 == k % 100 {}
  lemma Shift400(a: int, k: int) ensures (400 * a + k) % 400 == k % 400 {}

  /** Position of a day: era, March-based year of it, month, day of month from 0. */
  datatype Parts = Parts(era: int, yoe: int, mp: int, k: int) {
    predicate Ok() {
      && 0 <= yoe < 400 && 0 <= mp < 12 && 0 <= k < MonthStart(mp + 1) - MonthStart(mp)
      && MonthStart(mp) + k < YearLength(yoe)
    }
    function Number(): int {
      era * DAYS_PER_ERA + (YearStart(yoe) + (MonthStart(mp) + k)) - EPOCH_SHIFT
    }
    function Civil(): Date {
      if mp < 10 then Date(yoe + era * 400, mp + 3, k + 1) else Date(yoe + era * 400 + 1, mp - 9, k + 1)
    }
  }

  lemma CivilOfParts(p: Parts)
    requires p.Ok()
    ensures CivilWide(p.Number()) == p.Civil()
  {
    var doy := MonthStart(p.mp) + p.k;
    var doe := YearStart(p.yoe) + doy;
    assert doy >= 0 by { MonthStartsAfter(p.mp); }
    YearOfEraInverts(p.yoe, doy);
    MonthInverts(p.mp, p.k);
    DivUnique(p.Number() + EPOCH_SHIFT, DAYS_PER_ERA, p.era, doe);
    CivilOfDoe(p.Number(), p.era, doe, p.yoe, doy, p.mp);
  }

  lemma MonthStartsAfter(mp: int)
    requires 0 <= mp
    ensures MonthStart(mp) >= 0
  {
  }

  /** `CivilWide` once its divisions are known. */
  lemma CivilOfDoe(z: int, era: int, doe: int, yoe: int, doy: int, mp: int)
    requires (z + EPOCH_SHIFT) / DAYS_PER_ERA == era && z + EPOCH_SHIFT - era * DAYS_PER_ERA == doe
    requires YearOfEra(doe) == yoe && doe - YearStart(yoe) == doy && (5 * doy + 2) / 153 == mp
    requires 0 <= mp < 12
    ensures var d := doy - MonthStart(mp) + 1;
            CivilWide(z) == if mp < 10 then Date(yoe + era * 400, mp + 3, d)
                            else Date(yoe + era * 400 + 1, mp - 9, d)
  {
    hide YearOfEra, YearStart, MonthStart;
  }

  lemma DaysOfParts(p: Parts)
    requires p.Ok()
    ensures Valid(p.Civil()) && DaysWide(p.Civil()) == p.Number()
  {
    var c := p.Civil();
    EraSplit(p.era, p.yoe);
    MonthLengths(c.year, c.month);
    hide YearStart, IsLeap;
  }

  lemma PartsOfNumber(z: int) returns (p: Parts)
    ensures p.Ok() && p.Number() == z
  {
    var era := (z + EPOCH_SHIFT) / DAYS_PER_ERA;
    var doe := z + EPOCH_SHIFT - era * DAYS_PER_ERA;
    YearOfEraBounds(doe);
    var doy := doe - YearStart(YearOfEra(doe));
    MonthBounds(doy);
    var mp := (5 * doy + 2) / 153;
    p := Parts(era, YearOfEra(doe), mp, doy - MonthStart(mp));
  }

  lemma PartsOfDate(c: Date) returns (p: Parts)
    requires Valid(c)
    ensures p.Ok() && p.Civil() == c
  {
    var y := if c.month <= 2 then c.year - 1 else c.year;
    var era := y / 400;
    p := Parts(era, y - era * 400, MarchMonth(c.month), c.day - 1);
    EraSplit(era, p.yoe);
    MonthLengths(c.year, c.month);
  }

  /** Every day number denotes a real calendar date, and that date's day number. */
  lemma CivilRoundTrip(z: int)
    ensures Valid(CivilWide(z))
    ensures DaysWide(CivilWide(z)) == z
  {
    hide *;
    var p := PartsOfNumber(z);
    CivilOfParts(p);
    DaysOfParts(p);
  }

  /** Every calendar date is the date of its day number. */
  lemma DaysRoundTrip(c: Date)
    requires Valid(c)
    ensures CivilWide(DaysWide(c)) == c
  {
    hide *;
    var p := PartsOfDate(c);
    CivilOfParts(p);
    DaysOfParts(p);
  }

  /** Consecutive calendar dates have consecutive day numbers. */
  lemma NextDayIsNext(c: Date)
    requires Valid(c)
    ensures Valid(NextDay(c)) && DaysWide(NextDay(c)) == DaysWide(c) + 1
  {
    if c.day < DaysInMonth(c.year, c.month) {
      hide YearStart, MonthStart, DaysInMonth;
    } else if c.month == 2 {
      FebruaryEnds(c.year);
    } else {
      MonthEnds(c.year, c.month);
    }
  }

  /** The months of one March-based year follow one another. */
  lemma MonthEnds(y: int, m: int)
    requires 1 <= m <= 12 && m != 2
    ensures var next := if m < 12 then Date(y, m + 1, 1) else Date(y + 1, 1, 1);
            DaysWide(next) == DaysWide(Date(y, m, DaysInMonth(y, m))) + 1 && Valid(next)
  {
    MonthLengths(y, m);
    hide YearStart, MonthStart, YearLength, IsLeap;
  }

  /** Its last day is the last of February. */
  lemma FebruaryEnds(y: int)
    ensures DaysWide(Date(y, 3, 1)) == DaysWide(Date(y, 2, DaysInMonth(y, 2))) + 1
  {
    NextYearStart(y - 1);
    MonthLengths(y, 2);
    assert MonthStart(0) == 0;
    hide YearStart, MonthStart, YearLength, IsLeap, DaysInMonth;
  }

  /** Year lengths add up across years and eras. */
  lemma NextYearStart(y: int)
    ensures DaysFromMarch(y + 1, 3, 1) == DaysFromMarch(y, 3, 1) + YearLength(y)
  {
    var era := y / 400;
    var yoe := y - era * 400;
    EraSplit(era, yoe);
    if yoe < 399 {
      EraSplit(era, yoe + 1);
      YearStartStep(yoe);
    } else {
      EraSplit(era + 1, 0);
    }
  }

  lemma YearStartStep(yoe: int)
    requires 0 <= yoe < 399
    ensures YearStart(yoe + 1) == YearStart(yoe) + YearLength(yoe)
  {
    assert (yoe + 1) / 4 == yoe / 4 + if (yoe + 1) % 4 == 0 then 1 else 0;
    assert (yoe + 1) / 100 == yoe / 100 + if (yoe + 1) % 100 == 0 then 1 else 0;
  }

  /** The date of the next day is the next date: with 1970-01-01 as day 0 this
      determines `CivilWide` everywhere. */
  lemma CivilSuccessor(z: int)
    ensures CivilWide(z + 1) == NextDay(CivilWide(z))
  {
    hide *;
    CivilRoundTrip(z);
    NextDayIsNext(CivilWide(z));
    DaysRoundTrip(NextDay(CivilWide(z)));
  }

  /** 1 January of year `i32::MIN` and 31 December of year `i32::MAX`. */
  const FIRST_DAY := -784_353_015_833
  const LAST_DAY := 784_351_576_776

  lemma Landmarks()
    ensures CivilWide(0) == Date(1970, 1, 1)
    ensures DaysWide(Date(I32_MIN, 1, 1)) == FIRST_DAY
    ensures DaysWide(Date(I32_MAX + 1, 1, 1)) == LAST_DAY + 1
  {
    CivilOfParts(Parts(4, 369, 10, 0));
    DaysOfParts(Parts(-5_368_710, 351, 10, 0));
    DaysOfParts(Parts(5_368_709, 47, 10, 0));
    hide CivilWide, DaysWide;
  }

  lemma NewYearBound(c: Date, y: int)
    requires Valid(c)
    ensures c.year < y <==> DaysWide(c) < DaysWide(Date(y, 1, 1))
  {
  }

  /** The logged date is the true one exactly when its year fits an `i32`, a range
      of day numbers a caller can test. */
  lemma CivilExactly(z: int)
    requires I64_MIN <= z && z + EPOCH_SHIFT <= I64_MAX
    ensures CivilFromDays(z) == CivilWide(z) <==> FIRST_DAY <= z <= LAST_DAY
  {
    hide *;
    var c := CivilWide(z);
    CastKeeps(z);
    CivilRoundTrip(z);
    NewYearBound(c, I32_MIN);
    NewYearBound(c, I32_MAX + 1);
    Landmarks();
  }

  /** The cast keeps exactly the years below `I32_MAX + 1` and not below `I32_MIN`. */
  lemma CastKeeps(z: int)
    requires I64_MIN <= z && z + EPOCH_SHIFT <= I64_MAX
    ensures CivilFromDays(z) == CivilWide(z) <==> !(CivilWide(z).year < I32_MIN) && CivilWide(z).year < I32_MAX + 1
  {
    WrapKeeps(CivilWide(z).year);
    hide CivilWide, WrapI32;
  }

  lemma WrapKeeps(v: int)
    ensures WrapI32(v) == v <==> I32_MIN <= v <= I32_MAX
  {
  }

  /** Day to date and back, on every day of an `i32` year; only the first two
      months of year `i32::MIN` are outside `days_from_civil`'s own arithmetic. */
  lemma InverseOnDays(z: int)
    requires FIRST_DAY <= z <= LAST_DAY
    ensures var c := CivilFromDays(z);
            if c.year == I32_MIN && c.month <= 2 then !InWidth(c)
            else InWidth(c) && DaysFromCivil(c) == z
  {
    CivilExactly(z);
    var c := CivilWide(z);
    assert I32_MIN <= c.year <= I32_MAX;
    assert InWidth(c) <==> !(c.year == I32_MIN && c.month <= 2);
    assert InWidth(c) ==> DaysFromCivil(c) == DaysWide(c);
    hide *;
    CivilRoundTrip(z);
  }

  /** Date to day and back, on every date `days_from_civil` can take. */
  lemma InverseOnDates(c: Date)
    requires Valid(c) && InWidth(c)
    ensures FIRST_DAY <= DaysFromCivil(c) <= LAST_DAY
    ensures CivilFromDays(DaysFromCivil(c)) == c
  {
    var z := DaysFromCivil(c);
    assert z == DaysWide(c);
    assert I32_MIN <= c.year <= I32_MAX;
    {
      hide *;
      NewYearBound(c, I32_MIN);
      NewYearBound(c, I32_MAX + 1);
      Landmarks();
      DaysRoundTrip(c);
      assert FIRST_DAY <= z <= LAST_DAY;
    }
    CivilExactly(z);
  }
}
