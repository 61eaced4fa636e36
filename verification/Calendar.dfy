/**
 The proleptic Gregorian calendar that segment names are rendered through.
 Days are counted from 1970-01-01; years start in March internally, so that the
 leap day is the last day of its year.
 */
module Calendar {

  datatype Date = Date(year: int, month: int, day: int)

  predicate IsLeap(y: int) {
    y % 4 == 0 && (y % 100 != 0 || y % 400 == 0)
  }

  function DaysInMonth(y: int, m: int): int
    requires 1 <= m <= 12
  {
    if m == 2 then (if IsLeap(y) then 29 else 28)
    else if m == 4 || m == 6 || m == 9 || m == 11 then 30
    else 31
  }

  predicate ValidDate(d: Date) {
    1 <= d.month <= 12 && 1 <= d.day <= DaysInMonth(d.year, d.month)
  }

  /** The reference definition: how a wall calendar turns the page. */
  function NextDay(d: Date): Date
    requires ValidDate(d)
  {
    if d.day < DaysInMonth(d.year, d.month) then d.(day := d.day + 1)
    else if d.month < 12 then Date(d.year, d.month + 1, 1)
    else Date(d.year + 1, 1, 1)
  }

  const EPOCH := Date(1970, 1, 1)
  const DAYS_PER_ERA := 146097
  const EPOCH_OFFSET := 719468

  /** Days from 1 March of year 0 to 1 March of year `y`. */
  function YearStart(y: int): int {
    365 * y + y / 4 - y / 100 + y / 400
  }

  /** Day of a March-based year on which month `mp` (0 = March) begins. */
  function MonthStart(mp: int): int {
    (153 * mp + 2) / 5
  }

  function MarchYear(d: Date): int {
    if d.month <= 2 then d.year - 1 else d.year
  }

  function MarchDay(d: Date): int {
    MonthStart(if d.month > 2 then d.month - 3 else d.month + 9) + d.day - 1
  }

  function DaysFromCivil(d: Date): int {
    YearStart(MarchYear(d)) + MarchDay(d) - EPOCH_OFFSET
  }

  /** A day's place in its 400-year era, century, four-year group and March-based year. */
  datatype Place = Place(era: int, century: int, quad: int, part: int, doy: int)

  function Year(p: Place): int {
    400 * p.era + 100 * p.century + 4 * p.quad + p.part
  }

  function Join(p: Place): int {
    DAYS_PER_ERA * p.era + 36524 * p.century + 1461 * p.quad + 365 * p.part + p.doy
  }

  function Split(z: int): Place {
    var inEra := z % DAYS_PER_ERA;
    var century := if inEra / 36524 > 3 then 3 else inEra / 36524;
    var inCentury := inEra - 36524 * century;
    var quad := inCentury / 1461;
    var inQuad := inCentury - 1461 * quad;
    var part := if inQuad / 365 > 3 then 3 else inQuad / 365;
    Place(z / DAYS_PER_ERA, century, quad, part, inQuad - 365 * part)
  }

  /** The date `n` days after 1970-01-01. */
  function CivilFromDays(n: int): Date {
    var p := Split(n + EPOCH_OFFSET);
    FromMarch(Year(p), p.doy)
  }

  /** The date `doy` days into the year that begins on 1 March of `y`. */
  function FromMarch(y: int, doy: int): Date {
    var mp := (5 * doy + 2) / 153;
    var day := doy - MonthStart(mp) + 1;
    if mp < 10 then Date(y, mp + 3, day) else Date(y + 1, mp - 9, day)
  }

  /** The last day of a March-based year exists exactly when the year that ends in it is leap. */
  predicate GoodPlace(p: Place) {
    && 0 <= p.century < 4 && 0 <= p.quad < 25 && 0 <= p.part < 4
    && 0 <= p.doy <= 365
    && (p.doy == 365 ==> LongYear(p))
  }

  predicate LongYear(p: Place) {
    p.part == 3 && (p.quad != 24 || p.century == 3)
  }

  lemma YearStartOfPlace(p: Place)
    requires GoodPlace(p)
    ensures YearStart(Year(p)) + p.doy == Join(p)
  {
    var y := Year(p);
    assert y / 4 == 100 * p.era + 25 * p.century + p.quad;
    assert y / 100 == 4 * p.era + p.century;
    assert y / 400 == p.era;
  }

  lemma LongYearIsLeap(p: Place)
    requires GoodPlace(p)
    ensures IsLeap(Year(p) + 1) <==> LongYear(p)
  {
    var y := Year(p) + 1;
    assert y == 4 * (100 * p.era + 25 * p.century + p.quad) + (p.part + 1);
    assert y % 4 == 0 <==> p.part == 3;
    assert y == 100 * (4 * p.era + p.century) + (4 * p.quad + p.part + 1);
    assert y % 100 == 0 <==> p.quad == 24 && p.part == 3;
    assert y == 400 * p.era + (100 * p.century + 4 * p.quad + p.part + 1);
    assert y % 400 == 0 <==> p.century == 3 && p.quad == 24 && p.part == 3;
  }

  lemma SplitJoin(z: int)
    ensures GoodPlace(Split(z)) && Join(Split(z)) == z
  {
  }

  lemma JoinSplit(p: Place)
    requires GoodPlace(p)
    ensures Split(Join(p)) == p
  {
    var inQuad := 365 * p.part + p.doy;
    var inCentury := 1461 * p.quad + inQuad;
    var inEra := 36524 * p.century + inCentury;
    assert inQuad <= 1460 && inCentury <= 36524 && (inCentury == 36524 ==> p.century == 3);
    assert Join(p) == DAYS_PER_ERA * p.era + inEra && 0 <= inEra < DAYS_PER_ERA;
    assert Join(p) / DAYS_PER_ERA == p.era && Join(p) % DAYS_PER_ERA == inEra;
  }

  lemma PlaceOfYear(y: int, doy: int) returns (p: Place)
    requires 0 <= doy <= 365
    requires doy == 365 ==> IsLeap(y + 1)
    ensures GoodPlace(p) && Year(p) == y && p.doy == doy
  {
    p := Place(y / 400, y % 400 / 100, y % 400 % 100 / 4, y % 400 % 100 % 4, 0);
    assert Year(p) == y;
    LongYearIsLeap(p);
    p := p.(doy := doy);
  }

  lemma FromMarchValid(y: int, doy: int)
    requires 0 <= doy <= 365
    requires doy == 365 ==> IsLeap(y + 1)
    ensures ValidDate(FromMarch(y, doy))
    ensures MarchYear(FromMarch(y, doy)) == y && MarchDay(FromMarch(y, doy)) == doy
  {
    var mp := (5 * doy + 2) / 153;
    assert mp == 0 || mp == 1 || mp == 2 || mp == 3 || mp == 4 || mp == 5 || mp == 6
        || mp == 7 || mp == 8 || mp == 9 || mp == 10 || mp == 11;
  }

  lemma MarchRoundTrip(d: Date)
    requires ValidDate(d)
    ensures 0 <= MarchDay(d) <= 365 && (MarchDay(d) == 365 ==> IsLeap(MarchYear(d) + 1))
    ensures FromMarch(MarchYear(d), MarchDay(d)) == d
  {
    assert d.month == 1 || d.month == 2 || d.month == 3 || d.month == 4 || d.month == 5 || d.month == 6
        || d.month == 7 || d.month == 8 || d.month == 9 || d.month == 10 || d.month == 11 || d.month == 12;
  }

  /** Every day number has a valid date, and the date gives the day number back. */
  lemma CivilRoundTrip(n: int)
    ensures ValidDate(CivilFromDays(n))
    ensures DaysFromCivil(CivilFromDays(n)) == n
  {
    var p := Split(n + EPOCH_OFFSET);
    SplitJoin(n + EPOCH_OFFSET);
    YearStartOfPlace(p);
    LongYearIsLeap(p);
    FromMarchValid(Year(p), p.doy);
  }

  lemma YearRoundTrip(y: int, doy: int)
    requires 0 <= doy <= 365
    requires doy == 365 ==> IsLeap(y + 1)
    ensures CivilFromDays(YearStart(y) + doy - EPOCH_OFFSET) == FromMarch(y, doy)
  {
    var p := PlaceOfYear(y, doy);
    YearStartOfPlace(p);
    JoinSplit(p);
  }

  lemma DaysFromCivilParts(d: Date)
    ensures DaysFromCivil(d) == YearStart(MarchYear(d)) + MarchDay(d) - EPOCH_OFFSET
  {
  }

  /** The converse round trip: no two valid dates share a day number. */
  lemma DaysRoundTrip(d: Date)
    requires ValidDate(d)
    ensures CivilFromDays(DaysFromCivil(d)) == d
  {
    hide *;
    MarchRoundTrip(d);
    YearRoundTrip(MarchYear(d), MarchDay(d));
    DaysFromCivilParts(d);
  }

  lemma YearLength(y: int)
    ensures YearStart(y + 1) == YearStart(y) + (if IsLeap(y + 1) then 366 else 365)
  {
    NextQuotients(y);
    MultiplesNest(y + 1);
  }

  lemma NextQuotients(y: int)
    ensures (y + 1) / 4 == y / 4 + (if (y + 1) % 4 == 0 then 1 else 0)
    ensures (y + 1) / 100 == y / 100 + (if (y + 1) % 100 == 0 then 1 else 0)
    ensures (y + 1) / 400 == y / 400 + (if (y + 1) % 400 == 0 then 1 else 0)
  {
  }

  lemma MultiplesNest(y: int)
    ensures y % 400 == 0 ==> y % 100 == 0
    ensures y % 100 == 0 ==> y % 4 == 0
  {
  }

  /** Turning the page adds one day, at the end of a March-based year too. */
  lemma NextDayMarch(d: Date)
    requires ValidDate(d)
    ensures ValidDate(NextDay(d))
    ensures var e := NextDay(d);
            if d.month == 2 && d.day == DaysInMonth(d.year, 2)
            then MarchYear(e) == MarchYear(d) + 1 && MarchDay(e) == 0
              && MarchDay(d) == (if IsLeap(MarchYear(d) + 1) then 365 else 364)
            else MarchYear(e) == MarchYear(d) && MarchDay(e) == MarchDay(d) + 1
  {
    assert d.month == 1 || d.month == 2 || d.month == 3 || d.month == 4 || d.month == 5 || d.month == 6
        || d.month == 7 || d.month == 8 || d.month == 9 || d.month == 10 || d.month == 11 || d.month == 12;
  }

  lemma NextDayIsNextNumber(d: Date)
    requires ValidDate(d)
    ensures ValidDate(NextDay(d))
    ensures DaysFromCivil(NextDay(d)) == DaysFromCivil(d) + 1
  {
    NextDayMarch(d);
    YearLength(MarchYear(d));
  }

  /**
   The rendering calendar is the Gregorian one: day 0 is 1970-01-01, and each
   following day is the next page of the reference calendar, for every integer day.
   */
  lemma CivilStartsAtEpoch()
    ensures CivilFromDays(0) == EPOCH
  {
    assert DaysFromCivil(EPOCH) == 0;
    hide *;
    DaysRoundTrip(EPOCH);
  }

  lemma CivilTurnsThePage(n: int, d: Date)
    requires d == CivilFromDays(n)
    ensures ValidDate(d)
    ensures CivilFromDays(n + 1) == NextDay(d)
  {
    hide *;
    CivilRoundTrip(n);
    NextDayIsNextNumber(d);
    DaysRoundTrip(NextDay(d));
  }
}
