/** Calendar rules over the Gregorian calendar (section 3.2.1 of ISO 8601:2004): for each of ten
    rules the first qualifying date on or after a given date, and the next one after a qualifying
    date. Dates travel as YYYYMMDD numbers (section 4.1.2.2). The boost date type is taken as a
    Gregorian date between 1400-01-01 and 9999-12-31 with its documented operations; leaving that
    range, or parsing something that is not a date, is an exception. */
module Calendar {
  import opened Common

  datatype Date = Date(y: nat, m: nat, d: nat)

  datatype Error = BadDate | OutOfRange | CodingError

  // ---- The Gregorian calendar ----

  predicate Leap(y: nat) {
    y % 4 == 0 && (y % 100 != 0 || y % 400 == 0)
  }

  function DaysInMonth(y: nat, m: nat): (n: nat)
    ensures 28 <= n <= 31
  {
    if m == 2 then (if Leap(y) then 29 else 28)
    else if m == 4 || m == 6 || m == 9 || m == 11 then 30
    else 31
  }

  predicate Proper(x: Date) {
    1 <= x.y && 1 <= x.m <= 12 && 1 <= x.d <= DaysInMonth(x.y, x.m)
  }

  /** The range of boost::gregorian::date. */
  predicate Valid(x: Date) {
    Proper(x) && 1400 <= x.y <= 9999
  }

  predicate Less(a: Date, b: Date) {
    a.y < b.y || (a.y == b.y && (a.m < b.m || (a.m == b.m && a.d < b.d)))
  }

  function DaysInYear(y: nat): (n: nat)
    ensures n >= 365
  {
    if Leap(y) then 366 else 365
  }

  function DaysBeforeYear(y: nat): nat
    requires 1 <= y
  {
    if y == 1 then 0 else DaysBeforeYear(y - 1) + DaysInYear(y - 1)
  }

  function DaysBeforeMonth(y: nat, m: nat): nat
    requires 1 <= m <= 13
  {
    if m == 1 then 0 else DaysBeforeMonth(y, m - 1) + DaysInMonth(y, m - 1)
  }

  /** Days counted from 0001-01-01, which is day 1. */
  function DayNumber(x: Date): (n: nat)
    requires Proper(x)
    ensures n >= 1
  {
    DaysBeforeYear(x.y) + DaysBeforeMonth(x.y, x.m) + x.d
  }

  function NextDay(x: Date): (r: Date)
    requires Proper(x)
    ensures Proper(r)
  {
    if x.d < DaysInMonth(x.y, x.m) then Date(x.y, x.m, x.d + 1)
    else if x.m < 12 then Date(x.y, x.m + 1, 1)
    else Date(x.y + 1, 1, 1)
  }

  lemma FourthYears(y: nat)
    requires 1 <= y
    ensures y / 4 == (y - 1) / 4 + (if y % 4 == 0 then 1 else 0)
  {
  }

  lemma HundredthYears(y: nat)
    requires 1 <= y
    ensures y / 100 == (y - 1) / 100 + (if y % 100 == 0 then 1 else 0)
  {
  }

  lemma FourHundredthYears(y: nat)
    requires 1 <= y
    ensures y / 400 == (y - 1) / 400 + (if y % 400 == 0 then 1 else 0)
  {
  }

  lemma CenturyIsFourth(y: nat)
    requires y % 100 == 0
    ensures y % 4 == 0
  {
    var c := y / 100;
    assert y == 100 * c;
    RemainderUnique(y, 4, 25 * c, 0);
  }

  lemma FourHundredthIsCentury(y: nat)
    requires y % 400 == 0
    ensures y % 100 == 0
  {
    var c := y / 400;
    assert y == 400 * c;
    RemainderUnique(y, 100, 4 * c, 0);
  }

  /** The leap years before a year, counted by division. */
  lemma {:induction false} DaysBeforeYearClosed(y: nat)
    requires 1 <= y
    ensures DaysBeforeYear(y) == 365 * (y - 1) + (y - 1) / 4 - (y - 1) / 100 + (y - 1) / 400
  {
    if y > 1 {
      DaysBeforeYearClosed(y - 1);
      FourthYears(y - 1);
      HundredthYears(y - 1);
      FourHundredthYears(y - 1);
      if (y - 1) % 100 == 0 {
        CenturyIsFourth(y - 1);
      }
      if (y - 1) % 400 == 0 {
        FourHundredthIsCentury(y - 1);
      }
    }
  }

  /** Twelve months fill the year. */
  lemma MonthsFillYear(y: nat)
    requires 1 <= y
    ensures DaysBeforeMonth(y, 13) == DaysInYear(y)
  {
    var feb := DaysInMonth(y, 2);
    assert DaysBeforeMonth(y, 1) == 0 && DaysBeforeMonth(y, 2) == 31;
    assert DaysBeforeMonth(y, 3) == 31 + feb;
    assert DaysBeforeMonth(y, 4) == 62 + feb && DaysBeforeMonth(y, 5) == 92 + feb;
    assert DaysBeforeMonth(y, 6) == 123 + feb && DaysBeforeMonth(y, 7) == 153 + feb;
    assert DaysBeforeMonth(y, 8) == 184 + feb && DaysBeforeMonth(y, 9) == 215 + feb;
    assert DaysBeforeMonth(y, 10) == 245 + feb && DaysBeforeMonth(y, 11) == 276 + feb;
    assert DaysBeforeMonth(y, 12) == 306 + feb;
  }

  /** The day after has the next day number: the numbering has no gaps. */
  lemma NextDayNumber(x: Date)
    requires Proper(x)
    ensures DayNumber(NextDay(x)) == DayNumber(x) + 1
  {
    MonthsFillYear(x.y);
  }

  lemma {:induction false} MonthsGrow(y: nat, m: nat, n: nat)
    requires 1 <= m <= n <= 13
    ensures DaysBeforeMonth(y, m) <= DaysBeforeMonth(y, n)
    ensures m < n ==> DaysBeforeMonth(y, m) + DaysInMonth(y, m) <= DaysBeforeMonth(y, n)
  {
    if m < n {
      MonthsGrow(y, m, n - 1);
    }
  }

  lemma {:induction false} YearsGrow(a: nat, b: nat)
    requires 1 <= a <= b
    ensures DaysBeforeYear(a) <= DaysBeforeYear(b)
    ensures a < b ==> DaysBeforeYear(a + 1) <= DaysBeforeYear(b)
  {
    if a < b {
      YearsGrow(a, b - 1);
    }
  }

  lemma DayNumberGrows(a: Date, b: Date)
    requires Proper(a) && Proper(b) && Less(a, b)
    ensures DayNumber(a) < DayNumber(b)
  {
    if a.y < b.y {
      YearsGrow(a.y, b.y);
      MonthsFillYear(a.y);
      MonthsGrow(a.y, a.m, 13);
      MonthsGrow(a.y, a.m + 1, 13);
    } else if a.m < b.m {
      MonthsGrow(a.y, a.m, b.m);
    }
  }

  /** Day numbers are an order isomorphism: dates compare as their day numbers do. */
  lemma OrderIsDayNumber(a: Date, b: Date)
    requires Proper(a) && Proper(b)
    ensures Less(a, b) <==> DayNumber(a) < DayNumber(b)
    ensures a == b <==> DayNumber(a) == DayNumber(b)
  {
    if Less(a, b) {
      DayNumberGrows(a, b);
    } else if a != b {
      DayNumberGrows(b, a);
    }
  }

  /** The date `k` days later. */
  function PlusDays(x: Date, k: nat): (r: Date)
    requires Proper(x)
    ensures Proper(r)
    decreases k
  {
    if k == 0 then x else PlusDays(NextDay(x), k - 1)
  }

  lemma {:induction false} PlusDaysNumber(x: Date, k: nat)
    requires Proper(x)
    ensures DayNumber(PlusDays(x, k)) == DayNumber(x) + k
    decreases k
  {
    if k > 0 {
      NextDayNumber(x);
      PlusDaysNumber(NextDay(x), k - 1);
    }
  }

  /** The date with a given day number. */
  function DateOf(n: nat): (r: Date)
    requires n >= 1
    ensures Proper(r)
  {
    PlusDays(Date(1, 1, 1), n - 1)
  }

  lemma DateOfNumber(n: nat)
    requires n >= 1
    ensures DayNumber(DateOf(n)) == n
  {
    FirstDayOn(Date(1, 1, 1), n - 1);
  }

  lemma FirstDayOn(x: Date, k: nat)
    requires x.y == 1 && x.m == 1 && x.d == 1
    ensures DayNumber(PlusDays(x, k)) == k + 1
  {
    PlusDaysNumber(x, k);
  }

  /** Day numbers and dates are in one-to-one correspondence. */
  lemma DayNumberBijection(n: nat, x: Date)
    requires n >= 1 && Proper(x)
    ensures DayNumber(DateOf(n)) == n
    ensures DayNumber(x) >= 1 && DateOf(DayNumber(x)) == x
  {
    DateOfNumber(n);
    var m := DayNumber(x);
    DateOfNumber(m);
    OrderIsDayNumber(DateOf(m), x);
  }

  /** 0 for Sunday to 6 for Saturday; 2020-04-20 was a Monday. */
  function DayOfWeek(x: Date): nat
    requires Proper(x)
  {
    DayNumber(x) % 7
  }

  lemma KnownMonday(x: Date)
    requires x.y == 2020 && x.m == 4 && x.d == 20
    ensures Proper(x) && DayOfWeek(x) == 1
  {
    DaysBeforeYearClosed(x.y);
    assert DaysBeforeYear(x.y) == 737424;
    assert DaysBeforeMonth(x.y, 2) == 31 && DaysBeforeMonth(x.y, 3) == 60 && DaysBeforeMonth(x.y, 4) == 91;
  }

  function EndOfMonth(x: Date): Date {
    Date(x.y, x.m, DaysInMonth(x.y, x.m))
  }

  /** Adding a year keeps the last day of a month a last day. */
  function PlusYear(x: Date): Date
    requires Proper(x)
  {
    var last := DaysInMonth(x.y + 1, x.m);
    Date(x.y + 1, x.m, if x.d == DaysInMonth(x.y, x.m) || x.d > last then last else x.d)
  }

  /** A year later is the same day of the same month, but the last day of February stays the last. */
  lemma PlusYearKeepsDay(x: Date)
    requires Proper(x)
    ensures Proper(PlusYear(x)) && PlusYear(x).y == x.y + 1 && PlusYear(x).m == x.m
    ensures PlusYear(x).d == DaysInMonth(x.y + 1, x.m) <== x.d == DaysInMonth(x.y, x.m)
    ensures x.m != 2 || x.d < 28 ==> PlusYear(x).d == x.d
  {
  }

  /** `first_day_of_the_week_after`: the first date strictly later that falls on `weekday`. */
  function WeekdayAfter(x: Date, weekday: nat): Date
    requires Proper(x) && weekday < 7
  {
    PlusDays(x, (weekday + 6 - DayOfWeek(x)) % 7 + 1)
  }

  // ---- YYYYMMDD ----

  function Code(x: Date): nat {
    x.y * 10000 + x.m * 100 + x.d
  }

  function Decode(n: nat): Option<Date> {
    var x := Date(n / 10000, n / 100 % 100, n % 100);
    if Valid(x) then Some(x) else None
  }

  /** Codes and valid dates correspond one to one, and codes compare as dates do. */
  lemma CodeIsOrderIsomorphism(a: Date, b: Date, n: nat)
    requires Valid(a) && Valid(b)
    ensures Decode(Code(a)) == Some(a)
    ensures Decode(n).Some? ==> Code(Decode(n).value) == n
    ensures Code(a) < Code(b) <==> Less(a, b)
    ensures Code(a) < Code(b) <==> DayNumber(a) < DayNumber(b)
  {
    OrderIsDayNumber(a, b);
    CodeOrder(a, b);
    Recoded(a);
    DecodedCode(n);
  }

  lemma Recoded(a: Date)
    requires Valid(a)
    ensures Decode(Code(a)) == Some(a)
  {
    CodeParts(a.y, a.m, a.d);
  }

  lemma CodeParts(y: nat, m: nat, d: nat)
    requires m < 100 && d < 100
    ensures var n := y * 10000 + m * 100 + d; n / 10000 == y && n / 100 % 100 == m && n % 100 == d
  {
    var n := y * 10000 + m * 100 + d;
    assert n / 10000 == y && n / 100 == y * 100 + m;
  }

  lemma DecodedCode(n: nat)
    ensures Decode(n).Some? ==> Code(Decode(n).value) == n
  {
    var h := n / 100;
    assert n == h * 100 + n % 100 && h == h / 100 * 100 + h % 100 && h / 100 == n / 10000;
  }

  lemma CodeOrder(a: Date, b: Date)
    requires Valid(a) && Valid(b)
    ensures Code(a) < Code(b) <==> Less(a, b)
    ensures Code(a) == Code(b) <==> a == b
  {
  }

  /** `to_iso_string`, which throws for a date that has left the range. */
  function Checked(x: Date): Result<Date, Error> {
    if Valid(x) then Ok(x) else Err(OutOfRange)
  }

  // ---- The rules ----

  datatype Rule =
    | WeekBegin | WeekEnd | BiMonthBegin | BiMonthEnd | MonthBegin | MonthEnd
    | QuarterBegin | QuarterEnd | YearBegin | YearEnd

  /** What a rule asks for: Mondays; Fridays; the 1st and 15th; the 15th and the last day; and the
      first or last days of months, quarters and years. */
  predicate Qualifies(rule: Rule, x: Date)
    requires Proper(x)
  {
    match rule
    case WeekBegin => DayOfWeek(x) == 1
    case WeekEnd => DayOfWeek(x) == 5
    case BiMonthBegin => x.d == 1 || x.d == 15
    case BiMonthEnd => x.d == 15 || x.d == DaysInMonth(x.y, x.m)
    case MonthBegin => x.d == 1
    case MonthEnd => x.d == DaysInMonth(x.y, x.m)
    case QuarterBegin => x.d == 1 && x.m % 3 == 1
    case QuarterEnd => x.d == DaysInMonth(x.y, x.m) && x.m % 3 == 0
    case YearBegin => x.d == 1 && x.m == 1
    case YearEnd => x.d == 31 && x.m == 12
  }

  predicate IsQuarterBegin(x: Date) {
    x.d == 1 && (x.m == 1 || x.m == 4 || x.m == 7 || x.m == 10)
  }

  predicate IsQuarterEnd(x: Date) {
    x == EndOfMonth(x) && (x.m == 3 || x.m == 6 || x.m == 9 || x.m == 12)
  }

  function FirstOfNextMonth(x: Date): (r: Date)
    requires Proper(x)
    ensures Proper(r)
  {
    NextDay(EndOfMonth(x))
  }

  /** firstCalendarDate. */
  function First(rule: Rule, x: Date): Result<Date, Error>
    requires Valid(x)
  {
    match rule
    case WeekBegin => if DayOfWeek(x) == 1 then Checked(x) else Checked(WeekdayAfter(x, 1))
    case WeekEnd => if DayOfWeek(x) == 5 then Checked(x) else Checked(WeekdayAfter(x, 5))
    case BiMonthBegin =>
      if x.d == 1 || x.d == 15 then Ok(x)
      else if x.d < 15 then Checked(PlusDays(x, 15 - x.d))
      else Checked(FirstOfNextMonth(x))
    case BiMonthEnd =>
      if x.d == 15 || x.d == EndOfMonth(x).d then Ok(x)
      else if x.d < 15 then Checked(PlusDays(x, 15 - x.d))
      else Checked(EndOfMonth(x))
    case MonthBegin => FirstMonth(false, x)
    case MonthEnd => FirstMonth(true, x)
    case QuarterBegin => Seek(false, FirstMonth(false, x), 0)
    case QuarterEnd => Seek(true, FirstMonth(true, x), 0)
    case YearBegin => if x.d == 1 && x.m == 1 then Checked(x) else Checked(PlusYear(Date(x.y, 1, 1)))
    case YearEnd => Checked(Date(x.y, 12, 31))
  }

  /** nextCalendarDate, which is meant to be called on a qualifying date. */
  function Next(rule: Rule, x: Date): Result<Date, Error>
    requires Valid(x)
  {
    match rule
    case WeekBegin => Checked(PlusDays(x, 7))
    case WeekEnd => Checked(PlusDays(x, 7))
    case BiMonthBegin => if x.d == 1 then Checked(PlusDays(x, 14)) else Checked(FirstOfNextMonth(x))
    case BiMonthEnd => if x.d == 15 then Checked(EndOfMonth(x)) else Checked(PlusDays(x, 15))
    case MonthBegin => NextMonth(false, x)
    case MonthEnd => NextMonth(true, x)
    case QuarterBegin => Seek(false, NextMonth(false, x), 0)
    case QuarterEnd => Seek(true, NextMonth(true, x), 0)
    case YearBegin => Checked(PlusYear(x))
    case YearEnd => Checked(PlusYear(Date(x.y, 12, 31)))
  }

  function FirstMonth(end: bool, x: Date): Result<Date, Error>
    requires Valid(x)
  {
    if end then Checked(EndOfMonth(x))
    else if x.d == 1 then Checked(x)
    else Checked(FirstOfNextMonth(x))
  }

  function NextMonth(end: bool, x: Date): Result<Date, Error>
    requires Valid(x)
  {
    if end then Checked(EndOfMonth(FirstOfNextMonth(x))) else Checked(FirstOfNextMonth(x))
  }

  /** The loop of the four quarter functions, from iteration `i`: stop at a quarter boundary, else
      advance a month; the fourth failure throws. */
  function Seek(end: bool, at: Result<Date, Error>, i: nat): Result<Date, Error>
    requires i <= 3 && (at.Ok? ==> Valid(at.value))
    decreases 3 - i
  {
    if at.Err? then at
    else if (if end then IsQuarterEnd(at.value) else IsQuarterBegin(at.value)) then at
    else if i == 3 then Err(CodingError)
    else Seek(end, NextMonth(end, at.value), i + 1)
  }

  // ---- Each rule finds the least qualifying date ----

  ghost predicate Candidate(rule: Rule, x: Date) {
    Valid(x) && Qualifies(rule, x)
  }

  /** `r` is the least qualifying date not before `from` (after it, if `strict`), or reports that the
      calendar range holds none. */
  ghost predicate IsLeast(rule: Rule, from: Date, strict: bool, r: Result<Date, Error>) {
    match r
    case Ok(x) =>
      && Candidate(rule, x) && (if strict then Less(from, x) else !Less(x, from))
      && forall z :: Candidate(rule, z) && (if strict then Less(from, z) else !Less(z, from)) ==> !Less(z, x)
    case Err(e) =>
      && e == OutOfRange
      && forall z :: Candidate(rule, z) ==> (if strict then !Less(from, z) else Less(z, from))
  }

  lemma {:induction false} PlusDaysInMonth(x: Date, k: nat)
    requires Proper(x) && x.d + k <= DaysInMonth(x.y, x.m)
    ensures PlusDays(x, k) == Date(x.y, x.m, x.d + k)
    decreases k
  {
    if k > 0 {
      PlusDaysInMonth(NextDay(x), k - 1);
    }
  }

  lemma {:induction false} PlusDaysPastMonth(x: Date, k: nat)
    requires Proper(x) && x.d == DaysInMonth(x.y, x.m) && 1 <= k <= 28
    ensures PlusDays(x, k) == Date(FirstOfNextMonth(x).y, FirstOfNextMonth(x).m, k)
  {
    PlusDaysInMonth(NextDay(x), k - 1);
  }

  /** Of the day numbers from `f` on, or after it, the first with the remainder of f + k is f + k. */
  lemma SameWeekday(f: nat, k: nat, strict: bool, z: nat)
    requires z % 7 == (f + k) % 7
    requires if strict then 1 <= k <= 7 && f < z else k <= 6 && f <= z
    ensures f + k <= z
  {
  }

  lemma NoneBefore(from: Date, strict: bool, k: nat, z: Date)
    requires Valid(from) && Valid(z) && DayOfWeek(PlusDays(from, k)) == DayOfWeek(z)
    requires if strict then 1 <= k <= 7 && Less(from, z) else k <= 6 && !Less(z, from)
    ensures !Less(z, PlusDays(from, k))
  {
    PlusDaysNumber(from, k);
    OrderIsDayNumber(from, z);
    OrderIsDayNumber(z, from);
    SameWeekday(DayNumber(from), k, strict, DayNumber(z));
    OrderIsDayNumber(z, PlusDays(from, k));
  }

  lemma DaysAhead(from: Date, k: nat)
    requires Proper(from)
    ensures if k > 0 then Less(from, PlusDays(from, k)) else PlusDays(from, k) == from
  {
    PlusDaysNumber(from, k);
    OrderIsDayNumber(from, PlusDays(from, k));
  }

  /** The week rules: among the dates from a given one on, the first with the wanted weekday. */
  lemma WeekdayLeast(rule: Rule, from: Date, strict: bool, k: nat)
    requires (rule == WeekBegin || rule == WeekEnd) && Valid(from)
    requires DayOfWeek(PlusDays(from, k)) == (if rule == WeekBegin then 1 else 5)
    requires if strict then 1 <= k <= 7 else k <= 6
    ensures IsLeast(rule, from, strict, Checked(PlusDays(from, k)))
  {
    var x := PlusDays(from, k);
    DaysAhead(from, k);
    forall z | Candidate(rule, z) && (if strict then Less(from, z) else !Less(z, from))
      ensures !Less(z, x)
    {
      NoneBefore(from, strict, k, z);
    }
  }

  lemma FirstMonthLeast(end: bool, x: Date)
    requires Valid(x)
    ensures IsLeast(if end then MonthEnd else MonthBegin, x, false, FirstMonth(end, x))
  {
  }

  lemma NextMonthLeast(end: bool, x: Date)
    requires Valid(x)
    requires end ==> x.d == DaysInMonth(x.y, x.m)
    ensures IsLeast(if end then MonthEnd else MonthBegin, x, true, NextMonth(end, x))
  {
  }

  lemma BiMonthFirst(rule: Rule, x: Date)
    requires (rule == BiMonthBegin || rule == BiMonthEnd) && Valid(x)
    ensures IsLeast(rule, x, false, First(rule, x))
  {
    if x.d < 15 {
      PlusDaysInMonth(x, 15 - x.d);
    }
  }

  lemma BiMonthNext(rule: Rule, x: Date)
    requires (rule == BiMonthBegin || rule == BiMonthEnd) && Candidate(rule, x)
    ensures IsLeast(rule, x, true, Next(rule, x))
  {
    if rule == BiMonthBegin {
      if x.d == 1 {
        PlusDaysInMonth(x, 14);
      }
    } else if x.d != 15 {
      PlusDaysPastMonth(x, 15);
    }
  }

  lemma YearLeast(rule: Rule, x: Date)
    requires (rule == YearBegin || rule == YearEnd) && Valid(x)
    ensures IsLeast(rule, x, false, First(rule, x))
    ensures Qualifies(rule, x) ==> IsLeast(rule, x, true, Next(rule, x))
  {
  }

  function MonthRule(end: bool): Rule { if end then MonthEnd else MonthBegin }

  function QuarterRule(end: bool): Rule { if end then QuarterEnd else QuarterBegin }

  /** Where the quarter loop stands: at a month boundary, with no quarter boundary passed over. */
  ghost predicate NotPassed(end: bool, from: Date, strict: bool, at: Result<Date, Error>) {
    match at
    case Ok(x) =>
      && Candidate(MonthRule(end), x) && (if strict then Less(from, x) else !Less(x, from))
      && forall z :: Candidate(QuarterRule(end), z) && (if strict then Less(from, z) else !Less(z, from)) ==> !Less(z, x)
    case Err(e) => IsLeast(QuarterRule(end), from, strict, at)
  }

  /** How many months remain to the next quarter boundary. */
  function MonthsToGo(end: bool, x: Date): nat {
    if end then (3 - x.m % 3) % 3 else (4 - x.m % 3) % 3
  }

  lemma SeekStart(end: bool, from: Date, strict: bool, at: Result<Date, Error>)
    requires IsLeast(MonthRule(end), from, strict, at)
    ensures NotPassed(end, from, strict, at)
  {
    assert forall z :: Candidate(QuarterRule(end), z) ==> Candidate(MonthRule(end), z);
  }

  /** A month boundary has one month fewer to go at the next boundary. */
  lemma MonthsToGoFalls(end: bool, x: Date)
    requires Candidate(MonthRule(end), x) && MonthsToGo(end, x) > 0 && NextMonth(end, x).Ok?
    ensures MonthsToGo(end, NextMonth(end, x).value) == MonthsToGo(end, x) - 1
  {
    assert x.m % 3 != 0 || !end;
    assert EndOfMonth(x) == x || !end;
  }

  lemma SeekAdvance(end: bool, from: Date, strict: bool, x: Date)
    requires NotPassed(end, from, strict, Ok(x)) && MonthsToGo(end, x) > 0
    ensures NotPassed(end, from, strict, NextMonth(end, x))
    ensures NextMonth(end, x).Ok? ==> MonthsToGo(end, NextMonth(end, x).value) == MonthsToGo(end, x) - 1
  {
    NextMonthLeast(end, x);
    if NextMonth(end, x).Ok? {
      MonthsToGoFalls(end, x);
    }
    forall z | Candidate(QuarterRule(end), z) && (if strict then Less(from, z) else !Less(z, from))
      ensures Candidate(MonthRule(end), z) && Less(x, z)
    {
      assert z != x;
    }
  }

  /** The quarter loop, with at least as many iterations left as months to go, ends at the least quarter
      boundary; so its throw is never reached. */
  lemma {:induction false} SeekLeast(end: bool, from: Date, strict: bool, at: Result<Date, Error>, i: nat)
    requires i <= 3 && NotPassed(end, from, strict, at)
    requires at.Ok? ==> Valid(at.value) && i + MonthsToGo(end, at.value) <= 3
    ensures IsLeast(QuarterRule(end), from, strict, Seek(end, at, i))
    decreases 3 - i
  {
    if at.Ok? {
      var x := at.value;
      assert (if end then IsQuarterEnd(x) else IsQuarterBegin(x)) <==> MonthsToGo(end, x) == 0;
      if MonthsToGo(end, x) > 0 {
        SeekAdvance(end, from, strict, x);
        SeekLeast(end, from, strict, NextMonth(end, x), i + 1);
      }
    }
  }

  lemma QuarterLeast(end: bool, x: Date)
    requires Valid(x)
    ensures IsLeast(QuarterRule(end), x, false, First(QuarterRule(end), x))
    ensures Qualifies(QuarterRule(end), x) ==> IsLeast(QuarterRule(end), x, true, Next(QuarterRule(end), x))
  {
    FirstMonthLeast(end, x);
    SeekStart(end, x, false, FirstMonth(end, x));
    SeekLeast(end, x, false, FirstMonth(end, x), 0);
    if Qualifies(QuarterRule(end), x) {
      NextMonthLeast(end, x);
      SeekStart(end, x, true, NextMonth(end, x));
      SeekLeast(end, x, true, NextMonth(end, x), 0);
    }
  }

  /** Days from one weekday to the next occurrence of another, or none if they are the same. */
  function DaysTo(today: nat, w: nat): (k: nat)
    requires today < 7 && w < 7
    ensures k <= 6
  {
    if today <= w then w - today else w + 7 - today
  }

  lemma FirstWeekday(rule: Rule, from: Date, w: nat)
    requires (rule == WeekBegin && w == 1) || (rule == WeekEnd && w == 5)
    requires Valid(from)
    ensures First(rule, from) == Checked(PlusDays(from, DaysTo(DayOfWeek(from), w)))
  {
    var today := DayOfWeek(from);
    WeekOffset(w, today);
    if today == w {
      assert PlusDays(from, 0) == from;
    }
  }

  lemma WeekOffset(w: nat, today: nat)
    requires w < 7 && today < 7
    ensures DaysTo(today, w) == if today == w then 0 else (w + 6 - today) % 7 + 1
  {
  }

  lemma FirstWeekLeast(rule: Rule, from: Date)
    requires (rule == WeekBegin || rule == WeekEnd) && Valid(from)
    ensures IsLeast(rule, from, false, First(rule, from))
  {
    var w := if rule == WeekBegin then 1 else 5;
    var k := DaysTo(DayOfWeek(from), w);
    FirstWeekday(rule, from, w);
    WeekdayReached(from, w, DayNumber(from), k);
    WeekdayLeast(rule, from, false, k);
  }

  lemma WeekdayReached(from: Date, w: nat, n: nat, k: nat)
    requires Proper(from) && w < 7 && n == DayNumber(from) && k == DaysTo(n % 7, w)
    ensures DayOfWeek(PlusDays(from, k)) == w
  {
    WeekdayOf(from, n, k);
    RemainderAhead(n, w);
  }

  lemma WeekdayOf(from: Date, n: nat, k: nat)
    requires Proper(from) && n == DayNumber(from)
    ensures DayOfWeek(PlusDays(from, k)) == (n + k) % 7
  {
    PlusDaysNumber(from, k);
  }

  lemma RemainderAhead(n: nat, w: nat)
    requires w < 7
    ensures (n + DaysTo(n % 7, w)) % 7 == w
    ensures (n + 7) % 7 == n % 7
  {
  }

  lemma NextWeekLeast(rule: Rule, from: Date)
    requires (rule == WeekBegin || rule == WeekEnd) && Candidate(rule, from)
    ensures IsLeast(rule, from, true, Next(rule, from))
  {
    RemainderAhead(DayNumber(from), 0);
    WeekdayOf(from, DayNumber(from), 7);
    WeekdayLeast(rule, from, true, 7);
  }

  /** firstCalendarDate finds the least qualifying date on or after the given one, and fails exactly
      when the calendar range holds none. */
  lemma FirstIsLeast(rule: Rule, from: Date)
    requires Valid(from)
    ensures IsLeast(rule, from, false, First(rule, from))
  {
    match rule
    case WeekBegin => FirstWeekLeast(rule, from);
    case WeekEnd => FirstWeekLeast(rule, from);
    case BiMonthBegin => BiMonthFirst(rule, from);
    case BiMonthEnd => BiMonthFirst(rule, from);
    case MonthBegin => FirstMonthLeast(false, from);
    case MonthEnd => FirstMonthLeast(true, from);
    case QuarterBegin => QuarterLeast(false, from);
    case QuarterEnd => QuarterLeast(true, from);
    case YearBegin => YearLeast(rule, from);
    case YearEnd => YearLeast(rule, from);
  }

  /** nextCalendarDate, called on a qualifying date, finds the least later one. */
  lemma NextIsLeast(rule: Rule, from: Date)
    requires Candidate(rule, from)
    ensures IsLeast(rule, from, true, Next(rule, from))
  {
    match rule
    case WeekBegin => NextWeekLeast(rule, from);
    case WeekEnd => NextWeekLeast(rule, from);
    case BiMonthBegin => BiMonthNext(rule, from);
    case BiMonthEnd => BiMonthNext(rule, from);
    case MonthBegin => NextMonthLeast(false, from);
    case MonthEnd => NextMonthLeast(true, from);
    case QuarterBegin => QuarterLeast(false, from);
    case QuarterEnd => QuarterLeast(true, from);
    case YearBegin => YearLeast(rule, from);
    case YearEnd => YearLeast(rule, from);
  }

  // ---- Iterating a rule ----

  /** The k-th date of the iteration that starts with firstCalendarDate(from). */
  function Iterate(rule: Rule, from: Date, k: nat): Result<Date, Error>
    requires Valid(from)
  {
    if k == 0 then First(rule, from)
    else match Iterate(rule, from, k - 1)
      case Err(e) => Err(e)
      case Ok(x) => if Valid(x) then Next(rule, x) else Err(OutOfRange)
  }

  /** What iterating needs of the two theorems. */
  lemma FirstQualifies(rule: Rule, from: Date)
    requires Valid(from)
    ensures First(rule, from).Ok? ==> Candidate(rule, First(rule, from).value) && !Less(First(rule, from).value, from)
    ensures First(rule, from) != Err(CodingError)
  {
    FirstIsLeast(rule, from);
  }

  lemma NextQualifies(rule: Rule, from: Date)
    requires Candidate(rule, from)
    ensures Next(rule, from).Ok? ==> Candidate(rule, Next(rule, from).value) && Less(from, Next(rule, from).value)
    ensures Next(rule, from) != Err(CodingError)
  {
    NextIsLeast(rule, from);
  }

  lemma LaterStays(from: Date, x: Date, y: Date)
    requires !Less(x, from) && Less(x, y)
    ensures !Less(y, from)
  {
  }

  /** What is known of a date the iteration has produced. */
  ghost predicate Produced(rule: Rule, from: Date, r: Result<Date, Error>) {
    r != Err(CodingError) && (r.Ok? ==> Candidate(rule, r.value) && !Less(r.value, from))
  }

  lemma NextProduced(rule: Rule, from: Date, x: Date)
    requires Produced(rule, from, Ok(x))
    ensures Produced(rule, from, Next(rule, x))
  {
    NextQualifies(rule, x);
    if Next(rule, x).Ok? {
      LaterStays(from, x, Next(rule, x).value);
    }
  }

  lemma {:induction false} IterationQualifies(rule: Rule, from: Date, k: nat)
    requires Valid(from)
    ensures Produced(rule, from, Iterate(rule, from, k))
  {
    if k == 0 {
      FirstQualifies(rule, from);
    } else {
      var before := Iterate(rule, from, k - 1);
      IterationQualifies(rule, from, k - 1);
      if before.Ok? {
        NextProduced(rule, from, before.value);
        assert Iterate(rule, from, k) == Next(rule, before.value);
      }
    }
  }

  /** Every date the iteration produces qualifies and is not before the start; each is later than the
      one before; and the quarter loops never throw. */
  lemma IterationAscends(rule: Rule, from: Date, k: nat)
    requires Valid(from)
    ensures Iterate(rule, from, k).Ok? ==> Candidate(rule, Iterate(rule, from, k).value) && !Less(Iterate(rule, from, k).value, from)
    ensures Iterate(rule, from, k).Ok? && Iterate(rule, from, k + 1).Ok? ==> Less(Iterate(rule, from, k).value, Iterate(rule, from, k + 1).value)
    ensures Iterate(rule, from, k) != Err(CodingError)
  {
    IterationQualifies(rule, from, k);
    if Iterate(rule, from, k).Ok? {
      assert Iterate(rule, from, k + 1) == Next(rule, Iterate(rule, from, k).value);
      NextQualifies(rule, Iterate(rule, from, k).value);
    }
  }

  /** The iteration misses nothing: every qualifying date from the start on is visited. With the strict
      ascent above it is visited exactly once. */
  lemma IterationVisitsAll(rule: Rule, from: Date, z: Date)
    requires Valid(from) && Candidate(rule, z) && !Less(z, from)
    ensures exists k: nat :: Iterate(rule, from, k) == Ok(z)
  {
    FirstIsLeast(rule, from);
    IterationReaches(rule, from, 0, z);
  }

  lemma {:induction false} IterationReaches(rule: Rule, from: Date, k: nat, z: Date)
    requires Valid(from) && Candidate(rule, z)
    requires Iterate(rule, from, k).Ok? && Candidate(rule, Iterate(rule, from, k).value) && !Less(z, Iterate(rule, from, k).value)
    ensures exists j: nat :: Iterate(rule, from, j) == Ok(z)
    decreases DayNumber(z) - DayNumber(Iterate(rule, from, k).value)
  {
    var x := Iterate(rule, from, k).value;
    OrderIsDayNumber(z, x);
    if x != z {
      NextIsLeast(rule, x);
      assert Less(x, z);
      assert Iterate(rule, from, k + 1) == Next(rule, x);
      var y := Next(rule, x).value;
      OrderIsDayNumber(x, y);
      OrderIsDayNumber(z, y);
      IterationReaches(rule, from, k + 1, z);
    }
  }

  // ---- The functions on YYYYMMDD numbers ----

  function Encoded(r: Result<Date, Error>): Result<nat, Error> {
    match r case Ok(x) => Ok(Code(x)) case Err(e) => Err(e)
  }

  function FirstCalendarDate(rule: Rule, fromDate: nat): Result<nat, Error> {
    match Decode(fromDate) case None => Err(BadDate) case Some(x) => Encoded(First(rule, x))
  }

  function NextCalendarDate(rule: Rule, fromDate: nat): Result<nat, Error> {
    match Decode(fromDate) case None => Err(BadDate) case Some(x) => Encoded(Next(rule, x))
  }

  /** The number denotes a date on which the rule falls. */
  predicate Denotes(rule: Rule, c: nat) {
    Decode(c).Some? && Qualifies(rule, Decode(c).value)
  }

  /** `r` is the least number from `n` on (above it, if `strict`) that denotes a qualifying date, or reports that
      there is none. */
  ghost predicate IsLeastCode(rule: Rule, n: nat, strict: bool, r: Result<nat, Error>) {
    match r
    case Ok(v) =>
      && Denotes(rule, v) && (if strict then n < v else n <= v)
      && forall c: nat :: Denotes(rule, c) && (if strict then n < c else n <= c) ==> v <= c
    case Err(e) =>
      && e == OutOfRange
      && forall c: nat :: Denotes(rule, c) ==> (if strict then c <= n else c < n)
  }

  /** Numbers that denote dates compare as their dates do. */
  lemma DecodedOrder(a: nat, b: nat)
    requires Decode(a).Some? && Decode(b).Some?
    ensures a < b <==> Less(Decode(a).value, Decode(b).value)
  {
    DecodedCode(a);
    DecodedCode(b);
    CodeOrder(Decode(a).value, Decode(b).value);
  }

  /** The least qualifying date has the least qualifying code. */
  lemma LeastCode(rule: Rule, n: nat, strict: bool, r: Result<Date, Error>)
    requires Decode(n).Some? && IsLeast(rule, Decode(n).value, strict, r)
    ensures IsLeastCode(rule, n, strict, Encoded(r))
  {
    match r
    case Ok(x) => LeastCodeFound(rule, n, strict, x);
    case Err(_) =>
      forall c: nat | Denotes(rule, c)
        ensures if strict then c <= n else c < n
      {
        assert Candidate(rule, Decode(c).value);
        DecodedOrder(n, c);
        DecodedOrder(c, n);
      }
  }

  lemma LeastCodeFound(rule: Rule, n: nat, strict: bool, x: Date)
    requires Decode(n).Some? && IsLeast(rule, Decode(n).value, strict, Ok(x))
    ensures IsLeastCode(rule, n, strict, Ok(Code(x)))
  {
    var v := Code(x);
    Recoded(x);
    DecodedOrder(n, v);
    DecodedOrder(v, n);
    forall c: nat | Denotes(rule, c) && (if strict then n < c else n <= c)
      ensures v <= c
    {
      assert Candidate(rule, Decode(c).value);
      DecodedOrder(n, c);
      DecodedOrder(c, n);
      DecodedOrder(c, v);
    }
  }

  // ---- The same in decimal digits, without the calendar above ----

  /** The days before a year, counted by division, and before a month of it: from March on, 153 in every five
      months. */
  function YearStart(y: nat): nat
    requires 1 <= y
  {
    365 * (y - 1) + (y - 1) / 4 - (y - 1) / 100 + (y - 1) / 400
  }

  function MonthStart(y: nat, m: nat): int
    requires 1 <= y && 1 <= m <= 13
  {
    if m == 1 then 0 else if m == 2 then 31 else (153 * (m - 3) + 2) / 5 + YearStart(y + 1) - YearStart(y) - 306
  }

  function LastDay(y: nat, m: nat): int
    requires 1 <= y && 1 <= m <= 12
  {
    MonthStart(y, m + 1) - MonthStart(y, m)
  }

  predicate IsDate(c: nat) {
    1400 <= c / 10000 <= 9999 && 1 <= c / 100 % 100 <= 12 && 1 <= c % 100 <= LastDay(c / 10000, c / 100 % 100)
  }

  /** The number of a day, counted from 0001-01-01. */
  function Ordinal(c: nat): int
    requires IsDate(c)
  {
    YearStart(c / 10000) + MonthStart(c / 10000, c / 100 % 100) + c % 100
  }

  /** The YYYYMMDD number `c` is a date on which the rule falls. */
  predicate FallsOn(rule: Rule, c: nat) {
    IsDate(c) &&
    match rule
    case WeekBegin => Ordinal(c) % 7 == 1
    case WeekEnd => Ordinal(c) % 7 == 5
    case BiMonthBegin => c % 100 == 1 || c % 100 == 15
    case BiMonthEnd => c % 100 == 15 || c % 100 == LastDay(c / 10000, c / 100 % 100)
    case MonthBegin => c % 100 == 1
    case MonthEnd => c % 100 == LastDay(c / 10000, c / 100 % 100)
    case QuarterBegin => c % 10000 in {101, 401, 701, 1001}
    case QuarterEnd => c % 10000 in {331, 630, 930, 1231}
    case YearBegin => c % 10000 == 101
    case YearEnd => c % 10000 == 1231
  }

  lemma InApril(y: nat, m: nat)
    requires y == 2020 && m == 4
    ensures YearStart(y) == 737424 && MonthStart(y, m) == 91 && LastDay(y, m) == 30
  {
    assert YearStart(y) == 737424;
    assert YearStart(y + 1) == 737790;
  }

  /** 2020-04-20 was a Monday and 2020-04-24 a Friday. */
  lemma WeekdaysAreKnown(y: nat, m: nat, d: nat)
    requires y == 2020 && m == 4
    ensures d == 20 ==> FallsOn(WeekBegin, y * 10000 + m * 100 + d)
    ensures d == 24 ==> FallsOn(WeekEnd, y * 10000 + m * 100 + d)
  {
    if d < 100 {
      InApril(y, m);
      CodeParts(y, m, d);
    }
  }

  /** The days before each month, and so the length of each month, by the formula. */
  lemma DaysBeforeMonthClosed(y: nat, m: nat)
    requires 1 <= y && 1 <= m <= 13
    ensures DaysBeforeMonth(y, m) == MonthStart(y, m)
    ensures m <= 12 ==> DaysInMonth(y, m) == LastDay(y, m)
  {
    DaysBeforeYearClosed(y);
    DaysBeforeYearClosed(y + 1);
    MonthsByFormula(y, m);
    if m <= 12 {
      MonthsByFormula(y, m + 1);
    }
  }

  lemma {:induction false} MonthsByFormula(y: nat, m: nat)
    requires 1 <= y && 1 <= m <= 13
    ensures DaysBeforeMonth(y, m) == if m == 1 then 0 else if m == 2 then 31 else (153 * (m - 3) + 2) / 5 + 59 + (if Leap(y) then 1 else 0)
  {
    if m > 1 {
      MonthsByFormula(y, m - 1);
    }
  }

  /** The model's dates are those. */
  lemma DateIff(c: nat)
    ensures Decode(c).Some? <==> IsDate(c)
    ensures IsDate(c) ==> DayNumber(Decode(c).value) == Ordinal(c)
  {
    var y, m := c / 10000, c / 100 % 100;
    if 1 <= y && 1 <= m <= 12 {
      DaysBeforeMonthClosed(y, m);
      DaysBeforeYearClosed(y);
    }
  }

  /** And the model's rules. */
  lemma DenotesIff(rule: Rule, c: nat)
    ensures Denotes(rule, c) <==> FallsOn(rule, c)
  {
    DateIff(c);
    if IsDate(c) {
      var x := Decode(c).value;
      if rule.QuarterBegin? || rule.QuarterEnd? || rule.YearBegin? || rule.YearEnd? {
        LateRules(rule, c, x);
      } else if rule.MonthEnd? || rule.BiMonthEnd? {
        DaysBeforeMonthClosed(x.y, x.m);
      }
    }
  }

  lemma LateRules(rule: Rule, c: nat, x: Date)
    requires IsDate(c) && Decode(c) == Some(x) && (rule.QuarterBegin? || rule.QuarterEnd? || rule.YearBegin? || rule.YearEnd?)
    ensures Qualifies(rule, x) <==> FallsOn(rule, c)
  {
    MonthAndDay(c);
    DigitPairs(c % 10000, x.m, x.d);
    if rule.QuarterEnd? {
      QuarterLastDays(x.y, x.m);
    }
  }

  lemma DigitPairs(q: nat, m: nat, d: nat)
    requires q == m * 100 + d && 1 <= m <= 12 && d <= 31
    ensures q in {101, 401, 701, 1001} <==> d == 1 && m % 3 == 1
    ensures q in {331, 630, 930, 1231} <==> m % 3 == 0 && d == if m == 3 || m == 12 then 31 else 30
    ensures (q == 101 <==> m == 1 && d == 1) && (q == 1231 <==> m == 12 && d == 31)
  {
  }

  lemma QuarterLastDays(y: nat, m: nat)
    requires 1 <= m <= 12
    ensures m % 3 == 0 ==> DaysInMonth(y, m) == if m == 3 || m == 12 then 31 else 30
  {
  }

  lemma MonthAndDay(c: nat)
    ensures c % 10000 == c / 100 % 100 * 100 + c % 100
  {
    var h := c / 100;
    assert c == 100 * h + c % 100 && h == 100 * (h / 100) + h % 100;
    RemainderUnique(c, 10000, h / 100, h % 100 * 100 + c % 100);
  }

  /** `r` is the least number from `n` on (above it, if `strict`) on which the rule falls, or reports that there is
      none. */
  ghost predicate IsLeastNumber(rule: Rule, n: nat, strict: bool, r: Result<nat, Error>) {
    match r
    case Ok(v) =>
      && FallsOn(rule, v) && (if strict then n < v else n <= v)
      && forall c: nat :: FallsOn(rule, c) && (if strict then n < c else n <= c) ==> v <= c
    case Err(e) =>
      && e == OutOfRange
      && forall c: nat :: FallsOn(rule, c) ==> (if strict then c <= n else c < n)
  }

  lemma LeastNumber(rule: Rule, n: nat, strict: bool, r: Result<nat, Error>)
    requires IsLeastCode(rule, n, strict, r)
    ensures IsLeastNumber(rule, n, strict, r)
  {
    forall c: nat
      ensures Denotes(rule, c) <==> FallsOn(rule, c)
    {
      DenotesIff(rule, c);
    }
  }

  /** On numbers: firstCalendarDate gives the least number, not below the given one, on which the rule falls, and
      nextCalendarDate on such a number the least above it; each fails exactly if there is none, and with another
      error exactly if the number is no date. */
  lemma CodesAreLeast(rule: Rule, n: nat)
    ensures IsDate(n) ==> IsLeastNumber(rule, n, false, FirstCalendarDate(rule, n))
    ensures FallsOn(rule, n) ==> IsLeastNumber(rule, n, true, NextCalendarDate(rule, n))
    ensures FirstCalendarDate(rule, n) == Err(BadDate) <==> !IsDate(n)
    ensures NextCalendarDate(rule, n) == Err(BadDate) <== !IsDate(n)
  {
    DenotesIff(rule, n);
    DateIff(n);
    if Decode(n).Some? {
      var x := Decode(n).value;
      FirstIsLeast(rule, x);
      LeastCode(rule, n, false, First(rule, x));
      LeastNumber(rule, n, false, FirstCalendarDate(rule, n));
      if Qualifies(rule, x) {
        NextIsLeast(rule, x);
        LeastCode(rule, n, true, Next(rule, x));
        LeastNumber(rule, n, true, NextCalendarDate(rule, n));
      }
    }
  }

  /** Advancing a date number by one month boundary. */
  function NextMonthCode(end: bool, date: nat): Result<nat, Error> {
    match Decode(date) case None => Err(BadDate) case Some(x) => Encoded(NextMonth(end, x))
  }

  /** The loop shared by the four quarter functions, on date numbers: it computes `Seek`, and when it
      starts at a month boundary its throw is unreachable. */
  method QuarterLoop(end: bool, start: nat) returns (r: Result<nat, Error>)
    requires Decode(start).Some? && Qualifies(MonthRule(end), Decode(start).value)
    ensures r == Encoded(Seek(end, Ok(Decode(start).value), 0))
    ensures r != Err(CodingError)
  {
    var date := start;
    ghost var from := Decode(start).value;
    FirstMonthLeast(end, from);
    SeekStart(end, from, false, Ok(from));
    SeekLeast(end, from, false, Ok(from), 0);
    var i := 0;
    while i < 4
      invariant 0 <= i <= 3 && Decode(date).Some?
      invariant Seek(end, Ok(from), 0) == Seek(end, Ok(Decode(date).value), i)
      decreases 4 - i
    {
      DecodedCode(date);
      var d := Decode(date).value;
      if if end then IsQuarterEnd(d) else IsQuarterBegin(d) {
        break;
      }
      if i == 3 {
        return Err(CodingError);
      }
      var next := NextMonthCode(end, date);
      if next.Err? {
        return next;
      }
      Recoded(NextMonth(end, d).value);
      date := next.value;
      i := i + 1;
    }
    DecodedCode(date);
    r := Ok(date);
  }

  /** The quarter forms of firstCalendarDate. */
  method FirstQuarterDate(end: bool, fromDate: nat) returns (r: Result<nat, Error>)
    ensures r == FirstCalendarDate(QuarterRule(end), fromDate)
  {
    var date := FirstCalendarDate(MonthRule(end), fromDate);
    if date.Err? {
      return date;
    }
    var x := Decode(fromDate).value;
    FirstMonthLeast(end, x);
    Recoded(FirstMonth(end, x).value);
    r := QuarterLoop(end, date.value);
  }

  /** The quarter forms of nextCalendarDate. */
  method NextQuarterDate(end: bool, fromDate: nat) returns (r: Result<nat, Error>)
    ensures r == NextCalendarDate(QuarterRule(end), fromDate)
  {
    var date := NextMonthCode(end, fromDate);
    if date.Err? {
      return date;
    }
    var x := Decode(fromDate).value;
    Recoded(NextMonth(end, x).value);
    r := QuarterLoop(end, date.value);
  }
}
