/** When a usage limit resets (`exceptions.py`), and the window that is armed from it
    (`dispatch_state.py`). Local time has a constant offset here, except where an offset is named. */
module UsageReset {
  import opened Common

  // ----- the calendar ------------------------------------------------------------------------------

  predicate Leap(y: nat) {
    y % 4 == 0 && (y % 100 != 0 || y % 400 == 0)
  }

  function MonthLen(y: nat, m: nat): nat {
    if m == 2 then (if Leap(y) then 29 else 28)
    else if m in {4, 6, 9, 11} then 30
    else 31
  }

  function YearLen(y: nat): nat {
    if Leap(y) then 366 else 365
  }

  /** Days before January 1 of the year. */
  function BeforeYear(y: nat): nat {
    if y <= 1 then 0 else BeforeYear(y - 1) + YearLen(y - 1)
  }

  function BeforeMonth(y: nat, m: nat): nat {
    if m <= 1 then 0 else BeforeMonth(y, m - 1) + MonthLen(y, m - 1)
  }

  datatype Date = Date(year: nat, month: nat, day: nat)

  predicate Exists(d: Date) {
    d.year >= 1 && 1 <= d.month <= 12 && 1 <= d.day <= MonthLen(d.year, d.month)
  }

  /** `date.toordinal()`. */
  function Ordinal(d: Date): nat {
    BeforeYear(d.year) + BeforeMonth(d.year, d.month) + d.day
  }

  /** `date.weekday()`, Monday being 0. */
  function Weekday(ordinal: nat): nat {
    (ordinal + 6) % 7
  }

  lemma {:induction false} BeforeMonthRises(y: nat, m: nat, n: nat)
    requires 1 <= m < n
    ensures BeforeMonth(y, m) + MonthLen(y, m) <= BeforeMonth(y, n)
    decreases n
  {
    hide MonthLen;
    if n > m + 1 {
      BeforeMonthRises(y, m, n - 1);
    }
  }

  lemma MonthsFillTheYear(y: nat)
    ensures BeforeMonth(y, 13) == YearLen(y)
  {
    var b3 := BeforeMonth(y, 3);
    assert BeforeMonth(y, 2) == 31 && b3 == 31 + MonthLen(y, 2);
    assert BeforeMonth(y, 5) == b3 + 61;
    assert BeforeMonth(y, 7) == b3 + 122;
    assert BeforeMonth(y, 9) == b3 + 184;
    assert BeforeMonth(y, 11) == b3 + 245;
    assert BeforeMonth(y, 13) == b3 + 306;
  }

  lemma {:induction false} BeforeYearRises(y: nat, z: nat)
    requires 1 <= y < z
    ensures BeforeYear(y) + YearLen(y) <= BeforeYear(z)
    decreases z
  {
    hide YearLen;
    if z > y + 1 {
      BeforeYearRises(y, z - 1);
    }
  }

  /** A date lies inside its year. */
  lemma InsideYear(d: Date)
    requires Exists(d)
    ensures BeforeYear(d.year) < Ordinal(d) <= BeforeYear(d.year) + YearLen(d.year)
  {
    hide MonthLen, YearLen, BeforeYear;
    MonthsFillTheYear(d.year);
    BeforeMonthRises(d.year, d.month, 13);
  }

  lemma LaterYear(a: Date, b: Date)
    requires Exists(a) && Exists(b) && a.year < b.year
    ensures Ordinal(a) < Ordinal(b)
  {
    hide YearLen, BeforeYear, Ordinal;
    InsideYear(a);
    InsideYear(b);
    BeforeYearRises(a.year, b.year);
  }

  // ----- the calendar by its own marks --------------------------------------------------------------

  /** Years of 365 days and a leap day every fourth year, but for centuries that are no multiple of 400. */
  lemma {:induction false} BeforeYearIs(y: nat)
    requires y >= 1
    ensures BeforeYear(y) == 365 * (y - 1) + (y - 1) / 4 - (y - 1) / 100 + (y - 1) / 400
  {
    if y > 1 {
      BeforeYearIs(y - 1);
      LeapDays(y - 1);
    }
  }

  lemma LeapDays(y: nat)
    requires y >= 1
    ensures y / 4 - y / 100 + y / 400 == (y - 1) / 4 - (y - 1) / 100 + (y - 1) / 400 + (if Leap(y) then 1 else 0)
  {
    Quotient(y, 4);
    Quotient(y, 100);
    Quotient(y, 400);
    Factor(y, 400, 100, 4);
    Factor(y, 100, 4, 25);
  }

  lemma Factor(y: nat, whole: nat, part: nat, times: nat)
    requires part >= 1 && whole == part * times && whole >= 1
    ensures y % whole == 0 ==> y % part == 0
  {
    if y % whole == 0 {
      var k := y / whole;
      assert y == whole * k == part * (times * k);
      DivideIs(y, part, times * k, 0);
    }
  }

  lemma Quotient(y: nat, n: nat)
    requires y >= 1 && n >= 1
    ensures y / n == (y - 1) / n + (if y % n == 0 then 1 else 0)
  {
    var q, r := (y - 1) / n, (y - 1) % n;
    assert y == n * q + r + 1;
    if r + 1 == n {
      assert y == n * (q + 1);
      DivideIs(y, n, q + 1, 0);
    } else {
      DivideIs(y, n, q, r + 1);
    }
  }

  lemma DivideIs(y: nat, n: nat, q: nat, r: nat)
    requires n >= 1 && r < n && y == n * q + r
    ensures y / n == q && y % n == r
  {
    var q', r' := y / n, y % n;
    assert n * (q' - q) == r - r';
    Multiple(n, q' - q);
  }

  lemma Multiple(n: int, d: int)
    requires n >= 1 && -n < n * d < n
    ensures d == 0
  {
  }

  /** The lengths of the months. */
  lemma MonthLens(y: nat)
    ensures MonthLen(y, 1) == 31 && MonthLen(y, 3) == 31 && MonthLen(y, 5) == 31 && MonthLen(y, 7) == 31
    ensures MonthLen(y, 8) == 31 && MonthLen(y, 10) == 31 && MonthLen(y, 12) == 31
    ensures MonthLen(y, 4) == 30 && MonthLen(y, 6) == 30 && MonthLen(y, 9) == 30 && MonthLen(y, 11) == 30
    ensures MonthLen(y, 2) == if y % 400 == 0 || (y % 4 == 0 && y % 100 != 0) then 29 else 28
  {
  }

  /** The day after. */
  ghost function Tomorrow(d: Date): Date
    requires Exists(d)
  {
    if d.day < MonthLen(d.year, d.month) then Date(d.year, d.month, d.day + 1)
    else if d.month < 12 then Date(d.year, d.month + 1, 1)
    else Date(d.year + 1, 1, 1)
  }

  lemma TomorrowIsNext(d: Date)
    requires Exists(d)
    ensures Exists(Tomorrow(d)) && Ordinal(Tomorrow(d)) == Ordinal(d) + 1
  {
    LongMonths(d.year, d.month);
    LongMonths(d.year, d.month + 1);
    LongMonths(d.year + 1, 1);
    hide MonthLen, YearLen;
    if d.day == MonthLen(d.year, d.month) {
      if d.month < 12 {
        assert BeforeMonth(d.year, d.month + 1) == BeforeMonth(d.year, d.month) + MonthLen(d.year, d.month);
      } else {
        MonthsFillTheYear(d.year);
        assert BeforeMonth(d.year, 13) == BeforeMonth(d.year, 12) + MonthLen(d.year, 12);
        assert BeforeYear(d.year + 1) == BeforeYear(d.year) + YearLen(d.year) && BeforeMonth(d.year + 1, 1) == 0;
      }
    }
  }

  lemma LongMonths(y: nat, m: nat)
    ensures MonthLen(y, m) >= 28
  {
  }

  /** The dates are the days from January 1 of year 1 on: each day is one date, and no other. */
  lemma {:induction false} DateOf(ordinal: nat) returns (d: Date)
    requires ordinal >= 1
    ensures Exists(d) && Ordinal(d) == ordinal
    ensures forall x :: Exists(x) && Ordinal(x) == ordinal ==> x == d
    decreases ordinal
  {
    hide Ordinal, Exists, Tomorrow;
    if ordinal == 1 {
      d := Date(1, 1, 1);
      FirstDay();
    } else {
      var before := DateOf(ordinal - 1);
      TomorrowIsNext(before);
      d := Tomorrow(before);
    }
    forall x | Exists(x) && Ordinal(x) == ordinal ensures x == d {
      OrdinalOrder(x, d);
      OrdinalOrder(d, x);
    }
  }

  /** January 1 of year 1 is a Monday, and each day is followed by the next weekday. */
  lemma WeekdaysGoRound(ordinal: nat)
    ensures Weekday(Ordinal(Date(1, 1, 1))) == 0
    ensures Weekday(ordinal + 1) == if Weekday(ordinal) == 6 then 0 else Weekday(ordinal) + 1
  {
    FirstDay();
    hide Ordinal;
  }

  lemma FirstDay()
    ensures Exists(Date(1, 1, 1)) && Ordinal(Date(1, 1, 1)) == 1
  {
  }

  /** The two days of the examples below are a Sunday and a Saturday. */
  lemma KnownDays()
    ensures Weekday(Ordinal(Date(2026, 3, 8))) == 6 && Weekday(Ordinal(Date(2026, 10, 31))) == 5
  {
    BeforeYearIs(2026);
    hide BeforeYear;
    assert BeforeYear(2026) == 739_616;
    assert BeforeMonth(2026, 3) == 59;
    TenMonths(2026);
  }

  lemma TenMonths(y: nat)
    ensures BeforeMonth(y, 10) == BeforeMonth(y, 3) + 214
  {
    var b3 := BeforeMonth(y, 3);
    assert BeforeMonth(y, 5) == b3 + 61;
    assert BeforeMonth(y, 7) == b3 + 122;
    assert BeforeMonth(y, 9) == b3 + 184;
  }

  predicate Before(a: Date, b: Date) {
    a.year < b.year || (a.year == b.year && (a.month < b.month || (a.month == b.month && a.day < b.day)))
  }

  /** Dates compare as their ordinals do. */
  lemma OrdinalOrder(a: Date, b: Date)
    requires Exists(a) && Exists(b)
    ensures Before(a, b) <==> Ordinal(a) < Ordinal(b)
  {
    hide MonthLen, YearLen, BeforeYear, BeforeMonth;
    if a.year < b.year {
      LaterYear(a, b);
    } else if b.year < a.year {
      LaterYear(b, a);
    } else if a.month < b.month {
      BeforeMonthRises(a.year, a.month, b.month);
    } else if b.month < a.month {
      BeforeMonthRises(a.year, b.month, a.month);
    }
  }

  // ----- the reset ---------------------------------------------------------------------------------

  const DAY := 86_400_000_000
  const MINUTE := 60_000_000
  const HORIZON := 7 * DAY

  /** What a matched fragment says about the date. */
  datatype Form = TimeOnly | OnWeekday(weekday: nat) | OnDate(month: nat, day: nat)

  /** The clock time of a fragment in minutes: a twelve-hour clock with its meridiem. */
  function Clock(hour: nat, minute: nat, pm: bool): Option<nat> {
    if !(1 <= hour <= 12) || minute >= 60 then None
    else Some((hour % 12 + (if pm then 12 else 0)) * 60 + minute)
  }

  /** Local date and time of day in microseconds. */
  datatype Moment = Moment(date: Date, tod: nat)

  predicate Sound(now: Moment) {
    Exists(now.date) && now.tod < DAY
  }

  function Instant(ordinal: nat, tod: nat): nat {
    ordinal * DAY + tod
  }

  /** `_reset_candidate_on_named_date`: the ordinal of the date, or nothing. */
  function Candidate(form: Form, today: Date): Option<nat>
    requires Exists(today)
  {
    match form
    case TimeOnly => Some(Ordinal(today))
    case OnWeekday(w) => Some(Ordinal(today) + (w - Weekday(Ordinal(today))) % 7)
    case OnDate(m, d) =>
      var here, next := Date(today.year, m, d), Date(today.year + 1, m, d);
      if !Exists(here) then None
      else if !Before(here, today) then Some(Ordinal(here))
      else if Exists(next) then Some(Ordinal(next))
      else None
  }

  /** `_resolve_reset_candidate`, for a clock time in minutes. */
  function Resolve(form: Form, now: Moment, minutes: nat): Option<nat>
    requires Sound(now)
  {
    match Candidate(form, now.date)
    case None => None
    case Some(ordinal) =>
      var at, here := Instant(ordinal, minutes * MINUTE), Instant(Ordinal(now.date), now.tod);
      if at <= here || at - here >= HORIZON then None else Some(at)
  }

  // ----- what it is meant to be --------------------------------------------------------------------

  /** Does the form name the day; a bare time names only today. */
  ghost predicate Names(form: Form, today: Date, ordinal: nat) {
    match form
    case TimeOnly => ordinal == Ordinal(today)
    case OnWeekday(w) => Weekday(ordinal) == w
    case OnDate(m, d) => exists date :: Exists(date) && Ordinal(date) == ordinal && date.month == m && date.day == d
  }

  /** The first named day from today on. */
  ghost predicate First(form: Form, today: Date, ordinal: nat) {
    && ordinal >= Ordinal(today) && Names(form, today, ordinal)
    && forall c :: Ordinal(today) <= c < ordinal ==> !Names(form, today, c)
  }

  ghost predicate Soon(now: Moment, at: nat) {
    var here := Instant(Ordinal(now.date), now.tod);
    here < at < here + HORIZON
  }

  /** The candidate is the first named day; without one, no named day is near. */
  ghost predicate CandidateOk(form: Form, today: Date)
    requires Exists(today)
  {
    var c := Candidate(form, today);
    if c.Some? then First(form, today, c.value)
    else forall x :: Ordinal(today) <= x <= Ordinal(today) + 7 ==> !Names(form, today, x)
  }

  lemma WeekdayCandidate(w: nat, today: Date)
    requires Exists(today) && w < 7
    ensures CandidateOk(OnWeekday(w), today)
  {
    hide Ordinal;
    var t := Ordinal(today);
    var delta := (w - Weekday(t)) % 7;
    assert Weekday(t + delta) == w;
    forall c | t <= c < t + delta ensures Weekday(c) != w {
      assert 0 <= c - t < delta < 7;
    }
  }

  /** A month and day in the same year, or in a later one. */
  lemma NamedYear(today: Date, m: nat, d: nat, date: Date)
    requires Exists(today) && Exists(date) && date.month == m && date.day == d && Ordinal(date) >= Ordinal(today)
    ensures date.year >= today.year
    ensures date.year == today.year ==> date == Date(today.year, m, d)
  {
    hide Ordinal, MonthLen;
    OrdinalOrder(date, today);
  }

  lemma DateCandidateHere(m: nat, d: nat, today: Date)
    requires Exists(today) && Exists(Date(today.year, m, d)) && !Before(Date(today.year, m, d), today)
    ensures CandidateOk(OnDate(m, d), today)
  {
    hide Ordinal, MonthLen, Exists;
    var here := Date(today.year, m, d);
    OrdinalOrder(here, today);
    forall c | Ordinal(today) <= c < Ordinal(here) ensures !Names(OnDate(m, d), today, c) {
      forall date | Exists(date) && Ordinal(date) == c && date.month == m && date.day == d ensures false {
        NamedYear(today, m, d, date);
        OrdinalOrder(here, date);
        assert false;
      }
    }
  }

  lemma DateCandidateNext(m: nat, d: nat, today: Date)
    requires Exists(today) && Before(Date(today.year, m, d), today)
    requires Exists(Date(today.year, m, d)) && Exists(Date(today.year + 1, m, d))
    ensures CandidateOk(OnDate(m, d), today)
  {
    hide Ordinal, MonthLen, Exists;
    var here, next := Date(today.year, m, d), Date(today.year + 1, m, d);
    OrdinalOrder(here, today);
    OrdinalOrder(today, next);
    forall c | Ordinal(today) <= c < Ordinal(next) ensures !Names(OnDate(m, d), today, c) {
      forall date | Exists(date) && Ordinal(date) == c && date.month == m && date.day == d ensures false {
        NamedYear(today, m, d, date);
        OrdinalOrder(date, next);
        OrdinalOrder(next, date);
        assert false;
      }
    }
  }

  /** Only February 29 exists in one year and not in another. */
  lemma MissingIsLeapDay(m: nat, d: nat, y: nat, z: nat)
    requires y >= 1 && z >= 1 && Exists(Date(y, m, d)) && !Exists(Date(z, m, d))
    ensures m == 2 && d == 29
  {
  }

  /** A leap day of a later year is far away. */
  lemma LeapDayIsFar(today: Date, date: Date)
    requires Exists(today) && Exists(date) && date.month == 2 && date.day == 29 && date.year > today.year
    ensures Ordinal(date) > Ordinal(today) + 7
  {
    hide YearLen, BeforeYear;
    InsideYear(today);
    BeforeYearRises(today.year, date.year);
    assert BeforeMonth(date.year, 2) == 31;
  }

  lemma DateCandidateMissing(m: nat, d: nat, today: Date)
    requires Exists(today) && Candidate(OnDate(m, d), today).None?
    ensures CandidateOk(OnDate(m, d), today)
  {
    hide Ordinal, MonthLen;
    forall x | Ordinal(today) <= x <= Ordinal(today) + 7 ensures !Names(OnDate(m, d), today, x) {
      forall date | Exists(date) && Ordinal(date) == x && date.month == m && date.day == d ensures false {
        NamedYear(today, m, d, date);
        var here, next := Date(today.year, m, d), Date(today.year + 1, m, d);
        if Exists(here) {
          OrdinalOrder(here, today);
          MissingIsLeapDay(m, d, today.year, today.year + 1);
        } else {
          MissingIsLeapDay(m, d, date.year, today.year);
        }
        LeapDayIsFar(today, date);
        assert false;
      }
    }
  }

  lemma CandidateIsFirst(form: Form, today: Date)
    requires Exists(today) && (form.OnWeekday? ==> form.weekday < 7)
    ensures CandidateOk(form, today)
  {
    hide Ordinal, MonthLen, CandidateOk, Before;
    match form
    case TimeOnly => assert CandidateOk(form, today) by { TimeOnlyOk(today); }
    case OnWeekday(w) => WeekdayCandidate(w, today);
    case OnDate(m, d) =>
      if Candidate(form, today).None? {
        DateCandidateMissing(m, d, today);
      } else if Before(Date(today.year, m, d), today) {
        DateCandidateNext(m, d, today);
      } else {
        DateCandidateHere(m, d, today);
      }
  }

  lemma TimeOnlyOk(today: Date)
    requires Exists(today)
    ensures CandidateOk(TimeOnly, today)
  {
  }

  /** A reset resolves exactly when the first day it names, today included, at its clock time lies
      strictly within the next seven days, and then to that instant. */
  lemma ResolveExact(form: Form, now: Moment, minutes: nat, at: nat)
    requires Sound(now) && minutes < 24 * 60 && (form.OnWeekday? ==> form.weekday < 7)
    ensures Resolve(form, now, minutes) == Some(at)
       <==> exists c :: First(form, now.date, c) && at == Instant(c, minutes * MINUTE) && Soon(now, at)
  {
    hide Ordinal, MonthLen, Names, Exists, First;
    CandidateIsFirst(form, now.date);
    var c := Candidate(form, now.date);
    if x :| First(form, now.date, x) && at == Instant(x, minutes * MINUTE) && Soon(now, at) {
      NearDay(now, x, minutes);
      FirstNames(form, now.date, x);
      if c.Some? {
        FirstUnique(form, now.date, c.value, x);
      }
    }
  }

  lemma NearDay(now: Moment, x: nat, minutes: nat)
    requires now.tod < DAY && Soon(now, Instant(x, minutes * MINUTE))
    ensures x <= Ordinal(now.date) + 7
  {
    hide Ordinal;
  }

  lemma FirstNames(form: Form, today: Date, x: nat)
    requires First(form, today, x)
    ensures x >= Ordinal(today) && Names(form, today, x)
  {
  }

  lemma FirstUnique(form: Form, today: Date, a: nat, b: nat)
    requires First(form, today, a) && First(form, today, b)
    ensures a == b
  {
    hide Names, Ordinal;
  }

  /** Every minute of the day has exactly one twelve-hour reading. */
  lemma ClockReadsOnce(minutes: nat) returns (hour: nat, minute: nat, pm: bool)
    requires minutes < 24 * 60
    ensures Clock(hour, minute, pm) == Some(minutes)
    ensures forall h, m, p :: Clock(h, m, p) == Some(minutes) ==> h == hour && m == minute && p == pm
  {
    pm, minute := minutes >= 720, minutes % 60;
    var h12 := minutes / 60 % 12;
    hour := if h12 == 0 then 12 else h12;
  }

  /** The minutes of a reading: midnight is 12 am and noon 12 pm; anything else is refused. */
  lemma ClockIs(hour: nat, minute: nat)
    ensures forall pm :: Clock(hour, minute, pm).None? <==> hour < 1 || hour > 12 || minute > 59
    ensures minute < 60 && 1 <= hour <= 11 ==>
              Clock(hour, minute, false) == Some(60 * hour + minute)
              && Clock(hour, minute, true) == Some(60 * (hour + 12) + minute)
    ensures minute < 60 ==> Clock(12, minute, false) == Some(minute)
    ensures minute < 60 ==> Clock(12, minute, true) == Some(60 * 12 + minute)
  {
  }

  // ----- the instant under any offset --------------------------------------------------------------

  /** The zone: the UTC offset of a local time read with `fold=1`, and the one in force now. */
  datatype Zone = Zone(offsets: imap<nat, int>, current: int)

  ghost predicate Total(zone: Zone) {
    forall local: nat :: local in zone.offsets
  }

  /** The local instant `now` stands for. */
  function Here(now: Moment): nat {
    Instant(Ordinal(now.date), now.tod)
  }

  /** `now` as a UTC instant. */
  ghost function NowUtc(zone: Zone, now: Moment): int {
    Here(now) - zone.current
  }

  /** What `_resolve_reset_candidate` returns: wall clocks are compared, then the candidate is
      converted with the offset of its own date. */
  ghost function ResolveUtc(zone: Zone, form: Form, now: Moment, minutes: nat): Option<int>
    requires Sound(now) && Total(zone)
  {
    match Resolve(form, now, minutes)
    case None => None
    case Some(at) => Some(at - zone.offsets[at])
  }

  /** The promise "strictly future and under seven days out" for every zone. A reset resolves exactly
      when the first named day is near on the wall clock. The instant is then strictly future exactly
      when the clock is not put forward by as much as the wall-clock distance, and under seven days out
      exactly when it is not put back by what is left to seven days. */
  lemma ResolveUtcExact(zone: Zone, form: Form, now: Moment, minutes: nat, u: int)
    requires Sound(now) && Total(zone) && minutes < 24 * 60 && (form.OnWeekday? ==> form.weekday < 7)
    ensures ResolveUtc(zone, form, now, minutes) == Some(u)
       <==> exists c :: First(form, now.date, c) && Soon(now, Instant(c, minutes * MINUTE))
                     && u == Instant(c, minutes * MINUTE) - zone.offsets[Instant(c, minutes * MINUTE)]
    ensures ResolveUtc(zone, form, now, minutes) == Some(u) ==>
              exists at: nat :: Resolve(form, now, minutes) == Some(at)
                && (NowUtc(zone, now) < u <==> zone.offsets[at] - zone.current < at - Here(now))
                && (u < NowUtc(zone, now) + HORIZON <==> zone.current - zone.offsets[at] < HORIZON - (at - Here(now)))
  {
    hide First, Ordinal, Candidate, Exists;
    var r := Resolve(form, now, minutes);
    if r.Some? {
      ResolveExact(form, now, minutes, r.value);
    }
    if c :| First(form, now.date, c) && Soon(now, Instant(c, minutes * MINUTE))
            && u == Instant(c, minutes * MINUTE) - zone.offsets[Instant(c, minutes * MINUTE)] {
      ResolveExact(form, now, minutes, Instant(c, minutes * MINUTE));
    }
  }

  /** In particular the promise holds whenever the offset does not change in between. */
  lemma SameOffsetKeepsPromise(zone: Zone, form: Form, now: Moment, minutes: nat)
    requires Sound(now) && Total(zone) && minutes < 24 * 60 && (form.OnWeekday? ==> form.weekday < 7)
    requires forall at :: Resolve(form, now, minutes) == Some(at) ==> zone.offsets[at] == zone.current
    ensures var u := ResolveUtc(zone, form, now, minutes);
            u.Some? ==> NowUtc(zone, now) < u.value < NowUtc(zone, now) + HORIZON
  {
    hide Ordinal, Candidate, Exists;
    var u := ResolveUtc(zone, form, now, minutes);
    if u.Some? {
      ResolveUtcExact(zone, form, now, minutes, u.value);
    }
  }

  const HOUR := 60 * MINUTE

  /** A zone whose offset changes once, at the local time `change`. */
  ghost function ChangingZone(change: nat, before: int, after: int, current: int): Zone {
    Zone(imap local: nat | Local(local) :: if local < change then before else after, current)
  }

  ghost predicate Local(local: nat) { true }

  /** The first half fails in spring: at 1:59 on the night the clock goes from 2:00 to 3:00 (New York,
      8 March 2026), "resets 2:30am" resolves to an instant 29 minutes in the past. */
  lemma SpringForwardPasses()
    ensures var night := Date(2026, 3, 8);
            var now := Moment(night, 119 * MINUTE);
            var zone := ChangingZone(Instant(Ordinal(night), 120 * MINUTE), -5 * HOUR, -4 * HOUR, -5 * HOUR);
            && Sound(now) && Total(zone)
            && ResolveUtc(zone, TimeOnly, now, 150) == Some(NowUtc(zone, now) - 29 * MINUTE)
  {
    hide BeforeYear;
  }

  /** The second half fails in autumn: at noon on the day before the clock goes back (New York,
      31 October 2026), "resets Nov 7, 11:59am" resolves to an instant 7 days and 59 minutes out. */
  lemma FallBackOverruns()
    ensures var today := Date(2026, 10, 31);
            var now := Moment(today, 720 * MINUTE);
            var change := Instant(Ordinal(Date(2026, 11, 1)), 120 * MINUTE);
            var zone := ChangingZone(change, -4 * HOUR, -5 * HOUR, -4 * HOUR);
            && Sound(now) && Total(zone)
            && ResolveUtc(zone, OnDate(11, 7), now, 719) == Some(NowUtc(zone, now) + HORIZON + 59 * MINUTE)
  {
    hide BeforeYear;
    var today, named := Date(2026, 10, 31), Date(2026, 11, 7);
    assert Ordinal(named) == Ordinal(today) + 7 by { NextMonth(2026); }
  }

  lemma NextMonth(y: nat)
    ensures BeforeMonth(y, 11) == BeforeMonth(y, 10) + 31
  {
  }

  // ----- the armed window --------------------------------------------------------------------------

  /** `resolve_usage_limited_until`: the parsed reset, re-checked, else the flat window. */
  function ArmedUntil(now: int, reset: Option<int>, backoff: int): int {
    if reset.Some? && now < reset.value <= now + HORIZON then reset.value else now + backoff
  }

  /** For every zone, form and back-off: the armed deadline is strictly future and at most seven days or
      the back-off away. At the moment of the parse it is the parsed reset exactly when the wall-clock
      distance outruns the clock change and stays within seven days with it, else the flat window. */
  lemma ArmedFromReset(zone: Zone, form: Form, now: Moment, minutes: nat, later: int, backoff: int)
    requires Sound(now) && Total(zone) && minutes < 24 * 60 && (form.OnWeekday? ==> form.weekday < 7)
    requires backoff > 0
    ensures var until := ArmedUntil(later, ResolveUtc(zone, form, now, minutes), backoff);
            later < until <= later + (if backoff > HORIZON then backoff else HORIZON)
    ensures var until := ArmedUntil(NowUtc(zone, now), ResolveUtc(zone, form, now, minutes), backoff);
            match Resolve(form, now, minutes)
            case None => until == NowUtc(zone, now) + backoff
            case Some(at) =>
              var ahead, shift := at - Here(now), zone.offsets[at] - zone.current;
              if shift < ahead && ahead - shift <= HORIZON then until == at - zone.offsets[at]
              else until == NowUtc(zone, now) + backoff
  {
    hide Ordinal, Candidate, Exists;
  }

  /** In both failing examples the consumer falls back to the flat window. */
  lemma ConsumerCatchesBoth(now: int, backoff: int)
    ensures ArmedUntil(now, Some(now - 29 * MINUTE), backoff) == now + backoff
    ensures ArmedUntil(now, Some(now + HORIZON + 59 * MINUTE), backoff) == now + backoff
  {
  }
}
