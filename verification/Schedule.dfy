/** Occurrences of an interval or daily schedule. Time zone rules are a parameter:
`local` reads an instant on the wall clock, `resolve` finds the instants at which
the wall clock shows a given date and time. */
module Schedule {
  import opened Options

  const MAX_SCHEDULE_PERIOD_SECONDS: nat := 366 * 24 * 60 * 60
  const MAX_DAILY_SEARCH_DAYS: nat := 370

  /** Seconds of universal time. */
  type Instant = int
  /** Days, and seconds of the day. */
  type Date = int
  type TimeOfDay = nat

  datatype Local = Local(date: Date, time: TimeOfDay)
  datatype LocalResult = Single(at: Instant) | Ambiguous(earlier: Instant, later: Instant) | Nonexistent

  /** `lastDate` and `lastInstant` bound what can be represented. */
  datatype Zone = Zone(local: Instant -> Local, resolve: Local -> LocalResult, lastDate: Date, lastInstant: Instant)

  datatype Failure = InvalidPeriod | InvalidLocalTime | SearchHorizonExceeded | TimestampOverflow
  datatype Result = Ok(at: Instant) | Err(failure: Failure)

  datatype Recurrence = Interval(periodSeconds: nat) | Daily(hour: nat, minute: nat, second: nat)

  /** A resolved wall time reads back as itself. */
  ghost predicate Faithful(z: Zone) {
    forall l: Local ::
      match z.resolve(l)
      case Single(at) => z.local(at) == l
      case Ambiguous(earlier, later) => z.local(earlier) == l && z.local(later) == l
      case Nonexistent => true
  }

  function Validate(s: Recurrence): (r: Option<Failure>) {
    match s
    case Interval(p) => if 1 <= p <= MAX_SCHEDULE_PERIOD_SECONDS then None else Some(InvalidPeriod)
    case Daily(h, m, sec) => if h < 24 && m < 60 && sec < 60 then None else Some(InvalidLocalTime)
  }

  function WallTime(s: Recurrence): (t: TimeOfDay)
    requires s.Daily?
  {
    s.hour * 3600 + s.minute * 60 + s.second
  }

  /** The one occurrence on a date: the earlier of two, none in a gap. */
  function Candidate(z: Zone, time: TimeOfDay, date: Date): (r: Option<Instant>) {
    match z.resolve(Local(date, time))
    case Single(at) => Some(at)
    case Ambiguous(earlier, _) => Some(earlier)
    case Nonexistent => None
  }

  /** The wall clock shows the scheduled hour, minute and second, and the instant is the
  only one or the earlier one that the date and time resolve to. */
  predicate OnTheClock(s: Recurrence, z: Zone, at: Instant)
    requires s.Daily?
  {
    var l := z.local(at);
    && l.time / 3600 == s.hour && l.time / 60 % 60 == s.minute && l.time % 60 == s.second
    && match z.resolve(l)
       case Single(only) => at == only
       case Ambiguous(earlier, _) => at == earlier
       case Nonexistent => false
  }

  lemma {:induction false} CandidateOnTheClock(s: Recurrence, z: Zone, date: Date)
    requires s.Daily? && Validate(s).None? && Faithful(z) && Candidate(z, WallTime(s), date).Some?
    ensures OnTheClock(s, z, Candidate(z, WallTime(s), date).value)
    ensures z.local(Candidate(z, WallTime(s), date).value) == Local(date, WallTime(s))
  {
    assert z.local(Candidate(z, WallTime(s), date).value) == Local(date, WallTime(s));
  }

  /** The date has an occurrence not before the bound. */
  predicate Eligible(z: Zone, time: TimeOfDay, date: Date, notBefore: Instant) {
    Candidate(z, time, date).Some? && Candidate(z, time, date).value >= notBefore
  }

  /** The search from a date, with `days` days left to try. */
  function Search(z: Zone, time: TimeOfDay, date: Date, notBefore: Instant, days: nat): (r: Result)
    decreases days, date
  {
    if days == 0 then Err(SearchHorizonExceeded)
    else if Eligible(z, time, date, notBefore) then Ok(Candidate(z, time, date).value)
    else if date >= z.lastDate then Err(TimestampOverflow)
    else Search(z, time, date + 1, notBefore, days - 1)
  }

  /** The search finds the first eligible date within its horizon and the calendar,
  and fails only if there is none. */
  lemma {:induction false} SearchExact(z: Zone, time: TimeOfDay, date: Date, notBefore: Instant, days: nat)
    requires date <= z.lastDate
    ensures match Search(z, time, date, notBefore, days)
            case Ok(at) =>
              exists d :: date <= d < date + days && d <= z.lastDate && Eligible(z, time, d, notBefore)
                && Candidate(z, time, d) == Some(at)
                && forall e | date <= e < d :: !Eligible(z, time, e, notBefore)
            case Err(f) =>
              && f == (if z.lastDate < date + days then TimestampOverflow else SearchHorizonExceeded)
              && forall e | date <= e < date + days && e <= z.lastDate :: !Eligible(z, time, e, notBefore)
    decreases days
  {
    if days > 0 && !Eligible(z, time, date, notBefore) && date < z.lastDate {
      SearchExact(z, time, date + 1, notBefore, days - 1);
      if Search(z, time, date, notBefore, days).Ok? {
        var at := Search(z, time, date, notBefore, days).at;
        var d :| date + 1 <= d < date + days && d <= z.lastDate && Eligible(z, time, d, notBefore)
          && Candidate(z, time, d) == Some(at)
          && forall e | date + 1 <= e < d :: !Eligible(z, time, e, notBefore);
        assert forall e | date <= e < d :: !Eligible(z, time, e, notBefore);
      }
    }
  }

  /** The search loop. */
  method SearchDailyFrom(z: Zone, s: Recurrence, from: Date, notBefore: Instant) returns (r: Result)
    requires s.Daily? && Validate(s).None?
    ensures r == Search(z, WallTime(s), from, notBefore, MAX_DAILY_SEARCH_DAYS)
  {
    var date := from;
    for k := 0 to MAX_DAILY_SEARCH_DAYS
      invariant Search(z, WallTime(s), from, notBefore, MAX_DAILY_SEARCH_DAYS)
             == Search(z, WallTime(s), date, notBefore, MAX_DAILY_SEARCH_DAYS - k)
    {
      var candidate := Candidate(z, WallTime(s), date);
      if candidate.Some? && candidate.value >= notBefore {
        return Ok(candidate.value);
      }
      if date >= z.lastDate {
        return Err(TimestampOverflow);
      }
      date := date + 1;
    }
    return Err(SearchHorizonExceeded);
  }

  function FirstAtOrAfter(s: Recurrence, z: Zone, start: Instant): (r: Result) {
    if Validate(s).Some? then Err(Validate(s).value)
    else match s
      case Interval(_) => Ok(start)
      case Daily(_, _, _) => Search(z, WallTime(s), z.local(start).date, start, MAX_DAILY_SEARCH_DAYS)
  }

  function NextAfter(s: Recurrence, z: Zone, previous: Instant): (r: Result) {
    if Validate(s).Some? then Err(Validate(s).value)
    else match s
      case Interval(p) => if previous + p > z.lastInstant then Err(TimestampOverflow) else Ok(previous + p)
      case Daily(_, _, _) =>
        var date := z.local(previous).date;
        if date >= z.lastDate then Err(TimestampOverflow)
        else Search(z, WallTime(s), date + 1, previous, MAX_DAILY_SEARCH_DAYS)
  }

  /** A daily occurrence is on its wall time, on a later date than the one before
  and strictly later in time; every date passed over has no such time or one that
  falls before the bound. */
  lemma {:induction false} NextAfterDaily(s: Recurrence, z: Zone, previous: Instant)
    requires s.Daily? && Faithful(z) && NextAfter(s, z, previous).Ok?
    ensures var at := NextAfter(s, z, previous).at;
            && at > previous
            && z.local(at).date > z.local(previous).date && z.local(at).time == WallTime(s) && OnTheClock(s, z, at)
            && forall d | z.local(previous).date < d < z.local(at).date :: !Eligible(z, WallTime(s), d, previous)
  {
    var date := z.local(previous).date;
    SearchExact(z, WallTime(s), date + 1, previous, MAX_DAILY_SEARCH_DAYS);
    var at := NextAfter(s, z, previous).at;
    var d :| date + 1 <= d && Candidate(z, WallTime(s), d) == Some(at)
      && at >= previous && forall e | date + 1 <= e < d :: !Eligible(z, WallTime(s), e, previous);
    CandidateOnTheClock(s, z, d);
  }

  /** The first occurrence is not before the start, and is its own first
  occurrence. */
  lemma {:induction false} FirstIsIdempotent(s: Recurrence, z: Zone, start: Instant)
    requires Faithful(z) && FirstAtOrAfter(s, z, start).Ok?
    ensures var at := FirstAtOrAfter(s, z, start).at;
            && at >= start && FirstAtOrAfter(s, z, at) == Ok(at)
            && (s.Daily? ==>
                  && z.local(at).date >= z.local(start).date && z.local(at).time == WallTime(s) && OnTheClock(s, z, at)
                  && forall d | z.local(start).date <= d < z.local(at).date :: !Eligible(z, WallTime(s), d, start))
  {
    if s.Daily? {
      var date := z.local(start).date;
      var at := FirstAtOrAfter(s, z, start).at;
      if date <= z.lastDate {
        SearchExact(z, WallTime(s), date, start, MAX_DAILY_SEARCH_DAYS);
        var d :| date <= d && Candidate(z, WallTime(s), d) == Some(at)
          && at >= start && forall e | date <= e < d :: !Eligible(z, WallTime(s), e, start);
        CandidateOnTheClock(s, z, d);
      } else {
        assert Candidate(z, WallTime(s), date) == Some(at);
        CandidateOnTheClock(s, z, date);
      }
    }
  }

  /** Each instant follows from the one before. */
  predicate Occurrences(s: Recurrence, z: Zone, run: seq<Instant>) {
    forall i | 0 < i < |run| :: NextAfter(s, z, run[i - 1]) == Ok(run[i])
  }

  /** Over a whole run instants strictly increase; daily ones are on strictly
  increasing dates, all after the first on the wall time. */
  lemma {:induction false} RunIncreases(s: Recurrence, z: Zone, run: seq<Instant>, i: nat, j: nat)
    requires Faithful(z) && Occurrences(s, z, run) && i < j < |run|
    ensures run[i] < run[j]
    ensures s.Daily? ==> z.local(run[i]).date < z.local(run[j]).date && OnTheClock(s, z, run[j])
    ensures s.Interval? ==> run[j] == run[i] + (j - i) * s.periodSeconds
    decreases j
  {
    assert NextAfter(s, z, run[j - 1]) == Ok(run[j]);
    if s.Daily? {
      NextAfterDaily(s, z, run[j - 1]);
    }
    if i < j - 1 {
      RunIncreases(s, z, run, i, j - 1);
    }
  }

  /** No date between two occurrences of a run is left out without reason: it is
  the date of an occurrence, or its wall time does not exist, or it falls before
  the occurrence that precedes it. */
  lemma {:induction false} RunMissesNothing(s: Recurrence, z: Zone, run: seq<Instant>, n: nat, d: Date)
    requires s.Daily? && Faithful(z) && Occurrences(s, z, run) && n < |run|
    requires z.local(run[0]).date < d <= z.local(run[n]).date
    ensures || (exists i | 0 < i <= n :: z.local(run[i]).date == d)
            || Candidate(z, WallTime(s), d).None?
            || (exists i | 0 <= i < n :: Candidate(z, WallTime(s), d).value < run[i] && z.local(run[i]).date < d)
    decreases n
  {
    if n > 0 {
      assert NextAfter(s, z, run[n - 1]) == Ok(run[n]);
      NextAfterDaily(s, z, run[n - 1]);
      if d <= z.local(run[n - 1]).date {
        RunMissesNothing(s, z, run, n - 1, d);
      } else if d == z.local(run[n]).date {
        assert 0 < n <= n && z.local(run[n]).date == d;
      } else {
        assert !Eligible(z, WallTime(s), d, run[n - 1]);
        assert Candidate(z, WallTime(s), d).None? || Candidate(z, WallTime(s), d).value < run[n - 1];
        assert z.local(run[n - 1]).date < d;
      }
    }
  }
}
