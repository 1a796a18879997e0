/** Daily and weekly UTC schedules: `minute hour * * weekday`. */
module Cron {
  import opened Wrappers
  import opened Windows

  /** A field of the schedule text, after splitting it at white space. */
  datatype Field = Star | Number(value: int) | Word

  /** weekday counts from Sunday = 0; None is every day. */
  datatype Schedule = Schedule(minute: nat, hour: nat, weekday: Option<nat>)

  ghost predicate WellFormed(c: Schedule) {
    c.minute <= 59 && c.hour <= 23 && (c.weekday.Some? ==> c.weekday.value <= 6)
  }

  /** None where the resolver raises. */
  function ParseSchedule(fields: seq<Field>): (parsed: Option<Schedule>)
    ensures parsed.Some? ==> WellFormed(parsed.value)
    ensures parsed.Some? <==>
              && |fields| == 5 && fields[2] == Star && fields[3] == Star
              && (fields[0].Number? && 0 <= fields[0].value <= 59)
              && (fields[1].Number? && 0 <= fields[1].value <= 23)
              && (fields[4] == Star || (fields[4].Number? && 0 <= fields[4].value <= 6))
  {
    if |fields| != 5 || fields[2..4] != [Star, Star] then None
    else if !fields[0].Number? || !fields[1].Number? then None
    else if !(0 <= fields[0].value <= 59 && 0 <= fields[1].value <= 23) then None
    else
      match fields[4]
      case Star => Some(Schedule(fields[0].value, fields[1].value, None))
      case Number(day) => if 0 <= day <= 6 then Some(Schedule(fields[0].value, fields[1].value, Some(day))) else None
      case Word => None
  }

  /** The time of day at which a schedule fires. */
  function TimeOfDay(c: Schedule): int { (c.hour * 60 + c.minute) * MINUTE }

  /** Day 0, 1970-01-01, was a Thursday. */
  function Weekday(day: int): nat { (day + 4) % 7 }

  /** The instants a schedule stands for. */
  predicate Fires(c: Schedule, t: Instant) {
    t % DAY == TimeOfDay(c) && (c.weekday.Some? ==> Weekday(DayOf(t)) == c.weekday.value)
  }

  function NextRun(c: Schedule, now: Instant): Instant {
    var today := DayOf(now) * DAY + TimeOfDay(c);
    match c.weekday
    case None => if today > now then today else today + DAY
    case Some(weekday) =>
      var ahead := (weekday - Weekday(DayOf(now))) % 7;
      var candidate := today + ahead * DAY;
      if candidate > now then candidate else candidate + 7 * DAY
  }

  lemma InstantParts(day: int, offset: int)
    requires 0 <= offset < DAY
    ensures DayOf(day * DAY + offset) == day && (day * DAY + offset) % DAY == offset
  {
  }

  lemma SplitInstant(t: Instant)
    ensures t == DayOf(t) * DAY + t % DAY && 0 <= t % DAY < DAY
  {
  }

  lemma WeekdayAhead(from: int, day: int, weekday: nat)
    requires weekday <= 6 && Weekday(day) == weekday
    ensures (day - from) % 7 == (weekday - Weekday(from)) % 7
  {
  }

  /** The next run is a firing after now. */
  lemma NextRunFires(c: Schedule, now: Instant)
    requires WellFormed(c)
    ensures now < NextRun(c, now) && Fires(c, NextRun(c, now))
  {
    SplitInstant(now);
    var day, offset := DayOf(now), TimeOfDay(c);
    assert 0 <= offset < DAY;
    match c.weekday {
      case None =>
        InstantParts(day, offset);
        InstantParts(day + 1, offset);
      case Some(weekday) =>
        var ahead := (weekday - Weekday(day)) % 7;
        InstantParts(day + ahead, offset);
        InstantParts(day + ahead + 7, offset);
        WeekdayReached(day, weekday);
    }
  }

  lemma WeekdayReached(day: int, weekday: nat)
    requires weekday <= 6
    ensures var ahead := (weekday - Weekday(day)) % 7;
            Weekday(day + ahead) == weekday && Weekday(day + ahead + 7) == weekday
  {
  }

  /** next_cron_run is the least firing strictly after now. */
  lemma NextRunIsLeast(c: Schedule, now: Instant)
    requires WellFormed(c)
    ensures now < NextRun(c, now) && Fires(c, NextRun(c, now))
    ensures forall t :: now < t < NextRun(c, now) ==> !Fires(c, t)
  {
    hide Fires, NextRun;
    NextRunFires(c, now);
    forall t | now < t < NextRun(c, now) ensures !Fires(c, t) {
      if Fires(c, t) { FiringNotBefore(c, now, t); }
    }
  }

  lemma FiringNotBefore(c: Schedule, now: Instant, t: Instant)
    requires WellFormed(c) && now < t && Fires(c, t)
    ensures NextRun(c, now) <= t
  {
    SplitInstant(now);
    SplitInstant(t);
    DayMonotone(now, t);
    if c.weekday.Some? {
      WeekdayAhead(DayOf(now), DayOf(t), c.weekday.value);
    }
  }

  lemma DayMonotone(a: Instant, b: Instant)
    requires a <= b
    ensures DayOf(a) <= DayOf(b)
  {
  }

  /** Every firing after one instant and up to another, in order. */
  method ElapsedRuns(c: Schedule, after: Instant, until: Instant) returns (elapsed: seq<Instant>)
    requires WellFormed(c)
    ensures forall t :: t in elapsed <==> after < t <= until && Fires(c, t)
    ensures forall i, j :: 0 <= i < j < |elapsed| ==> elapsed[i] < elapsed[j]
  {
    elapsed := [];
    var cursor := after;
    while true
      invariant after <= cursor && forall i :: 0 <= i < |elapsed| ==> elapsed[i] <= cursor
      invariant forall t :: t in elapsed <==> after < t <= until && t <= cursor && Fires(c, t)
      invariant forall i, j :: 0 <= i < j < |elapsed| ==> elapsed[i] < elapsed[j]
      decreases until - cursor
    {
      NextRunIsLeast(c, cursor);
      var candidate := NextRun(c, cursor);
      if candidate > until { return; }
      elapsed := elapsed + [candidate];
      cursor := candidate;
    }
  }

  // ---------- Daily schedules ----------

  function LatestDue(c: Schedule, now: Instant): Instant {
    var candidate := DayOf(now) * DAY + TimeOfDay(c);
    if candidate <= now then candidate else candidate - DAY
  }

  /** The verifier's latest due window is the greatest firing up to now, and the worker's next
      run is exactly one day after it: the two resolvers agree. */
  lemma LatestDueAgrees(c: Schedule, now: Instant)
    requires WellFormed(c) && c.weekday.None?
    ensures LatestDue(c, now) <= now && Fires(c, LatestDue(c, now))
    ensures NextRun(c, now) == LatestDue(c, now) + DAY
    ensures forall t :: LatestDue(c, now) < t <= now ==> !Fires(c, t)
  {
  }
}
