// The next firing of a schedule (crates/repomon-core/src/schedule.rs:61-108). Instants and local
// times are nanoseconds since the start of 1 January 1970.
module Schedule {
  import opened Prelude
  import opened Arithmetic

  datatype Spec =
    | Daily(h: nat, m: nat)
    | Weekdays(h: nat, m: nat)
    | Weekends(h: nat, m: nat)
    | Every(minutes: int)

  const MINUTE := 60_000_000_000
  const DAY := 1440 * MINUTE
  const DAYS_TRIED := 14

  // A time of day, or a period that goes forward.
  predicate Valid(s: Spec) {
    match s
    case Every(minutes) => minutes > 0
    case _ => s.h <= 23 && s.m <= 59
  }

  function DayOf(t: int): int { t / DAY }

  function TimeOf(t: int): nat { t % DAY }

  // Day 0 was a Thursday; 0 stands for Sunday and 6 for Saturday.
  function WeekdayOf(day: int): nat { (day + 4) % 7 }

  predicate IsWeekend(day: int) { WeekdayOf(day) == 0 || WeekdayOf(day) == 6 }

  predicate DayOk(s: Spec, day: int) {
    match s
    case Daily(_, _) => true
    case Weekdays(_, _) => !IsWeekend(day)
    case Weekends(_, _) => IsWeekend(day)
    case Every(_) => true
  }

  function Target(s: Spec): nat
    requires !s.Every? && Valid(s)
    ensures Target(s) < DAY
  {
    (s.h * 60 + s.m) * MINUTE
  }

  // ---------------------------------------------------------------- local time

  // The clock on the wall: the local time it shows at each instant, and the first instant at which
  // it shows a local time, if it ever does.
  datatype Zone = Zone(local: int -> int, earliest: int -> Option<int>)

  ghost predicate IsFirst(z: Zone, n: int) {
    match z.earliest(n)
    case Some(t) => z.local(t) == n && forall u :: z.local(u) == n ==> t <= u
    case None => forall u :: z.local(u) != n
  }

  // What comes before a local time that is shown has been shown before, or is skipped for good.
  ghost predicate InOrder(z: Zone, t: int, n: int) {
    n <= z.local(t) && z.earliest(n).Some? ==> z.earliest(n).value <= t
  }

  ghost predicate IsZone(z: Zone) {
    && (forall n {:trigger IsFirst(z, n)} :: IsFirst(z, n))
    && (forall t, n {:trigger InOrder(z, t, n)} :: InOrder(z, t, n))
  }

  // A firing is the first instant at which the clock shows the target time on a day that will do.
  predicate Fires(s: Spec, z: Zone, t: int)
    requires !s.Every? && Valid(s)
  {
    TimeOf(z.local(t)) == Target(s) && DayOk(s, DayOf(z.local(t))) && z.earliest(z.local(t)) == Some(t)
  }

  // The first day that is tried.
  function FirstDay(s: Spec, z: Zone, after: int): int
    requires !s.Every? && Valid(s)
  {
    var now := z.local(after);
    if TimeOf(now) >= Target(s) then DayOf(now) + 1 else DayOf(now)
  }

  // `next` is the first firing after `after`.
  ghost predicate IsNext(s: Spec, z: Zone, after: int, next: int)
    requires !s.Every? && Valid(s)
  {
    && after < next && Fires(s, z, next)
    && (forall t :: after < t && Fires(s, z, t) ==> next <= t)
  }

  function TargetOn(s: Spec, day: int): int
    requires !s.Every? && Valid(s)
  {
    day * DAY + Target(s)
  }

  // A day will not do, or the clock does not show the target time on it, or has shown it already.
  predicate RuledOut(s: Spec, z: Zone, after: int, day: int)
    requires !s.Every? && Valid(s)
  {
    var first := z.earliest(TargetOn(s, day));
    !DayOk(s, day) || first.None? || first.value <= after
  }

  // So it is with every day that is tried.
  ghost predicate AllRuledOut(s: Spec, z: Zone, after: int)
    requires !s.Every? && Valid(s)
  {
    forall d {:trigger RuledOut(s, z, after, d)} ::
      FirstDay(s, z, after) <= d < FirstDay(s, z, after) + DAYS_TRIED ==> RuledOut(s, z, after, d)
  }

  lemma DayAndTime(day: int, time: nat)
    requires time < DAY
    ensures DayOf(day * DAY + time) == day && TimeOf(day * DAY + time) == time
  {}

  // A day's candidate is a firing, and every firing is its day's candidate.
  lemma CandidateFires(s: Spec, z: Zone, day: int)
    requires !s.Every? && Valid(s) && IsZone(z) && DayOk(s, day) && z.earliest(TargetOn(s, day)).Some?
    ensures
      var t := z.earliest(TargetOn(s, day)).value;
      Fires(s, z, t) && DayOf(z.local(t)) == day
  {
    assert IsFirst(z, TargetOn(s, day));
    DayAndTime(day, Target(s));
  }

  lemma FiringIsCandidate(s: Spec, z: Zone, t: int)
    requires !s.Every? && Valid(s) && Fires(s, z, t)
    ensures z.earliest(TargetOn(s, DayOf(z.local(t)))) == Some(t) && DayOk(s, DayOf(z.local(t)))
  {
    assert z.local(t) == DayOf(z.local(t)) * DAY + TimeOf(z.local(t));
  }

  // No firing comes later on a day before the first one tried.
  lemma FiresFromFirstDay(s: Spec, z: Zone, after: int, t: int)
    requires !s.Every? && Valid(s) && IsZone(z) && Fires(s, z, t) && after < t
    ensures FirstDay(s, z, after) <= DayOf(z.local(t))
  {
    var n, now := z.local(t), z.local(after);
    assert InOrder(z, after, n);
    assert n == DayOf(n) * DAY + TimeOf(n) && now == DayOf(now) * DAY + TimeOf(now);
  }

  // Later days fire later.
  lemma LaterDay(s: Spec, z: Zone, t: int, u: int)
    requires !s.Every? && Valid(s) && IsZone(z) && Fires(s, z, t) && Fires(s, z, u)
    requires DayOf(z.local(t)) < DayOf(z.local(u))
    ensures t < u
  {
    assert InOrder(z, u, z.local(t));
    assert z.local(t) == DayOf(z.local(t)) * DAY + TimeOf(z.local(t));
    assert z.local(u) == DayOf(z.local(u)) * DAY + TimeOf(z.local(u));
  }

  // The search over at most fourteen days. It finds the first firing unless every one of those
  // days is ruled out, and then answers a day later than asked.
  method NextAt(s: Spec, z: Zone, after: int) returns (next: int)
    requires !s.Every? && Valid(s) && IsZone(z)
    ensures if AllRuledOut(s, z, after) then next == after + 86_400_000_000_000 else IsNext(s, z, after, next)
  {
    var target := Target(s);
    var day := DayOf(z.local(after));
    if TimeOf(z.local(after)) >= target {
      day := day + 1;
    }
    for i := 0 to DAYS_TRIED
      invariant day == FirstDay(s, z, after) + i
      invariant forall d {:trigger RuledOut(s, z, after, d)} ::
                  FirstDay(s, z, after) <= d < day ==> RuledOut(s, z, after, d)
    {
      var first := z.earliest(day * DAY + target);
      assert IsFirst(z, TargetOn(s, day));
      DayAndTime(day, target);
      if first.Some? {
        var t := first.value;
        if DayOk(s, DayOf(z.local(t))) && t > after {
          FoundFirst(s, z, after, day);
          assert !RuledOut(s, z, after, day);
          return t;
        }
      }
      assert RuledOut(s, z, after, day);
      day := day + 1;
    }
    next := after + DAY;
  }

  lemma FoundFirst(s: Spec, z: Zone, after: int, day: int)
    requires !s.Every? && Valid(s) && IsZone(z) && FirstDay(s, z, after) <= day && !RuledOut(s, z, after, day)
    requires forall d {:trigger RuledOut(s, z, after, d)} ::
               FirstDay(s, z, after) <= d < day ==> RuledOut(s, z, after, d)
    ensures IsNext(s, z, after, z.earliest(TargetOn(s, day)).value)
  {
    var next := z.earliest(TargetOn(s, day)).value;
    CandidateFires(s, z, day);
    forall t | after < t && Fires(s, z, t) ensures next <= t {
      var d := DayOf(z.local(t));
      FiresFromFirstDay(s, z, after, t);
      FiringIsCandidate(s, z, t);
      assert !RuledOut(s, z, after, d);
      if d > day { LaterDay(s, z, next, t); }
    }
  }

  // ---------------------------------------------------------------- when the search succeeds

  // The target time is skipped at most once a week.
  ghost predicate SkipsRarely(s: Spec, z: Zone)
    requires !s.Every? && Valid(s)
  {
    forall d, e {:trigger TargetOn(s, d), TargetOn(s, e)} ::
      d < e < d + 7 ==> z.earliest(TargetOn(s, d)).Some? || z.earliest(TargetOn(s, e)).Some?
  }

  // The clock is never set back by a day or more: what is a day ahead of it has not been shown.
  ghost predicate ComesLater(z: Zone, t: int, n: int) {
    z.local(t) + DAY <= n && z.earliest(n).Some? ==> t < z.earliest(n).value
  }

  ghost predicate TurnsBackBriefly(z: Zone) {
    forall t, n {:trigger ComesLater(z, t, n)} :: ComesLater(z, t, n)
  }

  // Every week has two days running that will do.
  lemma TwoDaysAreOk(s: Spec, day: int) returns (d: int)
    requires !s.Every?
    ensures day <= d < day + 7 && DayOk(s, d) && DayOk(s, d + 1)
  {
    var w := WeekdayOf(day);
    d := day;
    if s.Weekdays? {
      if w == 0 { d := day + 1; } else if w >= 5 { d := day + 8 - w; }
    } else if s.Weekends? {
      d := day + 6 - w;
    }
  }

  lemma NotYetShown(s: Spec, z: Zone, after: int, day: int)
    requires !s.Every? && Valid(s) && TurnsBackBriefly(z) && FirstDay(s, z, after) < day
    requires z.earliest(TargetOn(s, day)).Some?
    ensures after < z.earliest(TargetOn(s, day)).value
  {
    var now := z.local(after);
    assert now == DayOf(now) * DAY + TimeOf(now);
    LaterTarget(s, FirstDay(s, z, after) + 1, day);
    assert ComesLater(z, after, TargetOn(s, day));
  }

  lemma LaterTarget(s: Spec, d: int, e: int)
    requires !s.Every? && Valid(s) && d <= e
    ensures TargetOn(s, d) <= TargetOn(s, e)
  {
    Mono(d, e, DAY);
  }

  // In such a zone the search never falls through.
  lemma NeverFallsThrough(s: Spec, z: Zone, after: int)
    requires !s.Every? && Valid(s) && SkipsRarely(s, z) && TurnsBackBriefly(z)
    ensures !AllRuledOut(s, z, after)
  {
    var d := TwoDaysAreOk(s, FirstDay(s, z, after) + 1);
    var day := if z.earliest(TargetOn(s, d)).Some? then d else d + 1;
    assert z.earliest(TargetOn(s, day)).Some?;
    NotYetShown(s, z, after, day);
    assert !RuledOut(s, z, after, day);
  }

  // ---------------------------------------------------------------- clocks that are moved

  // From `at` on the clock is `offset` ahead of the instants.
  datatype Change = Change(at: int, offset: int)

  // The clock of `z` until a change, and the changed one from then on.
  function Moved(z: Zone, c: Change): Zone {
    Zone(
      t => if t < c.at then z.local(t) else t + c.offset,
      n =>
        var was := z.earliest(n);
        if was.Some? && was.value < c.at then was
        else if n - c.offset >= c.at then Some(n - c.offset)
        else None)
  }

  function ZoneOf(first: int, changes: seq<Change>): Zone {
    if changes == [] then Zone(t => t + first, n => Some(n - first))
    else Moved(ZoneOf(first, changes[..|changes| - 1]), changes[|changes| - 1])
  }

  // All offsets lie within less than a day, and the changes more than eight days apart.
  predicate Within(offset: int, least: int) { least <= offset < least + DAY }

  ghost predicate Calm(first: int, changes: seq<Change>, least: int) {
    && Within(first, least)
    && (forall i :: 0 <= i < |changes| ==> Within(changes[i].offset, least))
    && (forall i :: 0 < i < |changes| ==> changes[i - 1].at + 8 * DAY <= changes[i].at)
  }

  // What is skipped lies before the local times after the last change.
  ghost predicate Settled(z: Zone, least: int, last: int) {
    forall n {:trigger IsFirst(z, n)} :: z.earliest(n).None? ==> n < last + least + DAY
  }

  ghost predicate Offsets(z: Zone, least: int) {
    forall t {:trigger z.local(t)} :: Within(z.local(t) - t, least)
  }

  lemma MovedIsZone(z: Zone, c: Change, least: int, last: int)
    requires IsZone(z) && Offsets(z, least) && Settled(z, least, last) && Within(c.offset, least)
    requires last + DAY <= c.at
    ensures IsZone(Moved(z, c)) && Offsets(Moved(z, c), least) && Settled(Moved(z, c), least, c.at)
  {
    var m := Moved(z, c);
    forall n ensures IsFirst(m, n) && (m.earliest(n).None? ==> n < c.at + least + DAY) {
      assert IsFirst(z, n);
      if m.earliest(n) == Some(n - c.offset) && !(z.earliest(n).Some? && z.earliest(n).value < c.at) {
        forall u | m.local(u) == n ensures n - c.offset <= u { assert u < c.at ==> z.local(u) == n; }
      }
    }
    forall t, n ensures InOrder(m, t, n) {
      assert InOrder(z, t, n) && IsFirst(z, n);
    }
  }

  // Where the target time is skipped by the last change, or was before.
  lemma SkippedBy(z: Zone, c: Change, least: int, last: int, n: int)
    requires IsZone(z) && Offsets(z, least) && Settled(z, least, last) && Within(c.offset, least)
    requires Moved(z, c).earliest(n).None?
    ensures z.earliest(n).None? || c.at + least <= n < c.at + least + DAY
    ensures z.earliest(n).None? ==> n < last + least + DAY
  {
    assert IsFirst(z, n);
    if z.earliest(n).Some? { assert Within(z.local(z.earliest(n).value) - z.earliest(n).value, least); }
  }

  lemma MovedSkipsRarely(s: Spec, z: Zone, c: Change, least: int, last: int)
    requires !s.Every? && Valid(s) && SkipsRarely(s, z)
    requires IsZone(z) && Offsets(z, least) && Settled(z, least, last) && Within(c.offset, least)
    requires last + 8 * DAY <= c.at
    ensures SkipsRarely(s, Moved(z, c))
  {
    var m := Moved(z, c);
    forall d, e | d < e < d + 7
      ensures m.earliest(TargetOn(s, d)).Some? || m.earliest(TargetOn(s, e)).Some?
    {
      LaterTarget(s, d + 1, e);
      LaterTarget(s, e, d + 6);
      if m.earliest(TargetOn(s, d)).None? && m.earliest(TargetOn(s, e)).None? {
        SkippedBy(z, c, least, last, TargetOn(s, d));
        SkippedBy(z, c, least, last, TargetOn(s, e));
      }
    }
  }

  lemma OffsetsTurnBackBriefly(z: Zone, least: int)
    requires IsZone(z) && Offsets(z, least)
    ensures TurnsBackBriefly(z)
  {
    forall t, n ensures ComesLater(z, t, n) {
      assert IsFirst(z, n);
      if z.earliest(n).Some? { assert Within(z.local(z.earliest(n).value) - z.earliest(n).value, least); }
      assert Within(z.local(t) - t, least);
    }
  }

  lemma {:induction false} ChangesSettle(s: Spec, first: int, changes: seq<Change>, least: int, last: int)
    requires !s.Every? && Valid(s) && Calm(first, changes, least)
    requires changes != [] ==> changes[|changes| - 1].at == last
    ensures
      var z := ZoneOf(first, changes);
      IsZone(z) && Offsets(z, least) && Settled(z, least, last) && SkipsRarely(s, z)
  {
    if changes == [] {
      var z := ZoneOf(first, changes);
      forall n ensures IsFirst(z, n) {}
      forall t, n ensures InOrder(z, t, n) {}
    } else {
      var before, c := changes[..|changes| - 1], changes[|changes| - 1];
      var z, earlier := ZoneOf(first, before), if before == [] then c.at - 8 * DAY else before[|before| - 1].at;
      ChangesSettle(s, first, before, least, earlier);
      MovedIsZone(z, c, least, earlier);
      MovedSkipsRarely(s, z, c, least, earlier);
    }
  }

  // A clock that is moved any number of times, forwards and back, by less than a day and with more
  // than a week in between, is such a zone: daylight saving time keeps all the theorems.
  lemma MovedClocksGoOn(s: Spec, first: int, changes: seq<Change>, least: int)
    requires Valid(s) && Calm(first, changes, least)
    ensures GoesOn(s, ZoneOf(first, changes))
  {
    if !s.Every? {
      ChangesSettle(s, first, changes, least, if changes == [] then 0 else changes[|changes| - 1].at);
      OffsetsTurnBackBriefly(ZoneOf(first, changes), least);
    }
  }

  // ---------------------------------------------------------------- skipped days

  // Day 0, the first of January 1970, was a Thursday: days 2 and 3 of every week are its Saturday and
  // Sunday. A daily schedule takes every day, the others take these or leave them out.
  predicate Takes(s: Spec, day: int)
    requires !s.Every?
  {
    match s
    case Daily(_, _) => true
    case Weekdays(_, _) => day % 7 != 2 && day % 7 != 3
    case Weekends(_, _) => day % 7 == 2 || day % 7 == 3
  }

  // A schedule fires exactly at the first instant at which the clock shows its hour and minute, and
  // no more, on a day that it takes.
  lemma FiresExactly(s: Spec, z: Zone, t: int)
    requires !s.Every? && Valid(s)
    ensures
      var n := z.local(t);
      Fires(s, z, t)
      <==> && z.earliest(n) == Some(t) && Takes(s, n / 86_400_000_000_000)
           && n / 3_600_000_000_000 % 24 == s.h && n / 60_000_000_000 % 60 == s.m && n % 60_000_000_000 == 0
  {
    ClockShows(z.local(t), s.h, s.m);
  }

  lemma ClockShows(n: int, h: nat, m: nat)
    requires h <= 23 && m <= 59
    ensures
      TimeOf(n) == (h * 60 + m) * MINUTE
      <==> n / 3_600_000_000_000 % 24 == h && n / 60_000_000_000 % 60 == m && n % 60_000_000_000 == 0
  {
    var minutes, rest := n / 60_000_000_000, n % 60_000_000_000;
    assert n == minutes * 60_000_000_000 + rest;
    HoursAndMinutes(minutes, rest);
    MinutesShow(minutes, h, m);
  }

  lemma HoursAndMinutes(minutes: int, rest: nat)
    requires rest < 60_000_000_000
    ensures
      var n := minutes * 60_000_000_000 + rest;
      n / 3_600_000_000_000 == minutes / 60 && TimeOf(n) == minutes % 1440 * 60_000_000_000 + rest
  {
    var hours, day := minutes / 60, minutes / 1440;
    assert minutes == hours * 60 + minutes % 60 && minutes == day * 1440 + minutes % 1440;
    DayAndTime(day, minutes % 1440 * 60_000_000_000 + rest);
  }

  lemma MinutesShow(minutes: int, h: nat, m: nat)
    requires h <= 23 && m <= 59
    ensures minutes % 1440 == h * 60 + m <==> minutes / 60 % 24 == h && minutes % 60 == m
  {
    assert minutes / 60 == minutes / 1440 * 24 + minutes % 1440 / 60;
  }

  // It fires on a day exactly when it takes the day and the clock shows the time on it.
  lemma FiresOnADayExactly(s: Spec, z: Zone, day: int)
    requires !s.Every? && Valid(s) && IsZone(z)
    ensures
      (exists t :: Fires(s, z, t) && DayOf(z.local(t)) == day)
      <==> Takes(s, day) && exists t :: z.local(t) == TargetOn(s, day)
  {
    assert IsFirst(z, TargetOn(s, day));
    if DayOk(s, day) && z.earliest(TargetOn(s, day)).Some? {
      CandidateFires(s, z, day);
      var t := z.earliest(TargetOn(s, day)).value;
      assert Fires(s, z, t) && DayOf(z.local(t)) == day;
    }
    if t :| Fires(s, z, t) && DayOf(z.local(t)) == day { FiringIsCandidate(s, z, t); }
  }

  // The clock has shown its local time for the first time by `after`, or never shows `n`.
  ghost predicate ShownOnlyBefore(z: Zone, n: int, after: int) {
    forall t :: z.local(t) == n ==> exists u :: u <= after && z.local(u) == n
  }

  // The search falls through exactly when on each of fourteen days, from the one that the clock shows
  // or, past the hour and minute, the next one, the schedule does not take the day or the clock does
  // not show the hour and minute for the first time after `after`.
  lemma FallsThroughExactly(s: Spec, z: Zone, after: int)
    requires !s.Every? && Valid(s) && IsZone(z)
    ensures
      var now, target := z.local(after), s.h * 3_600_000_000_000 + s.m * 60_000_000_000;
      var first := now / 86_400_000_000_000 + if now % 86_400_000_000_000 >= target then 1 else 0;
      AllRuledOut(s, z, after)
      <==> forall day {:trigger Takes(s, day)} :: first <= day < first + 14 ==>
             !Takes(s, day) || ShownOnlyBefore(z, day * 86_400_000_000_000 + target, after)
  {
    forall day ensures RuledOut(s, z, after, day)
                       <==> !Takes(s, day) || ShownOnlyBefore(z, TargetOn(s, day), after) {
      assert IsFirst(z, TargetOn(s, day));
      assert DayOk(s, day) <==> Takes(s, day);
    }
    assert forall day :: TargetOn(s, day)
                         == day * 86_400_000_000_000 + (s.h * 3_600_000_000_000 + s.m * 60_000_000_000);
  }

  // Asked on the evening of Friday, the second of January 1970, a schedule for weekdays at nine
  // answers Monday, and one for weekends Saturday.
  lemma FridayEvening()
    ensures
      var utc, friday := ZoneOf(0, []), 1 * 86_400_000_000_000 + 20 * 3_600_000_000_000;
      && IsNext(Weekdays(9, 0), utc, friday, 4 * 86_400_000_000_000 + 9 * 3_600_000_000_000)
      && IsNext(Weekends(9, 0), utc, friday, 2 * 86_400_000_000_000 + 9 * 3_600_000_000_000)
  {
    var utc, friday := ZoneOf(0, []), 1 * 86_400_000_000_000 + 20 * 3_600_000_000_000;
    MovedClocksGoOn(Weekdays(9, 0), 0, [], 0);
    assert forall t :: utc.local(t) == t && utc.earliest(t) == Some(t);
    assert FirstDay(Weekdays(9, 0), utc, friday) == 2 && FirstDay(Weekends(9, 0), utc, friday) == 2;
    FoundFirst(Weekdays(9, 0), utc, friday, 4);
    FoundFirst(Weekends(9, 0), utc, friday, 2);
  }

  // A clock that goes from two to three on day 1.
  const TWO_TO_THREE: seq<Change> := [Change(DAY + 120 * MINUTE, 60 * MINUTE)]

  lemma TwoToThree(t: int)
    ensures ZoneOf(0, TWO_TO_THREE).local(t) == if t < DAY + 120 * MINUTE then t else t + 60 * MINUTE
    ensures
      ZoneOf(0, TWO_TO_THREE).earliest(t)
      == if t < DAY + 120 * MINUTE then Some(t) else if t < DAY + 180 * MINUTE then None else Some(t - 60 * MINUTE)
  {
    var fixed := ZoneOf(0, []);
    assert TWO_TO_THREE[..|TWO_TO_THREE| - 1] == [];
    assert ZoneOf(0, TWO_TO_THREE) == Moved(fixed, TWO_TO_THREE[0]);
    assert fixed.local(t) == t && fixed.earliest(t) == Some(t);
  }

  // On that day nothing is done for half past two: a daily schedule asked on the evening before
  // answers the day after.
  lemma SkippedInTheGap()
    ensures
      var s, z, evening := Daily(2, 30), ZoneOf(0, TWO_TO_THREE), 1320 * MINUTE;
      && GoesOn(s, z) && DayOf(z.local(evening)) == 0
      && (forall t :: Fires(s, z, t) ==> DayOf(z.local(t)) != 1)
      && IsNext(s, z, evening, 2 * DAY + 90 * MINUTE) && DayOf(z.local(2 * DAY + 90 * MINUTE)) == 2
  {
    var s, z, evening := Daily(2, 30), ZoneOf(0, TWO_TO_THREE), 1320 * MINUTE;
    MovedClocksGoOn(s, 0, TWO_TO_THREE, 0);
    TwoToThree(evening);
    TwoToThree(2 * DAY + 90 * MINUTE);
    NothingInTheGap(s, z);
    TwoToThree(TargetOn(s, 2));
    DayOneIsSkipped(z, evening, 2 * DAY + 90 * MINUTE);
  }

  lemma DayOneIsSkipped(z: Zone, after: int, next: int)
    requires IsZone(z) && z.local(after) == after == 1320 * MINUTE && after < next
    requires z.earliest(TargetOn(Daily(2, 30), 1)).None? && z.earliest(TargetOn(Daily(2, 30), 2)) == Some(next)
    ensures IsNext(Daily(2, 30), z, after, next)
  {
    assert FirstDay(Daily(2, 30), z, after) == 1;
    FoundFirst(Daily(2, 30), z, after, 2);
  }

  lemma NothingInTheGap(s: Spec, z: Zone)
    requires s == Daily(2, 30) && z == ZoneOf(0, TWO_TO_THREE) && IsZone(z)
    ensures z.earliest(TargetOn(s, 1)).None?
    ensures forall t :: Fires(s, z, t) ==> DayOf(z.local(t)) != 1
  {
    TwoToThree(TargetOn(s, 1));
    assert IsFirst(z, TargetOn(s, 1));
    FiresOnADayExactly(s, z, 1);
  }

  // ---------------------------------------------------------------- the next firing

  // The firings go on for ever.
  ghost predicate GoesOn(s: Spec, z: Zone) {
    Valid(s) && (!s.Every? ==> IsZone(z) && SkipsRarely(s, z) && TurnsBackBriefly(z))
  }

  lemma SomeNext(s: Spec, z: Zone, after: int, day: int)
    requires !s.Every? && Valid(s) && IsZone(z) && FirstDay(s, z, after) <= day && !RuledOut(s, z, after, day)
    ensures exists next :: IsNext(s, z, after, next)
    decreases day - FirstDay(s, z, after)
  {
    if d :| FirstDay(s, z, after) <= d < day && !RuledOut(s, z, after, d) {
      SomeNext(s, z, after, d);
    } else {
      FoundFirst(s, z, after, day);
    }
  }

  ghost function NextFiring(s: Spec, z: Zone, after: int): (next: int)
    requires !s.Every? && Valid(s) && IsZone(z) && !AllRuledOut(s, z, after)
    ensures IsNext(s, z, after, next)
  {
    var day :| FirstDay(s, z, after) <= day && !RuledOut(s, z, after, day);
    SomeNext(s, z, after, day);
    var next :| IsNext(s, z, after, next);
    next
  }

  // The answer for a given instant: a period is added to it, and a search that falls through adds
  // a day.
  ghost function NextAfter(s: Spec, z: Zone, after: int): int
    requires Valid(s) && (!s.Every? ==> IsZone(z))
  {
    if s.Every? then after + s.minutes * MINUTE
    else if AllRuledOut(s, z, after) then after + DAY
    else NextFiring(s, z, after)
  }

  // The method and the function agree.
  method Next(s: Spec, z: Zone, after: int) returns (next: int)
    requires Valid(s) && (!s.Every? ==> IsZone(z))
    ensures next == NextAfter(s, z, after)
  {
    if s.Every? {
      next := after + s.minutes * MINUTE;
    } else {
      next := NextAt(s, z, after);
    }
  }

  lemma NextIsFiring(s: Spec, z: Zone, after: int)
    requires !s.Every? && GoesOn(s, z)
    ensures IsNext(s, z, after, NextAfter(s, z, after))
  {
    NeverFallsThrough(s, z, after);
  }

  // ---------------------------------------------------------------- iteration

  ghost function Firing(s: Spec, z: Zone, start: int, k: nat): int
    requires GoesOn(s, z)
  {
    if k == 0 then start else NextAfter(s, z, Firing(s, z, start, k - 1))
  }

  // An instant at which the schedule, started at `start`, is due.
  predicate Due(s: Spec, z: Zone, start: int, t: int)
    requires Valid(s)
  {
    start < t && if s.Every? then (t - start) % (s.minutes * 60_000_000_000) == 0 else Fires(s, z, t)
  }

  lemma {:induction false} FiringsAreDue(s: Spec, z: Zone, start: int, k: nat)
    requires GoesOn(s, z) && k > 0
    ensures Due(s, z, start, Firing(s, z, start, k)) && Firing(s, z, start, k - 1) < Firing(s, z, start, k)
  {
    if s.Every? {
      Period(s, z, start, k);
      Multiple(s.minutes * MINUTE, k);
    } else {
      NextIsFiring(s, z, Firing(s, z, start, k - 1));
      if k > 1 { FiringsAreDue(s, z, start, k - 1); }
    }
  }

  lemma Multiple(p: int, k: nat)
    requires p > 0
    ensures (k * p) % p == 0 && (k > 0 ==> k * p > 0)
  {
    Quotient(k, 0, p);
    Mono(0, k, p);
  }

  lemma {:induction false} Period(s: Spec, z: Zone, start: int, k: nat)
    requires GoesOn(s, z) && s.Every?
    ensures Firing(s, z, start, k) == start + k * (s.minutes * MINUTE)
  {
    if k > 0 { Period(s, z, start, k - 1); }
  }

  // Nothing is due strictly between two firings.
  lemma NothingBetween(s: Spec, z: Zone, start: int, k: nat, t: int)
    requires GoesOn(s, z) && Firing(s, z, start, k) < t && Due(s, z, start, t)
    ensures Firing(s, z, start, k + 1) <= t
  {
    if s.Every? {
      Period(s, z, start, k);
      Period(s, z, start, k + 1);
      var p := s.minutes * MINUTE;
      Divides(p, t - start);
      NextMultiple(p, k, (t - start) / p);
    } else {
      NextIsFiring(s, z, Firing(s, z, start, k));
    }
  }

  lemma Divides(p: int, n: int)
    requires p > 0 && n % p == 0
    ensures n == (n / p) * p
  {}

  lemma NextMultiple(p: int, k: nat, q: int)
    requires p > 0 && k * p < q * p
    ensures (k + 1) * p <= q * p
  {
    if q <= k { Mono(q, k, p); }
    Mono(k, q, p);
  }

  // Iterating from the start meets every due instant exactly once and in order.
  lemma EveryDueInstantIsMet(s: Spec, z: Zone, start: int, t: int) returns (k: nat)
    requires GoesOn(s, z) && Due(s, z, start, t)
    ensures k > 0 && Firing(s, z, start, k) == t
    ensures forall j: nat :: j > 0 && j != k ==> Firing(s, z, start, j) != t
  {
    k := 1;
    NothingBetween(s, z, start, 0, t);
    FiringsAreDue(s, z, start, 1);
    while Firing(s, z, start, k) < t
      invariant k > 0 && Firing(s, z, start, k) <= t
      decreases t - Firing(s, z, start, k)
    {
      NothingBetween(s, z, start, k, t);
      FiringsAreDue(s, z, start, k + 1);
      k := k + 1;
    }
    MetOnce(s, z, start, k);
  }

  lemma MetOnce(s: Spec, z: Zone, start: int, k: nat)
    requires GoesOn(s, z)
    ensures forall j: nat :: j != k ==> Firing(s, z, start, j) != Firing(s, z, start, k)
  {
    forall j: nat | j != k ensures Firing(s, z, start, j) != Firing(s, z, start, k) {
      if j < k { Increasing(s, z, start, j, k); } else { Increasing(s, z, start, k, j); }
    }
  }

  lemma {:induction false} Increasing(s: Spec, z: Zone, start: int, i: nat, j: nat)
    requires GoesOn(s, z) && i < j
    ensures Firing(s, z, start, i) < Firing(s, z, start, j)
  {
    FiringsAreDue(s, z, start, j);
    if i < j - 1 { Increasing(s, z, start, i, j - 1); }
  }
}
