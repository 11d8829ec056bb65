// Exactly which texts are accepted, and as which schedules (crates/repomon-core/src/schedule.rs:18-59).
module ScheduleGrammar {
  import opened Prelude
  import opened Text
  import opened TextForms
  import opened Schedule
  import opened ScheduleText

  // An hour and a minute with a colon between.
  ghost predicate SaysClock(rest: string, h: nat, m: nat) {
    h <= 23 && m <= 59 && exists x, y :: rest == x + [':'] + y && Spells(x, h) && Spells(y, m)
  }

  // A number of a unit.
  ghost predicate Counts(rest: string, n: nat, unit: char) {
    rest != [] && rest[|rest| - 1] == unit && Spells(rest[..|rest| - 1], n)
  }

  // The two differ by a multiple of two to the 64, and the first is a 64-bit number.
  predicate WrapsTo(minutes: int, n: int) {
    && -0x8000_0000_0000_0000 <= minutes < 0x8000_0000_0000_0000
    && (n - minutes) % 0x1_0000_0000_0000_0000 == 0
  }

  // A number of minutes or of hours, not none, that fits 63 bits; the minutes of the hours may not.
  ghost predicate SaysPeriod(rest: string, minutes: int) {
    exists n: nat ::
      && 0 < n < 0x8000_0000_0000_0000
      && ((Counts(rest, n, 'm') && minutes == n) || (Counts(rest, n, 'h') && WrapsTo(minutes, 60 * n)))
  }

  // The kind in any case.
  ghost predicate SaysKind(kind: string, rest: string, spec: Spec) {
    match spec
    case Daily(h, m) => Lower(kind) == "daily" && SaysClock(rest, h, m)
    case Weekdays(h, m) => Lower(kind) == "weekdays" && SaysClock(rest, h, m)
    case Weekends(h, m) => Lower(kind) == "weekends" && SaysClock(rest, h, m)
    case Every(minutes) => Lower(kind) == "every" && SaysPeriod(rest, minutes)
  }

  // Two words, and nothing else but white space around them.
  ghost predicate Says(s: string, spec: Spec) {
    exists kind, rest :: Words(s) == [kind, rest] && SaysKind(kind, rest, spec)
  }

  lemma ClockIsReadExactly(rest: string, h: nat, m: nat)
    ensures ReadClock(rest) == Some(Clock(h, m)) <==> SaysClock(rest, h, m)
  {
    if ReadClock(rest) == Some(Clock(h, m)) {
      var i := Text.Find(rest, ':');
      NumberIsReadExactly(rest[..i], h);
      NumberIsReadExactly(rest[i + 1..], m);
      assert rest == rest[..i] + [':'] + rest[i + 1..];
    }
    if SaysClock(rest, h, m) {
      var x, y :| rest == x + [':'] + y && Spells(x, h) && Spells(y, m);
      ClockIsRead(x, y, h, m);
    }
  }

  lemma ClockIsRead(x: string, y: string, h: nat, m: nat)
    requires Spells(x, h) && Spells(y, m) && h <= 23 && m <= 59
    ensures ReadClock(x + [':'] + y) == Some(Clock(h, m))
  {
    var rest := x + [':'] + y;
    SpelledWithout(x, h, ':');
    FindFirst(x, ':', y);
    assert rest[..|x|] == x && rest[|x| + 1..] == y;
    NumberIsReadExactly(x, h);
    NumberIsReadExactly(y, m);
  }

  lemma WrappedExactly(minutes: int, n: int)
    ensures Wrap64(n) == minutes <==> WrapsTo(minutes, n)
  {}

  lemma CountIsReadExactly(rest: string, n: nat, unit: char)
    requires rest != []
    ensures Counts(rest, n, unit) <==> rest[|rest| - 1] == unit && ReadNumber(rest[..|rest| - 1]) == Some(n)
  {
    NumberIsReadExactly(rest[..|rest| - 1], n);
  }

  // How a period is read, by its number and its unit.
  lemma PeriodIsRead(rest: string)
    requires rest != []
    ensures
      var n, unit := ReadNumber(rest[..|rest| - 1]), rest[|rest| - 1];
      forall minutes :: ReadPeriod(rest) == Accepted(Every(minutes)) <==>
        && n.Some? && 0 < n.value <= LARGEST
        && ((unit == 'm' && minutes == n.value) || (unit == 'h' && minutes == Wrap64(60 * n.value)))
  {
    SplitBeforeLastByte(rest);
  }

  lemma PeriodIsReadExactly(rest: string, minutes: int)
    requires rest != []
    ensures ReadPeriod(rest) == Accepted(Every(minutes)) <==> SaysPeriod(rest, minutes)
  {
    PeriodIsRead(rest);
    var x, unit := rest[..|rest| - 1], rest[|rest| - 1];
    forall n: nat, u: char ensures Counts(rest, n, u) <==> unit == u && ReadNumber(x) == Some(n) {
      CountIsReadExactly(rest, n, u);
    }
    if ReadNumber(x).Some? {
      WrappedExactly(minutes, 60 * ReadNumber(x).value);
      assert Counts(rest, ReadNumber(x).value, unit);
    }
  }

  // A text is accepted as a schedule exactly when it says so; PanicsExactly tells which of the others
  // make the reader panic, and the rest is rejected.
  lemma AcceptedExactly(s: string, spec: Spec)
    ensures ParseSpec(s) == Accepted(spec) <==> Says(s, spec)
  {
    WordsAreWords(s);
    if |Words(s)| == 2 {
      var kind, rest := Words(s)[0], Words(s)[1];
      assert Words(s) == [kind, rest] && rest in Words(s);
      match spec {
        case Every(minutes) => PeriodIsReadExactly(rest, minutes); KindsDiffer();
        case _ => ClockIsReadExactly(rest, spec.h, spec.m); KindsDiffer();
      }
    }
  }

  lemma KindsDiffer()
    ensures "daily" != "weekdays" && "daily" != "weekends" && "daily" != "every"
    ensures "weekdays" != "weekends" && "weekdays" != "every" && "weekends" != "every"
  {
    assert "weekdays"[4] != "weekends"[4];
  }
}
