// What the watcher promises about every pause (crates/repomon-daemon/src/auto_continue.rs:17-40, 79-321).
module AutoContinueTheorems {
  import opened Prelude
  import opened AutoContinue
  import opened AutoContinueInvariant
  import opened Sorting
  import opened Text

  // A pause tracked now or in the past.
  ghost predicate WasTracked(s: State, p: Pause) {
    (exists w :: w in s.hist.pauses && s.hist.pauses[w] == p) || (exists e :: e in s.hist.ended && e.pause == p)
  }

  lemma TrackedOk(now: int, run: seq<Step>, p: Pause)
    requires WasTracked(After(Start(now), run), p)
    ensures PauseOk(p)
  {
    RunInv(now, run);
    var s := After(Start(now), run);
    if w :| w in s.hist.pauses && s.hist.pauses[w] == p { assert PairAt(s.mem, s.hist, w, s.pass.now); }
  }

  // ---------------------------------------------------------------- when texts are sent

  // A text is never sent before the reset and its buffer, or, without a known reset, before
  // five minutes have passed; never later than six hours after the pause was detected; and
  // never sooner than the cadence after the text before it.
  lemma TextsComeInTime(now: int, run: seq<Step>, p: Pause, i: nat)
    requires WasTracked(After(Start(now), run), p) && i < |p.sends|
    ensures p.since.resetAt.Some? ==> p.sends[i].at >= p.since.resetAt.value + 60 * SECOND
    ensures p.since.resetAt.None? ==> p.sends[i].at >= p.since.detected + 5 * MINUTE
    ensures p.since.detected <= p.sends[i].at <= p.since.detected + 360 * MINUTE
    ensures i > 0 ==>
              p.sends[i].at - p.sends[i - 1].at >= (if p.since.resetAt.Some? then 5 else 20) * MINUTE
  {
    TrackedOk(now, run, p);
  }

  // Spacing adds up.
  lemma {:induction false} Spread(p: Pause, i: nat)
    requires SendsSpaced(p) && i < |p.sends|
    ensures p.sends[i].at >= p.sends[0].at + i * Cadence(p.since.resetAt)
  {
    if i > 0 { Spread(p, i - 1); }
  }

  // A pause sends at most 73 texts when its reset is known and at most 18 when it is not.
  lemma TextsAreFew(now: int, run: seq<Step>, p: Pause)
    requires WasTracked(After(Start(now), run), p)
    ensures |p.sends| <= if p.since.resetAt.Some? then 73 else 18
  {
    TrackedOk(now, run, p);
    if p.sends != [] { Spread(p, |p.sends| - 1); }
  }

  // Giving up is final for the pause.
  lemma NothingAfterGivingUp(now: int, run: seq<Step>, p: Pause)
    requires WasTracked(After(Start(now), run), p) && p.sentAtGiveUp.Some?
    ensures |p.sends| == p.sentAtGiveUp.value
  {
    TrackedOk(now, run, p);
  }

  // The wait option is chosen at most once in a pause, and a text goes into a window that shows
  // the menu only if it was chosen 90 seconds before or earlier.
  lemma MenuIsChosenFirst(now: int, run: seq<Step>, p: Pause, i: nat)
    requires WasTracked(After(Start(now), run), p)
    ensures |p.choices| <= 1
    ensures i < |p.sends| && p.sends[i].menuShown ==>
              p.choices != [] && p.sends[i].at - p.choices[0] >= 90 * SECOND
  {
    TrackedOk(now, run, p);
  }

  // No text is typed outside a pause of its window.
  lemma EveryTextBelongsToAPause(now: int, run: seq<Step>, w: Window, at: int)
    requires Text(w, at) in After(Start(now), run).mem.out
    ensures exists p, i :: WasTracked(After(Start(now), run), p) && p.since.window == w
                           && 0 <= i < |p.sends| && p.sends[i].at == at
  {
    RunInv(now, run);
    var s := After(Start(now), run);
    assert Recorded(s.hist, w, at);
    var p := if w in s.hist.pauses && Sent(s.hist.pauses[w], w, at) then s.hist.pauses[w]
             else var e :| e in s.hist.ended && Sent(e.pause, w, at); e.pause;
    assert WasTracked(s, p);
    var i :| 0 <= i < |p.sends| && p.sends[i].at == at;
  }

  // A pause that ended as resumed had just been missed in two readable captures in a row.
  lemma ResumedAfterTwoMisses(now: int, run: seq<Step>, p: Pause)
    requires Ended(p, Resumed) in After(Start(now), run).hist.ended
    ensures |p.seen| >= 2 && !p.seen[|p.seen| - 1] && !p.seen[|p.seen| - 2]
  {
    RunInv(now, run);
    assert EndedOk(Ended(p, Resumed));
  }

  // ---------------------------------------------------------------- the public view

  // In every run a window in the public view is tracked and not given up, with the pause's own
  // reset time and instant of detection.
  lemma ViewIsTracked(now: int, run: seq<Step>, w: Window)
    requires w in After(Start(now), run).mem.rates
    ensures
      var s := After(Start(now), run);
      && w in s.hist.pauses && s.hist.pauses[w].sentAtGiveUp.None?
      && s.mem.rates[w] == RateLimit(s.hist.pauses[w].since.resetAt, s.hist.pauses[w].since.detected)
  {
    RunInv(now, run);
    var s := After(Start(now), run);
    assert PairAt(s.mem, s.hist, w, s.pass.now);
  }

  // The view shows exactly the tracked windows that were not given up.
  ghost predicate ViewAgrees(m: Memory) {
    ViewSound(m) && forall w :: w in m.sched && !m.sched[w].gaveUp ==> w in m.rates
  }

  // Disarming a lane takes a tracked window out of the view.
  ghost predicate HidesAPause(m: Memory, step: Step) {
    step.Toggle? && !step.enabled && exists w :: w in m.rates && InLane(w, step.lane)
  }

  lemma NotedAgrees(m: Memory, w: Window, hit: bool)
    requires ViewAgrees(m)
    ensures ViewAgrees(NoteMemory(m, w, hit))
  {
    var n := NoteMemory(m, w, hit);
    NotedView(m, w, hit);
    forall v | v in n.sched && !n.sched[v].gaveUp ensures v in n.rates { assert v in m.sched; }
  }

  lemma AppliedAgrees(m: Memory, w: Window, action: Action, now: int)
    requires ViewAgrees(m)
    ensures ViewAgrees(ApplyMemory(m, w, action, now))
  {
    var n := ApplyMemory(m, w, action, now);
    AppliedView(m, w, action, now);
    forall v | v in n.sched && !n.sched[v].gaveUp ensures v in n.rates {
      if v != w || !action.Track? { assert v in m.sched; }
    }
  }

  lemma ToggleAgrees(s: State, lane: Lane, enabled: bool)
    requires ViewAgrees(s.mem)
    ensures ViewAgrees(ToggleStep(s, lane, enabled).mem) <==> !HidesAPause(s.mem, Toggle(lane, enabled))
  {
    var m, n := s.mem, ToggleStep(s, lane, enabled).mem;
    if w :| w in m.rates && InLane(w, lane) {
      if !enabled { assert w in n.sched && w !in n.rates; }
    } else {
      assert n.rates == m.rates;
    }
  }

  // Once the view agrees with the private schedule, every step keeps it so except disarming a
  // lane that shows a pause; that step always breaks the agreement.
  lemma ViewAgreesUntilAPauseIsHidden(s: State, step: Step)
    requires ViewAgrees(s.mem)
    ensures ViewAgrees(Next(s, step).mem) <==> !HidesAPause(s.mem, step)
  {
    if Enabled(s, step) {
      match step
      case Begin(now, globalOn, names) =>
        if names.Some? { BeginAgrees(s.mem, ManagedWindows(names.value)); }
      case Look(capture) =>
        if s.pass.todo != [] && capture.Some? {
          var w, d := s.pass.todo[0], capture.value;
          NotedAgrees(s.mem, w, d.Some?);
          AppliedAgrees(NoteMemory(s.mem, w, d.Some?), w, ActionFor(s.mem, s.pass, w, d), s.pass.now);
        }
      case Toggle(lane, enabled) => ToggleAgrees(s, lane, enabled);
    }
  }

  lemma BeginAgrees(m: Memory, ws: seq<Window>)
    requires ViewAgrees(m)
    ensures ViewAgrees(BeginMemory(m, ws))
  {
    var n := BeginMemory(m, ws);
    forall w | w in n.rates ensures w in n.sched && !n.sched[w].gaveUp && n.rates[w] == View(n.sched[w]) {
      assert w in m.rates;
    }
    forall w | w in n.sched && !n.sched[w].gaveUp ensures w in n.rates { assert w in m.sched; }
  }

  // Over the watcher's own steps the view agrees throughout.
  lemma {:induction false} WatcherKeepsTheView(now: int, run: seq<Step>)
    requires forall i :: 0 <= i < |run| ==> !run[i].Toggle? || run[i].enabled
    ensures ViewAgrees(After(Start(now), run).mem)
  {
    if run != [] {
      WatcherKeepsTheView(now, run[..|run| - 1]);
      ViewAgreesUntilAPauseIsHidden(After(Start(now), run[..|run| - 1]), run[|run| - 1]);
    }
  }

  // Window `w` is tracked in every state from the `i`th on.
  ghost predicate TrackedFrom(now: int, run: seq<Step>, w: Window, i: nat) {
    forall k {:trigger After(Start(now), run[..k])} ::
      i <= k <= |run| ==> w in After(Start(now), run[..k]).mem.sched
  }

  // The request that disarms the window's lane.
  predicate Disarms(step: Step, w: Window) {
    LaneOf(w).Some? && step == Toggle(LaneOf(w).value, false)
  }

  // The lane of the window was disarmed at some time since its pause was detected.
  ghost predicate DisarmedSince(now: int, run: seq<Step>, w: Window) {
    exists i :: 0 <= i < |run| && Disarms(run[i], w) && TrackedFrom(now, run, w, i)
  }

  lemma TrackedOneMore(now: int, run: seq<Step>, w: Window, i: nat)
    requires run != [] && i < |run|
    ensures
      TrackedFrom(now, run, w, i)
      <==> w in After(Start(now), run).mem.sched && TrackedFrom(now, run[..|run| - 1], w, i)
  {
    var rest := run[..|run| - 1];
    assert run[..|run|] == run;
    forall k | i <= k <= |rest| ensures run[..k] == rest[..k] {}
    if TrackedFrom(now, run, w, i) {
      forall k | i <= k <= |rest| ensures w in After(Start(now), rest[..k]).mem.sched {
        assert w in After(Start(now), run[..k]).mem.sched;
      }
    }
    if w in After(Start(now), run).mem.sched && TrackedFrom(now, rest, w, i) {
      forall k | i <= k <= |run| ensures w in After(Start(now), run[..k]).mem.sched {
        if k < |run| { assert w in After(Start(now), rest[..k]).mem.sched; }
      }
    }
  }

  lemma DisarmedOneMore(now: int, run: seq<Step>, w: Window)
    requires run != []
    ensures
      var rest := run[..|run| - 1];
      DisarmedSince(now, run, w)
      <==> && w in After(Start(now), run).mem.sched
           && (|| DisarmedSince(now, rest, w)
               || (Disarms(run[|run| - 1], w) && w in After(Start(now), rest).mem.sched))
  {
    var rest, n := run[..|run| - 1], |run| - 1;
    assert rest[..n] == rest && run[..n] == rest;
    forall i | 0 <= i < |run|
      ensures TrackedFrom(now, run, w, i)
              <==> w in After(Start(now), run).mem.sched && TrackedFrom(now, rest, w, i)
    {
      TrackedOneMore(now, run, w, i);
    }
    assert TrackedFrom(now, rest, w, n) <==> w in After(Start(now), rest).mem.sched;
    if DisarmedSince(now, rest, w) {
      var i :| 0 <= i < |rest| && run[i] == rest[i] && Disarms(rest[i], w) && TrackedFrom(now, rest, w, i);
      assert w in After(Start(now), run).mem.sched ==> TrackedFrom(now, run, w, i);
    }
  }

  // What the view shows of one window, if its pause is hidden or not.
  ghost predicate ShownAt(m: Memory, w: Window, hidden: bool) {
    && (hidden ==> w in m.sched)
    && (w in m.rates <==> w in m.sched && !m.sched[w].gaveUp && !hidden)
  }

  lemma LookShows(s: State, w: Window, capture: Option<Option<UsageLimit>>, hidden: bool)
    requires ShownAt(s.mem, w, hidden)
    ensures
      var m := LookStep(s, capture).mem;
      ShownAt(m, w, hidden && w in m.sched)
  {
    if s.pass.todo != [] && s.pass.todo[0] != w && capture.Some? {
      OthersKept(s, s.pass.todo[0], capture.value, w);
    }
  }

  lemma StepShows(s: State, w: Window, step: Step, hidden: bool)
    requires ShownAt(s.mem, w, hidden) && ViewSound(s.mem)
    ensures
      var m := Next(s, step).mem;
      ShownAt(
        m, w,
        w in m.sched && (hidden || (Disarms(step, w) && w in s.mem.sched)))
  {
    if Enabled(s, step) && step.Look? { LookShows(s, w, step.capture, hidden); }
  }

  // In every run the view shows a window exactly when its pause is tracked and not given up, and
  // its lane has not been disarmed since the pause was detected.
  lemma {:induction false} ViewExactly(now: int, run: seq<Step>, w: Window)
    ensures
      var m := After(Start(now), run).mem;
      w in m.rates <==> w in m.sched && !m.sched[w].gaveUp && !DisarmedSince(now, run, w)
    ensures DisarmedSince(now, run, w) ==> w in After(Start(now), run).mem.sched
  {
    if run != [] {
      var rest := run[..|run| - 1];
      ViewExactly(now, rest, w);
      RunInv(now, rest);
      DisarmedOneMore(now, run, w);
      StepShows(After(Start(now), rest), w, run[|run| - 1], DisarmedSince(now, rest, w));
    }
  }

  // Disarming and arming a lane again changes nothing but the view, which loses its pauses.
  lemma DisarmAndRearmHides(s: State, w: Window)
    requires LaneOf(w).Some? && LaneOf(w).value !in s.off
    ensures
      var t := Next(Next(s, Toggle(LaneOf(w).value, false)), Toggle(LaneOf(w).value, true));
      && t == s.(mem := s.mem.(rates := OutsideLane(s.mem.rates, LaneOf(w).value)))
      && w !in t.mem.rates
  {
    assert s.off + {LaneOf(w).value} - {LaneOf(w).value} == s.off;
  }

  // A hidden pause stays hidden until it ends.
  lemma HiddenUntilItEnds(s: State, step: Step, w: Window)
    requires w in s.mem.sched && w !in s.mem.rates
    ensures w in Next(s, step).mem.sched ==> w !in Next(s, step).mem.rates
  {}

  // Such a state is reached in four steps: a limit is seen, and the lane is disarmed and armed
  // again before the next pass.
  lemma TrackedButHidden(w: Window, now: int, lim: UsageLimit)
    requires LaneOf(w).Some?
    ensures
      var run := [
        Begin(now, true, Some([w])), Look(Some(Some(lim))),
        Toggle(LaneOf(w).value, false), Toggle(LaneOf(w).value, true)];
      var s := After(Start(now), run);
      w in s.mem.sched && !s.mem.sched[w].gaveUp && w !in s.mem.rates
  {
    OneWindow(w);
    var a, b, c, d :=
      Begin(now, true, Some([w])), Look(Some(Some(lim))),
      Toggle(LaneOf(w).value, false), Toggle(LaneOf(w).value, true);
    var s2 := Next(Next(Start(now), a), b);
    assert w in s2.mem.sched && !s2.mem.sched[w].gaveUp && s2.off == {};
    DisarmAndRearmHides(s2, w);
    FourSteps(Start(now), a, b, c, d);
  }

  lemma OneWindow(w: Window)
    requires LaneOf(w).Some?
    ensures ManagedWindows([w]) == [w]
  {
    OneLaneWindow([w]);
    OneIsSorted(w, ByText());
  }

  lemma OneLaneWindow(names: seq<Window>)
    requires |names| == 1 && LaneOf(names[0]).Some?
    ensures LaneWindows(names) == names
  {
    assert names[..0] == [] && names == [names[0]];
  }

  lemma FourSteps(s: State, a: Step, b: Step, c: Step, d: Step)
    ensures After(s, [a, b, c, d]) == Next(Next(Next(Next(s, a), b), c), d)
  {
    var r1, r2, r3, r4 := [a], [a, b], [a, b, c], [a, b, c, d];
    assert r1[..0] == [] && r2[..1] == r1 && r3[..2] == r2 && r4[..3] == r3;
    assert After(s, r1) == Next(s, a);
    assert After(s, r2) == Next(After(s, r1), b);
    assert After(s, r3) == Next(After(s, r2), c);
    assert After(s, r4) == Next(After(s, r3), d);
  }
}
