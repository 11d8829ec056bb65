// What every step of the watcher keeps (crates/repomon-daemon/src/auto_continue.rs:79-321).
module AutoContinueInvariant {
  import opened Prelude
  import opened AutoContinue

  // ---------------------------------------------------------------- the times of one pause

  function FirstDue(s: Since): int { Schedule(s.resetAt, s.detected) }

  ghost predicate SendsInWindow(p: Pause) {
    forall i :: 0 <= i < |p.sends| ==>
        && FirstDue(p.since) <= p.sends[i].at
        && p.since.detected <= p.sends[i].at <= p.since.detected + GIVE_UP_AFTER
  }

  ghost predicate SendsSpaced(p: Pause) {
    forall i :: 0 < i < |p.sends| ==> p.sends[i - 1].at + Cadence(p.since.resetAt) <= p.sends[i].at
  }

  // Text reaches a menu only when the wait option was chosen long enough before.
  ghost predicate MenuFirst(p: Pause) {
    && |p.choices| <= 1
    && (forall i :: 0 <= i < |p.sends| && p.sends[i].menuShown ==>
          |p.choices| == 1 && p.choices[0] + SEND_COOLDOWN <= p.sends[i].at)
  }

  ghost predicate QuietAfterGiveUp(p: Pause) {
    p.sentAtGiveUp.Some? ==> |p.sends| == p.sentAtGiveUp.value
  }

  ghost predicate PauseOk(p: Pause) {
    SendsInWindow(p) && SendsSpaced(p) && MenuFirst(p) && QuietAfterGiveUp(p)
  }

  // ---------------------------------------------------------------- schedule against history

  // The number of misses since the limit was last seen.
  function Misses(seen: seq<bool>): nat {
    if seen == [] || seen[|seen| - 1] then 0 else 1 + Misses(seen[..|seen| - 1])
  }

  ghost predicate Tracks(s: Sched, p: Pause, w: Window, now: int) {
    && p.since == Since(w, s.started, s.resetAt) && s.started <= now
    && s.gaveUp == p.sentAtGiveUp.Some?
    && s.missStreak == (if Misses(p.seen) < 255 then Misses(p.seen) else 255)
  }

  ghost predicate NextIsDue(s: Sched, p: Pause) {
    s.nextAttempt ==
    if p.sends == [] then FirstDue(p.since) else p.sends[|p.sends| - 1].at + Cadence(s.resetAt)
  }

  // The cooldown counts from the last key or text.
  ghost predicate Cools(s: Sched, p: Pause) {
    && s.menuConfirmed == (|p.choices| == 1)
    && (s.menuConfirmed ==> s.cooldownUntil.Some? && p.choices[0] + SEND_COOLDOWN <= s.cooldownUntil.value)
    && (s.cooldownUntil.Some? ==>
          || (p.choices != [] && s.cooldownUntil.value == p.choices[0] + SEND_COOLDOWN)
          || (p.sends != [] && s.cooldownUntil.value == p.sends[|p.sends| - 1].at + SEND_COOLDOWN))
    && (p.sends != [] ==>
          s.cooldownUntil.Some? && p.sends[|p.sends| - 1].at + SEND_COOLDOWN <= s.cooldownUntil.value)
  }

  // Nothing was typed in the future.
  ghost predicate TypedBefore(p: Pause, now: int) {
    && (forall i :: 0 <= i < |p.choices| ==> p.choices[i] <= now)
    && (forall i :: 0 <= i < |p.sends| ==> p.sends[i].at <= now)
  }

  ghost predicate PairOk(s: Sched, p: Pause, w: Window, now: int) {
    Tracks(s, p, w, now) && NextIsDue(s, p) && Cools(s, p) && TypedBefore(p, now) && PauseOk(p)
  }

  // ---------------------------------------------------------------- one window

  lemma OneMoreSeen(seen: seq<bool>, hit: bool)
    ensures Misses(seen + [hit]) == if hit then 0 else 1 + Misses(seen)
  {
    assert (seen + [hit])[..|seen|] == seen;
  }

  lemma NotedPair(s: Sched, p: Pause, w: Window, now: int, hit: bool)
    requires PairOk(s, p, w, now)
    ensures PairOk(Bump(s, hit), p.(seen := p.seen + [hit]), w, now)
  {
    OneMoreSeen(p.seen, hit);
  }

  lemma SendsOneMore(s: Sched, p: Pause, w: Window, now: int, menu: bool)
    requires PairOk(s, p, w, now) && !s.gaveUp && now <= s.started + GIVE_UP_AFTER
    requires s.cooldownUntil.Some? ==> s.cooldownUntil.value <= now
    requires menu ==> s.menuConfirmed
    requires s.nextAttempt <= now
    ensures
      PairOk(
        s.(cooldownUntil := Some(now + SEND_COOLDOWN), nextAttempt := now + Cadence(s.resetAt)),
        p.(sends := p.sends + [Sending(now, menu)]), w, now)
  {
    var q := p.(sends := p.sends + [Sending(now, menu)]);
    if p.sends != [] { assert FirstDue(p.since) <= p.sends[|p.sends| - 1].at; }
    assert SendsInWindow(q);
    assert SendsSpaced(q);
    assert MenuFirst(q);
  }

  lemma ChoosesOnce(s: Sched, p: Pause, w: Window, now: int)
    requires PairOk(s, p, w, now) && !s.menuConfirmed
    ensures
      PairOk(
        s.(menuConfirmed := true, cooldownUntil := Some(now + SEND_COOLDOWN)),
        p.(choices := p.choices + [now]), w, now)
  {
    assert p.choices == [];
  }

  lemma GivesUp(s: Sched, p: Pause, w: Window, now: int)
    requires PairOk(s, p, w, now) && !s.gaveUp
    ensures PairOk(s.(gaveUp := true), p.(sentAtGiveUp := Some(|p.sends|)), w, now)
  {}

  lemma StartsTracking(resetAt: Option<int>, w: Window, now: int)
    ensures
      PairOk(
        Sched(now, resetAt, Schedule(resetAt, now), false, None, false, 0),
        Pause(Since(w, now, resetAt), [], [], [], None), w, now)
  {}

  lemma TimePasses(s: Sched, p: Pause, w: Window, now: int, later: int)
    requires PairOk(s, p, w, now) && now <= later
    ensures PairOk(s, p, w, later)
  {}

  // ---------------------------------------------------------------- the whole watcher

  // A window is scheduled exactly when it has a pause, and the two fit.
  ghost predicate PairAt(m: Memory, h: History, w: Window, now: int) {
    && (w in m.sched <==> w in h.pauses)
    && (w in m.sched ==> PairOk(m.sched[w], h.pauses[w], w, now))
  }

  ghost predicate Pairs(s: State) {
    forall w {:trigger PairAt(s.mem, s.hist, w, s.pass.now)} :: PairAt(s.mem, s.hist, w, s.pass.now)
  }

  // Two misses in a row, the last two readable captures.
  ghost predicate TwoMisses(seen: seq<bool>) {
    |seen| >= 2 && !seen[|seen| - 1] && !seen[|seen| - 2]
  }

  ghost predicate EndedOk(e: Ended) {
    PauseOk(e.pause) && (e.how == Resumed ==> TwoMisses(e.pause.seen))
  }

  ghost predicate AllEndedOk(h: History) { forall e :: e in h.ended ==> EndedOk(e) }

  // What the public view shows of a tracked pause.
  function View(s: Sched): RateLimit { RateLimit(s.resetAt, s.started) }

  ghost predicate ViewSound(m: Memory) {
    forall w :: w in m.rates ==> w in m.sched && !m.sched[w].gaveUp && m.rates[w] == View(m.sched[w])
  }

  ghost predicate Sent(p: Pause, w: Window, at: int) {
    p.since.window == w && exists i :: 0 <= i < |p.sends| && p.sends[i].at == at
  }

  ghost predicate Recorded(h: History, w: Window, at: int) {
    || (w in h.pauses && Sent(h.pauses[w], w, at))
    || (exists e :: e in h.ended && Sent(e.pause, w, at))
  }

  // Every text ever typed belongs to a pause.
  ghost predicate TextsRecorded(s: State) {
    forall f: Effect {:trigger f in s.mem.out} :: f in s.mem.out && f.Text? ==> Recorded(s.hist, f.window, f.at)
  }

  ghost predicate Inv(s: State) {
    Pairs(s) && AllEndedOk(s.hist) && ViewSound(s.mem) && TextsRecorded(s)
  }

  lemma StartInv(now: int)
    ensures Inv(Start(now))
  {}

  // ---------------------------------------------------------------- a pass begins

  lemma BeginPairs(s: State, now: int, globalOn: bool, names: Option<seq<Window>>)
    requires Pairs(s) && s.pass.now <= now
    ensures Pairs(BeginStep(s, now, globalOn, names))
  {
    var t := BeginStep(s, now, globalOn, names);
    forall w ensures PairAt(t.mem, t.hist, w, t.pass.now) {
      assert PairAt(s.mem, s.hist, w, s.pass.now);
      if w in t.mem.sched { TimePasses(s.mem.sched[w], s.hist.pauses[w], w, s.pass.now, t.pass.now); }
    }
  }

  lemma BeginEnded(s: State, ws: seq<Window>)
    requires Pairs(s) && AllEndedOk(s.hist)
    ensures AllEndedOk(BeginHistory(s.hist, ws))
  {
    forall w | w in s.hist.pauses ensures PauseOk(s.hist.pauses[w]) {
      assert PairAt(s.mem, s.hist, w, s.pass.now);
    }
  }

  lemma BeginRecorded(h: History, ws: seq<Window>, w: Window, at: int)
    requires Recorded(h, w, at)
    ensures Recorded(BeginHistory(h, ws), w, at)
  {
    var g := BeginHistory(h, ws);
    if w in h.pauses && Sent(h.pauses[w], w, at) {
      if w !in ws { assert Ended(h.pauses[w], WindowGone) in g.ended; }
    } else {
      var e :| e in h.ended && Sent(e.pause, w, at);
      assert e in g.ended;
    }
  }

  lemma BeginInv(s: State, now: int, globalOn: bool, names: Option<seq<Window>>)
    requires Inv(s) && s.pass.now <= now
    ensures Inv(BeginStep(s, now, globalOn, names))
  {
    if names.Some? {
      var ws := ManagedWindows(names.value);
      BeginPairs(s, now, globalOn, names);
      BeginEnded(s, ws);
      forall f: Effect | f in s.mem.out && f.Text? ensures Recorded(BeginHistory(s.hist, ws), f.window, f.at) {
        BeginRecorded(s.hist, ws, f.window, f.at);
      }
    }
  }

  // ---------------------------------------------------------------- a window is looked at

  lemma AppliedFirst(m: Memory, h: History, w: Window, d: Option<UsageLimit>, armed: bool, now: int)
    requires w !in m.sched && w !in h.pauses
    ensures
      var action := Decide(None, d, armed, now);
      PairAt(ApplyMemory(m, w, action, now), ApplyHistory(h, w, action, now, ShowsMenu(d), armed), w, now)
  {
    if armed && d.Some? { StartsTracking(d.value.resetAt, w, now); }
  }

  lemma AppliedAgain(m: Memory, h: History, w: Window, d: Option<UsageLimit>, armed: bool, now: int)
    requires w in m.sched && w in h.pauses && PairOk(m.sched[w], h.pauses[w], w, now)
    ensures
      var action := Decide(Some(m.sched[w]), d, armed, now);
      PairAt(ApplyMemory(m, w, action, now), ApplyHistory(h, w, action, now, ShowsMenu(d), armed), w, now)
  {
    match Decide(Some(m.sched[w]), d, armed, now)
    case Send => SendsOneMore(m.sched[w], h.pauses[w], w, now, ShowsMenu(d));
    case ChooseWait(_) => ChoosesOnce(m.sched[w], h.pauses[w], w, now);
    case GiveUp => GivesUp(m.sched[w], h.pauses[w], w, now);
    case _ =>
  }

  lemma AppliedPair(m: Memory, h: History, w: Window, d: Option<UsageLimit>, armed: bool, now: int)
    requires PairAt(m, h, w, now)
    ensures
      var action := Decide(Lookup(m.sched, w), d, armed, now);
      PairAt(ApplyMemory(m, w, action, now), ApplyHistory(h, w, action, now, ShowsMenu(d), armed), w, now)
  {
    if w in m.sched { AppliedAgain(m, h, w, d, armed, now); } else { AppliedFirst(m, h, w, d, armed, now); }
  }

  lemma LookedPair(s: State, w: Window, d: Option<UsageLimit>)
    requires Pairs(s)
    ensures PairAt(SeenMemory(s.mem, s.pass, w, d), SeenHistory(s.hist, s.mem, s.pass, w, d), w, s.pass.now)
  {
    assert PairAt(s.mem, s.hist, w, s.pass.now);
    if w in s.mem.sched { NotedPair(s.mem.sched[w], s.hist.pauses[w], w, s.pass.now, d.Some?); }
    AppliedPair(
      NoteMemory(s.mem, w, d.Some?), NoteHistory(s.hist, w, d.Some?), w, d, Armed(s.pass, w), s.pass.now);
  }

  // Looking at one window changes nothing of the others.
  lemma OthersKept(s: State, w: Window, d: Option<UsageLimit>, v: Window)
    requires v != w
    ensures
      var m, h := SeenMemory(s.mem, s.pass, w, d), SeenHistory(s.hist, s.mem, s.pass, w, d);
      && Lookup(m.sched, v) == Lookup(s.mem.sched, v)
      && Lookup(m.rates, v) == Lookup(s.mem.rates, v)
      && Lookup(h.pauses, v) == Lookup(s.hist.pauses, v)
  {}

  // All windows but `w` have the entries they had.
  ghost predicate OnlyAt(s: State, m: Memory, h: History, w: Window) {
    forall v {:trigger v in m.sched} {:trigger v in h.pauses} :: v != w ==>
        && Lookup(m.sched, v) == Lookup(s.mem.sched, v)
        && Lookup(h.pauses, v) == Lookup(s.hist.pauses, v)
  }

  lemma AllPaired(s: State, m: Memory, h: History, w: Window)
    requires Pairs(s) && OnlyAt(s, m, h, w) && PairAt(m, h, w, s.pass.now)
    ensures Pairs(s.(mem := m, hist := h))
  {
    forall v ensures PairAt(m, h, v, s.pass.now) {
      if v != w { KeptPair(s, m, h, v); }
    }
  }

  lemma LookPairs(s: State, w: Window, d: Option<UsageLimit>)
    requires Pairs(s)
    ensures
      Pairs(s.(mem := SeenMemory(s.mem, s.pass, w, d), hist := SeenHistory(s.hist, s.mem, s.pass, w, d)))
  {
    var m, h := SeenMemory(s.mem, s.pass, w, d), SeenHistory(s.hist, s.mem, s.pass, w, d);
    LookedPair(s, w, d);
    forall v | v != w
      ensures Lookup(m.sched, v) == Lookup(s.mem.sched, v) && Lookup(h.pauses, v) == Lookup(s.hist.pauses, v)
    {
      OthersKept(s, w, d, v);
    }
    AllPaired(s, m, h, w);
  }

  lemma KeptPair(s: State, m: Memory, h: History, v: Window)
    requires Pairs(s)
    requires Lookup(m.sched, v) == Lookup(s.mem.sched, v) && Lookup(h.pauses, v) == Lookup(s.hist.pauses, v)
    ensures PairAt(m, h, v, s.pass.now)
  {
    assert PairAt(s.mem, s.hist, v, s.pass.now);
  }

  // An armed pause ends by itself only after two misses.
  lemma ResumesAfterTwoMisses(s: Sched, p: Pause, w: Window, d: Option<UsageLimit>, now: int)
    requires PairOk(s, p, w, now) && Decide(Some(s), d, true, now) == Clear
    ensures TwoMisses(p.seen)
  {
    assert Misses(p.seen) >= 2;
    assert Misses(p.seen[..|p.seen| - 1]) >= 1;
  }

  // The only pause that a look can end is that of the window.
  lemma NewlyEnded(h: History, m: Memory, p: Pass, w: Window, d: Option<UsageLimit>, e: Ended)
    requires e in SeenHistory(h, m, p, w, d).ended
    ensures
      || e in h.ended
      || (&& w in h.pauses && ActionFor(m, p, w, d) == Clear
          && e == Ended(NoteHistory(h, w, d.Some?).pauses[w], if Armed(p, w) then Resumed else Disarmed))
  {}

  lemma LookEnded(s: State, w: Window, d: Option<UsageLimit>)
    requires Pairs(s) && AllEndedOk(s.hist)
    ensures AllEndedOk(SeenHistory(s.hist, s.mem, s.pass, w, d))
  {
    assert PairAt(s.mem, s.hist, w, s.pass.now);
    forall e | e in SeenHistory(s.hist, s.mem, s.pass, w, d).ended ensures EndedOk(e) {
      NewlyEnded(s.hist, s.mem, s.pass, w, d, e);
      if e !in s.hist.ended { ClearedIsOk(s, w, d); }
    }
  }

  lemma ClearedIsOk(s: State, w: Window, d: Option<UsageLimit>)
    requires w in s.mem.sched && w in s.hist.pauses
    requires PairOk(s.mem.sched[w], s.hist.pauses[w], w, s.pass.now) && ActionFor(s.mem, s.pass, w, d) == Clear
    ensures
      EndedOk(
        Ended(NoteHistory(s.hist, w, d.Some?).pauses[w], if Armed(s.pass, w) then Resumed else Disarmed))
  {
    var p := NoteHistory(s.hist, w, d.Some?).pauses[w];
    NotedPair(s.mem.sched[w], s.hist.pauses[w], w, s.pass.now, d.Some?);
    if Armed(s.pass, w) { ResumesAfterTwoMisses(Bump(s.mem.sched[w], d.Some?), p, w, d, s.pass.now); }
  }

  lemma NotedView(m: Memory, w: Window, hit: bool)
    requires ViewSound(m)
    ensures ViewSound(NoteMemory(m, w, hit))
  {
    var n := NoteMemory(m, w, hit);
    forall v | v in n.rates ensures v in n.sched && !n.sched[v].gaveUp && n.rates[v] == View(n.sched[v]) {
      assert v in m.rates;
    }
  }

  lemma AppliedView(m: Memory, w: Window, action: Action, now: int)
    requires ViewSound(m)
    ensures ViewSound(ApplyMemory(m, w, action, now))
  {
    var n := ApplyMemory(m, w, action, now);
    forall v | v in n.rates ensures v in n.sched && !n.sched[v].gaveUp && n.rates[v] == View(n.sched[v]) {
      if v != w || !action.Track? { assert v in m.rates; }
    }
  }

  lemma LookView(m: Memory, p: Pass, w: Window, d: Option<UsageLimit>)
    requires ViewSound(m)
    ensures ViewSound(SeenMemory(m, p, w, d))
  {
    NotedView(m, w, d.Some?);
    AppliedView(NoteMemory(m, w, d.Some?), w, ActionFor(m, p, w, d), p.now);
  }

  lemma StillRecorded(s: State, w: Window, d: Option<UsageLimit>, v: Window, at: int)
    requires Pairs(s) && Recorded(s.hist, v, at)
    ensures Recorded(SeenHistory(s.hist, s.mem, s.pass, w, d), v, at)
  {
    var h := SeenHistory(s.hist, s.mem, s.pass, w, d);
    if e :| e in s.hist.ended && Sent(e.pause, v, at) {
      assert e in h.ended;
    } else if v != w {
      OthersKept(s, w, d, v);
    } else {
      assert PairAt(s.mem, s.hist, w, s.pass.now);
      StillSent(s, w, d, at);
    }
  }

  // What a pause has sent stays on its record, which goes to the ended ones when it ends.
  lemma StillSent(s: State, w: Window, d: Option<UsageLimit>, at: int)
    requires w in s.mem.sched && w in s.hist.pauses && Sent(s.hist.pauses[w], w, at)
    ensures Recorded(SeenHistory(s.hist, s.mem, s.pass, w, d), w, at)
  {
    var h := SeenHistory(s.hist, s.mem, s.pass, w, d);
    var action := ActionFor(s.mem, s.pass, w, d);
    var q := NoteHistory(s.hist, w, d.Some?).pauses[w];
    var i :| 0 <= i < |s.hist.pauses[w].sends| && s.hist.pauses[w].sends[i].at == at;
    assert q.sends[i].at == at;
    if action.Clear? {
      assert Ended(q, if Armed(s.pass, w) then Resumed else Disarmed) in h.ended;
    } else {
      assert h.pauses[w].sends[i].at == at;
    }
  }

  lemma NewTextRecorded(s: State, w: Window, d: Option<UsageLimit>)
    requires Pairs(s) && ActionFor(s.mem, s.pass, w, d) == Send
    ensures Recorded(SeenHistory(s.hist, s.mem, s.pass, w, d), w, s.pass.now)
  {
    var h := SeenHistory(s.hist, s.mem, s.pass, w, d);
    assert PairAt(s.mem, s.hist, w, s.pass.now);
    var p := s.hist.pauses[w];
    assert h.pauses[w].sends[|p.sends|] == Sending(s.pass.now, ShowsMenu(d));
  }

  lemma NewTexts(s: State, w: Window, d: Option<UsageLimit>, f: Effect)
    requires f.Text? && f in SeenMemory(s.mem, s.pass, w, d).out
    ensures f in s.mem.out || (ActionFor(s.mem, s.pass, w, d) == Send && f == Text(w, s.pass.now))
  {}

  lemma SamePairs(s: State, t: State)
    requires Pairs(s) && t.mem == s.mem && t.hist == s.hist && t.pass.now == s.pass.now
    ensures Pairs(t)
  {
    forall w ensures PairAt(t.mem, t.hist, w, t.pass.now) { assert PairAt(s.mem, s.hist, w, s.pass.now); }
  }

  lemma TogglePairs(s: State, lane: Lane, enabled: bool)
    requires Pairs(s)
    ensures Pairs(ToggleStep(s, lane, enabled))
  {
    var t := ToggleStep(s, lane, enabled);
    forall w ensures PairAt(t.mem, t.hist, w, t.pass.now) { assert PairAt(s.mem, s.hist, w, s.pass.now); }
  }

  lemma LookInv(s: State, capture: Option<Option<UsageLimit>>)
    requires Inv(s)
    ensures Inv(LookStep(s, capture))
  {
    if s.pass.todo != [] && capture.Some? {
      var w, d := s.pass.todo[0], capture.value;
      var t := LookStep(s, capture);
      LookPairs(s, w, d);
      assert Pairs(s.(mem := t.mem, hist := t.hist));
      SamePairs(s.(mem := t.mem, hist := t.hist), t);
      LookEnded(s, w, d);
      LookView(s.mem, s.pass, w, d);
      forall f: Effect | f in t.mem.out && f.Text? ensures Recorded(t.hist, f.window, f.at) {
        NewTexts(s, w, d, f);
        if f in s.mem.out { StillRecorded(s, w, d, f.window, f.at); } else { NewTextRecorded(s, w, d); }
      }
    }
  }

  lemma NextInv(s: State, step: Step)
    requires Inv(s)
    ensures Inv(Next(s, step))
  {
    if Enabled(s, step) {
      match step
      case Begin(now, globalOn, names) => BeginInv(s, now, globalOn, names);
      case Look(capture) => LookInv(s, capture);
      case Toggle(lane, enabled) => TogglePairs(s, lane, enabled);
    }
  }

  lemma {:induction false} RunInv(now: int, run: seq<Step>)
    ensures Inv(After(Start(now), run))
  {
    if run == [] {
      StartInv(now);
    } else {
      RunInv(now, run[..|run| - 1]);
      NextInv(After(Start(now), run[..|run| - 1]), run[|run| - 1]);
    }
  }
}
