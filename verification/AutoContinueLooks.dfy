// What one look at a window does in any run (crates/repomon-daemon/src/auto_continue.rs:79-145, 201-321).
module AutoContinueLooks {
  import opened Prelude
  import opened AutoContinue
  import opened AutoContinueInvariant
  import opened AutoContinueArming

  // The next window of the pass.
  ghost predicate LooksAt(s: State, w: Window) { s.pass.todo != [] && s.pass.todo[0] == w }

  // The window's pause has been seen once more.
  function SeenOnce(p: Pause, hit: bool): Pause { p.(seen := p.seen + [hit]) }

  lemma TrackedPause(now: int, run: seq<Step>, w: Window)
    requires w in After(Start(now), run).mem.sched
    ensures
      var s := After(Start(now), run);
      w in s.hist.pauses && PairOk(s.mem.sched[w], s.hist.pauses[w], w, s.pass.now)
  {
    RunInv(now, run);
    var s := After(Start(now), run);
    assert PairAt(s.mem, s.hist, w, s.pass.now);
  }

  // ---------------------------------------------------------------- what is typed and announced

  function EffectsOf(w: Window, action: Action, now: int): seq<Effect> {
    match action
    case Track(_, _) => [Status(w, "rate-limited")]
    case ChooseWait(keys) => [Keys(w, keys)]
    case Send => [Text(w, now)]
    case GiveUp => [Status(w, "waiting")]
    case Clear => [Status(w, "running")]
    case Nothing => []
  }

  // What is typed and announced tells the action.
  lemma OutShowsTheAction(m: Memory, pass: Pass, w: Window, d: Option<UsageLimit>, effects: seq<Effect>)
    ensures
      SeenMemory(m, pass, w, d).out == m.out + effects
      <==> EffectsOf(w, ActionFor(m, pass, w, d), pass.now) == effects
  {
    var action := ActionFor(m, pass, w, d);
    var out := SeenMemory(m, pass, w, d).out;
    assert out == m.out + EffectsOf(w, action, pass.now);
    if out == m.out + effects {
      assert out[|m.out|..] == effects && out[|m.out|..] == EffectsOf(w, action, pass.now);
    }
  }

  lemma StatusesDiffer(w: Window)
    ensures Status(w, "rate-limited") != Status(w, "waiting")
    ensures Status(w, "rate-limited") != Status(w, "running")
    ensures Status(w, "waiting") != Status(w, "running")
  {
    assert "waiting"[0] != "running"[0] && |"rate-limited"| != |"waiting"| && |"rate-limited"| != |"running"|;
  }

  // ---------------------------------------------------------------- sending

  // Everything a text waits for: the window is armed, the pause was not given up and is not over six
  // hours old, the menu, if it shows, has been answered, 90 seconds have passed since, and the first
  // text is due, a minute after the reset or five minutes after the detection, or the cadence of
  // five or twenty minutes has passed since the last one.
  ghost predicate TextIsDue(armed: bool, now: int, p: Pause, lim: UsageLimit) {
    && armed && p.sentAtGiveUp.None?
    && now <= p.since.detected + 21_600_000_000_000
    && (lim.menu.Some? ==> p.choices != [])
    && (forall i :: 0 <= i < |p.choices| ==> p.choices[i] + 90_000_000_000 <= now)
    && (match p.since.resetAt
        case Some(reset) => reset + 60_000_000_000 <= now
        case None => p.since.detected + 300_000_000_000 <= now)
    && (forall i :: 0 <= i < |p.sends| ==>
          p.sends[i].at + (if p.since.resetAt.Some? then 300_000_000_000 else 1_200_000_000_000) <= now)
  }

  // A look at a tracked window that still shows the limit sends exactly when a text is due.
  lemma SendsExactlyWhenDue(now: int, run: seq<Step>, w: Window, lim: UsageLimit)
    requires LooksAt(After(Start(now), run), w) && w in After(Start(now), run).mem.sched
    ensures
      var s := After(Start(now), run);
      w in s.hist.pauses &&
      (Next(s, Look(Some(Some(lim)))).mem.out == s.mem.out + [Text(w, s.pass.now)]
       <==> TextIsDue(ArmedBy(now, run, w), s.pass.now, s.hist.pauses[w], lim))
  {
    var s := After(Start(now), run);
    TrackedPause(now, run, w);
    ArmedExactly(now, run, w);
    var p := s.hist.pauses[w];
    LastSendIsLatest(p);
    DueIsSend(Bump(s.mem.sched[w], true), p, s.pass, w, lim);
    OutShowsTheAction(s.mem, s.pass, w, Some(lim), [Text(w, s.pass.now)]);
  }

  lemma {:induction false} LastSendIsLatest(p: Pause)
    requires PauseOk(p)
    ensures forall i :: 0 <= i < |p.sends| ==> p.sends[i].at <= p.sends[|p.sends| - 1].at
    ensures forall i :: 0 <= i < |p.sends| ==> FirstDue(p.since) <= p.sends[i].at
  {
    forall i | 0 <= i < |p.sends| ensures p.sends[i].at <= p.sends[|p.sends| - 1].at {
      Ascends(p, i, |p.sends| - 1);
    }
  }

  lemma {:induction false} Ascends(p: Pause, i: nat, j: nat)
    requires SendsSpaced(p) && i <= j < |p.sends|
    ensures p.sends[i].at <= p.sends[j].at
  {
    if i < j { Ascends(p, i, j - 1); }
  }

  lemma DueIsSend(c: Sched, p: Pause, pass: Pass, w: Window, lim: UsageLimit)
    requires p.since == Since(w, c.started, c.resetAt) && c.gaveUp == p.sentAtGiveUp.Some?
    requires NextIsDue(c, p) && Cools(c, p) && PauseOk(p)
    requires forall i :: 0 <= i < |p.sends| ==> p.sends[i].at <= p.sends[|p.sends| - 1].at
    ensures
      Decide(Some(c), Some(lim), Armed(pass, w), pass.now) == Send
      <==> TextIsDue(Armed(pass, w), pass.now, p, lim)
  {
    if p.sends != [] { assert FirstDue(p.since) <= p.sends[|p.sends| - 1].at; }
  }

  // ---------------------------------------------------------------- tracking and ending

  // A window that is not tracked becomes so exactly when it is armed and shows the limit; it is then
  // announced as limited and in the public view with the reset read off the screen. Otherwise
  // nothing at all happens.
  lemma TracksExactly(now: int, run: seq<Step>, w: Window, d: Option<UsageLimit>)
    requires LooksAt(After(Start(now), run), w) && w !in After(Start(now), run).mem.sched
    ensures
      var s := After(Start(now), run);
      var t := Next(s, Look(Some(d)));
      && (w in t.mem.sched <==> ArmedBy(now, run, w) && d.Some?)
      && (w !in t.mem.sched ==> t.mem == s.mem)
      && (w in t.mem.sched ==>
            && w in t.mem.rates && t.mem.rates[w] == RateLimit(d.value.resetAt, s.pass.now)
            && t.mem.out == s.mem.out + [Status(w, "rate-limited")])
  {
    ArmedExactly(now, run, w);
  }

  // A tracked pause ends exactly when its window is no longer armed, as disarmed, or does not show
  // the limit for the second readable capture in a row, as resumed.
  lemma EndsExactly(now: int, run: seq<Step>, w: Window, d: Option<UsageLimit>)
    requires LooksAt(After(Start(now), run), w) && w in After(Start(now), run).mem.sched
    ensures
      var s := After(Start(now), run);
      var t := Next(s, Look(Some(d)));
      && w in s.hist.pauses
      && var p := s.hist.pauses[w];
      && (w !in t.mem.sched
          <==> !ArmedBy(now, run, w) || (d.None? && p.seen != [] && !p.seen[|p.seen| - 1]))
      && (w !in t.mem.sched ==>
            && t.mem.out == s.mem.out + [Status(w, "running")] && w !in t.mem.rates
            && t.hist.ended
               == s.hist.ended
                  + {Ended(SeenOnce(p, d.Some?), if ArmedBy(now, run, w) then Resumed else Disarmed)})
  {
    var s := After(Start(now), run);
    TrackedPause(now, run, w);
    ArmedExactly(now, run, w);
    StreakShowsMisses(s.mem.sched[w].missStreak, s.hist.pauses[w].seen);
    ClearsExactly(s.mem, s.pass, w, d);
    if ActionFor(s.mem, s.pass, w, d).Clear? { ClearEnds(s.hist, s.mem, s.pass, w, d); }
  }

  lemma StreakShowsMisses(streak: nat, seen: seq<bool>)
    requires streak == if Misses(seen) < 255 then Misses(seen) else 255
    ensures streak >= 1 <==> seen != [] && !seen[|seen| - 1]
  {}

  lemma ClearsExactly(m: Memory, pass: Pass, w: Window, d: Option<UsageLimit>)
    requires w in m.sched && m.sched[w].missStreak <= 255
    ensures
      ActionFor(m, pass, w, d).Clear? <==> !Armed(pass, w) || (d.None? && m.sched[w].missStreak >= 1)
    ensures ActionFor(m, pass, w, d).Clear? <==> w !in SeenMemory(m, pass, w, d).sched
    ensures
      ActionFor(m, pass, w, d).Clear? ==>
        SeenMemory(m, pass, w, d).out == m.out + [Status(w, "running")] && w !in SeenMemory(m, pass, w, d).rates
  {}

  lemma ClearEnds(h: History, m: Memory, pass: Pass, w: Window, d: Option<UsageLimit>)
    requires w in h.pauses && ActionFor(m, pass, w, d).Clear?
    ensures
      SeenHistory(h, m, pass, w, d).ended
      == h.ended + {Ended(SeenOnce(h.pauses[w], d.Some?), if Armed(pass, w) then Resumed else Disarmed)}
  {}

  // In a pass that begins with the setting off, or with the lane disarmed, a look types nothing, and
  // tracks nothing; it only ends the pause that the window has.
  lemma DisarmedPassDoesNothing(now: int, run: seq<Step>, w: Window, d: Option<UsageLimit>)
    requires LooksAt(After(Start(now), run), w) && !ArmedBy(now, run, w)
    ensures
      var s := After(Start(now), run);
      var t := Next(s, Look(Some(d)));
      && w !in t.mem.sched
      && (if w in s.mem.sched
          then && t.mem.out == s.mem.out + [Status(w, "running")]
               && w in s.hist.pauses && Ended(SeenOnce(s.hist.pauses[w], d.Some?), Disarmed) in t.hist.ended
          else t.mem == s.mem)
  {
    var s := After(Start(now), run);
    if w in s.mem.sched { EndsExactly(now, run, w, d); } else { TracksExactly(now, run, w, d); }
  }

  // In every other pass a look is decided as if there were no arming at all.
  lemma ArmedPassDecides(now: int, run: seq<Step>, w: Window, d: Option<UsageLimit>)
    requires LooksAt(After(Start(now), run), w) && ArmedBy(now, run, w)
    ensures
      var s := After(Start(now), run);
      ActionFor(s.mem, s.pass, w, d)
      == Decide(Lookup(NoteMemory(s.mem, w, d.Some?).sched, w), d, true, s.pass.now)
  {
    ArmedExactly(now, run, w);
  }

  // ---------------------------------------------------------------- giving up and choosing

  // A pause is given up exactly when it is armed, still shows the limit, and six hours are over;
  // that is announced as waiting.
  lemma GivesUpExactly(now: int, run: seq<Step>, w: Window, d: Option<UsageLimit>)
    requires LooksAt(After(Start(now), run), w) && w in After(Start(now), run).mem.sched
    ensures
      var s := After(Start(now), run);
      var t := Next(s, Look(Some(d)));
      && w in s.hist.pauses
      && var p := s.hist.pauses[w];
      p.sentAtGiveUp.None? ==>
        && ((w in t.hist.pauses && t.hist.pauses[w].sentAtGiveUp.Some?)
            <==> ArmedBy(now, run, w) && d.Some? && s.pass.now > p.since.detected + 21_600_000_000_000)
        && (t.mem.out == s.mem.out + [Status(w, "waiting")]
            <==> w in t.hist.pauses && t.hist.pauses[w].sentAtGiveUp.Some?)
  {
    var s := After(Start(now), run);
    TrackedPause(now, run, w);
    ArmedExactly(now, run, w);
    StatusesDiffer(w);
    OutShowsTheAction(s.mem, s.pass, w, d, [Status(w, "waiting")]);
    if s.hist.pauses[w].sentAtGiveUp.None? {
      GiveUpShows(s.hist, s.mem, s.pass, w, d);
      SixHoursAreOver(Bump(s.mem.sched[w], d.Some?), s.pass, w, d);
    }
  }

  lemma SixHoursAreOver(c: Sched, pass: Pass, w: Window, d: Option<UsageLimit>)
    requires !c.gaveUp
    ensures
      Decide(Some(c), d, Armed(pass, w), pass.now) == GiveUp
      <==> Armed(pass, w) && d.Some? && pass.now > c.started + 21_600_000_000_000
  {}

  lemma GiveUpShows(h: History, m: Memory, pass: Pass, w: Window, d: Option<UsageLimit>)
    requires w in h.pauses && w in m.sched && h.pauses[w].sentAtGiveUp.None?
    ensures
      var pauses := SeenHistory(h, m, pass, w, d).pauses;
      w in pauses && pauses[w].sentAtGiveUp.Some? <==> ActionFor(m, pass, w, d) == GiveUp
  {}

  // The keys of the menu are typed, all of them and nothing else, exactly when it shows for the first
  // time in an armed pause that is neither given up nor six hours old, and no text was sent within
  // 90 seconds; the choice is then on the pause's record.
  lemma ChoosesExactly(now: int, run: seq<Step>, w: Window, lim: UsageLimit)
    requires LooksAt(After(Start(now), run), w) && w in After(Start(now), run).mem.sched
    ensures
      var s := After(Start(now), run);
      var t := Next(s, Look(Some(Some(lim))));
      && w in s.hist.pauses
      && var p := s.hist.pauses[w];
         var chooses :=
           && ArmedBy(now, run, w) && p.sentAtGiveUp.None? && s.pass.now <= p.since.detected + 21_600_000_000_000
           && lim.menu.Some? && p.choices == []
           && (p.sends != [] ==> p.sends[|p.sends| - 1].at + 90_000_000_000 <= s.pass.now);
      && (chooses <==> w in t.hist.pauses && t.hist.pauses[w].choices == p.choices + [s.pass.now])
      && (chooses <==> exists keys :: t.mem.out == s.mem.out + [Keys(w, keys)])
      && (chooses ==> t.mem.out == s.mem.out + [Keys(w, MenuSelectKeys(lim.menu.value))])
  {
    var s := After(Start(now), run);
    TrackedPause(now, run, w);
    ArmedExactly(now, run, w);
    var p, c := s.hist.pauses[w], Bump(s.mem.sched[w], true);
    ChoiceNeedsNoChoice(c, p, s.pass, w, lim);
    ChoicesShowTheAction(s.hist, s.mem, s.pass, w, Some(lim));
    KeysShowTheAction(s.mem, s.pass, w, lim);
  }

  lemma KeysShowTheAction(m: Memory, pass: Pass, w: Window, lim: UsageLimit)
    ensures
      var out, action := SeenMemory(m, pass, w, Some(lim)).out, ActionFor(m, pass, w, Some(lim));
      && (action.ChooseWait? <==> exists keys :: out == m.out + [Keys(w, keys)])
      && (action.ChooseWait? ==>
            lim.menu.Some? && out == m.out + [Keys(w, MenuSelectKeys(lim.menu.value))])
  {
    var action := ActionFor(m, pass, w, Some(lim));
    forall keys
      ensures SeenMemory(m, pass, w, Some(lim)).out == m.out + [Keys(w, keys)] ==> action == ChooseWait(keys)
    {
      OutShowsTheAction(m, pass, w, Some(lim), [Keys(w, keys)]);
      assert EffectsOf(w, action, pass.now) == [Keys(w, keys)] ==> EffectsOf(w, action, pass.now)[0] == Keys(w, keys);
    }
    if action.ChooseWait? { OutShowsTheAction(m, pass, w, Some(lim), [Keys(w, action.keys)]); }
  }

  lemma ChoicesShowTheAction(h: History, m: Memory, pass: Pass, w: Window, d: Option<UsageLimit>)
    requires w in h.pauses && w in m.sched && d.Some?
    ensures
      var pauses := SeenHistory(h, m, pass, w, d).pauses;
      (w in pauses && pauses[w].choices == h.pauses[w].choices + [pass.now])
      <==> ActionFor(m, pass, w, d).ChooseWait?
  {
    var choices := h.pauses[w].choices;
    assert |choices + [pass.now]| != |choices|;
  }

  lemma ChoiceNeedsNoChoice(c: Sched, p: Pause, pass: Pass, w: Window, lim: UsageLimit)
    requires p.since == Since(w, c.started, c.resetAt) && c.gaveUp == p.sentAtGiveUp.Some?
    requires Cools(c, p) && |p.choices| <= 1
    ensures
      Decide(Some(c), Some(lim), Armed(pass, w), pass.now).ChooseWait?
      <==> && Armed(pass, w) && p.sentAtGiveUp.None? && pass.now <= p.since.detected + 21_600_000_000_000
           && lim.menu.Some? && p.choices == []
           && (p.sends != [] ==> p.sends[|p.sends| - 1].at + 90_000_000_000 <= pass.now)
  {}

  // ---------------------------------------------------------------- looks that are not taken

  // A window that cannot be captured is left for the next pass.
  lemma UnreadableIsSkipped(s: State)
    requires s.pass.todo != []
    ensures Next(s, Look(None)) == s.(pass := s.pass.(todo := s.pass.todo[1..]))
  {}

  // A look concerns no other window.
  lemma OthersAreLeftAlone(s: State, v: Window, capture: Option<Option<UsageLimit>>)
    requires s.pass.todo != [] && s.pass.todo[0] != v
    ensures
      var t := Next(s, Look(capture));
      && Lookup(t.mem.sched, v) == Lookup(s.mem.sched, v) && Lookup(t.mem.rates, v) == Lookup(s.mem.rates, v)
      && Lookup(t.hist.pauses, v) == Lookup(s.hist.pauses, v)
  {
    if capture.Some? { OthersKept(s, s.pass.todo[0], capture.value, v); }
  }
}
