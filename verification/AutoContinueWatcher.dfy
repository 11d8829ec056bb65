// The watcher task with its maps updated in place (crates/repomon-daemon/src/auto_continue.rs:149-321)
// and the request that arms or disarms a lane (crates/repomon-daemon/src/rpc.rs:4580-4600).
module AutoContinueWatcher {
  import opened Prelude
  import opened AutoContinue
  import opened Sorting
  import opened Text
  import opened TextForms

  class Watcher {
    var sched: map<Window, Sched>
    var rates: map<Window, RateLimit>
    var off: set<Lane>
    var out: seq<Effect>
    ghost var pass: Pass
    ghost var hist: History

    ghost function Mem(): Memory
      reads this
    {
      Memory(sched, rates, out)
    }

    ghost function View(): State
      reads this
    {
      State(Mem(), off, pass, hist)
    }

    constructor (now: int)
      ensures View() == Start(now)
    {
      sched, rates, off, out := map[], map[], {}, [];
      pass := Pass(now, false, {}, []);
      hist := History(map[], {});
    }

    method Apply(window: Window, action: Action, now: int)
      modifies this`sched, this`rates, this`out
      ensures Mem() == ApplyMemory(old(Mem()), window, action, now)
    {
      match action {
        case Track(resetAt, nextAttempt) =>
          sched := sched[window := Sched(now, resetAt, nextAttempt, false, None, false, 0)];
          rates := rates[window := RateLimit(resetAt, now)];
          out := out + [Status(window, "rate-limited")];
        case ChooseWait(keys) =>
          out := out + [Keys(window, keys)];
          if window in sched {
            var s := sched[window];
            sched := sched[window := s.(menuConfirmed := true, cooldownUntil := Some(now + SEND_COOLDOWN))];
          }
        case Send =>
          out := out + [Text(window, now)];
          if window in sched {
            var s := sched[window];
            var cadence := if s.resetAt.Some? then RETRY else UNKNOWN_RETRY;
            sched := sched[window :=
              s.(cooldownUntil := Some(now + SEND_COOLDOWN), nextAttempt := now + cadence)];
          }
        case GiveUp =>
          if window in sched { sched := sched[window := sched[window].(gaveUp := true)]; }
          rates := rates - {window};
          out := out + [Status(window, "waiting")];
        case Clear =>
          sched := sched - {window};
          rates := rates - {window};
          out := out + [Status(window, "running")];
        case Nothing =>
      }
    }

    // One readable capture: the streak is updated, the action decided and applied.
    method Look(window: Window, detection: Option<UsageLimit>, armed: bool, now: int)
      requires pass.now == now && armed == Armed(pass, window)
      modifies this`sched, this`rates, this`out, this`hist
      ensures Mem() == SeenMemory(old(Mem()), pass, window, detection)
      ensures hist == SeenHistory(old(hist), old(Mem()), pass, window, detection)
    {
      hist := SeenHistory(hist, Mem(), pass, window, detection);
      if window in sched {
        var s := sched[window];
        if detection.Some? {
          s := s.(missStreak := 0);
        } else {
          s := s.(missStreak := if s.missStreak < 255 then s.missStreak + 1 else 255);
        }
        sched := sched[window := s];
      }
      var current := if window in sched then Some(sched[window]) else None;
      var action := Decide(current, detection, armed, now);
      Apply(window, action, now);
    }

    // The next window of the pass, if it can be captured.
    method LookAtNext(
        window: Window, captures: map<Window, Option<UsageLimit>>, globalOn: bool, disarmed: set<Lane>, now: int)
      requires pass.now == now && pass.globalOn == globalOn && pass.off == disarmed
      requires pass.todo != [] && pass.todo[0] == window
      modifies this
      ensures View() == LookStep(old(View()), Lookup(captures, window))
    {
      if window in captures {
        var armed := globalOn && !(LaneOf(window).Some? && LaneOf(window).value in disarmed);
        Look(window, captures[window], armed, now);
      }
      pass := pass.(todo := pass.todo[1..]);
    }

    // Windows that are gone are forgotten, and a pass over the others begins.
    method BeginPass(windows: seq<Window>, now: int, globalOn: bool)
      modifies this
      ensures View() == State(
                BeginMemory(old(Mem()), windows), old(off), Pass(now, globalOn, old(off), windows),
                BeginHistory(old(hist), windows))
    {
      hist := BeginHistory(hist, windows);
      sched := map w | w in sched && w in windows :: sched[w];
      rates := map w | w in rates && w in windows :: rates[w];
      pass := Pass(now, globalOn, off, windows);
    }

    // One pass over the windows. `captures` holds what can be read from each of them: nothing
    // when the capture fails or takes too long.
    method Tick(
        now: int, globalOn: bool, names: Option<seq<Window>>, captures: map<Window, Option<UsageLimit>>)
      requires pass.todo == [] && pass.now <= now
      modifies this
      ensures View() == After(old(View()), PassSteps(now, globalOn, names, captures))
    {
      ghost var before := View();
      OneStep(before, Begin(now, globalOn, names));
      if names.None? {
        return;
      }
      var windows := Managed(names.value);
      BeginPass(windows, now, globalOn);
      var disarmed := off;
      ghost var begun := View();
      for i := 0 to |windows|
        invariant pass == Pass(now, globalOn, disarmed, windows[i..])
        invariant View() == After(begun, Looks(windows[..i], captures))
      {
        AfterLooks(begun, windows, i, captures);
        LookAtNext(windows[i], captures, globalOn, disarmed, now);
        assert windows[i..][1..] == windows[i + 1..];
      }
      assert windows[..|windows|] == windows;
      AfterAppend(before, [Begin(now, globalOn, names)], Looks(windows, captures));
    }

    method Toggle(lane: Lane, enabled: bool)
      modifies this`off, this`rates
      ensures View() == Next(old(View()), AutoContinue.Toggle(lane, enabled))
    {
      if enabled {
        off := off - {lane};
      } else {
        off := off + {lane};
        rates := map w | w in rates && !InLane(w, lane) :: rates[w];
      }
    }
  }

  // The managed windows among the names, sorted and each once.
  method Managed(names: seq<Window>) returns (windows: seq<Window>)
    ensures windows == ManagedWindows(names)
  {
    windows := [];
    for i := 0 to |names|
      invariant windows == LaneWindows(names[..i])
    {
      assert names[..i + 1][..i] == names[..i];
      if LaneOf(names[i]).Some? { windows := windows + [names[i]]; }
    }
    assert names[..|names|] == names;
    windows := SortWith(windows, ByText());
    windows := Dedup(windows);
  }

  // The steps of one pass.
  function Looks(ws: seq<Window>, captures: map<Window, Option<UsageLimit>>): seq<Step> {
    if ws == [] then [] else Looks(ws[..|ws| - 1], captures) + [Look(Lookup(captures, ws[|ws| - 1]))]
  }

  function PassSteps(
      now: int, globalOn: bool, names: Option<seq<Window>>, captures: map<Window, Option<UsageLimit>>)
      : seq<Step>
  {
    [Begin(now, globalOn, names)] + if names.None? then [] else Looks(ManagedWindows(names.value), captures)
  }

  lemma OneStep(s: State, step: Step)
    ensures After(s, [step]) == Next(s, step)
    ensures After(s, [step] + []) == Next(s, step)
  {
    assert [step][..0] == [] && [step] + [] == [step];
  }

  lemma AfterLooks(s: State, ws: seq<Window>, i: nat, captures: map<Window, Option<UsageLimit>>)
    requires i < |ws|
    ensures
      After(s, Looks(ws[..i + 1], captures))
      == LookStep(After(s, Looks(ws[..i], captures)), Lookup(captures, ws[i]))
  {
    var more := Looks(ws[..i + 1], captures);
    assert ws[..i + 1][..i] == ws[..i];
    assert more[..|more| - 1] == Looks(ws[..i], captures);
  }

  lemma {:induction false} AfterAppend(s: State, a: seq<Step>, b: seq<Step>)
    ensures After(s, a + b) == After(After(s, a), b)
  {
    if b == [] {
      assert a + b == a;
    } else {
      assert (a + b)[..|a + b| - 1] == a + b[..|b| - 1];
      AfterAppend(s, a, b[..|b| - 1]);
    }
  }

  lemma {:induction false} InLaneWindows(names: seq<Window>, w: Window)
    ensures w in LaneWindows(names) <==> w in names && LaneOf(w).Some?
  {
    if names != [] {
      InLaneWindows(names[..|names| - 1], w);
      assert names == names[..|names| - 1] + [names[|names| - 1]];
    }
  }

  // Exactly the names of agents' windows are scanned, in order and each once.
  lemma ManagedExactly(names: seq<Window>)
    ensures forall w :: w in ManagedWindows(names) <==> w in names && LaneOf(w).Some?
    ensures StrictlySorted(ManagedWindows(names), ByText())
  {
    TextIsOrdered();
    SortedOnceIs(LaneWindows(names), ByText());
    forall w ensures w in LaneWindows(names) <==> w in names && LaneOf(w).Some? { InLaneWindows(names, w); }
  }

  // A pass forgets exactly the windows that are not listed, and looks at the agents' ones of the rest;
  // when they cannot be listed, nothing happens.
  lemma PassForgetsTheGone(s: State, now: int, globalOn: bool, names: Option<seq<Window>>, w: Window)
    requires s.pass.todo == [] && s.pass.now <= now
    ensures
      var t := Next(s, Begin(now, globalOn, names));
      && (names.None? ==> t == s)
      && (names.Some? ==>
            var stays := w in names.value && LaneOf(w).Some?;
            && (w in t.pass.todo <==> stays)
            && (w in t.mem.sched <==> w in s.mem.sched && stays)
            && (w in t.mem.rates <==> w in s.mem.rates && stays)
            && (w in s.mem.sched && stays ==> t.mem.sched[w] == s.mem.sched[w])
            && t.mem.out == s.mem.out && t.pass.now == now)
  {
    if names.Some? { ManagedExactly(names.value); }
  }

  // The window of a lane's first slot, or of a later one.
  function SlotName(lane: Lane, slot: nat): Window
    requires slot >= 1
  {
    "lane-" + (if slot == 1 then Decimal(lane) else Decimal(lane) + ['-'] + Decimal(slot))
  }

  lemma FirstSlot(id: string, lane: Lane)
    requires ReadNumber(id) == Some(lane) && lane <= LARGEST && '-' !in id
    ensures LaneOf("lane-" + id) == Some(lane)
  {
    var name := "lane-" + id;
    assert name[..5] == "lane-" && name[5..] == id;
    FindNone(id, '-');
  }

  lemma LaterSlot(id: string, slot: string, lane: Lane, n: nat)
    requires ReadNumber(id) == Some(lane) && lane <= LARGEST && '-' !in id
    requires ReadNumber(slot) == Some(n) && 2 <= n <= 2 * LARGEST + 1
    ensures LaneOf("lane-" + (id + ['-'] + slot)) == Some(lane)
  {
    var rest := id + ['-'] + slot;
    var name := "lane-" + rest;
    assert name[..5] == "lane-" && name[5..] == rest;
    FindFirst(id, '-', slot);
    assert rest[..|id|] == id && rest[|id| + 1..] == slot;
  }

  // The window names that are made for a lane belong to it and to no other.
  lemma SlotNamesBelongToTheirLane(lane: Lane, slot: nat, other: Lane)
    requires lane <= LARGEST && 1 <= slot <= 2 * LARGEST + 1
    ensures InLane(SlotName(lane, slot), other) <==> other == lane
  {
    DecimalIsNumber(lane);
    DecimalIsNumber(slot);
    if slot == 1 {
      FirstSlot(Decimal(lane), lane);
    } else {
      LaterSlot(Decimal(lane), Decimal(slot), lane, slot);
    }
  }

  // A lane's number that fits 63 bits, and a slot from two on that fits 64.
  ghost predicate NamesSlot(rest: string, lane: Lane, x: string, y: string, slot: nat) {
    rest == x + ['-'] + y && Spells(x, lane) && Spells(y, slot) && 2 <= slot < 0x1_0000_0000_0000_0000
  }

  // The number alone, or with a slot.
  ghost predicate NamesLane(w: Window, lane: Lane) {
    && lane < 0x8000_0000_0000_0000 && "lane-" <= w
    && (Spells(w[5..], lane) || exists x, y, slot: nat :: NamesSlot(w[5..], lane, x, y, slot))
  }

  // A window is of a lane exactly when its name says so; no other window is an agent's.
  lemma NamesExactly(w: Window, lane: Lane)
    ensures LaneOf(w) == Some(lane) <==> NamesLane(w, lane)
  {
    if LaneOf(w) == Some(lane) { LaneIsNamed(w, lane); }
    if NamesLane(w, lane) { LaneIsRead(w, lane); }
  }

  lemma LaneIsNamed(w: Window, lane: Lane)
    requires LaneOf(w) == Some(lane)
    ensures NamesLane(w, lane)
  {
    var rest := w[5..];
    var i := Find(rest, '-');
    if i == |rest| {
      NumberIsReadExactly(rest, lane);
    } else {
      assert ReadNumber(rest[..i]) == Some(lane) && lane < 0x8000_0000_0000_0000;
      SlotIsNamed(rest, i, lane);
    }
  }

  lemma SlotIsNamed(rest: string, i: nat, lane: Lane)
    requires i < |rest| && rest[i] == '-' && ReadNumber(rest[..i]) == Some(lane)
    requires
      var slot := ReadNumber(rest[i + 1..]);
      slot.Some? && 2 <= slot.value < 0x1_0000_0000_0000_0000
    ensures NamesSlot(rest, lane, rest[..i], rest[i + 1..], ReadNumber(rest[i + 1..]).value)
  {
    NumberIsReadExactly(rest[..i], lane);
    NumberIsReadExactly(rest[i + 1..], ReadNumber(rest[i + 1..]).value);
    assert rest == rest[..i] + ['-'] + rest[i + 1..];
  }

  lemma LaneIsRead(w: Window, lane: Lane)
    requires NamesLane(w, lane)
    ensures LaneOf(w) == Some(lane)
  {
    var rest := w[5..];
    assert w == "lane-" + rest;
    if Spells(rest, lane) {
      NumberIsReadExactly(rest, lane);
      SpelledWithout(rest, lane, '-');
      FirstSlot(rest, lane);
    } else {
      var x, y, slot: nat :| NamesSlot(rest, lane, x, y, slot);
      NumberIsReadExactly(x, lane);
      NumberIsReadExactly(y, slot);
      SpelledWithout(x, lane, '-');
      LaterSlot(x, y, lane, slot);
    }
  }
}
