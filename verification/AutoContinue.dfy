// Continuing agents that wait for a usage limit (crates/repomon-daemon/src/auto_continue.rs): the
// decision for one window, the watcher's two maps and its steps. Times are nanoseconds.
module AutoContinue {
  import opened Prelude
  import opened Sorting
  import opened Text

  type Lane = nat

  type Window = string

  // The lane of an agent's window, "lane-3" or "lane-3-2" with slots from 2 on; None for others.
  function LaneOf(w: Window): Option<Lane> {
    if !("lane-" <= w) then None
    else
      var rest := w[5..];
      var i := Find(rest, '-');
      if i == |rest| then Bounded(ReadNumber(rest), LARGEST)
      else
        var slot := Bounded(ReadNumber(rest[i + 1..]), 2 * LARGEST + 1);
        if slot.Some? && slot.value >= 2 then Bounded(ReadNumber(rest[..i]), LARGEST) else None
  }

  function Bounded(n: Option<nat>, largest: nat): Option<nat> {
    if n.Some? && n.value <= largest then n else None
  }

  predicate InLane(w: Window, lane: Lane) { LaneOf(w) == Some(lane) }

  const SECOND := 1_000_000_000
  const MINUTE := 60 * SECOND
  const RETRY := 5 * MINUTE
  const UNKNOWN_RETRY := 20 * MINUTE
  const GIVE_UP_AFTER := 6 * 60 * MINUTE
  const SEND_COOLDOWN := 90 * SECOND
  const RESET_BUFFER := 60 * SECOND
  const CLEAR_AFTER_MISSES := 2

  // ---------------------------------------------------------------- the limit's menu

  datatype LimitMenu = LimitMenu(selected: Option<nat>, waitIdx: nat, waitNumber: Option<nat>)

  datatype UsageLimit = UsageLimit(resetAt: Option<int>, menu: Option<LimitMenu>)

  datatype Key = Down | Up | Enter | Number(n: nat)

  function Repeat(k: Key, n: nat): seq<Key> { seq(n, i => k) }

  function MenuSelectKeys(menu: LimitMenu): seq<Key> {
    match menu.selected
    case Some(cur) =>
      (if menu.waitIdx > cur then Repeat(Down, menu.waitIdx - cur) else Repeat(Up, cur - menu.waitIdx)) + [Enter]
    case None => if menu.waitNumber.Some? then [Number(menu.waitNumber.value), Enter] else [Enter]
  }

  // ---------------------------------------------------------------- one window

  datatype Sched = Sched(
    started: int, resetAt: Option<int>, nextAttempt: int, gaveUp: bool, cooldownUntil: Option<int>,
    menuConfirmed: bool, missStreak: nat)

  datatype RateLimit = RateLimit(resetAt: Option<int>, detectedAt: int)

  datatype Action =
    | Track(resetAt: Option<int>, nextAttempt: int)
    | ChooseWait(keys: seq<Key>)
    | Send
    | GiveUp
    | Clear
    | Nothing

  function Schedule(resetAt: Option<int>, now: int): int {
    if resetAt.Some? then resetAt.value + RESET_BUFFER else now + RETRY
  }

  function Cadence(resetAt: Option<int>): int { if resetAt.Some? then RETRY else UNKNOWN_RETRY }

  function Decide(current: Option<Sched>, detection: Option<UsageLimit>, armed: bool, now: int): Action {
    if !armed then (if current.Some? then Clear else Nothing)
    else match detection
      case Some(lim) => (
        match current
        case None => Track(lim.resetAt, Schedule(lim.resetAt, now))
        case Some(s) =>
          if s.gaveUp then Nothing
          else if now - s.started > GIVE_UP_AFTER then GiveUp
          else if s.cooldownUntil.Some? && now < s.cooldownUntil.value then Nothing
          else if lim.menu.Some? && !s.menuConfirmed then ChooseWait(MenuSelectKeys(lim.menu.value))
          else if now >= s.nextAttempt then Send
          else Nothing
      )
      case None =>
        if current.Some? && current.value.missStreak >= CLEAR_AFTER_MISSES then Clear else Nothing
  }

  // The miss streak is one byte and stops at its maximum.
  function Bump(s: Sched, hit: bool): Sched {
    s.(missStreak := if hit then 0 else if s.missStreak < 255 then s.missStreak + 1 else 255)
  }

  // ---------------------------------------------------------------- the watcher

  // Keys and text typed into a window, and status changes announced for it.
  datatype Effect =
    | Keys(window: Window, keys: seq<Key>)
    | Text(window: Window, at: int)
    | Status(window: Window, status: string)

  datatype Sending = Sending(at: int, menuShown: bool)

  // What happened during one tracked pause, for the proofs: every text, every choice of the
  // menu, every readable capture (true: the limit shows) and how many texts preceded giving up.
  datatype Pause = Pause(
    since: Since, sends: seq<Sending>, choices: seq<int>, seen: seq<bool>, sentAtGiveUp: Option<nat>)

  datatype Since = Since(window: Window, detected: int, resetAt: Option<int>)

  datatype Ending = Resumed | Disarmed | WindowGone

  datatype Ended = Ended(pause: Pause, how: Ending)

  // The watcher's private map, the public view and what has been typed and announced.
  datatype Memory = Memory(sched: map<Window, Sched>, rates: map<Window, RateLimit>, out: seq<Effect>)

  // The locals of the current pass over the windows.
  datatype Pass = Pass(now: int, globalOn: bool, off: set<Lane>, todo: seq<Window>)

  datatype History = History(pauses: map<Window, Pause>, ended: set<Ended>)

  datatype State = State(mem: Memory, off: set<Lane>, pass: Pass, hist: History)

  datatype Step =
    | Begin(now: int, globalOn: bool, names: Option<seq<Window>>) // no names: they could not be listed
    | Look(capture: Option<Option<UsageLimit>>)                   // no capture: it failed or timed out
    | Toggle(lane: Lane, enabled: bool)                           // the request agent.auto_continue

  function Start(now: int): State {
    State(Memory(map[], map[], []), {}, Pass(now, false, {}, []), History(map[], {}))
  }

  function LaneWindows(names: seq<Window>): seq<Window> {
    if names == [] then []
    else
      LaneWindows(names[..|names| - 1])
      + if LaneOf(names[|names| - 1]).Some? then [names[|names| - 1]] else []
  }

  // The agents' windows in the order of their names, each once.
  function ManagedWindows(names: seq<Window>): seq<Window> { SortedOnce(LaneWindows(names), ByText()) }

  function Only<V>(m: map<Window, V>, ws: seq<Window>): map<Window, V> {
    map w | w in m && w in ws :: m[w]
  }

  function OutsideLane<V>(m: map<Window, V>, lane: Lane): map<Window, V> {
    map w | w in m && !InLane(w, lane) :: m[w]
  }

  function Lookup<V>(m: map<Window, V>, w: Window): Option<V> { if w in m then Some(m[w]) else None }

  // ---------------------------------------------------------------- steps

  // A pass begins: windows that are gone are forgotten.
  function BeginMemory(m: Memory, ws: seq<Window>): Memory {
    Memory(Only(m.sched, ws), Only(m.rates, ws), m.out)
  }

  function BeginHistory(h: History, ws: seq<Window>): History {
    History(
      Only(h.pauses, ws),
      h.ended + set w | w in h.pauses && w !in ws :: Ended(h.pauses[w], WindowGone))
  }

  function BeginStep(s: State, now: int, globalOn: bool, names: Option<seq<Window>>): State {
    if names.None? then s
    else
      var ws := ManagedWindows(names.value);
      State(BeginMemory(s.mem, ws), s.off, Pass(now, globalOn, s.off, ws), BeginHistory(s.hist, ws))
  }

  // What an action does to the maps and types.
  function ApplyMemory(m: Memory, w: Window, action: Action, now: int): Memory {
    match action
    case Track(resetAt, nextAttempt) =>
      Memory(
        m.sched[w := Sched(now, resetAt, nextAttempt, false, None, false, 0)],
        m.rates[w := RateLimit(resetAt, now)],
        m.out + [Status(w, "rate-limited")])
    case ChooseWait(keys) =>
      Memory(
        if w in m.sched
        then m.sched[w := m.sched[w].(menuConfirmed := true, cooldownUntil := Some(now + SEND_COOLDOWN))]
        else m.sched,
        m.rates, m.out + [Keys(w, keys)])
    case Send =>
      Memory(
        if w in m.sched
        then m.sched[w := m.sched[w].(cooldownUntil := Some(now + SEND_COOLDOWN),
                                      nextAttempt := now + Cadence(m.sched[w].resetAt))]
        else m.sched,
        m.rates, m.out + [Text(w, now)])
    case GiveUp =>
      Memory(
        if w in m.sched then m.sched[w := m.sched[w].(gaveUp := true)] else m.sched,
        m.rates - {w}, m.out + [Status(w, "waiting")])
    case Clear => Memory(m.sched - {w}, m.rates - {w}, m.out + [Status(w, "running")])
    case Nothing => m
  }

  function ApplyPause(p: Pause, action: Action, now: int, menuShown: bool): Pause {
    match action
    case ChooseWait(_) => p.(choices := p.choices + [now])
    case Send => p.(sends := p.sends + [Sending(now, menuShown)])
    case GiveUp => p.(sentAtGiveUp := Some(|p.sends|))
    case _ => p
  }

  function ApplyHistory(
      h: History, w: Window, action: Action, now: int, menuShown: bool, armed: bool): History
  {
    match action
    case Track(resetAt, _) =>
      History(h.pauses[w := Pause(Since(w, now, resetAt), [], [], [], None)], h.ended)
    case Clear =>
      if w in h.pauses
      then History(h.pauses - {w}, h.ended + {Ended(h.pauses[w], if armed then Resumed else Disarmed)})
      else h
    case _ =>
      if w in h.pauses
      then History(h.pauses[w := ApplyPause(h.pauses[w], action, now, menuShown)], h.ended)
      else h
  }

  // A readable capture is first noted and then acted on.
  function NoteMemory(m: Memory, w: Window, hit: bool): Memory {
    if w in m.sched then m.(sched := m.sched[w := Bump(m.sched[w], hit)]) else m
  }

  function NoteHistory(h: History, w: Window, hit: bool): History {
    if w in h.pauses
    then h.(pauses := h.pauses[w := h.pauses[w].(seen := h.pauses[w].seen + [hit])])
    else h
  }

  predicate Armed(p: Pass, w: Window) { p.globalOn && !(LaneOf(w).Some? && LaneOf(w).value in p.off) }

  predicate ShowsMenu(d: Option<UsageLimit>) { d.Some? && d.value.menu.Some? }

  function ActionFor(m: Memory, p: Pass, w: Window, d: Option<UsageLimit>): Action {
    Decide(Lookup(NoteMemory(m, w, d.Some?).sched, w), d, Armed(p, w), p.now)
  }

  function SeenMemory(m: Memory, p: Pass, w: Window, d: Option<UsageLimit>): Memory {
    ApplyMemory(NoteMemory(m, w, d.Some?), w, ActionFor(m, p, w, d), p.now)
  }

  function SeenHistory(h: History, m: Memory, p: Pass, w: Window, d: Option<UsageLimit>): History {
    ApplyHistory(NoteHistory(h, w, d.Some?), w, ActionFor(m, p, w, d), p.now, ShowsMenu(d), Armed(p, w))
  }

  // The next window of the pass is looked at; one that cannot be captured is left for the next.
  function LookStep(s: State, capture: Option<Option<UsageLimit>>): State {
    if s.pass.todo == [] then s
    else
      var w := s.pass.todo[0];
      var t := s.(pass := s.pass.(todo := s.pass.todo[1..]));
      if capture.None? then t
      else t.(mem := SeenMemory(s.mem, s.pass, w, capture.value),
              hist := SeenHistory(s.hist, s.mem, s.pass, w, capture.value))
  }

  // Arming changes only what later passes see; disarming also empties the lane's public view.
  function ToggleStep(s: State, lane: Lane, enabled: bool): State {
    if enabled then s.(off := s.off - {lane})
    else s.(off := s.off + {lane}, mem := s.mem.(rates := OutsideLane(s.mem.rates, lane)))
  }

  // The clock never runs backwards and a pass begins when the last one is done.
  predicate Enabled(s: State, step: Step) {
    step.Begin? ==> s.pass.todo == [] && s.pass.now <= step.now
  }

  function Next(s: State, step: Step): State {
    if !Enabled(s, step) then s
    else match step
      case Begin(now, globalOn, names) => BeginStep(s, now, globalOn, names)
      case Look(capture) => LookStep(s, capture)
      case Toggle(lane, enabled) => ToggleStep(s, lane, enabled)
  }

  function After(s: State, run: seq<Step>): State {
    if run == [] then s else Next(After(s, run[..|run| - 1]), run[|run| - 1])
  }
}
