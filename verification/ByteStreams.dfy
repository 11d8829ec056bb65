// One shared byte stream per window, joined by many connections and torn down by reference
// count (crates/repomon-daemon/src/bytes_stream.rs).
//
// `State` is everything the actors share: the registry under its lock, the backend, the
// forwarder tasks, the backend closes that have left the lock but not yet arrived, and the
// published notices. `Next` is one atomic step of one actor. A step that is not possible in a
// state leaves it unchanged, so every sequence of actions is a run.
module ByteStreams {
  import opened Prelude

  type Window = string
  type Conn = nat
  type Lane = int

  datatype Grid = Grid(cols: nat, rows: nat)

  // An ordered event of a terminal stream.
  datatype Event = Bytes(chunk: seq<byte>) | GridChange(grid: Grid)

  datatype Notice =
    | BytesNotice(lane: Lane, window: Window, generation: nat, sequence: nat, data: seq<byte>)
    | GridNotice(lane: Lane, window: Window, generation: nat, sequence: nat, grid: Grid)
    | ClosedNotice(lane: Lane, window: Window, generation: nat)

  // `sequence` of the source's entry is an atomic counter shared with the forwarder; here it
  // lives in the forwarder of the entry's generation.
  datatype WatchEntry = WatchEntry(
    lane: Lane, refs: set<Conn>, generation: nat, backendTag: nat, grid: Option<Grid>)

  // What a forwarder task is about to do.
  datatype Phase =
    | Receiving                           // at `rx.recv().await`
    | Taken(event: Event)                 // about to draw a sequence number
    | Numbered(event: Event, number: nat) // about to publish
    | Closing                             // removed its entry, about to publish stream-closed
    | Finished

  datatype Forwarder = Forwarder(lane: Lane, window: Window, tag: nat, phase: Phase, sequence: nat)
  {
    predicate Active() { !phase.Closing? && !phase.Finished? }
  }

  // One backend stream: its channel, whether a sender is still held, and two history fields:
  // the generation it was opened for and every event ever sent into it.
  datatype Stream = Stream(queue: seq<Event>, open: bool, owner: nat, sent: seq<Event>)

  datatype Close = Close(window: Window, tag: nat)

  datatype StreamCursor = StreamCursor(generation: nat, sequence: nat)

  datatype State = State(
    watches: map<Window, WatchEntry>,
    nextGeneration: nat,
    nextTag: nat,
    live: map<Window, nat>,        // the backend's stream of each window, by tag
    streams: map<nat, Stream>,     // every stream ever opened, by tag
    forwarders: map<nat, Forwarder>, // every forwarder ever spawned, by generation
    closes: set<Close>,            // backend closes in flight
    log: seq<Notice>,              // published notices, oldest first
    released: set<nat>)            // history: generations whose entry an unwatch removed

  // What the backend answers to an open: a failure, or a fresh tag (it may have burnt some) and
  // the pane size read just before.
  datatype Open = Failed | Opened(skip: nat, grid: Option<Grid>)

  datatype Action =
    | Watch(lane: Lane, window: Window, conn: Conn, open: Open)
    | Unwatch(window: Window, conn: Conn)
    | UnwatchAll(conn: Conn)
    | CloseArrives(close: Close)
    | NoteGrid(window: Window, only: Option<nat>, grid: Grid)
    | Emit(tag: nat, event: Event)
    | Die(window: Window)
    | DropSender(tag: nat)
    | Forward(generation: nat)

  const INITIAL := State(map[], 0, 0, map[], map[], map[], {}, [], {})

  // ---------------------------------------------------------------- registry steps

  function JoinStep(s: State, w: Window, conn: Conn): State
    requires w in s.watches
  {
    var e := s.watches[w];
    s.(watches := s.watches[w := e.(refs := e.refs + {conn})])
  }

  // A fresh generation over a fresh backend stream, which replaces any stream of the window.
  function OpenStep(s: State, lane: Lane, w: Window, conn: Conn, tag: nat, grid: Option<Grid>): State {
    var g := s.nextGeneration;
    s.(watches := s.watches[w := WatchEntry(lane, {conn}, g, tag, grid)],
       nextGeneration := g + 1,
       nextTag := tag + 1,
       live := s.live[w := tag],
       streams := s.streams[tag := Stream([], true, g, [])],
       forwarders := s.forwarders[g := Forwarder(lane, w, tag, Receiving, 0)])
  }

  function WatchStep(s: State, lane: Lane, w: Window, conn: Conn, open: Open): State {
    if w in s.watches then JoinStep(s, w, conn)
    else
      match open
      case Failed => s.(nextGeneration := s.nextGeneration + 1)
      case Opened(skip, grid) => OpenStep(s, lane, w, conn, s.nextTag + skip, grid)
  }

  // Would releasing `conn` leave the entry without a watcher?
  predicate Empties(e: WatchEntry, conn: Conn) { e.refs - {conn} == {} }

  function UnwatchStep(s: State, w: Window, conn: Conn): State {
    if w !in s.watches then s
    else
      var e := s.watches[w];
      if !Empties(e, conn) then s.(watches := s.watches[w := e.(refs := e.refs - {conn})])
      else
        s.(watches := s.watches - {w},
           closes := s.closes + {Close(w, e.backendTag)},
           released := s.released + {e.generation})
  }

  function Kept(watches: map<Window, WatchEntry>, conn: Conn): map<Window, WatchEntry> {
    map w | w in watches && !Empties(watches[w], conn) ::
      watches[w].(refs := watches[w].refs - {conn})
  }

  // The closes and the generations of the entries that `conn` empties.
  function Closes(watches: map<Window, WatchEntry>, conn: Conn): set<Close> {
    set w | w in watches && Empties(watches[w], conn) :: Close(w, watches[w].backendTag)
  }

  function Leaving(watches: map<Window, WatchEntry>, conn: Conn): set<nat> {
    set w | w in watches && Empties(watches[w], conn) :: watches[w].generation
  }

  function UnwatchAllStep(s: State, conn: Conn): State {
    s.(watches := Kept(s.watches, conn),
       closes := s.closes + Closes(s.watches, conn),
       released := s.released + Leaving(s.watches, conn))
  }

  // None for an absent watch or another generation, Some(false) for an unchanged grid.
  function NoteGridAnswer(s: State, w: Window, generation: Option<nat>, grid: Grid): Option<bool> {
    if w !in s.watches then None
    else if generation.Some? && generation.value != s.watches[w].generation then None
    else Some(s.watches[w].grid != Some(grid))
  }

  function NoteGridStep(s: State, w: Window, generation: Option<nat>, grid: Grid): State {
    if NoteGridAnswer(s, w, generation, grid) == Some(true) then
      s.(watches := s.watches[w := s.watches[w].(grid := Some(grid))])
    else s
  }

  // ---------------------------------------------------------------- backend steps

  // A close stops only the stream that carries its tag.
  function CloseStep(s: State, c: Close): State {
    if c !in s.closes then s
    else
      s.(closes := s.closes - {c},
         live := if c.window in s.live && s.live[c.window] == c.tag then s.live - {c.window}
                 else s.live)
  }

  function EmitStep(s: State, t: nat, e: Event): State {
    if t in s.streams && s.streams[t].open then
      var st := s.streams[t];
      s.(streams := s.streams[t := st.(queue := st.queue + [e], sent := st.sent + [e])])
    else s
  }

  // The window died: the backend forgets its stream on its own.
  function DieStep(s: State, w: Window): State {
    s.(live := s.live - {w})
  }

  // The last sender of a stream that the backend no longer lists goes away.
  function DropSenderStep(s: State, t: nat): State {
    if t in s.streams && t !in s.live.Values then
      s.(streams := s.streams[t := s.streams[t].(open := false)])
    else s
  }

  // ---------------------------------------------------------------- forwarder steps

  predicate IsCurrent(s: State, w: Window, g: nat) {
    w in s.watches && s.watches[w].generation == g
  }

  function WithPhase(s: State, g: nat, phase: Phase): State
    requires g in s.forwarders
  {
    s.(forwarders := s.forwarders[g := s.forwarders[g].(phase := phase)])
  }

  // Receive one event; a grid that the registry does not accept as a change is skipped.
  function TakeStep(s: State, g: nat): State
    requires g in s.forwarders && s.forwarders[g].tag in s.streams
    requires s.streams[s.forwarders[g].tag].queue != []
  {
    var f := s.forwarders[g];
    var st := s.streams[f.tag];
    var e := st.queue[0];
    var accepted := e.Bytes? || NoteGridAnswer(s, f.window, Some(g), e.grid) == Some(true);
    s.(streams := s.streams[f.tag := st.(queue := st.queue[1..])],
       watches := if e.Bytes? then s.watches else NoteGridStep(s, f.window, Some(g), e.grid).watches,
       forwarders := if accepted then s.forwarders[g := f.(phase := Taken(e))] else s.forwarders)
  }

  function EofStep(s: State, g: nat): State
    requires g in s.forwarders
  {
    var w := s.forwarders[g].window;
    if IsCurrent(s, w, g) then WithPhase(s.(watches := s.watches - {w}), g, Closing)
    else WithPhase(s, g, Finished)
  }

  function NoticeFor(f: Forwarder, g: nat, e: Event, number: nat): Notice {
    match e
    case Bytes(chunk) => BytesNotice(f.lane, f.window, g, number, chunk)
    case GridChange(grid) => GridNotice(f.lane, f.window, g, number, grid)
  }

  function NumberStep(s: State, g: nat): State
    requires g in s.forwarders && s.forwarders[g].phase.Taken?
  {
    var f := s.forwarders[g];
    s.(forwarders := s.forwarders[g :=
         f.(phase := Numbered(f.phase.event, f.sequence + 1), sequence := f.sequence + 1)])
  }

  function SendStep(s: State, g: nat): State
    requires g in s.forwarders && s.forwarders[g].phase.Numbered?
  {
    var f := s.forwarders[g];
    WithPhase(s, g, Receiving).(log := s.log + [NoticeFor(f, g, f.phase.event, f.phase.number)])
  }

  function SendClosedStep(s: State, g: nat): State
    requires g in s.forwarders
  {
    var f := s.forwarders[g];
    WithPhase(s, g, Finished).(log := s.log + [ClosedNotice(f.lane, f.window, g)])
  }

  // The next step of the forwarder of generation `g`.
  function ForwardStep(s: State, g: nat): State {
    if g !in s.forwarders || s.forwarders[g].tag !in s.streams then s
    else
      var f := s.forwarders[g];
      var st := s.streams[f.tag];
      match f.phase
      case Receiving =>
        if st.queue != [] then TakeStep(s, g)
        else if !st.open then EofStep(s, g)
        else s
      case Taken(_) => NumberStep(s, g)
      case Numbered(_, _) => SendStep(s, g)
      case Closing => SendClosedStep(s, g)
      case Finished => s
  }

  // ---------------------------------------------------------------- runs

  function Next(s: State, a: Action): State {
    match a
    case Watch(lane, w, conn, open) => WatchStep(s, lane, w, conn, open)
    case Unwatch(w, conn) => UnwatchStep(s, w, conn)
    case UnwatchAll(conn) => UnwatchAllStep(s, conn)
    case CloseArrives(c) => CloseStep(s, c)
    case NoteGrid(w, g, grid) => NoteGridStep(s, w, g, grid)
    case Emit(t, e) => EmitStep(s, t, e)
    case Die(w) => DieStep(s, w)
    case DropSender(t) => DropSenderStep(s, t)
    case Forward(g) => ForwardStep(s, g)
  }

  // The state after a run: any finite interleaving of the actors.
  function After(s: State, run: seq<Action>): State
    decreases |run|
  {
    if run == [] then s else After(Next(s, run[0]), run[1..])
  }
}
