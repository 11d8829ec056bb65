// What every interleaving of the byte-stream actors keeps.
module ByteStreamInvariant {
  import opened Prelude
  import opened ByteStreams
  import opened EventOrder

  // ---------------------------------------------------------------- what is published

  predicate Numbers(n: Notice, g: nat) {
    !n.ClosedNotice? && n.generation == g
  }

  // The byte and grid notices of generation `g`, oldest first.
  function NoticesOf(log: seq<Notice>, g: nat): (notices: seq<Notice>)
    ensures forall i :: 0 <= i < |notices| ==> Numbers(notices[i], g)
  {
    if log == [] then []
    else
      var rest := NoticesOf(log[..|log| - 1], g);
      if Numbers(log[|log| - 1], g) then rest + [log[|log| - 1]] else rest
  }

  function ClosedCount(log: seq<Notice>, g: nat): nat {
    if log == [] then 0
    else
      var n := log[|log| - 1];
      ClosedCount(log[..|log| - 1], g) + if n.ClosedNotice? && n.generation == g then 1 else 0
  }

  lemma LogGrows(log: seq<Notice>, n: Notice, g: nat)
    ensures NoticesOf(log + [n], g) == NoticesOf(log, g) + if Numbers(n, g) then [n] else []
    ensures ClosedCount(log + [n], g)
         == ClosedCount(log, g) + if n.ClosedNotice? && n.generation == g then 1 else 0
  {
    assert (log + [n])[..|log|] == log;
  }

  // The event a forwarder has received but not yet published.
  function Held(p: Phase): seq<Event> { if p.Taken? || p.Numbered? then [p.event] else [] }

  // ---------------------------------------------------------------- the invariant

  // Every entry has a watcher, and an unfinished forwarder of its own generation that nobody
  // has released.
  ghost predicate EntryOk(s: State, w: Window)
    requires w in s.watches
  {
    var e := s.watches[w];
    && e.refs != {}
    && e.generation in s.forwarders
    && e.generation !in s.released
    && var f := s.forwarders[e.generation];
       f.Active() && f.window == w && f.lane == e.lane && f.tag == e.backendTag
  }

  ghost predicate ForwarderOk(s: State, g: nat)
    requires g in s.forwarders
  {
    var f := s.forwarders[g];
    && g < s.nextGeneration
    && f.tag in s.streams
    && s.streams[f.tag].owner == g
    && (f.phase.Numbered? ==> f.phase.number == f.sequence)
    && (!f.Active() ==> s.streams[f.tag].queue == [] && !s.streams[f.tag].open)
    && (f.phase.Closing? ==> g !in s.released)
    && (f.Active() && g !in s.released ==> IsCurrent(s, f.window, g))
  }

  ghost predicate StreamOk(s: State, t: nat)
    requires t in s.streams
  {
    var g := s.streams[t].owner;
    t < s.nextTag && g in s.forwarders && s.forwarders[g].tag == t
  }

  // A live stream is open; it is the stream of its window's entry, or, when the window has no
  // entry, its close is in flight.
  ghost predicate LiveOk(s: State, w: Window)
    requires w in s.live
  {
    var t := s.live[w];
    && t in s.streams
    && s.streams[t].open
    && (if w in s.watches then s.watches[w].backendTag == t else Close(w, t) in s.closes)
  }

  // A close in flight carries the tag of a released generation of its own window.
  ghost predicate CloseOk(s: State, c: Close) {
    && c.tag in s.streams
    && var g := s.streams[c.tag].owner;
       g in s.released && g in s.forwarders && s.forwarders[g].window == c.window
  }

  // Numbering, order, and the closed notice, for one generation: what it published, holds and has
  // still to receive is what was sent, less some grid changes.
  ghost predicate LogOk(s: State, g: nat)
    requires g in s.forwarders
  {
    var f, notices := s.forwarders[g], NoticesOf(s.log, g);
    && f.tag in s.streams
    && |notices| + (if f.phase.Numbered? then 1 else 0) == f.sequence
    && (forall i :: 0 <= i < |notices| ==>
          notices[i].sequence == i + 1 && notices[i].window == f.window && notices[i].lane == f.lane)
    && Thinned(EventsIn(notices) + Held(f.phase) + s.streams[f.tag].queue, s.streams[f.tag].sent)
    && ClosedCount(s.log, g) == if f.phase.Finished? && g !in s.released then 1 else 0
  }

  ghost predicate Unborn(s: State, g: nat) {
    NoticesOf(s.log, g) == [] && ClosedCount(s.log, g) == 0 && g !in s.released
  }

  ghost predicate Entries(s: State) { forall w :: w in s.watches ==> EntryOk(s, w) }

  ghost predicate Forwarders(s: State) { forall g :: g in s.forwarders ==> ForwarderOk(s, g) }

  ghost predicate Streams(s: State) { forall t :: t in s.streams ==> StreamOk(s, t) }

  ghost predicate Live(s: State) { forall w :: w in s.live ==> LiveOk(s, w) }

  ghost predicate Closings(s: State) {
    (forall c :: c in s.closes ==> CloseOk(s, c)) && s.released <= s.forwarders.Keys
  }

  ghost predicate Structure(s: State) {
    Entries(s) && Forwarders(s) && Streams(s) && Live(s) && Closings(s)
  }

  ghost predicate Published(s: State) {
    && (forall g :: g in s.forwarders ==> LogOk(s, g))
    && (forall g :: g !in s.forwarders ==> Unborn(s, g))
  }

  ghost predicate Inv(s: State) { Structure(s) && Published(s) }

  // ---------------------------------------------------------------- the structure is kept

  // The next generation and the next tags are new.
  lemma FreshIds(s: State)
    requires Forwarders(s) && Streams(s)
    ensures s.nextGeneration !in s.forwarders
    ensures forall t :: t in s.streams ==> t < s.nextTag
  {
    forall g | g in s.forwarders ensures g != s.nextGeneration { assert ForwarderOk(s, g); }
    forall t | t in s.streams ensures t < s.nextTag { assert StreamOk(s, t); }
  }

  lemma OpenForwarders(s: State, lane: Lane, w: Window, conn: Conn, tag: nat, grid: Option<Grid>)
    requires w !in s.watches && tag !in s.streams && s.nextTag <= tag
    requires s.nextGeneration !in s.forwarders && s.nextGeneration !in s.released
    requires Forwarders(s) && Streams(s)
    ensures Forwarders(OpenStep(s, lane, w, conn, tag, grid)) && Streams(OpenStep(s, lane, w, conn, tag, grid))
  {
    var s' := OpenStep(s, lane, w, conn, tag, grid);
    forall g | g in s'.forwarders ensures ForwarderOk(s', g) { assert g in s.forwarders ==> ForwarderOk(s, g); }
    forall t | t in s'.streams ensures StreamOk(s', t) { assert t in s.streams ==> StreamOk(s, t); }
  }

  lemma OpenEntries(s: State, lane: Lane, w: Window, conn: Conn, tag: nat, grid: Option<Grid>)
    requires tag !in s.streams
    requires s.nextGeneration !in s.forwarders && s.nextGeneration !in s.released
    requires Entries(s) && Live(s) && Closings(s)
    ensures
      var s' := OpenStep(s, lane, w, conn, tag, grid);
      Entries(s') && Live(s') && Closings(s')
  {
    var s' := OpenStep(s, lane, w, conn, tag, grid);
    forall v | v in s'.watches ensures EntryOk(s', v) { assert v != w ==> EntryOk(s, v); }
    forall v | v in s'.live ensures LiveOk(s', v) { assert v != w ==> LiveOk(s, v); }
    forall c | c in s'.closes ensures CloseOk(s', c) { assert CloseOk(s, c); }
  }

  lemma OpenStructure(s: State, lane: Lane, w: Window, conn: Conn, tag: nat, grid: Option<Grid>)
    requires Structure(s) && w !in s.watches && s.nextTag <= tag
    ensures Structure(OpenStep(s, lane, w, conn, tag, grid))
  {
    FreshIds(s);
    OpenForwarders(s, lane, w, conn, tag, grid);
    OpenEntries(s, lane, w, conn, tag, grid);
  }

  lemma FailedStructure(s: State)
    requires Structure(s)
    ensures Structure(s.(nextGeneration := s.nextGeneration + 1))
  {
    var s' := s.(nextGeneration := s.nextGeneration + 1);
    forall v | v in s'.watches ensures EntryOk(s', v) { assert EntryOk(s, v); }
    forall g | g in s'.forwarders ensures ForwarderOk(s', g) { assert ForwarderOk(s, g); }
    forall v | v in s'.live ensures LiveOk(s', v) { assert LiveOk(s, v); }
  }

  // The last watcher's unwatch.
  function RemoveStep(s: State, w: Window): State
    requires w in s.watches
  {
    s.(watches := s.watches - {w},
       closes := s.closes + {Close(w, s.watches[w].backendTag)},
       released := s.released + {s.watches[w].generation})
  }

  lemma RemoveEntries(s: State, w: Window)
    requires Entries(s) && w in s.watches
    ensures Entries(RemoveStep(s, w))
  {
    assert EntryOk(s, w);
    forall v | v in RemoveStep(s, w).watches ensures EntryOk(RemoveStep(s, w), v) { assert EntryOk(s, v); }
  }

  lemma RemoveForwarders(s: State, w: Window)
    requires Forwarders(s) && w in s.watches && EntryOk(s, w)
    ensures Forwarders(RemoveStep(s, w))
  {
    forall g | g in s.forwarders ensures ForwarderOk(RemoveStep(s, w), g) { assert ForwarderOk(s, g); }
  }

  lemma RemoveClosings(s: State, w: Window)
    requires Closings(s) && Live(s) && w in s.watches && EntryOk(s, w)
    requires ForwarderOk(s, s.watches[w].generation)
    ensures Closings(RemoveStep(s, w)) && Live(RemoveStep(s, w))
  {
    forall c | c in RemoveStep(s, w).closes ensures CloseOk(RemoveStep(s, w), c) {
      assert c in s.closes ==> CloseOk(s, c);
    }
    forall v | v in s.live ensures LiveOk(RemoveStep(s, w), v) { assert LiveOk(s, v); }
  }

  lemma RemoveStructure(s: State, w: Window)
    requires Structure(s) && w in s.watches
    ensures Structure(RemoveStep(s, w))
  {
    assert EntryOk(s, w) && ForwarderOk(s, s.watches[w].generation);
    RemoveEntries(s, w);
    RemoveForwarders(s, w);
    RemoveClosings(s, w);
    forall t | t in s.streams ensures StreamOk(RemoveStep(s, w), t) { assert StreamOk(s, t); }
  }

  // An entry whose watchers and grid change, but which keeps a watcher, stays as good as it was.
  lemma EntryStructure(s: State, w: Window, e: WatchEntry)
    requires Structure(s) && w in s.watches && e.refs != {}
    requires e == s.watches[w].(refs := e.refs, grid := e.grid)
    ensures Structure(s.(watches := s.watches[w := e]))
  {
    var s' := s.(watches := s.watches[w := e]);
    forall v | v in s'.watches ensures EntryOk(s', v) { assert EntryOk(s, v); }
    forall g | g in s'.forwarders ensures ForwarderOk(s', g) { assert ForwarderOk(s, g); }
    forall t | t in s.streams ensures StreamOk(s', t) { assert StreamOk(s, t); }
    forall v | v in s'.live ensures LiveOk(s', v) { assert LiveOk(s, v); }
    forall c | c in s'.closes ensures CloseOk(s', c) { assert CloseOk(s, c); }
  }

  lemma WatchStructure(s: State, lane: Lane, w: Window, conn: Conn, open: Open)
    requires Structure(s)
    ensures Structure(WatchStep(s, lane, w, conn, open))
  {
    if w in s.watches {
      EntryStructure(s, w, s.watches[w].(refs := s.watches[w].refs + {conn}));
    } else {
      match open
      case Failed => FailedStructure(s);
      case Opened(skip, grid) => OpenStructure(s, lane, w, conn, s.nextTag + skip, grid);
    }
  }

  lemma UnwatchStructure(s: State, w: Window, conn: Conn)
    requires Structure(s)
    ensures Structure(UnwatchStep(s, w, conn))
  {
    if w in s.watches {
      var e := s.watches[w];
      if Empties(e, conn) { RemoveStructure(s, w); }
      else { EntryStructure(s, w, e.(refs := e.refs - {conn})); }
    }
  }

  lemma UnwatchAllStructure(s: State, conn: Conn)
    requires Structure(s)
    ensures Structure(UnwatchAllStep(s, conn))
  {}

  lemma CloseStructure(s: State, c: Close)
    requires Structure(s)
    ensures Structure(CloseStep(s, c))
  {}

  lemma NoteGridStructure(s: State, w: Window, only: Option<nat>, grid: Grid)
    requires Structure(s)
    ensures Structure(NoteGridStep(s, w, only, grid))
  {
    if w in s.watches {
      assert EntryOk(s, w);
      EntryStructure(s, w, s.watches[w].(grid := Some(grid)));
    }
  }

  lemma EmitStructure(s: State, t: nat, e: Event)
    requires Structure(s)
    ensures Structure(EmitStep(s, t, e))
  {}

  lemma DieStructure(s: State, w: Window)
    requires Structure(s)
    ensures Structure(DieStep(s, w))
  {}

  lemma DropStructure(s: State, t: nat)
    requires Structure(s)
    ensures Structure(DropSenderStep(s, t))
  {}

  lemma PopStructure(s: State, t: nat)
    requires Structure(s) && t in s.streams && s.streams[t].queue != []
    ensures Structure(s.(streams := s.streams[t := s.streams[t].(queue := s.streams[t].queue[1..])]))
  {}

  // A forwarder may move between its active phases.
  lemma PhaseStructure(s: State, g: nat, f: Forwarder)
    requires Structure(s) && g in s.forwarders && s.forwarders[g].Active()
    requires f == s.forwarders[g].(phase := f.phase, sequence := f.sequence)
    requires f.Active() && (f.phase.Numbered? ==> f.phase.number == f.sequence)
    ensures Structure(s.(forwarders := s.forwarders[g := f]))
  {
    var s' := s.(forwarders := s.forwarders[g := f]);
    forall v | v in s'.watches ensures EntryOk(s', v) { assert EntryOk(s, v); }
    forall h | h in s'.forwarders ensures ForwarderOk(s', h) { assert ForwarderOk(s, h); }
    forall t | t in s'.streams ensures StreamOk(s', t) { assert StreamOk(s, t); }
    forall v | v in s'.live ensures LiveOk(s', v) { assert LiveOk(s, v); }
    forall c | c in s'.closes ensures CloseOk(s', c) { assert CloseOk(s, c); }
  }

  lemma TakeStructure(s: State, g: nat)
    requires Structure(s) && g in s.forwarders && s.forwarders[g].phase.Receiving?
    requires s.streams[s.forwarders[g].tag].queue != []
    ensures Structure(TakeStep(s, g))
  {
    var f := s.forwarders[g];
    var e := s.streams[f.tag].queue[0];
    PopStructure(s, f.tag);
    var popped := s.(streams := TakeStep(s, g).streams);
    if e.Bytes? {
      PhaseStructure(popped, g, f.(phase := Taken(e)));
    } else {
      NoteGridStructure(popped, f.window, Some(g), e.grid);
      var noted := NoteGridStep(popped, f.window, Some(g), e.grid);
      if NoteGridAnswer(s, f.window, Some(g), e.grid) == Some(true) {
        PhaseStructure(noted, g, f.(phase := Taken(e)));
      }
    }
  }

  // The forwarder of an ended stream leaves: its entry, if still there, goes with it.
  lemma EofEntries(s: State, g: nat)
    requires g in s.forwarders && Entries(s)
    ensures Entries(EofStep(s, g))
  {
    forall w | w in EofStep(s, g).watches ensures EntryOk(EofStep(s, g), w) { assert EntryOk(s, w); }
  }

  lemma EofForwarders(s: State, g: nat)
    requires g in s.forwarders && s.forwarders[g].phase.Receiving? && s.forwarders[g].tag in s.streams
    requires Forwarders(s) && Streams(s)
    requires IsCurrent(s, s.forwarders[g].window, g) ==> g !in s.released
    requires s.streams[s.forwarders[g].tag].queue == [] && !s.streams[s.forwarders[g].tag].open
    ensures Forwarders(EofStep(s, g)) && Streams(EofStep(s, g))
  {
    forall h | h in s.forwarders ensures ForwarderOk(EofStep(s, g), h) { assert ForwarderOk(s, h); }
    forall t | t in s.streams ensures StreamOk(EofStep(s, g), t) { assert StreamOk(s, t); }
  }

  lemma EofLive(s: State, g: nat)
    requires g in s.forwarders && s.forwarders[g].tag in s.streams
    requires !s.streams[s.forwarders[g].tag].open
    requires Live(s) && Closings(s)
    requires IsCurrent(s, s.forwarders[g].window, g) ==>
      s.watches[s.forwarders[g].window].backendTag == s.forwarders[g].tag
    ensures Live(EofStep(s, g)) && Closings(EofStep(s, g))
  {
    forall v | v in s.live ensures LiveOk(EofStep(s, g), v) { assert LiveOk(s, v); }
    forall c | c in s.closes ensures CloseOk(EofStep(s, g), c) { assert CloseOk(s, c); }
  }

  lemma EofStructure(s: State, g: nat)
    requires Structure(s) && g in s.forwarders && s.forwarders[g].phase.Receiving?
    requires s.streams[s.forwarders[g].tag].queue == []
    requires !s.streams[s.forwarders[g].tag].open
    ensures Structure(EofStep(s, g))
  {
    var w := s.forwarders[g].window;
    assert w in s.watches ==> EntryOk(s, w);
    assert ForwarderOk(s, g);
    EofEntries(s, g);
    EofForwarders(s, g);
    EofLive(s, g);
  }

  lemma NumberStructure(s: State, g: nat)
    requires Structure(s) && g in s.forwarders && s.forwarders[g].phase.Taken?
    ensures Structure(NumberStep(s, g))
  {
    var f := s.forwarders[g];
    PhaseStructure(s, g, f.(phase := Numbered(f.phase.event, f.sequence + 1), sequence := f.sequence + 1));
  }

  lemma LogStructure(s: State, log: seq<Notice>)
    requires Structure(s)
    ensures Structure(s.(log := log))
  {
    var s' := s.(log := log);
    forall v | v in s'.watches ensures EntryOk(s', v) { assert EntryOk(s, v); }
    forall h | h in s'.forwarders ensures ForwarderOk(s', h) { assert ForwarderOk(s, h); }
    forall t | t in s'.streams ensures StreamOk(s', t) { assert StreamOk(s, t); }
    forall v | v in s'.live ensures LiveOk(s', v) { assert LiveOk(s, v); }
    forall c | c in s'.closes ensures CloseOk(s', c) { assert CloseOk(s, c); }
  }

  lemma SendStructure(s: State, g: nat)
    requires Structure(s) && g in s.forwarders && s.forwarders[g].phase.Numbered?
    ensures Structure(SendStep(s, g))
  {
    var f := s.forwarders[g];
    PhaseStructure(s, g, f.(phase := Receiving));
    LogStructure(WithPhase(s, g, Receiving), s.log + [NoticeFor(f, g, f.phase.event, f.phase.number)]);
  }

  lemma SendClosedStructure(s: State, g: nat)
    requires Structure(s) && g in s.forwarders && s.forwarders[g].phase.Closing?
    ensures Structure(SendClosedStep(s, g))
  {
    var s' := SendClosedStep(s, g);
    forall v | v in s'.watches ensures EntryOk(s', v) { assert EntryOk(s, v); }
    forall h | h in s'.forwarders ensures ForwarderOk(s', h) { assert ForwarderOk(s, h); }
    forall v | v in s'.live ensures LiveOk(s', v) { assert LiveOk(s, v); }
  }

  lemma ForwardStructure(s: State, g: nat)
    requires Structure(s)
    ensures Structure(ForwardStep(s, g))
  {
    if g in s.forwarders {
      assert ForwarderOk(s, g);
      var f := s.forwarders[g];
      var st := s.streams[f.tag];
      match f.phase
      case Receiving =>
        if st.queue != [] { TakeStructure(s, g); }
        else if !st.open { EofStructure(s, g); }
      case Taken(_) => NumberStructure(s, g);
      case Numbered(_, _) => SendStructure(s, g);
      case Closing => SendClosedStructure(s, g);
      case Finished =>
    }
  }

  lemma StepStructure(s: State, a: Action)
    requires Structure(s)
    ensures Structure(Next(s, a))
  {
    match a
    case Watch(lane, w, conn, open) => WatchStructure(s, lane, w, conn, open);
    case Unwatch(w, conn) => UnwatchStructure(s, w, conn);
    case UnwatchAll(conn) => UnwatchAllStructure(s, conn);
    case CloseArrives(c) => CloseStructure(s, c);
    case NoteGrid(w, g, grid) => NoteGridStructure(s, w, g, grid);
    case Emit(t, e) => EmitStructure(s, t, e);
    case Die(w) => DieStructure(s, w);
    case DropSender(t) => DropStructure(s, t);
    case Forward(g) => ForwardStructure(s, g);
  }

  // ---------------------------------------------------------------- so is what is published

  // Steps that leave forwarders, channels and the log alone keep what is published, as long as
  // they release only generations whose forwarder is still at work.
  lemma QuietPublished(s: State, s': State)
    requires Published(s)
    requires s'.log == s.log && s'.forwarders == s.forwarders
    requires forall t :: t in s.streams ==>
      t in s'.streams && s'.streams[t].queue == s.streams[t].queue && s'.streams[t].sent == s.streams[t].sent
    requires forall g :: g in s.released ==> g in s'.released
    requires forall g :: g in s'.released && g !in s.released ==> g in s.forwarders && s.forwarders[g].Active()
    ensures Published(s')
  {
    forall h | h in s'.forwarders ensures LogOk(s', h) { assert LogOk(s, h); }
    forall h | h !in s'.forwarders ensures Unborn(s', h) { assert Unborn(s, h); }
  }

  lemma UnwatchPublished(s: State, w: Window, conn: Conn)
    requires Published(s)
    requires w in s.watches ==> EntryOk(s, w)
    ensures Published(UnwatchStep(s, w, conn))
  {
    QuietPublished(s, UnwatchStep(s, w, conn));
  }

  lemma UnwatchAllPublished(s: State, conn: Conn)
    requires Published(s)
    requires Entries(s)
    ensures Published(UnwatchAllStep(s, conn))
  {
    forall g | g in UnwatchAllStep(s, conn).released && g !in s.released
      ensures g in s.forwarders && s.forwarders[g].Active()
    {
      var w :| w in s.watches && s.watches[w].generation == g;
      assert EntryOk(s, w);
    }
    QuietPublished(s, UnwatchAllStep(s, conn));
  }

  lemma OpenPublished(s: State, lane: Lane, w: Window, conn: Conn, tag: nat, grid: Option<Grid>)
    requires Published(s) && w !in s.watches && tag !in s.streams && s.nextGeneration !in s.forwarders
    ensures Published(OpenStep(s, lane, w, conn, tag, grid))
  {
    var s' := OpenStep(s, lane, w, conn, tag, grid);
    forall h | h in s'.forwarders ensures LogOk(s', h) {
      if h == s.nextGeneration {
        assert Unborn(s, h);
      } else {
        assert LogOk(s, h);
      }
    }
    forall h | h !in s'.forwarders ensures Unborn(s', h) { assert Unborn(s, h); }
  }

  lemma EmitLogOk(s: State, t: nat, e: Event, g: nat)
    requires g in s.forwarders && LogOk(s, g) && t in s.streams && s.streams[t].open
    ensures LogOk(EmitStep(s, t, e), g)
  {
    var f := s.forwarders[g];
    if f.tag == t {
      var st, done := s.streams[t], EventsIn(NoticesOf(s.log, g)) + Held(f.phase);
      KeepsOneMore(done + st.queue, st.sent, e);
      assert done + st.queue + [e] == done + (st.queue + [e]);
    }
  }

  lemma EmitPublished(s: State, t: nat, e: Event)
    requires Published(s)
    ensures Published(EmitStep(s, t, e))
  {
    if t in s.streams && s.streams[t].open {
      var s' := EmitStep(s, t, e);
      forall h | h in s'.forwarders ensures LogOk(s', h) { EmitLogOk(s, t, e, h); }
      forall h | h !in s'.forwarders ensures Unborn(s', h) { assert Unborn(s, h); }
    }
  }

  // Nothing is gone, or the first event, a grid change, is.
  ghost predicate SameOrSkips(before: seq<Event>, after: seq<Event>) {
    before == after || (before != [] && before[0].GridChange? && before[1..] == after)
  }

  lemma SkippingKeepsOrder(
      done: seq<Event>, held: seq<Event>, queue: seq<Event>, held': seq<Event>, queue': seq<Event>,
      all: seq<Event>)
    requires SameOrSkips(held + queue, held' + queue') && Thinned(done + held + queue, all)
    ensures Thinned(done + held' + queue', all)
  {
    var before, after := held + queue, held' + queue';
    assert done + held + queue == done + before && done + held' + queue' == done + after;
    if before != after {
      assert done + before == done + [before[0]] + after;
      SkipsOne(done, before[0], after, all);
    }
  }

  // Forwarder `g` moves on without publishing: its counter, what it holds and its channel may
  // change, as long as the numbering and the order still hold.
  ghost predicate Silent(s: State, s': State, g: nat) {
    && g in s.forwarders && g in s'.forwarders
    && s'.log == s.log && s'.released == s.released
    && var f, f' := s.forwarders[g], s'.forwarders[g];
       && f.tag in s.streams && f.tag in s'.streams
       && f' == f.(phase := f'.phase, sequence := f'.sequence)
       && f.Active()
       && f'.sequence + (if f.phase.Numbered? then 1 else 0)
            == f.sequence + (if f'.phase.Numbered? then 1 else 0)
       && s'.streams[f.tag].sent == s.streams[f.tag].sent
       && SameOrSkips(Held(f.phase) + s.streams[f.tag].queue, Held(f'.phase) + s'.streams[f.tag].queue)
       && (f'.phase.Finished? ==> g in s.released)
  }

  lemma SilentLogOk(s: State, s': State, g: nat)
    requires Silent(s, s', g) && LogOk(s, g)
    ensures LogOk(s', g)
  {
    var f, f' := s.forwarders[g], s'.forwarders[g];
    SkippingKeepsOrder(
      EventsIn(NoticesOf(s.log, g)), Held(f.phase), s.streams[f.tag].queue, Held(f'.phase),
      s'.streams[f.tag].queue, s.streams[f.tag].sent);
  }

  lemma SilentPublished(s: State, s': State, g: nat)
    requires Published(s) && Silent(s, s', g)
    requires s'.forwarders.Keys == s.forwarders.Keys
    requires forall h :: h in s.forwarders && h != g ==>
      && s'.forwarders[h] == s.forwarders[h]
      && s.forwarders[h].tag in s'.streams && s.forwarders[h].tag in s.streams
      && s'.streams[s.forwarders[h].tag] == s.streams[s.forwarders[h].tag]
    ensures Published(s')
  {
    SilentLogOk(s, s', g);
    forall h | h in s'.forwarders && h != g ensures LogOk(s', h) { assert LogOk(s, h); }
    forall h | h !in s'.forwarders ensures Unborn(s', h) { assert Unborn(s, h); }
  }

  // No other forwarder reads `g`'s stream.
  ghost predicate Owns(s: State, g: nat)
    requires g in s.forwarders
  {
    && s.forwarders[g].tag in s.streams
    && forall h :: h in s.forwarders && h != g ==>
         s.forwarders[h].tag in s.streams && s.forwarders[h].tag != s.forwarders[g].tag
  }

  lemma OwnsStream(s: State, g: nat)
    requires g in s.forwarders
    requires Forwarders(s)
    ensures Owns(s, g)
  {
    assert ForwarderOk(s, g);
    forall h | h in s.forwarders && h != g
      ensures s.forwarders[h].tag in s.streams && s.forwarders[h].tag != s.forwarders[g].tag
    {
      assert ForwarderOk(s, h);
    }
  }

  lemma TakeSilent(s: State, g: nat)
    requires g in s.forwarders && s.forwarders[g].phase.Receiving? && s.forwarders[g].tag in s.streams
    requires s.streams[s.forwarders[g].tag].queue != []
    ensures Silent(s, TakeStep(s, g), g)
  {
    var f := s.forwarders[g];
    var q := s.streams[f.tag].queue;
    assert Held(f.phase) + q == q && q == [q[0]] + q[1..];
  }

  lemma TakePublished(s: State, g: nat)
    requires Published(s) && g in s.forwarders && s.forwarders[g].phase.Receiving? && Owns(s, g)
    requires s.streams[s.forwarders[g].tag].queue != []
    ensures Published(TakeStep(s, g))
  {
    TakeSilent(s, g);
    SilentPublished(s, TakeStep(s, g), g);
  }

  lemma NumberPublished(s: State, g: nat)
    requires Published(s) && g in s.forwarders && s.forwarders[g].phase.Taken? && Owns(s, g)
    ensures Published(NumberStep(s, g))
  {
    SilentPublished(s, NumberStep(s, g), g);
  }

  lemma EofSilent(s: State, g: nat)
    requires g in s.forwarders && s.forwarders[g].phase.Receiving? && s.forwarders[g].tag in s.streams
    requires ForwarderOk(s, g)
    ensures Silent(s, EofStep(s, g), g)
  {}

  lemma EofPublished(s: State, g: nat)
    requires Published(s) && g in s.forwarders && s.forwarders[g].phase.Receiving? && Owns(s, g)
    requires ForwarderOk(s, g)
    ensures Published(EofStep(s, g))
  {
    EofSilent(s, g);
    SilentPublished(s, EofStep(s, g), g);
  }

  // Publishing a notice of generation `g` does not concern the other generations.
  lemma OthersPublished(s: State, s': State, g: nat, n: Notice)
    requires Published(s) && n.generation == g && g in s.forwarders
    requires s'.log == s.log + [n] && s'.released == s.released && s'.streams == s.streams
    requires s'.forwarders.Keys == s.forwarders.Keys
    requires forall h :: h in s.forwarders && h != g ==> s'.forwarders[h] == s.forwarders[h]
    requires LogOk(s', g)
    ensures Published(s')
  {
    forall h | h in s'.forwarders ensures LogOk(s', h) {
      assert LogOk(s, h);
      LogGrows(s.log, n, h);
    }
    forall h | h !in s'.forwarders ensures Unborn(s', h) {
      assert Unborn(s, h);
      LogGrows(s.log, n, h);
    }
  }

  lemma SendLogOk(s: State, g: nat)
    requires g in s.forwarders && s.forwarders[g].phase.Numbered?
    requires LogOk(s, g) && ForwarderOk(s, g)
    ensures LogOk(SendStep(s, g), g)
  {
    var f, s' := s.forwarders[g], SendStep(s, g);
    var n := NoticeFor(f, g, f.phase.event, f.phase.number);
    LogGrows(s.log, n, g);
    EventsInAppend(NoticesOf(s.log, g), f, g, f.phase.event, f.phase.number);
    assert EventsIn(NoticesOf(s'.log, g)) + Held(s'.forwarders[g].phase)
        == EventsIn(NoticesOf(s.log, g)) + Held(f.phase);
  }

  lemma SendPublished(s: State, g: nat)
    requires Published(s) && g in s.forwarders && s.forwarders[g].phase.Numbered?
    requires ForwarderOk(s, g)
    ensures Published(SendStep(s, g))
  {
    var f := s.forwarders[g];
    SendLogOk(s, g);
    OthersPublished(s, SendStep(s, g), g, NoticeFor(f, g, f.phase.event, f.phase.number));
  }

  lemma SendClosedLogOk(s: State, g: nat)
    requires g in s.forwarders && s.forwarders[g].phase.Closing?
    requires LogOk(s, g) && ForwarderOk(s, g)
    ensures LogOk(SendClosedStep(s, g), g)
  {
    var f := s.forwarders[g];
    LogGrows(s.log, ClosedNotice(f.lane, f.window, g), g);
  }

  lemma SendClosedPublished(s: State, g: nat)
    requires Published(s) && g in s.forwarders && s.forwarders[g].phase.Closing?
    requires ForwarderOk(s, g)
    ensures Published(SendClosedStep(s, g))
  {
    var f := s.forwarders[g];
    SendClosedLogOk(s, g);
    OthersPublished(s, SendClosedStep(s, g), g, ClosedNotice(f.lane, f.window, g));
  }

  lemma ForwardPublished(s: State, g: nat)
    requires Published(s)
    requires Forwarders(s)
    ensures Published(ForwardStep(s, g))
  {
    if g in s.forwarders {
      assert ForwarderOk(s, g);
      OwnsStream(s, g);
      var f := s.forwarders[g];
      var st := s.streams[f.tag];
      match f.phase
      case Receiving =>
        if st.queue != [] { TakePublished(s, g); }
        else if !st.open { EofPublished(s, g); }
      case Taken(_) => NumberPublished(s, g);
      case Numbered(_, _) => SendPublished(s, g);
      case Closing => SendClosedPublished(s, g);
      case Finished =>
    }
  }

  lemma WatchPublished(s: State, lane: Lane, w: Window, conn: Conn, open: Open)
    requires Published(s)
    requires Forwarders(s)
    requires Streams(s)
    ensures Published(WatchStep(s, lane, w, conn, open))
  {
    if w !in s.watches && open.Opened? {
      var tag := s.nextTag + open.skip;
      FreshIds(s);
      OpenPublished(s, lane, w, conn, tag, open.grid);
    } else {
      QuietPublished(s, WatchStep(s, lane, w, conn, open));
    }
  }

  lemma ClosePublished(s: State, c: Close)
    requires Published(s)
    ensures Published(CloseStep(s, c))
  {
    QuietPublished(s, CloseStep(s, c));
  }

  lemma NoteGridPublished(s: State, w: Window, only: Option<nat>, grid: Grid)
    requires Published(s)
    ensures Published(NoteGridStep(s, w, only, grid))
  {
    QuietPublished(s, NoteGridStep(s, w, only, grid));
  }

  lemma DiePublished(s: State, w: Window)
    requires Published(s)
    ensures Published(DieStep(s, w))
  {
    QuietPublished(s, DieStep(s, w));
  }

  lemma DropPublished(s: State, t: nat)
    requires Published(s)
    ensures Published(DropSenderStep(s, t))
  {
    QuietPublished(s, DropSenderStep(s, t));
  }

  lemma StepPublished(s: State, a: Action)
    requires Structure(s) && Published(s)
    ensures Published(Next(s, a))
  {
    match a
    case Watch(lane, w, conn, open) => WatchPublished(s, lane, w, conn, open);
    case Unwatch(w, conn) => UnwatchPublished(s, w, conn);
    case UnwatchAll(conn) => UnwatchAllPublished(s, conn);
    case CloseArrives(c) => ClosePublished(s, c);
    case NoteGrid(w, g, grid) => NoteGridPublished(s, w, g, grid);
    case Emit(t, e) => EmitPublished(s, t, e);
    case Die(w) => DiePublished(s, w);
    case DropSender(t) => DropPublished(s, t);
    case Forward(g) => ForwardPublished(s, g);
  }

  // The invariant holds along every run.
  lemma {:induction false} RunInv(s: State, run: seq<Action>)
    requires Inv(s)
    ensures Inv(After(s, run))
    decreases |run|
  {
    if run != [] {
      StepStructure(s, run[0]);
      StepPublished(s, run[0]);
      RunInv(Next(s, run[0]), run[1..]);
    }
  }
}
