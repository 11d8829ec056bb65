// The theorems about reachable states and runs of the byte-stream registry.
module ByteStreamTheorems {
  import opened ByteStreams
  import opened EventOrder
  import opened ByteStreamInvariant

  ghost predicate Reachable(s: State) {
    exists run :: After(INITIAL, run) == s
  }

  lemma ReachableInv(s: State)
    requires Reachable(s)
    ensures Inv(s)
  {
    var run :| After(INITIAL, run) == s;
    RunInv(INITIAL, run);
  }

  // ---------------------------------------------------------------- registry and backend

  lemma EntriesAreApart(s: State, w: Window, v: Window)
    requires Structure(s) && w in s.watches && v in s.watches && w != v
    ensures s.watches[w].generation != s.watches[v].generation
    ensures s.watches[w].backendTag != s.watches[v].backendTag
  {
    assert EntryOk(s, w) && EntryOk(s, v);
    assert ForwarderOk(s, s.watches[w].generation) && ForwarderOk(s, s.watches[v].generation);
  }

  lemma ClosesAreOld(s: State, c: Close, w: Window)
    requires Structure(s) && c in s.closes && w in s.watches
    ensures s.watches[w].backendTag != c.tag
  {
    assert CloseOk(s, c) && EntryOk(s, w);
    assert ForwarderOk(s, s.watches[w].generation);
  }

  // In every reachable state: every entry has a watcher; entries share neither generation nor
  // stream; no close in flight carries the tag of an entry; and a live backend stream is its
  // window's entry's, or its close is in flight.
  lemma RegistrySafety(s: State)
    requires Reachable(s)
    ensures forall w :: w in s.watches ==> s.watches[w].refs != {}
    ensures forall w, v :: w in s.watches && v in s.watches && w != v ==>
      s.watches[w].generation != s.watches[v].generation && s.watches[w].backendTag != s.watches[v].backendTag
    ensures forall c, w :: c in s.closes && w in s.watches ==> s.watches[w].backendTag != c.tag
    ensures forall w :: w in s.live ==>
      if w in s.watches then s.watches[w].backendTag == s.live[w] else Close(w, s.live[w]) in s.closes
  {
    ReachableInv(s);
    forall w, v | w in s.watches && v in s.watches && w != v
      ensures s.watches[w].generation != s.watches[v].generation && s.watches[w].backendTag != s.watches[v].backendTag
    {
      EntriesAreApart(s, w, v);
    }
    forall c, w | c in s.closes && w in s.watches ensures s.watches[w].backendTag != c.tag {
      ClosesAreOld(s, c, w);
    }
    forall w | w in s.watches ensures s.watches[w].refs != {} { assert EntryOk(s, w); }
    forall w | w in s.live
      ensures if w in s.watches then s.watches[w].backendTag == s.live[w] else Close(w, s.live[w]) in s.closes
    { assert LiveOk(s, w); }
  }

  // A delayed close stops its own stream or nothing: a watched window keeps its entry and
  // whatever live stream it has.
  lemma CloseNeverStopsAReplacement(s: State, c: Close, w: Window)
    requires Reachable(s) && w in s.watches
    ensures CloseStep(s, c).watches == s.watches
    ensures w in s.live ==> w in CloseStep(s, c).live && CloseStep(s, c).live[w] == s.live[w]
  {
    RegistrySafety(s);
  }

  // The end of a stream that its forwarder has not dealt with yet.
  ghost predicate EofPending(s: State, g: nat)
    requires g in s.forwarders
  {
    var f := s.forwarders[g];
    f.Active() && !(f.window in s.live && s.live[f.window] == f.tag)
  }

  // With no close and no EOF on the way, the registry is exactly the backend's list of streams.
  lemma QuiescentRegistryIsTheBackend(s: State)
    requires Reachable(s)
    requires s.closes == {}
    requires forall g :: g in s.forwarders ==> !EofPending(s, g)
    ensures s.live == map w | w in s.watches :: s.watches[w].backendTag
  {
    ReachableInv(s);
    forall w | w in s.watches
      ensures w in s.live && s.live[w] == s.watches[w].backendTag
    {
      assert EntryOk(s, w);
      assert !EofPending(s, s.watches[w].generation);
    }
    forall w | w in s.live
      ensures w in s.watches && s.live[w] == s.watches[w].backendTag
    {
      assert LiveOk(s, w);
    }
  }

  // ---------------------------------------------------------------- published notices

  // What generation `g` has published is numbered 1, 2, 3, ..., carries the stream's own lane and
  // window, and, read back as events, is a first part of what the backend sent with some grid
  // changes left out: bytes and grids come in the order in which they were sent, and no bytes are
  // missing. Once the forwarder is done that holds of all that was sent.
  lemma NoticesAreNumberedAndOrdered(s: State, g: nat)
    requires Reachable(s) && g in s.forwarders
    ensures
      var f, notices := s.forwarders[g], NoticesOf(s.log, g);
      && (forall i :: 0 <= i < |notices| ==>
            notices[i].sequence == i + 1 && notices[i].window == f.window && notices[i].lane == f.lane)
      && f.tag in s.streams
      && (exists k :: 0 <= k <= |s.streams[f.tag].sent| && Thinned(EventsIn(notices), s.streams[f.tag].sent[..k]))
      && (!f.Active() ==> Thinned(EventsIn(notices), s.streams[f.tag].sent))
  {
    ReachableInv(s);
    assert LogOk(s, g) && ForwarderOk(s, g);
    var f, events := s.forwarders[g], EventsIn(NoticesOf(s.log, g));
    PublishedInOrder(events, Held(f.phase), s.streams[f.tag].queue, s.streams[f.tag].sent);
  }

  lemma PublishedInOrder(events: seq<Event>, held: seq<Event>, queue: seq<Event>, sent: seq<Event>)
    requires Thinned(events + held + queue, sent)
    ensures exists k :: 0 <= k <= |sent| && Thinned(events, sent[..k])
    ensures held == [] && queue == [] ==> Thinned(events, sent)
  {
    assert events + held + queue == events + (held + queue);
    var k := FirstPart(events, held + queue, sent);
    if held == [] && queue == [] { assert events + held + queue == events; }
  }

  // The published chunks are a prefix of the chunks the backend sent; all of them once the
  // forwarder is done.
  lemma PublishedBytesAreAPrefix(s: State, g: nat)
    requires Reachable(s) && g in s.forwarders
    ensures
      var f, published := s.forwarders[g], ChunksOf(EventsIn(NoticesOf(s.log, g)));
      && f.tag in s.streams
      && published <= ChunksOf(s.streams[f.tag].sent)
      && (!f.Active() ==> published == ChunksOf(s.streams[f.tag].sent))
  {
    NoticesAreNumberedAndOrdered(s, g);
    var f, events := s.forwarders[g], EventsIn(NoticesOf(s.log, g));
    var sent := s.streams[f.tag].sent;
    var k :| 0 <= k <= |sent| && Thinned(events, sent[..k]);
    ThinnedChunks(events, sent[..k]);
    ChunksOfPrefix(sent, k);
    if !f.Active() { ThinnedChunks(events, sent); }
  }

  // Stream-closed is published at most once per generation, and exactly by the generations whose
  // forwarder has finished and whose entry no unwatch removed.
  lemma ClosedAtMostOnce(s: State, g: nat)
    requires Reachable(s)
    ensures ClosedCount(s.log, g)
      == if g in s.forwarders && s.forwarders[g].phase.Finished? && g !in s.released then 1 else 0
  {
    ReachableInv(s);
    if g in s.forwarders { assert LogOk(s, g); } else { assert Unborn(s, g); }
  }

  // The cursor a watcher is given counts the notices of its generation, up to the one that has a
  // number but is not out yet.
  lemma CursorCountsTheNotices(s: State, w: Window)
    requires Reachable(s) && w in s.watches
    ensures
      var g := s.watches[w].generation;
      && g in s.forwarders
      && |NoticesOf(s.log, g)| <= s.forwarders[g].sequence <= |NoticesOf(s.log, g)| + 1
      && (!s.forwarders[g].phase.Numbered? ==> s.forwarders[g].sequence == |NoticesOf(s.log, g)|)
  {
    ReachableInv(s);
    assert EntryOk(s, w);
    assert LogOk(s, s.watches[w].generation);
  }

  // ---------------------------------------------------------------- generations

  ghost predicate SameForwarder(f: Forwarder, f': Forwarder) {
    f' == f.(phase := f'.phase, sequence := f'.sequence) && f.sequence <= f'.sequence
  }

  ghost predicate GrowsFrom(s: State, s': State) {
    && s.nextGeneration <= s'.nextGeneration
    && s.log <= s'.log
    && (forall g :: g in s.forwarders ==>
          g in s'.forwarders && SameForwarder(s.forwarders[g], s'.forwarders[g]))
    && (forall g :: g in s'.forwarders && g !in s.forwarders ==> s.nextGeneration <= g)
  }

  lemma ForwardGrows(s: State, g: nat)
    ensures GrowsFrom(s, ForwardStep(s, g))
  {}

  lemma StepGrows(s: State, a: Action)
    requires s.nextGeneration !in s.forwarders
    ensures GrowsFrom(s, Next(s, a))
  {
    match a
    case Forward(g) => ForwardGrows(s, g);
    case Watch(_, _, _, _) =>
    case _ =>
  }

  // Over any run a generation keeps its window, lane and stream, its counter never goes back,
  // published notices stay published, and generations handed out later are new.
  lemma {:induction false} GenerationsAreNeverReused(s: State, run: seq<Action>)
    requires Inv(s)
    ensures GrowsFrom(s, After(s, run))
    decreases |run|
  {
    if run != [] {
      FreshIds(s);
      StepGrows(s, run[0]);
      StepStructure(s, run[0]);
      StepPublished(s, run[0]);
      GenerationsAreNeverReused(Next(s, run[0]), run[1..]);
    }
  }

  // ---------------------------------------------------------------- joiners and dead streams

  // Connection `c` is served by generation `g` of window `w`, or that generation's end is on its
  // way to the clients or already published.
  ghost predicate Served(s: State, w: Window, g: nat, c: Conn) {
    || (w in s.watches && s.watches[w].generation == g && c in s.watches[w].refs)
    || (g in s.forwarders && !s.forwarders[g].Active() && g !in s.released)
  }

  predicate Releases(a: Action, w: Window, c: Conn) {
    a == Unwatch(w, c) || a == UnwatchAll(c)
  }

  // What another step may do to the entry and the forwarder of a served connection.
  ghost predicate KeepsServing(s: State, s': State, w: Window, g: nat, c: Conn) {
    Served(s, w, g, c) ==> Served(s', w, g, c)
  }

  lemma WatchServes(s: State, lane: Lane, v: Window, d: Conn, open: Open, w: Window, g: nat, c: Conn)
    requires s.nextGeneration !in s.forwarders
    ensures KeepsServing(s, WatchStep(s, lane, v, d, open), w, g, c)
  {}

  lemma UnwatchServes(s: State, v: Window, d: Conn, w: Window, g: nat, c: Conn)
    requires v in s.watches ==> EntryOk(s, v)
    requires v != w || d != c
    ensures KeepsServing(s, UnwatchStep(s, v, d), w, g, c)
  {
    if w in s.watches && d != c { StillWatched(s.watches[w], d, c); }
  }

  // Another connection's release does not empty the entry.
  lemma StillWatched(e: WatchEntry, d: Conn, c: Conn)
    requires d != c
    ensures c in e.refs ==> !Empties(e, d)
  {
    assert c in e.refs ==> c in e.refs - {d};
  }

  lemma UnwatchAllServes(s: State, d: Conn, w: Window, g: nat, c: Conn)
    requires Entries(s) && d != c
    ensures KeepsServing(s, UnwatchAllStep(s, d), w, g, c)
  {
    LeavingIsActive(s, d);
    if w in s.watches { StillWatched(s.watches[w], d, c); }
  }

  // The forwarder that ends a stream removes no entry but its own, and announces it.
  lemma ForwardServes(s: State, h: nat, w: Window, g: nat, c: Conn)
    requires w in s.watches ==> EntryOk(s, w)
    ensures KeepsServing(s, ForwardStep(s, h), w, g, c)
  {
    var s' := ForwardStep(s, h);
    if Served(s, w, g, c) && h in s.forwarders && s.forwarders[h].tag in s.streams {
      if w in s.watches && s.watches[w].generation == g && c in s.watches[w].refs {
        assert s.forwarders[g].window == w;
        assert w in s'.watches ==> s'.watches[w].generation == g && s'.watches[w].refs == s.watches[w].refs;
        assert w !in s'.watches ==> h == g && s'.forwarders[g].phase.Closing?;
      } else {
        assert !s'.forwarders[g].Active();
      }
    }
  }

  lemma StepServes(s: State, a: Action, w: Window, g: nat, c: Conn)
    requires Entries(s) && s.nextGeneration !in s.forwarders
    requires Served(s, w, g, c) && !Releases(a, w, c)
    ensures Served(Next(s, a), w, g, c)
  {
    assert w in s.watches ==> EntryOk(s, w);
    match a
    case Forward(h) => ForwardServes(s, h, w, g, c);
    case Watch(lane, v, d, open) => WatchServes(s, lane, v, d, open, w, g, c);
    case Unwatch(v, d) => assert v in s.watches ==> EntryOk(s, v); UnwatchServes(s, v, d, w, g, c);
    case UnwatchAll(d) => UnwatchAllServes(s, d, w, g, c);
    case _ =>
  }

  lemma LeavingIsActive(s: State, c: Conn)
    requires Entries(s)
    ensures forall g :: g in Leaving(s.watches, c) ==> g in s.forwarders && s.forwarders[g].Active()
  {
    forall g | g in Leaving(s.watches, c) ensures g in s.forwarders && s.forwarders[g].Active() {
      var w :| w in s.watches && s.watches[w].generation == g;
      assert EntryOk(s, w);
    }
  }

  lemma {:induction false} RunServes(s: State, run: seq<Action>, w: Window, g: nat, c: Conn)
    requires Inv(s) && Served(s, w, g, c)
    requires forall a :: a in run ==> !Releases(a, w, c)
    ensures Served(After(s, run), w, g, c)
    decreases |run|
  {
    if run != [] {
      assert run[0] in run;
      FreshIds(s);
      StepServes(s, run[0], w, g, c);
      StepStructure(s, run[0]);
      StepPublished(s, run[0]);
      RunServes(Next(s, run[0]), run[1..], w, g, c);
    }
  }

  // The stream of generation `g` has ended: nothing can be sent into it any more.
  ghost predicate Dead(s: State, g: nat) {
    g in s.forwarders && s.forwarders[g].tag in s.streams && !s.streams[s.forwarders[g].tag].open
  }

  // How many steps the forwarder of a dead stream still takes, at most.
  ghost function StepsLeft(s: State, g: nat): nat
    requires Dead(s, g)
  {
    var f := s.forwarders[g];
    var q := |s.streams[f.tag].queue|;
    match f.phase
    case Receiving => 3 * q + 2
    case Numbered(_, _) => 3 * q + 3
    case Taken(_) => 3 * q + 4
    case Closing => 1
    case Finished => 0
  }

  // A forwarder's own step brings it nearer to its end.
  lemma OwnStepDrains(s: State, g: nat)
    requires Dead(s, g)
    ensures Dead(ForwardStep(s, g), g)
    ensures StepsLeft(s, g) > 0 ==> StepsLeft(ForwardStep(s, g), g) < StepsLeft(s, g)
    ensures StepsLeft(s, g) == 0 ==> ForwardStep(s, g) == s
  {}

  lemma OtherForwarderDrains(s: State, h: nat, g: nat)
    requires Dead(s, g) && Owns(s, g) && h != g
    ensures Dead(ForwardStep(s, h), g) && StepsLeft(ForwardStep(s, h), g) == StepsLeft(s, g)
  {}

  // No actor can put the end of a dead stream off.
  lemma StepDrains(s: State, a: Action, g: nat)
    requires Dead(s, g) && Owns(s, g)
    requires s.nextGeneration !in s.forwarders
    requires forall t :: t in s.streams ==> t < s.nextTag
    ensures Dead(Next(s, a), g)
    ensures StepsLeft(Next(s, a), g) <= StepsLeft(s, g)
    ensures a == Forward(g) && StepsLeft(s, g) > 0 ==> StepsLeft(Next(s, a), g) < StepsLeft(s, g)
  {
    match a
    case Forward(h) => if h == g { OwnStepDrains(s, g); } else { OtherForwarderDrains(s, h, g); }
    case Watch(_, _, _, _) =>
    case _ =>
  }

  function TimesForwarded(run: seq<Action>, g: nat): nat {
    if run == [] then 0
    else (if run[0] == Forward(g) then 1 else 0) + TimesForwarded(run[1..], g)
  }

  // However the actors interleave, the forwarder of a dead stream finishes once it has run
  // `StepsLeft` times.
  lemma {:induction false} DeadStreamDrains(s: State, run: seq<Action>, g: nat)
    requires Inv(s) && Dead(s, g)
    requires TimesForwarded(run, g) >= StepsLeft(s, g)
    ensures g in After(s, run).forwarders && After(s, run).forwarders[g].phase.Finished?
    decreases |run|
  {
    if run == [] {
    } else {
      DrainsOn(s, run[0], g);
      StepStructure(s, run[0]);
      StepPublished(s, run[0]);
      if StepsLeft(s, g) == 0 {
        FinishedForGood(s, run, g);
      } else {
        DeadStreamDrains(Next(s, run[0]), run[1..], g);
      }
    }
  }

  lemma DrainsOn(s: State, a: Action, g: nat)
    requires Structure(s) && Dead(s, g)
    ensures Dead(Next(s, a), g)
    ensures StepsLeft(Next(s, a), g) <= StepsLeft(s, g)
    ensures a == Forward(g) && StepsLeft(s, g) > 0 ==> StepsLeft(Next(s, a), g) < StepsLeft(s, g)
  {
    FreshIds(s);
    OwnsStream(s, g);
    StepDrains(s, a, g);
  }

  lemma {:induction false} FinishedForGood(s: State, run: seq<Action>, g: nat)
    requires Inv(s) && Dead(s, g) && StepsLeft(s, g) == 0
    ensures g in After(s, run).forwarders && After(s, run).forwarders[g].phase.Finished?
    decreases |run|
  {
    if run != [] {
      DrainsOn(s, run[0], g);
      StepStructure(s, run[0]);
      StepPublished(s, run[0]);
      FinishedForGood(Next(s, run[0]), run[1..], g);
    }
  }

  // A connection that watches a window whose stream is dead, and does not release it, is told:
  // once the forwarder has run often enough, stream-closed for that generation is in the log,
  // exactly once, whatever everyone else did meanwhile.
  lemma WatcherOfADeadStreamIsTold(s: State, run: seq<Action>, w: Window, c: Conn)
    requires Reachable(s) && w in s.watches && c in s.watches[w].refs
    requires Dead(s, s.watches[w].generation)
    requires forall a :: a in run ==> !Releases(a, w, c)
    requires TimesForwarded(run, s.watches[w].generation) >= StepsLeft(s, s.watches[w].generation)
    ensures ClosedCount(After(s, run).log, s.watches[w].generation) == 1
    ensures !IsCurrent(After(s, run), w, s.watches[w].generation)
  {
    ReachableInv(s);
    var g, s' := s.watches[w].generation, After(s, run);
    RunServes(s, run, w, g, c);
    DeadStreamDrains(s, run, g);
    RunInv(s, run);
    if w in s'.watches { assert EntryOk(s', w); }
    assert LogOk(s', g);
  }
}
