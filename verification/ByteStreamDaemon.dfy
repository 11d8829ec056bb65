// The registry as the daemon runs it: fields updated in place, each method one step of
// `ByteStreams.Next`, and the forwarder loop of one stream.
module ByteStreamDaemon {
  import opened Prelude
  import opened ByteStreams
  import opened EventOrder
  import opened ByteStreamInvariant
  import opened ByteStreamTheorems

  class Daemon {
    var watches: map<Window, WatchEntry>
    var nextGeneration: nat
    var nextTag: nat
    var live: map<Window, nat>
    var streams: map<nat, Stream>
    var forwarders: map<nat, Forwarder>
    var closes: set<Close>
    var log: seq<Notice>
    ghost var released: set<nat>

    ghost function View(): State
      reads this
    {
      State(watches, nextGeneration, nextTag, live, streams, forwarders, closes, log, released)
    }

    ghost predicate Valid()
      reads this
    {
      Inv(View())
    }

    constructor ()
      ensures View() == INITIAL
    {
      watches, nextGeneration, nextTag := map[], 0, 0;
      live, streams, forwarders, closes, log := map[], map[], map[], {}, [];
      released := {};
    }

    // The stream position of a watched window.
    method Cursor(window: Window) returns (cursor: Option<StreamCursor>)
      requires Valid()
      ensures cursor.Some? <==> window in watches
      ensures cursor.Some? ==>
        && cursor.value.generation == watches[window].generation
        && |NoticesOf(log, cursor.value.generation)| <= cursor.value.sequence
             <= |NoticesOf(log, cursor.value.generation)| + 1
    {
      if window !in watches { return None; }
      assert EntryOk(View(), window);
      assert LogOk(View(), watches[window].generation);
      var g := watches[window].generation;
      return Some(StreamCursor(g, forwarders[g].sequence));
    }

    // Join the window's stream or open it; the lock is held across the open.
    method Watch(lane: Lane, window: Window, conn: Conn, open: Open)
      returns (r: Result<StreamCursor, ()>)
      requires window in watches ==> watches[window].generation in forwarders
      requires nextGeneration !in forwarders
      modifies this
      ensures View() == WatchStep(old(View()), lane, window, conn, open)
      ensures r.Err? <==> window !in old(watches) && open.Failed?
      ensures r.Ok? ==>
        && window in watches && conn in watches[window].refs
        && r.value.generation == watches[window].generation
        && r.value.generation in forwarders
        && r.value.sequence == forwarders[r.value.generation].sequence
      ensures r.Ok? && window !in old(watches) ==>
        r.value.generation !in old(forwarders) && r.value == StreamCursor(old(nextGeneration), 0)
      ensures nextGeneration == old(nextGeneration) + if window in old(watches) then 0 else 1
    {
      if window in watches {
        var entry := watches[window];
        watches := watches[window := entry.(refs := entry.refs + {conn})];
        return Ok(StreamCursor(entry.generation, forwarders[entry.generation].sequence));
      }
      var generation := nextGeneration;
      nextGeneration := nextGeneration + 1;
      if open.Failed? { return Err(()); }
      var tag := OpenStream(window, open.skip, generation);
      watches := watches[window := WatchEntry(lane, {conn}, generation, tag, open.grid)];
      forwarders := forwarders[generation := Forwarder(lane, window, tag, Receiving, 0)];
      return Ok(StreamCursor(generation, 0));
    }

    // The backend's half of opening: a fresh tag replaces whatever the window had.
    method OpenStream(window: Window, skip: nat, generation: nat) returns (tag: nat)
      modifies this`nextTag, this`live, this`streams
      ensures tag == old(nextTag) + skip && nextTag == tag + 1
      ensures live == old(live)[window := tag]
      ensures streams == old(streams)[tag := Stream([], true, generation, [])]
    {
      tag := nextTag + skip;
      nextTag := tag + 1;
      live := live[window := tag];
      streams := streams[tag := Stream([], true, generation, [])];
    }

    // Release one watcher; the last one takes the entry with it and leaves a close in flight.
    method Unwatch(window: Window, conn: Conn)
      modifies this
      ensures View() == UnwatchStep(old(View()), window, conn)
      ensures window in watches ==> conn !in watches[window].refs
    {
      if window !in watches { return; }
      var entry := watches[window];
      var refs := entry.refs - {conn};
      if refs != {} {
        watches := watches[window := entry.(refs := refs)];
        return;
      }
      watches := watches - {window};
      released := released + {entry.generation};
      closes := closes + {Close(window, entry.backendTag)};
    }

    // Release `conn` everywhere: one pass over the registry under the lock, in whatever order
    // the map yields its windows, then one close per stream that emptied.
    method UnwatchAll(conn: Conn)
      modifies this`watches, this`closes, this`released
      ensures View() == UnwatchAllStep(old(View()), conn)
      ensures forall w :: w in watches ==> conn !in watches[w].refs
    {
      var stopped: map<Window, nat> := map[];
      var todo := watches.Keys;
      ghost var was := watches;
      while todo != {}
        invariant todo <= was.Keys && closes == old(closes) && released == old(released)
        invariant forall w :: w in watches <==> w in was && (w in todo || !Empties(was[w], conn))
        invariant forall w :: w in watches ==>
          watches[w] == if w in todo then was[w] else was[w].(refs := was[w].refs - {conn})
        invariant forall w :: w in stopped <==> w in was && w !in todo && Empties(was[w], conn)
        invariant forall w :: w in stopped ==> stopped[w] == was[w].backendTag
        decreases todo
      {
        var window :| window in todo;
        var entry := watches[window];
        var refs := entry.refs - {conn};
        if refs == {} {
          stopped := stopped[window := entry.backendTag];
          watches := watches - {window};
        } else {
          watches := watches[window := entry.(refs := refs)];
        }
        todo := todo - {window};
      }
      assert watches == Kept(was, conn);
      var closing := set w | w in stopped :: Close(w, stopped[w]);
      assert closing == Closes(was, conn);
      closes := closes + closing;
      released := released + Leaving(was, conn);
    }

    // Record a grid for the watch, or for one generation of it.
    method NoteGrid(window: Window, only: Option<nat>, grid: Grid) returns (changed: Option<bool>)
      modifies this`watches
      ensures View() == NoteGridStep(old(View()), window, only, grid)
      ensures changed == NoteGridAnswer(old(View()), window, only, grid)
      ensures changed.None? <==>
                window !in old(watches) || (only.Some? && only.value != old(watches)[window].generation)
      ensures changed.Some? ==>
                && window in watches && watches[window].grid == Some(grid)
                && (changed.value <==> old(watches)[window].grid != Some(grid))
    {
      if window !in watches { return None; }
      var entry := watches[window];
      if only.Some? && only.value != entry.generation { return None; }
      if entry.grid == Some(grid) { return Some(false); }
      watches := watches[window := entry.(grid := Some(grid))];
      return Some(true);
    }

    // A close that left the lock earlier reaches the backend.
    method CloseArrives(close: Close)
      modifies this`closes, this`live
      ensures View() == CloseStep(old(View()), close)
    {
      if close !in closes { return; }
      closes := closes - {close};
      if close.window in live && live[close.window] == close.tag {
        live := live - {close.window};
      }
    }

    // One step of a forwarder.
    method Step(generation: nat)
      requires generation in forwarders && forwarders[generation].tag in streams
      modifies this`forwarders, this`streams, this`watches, this`log
      ensures View() == ForwardStep(old(View()), generation)
    {
      var f := forwarders[generation];
      match f.phase
      case Receiving =>
        var stream := streams[f.tag];
        if stream.queue != [] {
          var event := stream.queue[0];
          streams := streams[f.tag := stream.(queue := stream.queue[1..])];
          if event.GridChange? {
            if f.window !in watches || watches[f.window].generation != generation
               || watches[f.window].grid == Some(event.grid) {
              return;
            }
            watches := watches[f.window := watches[f.window].(grid := Some(event.grid))];
          }
          forwarders := forwarders[generation := f.(phase := Taken(event))];
        } else if !stream.open {
          if f.window in watches && watches[f.window].generation == generation {
            watches := watches - {f.window};
            forwarders := forwarders[generation := f.(phase := Closing)];
          } else {
            forwarders := forwarders[generation := f.(phase := Finished)];
          }
        }
      case Taken(event) =>
        var number := f.sequence + 1;
        forwarders := forwarders[generation := f.(phase := Numbered(event, number), sequence := number)];
      case Numbered(event, number) =>
        log := log + [NoticeFor(f, generation, event, number)];
        forwarders := forwarders[generation := f.(phase := Receiving)];
      case Closing =>
        log := log + [ClosedNotice(f.lane, f.window, generation)];
        forwarders := forwarders[generation := f.(phase := Finished)];
      case Finished =>
    }

    // The forwarder loop of a stream that has ended: forward what is buffered, then clean up.
    method DrainForwarder(generation: nat)
      requires Valid() && Dead(View(), generation)
      modifies this`forwarders, this`streams, this`watches, this`log
      ensures Drained(old(View()), View(), generation)
    {
      ghost var start := View();
      DrainingStarts(start, generation);
      while !forwarders[generation].phase.Finished?
        invariant Draining(start, View(), generation)
        decreases StepsLeft(View(), generation)
      {
        DrainingGoesOn(start, View(), generation);
        Step(generation);
      }
      DrainingEnds(start, View(), generation);
    }
  }

  ghost predicate Draining(start: State, s: State, g: nat) {
    && Inv(s) && Dead(s, g)
    && s.released == start.released && start.log <= s.log
    && g in start.forwarders && s.forwarders[g].tag == start.forwarders[g].tag
    && s.forwarders[g].tag in start.streams
    && s.streams[s.forwarders[g].tag].sent == start.streams[s.forwarders[g].tag].sent
    && s.watches.Keys <= start.watches.Keys
  }

  // Everything the backend sent is published, but for some grid changes, and the entry of the
  // generation, if it was still there, is gone and stream-closed is out.
  ghost predicate Drained(start: State, s: State, g: nat) {
    && Inv(s)
    && g in start.forwarders && g in s.forwarders && start.forwarders[g].tag in start.streams
    && s.forwarders[g].phase.Finished?
    && Thinned(EventsIn(NoticesOf(s.log, g)), start.streams[start.forwarders[g].tag].sent)
    && start.log <= s.log
    && (g !in start.released ==> ClosedCount(s.log, g) == 1)
    && (forall w :: w in s.watches ==> s.watches[w].generation != g)
  }

  lemma DrainingStarts(s: State, g: nat)
    requires Inv(s) && Dead(s, g)
    ensures Draining(s, s, g)
  {}

  lemma ForwardFrame(s: State, g: nat)
    requires g in s.forwarders && s.forwarders[g].tag in s.streams
    ensures
      var s', t := ForwardStep(s, g), s.forwarders[g].tag;
      && s'.released == s.released && s.log <= s'.log && s'.watches.Keys <= s.watches.Keys
      && g in s'.forwarders && s'.forwarders[g].tag == t
      && t in s'.streams && s'.streams[t].sent == s.streams[t].sent
  {}

  lemma ForwardInv(s: State, g: nat)
    requires Inv(s)
    ensures Inv(ForwardStep(s, g))
  {
    ForwardStructure(s, g);
    ForwardPublished(s, g);
  }

  lemma ForwardNearer(s: State, g: nat)
    requires Structure(s) && Dead(s, g) && !s.forwarders[g].phase.Finished?
    ensures Dead(ForwardStep(s, g), g) && StepsLeft(ForwardStep(s, g), g) < StepsLeft(s, g)
  {
    assert StepsLeft(s, g) > 0;
    DrainsOn(s, Action.Forward(g), g);
  }

  lemma DrainingGoesOn(start: State, s: State, g: nat)
    requires Draining(start, s, g) && !s.forwarders[g].phase.Finished?
    ensures Draining(start, ForwardStep(s, g), g)
    ensures StepsLeft(ForwardStep(s, g), g) < StepsLeft(s, g)
  {
    ForwardInv(s, g);
    ForwardNearer(s, g);
    ForwardFrame(s, g);
  }

  lemma DrainingEnds(start: State, s: State, g: nat)
    requires Draining(start, s, g) && s.forwarders[g].phase.Finished?
    ensures Drained(start, s, g)
  {
    assert LogOk(s, g) && ForwarderOk(s, g);
    var f, events := s.forwarders[g], EventsIn(NoticesOf(s.log, g));
    assert events + Held(f.phase) + s.streams[f.tag].queue == events;
    forall w | w in s.watches ensures s.watches[w].generation != g { assert EntryOk(s, w); }
  }
}
