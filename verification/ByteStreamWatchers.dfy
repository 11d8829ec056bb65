// Who watches a window, and what its grid is, in terms of the requests alone
// (crates/repomon-daemon/src/bytes_stream.rs:58-89, 92-125, 235-280).
module ByteStreamWatchers {
  import opened Prelude
  import opened ByteStreams
  import opened ByteStreamInvariant
  import opened ByteStreamTheorems

  function Watchers(s: State, w: Window): set<Conn> { if w in s.watches then s.watches[w].refs else {} }

  predicate IsWatch(a: Action, w: Window, c: Conn) { a.Watch? && a.window == w && a.conn == c }

  predicate IsRelease(a: Action, w: Window, c: Conn) { a == Unwatch(w, c) || a == UnwatchAll(c) }

  // ---------------------------------------------------------------- one step

  // The forwarder of the window's own generation finds its stream at an end.
  predicate EndsStream(s: State, a: Action, w: Window) {
    && a.Forward? && w in s.watches && a.generation == s.watches[w].generation
    && a.generation in s.forwarders && s.forwarders[a.generation].phase.Receiving?
    && s.forwarders[a.generation].tag in s.streams
    && s.streams[s.forwarders[a.generation].tag].queue == [] && !s.streams[s.forwarders[a.generation].tag].open
  }

  // Entries that stay keep their generation, stream and lane.
  ghost predicate SameEntries(s: State, s': State) {
    forall w :: w in s.watches && w in s'.watches ==>
      s'.watches[w] == s.watches[w].(refs := s'.watches[w].refs, grid := s'.watches[w].grid)
  }

  lemma ReleaseReleases(s: State, w: Window, c: Conn)
    requires Entries(s)
    ensures
      var s' := Next(s, Unwatch(w, c));
      && (forall v :: Watchers(s', v) == if v == w then Watchers(s, v) - {c} else Watchers(s, v))
      && (forall v :: v in s.watches && v !in s'.watches <==> v == w && v in s.watches && s.watches[v].refs == {c})
      && s'.watches.Keys <= s.watches.Keys && SameEntries(s, s')
  {
    if w in s.watches { assert EntryOk(s, w); }
  }

  lemma ReleaseAllReleases(s: State, c: Conn)
    requires Entries(s)
    ensures
      var s' := Next(s, UnwatchAll(c));
      && (forall v :: Watchers(s', v) == Watchers(s, v) - {c})
      && (forall v :: v in s.watches && v !in s'.watches <==> v in s.watches && s.watches[v].refs == {c})
      && s'.watches.Keys <= s.watches.Keys && SameEntries(s, s')
  {
    forall v | v in s.watches ensures s.watches[v].refs != {} { assert EntryOk(s, v); }
  }

  lemma WatchWatches(s: State, lane: Lane, w: Window, c: Conn, open: Open)
    ensures
      var s' := Next(s, Watch(lane, w, c, open));
      && (w in s'.watches <==> w in s.watches || open.Opened?)
      && (w in s'.watches ==> Watchers(s', w) == Watchers(s, w) + {c})
      && (forall v :: v != w ==> (v in s'.watches <==> v in s.watches) && Watchers(s', v) == Watchers(s, v))
      && SameEntries(s, s')
  {}

  lemma ForwardWatches(s: State, g: nat, w: Window)
    requires Entries(s)
    ensures
      var s' := Next(s, Forward(g));
      && (w in s'.watches <==> w in s.watches && !EndsStream(s, Forward(g), w))
      && (w in s'.watches ==> Watchers(s', w) == Watchers(s, w))
      && SameEntries(s, s')
  {
    if w in s.watches { assert EntryOk(s, w); }
  }

  lemma OtherWatches(s: State, a: Action, w: Window)
    requires a.CloseArrives? || a.NoteGrid? || a.Emit? || a.Die? || a.DropSender?
    ensures
      var s' := Next(s, a);
      (w in s'.watches <==> w in s.watches) && Watchers(s', w) == Watchers(s, w) && SameEntries(s, s')
  {}

  // Whatever the step, a connection watches a window afterwards exactly when the window is watched
  // and it did before and does not release it, or asks for it now.
  lemma WatchersStep(s: State, a: Action, w: Window, c: Conn)
    requires Entries(s)
    ensures
      var s' := Next(s, a);
      c in Watchers(s', w)
      <==> w in s'.watches && (IsWatch(a, w, c) || (c in Watchers(s, w) && !IsRelease(a, w, c)))
  {
    match a
    case Watch(lane, v, d, open) => WatchWatches(s, lane, v, d, open);
    case Unwatch(v, d) => ReleaseReleases(s, v, d);
    case UnwatchAll(d) => ReleaseAllReleases(s, d);
    case Forward(g) => ForwardWatches(s, g, w);
    case _ => OtherWatches(s, a, w);
  }

  // An entry goes exactly when its only watcher releases it or its stream has come to an end, and
  // comes exactly when an unwatched window is opened.
  lemma EntriesComeAndGo(s: State, a: Action, w: Window)
    requires Entries(s)
    ensures
      var s' := Next(s, a);
      && (w in s.watches ==>
            (w !in s'.watches
             <==> (exists c :: s.watches[w].refs == {c} && IsRelease(a, w, c)) || EndsStream(s, a, w)))
      && (w !in s.watches ==> (w in s'.watches <==> a.Watch? && a.window == w && a.open.Opened?))
      && SameEntries(s, s')
  {
    match a
    case Watch(lane, v, d, open) => WatchWatches(s, lane, v, d, open);
    case Unwatch(v, d) =>
      ReleaseReleases(s, v, d);
      assert IsRelease(a, v, d);
    case UnwatchAll(d) =>
      ReleaseAllReleases(s, d);
      assert IsRelease(a, w, d);
    case Forward(g) => ForwardWatches(s, g, w);
    case _ => OtherWatches(s, a, w);
  }

  // ---------------------------------------------------------------- runs

  lemma {:induction false} AfterOneMore(s: State, run: seq<Action>, a: Action)
    ensures After(s, run + [a]) == Next(After(s, run), a)
    decreases |run|
  {
    if run == [] {
      assert run + [a] == [a];
    } else {
      assert (run + [a])[1..] == run[1..] + [a];
      AfterOneMore(Next(s, run[0]), run[1..], a);
    }
  }

  // The state after the first `n` steps.
  function At(run: seq<Action>, n: nat): State
    requires n <= |run|
  {
    After(INITIAL, run[..n])
  }

  lemma OneMoreStep(run: seq<Action>, n: nat)
    requires n < |run|
    ensures At(run, n + 1) == Next(At(run, n), run[n]) && Entries(At(run, n))
  {
    assert run[..n + 1] == run[..n] + [run[n]];
    AfterOneMore(INITIAL, run[..n], run[n]);
    RunInv(INITIAL, run[..n]);
  }

  // `c` asked for `w` at step `i`, and up to step `n` has not released it, nor has the entry gone.
  ghost predicate HasWatched(run: seq<Action>, w: Window, c: Conn, i: nat, n: nat)
    requires n <= |run|
  {
    && i < n && IsWatch(run[i], w, c)
    && (forall k :: i < k < n ==> !IsRelease(run[k], w, c))
    && (forall k {:trigger At(run, k)} :: i < k <= n ==> w in At(run, k).watches)
  }

  lemma HasWatchedOneMore(run: seq<Action>, w: Window, c: Conn, i: nat, n: nat)
    requires n < |run| && i <= n
    ensures
      HasWatched(run, w, c, i, n + 1)
      <==> w in At(run, n + 1).watches
           && (if i == n then IsWatch(run[n], w, c) else HasWatched(run, w, c, i, n) && !IsRelease(run[n], w, c))
  {}

  ghost predicate StillWatches(run: seq<Action>, w: Window, c: Conn, n: nat)
    requires n <= |run|
  {
    exists i :: 0 <= i < n && HasWatched(run, w, c, i, n)
  }

  lemma StillWatchesOneMore(run: seq<Action>, w: Window, c: Conn, n: nat)
    requires n < |run|
    ensures
      StillWatches(run, w, c, n + 1)
      <==> w in At(run, n + 1).watches
           && (IsWatch(run[n], w, c) || (StillWatches(run, w, c, n) && !IsRelease(run[n], w, c)))
  {
    forall i: nat | i <= n
      ensures HasWatched(run, w, c, i, n + 1)
              <==> w in At(run, n + 1).watches
                   && (if i == n then IsWatch(run[n], w, c)
                       else HasWatched(run, w, c, i, n) && !IsRelease(run[n], w, c))
    {
      HasWatchedOneMore(run, w, c, i, n);
    }
    if StillWatches(run, w, c, n + 1) {
      var i :| 0 <= i < n + 1 && HasWatched(run, w, c, i, n + 1);
      assert i < n ==> HasWatched(run, w, c, i, n);
    }
    if StillWatches(run, w, c, n) && !IsRelease(run[n], w, c) && w in At(run, n + 1).watches {
      var i :| 0 <= i < n && HasWatched(run, w, c, i, n);
      assert HasWatched(run, w, c, i, n + 1);
    }
    assert IsWatch(run[n], w, c) && w in At(run, n + 1).watches ==> HasWatched(run, w, c, n, n + 1);
  }

  lemma {:induction false} WatchersUpTo(run: seq<Action>, w: Window, c: Conn, n: nat)
    requires n <= |run|
    ensures c in Watchers(At(run, n), w) <==> StillWatches(run, w, c, n)
  {
    if n > 0 {
      WatchersUpTo(run, w, c, n - 1);
      OneMoreStep(run, n - 1);
      WatchersStep(At(run, n - 1), run[n - 1], w, c);
      StillWatchesOneMore(run, w, c, n - 1);
    }
  }

  // In every run a connection watches a window exactly when it has asked for it and has not released
  // it since, and the window's entry has been there all the time since.
  lemma WatchesExactly(run: seq<Action>, w: Window, c: Conn)
    ensures
      c in Watchers(After(INITIAL, run), w)
      <==> exists i :: 0 <= i < |run| && HasWatched(run, w, c, i, |run|)
  {
    WatchersUpTo(run, w, c, |run|);
    assert run[..|run|] == run;
  }

  // The request at step `i` has been taken back.
  ghost predicate ReleasedAfter(run: seq<Action>, w: Window, c: Conn, i: nat) {
    exists k :: i < k < |run| && IsRelease(run[k], w, c)
  }

  lemma ReleasedIsNotWatching(run: seq<Action>, w: Window, c: Conn)
    requires forall i :: 0 <= i < |run| && IsWatch(run[i], w, c) ==> ReleasedAfter(run, w, c, i)
    ensures c !in Watchers(After(INITIAL, run), w)
  {
    WatchesExactly(run, w, c);
    forall i | 0 <= i < |run| ensures !HasWatched(run, w, c, i, |run|) {
      assert IsWatch(run[i], w, c) ==> ReleasedAfter(run, w, c, i);
    }
  }

  // A window that everyone who asked for it has released since has no entry, and what stream it
  // still has is about to be closed.
  lemma AllReleasedIsClosed(run: seq<Action>, w: Window)
    requires forall i, c :: 0 <= i < |run| && IsWatch(run[i], w, c) ==> ReleasedAfter(run, w, c, i)
    ensures
      var s := After(INITIAL, run);
      w !in s.watches && (w in s.live ==> Close(w, s.live[w]) in s.closes)
  {
    var s := After(INITIAL, run);
    assert Reachable(s);
    RegistrySafety(s);
    forall c ensures c !in Watchers(s, w) { ReleasedIsNotWatching(run, w, c); }
    assert Watchers(s, w) == {};
  }

  // ---------------------------------------------------------------- grids

  // A grid is noted exactly for a watched window, and for one generation only if that is the
  // window's; it is then the window's grid, and noting it again changes nothing.
  lemma GridIsNoted(s: State, w: Window, only: Option<nat>, grid: Grid)
    ensures
      var s', answer := Next(s, NoteGrid(w, only, grid)), NoteGridAnswer(s, w, only, grid);
      && (answer.None? <==> w !in s.watches || (only.Some? && only.value != s.watches[w].generation))
      && (answer == Some(false) ==> s.watches[w].grid == Some(grid))
      && (answer == Some(true) ==> s.watches[w].grid != Some(grid))
      && (answer.None? ==> s' == s)
      && (answer.Some? ==>
            && w in s'.watches && s'.watches[w].grid == Some(grid)
            && NoteGridAnswer(s', w, only, grid) == Some(false)
            && s' == s.(watches := s.watches[w := s.watches[w].(grid := Some(grid))]))
  {
    if w in s.watches && s.watches[w].grid == Some(grid) {
      assert s.watches[w := s.watches[w].(grid := Some(grid))] == s.watches;
    }
  }

  // A forwarder that receives a grid publishes it exactly when it is its window's own and the grid
  // is not the window's already, and then it becomes so.
  lemma GridIsPublishedIfNew(s: State, g: nat, grid: Grid)
    requires g in s.forwarders && s.forwarders[g].phase.Receiving? && s.forwarders[g].tag in s.streams
    requires s.streams[s.forwarders[g].tag].queue != []
    requires s.streams[s.forwarders[g].tag].queue[0] == GridChange(grid)
    ensures
      var s', w := Next(s, Forward(g)), s.forwarders[g].window;
      && g in s'.forwarders
      && s'.forwarders[g].phase
         == (if w in s.watches && s.watches[w].generation == g && s.watches[w].grid != Some(grid)
             then Taken(GridChange(grid)) else Receiving)
      && (w in s.watches && s.watches[w].generation == g ==>
            w in s'.watches && s'.watches[w] == s.watches[w].(grid := Some(grid)))
  {}

  // A freshly opened window has the grid its pane had.
  lemma GridOfANewEntry(s: State, a: Action, w: Window)
    requires Entries(s) && w !in s.watches && w in Next(s, a).watches
    ensures a.Watch? && a.open.Opened? && Next(s, a).watches[w].grid == a.open.grid
  {
    EntriesComeAndGo(s, a, w);
  }

  // It keeps its grid when it is joined or released.
  lemma GridIsKept(s: State, a: Action, w: Window)
    requires a.Watch? || a.Unwatch? || a.UnwatchAll?
    requires w in s.watches && w in Next(s, a).watches
    ensures Next(s, a).watches[w].grid == s.watches[w].grid
  {}
}
