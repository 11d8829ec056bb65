// The watch registries as a record of the requests that succeeded.
module ClientWatches {
  import opened Prelude
  import opened Client
  import opened ClientTheorems
  import Text

  // ---------------------------------------------------------------- the registries

  // Request `r` is a watch request of method `m` with parameters.
  predicate IsWatch(r: Request, m: Method) {
    r.verb == m && r.params.Some?
  }

  // The registry left by successful requests, in order.
  function Fold(done: seq<Request>, m: Method): Registry {
    if done == [] then map[]
    else
      var before, r := Fold(done[..|done| - 1], m), done[|done| - 1];
      if IsWatch(r, m) then Recorded(before, m, r.params.value) else before
  }

  // A watch request turns its watch on if it says so, and one for a transcript also if it says
  // nothing.
  predicate TurnsOn(m: Method, p: Params) { p.on == Some(true) || (p.on == None && m == TranscriptWatch) }

  // The lane of a watch without a window; -1 if it names none.
  function LaneOr(p: Params): int { if p.lane.Some? then p.lane.value else -1 }

  predicate IsNameOf(window: string, lane: int) {
    window == "lane-" + (if lane < 0 then "-" + Text.Decimal(-lane) else Text.Decimal(lane))
  }

  // Two watches of the same window, or of the same lane where they name no window; a window may
  // have the name that is made of a lane.
  predicate SameWatch(p: Params, q: Params) {
    if p.window.Some? && q.window.Some? then p.window == q.window
    else if p.window.None? && q.window.None? then LaneOr(p) == LaneOr(q)
    else if p.window.Some? then IsNameOf(p.window.value, LaneOr(q))
    else IsNameOf(q.window.value, LaneOr(p))
  }

  lemma LaneNamesDiffer(a: int, b: int)
    ensures LaneName(a) == LaneName(b) <==> a == b
  {
    Text.DecimalIsNumber(if a < 0 then -a else a);
    Text.DecimalIsNumber(if b < 0 then -b else b);
    var x, y := LaneName(a)[5..], LaneName(b)[5..];
    assert x == if a < 0 then "-" + Text.Decimal(-a) else Text.Decimal(a);
    assert y == if b < 0 then "-" + Text.Decimal(-b) else Text.Decimal(b);
    assert a < 0 ==> x[0] == '-' && x[1..] == Text.Decimal(-a);
    assert b < 0 ==> y[0] == '-' && y[1..] == Text.Decimal(-b);
    assert a >= 0 ==> x[0] in Text.Decimal(a);
    assert b >= 0 ==> y[0] in Text.Decimal(b);
  }

  // The registries' keys tell exactly these apart.
  lemma KeysAreWatches(p: Params, q: Params)
    ensures WatchKey(p) == WatchKey(q) <==> SameWatch(p, q)
  {
    LaneNamesDiffer(LaneOr(p), LaneOr(q));
  }

  // An off request stops the watch `p`: by its window, or else by its lane.
  predicate Stops(off: Params, p: Params) {
    if off.window.Some? then SameWatch(off, p) else off.lane.Some? && p.lane == off.lane
  }

  // Request `r` ends the watch `p`: it replaces it or stops it.
  predicate Ends(r: Request, m: Method, p: Params) {
    IsWatch(r, m) && var q := r.params.value; if TurnsOn(m, q) then SameWatch(q, p) else Stops(q, p)
  }

  // Request `i` turned the watch `p` on and nothing since has ended it.
  ghost predicate Stands(done: seq<Request>, m: Method, i: nat, p: Params) {
    && i < |done|
    && IsWatch(done[i], m) && done[i].params.value == p && TurnsOn(m, p)
    && forall j :: i < j < |done| ==> !Ends(done[j], m, p)
  }

  ghost predicate OnRecord(done: seq<Request>, m: Method, p: Params) {
    exists i: nat :: Stands(done, m, i, p)
  }

  lemma OnRecordAppend(done: seq<Request>, r: Request, m: Method, p: Params)
    ensures OnRecord(done + [r], m, p) <==>
      || (IsWatch(r, m) && r.params.value == p && TurnsOn(m, p))
      || (OnRecord(done, m, p) && !Ends(r, m, p))
  {
    var all := done + [r];
    if OnRecord(all, m, p) {
      var i: nat :| Stands(all, m, i, p);
      if i < |done| {
        assert forall j :: i < j < |done| ==> all[j] == done[j];
        assert all[|done|] == r;
        assert Stands(done, m, i, p);
      }
    }
    if IsWatch(r, m) && r.params.value == p && TurnsOn(m, p) { assert Stands(all, m, |done|, p); }
    if OnRecord(done, m, p) && !Ends(r, m, p) {
      var i: nat :| Stands(done, m, i, p);
      assert Stands(all, m, i, p);
    }
  }

  // A registry holds `p` under its key.
  predicate Holds(r: Registry, p: Params) { WatchKey(p) in r && r[WatchKey(p)] == p }

  // A registry is the record of the requests that succeeded: it has the watches on record, those of
  // a window under that window's name, and no two for the same window or lane.
  ghost predicate IsRecordOf(r: Registry, done: seq<Request>, m: Method) {
    && (forall p :: OnRecord(done, m, p) <==> p in r.Values)
    && (forall k :: k in r && r[k].window.Some? ==> k == r[k].window.value)
    && (forall j, k :: j in r && k in r && SameWatch(r[j], r[k]) ==> j == k)
  }

  ghost predicate OwnKeys(r: Registry) { forall k :: k in r ==> WatchKey(r[k]) == k }

  // One more watch request, seen by one watch: it is the new one, or it was there and survives.
  lemma RecordedAt(r: Registry, m: Method, q: Params, p: Params)
    requires OwnKeys(r) && (m == WatchBytes || m == TranscriptWatch)
    ensures
      Holds(Recorded(r, m, q), p) <==>
        || (q == p && TurnsOn(m, p))
        || (Holds(r, p) && !Ends(Request(m, Some(q)), m, p))
  {
    KeysAreWatches(q, p);
    assert q.window.Some? ==> WatchKey(q) == q.window.value;
  }

  lemma RecordedKeys(r: Registry, m: Method, q: Params)
    requires OwnKeys(r)
    ensures OwnKeys(Recorded(r, m, q))
  {}

  lemma {:induction false} FoldHolds(done: seq<Request>, m: Method)
    requires m == WatchBytes || m == TranscriptWatch
    ensures OwnKeys(Fold(done, m))
    ensures forall p :: OnRecord(done, m, p) <==> Holds(Fold(done, m), p)
  {
    if done != [] {
      var rest, r := done[..|done| - 1], done[|done| - 1];
      var before := Fold(rest, m);
      FoldHolds(rest, m);
      assert done == rest + [r];
      if IsWatch(r, m) { RecordedKeys(before, m, r.params.value); }
      forall p ensures OnRecord(done, m, p) <==> Holds(Fold(done, m), p) {
        OnRecordAppend(rest, r, m, p);
        if IsWatch(r, m) {
          RecordedAt(before, m, r.params.value, p);
          assert r == Request(m, Some(r.params.value));
        }
      }
    }
  }

  // The registry holds a watch exactly when a successful request turned it on and no later one
  // replaced it, stopped its window, or stopped its lane.
  lemma RegistryIsTheRecord(done: seq<Request>, m: Method)
    requires m == WatchBytes || m == TranscriptWatch
    ensures IsRecordOf(Fold(done, m), done, m)
  {
    var r := Fold(done, m);
    FoldHolds(done, m);
    forall p ensures Holds(r, p) <==> p in r.Values {
      if p in r.Values { var k :| k in r && r[k] == p; }
    }
    forall j, k | j in r && k in r && SameWatch(r[j], r[k]) ensures j == k { KeysAreWatches(r[j], r[k]); }
  }

  // The last successful subscription's parameters.
  function LastSubscription(done: seq<Request>): Option<Option<Params>> {
    if done == [] then None
    else if done[|done| - 1].verb == Subscribe then Some(done[|done| - 1].params)
    else LastSubscription(done[..|done| - 1])
  }

  ghost predicate MemoryOk(m: Memory) {
    && m.subscribed == LastSubscription(m.succeeded)
    && m.bytes == Fold(m.succeeded, WatchBytes)
    && m.transcripts == Fold(m.succeeded, TranscriptWatch)
  }

  lemma RememberKeeps(m: Memory, r: Request)
    requires MemoryOk(m)
    ensures MemoryOk(Remember(m, r))
  {
    assert (m.succeeded + [r])[..|m.succeeded|] == m.succeeded;
  }

  // Only an answered request is remembered.
  lemma WhoRemembers(s: State, a: Action)
    ensures
      || Next(s, a).memory == s.memory
      || (a.Advance? && a.call in s.tasks && Next(s, a).memory == Remember(s.memory, s.tasks[a.call].request))
  {}

  lemma StepMemory(s: State, a: Action)
    requires MemoryOk(s.memory)
    ensures MemoryOk(Next(s, a).memory)
  {
    WhoRemembers(s, a);
    if Next(s, a).memory != s.memory { RememberKeeps(s.memory, s.tasks[a.call].request); }
  }

  lemma {:induction false} RunMemory(s: State, run: seq<Action>)
    requires MemoryOk(s.memory)
    ensures MemoryOk(After(s, run).memory)
    decreases |run|
  {
    if run != [] {
      StepMemory(s, run[0]);
      RunMemory(Next(s, run[0]), run[1..]);
    }
  }

  // In every reachable state both registries are the record of the watch requests that succeeded,
  // in the order in which their callers took the answers.
  lemma WatchRegistriesAreTheRecord(s: State)
    requires Reachable(s)
    ensures s.memory.subscribed == LastSubscription(s.memory.succeeded)
    ensures IsRecordOf(s.memory.bytes, s.memory.succeeded, WatchBytes)
    ensures IsRecordOf(s.memory.transcripts, s.memory.succeeded, TranscriptWatch)
  {
    var run :| After(INITIAL, run) == s;
    RunMemory(INITIAL, run);
    RegistryIsTheRecord(s.memory.succeeded, WatchBytes);
    RegistryIsTheRecord(s.memory.succeeded, TranscriptWatch);
  }
}
