// What the watcher of alerts does over a run of ticks (crates/repomon-daemon/src/notify_watch.rs:37-217):
// which edges are alerted, and when an alert may come again.
module NotifyRuns {
  import opened Prelude
  import opened Notify
  import opened NotifyWatch

  // What a tick reads, and the order in which the maps yield its edges.
  datatype Step = Step(reading: Reading, edges: seq<Alert>)

  function Run(run: seq<Step>): State {
    if run == [] then Start()
    else Tick(Run(run[..|run| - 1]), run[|run| - 1].reading, run[|run| - 1].edges)
  }

  // The state before tick `n`.
  function Before(run: seq<Step>, n: nat): State
    requires n <= |run|
  {
    Run(run[..n])
  }

  lemma Ticks(run: seq<Step>, n: nat)
    requires n < |run|
    ensures Before(run, n + 1) == Tick(Before(run, n), run[n].reading, run[n].edges)
  {
    assert run[..n + 1][..n] == run[..n];
  }

  function ClockAt(run: seq<Step>, n: nat): int
    requires n < |run|
  {
    run[n].reading.settings.clock
  }

  ghost predicate ClockRuns(run: seq<Step>) {
    forall i, j :: 0 <= i < j < |run| ==> ClockAt(run, i) <= ClockAt(run, j)
  }

  predicate OnAt(run: seq<Step>, n: nat)
    requires n < |run|
  {
    run[n].reading.settings.on
  }

  // Tick `n` compares its snapshot with the one before: both were read with notifications on and
  // under the same setting for subagents. Every other tick only takes a snapshot, or none.
  predicate Compares(run: seq<Step>, n: nat)
    requires n < |run|
  {
    && n > 0 && OnAt(run, n - 1) && OnAt(run, n)
    && run[n - 1].reading.settings.subagents == run[n].reading.settings.subagents
  }

  // `a` is an edge between the two snapshots.
  predicate EdgeAt(run: seq<Step>, n: nat, a: Alert)
    requires n < |run|
  {
    Compares(run, n)
    && var r := run[n].reading;
       AlertFor(run[n - 1].reading.now, r.now, r.live, r.managed, a.key) == Some(a.kind)
  }

  // The edges of a tick are those of its two snapshots, each key's once, in any order.
  ghost predicate Proper(run: seq<Step>, n: nat)
    requires n < |run|
  {
    Compares(run, n) ==>
      OncePerKey(run[n].edges) && forall a :: a in run[n].edges <==> EdgeAt(run, n, a)
  }

  ghost predicate IsRun(run: seq<Step>) {
    ClockRuns(run) && forall n {:trigger Proper(run, n)} :: 0 <= n < |run| ==> Proper(run, n)
  }

  // The watcher has a snapshot exactly when the tick before was on, and it is that tick's.
  lemma SnapshotIsTheLast(run: seq<Step>, n: nat)
    requires n < |run|
    ensures Before(run, n).seeded <==> n > 0 && OnAt(run, n - 1)
    ensures Before(run, n).seeded ==>
              && Before(run, n).prev == run[n - 1].reading.now
              && Before(run, n).subagents == run[n - 1].reading.settings.subagents
  {
    if n > 0 { Ticks(run, n - 1); }
  }

  // ---------------------------------------------------------------- which alerts a tick gives

  // Tick `n` gives alert `a`.
  predicate Gives(run: seq<Step>, n: nat, a: Alert)
    requires n < |run|
  {
    Compares(run, n) && a in run[n].edges && Fires(Before(run, n).memory, run[n].reading, a)
  }

  lemma LogGrows(run: seq<Step>, n: nat, f: Fire)
    requires n < |run| && Proper(run, n)
    ensures
      f in Before(run, n + 1).log <==> f in Before(run, n).log || GivenBy(run, n, f)
  {
    Ticks(run, n);
    SnapshotIsTheLast(run, n);
    if Compares(run, n) { GivenExactly(Before(run, n).memory, run[n].reading, run[n].edges, f); }
  }

  ghost predicate GivenBy(run: seq<Step>, n: nat, f: Fire)
    requires n < |run|
  {
    Gives(run, n, f.alert) && f == FireOf(run[n].reading, f.alert)
  }

  // The alerts given are exactly those of the ticks that compare two snapshots: nothing is ever
  // given for a snapshot taken when notifications were switched on, or the setting changed.
  lemma {:induction false} AlertsAreEdges(run: seq<Step>, f: Fire)
    requires IsRun(run)
    ensures f in Run(run).log <==> exists n :: 0 <= n < |run| && GivenBy(run, n, f)
    ensures forall n :: 0 <= n < |run| && GivenBy(run, n, f) ==>
              EdgeAt(run, n, f.alert) && f.at == ClockAt(run, n) && f.activity == ActivityAt(run, n, f.alert)
  {
    LogUpTo(run, f, |run|);
    assert run[..|run|] == run;
    forall n | 0 <= n < |run| && GivenBy(run, n, f) ensures EdgeAt(run, n, f.alert) { assert Proper(run, n); }
  }

  ghost predicate GivenUpTo(run: seq<Step>, f: Fire, n: nat)
    requires n <= |run|
  {
    exists k :: 0 <= k < n && GivenBy(run, k, f)
  }

  lemma OneMoreTick(run: seq<Step>, f: Fire, n: nat)
    requires n < |run|
    ensures GivenUpTo(run, f, n + 1) <==> GivenUpTo(run, f, n) || GivenBy(run, n, f)
  {}

  lemma {:induction false} LogUpTo(run: seq<Step>, f: Fire, n: nat)
    requires IsRun(run) && n <= |run|
    ensures f in Before(run, n).log <==> GivenUpTo(run, f, n)
  {
    if n > 0 {
      LogUpTo(run, f, n - 1);
      assert Proper(run, n - 1);
      LogGrows(run, n - 1, f);
      OneMoreTick(run, f, n - 1);
    }
  }

  // ---------------------------------------------------------------- what is remembered

  // Notifications were off at some tick after `m` and before `n`.
  ghost predicate OffBetween(run: seq<Step>, m: nat, n: nat)
    requires n <= |run|
  {
    exists k :: m < k < n && !OnAt(run, k)
  }

  // Tick `k` forgets the message that the alert of tick `m` was about: notifications are off, or
  // the session is absent six hours or more after that alert.
  predicate ForgetsAt(run: seq<Step>, m: nat, k: nat, a: Alert)
    requires m < |run| && k < |run|
  {
    || !OnAt(run, k)
    || (Compares(run, k) && a.key !in run[k].reading.now && ClockAt(run, m) + 21_600_000 <= ClockAt(run, k))
  }

  ghost predicate Forgotten(run: seq<Step>, m: nat, n: nat, a: Alert)
    requires m < |run| && n <= |run|
  {
    exists k :: m < k < n && ForgetsAt(run, m, k, a)
  }

  function ActivityAt(run: seq<Step>, n: nat, a: Alert): Option<int>
    requires n < |run|
  {
    Activity(run[n].reading, a.key)
  }

  function DebounceAt(run: seq<Step>, n: nat, a: Alert): Option<int>
    requires n <= |run|
  {
    DebounceOf(Before(run, n).memory, a)
  }

  function LatchAt(run: seq<Step>, n: nat, a: Alert): Option<Latched>
    requires n <= |run|
  {
    LatchOf(Before(run, n).memory, a)
  }

  // Tick `m` gave the alert at `at`, and notifications have been on since.
  ghost predicate IsEntry(run: seq<Step>, n: nat, a: Alert, at: int, m: nat)
    requires m < n <= |run|
  {
    Gives(run, m, a) && !OffBetween(run, m, n) && ClockAt(run, m) == at
  }

  // The debounce entry before tick `n` is no older than the alert of tick `m`.
  ghost predicate Debounced(run: seq<Step>, n: nat, a: Alert, d: Option<int>, m: nat)
    requires m < n <= |run|
  {
    || OffBetween(run, m, n)
    || (if d.Some? then ClockAt(run, m) <= d.value else ClockAt(run, m) + DEBOUNCE <= ClockAt(run, n - 1))
  }

  // The debounce entry is the time of the last alert since notifications were off, or there was
  // none in the last thirty seconds.
  ghost predicate DebounceOk(run: seq<Step>, n: nat, a: Alert, d: Option<int>)
    requires n <= |run|
  {
    && (d.Some? ==> exists m :: 0 <= m < n && IsEntry(run, n, a, d.value, m))
    && (forall m {:trigger Debounced(run, n, a, d, m)} ::
          0 <= m < n && Gives(run, m, a) ==> Debounced(run, n, a, d, m))
  }

  // Tick `m` gives `a` for a session with a message.
  predicate Anchors(run: seq<Step>, m: nat, a: Alert)
    requires m < |run|
  {
    Gives(run, m, a) && ActivityAt(run, m, a).Some?
  }

  // Tick `m` gave the alert that is latched, and it is not forgotten.
  ghost predicate IsLatch(run: seq<Step>, n: nat, a: Alert, l: Latched, m: nat)
    requires m < n <= |run|
  {
    Anchors(run, m, a) && !Forgotten(run, m, n, a)
    && ActivityAt(run, m, a).value == l.activity && ClockAt(run, m) == l.seen
  }

  // The alert of tick `m` is forgotten, or about no newer message than the latched one.
  ghost predicate LatchCovers(run: seq<Step>, n: nat, a: Alert, l: Option<Latched>, m: nat)
    requires m < n <= |run|
  {
    ActivityAt(run, m, a).Some? ==>
      || Forgotten(run, m, n, a)
      || (l.Some? && ActivityAt(run, m, a).value <= l.value.activity && ClockAt(run, m) <= l.value.seen)
  }

  ghost predicate LatchOk(run: seq<Step>, n: nat, a: Alert, l: Option<Latched>)
    requires n <= |run|
  {
    && (l.Some? ==> exists m :: 0 <= m < n && IsLatch(run, n, a, l.value, m))
    && (forall m {:trigger LatchCovers(run, n, a, l, m)} ::
          0 <= m < n && Gives(run, m, a) ==> LatchCovers(run, n, a, l, m))
  }

  lemma OffGrows(run: seq<Step>, m: nat, n: nat)
    requires m < n < |run|
    ensures OffBetween(run, m, n + 1) <==> OffBetween(run, m, n) || !OnAt(run, n)
  {}

  lemma ForgottenGrows(run: seq<Step>, m: nat, n: nat, a: Alert)
    requires m < n < |run|
    ensures Forgotten(run, m, n + 1, a) <==> Forgotten(run, m, n, a) || ForgetsAt(run, m, n, a)
  {}

  // What tick `n` makes of the two entries of `a`.
  function NextDebounce(run: seq<Step>, n: nat, a: Alert): Option<int>
    requires n < |run|
  {
    var d := DebounceAt(run, n, a);
    if !OnAt(run, n) then None
    else if !Compares(run, n) then d
    else if Gives(run, n, a) then Some(ClockAt(run, n))
    else if d.Some? && (a.key in run[n].reading.now || ClockAt(run, n) - d.value < DEBOUNCE) then d
    else None
  }

  function NextLatch(run: seq<Step>, n: nat, a: Alert): Option<Latched>
    requires n < |run|
  {
    var l := LatchAt(run, n, a);
    if !OnAt(run, n) then None
    else if !Compares(run, n) then l
    else if Anchors(run, n, a) then Some(Latched(ActivityAt(run, n, a).value, ClockAt(run, n)))
    else if l.Some? && (a.key in run[n].reading.now || ClockAt(run, n) - l.value.seen < LATCH_GRACE) then l
    else None
  }

  lemma ComparisonGoesOn(s: State, r: Reading, edges: seq<Alert>, a: Alert)
    requires s.seeded && r.settings.on && r.settings.subagents == s.subagents && OncePerKey(edges)
    ensures
      var m := Tick(s, r, edges).memory;
      var d := Retain(MemoryAfter(s.memory, r, edges, a), r.now, r.settings.clock);
      DebounceOf(m, a) == DebounceOf(d, a) && LatchOf(m, a) == LatchOf(d, a)
  {
    AfterAt(s.memory, r, edges, a);
    RetainAt(After(s.memory, r, edges), r.now, r.settings.clock, a);
    RetainAt(MemoryAfter(s.memory, r, edges, a), r.now, r.settings.clock, a);
  }

  lemma ComparedMemory(run: seq<Step>, n: nat, a: Alert)
    requires n < |run| && Proper(run, n) && Compares(run, n)
    ensures DebounceAt(run, n + 1, a) == NextDebounce(run, n, a)
    ensures a.kind != WentIdle ==> LatchAt(run, n + 1, a) == NextLatch(run, n, a)
  {
    var s, r, edges := Before(run, n), run[n].reading, run[n].edges;
    Ticks(run, n);
    SnapshotIsTheLast(run, n);
    ComparisonGoesOn(s, r, edges, a);
    RetainAt(MemoryAfter(s.memory, r, edges, a), r.now, r.settings.clock, a);
    assert Gives(run, n, a) <==> a in edges && Fires(s.memory, r, a);
  }

  lemma MemoryGoesOn(run: seq<Step>, n: nat, a: Alert)
    requires n < |run| && Proper(run, n)
    ensures DebounceAt(run, n + 1, a) == NextDebounce(run, n, a)
    ensures a.kind != WentIdle ==> LatchAt(run, n + 1, a) == NextLatch(run, n, a)
  {
    if Compares(run, n) {
      ComparedMemory(run, n, a);
    } else {
      Ticks(run, n);
      SnapshotIsTheLast(run, n);
    }
  }

  lemma RetainAt(m: Memory, now: Snapshot, clock: int, a: Alert)
    ensures
      var d := DebounceOf(m, a);
      DebounceOf(Retain(m, now, clock), a)
      == if d.Some? && (a.key in now || clock - d.value < DEBOUNCE) then d else None
    ensures
      var l := LatchOf(m, a);
      LatchOf(Retain(m, now, clock), a)
      == if l.Some? && (a.key in now || clock - l.value.seen < LATCH_GRACE) then l else None
  {}

  lemma DebouncedGoesOn(run: seq<Step>, n: nat, a: Alert, d: Option<int>, d': Option<int>, m: nat)
    requires m < n < |run| && ClockRuns(run) && Debounced(run, n, a, d, m)
    requires d == DebounceAt(run, n, a) && d' == NextDebounce(run, n, a)
    ensures Debounced(run, n + 1, a, d', m)
  {
    OffGrows(run, m, n);
  }

  lemma DebounceStep(run: seq<Step>, n: nat, a: Alert, d: Option<int>, d': Option<int>)
    requires ClockRuns(run) && n < |run| && DebounceOk(run, n, a, d)
    requires d == DebounceAt(run, n, a) && d' == NextDebounce(run, n, a)
    ensures DebounceOk(run, n + 1, a, d')
  {
    forall m | 0 <= m < n + 1 && Gives(run, m, a) ensures Debounced(run, n + 1, a, d', m) {
      if m < n {
        assert Debounced(run, n, a, d, m);
        DebouncedGoesOn(run, n, a, d, d', m);
      }
    }
    if d'.Some? {
      if Gives(run, n, a) {
        assert IsEntry(run, n + 1, a, d'.value, n);
      } else {
        var m :| 0 <= m < n && IsEntry(run, n, a, d.value, m);
        OffGrows(run, m, n);
        assert IsEntry(run, n + 1, a, d'.value, m);
      }
    }
  }

  lemma LatchGoesOn(run: seq<Step>, n: nat, a: Alert, l: Option<Latched>, l': Option<Latched>, m: nat)
    requires m < n < |run| && ClockRuns(run) && Gives(run, m, a) && LatchCovers(run, n, a, l, m)
    requires a.kind != WentIdle && l == LatchAt(run, n, a) && l' == NextLatch(run, n, a)
    ensures LatchCovers(run, n + 1, a, l', m)
  {
    ForgottenGrows(run, m, n, a);
  }

  lemma LatchStep(run: seq<Step>, n: nat, a: Alert, l: Option<Latched>, l': Option<Latched>)
    requires ClockRuns(run) && n < |run| && LatchOk(run, n, a, l)
    requires a.kind != WentIdle && l == LatchAt(run, n, a) && l' == NextLatch(run, n, a)
    ensures LatchOk(run, n + 1, a, l')
  {
    forall m | 0 <= m < n + 1 && Gives(run, m, a) ensures LatchCovers(run, n + 1, a, l', m) {
      if m < n {
        assert LatchCovers(run, n, a, l, m);
        LatchGoesOn(run, n, a, l, l', m);
      }
    }
    if l'.Some? {
      if Anchors(run, n, a) {
        assert IsLatch(run, n + 1, a, l'.value, n);
      } else {
        var m :| 0 <= m < n && IsLatch(run, n, a, l.value, m);
        ForgottenGrows(run, m, n, a);
        assert IsLatch(run, n + 1, a, l'.value, m);
      }
    }
  }

  // The memory of `a` before tick `n` is what the alerts given so far call for.
  ghost predicate MemoryOk(run: seq<Step>, n: nat, a: Alert)
    requires n <= |run|
  {
    && DebounceOk(run, n, a, DebounceAt(run, n, a))
    && (a.kind != WentIdle ==> LatchOk(run, n, a, LatchAt(run, n, a)))
  }

  lemma MemoryStaysOk(run: seq<Step>, n: nat, a: Alert)
    requires ClockRuns(run) && n < |run| && Proper(run, n) && MemoryOk(run, n, a)
    ensures MemoryOk(run, n + 1, a)
  {
    MemoryGoesOn(run, n, a);
    DebounceStep(run, n, a, DebounceAt(run, n, a), DebounceAt(run, n + 1, a));
    if a.kind != WentIdle { LatchStep(run, n, a, LatchAt(run, n, a), LatchAt(run, n + 1, a)); }
  }

  lemma NothingYet(run: seq<Step>, a: Alert)
    ensures MemoryOk(run, 0, a)
  {}

  lemma {:induction false} Remembered(run: seq<Step>, n: nat, a: Alert)
    requires IsRun(run) && n <= |run|
    ensures MemoryOk(run, n, a)
  {
    if n == 0 {
      NothingYet(run, a);
    } else {
      Remembered(run, n - 1, a);
      assert Proper(run, n - 1);
      MemoryStaysOk(run, n - 1, a);
    }
  }

  // ---------------------------------------------------------------- when an alert comes again

  // The alert of tick `m` does not stand in the way of another at tick `n`.
  ghost predicate MayRepeat(run: seq<Step>, m: nat, n: nat, a: Alert)
    requires m < n < |run|
  {
    && (OffBetween(run, m, n) || ClockAt(run, m) + 30_000 <= ClockAt(run, n))
    && (a.kind == WentIdle || ActivityAt(run, m, a).None? || Forgotten(run, m, n, a)
        || (ActivityAt(run, n, a).Some? && ActivityAt(run, m, a).value < ActivityAt(run, n, a).value))
  }

  // A tick gives an alert exactly when it is an edge of an enabled kind and no earlier one of the
  // same session and kind stands in the way: none within thirty seconds, and, but for idleness,
  // none about the same message, unless that was forgotten.
  lemma AlertsExactly(run: seq<Step>, n: nat, a: Alert)
    requires IsRun(run) && n < |run|
    ensures
      Gives(run, n, a)
      <==> EdgeAt(run, n, a) && a.kind in run[n].reading.settings.kinds
           && forall m {:trigger Gives(run, m, a)} :: 0 <= m < n && Gives(run, m, a) ==> MayRepeat(run, m, n, a)
  {
    assert Proper(run, n);
    Remembered(run, n, a);
    var d, l := DebounceAt(run, n, a), LatchAt(run, n, a);
    assert LatchedActivity(Before(run, n).memory, a) == if l.Some? then Some(l.value.activity) else None;
    if Gives(run, n, a) {
      forall m | 0 <= m < n && Gives(run, m, a) ensures MayRepeat(run, m, n, a) {
        assert Debounced(run, n, a, d, m);
        assert a.kind != WentIdle ==> LatchCovers(run, n, a, l, m);
      }
    } else if EdgeAt(run, n, a) && a.kind in run[n].reading.settings.kinds {
      if d.Some? && ClockAt(run, n) - d.value < DEBOUNCE {
        var m :| 0 <= m < n && IsEntry(run, n, a, d.value, m);
        assert !MayRepeat(run, m, n, a);
      } else {
        var m :| 0 <= m < n && IsLatch(run, n, a, l.value, m);
        assert !MayRepeat(run, m, n, a);
      }
    }
  }

  // While notifications stay on, the same alert comes at most once in thirty seconds, and within six
  // hours again only for a session with a newer message, wherever the session was in between.
  lemma AlertsDoNotRepeat(run: seq<Step>, m: nat, n: nat, a: Alert)
    requires IsRun(run) && m < n < |run| && Gives(run, m, a) && Gives(run, n, a)
    requires forall k :: m < k < n ==> OnAt(run, k)
    ensures ClockAt(run, n) - ClockAt(run, m) >= 30_000
    ensures
      a.kind != WentIdle && ActivityAt(run, m, a).Some? && ClockAt(run, n) - ClockAt(run, m) < 21_600_000 ==>
        ActivityAt(run, n, a).Some? && ActivityAt(run, m, a).value < ActivityAt(run, n, a).value
  {
    AlertsExactly(run, n, a);
    assert MayRepeat(run, m, n, a);
  }

  // A session that is present in every snapshot is never alerted about the same message again, as
  // long as notifications stay on.
  lemma PresentNeverRepeats(run: seq<Step>, m: nat, n: nat, a: Alert)
    requires IsRun(run) && m < n < |run| && Gives(run, m, a) && Gives(run, n, a)
    requires a.kind != WentIdle && ActivityAt(run, m, a).Some?
    requires forall k :: m < k < n ==> OnAt(run, k) && a.key in run[k].reading.now
    ensures ActivityAt(run, n, a).Some? && ActivityAt(run, m, a).value < ActivityAt(run, n, a).value
  {
    AlertsExactly(run, n, a);
    assert MayRepeat(run, m, n, a);
  }

  // ---------------------------------------------------------------- a repeated alert

  const WAITS := Key(1, Transcript("s"))

  function Seen(clock: int, present: bool): Reading {
    Reading(
      Settings(clock, true, false, {NeedsYou}),
      if present then map[WAITS := SessState(Waiting, false)] else map[],
      {1}, {1}, if present then map[WAITS := 5] else map[])
  }

  // A session waits for six hours less two seconds, is absent for one tick, and waits again.
  function Flickers(): seq<Step> {
    [ Step(Seen(0, false), []),
      Step(Seen(2_000, true), [Alert(WAITS, NeedsYou)]),
      Step(Seen(LATCH_GRACE, true), []),
      Step(Seen(LATCH_GRACE + 2_000, false), [Alert(WAITS, WentIdle)]),
      Step(Seen(LATCH_GRACE + 4_000, true), [Alert(WAITS, NeedsYou)])]
  }

  lemma FlickersIsRun()
    ensures IsRun(Flickers())
  {
    var run := Flickers();
    forall n | 0 <= n < |run| ensures Proper(run, n) {
      forall a ensures Compares(run, n) ==> (a in run[n].edges <==> EdgeAt(run, n, a)) {
        assert a.key in run[n].reading.now <==> a.key == WAITS && n != 0 && n != 3;
      }
    }
  }

  // The latch outlives six hours only while the session is there: absent for two seconds after
  // that, the session is alerted about the message of six hours ago once more.
  lemma RepeatedAfterABriefAbsence()
    ensures IsRun(Flickers())
    ensures Gives(Flickers(), 1, Alert(WAITS, NeedsYou)) && Gives(Flickers(), 4, Alert(WAITS, NeedsYou))
    ensures ActivityAt(Flickers(), 1, Alert(WAITS, NeedsYou)) == Some(5)
    ensures ActivityAt(Flickers(), 4, Alert(WAITS, NeedsYou)) == Some(5)
  {
    var run, a := Flickers(), Alert(WAITS, NeedsYou);
    FlickersIsRun();
    AlertsExactly(run, 0, a);
    AlertsExactly(run, 1, a);
    AlertsExactly(run, 2, a);
    AlertsExactly(run, 3, a);
    assert ForgetsAt(run, 1, 3, a);
    AlertsExactly(run, 4, a);
  }
}
