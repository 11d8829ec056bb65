// Which windows a pass treats as armed, in terms of the requests and settings of a run
// (crates/repomon-daemon/src/auto_continue.rs:170-207, crates/repomon-daemon/src/rpc.rs:4580-4600).
module AutoContinueArming {
  import opened Prelude
  import opened AutoContinue

  // The state after the first `n` steps.
  function At(now: int, run: seq<Step>, n: nat): State
    requires n <= |run|
  {
    After(Start(now), run[..n])
  }

  lemma OneMoreStep(now: int, run: seq<Step>, n: nat)
    requires n < |run|
    ensures At(now, run, n + 1) == Next(At(now, run, n), run[n])
  {
    assert run[..n + 1][..n] == run[..n];
  }

  // Among the first `n` steps a request disarms the lane and none after it arms it.
  ghost predicate DisarmedBefore(run: seq<Step>, n: nat, lane: Lane)
    requires n <= |run|
  {
    exists t :: 0 <= t < n && run[t] == Toggle(lane, false) && forall u :: t < u < n ==> run[u] != Toggle(lane, true)
  }

  lemma DisarmedOneMore(run: seq<Step>, n: nat, lane: Lane)
    requires n < |run|
    ensures
      DisarmedBefore(run, n + 1, lane)
      <==> run[n] == Toggle(lane, false) || (DisarmedBefore(run, n, lane) && run[n] != Toggle(lane, true))
  {
    if DisarmedBefore(run, n, lane) && run[n] != Toggle(lane, true) {
      var t :| 0 <= t < n && run[t] == Toggle(lane, false) && forall u :: t < u < n ==> run[u] != Toggle(lane, true);
      assert forall u :: t < u < n + 1 ==> run[u] != Toggle(lane, true);
    }
  }

  lemma {:induction false} OffExactly(now: int, run: seq<Step>, n: nat, lane: Lane)
    requires n <= |run|
    ensures lane in At(now, run, n).off <==> DisarmedBefore(run, n, lane)
  {
    if n > 0 {
      OffExactly(now, run, n - 1, lane);
      OneMoreStep(now, run, n - 1);
      DisarmedOneMore(run, n - 1, lane);
    }
  }

  // Step `k` begins a pass.
  predicate Begins(now: int, run: seq<Step>, k: nat)
    requires k < |run|
  {
    run[k].Begin? && run[k].names.Some? && Enabled(At(now, run, k), run[k])
  }

  // Of the first `n` steps, `b` is the last that begins a pass.
  ghost predicate LastBegin(now: int, run: seq<Step>, b: nat, n: nat)
    requires n <= |run|
  {
    b < n && Begins(now, run, b) && forall k :: b < k < n ==> !Begins(now, run, k)
  }

  // The pass has the setting of the step that began it and the lanes disarmed by then.
  ghost predicate IsPassOf(now: int, run: seq<Step>, b: nat, n: nat)
    requires n <= |run|
  {
    LastBegin(now, run, b, n)
    && var pass := At(now, run, n).pass;
       pass.globalOn == run[b].globalOn && pass.off == At(now, run, b).off
  }

  lemma PassGoesOn(now: int, run: seq<Step>, b: nat, n: nat)
    requires n < |run| && IsPassOf(now, run, b, n) && !Begins(now, run, n)
    ensures IsPassOf(now, run, b, n + 1)
  {
    OneMoreStep(now, run, n);
  }

  ghost predicate SomePass(now: int, run: seq<Step>, n: nat)
    requires n <= |run|
  {
    exists b :: 0 <= b < n && IsPassOf(now, run, b, n)
  }

  lemma {:induction false} PassHasBegun(now: int, run: seq<Step>, n: nat)
    requires n <= |run|
    ensures At(now, run, n).pass.todo == [] || SomePass(now, run, n)
  {
    if n > 0 {
      var k := n - 1;
      PassHasBegun(now, run, k);
      OneMoreStep(now, run, k);
      if Begins(now, run, k) {
        assert IsPassOf(now, run, k, n);
      } else if SomePass(now, run, k) {
        var b :| 0 <= b < k && IsPassOf(now, run, b, k);
        PassGoesOn(now, run, b, k);
      }
    }
  }

  // The pass that is going on began with the setting on, and no request before it had disarmed the
  // window's lane without one arming it again.
  ghost predicate ArmedBy(now: int, run: seq<Step>, w: Window) {
    exists b :: 0 <= b < |run| && LastBegin(now, run, b, |run|) && run[b].globalOn
                && forall lane :: InLane(w, lane) ==> !DisarmedBefore(run, b, lane)
  }

  // A pass treats exactly those windows as armed.
  lemma ArmedExactly(now: int, run: seq<Step>, w: Window)
    requires After(Start(now), run).pass.todo != []
    ensures Armed(After(Start(now), run).pass, w) <==> ArmedBy(now, run, w)
  {
    assert run[..|run|] == run;
    PassHasBegun(now, run, |run|);
    var b :| 0 <= b < |run| && IsPassOf(now, run, b, |run|);
    forall lane ensures lane in At(now, run, b).off <==> DisarmedBefore(run, b, lane) { OffExactly(now, run, b, lane); }
    assert InLane(w, if LaneOf(w).Some? then LaneOf(w).value else 0) <==> LaneOf(w).Some?;
    forall c | 0 <= c < |run| && LastBegin(now, run, c, |run|) ensures c == b {}
  }
}
