// The order in which a stream's events are published
// (crates/repomon-daemon/src/bytes_stream.rs:138-192): grid changes among the bytes, some left out.
module EventOrder {
  import opened Prelude
  import opened ByteStreams

  // `kept` is `all` without some of its grid changes, in the same order.
  ghost predicate Thinned(kept: seq<Event>, all: seq<Event>)
    decreases |all|
  {
    if all == [] then kept == []
    else
      var rest, e := all[..|all| - 1], all[|all| - 1];
      || (kept != [] && kept[|kept| - 1] == e && Thinned(kept[..|kept| - 1], rest))
      || (e.GridChange? && Thinned(kept, rest))
  }

  lemma KeepsOneMore(kept: seq<Event>, all: seq<Event>, e: Event)
    requires Thinned(kept, all)
    ensures Thinned(kept + [e], all + [e])
  {
    assert (kept + [e])[..|kept|] == kept && (all + [e])[..|all|] == all;
  }

  lemma LeavesOneOut(kept: seq<Event>, all: seq<Event>, e: Event)
    requires Thinned(kept, all) && e.GridChange?
    ensures Thinned(kept, all + [e])
  {
    assert (all + [e])[..|all|] == all;
  }

  // A grid change anywhere may be left out.
  lemma {:induction false} SkipsOne(a: seq<Event>, e: Event, b: seq<Event>, all: seq<Event>)
    requires Thinned(a + [e] + b, all) && e.GridChange?
    ensures Thinned(a + b, all)
    decreases |all|
  {
    var rest, last := all[..|all| - 1], all[|all| - 1];
    var kept := a + [e] + b;
    assert all == rest + [last];
    if last.GridChange? && Thinned(kept, rest) {
      SkipsOne(a, e, b, rest);
      LeavesOneOut(a + b, rest, last);
    } else if b == [] {
      assert kept[..|kept| - 1] == a && a + b == a && last == e;
      LeavesOneOut(a, rest, last);
    } else {
      assert kept[..|kept| - 1] == a + [e] + b[..|b| - 1];
      SkipsOne(a, e, b[..|b| - 1], rest);
      KeepsOneMore(a + b[..|b| - 1], rest, last);
      assert a + b[..|b| - 1] + [last] == a + b;
    }
  }

  // The first part of what is kept comes from a first part of all.
  lemma {:induction false} FirstPart(a: seq<Event>, b: seq<Event>, all: seq<Event>) returns (k: nat)
    requires Thinned(a + b, all)
    ensures k <= |all| && Thinned(a, all[..k])
    decreases |all|
  {
    if b == [] {
      assert a + b == a && all[..|all|] == all;
      k := |all|;
    } else {
      var rest, last, kept := all[..|all| - 1], all[|all| - 1], a + b;
      if kept[|kept| - 1] == last && Thinned(kept[..|kept| - 1], rest) {
        assert kept[..|kept| - 1] == a + b[..|b| - 1];
        k := FirstPart(a, b[..|b| - 1], rest);
      } else {
        k := FirstPart(a, b, rest);
      }
      assert rest[..k] == all[..k];
    }
  }

  // ---------------------------------------------------------------- the bytes among them

  function ChunksOf(events: seq<Event>): seq<seq<byte>> {
    if events == [] then []
    else
      var e := events[|events| - 1];
      ChunksOf(events[..|events| - 1]) + if e.Bytes? then [e.chunk] else []
  }

  // No bytes are left out.
  lemma {:induction false} ThinnedChunks(kept: seq<Event>, all: seq<Event>)
    requires Thinned(kept, all)
    ensures ChunksOf(kept) == ChunksOf(all)
    decreases |all|
  {
    if all != [] {
      var rest := all[..|all| - 1];
      if kept != [] && kept[|kept| - 1] == all[|all| - 1] && Thinned(kept[..|kept| - 1], rest) {
        ThinnedChunks(kept[..|kept| - 1], rest);
      } else {
        ThinnedChunks(kept, rest);
      }
    }
  }

  lemma {:induction false} ChunksOfPrefix(events: seq<Event>, k: nat)
    requires k <= |events|
    ensures ChunksOf(events[..k]) <= ChunksOf(events)
  {
    if k == |events| {
      assert events[..k] == events;
    } else {
      ChunksOfPrefix(events[..|events| - 1], k);
      assert events[..|events| - 1][..k] == events[..k];
    }
  }

  // ---------------------------------------------------------------- notices

  // What notices report, as events of the stream.
  function EventsIn(notices: seq<Notice>): seq<Event> {
    if notices == [] then []
    else
      EventsIn(notices[..|notices| - 1]) +
      match notices[|notices| - 1]
      case BytesNotice(_, _, _, _, data) => [Bytes(data)]
      case GridNotice(_, _, _, _, grid) => [GridChange(grid)]
      case ClosedNotice(_, _, _) => []
  }

  lemma EventsInAppend(notices: seq<Notice>, f: Forwarder, g: nat, e: Event, number: nat)
    ensures EventsIn(notices + [NoticeFor(f, g, e, number)]) == EventsIn(notices) + [e]
  {
    assert (notices + [NoticeFor(f, g, e, number)])[..|notices|] == notices;
  }
}
