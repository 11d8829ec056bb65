// The table of prices, changed in place (crates/repomon-core/src/pricing.rs:96-297).
module PricingTable {
  import opened Prelude
  import opened Pricing
  import opened PricingOverrides

  datatype SourceCounts = SourceCounts(builtin: nat, litellm: nat, overrides: nat)

  function Models(rows: seq<Price>): set<string> { set r | r in rows :: r.model }

  predicate NewestFrom(rows: seq<Price>, model: string, source: Source) {
    Newest(rows, model).Some? && Newest(rows, model).value.source == source
  }

  // The models whose newest row comes from `source`.
  function From(rows: seq<Price>, models: set<string>, source: Source): set<string> {
    set m | m in models && NewestFrom(rows, m, source)
  }

  function Tally(rows: seq<Price>, models: set<string>): SourceCounts {
    SourceCounts(|From(rows, models, Builtin)|, |From(rows, models, Litellm)|, |From(rows, models, Override)|)
  }

  function Counted(counts: SourceCounts, source: Source): SourceCounts {
    match source
    case Builtin => counts.(builtin := counts.builtin + 1)
    case Litellm => counts.(litellm := counts.litellm + 1)
    case Override => counts.(overrides := counts.overrides + 1)
  }

  ghost predicate NewestOf(newest: map<string, Price>, rows: seq<Price>) {
    && newest.Keys == Models(rows)
    && (forall m :: m in newest ==> Newest(rows, m) == Some(newest[m]))
  }

  class PriceTable {
    var rows: seq<Price>

    constructor ()
      ensures rows == []
    {
      rows := [];
    }

    method Insert(price: Price)
      modifies this
      ensures rows == old(rows) + [price]
    {
      rows := rows + [price];
    }

    // The longest effective prefix so far, in one pass.
    method SearchPrefix(model: string, at: int) returns (best: Option<Price>)
      ensures best == PrefixMatch(rows, model, at)
    {
      best := None;
      var bestLen := 0;
      for i := 0 to |rows|
        invariant best == PrefixMatch(rows[..i], model, at)
        invariant bestLen == if best.Some? then |best.value.model| else 0
      {
        assert rows[..i + 1][..i] == rows[..i];
        var row := rows[i];
        if row.since > at || !(row.model <= model) {
          continue;
        }
        var len := |row.model|;
        var better := best.None? || len > bestLen || (len == bestLen && row.since > best.value.since);
        if better {
          best := Some(row);
          bestLen := len;
        }
      }
      assert rows[..|rows|] == rows;
    }

    // Each override in turn sees the rows that the ones before it left; the clock is read anew for
    // each.
    method ApplyOverrides(overs: seq<(string, PriceOverride)>, clock: nat -> int)
      modifies this
      ensures rows == ApplyAll(old(rows), overs, clock)
    {
      for i := 0 to |overs|
        invariant rows == ApplyAll(old(rows), overs[..i], clock)
      {
        assert overs[..i + 1][..i] == overs[..i];
        ghost var before := rows;
        var model, over, now := overs[i].0, overs[i].1, clock(i);
        var exact := Newest(rows, model);
        var base := if exact.Some? then exact else Lookup(rows, model, now);
        var since :=
          if over.since.Some? then over.since.value
          else if exact.Some? then exact.value.since
          else 0;
        var row := Price(model, Merged(over, base), since, Override);
        rows := Without(rows, model, since);
        rows := rows + [row];
        assert rows == ApplyOne(before, model, over, now);
      }
      assert overs[..|overs|] == overs;
    }

    // The newest row of every model, in one pass.
    method NewestRows() returns (newest: map<string, Price>)
      ensures NewestOf(newest, rows)
    {
      newest := map[];
      for i := 0 to |rows|
        invariant NewestOf(newest, rows[..i])
      {
        var row := rows[i];
        ghost var before := newest;
        if row.model in newest {
          if row.since >= newest[row.model].since { newest := newest[row.model := row]; }
        } else {
          newest := newest[row.model := row];
        }
        OneMoreNewest(before, newest, rows, i);
      }
      assert rows[..|rows|] == rows;
    }

    static method CountOne(counts: SourceCounts, source: Source) returns (more: SourceCounts)
      ensures more == Counted(counts, source)
    {
      match source {
        case Builtin => more := counts.(builtin := counts.builtin + 1);
        case Litellm => more := counts.(litellm := counts.litellm + 1);
        case Override => more := counts.(overrides := counts.overrides + 1);
      }
    }

    // Every model counts once, under the source of the row that is found for it by exact id once
    // all rows are effective.
    method CountSources() returns (counts: SourceCounts)
      ensures counts.builtin == |set m | m in Models(rows) && NewestFrom(rows, m, Builtin)|
      ensures counts.litellm == |set m | m in Models(rows) && NewestFrom(rows, m, Litellm)|
      ensures counts.overrides == |set m | m in Models(rows) && NewestFrom(rows, m, Override)|
    {
      var newest := NewestRows();
      counts := SourceCounts(0, 0, 0);
      var left := newest.Keys;
      ghost var done: set<string> := {};
      while left != {}
        invariant done + left == Models(rows) && done !! left
        invariant counts == Tally(rows, done)
      {
        var m :| m in left;
        OneMoreModel(rows, done, m, newest[m]);
        counts := CountOne(counts, newest[m].source);
        left := left - {m};
        done := done + {m};
      }
      assert done == Models(rows);
    }
  }

  lemma ModelsGrow(rows: seq<Price>, r: Price)
    ensures Models(rows + [r]) == Models(rows) + {r.model}
  {
    assert forall x :: x in rows + [r] <==> x in rows || x == r;
  }

  lemma OneMoreNewest(before: map<string, Price>, after: map<string, Price>, rows: seq<Price>, i: nat)
    requires i < |rows| && NewestOf(before, rows[..i])
    requires
      after ==
      if rows[i].model in before && rows[i].since < before[rows[i].model].since then before
      else before[rows[i].model := rows[i]]
    ensures NewestOf(after, rows[..i + 1])
  {
    var some, r := rows[..i], rows[i];
    assert rows[..i + 1] == some + [r];
    ModelsGrow(some, r);
    NewestIsNewest(some, r.model);
    forall m | m in after ensures Newest(some + [r], m) == Some(after[m]) {
      NewestGrows(some, r, m);
      if m in before { assert Newest(some, m) == Some(before[m]); }
    }
  }

  lemma NewestGrows(rows: seq<Price>, r: Price, m: string)
    ensures
      var best := Newest(rows, m);
      Newest(rows + [r], m)
      == if r.model == m && (best.None? || best.value.since <= r.since) then Some(r) else best
  {
    assert (rows + [r])[..|rows|] == rows;
  }

  lemma OneMoreModel(rows: seq<Price>, done: set<string>, m: string, r: Price)
    requires m !in done && Newest(rows, m) == Some(r)
    ensures
      Tally(rows, done + {m}) == Counted(Tally(rows, done), r.source)
  {
    OneMoreFrom(rows, done, m, r, Builtin);
    OneMoreFrom(rows, done, m, r, Litellm);
    OneMoreFrom(rows, done, m, r, Override);
  }

  lemma OneMoreFrom(rows: seq<Price>, done: set<string>, m: string, r: Price, s: Source)
    requires m !in done && Newest(rows, m) == Some(r)
    ensures |From(rows, done + {m}, s)| == |From(rows, done, s)| + if r.source == s then 1 else 0
  {
    if r.source == s {
      assert From(rows, done + {m}, s) == From(rows, done, s) + {m};
    } else {
      assert From(rows, done + {m}, s) == From(rows, done, s);
    }
  }

  // At the end of time a model's newest row is the one found by its exact id.
  lemma {:induction false} NewestAtTheEnd(rows: seq<Price>, model: string, at: int)
    requires forall r :: r in rows ==> r.since <= at
    ensures Newest(rows, model) == ExactMatch(rows, model, at)
  {
    if rows != [] {
      assert rows[|rows| - 1] in rows;
      NewestAtTheEnd(rows[..|rows| - 1], model, at);
    }
  }

  // The three counts add up to the number of distinct models.
  lemma EveryModelCountsOnce(rows: seq<Price>)
    ensures
      var m := Models(rows);
      |From(rows, m, Builtin)| + |From(rows, m, Litellm)| + |From(rows, m, Override)| == |m|
  {
    var m := Models(rows);
    var b, l, o := From(rows, m, Builtin), From(rows, m, Litellm), From(rows, m, Override);
    forall x | x in m ensures x in b + l + o { NewestIsNewest(rows, x); }
    assert m == b + l + o;
    assert |b + l + o| == |b + l| + |o| && |b + l| == |b| + |l|;
  }

  // ---------------------------------------------------------------- costs

  // Pricing two batches of tokens at one instant is pricing them together.
  lemma CostsAdd(rows: seq<Price>, model: string, at: int, a: Tokens, b: Tokens)
    ensures
      var both := Tokens(
                    a.input + b.input, a.output + b.output, a.cacheRead + b.cacheRead, a.cacheWrite + b.cacheWrite);
      && (Cost(rows, model, at, a).Some? <==> Cost(rows, model, at, both).Some?)
      && (Cost(rows, model, at, a).Some? ==>
            Cost(rows, model, at, b).Some?
            && Cost(rows, model, at, both).value == Cost(rows, model, at, a).value + Cost(rows, model, at, b).value)
  {
    var found := Lookup(rows, model, at);
    if found.Some? { ChargesAdd(found.value.rates, a, b); }
  }

  // A million tokens of one kind cost that kind's rate; a model without a price costs nothing if
  // it is in the free tier and is unknown otherwise.
  lemma MillionTokensCostTheRate(rows: seq<Price>, model: string, at: int)
    ensures
      var million := 1_000_000;
      match Lookup(rows, model, at)
      case Some(p) =>
        && Cost(rows, model, at, Tokens(million, 0, 0, 0)) == Some(p.rates.input)
        && Cost(rows, model, at, Tokens(0, million, 0, 0)) == Some(p.rates.output)
        && Cost(rows, model, at, Tokens(0, 0, million, 0)) == Some(p.rates.cacheRead)
        && Cost(rows, model, at, Tokens(0, 0, 0, million)) == Some(p.rates.cacheWrite)
      case None =>
        forall t :: Cost(rows, model, at, t) == if IsFreeTier(model) then Some(0.0) else None
  {
    var found := Lookup(rows, model, at);
    if found.Some? { ChargesMillion(found.value.rates); }
  }

  lemma WholePart(rate: real)
    ensures Part(1_000_000, rate) == rate && Part(0, rate) == 0.0
  {
    assert 1_000_000 as real / 1_000_000.0 == 1.0 && 0 as real / 1_000_000.0 == 0.0;
    assert 1.0 * rate == rate && 0.0 * rate == 0.0;
  }

  lemma ChargesMillion(r: Rates)
    ensures Charge(r, Tokens(1_000_000, 0, 0, 0)) == r.input
    ensures Charge(r, Tokens(0, 1_000_000, 0, 0)) == r.output
    ensures Charge(r, Tokens(0, 0, 1_000_000, 0)) == r.cacheRead
    ensures Charge(r, Tokens(0, 0, 0, 1_000_000)) == r.cacheWrite
  {
    WholePart(r.input);
    WholePart(r.output);
    WholePart(r.cacheRead);
    WholePart(r.cacheWrite);
  }

  lemma ChargesAdd(r: Rates, a: Tokens, b: Tokens)
    ensures
      Charge(r, Tokens(a.input + b.input, a.output + b.output, a.cacheRead + b.cacheRead, a.cacheWrite + b.cacheWrite))
      == Charge(r, a) + Charge(r, b)
  {
    PartAdds(a.input, b.input, r.input);
    PartAdds(a.output, b.output, r.output);
    PartAdds(a.cacheRead, b.cacheRead, r.cacheRead);
    PartAdds(a.cacheWrite, b.cacheWrite, r.cacheWrite);
  }

  lemma PartAdds(a: nat, b: nat, rate: real)
    ensures Part(a + b, rate) == Part(a, rate) + Part(b, rate)
  {
    assert (a + b) as real == a as real + b as real;
    assert (a + b) as real / 1_000_000.0 == a as real / 1_000_000.0 + b as real / 1_000_000.0;
  }
}
