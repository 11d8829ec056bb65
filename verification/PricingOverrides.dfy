// What overrides change, and when their order matters (crates/repomon-core/src/pricing.rs:172-218).
module PricingOverrides {
  import opened Prelude
  import opened Sorting
  import opened Pricing
  import opened PricingLookups

  // ---------------------------------------------------------------- history before an override

  lemma {:induction false} PastWithout(rows: seq<Price>, model: string, since: int, at: int)
    requires at < since
    ensures Past(Without(rows, model, since), at) == Past(rows, at)
  {
    if rows != [] {
      var rest, r := rows[..|rows| - 1], rows[|rows| - 1];
      PastWithout(rest, model, since, at);
      if !(r.model == model && r.since == since) {
        assert (Without(rest, model, since) + [r])[..|Without(rest, model, since)|] == Without(rest, model, since);
      }
    }
  }

  // ---------------------------------------------------------------- what an override changes

  // `after` is what is found instead of `was` when the rows of one instant are removed: the same, or
  // an older row if that was of this instant.
  predicate FoundInstead(was: Option<Price>, after: Option<Price>, removed: bool, since: int) {
    if removed && was.Some? && was.value.since == since
    then after.None? || after.value.since < since
    else after == was
  }

  lemma ExactKeeps(rows: seq<Price>, kept: seq<Price>, r: Price, model: string, since: int, p: string, at: int)
    requires FoundInstead(ExactMatch(rows, p, at), ExactMatch(kept, p, at), p == model, since)
    ensures
      var more := if r.model == model && r.since == since then kept else kept + [r];
      FoundInstead(ExactMatch(rows + [r], p, at), ExactMatch(more, p, at), p == model, since)
  {
    assert (rows + [r])[..|rows|] == rows && (kept + [r])[..|kept|] == kept;
  }

  lemma FirstKeeps(rows: seq<Price>, kept: seq<Price>, r: Price, model: string, since: int, p: string, at: int)
    requires FoundInstead(First(rows, p, at), First(kept, p, at), p == model, since)
    ensures
      var more := if r.model == model && r.since == since then kept else kept + [r];
      FoundInstead(First(rows + [r], p, at), First(more, p, at), p == model, since)
  {
    assert (rows + [r])[..|rows|] == rows && (kept + [r])[..|kept|] == kept;
  }

  // Removing the rows of one instant removes the newest effective row only if it is of that
  // instant; any row found instead is older.
  lemma {:induction false} ExactWithout(rows: seq<Price>, model: string, since: int, p: string, at: int)
    ensures FoundInstead(ExactMatch(rows, p, at), ExactMatch(Without(rows, model, since), p, at), p == model, since)
  {
    if rows != [] {
      var rest, r := rows[..|rows| - 1], rows[|rows| - 1];
      ExactWithout(rest, model, since, p, at);
      ExactKeeps(rest, Without(rest, model, since), r, model, since, p, at);
      assert rows == rest + [r];
    }
  }

  lemma {:induction false} FirstWithout(rows: seq<Price>, model: string, since: int, p: string, at: int)
    ensures FoundInstead(First(rows, p, at), First(Without(rows, model, since), p, at), p == model, since)
  {
    if rows != [] {
      var rest, r := rows[..|rows| - 1], rows[|rows| - 1];
      FirstWithout(rest, model, since, p, at);
      FirstKeeps(rest, Without(rest, model, since), r, model, since, p, at);
      assert rows == rest + [r];
    }
  }

  // What a lookup by id, by prefix and by both finds there, from what it found before: the new row
  // where that is effective and neither a longer model nor a newer row of its own stands before it.
  function OwnWith(was: Option<Price>, row: Price, model: string, at: int): Option<Price> {
    if row.model == model && row.since <= at && (was.None? || was.value.since <= row.since) then Some(row) else was
  }

  function PrefixWith(was: Option<Price>, row: Price, model: string, at: int): Option<Price> {
    if && row.model <= model && row.since <= at
       && (was.None? || |was.value.model| < |row.model|
           || (was.value.model == row.model && was.value.since <= row.since))
    then Some(row) else was
  }

  function AliasWith(rows: seq<Price>, row: Price, model: string, at: int): Option<Price> {
    var alias := ResolveAlias(model);
    if alias.Some? && alias.value != model
    then Or(OwnWith(ExactMatch(rows, alias.value, at), row, alias.value, at),
            PrefixWith(PrefixMatch(rows, alias.value, at), row, alias.value, at))
    else None
  }

  function LookupWith(rows: seq<Price>, row: Price, model: string, at: int): Option<Price> {
    Or(OwnWith(ExactMatch(rows, model, at), row, model, at),
       Or(AliasWith(rows, row, model, at), PrefixWith(PrefixMatch(rows, model, at), row, model, at)))
  }

  lemma OwnAfter(rows: seq<Price>, row: Price, p: string, at: int)
    ensures ExactMatch(With(rows, row), p, at) == OwnWith(ExactMatch(rows, p, at), row, p, at)
    ensures First(With(rows, row), p, at) == OwnWith(First(rows, p, at), row, p, at)
  {
    var kept := Without(rows, row.model, row.since);
    assert (kept + [row])[..|kept|] == kept;
    ExactWithout(rows, row.model, row.since, p, at);
    FirstWithout(rows, row.model, row.since, p, at);
    ExactIsNewest(rows, p, at);
    FirstIsNewest(rows, p, at);
  }

  lemma LongestFirstIsUnique(a: Option<Price>, b: Option<Price>, rows: seq<Price>, model: string, at: int)
    requires LongestFirst(a, rows, model, at) && LongestFirst(b, rows, model, at)
    ensures a == b
  {
    if a.Some? { assert First(rows, a.value.model, at) == a; }
    if b.Some? { assert First(rows, b.value.model, at) == b; }
    if a.Some? && b.Some? && |a.value.model| == |b.value.model| { SameLength(a.value.model, b.value.model, model); }
  }

  lemma PrefixAfter(rows: seq<Price>, row: Price, model: string, at: int)
    ensures PrefixMatch(With(rows, row), model, at) == PrefixWith(PrefixMatch(rows, model, at), row, model, at)
  {
    var was, after := PrefixMatch(rows, model, at), With(rows, row);
    var best := PrefixWith(was, row, model, at);
    PrefixIsLongestFirst(rows, model, at);
    PrefixIsLongestFirst(after, model, at);
    forall p ensures First(after, p, at) == OwnWith(First(rows, p, at), row, p, at) { OwnAfter(rows, row, p, at); }
    if was.Some? {
      assert First(rows, was.value.model, at) == was;
      if row.model <= model && |row.model| == |was.value.model| { SameLength(row.model, was.value.model, model); }
    }
    assert First(rows, row.model, at).None? || First(rows, row.model, at).Some?;
    LongestFirstIsUnique(best, PrefixMatch(after, model, at), after, model, at);
  }

  lemma WithLookup(rows: seq<Price>, row: Price, model: string, at: int)
    ensures Lookup(With(rows, row), model, at) == LookupWith(rows, row, model, at)
    ensures LookupWith(rows, row, model, at) in {Some(row), Lookup(rows, model, at)}
  {
    OwnAfter(rows, row, model, at);
    PrefixAfter(rows, row, model, at);
    var alias := ResolveAlias(model);
    if alias.Some? {
      OwnAfter(rows, row, alias.value, at);
      PrefixAfter(rows, row, alias.value, at);
    }
  }

  // Exactly what an override changes: for every model and instant, a lookup afterwards finds the
  // new row where that comes before what was found by id, by alias or by prefix, and else the same.
  lemma LookupAfter(rows: seq<Price>, model: string, over: PriceOverride, now: int, other: string, at: int)
    ensures
      Lookup(ApplyOne(rows, model, over, now), other, at)
      == LookupWith(rows, OverrideRow(rows, model, over, now), other, at)
    ensures
      LookupWith(rows, OverrideRow(rows, model, over, now), other, at)
      in {Some(OverrideRow(rows, model, over, now)), Lookup(rows, other, at)}
  {
    WithLookup(rows, OverrideRow(rows, model, over, now), other, at);
  }

  // No override changes any price before its own date.
  lemma NothingChangesBefore(
      rows: seq<Price>, model: string, over: PriceOverride, now: int, other: string, at: int, t: Tokens)
    requires at < OverrideRow(rows, model, over, now).since
    ensures Lookup(ApplyOne(rows, model, over, now), other, at) == Lookup(rows, other, at)
    ensures Cost(ApplyOne(rows, model, over, now), other, at, t) == Cost(rows, other, at, t)
  {
    var row := OverrideRow(rows, model, over, now);
    var kept := Without(rows, model, row.since);
    PastWithout(rows, model, row.since, at);
    LaterRowsDoNotMatter(kept, rows, at, other, at, t);
    LaterInsertDoesNotMatter(kept, row, other, at, t);
  }

  lemma {:induction false} InWithout(rows: seq<Price>, model: string, since: int, r: Price)
    ensures r in Without(rows, model, since) <==> r in rows && !(r.model == model && r.since == since)
  {
    if rows != [] {
      InWithout(rows[..|rows| - 1], model, since, r);
      assert rows == rows[..|rows| - 1] + [rows[|rows| - 1]];
    }
  }

  // From its date on an override prices its model, until a newer row of that model begins.
  lemma OverrideWins(rows: seq<Price>, model: string, over: PriceOverride, now: int, at: int)
    requires
      var row := OverrideRow(rows, model, over, now);
      && row.since <= at
      && (forall r :: r in rows && r.model == model && row.since < r.since ==> at < r.since)
    ensures Lookup(ApplyOne(rows, model, over, now), model, at) == Some(OverrideRow(rows, model, over, now))
  {
    var row := OverrideRow(rows, model, over, now);
    var kept := Without(rows, model, row.since);
    assert (kept + [row])[..|kept|] == kept;
    ExactIsNewest(kept, model, at);
    if ExactMatch(kept, model, at).Some? {
      InWithout(rows, model, row.since, ExactMatch(kept, model, at).value);
    }
  }

  lemma {:induction false} NewestIsNewest(rows: seq<Price>, model: string)
    ensures
      var best := Newest(rows, model);
      && (best.None? <==> forall r :: r in rows ==> r.model != model)
      && (best.Some? ==> best.value in rows && best.value.model == model
                         && forall r :: r in rows && r.model == model ==> r.since <= best.value.since)
  {
    if rows != [] {
      NewestIsNewest(rows[..|rows| - 1], model);
      assert rows == rows[..|rows| - 1] + [rows[|rows| - 1]];
    }
  }

  // An override without a date, of a model with a row of its own, leaves every price before that
  // row's date and from then on prices the model, each rate its own or else that row's.
  lemma UndatedOverride(
      rows: seq<Price>, model: string, over: PriceOverride, now: int, at: int, other: string, t: Tokens)
    requires over.since.None? && Newest(rows, model).Some?
    ensures
      var base := Newest(rows, model).value;
      var after := ApplyOne(rows, model, over, now);
      && (at < base.since ==>
            && Lookup(after, other, at) == Lookup(rows, other, at)
            && Cost(after, other, at, t) == Cost(rows, other, at, t))
      && (at >= base.since ==>
            && Lookup(after, model, at).Some?
            && var p := Lookup(after, model, at).value;
            && p.source == Override && p.model == model && p.since == base.since
            && p.rates.input == (if over.input.Some? then over.input.value else base.rates.input)
            && p.rates.output == (if over.output.Some? then over.output.value else base.rates.output)
            && p.rates.cacheRead == (if over.cacheRead.Some? then over.cacheRead.value else base.rates.cacheRead)
            && p.rates.cacheWrite == (if over.cacheWrite.Some? then over.cacheWrite.value else base.rates.cacheWrite))
  {
    var base := Newest(rows, model).value;
    NewestIsNewest(rows, model);
    if at < base.since {
      NothingChangesBefore(rows, model, over, now, other, at, t);
    } else {
      OverrideWins(rows, model, over, now, at);
    }
  }

  // ---------------------------------------------------------------- the order of overrides

  // The override names every rate, or its model has a row to inherit from.
  predicate Complete(o: PriceOverride) { o.input.Some? && o.output.Some? && o.cacheRead.Some? && o.cacheWrite.Some? }

  predicate SelfContained(rows: seq<Price>, model: string, o: PriceOverride) {
    Newest(rows, model).Some? || Complete(o)
  }

  // Applying such an override looks at no rows but its own model's.
  function OwnRow(own: seq<Price>, model: string, o: PriceOverride): Price {
    Price(model, Merged(o, Newest(own, model)), Since(o, Newest(own, model)), Override)
  }

  function ApplyOwn(own: seq<Price>, model: string, o: PriceOverride): seq<Price> {
    Without(own, model, OwnRow(own, model, o).since) + [OwnRow(own, model, o)]
  }

  lemma LastRowOf(rows: seq<Price>, r: Price, p: string)
    ensures RowsOf(rows + [r], p) == RowsOf(rows, p) + if r.model == p then [r] else []
  {
    assert (rows + [r])[..|rows|] == rows;
  }

  lemma LastWithout(rows: seq<Price>, r: Price, model: string, since: int)
    ensures
      Without(rows + [r], model, since)
      == Without(rows, model, since) + if r.model == model && r.since == since then [] else [r]
  {
    assert (rows + [r])[..|rows|] == rows;
  }

  // Removing rows of one model leaves those of every other.
  predicate RemovesOwn(rows: seq<Price>, model: string, since: int, p: string) {
    RowsOf(Without(rows, model, since), p)
    == if p == model then Without(RowsOf(rows, p), model, since) else RowsOf(rows, p)
  }

  lemma {:induction false} AlwaysRemovesOwn(rows: seq<Price>, model: string, since: int, p: string)
    ensures RemovesOwn(rows, model, since, p)
  {
    if rows != [] {
      var rest, r := rows[..|rows| - 1], rows[|rows| - 1];
      AlwaysRemovesOwn(rest, model, since, p);
      RowsOfOneMore(rest, r, model, since, p);
      assert rows == rest + [r];
    }
  }

  lemma RowsOfWithout(rows: seq<Price>, model: string, since: int, p: string)
    ensures
      RowsOf(Without(rows, model, since), p)
      == if p == model then Without(RowsOf(rows, p), model, since) else RowsOf(rows, p)
  {
    AlwaysRemovesOwn(rows, model, since, p);
  }

  lemma RowsOfOneMore(rest: seq<Price>, r: Price, model: string, since: int, p: string)
    requires RemovesOwn(rest, model, since, p)
    ensures RemovesOwn(rest + [r], model, since, p)
  {
    var kept, own := Without(rest, model, since), RowsOf(rest, p);
    LastWithout(rest, r, model, since);
    LastRowOf(rest, r, p);
    if r.model == model && r.since == since {
      assert Without(rest + [r], model, since) == kept;
      if p == model {
        LastWithout(own, r, model, since);
        assert RowsOf(rest + [r], p) == own + [r];
        assert Without(own + [r], model, since) == Without(own, model, since);
      } else {
        assert RowsOf(rest + [r], p) == own;
      }
    } else {
      assert Without(rest + [r], model, since) == kept + [r];
      LastRowOf(kept, r, p);
      if p != r.model {
        assert RowsOf(kept + [r], p) == RowsOf(kept, p) && RowsOf(rest + [r], p) == own;
      } else if p == model {
        LastWithout(own, r, model, since);
        assert Without(own + [r], model, since) == Without(own, model, since) + [r];
      } else {
        assert RowsOf(kept + [r], p) == own + [r];
      }
    }
  }

  lemma RowsOfApplyOne(rows: seq<Price>, model: string, o: PriceOverride, now: int, p: string)
    requires SelfContained(rows, model, o)
    ensures
      RowsOf(ApplyOne(rows, model, o, now), p)
      == if p == model then ApplyOwn(RowsOf(rows, p), p, o) else RowsOf(rows, p)
  {
    ByModel(rows, model, now);
    var row := OverrideRow(rows, model, o, now);
    assert row == OwnRow(RowsOf(rows, model), model, o);
    RowsOfWithout(rows, model, row.since, p);
    LastRowOf(Without(rows, model, row.since), row, p);
  }

  // The overrides name each model once, as the keys of a map do.
  ghost predicate DistinctModels(overs: seq<(string, PriceOverride)>) {
    forall i, j :: 0 <= i < j < |overs| ==> overs[i].0 != overs[j].0
  }

  function OverrideFor(overs: seq<(string, PriceOverride)>, p: string): Option<PriceOverride> {
    if overs == [] then None
    else if overs[|overs| - 1].0 == p then Some(overs[|overs| - 1].1)
    else OverrideFor(overs[..|overs| - 1], p)
  }

  lemma {:induction false} OverrideForIs(overs: seq<(string, PriceOverride)>, p: string, o: PriceOverride)
    requires DistinctModels(overs)
    ensures OverrideFor(overs, p) == Some(o) <==> (p, o) in overs
  {
    if overs != [] {
      var rest, last := overs[..|overs| - 1], overs[|overs| - 1];
      OverrideForIs(rest, p, o);
      assert overs == rest + [last];
      assert forall i :: 0 <= i < |rest| ==> rest[i].0 != last.0;
    }
  }

  // What all the overrides make of one model's rows, in whatever order they come.
  lemma {:induction false} RowsOfApplyAll(
      rows: seq<Price>, overs: seq<(string, PriceOverride)>, clock: nat -> int, p: string)
    requires DistinctModels(overs) && forall i :: 0 <= i < |overs| ==> SelfContained(rows, overs[i].0, overs[i].1)
    ensures
      RowsOf(ApplyAll(rows, overs, clock), p)
      == match OverrideFor(overs, p) case Some(o) => ApplyOwn(RowsOf(rows, p), p, o) case None => RowsOf(rows, p)
  {
    if overs != [] {
      var rest, last := overs[..|overs| - 1], overs[|overs| - 1];
      var before, now := ApplyAll(rows, rest, clock), clock(|rest|);
      RowsOfApplyAll(rows, rest, clock, p);
      RowsOfApplyAll(rows, rest, clock, last.0);
      NotYet(overs);
      ByModel(rows, last.0, now);
      ByModel(before, last.0, now);
      RowsOfApplyOne(before, last.0, last.1, now, p);
    }
  }

  lemma NotYet(overs: seq<(string, PriceOverride)>)
    requires DistinctModels(overs) && overs != []
    ensures OverrideFor(overs[..|overs| - 1], overs[|overs| - 1].0).None?
  {
    var rest, last := overs[..|overs| - 1], overs[|overs| - 1];
    var found := OverrideFor(rest, last.0);
    if found.Some? { OverrideForIs(rest, last.0, found.value); }
  }

  lemma SameOverride(a: seq<(string, PriceOverride)>, b: seq<(string, PriceOverride)>, p: string)
    requires DistinctModels(a) && DistinctModels(b) && multiset(a) == multiset(b)
    ensures OverrideFor(a, p) == OverrideFor(b, p)
  {
    SameElements(a, b);
    var x, y := OverrideFor(a, p), OverrideFor(b, p);
    if x.Some? {
      OverrideForIs(a, p, x.value);
      OverrideForIs(b, p, x.value);
    } else if y.Some? {
      OverrideForIs(b, p, y.value);
      OverrideForIs(a, p, y.value);
    }
  }

  // Overrides of distinct models, each with a row of its own or complete, may be applied in any
  // order and at any times: every model has the same price at every instant.
  lemma OrderDoesNotMatter(
      rows: seq<Price>, a: seq<(string, PriceOverride)>, b: seq<(string, PriceOverride)>, now: nat -> int,
      later: nat -> int, model: string, at: int)
    requires DistinctModels(a) && DistinctModels(b) && multiset(a) == multiset(b)
    requires forall i :: 0 <= i < |a| ==> SelfContained(rows, a[i].0, a[i].1)
    ensures Lookup(ApplyAll(rows, a, now), model, at) == Lookup(ApplyAll(rows, b, later), model, at)
  {
    SameElements(a, b);
    forall i | 0 <= i < |b| ensures SelfContained(rows, b[i].0, b[i].1) { assert b[i] in a; }
    forall p ensures RowsOf(ApplyAll(rows, a, now), p) == RowsOf(ApplyAll(rows, b, later), p) {
      RowsOfApplyAll(rows, a, now, p);
      RowsOfApplyAll(rows, b, later, p);
      SameOverride(a, b, p);
    }
    OnlyOwnOrderMatters(ApplyAll(rows, a, now), ApplyAll(rows, b, later), model, at);
  }

  // Without a row of its own a model inherits what a lookup finds for it: also an override that was
  // applied before, where a lookup for the model finds that one; each rate is its own, or else the
  // inherited one.
  lemma AppliedOverrideIsInherited(
      rows: seq<Price>, family: string, model: string, f: PriceOverride, o: PriceOverride, applied: int, now: int)
    requires Newest(rows, model).None? && family != model
    ensures
      var row := OverrideRow(rows, family, f, applied);
      OverrideRow(ApplyOne(rows, family, f, applied), model, o, now)
      == if LookupWith(rows, row, model, now) == Some(row)
         then Price(model, Merged(o, Some(row)), if o.since.Some? then o.since.value else 0, Override)
         else OverrideRow(rows, model, o, now)
  {
    LookupAfter(rows, family, f, applied, model, now);
    NewestAfter(rows, family, f, applied, model);
  }

  lemma RowsOfWith(rows: seq<Price>, row: Price, p: string)
    ensures
      RowsOf(With(rows, row), p)
      == if p == row.model then Without(RowsOf(rows, p), p, row.since) + [row] else RowsOf(rows, p)
  {
    RowsOfWithout(rows, row.model, row.since, p);
    LastRowOf(Without(rows, row.model, row.since), row, p);
  }

  lemma NewestAfter(rows: seq<Price>, model: string, over: PriceOverride, now: int, other: string)
    requires other != model
    ensures Newest(ApplyOne(rows, model, over, now), other) == Newest(rows, other)
  {
    RowsOfWith(rows, OverrideRow(rows, model, over, now), other);
    ByModel(ApplyOne(rows, model, over, now), other, now);
    ByModel(rows, other, now);
  }

  // One override adds the same row whether the other one comes before it or after: it has a row of
  // its own, or inherits the same rates from the table with and without the other's row.
  predicate SameEitherWay(
      rows: seq<Price>, model: string, o: PriceOverride, alone: int, second: int, first: Price)
  {
    || Newest(rows, model).Some?
    || Merged(o, Lookup(rows, model, alone)) == Merged(o, LookupWith(rows, first, model, second))
  }

  // An override together with the times at which it is applied as the first and as the second one.
  datatype Timed = Timed(model: string, over: PriceOverride, first: int, second: int)

  function FirstRow(rows: seq<Price>, x: Timed): Price { OverrideRow(rows, x.model, x.over, x.first) }

  function Both(rows: seq<Price>, x: Timed, y: Timed): seq<Price> {
    ApplyOne(ApplyOne(rows, x.model, x.over, x.first), y.model, y.over, y.second)
  }

  // The row that `y` adds after `x`.
  function SecondRow(rows: seq<Price>, x: Timed, y: Timed): Price {
    OverrideRow(ApplyOne(rows, x.model, x.over, x.first), y.model, y.over, y.second)
  }

  lemma SecondRowIs(rows: seq<Price>, x: Timed, y: Timed)
    requires x.model != y.model
    ensures
      SecondRow(rows, x, y) == FirstRow(rows, y)
      <==> SameEitherWay(rows, y.model, y.over, y.first, y.second, FirstRow(rows, x))
  {
    LookupAfter(rows, x.model, x.over, x.first, y.model, y.second);
    NewestAfter(rows, x.model, x.over, x.first, y.model);
    NewestIsNewest(rows, y.model);
    ExactIsNewest(rows, y.model, y.first);
    ExactIsNewest(rows, y.model, y.second);
  }

  // At its own date each of the two rows is what its model costs.
  lemma FoundAtTheirDates(rows: seq<Price>, x: Timed, y: Timed)
    requires x.model != y.model
    ensures Lookup(Both(rows, x, y), y.model, SecondRow(rows, x, y).since) == Some(SecondRow(rows, x, y))
    ensures Lookup(Both(rows, x, y), x.model, FirstRow(rows, x).since) == Some(FirstRow(rows, x))
  {
    var one := ApplyOne(rows, x.model, x.over, x.first);
    LookupAfter(one, y.model, y.over, y.second, y.model, SecondRow(rows, x, y).since);
    LookupAfter(one, y.model, y.over, y.second, x.model, FirstRow(rows, x).since);
    ExactIsNewest(one, y.model, SecondRow(rows, x, y).since);
    ExactIsNewest(rows, x.model, FirstRow(rows, x).since);
    OwnAfter(rows, FirstRow(rows, x), x.model, FirstRow(rows, x).since);
  }

  lemma RowsOfBoth(rows: seq<Price>, x: Timed, y: Timed, p: string)
    requires x.model != y.model
    ensures
      RowsOf(Both(rows, x, y), p)
      == if p == y.model then Without(RowsOf(rows, p), p, SecondRow(rows, x, y).since) + [SecondRow(rows, x, y)]
         else if p == x.model then Without(RowsOf(rows, p), p, FirstRow(rows, x).since) + [FirstRow(rows, x)]
         else RowsOf(rows, p)
  {
    RowsOfWith(rows, FirstRow(rows, x), p);
    RowsOfWith(ApplyOne(rows, x.model, x.over, x.first), SecondRow(rows, x, y), p);
  }

  // Two overrides of different models give the same prices in both orders, for every model and
  // instant, exactly when each adds the same row either way.
  lemma TwoOrdersAgreeExactly(rows: seq<Price>, x: Timed, y: Timed)
    requires x.model != y.model
    ensures
      (forall model, at :: Lookup(Both(rows, x, y), model, at) == Lookup(Both(rows, y, x), model, at))
      <==> SameEitherWay(rows, x.model, x.over, x.first, x.second, FirstRow(rows, y))
           && SameEitherWay(rows, y.model, y.over, y.first, y.second, FirstRow(rows, x))
  {
    SecondRowIs(rows, x, y);
    SecondRowIs(rows, y, x);
    var xy, yx := Both(rows, x, y), Both(rows, y, x);
    SameDate(rows, x, y);
    SameDate(rows, y, x);
    if SecondRow(rows, x, y) == FirstRow(rows, y) && SecondRow(rows, y, x) == FirstRow(rows, x) {
      forall p ensures RowsOf(xy, p) == RowsOf(yx, p) {
        RowsOfBoth(rows, x, y, p);
        RowsOfBoth(rows, y, x, p);
      }
      forall model, at ensures Lookup(xy, model, at) == Lookup(yx, model, at) {
        OnlyOwnOrderMatters(xy, yx, model, at);
      }
    } else {
      FoundAtTheirDates(rows, x, y);
      FoundAtTheirDates(rows, y, x);
      var model, at :=
        if SecondRow(rows, x, y) != FirstRow(rows, y) then y.model else x.model,
        if SecondRow(rows, x, y) != FirstRow(rows, y) then FirstRow(rows, y).since else FirstRow(rows, x).since;
      assert Lookup(xy, model, at) != Lookup(yx, model, at);
    }
  }

  lemma SameDate(rows: seq<Price>, x: Timed, y: Timed)
    requires x.model != y.model
    ensures SecondRow(rows, x, y).since == FirstRow(rows, y).since
  {
    NewestAfter(rows, x.model, x.over, x.first, y.model);
  }

  // Two overrides that give different prices in the two orders.
  lemma OrderCanMatter()
    ensures
      var none := PriceOverride(None, None, None, None, None);
      var family, model := ("m", none.(input := Some(5.0))), ("m-1", none);
      var clock := (i: nat) => 0;
      && Lookup(ApplyAll([], [family, model], clock), "m-1", 0).Some?
      && Lookup(ApplyAll([], [model, family], clock), "m-1", 0).Some?
      && Lookup(ApplyAll([], [family, model], clock), "m-1", 0).value.rates.input == 5.0
      && Lookup(ApplyAll([], [model, family], clock), "m-1", 0).value.rates.input == 0.0
  {
    var none := PriceOverride(None, None, None, None, None);
    var family, model := ("m", none.(input := Some(5.0))), ("m-1", none);
    var clock := (i: nat) => 0;
    assert [family, model][..1] == [family] && [model, family][..1] == [model];
    var x, y := Timed("m", family.1, 0, 0), Timed("m-1", none, 0, 0);
    FirstOverride(family.0, family.1, clock);
    FirstOverride(model.0, model.1, clock);
    assert ApplyAll([], [family, model], clock) == Both([], x, y);
    assert ApplyAll([], [model, family], clock) == Both([], y, x);
    FoundAtTheirDates([], x, y);
    FoundAtTheirDates([], y, x);
    NoAlias();
    EmptyLookup("m-1", 0);
    EmptyLookup("m", 0);
    LookupAfter([], "m", family.1, 0, "m-1", 0);
    NewestAfter([], "m", family.1, 0, "m-1");
  }

  lemma EmptyLookup(model: string, at: int)
    ensures Lookup([], model, at).None? && Newest([], model).None?
  {
    var rows: seq<Price> := [];
    assert ExactMatch(rows, model, at).None? && PrefixMatch(rows, model, at).None?;
    var alias := ResolveAlias(model);
    assert alias.Some? ==> ExactMatch(rows, alias.value, at).None? && PrefixMatch(rows, alias.value, at).None?;
  }

  lemma FirstOverride(model: string, o: PriceOverride, clock: nat -> int)
    ensures ApplyAll([], [(model, o)], clock) == ApplyOne([], model, o, clock(0))
    ensures ApplyAll([], [(model, o)], clock) == [Price(model, Merged(o, None), Since(o, None), Override)]
  {
    EmptyLookup(model, clock(0));
    assert [(model, o)][..0] == [];
    assert ApplyAll([], [], clock) == [];
  }

  lemma NoAlias()
    ensures ResolveAlias("m-1").None?
  {
    forall i | 0 <= i < |ALIASES| ensures ALIASES[i].0 != "m-1" { assert |ALIASES[i].0| != |"m-1"|; }
    NotFound(ALIASES, "m-1");
  }

  lemma {:induction false} NotFound(aliases: seq<(string, string)>, model: string)
    requires forall i :: 0 <= i < |aliases| ==> aliases[i].0 != model
    ensures Find(aliases, model).None?
  {
    if aliases != [] { NotFound(aliases[1..], model); }
  }
}
