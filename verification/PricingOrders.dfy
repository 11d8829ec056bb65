// When the order in which overrides are applied matters, for any number of them
// (crates/repomon-core/src/pricing.rs:172-218).
module PricingOrders {
  import opened Prelude
  import opened Counting
  import opened Sorting
  import opened Pricing
  import opened PricingLookups
  import opened PricingOverrides

  // An override and the model it is for.
  type Named = (string, PriceOverride)

  function AtOnce(now: int): nat -> int { (n: nat) => now }

  // The row an override adds to the table as it was before any of them.
  function BaseRow(rows: seq<Price>, x: Named, now: int): Price { OverrideRow(rows, x.0, x.1, now) }

  // The table with those rows.
  function BaseTable(rows: seq<Price>, overs: seq<Named>, now: int): seq<Price> {
    if overs == [] then rows
    else With(BaseTable(rows, overs[..|overs| - 1], now), BaseRow(rows, overs[|overs| - 1], now))
  }

  // `x` adds the same row with and without the row of `y`.
  predicate Independent(rows: seq<Price>, x: Named, y: Named, now: int) {
    SameEitherWay(rows, x.0, x.1, now, now, BaseRow(rows, y, now))
  }

  ghost predicate AllIndependent(rows: seq<Price>, overs: seq<Named>, now: int) {
    forall i, j :: 0 <= i < |overs| && 0 <= j < |overs| && i != j ==> Independent(rows, overs[i], overs[j], now)
  }

  ghost predicate NotAmong(overs: seq<Named>, model: string) { forall y :: y in overs ==> y.0 != model }

  // ---------------------------------------------------------------- more rows find more

  // What is found by id, and by prefix, is at least as good as it was.
  predicate NoOlder(was: Option<Price>, found: Option<Price>) {
    was.Some? ==> found.Some? && was.value.since <= found.value.since
  }

  predicate NoWorse(was: Option<Price>, found: Option<Price>) {
    was.Some? ==>
      && found.Some?
      && (|was.value.model| < |found.value.model|
          || (was.value.model == found.value.model && was.value.since <= found.value.since))
  }

  ghost predicate FindsMore(rows: seq<Price>, more: seq<Price>, model: string, at: int) {
    && NoOlder(ExactMatch(rows, model, at), ExactMatch(more, model, at))
    && NoWorse(PrefixMatch(rows, model, at), PrefixMatch(more, model, at))
  }

  lemma {:induction false} BaseTableFindsMore(rows: seq<Price>, overs: seq<Named>, now: int, model: string, at: int)
    ensures FindsMore(rows, BaseTable(rows, overs, now), model, at)
  {
    if overs != [] {
      var before, row := BaseTable(rows, overs[..|overs| - 1], now), BaseRow(rows, overs[|overs| - 1], now);
      BaseTableFindsMore(rows, overs[..|overs| - 1], now, model, at);
      OwnAfter(before, row, model, at);
      PrefixAfter(before, row, model, at);
    }
  }

  // A row that is found in the larger table, by id or by prefix, would be found in the smaller one.
  lemma FoundInSmaller(rows: seq<Price>, more: seq<Price>, row: Price, model: string, at: int)
    requires FindsMore(rows, more, model, at)
    ensures
      OwnWith(ExactMatch(more, model, at), row, model, at) == Some(row) ==>
        OwnWith(ExactMatch(rows, model, at), row, model, at) == Some(row)
    ensures
      PrefixWith(PrefixMatch(more, model, at), row, model, at) == Some(row) ==>
        PrefixWith(PrefixMatch(rows, model, at), row, model, at) == Some(row)
  {
    ExactIsNewest(more, model, at);
    PrefixIsLongestThenNewest(more, model, at);
  }

  // Nor is anything found in the smaller table where nothing is in the larger.
  lemma NothingInSmaller(rows: seq<Price>, more: seq<Price>, row: Price, model: string, at: int)
    requires FindsMore(rows, more, model, at)
    ensures
      OwnWith(ExactMatch(more, model, at), row, model, at).None? ==>
        OwnWith(ExactMatch(rows, model, at), row, model, at).None?
    ensures
      PrefixWith(PrefixMatch(more, model, at), row, model, at).None? ==>
        PrefixWith(PrefixMatch(rows, model, at), row, model, at).None?
  {}

  // So a row that a model inherits from the larger table it would inherit from the smaller one.
  lemma InheritedFromSmaller(rows: seq<Price>, more: seq<Price>, row: Price, model: string, at: int)
    requires forall m :: FindsMore(rows, more, m, at)
    requires LookupWith(more, row, model, at) == Some(row)
    requires row.model != model && ExactMatch(more, model, at).None?
    ensures LookupWith(rows, row, model, at) == Some(row)
  {
    FoundInSmaller(rows, more, row, model, at);
    NothingInSmaller(rows, more, row, model, at);
    var alias := ResolveAlias(model);
    if alias.Some? {
      FoundInSmaller(rows, more, row, alias.value, at);
      NothingInSmaller(rows, more, row, alias.value, at);
    }
  }

  // ---------------------------------------------------------------- independent overrides

  lemma {:induction false} OwnRowsStay(rows: seq<Price>, overs: seq<Named>, now: int, model: string)
    requires NotAmong(overs, model)
    ensures RowsOf(BaseTable(rows, overs, now), model) == RowsOf(rows, model)
  {
    if overs != [] {
      var rest, last := overs[..|overs| - 1], overs[|overs| - 1];
      OwnRowsStay(rows, rest, now, model);
      RowsOfWith(BaseTable(rows, rest, now), BaseRow(rows, last, now), model);
    }
  }

  // A model inherits the same from the table with all the base rows as from the one with none.
  lemma {:induction false} InheritsTheSame(rows: seq<Price>, overs: seq<Named>, now: int, x: Named)
    requires NotAmong(overs, x.0) && Newest(rows, x.0).None?
    requires forall y :: y in overs ==> Independent(rows, x, y, now)
    ensures Merged(x.1, Lookup(BaseTable(rows, overs, now), x.0, now)) == Merged(x.1, Lookup(rows, x.0, now))
  {
    if overs != [] {
      var rest, last := overs[..|overs| - 1], overs[|overs| - 1];
      var before, row := BaseTable(rows, rest, now), BaseRow(rows, last, now);
      InheritsTheSame(rows, rest, now, x);
      WithLookup(before, row, x.0, now);
      if LookupWith(before, row, x.0, now) == Some(row) {
        OwnRowsStay(rows, rest, now, x.0);
        ByModel(rows, x.0, now);
        ByModel(before, x.0, now);
        NewestIsNewest(rows, x.0);
        ExactIsNewest(rows, x.0, now);
        forall m ensures FindsMore(rows, before, m, now) { BaseTableFindsMore(rows, rest, now, m, now); }
        InheritedFromSmaller(rows, before, row, x.0, now);
        assert Independent(rows, x, last, now);
      }
    }
  }

  // It adds the row it would add to the table as it was.
  lemma AddsItsBaseRow(rows: seq<Price>, overs: seq<Named>, now: int, x: Named)
    requires NotAmong(overs, x.0) && forall y :: y in overs ==> Independent(rows, x, y, now)
    ensures OverrideRow(BaseTable(rows, overs, now), x.0, x.1, now) == BaseRow(rows, x, now)
  {
    OwnRowsStay(rows, overs, now, x.0);
    ByModel(rows, x.0, now);
    ByModel(BaseTable(rows, overs, now), x.0, now);
    if Newest(rows, x.0).None? { InheritsTheSame(rows, overs, now, x); }
  }

  lemma {:induction false} AppliesToBaseTable(rows: seq<Price>, overs: seq<Named>, now: int)
    requires DistinctModels(overs) && AllIndependent(rows, overs, now)
    ensures ApplyAll(rows, overs, AtOnce(now)) == BaseTable(rows, overs, now)
  {
    if overs != [] {
      var rest, last := overs[..|overs| - 1], overs[|overs| - 1];
      AppliesToBaseTable(rows, rest, now);
      forall y | y in rest ensures y.0 != last.0 && Independent(rows, last, y, now) {
        var i :| 0 <= i < |rest| && rest[i] == y;
        assert overs[i] == y && Independent(rows, overs[|overs| - 1], overs[i], now);
      }
      AddsItsBaseRow(rows, rest, now, last);
    }
  }

  lemma {:induction false} RowsOfBaseTable(rows: seq<Price>, overs: seq<Named>, now: int, p: string)
    requires DistinctModels(overs)
    ensures
      RowsOf(BaseTable(rows, overs, now), p)
      == match OverrideFor(overs, p)
         case Some(o) => RowsOf(With(rows, BaseRow(rows, (p, o), now)), p)
         case None => RowsOf(rows, p)
  {
    if overs != [] {
      var rest, last := overs[..|overs| - 1], overs[|overs| - 1];
      RowsOfBaseTable(rows, rest, now, p);
      RowsOfWith(BaseTable(rows, rest, now), BaseRow(rows, last, now), p);
      RowsOfWith(rows, BaseRow(rows, last, now), p);
      NotYet(overs);
    }
  }

  // ---------------------------------------------------------------- orders

  // `order` has the same overrides, each as often.
  ghost predicate IsOrder(order: seq<Named>, overs: seq<Named>) { multiset(order) == multiset(overs) }

  ghost predicate SamePrices(a: seq<Price>, b: seq<Price>) {
    forall model, at :: Lookup(a, model, at) == Lookup(b, model, at)
  }

  ghost predicate AllOrdersAgree(rows: seq<Price>, overs: seq<Named>, now: int) {
    forall a, b {:trigger IsOrder(a, overs), IsOrder(b, overs)} ::
      IsOrder(a, overs) && IsOrder(b, overs) ==>
        SamePrices(ApplyAll(rows, a, AtOnce(now)), ApplyAll(rows, b, AtOnce(now)))
  }

  lemma OrderKeepsModels(order: seq<Named>, overs: seq<Named>)
    requires DistinctModels(overs) && IsOrder(order, overs)
    ensures DistinctModels(order)
  {
    SameElements(order, overs);
    forall i, j | 0 <= i < j < |overs| ensures overs[i] != overs[j] { assert overs[i].0 != overs[j].0; }
    DistinctMeansOnce(overs);
    forall i, j | 0 <= i < j < |order| ensures order[i].0 != order[j].0 {
      OnceMeansDistinct(order, i, j);
      assert order[i] in overs && order[j] in overs;
    }
  }

  lemma OrderKeepsIndependence(rows: seq<Price>, order: seq<Named>, overs: seq<Named>, now: int)
    requires DistinctModels(overs) && IsOrder(order, overs) && AllIndependent(rows, overs, now)
    ensures DistinctModels(order) && AllIndependent(rows, order, now)
  {
    OrderKeepsModels(order, overs);
    SameElements(order, overs);
    forall i, j | 0 <= i < |order| && 0 <= j < |order| && i != j
      ensures Independent(rows, order[i], order[j], now)
    {
      assert order[i] in overs && order[j] in overs;
      var k :| 0 <= k < |overs| && overs[k] == order[i];
      var h :| 0 <= h < |overs| && overs[h] == order[j];
      assert order[i].0 != order[j].0;
      assert Independent(rows, overs[k], overs[h], now);
    }
  }

  lemma IndependentOrdersAgree(rows: seq<Price>, overs: seq<Named>, now: int, a: seq<Named>, b: seq<Named>)
    requires DistinctModels(overs) && AllIndependent(rows, overs, now)
    requires IsOrder(a, overs) && IsOrder(b, overs)
    ensures SamePrices(ApplyAll(rows, a, AtOnce(now)), ApplyAll(rows, b, AtOnce(now)))
  {
    OrderKeepsIndependence(rows, a, overs, now);
    OrderKeepsIndependence(rows, b, overs, now);
    AppliesToBaseTable(rows, a, now);
    AppliesToBaseTable(rows, b, now);
    var x, y := BaseTable(rows, a, now), BaseTable(rows, b, now);
    forall p ensures RowsOf(x, p) == RowsOf(y, p) {
      RowsOfBaseTable(rows, a, now, p);
      RowsOfBaseTable(rows, b, now, p);
      SameOverride(a, b, p);
    }
    forall model, at ensures Lookup(x, model, at) == Lookup(y, model, at) { OnlyOwnOrderMatters(x, y, model, at); }
  }

  // ---------------------------------------------------------------- dependent overrides

  // What is found by a model's own id once the overrides are applied.
  function FoundById(rows: seq<Price>, overs: seq<Named>, now: int, model: string, at: int): Option<Price> {
    ExactMatch(ApplyAll(rows, overs, AtOnce(now)), model, at)
  }

  lemma OneOtherDoesNotMatter(rows: seq<Price>, overs: seq<Named>, k: nat, now: int, model: string, at: int)
    requires k < |overs| && overs[k].0 != model
    ensures FoundById(rows, overs[..k + 1], now, model, at) == FoundById(rows, overs[..k], now, model, at)
  {
    var before := ApplyAll(rows, overs[..k], AtOnce(now));
    assert overs[..k + 1][..k] == overs[..k];
    OwnAfter(before, OverrideRow(before, overs[k].0, overs[k].1, now), model, at);
  }

  // That does not depend on later overrides of other models.
  lemma {:induction false} OthersDoNotMatter(
      rows: seq<Price>, overs: seq<Named>, k: nat, n: nat, now: int, model: string, at: int)
    requires k <= n <= |overs| && forall i :: k <= i < n ==> overs[i].0 != model
    ensures FoundById(rows, overs[..n], now, model, at) == FoundById(rows, overs[..k], now, model, at)
  {
    if k < n {
      OthersDoNotMatter(rows, overs, k, n - 1, now, model, at);
      OneOtherDoesNotMatter(rows, overs, n - 1, now, model, at);
    }
  }

  // Overrides of other models after the first two.
  lemma OnlyTheFirstTwo(rows: seq<Price>, x: Named, y: Named, rest: seq<Named>, now: int, model: string, at: int)
    requires NotAmong(rest, model)
    ensures FoundById(rows, [x, y] + rest, now, model, at) == FoundById(rows, [x, y], now, model, at)
  {
    var all := [x, y] + rest;
    assert all[..2] == [x, y] && all[..|all|] == all;
    forall i | 2 <= i < |all| ensures all[i].0 != model { assert all[i] == rest[i - 2]; }
    OthersDoNotMatter(rows, all, 2, |all|, now, model, at);
  }

  function AsTimed(x: Named, now: int): Timed { Timed(x.0, x.1, now, now) }

  lemma TwoFirst(rows: seq<Price>, x: Named, y: Named, now: int)
    ensures ApplyAll(rows, [x, y], AtOnce(now)) == Both(rows, AsTimed(x, now), AsTimed(y, now))
  {
    assert [x, y][..1] == [x] && [x][..0] == [];
    assert ApplyAll(rows, [x], AtOnce(now)) == ApplyOne(rows, x.0, x.1, now);
  }

  // The row a model is priced by at that row's own date, as the first override and as the second.
  lemma OwnRowAtItsDate(rows: seq<Price>, x: Named, y: Named, now: int)
    requires x.0 != y.0
    ensures
      var first, second := FirstRow(rows, AsTimed(x, now)), SecondRow(rows, AsTimed(y, now), AsTimed(x, now));
      && first.since == second.since
      && FoundById(rows, [x, y], now, x.0, first.since) == Some(first)
      && FoundById(rows, [y, x], now, x.0, first.since) == Some(second)
  {
    var tx, ty := AsTimed(x, now), AsTimed(y, now);
    var first, second := FirstRow(rows, tx), SecondRow(rows, ty, tx);
    TwoFirst(rows, x, y, now);
    TwoFirst(rows, y, x, now);
    SameDate(rows, ty, tx);
    var ox, oy := ApplyOne(rows, x.0, x.1, now), ApplyOne(rows, y.0, y.1, now);
    ExactIsNewest(rows, x.0, first.since);
    ExactIsNewest(oy, x.0, first.since);
    OwnAfter(rows, first, x.0, first.since);
    OwnAfter(ox, SecondRow(rows, tx, ty), x.0, first.since);
    OwnAfter(oy, second, x.0, first.since);
  }

  function Others(overs: seq<Named>, i: nat): seq<Named>
    requires i < |overs|
  {
    overs[..i] + overs[i + 1..]
  }

  lemma RestIsDistinct(overs: seq<Named>, i: nat)
    requires DistinctModels(overs) && i < |overs|
    ensures DistinctModels(Others(overs, i)) && NotAmong(Others(overs, i), overs[i].0)
  {
    var rest := Others(overs, i);
    assert forall k :: 0 <= k < |rest| ==> rest[k] == overs[if k < i then k else k + 1];
  }

  lemma RestHasOthers(overs: seq<Named>, i: nat, j: nat)
    requires i < |overs| && j < |overs| && i != j
    ensures exists k :: 0 <= k < |Others(overs, i)| && Others(overs, i)[k] == overs[j]
  {
    assert Others(overs, i)[if j < i then j else j - 1] == overs[j];
  }

  lemma TwoInFront(x: Named, y: Named, rest: seq<Named>)
    ensures multiset([x, y] + rest) == multiset{x, y} + multiset(rest)
  {
    assert multiset([x, y]) == multiset{x, y};
  }

  lemma TakesOut(overs: seq<Named>, i: nat)
    requires i < |overs|
    ensures multiset(overs) == multiset{overs[i]} + multiset(Others(overs, i))
    ensures forall z :: z in Others(overs, i) ==> z in overs
  {
    MultisetWithout(overs, i);
    assert overs[i] in multiset(overs);
  }

  lemma WithoutTwo(overs: seq<Named>, i: nat, j: nat) returns (rest: seq<Named>)
    requires DistinctModels(overs) && i < |overs| && j < |overs| && i != j
    ensures IsOrder([overs[i], overs[j]] + rest, overs) && IsOrder([overs[j], overs[i]] + rest, overs)
    ensures NotAmong(rest, overs[i].0) && NotAmong(rest, overs[j].0)
  {
    var x, y, one := overs[i], overs[j], Others(overs, i);
    TakesOut(overs, i);
    RestIsDistinct(overs, i);
    RestHasOthers(overs, i, j);
    var k :| 0 <= k < |one| && one[k] == y;
    rest := Others(one, k);
    TakesOut(one, k);
    RestIsDistinct(one, k);
    TwoInFront(x, y, rest);
    TwoInFront(y, x, rest);
    assert multiset{x} + (multiset{y} + multiset(rest)) == multiset{x, y} + multiset(rest);
  }

  lemma PricedAtItsDate(rows: seq<Price>, x: Named, y: Named, rest: seq<Named>, now: int)
    requires x.0 != y.0 && NotAmong(rest, x.0)
    ensures
      var first, second := FirstRow(rows, AsTimed(x, now)), SecondRow(rows, AsTimed(y, now), AsTimed(x, now));
      && Lookup(ApplyAll(rows, [x, y] + rest, AtOnce(now)), x.0, first.since) == Some(first)
      && Lookup(ApplyAll(rows, [y, x] + rest, AtOnce(now)), x.0, first.since) == Some(second)
  {
    var at := FirstRow(rows, AsTimed(x, now)).since;
    OwnRowAtItsDate(rows, x, y, now);
    OnlyTheFirstTwo(rows, x, y, rest, now, x.0, at);
    OnlyTheFirstTwo(rows, y, x, rest, now, x.0, at);
  }

  lemma OrdersAgreeAt(
      rows: seq<Price>, overs: seq<Named>, now: int, a: seq<Named>, b: seq<Named>, model: string, at: int)
    requires AllOrdersAgree(rows, overs, now) && IsOrder(a, overs) && IsOrder(b, overs)
    ensures Lookup(ApplyAll(rows, a, AtOnce(now)), model, at) == Lookup(ApplyAll(rows, b, AtOnce(now)), model, at)
  {
    assert SamePrices(ApplyAll(rows, a, AtOnce(now)), ApplyAll(rows, b, AtOnce(now)));
  }

  lemma DependentOrdersDiffer(rows: seq<Price>, overs: seq<Named>, now: int, i: nat, j: nat)
    requires DistinctModels(overs) && i < |overs| && j < |overs| && i != j
    requires AllOrdersAgree(rows, overs, now)
    ensures Independent(rows, overs[i], overs[j], now)
  {
    var x, y := overs[i], overs[j];
    var rest := WithoutTwo(overs, i, j);
    assert x.0 != y.0;
    PricedAtItsDate(rows, x, y, rest, now);
    OrdersAgreeAt(rows, overs, now, [x, y] + rest, [y, x] + rest, x.0, FirstRow(rows, AsTimed(x, now)).since);
    SecondRowIs(rows, AsTimed(y, now), AsTimed(x, now));
  }

  // Overrides of distinct models, applied at one time, give the same prices in every order, for
  // every model and instant, exactly when each of them adds the same row with and without the row
  // of each other one.
  lemma AllOrdersAgreeExactly(rows: seq<Price>, overs: seq<Named>, now: int)
    requires DistinctModels(overs)
    ensures AllOrdersAgree(rows, overs, now) <==> AllIndependent(rows, overs, now)
  {
    if AllIndependent(rows, overs, now) {
      forall a, b | IsOrder(a, overs) && IsOrder(b, overs)
        ensures SamePrices(ApplyAll(rows, a, AtOnce(now)), ApplyAll(rows, b, AtOnce(now)))
      {
        IndependentOrdersAgree(rows, overs, now, a, b);
      }
    }
    if AllOrdersAgree(rows, overs, now) {
      forall i, j | 0 <= i < |overs| && 0 <= j < |overs| && i != j
        ensures Independent(rows, overs[i], overs[j], now)
      {
        DependentOrdersDiffer(rows, overs, now, i, j);
      }
    }
  }
}
