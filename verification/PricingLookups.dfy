// What a lookup finds and what it cannot depend on (crates/repomon-core/src/pricing.rs:220-312).
module PricingLookups {
  import opened Prelude
  import opened Pricing

  lemma SameLength(a: string, b: string, m: string)
    requires a <= m && b <= m && |a| == |b|
    ensures a == b
  {
    assert a == m[..|a|] && b == m[..|b|];
  }

  // ---------------------------------------------------------------- by exact id

  // The row found by exact id is effective, of that id and as new as any such row; none is found
  // exactly when there is no effective row of that id.
  lemma {:induction false} ExactIsNewest(rows: seq<Price>, model: string, at: int)
    ensures
      var best := ExactMatch(rows, model, at);
      && (best.None? ==> forall r :: r in rows && r.model == model ==> !Effective(r, at))
      && (best.Some? ==>
            && best.value in rows && best.value.model == model && Effective(best.value, at)
            && (forall r :: r in rows && r.model == model && Effective(r, at) ==> r.since <= best.value.since))
  {
    if rows != [] {
      ExactIsNewest(rows[..|rows| - 1], model, at);
      assert rows == rows[..|rows| - 1] + [rows[|rows| - 1]];
    }
  }

  // ---------------------------------------------------------------- by prefix

  predicate Qualifies(r: Price, model: string, at: int) { Effective(r, at) && r.model <= model }

  // Of rows of one model: the newest effective one, and of rows of the same instant the first.
  function First(rows: seq<Price>, model: string, at: int): Option<Price> {
    if rows == [] then None
    else
      var best, r := First(rows[..|rows| - 1], model, at), rows[|rows| - 1];
      if r.model == model && Effective(r, at) && (best.None? || best.value.since < r.since) then Some(r)
      else best
  }

  lemma {:induction false} FirstIsNewest(rows: seq<Price>, model: string, at: int)
    ensures
      var best := First(rows, model, at);
      && (best.None? ==> forall r :: r in rows && r.model == model ==> !Effective(r, at))
      && (best.Some? ==>
            && best.value in rows && best.value.model == model && Effective(best.value, at)
            && (forall r :: r in rows && r.model == model && Effective(r, at) ==> r.since <= best.value.since))
  {
    if rows != [] {
      FirstIsNewest(rows[..|rows| - 1], model, at);
      assert rows == rows[..|rows| - 1] + [rows[|rows| - 1]];
    }
  }

  // `best` is the first row of its model, which is the longest prefix that has any.
  ghost predicate LongestFirst(best: Option<Price>, rows: seq<Price>, model: string, at: int) {
    && (best.None? ==> forall p {:trigger First(rows, p, at)} :: p <= model ==> First(rows, p, at).None?)
    && (best.Some? ==>
          && best.value.model <= model && First(rows, best.value.model, at) == best
          && (forall p {:trigger First(rows, p, at)} ::
                p <= model && |p| > |best.value.model| ==> First(rows, p, at).None?))
  }

  // The one-pass search with a best row so far finds the longest effective prefix and of its
  // rows the newest.
  lemma {:induction false} PrefixIsLongestFirst(rows: seq<Price>, model: string, at: int)
    ensures LongestFirst(PrefixMatch(rows, model, at), rows, model, at)
  {
    if rows != [] {
      var rest, r := rows[..|rows| - 1], rows[|rows| - 1];
      var best := PrefixMatch(rest, model, at);
      PrefixIsLongestFirst(rest, model, at);
      if Qualifies(r, model, at) && best.Some? && |r.model| == |best.value.model| {
        SameLength(r.model, best.value.model, model);
      }
      OneMoreRow(rest, r, model, at);
      assert rows == rest + [r];
    }
  }

  lemma OneMoreRow(rest: seq<Price>, r: Price, model: string, at: int)
    requires LongestFirst(PrefixMatch(rest, model, at), rest, model, at)
    ensures LongestFirst(PrefixMatch(rest + [r], model, at), rest + [r], model, at)
  {
    var rows, best := rest + [r], PrefixMatch(rest, model, at);
    assert rows[..|rows| - 1] == rest;
    forall p ensures First(rows, p, at)
                     == if r.model == p && Effective(r, at)
                           && (First(rest, p, at).None? || First(rest, p, at).value.since < r.since)
                        then Some(r) else First(rest, p, at) {}
    assert First(rest, r.model, at).None? || First(rest, r.model, at).Some?;
    if Qualifies(r, model, at) && best.Some? && |r.model| == |best.value.model| {
      SameLength(r.model, best.value.model, model);
    }
  }

  // What is found by prefix: an effective row whose model is a prefix, no shorter than any other
  // such model and as new as any row of its own; none exactly when no effective row qualifies.
  lemma PrefixIsLongestThenNewest(rows: seq<Price>, model: string, at: int)
    ensures
      var best := PrefixMatch(rows, model, at);
      && (best.None? ==> forall r :: r in rows ==> !Qualifies(r, model, at))
      && (best.Some? ==>
            && best.value in rows && Qualifies(best.value, model, at)
            && (forall r :: r in rows && Qualifies(r, model, at) ==>
                  || |r.model| < |best.value.model|
                  || (r.model == best.value.model && r.since <= best.value.since)))
  {
    var best := PrefixMatch(rows, model, at);
    PrefixIsLongestFirst(rows, model, at);
    if best.Some? { FirstIsNewest(rows, best.value.model, at); }
    forall r | r in rows && Qualifies(r, model, at)
      ensures best.Some? &&
              (|r.model| < |best.value.model|
               || (r.model == best.value.model && r.since <= best.value.since))
    {
      FirstIsNewest(rows, r.model, at);
      if best.Some? && |r.model| == |best.value.model| { SameLength(r.model, best.value.model, model); }
    }
  }

  // ---------------------------------------------------------------- what a lookup depends on

  // Tables that agree on the first and the last newest row of every model.
  ghost predicate SameRows(a: seq<Price>, b: seq<Price>, at: int) {
    && (forall p :: First(a, p, at) == First(b, p, at))
    && (forall p :: ExactMatch(a, p, at) == ExactMatch(b, p, at))
  }

  lemma FoundInBoth(a: seq<Price>, b: seq<Price>, model: string, at: int)
    requires (forall p :: First(a, p, at) == First(b, p, at)) && PrefixMatch(a, model, at).Some?
    ensures PrefixMatch(b, model, at).Some?
    ensures |PrefixMatch(a, model, at).value.model| <= |PrefixMatch(b, model, at).value.model|
  {
    PrefixIsLongestFirst(a, model, at);
    PrefixIsLongestFirst(b, model, at);
    assert First(b, PrefixMatch(a, model, at).value.model, at).Some?;
  }

  lemma SamePrefixMatch(a: seq<Price>, b: seq<Price>, model: string, at: int)
    requires forall p :: First(a, p, at) == First(b, p, at)
    ensures PrefixMatch(a, model, at) == PrefixMatch(b, model, at)
  {
    PrefixIsLongestFirst(a, model, at);
    PrefixIsLongestFirst(b, model, at);
    if PrefixMatch(a, model, at).Some? {
      FoundInBoth(a, b, model, at);
      FoundInBoth(b, a, model, at);
      SameLength(PrefixMatch(a, model, at).value.model, PrefixMatch(b, model, at).value.model, model);
    } else if PrefixMatch(b, model, at).Some? {
      FoundInBoth(b, a, model, at);
    }
  }

  lemma SameLookup(a: seq<Price>, b: seq<Price>, model: string, at: int)
    requires SameRows(a, b, at)
    ensures Lookup(a, model, at) == Lookup(b, model, at)
  {
    SamePrefixMatch(a, b, model, at);
    var alias := ResolveAlias(model);
    if alias.Some? { SamePrefixMatch(a, b, alias.value, at); }
  }

  // The rows of one model, in their order.
  function RowsOf(rows: seq<Price>, model: string): seq<Price> {
    if rows == [] then []
    else
      RowsOf(rows[..|rows| - 1], model)
      + if rows[|rows| - 1].model == model then [rows[|rows| - 1]] else []
  }

  lemma {:induction false} ByModel(rows: seq<Price>, model: string, at: int)
    ensures First(rows, model, at) == First(RowsOf(rows, model), model, at)
    ensures ExactMatch(rows, model, at) == ExactMatch(RowsOf(rows, model), model, at)
    ensures Newest(rows, model) == Newest(RowsOf(rows, model), model)
  {
    if rows != [] {
      var rest, r := rows[..|rows| - 1], rows[|rows| - 1];
      ByModel(rest, model, at);
      if r.model == model {
        assert RowsOf(rows, model)[..|RowsOf(rows, model)| - 1] == RowsOf(rest, model);
      } else {
        assert RowsOf(rows, model) == RowsOf(rest, model);
      }
    }
  }

  // Only the order of rows of the same model matters: tables that have every model's rows in the
  // same order price every model alike at all times.
  lemma OnlyOwnOrderMatters(a: seq<Price>, b: seq<Price>, model: string, at: int)
    requires forall p :: RowsOf(a, p) == RowsOf(b, p)
    ensures Lookup(a, model, at) == Lookup(b, model, at)
  {
    forall p ensures First(a, p, at) == First(b, p, at) && ExactMatch(a, p, at) == ExactMatch(b, p, at) {
      ByModel(a, p, at);
      ByModel(b, p, at);
    }
    SameLookup(a, b, model, at);
  }

  // The rows that are effective by `at`.
  function Past(rows: seq<Price>, at: int): seq<Price> {
    if rows == [] then []
    else
      Past(rows[..|rows| - 1], at) + if Effective(rows[|rows| - 1], at) then [rows[|rows| - 1]] else []
  }

  lemma {:induction false} PastSuffices(rows: seq<Price>, model: string, at: int, to: int)
    requires at <= to
    ensures First(rows, model, at) == First(Past(rows, to), model, at)
    ensures ExactMatch(rows, model, at) == ExactMatch(Past(rows, to), model, at)
  {
    if rows != [] {
      var rest, r := rows[..|rows| - 1], rows[|rows| - 1];
      PastSuffices(rest, model, at, to);
      if Effective(r, to) {
        assert Past(rows, to)[..|Past(rows, to)| - 1] == Past(rest, to);
      } else {
        assert Past(rows, to) == Past(rest, to);
      }
    }
  }

  // History cannot change: tables with the same rows up to an instant price everything alike up
  // to that instant, whatever they hold after it.
  lemma LaterRowsDoNotMatter(a: seq<Price>, b: seq<Price>, to: int, model: string, at: int, t: Tokens)
    requires Past(a, to) == Past(b, to) && at <= to
    ensures Lookup(a, model, at) == Lookup(b, model, at)
    ensures Cost(a, model, at, t) == Cost(b, model, at, t)
  {
    forall p ensures First(a, p, at) == First(b, p, at) && ExactMatch(a, p, at) == ExactMatch(b, p, at) {
      PastSuffices(a, p, at, to);
      PastSuffices(b, p, at, to);
    }
    SameLookup(a, b, model, at);
  }

  lemma LaterInsertDoesNotMatter(rows: seq<Price>, r: Price, model: string, at: int, t: Tokens)
    requires at < r.since
    ensures Lookup(rows + [r], model, at) == Lookup(rows, model, at)
    ensures Cost(rows + [r], model, at, t) == Cost(rows, model, at, t)
  {
    assert (rows + [r])[..|rows|] == rows;
    assert Past(rows + [r], at) == Past(rows, at);
    LaterRowsDoNotMatter(rows + [r], rows, at, model, at, t);
  }

  // ---------------------------------------------------------------- prefix against exact

  // Two rows of one model for one instant.
  predicate Twins(a: Price, b: Price) { a.model == b.model && a.since == b.since }

  ghost predicate IsFirst(rows: seq<Price>, i: nat)
    requires i < |rows|
  {
    forall k :: 0 <= k < i ==> !Twins(rows[k], rows[i])
  }

  ghost predicate IsLast(rows: seq<Price>, j: nat)
    requires j < |rows|
  {
    forall k :: j < k < |rows| ==> !Twins(rows[k], rows[j])
  }

  // Of the rows of one model for one instant, the first in the table and the last are equal.
  ghost predicate NoClash(rows: seq<Price>) {
    forall i, j :: 0 <= i < |rows| && 0 <= j < |rows| && Twins(rows[i], rows[j]) ==>
      IsFirst(rows, i) && IsLast(rows, j) ==> rows[i] == rows[j]
  }

  lemma {:induction false} FirstIsFirst(rows: seq<Price>, model: string, at: int) returns (i: nat)
    requires First(rows, model, at).Some?
    ensures i < |rows| && rows[i] == First(rows, model, at).value && IsFirst(rows, i)
  {
    var rest, r := rows[..|rows| - 1], rows[|rows| - 1];
    var best := First(rest, model, at);
    FirstIsNewest(rest, model, at);
    if best.Some? && First(rows, model, at) == best {
      i := FirstIsFirst(rest, model, at);
    } else {
      i := |rest|;
      forall k | 0 <= k < i ensures !Twins(rows[k], rows[i]) { assert rest[k] in rest; }
    }
  }

  lemma {:induction false} ExactIsLast(rows: seq<Price>, model: string, at: int) returns (j: nat)
    requires ExactMatch(rows, model, at).Some?
    ensures j < |rows| && rows[j] == ExactMatch(rows, model, at).value && IsLast(rows, j)
  {
    var rest, r := rows[..|rows| - 1], rows[|rows| - 1];
    var best := ExactMatch(rest, model, at);
    if r.model == model && Effective(r, at) && (best.None? || best.value.since <= r.since) {
      j := |rest|;
    } else {
      ExactIsNewest(rest, model, at);
      j := ExactIsLast(rest, model, at);
    }
  }

  // Without a clash, the row that the search by prefix takes of a model is the one found by exact id.
  lemma NoClashAt(rows: seq<Price>, model: string, at: int)
    requires NoClash(rows)
    ensures First(rows, model, at) == ExactMatch(rows, model, at)
  {
    FirstIsNewest(rows, model, at);
    ExactIsNewest(rows, model, at);
    if First(rows, model, at).Some? {
      var i := FirstIsFirst(rows, model, at);
      var j := ExactIsLast(rows, model, at);
      assert Twins(rows[i], rows[j]);
    }
  }

  // At a row's own date the two are the first and the last of its twins.
  lemma TwinsAtTheirDate(rows: seq<Price>, i: nat, j: nat)
    requires i < |rows| && j < |rows| && Twins(rows[i], rows[j]) && IsFirst(rows, i) && IsLast(rows, j)
    ensures First(rows, rows[i].model, rows[i].since) == Some(rows[i])
    ensures ExactMatch(rows, rows[i].model, rows[i].since) == Some(rows[j])
  {
    var model, at := rows[i].model, rows[i].since;
    FirstIsNewest(rows, model, at);
    ExactIsNewest(rows, model, at);
    assert rows[i] in rows && rows[j] in rows;
    var h := FirstIsFirst(rows, model, at);
    var k := ExactIsLast(rows, model, at);
    assert h == i by { assert Twins(rows[h], rows[i]); }
    assert k == j by { assert Twins(rows[k], rows[j]); }
  }

  // The row found by prefix, if any, is also the one found by its exact id.
  ghost predicate Agrees(rows: seq<Price>, model: string, at: int) {
    var found := PrefixMatch(rows, model, at);
    found.Some? ==> ExactMatch(rows, found.value.model, at) == found
  }

  lemma NoClashAgrees(rows: seq<Price>, model: string, at: int)
    requires NoClash(rows)
    ensures Agrees(rows, model, at)
  {
    PrefixIsLongestFirst(rows, model, at);
    if PrefixMatch(rows, model, at).Some? { NoClashAt(rows, PrefixMatch(rows, model, at).value.model, at); }
  }

  lemma AgreesHasNoClash(rows: seq<Price>, i: nat, j: nat)
    requires i < |rows| && j < |rows| && Twins(rows[i], rows[j]) && IsFirst(rows, i) && IsLast(rows, j)
    requires Agrees(rows, rows[i].model, rows[i].since)
    ensures rows[i] == rows[j]
  {
    var model, at := rows[i].model, rows[i].since;
    PrefixIsLongestFirst(rows, model, at);
    TwinsAtTheirDate(rows, i, j);
    SameLength(PrefixMatch(rows, model, at).value.model, model, model);
  }

  // That holds for every model and time exactly when there is no clash: when of the rows of one
  // model for one instant, the first in the table and the last are equal.
  lemma PrefixAgreesWithExact(rows: seq<Price>)
    ensures NoClash(rows) <==> forall model, at :: Agrees(rows, model, at)
  {
    if NoClash(rows) {
      forall model, at ensures Agrees(rows, model, at) { NoClashAgrees(rows, model, at); }
    }
    if forall model, at :: Agrees(rows, model, at) {
      forall i, j | 0 <= i < |rows| && 0 <= j < |rows| && Twins(rows[i], rows[j]) && IsFirst(rows, i) && IsLast(rows, j)
        ensures rows[i] == rows[j]
      {
        AgreesHasNoClash(rows, i, j);
      }
    }
  }

  // When no model has two rows for one instant there is no clash.
  lemma DistinctRowsDoNotClash(rows: seq<Price>)
    requires forall i, j :: 0 <= i < j < |rows| ==> !Twins(rows[i], rows[j])
    ensures NoClash(rows) && forall model, at :: Agrees(rows, model, at)
  {
    PrefixAgreesWithExact(rows);
  }

  // ---------------------------------------------------------------- lookups

  // A model is priced exactly when some effective row is a prefix of it, or of the name it is an
  // alias of; an exact row always wins, and a row for the alias wins over the model's own family.
  lemma PricedExactly(rows: seq<Price>, model: string, at: int)
    ensures
      Lookup(rows, model, at).Some? <==>
      exists r :: r in rows && (Qualifies(r, model, at)
                                || (ResolveAlias(model).Some? && Qualifies(r, ResolveAlias(model).value, at)))
    ensures ExactMatch(rows, model, at).Some? ==> Lookup(rows, model, at) == ExactMatch(rows, model, at)
    ensures
      var alias := ResolveAlias(model);
      && ExactMatch(rows, model, at).None? && alias.Some? && alias.value != model
      && (exists r :: r in rows && Qualifies(r, alias.value, at))
      ==> Lookup(rows, model, at).Some? && Qualifies(Lookup(rows, model, at).value, alias.value, at)
          && (forall r :: r in rows && Qualifies(r, alias.value, at) ==>
                || |r.model| < |Lookup(rows, model, at).value.model|
                || (r.model == Lookup(rows, model, at).value.model
                    && r.since <= Lookup(rows, model, at).value.since))
  {
    ExactIsNewest(rows, model, at);
    PrefixIsLongestThenNewest(rows, model, at);
    var alias := ResolveAlias(model);
    if alias.Some? {
      ExactIsNewest(rows, alias.value, at);
      PrefixIsLongestThenNewest(rows, alias.value, at);
    }
  }
}
