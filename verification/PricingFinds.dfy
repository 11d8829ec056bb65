// Which row of the table a lookup finds, by its place in the table, and what it makes a model cost
// (crates/repomon-core/src/pricing.rs:160-312).
module PricingFinds {
  import opened Prelude
  import opened Pricing
  import opened PricingLookups
  import opened PricingOverrides
  import opened PricingTable

  // ---------------------------------------------------------------- by place

  // Row `k` is of exactly this model, has begun, and every other such row is older, or as old and
  // before it in the table.
  ghost predicate ById(rows: seq<Price>, k: nat, model: string, at: int)
    requires k < |rows|
  {
    && rows[k].model == model && rows[k].since <= at
    && forall j :: 0 <= j < |rows| && rows[j].model == model && rows[j].since <= at ==>
         rows[j].since < rows[k].since || (rows[j].since == rows[k].since && j <= k)
  }

  // Row `k` is of a family of the model, has begun, and every other such row is of a shorter family,
  // or older, or as old and after it in the table.
  ghost predicate ByFamily(rows: seq<Price>, k: nat, model: string, at: int)
    requires k < |rows|
  {
    && rows[k].model <= model && rows[k].since <= at
    && forall j :: 0 <= j < |rows| && rows[j].model <= model && rows[j].since <= at ==>
         || |rows[j].model| < |rows[k].model|
         || (rows[j].model == rows[k].model
             && (rows[j].since < rows[k].since || (rows[j].since == rows[k].since && k <= j)))
  }

  ghost predicate HasId(rows: seq<Price>, model: string, at: int) {
    exists r :: r in rows && r.model == model && r.since <= at
  }

  ghost predicate HasFamily(rows: seq<Price>, model: string, at: int) {
    exists r :: r in rows && r.model <= model && r.since <= at
  }

  // The names that stand for another one.
  ghost predicate StandsFor(model: string, name: string) {
    || (model == "claude-mythos-5-1" && name == "claude-mythos-5")
    || (model == "codex-auto-review" && name == "gpt-5-codex")
    || (model == "gemini-3.8-flash-tiered" && name == "gemini-3.8-flash")
  }

  ghost predicate IsFree(model: string) { exists stem :: model == stem + "-free" }

  lemma {:induction false} ExactIsById(rows: seq<Price>, model: string, at: int) returns (k: nat)
    requires ExactMatch(rows, model, at).Some?
    ensures k < |rows| && ExactMatch(rows, model, at) == Some(rows[k]) && ById(rows, k, model, at)
  {
    var rest, r := rows[..|rows| - 1], rows[|rows| - 1];
    assert rows == rest + [r];
    ExactIsNewest(rest, model, at);
    assert forall j :: 0 <= j < |rest| ==> rows[j] in rest;
    if ExactMatch(rows, model, at) == Some(r) && r.model == model && Effective(r, at)
       && (ExactMatch(rest, model, at).None? || ExactMatch(rest, model, at).value.since <= r.since) {
      k := |rest|;
    } else {
      k := ExactIsById(rest, model, at);
    }
  }

  lemma {:induction false} PrefixIsByFamily(rows: seq<Price>, model: string, at: int) returns (k: nat)
    requires PrefixMatch(rows, model, at).Some?
    ensures k < |rows| && PrefixMatch(rows, model, at) == Some(rows[k]) && ByFamily(rows, k, model, at)
  {
    var rest, r := rows[..|rows| - 1], rows[|rows| - 1];
    assert rows == rest + [r];
    PrefixIsLongestThenNewest(rest, model, at);
    assert forall j :: 0 <= j < |rest| ==> rows[j] in rest;
    if Effective(r, at) && r.model <= model && Better(r, PrefixMatch(rest, model, at)) {
      k := |rest|;
      if PrefixMatch(rest, model, at).Some? && |r.model| == |PrefixMatch(rest, model, at).value.model| {
        SameLength(r.model, PrefixMatch(rest, model, at).value.model, model);
      }
    } else {
      k := PrefixIsByFamily(rest, model, at);
      if r.model <= model && |r.model| == |rows[k].model| { SameLength(r.model, rows[k].model, model); }
    }
  }

  lemma AliasStandsFor(model: string, name: string)
    ensures ResolveAlias(model) == Some(name) && name != model <==> StandsFor(model, name)
  {
    Listed(ALIASES, model);
    assert |ALIASES| == 6;
    assert ALIASES[0] == ("claude-mythos-5-1", "claude-mythos-5");
    assert ALIASES[1] == ("codex-auto-review", "gpt-5-codex");
    assert ALIASES[2] == ("gemini-3.8-flash-tiered", "gemini-3.8-flash");
    assert ALIASES[3] == ("claude-fable-5-1", "claude-fable-5-1");
    assert ALIASES[4] == ("gpt-5.6-sol", "gpt-5.6-sol");
    assert ALIASES[5] == ("gpt-5.6-luna", "gpt-5.6-luna");
    Apart();
  }

  lemma Apart()
    ensures "claude-mythos-5-1" != "codex-auto-review" && "claude-mythos-5-1" != "gemini-3.8-flash-tiered"
    ensures "codex-auto-review" != "gemini-3.8-flash-tiered"
    ensures "claude-mythos-5" != "claude-mythos-5-1" && "gpt-5-codex" != "codex-auto-review"
    ensures "gemini-3.8-flash" != "gemini-3.8-flash-tiered"
  {
    assert "codex-auto-review"[1] != "claude-mythos-5-1"[1];
    assert "codex-auto-review"[0] != "gemini-3.8-flash-tiered"[0];
    assert "claude-mythos-5-1"[0] != "gemini-3.8-flash-tiered"[0];
  }

  // The first entry with the model's name decides.
  lemma {:induction false} Listed(aliases: seq<(string, string)>, model: string)
    ensures
      match Find(aliases, model)
      case None => forall i :: 0 <= i < |aliases| ==> aliases[i].0 != model
      case Some(name) =>
        exists i :: 0 <= i < |aliases| && aliases[i] == (model, name)
                    && forall h :: 0 <= h < i ==> aliases[h].0 != model
  {
    if aliases != [] && aliases[0].0 != model {
      Listed(aliases[1..], model);
      if Find(aliases, model).Some? {
        var i :| 0 <= i < |aliases| - 1 && aliases[1..][i] == (model, Find(aliases, model).value)
                 && forall h :: 0 <= h < i ==> aliases[1..][h].0 != model;
        forall h | 0 <= h < i + 1 ensures aliases[h].0 != model {
          if h > 0 { assert aliases[1..][h - 1].0 != model; }
        }
        assert aliases[i + 1] == (model, Find(aliases, model).value);
      } else {
        forall i | 0 <= i < |aliases| ensures aliases[i].0 != model {
          if i > 0 { assert aliases[1..][i - 1].0 != model; }
        }
      }
    }
  }

  // ---------------------------------------------------------------- lookups

  ghost predicate HasAlias(rows: seq<Price>, model: string, at: int) {
    exists name :: StandsFor(model, name) && HasFamily(rows, name, at)
  }

  // Row `k` is the model's own, or else that of the name it stands for or of that name's family, or
  // else that of its own family.
  ghost predicate IsChosen(rows: seq<Price>, k: nat, model: string, at: int)
    requires k < |rows|
  {
    if HasId(rows, model, at) then ById(rows, k, model, at)
    else if HasAlias(rows, model, at) then
      exists name :: StandsFor(model, name) &&
        if HasId(rows, name, at) then ById(rows, k, name, at) else ByFamily(rows, k, name, at)
    else ByFamily(rows, k, model, at)
  }

  lemma HasExactly(rows: seq<Price>, model: string, at: int)
    ensures ExactMatch(rows, model, at).Some? <==> HasId(rows, model, at)
    ensures PrefixMatch(rows, model, at).Some? <==> HasFamily(rows, model, at)
    ensures HasId(rows, model, at) ==> HasFamily(rows, model, at)
  {
    ExactIsNewest(rows, model, at);
    PrefixIsLongestThenNewest(rows, model, at);
    if PrefixMatch(rows, model, at).Some? { assert Qualifies(PrefixMatch(rows, model, at).value, model, at); }
    if r :| r in rows && r.model <= model && r.since <= at { assert Qualifies(r, model, at); }
  }

  // By id, or else by family.
  lemma FoundUnder(rows: seq<Price>, name: string, at: int) returns (k: nat)
    requires HasFamily(rows, name, at)
    ensures k < |rows| && Or(ExactMatch(rows, name, at), PrefixMatch(rows, name, at)) == Some(rows[k])
    ensures if HasId(rows, name, at) then ById(rows, k, name, at) else ByFamily(rows, k, name, at)
  {
    HasExactly(rows, name, at);
    if HasId(rows, name, at) { k := ExactIsById(rows, name, at); } else { k := PrefixIsByFamily(rows, name, at); }
  }

  // What a lookup finds; none exactly when no row that has begun is of the model's family or of that
  // of the name it stands for.
  lemma FoundExactly(rows: seq<Price>, model: string, at: int)
    ensures
      match Lookup(rows, model, at)
      case Some(p) => exists k: nat :: k < |rows| && rows[k] == p && IsChosen(rows, k, model, at)
      case None => !HasFamily(rows, model, at) && !HasAlias(rows, model, at)
  {
    HasExactly(rows, model, at);
    var alias := ResolveAlias(model);
    forall name ensures alias == Some(name) && name != model <==> StandsFor(model, name) {
      AliasStandsFor(model, name);
    }
    if alias.Some? && alias.value != model { HasExactly(rows, alias.value, at); }
    if HasId(rows, model, at) {
      var k := ExactIsById(rows, model, at);
      assert IsChosen(rows, k, model, at);
    } else if HasAlias(rows, model, at) {
      var k := FoundUnder(rows, alias.value, at);
      assert StandsFor(model, alias.value);
      assert IsChosen(rows, k, model, at);
    } else if HasFamily(rows, model, at) {
      assert alias.Some? && alias.value != model ==> StandsFor(model, alias.value);
      var k := PrefixIsByFamily(rows, model, at);
      assert IsChosen(rows, k, model, at);
    }
  }

  // Without a row a model costs nothing when its name ends in -free, and has no price otherwise.
  lemma UnpricedExactly(rows: seq<Price>, model: string, at: int, t: Tokens)
    ensures Cost(rows, model, at, t).None? <==> Lookup(rows, model, at).None? && !IsFree(model)
    ensures Lookup(rows, model, at).None? && IsFree(model) ==> Cost(rows, model, at, t) == Some(0.0)
  {
    if IsFreeTier(model) { assert model == model[..|model| - 5] + "-free"; }
    if stem :| model == stem + "-free" { assert model[|model| - 5..] == "-free"; }
  }

  // ---------------------------------------------------------------- what an override costs

  // Once it has begun and until a newer row of its model does, an override is what its model costs:
  // for each kind of token its own rate, or else that of the newest row of the model at any time, or
  // else that of what a lookup found when it was applied, or else nothing. It begins at its own date,
  // or else at that of the newest row, or else at the beginning.
  lemma OverriddenCosts(rows: seq<Price>, model: string, over: PriceOverride, now: int, at: int)
    requires
      var begins :=
        match (over.since, Newest(rows, model))
        case (Some(date), _) => date
        case (None, Some(p)) => p.since
        case (None, None) => 0;
      && begins <= at
      && (forall r :: r in rows && r.model == model && begins < r.since ==> at < r.since)
    ensures
      var after := ApplyOne(rows, model, over, now);
      var found := if Newest(rows, model).Some? then Newest(rows, model) else Lookup(rows, model, now);
      var base := if found.Some? then Some(found.value.rates) else None;
      var million := 1_000_000;
      && Cost(after, model, at, Tokens(million, 0, 0, 0))
         == Some(if over.input.Some? then over.input.value else if base.Some? then base.value.input else 0.0)
      && Cost(after, model, at, Tokens(0, million, 0, 0))
         == Some(if over.output.Some? then over.output.value else if base.Some? then base.value.output else 0.0)
      && Cost(after, model, at, Tokens(0, 0, million, 0))
         == Some(if over.cacheRead.Some? then over.cacheRead.value
                 else if base.Some? then base.value.cacheRead else 0.0)
      && Cost(after, model, at, Tokens(0, 0, 0, million))
         == Some(if over.cacheWrite.Some? then over.cacheWrite.value
                 else if base.Some? then base.value.cacheWrite else 0.0)
  {
    OverrideWins(rows, model, over, now, at);
    MillionTokensCostTheRate(ApplyOne(rows, model, over, now), model, at);
  }
}
