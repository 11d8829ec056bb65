// Time-effective model prices (crates/repomon-core/src/pricing.rs). Prices are reals, instants are
// integers.
module Pricing {
  import opened Prelude

  datatype Source = Builtin | Litellm | Override

  datatype Rates = Rates(input: real, output: real, cacheRead: real, cacheWrite: real)

  // A model's rates from an instant on. The model is an exact id or a family's prefix.
  datatype Price = Price(model: string, rates: Rates, since: int, source: Source)

  datatype PriceOverride = PriceOverride(
    input: Option<real>, output: Option<real>, cacheRead: Option<real>, cacheWrite: Option<real>,
    since: Option<int>)

  datatype Tokens = Tokens(input: nat, output: nat, cacheRead: nat, cacheWrite: nat)

  // ---------------------------------------------------------------- lookups

  predicate Effective(r: Price, at: int) { r.since <= at }

  // The newest effective row of exactly this model; of rows of the same instant, the last.
  function ExactMatch(rows: seq<Price>, model: string, at: int): Option<Price> {
    if rows == [] then None
    else
      var best, r := ExactMatch(rows[..|rows| - 1], model, at), rows[|rows| - 1];
      if r.model == model && Effective(r, at) && (best.None? || best.value.since <= r.since) then Some(r)
      else best
  }

  // A longer model beats a shorter one, and of the same model a newer row beats an older one.
  predicate Better(r: Price, best: Option<Price>) {
    best.None?
    || |r.model| > |best.value.model|
    || (|r.model| == |best.value.model| && r.since > best.value.since)
  }

  function PrefixMatch(rows: seq<Price>, model: string, at: int): Option<Price> {
    if rows == [] then None
    else
      var best, r := PrefixMatch(rows[..|rows| - 1], model, at), rows[|rows| - 1];
      if Effective(r, at) && r.model <= model && Better(r, best) then Some(r) else best
  }

  const ALIASES: seq<(string, string)> := [
    ("claude-mythos-5-1", "claude-mythos-5"),
    ("codex-auto-review", "gpt-5-codex"),
    ("gemini-3.8-flash-tiered", "gemini-3.8-flash"),
    ("claude-fable-5-1", "claude-fable-5-1"),
    ("gpt-5.6-sol", "gpt-5.6-sol"),
    ("gpt-5.6-luna", "gpt-5.6-luna")]

  function Find(aliases: seq<(string, string)>, model: string): Option<string> {
    if aliases == [] then None
    else if aliases[0].0 == model then Some(aliases[0].1)
    else Find(aliases[1..], model)
  }

  function ResolveAlias(model: string): Option<string> { Find(ALIASES, model) }

  function Or(a: Option<Price>, b: Option<Price>): Option<Price> { if a.Some? then a else b }

  function AliasMatch(rows: seq<Price>, model: string, at: int): Option<Price> {
    var alias := ResolveAlias(model);
    if alias.Some? && alias.value != model
    then Or(ExactMatch(rows, alias.value, at), PrefixMatch(rows, alias.value, at))
    else None
  }

  function Lookup(rows: seq<Price>, model: string, at: int): Option<Price> {
    Or(ExactMatch(rows, model, at), Or(AliasMatch(rows, model, at), PrefixMatch(rows, model, at)))
  }

  predicate IsFreeTier(model: string) { |model| >= 5 && model[|model| - 5..] == "-free" }

  // Rates are per million tokens.
  function Part(tokens: nat, rate: real): real { tokens as real / 1_000_000.0 * rate }

  function Charge(r: Rates, t: Tokens): real {
    Part(t.input, r.input) + Part(t.output, r.output)
    + Part(t.cacheRead, r.cacheRead) + Part(t.cacheWrite, r.cacheWrite)
  }

  function Cost(rows: seq<Price>, model: string, at: int, t: Tokens): Option<real> {
    match Lookup(rows, model, at)
    case Some(p) => Some(Charge(p.rates, t))
    case None => if IsFreeTier(model) then Some(0.0) else None
  }

  // ---------------------------------------------------------------- overrides

  // The newest row of exactly this model at any time; of rows of the same instant, the last.
  function Newest(rows: seq<Price>, model: string): Option<Price> {
    if rows == [] then None
    else
      var best, r := Newest(rows[..|rows| - 1], model), rows[|rows| - 1];
      if r.model == model && (best.None? || best.value.since <= r.since) then Some(r) else best
  }

  function Rate(over: Option<real>, base: Option<real>): real {
    if over.Some? then over.value else if base.Some? then base.value else 0.0
  }

  function Merged(over: PriceOverride, base: Option<Price>): Rates {
    if base.Some? then
      var b := base.value.rates;
      Rates(
        Rate(over.input, Some(b.input)), Rate(over.output, Some(b.output)),
        Rate(over.cacheRead, Some(b.cacheRead)), Rate(over.cacheWrite, Some(b.cacheWrite)))
    else
      Rates(
        Rate(over.input, None), Rate(over.output, None), Rate(over.cacheRead, None),
        Rate(over.cacheWrite, None))
  }

  function Since(over: PriceOverride, exact: Option<Price>): int {
    if over.since.Some? then over.since.value else if exact.Some? then exact.value.since else 0
  }

  // The row an override adds. `now` is when the overrides are applied.
  function OverrideRow(rows: seq<Price>, model: string, over: PriceOverride, now: int): Price {
    var exact := Newest(rows, model);
    Price(model, Merged(over, Or(exact, Lookup(rows, model, now))), Since(over, exact), Override)
  }

  function Without(rows: seq<Price>, model: string, since: int): seq<Price> {
    if rows == [] then []
    else
      var rest, r := Without(rows[..|rows| - 1], model, since), rows[|rows| - 1];
      if r.model == model && r.since == since then rest else rest + [r]
  }

  // The table with `row` in place of the rows of its model and instant.
  function With(rows: seq<Price>, row: Price): seq<Price> { Without(rows, row.model, row.since) + [row] }

  function ApplyOne(rows: seq<Price>, model: string, over: PriceOverride, now: int): seq<Price> {
    With(rows, OverrideRow(rows, model, over, now))
  }

  // The overrides in turn; `clock` tells when each of them is applied.
  function ApplyAll(rows: seq<Price>, overs: seq<(string, PriceOverride)>, clock: nat -> int): seq<Price> {
    if overs == [] then rows
    else
      var n := |overs| - 1;
      ApplyOne(ApplyAll(rows, overs[..n], clock), overs[n].0, overs[n].1, clock(n))
  }
}
