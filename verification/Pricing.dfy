/** What a model call costs. */
module Pricing {
  const COST_PER_1K_INPUT := 0.003
  const COST_PER_1K_OUTPUT := 0.015

  function CallCost(promptTokens: int, completionTokens: int): real {
    promptTokens as real / 1000.0 * COST_PER_1K_INPUT
    + completionTokens as real / 1000.0 * COST_PER_1K_OUTPUT
  }

  /** The price of `n` prompt tokens. */
  function Price(n: int): real {
    n as real * 0.000003
  }

  /** A completion token costs as much as five prompt tokens, so every cost is a whole number of those. */
  lemma CallCostIsPrice(promptTokens: int, completionTokens: int)
    ensures CallCost(promptTokens, completionTokens) == Price(promptTokens + 5 * completionTokens)
         == (3 * promptTokens + 15 * completionTokens) as real / 1000000.0
  {
  }

  lemma PriceGrows(m: int, n: int)
    ensures m < n ==> Price(m) < Price(n)
  {
  }

  lemma PriceAdds(m: int, n: int)
    ensures Price(m) + Price(n) == Price(m + n)
  {
  }

  /** The most tokens whose price is below `limit`. */
  function Below(limit: real): (n: int)
    ensures Price(n) < limit <= Price(n + 1)
  {
    var q := limit / 0.000003;
    assert q * 0.000003 == limit;
    if q.Floor as real == q then q.Floor - 1 else q.Floor
  }
}
