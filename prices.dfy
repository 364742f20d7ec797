/**
 * Price resolution: each price is read from an ordered list of sources;
 * the first source whose answer is a strictly positive number wins and,
 * when none does, a hard-coded constant is used. A source's answer is
 * `None` when its request or its parse raised.
 */
module Prices {
  import opened Wrappers

  /** A source succeeds only with a strictly positive price. */
  predicate Positive(quote: Option<real>) {
    quote.Some? && quote.value > 0.0
  }

  /** The first positive quote of `quotes`, or `fallback` when there is none. */
  function FirstPositive(quotes: seq<Option<real>>, fallback: real): (price: real)
    ensures (forall i :: 0 <= i < |quotes| ==> !Positive(quotes[i])) ==> price == fallback
    ensures forall k ::
      (0 <= k < |quotes| && Positive(quotes[k]) && forall j :: 0 <= j < k ==> !Positive(quotes[j]))
      ==> price == quotes[k].value
    ensures price == fallback || exists i :: 0 <= i < |quotes| && Positive(quotes[i]) && price == quotes[i].value
  {
    if quotes == [] then fallback
    else if Positive(quotes[0]) then quotes[0].value
    else
      var rest := FirstPositive(quotes[1..], fallback);
      assert forall i :: 1 <= i < |quotes| ==> quotes[i] == quotes[1..][i - 1];
      rest
  }

  /** The BNB price used when GeckoTerminal and CoinMarketCap both fail. */
  const BnbFallbackPrice: real := 600.0
  /** The $PETS price used when all three of its sources fail. */
  const PetsFallbackPrice: real := 0.00003886
  /** One BNB is 10^18 wei. */
  const WeiPerToken: real := 1000000000000000000.0

  /** `get_bnb_to_usd`: GeckoTerminal, then CoinMarketCap, then 600. */
  function BnbToUsd(gecko: Option<real>, cmc: Option<real>): (price: real)
    ensures price > 0.0
    ensures Positive(gecko) ==> price == gecko.value
    ensures !Positive(gecko) && Positive(cmc) ==> price == cmc.value
    ensures !Positive(gecko) && !Positive(cmc) ==> price == BnbFallbackPrice
  {
    var quotes := [gecko, cmc];
    assert !Positive(gecko) && Positive(cmc) ==>
      Positive(quotes[1]) && forall j :: 0 <= j < 1 ==> !Positive(quotes[j]);
    FirstPositive(quotes, BnbFallbackPrice)
  }

  /**
   * The PancakeSwap source: the pair's reserves `(reserve0, reserve1)` (`None` when
   * the contract call raised) converted to a USD price through the BNB price.
   * An empty `reserve0` makes the ratio 0, which then fails the positivity test.
   */
  function PancakeQuote(reserves: Option<(int, int)>, bnbToUsd: real): (quote: Option<real>)
    ensures reserves.None? ==> quote.None?
    ensures reserves.Some? && reserves.value.0 <= 0 ==> !Positive(quote)
    ensures reserves.Some? && reserves.value.0 > 0 && reserves.value.1 > 0 && bnbToUsd > 0.0 ==> Positive(quote)
  {
    match reserves
    case None => None
    case Some((reserve0, reserve1)) =>
      var bnbPerPets := if reserve0 > 0 then reserve1 as real / reserve0 as real / WeiPerToken else 0.0;
      Some(bnbPerPets * bnbToUsd)
  }

  /**
   * `get_pets_price_from_pancakeswap`: GeckoTerminal, then CoinMarketCap, then the pair's
   * reserves, then the constant. Sources are never mixed: the price is exactly the answer
   * of the first source that gives a positive one.
   */
  function PetsPrice(gecko: Option<real>, cmc: Option<real>, reserves: Option<(int, int)>, bnbToUsd: real): (price: real)
    ensures price > 0.0
    ensures Positive(gecko) ==> price == gecko.value
    ensures !Positive(gecko) && Positive(cmc) ==> price == cmc.value
    ensures !Positive(gecko) && !Positive(cmc) && Positive(PancakeQuote(reserves, bnbToUsd)) ==>
      price == PancakeQuote(reserves, bnbToUsd).value
    ensures !Positive(gecko) && !Positive(cmc) && !Positive(PancakeQuote(reserves, bnbToUsd)) ==>
      price == PetsFallbackPrice
  {
    var quotes := [gecko, cmc, PancakeQuote(reserves, bnbToUsd)];
    assert !Positive(gecko) && Positive(cmc) ==>
      Positive(quotes[1]) && forall j :: 0 <= j < 1 ==> !Positive(quotes[j]);
    assert !Positive(gecko) && !Positive(cmc) && Positive(quotes[2]) ==>
      forall j :: 0 <= j < 2 ==> !Positive(quotes[j]);
    FirstPositive(quotes, PetsFallbackPrice)
  }

  /** An empty pool side can never produce the price: the constant is used after both APIs fail. */
  lemma PetsPriceEmptyPool(gecko: Option<real>, cmc: Option<real>, reserve1: int, bnbToUsd: real)
    requires !Positive(gecko) && !Positive(cmc)
    ensures PetsPrice(gecko, cmc, Some((0, reserve1)), bnbToUsd) == PetsFallbackPrice
  {
    var quotes := [gecko, cmc, PancakeQuote(Some((0, reserve1)), bnbToUsd)];
    assert forall i :: 0 <= i < |quotes| ==> !Positive(quotes[i]);
  }
}
