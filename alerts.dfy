/**
 * The pure pieces of an alert: the buy tier chosen from the USD value,
 * the shortened wallet address shown as "Hodler", and the number of
 * money-bag emojis that head the message.
 */
module Alerts {
  import opened Wrappers

  /** The four buy tiers, in ascending order of USD value. */
  datatype Category = MicroPetsBuy | MediumBullishBuy | WhaleBuy | ExtraLargeBuy {

    /** The tier's name as the bot writes it (and looks its video up by). */
    function Name(): string {
      match this
      case MicroPetsBuy => "MicroPets Buy"
      case MediumBullishBuy => "Medium Bullish Buy"
      case WhaleBuy => "Whale Buy"
      case ExtraLargeBuy => "Extra Large Buy"
    }

    /** Position of the tier in the ascending order. */
    function Rank(): nat {
      match this
      case MicroPetsBuy => 0
      case MediumBullishBuy => 1
      case WhaleBuy => 2
      case ExtraLargeBuy => 3
    }
  }

  /** Tier boundaries in USD; a value equal to a boundary belongs to the higher tier. */
  const MediumThreshold: real := 100.0
  const WhaleThreshold: real := 500.0
  const ExtraLargeThreshold: real := 1000.0

  /** The tier of a buy worth `usd` dollars. */
  function CategorizeBuy(usd: real): (c: Category)
    ensures c == MicroPetsBuy <==> usd < MediumThreshold
    ensures c == MediumBullishBuy <==> MediumThreshold <= usd < WhaleThreshold
    ensures c == WhaleBuy <==> WhaleThreshold <= usd < ExtraLargeThreshold
    ensures c == ExtraLargeBuy <==> ExtraLargeThreshold <= usd
  {
    if usd < MediumThreshold then MicroPetsBuy
    else if usd < WhaleThreshold then MediumBullishBuy
    else if usd < ExtraLargeThreshold then WhaleBuy
    else ExtraLargeBuy
  }

  /** A larger buy never lands in a lower tier. */
  lemma CategorizeMonotone(x: real, y: real)
    requires x <= y
    ensures CategorizeBuy(x).Rank() <= CategorizeBuy(y).Rank()
  {
  }

  /** The tier names are pairwise distinct, so each tier selects its own video. */
  lemma CategoryNamesDistinct(c: Category, d: Category)
    ensures c.Name() == d.Name() <==> c == d
  {
  }

  /**
   * `address[:6] + "..." + address[-4:]`, or "" for the empty address.
   * Python slices clamp: a short address gives its whole self for either end.
   */
  function ShortenAddress(address: string): (r: string)
    ensures address == [] ==> r == []
    ensures address != [] ==>
      var head, tail := Min(6, |address|), Min(4, |address|);
      && |r| == head + 3 + tail
      && r[..head] == address[..head]
      && r[head..head + 3] == "..."
      && r[head + 3..] == address[|address| - tail..]
    ensures |address| >= 10 ==> |r| == 13
  {
    if address == [] then []
    else address[..Min(6, |address|)] + "..." + address[|address| - Min(4, |address|)..]
  }

  /** Python's `int(x)`: truncation toward zero. */
  function Truncate(x: real): (n: int)
    ensures 0.0 <= x ==> 0 <= n && n as real <= x < n as real + 1.0
    ensures x < 0.0 ==> n <= 0 && n as real - 1.0 < x <= n as real
  {
    if x >= 0.0 then x.Floor else -((-x).Floor)
  }

  /** The most emojis an alert carries. */
  const MaxEmojis: int := 100

  /** `min(int(usd) // 1, 100)`: one emoji per whole dollar, at most one hundred. */
  function EmojiCount(usd: real): (n: int)
    ensures n <= MaxEmojis
    ensures 0.0 <= usd ==> 0 <= n
    ensures 0.0 <= usd < MaxEmojis as real ==> n as real <= usd < n as real + 1.0
    ensures MaxEmojis as real <= usd ==> n == MaxEmojis
  {
    Min(Truncate(usd), MaxEmojis)
  }

  /** More dollars never give fewer emojis. */
  lemma EmojiCountMonotone(x: real, y: real)
    requires x <= y
    ensures EmojiCount(x) <= EmojiCount(y)
  {
    if 0.0 <= x {
      assert Truncate(x) <= Truncate(y);
    } else if y < 0.0 {
      assert (-y).Floor <= (-x).Floor;
    }
  }
}
