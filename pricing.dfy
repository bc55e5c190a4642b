/**
 * The price rule of the gift widget: from the current price, the original
 * price and the free-text description it decides whether the discount block
 * (original struck through, then current) is shown and what the description
 * text becomes. Currency formatting and number parsing are foreign code and
 * are parameters here.
 */
module Pricing {
  import opened Wrappers

  /** The currency formatter (whole dollars, en-US), left uninterpreted. */
  type Formatter = string -> string

  /** `parseFloat`: `None` stands for NaN. */
  type Parser = string -> Option<real>

  /** `parseFloat(a) > parseFloat(b)`: any comparison with NaN is false. */
  predicate Exceeds(a: Option<real>, b: Option<real>)
  {
    a.Some? && b.Some? && a.value > b.value
  }

  /** The markup of the price container: never written, or the two price spans. */
  datatype Content = Unset | Spans(original: string, current: string)

  /** The price container: whether it is displayed (flex) or hidden (none), and its markup. */
  datatype PriceContainer = PriceContainer(shown: bool, content: Content)

  /** What the price rule writes: the container and the description text. */
  datatype Projection = Projection(prices: PriceContainer, description: string)

  /** The discount condition: a current price, an original price, and a strict drop between them. */
  predicate ShowsDiscount(parse: Parser, price: string, originalPrice: string)
  {
    price != "" && originalPrice != "" && Exceeds(parse(originalPrice), parse(price))
  }

  /**
   * The price rule, once. `prices` is the container as it was before; an
   * attribute string is "absent" when empty (JavaScript falsiness).
   */
  function PriceProjection(fmt: Formatter, parse: Parser, description: string,
                           price: string, originalPrice: string,
                           prices: PriceContainer): (r: Projection)
    // without a current price nothing is written and the description is bare
    ensures price == "" ==> r == Projection(prices, description)
    // with a current price the description always carries it as a suffix
    ensures price != "" ==> r.description == description + " - " + fmt(price)
    // the block is displayed exactly on the discount condition
    ensures price != "" ==> (r.prices.shown <==> ShowsDiscount(parse, price, originalPrice))
    // when displayed it shows the original price, then the current one
    ensures ShowsDiscount(parse, price, originalPrice) ==>
              r.prices.content == Spans(fmt(originalPrice), fmt(price))
    // hiding the block leaves its old markup in place
    ensures !ShowsDiscount(parse, price, originalPrice) ==> r.prices.content == prices.content
  {
    if price == "" then
      Projection(prices, description)
    else
      var shown := if ShowsDiscount(parse, price, originalPrice)
                   then PriceContainer(true, Spans(fmt(originalPrice), fmt(price)))
                   else prices.(shown := false);
      Projection(shown, description + " - " + fmt(price))
  }

  /**
   * A price that does not parse (NaN) never yields the discount block; the
   * description still gets the formatted current price.
   */
  lemma UnparseablePriceShowsNoDiscount(fmt: Formatter, parse: Parser, description: string,
                                        price: string, originalPrice: string,
                                        prices: PriceContainer)
    requires price != ""
    requires parse(price).None? || parse(originalPrice).None?
    ensures var r := PriceProjection(fmt, parse, description, price, originalPrice, prices);
            !r.prices.shown && r.description == description + " - " + fmt(price)
  {
  }

  /**
   * An original price that is not strictly above the current one (equal, lower)
   * formats exactly as if there were no original price at all.
   */
  lemma NoDropSameAsNoOriginal(fmt: Formatter, parse: Parser, description: string,
                               price: string, originalPrice: string, prices: PriceContainer)
    requires price != "" && parse(price).Some? && parse(originalPrice).Some?
    requires parse(originalPrice).value <= parse(price).value
    ensures PriceProjection(fmt, parse, description, price, originalPrice, prices)
            == PriceProjection(fmt, parse, description, price, "", prices)
  {
  }
}
