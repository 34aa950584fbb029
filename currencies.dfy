/** One currency held by a wallet: its symbol, its insertion number inside that
    wallet and its table of directional exchange rates
    (src/Ignatov/wallet/Currency.java). */
module Currencies {
  import opened Wrappers

  class Currency {
    /** The symbol (`getCurrency`); fixed at construction. */
    const symbol: string
    /** Insertion number inside the owning wallet; fixed at construction. */
    const orderingNumber: int
    /** `rates[t]` is how many units of `t` one unit of this currency is worth. */
    var rates: map<string, real>

    /** A new currency knows exactly one rate: 1.0 to itself. */
    constructor (symbol: string, orderingNumber: int)
      ensures this.symbol == symbol && this.orderingNumber == orderingNumber
      ensures rates == map[symbol := 1.0]
    {
      this.symbol := symbol;
      this.orderingNumber := orderingNumber;
      rates := map[symbol := 1.0];
    }

    /** Stores or overwrites the rate to `target`; no check on its value. */
    method AddRate(target: string, rate: real)
      modifies this
      ensures rates == old(rates)[target := rate]
      ensures GetRate(target) == Some(rate)
      ensures forall t :: t != target ==> GetRate(t) == old(GetRate(t))
    {
      rates := rates[target := rate];
    }

    /** The stored rate to `target`, or `None` (Java's null) if never set. */
    function GetRate(target: string): (r: Option<real>)
      reads this
      ensures r.Some? <==> target in rates
      ensures r.Some? ==> r.value == rates[target]
    {
      if target in rates then Some(rates[target]) else None
    }

    /** The symbol of the currency. */
    function GetCurrency(): (r: string)
      ensures r == symbol
    {
      symbol
    }

    /** Currencies compare by insertion number: the sign of the result is the
        sign of the difference of the two numbers. Ordering numbers are
        positive Java ints, so the subtraction cannot overflow. */
    function CompareTo(other: Currency): (r: int)
      ensures r < 0 <==> orderingNumber < other.orderingNumber
      ensures r == 0 <==> orderingNumber == other.orderingNumber
      ensures r > 0 <==> orderingNumber > other.orderingNumber
    {
      orderingNumber - other.orderingNumber
    }
  }
}
