/** `convertPrice`: an amount is converted through US dollars with the rate
    table of the cache, a missing or zero rate counting as 1. Arithmetic is on
    exact reals. */
module Conversion {
  import opened Wrappers
  import opened Currencies
  import opened Rates

  /** `rates.get(code) || 1`: undefined and 0 are falsy. */
  function RateOr1(rates: RateTable, code: string): (r: real)
    ensures r != 0.0
    ensures code in rates && rates[code] != 0.0 ==> r == rates[code]
    ensures !(code in rates && rates[code] != 0.0) ==> r == 1.0
  {
    if code in rates && rates[code] != 0.0 then rates[code] else 1.0
  }

  /** Units of `code` per US dollar as the converter reads the table: USD is
      never looked up. */
  function PerUsd(rates: RateTable, code: string): (r: real)
    ensures r != 0.0
  {
    if code == "USD" then 1.0 else RateOr1(rates, code)
  }

  /** An amount in a currency. */
  datatype Money = Money(amount: real, currency: string)

  /** The object `convertPrice` returns for two different codes. */
  datatype Converted = Converted(amount: real, formatted: string, from: Money, to: Money, rate: real)

  /** What `convertPrice` resolves to: the bare amount when both codes are the
      same, the conversion object otherwise. */
  datatype Conversion = Unchanged(amount: real) | Done(result: Converted)

  /** The conversion of `amount` from `from` to `to` with rate table `rates`:
      the amount divided by the source's rate, multiplied by the target's. The
      service skips the division when the source is USD and the
      multiplication when the target is; `PerUsd` is 1 there, and dividing or
      multiplying by 1 is exact, so one expression covers the four cases. */
  function ConvertWith(render: Renderer, rates: RateTable, amount: real, from: string, to: string): (r: Converted)
    ensures r.amount * PerUsd(rates, from) == amount * PerUsd(rates, to)
    ensures from == "USD" && to == "USD" ==> r.amount == amount
    ensures r.from == Money(amount, from) && r.to == Money(r.amount, to)
    ensures r.rate == RateOr1(rates, to)
    ensures r.formatted == FormatPrice(render, Some(r.amount), to)
  {
    var target := amount / PerUsd(rates, from) * PerUsd(rates, to);
    Converted(target, FormatPrice(render, Some(target), to), Money(amount, from), Money(target, to), RateOr1(rates, to))
  }

  /** `convertPrice(amount, from, to)` on a service with cache `c`, at clock
      reading `now`, the rate service answering `source`: the result and the
      cache afterwards. The rates are always asked for base USD. */
  function ConvertPrice(render: Renderer, c: Cache, now: int, source: string -> Fetch,
                        amount: real, from: string, to: string): (r: (Conversion, Cache))
    ensures from == to ==> r == (Unchanged(amount), c)
    ensures from != to ==>
      var (rates, c1) := GetExchangeRates(c, now, source, "USD");
      && r.1 == c1
      && r.0.Done?
      && r.0.result == ConvertWith(render, rates, amount, from, to)
      && r.0.result.amount * PerUsd(rates, from) == amount * PerUsd(rates, to)
      && r.0.result.rate == RateOr1(rates, to)
  {
    if from == to then (Unchanged(amount), c)
    else
      var (rates, c1) := GetExchangeRates(c, now, source, "USD");
      (Done(ConvertWith(render, rates, amount, from, to)), c1)
  }

  // ---------------------------------------------------------------------
  // Properties of the arithmetic.

  /** The conversion amount is determined by the proportion in the contract of
      `ConvertWith`: dividing by the source's rate and multiplying by the
      target's. */
  lemma ConversionAmount(render: Renderer, rates: RateTable, amount: real, from: string, to: string)
    ensures ConvertWith(render, rates, amount, from, to).amount == amount * PerUsd(rates, to) / PerUsd(rates, from)
  {
    var r := ConvertWith(render, rates, amount, from, to);
    SolveByDivision(r.amount, amount, PerUsd(rates, from), PerUsd(rates, to));
  }

  lemma SolveByDivision(r: real, a: real, p: real, q: real)
    requires p != 0.0 && r * p == a * q
    ensures r == a * q / p
  {
    DivOfProduct(r, p);
  }

  /** Converting there and back with the same table gives the amount back. */
  lemma RoundTrip(render: Renderer, rates: RateTable, amount: real, x: string, y: string)
    ensures ConvertWith(render, rates, ConvertWith(render, rates, amount, x, y).amount, y, x).amount == amount
  {
    var there := ConvertWith(render, rates, amount, x, y).amount;
    var back := ConvertWith(render, rates, there, y, x).amount;
    BackAndForth(amount, there, back, PerUsd(rates, x), PerUsd(rates, y));
  }

  lemma BackAndForth(amount: real, there: real, back: real, p: real, q: real)
    requires q != 0.0 && there * p == amount * q && back * q == there * p
    ensures back == amount
  {
    CancelFactor(back, amount, q);
  }

  /** Converting through a third currency is converting directly. */
  lemma Composition(render: Renderer, rates: RateTable, amount: real, x: string, y: string, z: string)
    ensures ConvertWith(render, rates, ConvertWith(render, rates, amount, x, y).amount, y, z).amount
         == ConvertWith(render, rates, amount, x, z).amount
  {
    var viaY := ConvertWith(render, rates, amount, x, y).amount;
    var twice := ConvertWith(render, rates, viaY, y, z).amount;
    var direct := ConvertWith(render, rates, amount, x, z).amount;
    ChainedProportions(amount, viaY, twice, direct, PerUsd(rates, x), PerUsd(rates, y), PerUsd(rates, z));
  }

  lemma ChainedProportions(amount: real, viaY: real, twice: real, direct: real, p: real, q: real, t: real)
    requires p != 0.0 && q != 0.0
    requires viaY * p == amount * q && twice * q == viaY * t && direct * p == amount * t
    ensures twice == direct
  {
    var usd := amount / p;
    Solve(viaY, amount, p, q);
    assert viaY == usd * q;
    DivOfProduct(usd, q);
    assert viaY / q == usd;
    Solve(twice, viaY, q, t);
    assert twice == usd * t;
    Solve(direct, amount, p, t);
  }

  /** The proportion `r * p == a * q` has the one solution `(a / p) * q`. */
  lemma Solve(r: real, a: real, p: real, q: real)
    requires p != 0.0 && r * p == a * q
    ensures r == (a / p) * q
  {
    assert ((a / p) * q) * p == a * q;
    CancelFactor(r, (a / p) * q, p);
  }

  lemma DivOfProduct(x: real, q: real)
    requires q != 0.0
    ensures (x * q) / q == x
  {
  }

  lemma CancelFactor(a: real, b: real, k: real)
    requires k != 0.0 && a * k == b * k
    ensures a == b
  {
    assert (a - b) * k == 0.0;
  }

  /** Conversion is linear in the amount. */
  lemma Linear(render: Renderer, rates: RateTable, a: real, b: real, from: string, to: string)
    ensures ConvertWith(render, rates, a + b, from, to).amount
         == ConvertWith(render, rates, a, from, to).amount + ConvertWith(render, rates, b, from, to).amount
  {
    ConversionAmount(render, rates, a + b, from, to);
    ConversionAmount(render, rates, a, from, to);
    ConversionAmount(render, rates, b, from, to);
    SumOfQuotients(ConvertWith(render, rates, a + b, from, to).amount, ConvertWith(render, rates, a, from, to).amount,
                   ConvertWith(render, rates, b, from, to).amount, a, b, PerUsd(rates, to), PerUsd(rates, from));
  }

  lemma SumOfQuotients(x: real, y: real, z: real, a: real, b: real, q: real, p: real)
    requires p != 0.0 && x == (a + b) * q / p && y == a * q / p && z == b * q / p
    ensures x == y + z
  {
    assert (a + b) * q == a * q + b * q;
  }

  /** With the default table, 100 US dollars are 520 reais, and the reported
      rate is the real's. */
  lemma DefaultDollarToReal(render: Renderer)
    ensures ConvertWith(render, DefaultRates, 100.0, "USD", "BRL").amount == 520.0
    ensures ConvertWith(render, DefaultRates, 100.0, "USD", "BRL").rate == 5.2
  {
    assert "BRL" in DefaultRates && DefaultRates["BRL"] == 5.2;
  }

  /** A code the table does not know converts at rate 1, like USD. */
  lemma UnknownCodeAtPar(render: Renderer, rates: RateTable, amount: real, code: string)
    requires code !in rates
    ensures ConvertWith(render, rates, amount, code, "USD").amount == amount
    ensures ConvertWith(render, rates, amount, "USD", code).amount == amount
    ensures ConvertWith(render, rates, amount, "USD", code).rate == 1.0
  {
  }
}
