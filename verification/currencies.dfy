/** The currency table of the price extractor (`getCurrencyPatterns`) and the
    per-currency formatter (`formatPrice`). Currency codes are strings, as in
    the service: callers may pass any code, and only eight are known. */
module Currencies {
  import opened Wrappers
  import opened Text
  import opened Patterns

  /** One of the eight codes of the pattern table and the formatter. */
  predicate IsKnownCode(code: string) {
    code == "BRL" || code == "USD" || code == "EUR" || code == "GBP"
    || code == "JPY" || code == "CAD" || code == "AUD" || code == "MXN"
  }

  /** One pattern of the table with the code it reports. */
  datatype Entry = Entry(code: string, pattern: Pattern)

  /** `getCurrencyPatterns()`, read the way the extractor walks it: the codes
      in key order, and each code's patterns in array order. The `/g` flag
      does not matter, since only `match(...)[0]` is read. */
  const Entries: seq<Entry> := [
    Entry("BRL", Pattern(Prefix("R$"), Either, false)),          // R\$\s?N
    Entry("BRL", Pattern(Suffix("reai", true), Either, true)),   // N\s*reais?  /i
    Entry("BRL", Pattern(Label("preço", true), Either, true)),   // preço[:\s]*R?\$?\s?N  /i
    Entry("USD", Pattern(Prefix("$"), Dotted, false)),           // \$\s?N
    Entry("USD", Pattern(Suffix("dollar", true), Dotted, true)), // N\s*dollars?  /i
    Entry("USD", Pattern(Label("price", false), Dotted, true)),  // price[:\s]*\$?\s?N  /i
    Entry("USD", Pattern(Prefix("USD"), Dotted, false)),         // USD\s?N
    Entry("EUR", Pattern(Prefix("€"), Either, false)),
    Entry("EUR", Pattern(Suffix("euro", true), Either, true)),
    Entry("EUR", Pattern(Prefix("EUR"), Either, false)),
    Entry("GBP", Pattern(Prefix("£"), Dotted, false)),
    Entry("GBP", Pattern(Suffix("pound", true), Dotted, true)),
    Entry("GBP", Pattern(Prefix("GBP"), Dotted, false)),
    Entry("JPY", Pattern(Prefix("¥"), Whole, false)),
    Entry("JPY", Pattern(Suffix("yen", false), Whole, true)),
    Entry("JPY", Pattern(Prefix("JPY"), Whole, false)),
    Entry("CAD", Pattern(Prefix("C$"), Dotted, false)),
    Entry("CAD", Pattern(Prefix("CAD"), Dotted, false)),
    Entry("AUD", Pattern(Prefix("A$"), Dotted, false)),
    Entry("AUD", Pattern(Prefix("AUD"), Dotted, false)),
    Entry("MXN", Pattern(Prefix("MX$"), Dotted, false)),
    Entry("MXN", Pattern(Prefix("MXN"), Dotted, false))
  ]

  /** The first four entries: the three BRL patterns and the dollar sign. */
  lemma FirstEntries()
    ensures |Entries| == 22
    ensures Entries[0] == Entry("BRL", Pattern(Prefix("R$"), Either, false))
    ensures Entries[1] == Entry("BRL", Pattern(Suffix("reai", true), Either, true))
    ensures Entries[2] == Entry("BRL", Pattern(Label("preço", true), Either, true))
    ensures Entries[3] == Entry("USD", Pattern(Prefix("$"), Dotted, false))
  {
  }

  predicate AllWellFormed(entries: seq<Entry>) {
    forall k :: 0 <= k < |entries| ==> WellFormed(entries[k].pattern)
  }

  /** Every pattern of the table is one the greedy matcher handles, and every
      code it reports is one of the eight. */
  lemma TableFacts()
    ensures AllWellFormed(Entries)
    ensures forall k :: 0 <= k < |Entries| ==> IsKnownCode(Entries[k].code)
  {
  }

  /** `TableFacts` for one entry. */
  lemma EntryFacts(k: nat)
    requires k < |Entries|
    ensures WellFormed(Entries[k].pattern) && IsKnownCode(Entries[k].code)
  {
    TableFacts();
  }

  /** The JPY entries: a whole number after `¥` or `JPY`, or before `yen`. */
  lemma YenEntries(k: nat)
    requires k < |Entries| && Entries[k].code == "JPY"
    ensures var p := Entries[k].pattern;
      && p.format == Whole && !p.shape.Label?
      && (p.shape.Prefix? ==> '.' !in p.shape.symbol)
      && (p.shape.Suffix? ==> '.' !in p.shape.word)
  {
  }

  /** No match of a JPY pattern holds a `.`: the yen is read without fraction
      digits. */
  lemma YenMatchNoPoint(s: string, i: nat, j: nat, k: nat)
    requires k < |Entries| && Entries[k].code == "JPY" && MatchSpan(s, i, j, Entries[k].pattern)
    ensures i <= j <= |s|
    ensures forall m :: i <= m < j ==> s[m] != '.'
  {
    YenEntries(k);
    WholeMatchNoPoint(s, i, j, Entries[k].pattern);
  }

  // ---------------------------------------------------------------------
  // formatPrice

  /** `toLocaleString` with equal minimum and maximum fraction digits, and the
      default number-to-string conversion; both belong to the runtime's
      internationalisation library, so they are parameters. `None` is NaN. */
  datatype Renderer = Renderer(localized: (string, Option<real>, nat) -> string, plain: Option<real> -> string)

  /** One formatter of `formatPrice`: symbol, locale and fraction digits. */
  datatype Format = Format(symbol: string, locale: string, digits: nat)

  /** The formatter registered for `code`, if any. */
  function FormatOf(code: string): (r: Option<Format>)
    ensures r.Some? <==> IsKnownCode(code)
  {
    if code == "BRL" then Some(Format("R$", "pt-BR", 2))
    else if code == "USD" then Some(Format("$", "en-US", 2))
    else if code == "EUR" then Some(Format("€", "de-DE", 2))
    else if code == "GBP" then Some(Format("£", "en-GB", 2))
    else if code == "JPY" then Some(Format("¥", "ja-JP", 0))
    else if code == "CAD" then Some(Format("C$", "en-CA", 2))
    else if code == "AUD" then Some(Format("A$", "en-AU", 2))
    else if code == "MXN" then Some(Format("MX$", "es-MX", 2))
    else None
  }

  /** `formatPrice(amount, currency)`. */
  function FormatPrice(render: Renderer, amount: Option<real>, code: string): string {
    match FormatOf(code)
    case Some(f) => f.symbol + " " + render.localized(f.locale, amount, f.digits)
    case None => code + " " + render.plain(amount)
  }

  /** The text before the first space of a formatted price. */
  function Head(s: string): string {
    var k := IndexOf(s, " ");
    if k < 0 then s else s[..k]
  }

  /** The known code whose formatter prints `symbol`, if any. */
  function CodeOfSymbol(symbol: string): Option<string> {
    if symbol == "R$" then Some("BRL")
    else if symbol == "$" then Some("USD")
    else if symbol == "€" then Some("EUR")
    else if symbol == "£" then Some("GBP")
    else if symbol == "¥" then Some("JPY")
    else if symbol == "C$" then Some("CAD")
    else if symbol == "A$" then Some("AUD")
    else if symbol == "MX$" then Some("MXN")
    else None
  }

  lemma HeadOf(a: string, b: string)
    requires ' ' !in a
    ensures Head(a + " " + b) == a
  {
    var s := a + " " + b;
    assert StartsAt(s, |a|, " ");
    forall k | 0 <= k < |a|
      ensures !StartsAt(s, k, " ")
    {
      assert s[k..k + 1][0] == a[k];
      assert a[k] in a;
    }
    assert IndexOf(s, " ") == |a|;
  }

  /** Each of the eight codes prints its own symbol, a space, then the amount
      rendered in its locale with two fraction digits (none for JPY); any
      other code prints itself, a space and the plain amount. The symbol is
      what the price begins with, and it gives the code back. */
  lemma FormatPriceShape(render: Renderer, amount: Option<real>, code: string)
    ensures code == "BRL" ==> FormatPrice(render, amount, code) == "R$ " + render.localized("pt-BR", amount, 2)
    ensures code == "USD" ==> FormatPrice(render, amount, code) == "$ " + render.localized("en-US", amount, 2)
    ensures code == "EUR" ==> FormatPrice(render, amount, code) == "€ " + render.localized("de-DE", amount, 2)
    ensures code == "GBP" ==> FormatPrice(render, amount, code) == "£ " + render.localized("en-GB", amount, 2)
    ensures code == "JPY" ==> FormatPrice(render, amount, code) == "¥ " + render.localized("ja-JP", amount, 0)
    ensures code == "CAD" ==> FormatPrice(render, amount, code) == "C$ " + render.localized("en-CA", amount, 2)
    ensures code == "AUD" ==> FormatPrice(render, amount, code) == "A$ " + render.localized("en-AU", amount, 2)
    ensures code == "MXN" ==> FormatPrice(render, amount, code) == "MX$ " + render.localized("es-MX", amount, 2)
    ensures IsKnownCode(code) ==> CodeOfSymbol(Head(FormatPrice(render, amount, code))) == Some(code)
    ensures !IsKnownCode(code) ==>
      var r := FormatPrice(render, amount, code);
      && |r| > |code| && r[..|code| + 1] == code + " " && r[|code| + 1..] == render.plain(amount)
    ensures !IsKnownCode(code) && ' ' !in code ==> Head(FormatPrice(render, amount, code)) == code
  {
    var r := FormatPrice(render, amount, code);
    if IsKnownCode(code) {
      var f := FormatOf(code).value;
      assert ' ' !in f.symbol;
      HeadOf(f.symbol, render.localized(f.locale, amount, f.digits));
    } else {
      assert r == code + " " + render.plain(amount);
      assert r[..|code| + 1] == code + " ";
      assert r[|code| + 1..] == render.plain(amount);
      if ' ' !in code {
        HeadOf(code, render.plain(amount));
      }
    }
  }
}
