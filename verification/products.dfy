/** The pure parts of the product service: the legacy BRL-only price finder,
    the site name of a URL, the record built for a new product, the page
    offset, and the two currency conversions over stored products. The
    database, the metadata service and the clock are inputs. */
module Products {
  import opened Wrappers
  import opened Text
  import opened Patterns
  import opened Currencies
  import opened Extraction
  import opened Rates
  import opened Conversion
  import opened Domains

  // ---------------------------------------------------------------------
  // extractPrice

  /** The three patterns of the legacy finder: `R$` before a number, a number
      before `real`/`reais`, and the `preço` label. */
  const BrlPatterns: seq<Pattern> := [
    Pattern(Prefix("R$"), Either, false),
    Pattern(Suffix("reai", true), Either, true),
    Pattern(Label("preço", true), Either, true)
  ]

  /** They are the BRL entries at the head of the currency table, and no later
      entry reports BRL. */
  lemma BrlPatternsOpenTheTable()
    ensures forall k :: 0 <= k < 3 ==> BrlPatterns[k] == Entries[k].pattern && Entries[k].code == "BRL"
    ensures forall k :: 3 <= k < |Entries| ==> Entries[k].code != "BRL"
  {
  }

  /** Pattern `k` is the first legacy pattern to match `s`, and `sp` its first match. */
  ghost predicate IsFirstBrl(s: string, k: nat, sp: Span) {
    && k < 3
    && sp.start < sp.end <= |s|
    && IsLeftmostLongest(s, BrlPatterns[k], sp)
    && forall m {:trigger HasMatch(s, BrlPatterns[m])} :: 0 <= m < k ==> !HasMatch(s, BrlPatterns[m])
  }

  function FirstBrlFrom(s: string, k: nat): (r: Option<(nat, Span)>)
    requires k <= 3
    requires forall m {:trigger HasMatch(s, BrlPatterns[m])} :: 0 <= m < k ==> !HasMatch(s, BrlPatterns[m])
    ensures r.Some? ==> IsFirstBrl(s, r.value.0, r.value.1)
    ensures r.None? ==> forall m {:trigger HasMatch(s, BrlPatterns[m])} :: 0 <= m < 3 ==> !HasMatch(s, BrlPatterns[m])
    decreases 3 - k
  {
    if k == 3 then None
    else
      assert WellFormed(BrlPatterns[k]);
      match Find(s, BrlPatterns[k])
      case Some(sp) => Some((k, sp))
      case None => FirstBrlFrom(s, k + 1)
  }

  /** `extractPrice(text)`: the first match of the first legacy pattern that
      matches, or None (`null`) for an absent or empty text. */
  function ExtractPrice(text: Option<string>): (r: Option<string>)
    ensures r.None? <==>
      || text.None? || text.value == ""
      || forall m {:trigger HasMatch(text.value, BrlPatterns[m])} :: 0 <= m < 3 ==> !HasMatch(text.value, BrlPatterns[m])
    ensures r.Some? ==> exists k: nat, sp: Span ::
      IsFirstBrl(text.value, k, sp) && r.value == text.value[sp.start..sp.end]
  {
    if text.None? || text.value == "" then None
    else
      match FirstBrlFrom(text.value, 0)
      case None => None
      case Some((_, sp)) => Some(text.value[sp.start..sp.end])
  }

  /** The legacy finder is the currency extractor restricted to BRL: it finds
      a price exactly when the extractor reports one in BRL, and then the same
      text. A text whose first price is in another currency gives None, even
      when it holds a BRL price further on. */
  lemma ExtractPriceAgrees(render: Renderer, text: Option<string>)
    ensures var info := ExtractPriceWithCurrency(render, text);
            && (ExtractPrice(text).Some? <==> info.Some? && info.value.currency == "BRL")
            && (ExtractPrice(text).Some? ==> ExtractPrice(text).value == info.value.original)
  {
    BrlPatternsOpenTheTable();
    ExtractionFromFirstHit(render, text);
    var info := ExtractPriceWithCurrency(render, text);
    var r := ExtractPrice(text);
    if r.Some? {
      var s := text.value;
      var k: nat, sp: Span :| IsFirstBrl(s, k, sp) && r.value == s[sp.start..sp.end];
      assert IsFirstHit(s, k, sp);
      ExtractionOfHit(render, s, k, sp);
    } else if info.Some? {
      var s := text.value;
      var k: nat, sp: Span :| IsFirstHit(s, k, sp) && info.value.currency == Entries[k].code;
      assert HasMatch(s, Entries[k].pattern);
    }
  }

  // ---------------------------------------------------------------------
  // extractDomain

  /** `extractDomain(url)`, where `host` is the host name of the parsed URL and
      None a URL the parser rejects: the host with its first `www.` removed,
      wherever it occurs, or `unknown`. */
  function ExtractDomain(host: Option<string>): (r: string)
    ensures host.None? ==> r == "unknown"
    ensures host.Some? && !Contains(host.value, "www.") ==> r == host.value
    ensures host.Some? && Contains(host.value, "www.") ==>
      var k := IndexOf(host.value, "www.");
      |r| == |host.value| - 4 && r[..k] + "www." + r[k..] == host.value
  {
    match host
    case None => "unknown"
    case Some(h) => RemoveFirst(h, "www.")
  }

  /** A host that begins with `www.` loses exactly that prefix, and only it:
      `www.www.shop.com` becomes `www.shop.com`. */
  lemma WwwPrefixDropped(rest: string)
    ensures ExtractDomain(Some("www." + rest)) == rest
  {
    RemoveFirstOfPrefix("www.", rest);
  }

  // ---------------------------------------------------------------------
  // The product record of createProductFromUrl

  /** The fields of the metadata service's answer the record uses; None is
      `null` or `undefined`, and `imageUrl` is `image?.url`. */
  datatype Metadata = Metadata(title: Option<string>, description: Option<string>,
                               imageUrl: Option<string>, url: Option<string>)

  /** A product record, without its id and time stamps. `valorNumerico` None
      is `null`. */
  datatype Product = Product(nome: string, preco: string, precoOriginal: string, moeda: string,
                             valorNumerico: Option<real>, imagem: string, url: string,
                             descricao: string, site: string)

  const NoTitle: string := "Sem título"
  const NoPrice: string := "Preço não disponível"

  /** `v || fallback` on an optional string: the empty string is falsy. */
  function OrElse(v: Option<string>, fallback: string): string {
    if v.Some? && v.value != "" then v.value else fallback
  }

  /** `amount || null` on a parsed amount: NaN (None) and 0 are falsy. */
  function NonZero(amount: Option<real>): Option<real> {
    if amount.Some? && amount.value != 0.0 then amount else None
  }

  /** The record `createProductFromUrl(url)` stores for a URL not yet known,
      given the metadata of the page and the host name of the URL. */
  function BuildProduct(render: Renderer, meta: Metadata, url: string, host: Option<string>): (p: Product)
    ensures var info := ExtractPriceWithCurrency(render, meta.description);
      && p.nome != "" && p.site == ExtractDomain(host)
      && (meta.title.Some? && meta.title.value != "" ==> p.nome == meta.title.value)
      && (meta.title.None? || meta.title.value == "" ==> p.nome == NoTitle)
      && (meta.imageUrl.Some? && meta.imageUrl.value != "" ==> p.imagem == meta.imageUrl.value)
      && (meta.imageUrl.None? || meta.imageUrl.value == "" ==> p.imagem == "")
      && (meta.url.Some? && meta.url.value != "" ==> p.url == meta.url.value)
      && (meta.url.None? || meta.url.value == "" ==> p.url == url)
      && (meta.description.Some? && meta.description.value != "" ==> p.descricao == meta.description.value)
      && (meta.description.None? || meta.description.value == "" ==> p.descricao == "")
      && IsKnownCode(p.moeda)
      && p.valorNumerico != Some(0.0)
      && (info.None? ==>
            && p.preco == NoPrice && p.precoOriginal == "" && p.valorNumerico.None?
            && p.moeda == DetectCurrencyFromDomain(host))
      && (info.Some? ==>
            && p.preco == info.value.formatted && p.precoOriginal == info.value.original
            && p.moeda == info.value.currency
            && (p.valorNumerico.Some? <==> info.value.amount.Some? && info.value.amount.value != 0.0)
            && (p.valorNumerico.Some? ==> p.valorNumerico == info.value.amount))
  {
    ProductOf(ExtractPriceWithCurrency(render, meta.description), meta, url, host)
  }

  /** The record built from the extractor's reading `info` of the description. */
  function ProductOf(info: Option<PriceInfo>, meta: Metadata, url: string, host: Option<string>): (p: Product)
    requires info.Some? ==> IsKnownCode(info.value.currency) && info.value.formatted != ""
    ensures
      && p.nome != "" && p.site == ExtractDomain(host)
      && (meta.title.Some? && meta.title.value != "" ==> p.nome == meta.title.value)
      && (meta.title.None? || meta.title.value == "" ==> p.nome == NoTitle)
      && (meta.imageUrl.Some? && meta.imageUrl.value != "" ==> p.imagem == meta.imageUrl.value)
      && (meta.imageUrl.None? || meta.imageUrl.value == "" ==> p.imagem == "")
      && (meta.url.Some? && meta.url.value != "" ==> p.url == meta.url.value)
      && (meta.url.None? || meta.url.value == "" ==> p.url == url)
      && (meta.description.Some? && meta.description.value != "" ==> p.descricao == meta.description.value)
      && (meta.description.None? || meta.description.value == "" ==> p.descricao == "")
      && IsKnownCode(p.moeda)
      && p.valorNumerico != Some(0.0)
      && (info.None? ==>
            && p.preco == NoPrice && p.precoOriginal == "" && p.valorNumerico.None?
            && p.moeda == DetectCurrencyFromDomain(host))
      && (info.Some? ==>
            && p.preco == info.value.formatted && p.precoOriginal == info.value.original
            && p.moeda == info.value.currency
            && (p.valorNumerico.Some? <==> info.value.amount.Some? && info.value.amount.value != 0.0)
            && (p.valorNumerico.Some? ==> p.valorNumerico == info.value.amount))
  {
    var currency := if info.Some? then info.value.currency else "";
    Product(
      OrElse(meta.title, NoTitle),
      OrElse(if info.Some? then Some(info.value.formatted) else None, NoPrice),
      OrElse(if info.Some? then Some(info.value.original) else None, ""),
      if currency != "" then currency else DetectCurrencyFromDomain(host),
      NonZero(if info.Some? then info.value.amount else None),
      OrElse(meta.imageUrl, ""),
      OrElse(meta.url, url),
      OrElse(meta.description, ""),
      ExtractDomain(host))
  }

  /** The Brazilian sample description gives a BRL record worth 299.90,
      whatever the shop's domain. */
  lemma BrazilianSampleProduct(render: Renderer, meta: Metadata, url: string, host: Option<string>, a: string, b: string)
    requires a == "Produto incrível por apenas " && b == "R$ 299,90"
    requires meta.description == Some(a + b)
    ensures var p := BuildProduct(render, meta, url, host);
            && p.moeda == "BRL" && p.valorNumerico == Some(299.9) && p.precoOriginal == b
            && p.preco == FormatPrice(render, Some(299.9), "BRL")
  {
    BrazilianSamplePrice(render, a, b);
  }

  // ---------------------------------------------------------------------
  // getAllProducts

  /** The number of rows `getAllProducts({ page, limit })` skips. */
  function Offset(page: int, limit: int): int {
    (page - 1) * limit
  }

  /** The first page starts at row 0, each page starts `limit` rows after the
      one before, and on pages from 1 with a non-negative limit the offset is
      never negative. */
  lemma OffsetSteps(page: int, limit: int)
    ensures Offset(1, limit) == 0
    ensures Offset(page + 1, limit) == Offset(page, limit) + limit
    ensures page >= 1 && limit >= 0 ==> Offset(page, limit) >= 0
  {
  }

  /** The pages tile the rows: a later page starts at or after the end of an
      earlier one, so no row is listed on two pages. */
  lemma {:induction false} PagesDisjoint(p: int, q: int, limit: int)
    requires p < q && limit >= 0
    ensures Offset(p, limit) + limit <= Offset(q, limit)
    decreases q - p
  {
    OffsetSteps(q - 1, limit);
    if p < q - 1 {
      PagesDisjoint(p, q - 1, limit);
    }
  }

  // ---------------------------------------------------------------------
  // getProductsWithCurrencyConversion

  /** `product.valor_numerico && product.moeda`: an amount that is neither
      null nor 0, and a non-empty currency. */
  predicate HasPrice(p: Product) {
    p.valorNumerico.Some? && p.valorNumerico.value != 0.0 && p.moeda != ""
  }

  /** A product the bulk conversion converts. */
  predicate Eligible(p: Product, target: string) {
    HasPrice(p) && p.moeda != target
  }

  /** The three fields a converted product gains. */
  datatype Extra = Extra(precoConvertido: string, moedaConvertida: string, taxaCambio: real)

  /** A product as the bulk conversion lists it: the stored fields, and the
      added ones when it was converted. */
  datatype Listed = Listed(product: Product, extra: Option<Extra>)

  /** The fields added to an eligible product converted with table `t`. */
  function ExtraWith(render: Renderer, t: RateTable, p: Product, target: string): Extra
    requires HasPrice(p)
  {
    var conv := ConvertWith(render, t, p.valorNumerico.value, p.moeda, target);
    Extra(conv.formatted, target, conv.rate)
  }

  /** The listing of one product of the page, where `answer` is what the rate
      service replies to that product's own request, if it makes one. */
  function ConvertOne(render: Renderer, c: Cache, now: int, answer: Fetch, p: Product, target: string): (l: Listed)
    ensures l.product == p
    ensures l.extra.Some? <==> Eligible(p, target)
  {
    if Eligible(p, target) then
      var (conv, _) := ConvertPrice(render, c, now, (base: string) => answer, p.valorNumerico.value, p.moeda, target);
      Listed(p, Some(Extra(conv.result.formatted, target, conv.result.rate)))
    else Listed(p, None)
  }

  /** `getProductsWithCurrencyConversion(target)` over the page `products`.
      `Promise.all` starts every conversion before any of them resumes, and
      `getExchangeRates` reads the cache before its first `await`, so every
      product sees the cache `c` as it was when the page was asked for; when
      that cache is stale, each eligible product sends its own request, and
      `answers(i)` is the reply to the request of the product at position
      `i`. Every product is listed, in its place and unchanged, and exactly
      the eligible ones gain the added fields; `ConvertAllTables` says what
      they gain. */
  function ConvertAll(render: Renderer, c: Cache, now: int, answers: nat -> Fetch,
                      products: seq<Product>, target: string): (r: seq<Listed>)
    ensures |r| == |products|
    ensures forall i :: 0 <= i < |products| ==>
      && r[i].product == products[i]
      && (r[i].extra.Some? <==> Eligible(products[i], target))
  {
    var r := seq(|products|, i requires 0 <= i < |products| => ConvertOne(render, c, now, answers(i), products[i], target));
    assert forall i :: 0 <= i < |products| ==> r[i] == ConvertOne(render, c, now, answers(i), products[i], target);
    r
  }

  /** The table each converted product of the page is converted with: the
      cached one while it is fresh; otherwise the table its own request
      brought back, or the default table when that request failed. Two
      products of one page may so be converted with different tables. */
  lemma ConvertAllTables(render: Renderer, c: Cache, now: int, answers: nat -> Fetch,
                         products: seq<Product>, target: string)
    ensures var r := ConvertAll(render, c, now, answers, products, target);
      IsFresh(c, now) ==>
        forall i :: 0 <= i < |products| && Eligible(products[i], target) ==>
          r[i].extra == Some(ExtraWith(render, c.rates, products[i], target))
    ensures var r := ConvertAll(render, c, now, answers, products, target);
      !IsFresh(c, now) ==>
        forall i :: 0 <= i < |products| && Eligible(products[i], target) && answers(i).Fetched? ==>
          r[i].extra == Some(ExtraWith(render, answers(i).rates, products[i], target))
    ensures var r := ConvertAll(render, c, now, answers, products, target);
      !IsFresh(c, now) ==>
        forall i :: 0 <= i < |products| && Eligible(products[i], target) && answers(i).FetchFailed? ==>
          r[i].extra == Some(ExtraWith(render, DefaultRates, products[i], target))
  {
    var r := ConvertAll(render, c, now, answers, products, target);
    forall i | 0 <= i < |products| && Eligible(products[i], target)
      ensures r[i].extra == Some(ExtraWith(render, GetExchangeRates(c, now, (base: string) => answers(i), "USD").0, products[i], target))
    {
      assert r[i] == ConvertOne(render, c, now, answers(i), products[i], target);
    }
  }

  /** Whether the request of the product at position `i` stores a table: the
      product is converted, the cache was stale when the page was asked for,
      and the service answered. */
  predicate Stores(c: Cache, now: int, answers: nat -> Fetch, products: seq<Product>, target: string, i: nat) {
    i < |products| && Eligible(products[i], target) && !IsFresh(c, now) && answers(i).Fetched?
  }

  /** The cache after the requests of the page complete in the order
      `settled` (positions in the page), starting from `acc`: each request
      that stores a table overwrites the cache with it, stamped `now`, and the
      others leave it alone. The result is `acc` or a table some request
      brought back. */
  function Settle(c: Cache, now: int, answers: nat -> Fetch, products: seq<Product>, target: string,
                  settled: seq<nat>, acc: Cache): (r: Cache)
    ensures r == acc || exists k :: 0 <= k < |settled| && Stores(c, now, answers, products, target, settled[k])
                                    && r == Cache(answers(settled[k]).rates, Some(now))
    decreases |settled|
  {
    if |settled| == 0 then acc
    else
      var i := settled[0];
      var next := if Stores(c, now, answers, products, target, i) then Cache(answers(i).rates, Some(now)) else acc;
      var r := Settle(c, now, answers, products, target, settled[1..], next);
      assert forall k :: 0 <= k < |settled| - 1 ==> settled[1..][k] == settled[k + 1];
      r
  }

  /** The cache once the page is listed, its requests having completed in the
      order `settled`. */
  function BulkCache(c: Cache, now: int, answers: nat -> Fetch, products: seq<Product>, target: string,
                     settled: seq<nat>): (r: Cache)
    ensures IsFresh(c, now) ==> r == c
  {
    var r := Settle(c, now, answers, products, target, settled, c);
    if IsFresh(c, now) then
      NoStoreKeeps(c, now, answers, products, target, settled, c);
      r
    else r
  }

  /** The last request to store a table decides the cache; when no request
      stores one, the cache is what it was. */
  lemma {:induction false} LastStoreWins(c: Cache, now: int, answers: nat -> Fetch, products: seq<Product>,
                                         target: string, settled: seq<nat>, acc: Cache, k: nat)
    requires k < |settled| && Stores(c, now, answers, products, target, settled[k])
    requires forall m :: k < m < |settled| ==> !Stores(c, now, answers, products, target, settled[m])
    ensures Settle(c, now, answers, products, target, settled, acc) == Cache(answers(settled[k]).rates, Some(now))
    decreases |settled|
  {
    var i := settled[0];
    var next := if Stores(c, now, answers, products, target, i) then Cache(answers(i).rates, Some(now)) else acc;
    var tail := settled[1..];
    if k == 0 {
      assert forall m :: 0 <= m < |tail| ==> !Stores(c, now, answers, products, target, tail[m]) by {
        forall m | 0 <= m < |tail| ensures !Stores(c, now, answers, products, target, tail[m]) {
          assert tail[m] == settled[m + 1];
        }
      }
      NoStoreKeeps(c, now, answers, products, target, tail, next);
    } else {
      assert tail[k - 1] == settled[k];
      forall m | k - 1 < m < |tail| ensures !Stores(c, now, answers, products, target, tail[m]) {
        assert tail[m] == settled[m + 1];
      }
      LastStoreWins(c, now, answers, products, target, tail, next, k - 1);
    }
  }

  /** Requests that store nothing leave the cache alone. */
  lemma {:induction false} NoStoreKeeps(c: Cache, now: int, answers: nat -> Fetch, products: seq<Product>,
                                        target: string, settled: seq<nat>, acc: Cache)
    requires IsFresh(c, now) || forall m :: 0 <= m < |settled| ==> !Stores(c, now, answers, products, target, settled[m])
    ensures Settle(c, now, answers, products, target, settled, acc) == acc
    decreases |settled|
  {
    if |settled| > 0 {
      var tail := settled[1..];
      assert !Stores(c, now, answers, products, target, settled[0]);
      forall m | 0 <= m < |tail| ensures !Stores(c, now, answers, products, target, tail[m]) {
        assert tail[m] == settled[m + 1];
      }
      NoStoreKeeps(c, now, answers, products, target, tail, acc);
    }
  }

  // ---------------------------------------------------------------------
  // convertProductPrice

  /** One side of a price conversion; `amount` and `formatted` are None when
      undefined. */
  datatype Side = Side(amount: Option<real>, currency: string, formatted: Option<string>)

  /** The object `convertProductPrice` returns. */
  datatype PriceConversion = PriceConversion(product: Product, conversion: Conversion, original: Side, converted: Side)

  const ConvertFailure: string := "Failed to convert price: "
  const NotFound: string := "Product not found"
  const NoPriceInfo: string := "Product does not have valid price information"

  /** `convertProductPrice(id, target)`, where `stored` is the product the
      database holds under `id`: the answer and the cache afterwards. */
  function ConvertProductPrice(render: Renderer, c: Cache, now: int, source: string -> Fetch,
                               stored: Option<Product>, target: string): (r: (Result<PriceConversion, string>, Cache))
    ensures stored.None? ==> r == (Err(ConvertFailure + NotFound), c)
    ensures stored.Some? && !HasPrice(stored.value) ==> r == (Err(ConvertFailure + NoPriceInfo), c)
    ensures stored.Some? && HasPrice(stored.value) ==>
      var p := stored.value;
      && r.0.Ok? && r.0.value.product == p
      && r.0.value.original == Side(p.valorNumerico, p.moeda, Some(p.preco))
      && r.0.value.converted.currency == target
    ensures stored.Some? && HasPrice(stored.value) && stored.value.moeda == target ==>
      && r.0.value.conversion == Unchanged(stored.value.valorNumerico.value)
      && r.0.value.converted.amount.None? && r.0.value.converted.formatted.None?
      && r.1 == c
    ensures stored.Some? && HasPrice(stored.value) && stored.value.moeda != target ==>
      var p := stored.value;
      var (t, c1) := GetExchangeRates(c, now, source, "USD");
      && r.1 == c1
      && r.0.value.conversion.Done?
      && r.0.value.conversion.result.rate == RateOr1(t, target)
      && r.0.value.converted.amount == Some(r.0.value.conversion.result.amount)
      && r.0.value.converted.amount.value * PerUsd(t, p.moeda) == p.valorNumerico.value * PerUsd(t, target)
      && r.0.value.converted.formatted == Some(FormatPrice(render, r.0.value.converted.amount, target))
  {
    match stored
    case None => (Err(ConvertFailure + NotFound), c)
    case Some(p) =>
      if !HasPrice(p) then (Err(ConvertFailure + NoPriceInfo), c)
      else
        var (conv, c1) := ConvertPrice(render, c, now, source, p.valorNumerico.value, p.moeda, target);
        var converted := match conv
          case Unchanged(_) => Side(None, target, None)
          case Done(x) => Side(Some(x.amount), target, Some(x.formatted));
        (Ok(PriceConversion(p, conv, Side(p.valorNumerico, p.moeda, Some(p.preco)), converted)), c1)
  }

  /** The bulk and the single conversion agree: from the same cache at the
      same clock reading, with the same reply from the rate service, a
      product the bulk converts gets the price text the single conversion
      reports, and a product without price information is left alone by the
      one and refused by the other. When the product's request is the only
      one of the page, the two leave the same cache behind. */
  lemma BulkAgreesWithSingle(render: Renderer, c: Cache, now: int, source: string -> Fetch, answers: nat -> Fetch,
                             products: seq<Product>, target: string, i: nat)
    requires i < |products|
    requires answers(i) == source("USD")
    ensures var listed := ConvertAll(render, c, now, answers, products, target)[i];
            var single := ConvertProductPrice(render, c, now, source, Some(products[i]), target).0;
            && (Eligible(products[i], target) ==>
                  single.Ok? && listed.extra.value.precoConvertido == single.value.converted.formatted.value)
            && (!HasPrice(products[i]) ==> listed.extra.None? && single == Err(ConvertFailure + NoPriceInfo))
    ensures Eligible(products[i], target) ==>
            BulkCache(c, now, answers, products, target, [i]) == ConvertProductPrice(render, c, now, source, Some(products[i]), target).1
  {
    ConvertAllTables(render, c, now, answers, products, target);
    if Eligible(products[i], target) && !IsFresh(c, now) && answers(i).Fetched? {
      LastStoreWins(c, now, answers, products, target, [i], c, 0);
    } else {
      NoStoreKeeps(c, now, answers, products, target, [i], c);
    }
  }
}
