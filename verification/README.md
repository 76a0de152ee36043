# Gimie API: the currency and product core, in Dafny

Gimie API turns a shop's product URL into a stored product record. It reads
the page's metadata, finds a price in the description, works out the
currency and formats the amount again. It also converts stored prices
between currencies with a cached table of exchange rates, and it validates
the requests that reach these operations.

This project models that core as pure Dafny functions and proves what they
do:

- **`Patterns`** holds the price regular expressions of the currency table
  as a small grammar. It defines the language each pattern accepts and a
  greedy matcher. The proofs show that the matcher returns the leftmost,
  longest match, which is what `String.prototype.match` reports for these
  patterns.
- **`Currencies`** and **`Extraction`** model `getCurrencyPatterns`,
  `formatPrice` and `extractPriceWithCurrency`. The table is walked in key
  order, and the first pattern that matches anywhere decides the currency.
- **`Cleaning`** and **`Numbers`** model `extractNumericValue`: the three
  deletion passes, `trim`, the per-currency handling of separators, and
  `parseFloat` read over exact reals.
- **`Rates`** and **`Conversion`** model `getExchangeRates`,
  `getDefaultRates` and `convertPrice`. The one-hour cache is a state, and
  the clock reading and the rate service's answer are inputs.
- **`Domains`** models `detectCurrencyFromDomain`.
- **`Products`** models these parts of the product service:
  - `extractPrice`, `extractDomain`, and the record that
    `createProductFromUrl` builds;
  - the page offset of `getAllProducts`;
  - `convertProductPrice`, and the bulk conversion of
    `getProductsWithCurrencyConversion`.
- **`Validation`** models the three request validators `validateUrl`,
  `validateProduct` and `validateId`.

Some behaviours of the code are proved as they are:

- The `$` pattern of USD comes before `C$` of CAD, so `C$ 10.00` is read as
  10 US dollars.
- Matches that begin with `EUR`, `CAD`, `AUD` or `MXN` read as NaN. So do
  matches that begin with `price` or `preço` in any letter case. The first
  cleaning pass deletes single capital letters out of these codes and at
  most the capital `R` of a label, and no pass deletes the rest of a label.
- A currency word in capitals is not deleted whole: the first pass takes
  its capital `R`, `A`, `C`, `M` and `X`, and the word pass then misses what
  is left, so `10,50 REAIS` cleans to `10,50 EIS`. It still reads 10.5,
  because `parseFloat` stops at the first letter.
- `amazon.com.mx`, `amazon.com.au` and `ebay.com.au` can never win the
  domain lookup, because an earlier and shorter entry is always contained.
- The URL allowlist refuses `www.amazon.com` and `www.amazon.de`. The
  service's currency tests post exactly these URLs and expect success.
- The description bound accepts 1000 characters, although its message says
  "less than 1000".
- For BRL and EUR, `R$ 1,234,56` reads 1 and `R$ 1,234.56` reads 1.234.
  With two commas the text is not split, and `parseFloat` stops at the first
  comma. With a comma and then a period, the comma becomes the decimal point
  and `parseFloat` stops at the period.
- A currency code the rate table does not know converts at par and reports
  rate 1 (`Conversion.UnknownCodeAtPar`). So `GET /:id/convert/INVALID`
  answers with a conversion. The route does not check the code
  (src/routes/products.js:133-141), while tests/currency.test.js:87-93
  expects status 400.

## Model

| member | source | states |
|---|---|---|
| Patterns.MatchAtSound | src/services/CurrencyService.js:16-67 | whatever the greedy matcher reads at a position, the pattern's regular language accepts |
| Patterns.MatchAtLongest | src/services/CurrencyService.js:16-67 | every span the pattern accepts at a position is at most as long as the greedy reading, so the greedy reading is the longest match there |
| Patterns.Find | src/services/CurrencyService.js:81 | `text.match(pattern)` is null exactly when the pattern accepts no span of the text; otherwise it is the leftmost start with any match, and the longest match there |
| Patterns.WholeMatchNoPoint | src/services/CurrencyService.js:46-48 | a pattern without a fraction, whose literals hold no period, never matches a span containing a period |
| Currencies.YenMatchNoPoint | src/services/CurrencyService.js:46-48 | no span a JPY pattern matches contains a decimal point |
| Currencies.FormatOf | src/services/CurrencyService.js:131-142 | a formatter exists exactly for the eight known codes |
| Currencies.FormatPriceShape | src/services/CurrencyService.js:130-144 | each of the eight known codes prints its own fixed prefix (`R$ `, `$ `, `€ `, `£ `, `¥ `, `C$ `, `A$ `, `MX$ `) and the amount in its own locale, with 0 fraction digits for JPY and 2 otherwise, and the printed symbol gives the code back; any other code prints itself, a space and the plain amount |
| Extraction.FirstHitFromSound | src/services/CurrencyService.js:79-94 | once the entries before `k` have failed, the walk over the table returns the first entry that matches, with its first match, or it establishes that no entry matches |
| Extraction.ExtractPriceWithCurrency | src/services/CurrencyService.js:74-97 | the result is null exactly for an absent or empty text, or when no pattern matches; otherwise the code is a known one, the amount is the cleaning of the matched text, and the formatted text is `formatPrice` of that amount |
| Extraction.ExtractionFromFirstHit | src/services/CurrencyService.js:79-91 | a record's currency is that of the first entry to match, and its original text is that entry's first match |
| Extraction.ExtractionOfHit | src/services/CurrencyService.js:82-91 | given the first hit, the whole record is determined |
| Extraction.FirstHitUnique | src/services/CurrencyService.js:79-94 | the first hit is unique, so the contract determines the result |
| Extraction.EntryRuledOut | src/services/CurrencyService.js:16-67 | a pattern cannot match a text that lacks a character of its literal |
| Extraction.CanadianPriceReadAsDollars | src/services/CurrencyService.js:24 | `C$ 10.00` is reported as USD with the original text `$ 10.00` and the amount 10 |
| Extraction.BrazilianSamplePrice | tests/currency.test.js:41 | the Brazilian sample description yields BRL, the original text `R$ 299,90` and the amount 299.90 |
| Extraction.EnglishSamplePrice | tests/currency.test.js:49 | the English sample description yields USD, the original text `$199.99` and the amount 199.99 |
| Extraction.RealsWordValue | src/services/CurrencyService.js:102-124 | `10,50 reais` in BRL reads 10.5 |
| Extraction.ShoutedRealsWordValue | src/services/CurrencyService.js:102-124 | `10,50 REAIS` in BRL reads 10.5 |
| Extraction.ShoutedLabelNaN | src/services/CurrencyService.js:102-124 | `PRICE: 12` reads as NaN in every currency |
| Extraction.CodeTenValue | src/services/CurrencyService.js:102-124 | `USD 10.00` in USD reads 10 |
| Extraction.RealsTwoCommasValue | src/services/CurrencyService.js:111-120 | `R$ 1,234,56` in BRL reads 1 |
| Extraction.RealsCommaThenPointValue | src/services/CurrencyService.js:111-117 | `R$ 1,234.56` in BRL reads 1.234 |
| Numbers.ParseFloat | src/services/CurrencyService.js:117-123 | `parseFloat` is NaN exactly when the text, after leading white space and an optional sign, starts with neither a digit nor a point followed by a digit (text spelling `Infinity` aside) |
| Numbers.ParseFloatDecimal | src/services/CurrencyService.js:117 | the digits, a point, then the digits read as the exact decimal they denote |
| Numbers.ParseFloatIgnoresTail | src/services/CurrencyService.js:117-123 | behind a number without an exponent, a tail with no digit, point or sign changes nothing in what `parseFloat` reads |
| Cleaning.DecimalCommaValue | src/services/CurrencyService.js:104-117 | for BRL and EUR, a symbol, an optional white-space character, then digits grouped by `.` with a `,` fraction read as the grouped digits plus the fraction |
| Cleaning.DecimalCommaWhole | src/services/CurrencyService.js:111-120 | for BRL and EUR, a number without a comma loses its periods and reads as an integer |
| Cleaning.DecimalPointValue | src/services/CurrencyService.js:121-124 | for every other code, digits grouped by `,` with a `.` fraction read as the grouped digits plus the fraction |
| Cleaning.DecimalPointWhole | src/services/CurrencyService.js:121-124 | for every other code, a number without a point loses its commas and reads as an integer |
| Cleaning.CleanWordSuffixed | src/services/CurrencyService.js:104-108 | a number followed by white space and a lower-case currency word cleans to the number alone |
| Cleaning.WordSuffixValue | src/services/CurrencyService.js:104-124 | a number followed by white space and a word of ASCII letters, so a currency word in any letter case, reads as the number alone, for every currency |
| Cleaning.CleanLettersSuffixed | src/services/CurrencyService.js:104-108 | behind a number and white space, the three passes reach only the letters; the trim keeps the white space exactly when some of the letters survive |
| Cleaning.CleanCodePrefixed | src/services/CurrencyService.js:104-108 | `USD`, `GBP` or `JPY`, an optional white-space character and a number clean to the number alone |
| Cleaning.CodePrefixValue | src/services/CurrencyService.js:104-124 | `USD`, `GBP` or `JPY`, an optional white-space character and a number read as the number alone, for every currency |
| Cleaning.TwoCommasValue | src/services/CurrencyService.js:111-120 | for BRL and EUR, a symbol, an optional white-space character and three digit runs joined by two commas read as the first run alone |
| Cleaning.CommaThenPointValue | src/services/CurrencyService.js:111-117 | for BRL and EUR, a symbol, an optional white-space character and digit runs `a,b.c` read as `a.b` |
| Cleaning.BrokenCodeNaN | src/services/CurrencyService.js:105-107 | a text that begins with `EUR`, `CAD`, `AUD` or `MXN` followed by no letters reads as NaN for every currency |
| Cleaning.LabelNaN | src/services/CurrencyService.js:104-124 | a text that begins with `price` or `preço` in any letter case reads as NaN, whatever follows |
| Rates.DefaultRatesKnown | src/services/CurrencyService.js:177-188 | the default table knows exactly the eight codes, each at a positive rate, with USD at 1 |
| Rates.FreshCacheAnswers | src/services/CurrencyService.js:154-156 | a cache younger than an hour with a truthy time stamp answers every base and does not change |
| Rates.StaleCacheAsks | src/services/CurrencyService.js:159-171 | a stale cache asks the service; a table the service sends is returned and cached with the time of the call, and a failure returns the defaults and keeps the cache |
| Rates.FetchedTableServesTheHour | src/services/CurrencyService.js:154-164 | for an hour after a successful fetch, every call is answered from the cache, whatever the service or the base |
| Rates.StaleAfterTheHour | src/services/CurrencyService.js:154 | after an hour the cache is stale again |
| Rates.FailureIsRetried | src/services/CurrencyService.js:167-171 | a failed fetch leaves the cache stale, so the next call asks again |
| Rates.FirstCallFetches | src/services/CurrencyService.js:5-6 | a new service has no cache, so its first call always asks the service |
| Rates.RepeatAtSameInstant | src/services/CurrencyService.js:149-172 | given the same answer from the rate service, a second call at the same clock reading repeats the answer and leaves the cache as it is |
| Rates.CacheHoldsFetchedTable | src/services/CurrencyService.js:163-164 | the cache only ever holds a table the service sent, stamped with the time of the call that fetched it |
| Conversion.RateOr1 | src/services/CurrencyService.js:201-202 | a missing rate and a zero rate both count as 1, and any other rate is used as it is |
| Conversion.ConvertWith | src/services/CurrencyService.js:200-210 | the converted amount times the source's rate equals the original amount times the target's; USD to USD is the identity; the reported rate is the target's |
| Conversion.ConvertPrice | src/services/CurrencyService.js:193-211 | equal codes give the bare amount and leave the cache alone; different codes read the USD-based table and convert with it |
| Conversion.ConversionAmount | src/services/CurrencyService.js:201-202 | the amount is divided by the source's rate and multiplied by the target's |
| Conversion.RoundTrip | src/services/CurrencyService.js:201-202 | converting there and back with the same table gives the amount back |
| Conversion.Composition | src/services/CurrencyService.js:201-202 | converting through a third currency equals converting directly |
| Conversion.Linear | src/services/CurrencyService.js:201-202 | conversion is additive in the amount |
| Conversion.UnknownCodeAtPar | src/services/CurrencyService.js:201-209 | a code the table does not know converts to and from USD at par, and reports rate 1 |
| Conversion.DefaultDollarToReal | src/services/CurrencyService.js:180 | with the default table, 100 US dollars are 520 reais, at the reported rate 5.2 |
| Domains.DetectCurrencyFromDomain | src/services/CurrencyService.js:216-257 | an unparsable URL gives USD; otherwise the lower-cased host gets the code of the first table domain it contains, or USD when it contains none |
| Domains.DetectFromSound | src/services/CurrencyService.js:247-253 | once the rules before `k` have failed, the walk gives the code of the first contained domain, or the fallback |
| Domains.NeverMexicanOrAustralian | src/services/CurrencyService.js:227-244 | no URL is ever mapped to MXN or AUD |
| Domains.AmazonBrazil | tests/currency.test.js:10-14 | `www.amazon.com.br` is detected as BRL |
| Domains.AmazonUnitedStates | tests/currency.test.js:20-24 | `www.amazon.com` is detected as USD |
| Domains.AmazonMexicoReadAsUnitedStates | src/services/CurrencyService.js:227-235 | `amazon.com.mx` is detected as USD |
| Domains.AmazonGermany | tests/currency.test.js:30-34 | `www.amazon.de` is detected as EUR |
| Products.ExtractPrice | src/services/ProductService.js:135-153 | the result is null exactly for an absent or empty text, or when none of the three BRL patterns matches; otherwise it is the first match of the first pattern that matches |
| Products.ExtractPriceAgrees | src/services/ProductService.js:139-143 | the legacy finder finds a price exactly when the currency extractor reports one in BRL, and it finds the same text |
| Products.ExtractDomain | src/services/ProductService.js:243-250 | an unparsable URL gives `unknown`; otherwise the host loses the first occurrence of `www.`, wherever it is, and nothing else |
| Products.WwwPrefixDropped | src/services/ProductService.js:246 | a host that begins with `www.` loses exactly that prefix |
| Products.BuildProduct | src/services/ProductService.js:52-70 | the name is the page title when that is non-empty and `Sem título` otherwise; the image and description are the metadata's when non-empty and empty otherwise; the URL is the metadata's when non-empty and the requested one otherwise; the site comes from `extractDomain`, the currency is a known one and the amount is never 0. Without an extracted price the record has the placeholder text and the currency of the domain. With one, it has the extracted text, currency and formatted price, and the amount unless it is NaN or 0 |
| Products.BrazilianSampleProduct | src/services/ProductService.js:52-63 | the Brazilian sample description gives a BRL record worth 299.90, whatever the domain |
| Products.OffsetSteps | src/services/ProductService.js:17 | page 1 starts at row 0, each page starts `limit` rows after the previous one, and the offset is not negative for valid arguments |
| Products.PagesDisjoint | src/services/ProductService.js:17 | a later page starts at or after the end of an earlier one |
| Products.ConvertOne | src/services/ProductService.js:202-222 | one product is listed unchanged, and it gains the added fields exactly when it has a truthy amount, a currency and a currency other than the target |
| Products.ConvertAll | src/services/ProductService.js:199-226 | every product is listed in its place and unchanged, and exactly the products with a truthy amount, a currency and a currency other than the target gain the added fields |
| Products.ConvertAllTables | src/services/ProductService.js:201-216 | every converted product reads the cache as it was when the page was asked for: with a fresh cache it is converted with the cached table; with a stale one, with the table its own request brought back, or with the default table when that request failed |
| Products.Settle | src/services/CurrencyService.js:159-171 | once the page's requests have completed, the cache is the one before or the table of some converted product's successful request, stamped with the clock reading |
| Products.BulkCache | src/services/ProductService.js:201-216 | a page listed while the cache is fresh leaves the cache unchanged |
| Products.LastStoreWins | src/services/CurrencyService.js:163-164 | of the requests that brought a table back, the last one to complete decides the cache |
| Products.NoStoreKeeps | src/services/CurrencyService.js:154-171 | when no request brings a table back, or the cache was fresh, the cache is unchanged |
| Products.ConvertProductPrice | src/services/ProductService.js:158-192 | a missing product and one without a truthy amount or currency give their prefixed errors and leave the cache alone; otherwise the answer keeps the product and its original side. For the same code the conversion is the bare amount, nothing is converted and the cache is unchanged; for another code the conversion object carries the target's rate from the USD table, and the converted amount is its amount, in proportion to the two codes' rates |
| Products.BulkAgreesWithSingle | src/services/ProductService.js:158-216 | from the same cache, clock reading and reply of the rate service, a product the bulk conversion converts gets the price text the single conversion reports, and when its request is the only one of the page both leave the same cache; a product without price information is skipped by the one and refused by the other |
| Validation.Respond | src/middleware/validation.js:34-44 | the request goes on exactly when there is no error; otherwise it is answered with status 400, `Validation failed` and the errors |
| Validation.SupportedHost | src/middleware/validation.js:12-33 | the custom rule passes exactly when the URL parses and its lower-cased host, with the first `www.` removed, contains an allowed domain |
| Validation.UrlErrors | src/middleware/validation.js:6-33 | there are no errors exactly when the URL has valid syntax, has 10 to 2048 characters and passes the custom rule; each of the three messages appears exactly when its own check fails |
| Validation.AmazonUnitedStatesRejected | src/middleware/validation.js:14-27 | `www.amazon.com` fails the custom rule |
| Validation.AmazonGermanyRejected | src/middleware/validation.js:14-27 | `www.amazon.de` fails the custom rule |
| Validation.LookalikeHostPasses | src/middleware/validation.js:25 | a host that only contains an allowed domain, such as `amazon.com.br.example.net`, passes |
| Validation.PriceFormatIff | src/middleware/validation.js:56-59 | the price rule holds exactly when the anchored pattern accepts the whole text |
| Validation.SamplePriceAccepted | src/middleware/validation.js:58-59 | `R$ 1.234,56`, the format the message shows, passes |
| Validation.UngroupedPriceRejected | src/middleware/validation.js:58 | `R$1234` fails, because the longest reading stops after `R$123` |
| Validation.DollarPriceRejected | src/middleware/validation.js:58 | a price that starts with `$` fails |
| Validation.ProductErrors | src/middleware/validation.js:50-67 | there are no errors exactly when every present field passes its rule; each field's message appears exactly when its rule fails; there are at most four errors |
| Validation.DescriptionBoundInclusive | src/middleware/validation.js:66-67 | a description of 1000 characters passes and one of 1001 fails |
| Validation.IdErrors | src/middleware/validation.js:84-87 | there is no error exactly when the id is an integer of at least 1; otherwise there is the one id error |

## Left out

- Network and storage: the axios calls to the rate service and Microlink, the database, and the Express routes. The rate service's answer and the stored product are inputs, and the metadata is a parameter.
- `toLocaleString` and the default number-to-string conversion belong to the runtime's internationalisation library. They are a `Renderer` parameter.
- URL parsing, `isURL` and `isLength` belong to the runtime and the validator library. Their results are inputs: a host name or None, a syntax verdict, a character count.
- IEEE doubles: all arithmetic is on exact reals, so rounding in `parseFloat` and in the conversions is not modelled.
- `Promise.all` in the bulk conversion: every conversion reads the cache before any request is answered. With a stale cache, each converted product sends its own request and gets its own reply, which is an input. The order in which the requests complete is a parameter of `BulkCache`. Failures that happen after the cache has been written are not modelled.
- Each call to `Date.now()` is one clock reading. The bulk conversion uses one reading for every product of the page.
- Numbers.ParseFloat: the `Infinity` literal is not modelled, so its NaN iff does not hold for text starting with `Infinity` or a sign and `Infinity`; no price match can begin with it.
- The `created_at` and `updated_at` time stamps and the record's id are set by the clock and the database.
- `console.warn` does not affect any result.
- The bulk conversion's `catch` branch is left out: `convertPrice` cannot throw once the rate lookup has answered, so it is unreachable in the model.
- `toLowerCase` is modelled on ASCII letters only.
- The integer syntax of `isInt` is an input: the route parameter is read as an integer, or None.
- The `trim` sanitizer of `nome` changes the stored value, not the verdict, so it is left out.
- `getProductById`, `updateProduct` and `deleteProduct` only pass through to the database.
- `ProductService.getExchangeRates` only turns the rate map into an object.
- `extractMetadata` is network only.
- ExtractPriceWithCurrency: its own contract does not name the entry that decides. `ExtractionFromFirstHit` and `ExtractionOfHit` pin the code and the original text to the first hit.
- The `try`/`catch` around the URL parser in `detectCurrencyFromDomain` and `extractDomain` is modelled by the host being None.
