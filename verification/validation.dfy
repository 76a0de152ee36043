/** The request validators: the URL of a new product, the fields of a product
    update, and the id of a route. Each validator collects one error per
    failing rule, in the order the rules are declared, and a non-empty list
    answers the request with status 400. The validator library's own checks
    (URL syntax, character counting, integer syntax) are inputs. */
module Validation {
  import opened Wrappers
  import opened Text
  import opened Patterns

  /** One entry of the error list: the field and the message. */
  datatype FieldError = FieldError(path: string, msg: string)

  /** What a validator does with the request: hand it on, or answer it. */
  datatype Outcome =
    | Next
    | Rejected(status: nat, success: bool, message: string, errors: seq<FieldError>)

  /** The handler closing each validator. */
  function Respond(errors: seq<FieldError>): (r: Outcome)
    ensures r.Next? <==> errors == []
    ensures r.Rejected? ==> r == Rejected(400, false, "Validation failed", errors)
  {
    if errors == [] then Next else Rejected(400, false, "Validation failed", errors)
  }

  /** One rule of a field: no error when it holds, its message otherwise. */
  function Check(path: string, holds: bool, msg: string): seq<FieldError> {
    if holds then [] else [FieldError(path, msg)]
  }

  // ---------------------------------------------------------------------
  // validateUrl

  /** The shops a product URL may come from. */
  const AllowedDomains: seq<string> := [
    "amazon.com.br", "mercadolivre.com.br", "magazineluiza.com.br",
    "americanas.com.br", "submarino.com.br", "shoptime.com.br",
    "nike.com.br", "adidas.com.br", "zara.com", "hm.com",
    "renner.com.br", "c&a.com.br", "riachuelo.com.br"
  ]

  /** The host name the allowlist is compared with: lower case, with its first
      `www.` removed wherever it occurs. */
  function ComparedHost(host: string): string {
    RemoveFirst(ToLowerAscii(host), "www.")
  }

  /** `allowedDomains.some(d => domain.includes(d))`, from entry `k` on. */
  function SomeAllowedFrom(domain: string, k: nat): (r: bool)
    requires k <= |AllowedDomains|
    ensures r <==> exists m :: k <= m < |AllowedDomains| && Contains(domain, AllowedDomains[m])
    decreases |AllowedDomains| - k
  {
    if k == |AllowedDomains| then false
    else Contains(domain, AllowedDomains[k]) || SomeAllowedFrom(domain, k + 1)
  }

  /** The custom rule of `validateUrl` passes: the URL parses (`host` is its
      host name, None when the parser throws) and the compared host contains
      an allowed domain. */
  function SupportedHost(host: Option<string>): (r: bool)
    ensures r <==> host.Some? && exists m :: 0 <= m < |AllowedDomains| && Contains(ComparedHost(host.value), AllowedDomains[m])
  {
    host.Some? && SomeAllowedFrom(ComparedHost(host.value), 0)
  }

  const UrlSyntaxMsg: string := "URL must be a valid HTTP or HTTPS URL"
  const UrlLengthMsg: string := "URL must be between 10 and 2048 characters"
  const UrlFormatMsg: string := "Invalid URL format"

  /** The errors `validateUrl` collects for `url`: `isHttpUrl` is the library's
      verdict on its syntax, `length` its character count, `host` its parsed
      host name. The custom rule reports every failure, a parse error or a
      shop off the list, as `Invalid URL format`. */
  function UrlErrors(isHttpUrl: bool, length: nat, host: Option<string>): (errors: seq<FieldError>)
    ensures errors == [] <==> isHttpUrl && 10 <= length <= 2048 && SupportedHost(host)
    ensures forall e :: e in errors ==> e.path == "url"
    ensures (FieldError("url", UrlSyntaxMsg) in errors) <==> !isHttpUrl
    ensures (FieldError("url", UrlLengthMsg) in errors) <==> !(10 <= length <= 2048)
    ensures (FieldError("url", UrlFormatMsg) in errors) <==> !SupportedHost(host)
    ensures !isHttpUrl ==> |errors| > 0 && errors[0] == FieldError("url", UrlSyntaxMsg)
  {
    Check("url", isHttpUrl, UrlSyntaxMsg)
    + Check("url", 10 <= length <= 2048, UrlLengthMsg)
    + Check("url", SupportedHost(host), UrlFormatMsg)
  }

  /** Containment, not a suffix test: a host that merely holds an allowed
      domain passes, wherever the domain sits in it. */
  lemma HoldingAllowedDomainPasses(host: string, m: nat)
    requires m < |AllowedDomains| && Contains(ComparedHost(host), AllowedDomains[m])
    ensures SupportedHost(Some(host))
  {
  }

  /** Every allowed domain holds a `b`, an `r` or an `h`. */
  lemma AllowedDomainLetters()
    ensures forall m :: 0 <= m < |AllowedDomains| ==> 'b' in AllowedDomains[m] || 'r' in AllowedDomains[m] || 'h' in AllowedDomains[m]
  {
    forall m | 0 <= m < |AllowedDomains|
      ensures 'b' in AllowedDomains[m] || 'r' in AllowedDomains[m] || 'h' in AllowedDomains[m]
    {
      var d := AllowedDomains[m];
      if m == 8 {
        assert d[2] == 'r';
      } else if m == 9 {
        assert d[0] == 'h';
      } else {
        assert d[|d| - 2] == 'b';
      }
    }
  }

  /** A host without `b`, `r` and `h` holds no allowed domain. */
  lemma LettersMissingFails(host: string)
    requires 'b' !in ComparedHost(host) && 'r' !in ComparedHost(host) && 'h' !in ComparedHost(host)
    ensures !SupportedHost(Some(host))
  {
    AllowedDomainLetters();
    var d := ComparedHost(host);
    forall m | 0 <= m < |AllowedDomains|
      ensures !Contains(d, AllowedDomains[m])
    {
      if 'b' in AllowedDomains[m] {
        MissingCharNotContained(d, AllowedDomains[m], 'b');
      } else if 'r' in AllowedDomains[m] {
        MissingCharNotContained(d, AllowedDomains[m], 'r');
      } else {
        MissingCharNotContained(d, AllowedDomains[m], 'h');
      }
    }
  }

  /** A lower-case `www.` host whose rest lacks `b`, `r` and `h` is refused. */
  lemma WwwHostRejected(rest: string)
    requires forall k :: 0 <= k < |rest| ==> !('A' <= rest[k] <= 'Z')
    requires 'b' !in rest && 'r' !in rest && 'h' !in rest
    ensures !SupportedHost(Some("www." + rest))
  {
    var h := "www." + rest;
    forall k | 0 <= k < |h|
      ensures !('A' <= h[k] <= 'Z')
    {
      if k < 4 {
        assert h[k] == "www."[k];
      } else {
        assert h[k] == rest[k - 4];
      }
    }
    LowerOfLower(h);
    RemoveFirstOfPrefix("www.", rest);
    assert ComparedHost(h) == rest;
    LettersMissingFails(h);
  }

  /** `www.amazon.com` is not on the list, so a request to add a product from
      it is answered with `Invalid URL format`. */
  lemma AmazonUnitedStatesRejected(rest: string)
    requires rest == "amazon.com"
    ensures !SupportedHost(Some("www." + rest))
  {
    WwwHostRejected(rest);
  }

  /** Nor is `www.amazon.de`. */
  lemma AmazonGermanyRejected(rest: string)
    requires rest == "amazon.de"
    ensures !SupportedHost(Some("www." + rest))
  {
    WwwHostRejected(rest);
  }

  /** A host that only begins with an allowed domain passes too. */
  lemma LookalikeHostPasses(h: string)
    requires h == "amazon.com.br.example.net"
    ensures SupportedHost(Some(h))
  {
    LookalikeHostCompared(h);
    assert StartsAt(h, 0, AllowedDomains[0]);
    ContainsIff(h, AllowedDomains[0]);
    HoldingAllowedDomainPasses(h, 0);
  }

  lemma LookalikeHostCompared(h: string)
    requires h == "amazon.com.br.example.net"
    ensures ComparedHost(h) == h
  {
    LowerOfLower(h);
    assert 'w' in "www." && 'w' !in h;
    MissingCharNotContained(h, "www.", 'w');
  }

  // ---------------------------------------------------------------------
  // validateProduct

  /** `^R\$\s?\d{1,3}(?:[.,]\d{3})*(?:[.,]\d{2})?$`: the BRL symbol pattern of
      the price extractor, anchored at both ends. */
  const PricePattern: Pattern := Pattern(Prefix("R$"), Either, false)

  /** The whole of `s` is a price in the BRL format. The greedy reading from
      the start is the longest, so it covers `s` exactly when some reading
      does. */
  predicate PriceFormatOk(s: string) {
    MatchAt(s, 0, PricePattern) == Some(|s|)
  }

  lemma PriceFormatIff(s: string)
    ensures PriceFormatOk(s) <==> MatchSpan(s, 0, |s|, PricePattern)
  {
    if PriceFormatOk(s) {
      MatchAtSound(s, 0, PricePattern);
    }
    if MatchSpan(s, 0, |s|, PricePattern) {
      MatchAtLongest(s, 0, |s|, PricePattern);
      MatchAtSound(s, 0, PricePattern);
    }
  }

  /** The fields of a product update; None is an absent field, which the
      rules skip. */
  datatype ProductBody = ProductBody(nome: Option<string>, preco: Option<string>,
                                     imagem: Option<string>, descricao: Option<string>)

  /** The validator library's checks the product rules rely on. */
  datatype Library = Library(length: string -> nat, isUrl: string -> bool)

  const NomeMsg: string := "Product name must be between 1 and 255 characters"
  const PrecoMsg: string := "Price must be in format R$ 1.234,56"
  const ImagemMsg: string := "Image must be a valid URL"
  const DescricaoMsg: string := "Description must be less than 1000 characters"

  predicate NomeOk(lib: Library, nome: Option<string>) {
    nome.None? || 1 <= lib.length(nome.value) <= 255
  }

  predicate PrecoOk(preco: Option<string>) {
    preco.None? || PriceFormatOk(preco.value)
  }

  predicate ImagemOk(lib: Library, imagem: Option<string>) {
    imagem.None? || lib.isUrl(imagem.value)
  }

  predicate DescricaoOk(lib: Library, descricao: Option<string>) {
    descricao.None? || lib.length(descricao.value) <= 1000
  }

  /** The errors `validateProduct` collects, in field order. */
  function ProductErrors(lib: Library, body: ProductBody): (errors: seq<FieldError>)
    ensures errors == [] <==>
      NomeOk(lib, body.nome) && PrecoOk(body.preco) && ImagemOk(lib, body.imagem) && DescricaoOk(lib, body.descricao)
    ensures (FieldError("nome", NomeMsg) in errors) <==> !NomeOk(lib, body.nome)
    ensures (FieldError("preco", PrecoMsg) in errors) <==> !PrecoOk(body.preco)
    ensures (FieldError("imagem", ImagemMsg) in errors) <==> !ImagemOk(lib, body.imagem)
    ensures (FieldError("descricao", DescricaoMsg) in errors) <==> !DescricaoOk(lib, body.descricao)
    ensures |errors| <= 4
  {
    Check("nome", NomeOk(lib, body.nome), NomeMsg)
    + Check("preco", PrecoOk(body.preco), PrecoMsg)
    + Check("imagem", ImagemOk(lib, body.imagem), ImagemMsg)
    + Check("descricao", DescricaoOk(lib, body.descricao), DescricaoMsg)
  }

  /** The description bound is inclusive, whatever its message says: a
      description of exactly 1000 characters passes, one of 1001 fails. */
  lemma DescriptionBoundInclusive(lib: Library, d: string)
    ensures lib.length(d) == 1000 ==> DescricaoOk(lib, Some(d))
    ensures lib.length(d) == 1001 ==> !DescricaoOk(lib, Some(d))
  {
  }

  /** `R$ 1.234,56`, the format the message shows, passes. */
  lemma SamplePriceAccepted(s: string)
    requires s == "R$ 1.234,56"
    ensures PriceFormatOk(s)
  {
    assert s[0] == 'R' && s[1] == '$' && s[2] == ' ' && s[3] == '1' && s[4] == '.' && s[5] == '2';
    assert s[6] == '3' && s[7] == '4' && s[8] == ',' && s[9] == '5' && s[10] == '6';
    assert LitAt(s, 0, "R$", false);
    assert LeadEnd(s, 3) == 4;
    assert GroupAt(s, 4, Either) && !GroupAt(s, 8, Either);
    assert GroupsEnd(s, 8, Either) == 8;
    assert GroupsEnd(s, 4, Either) == 8;
    assert FractionAt(s, 8, Either);
  }

  /** `R$1234` fails: at most three digits come before a separator, so the
      longest reading from the start stops after `R$123`. */
  lemma UngroupedPriceRejected(s: string)
    requires s == "R$1234"
    ensures MatchAt(s, 0, PricePattern) == Some(5)
    ensures !PriceFormatOk(s) && !MatchSpan(s, 0, |s|, PricePattern)
  {
    assert s[0] == 'R' && s[1] == '$' && s[2] == '1' && s[3] == '2' && s[4] == '3' && s[5] == '4';
    assert LitAt(s, 0, "R$", false);
    assert LeadEnd(s, 2) == 5;
    assert !GroupAt(s, 5, Either) && !FractionAt(s, 5, Either);
    PriceFormatIff(s);
  }

  /** A dollar price fails: the format demands the `R$` symbol. */
  lemma DollarPriceRejected(s: string)
    requires |s| > 0 && s[0] == '$'
    ensures !PriceFormatOk(s) && !MatchSpan(s, 0, |s|, PricePattern)
  {
    assert !LitAt(s, 0, "R$", false) by {
      assert !SameChar(s[0 + 0], "R$"[0], false);
    }
    PriceFormatIff(s);
  }

  // ---------------------------------------------------------------------
  // validateId

  const IdMsg: string := "ID must be a positive integer"

  /** The errors `validateId` collects; `id` is the route parameter read as an
      integer, None when it is not one. */
  function IdErrors(id: Option<int>): (errors: seq<FieldError>)
    ensures errors == [] <==> id.Some? && id.value >= 1
    ensures errors != [] ==> errors == [FieldError("id", IdMsg)]
  {
    Check("id", id.Some? && id.value >= 1, IdMsg)
  }
}
