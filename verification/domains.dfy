/** `detectCurrencyFromDomain`: the lower-cased host name is looked up in an
    ordered table of shop domains, by substring, and the first domain it
    contains gives the currency. A URL that does not parse, and a host that
    contains no domain of the table, give USD. */
module Domains {
  import opened Wrappers
  import opened Text
  import opened Currencies

  /** One entry of the domain table: a domain and the currency it implies. */
  datatype Rule = Rule(domain: string, code: string)

  /** The domain table, in the order of its keys. */
  const DomainRules: seq<Rule> := [
    Rule("amazon.com.br", "BRL"),        // 0
    Rule("mercadolivre.com.br", "BRL"),  // 1
    Rule("magazineluiza.com.br", "BRL"), // 2
    Rule("americanas.com.br", "BRL"),    // 3
    Rule("submarino.com.br", "BRL"),     // 4
    Rule("shoptime.com.br", "BRL"),      // 5
    Rule("amazon.com", "USD"),           // 6
    Rule("amazon.ca", "CAD"),            // 7
    Rule("amazon.co.uk", "GBP"),         // 8
    Rule("amazon.de", "EUR"),            // 9
    Rule("amazon.fr", "EUR"),            // 10
    Rule("amazon.it", "EUR"),            // 11
    Rule("amazon.es", "EUR"),            // 12
    Rule("amazon.co.jp", "JPY"),         // 13
    Rule("amazon.com.mx", "MXN"),        // 14
    Rule("amazon.com.au", "AUD"),        // 15
    Rule("ebay.com", "USD"),             // 16
    Rule("ebay.co.uk", "GBP"),           // 17
    Rule("ebay.de", "EUR"),              // 18
    Rule("ebay.fr", "EUR"),              // 19
    Rule("ebay.it", "EUR"),              // 20
    Rule("ebay.es", "EUR"),              // 21
    Rule("ebay.ca", "CAD"),              // 22
    Rule("ebay.com.au", "AUD")           // 23
  ]

  /** The fallback for an unknown host and for an unparsable URL. */
  const DefaultCode: string := "USD"

  /** Rule `k` is the first of the table whose domain `host` contains. */
  predicate FirstContained(host: string, k: nat) {
    && k < |DomainRules|
    && Contains(host, DomainRules[k].domain)
    && forall m :: 0 <= m < k ==> !Contains(host, DomainRules[m].domain)
  }

  /** `host` contains no domain of the table. */
  predicate NoneContained(host: string) {
    forall m :: 0 <= m < |DomainRules| ==> !Contains(host, DomainRules[m].domain)
  }

  /** Every rule names one of the eight known codes. */
  lemma RulesKnown()
    ensures forall k :: 0 <= k < |DomainRules| ==> IsKnownCode(DomainRules[k].code)
  {
  }

  /** The table walk from rule `k` on: the code of the first rule whose
      domain `host` contains, or the fallback. */
  function DetectFrom(host: string, k: nat): (r: string)
    requires k <= |DomainRules|
    ensures IsKnownCode(r)
    decreases |DomainRules| - k
  {
    if k == |DomainRules| then DefaultCode
    else if Contains(host, DomainRules[k].domain) then
      RulesKnown();
      DomainRules[k].code
    else DetectFrom(host, k + 1)
  }

  /** A host that contains no domain walks to the fallback. */
  lemma {:induction false} DetectFromNone(host: string, k: nat)
    requires k <= |DomainRules| && NoneContained(host)
    ensures DetectFrom(host, k) == DefaultCode
    decreases |DomainRules| - k
  {
    if k < |DomainRules| {
      DetectFromNone(host, k + 1);
    }
  }

  /** The walk from any `k` up to the first contained rule stops at that rule. */
  lemma {:induction false} DetectFromFirst(host: string, k: nat, n: nat)
    requires k <= n && FirstContained(host, n)
    ensures DetectFrom(host, k) == DomainRules[n].code
    decreases n - k
  {
    if k < n {
      assert !Contains(host, DomainRules[k].domain);
      DetectFromFirst(host, k + 1, n);
    }
  }

  /** Once the rules before `k` have failed, the walk from `k` gives the code
      of the first contained rule, and the fallback when there is none. */
  lemma DetectFromSound(host: string, k: nat)
    requires k <= |DomainRules|
    requires forall m :: 0 <= m < k ==> !Contains(host, DomainRules[m].domain)
    ensures NoneContained(host) ==> DetectFrom(host, k) == DefaultCode
    ensures forall n: nat :: k <= n && FirstContained(host, n) ==> DetectFrom(host, k) == DomainRules[n].code
  {
    if NoneContained(host) {
      DetectFromNone(host, k);
    }
    forall n: nat | k <= n && FirstContained(host, n)
      ensures DetectFrom(host, k) == DomainRules[n].code
    {
      DetectFromFirst(host, k, n);
    }
  }

  /** `detectCurrencyFromDomain(url)`, where `host` is the host name of the
      parsed URL and None stands for a URL the parser rejects. */
  function DetectCurrencyFromDomain(host: Option<string>): (r: string)
    ensures IsKnownCode(r)
    ensures host.None? ==> r == DefaultCode
    ensures host.Some? ==>
      var h := ToLowerAscii(host.value);
      && (NoneContained(h) ==> r == DefaultCode)
      && forall k: nat :: FirstContained(h, k) ==> r == DomainRules[k].code
  {
    match host
    case None => DefaultCode
    case Some(name) =>
      DetectFromSound(ToLowerAscii(name), 0);
      DetectFrom(ToLowerAscii(name), 0)
  }

  /** A host contains no domain of the table, or it has a first contained rule. */
  lemma {:induction false} SomeFirstContained(host: string, k: nat)
    requires k <= |DomainRules|
    requires forall m :: 0 <= m < k ==> !Contains(host, DomainRules[m].domain)
    ensures NoneContained(host) || exists n: nat :: k <= n && FirstContained(host, n)
    decreases |DomainRules| - k
  {
    if k < |DomainRules| {
      if Contains(host, DomainRules[k].domain) {
        assert FirstContained(host, k);
      } else {
        assert forall m :: 0 <= m < k + 1 ==> !Contains(host, DomainRules[m].domain);
        SomeFirstContained(host, k + 1);
      }
    }
  }

  // ---------------------------------------------------------------------
  // Shadowed entries.

  /** A host containing `amazon.com.mx` or `amazon.com.au` contains
      `amazon.com`, and one containing `ebay.com.au` contains `ebay.com`: the
      earlier, shorter rule wins, so no host is ever mapped to MXN or AUD. */
  lemma NeverMexicanOrAustralian(host: Option<string>)
    ensures DetectCurrencyFromDomain(host) != "MXN"
    ensures DetectCurrencyFromDomain(host) != "AUD"
  {
    if host.Some? {
      var h := ToLowerAscii(host.value);
      SomeFirstContained(h, 0);
      if !NoneContained(h) {
        var n: nat :| FirstContained(h, n);
        Shadowed(h, n);
      }
    }
  }

  /** Rules 14, 15 and 23 are never the first contained. */
  lemma Shadowed(h: string, n: nat)
    requires FirstContained(h, n)
    ensures DomainRules[n].code != "MXN" && DomainRules[n].code != "AUD"
  {
    ShadowingRules();
    if n == 14 {
      ShadowedBy(h, 14, 6, ".mx");
      assert false;
    } else if n == 15 {
      ShadowedBy(h, 15, 6, ".au");
      assert false;
    } else if n == 23 {
      ShadowedBy(h, 23, 16, ".au");
      assert false;
    }
  }

  /** The entries for Mexico and Australia extend earlier entries. */
  lemma ShadowingRules()
    ensures DomainRules[14].domain == DomainRules[6].domain + ".mx"
    ensures DomainRules[15].domain == DomainRules[6].domain + ".au"
    ensures DomainRules[23].domain == DomainRules[16].domain + ".au"
  {
    assert DomainRules[6].domain == "amazon.com" && DomainRules[16].domain == "ebay.com";
    assert "amazon.com.mx" == "amazon.com" + ".mx";
    assert "amazon.com.au" == "amazon.com" + ".au";
    assert "ebay.com.au" == "ebay.com" + ".au";
  }

  /** A rule whose domain extends an earlier rule's is never the first contained. */
  lemma ShadowedBy(h: string, n: nat, e: nat, tail: string)
    requires e < n < |DomainRules|
    requires DomainRules[n].domain == DomainRules[e].domain + tail
    ensures !FirstContained(h, n)
  {
    if Contains(h, DomainRules[n].domain) {
      ContainsPrefixOf(h, DomainRules[e].domain, tail);
    }
  }

  // ---------------------------------------------------------------------
  // Worked examples: the hosts of the service's currency tests.

  /** A lower-case host whose first contained rule is `k` gets that rule's code. */
  lemma DetectedByRule(h: string, k: nat)
    requires ToLowerAscii(h) == h && FirstContained(h, k)
    ensures DetectCurrencyFromDomain(Some(h)) == DomainRules[k].code
  {
  }

  /** The six Brazilian domains all end in `.br`. */
  lemma BrazilianDomainsHaveB()
    ensures forall m :: 0 <= m < 6 ==> 'b' in DomainRules[m].domain
  {
    forall m | 0 <= m < 6
      ensures 'b' in DomainRules[m].domain
    {
      var d := DomainRules[m].domain;
      assert d[|d| - 2] == 'b';
    }
  }

  /** A lower-case host that holds rule `k`'s domain at `at`, and lacks a
      character every earlier domain holds, gets rule `k`'s code. */
  lemma RuleByMissingChar(h: string, k: nat, c: char, at: nat)
    requires k < |DomainRules| && ToLowerAscii(h) == h
    requires forall m :: 0 <= m < k ==> c in DomainRules[m].domain
    requires c !in h && StartsAt(h, at, DomainRules[k].domain)
    ensures DetectCurrencyFromDomain(Some(h)) == DomainRules[k].code
  {
    forall m | 0 <= m < k
      ensures !Contains(h, DomainRules[m].domain)
    {
      MissingCharNotContained(h, DomainRules[m].domain, c);
    }
    ContainsIff(h, DomainRules[k].domain);
    DetectedByRule(h, k);
  }

  /** `www.amazon.com.br` is a Brazilian shop. */
  lemma AmazonBrazil(h: string)
    requires h == "www.amazon.com.br"
    ensures DetectCurrencyFromDomain(Some(h)) == "BRL"
  {
    LowerOfLower(h);
    assert StartsAt(h, 4, DomainRules[0].domain);
    ContainsIff(h, DomainRules[0].domain);
    DetectedByRule(h, 0);
  }

  /** `www.amazon.com` contains none of the Brazilian domains, and is a US shop. */
  lemma AmazonUnitedStates(h: string)
    requires h == "www.amazon.com"
    ensures DetectCurrencyFromDomain(Some(h)) == "USD"
  {
    LowerOfLower(h);
    BrazilianDomainsHaveB();
    assert StartsAt(h, 4, DomainRules[6].domain);
    RuleByMissingChar(h, 6, 'b', 4);
  }

  /** `amazon.com.mx` is read as a US shop: `amazon.com` comes first. */
  lemma AmazonMexicoReadAsUnitedStates(h: string)
    requires h == "amazon.com.mx"
    ensures DetectCurrencyFromDomain(Some(h)) == "USD"
  {
    LowerOfLower(h);
    BrazilianDomainsHaveB();
    assert StartsAt(h, 0, DomainRules[6].domain);
    RuleByMissingChar(h, 6, 'b', 0);
  }

  /** The nine rules before `amazon.de` all hold a `c`. */
  lemma EarlyDomainsHaveC()
    ensures forall m :: 0 <= m < 9 ==> 'c' in DomainRules[m].domain
  {
    forall m | 0 <= m < 9
      ensures 'c' in DomainRules[m].domain
    {
      var d := DomainRules[m].domain;
      var i := if m < 6 then |d| - 6 else if m == 8 then |d| - 5 else if m == 7 then |d| - 2 else |d| - 3;
      assert d[i] == 'c';
    }
  }

  /** `www.amazon.de` is a German shop, which uses euros. */
  lemma AmazonGermany(h: string)
    requires h == "www.amazon.de"
    ensures DetectCurrencyFromDomain(Some(h)) == "EUR"
  {
    LowerOfLower(h);
    EarlyDomainsHaveC();
    assert StartsAt(h, 4, DomainRules[9].domain);
    RuleByMissingChar(h, 9, 'c', 4);
  }

}
