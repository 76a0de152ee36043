/** `extractNumericValue`: a matched price text is cleaned in three passes
    (symbol characters, currency words, ISO codes), trimmed, its separators
    normalised by a per-currency rule, and handed to `parseFloat`. */
module Cleaning {
  import opened Wrappers
  import opened Text
  import opened Numbers

  // ---------------------------------------------------------------------
  // Pass one: the character class `[R$€£¥C$A$MX$]`.

  /** A member of `[R$€£¥C$A$MX$]`: the class holds the nine characters
      R $ € £ ¥ C A M X (the repeated `$` adds nothing), case-sensitive. */
  predicate IsStrippedSymbol(c: char) {
    c == 'R' || c == '$' || c == '€' || c == '£' || c == '¥' || c == 'C' || c == 'A' || c == 'M' || c == 'X'
  }

  /** `replace(/[R$€£¥C$A$MX$]/g, '')`. */
  function StripSymbols(s: string): string {
    Filter(s, IsStrippedSymbol)
  }

  // ---------------------------------------------------------------------
  // Passes two and three: global, case-insensitive alternations.

  /** One branch of an alternation: `<stem>s?` when plural, else `<stem>`. */
  datatype Alternative = Alternative(stem: string, plural: bool)

  /** `reais?|dollars?|euros?|pounds?|yen|pesos?` */
  const CurrencyWords: seq<Alternative> := [
    Alternative("reai", true), Alternative("dollar", true), Alternative("euro", true),
    Alternative("pound", true), Alternative("yen", false), Alternative("peso", true)
  ]

  /** `USD|EUR|GBP|JPY|CAD|AUD|MXN|BRL` */
  const IsoCodes: seq<Alternative> := [
    Alternative("USD", false), Alternative("EUR", false), Alternative("GBP", false), Alternative("JPY", false),
    Alternative("CAD", false), Alternative("AUD", false), Alternative("MXN", false), Alternative("BRL", false)
  ]

  /** Every branch spells at least three ASCII letters. */
  predicate LetterStems(alts: seq<Alternative>) {
    forall k :: 0 <= k < |alts| ==>
      |alts[k].stem| >= 3 && forall m :: 0 <= m < |alts[k].stem| ==> IsAsciiLetter(alts[k].stem[m])
  }

  /** Length of the match of branch `a` at the front of `s` under the `i` flag; 0 when none. */
  function BranchLength(s: string, a: Alternative): (n: nat)
    ensures n <= |s|
    ensures n > 0 ==> LitAt(s, 0, a.stem, true)
    ensures |a.stem| > 0 && LitAt(s, 0, a.stem, true) ==> n > 0
  {
    if LitAt(s, 0, a.stem, true) then
      if a.plural && |a.stem| < |s| && SameChar(s[|a.stem|], 's', true) then |a.stem| + 1 else |a.stem|
    else 0
  }

  /** Length of the alternation's match at the front of `s`: the first branch
      that matches there decides; 0 when no branch does. */
  function AlternationLength(s: string, alts: seq<Alternative>): (n: nat)
    ensures n <= |s|
    ensures n > 0 ==> exists k :: 0 <= k < |alts| && LitAt(s, 0, alts[k].stem, true)
    ensures n == 0 ==> forall k :: 0 <= k < |alts| && |alts[k].stem| > 0 ==> !LitAt(s, 0, alts[k].stem, true)
  {
    if |alts| == 0 then 0
    else
      var n := BranchLength(s, alts[0]);
      if n > 0 then n
      else
        var m := AlternationLength(s, alts[1..]);
        assert forall k :: 1 <= k < |alts| ==> alts[k] == alts[1..][k - 1];
        m
  }

  /** `s.replace(<alternation>/gi, '')`: the text is scanned left to right,
      each match deleted and the scan resumed right after it. */
  function StripAlternation(s: string, alts: seq<Alternative>): (r: string)
    ensures |r| <= |s|
    decreases |s|
  {
    if |s| == 0 then ""
    else
      var n := AlternationLength(s, alts);
      if n > 0 then StripAlternation(s[n..], alts) else [s[0]] + StripAlternation(s[1..], alts)
  }

  // ---------------------------------------------------------------------
  // extractNumericValue

  /** The three passes, then `trim()`. */
  function CleanText(priceText: string): string {
    Trim(StripAlternation(StripAlternation(StripSymbols(priceText), CurrencyWords), IsoCodes))
  }

  /** BRL and EUR read `,` as the decimal point; every other code reads `.`. */
  predicate UsesDecimalComma(currency: string) {
    currency == "BRL" || currency == "EUR"
  }

  /** The text handed to `parseFloat`: for BRL and EUR, a text with exactly one
      comma loses its periods left of it and the comma becomes the point, any
      other text loses all its periods; for every other code commas are deleted. */
  function NumberText(clean: string, currency: string): string {
    if UsesDecimalComma(currency) then
      var parts := Split(clean, ',');
      if |parts| == 2 then RemoveChar(parts[0], '.') + "." + parts[1] else RemoveChar(clean, '.')
    else RemoveChar(clean, ',')
  }

  /** `extractNumericValue(priceText, currency)`; None is NaN. */
  function ExtractNumericValue(priceText: string, currency: string): Option<real> {
    ParseFloat(NumberText(CleanText(priceText), currency))
  }

  // ---------------------------------------------------------------------
  // The passes on texts without words.

  predicate AllStripped(s: string) {
    forall k :: 0 <= k < |s| ==> IsStrippedSymbol(s[k])
  }

  predicate NoLetters(s: string) {
    forall k :: 0 <= k < |s| ==> !IsAsciiLetter(s[k])
  }

  /** No three ASCII letters in a row. */
  predicate NoLetterTriple(s: string) {
    forall k :: 0 <= k < |s| - 2 ==> !(IsAsciiLetter(s[k]) && IsAsciiLetter(s[k + 1]) && IsAsciiLetter(s[k + 2]))
  }

  /** Digits and the separator `sep`. */
  predicate DigitsOr(s: string, sep: char) {
    forall k :: 0 <= k < |s| ==> IsDigit(s[k]) || s[k] == sep
  }

  lemma WordsAreLetters()
    ensures LetterStems(CurrencyWords) && LetterStems(IsoCodes)
  {
  }

  /** Under the `i` flag only an ASCII letter matches an ASCII letter. */
  lemma FoldedLetter(c: char, l: char)
    requires IsAsciiLetter(l) && SameChar(c, l, true)
    ensures IsAsciiLetter(c)
  {
  }

  lemma NoBranchWithoutTriple(s: string, alts: seq<Alternative>)
    requires LetterStems(alts) && |s| > 0
    requires !(|s| >= 3 && IsAsciiLetter(s[0]) && IsAsciiLetter(s[1]) && IsAsciiLetter(s[2]))
    ensures AlternationLength(s, alts) == 0
  {
    if AlternationLength(s, alts) > 0 {
      var k :| 0 <= k < |alts| && LitAt(s, 0, alts[k].stem, true);
      var stem := alts[k].stem;
      FoldedLetter(s[0], stem[0]);
      FoldedLetter(s[1], stem[1]);
      FoldedLetter(s[2], stem[2]);
      assert false;
    }
  }

  /** A pass over letter-stemmed branches leaves a text with no three letters in a row unchanged. */
  lemma {:induction false} StripWithoutTriple(s: string, alts: seq<Alternative>)
    requires LetterStems(alts) && NoLetterTriple(s)
    ensures StripAlternation(s, alts) == s
    decreases |s|
  {
    if |s| > 0 {
      NoBranchWithoutTriple(s, alts);
      assert NoLetterTriple(s[1..]) by {
        forall k | 0 <= k < |s[1..]| - 2
          ensures !(IsAsciiLetter(s[1..][k]) && IsAsciiLetter(s[1..][k + 1]) && IsAsciiLetter(s[1..][k + 2]))
        {
          assert s[1..][k] == s[k + 1];
        }
      }
      StripWithoutTriple(s[1..], alts);
    }
  }

  lemma {:induction false} StripSymbolsAll(s: string)
    requires AllStripped(s)
    ensures StripSymbols(s) == ""
  {
    if |s| > 0 {
      StripSymbolsAll(s[1..]);
    }
  }

  /** What a pattern's `\s?` matches: nothing, or one white-space character. */
  predicate OptSpace(sp: string) {
    |sp| <= 1 && forall k :: 0 <= k < |sp| ==> IsSpace(sp[k])
  }

  lemma TrimAfterSpace(sp: string, t: string)
    requires OptSpace(sp)
    requires |t| > 0 && IsDigit(t[0]) && IsDigit(t[|t| - 1])
    ensures Trim(sp + t) == t
  {
    TrimStartOfDigit(t);
    TrimEndOfDigit(t);
    if |sp| == 1 {
      assert IsSpace((sp + t)[0]);
      assert (sp + t)[1..] == t;
      assert TrimStart(sp + t) == TrimStart(t);
    } else {
      assert sp + t == t;
    }
  }

  lemma TrimEndOfDigit(t: string)
    requires |t| > 0 && IsDigit(t[|t| - 1])
    ensures TrimEnd(t) == t
  {
  }

  lemma StripSymbolsPrefixed(sym: string, rest: string)
    requires AllStripped(sym)
    requires forall k :: 0 <= k < |rest| ==> !IsStrippedSymbol(rest[k])
    ensures StripSymbols(sym + rest) == rest
  {
    FilterConcat(sym, rest, IsStrippedSymbol);
    StripSymbolsAll(sym);
    FilterKeeps(rest, IsStrippedSymbol);
  }

  /** Passes two and three leave a text with no three letters in a row unchanged. */
  lemma WordPassesKeep(s: string)
    requires NoLetterTriple(s)
    ensures StripAlternation(StripAlternation(s, CurrencyWords), IsoCodes) == s
  {
    WordsAreLetters();
    StripWithoutTriple(s, CurrencyWords);
    StripWithoutTriple(s, IsoCodes);
  }

  /** A space or nothing, then digits and separators: no letters, no symbols. */
  lemma SpacedNumberPlain(sp: string, t: string)
    requires OptSpace(sp)
    requires forall k :: 0 <= k < |t| ==> IsDigit(t[k]) || t[k] == ',' || t[k] == '.'
    ensures forall k :: 0 <= k < |sp + t| ==> !IsStrippedSymbol((sp + t)[k])
    ensures NoLetterTriple(sp + t)
  {
    var rest := sp + t;
    assert forall k :: 0 <= k < |rest| ==> IsSpace(rest[k]) || IsDigit(rest[k]) || rest[k] == ',' || rest[k] == '.';
  }

  /** A symbol prefix, an optional space and a letter-free number: the passes
      and the trim leave exactly the number. */
  lemma CleanSymbolPrefixed(sym: string, sp: string, t: string)
    requires AllStripped(sym) && OptSpace(sp)
    requires |t| > 0 && IsDigit(t[0]) && IsDigit(t[|t| - 1])
    requires forall k :: 0 <= k < |t| ==> IsDigit(t[k]) || t[k] == ',' || t[k] == '.'
    ensures CleanText(sym + sp + t) == t
  {
    var rest := sp + t;
    assert Trim(rest) == t by { TrimAfterSpace(sp, t); }
    assert CleanText(sym + rest) == Trim(rest) by {
      SpacedNumberPlain(sp, t);
      CleanPlainRest(sym, rest);
    }
    assert sym + sp + t == sym + rest;
  }

  /** Pass one deletes the symbols in front of a rest it keeps whole and in
      which the word passes find nothing; only the trim is left. */
  lemma CleanPlainRest(sym: string, rest: string)
    requires AllStripped(sym)
    requires forall k :: 0 <= k < |rest| ==> !IsStrippedSymbol(rest[k])
    requires NoLetterTriple(rest)
    ensures CleanText(sym + rest) == Trim(rest)
  {
    StripSymbolsPrefixed(sym, rest);
    WordPassesKeep(rest);
  }

  lemma {:induction false} RemoveSeparator(w: string, c: char)
    requires DigitsOr(w, c)
    ensures AllDigits(RemoveChar(w, c))
    ensures |w| > 0 && w[0] != c ==> |RemoveChar(w, c)| > 0 && RemoveChar(w, c)[0] == w[0]
  {
    if |w| > 0 {
      RemoveSeparator(w[1..], c);
    }
  }

  // ---------------------------------------------------------------------
  // What a symbol-prefixed match reads as.

  lemma NotInDigitsOr(w: string, sep: char, c: char)
    requires DigitsOr(w, sep) && c != sep && !IsDigit(c)
    ensures c !in w
  {
  }

  lemma NumberChars(w: string, sep: char, f: string)
    requires |w| > 0 && IsDigit(w[0]) && DigitsOr(w, sep) && (sep == ',' || sep == '.')
    requires |f| > 0 && AllDigits(f)
    ensures var t := w + [if sep == ',' then '.' else ','] + f;
      && IsDigit(t[0]) && IsDigit(t[|t| - 1])
      && forall k :: 0 <= k < |t| ==> IsDigit(t[k]) || t[k] == ',' || t[k] == '.'
  {
  }

  lemma Regroup(a: string, b: string, c: string, d: string, e: string)
    ensures a + b + c + d + e == a + b + (c + d + e)
  {
  }

  /** Digits alone: `parseFloat` reads the integer. */
  lemma ParseDigits(d: string)
    requires |d| > 0 && AllDigits(d)
    ensures ParseFloat(d) == Some(DigitsValue(d) as real)
  {
    assert d[..|d|] == d;
    ParseFloatInteger(d, |d|);
  }

  /** Digits, a point, digits: `parseFloat` reads the decimal. */
  lemma ParsePointed(d: string, f: string)
    requires |d| > 0 && AllDigits(d) && |f| > 0 && AllDigits(f)
    ensures ParseFloat(d + "." + f) == Some(DecimalValue(d, f))
  {
    var u := d + "." + f;
    assert u[..|d|] == d && u[|d| + 1..|u|] == f;
    ParseFloatDecimal(u, |d|, |u|);
  }

  lemma CommaNumberText(sym: string, sp: string, w: string, f: string, currency: string)
    requires UsesDecimalComma(currency) && AllStripped(sym) && OptSpace(sp)
    requires |w| > 0 && IsDigit(w[0]) && DigitsOr(w, '.')
    requires |f| > 0 && AllDigits(f)
    ensures NumberText(CleanText(sym + sp + w + "," + f), currency) == RemoveChar(w, '.') + "." + f
  {
    var t := w + "," + f;
    Regroup(sym, sp, w, ",", f);
    NumberChars(w, '.', f);
    CleanSymbolPrefixed(sym, sp, t);
    NotInDigitsOr(w, '.', ',');
    NotInDigitsOr(f, '.', ',');
    CommaText(w, f, currency);
  }

  lemma CommaText(w: string, f: string, currency: string)
    requires UsesDecimalComma(currency) && ',' !in w && ',' !in f
    ensures NumberText(w + "," + f, currency) == RemoveChar(w, '.') + "." + f
  {
    SplitPair(w, f, ',');
  }

  /** BRL and EUR, one comma: periods left of it are thousands separators and
      the comma is the decimal point ("R$ 299,90" reads 299.90, "R$ 1.234,56"
      reads 1234.56, "R$ 1,234" reads 1.234). */
  lemma DecimalCommaValue(sym: string, sp: string, w: string, f: string, currency: string)
    requires UsesDecimalComma(currency) && AllStripped(sym) && OptSpace(sp)
    requires |w| > 0 && IsDigit(w[0]) && DigitsOr(w, '.')
    requires |f| > 0 && AllDigits(f)
    ensures AllDigits(RemoveChar(w, '.'))
    ensures ExtractNumericValue(sym + sp + w + "," + f, currency) == Some(DecimalValue(RemoveChar(w, '.'), f))
  {
    CommaNumberText(sym, sp, w, f, currency);
    RemoveSeparator(w, '.');
    ParsePointed(RemoveChar(w, '.'), f);
  }

  /** `DecimalCommaValue` for a text already split into its pieces, with no
      thousands points and a known value. */
  lemma CommaTextValue(t: string, sym: string, sp: string, w: string, f: string, currency: string, v: real)
    requires t == sym + sp + w + "," + f
    requires UsesDecimalComma(currency) && AllStripped(sym) && OptSpace(sp)
    requires |w| > 0 && IsDigit(w[0]) && DigitsOr(w, '.')
    requires |f| > 0 && AllDigits(f)
    requires RemoveChar(w, '.') == w && AllDigits(w) && DecimalValue(w, f) == v
    ensures ExtractNumericValue(t, currency) == Some(v)
  {
    DecimalCommaValue(sym, sp, w, f, currency);
  }

  lemma CommaWholeText(sym: string, sp: string, n: string, currency: string)
    requires UsesDecimalComma(currency) && AllStripped(sym) && OptSpace(sp)
    requires |n| > 0 && IsDigit(n[0]) && IsDigit(n[|n| - 1]) && DigitsOr(n, '.')
    ensures NumberText(CleanText(sym + sp + n), currency) == RemoveChar(n, '.')
  {
    CleanSymbolPrefixed(sym, sp, n);
    NotInDigitsOr(n, '.', ',');
    SplitNone(n, ',');
  }

  /** BRL and EUR, no comma: every period is deleted, so "R$ 10.50" reads 1050. */
  lemma DecimalCommaWhole(sym: string, sp: string, n: string, currency: string)
    requires UsesDecimalComma(currency) && AllStripped(sym) && OptSpace(sp)
    requires |n| > 0 && IsDigit(n[0]) && IsDigit(n[|n| - 1]) && DigitsOr(n, '.')
    ensures AllDigits(RemoveChar(n, '.'))
    ensures ExtractNumericValue(sym + sp + n, currency) == Some(DigitsValue(RemoveChar(n, '.')) as real)
  {
    CommaWholeText(sym, sp, n, currency);
    RemoveSeparator(n, '.');
    ParseDigits(RemoveChar(n, '.'));
  }

  lemma PointNumberText(sym: string, sp: string, w: string, f: string, currency: string)
    requires !UsesDecimalComma(currency) && AllStripped(sym) && OptSpace(sp)
    requires |w| > 0 && IsDigit(w[0]) && DigitsOr(w, ',')
    requires |f| > 0 && AllDigits(f)
    ensures NumberText(CleanText(sym + sp + w + "." + f), currency) == RemoveChar(w, ',') + "." + f
  {
    var t := w + "." + f;
    Regroup(sym, sp, w, ".", f);
    NumberChars(w, ',', f);
    CleanSymbolPrefixed(sym, sp, t);
    NotInDigitsOr(f, '.', ',');
    PointText(w, f, currency);
  }

  lemma PointText(w: string, f: string, currency: string)
    requires !UsesDecimalComma(currency) && ',' !in f
    ensures NumberText(w + "." + f, currency) == RemoveChar(w, ',') + "." + f
  {
    CommasDeleted(w + "." + f, currency);
    CommasAroundPoint(w, f);
  }

  /** Deleting the commas of `w.f` leaves the point and a comma-free `f` alone. */
  lemma CommasAroundPoint(w: string, f: string)
    requires ',' !in f
    ensures RemoveChar(w + "." + f, ',') == RemoveChar(w, ',') + "." + f
  {
    var t := w + "." + f;
    assert t == w + ("." + f);
    RemoveCharConcat(w, "." + f, ',');
    RemoveCharConcat(".", f, ',');
    RemoveCharAbsent(".", ',');
    RemoveCharAbsent(f, ',');
    assert RemoveChar("." + f, ',') == "." + f;
  }

  /** For a code without the decimal comma the separator rule only deletes commas. */
  lemma CommasDeleted(clean: string, currency: string)
    requires !UsesDecimalComma(currency)
    ensures NumberText(clean, currency) == RemoveChar(clean, ',')
  {
  }

  /** Every other code: commas are thousands separators and are deleted
      ("$ 1,234.56" reads 1234.56). */
  lemma DecimalPointValue(sym: string, sp: string, w: string, f: string, currency: string)
    requires !UsesDecimalComma(currency) && AllStripped(sym) && OptSpace(sp)
    requires |w| > 0 && IsDigit(w[0]) && DigitsOr(w, ',')
    requires |f| > 0 && AllDigits(f)
    ensures AllDigits(RemoveChar(w, ','))
    ensures ExtractNumericValue(sym + sp + w + "." + f, currency) == Some(DecimalValue(RemoveChar(w, ','), f))
  {
    PointNumberText(sym, sp, w, f, currency);
    RemoveSeparator(w, ',');
    ParsePointed(RemoveChar(w, ','), f);
  }

  /** `DecimalPointValue` for a text already split into its pieces, with no
      thousands commas and a known value. */
  lemma PointTextValue(t: string, sym: string, sp: string, w: string, f: string, currency: string, v: real)
    requires t == sym + sp + w + "." + f
    requires !UsesDecimalComma(currency) && AllStripped(sym) && OptSpace(sp)
    requires |w| > 0 && IsDigit(w[0]) && DigitsOr(w, ',')
    requires |f| > 0 && AllDigits(f)
    requires RemoveChar(w, ',') == w && AllDigits(w) && DecimalValue(w, f) == v
    ensures ExtractNumericValue(t, currency) == Some(v)
  {
    DecimalPointValue(sym, sp, w, f, currency);
  }

  /** Every other code, no decimal point: the digits with commas deleted
      ("$ 1,234" reads 1234). */
  lemma DecimalPointWhole(sym: string, sp: string, n: string, currency: string)
    requires !UsesDecimalComma(currency) && AllStripped(sym) && OptSpace(sp)
    requires |n| > 0 && IsDigit(n[0]) && IsDigit(n[|n| - 1]) && DigitsOr(n, ',')
    ensures AllDigits(RemoveChar(n, ','))
    ensures ExtractNumericValue(sym + sp + n, currency) == Some(DigitsValue(RemoveChar(n, ',')) as real)
  {
    CleanSymbolPrefixed(sym, sp, n);
    RemoveSeparator(n, ',');
    var d := RemoveChar(n, ',');
    ParseDigits(d);
    calc {
      ExtractNumericValue(sym + sp + n, currency);
      ParseFloat(NumberText(n, currency));
      { assert NumberText(n, currency) == d; }
      ParseFloat(d);
    }
  }

  // ---------------------------------------------------------------------
  // What a word-suffixed or code-prefixed match reads as.

  /** A number: digits, commas and periods, a digit at each end. */
  predicate IsNumberText(n: string) {
    && |n| > 0 && IsDigit(n[0]) && IsDigit(n[|n| - 1])
    && forall k :: 0 <= k < |n| ==> IsDigit(n[k]) || n[k] == ',' || n[k] == '.'
  }

  /** The lower-case spellings `reais?|dollars?|euros?|pounds?|yen|pesos?` accepts. */
  predicate IsCurrencyWord(word: string) {
    word in {"reai", "reais", "dollar", "dollars", "euro", "euros", "pound", "pounds", "yen", "peso", "pesos"}
  }

  /** The three codes pass one leaves whole. */
  predicate IsIntactCode(iso: string) {
    iso == "USD" || iso == "GBP" || iso == "JPY"
  }

  /** A pass keeps a first character that is not a letter and goes on behind it. */
  lemma StripPlainStep(c: char, z: string, alts: seq<Alternative>)
    requires LetterStems(alts) && !IsAsciiLetter(c)
    ensures StripAlternation([c] + z, alts) == [c] + StripAlternation(z, alts)
  {
    var s := [c] + z;
    assert s[0] == c && s[1..] == z;
    NoBranchWithoutTriple(s, alts);
  }

  /** Dropping the first character keeps a text letter-free. */
  lemma NoLettersTail(x: string)
    requires |x| > 0 && NoLetters(x)
    ensures NoLetters(x[1..]) && !IsAsciiLetter(x[0])
  {
    forall k | 0 <= k < |x| - 1 ensures !IsAsciiLetter(x[1..][k]) {
      assert x[1..][k] == x[k + 1];
    }
  }

  /** A text split after its first character. */
  lemma SplitHead(x: string, y: string)
    requires |x| > 0
    ensures x + y == [x[0]] + (x[1..] + y)
  {
    assert x == [x[0]] + x[1..];
  }

  /** A pass deletes nothing from a letter-free front and goes on behind it. */
  lemma {:induction false} StripAfterPlain(x: string, y: string, alts: seq<Alternative>)
    requires LetterStems(alts) && NoLetters(x)
    ensures StripAlternation(x + y, alts) == x + StripAlternation(y, alts)
    decreases |x|
  {
    if |x| > 0 {
      var tail, rest := x[1..], StripAlternation(y, alts);
      NoLettersTail(x);
      SplitHead(x, y);
      StripPlainStep(x[0], tail + y, alts);
      StripAfterPlain(tail, y, alts);
      SplitHead(x, rest);
    } else {
      assert x + y == y;
    }
  }

  /** When the branches before `k` do not match at the front, branch `k` decides. */
  lemma {:induction false} FirstBranchDecides(s: string, alts: seq<Alternative>, k: nat)
    requires k < |alts| && |alts[k].stem| > 0 && LitAt(s, 0, alts[k].stem, true)
    requires forall m :: 0 <= m < k ==> !LitAt(s, 0, alts[m].stem, true)
    ensures AlternationLength(s, alts) == BranchLength(s, alts[k])
    decreases k
  {
    if k > 0 {
      assert alts[1..][k - 1] == alts[k];
      assert forall m :: 0 <= m < k - 1 ==> alts[1..][m] == alts[m + 1];
      FirstBranchDecides(s, alts[1..], k - 1);
    }
  }

  /** Stem `k` of the currency words, with or without its `s`, matches no earlier stem. */
  lemma EarlierWordsMiss(word: string, k: nat, plural: bool)
    requires k < |CurrencyWords| && word == CurrencyWords[k].stem + (if plural then "s" else "")
    ensures forall m :: 0 <= m < k ==> !LitAt(word, 0, CurrencyWords[m].stem, true)
  {
    WordStems();
    forall m | 0 <= m < k
      ensures !LitAt(word, 0, CurrencyWords[m].stem, true)
    {
      if k == 5 && m == 3 {
        MismatchAt(word, "pound", 1, 'e', 'o');
      } else {
        MismatchAt(word, CurrencyWords[m].stem, 0, word[0], CurrencyWords[m].stem[0]);
      }
    }
  }

  /** Branch `k` of the currency words, with or without its `s`, is deleted whole. */
  lemma WordDeleted(word: string, k: nat, plural: bool)
    requires k < |CurrencyWords| && (plural ==> CurrencyWords[k].plural)
    requires word == CurrencyWords[k].stem + (if plural then "s" else "")
    ensures StripAlternation(word, CurrencyWords) == ""
  {
    var a := CurrencyWords[k];
    assert |a.stem| > 0 by { WordStems(); }
    assert LitAt(word, 0, a.stem, true);
    EarlierWordsMiss(word, k, plural);
    FirstBranchDecides(word, CurrencyWords, k);
    assert AlternationLength(word, CurrencyWords) == |word|;
    assert word[|word|..] == "";
  }

  /** Each lower-case spelling of a currency word is deleted whole by pass two. */
  lemma CurrencyWordDeleted(word: string)
    requires IsCurrencyWord(word)
    ensures StripAlternation(word, CurrencyWords) == ""
  {
    WordStems();
    if word == "reai" { WordDeleted(word, 0, false); }
    else if word == "reais" { WordDeleted(word, 0, true); }
    else if word == "dollar" { WordDeleted(word, 1, false); }
    else if word == "dollars" { WordDeleted(word, 1, true); }
    else if word == "euro" { WordDeleted(word, 2, false); }
    else if word == "euros" { WordDeleted(word, 2, true); }
    else if word == "pound" { WordDeleted(word, 3, false); }
    else if word == "pounds" { WordDeleted(word, 3, true); }
    else if word == "yen" { WordDeleted(word, 4, false); }
    else if word == "peso" { WordDeleted(word, 5, false); }
    else { WordDeleted(word, 5, true); }
  }

  /** Pass one keeps a currency word: it is lower case. */
  lemma CurrencyWordKept(word: string)
    requires IsCurrencyWord(word)
    ensures forall k :: 0 <= k < |word| ==> 'a' <= word[k] <= 'z'
  {
  }

  /** White space after a last character that is not white space is trimmed away. */
  lemma {:induction false} TrimEndSpaces(n: string, ws: string)
    requires |n| > 0 && !IsSpace(n[|n| - 1])
    requires forall k :: 0 <= k < |ws| ==> IsSpace(ws[k])
    ensures TrimEnd(n + ws) == n
    decreases |ws|
  {
    if |ws| > 0 {
      var front := ws[..|ws| - 1];
      assert (n + ws)[..|n + ws| - 1] == n + front;
      TrimEndSpaces(n, front);
    } else {
      assert n + ws == n;
    }
  }

  /** A number followed by white space holds no letter and no symbol of pass one. */
  lemma NumberSpacesPlain(n: string, ws: string)
    requires IsNumberText(n)
    requires forall k :: 0 <= k < |ws| ==> IsSpace(ws[k])
    ensures NoLetters(n + ws)
    ensures forall k :: 0 <= k < |n + ws| ==> !IsStrippedSymbol((n + ws)[k])
  {
    var x := n + ws;
    assert forall k :: 0 <= k < |x| ==> IsDigit(x[k]) || x[k] == ',' || x[k] == '.' || IsSpace(x[k]) by {
      forall k | 0 <= k < |x| ensures IsDigit(x[k]) || x[k] == ',' || x[k] == '.' || IsSpace(x[k]) {
        if k < |n| { assert x[k] == n[k]; } else { assert x[k] == ws[k - |n|]; }
      }
    }
  }

  /** Pass one keeps a number, white space and a currency word. */
  lemma PassOneKeepsWord(x: string, word: string)
    requires forall k :: 0 <= k < |x| ==> !IsStrippedSymbol(x[k])
    requires IsCurrencyWord(word)
    ensures StripSymbols(x + word) == x + word
  {
    CurrencyWordKept(word);
    FilterConcat(x, word, IsStrippedSymbol);
    FilterKeeps(x, IsStrippedSymbol);
    FilterKeeps(word, IsStrippedSymbol);
  }

  /** A number, white space and a currency word: pass two deletes the word and
      the trim the white space, leaving exactly the number. */
  lemma CleanWordSuffixed(n: string, ws: string, word: string)
    requires IsNumberText(n) && IsCurrencyWord(word)
    requires forall k :: 0 <= k < |ws| ==> IsSpace(ws[k])
    ensures CleanText(n + ws + word) == n
  {
    var x := n + ws;
    NumberSpacesPlain(n, ws);
    PassOneKeepsWord(x, word);
    CurrencyWordDeleted(word);
    WordsAreLetters();
    StripAfterPlain(x, word, CurrencyWords);
    assert StripAlternation(x + word, CurrencyWords) == x by {
      assert x + "" == x;
    }
    StripWithoutTriple(x, IsoCodes);
    TrimStartOfDigit(x);
    TrimEndSpaces(n, ws);
  }

  /** A number that stands alone is its own cleaning. */
  lemma CleanNumber(n: string)
    requires IsNumberText(n)
    ensures CleanText(n) == n
  {
    CleanSymbolPrefixed("", "", n);
    assert "" + "" + n == n;
  }

  /** `N\s*reais?` and the other word patterns, in any letter case: the word
      adds nothing, and the text reads as the number alone ("10,50 reais" in
      BRL reads 10.5, "10 DOLLARS" in USD reads 10, "1,000 Yen" in JPY reads
      1000). Pass one may delete capitals out of the word and pass two may
      leave what remains; either way `parseFloat` stops at the first letter. */
  lemma WordSuffixValue(n: string, ws: string, word: string, currency: string)
    requires IsNumberText(n) && AllLetters(word)
    requires forall k :: 0 <= k < |ws| ==> IsSpace(ws[k])
    ensures ExtractNumericValue(n + ws + word, currency) == ExtractNumericValue(n, currency)
  {
    CleanLettersSuffixed(n, ws, word);
    CleanNumber(n);
    var w := LetterResidue(word);
    if w == "" {
      assert n + "" == n;
    } else {
      var u := ws + w;
      assert forall k :: 0 <= k < |u| ==> IsSpace(u[k]) || IsAsciiLetter(u[k]) by {
        forall k | 0 <= k < |u| ensures IsSpace(u[k]) || IsAsciiLetter(u[k]) {
          if k < |ws| { assert u[k] == ws[k]; } else { assert u[k] == w[k - |ws|]; }
        }
      }
      ValueIgnoresWordTail(n, u, currency);
    }
  }

  /** White space and letters behind a number text change nothing in what it reads as. */
  lemma ValueIgnoresWordTail(n: string, u: string, currency: string)
    requires IsNumberText(n)
    requires forall k :: 0 <= k < |u| ==> IsSpace(u[k]) || IsAsciiLetter(u[k])
    ensures ParseFloat(NumberText(n + u, currency)) == ParseFloat(NumberText(n, currency))
  {
    assert ',' !in u && '.' !in u by {
      forall k | 0 <= k < |u| ensures u[k] != ',' && u[k] != '.' {
        assert IsSpace(u[k]) || IsAsciiLetter(u[k]);
      }
    }
    NumberTextAppend(n, u, currency);
    NumberTextShape(n, currency);
    ParseFloatIgnoresTail(NumberText(n, currency), u);
  }

  /** Only ASCII letters. */
  predicate AllLetters(s: string) {
    forall k :: 0 <= k < |s| ==> IsAsciiLetter(s[k])
  }

  /** What the three passes leave of a word on its own. */
  function LetterResidue(word: string): string {
    StripAlternation(StripAlternation(StripSymbols(word), CurrencyWords), IsoCodes)
  }

  /** A pass deletes whole matches, so it leaves letters only of letters. */
  lemma {:induction false} StripKeepsLetters(s: string, alts: seq<Alternative>)
    requires AllLetters(s)
    ensures AllLetters(StripAlternation(s, alts))
    decreases |s|
  {
    if |s| > 0 {
      var n := AlternationLength(s, alts);
      if n > 0 {
        StripKeepsLetters(s[n..], alts);
      } else {
        StripKeepsLetters(s[1..], alts);
      }
    }
  }

  /** A number, white space and a word: the passes reach the word only, and
      the trim keeps the white space exactly when something of the word is left. */
  lemma CleanLettersSuffixed(n: string, ws: string, word: string)
    requires IsNumberText(n) && AllLetters(word)
    requires forall k :: 0 <= k < |ws| ==> IsSpace(ws[k])
    ensures AllLetters(LetterResidue(word))
    ensures var w := LetterResidue(word);
      CleanText(n + ws + word) == n + (if w == "" then "" else ws + w)
  {
    var x := n + ws;
    NumberSpacesPlain(n, ws);
    var w1 := StripSymbols(word);
    assert StripSymbols(n + ws + word) == x + w1 by {
      assert n + ws + word == x + word;
      FilterConcat(x, word, IsStrippedSymbol);
      FilterKeeps(x, IsStrippedSymbol);
    }
    assert AllLetters(w1) by {
      forall k | 0 <= k < |w1| ensures IsAsciiLetter(w1[k]) {
        assert w1[k] in word;
      }
    }
    WordsAreLetters();
    var w2 := StripAlternation(w1, CurrencyWords);
    var w := StripAlternation(w2, IsoCodes);
    assert StripAlternation(x + w1, CurrencyWords) == x + w2 by {
      StripAfterPlain(x, w1, CurrencyWords);
    }
    assert StripAlternation(x + w2, IsoCodes) == x + w by {
      StripAfterPlain(x, w2, IsoCodes);
    }
    StripKeepsLetters(w1, CurrencyWords);
    StripKeepsLetters(w2, IsoCodes);
    TrimNumberTail(n, ws, w);
  }

  /** The trim keeps the white space behind a number exactly when letters follow it. */
  lemma TrimNumberTail(n: string, ws: string, w: string)
    requires IsNumberText(n) && AllLetters(w)
    requires forall k :: 0 <= k < |ws| ==> IsSpace(ws[k])
    ensures Trim(n + ws + w) == n + (if w == "" then "" else ws + w)
  {
    var x := n + ws;
    if w == "" {
      assert n + ws + w == x;
      assert TrimStart(x) == x by { TrimStartOfDigit(x); }
      TrimEndSpaces(n, ws);
    } else {
      var s := x + w;
      assert s[0] == n[0] && s[|s| - 1] == w[|w| - 1];
      LetterNotSpace(w[|w| - 1]);
      assert Trim(s) == s by { TrimOfTrimmed(s); }
      assert s == n + (ws + w);
    }
  }

  /** The separator rule reaches only the separators: text without `,` or
      `.` behind the number comes through unchanged. */
  lemma NumberTextAppend(clean: string, u: string, currency: string)
    requires ',' !in u && '.' !in u
    ensures NumberText(clean + u, currency) == NumberText(clean, currency) + u
  {
    if UsesDecimalComma(currency) {
      SplitAppend(clean, u, ',');
      var parts := Split(clean, ',');
      if |parts| != 2 {
        RemoveCharConcat(clean, u, '.');
        RemoveCharAbsent(u, '.');
      }
    } else {
      RemoveCharConcat(clean, u, ',');
      RemoveCharAbsent(u, ',');
    }
  }

  /** The separator rule turns a number text into digits and separators that
      start with its first digit. */
  lemma NumberTextShape(n: string, currency: string)
    requires IsNumberText(n)
    ensures var t := NumberText(n, currency);
      |t| > 0 && IsDigit(t[0]) && forall k :: 0 <= k < |t| ==> t[k] != 'e' && t[k] != 'E'
  {
    NumberTextLead(n, currency);
    var t := NumberText(n, currency);
    assert 'e' !in n && 'E' !in n by {
      forall k | 0 <= k < |n| ensures n[k] != 'e' && n[k] != 'E' {
        assert IsDigit(n[k]) || n[k] == ',' || n[k] == '.';
      }
    }
    if UsesDecimalComma(currency) && |Split(n, ',')| == 2 {
      SplitInTwo(n, ',');
    }
    assert 'e' !in t && 'E' !in t;
    assert forall k :: 0 <= k < |t| ==> t[k] != 'e' && t[k] != 'E' by {
      forall k | 0 <= k < |t| ensures t[k] != 'e' && t[k] != 'E' {
        assert t[k] in t;
      }
    }
  }

  /** No currency word starts with a character that folds to none of r, d, e, p, y. */
  lemma NoWordAtFront(x: string)
    requires |x| > 0
    requires var f := FoldCase(x[0]); f != 'r' && f != 'd' && f != 'e' && f != 'p' && f != 'y'
    ensures AlternationLength(x, CurrencyWords) == 0
  {
    WordStems();
    var c := x[0];
    forall k | 0 <= k < |CurrencyWords|
      ensures !LitAt(x, 0, CurrencyWords[k].stem, true)
    {
      if k == 0 { MismatchAt(x, "reai", 0, c, 'r'); }
      else if k == 1 { MismatchAt(x, "dollar", 0, c, 'd'); }
      else if k == 2 { MismatchAt(x, "euro", 0, c, 'e'); }
      else if k == 3 { MismatchAt(x, "pound", 0, c, 'p'); }
      else if k == 4 { MismatchAt(x, "yen", 0, c, 'y'); }
      else { MismatchAt(x, "peso", 0, c, 'p'); }
    }
    NoStemAtFront(x, CurrencyWords);
  }

  /** A three-letter branch decides when it matches and no branch before it does. */
  lemma ThreeLetterBranch(x: string, alts: seq<Alternative>, k: nat)
    requires k < |alts| && |alts[k].stem| == 3 && !alts[k].plural && LitAt(x, 0, alts[k].stem, true)
    requires forall m :: 0 <= m < k ==> !LitAt(x, 0, alts[m].stem, true)
    ensures AlternationLength(x, alts) == 3
  {
    FirstBranchDecides(x, alts, k);
  }

  /** Pass three deletes an intact code at the front. */
  lemma IntactCodeLength(x: string, iso: string)
    requires IsIntactCode(iso) && |x| >= 3 && x[..3] == iso
    ensures AlternationLength(x, IsoCodes) == 3
  {
    CodeAtFront(x, iso, IsoCodes);
  }

  /** `IntactCodeLength`, with the table passed in so that it is not unfolded. */
  lemma CodeAtFront(x: string, iso: string, alts: seq<Alternative>)
    requires alts == IsoCodes
    requires IsIntactCode(iso) && |x| >= 3 && x[..3] == iso
    ensures AlternationLength(x, alts) == 3
  {
    CodeStems();
    var c := x[0];
    assert c == iso[0] && x[1] == iso[1] && x[2] == iso[2];
    if iso == "USD" {
      assert LitAt(x, 0, alts[0].stem, true);
      ThreeLetterBranch(x, alts, 0);
    } else if iso == "GBP" {
      forall m | 0 <= m < 2
        ensures !LitAt(x, 0, alts[m].stem, true)
      {
        if m == 0 { MismatchAt(x, "USD", 0, c, 'U'); }
        else { MismatchAt(x, "EUR", 0, c, 'E'); }
      }
      assert LitAt(x, 0, alts[2].stem, true);
      ThreeLetterBranch(x, alts, 2);
    } else {
      forall m | 0 <= m < 3
        ensures !LitAt(x, 0, alts[m].stem, true)
      {
        if m == 0 { MismatchAt(x, "USD", 0, c, 'U'); }
        else if m == 1 { MismatchAt(x, "EUR", 0, c, 'E'); }
        else { MismatchAt(x, "GBP", 0, c, 'G'); }
      }
      assert LitAt(x, 0, alts[3].stem, true);
      ThreeLetterBranch(x, alts, 3);
    }
  }

  /** An intact code, an optional space and a number: nothing for pass one,
      and no letter behind the code. */
  lemma CodeNumberPlain(iso: string, sp: string, n: string)
    requires IsIntactCode(iso) && OptSpace(sp) && IsNumberText(n)
    ensures NoLetters(sp + n)
    ensures forall k :: 0 <= k < |iso + sp + n| ==> !IsStrippedSymbol((iso + sp + n)[k])
  {
    var rest := sp + n;
    var x := iso + sp + n;
    assert forall k :: 0 <= k < |rest| ==> IsSpace(rest[k]) || IsDigit(rest[k]) || rest[k] == ',' || rest[k] == '.';
    assert forall k :: 0 <= k < |x| ==> (k < 3 && x[k] == iso[k]) || (k >= 3 && x[k] == rest[k - 3]);
  }

  /** A pass that matches nothing at the front keeps a text with no three
      letters in a row behind its first character. */
  lemma StripKeepsFront(x: string, alts: seq<Alternative>)
    requires LetterStems(alts) && |x| > 0 && AlternationLength(x, alts) == 0 && NoLetterTriple(x[1..])
    ensures StripAlternation(x, alts) == x
  {
    StripWithoutTriple(x[1..], alts);
    assert x == [x[0]] + x[1..];
  }

  /** A pass that deletes `lead` at the front keeps a letter-free rest. */
  lemma StripDeletesFront(lead: string, rest: string, alts: seq<Alternative>)
    requires LetterStems(alts) && |lead| > 0 && AlternationLength(lead + rest, alts) == |lead| && NoLetters(rest)
    ensures StripAlternation(lead + rest, alts) == rest
  {
    assert (lead + rest)[|lead|..] == rest;
    StripWithoutTriple(rest, alts);
  }

  /** Pass three deletes an intact code at the front of a letter-free rest. */
  lemma PassThreeDeletesCode(iso: string, rest: string)
    requires IsIntactCode(iso) && NoLetters(rest)
    ensures StripAlternation(iso + rest, IsoCodes) == rest
  {
    var x := iso + rest;
    assert x[..3] == iso;
    IntactCodeLength(x, iso);
    WordsAreLetters();
    StripDeletesFront(iso, rest, IsoCodes);
  }

  /** Pass two leaves a code followed by letter-free text alone. */
  lemma CodeKeptByPassTwo(iso: string, rest: string)
    requires IsIntactCode(iso) && NoLetters(rest)
    ensures StripAlternation(iso + rest, CurrencyWords) == iso + rest
  {
    var x := iso + rest;
    assert x[0] == iso[0] && x[1..] == iso[1..] + rest;
    ShortLeadNoTriple(iso[1..], rest);
    NoWordAtFront(x);
    WordsAreLetters();
    StripKeepsFront(x, CurrencyWords);
  }

  /** Passes one and two leave a code followed by a number alone. */
  lemma CodeSurvivesPassesOneTwo(iso: string, sp: string, n: string)
    requires IsIntactCode(iso) && OptSpace(sp) && IsNumberText(n)
    ensures StripAlternation(StripSymbols(iso + sp + n), CurrencyWords) == iso + sp + n
  {
    var x := iso + (sp + n);
    assert iso + sp + n == x;
    CodeNumberPlain(iso, sp, n);
    FilterKeeps(x, IsStrippedSymbol);
    CodeKeptByPassTwo(iso, sp + n);
  }

  /** USD, GBP or JPY, an optional space and a number: pass one and two leave
      the text alone, and pass three deletes the code. */
  lemma CleanCodePrefixed(iso: string, sp: string, n: string)
    requires IsIntactCode(iso) && OptSpace(sp) && IsNumberText(n)
    ensures CleanText(iso + sp + n) == n
  {
    CodeSurvivesPassesOneTwo(iso, sp, n);
    CodeNumberPlain(iso, sp, n);
    assert iso + sp + n == iso + (sp + n);
    PassThreeDeletesCode(iso, sp + n);
    TrimAfterSpace(sp, n);
  }

  /** `USD\s?N`, `GBP\s?N` and `JPY\s?N`: the code adds nothing, and the text
      reads as the number alone ("USD 10.00" reads 10). */
  lemma CodePrefixValue(iso: string, sp: string, n: string, currency: string)
    requires IsIntactCode(iso) && OptSpace(sp) && IsNumberText(n)
    ensures ExtractNumericValue(iso + sp + n, currency) == ExtractNumericValue(n, currency)
  {
    CleanCodePrefixed(iso, sp, n);
    CleanNumber(n);
  }

  // ---------------------------------------------------------------------
  // Two readings of BRL and EUR prices grouped the other way.

  lemma ThreePieces(a: string, b: string, c: string, sep: char)
    requires sep !in a && sep !in b && sep !in c
    ensures Split(a + [sep] + b + [sep] + c, sep) == [a, b, c]
  {
    var t := a + [sep] + b + [sep] + c;
    assert Join([a, b, c], sep) == t by {
      assert [a, b, c][1..] == [b, c] && [b, c][1..] == [c];
      assert Join([b, c], sep) == b + [sep] + c;
    }
    JoinInjective(Split(t, sep), [a, b, c], sep);
  }

  /** Digit runs joined by commas and periods form a number. */
  lemma JoinedNumber(a: string, x: char, b: string, y: char, c: string)
    requires |a| > 0 && AllDigits(a) && |b| > 0 && AllDigits(b) && |c| > 0 && AllDigits(c)
    requires (x == ',' || x == '.') && (y == ',' || y == '.')
    ensures IsNumberText(a + [x] + b + [y] + c)
  {
    var t := a + [x] + b + [y] + c;
    forall k | 0 <= k < |t|
      ensures IsDigit(t[k]) || t[k] == ',' || t[k] == '.'
    {
      if k < |a| { assert t[k] == a[k]; }
      else if k == |a| { assert t[k] == x; }
      else if k < |a| + 1 + |b| { assert t[k] == b[k - |a| - 1]; }
      else if k == |a| + 1 + |b| { assert t[k] == y; }
      else { assert t[k] == c[k - |a| - 2 - |b|]; }
    }
  }

  lemma TwoCommasText(a: string, b: string, c: string, currency: string)
    requires UsesDecimalComma(currency)
    requires AllDigits(a) && AllDigits(b) && AllDigits(c)
    ensures NumberText(a + "," + b + "," + c, currency) == a + "," + b + "," + c
  {
    var t := a + "," + b + "," + c;
    NotInDigitsOr(a, '.', ',');
    NotInDigitsOr(b, '.', ',');
    NotInDigitsOr(c, '.', ',');
    ThreePieces(a, b, c, ',');
    assert '.' !in t by {
      NotInDigitsOr(a, ',', '.');
      NotInDigitsOr(b, ',', '.');
      NotInDigitsOr(c, ',', '.');
    }
    RemoveCharAbsent(t, '.');
  }

  lemma Regroup5(a: string, b: string, c: string, d: string, e: string)
    ensures a + b + c + d + e == a + b + (c + d + e)
  {
  }

  lemma Regroup7(a: string, b: string, c: string, d: string, e: string, f: string, g: string)
    ensures a + b + c + d + e + f + g == a + b + (c + d + e + f + g)
  {
  }

  lemma TwoCommasNumberText(sym: string, sp: string, a: string, b: string, c: string, currency: string)
    requires UsesDecimalComma(currency) && AllStripped(sym) && OptSpace(sp)
    requires |a| > 0 && AllDigits(a) && |b| > 0 && AllDigits(b) && |c| > 0 && AllDigits(c)
    ensures NumberText(CleanText(sym + sp + a + "," + b + "," + c), currency) == a + "," + b + "," + c
  {
    var t := a + "," + b + "," + c;
    Regroup7(sym, sp, a, ",", b, ",", c);
    JoinedNumber(a, ',', b, ',', c);
    CleanSymbolPrefixed(sym, sp, t);
    TwoCommasText(a, b, c, currency);
  }

  /** BRL and EUR, two commas: the text does not split in two, so only
      periods are deleted, and `parseFloat` stops at the first comma
      ("R$ 1,234,56" reads 1). */
  lemma TwoCommasValue(sym: string, sp: string, a: string, b: string, c: string, currency: string)
    requires UsesDecimalComma(currency) && AllStripped(sym) && OptSpace(sp)
    requires |a| > 0 && AllDigits(a) && |b| > 0 && AllDigits(b) && |c| > 0 && AllDigits(c)
    ensures ExtractNumericValue(sym + sp + a + "," + b + "," + c, currency) == Some(DigitsValue(a) as real)
  {
    TwoCommasNumberText(sym, sp, a, b, c, currency);
    ParseTwoCommas(a, b, c);
  }

  /** `parseFloat` stops at a comma after digits. */
  lemma ParseTwoCommas(a: string, b: string, c: string)
    requires |a| > 0 && AllDigits(a)
    ensures ParseFloat(a + "," + b + "," + c) == Some(DigitsValue(a) as real)
  {
    var t := a + "," + b + "," + c;
    assert t[..|a|] == a && t[|a|] == ',';
    ParseFloatInteger(t, |a|);
  }

  lemma CommaThenPointText(a: string, b: string, c: string, currency: string)
    requires UsesDecimalComma(currency)
    requires AllDigits(a) && AllDigits(b) && AllDigits(c)
    ensures NumberText(a + "," + b + "." + c, currency) == a + "." + b + "." + c
  {
    var f := b + "." + c;
    Regroup5(a, ",", b, ".", c);
    NotInDigitsOr(a, '.', ',');
    assert ',' !in f by {
      NotInDigitsOr(b, '.', ',');
      NotInDigitsOr(c, '.', ',');
    }
    CommaText(a, f, currency);
    NotInDigitsOr(a, ',', '.');
    RemoveCharAbsent(a, '.');
  }

  lemma CommaThenPointNumberText(sym: string, sp: string, a: string, b: string, c: string, currency: string)
    requires UsesDecimalComma(currency) && AllStripped(sym) && OptSpace(sp)
    requires |a| > 0 && AllDigits(a) && |b| > 0 && AllDigits(b) && |c| > 0 && AllDigits(c)
    ensures NumberText(CleanText(sym + sp + a + "," + b + "." + c), currency) == a + "." + b + "." + c
  {
    var t := a + "," + b + "." + c;
    Regroup7(sym, sp, a, ",", b, ".", c);
    JoinedNumber(a, ',', b, '.', c);
    CleanSymbolPrefixed(sym, sp, t);
    CommaThenPointText(a, b, c, currency);
  }

  /** BRL and EUR, a comma then a point: the comma becomes the decimal point,
      and `parseFloat` stops at the second point ("R$ 1,234.56" reads 1.234). */
  lemma CommaThenPointValue(sym: string, sp: string, a: string, b: string, c: string, currency: string)
    requires UsesDecimalComma(currency) && AllStripped(sym) && OptSpace(sp)
    requires |a| > 0 && AllDigits(a) && |b| > 0 && AllDigits(b) && |c| > 0 && AllDigits(c)
    ensures ExtractNumericValue(sym + sp + a + "," + b + "." + c, currency) == Some(DecimalValue(a, b))
  {
    CommaThenPointNumberText(sym, sp, a, b, c, currency);
    ParseTwoPoints(a, b, c);
  }

  /** `parseFloat` stops at a second decimal point. */
  lemma ParseTwoPoints(a: string, b: string, c: string)
    requires |a| > 0 && AllDigits(a) && |b| > 0 && AllDigits(b)
    ensures ParseFloat(a + "." + b + "." + c) == Some(DecimalValue(a, b))
  {
    var u := a + "." + b + "." + c;
    var e := |a| + 1 + |b|;
    assert u[..|a|] == a && u[|a|] == '.' && u[|a| + 1..e] == b && u[e] == '.';
    ParseFloatDecimal(u, |a|, e);
  }

  // ---------------------------------------------------------------------
  // Texts the cleaning leaves starting with a letter read as NaN.

  lemma ParseLetter(t: string)
    requires |t| > 0 && IsAsciiLetter(t[0])
    ensures ParseFloat(t) == None
  {
    assert !IsSpace(t[0]);
    TrimStartKeeps(t);
    assert !StartsNumeric(t);
  }

  lemma RemoveCharLead(s: string, c: char)
    requires |s| > 0 && s[0] != c
    ensures |RemoveChar(s, c)| > 0 && RemoveChar(s, c)[0] == s[0]
  {
  }

  /** The separator rule keeps a leading character other than a separator in front. */
  lemma NumberTextLead(clean: string, currency: string)
    requires |clean| > 0 && clean[0] != ',' && clean[0] != '.'
    ensures |NumberText(clean, currency)| > 0 && NumberText(clean, currency)[0] == clean[0]
  {
    if UsesDecimalComma(currency) {
      var parts := Split(clean, ',');
      if |parts| == 2 {
        SplitInTwo(clean, ',');
        assert |parts[0]| > 0 && parts[0][0] == clean[0] by {
          assert clean[..|parts[0]|] == parts[0];
        }
        RemoveCharLead(parts[0], '.');
      } else {
        RemoveCharLead(clean, '.');
      }
    } else {
      RemoveCharLead(clean, ',');
    }
  }

  /** A cleaned text that starts with a letter reads as NaN. */
  lemma LeadingLetterNaN(s: string, currency: string)
    requires |CleanText(s)| > 0 && IsAsciiLetter(CleanText(s)[0])
    ensures ExtractNumericValue(s, currency) == None
  {
    NumberTextLead(CleanText(s), currency);
    ParseLetter(NumberText(CleanText(s), currency));
  }

  lemma TrimKeepsLead(x: string)
    requires |x| > 0 && !IsSpace(x[0])
    ensures |Trim(x)| > 0 && Trim(x)[0] == x[0]
  {
    assert TrimStart(x) == x;
  }

  lemma LetterNotSpace(c: char)
    requires IsAsciiLetter(c)
    ensures !IsSpace(c)
  {
  }

  /** What pass one leaves of the four codes it breaks. */
  lemma BrokenCodes(code: string)
    requires code in {"EUR", "CAD", "AUD", "MXN"}
    ensures StripSymbols(code) == (if code == "EUR" then "EU" else if code == "CAD" then "D"
                                   else if code == "AUD" then "UD" else "N")
  {
    assert code[1..][1..][1..] == [];
  }

  lemma {:induction false} StripSymbolsNoLetters(s: string)
    requires NoLetters(s)
    ensures NoLetters(StripSymbols(s))
  {
    var r := StripSymbols(s);
    forall k | 0 <= k < |r|
      ensures !IsAsciiLetter(r[k])
    {
      assert r[k] in r;
    }
  }

  lemma ShortLeadNoTriple(lead: string, tail: string)
    requires 0 < |lead| <= 2 && NoLetters(tail)
    ensures NoLetterTriple(lead + tail)
  {
    var x := lead + tail;
    forall k | 0 <= k < |x| - 2
      ensures !(IsAsciiLetter(x[k]) && IsAsciiLetter(x[k + 1]) && IsAsciiLetter(x[k + 2]))
    {
      assert x[k + 2] == tail[k + 2 - |lead|];
    }
  }

  /** "EUR 10,50", "CAD 10", "AUD 5.00" and "MXN 7.00" read as NaN: pass one
      deletes the R, C, A, M and X of the code and the letters left over
      ("EU", "D", "UD", "N") are in no later pass. */
  lemma BrokenCodeNaN(code: string, rest: string, currency: string)
    requires code in {"EUR", "CAD", "AUD", "MXN"} && NoLetters(rest)
    ensures ExtractNumericValue(code + rest, currency) == None
  {
    var lead := StripSymbols(code);
    BrokenCodes(code);
    var tail := StripSymbols(rest);
    FilterConcat(code, rest, IsStrippedSymbol);
    StripSymbolsNoLetters(rest);
    var x := lead + tail;
    assert StripSymbols(code + rest) == x;
    ShortLeadNoTriple(lead, tail);
    WordPassesKeep(x);
    LetterNotSpace(x[0]);
    TrimKeepsLead(x);
    LeadingLetterNaN(code + rest, currency);
  }

  /** A text whose first character folds to `p` and whose second folds to
      `r` or `i`, or to `e` before one folding to `ç`, starts no currency word. */
  lemma NoWordAfterLabel(x: string)
    requires |x| >= 2 && FoldCase(x[0]) == 'p'
    requires || FoldCase(x[1]) == 'r' || FoldCase(x[1]) == 'i'
             || (|x| >= 3 && FoldCase(x[1]) == 'e' && FoldCase(x[2]) == 'ç')
    ensures AlternationLength(x, CurrencyWords) == 0
  {
    StemsMissLabel(x);
    NoCurrencyWordAtFront(x);
  }

  /** Six stems that fail at the front: the word alternation matches nothing there. */
  lemma NoCurrencyWordAtFront(x: string)
    requires !LitAt(x, 0, "reai", true) && !LitAt(x, 0, "dollar", true) && !LitAt(x, 0, "euro", true)
    requires !LitAt(x, 0, "yen", true) && !LitAt(x, 0, "pound", true) && !LitAt(x, 0, "peso", true)
    ensures AlternationLength(x, CurrencyWords) == 0
  {
    WordStems();
    NoStemAtFront(x, CurrencyWords);
  }

  lemma StemsMissLabel(x: string)
    requires |x| >= 2 && FoldCase(x[0]) == 'p'
    requires || FoldCase(x[1]) == 'r' || FoldCase(x[1]) == 'i'
             || (|x| >= 3 && FoldCase(x[1]) == 'e' && FoldCase(x[2]) == 'ç')
    ensures !LitAt(x, 0, "reai", true) && !LitAt(x, 0, "dollar", true) && !LitAt(x, 0, "euro", true)
    ensures !LitAt(x, 0, "yen", true) && !LitAt(x, 0, "pound", true) && !LitAt(x, 0, "peso", true)
  {
    var c := x[0];
    MismatchAt(x, "reai", 0, c, 'r');
    MismatchAt(x, "dollar", 0, c, 'd');
    MismatchAt(x, "euro", 0, c, 'e');
    MismatchAt(x, "yen", 0, c, 'y');
    MismatchAt(x, "pound", 1, x[1], 'o');
    if FoldCase(x[1]) != 'e' {
      MismatchAt(x, "peso", 1, x[1], 'e');
    } else {
      MismatchAt(x, "peso", 2, x[2], 's');
    }
  }

  /** The stems of the currency words, in order. */
  lemma WordStems()
    ensures |CurrencyWords| == 6
    ensures && CurrencyWords[0].stem == "reai" && CurrencyWords[1].stem == "dollar"
            && CurrencyWords[2].stem == "euro" && CurrencyWords[3].stem == "pound"
            && CurrencyWords[4].stem == "yen" && CurrencyWords[5].stem == "peso"
  {
  }

  /** The stems of the ISO codes, in order. */
  lemma CodeStems()
    ensures |IsoCodes| == 8
    ensures && IsoCodes[0].stem == "USD" && IsoCodes[1].stem == "EUR"
            && IsoCodes[2].stem == "GBP" && IsoCodes[3].stem == "JPY"
            && IsoCodes[4].stem == "CAD" && IsoCodes[5].stem == "AUD"
            && IsoCodes[6].stem == "MXN" && IsoCodes[7].stem == "BRL"
  {
  }

  /** A text whose character `i` differs from the stem's is not at the stem. */
  lemma MismatchAt(x: string, lit: string, i: nat, c: char, d: char)
    requires i < |x| && i < |lit| && x[i] == c && lit[i] == d && FoldCase(c) != FoldCase(d)
    ensures !LitAt(x, 0, lit, true)
  {
  }

  /** No ISO code starts with `p` or `P`. */
  lemma NoCodeAfterP(y: string)
    requires |y| > 0 && FoldCase(y[0]) == 'p'
    ensures AlternationLength(y, IsoCodes) == 0
  {
    CodeStems();
    var c := y[0];
    forall k | 0 <= k < |IsoCodes|
      ensures !LitAt(y, 0, IsoCodes[k].stem, true)
    {
      if k == 0 { MismatchAt(y, "USD", 0, c, 'U'); }
      else if k == 1 { MismatchAt(y, "EUR", 0, c, 'E'); }
      else if k == 2 { MismatchAt(y, "GBP", 0, c, 'G'); }
      else if k == 3 { MismatchAt(y, "JPY", 0, c, 'J'); }
      else if k == 4 { MismatchAt(y, "CAD", 0, c, 'C'); }
      else if k == 5 { MismatchAt(y, "AUD", 0, c, 'A'); }
      else if k == 6 { MismatchAt(y, "MXN", 0, c, 'M'); }
      else { MismatchAt(y, "BRL", 0, c, 'B'); }
    }
    NoStemAtFront(y, IsoCodes);
  }

  /** No branch matches at the front: the alternation matches nothing there. */
  lemma NoStemAtFront(x: string, alts: seq<Alternative>)
    requires forall k :: 0 <= k < |alts| ==> !LitAt(x, 0, alts[k].stem, true)
    ensures AlternationLength(x, alts) == 0
  {
  }

  /** `caption` is `lit` in some letter case: what the `i` flag matches for it. */
  predicate FoldsTo(caption: string, lit: string) {
    |caption| == |lit| && forall k :: 0 <= k < |lit| ==> FoldCase(caption[k]) == lit[k]
  }

  /** The letters of `price` and `preço` that decide the passes. */
  lemma LabelLetters(caption: string)
    requires FoldsTo(caption, "price") || FoldsTo(caption, "preço")
    ensures |caption| == 5 && FoldCase(caption[0]) == 'p' && FoldCase(caption[1]) == 'r'
    ensures || FoldCase(caption[2]) == 'i'
            || (FoldCase(caption[2]) == 'e' && FoldCase(caption[3]) == 'ç')
  {
    assert FoldCase(caption[0]) == 'p' && FoldCase(caption[1]) == 'r' && FoldCase(caption[2]) in {'i', 'e'};
    if FoldsTo(caption, "preço") {
      assert FoldCase(caption[2]) == 'e' && FoldCase(caption[3]) == 'ç';
    } else {
      assert FoldCase(caption[2]) == 'i';
    }
  }

  /** Pass one keeps the `p` of a label, and deletes at most a capital `R` behind it. */
  lemma LabelPassOne(caption: string, rest: string)
    requires FoldsTo(caption, "price") || FoldsTo(caption, "preço")
    ensures var x := StripSymbols(caption + rest);
      && |x| >= 2 && FoldCase(x[0]) == 'p'
      && (|| FoldCase(x[1]) == 'r' || FoldCase(x[1]) == 'i'
          || (|x| >= 3 && FoldCase(x[1]) == 'e' && FoldCase(x[2]) == 'ç'))
  {
    LabelLetters(caption);
    var s := caption + rest;
    var c0, c1, c2, c3 := s[0], s[1], s[2], s[3];
    assert c0 == caption[0] && c1 == caption[1] && c2 == caption[2] && c3 == caption[3];
    SymbolsCons(s);
    SymbolsCons(s[1..]);
    assert s[1..][1..] == s[2..];
    SymbolsCons(s[2..]);
    assert s[2..][1..] == s[3..];
    if c1 == 'R' && FoldCase(c2) == 'e' {
      SymbolsCons(s[3..]);
    }
  }

  /** Pass one on a text with a first character. */
  lemma SymbolsCons(s: string)
    requires |s| > 0
    ensures StripSymbols(s) == if IsStrippedSymbol(s[0]) then StripSymbols(s[1..]) else [s[0]] + StripSymbols(s[1..])
  {
  }

  /** After the passes a label match still starts with its `p` or `P`. */
  lemma LabelCleansToP(caption: string, rest: string)
    requires FoldsTo(caption, "price") || FoldsTo(caption, "preço")
    ensures |CleanText(caption + rest)| > 0 && FoldCase(CleanText(caption + rest)[0]) == 'p'
  {
    LabelPassOne(caption, rest);
    var x := StripSymbols(caption + rest);
    NoWordAfterLabel(x);
    var y := StripAlternation(x, CurrencyWords);
    assert y == [x[0]] + StripAlternation(x[1..], CurrencyWords);
    NoCodeAfterP(y);
    var z := StripAlternation(y, IsoCodes);
    assert z == [y[0]] + StripAlternation(y[1..], IsoCodes);
    TrimKeepsLead(z);
  }

  /** A label match, "price…" or "preço…" in any letter case, reads as NaN
      whatever follows the label: pass one deletes at most the capital `R`,
      no other pass reaches the label, so the text never starts with a digit. */
  lemma LabelNaN(caption: string, rest: string, currency: string)
    requires FoldsTo(caption, "price") || FoldsTo(caption, "preço")
    ensures ExtractNumericValue(caption + rest, currency) == None
  {
    LabelCleansToP(caption, rest);
    LeadingLetterNaN(caption + rest, currency);
  }
}
