/** `extractPriceWithCurrency`: the currency table is walked in order, and the
    first pattern that matches anywhere in the text decides the currency; its
    first match is the price text, which is then read as a number and
    formatted again. */
module Extraction {
  import opened Wrappers
  import opened Text
  import opened Patterns
  import opened Currencies
  import Cleaning
  import opened Numbers

  /** The record `extractPriceWithCurrency` returns. `amount` None is NaN. */
  datatype PriceInfo = PriceInfo(original: string, currency: string, amount: Option<real>, formatted: string)

  /** Entry `k` is the first of the table to match `s`, and `sp` is its first match. */
  ghost predicate IsFirstHit(s: string, k: nat, sp: Span) {
    && k < |Entries|
    && sp.start < sp.end <= |s|
    && IsLeftmostLongest(s, Entries[k].pattern, sp)
    && forall m {:trigger HasMatch(s, Entries[m].pattern)} :: 0 <= m < k ==> !HasMatch(s, Entries[m].pattern)
  }

  /** The first entry at or after `k` whose pattern matches `s`, with its
      match; `FirstHitFromSound` says that it is the first hit. */
  function FirstHitFrom(s: string, k: nat): (r: Option<(nat, Span)>)
    requires k <= |Entries|
    ensures r.Some? ==> k <= r.value.0 < |Entries| && r.value.1.start < r.value.1.end <= |s|
    decreases |Entries| - k
  {
    if k == |Entries| then None
    else
      EntryFacts(k);
      match Find(s, Entries[k].pattern)
      case Some(sp) => Some((k, sp))
      case None => FirstHitFrom(s, k + 1)
  }

  /** Once the entries before `k` have failed, the walk from `k` finds the
      first hit, or establishes that no entry matches. */
  lemma FirstHitFromSound(s: string, k: nat)
    requires k <= |Entries|
    requires forall m {:trigger HasMatch(s, Entries[m].pattern)} :: 0 <= m < k ==> !HasMatch(s, Entries[m].pattern)
    ensures var r := FirstHitFrom(s, k);
      && (r.Some? ==> IsFirstHit(s, r.value.0, r.value.1))
      && (r.None? ==> forall m {:trigger HasMatch(s, Entries[m].pattern)} :: 0 <= m < |Entries| ==> !HasMatch(s, Entries[m].pattern))
  {
    FirstHitFromFinds(s, k);
    FirstHitFromMisses(s, k);
  }

  lemma {:induction false} FirstHitFromFinds(s: string, k: nat)
    requires k <= |Entries|
    requires forall m {:trigger HasMatch(s, Entries[m].pattern)} :: 0 <= m < k ==> !HasMatch(s, Entries[m].pattern)
    ensures FirstHitFrom(s, k).Some? ==> IsFirstHit(s, FirstHitFrom(s, k).value.0, FirstHitFrom(s, k).value.1)
    decreases |Entries| - k
  {
    if k < |Entries| {
      EntryFacts(k);
      var found := Find(s, Entries[k].pattern);
      if found.None? {
        assert FirstHitFrom(s, k) == FirstHitFrom(s, k + 1);
        MissesExtend(s, k);
        FirstHitFromFinds(s, k + 1);
      } else {
        assert FirstHitFrom(s, k) == Some((k, found.value));
        FoundIsFirst(s, k, found.value);
      }
    }
  }

  lemma {:induction false} FirstHitFromMisses(s: string, k: nat)
    requires k <= |Entries|
    requires forall m {:trigger HasMatch(s, Entries[m].pattern)} :: 0 <= m < k ==> !HasMatch(s, Entries[m].pattern)
    ensures FirstHitFrom(s, k).None? ==> forall m {:trigger HasMatch(s, Entries[m].pattern)} :: 0 <= m < |Entries| ==> !HasMatch(s, Entries[m].pattern)
    decreases |Entries| - k
  {
    if k < |Entries| {
      EntryFacts(k);
      if Find(s, Entries[k].pattern).None? {
        assert FirstHitFrom(s, k) == FirstHitFrom(s, k + 1);
        MissesExtend(s, k);
        FirstHitFromMisses(s, k + 1);
      }
    }
  }

  lemma FoundIsFirst(s: string, k: nat, sp: Span)
    requires k < |Entries| && WellFormed(Entries[k].pattern) && Find(s, Entries[k].pattern) == Some(sp)
    requires forall m {:trigger HasMatch(s, Entries[m].pattern)} :: 0 <= m < k ==> !HasMatch(s, Entries[m].pattern)
    ensures IsFirstHit(s, k, sp)
  {
  }

  lemma MissesExtend(s: string, k: nat)
    requires k < |Entries| && !HasMatch(s, Entries[k].pattern)
    requires forall m {:trigger HasMatch(s, Entries[m].pattern)} :: 0 <= m < k ==> !HasMatch(s, Entries[m].pattern)
    ensures forall m {:trigger HasMatch(s, Entries[m].pattern)} :: 0 <= m < k + 1 ==> !HasMatch(s, Entries[m].pattern)
  {
    forall m | 0 <= m < k + 1
      ensures !HasMatch(s, Entries[m].pattern)
    {
      if m < k {
        assert !HasMatch(s, Entries[m].pattern);
      }
    }
  }

  /** `extractPriceWithCurrency(text)`; `text` None is `null` or `undefined`. */
  function ExtractPriceWithCurrency(render: Renderer, text: Option<string>): (r: Option<PriceInfo>)
    ensures r.None? <==>
      || text.None? || text.value == ""
      || forall m {:trigger HasMatch(text.value, Entries[m].pattern)} :: 0 <= m < |Entries| ==> !HasMatch(text.value, Entries[m].pattern)
    ensures r.Some? ==> && IsKnownCode(r.value.currency)
                        && r.value.amount == Cleaning.ExtractNumericValue(r.value.original, r.value.currency)
                        && r.value.formatted == FormatPrice(render, r.value.amount, r.value.currency)
  {
    if text.None? || text.value == "" then None
    else
      FirstHitFromSound(text.value, 0);
      match FirstHitFrom(text.value, 0)
      case None => None
      case Some((k, sp)) =>
        EntryFacts(k);
        assert HasMatch(text.value, Entries[k].pattern);
        var original := text.value[sp.start..sp.end];
        var currency := Entries[k].code;
        var amount := Cleaning.ExtractNumericValue(original, currency);
        Some(PriceInfo(original, currency, amount, FormatPrice(render, amount, currency)))
  }

  // ---------------------------------------------------------------------
  // The first hit is unique, so the contract above determines the result.

  lemma LeftmostLongestUnique(s: string, p: Pattern, a: Span, b: Span)
    requires IsLeftmostLongest(s, p, a) && IsLeftmostLongest(s, p, b)
    ensures a == b
  {
  }

  lemma FirstHitUnique(s: string, k1: nat, sp1: Span, k2: nat, sp2: Span)
    requires IsFirstHit(s, k1, sp1) && IsFirstHit(s, k2, sp2)
    ensures k1 == k2 && sp1 == sp2
  {
    assert HasMatch(s, Entries[k1].pattern) && HasMatch(s, Entries[k2].pattern);
    LeftmostLongestUnique(s, Entries[k1].pattern, sp1, sp2);
  }

  /** A record comes from the first hit of the table: its code is the hit
      entry's and its original text the hit's span. */
  lemma ExtractionFromFirstHit(render: Renderer, text: Option<string>)
    ensures var r := ExtractPriceWithCurrency(render, text);
      r.Some? ==> exists k: nat, sp: Span ::
        && IsFirstHit(text.value, k, sp)
        && r.value.currency == Entries[k].code
        && r.value.original == text.value[sp.start..sp.end]
  {
    var r := ExtractPriceWithCurrency(render, text);
    if r.Some? {
      FirstHitFromSound(text.value, 0);
      var (k, sp) := FirstHitFrom(text.value, 0).value;
      assert IsFirstHit(text.value, k, sp);
    }
  }

  /** Once the first hit of a non-empty text is known, the whole record is. */
  lemma ExtractionOfHit(render: Renderer, s: string, k: nat, sp: Span)
    requires IsFirstHit(s, k, sp)
    ensures var original := s[sp.start..sp.end];
            var amount := Cleaning.ExtractNumericValue(original, Entries[k].code);
            ExtractPriceWithCurrency(render, Some(s))
              == Some(PriceInfo(original, Entries[k].code, amount, FormatPrice(render, amount, Entries[k].code)))
  {
    var r := ExtractPriceWithCurrency(render, Some(s));
    ExtractionFromFirstHit(render, Some(s));
    assert s != "";
    assert HasMatch(s, Entries[k].pattern);
    var k2: nat, sp2: Span :| IsFirstHit(s, k2, sp2) && r.value.currency == Entries[k2].code
                             && r.value.original == s[sp2.start..sp2.end];
    FirstHitUnique(s, k, sp, k2, sp2);
  }

  /** The table walk finds the first hit. */
  lemma HitIsFound(s: string, k: nat, sp: Span)
    requires IsFirstHit(s, k, sp)
    ensures FirstHitFrom(s, 0) == Some((k, sp))
  {
    assert HasMatch(s, Entries[k].pattern);
    FirstHitFromSound(s, 0);
    var r := FirstHitFrom(s, 0);
    FirstHitUnique(s, k, sp, r.value.0, r.value.1);
  }

  /** Once the table walk's hit is known, so is the record. */
  lemma FoundGives(render: Renderer, s: string, k: nat, sp: Span, original: string, code: string, amount: Option<real>)
    requires FirstHitFrom(s, 0) == Some((k, sp))
    requires s[sp.start..sp.end] == original && Entries[k].code == code
    requires Cleaning.ExtractNumericValue(original, code) == amount
    ensures ExtractPriceWithCurrency(render, Some(s)) == Some(PriceInfo(original, code, amount, FormatPrice(render, amount, code)))
  {
    assert s != "";
  }

  // ---------------------------------------------------------------------
  // Ruling a pattern out: every match spells the pattern's literal, so a text
  // without the literal's first character has no match.

  /** The literal every match spells: the symbol, the word or the caption. */
  function Literal(p: Pattern): string {
    match p.shape
    case Prefix(symbol) => symbol
    case Suffix(word, _) => word
    case Label(caption, _) => caption
  }

  /** No character of `s` matches `c` (under the `i` flag when `ignoreCase`). */
  predicate Lacks(s: string, c: char, ignoreCase: bool) {
    forall k :: 0 <= k < |s| ==> !SameChar(s[k], c, ignoreCase)
  }

  lemma {:induction false} WordTailSpells(s: string, i: nat, j: nat, word: string, plural: bool, ignoreCase: bool, n: nat)
    requires n < |word| && WordTail(s, i, j, word, plural, ignoreCase)
    ensures exists k :: i <= k < |s| && SameChar(s[k], word[n], ignoreCase)
    decreases |s| - i
  {
    if i < |s| && IsSpace(s[i]) && WordTail(s, i + 1, j, word, plural, ignoreCase) {
      WordTailSpells(s, i + 1, j, word, plural, ignoreCase, n);
    } else {
      assert LitAt(s, i, word, ignoreCase);
      assert SameChar(s[i + n], word[n], ignoreCase);
    }
  }

  lemma MatchSpellsLiteral(s: string, i: nat, j: nat, p: Pattern, n: nat)
    requires n < |Literal(p)| && MatchSpan(s, i, j, p)
    ensures !Lacks(s, Literal(p)[n], p.ignoreCase)
  {
    match p.shape
    case Prefix(symbol) =>
      assert SameChar(s[i + n], symbol[n], p.ignoreCase);
    case Suffix(word, plural) =>
      var m :| i < m <= j && NumberSpan(s, i, m, p.format) && WordTail(s, m, j, word, plural, p.ignoreCase);
      WordTailSpells(s, m, j, word, plural, p.ignoreCase, n);
    case Label(caption, _) =>
      assert SameChar(s[i + n], caption[n], p.ignoreCase);
  }

  /** A text lacking any one character of a pattern's literal has no match. */
  lemma LackingCharNoMatch(s: string, p: Pattern, n: nat)
    requires n < |Literal(p)| && Lacks(s, Literal(p)[n], p.ignoreCase)
    ensures !HasMatch(s, p)
  {
    if HasMatch(s, p) {
      var i: nat, j: nat :| MatchSpan(s, i, j, p);
      MatchSpellsLiteral(s, i, j, p, n);
    }
  }

  /** The other case of a letter of the patterns (ASCII or `ç`). */
  function UpperOf(c: char): char {
    if 'a' <= c <= 'z' then (c as int - 32) as char else if c == 'ç' then 'Ç' else c
  }

  /** A character absent from `s` is lacked case-sensitively; a lower-case
      letter absent from `s` in both cases is lacked under the `i` flag. */
  lemma AbsentChar(s: string, c: char, ignoreCase: bool)
    requires c !in s
    requires ignoreCase ==> ('a' <= c <= 'z' || c == 'ç') && UpperOf(c) !in s
    ensures Lacks(s, c, ignoreCase)
  {
    forall k | 0 <= k < |s|
      ensures !SameChar(s[k], c, ignoreCase)
    {
      assert s[k] in s;
    }
  }

  /** Entry `k` cannot match a text lacking character `n` of its literal. */
  lemma EntryRuledOut(s: string, k: nat, n: nat)
    requires k < |Entries|
    requires var p := Entries[k].pattern;
      && n < |Literal(p)| && Literal(p)[n] !in s
      && (p.ignoreCase ==> ('a' <= Literal(p)[n] <= 'z' || Literal(p)[n] == 'ç') && UpperOf(Literal(p)[n]) !in s)
    ensures !HasMatch(s, Entries[k].pattern)
  {
    var p := Entries[k].pattern;
    AbsentChar(s, Literal(p)[n], p.ignoreCase);
    LackingCharNoMatch(s, p, n);
  }

  /** A suffix pattern's number comes before its word: a text whose digits all
      lie at or after `d`, and which lacks the word's first letter from `d` on,
      has no match. */
  lemma SuffixRuledOut(s: string, p: Pattern, d: nat)
    requires p.shape.Suffix? && |p.shape.word| > 0 && d <= |s|
    requires forall k :: 0 <= k < d ==> !IsDigit(s[k])
    requires Lacks(s[d..], p.shape.word[0], p.ignoreCase)
    ensures !HasMatch(s, p)
  {
    if HasMatch(s, p) {
      var i: nat, j: nat :| MatchSpan(s, i, j, p);
      var m :| i < m <= j && NumberSpan(s, i, m, p.format) && WordTail(s, m, j, p.shape.word, p.shape.plural, p.ignoreCase);
      assert IsDigit(s[i]);
      WordTailSpells(s, m, j, p.shape.word, p.shape.plural, p.ignoreCase, 0);
    }
  }

  /** The greedy reading at the first start where it succeeds is the first match. */
  lemma GreedyIsFirst(s: string, p: Pattern, i: nat)
    requires WellFormed(p) && MatchAt(s, i, p).Some?
    requires forall k :: 0 <= k < i ==> MatchAt(s, k, p).None?
    ensures IsLeftmostLongest(s, p, Span(i, MatchAt(s, i, p).value))
    ensures i < MatchAt(s, i, p).value <= |s|
  {
    MatchAtSound(s, i, p);
    LongestAt(s, i, p);
    forall k: nat, j: nat | k < i
      ensures !MatchSpan(s, k, j, p)
    {
      NoMatchAt(s, k, p);
    }
  }

  /** A prefix pattern whose symbol's first character does not occur before
      `i` first matches at `i` when its greedy reading succeeds there. */
  lemma PrefixFirstAt(s: string, p: Pattern, i: nat)
    requires p.shape.Prefix? && |p.shape.symbol| > 0 && i <= |s|
    requires MatchAt(s, i, p).Some?
    requires Lacks(s[..i], p.shape.symbol[0], p.ignoreCase)
    ensures IsLeftmostLongest(s, p, Span(i, MatchAt(s, i, p).value))
    ensures i < MatchAt(s, i, p).value <= |s|
  {
    forall k | 0 <= k < i
      ensures MatchAt(s, k, p).None?
    {
      assert s[..i][k] == s[k];
      assert !SameChar(s[k + 0], p.shape.symbol[0], p.ignoreCase);
    }
    GreedyIsFirst(s, p, i);
  }

  // ---------------------------------------------------------------------
  // Worked examples.

  /** The `$` pattern of USD on `C$ 10.00`: nothing at 0, `$ 10.00` at 1. */
  lemma DollarOnCanadian()
    ensures var p := Pattern(Prefix("$"), Dotted, false);
            MatchAt("C$ 10.00", 0, p).None? && MatchAt("C$ 10.00", 1, p) == Some(8)
  {
    var s := "C$ 10.00";
    assert s[0] == 'C' && s[1] == '$' && s[2] == ' ' && s[3] == '1' && s[4] == '0';
    assert s[5] == '.' && s[6] == '0' && s[7] == '0';
    assert !LitAt(s, 0, "$", false) by { assert !SameChar(s[0 + 0], "$"[0], false); }
    assert LitAt(s, 1, "$", false);
    assert LeadEnd(s, 3) == 5;
    assert GroupsEnd(s, 5, Dotted) == 5;
    assert FractionAt(s, 5, Dotted);
  }

  lemma TenPieces(t: string, sym: string, sp: string, w: string, f: string)
    requires t == "$ 10.00" && sym == "$" && sp == " " && w == "10" && f == "00"
    ensures t == sym + sp + w + "." + f
    ensures Cleaning.AllStripped(sym) && Cleaning.DigitsOr(w, ',') && Numbers.AllDigits(f)
    ensures |w| > 0 && IsDigit(w[0]) && |f| > 0 && !Cleaning.UsesDecimalComma("USD")
  {
  }

  lemma TenValue(w: string, f: string)
    requires w == "10" && f == "00"
    ensures Numbers.AllDigits(w) && Numbers.AllDigits(f) && DecimalValue(w, f) == 10.0
  {
    assert DigitsValue("1") == 1 && DigitsValue("0") == 0;
    DigitsSnoc("1", '0');
    assert "1" + ['0'] == w;
    DigitsSnoc("0", '0');
    assert "0" + ['0'] == f;
  }

  lemma DollarsTenValue(t: string)
    requires t == "$ 10.00"
    ensures Cleaning.ExtractNumericValue(t, "USD") == Some(10.0)
  {
    var sym, sp, w, f := "$", " ", "10", "00";
    TenPieces(t, sym, sp, w, f);
    RemoveCharAbsent(w, ',');
    TenValue(w, f);
    Cleaning.PointTextValue(t, sym, sp, w, f, "USD", 10.0);
  }

  lemma CanadianSlice(s: string)
    requires s == "C$ 10.00"
    ensures s[1..8] == "$ 10.00"
  {
    assert s[1] == '$' && s[2] == ' ' && s[3] == '1' && s[4] == '0' && s[5] == '.' && s[6] == '0' && s[7] == '0';
  }

  /** A text with no `R`, `r`, `P` or `p` matches none of the BRL patterns. */
  lemma BrlRuledOut(s: string)
    requires 'R' !in s && 'r' !in s && 'P' !in s && 'p' !in s
    ensures forall m {:trigger HasMatch(s, Entries[m].pattern)} :: 0 <= m < 3 ==> !HasMatch(s, Entries[m].pattern)
  {
    EntryRuledOut(s, 0, 0);
    EntryRuledOut(s, 1, 0);
    EntryRuledOut(s, 2, 0);
  }

  /** A Canadian price is reported as dollars: the `$` pattern of USD comes
      before the `C$` pattern of CAD, so the match starts after the `C`. */
  lemma CanadianPriceReadAsDollars(render: Renderer, s: string)
    requires s == "C$ 10.00"
    ensures ExtractPriceWithCurrency(render, Some(s))
         == Some(PriceInfo("$ 10.00", "USD", Some(10.0), FormatPrice(render, Some(10.0), "USD")))
  {
    CanadianFirstHit(s);
    CanadianSlice(s);
    DollarsTenValue(s[1..8]);
    FirstEntries();
    FoundGives(render, s, 3, Span(1, 8), "$ 10.00", "USD", Some(10.0));
  }

  lemma CanadianFirstHit(s: string)
    requires s == "C$ 10.00"
    ensures FirstHitFrom(s, 0) == Some((3, Span(1, 8)))
  {
    BrlRuledOut(s);
    DollarOnCanadian();
    var p := Pattern(Prefix("$"), Dotted, false);
    FirstEntries();
    GreedyIsFirst(s, p, 1);
    HitIsFound(s, 3, Span(1, 8));
  }


  /** `R$ 299,90` at the end of a text: the BRL symbol pattern matches it. */
  lemma RealsMatch(a: string, b: string)
    requires |a| == 28 && b == "R$ 299,90"
    ensures MatchAt(a + b, |a|, Pattern(Prefix("R$"), Either, false)) == Some(|a| + |b|)
  {
    var s := a + b;
    assert s[28] == 'R' && s[29] == '$' && s[30] == ' ' && s[31] == '2' && s[32] == '9';
    assert s[33] == '9' && s[34] == ',' && s[35] == '9' && s[36] == '0';
    assert LitAt(s, 28, "R$", false);
    assert LeadEnd(s, 31) == 34;
    assert GroupsEnd(s, 34, Either) == 34;
    assert FractionAt(s, 34, Either);
  }

  lemma RealsValue(t: string)
    requires t == "R$ 299,90"
    ensures Cleaning.ExtractNumericValue(t, "BRL") == Some(299.9)
  {
    var sym, sp, w, f := "R$", " ", "299", "90";
    RealsPieces(t, sym, sp, w, f);
    RemoveCharAbsent(w, '.');
    RealsDigits(w, f);
    Cleaning.CommaTextValue(t, sym, sp, w, f, "BRL", 299.9);
  }

  lemma RealsPieces(t: string, sym: string, sp: string, w: string, f: string)
    requires t == "R$ 299,90" && sym == "R$" && sp == " " && w == "299" && f == "90"
    ensures t == sym + sp + w + "," + f
    ensures Cleaning.AllStripped(sym) && Cleaning.DigitsOr(w, '.') && Numbers.AllDigits(f)
    ensures |w| > 0 && IsDigit(w[0]) && |f| > 0 && Cleaning.UsesDecimalComma("BRL")
  {
  }

  lemma RealsDigits(w: string, f: string)
    requires w == "299" && f == "90"
    ensures Numbers.AllDigits(w) && Numbers.AllDigits(f) && DecimalValue(w, f) == 299.9
  {
    assert DigitsValue("2") == 2 && DigitsValue("9") == 9;
    DigitsSnoc("2", '9');
    assert "2" + ['9'] == "29";
    DigitsSnoc("29", '9');
    assert "29" + ['9'] == w;
    DigitsSnoc("9", '0');
    assert "9" + ['0'] == f;
    DecimalOf(w, f, 299, 90, 299.9);
  }

  lemma RealsWordPieces(t: string, n: string, ws: string, word: string, w: string, f: string)
    requires word == "reais" || word == "REAIS"
    requires t == "10,50 " + word && n == "10,50" && ws == " " && w == "10" && f == "50"
    ensures t == n + ws + word && n == "" + "" + w + "," + f
    ensures forall k :: 0 <= k < |ws| ==> IsSpace(ws[k])
    ensures Cleaning.IsNumberText(n) && Cleaning.AllLetters(word)
    ensures |w| > 0 && IsDigit(w[0]) && Cleaning.DigitsOr(w, '.') && |f| > 0 && Cleaning.UsesDecimalComma("BRL")
  {
  }

  lemma TenFiftyValue(w: string, f: string)
    requires w == "10" && f == "50"
    ensures Numbers.AllDigits(w) && Numbers.AllDigits(f) && DecimalValue(w, f) == 10.5
  {
    assert DigitsValue("1") == 1 && DigitsValue("5") == 5;
    DigitsSnoc("1", '0');
    assert "1" + ['0'] == w;
    DigitsSnoc("5", '0');
    assert "5" + ['0'] == f;
    DecimalOf(w, f, 10, 50, 10.5);
  }

  /** "10,50 reais" in BRL: the word goes, and the comma is the decimal point. */
  lemma RealsWordValue(t: string)
    requires t == "10,50 reais"
    ensures Cleaning.ExtractNumericValue(t, "BRL") == Some(10.5)
  {
    var n, ws, word, w, f := "10,50", " ", "reais", "10", "50";
    RealsWordPieces(t, n, ws, word, w, f);
    RemoveCharAbsent(w, '.');
    TenFiftyValue(w, f);
    WordCommaValue(t, n, ws, word, w, f, "BRL", 10.5);
  }

  /** "10,50 REAIS" in BRL reads 10.5 as well: pass one deletes the capital
      `R` and `A`, pass two leaves the `EIS` that remains, and `parseFloat`
      stops at it. */
  lemma ShoutedRealsWordValue(t: string)
    requires t == "10,50 REAIS"
    ensures Cleaning.ExtractNumericValue(t, "BRL") == Some(10.5)
  {
    var n, ws, word, w, f := "10,50", " ", "REAIS", "10", "50";
    RealsWordPieces(t, n, ws, word, w, f);
    RemoveCharAbsent(w, '.');
    TenFiftyValue(w, f);
    WordCommaValue(t, n, ws, word, w, f, "BRL", 10.5);
  }

  lemma ShoutedLabelPieces(t: string, caption: string, rest: string)
    requires t == "PRICE: 12" && caption == "PRICE" && rest == ": 12"
    ensures t == caption + rest && Cleaning.FoldsTo(caption, "price")
  {
  }

  /** "PRICE: 12" reads as NaN in every currency, like "price: 12". */
  lemma ShoutedLabelNaN(t: string, currency: string)
    requires t == "PRICE: 12"
    ensures Cleaning.ExtractNumericValue(t, currency) == None
  {
    var caption, rest := "PRICE", ": 12";
    ShoutedLabelPieces(t, caption, rest);
    Cleaning.LabelNaN(caption, rest, currency);
  }

  /** A number with a decimal comma followed by a word of letters reads as the number. */
  lemma WordCommaValue(t: string, n: string, ws: string, word: string, w: string, f: string, currency: string, v: real)
    requires t == n + ws + word && n == "" + "" + w + "," + f && forall k :: 0 <= k < |ws| ==> IsSpace(ws[k])
    requires Cleaning.IsNumberText(n) && Cleaning.AllLetters(word) && Cleaning.UsesDecimalComma(currency)
    requires |w| > 0 && IsDigit(w[0]) && Cleaning.DigitsOr(w, '.') && |f| > 0 && Numbers.AllDigits(f)
    requires RemoveChar(w, '.') == w && Numbers.AllDigits(w) && DecimalValue(w, f) == v
    ensures Cleaning.ExtractNumericValue(t, currency) == Some(v)
  {
    Cleaning.WordSuffixValue(n, ws, word, currency);
    Cleaning.CommaTextValue(n, "", "", w, f, currency, v);
  }

  lemma CodeTenPieces(t: string, iso: string, sp: string, n: string, w: string, f: string)
    requires t == "USD 10.00" && iso == "USD" && sp == " " && n == "10.00" && w == "10" && f == "00"
    ensures t == iso + sp + n && n == "" + "" + w + "." + f
    ensures Cleaning.IsIntactCode(iso) && Cleaning.OptSpace(sp) && Cleaning.IsNumberText(n)
    ensures |w| > 0 && IsDigit(w[0]) && Cleaning.DigitsOr(w, ',') && |f| > 0 && !Cleaning.UsesDecimalComma("USD")
  {
  }

  /** "USD 10.00" in USD: the code goes, and the text reads ten. */
  lemma CodeTenValue(t: string)
    requires t == "USD 10.00"
    ensures Cleaning.ExtractNumericValue(t, "USD") == Some(10.0)
  {
    var iso, sp, n, w, f := "USD", " ", "10.00", "10", "00";
    CodeTenPieces(t, iso, sp, n, w, f);
    RemoveCharAbsent(w, ',');
    TenValue(w, f);
    CodePointValue(t, iso, sp, n, w, f, "USD", 10.0);
  }

  /** An intact code, an optional space and a number with a decimal point read as the number. */
  lemma CodePointValue(t: string, iso: string, sp: string, n: string, w: string, f: string, currency: string, v: real)
    requires t == iso + sp + n && n == "" + "" + w + "." + f
    requires Cleaning.IsIntactCode(iso) && Cleaning.OptSpace(sp) && Cleaning.IsNumberText(n)
    requires |w| > 0 && IsDigit(w[0]) && Cleaning.DigitsOr(w, ',') && |f| > 0 && Numbers.AllDigits(f)
    requires !Cleaning.UsesDecimalComma(currency)
    requires RemoveChar(w, ',') == w && Numbers.AllDigits(w) && DecimalValue(w, f) == v
    ensures Cleaning.ExtractNumericValue(t, currency) == Some(v)
  {
    Cleaning.CodePrefixValue(iso, sp, n, currency);
    Cleaning.PointTextValue(n, "", "", w, f, currency, v);
  }

  lemma GroupedRealsPieces(t: string, sym: string, a: string, b: string, c: string, sep: string)
    requires sym == "R$" && a == "1" && b == "234" && c == "56" && (sep == "," || sep == ".")
    requires t == "R$ 1,234" + sep + "56"
    ensures t == sym + " " + a + "," + b + sep + c
    ensures Cleaning.AllStripped(sym) && Numbers.AllDigits(a) && Numbers.AllDigits(b) && Numbers.AllDigits(c)
    ensures |a| > 0 && |b| > 0 && |c| > 0 && Cleaning.UsesDecimalComma("BRL")
  {
  }

  lemma OnePoint234(a: string, b: string)
    requires a == "1" && b == "234"
    ensures Numbers.AllDigits(a) && Numbers.AllDigits(b) && DigitsValue(a) == 1 && DecimalValue(a, b) == 1.234
  {
    assert DigitsValue("2") == 2;
    DigitsSnoc("2", '3');
    assert "2" + ['3'] == "23";
    DigitsSnoc("23", '4');
    assert "23" + ['4'] == b;
    assert Pow10(|b|) == 1000;
  }

  /** "R$ 1,234,56" in BRL reads one: `parseFloat` stops at the first comma. */
  lemma RealsTwoCommasValue(t: string)
    requires t == "R$ 1,234,56"
    ensures Cleaning.ExtractNumericValue(t, "BRL") == Some(1.0)
  {
    var sym, a, b, c := "R$", "1", "234", "56";
    GroupedRealsPieces(t, sym, a, b, c, ",");
    Cleaning.TwoCommasValue(sym, " ", a, b, c, "BRL");
    OnePoint234(a, b);
  }

  /** "R$ 1,234.56" in BRL reads 1.234: the comma is the decimal point and
      `parseFloat` stops at the period. */
  lemma RealsCommaThenPointValue(t: string)
    requires t == "R$ 1,234.56"
    ensures Cleaning.ExtractNumericValue(t, "BRL") == Some(1.234)
  {
    var sym, a, b, c := "R$", "1", "234", "56";
    GroupedRealsPieces(t, sym, a, b, c, ".");
    Cleaning.CommaThenPointValue(sym, " ", a, b, c, "BRL");
    OnePoint234(a, b);
  }

  lemma DigitsSnoc(w: string, c: char)
    requires Numbers.AllDigits(w) && IsDigit(c)
    ensures Numbers.AllDigits(w + [c])
    ensures DigitsValue(w + [c]) == 10 * DigitsValue(w) + (c as int - '0' as int)
  {
    assert (w + [c])[..|w|] == w;
  }

  /** `DecimalValue` of a whole part and a two-digit fraction. */
  lemma DecimalOf(w: string, f: string, wv: nat, fv: nat, v: real)
    requires Numbers.AllDigits(w) && Numbers.AllDigits(f) && |f| == 2
    requires DigitsValue(w) == wv && DigitsValue(f) == fv && v == wv as real + fv as real / 100.0
    ensures DecimalValue(w, f) == v
  {
    assert Pow10(2) == 100;
  }

  lemma BrazilianFirstHit(a: string, b: string)
    requires a == "Produto incrível por apenas " && b == "R$ 299,90"
    ensures FirstHitFrom(a + b, 0) == Some((0, Span(|a|, |a| + |b|)))
    ensures (a + b)[|a|..|a| + |b|] == b
  {
    SliceOfTail(a, b);
    var s := a + b;
    var p := Pattern(Prefix("R$"), Either, false);
    FirstEntries();
    RealsMatch(a, b);
    assert s[..|a|] == a;
    AbsentChar(a, 'R', false);
    PrefixFirstAt(s, p, |a|);
    HitIsFound(s, 0, Span(|a|, |a| + |b|));
  }

  /** The Brazilian sample description of the service's tests: its price is
      read as BRL 299.90. */
  lemma BrazilianSamplePrice(render: Renderer, a: string, b: string)
    requires a == "Produto incrível por apenas " && b == "R$ 299,90"
    ensures ExtractPriceWithCurrency(render, Some(a + b))
         == Some(PriceInfo(b, "BRL", Some(299.9), FormatPrice(render, Some(299.9), "BRL")))
  {
    BrazilianFirstHit(a, b);
    RealsValue(b);
    FirstEntries();
    FoundGives(render, a + b, 0, Span(|a|, |a| + |b|), b, "BRL", Some(299.9));
  }

  lemma SliceOfTail(a: string, b: string)
    ensures (a + b)[|a|..|a| + |b|] == b
  {
  }

  /** `$199.99` at the end of a text: the USD symbol pattern matches it. */
  lemma DollarsMatch(a: string, b: string)
    requires |a| == 25 && b == "$199.99"
    ensures MatchAt(a + b, |a|, Pattern(Prefix("$"), Dotted, false)) == Some(|a| + |b|)
  {
    var s := a + b;
    assert s[25] == '$' && s[26] == '1' && s[27] == '9' && s[28] == '9';
    assert s[29] == '.' && s[30] == '9' && s[31] == '9';
    assert LitAt(s, 25, "$", false);
    assert LeadEnd(s, 26) == 29;
    assert GroupsEnd(s, 29, Dotted) == 29;
    assert FractionAt(s, 29, Dotted);
  }

  lemma DollarsPieces(t: string, sym: string, sp: string, w: string, f: string)
    requires t == "$199.99" && sym == "$" && sp == "" && w == "199" && f == "99"
    ensures t == sym + sp + w + "." + f
    ensures Cleaning.AllStripped(sym) && Cleaning.DigitsOr(w, ',') && Numbers.AllDigits(f)
    ensures |w| > 0 && IsDigit(w[0]) && |f| > 0 && !Cleaning.UsesDecimalComma("USD")
  {
  }

  lemma DollarsDigits(w: string, f: string)
    requires w == "199" && f == "99"
    ensures Numbers.AllDigits(w) && Numbers.AllDigits(f) && DecimalValue(w, f) == 199.99
  {
    assert DigitsValue("1") == 1 && DigitsValue("9") == 9;
    DigitsSnoc("1", '9');
    assert "1" + ['9'] == "19";
    DigitsSnoc("19", '9');
    assert "19" + ['9'] == w;
    DigitsSnoc("9", '9');
    assert "9" + ['9'] == f;
    DecimalOf(w, f, 199, 99, 199.99);
  }

  lemma DollarsValue(t: string)
    requires t == "$199.99"
    ensures Cleaning.ExtractNumericValue(t, "USD") == Some(199.99)
  {
    var sym, sp, w, f := "$", "", "199", "99";
    DollarsPieces(t, sym, sp, w, f);
    RemoveCharAbsent(w, ',');
    DollarsDigits(w, f);
    Cleaning.PointTextValue(t, sym, sp, w, f, "USD", 199.99);
  }

  /** None of the three BRL patterns matches the English sample. */
  lemma EnglishNotBrl(a: string, b: string)
    requires a == "Amazing product for only " && b == "$199.99"
    ensures forall m {:trigger HasMatch(a + b, Entries[m].pattern)} :: 0 <= m < 3 ==> !HasMatch(a + b, Entries[m].pattern)
  {
    EnglishNoRealSign(a, b);
    EnglishNoReais(a, b);
    EnglishNoPreco(a, b);
  }

  lemma EnglishNoRealSign(a: string, b: string)
    requires a == "Amazing product for only " && b == "$199.99"
    ensures !HasMatch(a + b, Entries[0].pattern)
  {
    FirstEntries();
    var p := Pattern(Prefix("R$"), Either, false);
    assert 'R' !in a && 'R' !in b;
    NotInConcat(a, b, 'R');
    AbsentChar(a + b, 'R', false);
    LackingCharNoMatch(a + b, p, 0);
  }

  lemma NotInConcat(a: string, b: string, c: char)
    requires c !in a && c !in b
    ensures c !in a + b
  {
  }

  lemma EnglishNoPreco(a: string, b: string)
    requires a == "Amazing product for only " && b == "$199.99"
    ensures !HasMatch(a + b, Entries[2].pattern)
  {
    var p := Pattern(Label("preço", true), Either, true);
    FirstEntries();
    assert 'ç' !in a + b && 'Ç' !in a + b;
    AbsentChar(a + b, 'ç', true);
    LackingCharNoMatch(a + b, p, 3);
  }

  lemma EnglishWordsDigitFree(a: string)
    requires a == "Amazing product for only "
    ensures forall k :: 0 <= k < |a| ==> !IsDigit(a[k])
  {
    forall k | 0 <= k < |a|
      ensures !IsDigit(a[k])
    {
      assert a[k] in a;
    }
  }

  lemma EnglishHead(a: string, b: string)
    requires a == "Amazing product for only " && b == "$199.99"
    ensures forall k :: 0 <= k < 26 ==> !IsDigit((a + b)[k])
  {
    EnglishWordsDigitFree(a);
    assert (a + b)[25] == '$';
    forall k | 0 <= k < 25
      ensures !IsDigit((a + b)[k])
    {
      assert (a + b)[k] == a[k];
    }
  }

  lemma EnglishTail(a: string, b: string)
    requires a == "Amazing product for only " && b == "$199.99"
    ensures Lacks((a + b)[26..], 'r', true)
  {
    var u := "199.99";
    assert (a + b)[26..] == u;
    AbsentChar(u, 'r', true);
  }

  lemma EnglishNoReais(a: string, b: string)
    requires a == "Amazing product for only " && b == "$199.99"
    ensures !HasMatch(a + b, Entries[1].pattern)
  {
    var p := Pattern(Suffix("reai", true), Either, true);
    FirstEntries();
    EnglishHead(a, b);
    EnglishTail(a, b);
    SuffixRuledOut(a + b, p, 26);
  }

  lemma EnglishFirstHit(a: string, b: string)
    requires a == "Amazing product for only " && b == "$199.99"
    ensures FirstHitFrom(a + b, 0) == Some((3, Span(|a|, |a| + |b|)))
    ensures (a + b)[|a|..|a| + |b|] == b
  {
    SliceOfTail(a, b);
    var s := a + b;
    EnglishNotBrl(a, b);
    var p := Pattern(Prefix("$"), Dotted, false);
    FirstEntries();
    DollarsMatch(a, b);
    assert s[..|a|] == a;
    AbsentChar(a, '$', false);
    PrefixFirstAt(s, p, |a|);
    HitIsFound(s, 3, Span(|a|, |a| + |b|));
  }

  /** The English sample description of the service's tests: its price is
      read as USD 199.99. */
  lemma EnglishSamplePrice(render: Renderer, a: string, b: string)
    requires a == "Amazing product for only " && b == "$199.99"
    ensures ExtractPriceWithCurrency(render, Some(a + b))
         == Some(PriceInfo(b, "USD", Some(199.99), FormatPrice(render, Some(199.99), "USD")))
  {
    EnglishFirstHit(a, b);
    DollarsValue(b);
    FirstEntries();
    FoundGives(render, a + b, 3, Span(|a|, |a| + |b|), b, "USD", Some(199.99));
  }
}
