/** The price regular expressions of the currency table, as a small grammar.

    Every pattern of the table has one of three shapes around one number:
      Prefix  `<symbol>\s?<number>`              e.g. `R\$\s?…`, `USD\s?…`
      Suffix  `<number>\s*<word>s?`              e.g. `…\s*reais?`, `…\s*yen`
      Label   `<caption>[:\s]*R?\$?\s?<number>`  e.g. `preço[:\s]*R?\$?\s?…`
    and the number is `\d{1,3}(?:S\d{3})*(?:D\d{2})?` for a group separator
    set S and a decimal separator set D (see NumberFormat).

    Two things are defined for each pattern: the LANGUAGE (which spans
    `s[i..j]` the pattern accepts, `MatchSpan`), and the MATCHER (`MatchAt`,
    `Find`), which reads greedily the way a backtracking engine tries a
    pattern first. The lemmas show the matcher returns the leftmost start
    with any match, and there the longest accepted span. For these shapes
    every optional or repeated piece is followed by something that cannot
    begin with the piece's characters, so the backtracking engine's first
    success is that longest span. */
module Patterns {
  import opened Wrappers
  import opened Text

  /** How the number of a pattern separates thousands and decimals. */
  datatype NumberFormat =
    | Either   // `(?:[.,]\d{3})*(?:[.,]\d{2})?`: `.` and `,` in both roles (BRL, EUR)
    | Dotted   // `(?:,\d{3})*(?:\.\d{2})?`: `,` groups, `.` decimals (USD, GBP, CAD, AUD, MXN)
    | Whole    // `(?:,\d{3})*`: `,` groups, no decimals (JPY)
  {
    predicate IsGroupSep(c: char) {
      c == ',' || (Either? && c == '.')
    }

    predicate IsDecimalSep(c: char) {
      match this
      case Either => c == '.' || c == ','
      case Dotted => c == '.'
      case Whole => false
    }
  }

  datatype Shape =
    | Prefix(symbol: string)                // `<symbol>\s?<number>`
    | Suffix(word: string, plural: bool)    // `<number>\s*<word>` then `s?` when plural
    | Label(caption: string, optionalR: bool) // `<caption>[:\s]*` then `R?` when optionalR, then `\$?\s?<number>`

  /** One regular expression of the table; `ignoreCase` is its `i` flag. */
  datatype Pattern = Pattern(shape: Shape, format: NumberFormat, ignoreCase: bool)

  /** A matched substring `s[start..end]`. */
  datatype Span = Span(start: nat, end: nat)

  /** A character a number can be made of. */
  predicate IsNumberChar(c: char) {
    IsDigit(c) || c == '.' || c == ','
  }

  predicate IsColonOrSpace(c: char) {
    c == ':' || IsSpace(c)
  }

  /** Patterns whose matcher is the longest match: a suffix word must begin
      with a letter, so that neither a number nor white space can run into it. */
  predicate WellFormed(p: Pattern) {
    match p.shape
    case Suffix(word, _) => |word| > 0 && IsAsciiLetter(word[0])
    case _ => true
  }

  // ---------------------------------------------------------------------
  // The language of each pattern, as predicates on spans s[i..j].

  ghost predicate AllDigits(s: string, i: nat, j: nat) {
    i <= j <= |s| && forall k :: i <= k < j ==> IsDigit(s[k])
  }

  /** `(?:D\d{2})?` spans `s[i..j]`. */
  ghost predicate FractionSpan(s: string, i: nat, j: nat, f: NumberFormat) {
    j == i || (j == i + 3 && j <= |s| && f.IsDecimalSep(s[i]) && AllDigits(s, i + 1, j))
  }

  /** `(?:S\d{3})*(?:D\d{2})?` spans `s[i..j]`. */
  ghost predicate GroupsSpan(s: string, i: nat, j: nat, f: NumberFormat)
    decreases j - i
  {
    && i <= j <= |s|
    && (|| FractionSpan(s, i, j, f)
        || (i + 4 <= j && f.IsGroupSep(s[i]) && AllDigits(s, i + 1, i + 4) && GroupsSpan(s, i + 4, j, f)))
  }

  /** `\d{1,3}(?:S\d{3})*(?:D\d{2})?` spans `s[i..j]`. */
  ghost predicate NumberSpan(s: string, i: nat, j: nat, f: NumberFormat) {
    || (AllDigits(s, i, i + 1) && GroupsSpan(s, i + 1, j, f))
    || (AllDigits(s, i, i + 2) && GroupsSpan(s, i + 2, j, f))
    || (AllDigits(s, i, i + 3) && GroupsSpan(s, i + 3, j, f))
  }

  /** `\s?<number>` spans `s[i..j]`. */
  ghost predicate OptSpaceNumber(s: string, i: nat, j: nat, f: NumberFormat) {
    || NumberSpan(s, i, j, f)
    || (i < |s| && IsSpace(s[i]) && NumberSpan(s, i + 1, j, f))
  }

  /** `\$?\s?<number>` spans `s[i..j]`. */
  ghost predicate OptDollar(s: string, i: nat, j: nat, f: NumberFormat) {
    || OptSpaceNumber(s, i, j, f)
    || (i < |s| && s[i] == '$' && OptSpaceNumber(s, i + 1, j, f))
  }

  /** `R?\$?\s?<number>` (or `\$?\s?<number>` without the `R?`) spans `s[i..j]`. */
  ghost predicate OptR(s: string, i: nat, j: nat, f: NumberFormat, optionalR: bool, ignoreCase: bool) {
    || OptDollar(s, i, j, f)
    || (optionalR && i < |s| && SameChar(s[i], 'R', ignoreCase) && OptDollar(s, i + 1, j, f))
  }

  /** `[:\s]*R?\$?\s?<number>` spans `s[i..j]`. */
  ghost predicate LabelTail(s: string, i: nat, j: nat, f: NumberFormat, optionalR: bool, ignoreCase: bool)
    decreases |s| - i
  {
    || (i < |s| && IsColonOrSpace(s[i]) && LabelTail(s, i + 1, j, f, optionalR, ignoreCase))
    || OptR(s, i, j, f, optionalR, ignoreCase)
  }

  /** `\s*<word>s?` spans `s[i..j]`. */
  ghost predicate WordTail(s: string, i: nat, j: nat, word: string, plural: bool, ignoreCase: bool)
    decreases |s| - i
  {
    || (i < |s| && IsSpace(s[i]) && WordTail(s, i + 1, j, word, plural, ignoreCase))
    || (&& LitAt(s, i, word, ignoreCase)
        && (|| j == i + |word|
            || (plural && j == i + |word| + 1 && j <= |s| && SameChar(s[i + |word|], 's', ignoreCase))))
  }

  /** Pattern `p` accepts the span `s[i..j]`. */
  ghost predicate MatchSpan(s: string, i: nat, j: nat, p: Pattern) {
    match p.shape
    case Prefix(symbol) =>
      LitAt(s, i, symbol, p.ignoreCase) && OptSpaceNumber(s, i + |symbol|, j, p.format)
    case Suffix(word, plural) =>
      exists m: nat :: i < m <= j && NumberSpan(s, i, m, p.format) && WordTail(s, m, j, word, plural, p.ignoreCase)
    case Label(caption, optionalR) =>
      LitAt(s, i, caption, p.ignoreCase) && LabelTail(s, i + |caption|, j, p.format, optionalR, p.ignoreCase)
  }

  /** `p` accepts some span of `s` (`s.match(p)` is not null). */
  ghost predicate HasMatch(s: string, p: Pattern) {
    exists i: nat, j: nat :: MatchSpan(s, i, j, p)
  }

  /** `sp` is the span `s.match(p)[0]` reports: the leftmost start at which `p`
      accepts anything, and there the longest accepted span. */
  ghost predicate IsLeftmostLongest(s: string, p: Pattern, sp: Span) {
    && MatchSpan(s, sp.start, sp.end, p)
    && (forall i: nat, j: nat :: i < sp.start ==> !MatchSpan(s, i, j, p))
    && (forall j: nat :: MatchSpan(s, sp.start, j, p) ==> j <= sp.end)
  }

  // ---------------------------------------------------------------------
  // The greedy matcher.

  /** End of `\d{1,3}` read greedily at `i` (`i` itself when no digit). */
  function LeadEnd(s: string, i: nat): (r: nat)
    ensures i <= |s| ==> r <= |s|
    ensures i < |s| && IsDigit(s[i]) ==> i < r <= i + 3
    ensures forall k :: i <= k < r ==> k < |s| && IsDigit(s[k])
    ensures r < i + 3 && r < |s| ==> !IsDigit(s[r])
    ensures !(i < |s| && IsDigit(s[i])) ==> r == i
  {
    if i < |s| && IsDigit(s[i]) then
      if i + 1 < |s| && IsDigit(s[i + 1]) then
        if i + 2 < |s| && IsDigit(s[i + 2]) then i + 3 else i + 2
      else i + 1
    else i
  }

  predicate GroupAt(s: string, i: nat, f: NumberFormat) {
    i + 4 <= |s| && f.IsGroupSep(s[i]) && IsDigit(s[i + 1]) && IsDigit(s[i + 2]) && IsDigit(s[i + 3])
  }

  predicate FractionAt(s: string, i: nat, f: NumberFormat) {
    i + 3 <= |s| && f.IsDecimalSep(s[i]) && IsDigit(s[i + 1]) && IsDigit(s[i + 2])
  }

  /** End of `(?:S\d{3})*` read greedily at `i`. */
  function GroupsEnd(s: string, i: nat, f: NumberFormat): (r: nat)
    ensures i <= r && (i <= |s| ==> r <= |s|)
    ensures GroupAt(s, i, f) ==> i + 4 <= r
    ensures forall k :: i <= k < r ==> k < |s| && IsNumberChar(s[k])
    decreases |s| - i
  {
    if GroupAt(s, i, f) then GroupsEnd(s, i + 4, f) else i
  }

  /** End of `(?:S\d{3})*(?:D\d{2})?` read greedily at `i`. */
  function TailEnd(s: string, i: nat, f: NumberFormat): (r: nat)
    ensures GroupsEnd(s, i, f) <= r && (i <= |s| ==> r <= |s|)
    ensures forall k :: i <= k < r ==> k < |s| && IsNumberChar(s[k])
  {
    var g := GroupsEnd(s, i, f);
    if FractionAt(s, g, f) then g + 3 else g
  }

  /** End of the number read greedily at `i`; None when no digit starts there. */
  function GreedyNumber(s: string, i: nat, f: NumberFormat): Option<nat> {
    if i < |s| && IsDigit(s[i]) then Some(TailEnd(s, LeadEnd(s, i), f)) else None
  }

  function GreedyOptSpaceNumber(s: string, i: nat, f: NumberFormat): Option<nat> {
    if i < |s| && IsSpace(s[i]) then GreedyNumber(s, i + 1, f) else GreedyNumber(s, i, f)
  }

  function GreedyOptDollar(s: string, i: nat, f: NumberFormat): Option<nat> {
    if i < |s| && s[i] == '$' then GreedyOptSpaceNumber(s, i + 1, f) else GreedyOptSpaceNumber(s, i, f)
  }

  function GreedyOptR(s: string, i: nat, f: NumberFormat, optionalR: bool, ignoreCase: bool): Option<nat> {
    if optionalR && i < |s| && SameChar(s[i], 'R', ignoreCase) then GreedyOptDollar(s, i + 1, f)
    else GreedyOptDollar(s, i, f)
  }

  function GreedyLabelTail(s: string, i: nat, f: NumberFormat, optionalR: bool, ignoreCase: bool): Option<nat> {
    GreedyOptR(s, RunEnd(s, i, IsColonOrSpace), f, optionalR, ignoreCase)
  }

  function GreedyWordTail(s: string, i: nat, word: string, plural: bool, ignoreCase: bool): Option<nat> {
    var w := RunEnd(s, i, IsSpace);
    if LitAt(s, w, word, ignoreCase) then
      var e := w + |word|;
      Some(if plural && e < |s| && SameChar(s[e], 's', ignoreCase) then e + 1 else e)
    else None
  }

  /** Where a match of `p` starting at `i` ends, read greedily; None when none starts there. */
  function MatchAt(s: string, i: nat, p: Pattern): Option<nat> {
    match p.shape
    case Prefix(symbol) =>
      if LitAt(s, i, symbol, p.ignoreCase) then GreedyOptSpaceNumber(s, i + |symbol|, p.format) else None
    case Suffix(word, plural) =>
      (match GreedyNumber(s, i, p.format)
       case None => None
       case Some(m) => GreedyWordTail(s, m, word, plural, p.ignoreCase))
    case Label(caption, optionalR) =>
      if LitAt(s, i, caption, p.ignoreCase) then GreedyLabelTail(s, i + |caption|, p.format, optionalR, p.ignoreCase)
      else None
  }

  // ---------------------------------------------------------------------
  // The number: the greedy reading is accepted, and nothing longer is.

  lemma {:induction false} GroupsEndSpans(s: string, i: nat, f: NumberFormat)
    requires i <= |s|
    ensures GroupsSpan(s, i, GroupsEnd(s, i, f), f)
    ensures FractionAt(s, GroupsEnd(s, i, f), f) ==> GroupsSpan(s, i, GroupsEnd(s, i, f) + 3, f)
    decreases |s| - i
  {
    if GroupAt(s, i, f) {
      GroupsEndSpans(s, i + 4, f);
      assert AllDigits(s, i + 1, i + 4);
    } else {
      var g := GroupsEnd(s, i, f);
      assert g == i;
      if FractionAt(s, g, f) {
        assert AllDigits(s, i + 1, i + 3);
        assert FractionSpan(s, i, i + 3, f);
      }
      assert FractionSpan(s, i, i, f);
    }
  }

  lemma TailEndSpans(s: string, i: nat, f: NumberFormat)
    requires i <= |s|
    ensures GroupsSpan(s, i, TailEnd(s, i, f), f)
  {
    GroupsEndSpans(s, i, f);
  }

  /** A non-empty tail starts with a separator, never with a digit. */
  lemma GroupsSpanStart(s: string, i: nat, j: nat, f: NumberFormat)
    requires GroupsSpan(s, i, j, f) && i < j
    ensures f.IsGroupSep(s[i]) || f.IsDecimalSep(s[i])
  {
  }

  lemma {:induction false} GroupsLongest(s: string, i: nat, j: nat, f: NumberFormat)
    requires GroupsSpan(s, i, j, f)
    ensures j <= TailEnd(s, i, f)
    decreases j - i
  {
    if i + 4 <= j && f.IsGroupSep(s[i]) && AllDigits(s, i + 1, i + 4) && GroupsSpan(s, i + 4, j, f) {
      assert GroupAt(s, i, f);
      GroupsLongest(s, i + 4, j, f);
    } else if j == i + 3 {
      if !GroupAt(s, i, f) {
        assert FractionAt(s, i, f);
      }
    }
  }

  lemma NumberSound(s: string, i: nat, f: NumberFormat)
    requires GreedyNumber(s, i, f).Some?
    ensures var g := GreedyNumber(s, i, f).value; i < g <= |s| && NumberSpan(s, i, g, f)
  {
    var lead := LeadEnd(s, i);
    TailEndSpans(s, lead, f);
    assert AllDigits(s, i, lead);
  }

  lemma NumberLongest(s: string, i: nat, j: nat, f: NumberFormat)
    requires NumberSpan(s, i, j, f)
    ensures GreedyNumber(s, i, f).Some? && j <= GreedyNumber(s, i, f).value
  {
    var lead := LeadEnd(s, i);
    var k :| 1 <= k <= 3 && AllDigits(s, i, i + k) && GroupsSpan(s, i + k, j, f);
    assert IsDigit(s[i]);
    if i + k < lead {
      assert IsDigit(s[i + k]);
      if i + k < j {
        GroupsSpanStart(s, i + k, j, f);
      }
    } else {
      GroupsLongest(s, i + k, j, f);
    }
  }

  /** Every character the greedy number covers is a digit or a separator. */
  lemma NumberChars(s: string, i: nat, f: NumberFormat)
    requires GreedyNumber(s, i, f).Some?
    ensures forall k :: i <= k < GreedyNumber(s, i, f).value ==> IsNumberChar(s[k])
  {
  }

  // ---------------------------------------------------------------------
  // `\s?`, `\$?`, `R?` and `[:\s]*` in front of the number.

  lemma OptSpaceNumberSound(s: string, i: nat, f: NumberFormat)
    requires GreedyOptSpaceNumber(s, i, f).Some?
    ensures var g := GreedyOptSpaceNumber(s, i, f).value; i < g <= |s| && OptSpaceNumber(s, i, g, f)
  {
    if i < |s| && IsSpace(s[i]) {
      NumberSound(s, i + 1, f);
    } else {
      NumberSound(s, i, f);
    }
  }

  lemma OptSpaceNumberLongest(s: string, i: nat, j: nat, f: NumberFormat)
    requires OptSpaceNumber(s, i, j, f)
    ensures GreedyOptSpaceNumber(s, i, f).Some? && j <= GreedyOptSpaceNumber(s, i, f).value
    ensures i < |s| && (IsDigit(s[i]) || IsSpace(s[i]))
  {
    if NumberSpan(s, i, j, f) {
      NumberLongest(s, i, j, f);
    } else {
      NumberLongest(s, i + 1, j, f);
    }
  }

  lemma OptDollarSound(s: string, i: nat, f: NumberFormat)
    requires GreedyOptDollar(s, i, f).Some?
    ensures var g := GreedyOptDollar(s, i, f).value; i < g <= |s| && OptDollar(s, i, g, f)
  {
    if i < |s| && s[i] == '$' {
      OptSpaceNumberSound(s, i + 1, f);
    } else {
      OptSpaceNumberSound(s, i, f);
    }
  }

  lemma OptDollarLongest(s: string, i: nat, j: nat, f: NumberFormat)
    requires OptDollar(s, i, j, f)
    ensures GreedyOptDollar(s, i, f).Some? && j <= GreedyOptDollar(s, i, f).value
    ensures i < |s| && (IsDigit(s[i]) || IsSpace(s[i]) || s[i] == '$')
  {
    if OptSpaceNumber(s, i, j, f) {
      OptSpaceNumberLongest(s, i, j, f);
    } else {
      OptSpaceNumberLongest(s, i + 1, j, f);
    }
  }

  lemma OptRSound(s: string, i: nat, f: NumberFormat, optionalR: bool, ignoreCase: bool)
    requires GreedyOptR(s, i, f, optionalR, ignoreCase).Some?
    ensures var g := GreedyOptR(s, i, f, optionalR, ignoreCase).value;
      i < g <= |s| && OptR(s, i, g, f, optionalR, ignoreCase)
  {
    if optionalR && i < |s| && SameChar(s[i], 'R', ignoreCase) {
      OptDollarSound(s, i + 1, f);
    } else {
      OptDollarSound(s, i, f);
    }
  }

  lemma OptRLongest(s: string, i: nat, j: nat, f: NumberFormat, optionalR: bool, ignoreCase: bool)
    requires OptR(s, i, j, f, optionalR, ignoreCase)
    ensures GreedyOptR(s, i, f, optionalR, ignoreCase).Some?
    ensures j <= GreedyOptR(s, i, f, optionalR, ignoreCase).value
    ensures i < |s| && (IsDigit(s[i]) || IsSpace(s[i]) || s[i] == '$' || SameChar(s[i], 'R', ignoreCase))
  {
    if OptDollar(s, i, j, f) {
      OptDollarLongest(s, i, j, f);
    } else {
      OptDollarLongest(s, i + 1, j, f);
    }
  }

  lemma {:induction false} LabelTailFromRun(s: string, i: nat, q: nat, j: nat, f: NumberFormat, optionalR: bool, ignoreCase: bool)
    requires i <= q <= |s|
    requires forall k :: i <= k < q ==> IsColonOrSpace(s[k])
    requires OptR(s, q, j, f, optionalR, ignoreCase)
    ensures LabelTail(s, i, j, f, optionalR, ignoreCase)
    decreases q - i
  {
    if i < q {
      LabelTailFromRun(s, i + 1, q, j, f, optionalR, ignoreCase);
    }
  }

  lemma LabelTailSound(s: string, i: nat, f: NumberFormat, optionalR: bool, ignoreCase: bool)
    requires i <= |s|
    requires GreedyLabelTail(s, i, f, optionalR, ignoreCase).Some?
    ensures var g := GreedyLabelTail(s, i, f, optionalR, ignoreCase).value;
      i < g <= |s| && LabelTail(s, i, g, f, optionalR, ignoreCase)
  {
    var q := RunEnd(s, i, IsColonOrSpace);
    OptRSound(s, q, f, optionalR, ignoreCase);
    LabelTailFromRun(s, i, q, GreedyLabelTail(s, i, f, optionalR, ignoreCase).value, f, optionalR, ignoreCase);
  }

  lemma {:induction false} LabelTailLongest(s: string, i: nat, j: nat, f: NumberFormat, optionalR: bool, ignoreCase: bool)
    requires LabelTail(s, i, j, f, optionalR, ignoreCase)
    ensures GreedyLabelTail(s, i, f, optionalR, ignoreCase).Some?
    ensures j <= GreedyLabelTail(s, i, f, optionalR, ignoreCase).value
    decreases |s| - i
  {
    if i < |s| && IsColonOrSpace(s[i]) && LabelTail(s, i + 1, j, f, optionalR, ignoreCase) {
      LabelTailLongest(s, i + 1, j, f, optionalR, ignoreCase);
      assert RunEnd(s, i, IsColonOrSpace) == RunEnd(s, i + 1, IsColonOrSpace);
    } else {
      // Here `s[i]` cannot be `:` or white space: a space read by `\s?` would
      // equally start a LabelTail at `i + 1`.
      OptRLongest(s, i, j, f, optionalR, ignoreCase);
    }
  }

  // ---------------------------------------------------------------------
  // `\s*<word>s?` after the number.

  lemma {:induction false} WordTailFromRun(s: string, i: nat, w: nat, j: nat, word: string, plural: bool, ignoreCase: bool)
    requires i <= w <= |s|
    requires forall k :: i <= k < w ==> IsSpace(s[k])
    requires WordTail(s, w, j, word, plural, ignoreCase)
    ensures WordTail(s, i, j, word, plural, ignoreCase)
    decreases w - i
  {
    if i < w {
      WordTailFromRun(s, i + 1, w, j, word, plural, ignoreCase);
    }
  }

  lemma WordTailSound(s: string, i: nat, word: string, plural: bool, ignoreCase: bool)
    requires i <= |s|
    requires GreedyWordTail(s, i, word, plural, ignoreCase).Some?
    ensures var g := GreedyWordTail(s, i, word, plural, ignoreCase).value;
      i <= g <= |s| && WordTail(s, i, g, word, plural, ignoreCase)
  {
    var w := RunEnd(s, i, IsSpace);
    var g := GreedyWordTail(s, i, word, plural, ignoreCase).value;
    assert WordTail(s, w, g, word, plural, ignoreCase);
    WordTailFromRun(s, i, w, g, word, plural, ignoreCase);
  }

  /** A character that matches a letter is not white space. */
  lemma LetterNotSpace(c: char, letter: char, ignoreCase: bool)
    requires IsAsciiLetter(letter) && SameChar(c, letter, ignoreCase)
    ensures !IsSpace(c) && !IsNumberChar(c)
  {
  }

  lemma {:induction false} WordTailLongest(s: string, i: nat, j: nat, word: string, plural: bool, ignoreCase: bool)
    requires |word| > 0 && IsAsciiLetter(word[0])
    requires WordTail(s, i, j, word, plural, ignoreCase)
    ensures GreedyWordTail(s, i, word, plural, ignoreCase).Some?
    ensures j <= GreedyWordTail(s, i, word, plural, ignoreCase).value
    ensures i < |s| && (IsSpace(s[i]) || SameChar(s[i], word[0], ignoreCase))
    decreases |s| - i
  {
    if i < |s| && IsSpace(s[i]) && WordTail(s, i + 1, j, word, plural, ignoreCase) {
      WordTailLongest(s, i + 1, j, word, plural, ignoreCase);
      GreedyWordTailSkipsSpace(s, i, word, plural, ignoreCase);
    } else {
      WordAtFront(s, i, j, word, plural, ignoreCase);
    }
  }

  /** A leading space is skipped by the greedy reading of the word tail. */
  lemma GreedyWordTailSkipsSpace(s: string, i: nat, word: string, plural: bool, ignoreCase: bool)
    requires i < |s| && IsSpace(s[i])
    ensures GreedyWordTail(s, i, word, plural, ignoreCase) == GreedyWordTail(s, i + 1, word, plural, ignoreCase)
  {
    assert RunEnd(s, i, IsSpace) == RunEnd(s, i + 1, IsSpace);
  }

  /** A word tail with no leading space: the greedy reading starts at the word
      and takes the plural `s` whenever the span does. */
  lemma WordAtFront(s: string, i: nat, j: nat, word: string, plural: bool, ignoreCase: bool)
    requires |word| > 0 && IsAsciiLetter(word[0]) && LitAt(s, i, word, ignoreCase)
    requires j == i + |word| || (plural && j == i + |word| + 1 && j <= |s| && SameChar(s[i + |word|], 's', ignoreCase))
    ensures GreedyWordTail(s, i, word, plural, ignoreCase).Some?
    ensures j <= GreedyWordTail(s, i, word, plural, ignoreCase).value
    ensures i < |s| && SameChar(s[i], word[0], ignoreCase)
  {
    assert SameChar(s[i + 0], word[0], ignoreCase);
    LetterNotSpace(s[i], word[0], ignoreCase);
    assert RunEnd(s, i, IsSpace) == i;
  }

  // ---------------------------------------------------------------------
  // One start position.

  /** The greedy reading at `i` is accepted by the pattern. */
  lemma MatchAtSound(s: string, i: nat, p: Pattern)
    requires MatchAt(s, i, p).Some?
    ensures var j := MatchAt(s, i, p).value; i < j <= |s| && MatchSpan(s, i, j, p)
  {
    match p.shape
    case Prefix(_) => PrefixSound(s, i, p);
    case Suffix(_, _) => SuffixSound(s, i, p);
    case Label(_, _) => LabelSound(s, i, p);
  }

  lemma PrefixSound(s: string, i: nat, p: Pattern)
    requires p.shape.Prefix? && MatchAt(s, i, p).Some?
    ensures var j := MatchAt(s, i, p).value; i < j <= |s| && MatchSpan(s, i, j, p)
  {
    OptSpaceNumberSound(s, i + |p.shape.symbol|, p.format);
  }

  lemma SuffixSound(s: string, i: nat, p: Pattern)
    requires p.shape.Suffix? && MatchAt(s, i, p).Some?
    ensures var j := MatchAt(s, i, p).value; i < j <= |s| && MatchSpan(s, i, j, p)
  {
    var word, plural := p.shape.word, p.shape.plural;
    var j := MatchAt(s, i, p).value;
    var m := GreedyNumber(s, i, p.format).value;
    assert j == GreedyWordTail(s, m, word, plural, p.ignoreCase).value;
    NumberSound(s, i, p.format);
    WordTailSound(s, m, word, plural, p.ignoreCase);
    assert i < m <= j && NumberSpan(s, i, m, p.format) && WordTail(s, m, j, word, plural, p.ignoreCase);
  }

  lemma LabelSound(s: string, i: nat, p: Pattern)
    requires p.shape.Label? && MatchAt(s, i, p).Some?
    ensures var j := MatchAt(s, i, p).value; i < j <= |s| && MatchSpan(s, i, j, p)
  {
    LabelTailSound(s, i + |p.shape.caption|, p.format, p.shape.optionalR, p.ignoreCase);
  }

  /** No span the pattern accepts at `i` is longer than the greedy reading. */
  lemma MatchAtLongest(s: string, i: nat, j: nat, p: Pattern)
    requires WellFormed(p) && MatchSpan(s, i, j, p)
    ensures MatchAt(s, i, p).Some? && j <= MatchAt(s, i, p).value
  {
    match p.shape
    case Prefix(_) => PrefixLongest(s, i, j, p);
    case Suffix(_, _) => SuffixLongest(s, i, j, p);
    case Label(_, _) => LabelLongest(s, i, j, p);
  }

  lemma PrefixLongest(s: string, i: nat, j: nat, p: Pattern)
    requires p.shape.Prefix? && MatchSpan(s, i, j, p)
    ensures MatchAt(s, i, p).Some? && j <= MatchAt(s, i, p).value
  {
    OptSpaceNumberLongest(s, i + |p.shape.symbol|, j, p.format);
  }

  lemma SuffixLongest(s: string, i: nat, j: nat, p: Pattern)
    requires p.shape.Suffix? && WellFormed(p) && MatchSpan(s, i, j, p)
    ensures MatchAt(s, i, p).Some? && j <= MatchAt(s, i, p).value
  {
    var word, plural := p.shape.word, p.shape.plural;
    var m :| i < m <= j && NumberSpan(s, i, m, p.format) && WordTail(s, m, j, word, plural, p.ignoreCase);
    NumberLongest(s, i, m, p.format);
    var m0 := GreedyNumber(s, i, p.format).value;
    WordTailLongest(s, m, j, word, plural, p.ignoreCase);
    if m < m0 {
      NumberChars(s, i, p.format);
      assert IsNumberChar(s[m]);
      if !IsSpace(s[m]) {
        LetterNotSpace(s[m], word[0], p.ignoreCase);
      }
    }
    assert m == m0;
  }

  lemma LabelLongest(s: string, i: nat, j: nat, p: Pattern)
    requires p.shape.Label? && MatchSpan(s, i, j, p)
    ensures MatchAt(s, i, p).Some? && j <= MatchAt(s, i, p).value
  {
    LabelTailLongest(s, i + |p.shape.caption|, j, p.format, p.shape.optionalR, p.ignoreCase);
  }

  // ---------------------------------------------------------------------
  // The whole text: `s.match(p)[0]`.

  /** The first start at or after `i` where the pattern matches, with its greedy end. */
  function FindFrom(s: string, p: Pattern, i: nat): (r: Option<Span>)
    requires WellFormed(p)
    ensures r.Some? ==> i <= r.value.start && MatchSpan(s, r.value.start, r.value.end, p)
    ensures r.Some? ==> r.value.start < r.value.end <= |s|
    ensures r.Some? ==> forall j: nat :: MatchSpan(s, r.value.start, j, p) ==> j <= r.value.end
    ensures forall k: nat, j: nat :: i <= k && (r.None? || k < r.value.start) ==> !MatchSpan(s, k, j, p)
    decreases |s| - i
  {
    if i >= |s| then
      NoMatchPastEnd(s, p, i);
      None
    else
      match MatchAt(s, i, p)
      case Some(j) =>
        MatchAtSound(s, i, p);
        LongestAt(s, i, p);
        Some(Span(i, j))
      case None =>
        NoMatchAt(s, i, p);
        FindFrom(s, p, i + 1)
  }

  lemma NoMatchPastEnd(s: string, p: Pattern, i: nat)
    requires WellFormed(p) && i >= |s|
    ensures forall k: nat, j: nat :: i <= k ==> !MatchSpan(s, k, j, p)
  {
    forall k: nat, j: nat | i <= k && MatchSpan(s, k, j, p)
      ensures false
    {
      MatchAtLongest(s, k, j, p);
      MatchAtSound(s, k, p);
    }
  }

  lemma NoMatchAt(s: string, i: nat, p: Pattern)
    requires WellFormed(p) && MatchAt(s, i, p).None?
    ensures forall j: nat :: !MatchSpan(s, i, j, p)
  {
    forall j: nat | MatchSpan(s, i, j, p)
      ensures false
    {
      MatchAtLongest(s, i, j, p);
    }
  }

  lemma LongestAt(s: string, i: nat, p: Pattern)
    requires WellFormed(p) && MatchAt(s, i, p).Some?
    ensures forall j: nat :: MatchSpan(s, i, j, p) ==> j <= MatchAt(s, i, p).value
  {
    forall j: nat | MatchSpan(s, i, j, p)
      ensures j <= MatchAt(s, i, p).value
    {
      MatchAtLongest(s, i, j, p);
    }
  }

  // ---------------------------------------------------------------------
  // The `Whole` format reads no fraction.

  /** Only `.` folds to `.`. */
  lemma PointFolds(c: char, l: char, ignoreCase: bool)
    requires c == '.' && SameChar(c, l, ignoreCase)
    ensures l == '.'
  {
  }

  /** A literal without `.` matches no `.` of the text. */
  lemma LitNoPoint(s: string, i: nat, lit: string, ignoreCase: bool)
    requires LitAt(s, i, lit, ignoreCase) && '.' !in lit
    ensures forall m :: i <= m < i + |lit| ==> s[m] != '.'
  {
    forall m | i <= m < i + |lit|
      ensures s[m] != '.'
    {
      var l := lit[m - i];
      assert l in lit && SameChar(s[i + (m - i)], l, ignoreCase);
      if s[m] == '.' {
        PointFolds(s[m], l, ignoreCase);
      }
    }
  }

  /** The groups of a `Whole` number are commas and digits. */
  lemma {:induction false} WholeGroupsNoPoint(s: string, i: nat, j: nat)
    requires GroupsSpan(s, i, j, Whole)
    ensures forall m :: i <= m < j ==> s[m] != '.'
    decreases j - i
  {
    if j != i {
      assert !FractionSpan(s, i, j, Whole);
      WholeGroupsNoPoint(s, i + 4, j);
    }
  }

  /** A `Whole` number holds no `.`. */
  lemma WholeNumberNoPoint(s: string, i: nat, j: nat)
    requires NumberSpan(s, i, j, Whole)
    ensures forall m :: i <= m < j ==> s[m] != '.'
  {
    if AllDigits(s, i, i + 1) && GroupsSpan(s, i + 1, j, Whole) {
      WholeGroupsNoPoint(s, i + 1, j);
    } else if AllDigits(s, i, i + 2) && GroupsSpan(s, i + 2, j, Whole) {
      WholeGroupsNoPoint(s, i + 2, j);
    } else {
      WholeGroupsNoPoint(s, i + 3, j);
    }
  }

  /** A `Whole` number after an optional space holds no `.`. */
  lemma WholeSpacedNoPoint(s: string, i: nat, j: nat)
    requires OptSpaceNumber(s, i, j, Whole)
    ensures forall m :: i <= m < j ==> s[m] != '.'
  {
    if NumberSpan(s, i, j, Whole) {
      WholeNumberNoPoint(s, i, j);
    } else {
      WholeNumberNoPoint(s, i + 1, j);
    }
  }

  /** White space and a word without `.` hold no `.`. */
  lemma {:induction false} WordTailNoPoint(s: string, i: nat, j: nat, word: string, plural: bool, ignoreCase: bool)
    requires WordTail(s, i, j, word, plural, ignoreCase) && '.' !in word
    ensures i <= j <= |s|
    ensures forall m :: i <= m < j ==> s[m] != '.'
    decreases |s| - i
  {
    if i < |s| && IsSpace(s[i]) && WordTail(s, i + 1, j, word, plural, ignoreCase) {
      WordTailNoPoint(s, i + 1, j, word, plural, ignoreCase);
    } else {
      LitNoPoint(s, i, word, ignoreCase);
      if j == i + |word| + 1 {
        assert s[i + |word|] != '.' by {
          if s[i + |word|] == '.' {
            PointFolds(s[i + |word|], 's', ignoreCase);
          }
        }
      }
    }
  }

  /** A match of a `Whole` pattern whose symbol or word has no `.` holds no
      `.` at all: its number has no fraction. */
  lemma WholeMatchNoPoint(s: string, i: nat, j: nat, p: Pattern)
    requires p.format == Whole && MatchSpan(s, i, j, p)
    requires p.shape.Prefix? ==> '.' !in p.shape.symbol
    requires p.shape.Suffix? ==> '.' !in p.shape.word
    requires !p.shape.Label?
    ensures i <= j <= |s|
    ensures forall m :: i <= m < j ==> s[m] != '.'
  {
    match p.shape
    case Prefix(symbol) =>
      LitNoPoint(s, i, symbol, p.ignoreCase);
      WholeSpacedNoPoint(s, i + |symbol|, j);
    case Suffix(word, plural) =>
      var m: nat :| i < m <= j && NumberSpan(s, i, m, p.format) && WordTail(s, m, j, word, plural, p.ignoreCase);
      WholeNumberNoPoint(s, i, m);
      WordTailNoPoint(s, m, j, word, plural, p.ignoreCase);
  }

  /** `s.match(p)`: the span of its first match, or None when it returns null. */
  function Find(s: string, p: Pattern): (r: Option<Span>)
    requires WellFormed(p)
    ensures r.Some? ==> IsLeftmostLongest(s, p, r.value) && r.value.start < r.value.end <= |s|
    ensures r.None? <==> !HasMatch(s, p)
  {
    FindFrom(s, p, 0)
  }
}
