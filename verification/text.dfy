/** Character classes and string operations of the JavaScript runtime that the
    price pipeline relies on: `\d`, `\s`, case-insensitive comparison, `trim`,
    `includes`, `replace` with a string pattern, `toLowerCase` on host names. */
module Text {

  /** `\d`: an ASCII decimal digit. */
  predicate IsDigit(c: char) {
    '0' <= c <= '9'
  }

  /** `\s`, and the characters `trim` and `parseFloat` skip: the ECMAScript
      WhiteSpace and LineTerminator code points. */
  predicate IsSpace(c: char) {
    || c == '\t' || c == '\n' || c == '\U{B}' || c == '\U{C}' || c == '\r' || c == ' '
    || c == '\U{A0}' || c == '\U{1680}' || ('\U{2000}' <= c <= '\U{200A}')
    || c == '\U{2028}' || c == '\U{2029}' || c == '\U{202F}' || c == '\U{205F}'
    || c == '\U{3000}' || c == '\U{FEFF}'
  }

  predicate IsAsciiLetter(c: char) {
    ('a' <= c <= 'z') || ('A' <= c <= 'Z')
  }

  /** The case folding a regular expression with the `i` flag applies to the
      letters that occur in the price patterns: ASCII letters and `Ç`/`ç`. */
  function FoldCase(c: char): char {
    if 'A' <= c <= 'Z' then (c as int + 32) as char
    else if c == 'Ç' then 'ç'
    else c
  }

  /** Whether text character `c` matches pattern character `p`, with or without the `i` flag. */
  predicate SameChar(c: char, p: char, ignoreCase: bool) {
    if ignoreCase then FoldCase(c) == FoldCase(p) else c == p
  }

  lemma FoldCaseKeepsNonLetters(c: char)
    requires !IsAsciiLetter(c) && c != 'Ç'
    ensures FoldCase(c) == c
  {
  }

  /** `s[i..i+|lit|]` spells `lit`, letter case ignored under the `i` flag. */
  predicate LitAt(s: string, i: nat, lit: string, ignoreCase: bool) {
    i + |lit| <= |s| && forall k :: 0 <= k < |lit| ==> SameChar(s[i + k], lit[k], ignoreCase)
  }

  /** `toLowerCase` on a host name; the URL parser leaves only ASCII in a host. */
  function LowerAscii(c: char): (r: char)
    ensures 'A' <= c <= 'Z' ==> 'a' <= r <= 'z'
    ensures !('A' <= c <= 'Z') ==> r == c
  {
    if 'A' <= c <= 'Z' then (c as int + 32) as char else c
  }

  function ToLowerAscii(s: string): (r: string)
    ensures |r| == |s|
    ensures forall k :: 0 <= k < |s| ==> r[k] == LowerAscii(s[k])
  {
    seq(|s|, k requires 0 <= k < |s| => LowerAscii(s[k]))
  }

  /** A string with no upper-case ASCII letter is its own lower case. */
  lemma LowerOfLower(s: string)
    requires forall k :: 0 <= k < |s| ==> !('A' <= s[k] <= 'Z')
    ensures ToLowerAscii(s) == s
  {
  }

  /** `p` occurs in `s` at position `i`. */
  predicate StartsAt(s: string, i: int, p: string) {
    0 <= i && i + |p| <= |s| && s[i..i + |p|] == p
  }

  /** The first position at or after `i` where `p` occurs, or -1. */
  function IndexOfFrom(s: string, p: string, i: nat): (r: int)
    ensures r == -1 || (i <= r && StartsAt(s, r, p))
    ensures forall k :: i <= k && (r == -1 || k < r) ==> !StartsAt(s, k, p)
    decreases |s| + 1 - i
  {
    if i + |p| > |s| then -1
    else if s[i..i + |p|] == p then i
    else IndexOfFrom(s, p, i + 1)
  }

  /** `s.indexOf(p)`. */
  function IndexOf(s: string, p: string): (r: int)
    ensures r == -1 || StartsAt(s, r, p)
    ensures forall k :: 0 <= k && (r == -1 || k < r) ==> !StartsAt(s, k, p)
  {
    IndexOfFrom(s, p, 0)
  }

  /** `s.includes(p)`. */
  predicate Contains(s: string, p: string)
  {
    IndexOf(s, p) >= 0
  }

  lemma ContainsIff(s: string, p: string)
    ensures Contains(s, p) <==> exists k :: StartsAt(s, k, p)
  {
    if !Contains(s, p) {
      forall k ensures !StartsAt(s, k, p) {
      }
    }
  }

  /** Whoever contains `p + q` contains `p`: a longer needle is shadowed by its prefix. */
  lemma {:induction false} ContainsPrefixOf(s: string, p: string, q: string)
    requires Contains(s, p + q)
    ensures Contains(s, p)
  {
    var k := IndexOf(s, p + q);
    assert s[k..k + |p|] == (s[k..k + |p + q|])[..|p|];
    assert StartsAt(s, k, p);
    ContainsIff(s, p);
  }

  /** A needle holding a character the haystack lacks does not occur in it. */
  lemma MissingCharNotContained(s: string, p: string, c: char)
    requires c in p && c !in s
    ensures !Contains(s, p)
  {
    ContainsIff(s, p);
  }

  /** `s.replace(p, '')`: deletes the first occurrence of `p` only. */
  function RemoveFirst(s: string, p: string): (r: string)
    ensures IndexOf(s, p) == -1 ==> r == s
    ensures IndexOf(s, p) >= 0 ==>
      var k := IndexOf(s, p); |r| == |s| - |p| && r[..k] + p + r[k..] == s
  {
    var k := IndexOf(s, p);
    if k < 0 then s
    else
      var r := s[..k] + s[k + |p|..];
      assert r[..k] == s[..k] && r[k..] == s[k + |p|..];
      assert s == s[..k] + s[k..k + |p|] + s[k + |p|..];
      r
  }

  /** A string that begins with `p` loses exactly that prefix. */
  lemma RemoveFirstOfPrefix(p: string, rest: string)
    ensures RemoveFirst(p + rest, p) == rest
  {
    var h := p + rest;
    assert StartsAt(h, 0, p);
    var r := RemoveFirst(h, p);
    assert r[..0] + p + r[0..] == h;
  }

  /** Leading white space removed. */
  function TrimStart(s: string): (r: string)
    ensures |r| <= |s| && r == s[|s| - |r|..]
    ensures forall k :: 0 <= k < |s| - |r| ==> IsSpace(s[k])
    ensures |r| > 0 ==> !IsSpace(r[0])
  {
    if |s| > 0 && IsSpace(s[0]) then TrimStart(s[1..]) else s
  }

  /** A text that does not start with white space is its own `TrimStart`. */
  lemma TrimStartKeeps(s: string)
    requires |s| > 0 && !IsSpace(s[0])
    ensures TrimStart(s) == s
  {
  }

  /** Trailing white space removed. */
  function TrimEnd(s: string): (r: string)
    ensures |r| <= |s| && r == s[..|r|]
    ensures forall k :: |r| <= k < |s| ==> IsSpace(s[k])
    ensures |r| > 0 ==> !IsSpace(r[|r| - 1])
  {
    if |s| > 0 && IsSpace(s[|s| - 1]) then TrimEnd(s[..|s| - 1]) else s
  }

  /** `s.trim()`. */
  function Trim(s: string): string {
    TrimEnd(TrimStart(s))
  }

  /** A string with no white space at either end is its own trim. */
  lemma TrimOfTrimmed(s: string)
    requires |s| > 0 ==> !IsSpace(s[0]) && !IsSpace(s[|s| - 1])
    ensures Trim(s) == s
  {
  }

  /** Every character of `s` for which `drop` holds deleted, order kept. */
  function Filter(s: string, drop: char -> bool): (r: string)
    ensures |r| <= |s|
    ensures forall k :: 0 <= k < |r| ==> !drop(r[k])
    ensures forall c :: c in r ==> c in s
  {
    if |s| == 0 then ""
    else if drop(s[0]) then Filter(s[1..], drop)
    else [s[0]] + Filter(s[1..], drop)
  }

  lemma {:induction false} FilterConcat(a: string, b: string, drop: char -> bool)
    ensures Filter(a + b, drop) == Filter(a, drop) + Filter(b, drop)
  {
    if |a| > 0 {
      assert (a + b)[1..] == a[1..] + b;
      FilterConcat(a[1..], b, drop);
    } else {
      assert a + b == b;
    }
  }

  lemma {:induction false} FilterKeeps(s: string, drop: char -> bool)
    requires forall k :: 0 <= k < |s| ==> !drop(s[k])
    ensures Filter(s, drop) == s
  {
    if |s| > 0 {
      FilterKeeps(s[1..], drop);
    }
  }

  /** `s.replace(/c/g, '')` for a single character `c`: exactly the other
      characters stay, in order. */
  function RemoveChar(s: string, c: char): (r: string)
    ensures |r| <= |s|
    ensures forall x :: x in r <==> x in s && x != c
  {
    if |s| == 0 then ""
    else if s[0] == c then RemoveChar(s[1..], c)
    else [s[0]] + RemoveChar(s[1..], c)
  }

  lemma {:induction false} RemoveCharConcat(a: string, b: string, c: char)
    ensures RemoveChar(a + b, c) == RemoveChar(a, c) + RemoveChar(b, c)
  {
    if |a| > 0 {
      assert (a + b)[1..] == a[1..] + b;
      RemoveCharConcat(a[1..], b, c);
    } else {
      assert a + b == b;
    }
  }

  lemma {:induction false} RemoveCharAbsent(s: string, c: char)
    requires c !in s
    ensures RemoveChar(s, c) == s
  {
    if |s| > 0 {
      assert s[0] in s;
      assert forall x :: x in s[1..] ==> x in s;
      RemoveCharAbsent(s[1..], c);
    }
  }

  /** End of the run of characters satisfying `inRun` that starts at `i`. */
  function RunEnd(s: string, i: nat, inRun: char -> bool): (r: nat)
    ensures i <= |s| ==> i <= r <= |s|
    ensures forall k :: i <= k < r ==> k < |s| && inRun(s[k])
    ensures r < |s| ==> !inRun(s[r])
    ensures i >= |s| ==> r == i
    decreases |s| - i
  {
    if i < |s| && inRun(s[i]) then RunEnd(s, i + 1, inRun) else i
  }

  /** The pieces `parts` glued back together with `sep` between them. */
  function Join(parts: seq<string>, sep: char): string
    requires |parts| >= 1
  {
    if |parts| == 1 then parts[0] else parts[0] + [sep] + Join(parts[1..], sep)
  }

  /** `s.split(sep)` for a one-character separator: the pieces between the
      separators, none of them containing it, which glue back into `s`. */
  function Split(s: string, sep: char): (parts: seq<string>)
    ensures |parts| >= 1
    ensures forall k :: 0 <= k < |parts| ==> sep !in parts[k]
    ensures Join(parts, sep) == s
    decreases |s|
  {
    if |s| == 0 then [""]
    else
      var rest := Split(s[1..], sep);
      if s[0] == sep then
        var parts := [""] + rest;
        assert parts[1..] == rest;
        assert s == [sep] + s[1..];
        parts
      else
        var parts := [[s[0]] + rest[0]] + rest[1..];
        assert s == [s[0]] + s[1..];
        assert |rest| > 1 ==> parts[1..] == rest[1..];
        parts
  }

  /** Exactly two pieces means exactly one separator, between them. */
  lemma SplitInTwo(s: string, sep: char)
    requires |Split(s, sep)| == 2
    ensures s == Split(s, sep)[0] + [sep] + Split(s, sep)[1]
  {
    var parts := Split(s, sep);
    assert parts[1..] == [parts[1]];
  }

  /** Pieces free of the separator are determined by their joined text. */
  lemma {:induction false} JoinInjective(p: seq<string>, q: seq<string>, sep: char)
    requires |p| >= 1 && |q| >= 1
    requires forall k :: 0 <= k < |p| ==> sep !in p[k]
    requires forall k :: 0 <= k < |q| ==> sep !in q[k]
    requires Join(p, sep) == Join(q, sep)
    ensures p == q
    decreases |p|
  {
    var s := Join(p, sep);
    if |p| > 1 && |q| > 1 {
      FirstPieceAgrees(p[0], Join(p[1..], sep), q[0], Join(q[1..], sep), sep);
      assert Join(p[1..], sep) == Join(q[1..], sep) by {
        var n := |p[0]| + 1;
        assert Join(p[1..], sep) == s[n..];
        assert Join(q[1..], sep) == s[n..];
      }
      JoinInjective(p[1..], q[1..], sep);
      assert p == [p[0]] + p[1..] && q == [q[0]] + q[1..];
    } else if |p| > 1 {
      assert false;
    } else if |q| > 1 {
      assert false;
    }
  }

  lemma FirstPieceAgrees(a: string, x: string, b: string, y: string, sep: char)
    requires sep !in a && sep !in b
    requires a + [sep] + x == b + [sep] + y
    ensures a == b
  {
    var s := a + [sep] + x;
    if |a| < |b| {
      CharOfJoined(a, x, sep, |a|);
      CharOfJoined(b, y, sep, |a|);
      assert false;
    } else if |b| < |a| {
      CharOfJoined(a, x, sep, |b|);
      CharOfJoined(b, y, sep, |b|);
      assert false;
    }
    assert a == s[..|a|];
    assert b == s[..|b|];
  }

  lemma CharOfJoined(a: string, x: string, sep: char, i: nat)
    ensures i < |a| ==> (a + [sep] + x)[i] == a[i] && a[i] in a
    ensures i == |a| ==> (a + [sep] + x)[i] == sep
  {
  }

  /** A text with one separator splits into the pieces on either side of it. */
  lemma SplitPair(a: string, b: string, sep: char)
    requires sep !in a && sep !in b
    ensures Split(a + [sep] + b, sep) == [a, b]
  {
    var s := a + [sep] + b;
    assert Join([a, b], sep) == s by {
      assert [a, b][1..] == [b];
    }
    JoinInjective(Split(s, sep), [a, b], sep);
  }

  /** Text without the separator appended to the input lengthens the last piece. */
  lemma SplitAppend(s: string, u: string, sep: char)
    requires sep !in u
    ensures var p := Split(s, sep);
      Split(s + u, sep) == p[..|p| - 1] + [p[|p| - 1] + u]
  {
    var p := Split(s, sep);
    var q := p[..|p| - 1] + [p[|p| - 1] + u];
    JoinAppendLast(p, u, sep);
    assert forall k :: 0 <= k < |q| ==> sep !in q[k] by {
      forall k | 0 <= k < |q| ensures sep !in q[k] {
        if k < |p| - 1 { assert q[k] == p[k]; }
      }
    }
    JoinInjective(Split(s + u, sep), q, sep);
  }

  lemma {:induction false} JoinAppendLast(p: seq<string>, u: string, sep: char)
    requires |p| >= 1
    ensures Join(p[..|p| - 1] + [p[|p| - 1] + u], sep) == Join(p, sep) + u
    decreases |p|
  {
    var q := p[..|p| - 1] + [p[|p| - 1] + u];
    if |p| > 1 {
      JoinAppendLast(p[1..], u, sep);
      assert q[1..] == p[1..][..|p[1..]| - 1] + [p[1..][|p[1..]| - 1] + u];
      assert q[0] == p[0];
    }
  }

  /** A run that does not go on into `u` ends where it ends without `u`. */
  lemma {:induction false} RunEndAppend(t: string, u: string, i: nat, inRun: char -> bool)
    requires i <= |t|
    requires |u| > 0 ==> !inRun(u[0])
    ensures RunEnd(t + u, i, inRun) == RunEnd(t, i, inRun)
    decreases |t| - i
  {
    if i < |t| {
      assert (t + u)[i] == t[i];
      if inRun(t[i]) {
        RunEndAppend(t, u, i + 1, inRun);
      }
    }
  }

  /** A text without the separator is its own single piece. */
  lemma SplitNone(s: string, sep: char)
    requires sep !in s
    ensures Split(s, sep) == [s]
  {
    JoinInjective(Split(s, sep), [s], sep);
  }
}
