/** ECMAScript `parseFloat`, over exact reals: `None` stands for `NaN`. */
module Numbers {
  import opened Wrappers
  import opened Text

  function Pow10(n: nat): (r: nat)
    ensures r >= 1
  {
    if n == 0 then 1 else 10 * Pow10(n - 1)
  }

  /** Ten to the power `e`, negative `e` included. */
  function Scale(e: int): (r: real)
    ensures r > 0.0
  {
    if e >= 0 then Pow10(e) as real else 1.0 / Pow10(-e) as real
  }

  predicate AllDigits(ds: string) {
    forall k :: 0 <= k < |ds| ==> IsDigit(ds[k])
  }

  /** The decimal digits `ds` read in base ten. */
  function DigitsValue(ds: string): nat
    requires AllDigits(ds)
  {
    if |ds| == 0 then 0
    else 10 * DigitsValue(ds[..|ds| - 1]) + (ds[|ds| - 1] as int - '0' as int)
  }

  /** Length of the optional sign at the front of `t`. */
  function SignLength(t: string): (n: nat)
    ensures n <= |t|
  {
    if |t| > 0 && (t[0] == '+' || t[0] == '-') then 1 else 0
  }

  /** After its optional sign, `t` begins with a digit, or with `.` and a digit. */
  predicate StartsNumeric(t: string) {
    var p := SignLength(t);
    (p < |t| && IsDigit(t[p])) || (p + 1 < |t| && t[p] == '.' && IsDigit(t[p + 1]))
  }

  /** The exponent `(e|E)[+-]?\d+` at `b`; 0 when there is none or it has no digits. */
  function ExponentAt(t: string, b: nat): int {
    if b < |t| && (t[b] == 'e' || t[b] == 'E') then
      var q := b + 1;
      var negative := q < |t| && t[q] == '-';
      var q' := if q < |t| && (t[q] == '+' || t[q] == '-') then q + 1 else q;
      var d := RunEnd(t, q', IsDigit);
      if d > q' then
        var e := DigitsValue(t[q'..d]) as int;
        if negative then -e else e
      else 0
    else 0
  }

  /** The digits `w`, a decimal point, then the digits `f`, read exactly. */
  function DecimalValue(w: string, f: string): real
    requires AllDigits(w) && AllDigits(f)
  {
    DigitsValue(w) as real + DigitsValue(f) as real / Pow10(|f|) as real
  }

  /** The parts of a decimal literal `[+-]? whole [. fraction] [(e|E) exponent]`. */
  datatype Literal = Literal(negative: bool, whole: string, fraction: string, exponent: int)

  ghost predicate ValidLiteral(l: Literal) {
    AllDigits(l.whole) && AllDigits(l.fraction) && |l.whole| + |l.fraction| > 0
  }

  /** The longest prefix of `t` that is a decimal literal, split into its parts. */
  function ScanLiteral(t: string): (r: Option<Literal>)
    ensures r.None? <==> !StartsNumeric(t)
    ensures r.Some? ==> ValidLiteral(r.value)
  {
    var p := SignLength(t);
    var a := RunEnd(t, p, IsDigit);
    var dot := a < |t| && t[a] == '.';
    var b := if dot then RunEnd(t, a + 1, IsDigit) else a;
    if a == p && b <= a + 1 then None
    else Some(Literal(p == 1 && t[0] == '-', t[p..a], if dot then t[a + 1..b] else "", ExponentAt(t, b)))
  }

  /** The number a literal denotes, exactly. */
  function LiteralValue(l: Literal): real
    requires ValidLiteral(l)
  {
    var magnitude := DecimalValue(l.whole, l.fraction);
    (if l.negative then -magnitude else magnitude) * Scale(l.exponent)
  }

  /** `parseFloat(s)`: leading white space skipped, then the longest prefix of
      the form `[+-]? digits [. digits] [(e|E)[+-]? digits]` with at least one
      mantissa digit, read exactly; `NaN` when there is none. */
  function ParseFloat(s: string): (r: Option<real>)
    ensures r.None? <==> !StartsNumeric(TrimStart(s))
  {
    match ScanLiteral(TrimStart(s))
    case None => None
    case Some(l) => Some(LiteralValue(l))
  }

  lemma ScanInteger(t: string, a: nat)
    requires 0 < a <= |t| && AllDigits(t[..a])
    requires a == |t| || !(IsDigit(t[a]) || t[a] == '.' || t[a] == 'e' || t[a] == 'E')
    ensures ScanLiteral(t) == Some(Literal(false, t[..a], "", 0))
  {
    assert IsDigit(t[..a][0]);
    RunEndOfDigits(t, 0, a);
    assert t[0..a] == t[..a];
  }

  lemma ScanDecimal(t: string, a: nat, b: nat)
    requires 0 < a < b <= |t| && t[a] == '.'
    requires AllDigits(t[..a]) && AllDigits(t[a + 1..b])
    requires b == |t| || !(IsDigit(t[b]) || t[b] == 'e' || t[b] == 'E')
    ensures ScanLiteral(t) == Some(Literal(false, t[..a], t[a + 1..b], 0))
  {
    assert IsDigit(t[..a][0]);
    RunEndOfDigits(t, 0, a);
    RunEndOfDigits(t, a + 1, b);
    assert t[0..a] == t[..a];
  }

  lemma UnsignedValue(w: string, f: string)
    requires AllDigits(w) && AllDigits(f) && |w| + |f| > 0
    ensures LiteralValue(Literal(false, w, f, 0)) == DecimalValue(w, f)
  {
    assert Scale(0) == 1.0;
  }

  /** Digits `t[..a]` followed by nothing that could continue a number read as an integer. */
  lemma ParseFloatInteger(t: string, a: nat)
    requires 0 < a <= |t| && AllDigits(t[..a])
    requires a == |t| || !(IsDigit(t[a]) || t[a] == '.' || t[a] == 'e' || t[a] == 'E')
    ensures ParseFloat(t) == Some(DigitsValue(t[..a]) as real)
  {
    assert IsDigit(t[..a][0]);
    TrimStartOfDigit(t);
    ScanInteger(t, a);
    UnsignedValue(t[..a], "");
    assert DecimalValue(t[..a], "") == DigitsValue(t[..a]) as real;
    assert ParseFloat(t) == Some(LiteralValue(Literal(false, t[..a], "", 0)));
  }

  /** `t[..a] + "." + t[a+1..b]`, digits on both sides, read as a decimal. */
  lemma ParseFloatDecimal(t: string, a: nat, b: nat)
    requires 0 < a < b <= |t| && t[a] == '.'
    requires AllDigits(t[..a]) && AllDigits(t[a + 1..b])
    requires b == |t| || !(IsDigit(t[b]) || t[b] == 'e' || t[b] == 'E')
    ensures ParseFloat(t) == Some(DecimalValue(t[..a], t[a + 1..b]))
  {
    var w, f := t[..a], t[a + 1..b];
    assert IsDigit(w[0]);
    TrimStartOfDigit(t);
    ScanDecimal(t, a, b);
    var l := Literal(false, w, f, 0);
    assert ParseFloat(t) == Some(LiteralValue(l));
    UnsignedValue(w, f);
  }

  /** `parseFloat` stops where a number without an exponent ends: a tail
      with no digit, point or sign cannot extend it, even one starting with
      `e`. */
  lemma ParseFloatIgnoresTail(t: string, u: string)
    requires |t| > 0 && IsDigit(t[0])
    requires forall k :: 0 <= k < |t| ==> t[k] != 'e' && t[k] != 'E'
    requires forall k :: 0 <= k < |u| ==> !IsDigit(u[k]) && u[k] != '.' && u[k] != '+' && u[k] != '-'
    ensures ParseFloat(t + u) == ParseFloat(t)
  {
    TrimStartOfDigit(t);
    TrimStartOfDigit(t + u);
    assert 'e' !in t && 'E' !in t;
    ScanIgnoresTail(t, u);
  }

  /** Only the first two characters of the tail could extend the scan: the
      first as a digit or point, the second as the sign or digit of an exponent. */
  lemma ScanIgnoresTail(t: string, u: string)
    requires |t| > 0 && IsDigit(t[0]) && 'e' !in t && 'E' !in t
    requires |u| > 0 ==> !IsDigit(u[0]) && u[0] != '.'
    requires |u| > 1 ==> !IsDigit(u[1]) && u[1] != '+' && u[1] != '-'
    ensures ScanLiteral(t + u) == ScanLiteral(t)
  {
    var s := t + u;
    assert SignLength(s) == 0 && SignLength(t) == 0;
    var a := RunEnd(t, 0, IsDigit);
    assert RunEnd(s, 0, IsDigit) == a by { RunEndAppend(t, u, 0, IsDigit); }
    var dot := a < |t| && t[a] == '.';
    assert dot == (a < |s| && s[a] == '.');
    var b := if dot then RunEnd(t, a + 1, IsDigit) else a;
    if dot {
      assert RunEnd(s, a + 1, IsDigit) == b by { RunEndAppend(t, u, a + 1, IsDigit); }
      assert s[a + 1..b] == t[a + 1..b];
    }
    assert s[0..a] == t[0..a];
    NoExponent(t, u, b);
  }

  lemma NoExponent(t: string, u: string, b: nat)
    requires b <= |t| && 'e' !in t && 'E' !in t
    requires |u| > 1 ==> !IsDigit(u[1]) && u[1] != '+' && u[1] != '-'
    ensures ExponentAt(t + u, b) == 0 && ExponentAt(t, b) == 0
  {
    var s := t + u;
    if b < |t| {
      assert s[b] == t[b] && t[b] in t;
    } else if b < |s| && (s[b] == 'e' || s[b] == 'E') {
      var q := b + 1;
      if q < |s| {
        assert s[q] == u[1];
      }
      assert RunEnd(s, q, IsDigit) == q;
    }
  }

  lemma TrimStartOfDigit(t: string)
    requires |t| > 0 && IsDigit(t[0])
    ensures TrimStart(t) == t
  {
  }

  lemma RunEndOfDigits(t: string, i: nat, a: nat)
    requires i <= a <= |t| && AllDigits(t[i..a])
    requires a == |t| || !IsDigit(t[a])
    ensures RunEnd(t, i, IsDigit) == a
    decreases a - i
  {
    if i < a {
      assert IsDigit(t[i..a][0]);
      assert t[i + 1..a] == t[i..a][1..];
      RunEndOfDigits(t, i + 1, a);
    }
  }
}
