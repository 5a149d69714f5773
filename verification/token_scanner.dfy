/** The numeric-token scanner of the EQDSK boundary extractor
    (geometry/process_qedsk.py).

    A token is text matching the regular expression
        [-+]?\d*\.\d+[E][-+]?\d+
    that is: an optional sign, zero or more digits, a mandatory '.', at least
    one digit, a literal upper-case 'E', an optional sign and at least one
    digit. Lines are scanned with `findall` semantics (leftmost match, greedy,
    non-overlapping), and each token is converted to its exact real value. */
module TokenScanner {
  import opened Options

  /** Index of the first line of coordinate data in the ITER hybrid EQDSK file. */
  const DataOffset: nat := 3465

  predicate IsDigit(c: char) {
    '0' <= c <= '9'
  }

  predicate IsSign(c: char) {
    c == '+' || c == '-'
  }

  predicate AllDigits(s: string) {
    forall i :: 0 <= i < |s| ==> IsDigit(s[i])
  }

  /** s[i..j] consists of digits, stated by index. */
  predicate DigitsBetween(s: string, i: nat, j: nat)
    requires i <= j <= |s|
  {
    forall k :: i <= k < j ==> IsDigit(s[k])
  }

  lemma DigitsBetweenSlice(s: string, i: nat, j: nat)
    requires i <= j <= |s|
    ensures DigitsBetween(s, i, j) <==> AllDigits(s[i..j])
  {
    if DigitsBetween(s, i, j) {
      forall k | 0 <= k < j - i
        ensures IsDigit(s[i..j][k])
      {
        assert s[i..j][k] == s[i + k];
      }
    }
    if AllDigits(s[i..j]) {
      forall k | i <= k < j
        ensures IsDigit(s[k])
      {
        assert s[k] == s[i..j][k - i];
      }
    }
  }

  /** The optional sign `[-+]?` of the mantissa or of the exponent. */
  datatype Sign = Unsigned | Plus | Minus
  {
    function Text(): string {
      match this
      case Unsigned => ""
      case Plus => "+"
      case Minus => "-"
    }
  }

  function SignOf(c: char): Sign
    requires IsSign(c)
  {
    if c == '+' then Plus else Minus
  }

  /** The pieces of one token:  sign whole '.' frac 'E' expSign exp. */
  datatype Numeral = Numeral(sign: Sign, whole: string, frac: string, expSign: Sign, exp: string)
  {
    /** The digit counts the regular expression admits: `\d*`, `\d+`, `\d+`. */
    predicate Valid() {
      && AllDigits(whole)
      && |frac| >= 1 && AllDigits(frac)
      && |exp| >= 1 && AllDigits(exp)
    }

    /** The text of the token. */
    function Spell(): string {
      sign.Text() + whole + "." + frac + "E" + expSign.Text() + exp
    }
  }

  /** The shortest spelling of a numeral, `.dEd`. */
  const MinSpelling: nat := 4

  /** The optional sign g is written at index i. */
  predicate SignAt(s: string, i: nat, g: Sign) {
    i + |g.Text()| <= |s| && (g == Unsigned || s[i] == g.Text()[0])
  }

  /* Where a token is written, stated element by element of the regular
     expression; each predicate says that the rest of the numeral n, from the
     named element on, is written in s starting at the given index. */

  /** `\d+` at d, maximal: no digit follows. */
  predicate ExpDigitsAt(s: string, d: nat, exp: string) {
    && d + |exp| <= |s| && s[d..d + |exp|] == exp
    && |exp| >= 1 && AllDigits(exp)
    && (d + |exp| == |s| || !IsDigit(s[d + |exp|]))
  }

  /** `[-+]?\d+` at x. */
  predicate ExpAt(s: string, x: nat, n: Numeral) {
    SignAt(s, x, n.expSign) && ExpDigitsAt(s, x + |n.expSign.Text()|, n.exp)
  }

  /** `\d+E[-+]?\d+` at f. */
  predicate FracAt(s: string, f: nat, n: Numeral) {
    var c := f + |n.frac|;
    && c < |s| && s[f..c] == n.frac && |n.frac| >= 1 && AllDigits(n.frac)
    && s[c] == 'E' && ExpAt(s, c + 1, n)
  }

  /** `\d*\.\d+E[-+]?\d+` at a. */
  predicate WholeAt(s: string, a: nat, n: Numeral) {
    var b := a + |n.whole|;
    && b < |s| && s[a..b] == n.whole && AllDigits(n.whole)
    && s[b] == '.' && FracAt(s, b + 1, n)
  }

  /** The whole token n is written at p and is not followed by a digit. */
  predicate TokenAt(s: string, p: nat, n: Numeral) {
    SignAt(s, p, n.sign) && WholeAt(s, p + |n.sign.Text()|, n)
  }

  /** End of the maximal run of digits starting at i. */
  function DigitRun(s: string, i: nat): (j: nat)
    requires i <= |s|
    ensures i <= j <= |s|
    ensures j == |s| || !IsDigit(s[j])
    decreases |s| - i
  {
    if i < |s| && IsDigit(s[i]) then DigitRun(s, i + 1) else i
  }

  /** The run found by DigitRun consists of digits. */
  lemma {:induction false} DigitRunDigits(s: string, i: nat)
    requires i <= |s|
    ensures DigitsBetween(s, i, DigitRun(s, i))
    decreases |s| - i
  {
    if i < |s| && IsDigit(s[i]) {
      DigitRunDigits(s, i + 1);
    }
  }

  /** A maximal digit run ending at j is found by DigitRun. */
  lemma {:induction false} DigitRunExact(s: string, i: nat, j: nat)
    requires i <= j <= |s|
    requires DigitsBetween(s, i, j)
    requires j == |s| || !IsDigit(s[j])
    ensures DigitRun(s, i) == j
    decreases j - i
  {
    if i < j {
      DigitRunExact(s, i + 1, j);
    }
  }

  /* The regular expression is matched at position p the way the regex engine
     does it, one element after the other, each quantifier greedy. No
     backtracking is ever needed: every quantified class is disjoint from the
     literal that follows it. */

  /** `[-+]?` then the rest of the mantissa. Whatever it returns has the
      digit counts the expression admits. */
  function MatchAt(s: string, p: nat): (r: Option<Numeral>)
    requires p <= |s|
    ensures r.Some? ==> r.value.Valid()
  {
    if p < |s| && IsSign(s[p]) then MatchWhole(s, SignOf(s[p]), p + 1)
    else MatchWhole(s, Unsigned, p)
  }

  /** `\d*\.` */
  function MatchWhole(s: string, sign: Sign, a: nat): (r: Option<Numeral>)
    requires a <= |s|
    ensures r.Some? ==> r.value.sign == sign && r.value.Valid()
  {
    var b := DigitRun(s, a);
    DigitRunDigits(s, a);
    DigitsBetweenSlice(s, a, b);
    if b < |s| && s[b] == '.' then MatchFrac(s, sign, s[a..b], b + 1) else None
  }

  /** `\d+E` */
  function MatchFrac(s: string, sign: Sign, whole: string, f: nat): (r: Option<Numeral>)
    requires f <= |s|
    ensures r.Some? ==>
      && r.value.sign == sign && r.value.whole == whole
      && |r.value.frac| >= 1 && AllDigits(r.value.frac)
      && |r.value.exp| >= 1 && AllDigits(r.value.exp)
  {
    var c := DigitRun(s, f);
    DigitRunDigits(s, f);
    DigitsBetweenSlice(s, f, c);
    if f < c && c < |s| && s[c] == 'E' then MatchExpSign(s, sign, whole, s[f..c], c + 1) else None
  }

  /** `[-+]?` */
  function MatchExpSign(s: string, sign: Sign, whole: string, frac: string, x: nat): (r: Option<Numeral>)
    requires x <= |s|
    ensures r.Some? ==>
      && r.value.sign == sign && r.value.whole == whole && r.value.frac == frac
      && |r.value.exp| >= 1 && AllDigits(r.value.exp)
  {
    if x < |s| && IsSign(s[x]) then MatchExp(s, sign, whole, frac, SignOf(s[x]), x + 1)
    else MatchExp(s, sign, whole, frac, Unsigned, x)
  }

  /** `\d+` */
  function MatchExp(s: string, sign: Sign, whole: string, frac: string, expSign: Sign, d: nat): (r: Option<Numeral>)
    requires d <= |s|
    ensures r.Some? ==>
      && r.value.sign == sign && r.value.whole == whole && r.value.frac == frac
      && r.value.expSign == expSign && |r.value.exp| >= 1 && AllDigits(r.value.exp)
  {
    var e := DigitRun(s, d);
    DigitRunDigits(s, d);
    DigitsBetweenSlice(s, d, e);
    if d < e then Some(Numeral(sign, whole, frac, expSign, s[d..e])) else None
  }

  lemma MatchExpIff(s: string, sign: Sign, whole: string, frac: string, expSign: Sign, d: nat, n: Numeral)
    requires d <= |s|
    ensures MatchExp(s, sign, whole, frac, expSign, d) == Some(n) <==>
      && n.sign == sign && n.whole == whole && n.frac == frac && n.expSign == expSign
      && ExpDigitsAt(s, d, n.exp)
  {
    var e := DigitRun(s, d);
    DigitRunDigits(s, d);
    DigitsBetweenSlice(s, d, e);
    if ExpDigitsAt(s, d, n.exp) {
      DigitsBetweenSlice(s, d, d + |n.exp|);
      DigitRunExact(s, d, d + |n.exp|);
    }
  }

  lemma MatchExpSignIff(s: string, sign: Sign, whole: string, frac: string, x: nat, n: Numeral)
    requires x <= |s|
    ensures MatchExpSign(s, sign, whole, frac, x) == Some(n) <==>
      n.sign == sign && n.whole == whole && n.frac == frac && ExpAt(s, x, n)
  {
    if x < |s| && IsSign(s[x]) {
      MatchExpIff(s, sign, whole, frac, SignOf(s[x]), x + 1, n);
    } else {
      MatchExpIff(s, sign, whole, frac, Unsigned, x, n);
    }
  }

  lemma MatchFracSound(s: string, sign: Sign, whole: string, f: nat, n: Numeral)
    requires f <= |s|
    requires MatchFrac(s, sign, whole, f) == Some(n)
    ensures n.sign == sign && n.whole == whole && FracAt(s, f, n)
  {
    var c := DigitRun(s, f);
    DigitRunDigits(s, f);
    DigitsBetweenSlice(s, f, c);
    MatchExpSignIff(s, sign, whole, s[f..c], c + 1, n);
  }

  lemma MatchFracComplete(s: string, sign: Sign, whole: string, f: nat, n: Numeral)
    requires f <= |s|
    requires n.sign == sign && n.whole == whole && FracAt(s, f, n)
    ensures MatchFrac(s, sign, whole, f) == Some(n)
  {
    DigitsBetweenSlice(s, f, f + |n.frac|);
    DigitRunExact(s, f, f + |n.frac|);
    MatchExpSignIff(s, sign, whole, n.frac, f + |n.frac| + 1, n);
  }

  lemma MatchWholeSound(s: string, sign: Sign, a: nat, n: Numeral)
    requires a <= |s|
    requires MatchWhole(s, sign, a) == Some(n)
    ensures n.sign == sign && WholeAt(s, a, n)
  {
    var b := DigitRun(s, a);
    DigitRunDigits(s, a);
    DigitsBetweenSlice(s, a, b);
    MatchFracSound(s, sign, s[a..b], b + 1, n);
  }

  lemma MatchWholeComplete(s: string, sign: Sign, a: nat, n: Numeral)
    requires a <= |s|
    requires n.sign == sign && WholeAt(s, a, n)
    ensures MatchWhole(s, sign, a) == Some(n)
  {
    DigitsBetweenSlice(s, a, a + |n.whole|);
    DigitRunExact(s, a, a + |n.whole|);
    MatchFracComplete(s, sign, n.whole, a + |n.whole| + 1, n);
  }

  /** A mantissa after its optional sign starts with a digit or '.', never
      with a sign. */
  lemma WholeAtStart(s: string, a: nat, n: Numeral)
    requires WholeAt(s, a, n)
    ensures a < |s| && !IsSign(s[a])
  {
    if n.whole != [] {
      assert s[a] == s[a..a + |n.whole|][0];
    }
  }

  /** Soundness of the matcher: what it returns is the token written at p. */
  lemma MatchAtSound(s: string, p: nat, n: Numeral)
    requires p <= |s|
    requires MatchAt(s, p) == Some(n)
    ensures TokenAt(s, p, n)
  {
    if p < |s| && IsSign(s[p]) {
      MatchWholeSound(s, SignOf(s[p]), p + 1, n);
    } else {
      MatchWholeSound(s, Unsigned, p, n);
    }
  }

  /** Completeness of the matcher: a token written at p is found. */
  lemma MatchAtComplete(s: string, p: nat, n: Numeral)
    requires p <= |s|
    requires TokenAt(s, p, n)
    ensures MatchAt(s, p) == Some(n)
  {
    var a := p + |n.sign.Text()|;
    assert WholeAt(s, a, n);
    if n.sign == Unsigned {
      WholeAtStart(s, p, n);
      assert MatchAt(s, p) == MatchWhole(s, Unsigned, p);
    } else {
      assert IsSign(s[p]) && SignOf(s[p]) == n.sign;
      assert MatchAt(s, p) == MatchWhole(s, n.sign, p + 1);
    }
    MatchWholeComplete(s, n.sign, a, n);
  }

  /** The matcher finds exactly the token written at p: it returns n if and
      only if n is written there, element by element, and no further digit
      follows it. */
  lemma MatchAtIff(s: string, p: nat, n: Numeral)
    requires p <= |s|
    ensures MatchAt(s, p) == Some(n) <==> TokenAt(s, p, n)
  {
    if MatchAt(s, p) == Some(n) {
      MatchAtSound(s, p, n);
    }
    if TokenAt(s, p, n) {
      MatchAtComplete(s, p, n);
    }
  }

  /** A token written at p is a valid numeral that ends inside s, is not
      followed by a digit, and has its 'E' marker at index c >= p. */
  lemma TokenAtFacts(s: string, p: nat, n: Numeral)
    requires TokenAt(s, p, n)
    ensures n.Valid()
    ensures p + |n.Spell()| <= |s|
    ensures p + |n.Spell()| == |s| || !IsDigit(s[p + |n.Spell()|])
    ensures var c := p + |n.sign.Text()| + |n.whole| + 1 + |n.frac|;
      p < c < |s| && s[c] == 'E' && s[c - |n.frac| - 1] == '.'
  {
    assert |n.Spell()| == |n.sign.Text()| + |n.whole| + 1 + |n.frac| + 1 + |n.expSign.Text()| + |n.exp|;
  }

  /** A match at p is a valid numeral whose spelling ends inside s. */
  lemma MatchAtSpan(s: string, p: nat, n: Numeral)
    requires p <= |s| && MatchAt(s, p) == Some(n)
    ensures n.Valid() && 0 < |n.Spell()| && p + |n.Spell()| <= |s|
  {
    MatchAtSound(s, p, n);
    TokenAtFacts(s, p, n);
  }

  /** A pattern as the regex engine applies it: the token, if any, that it
      matches starting exactly at position p of s. */
  type Pattern = (string, nat) -> Option<Numeral>

  /** The numeral pattern `[-+]?\d*\.\d+E[-+]?\d+`. */
  const NumberPattern: Pattern :=
    (s: string, p: nat) => if p <= |s| then MatchAt(s, p) else None

  /** Every match of the pattern is a valid numeral, non-empty and spelled
      within s, so a scan always moves forward. */
  ghost predicate Advances(pat: Pattern) {
    forall s: string, p: nat :: p <= |s| && pat(s, p).Some? ==>
      var n := pat(s, p).value;
      n.Valid() && 0 < |n.Spell()| && p + |n.Spell()| <= |s|
  }

  lemma NumberPatternAdvances()
    ensures Advances(NumberPattern)
  {
    forall s: string, p: nat | p <= |s| && NumberPattern(s, p).Some?
      ensures var n := NumberPattern(s, p).value;
        n.Valid() && 0 < |n.Spell()| && p + |n.Spell()| <= |s|
    {
      MatchAtSpan(s, p, NumberPattern(s, p).value);
    }
  }

  /** `re.findall(pattern, s[p:])`: the matches in left-to-right order, each
      scan resuming right after the previous match and one character further
      on where nothing matches. */
  function FindAll(pat: Pattern, s: string, p: nat): (ts: seq<Numeral>)
    requires Advances(pat) && p <= |s|
    ensures forall k :: 0 <= k < |ts| ==> ts[k].Valid()
    ensures MinSpelling * |ts| <= |s| - p
    decreases |s| - p
  {
    if p == |s| then []
    else
      match pat(s, p)
      case Some(n) => [n] + FindAll(pat, s, p + |n.Spell()|)
      case None => FindAll(pat, s, p + 1)
  }

  /** A text where the pattern matches nowhere from p on yields no token. */
  lemma {:induction false} NoMatchNoTokens(pat: Pattern, s: string, p: nat)
    requires Advances(pat) && p <= |s|
    requires forall i :: p <= i < |s| ==> pat(s, i) == None
    ensures FindAll(pat, s, p) == []
    decreases |s| - p
  {
    if p < |s| {
      NoMatchNoTokens(pat, s, p + 1);
    }
  }

  /** No numeral starts anywhere in a text without an upper-case 'E', or
      without a '.'. */
  lemma NoMarkerNoMatch(s: string, p: nat)
    requires p <= |s|
    requires (forall i :: 0 <= i < |s| ==> s[i] != 'E') || (forall i :: 0 <= i < |s| ==> s[i] != '.')
    ensures MatchAt(s, p) == None
  {
    match MatchAt(s, p)
    case Some(n) =>
      MatchAtSound(s, p, n);
      TokenAtFacts(s, p, n);
    case None =>
  }

  /** A line without an upper-case 'E', or without a '.', holds no token:
      `1E5` and `1.0e+00` are not tokens. */
  lemma NoMarkerNoTokens(s: string)
    requires (forall i :: 0 <= i < |s| ==> s[i] != 'E') || (forall i :: 0 <= i < |s| ==> s[i] != '.')
    ensures LineValues(s) == []
  {
    NumberPatternAdvances();
    forall i | 0 <= i < |s|
      ensures NumberPattern(s, i) == None
    {
      NoMarkerNoMatch(s, i);
    }
    NoMatchNoTokens(NumberPattern, s, 0);
  }

  lemma RejectedSpellings()
    ensures LineValues("1E5") == [] && LineValues("1.0e+00") == []
  {
    NoMarkerNoTokens("1E5");
    NoMarkerNoTokens("1.0e+00");
  }

  /* Reading a token back from its spelling. Each lemma places one element
     of the regular expression after an arbitrary prefix u. */

  lemma ExpDigitsSpelled(u: string, exp: string, rest: string)
    requires |exp| >= 1 && AllDigits(exp)
    requires rest == [] || !IsDigit(rest[0])
    ensures ExpDigitsAt(u + exp + rest, |u|, exp)
  {
    var s := u + exp + rest;
    assert s[|u|..|u| + |exp|] == exp;
    if rest != [] {
      assert s[|u| + |exp|] == rest[0];
    }
  }

  lemma ExpSpelled(u: string, n: Numeral, rest: string)
    requires n.Valid()
    requires rest == [] || !IsDigit(rest[0])
    ensures ExpAt(u + n.expSign.Text() + n.exp + rest, |u|, n)
  {
    ExpDigitsSpelled(u + n.expSign.Text(), n.exp, rest);
    if n.expSign != Unsigned {
      assert (u + n.expSign.Text() + n.exp + rest)[|u|] == n.expSign.Text()[0];
    }
  }

  lemma FracSpelled(u: string, n: Numeral, rest: string)
    requires n.Valid()
    requires rest == [] || !IsDigit(rest[0])
    ensures FracAt(u + n.frac + "E" + n.expSign.Text() + n.exp + rest, |u|, n)
  {
    var s := u + n.frac + "E" + n.expSign.Text() + n.exp + rest;
    ExpSpelled(u + n.frac + "E", n, rest);
    assert s[|u|..|u| + |n.frac|] == n.frac;
    assert s[|u| + |n.frac|] == 'E';
  }

  lemma WholeSpelled(u: string, n: Numeral, rest: string)
    requires n.Valid()
    requires rest == [] || !IsDigit(rest[0])
    ensures WholeAt(u + n.whole + "." + n.frac + "E" + n.expSign.Text() + n.exp + rest, |u|, n)
  {
    var s := u + n.whole + "." + n.frac + "E" + n.expSign.Text() + n.exp + rest;
    FracSpelled(u + n.whole + ".", n, rest);
    assert s[|u|..|u| + |n.whole|] == n.whole;
    assert s[|u| + |n.whole|] == '.';
  }

  lemma Assoc(a: string, b: string, c: string)
    ensures a + (b + c) == a + b + c
  {
  }

  /** Concatenating a prefix to a spelling, piece by piece. */
  lemma PrefixSpell(u: string, n: Numeral)
    ensures u + n.Spell() == u + n.sign.Text() + n.whole + "." + n.frac + "E" + n.expSign.Text() + n.exp
  {
    var g, w, f, e, x := n.sign.Text(), n.whole, n.frac, n.expSign.Text(), n.exp;
    Assoc(u, g + w + "." + f + "E" + e, x);
    Assoc(u, g + w + "." + f + "E", e);
    Assoc(u, g + w + "." + f, "E");
    Assoc(u, g + w + ".", f);
    Assoc(u, g + w, ".");
    Assoc(u, g, w);
  }

  /** The spelling of a valid numeral, after any prefix and before anything
      but a digit, is a token. */
  lemma TokenSpelled(u: string, n: Numeral, rest: string)
    requires n.Valid()
    requires rest == [] || !IsDigit(rest[0])
    ensures TokenAt(u + n.Spell() + rest, |u|, n)
  {
    var s := u + n.sign.Text() + n.whole + "." + n.frac + "E" + n.expSign.Text() + n.exp + rest;
    PrefixSpell(u, n);
    WholeSpelled(u + n.sign.Text(), n, rest);
    if n.sign != Unsigned {
      assert s[|u|] == n.sign.Text()[0];
    }
  }

  /** Round trip of the matcher: the spelling of a valid numeral is matched
      back to that numeral. */
  lemma MatchSpellRoundTrip(n: Numeral)
    requires n.Valid()
    ensures MatchAt(n.Spell(), 0) == Some(n)
  {
    TokenSpelled([], n, []);
    assert [] + n.Spell() + [] == n.Spell();
    MatchAtComplete(n.Spell(), 0, n);
  }

  /** Tokens written on one line, separated by single spaces. */
  function Join(ts: seq<Numeral>): string
  {
    if |ts| == 0 then ""
    else if |ts| == 1 then ts[0].Spell()
    else ts[0].Spell() + " " + Join(ts[1..])
  }

  /** A blank is not where a token starts. */
  lemma NoMatchAtBlank(s: string, p: nat)
    requires p < |s| && s[p] == ' '
    ensures MatchAt(s, p) == None
  {
    assert DigitRun(s, p) == p;
  }

  /** What a pattern must do for a line of blank-separated tokens to read
      back: match a token followed by a blank or by the end of the text, and
      never match at a blank. */
  ghost predicate ReadsBack(pat: Pattern) {
    && (forall u: string, t: Numeral, tail: string {:trigger pat(u + t.Spell() + " " + tail, |u|)} ::
          t.Valid() ==> pat(u + t.Spell() + " " + tail, |u|) == Some(t))
    && (forall u: string, t: Numeral {:trigger pat(u + t.Spell(), |u|)} ::
          t.Valid() ==> pat(u + t.Spell(), |u|) == Some(t))
    && (forall s: string, p: nat {:trigger pat(s, p)} :: p < |s| && s[p] == ' ' ==> pat(s, p) == None)
  }

  /** The numeral pattern reads tokens back. */
  lemma NumberPatternReadsBack()
    ensures ReadsBack(NumberPattern)
  {
    forall u: string, t: Numeral, tail: string | t.Valid()
      ensures NumberPattern(u + t.Spell() + " " + tail, |u|) == Some(t)
    {
      MatchBeforeBlank(u, t, tail);
    }
    forall u: string, t: Numeral | t.Valid()
      ensures NumberPattern(u + t.Spell(), |u|) == Some(t)
    {
      MatchAtEnd(u, t);
    }
    forall s: string, p: nat | p < |s| && s[p] == ' '
      ensures NumberPattern(s, p) == None
    {
      NoMatchAtBlank(s, p);
    }
  }

  /** Scanning a line of space-separated tokens gives back those tokens, in
      order, whatever text precedes the scan position. */
  lemma {:induction false} JoinScan(pat: Pattern, u: string, ts: seq<Numeral>)
    requires Advances(pat) && ReadsBack(pat)
    requires forall k :: 0 <= k < |ts| ==> ts[k].Valid()
    ensures FindAll(pat, u + Join(ts), |u|) == ts
    decreases |ts|
  {
    if |ts| == 0 {
      assert u + Join(ts) == u;
    } else if |ts| == 1 {
      var s := u + ts[0].Spell();
      assert Join(ts) == ts[0].Spell();
      assert pat(s, |u|) == Some(ts[0]);
      FindAllAtToken(pat, s, |u|, ts[0]);
      assert FindAll(pat, s, |s|) == [];
      assert ts == [ts[0]];
    } else {
      var t := ts[0];
      var s := u + t.Spell() + " " + Join(ts[1..]);
      assert pat(s, |u|) == Some(t);
      assert s[|u| + |t.Spell()|] == ' ';
      assert pat(s, |u| + |t.Spell()|) == None;
      JoinScan(pat, u + t.Spell() + " ", ts[1..]);
      JoinScanStep(pat, u, ts);
    }
  }

  /** The step of `JoinScan`: once the rest of the line scans to the rest of
      the tokens, the whole line scans to all of them. */
  lemma JoinScanStep(pat: Pattern, u: string, ts: seq<Numeral>)
    requires Advances(pat) && |ts| >= 2 && ts[0].Valid()
    requires var s := u + ts[0].Spell() + " " + Join(ts[1..]);
      pat(s, |u|) == Some(ts[0]) && pat(s, |u| + |ts[0].Spell()|) == None
    requires FindAll(pat, u + ts[0].Spell() + " " + Join(ts[1..]), |u + ts[0].Spell() + " "|) == ts[1..]
    ensures FindAll(pat, u + Join(ts), |u|) == ts
  {
    JoinCons(u, ts);
    var t, tail := ts[0], Join(ts[1..]);
    var s := u + t.Spell() + " " + tail;
    var q := |u| + |t.Spell()| + 1;
    assert |u + t.Spell() + " "| == q;
    ScanTokenThenBlank(pat, s, |u|, t);
    assert FindAll(pat, s, |u|) == [t] + ts[1..];
    assert [t] + ts[1..] == ts;
  }

  /** A line of two or more tokens is the first token, a blank, and the
      rest of the line. */
  lemma JoinCons(u: string, ts: seq<Numeral>)
    requires |ts| >= 2
    ensures u + Join(ts) == u + ts[0].Spell() + " " + Join(ts[1..])
  {
    var t, tail := ts[0], Join(ts[1..]);
    assert Join(ts) == t.Spell() + " " + tail;
    Assoc(u + t.Spell(), " ", tail);
    Assoc(u, t.Spell() + " ", tail);
    Assoc(u, t.Spell(), " ");
  }

  /** A token at the end of the text is matched. */
  lemma MatchAtEnd(u: string, t: Numeral)
    requires t.Valid()
    ensures MatchAt(u + t.Spell(), |u|) == Some(t)
  {
    var s := u + t.Spell();
    TokenSpelled(u, t, []);
    assert u + t.Spell() + [] == s;
    MatchAtComplete(s, |u|, t);
  }

  /** A token followed by a blank is found, and the scan resumes after the
      blank. */
  lemma ScanTokenThenBlank(pat: Pattern, s: string, p: nat, t: Numeral)
    requires Advances(pat) && p < |s| && pat(s, p) == Some(t)
    requires p + |t.Spell()| < |s| && pat(s, p + |t.Spell()|) == None
    ensures FindAll(pat, s, p) == [t] + FindAll(pat, s, p + |t.Spell()| + 1)
  {
    FindAllAtToken(pat, s, p, t);
    FindAllSkip(pat, s, p + |t.Spell()|);
  }

  /** A token followed by a blank is matched. */
  lemma MatchBeforeBlank(u: string, t: Numeral, tail: string)
    requires t.Valid()
    ensures MatchAt(u + t.Spell() + " " + tail, |u|) == Some(t)
  {
    var s := u + t.Spell() + " " + tail;
    assert s == u + t.Spell() + (" " + tail) by {
      Assoc(u + t.Spell(), " ", tail);
    }
    TokenSpelled(u, t, " " + tail);
    MatchAtComplete(s, |u|, t);
  }

  /** Where a token is matched, the scan records it and resumes after it. */
  lemma FindAllAtToken(pat: Pattern, s: string, p: nat, n: Numeral)
    requires Advances(pat) && p < |s| && pat(s, p) == Some(n)
    ensures p + |n.Spell()| <= |s|
    ensures FindAll(pat, s, p) == [n] + FindAll(pat, s, p + |n.Spell()|)
  {
  }

  /** Where no token is matched, the scan moves on by one character. */
  lemma FindAllSkip(pat: Pattern, s: string, p: nat)
    requires Advances(pat) && p < |s| && pat(s, p) == None
    ensures FindAll(pat, s, p) == FindAll(pat, s, p + 1)
  {
  }

  /** The positions at which `FindAll` found its tokens, in the same order. */
  function MatchStarts(pat: Pattern, s: string, p: nat): (qs: seq<nat>)
    requires Advances(pat) && p <= |s|
    ensures |qs| == |FindAll(pat, s, p)|
    decreases |s| - p
  {
    if p == |s| then []
    else
      match pat(s, p)
      case Some(n) => [p] + MatchStarts(pat, s, p + |n.Spell()|)
      case None => MatchStarts(pat, s, p + 1)
  }

  /** Token k is the match of the pattern at position qs[k], at or after p,
      and the matches come left to right without overlapping. */
  ghost predicate MatchedInOrder(pat: Pattern, s: string, p: nat, ts: seq<Numeral>, qs: seq<nat>)
    requires |ts| == |qs|
  {
    && (forall k :: 0 <= k < |ts| ==>
          p <= qs[k] && qs[k] + |ts[k].Spell()| <= |s| && pat(s, qs[k]) == Some(ts[k]))
    && (forall k :: 0 <= k < |ts| - 1 ==> qs[k] + |ts[k].Spell()| <= qs[k + 1])
  }

  /** Soundness of the scan: the tokens are matches of the pattern, found
      left to right without overlapping. */
  lemma {:induction false} FindAllSound(pat: Pattern, s: string, p: nat)
    requires Advances(pat) && p <= |s|
    ensures MatchedInOrder(pat, s, p, FindAll(pat, s, p), MatchStarts(pat, s, p))
    decreases |s| - p
  {
    if p < |s| {
      match pat(s, p)
      case Some(n) =>
        var q := p + |n.Spell()|;
        FindAllSound(pat, s, q);
        MatchedCons(pat, s, p, n, FindAll(pat, s, q), MatchStarts(pat, s, q));
        assert FindAll(pat, s, p) == [n] + FindAll(pat, s, q);
        assert MatchStarts(pat, s, p) == [p] + MatchStarts(pat, s, q);
      case None =>
        FindAllSound(pat, s, p + 1);
        MatchedLater(pat, s, p, FindAll(pat, s, p + 1), MatchStarts(pat, s, p + 1));
        assert FindAll(pat, s, p) == FindAll(pat, s, p + 1);
        assert MatchStarts(pat, s, p) == MatchStarts(pat, s, p + 1);
    }
  }

  lemma MatchedCons(pat: Pattern, s: string, p: nat, n: Numeral, ts: seq<Numeral>, qs: seq<nat>)
    requires |ts| == |qs| && p + |n.Spell()| <= |s| && pat(s, p) == Some(n)
    requires MatchedInOrder(pat, s, p + |n.Spell()|, ts, qs)
    ensures MatchedInOrder(pat, s, p, [n] + ts, [p] + qs)
  {
    var ts', qs' := [n] + ts, [p] + qs;
    forall k | 0 <= k < |ts'|
      ensures p <= qs'[k] && qs'[k] + |ts'[k].Spell()| <= |s| && pat(s, qs'[k]) == Some(ts'[k])
    {
      if k > 0 {
        assert ts'[k] == ts[k - 1] && qs'[k] == qs[k - 1];
      }
    }
    forall k | 0 <= k < |ts'| - 1
      ensures qs'[k] + |ts'[k].Spell()| <= qs'[k + 1]
    {
      if k > 0 {
        assert ts'[k] == ts[k - 1] && qs'[k] == qs[k - 1] && qs'[k + 1] == qs[k];
      }
    }
  }

  lemma MatchedLater(pat: Pattern, s: string, p: nat, ts: seq<Numeral>, qs: seq<nat>)
    requires |ts| == |qs| && MatchedInOrder(pat, s, p + 1, ts, qs)
    ensures MatchedInOrder(pat, s, p, ts, qs)
  {
  }

  /** Position i lies within one of the reported matches. */
  ghost predicate Covered(ts: seq<Numeral>, qs: seq<nat>, i: nat)
    requires |ts| == |qs|
  {
    exists k :: 0 <= k < |ts| && qs[k] <= i < qs[k] + |ts[k].Spell()|
  }

  /** Completeness of the scan: wherever the pattern matches at or after p,
      that position starts or lies within a reported match, so no match
      begins in the text the scan skips. */
  lemma {:induction false} FindAllComplete(pat: Pattern, s: string, p: nat)
    requires Advances(pat) && p <= |s|
    ensures forall i :: p <= i < |s| && pat(s, i).Some? ==>
      Covered(FindAll(pat, s, p), MatchStarts(pat, s, p), i)
    decreases |s| - p
  {
    if p < |s| {
      match pat(s, p)
      case Some(n) =>
        var q := p + |n.Spell()|;
        var rest, restQs := FindAll(pat, s, q), MatchStarts(pat, s, q);
        assert FindAll(pat, s, p) == [n] + rest;
        assert MatchStarts(pat, s, p) == [p] + restQs;
        FindAllComplete(pat, s, q);
        forall i | p <= i < |s| && pat(s, i).Some?
          ensures Covered([n] + rest, [p] + restQs, i)
        {
          if i < q {
            CoveredFirst(n, rest, p, restQs, i);
          } else {
            CoveredLater(n, rest, p, restQs, i);
          }
        }
      case None =>
        FindAllComplete(pat, s, p + 1);
        assert FindAll(pat, s, p) == FindAll(pat, s, p + 1);
        assert MatchStarts(pat, s, p) == MatchStarts(pat, s, p + 1);
    }
  }

  lemma CoveredFirst(n: Numeral, ts: seq<Numeral>, p: nat, qs: seq<nat>, i: nat)
    requires |ts| == |qs| && p <= i < p + |n.Spell()|
    ensures Covered([n] + ts, [p] + qs, i)
  {
    assert ([p] + qs)[0] <= i < ([p] + qs)[0] + |([n] + ts)[0].Spell()|;
  }

  lemma CoveredLater(n: Numeral, ts: seq<Numeral>, p: nat, qs: seq<nat>, i: nat)
    requires |ts| == |qs| && Covered(ts, qs, i)
    ensures Covered([n] + ts, [p] + qs, i)
  {
    var k :| 0 <= k < |ts| && qs[k] <= i < qs[k] + |ts[k].Spell()|;
    assert ([n] + ts)[k + 1] == ts[k] && ([p] + qs)[k + 1] == qs[k];
  }

  /** The tokens of a line are exactly its leftmost non-overlapping numerals:
      token k is written at qs[k], the tokens come left to right without
      overlapping, and any numeral written in the line starts within one of
      them. */
  lemma LineTokens(s: string)
    ensures Advances(NumberPattern)
    ensures var ts, qs := FindAll(NumberPattern, s, 0), MatchStarts(NumberPattern, s, 0);
      && (forall k :: 0 <= k < |ts| ==> TokenAt(s, qs[k], ts[k]))
      && (forall k :: 0 <= k < |ts| - 1 ==> qs[k] + |ts[k].Spell()| <= qs[k + 1])
      && (forall i, n :: 0 <= i < |s| && TokenAt(s, i, n) ==> Covered(ts, qs, i))
  {
    NumberPatternAdvances();
    var ts, qs := FindAll(NumberPattern, s, 0), MatchStarts(NumberPattern, s, 0);
    FindAllSound(NumberPattern, s, 0);
    FindAllComplete(NumberPattern, s, 0);
    forall k | 0 <= k < |ts|
      ensures TokenAt(s, qs[k], ts[k])
    {
      MatchAtIff(s, qs[k], ts[k]);
    }
    forall i, n | 0 <= i < |s| && TokenAt(s, i, n)
      ensures Covered(ts, qs, i)
    {
      MatchAtIff(s, i, n);
    }
  }

  /** Value of a digit string read in base 10 (0 for the empty string). */
  function DigitsValue(s: string): nat
    requires AllDigits(s)
  {
    if s == [] then 0
    else 10 * DigitsValue(s[..|s| - 1]) + ((s[|s| - 1] as int) - ('0' as int))
  }

  /** 10^e as an integer. */
  function Power10(e: nat): (r: nat)
    ensures r >= 1
  {
    if e == 0 then 1 else 10 * Power10(e - 1)
  }

  /** 10^e as a real. */
  function Pow10(e: nat): (r: real)
    ensures r >= 1.0
  {
    Power10(e) as real
  }

  /** The magnitude of the exponent written after 'E'. */
  function ExpMagnitude(n: Numeral): nat
    requires n.Valid()
  {
    DigitsValue(n.exp)
  }

  /** `float` applied to each token, in order. */
  function Values(ts: seq<Numeral>): (vs: seq<real>)
    requires forall k :: 0 <= k < |ts| ==> ts[k].Valid()
    ensures |vs| == |ts|
  {
    seq(|ts|, k requires 0 <= k < |ts| => Value(ts[k]))
  }

  /** The values of the tokens of one line, in order. */
  function LineValues(line: string): (vs: seq<real>)
    ensures MinSpelling * |vs| <= |line|
  {
    NumberPatternAdvances();
    Values(FindAll(NumberPattern, line, 0))
  }

  /** The total number of characters of the given lines. */
  function TextLength(lines: seq<string>): nat {
    if lines == [] then 0 else |lines[0]| + TextLength(lines[1..])
  }

  /** The token values of the given lines, concatenated in line order. Each
      value took at least MinSpelling characters of the text. */
  function ScanLines(lines: seq<string>): (vs: seq<real>)
    ensures MinSpelling * |vs| <= TextLength(lines)
  {
    if lines == [] then [] else LineValues(lines[0]) + ScanLines(lines[1..])
  }

  /** `for line in eq[offset:]: p.extend(...)`: only lines from `offset` on
      are scanned; an offset past the end yields no tokens. */
  function ScanFrom(lines: seq<string>, offset: nat): (vs: seq<real>)
    ensures offset <= |lines| ==> MinSpelling * |vs| <= TextLength(lines[offset..])
    ensures |lines| <= offset ==> vs == []
  {
    if offset <= |lines| then ScanLines(lines[offset..]) else []
  }

  /** The unsigned magnitude of a token, before the exponent is applied. */
  function Mantissa(n: Numeral): (m: real)
    requires n.Valid()
    ensures m >= 0.0
  {
    DigitsValue(n.whole) as real + (DigitsValue(n.frac) as real) / Pow10(|n.frac|)
  }

  /** Applies the exponent of `n` to `x`. */
  function Scaled(n: Numeral, x: real): real
    requires n.Valid()
  {
    var e := ExpMagnitude(n);
    if n.expSign == Minus then x / Pow10(e) else x * Pow10(e)
  }

  /** `float(token)`: the exact value  sign * whole.frac * 10^(expSign exp),
      without the rounding to the nearest binary64 number. */
  function Value(n: Numeral): (v: real)
    requires n.Valid()
    ensures n.sign == Minus ==> v <= 0.0
    ensures n.sign != Minus ==> v >= 0.0
  {
    Scaled(n, if n.sign == Minus then -Mantissa(n) else Mantissa(n))
  }

  /** A leading `+` reads like no sign, and a leading `-` negates. */
  lemma ValueSign(n: Numeral)
    requires n.Valid()
    ensures Value(n.(sign := Plus)) == Value(n.(sign := Unsigned))
    ensures Value(n.(sign := Minus)) == -Value(n.(sign := Unsigned))
    ensures n.sign != Minus ==> Value(n) >= 0.0
  {
    var u, pl, mi := n.(sign := Unsigned), n.(sign := Plus), n.(sign := Minus);
    var m := Mantissa(u);
    assert Mantissa(pl) == m && Mantissa(mi) == m;
    assert ExpMagnitude(pl) == ExpMagnitude(u) && ExpMagnitude(mi) == ExpMagnitude(u);
    assert Scaled(pl, m) == Scaled(u, m);
    assert Scaled(mi, -m) == Scaled(u, -m);
    ScaledNegation(u, m);
  }

  // ---------------------------------------------------------------------
  // The decimal value of a numeral
  // ---------------------------------------------------------------------

  lemma AllDigitsAppend(a: string, b: string)
    requires AllDigits(a) && AllDigits(b)
    ensures AllDigits(a + b)
  {
    assert forall i :: 0 <= i < |a + b| ==> (a + b)[i] == if i < |a| then a[i] else b[i - |a|];
  }

  /** The mantissa's digits with the point removed, read as one integer. */
  function Significand(n: Numeral): nat
    requires n.Valid()
  {
    AllDigitsAppend(n.whole, n.frac);
    DigitsValue(n.whole + n.frac)
  }

  /** Appending the digits b to a shifts a left by |b| places. */
  lemma {:induction false} DigitsAppend(a: string, b: string)
    requires AllDigits(a) && AllDigits(b)
    ensures AllDigits(a + b)
    ensures DigitsValue(a + b) == DigitsValue(a) * Power10(|b|) + DigitsValue(b)
    decreases |b|
  {
    AllDigitsAppend(a, b);
    if b == [] {
      assert a + b == a;
    } else {
      var c := b[..|b| - 1];
      AppendLast(a, b);
      DigitsAppend(a, c);
      var d := (b[|b| - 1] as int) - ('0' as int);
      assert DigitsValue(a + b) == 10 * DigitsValue(a + c) + d;
      assert DigitsValue(b) == 10 * DigitsValue(c) + d;
      ShiftDigit(DigitsValue(a + b), DigitsValue(a), DigitsValue(c), DigitsValue(b),
        Power10(|c|), Power10(|b|), DigitsValue(a + c), d);
    }
  }

  lemma ShiftDigit(u: int, x: int, y: int, v: int, p: int, q: int, w: int, d: int)
    requires w == x * p + y && u == 10 * w + d && v == 10 * y + d && q == 10 * p
    ensures u == x * q + v
  {
  }

  /** Dropping the last digit of a + b drops the last digit of b. */
  lemma AppendLast(a: string, b: string)
    requires AllDigits(a) && AllDigits(b) && b != []
    ensures AllDigits(b[..|b| - 1])
    ensures (a + b)[..|a + b| - 1] == a + b[..|b| - 1]
    ensures (a + b)[|a + b| - 1] == b[|b| - 1]
  {
    var c := b[..|b| - 1];
    assert forall i :: 0 <= i < |c| ==> c[i] == b[i];
    assert (a + b)[..|a + b| - 1] == a + c;
  }

  lemma {:induction false} Power10Add(a: nat, b: nat)
    ensures Power10(a + b) == Power10(a) * Power10(b)
    decreases a
  {
    if a > 0 {
      Power10Add(a - 1, b);
      assert 10 * (Power10(a - 1) * Power10(b)) == (10 * Power10(a - 1)) * Power10(b);
    }
  }

  lemma Pow10Add(a: nat, b: nat)
    ensures Pow10(a + b) == Pow10(a) * Pow10(b)
  {
    Power10Add(a, b);
    ProductCast(Power10(a), Power10(b));
  }

  /** whole.frac is the significand over 10^|frac|. */
  lemma MantissaIsQuotient(n: Numeral)
    requires n.Valid()
    ensures Mantissa(n) == (Significand(n) as real) / Pow10(|n.frac|)
  {
    var w, f, p := DigitsValue(n.whole), DigitsValue(n.frac), Power10(|n.frac|);
    var sig := Significand(n) as real;
    assert sig == (w as real) * (p as real) + (f as real) by {
      DigitsAppend(n.whole, n.frac);
      ProductCast(w, p);
    }
    ShiftQuotient(w as real, f as real, p as real, sig);
  }

  lemma ProductCast(x: nat, y: nat)
    ensures (x * y) as real == (x as real) * (y as real)
  {
  }

  lemma ShiftQuotient(w: real, f: real, p: real, s: real)
    requires p > 0.0 && s == w * p + f
    ensures s / p == w + f / p
  {
  }

  /** `float` of a decimal numeral with a non-negative exponent e: the value
      times 10^|frac| is the significand times 10^e, negated for a '-' sign. */
  lemma ValueDecimal(n: Numeral)
    requires n.Valid()
    ensures n.expSign != Minus && n.sign != Minus ==>
      Value(n) * Pow10(|n.frac|) == (Significand(n) as real) * Pow10(ExpMagnitude(n))
    ensures n.expSign != Minus && n.sign == Minus ==>
      Value(n) * Pow10(|n.frac|) == -(Significand(n) as real) * Pow10(ExpMagnitude(n))
  {
    if n.expSign != Minus {
      if n.sign == Minus {
        ValueMagnitude(n);
        MagnitudeUp(n);
        NegatedUp(n);
      } else {
        PlainUp(n);
      }
    }
  }

  /** `float` of a decimal numeral with a negative exponent -e: the value
      times 10^(|frac| + e) is the significand, negated for a '-' sign. */
  lemma ValueDecimalNegative(n: Numeral)
    requires n.Valid()
    ensures n.expSign == Minus && n.sign != Minus ==>
      Value(n) * Pow10(|n.frac| + ExpMagnitude(n)) == Significand(n) as real
    ensures n.expSign == Minus && n.sign == Minus ==>
      Value(n) * Pow10(|n.frac| + ExpMagnitude(n)) == -(Significand(n) as real)
  {
    if n.expSign == Minus {
      if n.sign == Minus {
        ValueMagnitude(n);
        MagnitudeDown(n);
        NegatedDown(n);
      } else {
        PlainDown(n);
      }
    }
  }

  /** The value is the scaled mantissa, negated for a '-' sign. */
  lemma ValueMagnitude(n: Numeral)
    requires n.Valid()
    ensures n.sign == Minus ==> Value(n) == -Scaled(n, Mantissa(n))
    ensures n.sign != Minus ==> Value(n) == Scaled(n, Mantissa(n))
  {
    ScaledNegation(n, Mantissa(n));
  }

  lemma ScaledNegation(n: Numeral, x: real)
    requires n.Valid()
    ensures Scaled(n, -x) == -Scaled(n, x)
  {
    var p := Pow10(ExpMagnitude(n));
    assert (-x) / p == -(x / p);
    assert (-x) * p == -(x * p);
  }

  // The steps below take only the numeral, so that every product they
  // mention is literally a product of the numeral's own terms.

  lemma PlainUp(n: Numeral)
    requires n.Valid() && n.expSign != Minus && n.sign != Minus
    ensures Value(n) * Pow10(|n.frac|) == (Significand(n) as real) * Pow10(ExpMagnitude(n))
  {
    ValueMagnitude(n);
    MagnitudeUp(n);
  }

  lemma PlainDown(n: Numeral)
    requires n.Valid() && n.expSign == Minus && n.sign != Minus
    ensures Value(n) * Pow10(|n.frac| + ExpMagnitude(n)) == Significand(n) as real
  {
    ValueMagnitude(n);
    MagnitudeDown(n);
  }

  lemma NegatedUp(n: Numeral)
    requires n.Valid() && n.expSign != Minus && n.sign == Minus
    requires Value(n) == -Scaled(n, Mantissa(n))
    requires Scaled(n, Mantissa(n)) * Pow10(|n.frac|) == (Significand(n) as real) * Pow10(ExpMagnitude(n))
    ensures Value(n) * Pow10(|n.frac|) == -(Significand(n) as real) * Pow10(ExpMagnitude(n))
  {
  }

  lemma NegatedDown(n: Numeral)
    requires n.Valid() && n.expSign == Minus && n.sign == Minus
    requires Value(n) == -Scaled(n, Mantissa(n))
    requires Scaled(n, Mantissa(n)) * Pow10(|n.frac| + ExpMagnitude(n)) == Significand(n) as real
    ensures Value(n) * Pow10(|n.frac| + ExpMagnitude(n)) == -(Significand(n) as real)
  {
  }

  /** The mantissa times 10^|frac| is the significand. */
  lemma MantissaCleared(n: Numeral)
    requires n.Valid()
    ensures Mantissa(n) * Pow10(|n.frac|) == Significand(n) as real
  {
    MantissaIsQuotient(n);
    QuotientCleared(n);
  }

  lemma QuotientCleared(n: Numeral)
    requires n.Valid()
    requires Mantissa(n) == (Significand(n) as real) / Pow10(|n.frac|)
    ensures Mantissa(n) * Pow10(|n.frac|) == Significand(n) as real
  {
  }

  /** With a non-negative exponent, the unsigned value times 10^|frac| is the
      significand times 10^e. */
  lemma MagnitudeUp(n: Numeral)
    requires n.Valid() && n.expSign != Minus
    ensures Scaled(n, Mantissa(n)) * Pow10(|n.frac|) == (Significand(n) as real) * Pow10(ExpMagnitude(n))
  {
    MantissaCleared(n);
    ShiftedUp(n);
  }

  lemma ShiftedUp(n: Numeral)
    requires n.Valid() && n.expSign != Minus
    requires Mantissa(n) * Pow10(|n.frac|) == Significand(n) as real
    ensures Scaled(n, Mantissa(n)) * Pow10(|n.frac|) == (Significand(n) as real) * Pow10(ExpMagnitude(n))
  {
  }

  /** With a negative exponent, the unsigned value times 10^(|frac| + e) is the
      significand. */
  lemma MagnitudeDown(n: Numeral)
    requires n.Valid() && n.expSign == Minus
    ensures Scaled(n, Mantissa(n)) * Pow10(|n.frac| + ExpMagnitude(n)) == Significand(n) as real
  {
    MantissaCleared(n);
    ScaledDown(n);
    Pow10Add(|n.frac|, ExpMagnitude(n));
    ShiftedDown(n);
  }

  lemma ScaledDown(n: Numeral)
    requires n.Valid() && n.expSign == Minus
    ensures Scaled(n, Mantissa(n)) * Pow10(ExpMagnitude(n)) == Mantissa(n)
  {
  }

  lemma ShiftedDown(n: Numeral)
    requires n.Valid() && n.expSign == Minus
    requires Scaled(n, Mantissa(n)) * Pow10(ExpMagnitude(n)) == Mantissa(n)
    requires Mantissa(n) * Pow10(|n.frac|) == Significand(n) as real
    requires Pow10(|n.frac| + ExpMagnitude(n)) == Pow10(|n.frac|) * Pow10(ExpMagnitude(n))
    ensures Scaled(n, Mantissa(n)) * Pow10(|n.frac| + ExpMagnitude(n)) == Significand(n) as real
  {
    ClearedTwice(n);
    SplitPower(n);
  }

  lemma ClearedTwice(n: Numeral)
    requires n.Valid() && n.expSign == Minus
    requires Scaled(n, Mantissa(n)) * Pow10(ExpMagnitude(n)) == Mantissa(n)
    requires Mantissa(n) * Pow10(|n.frac|) == Significand(n) as real
    ensures Scaled(n, Mantissa(n)) * Pow10(ExpMagnitude(n)) * Pow10(|n.frac|) == Significand(n) as real
  {
  }

  lemma SplitPower(n: Numeral)
    requires n.Valid() && n.expSign == Minus
    requires Pow10(|n.frac| + ExpMagnitude(n)) == Pow10(|n.frac|) * Pow10(ExpMagnitude(n))
    ensures Scaled(n, Mantissa(n)) * Pow10(|n.frac| + ExpMagnitude(n))
         == Scaled(n, Mantissa(n)) * Pow10(ExpMagnitude(n)) * Pow10(|n.frac|)
  {
  }

  /** `2.5E-01` reads as 0.25. */
  lemma QuarterValue()
    ensures Numeral(Unsigned, "2", "5", Minus, "01").Valid()
    ensures Value(Numeral(Unsigned, "2", "5", Minus, "01")) == 0.25
  {
    var n := Numeral(Unsigned, "2", "5", Minus, "01");
    ValueDecimalNegative(n);
    assert n.whole + n.frac == "25";
    assert Significand(n) == 25;
    assert DigitsValue(n.exp) == 1;
    assert Pow10(2) == 100.0;
  }

  /** `-1.234E+02` reads as -123.4. */
  lemma ScaledNegativeValue()
    ensures Numeral(Minus, "1", "234", Plus, "02").Valid()
    ensures Value(Numeral(Minus, "1", "234", Plus, "02")) == -123.4
  {
    var n := Numeral(Minus, "1", "234", Plus, "02");
    ValueDecimal(n);
    assert n.whole + n.frac == "1234";
    assert Significand(n) == 1234 by {
      assert "1234"[..3] == "123";
      assert "123"[..2] == "12";
      assert "12"[..1] == "1";
    }
    assert DigitsValue(n.exp) == 2;
    assert Pow10(3) == 1000.0;
    assert Pow10(2) == 100.0;
  }

  lemma {:induction false} ScanLinesAppend(a: seq<string>, b: seq<string>)
    ensures ScanLines(a + b) == ScanLines(a) + ScanLines(b)
    decreases |a|
  {
    if a == [] {
      assert a + b == b;
    } else {
      assert (a + b)[1..] == a[1..] + b;
      ScanLinesAppend(a[1..], b);
    }
  }

  /** The `offset` header lines contribute nothing, whatever they contain. */
  lemma HeaderSkipped(header: seq<string>, body: seq<string>)
    ensures ScanFrom(header + body, |header|) == ScanLines(body)
  {
    assert (header + body)[|header|..] == body;
  }

  /** Lines appended after the scanned ones only append their tokens. */
  lemma ScanFromAppend(lines: seq<string>, offset: nat, more: seq<string>)
    requires offset <= |lines|
    ensures ScanFrom(lines + more, offset) == ScanFrom(lines, offset) + ScanLines(more)
  {
    assert (lines + more)[offset..] == lines[offset..] + more;
    ScanLinesAppend(lines[offset..], more);
  }

  function Unit(whole: string): Numeral
  {
    Numeral(Unsigned, whole, "0", Plus, "00")
  }

  lemma UnitValue(whole: string)
    requires AllDigits(whole)
    ensures Unit(whole).Valid()
    ensures Value(Unit(whole)) == DigitsValue(whole) as real
  {
    assert DigitsValue("0") == 0;
    assert DigitsValue("00") == 0;
  }

  /** The six tokens `1.0E+00 2.0E+00 3.0E+00 99.0E+00 5.0E+00 6.0E+00`. */
  function SixTokens(): seq<Numeral>
  {
    [Unit("1"), Unit("2"), Unit("3"), Unit("99"), Unit("5"), Unit("6")]
  }

  /** A line written as space-separated tokens reads back as their values. */
  lemma JoinValues(ts: seq<Numeral>)
    requires forall k :: 0 <= k < |ts| ==> ts[k].Valid()
    ensures LineValues(Join(ts)) == Values(ts)
  {
    NumberPatternAdvances();
    NumberPatternReadsBack();
    JoinScan(NumberPattern, [], ts);
    assert [] + Join(ts) == Join(ts);
  }

  lemma SixValues()
    ensures forall k :: 0 <= k < 6 ==> SixTokens()[k].Valid()
    ensures Values(SixTokens()) == [1.0, 2.0, 3.0, 99.0, 5.0, 6.0]
  {
    UnitValue("1"); UnitValue("2"); UnitValue("3"); UnitValue("99"); UnitValue("5"); UnitValue("6");
    assert DigitsValue("99") == 99;
  }

  /** A data line of those six tokens reads back as six numbers in order. */
  lemma SixTokenLine()
    ensures LineValues(Join(SixTokens())) == [1.0, 2.0, 3.0, 99.0, 5.0, 6.0]
  {
    SixValues();
    JoinValues(SixTokens());
  }

  /** Two numerals written with no blank between them are both found when
      the second one starts with a sign. */
  lemma AdjacentTokens(a: Numeral, b: Numeral)
    requires a.Valid() && b.Valid() && b.sign != Unsigned
    ensures Advances(NumberPattern)
    ensures FindAll(NumberPattern, a.Spell() + b.Spell(), 0) == [a, b]
  {
    var s := a.Spell() + b.Spell();
    NumberPatternAdvances();
    MatchBeforeSign(a, b);
    MatchAtEnd(a.Spell(), b);
    assert NumberPattern(s, 0) == Some(a);
    assert NumberPattern(s, |a.Spell()|) == Some(b);
    FindAllAtToken(NumberPattern, s, 0, a);
    FindAllAtToken(NumberPattern, s, |a.Spell()|, b);
    assert FindAll(NumberPattern, s, |s|) == [];
  }

  /** A numeral directly followed by a signed one is matched on its own. */
  lemma MatchBeforeSign(a: Numeral, b: Numeral)
    requires a.Valid() && b.sign != Unsigned
    ensures MatchAt(a.Spell() + b.Spell(), 0) == Some(a)
  {
    var rest := b.Spell();
    assert rest[0] == b.sign.Text()[0];
    MatchBeforeNonDigit(a, rest);
  }

  lemma MatchBeforeNonDigit(a: Numeral, rest: string)
    requires a.Valid() && rest != [] && !IsDigit(rest[0])
    ensures MatchAt(a.Spell() + rest, 0) == Some(a)
  {
    TokenSpelled([], a, rest);
    assert [] + a.Spell() + rest == a.Spell() + rest;
    MatchAtComplete(a.Spell() + rest, 0, a);
  }

  /** Fixed-column data lines leave no blank before a minus sign; the text
      `1.0E+00-2.0E+00` still reads as the two values 1 and -2. */
  lemma AbuttingSign(line: string)
    requires line == "1.0E+00-2.0E+00"
    ensures LineValues(line) == [1.0, -2.0]
  {
    var a, b := Unit("1"), Unit("2").(sign := Minus);
    AbuttingValues();
    AdjacentTokens(a, b);
    AbuttingSpelling();
  }

  lemma AbuttingSpelling()
    ensures Unit("1").Spell() + Unit("2").(sign := Minus).Spell() == "1.0E+00-2.0E+00"
  {
  }

  lemma AbuttingValues()
    ensures Unit("1").Valid() && Unit("2").(sign := Minus).Valid()
    ensures Values([Unit("1"), Unit("2").(sign := Minus)]) == [1.0, -2.0]
  {
    UnitValue("1");
    UnitValue("2");
    ValueSign(Unit("2"));
  }
}
