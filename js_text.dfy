/** The pieces of JavaScript's string behaviour that the validation rules rely on:
    the white-space class shared by `\s` and `String.prototype.trim`,
    `trim()`, `split(/\s+/)`, `startsWith`, `includes`, the conversions
    `String(n)` and `Number(text)` for integers, and the rounding of integer
    results to the nearest double. */
module JsText {

  /** ECMAScript WhiteSpace and LineTerminator code points: exactly the
      characters `\s` matches and the characters `trim()` removes. */
  predicate IsSpace(c: char) {
    || c == ' ' || '\t' <= c <= '\r' || c == '\U{A0}' || c == '\U{1680}'
    || '\U{2000}' <= c <= '\U{200A}' || c == '\U{2028}' || c == '\U{2029}'
    || c == '\U{202F}' || c == '\U{205F}' || c == '\U{3000}' || c == '\U{FEFF}'
  }

  /** Every character of `s[i..j]` is white space. */
  predicate SpaceIn(s: string, i: int, j: int)
    requires 0 <= i <= j <= |s|
  {
    forall m | i <= m < j :: IsSpace(s[m])
  }

  /** No character of `s[i..j]` is white space. */
  predicate NoSpaceIn(s: string, i: int, j: int)
    requires 0 <= i <= j <= |s|
  {
    forall m | i <= m < j :: !IsSpace(s[m])
  }

  predicate NoSpace(s: string) {
    NoSpaceIn(s, 0, |s|)
  }

  // ---------------------------------------------------------------------------
  // trim()

  /** `s.trim()`: the text without its leading and trailing white space. */
  function Trim(s: string): (t: string)
    ensures t == [] || (!IsSpace(t[0]) && !IsSpace(t[|t| - 1]))
  {
    if s == [] then []
    else if IsSpace(s[0]) then Trim(s[1..])
    else if IsSpace(s[|s| - 1]) then Trim(s[..|s| - 1])
    else s
  }

  /** `trim()` removes white space from the two ends and nothing else: the result
      is the slice `s[i..j]` with only white space before `i` and after `j`. */
  lemma {:induction false} TrimIsSlice(s: string) returns (i: nat, j: nat)
    ensures i <= j <= |s| && Trim(s) == s[i..j]
    ensures SpaceIn(s, 0, i) && SpaceIn(s, j, |s|)
  {
    if s == [] {
      i, j := 0, 0;
    } else if IsSpace(s[0]) {
      var i', j' := TrimIsSlice(s[1..]);
      i, j := i' + 1, j' + 1;
      SpaceInTail(s, i', j');
      SpaceInTail(s, j', |s| - 1);
    } else if IsSpace(s[|s| - 1]) {
      i, j := TrimIsSlice(s[..|s| - 1]);
      SpaceInInit(s, 0, i);
      SpaceInInit(s, j, |s| - 1);
    } else {
      i, j := 0, |s|;
    }
  }

  lemma SpaceInTail(s: string, i: nat, j: nat)
    requires s != [] && IsSpace(s[0]) && i <= j <= |s| - 1
    ensures s[1..][i..j] == s[i + 1..j + 1]
    ensures SpaceIn(s[1..], i, j) ==> SpaceIn(s, 0, 1) && SpaceIn(s, i + 1, j + 1)
  {
  }

  lemma SpaceInInit(s: string, i: nat, j: nat)
    requires s != [] && IsSpace(s[|s| - 1]) && i <= j <= |s| - 1
    ensures s[..|s| - 1][i..j] == s[i..j]
    ensures SpaceIn(s[..|s| - 1], i, j) ==> SpaceIn(s, i, j) && SpaceIn(s, |s| - 1, |s|)
  {
  }

  // ---------------------------------------------------------------------------
  // split(/\s+/)

  /** The first index at or after `i` that holds white space, or `|t|`. */
  function NextSpace(t: string, i: nat): (k: nat)
    requires i <= |t|
    ensures i <= k <= |t|
    ensures NoSpaceIn(t, i, k)
    ensures k < |t| ==> IsSpace(t[k])
    decreases |t| - i
  {
    if i == |t| || IsSpace(t[i]) then i else NextSpace(t, i + 1)
  }

  /** The first index at or after `i` that does not hold white space, or `|t|`. */
  function SkipSpace(t: string, i: nat): (k: nat)
    requires i <= |t|
    ensures i <= k <= |t|
    ensures SpaceIn(t, i, k)
    ensures k < |t| ==> !IsSpace(t[k])
    decreases |t| - i
  {
    if i == |t| || !IsSpace(t[i]) then i else SkipSpace(t, i + 1)
  }

  /** `t.split(/\s+/)`: the pieces of `t` between maximal white-space runs,
      including an empty first (last) piece when `t` starts (ends) with white
      space; the empty text splits into one empty piece. */
  function SplitOnSpace(t: string): (parts: seq<string>)
    ensures |parts| >= 1
    decreases |t|
  {
    var k := NextSpace(t, 0);
    if k == |t| then [t]
    else
      var j := SkipSpace(t, k);
      assert j > k;
      [t[..k]] + SplitOnSpace(t[j..])
  }

  /** `value.trim().split(/\s+/).length`, the word count the form applies. */
  function WordCount(s: string): nat {
    |SplitOnSpace(Trim(s))|
  }

  /** The number of maximal runs of non-white-space characters in `s`,
      counted at the character that ends each run. */
  function Runs(s: string): nat {
    if s == [] then 0
    else (if !IsSpace(s[0]) && (|s| == 1 || IsSpace(s[1])) then 1 else 0) + Runs(s[1..])
  }

  lemma {:induction false} RunsAppend(a: string, b: string)
    requires b == [] || IsSpace(b[0])
    ensures Runs(a + b) == Runs(a) + Runs(b)
  {
    if a != [] {
      assert (a + b)[0] == a[0];
      assert (a + b)[1..] == a[1..] + b;
      if |a| >= 2 {
        assert (a + b)[1] == a[1];
      }
      RunsAppend(a[1..], b);
    } else {
      assert a + b == b;
    }
  }

  /** White space between `k` and `j` contributes no run. */
  lemma {:induction false} RunsSkip(t: string, k: nat, j: nat)
    requires k <= j <= |t| && SpaceIn(t, k, j)
    ensures Runs(t[k..]) == Runs(t[j..])
    decreases j - k
  {
    if k < j {
      assert t[k..][0] == t[k];
      assert t[k..][1..] == t[k + 1..];
      RunsSkip(t, k + 1, j);
    }
  }

  /** A word of `k` characters at the start of `t`, ending the text or followed by
      white space, contributes exactly one run. */
  lemma {:induction false} RunsWord(t: string, k: nat)
    requires 0 < k <= |t| && NoSpaceIn(t, 0, k) && (k == |t| || IsSpace(t[k]))
    ensures Runs(t) == 1 + Runs(t[k..])
    decreases k
  {
    if k > 1 {
      var u := t[1..];
      assert u[0] == t[1];
      forall m | 0 <= m < k - 1 ensures !IsSpace(u[m]) {
        assert u[m] == t[m + 1];
      }
      if k - 1 < |u| {
        assert u[k - 1] == t[k];
      }
      RunsWord(u, k - 1);
      assert u[k - 1..] == t[k..];
    }
  }

  /** Trimming removes no run. */
  lemma {:induction false} RunsTrim(s: string)
    ensures Runs(Trim(s)) == Runs(s)
  {
    if s != [] && IsSpace(s[0]) {
      RunsSkip(s, 0, 1);
      assert s[0..] == s;
      RunsTrim(s[1..]);
    } else if s != [] && IsSpace(s[|s| - 1]) {
      var init, last := s[..|s| - 1], s[|s| - 1..];
      assert s == init + last;
      RunsAppend(init, last);
      RunsTrim(init);
    }
  }

  /** Splitting a text that starts and ends with a non-white-space character
      yields one piece per maximal non-white-space run. */
  lemma {:induction false} SplitCountsRuns(t: string)
    requires t != [] && !IsSpace(t[0]) && !IsSpace(t[|t| - 1])
    ensures |SplitOnSpace(t)| == Runs(t)
    decreases |t|
  {
    var k := NextSpace(t, 0);
    RunsWord(t, k);
    if k < |t| {
      var j := SkipSpace(t, k);
      assert j < |t|;
      assert SplitOnSpace(t) == [t[..k]] + SplitOnSpace(t[j..]);
      RunsSkip(t, k, j);
      SplitCountsRuns(t[j..]);
    }
  }

  /** The word count of a text is its number of maximal non-white-space runs,
      except that a text with none (empty or only white space) counts as one. */
  lemma {:induction false} WordCountIsRuns(s: string)
    ensures WordCount(s) == if Runs(s) == 0 then 1 else Runs(s)
  {
    var t := Trim(s);
    assert WordCount(s) == |SplitOnSpace(t)|;
    RunsTrim(s);
    if t == [] {
      assert NextSpace(t, 0) == 0;
    } else {
      SplitCountsRuns(t);
    }
  }

  // ---------------------------------------------------------------------------
  // Words joined by single spaces (the shape of a typical answer)

  /** The words of `ws` separated by one space each. */
  function JoinWords(ws: seq<string>): string {
    if ws == [] then "" else if |ws| == 1 then ws[0] else ws[0] + " " + JoinWords(ws[1..])
  }

  predicate AreWords(ws: seq<string>) {
    forall i | 0 <= i < |ws| :: ws[i] != [] && NoSpace(ws[i])
  }

  lemma {:induction false} JoinWordsRuns(ws: seq<string>)
    requires AreWords(ws)
    ensures Runs(JoinWords(ws)) == |ws|
  {
    if |ws| == 1 {
      RunsWord(ws[0], |ws[0]|);
    } else if |ws| > 1 {
      assert AreWords(ws[1..]) by {
        forall i | 0 <= i < |ws[1..]| ensures ws[1..][i] != [] && NoSpace(ws[1..][i]) {
          assert ws[1..][i] == ws[i + 1];
        }
      }
      var w, rest := ws[0], JoinWords(ws[1..]);
      var t := w + " " + rest;
      forall m | 0 <= m < |w| ensures !IsSpace(t[m]) {
        assert t[m] == w[m];
      }
      assert t[|w|] == ' ';
      RunsWord(t, |w|);
      RunsSkip(t, |w|, |w| + 1);
      assert t[|w| + 1..] == rest;
      JoinWordsRuns(ws[1..]);
    }
  }

  /** `n` words separated by single spaces count as `n` words (at least one). */
  lemma {:induction false} JoinedWordCount(ws: seq<string>)
    requires AreWords(ws) && ws != []
    ensures WordCount(JoinWords(ws)) == |ws|
  {
    JoinWordsRuns(ws);
    WordCountIsRuns(JoinWords(ws));
  }

  // ---------------------------------------------------------------------------
  // startsWith / includes

  /** `s.startsWith(prefix)` */
  predicate StartsWith(s: string, prefix: string) {
    |prefix| <= |s| && s[..|prefix|] == prefix
  }

  /** `s.includes(sub)` */
  predicate Includes(s: string, sub: string) {
    exists i | 0 <= i <= |s| - |sub| :: OccursAt(s, sub, i)
  }

  predicate OccursAt(s: string, sub: string, i: int)
    requires 0 <= i <= |s| - |sub|
  {
    s[i..i + |sub|] == sub
  }

  // ---------------------------------------------------------------------------
  // String(n) and Number(text) for integers

  predicate IsDigit(c: char) { '0' <= c <= '9' }

  predicate AllDigits(s: string) {
    forall k | 0 <= k < |s| :: IsDigit(s[k])
  }

  function DigitChar(d: nat): (c: char)
    requires d < 10
    ensures IsDigit(c)
  {
    "0123456789"[d]
  }

  function DigitValue(c: char): (d: nat)
    requires IsDigit(c)
    ensures d < 10
  {
    (c as int - '0' as int) as nat
  }

  /** The shortest decimal digits of `n`. */
  function Digits(n: nat): (s: string)
    ensures s != [] && AllDigits(s)
  {
    if n < 10 then [DigitChar(n)] else Digits(n / 10) + [DigitChar(n % 10)]
  }

  /** The decimal digits of `n`, with a minus sign when negative: `String(n)`
      for an integer below 10^21 in magnitude (from there on JavaScript writes
      an exponent). */
  function DecimalString(n: int): (s: string)
    ensures s != []
  {
    if n < 0 then "-" + Digits(-n) else Digits(n)
  }

  lemma {:induction false} DecimalStringChars(n: int)
    ensures forall k | 0 <= k < |DecimalString(n)| :: IsDigit(DecimalString(n)[k]) || DecimalString(n)[k] == '-'
  {
    if n < 0 {
      var d := Digits(-n);
      forall k | 0 <= k < |DecimalString(n)| ensures IsDigit(DecimalString(n)[k]) || DecimalString(n)[k] == '-' {
        if k > 0 { assert DecimalString(n)[k] == d[k - 1]; }
      }
    }
  }

  /** The value of a run of decimal digits. */
  function DigitsValue(s: string): nat
    requires AllDigits(s)
  {
    if s == [] then 0 else DigitsValue(s[..|s| - 1]) * 10 + DigitValue(s[|s| - 1])
  }

  /** The texts whose `Number(text)` is an integer the model represents: the
      empty text and an optionally signed decimal literal. */
  predicate IsIntegerText(t: string) {
    t == [] || (var d := if t[0] == '-' || t[0] == '+' then t[1..] else t; d != [] && AllDigits(d))
  }

  /** The mathematical value of such a text, before any rounding; the empty
      text has the value 0. */
  function NumberOf(t: string): int
    requires IsIntegerText(t)
  {
    if t == [] then 0
    else if t[0] == '-' then -(DigitsValue(t[1..]) as int)
    else if t[0] == '+' then DigitsValue(t[1..])
    else DigitsValue(t)
  }

  lemma {:induction false} DigitsRoundTrip(n: nat)
    ensures DigitsValue(Digits(n)) == n
  {
    DigitCharValue(n % 10);
    if n >= 10 {
      var s := Digits(n);
      assert s[..|s| - 1] == Digits(n / 10);
      DigitsRoundTrip(n / 10);
    }
  }

  lemma {:induction false} DigitCharValue(d: nat)
    requires d < 10
    ensures DigitValue(DigitChar(d)) == d
  {
  }

  /** A signed or unsigned run of digits has the value of its digits. */
  lemma {:induction false} NumberOfDigitText(sign: string, d: string)
    requires sign == "" || sign == "-"
    requires d != [] && AllDigits(d)
    ensures IsIntegerText(sign + d)
    ensures NumberOf(sign + d) == if sign == "-" then -(DigitsValue(d) as int) else DigitsValue(d)
  {
    var t := sign + d;
    if sign == "-" {
      assert t[0] == '-' && t[1..] == d;
    } else {
      assert t == d && IsDigit(d[0]);
    }
  }

  /** The digits of `n` have the value `n`, so `Number(String(n))` is the
      double nearest `n`, which is `n` itself whenever `n` is a double. */
  lemma {:induction false} NumberOfDecimalString(n: int)
    ensures IsIntegerText(DecimalString(n))
    ensures NumberOf(DecimalString(n)) == n
    ensures JsNumber(DecimalString(n)) == RoundToDouble(n)
    ensures IsDouble(n) ==> JsNumber(DecimalString(n)) == n
  {
    if n < 0 {
      var m: nat := -n;
      var d := Digits(m);
      assert DecimalString(n) == "-" + d;
      NumberOfDigitText("-", d);
      DigitsRoundTrip(m);
    } else {
      NumberOfDigitText("", Digits(n));
      assert DecimalString(n) == "" + Digits(n);
      DigitsRoundTrip(n);
    }
    if IsDouble(n) {
      DoubleIsFixed(n);
    }
  }

  /** `Number("9007199254740993")` is 9007199254740992: the literal lies halfway
      between two doubles and goes to the one with the even significand. */
  lemma NumberRoundsAboveSafeBound()
    ensures IsIntegerText(DecimalString(SafeBound + 1))
    ensures JsNumber(DecimalString(SafeBound + 1)) == SafeBound
  {
    NumberOfDecimalString(SafeBound + 1);
    RoundHalfToEven();
  }

  // ---------------------------------------------------------------------------
  // Doubles that hold integers

  /** 2^53: every integer of at most this magnitude is a double. */
  const SafeBound: int := 0x20_0000_0000_0000

  /** The gap between neighbouring doubles that hold integers, at magnitude `m`: 1 below 2^53, and
      twice as wide in each binade above. */
  function Spacing(m: nat): (s: nat)
    ensures s >= 1
    ensures m < SafeBound <==> s == 1
  {
    if m < SafeBound then 1 else 2 * Spacing(m / 2)
  }

  function Magnitude(n: int): nat {
    if n < 0 then -n else n
  }

  /** An integer that a double holds exactly: a multiple of the spacing at its
      magnitude (overflow past the largest double is not modelled). */
  predicate IsDouble(n: int) {
    Magnitude(n) % Spacing(Magnitude(n)) == 0
  }

  /** Which multiple of the spacing the magnitude `m` rounds to: the nearest,
      a tie going to the even one (IEEE 754 round-to-nearest-even). */
  function RoundIndex(m: nat): nat {
    var s := Spacing(m);
    var q, r := m / s, m % s;
    if 2 * r < s || (2 * r == s && q % 2 == 0) then q else q + 1
  }

  /** The double nearest the magnitude `m`. */
  function RoundMagnitude(m: nat): nat {
    RoundIndex(m) * Spacing(m)
  }

  /** The double JavaScript gives an exact integer result: the sum of two
      doubles that hold integers, or the value of a decimal literal. */
  function RoundToDouble(n: int): int {
    if n < 0 then -(RoundMagnitude(-n) as int) else RoundMagnitude(n)
  }

  /** `Number(text)` for the texts `IsIntegerText` admits; `Number("")` is 0. */
  function JsNumber(t: string): int
    requires IsIntegerText(t)
  {
    RoundToDouble(NumberOf(t))
  }

  /** `a + b` for two doubles that hold integers. */
  function JsAdd(a: int, b: int): int {
    RoundToDouble(a + b)
  }

  /** Rounding moves a magnitude by at most half a spacing, in either direction. */
  lemma {:induction false} RoundIsNearest(m: nat)
    ensures 2 * (m - RoundMagnitude(m)) <= Spacing(m)
    ensures 2 * (RoundMagnitude(m) - m) <= Spacing(m)
  {
    var s := Spacing(m);
    var q, r := m / s, m % s;
    assert m == q * s + r && 0 <= r < s;
    if 2 * r < s || (2 * r == s && q % 2 == 0) {
      assert RoundMagnitude(m) == q * s;
    } else {
      assert RoundMagnitude(m) == (q + 1) * s == q * s + s;
    }
  }

  /** The same bound for a signed integer: the double is the sign times the
      rounded magnitude. */
  lemma RoundToDoubleIsNearest(n: int)
    ensures 2 * (n - RoundToDouble(n)) <= Spacing(Magnitude(n))
    ensures 2 * (RoundToDouble(n) - n) <= Spacing(Magnitude(n))
  {
    RoundIsNearest(Magnitude(n));
  }

  /** Rounding leaves a double where it is. */
  lemma {:induction false} DoubleIsFixed(n: int)
    requires IsDouble(n)
    ensures RoundToDouble(n) == n
  {
    var m := Magnitude(n);
    var s := Spacing(m);
    assert m == (m / s) * s + m % s;
  }

  /** Every integer up to 2^53 in magnitude is a double, so rounding it changes nothing. */
  lemma {:induction false} SafeIsExact(n: int)
    requires -SafeBound <= n <= SafeBound
    ensures IsDouble(n) && RoundToDouble(n) == n
  {
    var m := Magnitude(n);
    if m == SafeBound {
      assert Spacing(m) == 2 * Spacing(m / 2) == 2;
    }
    DoubleIsFixed(n);
  }

  /** 2^53 + 1 lies halfway between the doubles 2^53 and 2^53 + 2 and rounds to
      2^53, whose significand is even. */
  lemma RoundHalfToEven()
    ensures !IsDouble(SafeBound + 1) && RoundToDouble(SafeBound + 1) == SafeBound
  {
    assert Spacing(SafeBound + 1) == 2 * Spacing((SafeBound + 1) / 2) == 2;
  }

  /** Above 2^53 the magnitude lies in the binade of its spacing `s`:
      from `s * 2^52` up to, but not including, `s * 2^53`. */
  lemma {:induction false} SpacingBinade(m: nat)
    requires m >= SafeBound
    ensures Spacing(m) * (SafeBound / 2) <= m < Spacing(m) * SafeBound
    decreases m
  {
    if m / 2 >= SafeBound {
      SpacingBinade(m / 2);
    }
  }

  /** Every magnitude in the binade of `m` has the same spacing as `m`. */
  lemma {:induction false} SpacingConstant(m: nat, x: nat)
    requires m >= SafeBound
    requires Spacing(m) * (SafeBound / 2) <= x < Spacing(m) * SafeBound
    ensures Spacing(x) == Spacing(m)
    decreases m
  {
    if m / 2 >= SafeBound {
      var s' := Spacing(m / 2);
      assert s' >= 2;
      assert s' * (SafeBound / 2) <= x / 2 < s' * SafeBound;
      SpacingConstant(m / 2, x / 2);
    }
  }

  /** Rounding picks the multiple `q` or `q + 1` of the spacing, where `q * s`
      is the multiple at or below `m`; above 2^53 both lie in `[2^52, 2^53]`. */
  lemma {:induction false} RoundIndexRange(m: nat)
    requires m >= SafeBound
    ensures SafeBound / 2 <= RoundIndex(m) <= SafeBound
  {
    var s := Spacing(m);
    SpacingBinade(m);
    QuotientInBinade(m, s);
  }

  lemma {:induction false} QuotientInBinade(m: nat, s: nat)
    requires s >= 1
    requires s * (SafeBound / 2) <= m < s * SafeBound
    ensures SafeBound / 2 <= m / s < SafeBound
  {
    var h := SafeBound / 2;
    var q := m / s;
    assert m == q * s + m % s;
  }

  lemma {:induction false} MultipleMod(k: int, s: int)
    requires s >= 1
    ensures (k * s) % s == 0
  {
    var q, r := (k * s) / s, (k * s) % s;
    assert (k - q) * s == r && 0 <= r < s;
    ProductBounds(k - q, s);
  }

  lemma {:induction false} ProductBounds(d: int, s: int)
    requires s >= 1
    ensures d >= 1 ==> d * s >= s
    ensures d <= -1 ==> d * s <= -s
  {
    if d >= 1 {
      assert d * s == s + (d - 1) * s;
    } else if d <= -1 {
      assert d * s == -s + (d + 1) * s;
    }
  }

  /** Rounding always lands on a double: a multiple of the spacing at the
      magnitude it lands on, even when it rounds up into the next binade. */
  lemma {:induction false} RoundMagnitudeIsDouble(m: nat)
    ensures RoundMagnitude(m) % Spacing(RoundMagnitude(m)) == 0
  {
    var s := Spacing(m);
    var k := RoundIndex(m);
    var r := RoundMagnitude(m);
    assert r == k * s;
    if m < SafeBound {
      assert s == 1;
      MultipleMod(k, 1);
    } else {
      RoundIndexRange(m);
      if k < SafeBound {
        SpacingBinade(m);
        BelowTopInBinade(k, s);
        SpacingConstant(m, r);
        MultipleMod(k, s);
      } else {
        TopOfBinade(m);
      }
    }
  }

  lemma {:induction false} BelowTopInBinade(k: nat, s: nat)
    requires s >= 1 && SafeBound / 2 <= k < SafeBound
    ensures s * (SafeBound / 2) <= k * s < s * SafeBound
  {
  }

  /** Rounding up to `2^53 * s` crosses into the next binade, whose spacing
      `2 * s` still divides it. */
  lemma {:induction false} TopOfBinade(m: nat)
    requires m >= SafeBound && RoundIndex(m) == SafeBound
    ensures RoundMagnitude(m) % Spacing(RoundMagnitude(m)) == 0
  {
    var s := Spacing(m);
    var h := SafeBound / 2;
    var r := RoundMagnitude(m);
    assert r == SafeBound * s;
    SpacingBinade(m);
    SpacingConstant(m, s * h);
    assert r / 2 == s * h;
    assert Spacing(r) == 2 * Spacing(r / 2);
    MultipleMod(h, 2 * s);
    assert r == h * (2 * s);
  }

  /** The result of rounding is a double. */
  lemma RoundIsDouble(n: int)
    ensures IsDouble(RoundToDouble(n))
  {
    RoundMagnitudeIsDouble(Magnitude(n));
  }

  /** A magnitude halfway between two neighbouring doubles goes to the even
      multiple of the spacing. */
  lemma {:induction false} RoundTiesToEven(m: nat)
    requires 2 * (m % Spacing(m)) == Spacing(m)
    ensures RoundMagnitude(m) % (2 * Spacing(m)) == 0
  {
    var s := Spacing(m);
    var k := RoundIndex(m);
    assert k % 2 == 0;
    EvenMultiple(k, s);
  }

  lemma {:induction false} EvenMultiple(k: int, s: int)
    requires s >= 1 && k % 2 == 0
    ensures (k * s) % (2 * s) == 0
  {
    assert k * s == (k / 2) * (2 * s);
    MultipleMod(k / 2, 2 * s);
  }
}
