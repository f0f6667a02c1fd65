/**
 * `re.findall(r'\d{2}\s?\d{4}\s?\d{4}', text)`: the free-text tier's scan of
 * a modal's text for grouped ten-digit runs.
 *
 * The greedy `\s?` never has to give its space back: when it declines a
 * whitespace character, the following `\d` must match that same character
 * and fails. So a match at a position is found by one straight pass.
 */
module PhonePattern {
  import opened Wrappers
  import opened Text

  /** `n` digits start at position `i`. */
  predicate DigitsAt(s: string, i: nat, n: nat) {
    i + n <= |s| && AllDigits(s[i..i + n])
  }

  /** The position after an optional whitespace character at `j`. */
  function SkipSpace(s: string, j: nat): (k: nat)
    ensures k == j || k == j + 1
  {
    if j < |s| && IsSpace(s[j]) then j + 1 else j
  }

  lemma SkippedHoldsNoDigit(s: string, j: nat)
    requires SkipSpace(s, j) <= |s|
    ensures j <= |s| && Digits(s[j..SkipSpace(s, j)]) == []
  {
  }

  /**
   * The pattern matches at `i` with `a` and `b` whitespace characters taken
   * by the two `\s?`: two digits, an optional space, four digits, an
   * optional space, four digits.
   */
  ghost predicate Shape(s: string, i: nat, a: nat, b: nat) {
    a <= 1 && b <= 1 && i + 10 + a + b <= |s| &&
    AllDigits(s[i..i + 2]) && (a == 1 ==> IsSpace(s[i + 2])) &&
    AllDigits(s[i + 2 + a..i + 6 + a]) && (b == 1 ==> IsSpace(s[i + 6 + a])) &&
    AllDigits(s[i + 6 + a + b..i + 10 + a + b])
  }

  /** The end of the pattern's match starting at `i`, if it matches there. */
  function MatchAt(s: string, i: nat): (r: Option<nat>)
    ensures r.Some? ==> i + 10 <= r.value <= |s| && |Digits(s[i..r.value])| == 10
  {
    if !DigitsAt(s, i, 2) then None
    else
      var j := SkipSpace(s, i + 2);
      if !DigitsAt(s, j, 4) then None
      else
        var k := SkipSpace(s, j + 4);
        if !DigitsAt(s, k, 4) then None
        else
          MatchHasTenDigits(s, i, j, k);
          Some(k + 4)
  }

  lemma MatchHasTenDigits(s: string, i: nat, j: nat, k: nat)
    requires DigitsAt(s, i, 2) && j == SkipSpace(s, i + 2)
    requires DigitsAt(s, j, 4) && k == SkipSpace(s, j + 4)
    requires DigitsAt(s, k, 4)
    ensures |Digits(s[i..k + 4])| == 10
  {
    var a, sp1, b, sp2, c := s[i..i + 2], s[i + 2..j], s[j..j + 4], s[j + 4..k], s[k..k + 4];
    assert s[i..j] == a + sp1;
    assert s[i..j + 4] == s[i..j] + b;
    assert s[i..k] == s[i..j + 4] + sp2;
    assert s[i..k + 4] == s[i..k] + c;
    DigitsConcat(a + sp1 + b + sp2, c);
    DigitsConcat(a + sp1 + b, sp2);
    DigitsConcat(a + sp1, b);
    DigitsConcat(a, sp1);
    DigitsOfAllDigits(a);
    DigitsOfAllDigits(b);
    DigitsOfAllDigits(c);
    SkippedHoldsNoDigit(s, i + 2);
    SkippedHoldsNoDigit(s, j + 4);
  }

  /**
   * `MatchAt` finds a match exactly where the pattern has one, and it ends
   * where the pattern's match ends.
   */
  lemma MatchAtIsShape(s: string, i: nat)
    ensures MatchAt(s, i).Some? ==> exists a, b :: Shape(s, i, a, b) && MatchAt(s, i).value == i + 10 + a + b
    ensures (exists a, b :: Shape(s, i, a, b)) ==> MatchAt(s, i).Some?
  {
    if MatchAt(s, i).Some? {
      var a, b := SkipSpace(s, i + 2) - (i + 2), SkipSpace(s, SkipSpace(s, i + 2) + 4) - (SkipSpace(s, i + 2) + 4);
      assert Shape(s, i, a, b);
    }
    if a, b :| Shape(s, i, a, b) {
      ShapeIsFound(s, i, a, b);
    }
  }

  /** A space is never a digit, so the whitespace the pattern may take is decided by the text. */
  lemma ShapeIsFound(s: string, i: nat, a: nat, b: nat)
    requires Shape(s, i, a, b)
    ensures MatchAt(s, i) == Some(i + 10 + a + b)
  {
    assert IsDigit(s[i..i + 2][1]);
    assert IsDigit(s[i + 2 + a..i + 6 + a][0]) && IsDigit(s[i + 2 + a..i + 6 + a][3]);
    assert IsDigit(s[i + 6 + a + b..i + 10 + a + b][0]);
    var j := SkipSpace(s, i + 2);
    assert j == i + 2 + a;
    assert SkipSpace(s, j + 4) == i + 6 + a + b;
  }

  /** The matches from position `i` on, left to right and without overlap. */
  function FindAllFrom(s: string, i: nat): (ms: seq<string>)
    requires i <= |s|
    ensures forall m :: m in ms ==> |Digits(m)| == 10
    decreases |s| - i
  {
    if i == |s| then []
    else
      match MatchAt(s, i)
      case Some(e) => [s[i..e]] + FindAllFrom(s, e)
      case None => FindAllFrom(s, i + 1)
  }

  /** `re.findall` of the grouped-digits pattern over the whole text. */
  function FindAll(s: string): (ms: seq<string>)
    ensures forall m :: m in ms ==> |Digits(m)| == 10
  {
    FindAllFrom(s, 0)
  }

  /** Positions without a match are passed over. */
  lemma {:induction false} FindAllFromSkips(s: string, i: nat, p: nat)
    requires i <= p <= |s|
    requires forall q :: i <= q < p ==> MatchAt(s, q).None?
    ensures FindAllFrom(s, i) == FindAllFrom(s, p)
    decreases p - i
  {
    if i < p {
      FindAllFromSkips(s, i + 1, p);
    }
  }

  /**
   * The first position from `i` on where the pattern matches gives the
   * first match returned, and the scan resumes where that match ends.
   */
  lemma FindAllFromFindsFirst(s: string, i: nat, p: nat)
    requires i <= p <= |s| && MatchAt(s, p).Some?
    requires forall q :: i <= q < p ==> MatchAt(s, q).None?
    ensures FindAllFrom(s, i) == [s[p..MatchAt(s, p).value]] + FindAllFrom(s, MatchAt(s, p).value)
  {
    FindAllFromSkips(s, i, p);
  }

  /** Nothing is returned exactly when the pattern matches nowhere from `i` on. */
  lemma {:induction false} FindAllFromEmptyIff(s: string, i: nat)
    requires i <= |s|
    ensures FindAllFrom(s, i) == [] <==> forall q :: i <= q < |s| ==> MatchAt(s, q).None?
    decreases |s| - i
  {
    if i < |s| && MatchAt(s, i).None? {
      FindAllFromEmptyIff(s, i + 1);
      assert FindAllFrom(s, i) == FindAllFrom(s, i + 1);
    }
  }

  /**
   * Text without digits, followed by ten digits written `DD DDDD DDDD`,
   * holds exactly that one match.
   */
  lemma FindAllAfterDigitFree(w: string, g: string)
    requires Digits(w) == [] && |g| == 12 && g[2] == ' ' && g[7] == ' '
    requires AllDigits(g[..2]) && AllDigits(g[3..7]) && AllDigits(g[8..])
    ensures FindAll(w + g) == [g]
  {
    var s := w + g;
    forall q | 0 <= q < |w|
      ensures MatchAt(s, q).None?
    {
      NoMatchInDigitFree(w, g, q);
    }
    GroupedIsMatch(w, g);
    FindAllFromFindsFirst(s, 0, |w|);
    assert s[|w|..|s|] == g;
    assert FindAllFrom(s, |s|) == [];
  }

  lemma NoMatchInDigitFree(w: string, g: string, q: nat)
    requires Digits(w) == [] && q < |w|
    ensures MatchAt(w + g, q).None?
  {
    DigitFreeHasNoDigitAt(w, q);
    if q + 2 <= |w + g| {
      assert (w + g)[q..q + 2][0] == w[q];
    }
  }

  lemma GroupedIsMatch(w: string, g: string)
    requires |g| == 12 && g[2] == ' ' && g[7] == ' '
    requires AllDigits(g[..2]) && AllDigits(g[3..7]) && AllDigits(g[8..])
    ensures MatchAt(w + g, |w|) == Some(|w + g|)
  {
    var s := w + g;
    assert s[|w|..|w| + 2] == g[..2];
    assert s[|w| + 3..|w| + 7] == g[3..7];
    assert s[|w| + 8..|w| + 12] == g[8..];
    assert s[|w| + 2] == ' ' && s[|w| + 7] == ' ';
    assert Shape(s, |w|, 1, 1);
    ShapeIsFound(s, |w|, 1, 1);
  }

  lemma {:induction false} DigitFreeHasNoDigitAt(w: string, q: nat)
    requires Digits(w) == [] && q < |w|
    ensures !IsDigit(w[q])
  {
    assert w == w[..q] + [w[q]] + w[q + 1..];
    DigitsConcat(w[..q] + [w[q]], w[q + 1..]);
    DigitsConcat(w[..q], [w[q]]);
  }
}
