/**
 * The string primitives the scraper relies on: the digit filter behind
 * `re.sub(r'\D', '', text)`, `str.strip()`, `str.lstrip('/')`,
 * `str.startswith`, the substring test `"..." in s` and `str.replace(pat, '')`.
 *
 * Digits are the ASCII characters '0'..'9' and whitespace is the six ASCII
 * whitespace characters; Python's wider Unicode classes are not modelled.
 */
module Text {

  predicate IsDigit(c: char) {
    '0' <= c <= '9'
  }

  predicate IsSpace(c: char) {
    c == ' ' || c == '\t' || c == '\n' || c == '\r' || c == '\U{B}' || c == '\U{C}'
  }

  predicate AllDigits(s: string) {
    forall i :: 0 <= i < |s| ==> IsDigit(s[i])
  }

  /** The digit-only projection of `s`, in order. */
  function Digits(s: string): (d: string)
    ensures |d| <= |s|
  {
    if s == [] then []
    else if IsDigit(s[0]) then [s[0]] + Digits(s[1..])
    else Digits(s[1..])
  }

  /** Only digits pass the filter. */
  lemma {:induction false} DigitsAreDigits(s: string)
    ensures AllDigits(Digits(s))
    decreases |s|
  {
    if s != [] {
      DigitsAreDigits(s[1..]);
    }
  }

  lemma {:induction false} DigitsConcat(a: string, b: string)
    ensures Digits(a + b) == Digits(a) + Digits(b)
  {
    if a == [] {
      assert a + b == b;
    } else {
      assert (a + b)[0] == a[0];
      assert (a + b)[1..] == a[1..] + b;
      DigitsConcat(a[1..], b);
    }
  }

  lemma {:induction false} DigitsOfAllDigits(s: string)
    requires AllDigits(s)
    ensures Digits(s) == s
  {
    if s != [] {
      DigitsOfAllDigits(s[1..]);
    }
  }

  lemma {:induction false} DigitsOfNoDigits(s: string)
    requires forall i :: 0 <= i < |s| ==> !IsDigit(s[i])
    ensures Digits(s) == []
  {
    if s != [] {
      DigitsOfNoDigits(s[1..]);
    }
  }

  /** The length of the longest prefix of `s` whose characters all satisfy `p`. */
  function LeadingRun(s: string, p: char -> bool): (n: nat)
    ensures n <= |s| && (n == |s| || !p(s[n]))
  {
    if s != [] && p(s[0]) then 1 + LeadingRun(s[1..], p) else 0
  }

  lemma {:induction false} LeadingRunSatisfies(s: string, p: char -> bool)
    ensures forall i :: 0 <= i < LeadingRun(s, p) ==> p(s[i])
    decreases |s|
  {
    if s != [] && p(s[0]) {
      LeadingRunSatisfies(s[1..], p);
      forall i | 1 <= i < LeadingRun(s, p) ensures p(s[i]) {
        assert s[i] == s[1..][i - 1];
      }
    }
  }

  /** The length of the longest suffix of `s` whose characters all satisfy `p`. */
  function TrailingRun(s: string, p: char -> bool): (n: nat)
    ensures n <= |s| && (n == |s| || !p(s[|s| - 1 - n]))
  {
    if s != [] && p(s[|s| - 1]) then 1 + TrailingRun(s[..|s| - 1], p) else 0
  }

  lemma {:induction false} TrailingRunSatisfies(s: string, p: char -> bool)
    ensures forall i :: |s| - TrailingRun(s, p) <= i < |s| ==> p(s[i])
    decreases |s|
  {
    if s != [] && p(s[|s| - 1]) {
      TrailingRunSatisfies(s[..|s| - 1], p);
      forall i | |s| - TrailingRun(s, p) <= i < |s| - 1 ensures p(s[i]) {
        assert s[i] == s[..|s| - 1][i];
      }
    }
  }

  /** `s` with its leading whitespace removed. */
  function TrimStart(s: string): string {
    s[LeadingRun(s, IsSpace)..]
  }

  /** `s` with its trailing whitespace removed. */
  function TrimEnd(s: string): string {
    s[..|s| - TrailingRun(s, IsSpace)]
  }

  /** Python's `s.strip()`. */
  function Strip(s: string): string {
    TrimEnd(TrimStart(s))
  }

  lemma TrimStartKeepsDigits(s: string)
    ensures Digits(TrimStart(s)) == Digits(s)
  {
    var n := LeadingRun(s, IsSpace);
    assert s == s[..n] + s[n..];
    DigitsConcat(s[..n], s[n..]);
    LeadingRunSatisfies(s, IsSpace);
    forall i | 0 <= i < n ensures !IsDigit(s[..n][i]) {
      assert IsSpace(s[i]);
    }
    DigitsOfNoDigits(s[..n]);
  }

  lemma TrimEndKeepsDigits(s: string)
    ensures Digits(TrimEnd(s)) == Digits(s)
  {
    var k := |s| - TrailingRun(s, IsSpace);
    assert s == s[..k] + s[k..];
    DigitsConcat(s[..k], s[k..]);
    TrailingRunSatisfies(s, IsSpace);
    forall i | 0 <= i < |s| - k ensures !IsDigit(s[k..][i]) {
      assert IsSpace(s[k + i]);
    }
    DigitsOfNoDigits(s[k..]);
  }

  /** Stripping whitespace never adds or removes a digit. */
  lemma StripKeepsDigits(s: string)
    ensures Digits(Strip(s)) == Digits(s)
  {
    TrimStartKeepsDigits(s);
    TrimEndKeepsDigits(TrimStart(s));
  }

  predicate IsSlash(c: char) {
    c == '/'
  }

  /** Python's `s.lstrip('/')`. */
  function TrimSlashes(s: string): string {
    s[LeadingRun(s, IsSlash)..]
  }

  /** Python's `s.startswith(p)`. */
  predicate StartsWith(s: string, p: string) {
    |p| <= |s| && s[..|p|] == p
  }

  ghost predicate EllipsisAt(s: string, i: int) {
    0 <= i && i + 3 <= |s| && s[i..i + 3] == "..."
  }

  /** Python's `"..." in s`. */
  predicate HasEllipsis(s: string) {
    |s| >= 3 && (s[..3] == "..." || HasEllipsis(s[1..]))
  }

  /** `HasEllipsis` finds an occurrence of `...` at some position, and only then. */
  lemma {:induction false} HasEllipsisIff(s: string)
    ensures HasEllipsis(s) <==> exists i :: EllipsisAt(s, i)
    decreases |s|
  {
    if |s| >= 3 {
      if s[..3] == "..." {
        assert EllipsisAt(s, 0);
      } else {
        HasEllipsisIff(s[1..]);
        if HasEllipsis(s[1..]) {
          var i :| EllipsisAt(s[1..], i);
          assert s[1..][i..i + 3] == s[i + 1..i + 4];
          assert EllipsisAt(s, i + 1);
        } else {
          forall i | 0 < i && i + 3 <= |s| ensures !EllipsisAt(s, i) {
            assert s[1..][i - 1..i + 2] == s[i..i + 3];
            assert !EllipsisAt(s[1..], i - 1);
          }
        }
      }
    }
  }

  /**
   * Python's `s.replace(pat, '')`: occurrences of `pat` are removed scanning
   * from the left, without overlap.
   */
  function RemoveAll(s: string, pat: string): (r: string)
    requires pat != []
    ensures |r| <= |s|
    decreases |s|
  {
    if |s| < |pat| then s
    else if s[..|pat|] == pat then RemoveAll(s[|pat|..], pat)
    else [s[0]] + RemoveAll(s[1..], pat)
  }

  /** Removing a pattern that holds no digit keeps every digit, in order. */
  lemma {:induction false} RemoveAllKeepsDigits(s: string, pat: string)
    requires pat != [] && Digits(pat) == []
    ensures Digits(RemoveAll(s, pat)) == Digits(s)
    decreases |s|
  {
    if |s| < |pat| {
    } else if s[..|pat|] == pat {
      assert s == pat + s[|pat|..];
      DigitsConcat(pat, s[|pat|..]);
      RemoveAllKeepsDigits(s[|pat|..], pat);
    } else {
      assert s == [s[0]] + s[1..];
      DigitsConcat([s[0]], s[1..]);
      DigitsConcat([s[0]], RemoveAll(s[1..], pat));
      RemoveAllKeepsDigits(s[1..], pat);
    }
  }
}
