/**
 * The phone normaliser (`clean_phone`): keep only the digits of a text and,
 * when there are exactly ten of them, render them as `DD DDDD DDDD`.
 */
module Phone {
  import opened Wrappers
  import opened Text

  /** The canonical form: two digits, a space, four digits, a space, four digits. */
  predicate IsCanonical(p: string) {
    |p| == 12 && p[2] == ' ' && p[7] == ' ' &&
    IsDigit(p[0]) && IsDigit(p[1]) &&
    IsDigit(p[3]) && IsDigit(p[4]) && IsDigit(p[5]) && IsDigit(p[6]) &&
    IsDigit(p[8]) && IsDigit(p[9]) && IsDigit(p[10]) && IsDigit(p[11])
  }

  function Group(d: string): string
    requires |d| == 10
  {
    d[..2] + " " + d[2..6] + " " + d[6..]
  }

  lemma GroupIsCanonical(d: string)
    requires |d| == 10 && AllDigits(d)
    ensures IsCanonical(Group(d))
  {
    var g := Group(d);
    assert g[..2] == d[..2] && g[3..7] == d[2..6] && g[8..] == d[6..];
    assert g[0] == d[0] && g[1] == d[1];
    assert g[3] == d[2] && g[4] == d[3] && g[5] == d[4] && g[6] == d[5];
    assert g[8] == d[6] && g[9] == d[7] && g[10] == d[8] && g[11] == d[9];
  }

  lemma GroupKeepsDigits(d: string)
    requires |d| == 10 && AllDigits(d)
    ensures Digits(Group(d)) == d
  {
    var a, b, c := d[..2], d[2..6], d[6..];
    assert Group(d) == a + [' '] + b + [' '] + c;
    DigitsConcat(a + [' '] + b + [' '], c);
    DigitsConcat(a + [' '] + b, [' ']);
    DigitsConcat(a + [' '], b);
    DigitsConcat(a, [' ']);
    DigitsOfAllDigits(a);
    DigitsOfAllDigits(b);
    DigitsOfAllDigits(c);
    assert d == a + b + c;
  }

  /**
   * `clean_phone`: a value exactly when the text holds ten digits; that value
   * is canonical and carries the same digits in the same order.
   */
  function CleanPhone(text: string): (r: Option<string>)
    ensures r.Some? <==> |Digits(text)| == 10
    ensures r.Some? ==> IsCanonical(r.value) && Digits(r.value) == Digits(text)
  {
    var d := Digits(text);
    if |d| == 10 then DigitsAreDigits(text); GroupIsCanonical(d); GroupKeepsDigits(d); Some(Group(d)) else None
  }

  /** Ten digits behind a digit-free prefix are read as those digits, grouped. */
  lemma CleanPhoneAfterPrefix(w: string, d: string)
    requires Digits(w) == [] && |d| == 10 && AllDigits(d)
    ensures CleanPhone(w + d) == Some(Group(d))
  {
    DigitsConcat(w, d);
    DigitsOfAllDigits(d);
    assert Digits(w + d) == [] + d == d;
  }

  /** A canonical phone is read back unchanged. */
  lemma {:induction false} CleanPhoneIdempotent(p: string)
    requires IsCanonical(p)
    ensures CleanPhone(p) == Some(p)
  {
    var d := p[..2] + p[3..7] + p[8..];
    assert p == p[..2] + [p[2]] + p[3..7] + [p[7]] + p[8..];
    DigitsConcat(p[..2] + [p[2]] + p[3..7] + [p[7]], p[8..]);
    DigitsConcat(p[..2] + [p[2]] + p[3..7], [p[7]]);
    DigitsConcat(p[..2] + [p[2]], p[3..7]);
    DigitsConcat(p[..2], [p[2]]);
    DigitsOfAllDigits(p[..2]);
    DigitsOfAllDigits(p[3..7]);
    DigitsOfAllDigits(p[8..]);
    assert Digits(p) == d;
    assert Group(d) == p;
  }

  /** Two canonical phones with the same digits are the same string. */
  lemma CanonicalDeterminedByDigits(a: string, b: string)
    requires IsCanonical(a) && IsCanonical(b) && Digits(a) == Digits(b)
    ensures a == b
  {
    CleanPhoneIdempotent(a);
    CleanPhoneIdempotent(b);
  }

  /** A canonical phone has no whitespace to strip. */
  lemma CanonicalIsStripped(p: string)
    requires IsCanonical(p)
    ensures Strip(p) == p
  {
    assert LeadingRun(p, IsSpace) == 0;
    assert TrailingRun(p, IsSpace) == 0;
  }

  /** A canonical phone never looks truncated. */
  lemma CanonicalHasNoEllipsis(p: string)
    requires IsCanonical(p)
    ensures !HasEllipsis(p)
  {
    forall i | 0 <= i && i + 3 <= |p| ensures !EllipsisAt(p, i) {
      assert p[i..i + 3][0] == p[i] && p[i..i + 3][1] == p[i + 1];
    }
    HasEllipsisIff(p);
  }
}
