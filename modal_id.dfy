/**
 * Resolving which modal a show-phone button opens: the id is read from the
 * button's `data-target` with `re.search(r"data-id='([^']+)", target)`, and
 * without an id the generic phone-modal selector is used.
 */
module ModalId {
  import opened Wrappers

  const Marker: string := "data-id='"

  /** What the scraper waits for after clicking a show-phone button. */
  datatype Selector =
    | ByDataId(id: string)  // `[data-id="<id>"]`
    | GenericPhoneModal     // `.modal[data-id*="phone"].show, .modal[data-id*="phone"]:not(.fade)`

  /** The pattern matches at `i`: the marker followed by a non-quote character. */
  ghost predicate MatchesAt(s: string, i: int) {
    0 <= i && i + |Marker| < |s| && s[i..i + |Marker|] == Marker && s[i + |Marker|] != '\''
  }

  /** The `n` characters from `j` on hold no quote and are followed by a quote or the end. */
  ghost predicate IsRun(s: string, j: int, n: int) {
    0 <= j && 0 <= n && j + n <= |s| &&
    (forall k :: j <= k < j + n ==> s[k] != '\'') &&
    (j + n == |s| || s[j + n] == '\'')
  }

  /** `id` is the maximal run of non-quote characters starting at `j`, and is not empty. */
  ghost predicate IsIdRun(s: string, j: int, id: string) {
    id != [] && IsRun(s, j, |id|) && s[j..j + |id|] == id
  }

  /** The length of the run of non-quote characters starting at `j`. */
  function RunLength(s: string, j: nat): (n: nat)
    requires j <= |s|
    ensures j + n <= |s|
    ensures forall k :: j <= k < j + n ==> s[k] != '\''
    ensures j + n == |s| || s[j + n] == '\''
    decreases |s| - j
  {
    if j == |s| || s[j] == '\'' then 0 else 1 + RunLength(s, j + 1)
  }

  /** `re.search` from position `i` on: the first match's group. */
  function SearchFrom(s: string, i: nat): (r: Option<string>)
    ensures r.Some? <==> exists k :: k >= i && MatchesAt(s, k)
    ensures r.Some? ==> exists k :: k >= i && MatchesAt(s, k) && IsIdRun(s, k + |Marker|, r.value) &&
                                    forall k' :: i <= k' < k ==> !MatchesAt(s, k')
    decreases |s| - i
  {
    if i + |Marker| >= |s| then None
    else if s[i..i + |Marker|] == Marker && s[i + |Marker|] != '\'' then
      var j := i + |Marker|;
      var n := RunLength(s, j);
      assert MatchesAt(s, i);
      Some(s[j..j + n])
    else
      assert !MatchesAt(s, i);
      SearchFrom(s, i + 1)
  }

  /**
   * The modal id in a `data-target` value: present exactly when the marker
   * `data-id='` is followed by a non-quote character somewhere, and then the
   * longest run of non-quote characters after the first such marker. No
   * closing quote is needed.
   */
  function ParseModalId(target: string): (r: Option<string>)
    ensures r.Some? <==> exists k :: MatchesAt(target, k)
    ensures r.Some? ==> exists k :: MatchesAt(target, k) && IsIdRun(target, k + |Marker|, r.value) &&
                                    forall k' :: 0 <= k' < k ==> !MatchesAt(target, k')
  {
    SearchFrom(target, 0)
  }

  /**
   * The selector waited for: by id when the attribute is present and holds
   * an id, the generic phone-modal selector otherwise (a missing or empty
   * attribute included).
   */
  function ModalSelector(target: Option<string>): (sel: Selector)
    ensures sel.ByDataId? <==> target.Some? && exists k :: MatchesAt(target.value, k)
    ensures sel.ByDataId? ==> sel.id != [] && '\'' !in sel.id
    ensures sel.ByDataId? ==> target.Some? && ParseModalId(target.value) == Some(sel.id)
  {
    if target.Some? && target.value != "" then
      match ParseModalId(target.value)
      case Some(id) => ByDataId(id)
      case None => GenericPhoneModal
    else GenericPhoneModal
  }

  /** `RunLength` is the only length of a maximal run. */
  lemma {:induction false} RunIsRunLength(s: string, j: nat, n: nat)
    requires IsRun(s, j, n)
    ensures n == RunLength(s, j)
    decreases n
  {
    if n > 0 {
      RunIsRunLength(s, j + 1, n - 1);
    }
  }

  /**
   * The id is read up to the first quote or to the end of the attribute:
   * a closing quote is not required.
   */
  lemma {:induction false} IdNeedsNoClosingQuote(id: string, rest: string)
    requires id != [] && '\'' !in id
    requires rest == [] || rest[0] == '\''
    ensures ParseModalId(Marker + id + rest) == Some(id)
  {
    var s := Marker + id + rest;
    assert s[..|Marker|] == Marker && s[|Marker|] == id[0];
    assert MatchesAt(s, 0);
    var r := ParseModalId(s);
    var k :| MatchesAt(s, k) && IsIdRun(s, k + |Marker|, r.value) &&
             forall k' :: 0 <= k' < k ==> !MatchesAt(s, k');
    assert k == 0;
    assert s[|Marker|..|Marker| + |id|] == id;
    assert IsIdRun(s, |Marker|, id);
    RunIsRunLength(s, |Marker|, |id|);
    RunIsRunLength(s, |Marker|, |r.value|);
  }
}
