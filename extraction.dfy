/**
 * What `extract_phones` computes, as functions of the page: the three
 * candidate tiers of a revealed modal, one container's step, the scan over
 * the containers that stops at two phones, and the result for a page.
 */
module Extraction {
  import opened Wrappers
  import opened Text
  import opened Phone
  import opened PhonePattern
  import opened ModalId
  import opened Page

  /** The candidate sources of a modal, in priority order. */
  datatype Tier = TelLink | BoldText | TextMatch

  /** The text handed to `clean_phone` for a raw item of a tier. */
  function Candidate(tier: Tier, raw: string): string {
    match tier
    case TelLink => Strip(RemoveAll(raw, "tel:"))
    case BoldText => Strip(raw)
    case TextMatch => raw
  }

  /** What `clean_phone` makes of each raw item of a tier, in order. */
  function Cleaned(tier: Tier, raws: seq<string>): (cs: seq<Option<string>>)
    ensures |cs| == |raws|
  {
    if raws == [] then []
    else [CleanPhone(Candidate(tier, raws[0]))] + Cleaned(tier, raws[1..])
  }

  /** Every phone `clean_phone` yields from a tier is canonical. */
  lemma {:induction false} CleanedAreCanonical(tier: Tier, raws: seq<string>)
    ensures forall c :: c in Cleaned(tier, raws) && c.Some? ==> IsCanonical(c.value)
    decreases |raws|
  {
    if raws != [] {
      CleanedAreCanonical(tier, raws[1..]);
    }
  }

  lemma {:induction false} CleanedAt(tier: Tier, raws: seq<string>, j: nat)
    requires j < |raws|
    ensures Cleaned(tier, raws)[j] == CleanPhone(Candidate(tier, raws[j]))
    decreases j
  {
    if j > 0 {
      CleanedAt(tier, raws[1..], j - 1);
      assert raws[1..][j - 1] == raws[j];
    }
  }

  /** The cleaned item is a phone that is not yet held. */
  predicate IsNew(c: Option<string>, held: seq<string>) {
    c.Some? && c.value !in held
  }

  /**
   * The first new phone among the cleaned items from index `i` on: the loop
   * over a tier's elements that breaks at the first phone not yet held.
   */
  function FirstNew(cands: seq<Option<string>>, i: nat, held: seq<string>): (r: Option<string>)
    requires i <= |cands|
    ensures r.Some? ==> IsNew(r, held) && r in cands
    decreases |cands| - i
  {
    if i == |cands| then None
    else if IsNew(cands[i], held) then cands[i]
    else FirstNew(cands, i + 1, held)
  }

  /**
   * `FirstNew` yields the first cleaned item that is a new phone, and
   * nothing only when no item is.
   */
  lemma {:induction false} FirstNewIsFirst(cands: seq<Option<string>>, i: nat, held: seq<string>)
    requires i <= |cands|
    ensures FirstNew(cands, i, held).Some? ==>
              exists j :: i <= j < |cands| && cands[j] == FirstNew(cands, i, held) &&
                          forall j' :: i <= j' < j ==> !IsNew(cands[j'], held)
    ensures FirstNew(cands, i, held).None? ==> forall j :: i <= j < |cands| ==> !IsNew(cands[j], held)
    decreases |cands| - i
  {
    if i < |cands| && !IsNew(cands[i], held) {
      FirstNewIsFirst(cands, i + 1, held);
    }
  }

  /** The first new candidate of the first tier that has one. */
  function Prioritized(tel: seq<Option<string>>, bold: seq<Option<string>>, text: seq<Option<string>>, held: seq<string>): (r: Option<string>)
    ensures r.Some? ==> IsNew(r, held) && (r in tel || r in bold || r in text)
  {
    var first := FirstNew(tel, 0, held);
    if first.Some? then first
    else
      var second := FirstNew(bold, 0, held);
      if second.Some? then second
      else FirstNew(text, 0, held)
  }

  /** The phone a revealed modal yields: tel links, then bold texts, then the text's matches. */
  function Reveal(m: Modal, held: seq<string>): (r: Option<string>)
    ensures r.Some? ==> r.value !in held && IsCanonical(r.value)
  {
    CleanedAreCanonical(TelLink, m.telHrefs);
    CleanedAreCanonical(BoldText, m.boldTexts);
    CleanedAreCanonical(TextMatch, FindAll(m.text));
    Prioritized(Cleaned(TelLink, m.telHrefs), Cleaned(BoldText, m.boldTexts), Cleaned(TextMatch, FindAll(m.text)), held)
  }

  /** No candidate of the tier is a phone that is not yet held. */
  ghost predicate NoneNew(cands: seq<Option<string>>, held: seq<string>) {
    forall c :: c in cands ==> !IsNew(c, held)
  }

  /**
   * A revealed modal yields nothing exactly when every candidate of every
   * tier is rejected by `clean_phone` or already held.
   */
  lemma RevealFailsOnlyWhenAllRejected(m: Modal, held: seq<string>)
    ensures Reveal(m, held).None? <==>
              NoneNew(Cleaned(TelLink, m.telHrefs), held) &&
              NoneNew(Cleaned(BoldText, m.boldTexts), held) &&
              NoneNew(Cleaned(TextMatch, FindAll(m.text)), held)
  {
    var tel, bold, text := Cleaned(TelLink, m.telHrefs), Cleaned(BoldText, m.boldTexts), Cleaned(TextMatch, FindAll(m.text));
    FirstNewIsFirst(tel, 0, held);
    FirstNewIsFirst(bold, 0, held);
    FirstNewIsFirst(text, 0, held);
  }

  /** The candidate at `j` is new and none before it is. */
  ghost predicate FirstNewAt(cands: seq<Option<string>>, j: int, held: seq<string>) {
    0 <= j < |cands| && IsNew(cands[j], held) && forall j' :: 0 <= j' < j ==> !IsNew(cands[j'], held)
  }

  /**
   * `r` is the first new candidate of the first tier that has one, or
   * nothing: `tel`, then `bold`, then `text`.
   */
  ghost predicate IsFirstOfFirstTier(r: Option<string>, tel: seq<Option<string>>, bold: seq<Option<string>>,
                                     text: seq<Option<string>>, held: seq<string>) {
    r.Some? ==>
      (exists j :: FirstNewAt(tel, j, held) && r == tel[j]) ||
      (NoneNew(tel, held) && exists j :: FirstNewAt(bold, j, held) && r == bold[j]) ||
      (NoneNew(tel, held) && NoneNew(bold, held) && exists j :: FirstNewAt(text, j, held) && r == text[j])
  }

  lemma {:induction false} PrioritizedIsFirstOfFirstTier(tel: seq<Option<string>>, bold: seq<Option<string>>,
                                                         text: seq<Option<string>>, held: seq<string>)
    ensures IsFirstOfFirstTier(Prioritized(tel, bold, text, held), tel, bold, text, held)
  {
    FirstNewIsFirst(tel, 0, held);
    FirstNewIsFirst(bold, 0, held);
    FirstNewIsFirst(text, 0, held);
  }

  /**
   * A phone a revealed modal yields is the first new candidate of the first
   * tier that has one: tel links, then bold texts, then the text's matches.
   */
  lemma RevealIsFirstOfFirstTier(m: Modal, held: seq<string>)
    ensures IsFirstOfFirstTier(Reveal(m, held), Cleaned(TelLink, m.telHrefs), Cleaned(BoldText, m.boldTexts),
                               Cleaned(TextMatch, FindAll(m.text)), held)
  {
    PrioritizedIsFirstOfFirstTier(Cleaned(TelLink, m.telHrefs), Cleaned(BoldText, m.boldTexts),
                                  Cleaned(TextMatch, FindAll(m.text)), held);
  }

  /**
   * A later tier is looked at only when the earlier ones yield nothing: a
   * tel link that gives a new phone decides, whatever the other tiers hold.
   */
  lemma EarlierTierDecides(m1: Modal, m2: Modal, held: seq<string>)
    requires m1.telHrefs == m2.telHrefs
    requires m1.boldTexts == m2.boldTexts || FirstNew(Cleaned(TelLink, m1.telHrefs), 0, held).Some?
    requires FirstNew(Cleaned(TelLink, m1.telHrefs), 0, held).Some? || FirstNew(Cleaned(BoldText, m1.boldTexts), 0, held).Some?
    ensures Reveal(m1, held) == Reveal(m2, held)
  {
  }

  /** `held` with the found phone appended when it is not already there. */
  function Append(found: Option<string>, held: seq<string>): seq<string> {
    if found.Some? && found.value !in held then held + [found.value] else held
  }

  /** `after` is `before`, or `before` with one new canonical phone appended. */
  ghost predicate AddsAtMostOne(before: seq<string>, after: seq<string>) {
    after == before ||
    (|after| == |before| + 1 && after[..|before|] == before &&
     after[|before|] !in before && IsCanonical(after[|before|]))
  }

  ghost predicate NoDuplicates(s: seq<string>) {
    forall i, j :: 0 <= i < j < |s| ==> s[i] != s[j]
  }

  ghost predicate AllCanonical(s: seq<string>) {
    forall i :: 0 <= i < |s| ==> IsCanonical(s[i])
  }

  lemma AddsAtMostOneKeepsInvariant(before: seq<string>, after: seq<string>)
    requires AddsAtMostOne(before, after)
    requires NoDuplicates(before) && AllCanonical(before)
    ensures NoDuplicates(after) && AllCanonical(after) && |after| <= |before| + 1
  {
    if after != before {
      forall i, j | 0 <= i < j < |after| ensures after[i] != after[j] {
        if j == |before| {
          assert after[i] == before[i];
        } else {
          assert after[i] == before[i] && after[j] == before[j];
        }
      }
      forall i | 0 <= i < |after| ensures IsCanonical(after[i]) {
        if i < |before| {
          assert after[i] == before[i];
        }
      }
    }
  }

  /** The phones held so far and the DOM actions taken so far. */
  datatype State = State(phones: seq<string>, events: seq<Event>)

  /** The span shows a truncated number, so the number is hidden behind the modal. */
  predicate IsHidden(c: Container) {
    c.span.Shown? && HasEllipsis(Strip(c.span.text))
  }

  /** The container is hidden and has a show-phone button, so the scraper clicks it. */
  predicate IsRevealed(c: Container) {
    IsHidden(c) && c.button.ShowPhone?
  }

  /** The event is one the container's contents call for. */
  ghost predicate Justifies(c: Container, e: Event) {
    match e
    case Inspected(_) => true
    case Clicked(_) => IsRevealed(c)
    case Awaited(_, sel) => IsRevealed(c) && sel == ModalSelector(c.button.dataTarget)
    case Closed(_) => IsRevealed(c) && c.outcome.Appeared? && c.outcome.modal.dismissal == CloseControl
    case ForceHidden(_) => IsRevealed(c) && c.outcome.Appeared? && c.outcome.modal.dismissal == NoCloseControl
  }

  function DismissEvents(d: Dismissal, k: nat): seq<Event> {
    match d
    case CloseControl => [Closed(k)]
    case NoCloseControl => [ForceHidden(k)]
    case HideFails => []
  }

  /**
   * The phone one container yields, with `held` found before it: the
   * visible number when the span is not truncated, otherwise the number its
   * modal reveals. Every failure inside the container yields nothing.
   */
  function Found(c: Container, held: seq<string>): (r: Option<string>)
    ensures r.Some? ==> IsCanonical(r.value)
  {
    match c.span
    case NoSpan => None
    case Shown(raw) =>
      var shown := Strip(raw);
      if !HasEllipsis(shown) then CleanPhone(shown)
      else
        match c.button
        case NoButton => None
        case ShowPhone(_) =>
          match c.outcome
          case Timeout => None
          case Appeared(m) => Reveal(m, held)
  }

  /** The phones held after one container: its phone is appended when it is new. */
  function Gain(c: Container, held: seq<string>): (r: seq<string>)
    ensures AddsAtMostOne(held, r)
  {
    Append(Found(c, held), held)
  }

  /**
   * The DOM actions on the container at index `k`: it is inspected, and only
   * a hidden one with a button is clicked, waited on and then dismissed as
   * its modal allows.
   */
  function Actions(c: Container, k: nat): (es: seq<Event>)
    ensures es != [] && es[0] == Inspected(k)
  {
    if !IsRevealed(c) then [Inspected(k)]
    else
      var clicked := [Inspected(k), Clicked(k), Awaited(k, ModalSelector(c.button.dataTarget))];
      match c.outcome
      case Timeout => clicked
      case Appeared(m) => clicked + DismissEvents(m.dismissal, k)
  }

  /** Every action is on the container itself and is one its contents call for. */
  lemma ActionsAreJustified(c: Container, k: nat)
    ensures forall e :: e in Actions(c, k) ==> e.container == k && Justifies(c, e)
  {
    if IsRevealed(c) && c.outcome.Appeared? {
      var clicked := [Inspected(k), Clicked(k), Awaited(k, ModalSelector(c.button.dataTarget))];
      assert Actions(c, k) == clicked + DismissEvents(c.outcome.modal.dismissal, k);
    }
  }

  /** One container of the loop, at index `k`, with `held` phones already found. */
  function Step(c: Container, k: nat, held: seq<string>): State {
    State(Gain(c, held), Actions(c, k))
  }

  /** One step of the container loop: the container, its index and the phones held. */
  type StepFn = (Container, nat, seq<string>) -> State

  /** `step` gives what `Step` gives wherever `Step` is looked at. */
  ghost predicate Agrees(step: StepFn) {
    forall c, k, held {:trigger Step(c, k, held)} :: step(c, k, held) == Step(c, k, held)
  }

  /** Every step keeps the phones held and appends at most one new canonical phone. */
  ghost predicate AddsAtMostOneEach(step: StepFn) {
    forall c, k, held :: AddsAtMostOne(held, step(c, k, held).phones)
  }

  /** Every action a step takes is on its own container and is one the container calls for. */
  ghost predicate ActsOnItsContainer(step: StepFn) {
    forall c, k, held, e :: e in step(c, k, held).events ==> e.container == k && Justifies(c, e)
  }

  lemma StepIsSound()
    ensures AddsAtMostOneEach(Step) && ActsOnItsContainer(Step)
  {
    forall c, k, held ensures forall e :: e in Step(c, k, held).events ==> e.container == k && Justifies(c, e) {
      ActionsAreJustified(c, k);
    }
  }

  /**
   * The state after the loop has run `step` over the first `n` containers:
   * once two phones are held, a container is neither inspected nor clicked.
   * `extract_phones` runs it with `Step`.
   */
  function Scan(step: StepFn, cs: seq<Container>, n: nat): State
    requires n <= |cs|
    decreases n
  {
    if n == 0 then State([], [])
    else
      var s := Scan(step, cs, n - 1);
      if |s.phones| >= 2 then s
      else
        var r := step(cs[n - 1], n - 1, s.phones);
        State(r.phones, s.events + r.events)
  }

  /**
   * When every step appends at most one new canonical phone, the scan holds
   * at most two phones, none twice, each in the `DD DDDD DDDD` form.
   */
  lemma {:induction false} ScanKeepsInvariant(step: StepFn, cs: seq<Container>, n: nat)
    requires n <= |cs| && AddsAtMostOneEach(step)
    ensures var s := Scan(step, cs, n); |s.phones| <= 2 && NoDuplicates(s.phones) && AllCanonical(s.phones)
    decreases n
  {
    if n > 0 {
      ScanKeepsInvariant(step, cs, n - 1);
      var s := Scan(step, cs, n - 1);
      if |s.phones| < 2 {
        AddsAtMostOneKeepsInvariant(s.phones, step(cs[n - 1], n - 1, s.phones).phones);
      }
    }
  }

  /** While fewer than two phones are held, the next container is one more step. */
  lemma ScanAdvances(step: StepFn, cs: seq<Container>, n: nat, next: State)
    requires n < |cs| && |Scan(step, cs, n).phones| < 2
    requires step(cs[n], n, Scan(step, cs, n).phones) == next
    ensures Scan(step, cs, n + 1) == State(next.phones, Scan(step, cs, n).events + next.events)
  {
  }

  /** `extract_phones`: the phones found on the page, cut to two, and the actions taken. */
  function Extract(page: Page): (r: State)
    ensures |r.phones| <= 2 && NoDuplicates(r.phones) && AllCanonical(r.phones)
    ensures !page.Loaded? ==> r == State([], [])
    ensures page.Loaded? ==> r == Scan(Step, page.containers, |page.containers|)
  {
    match page
    case NavigationFailed => State([], [])
    case ContainerLookupFailed => State([], [])
    case Loaded(cs) =>
      StepIsSound();
      ScanKeepsInvariant(Step, cs, |cs|);
      var s := Scan(Step, cs, |cs|);
      State(s.phones[..if |s.phones| < 2 then |s.phones| else 2], s.events)
  }

  /** Once two phones are held, the remaining containers change nothing. */
  lemma {:induction false} ScanStopsAtTwo(step: StepFn, cs: seq<Container>, i: nat, n: nat)
    requires i <= n <= |cs| && |Scan(step, cs, i).phones| >= 2
    ensures Scan(step, cs, n) == Scan(step, cs, i)
    decreases n
  {
    if n > i {
      ScanStopsAtTwo(step, cs, i, n - 1);
    }
  }

  ghost predicate IsPrefix<T>(a: seq<T>, b: seq<T>) {
    |a| <= |b| && b[..|a|] == a
  }

  lemma PrefixTransitive<T>(a: seq<T>, b: seq<T>, c: seq<T>)
    requires IsPrefix(a, b) && IsPrefix(b, c)
    ensures IsPrefix(a, c)
  {
    assert c[..|a|] == c[..|b|][..|a|];
  }

  /** Phones and actions of earlier containers are kept, in order, by later ones. */
  lemma {:induction false} ScanKeepsEarlier(step: StepFn, cs: seq<Container>, i: nat, n: nat)
    requires i <= n <= |cs| && AddsAtMostOneEach(step)
    ensures IsPrefix(Scan(step, cs, i).phones, Scan(step, cs, n).phones)
    ensures IsPrefix(Scan(step, cs, i).events, Scan(step, cs, n).events)
    decreases n
  {
    if n > i {
      ScanKeepsEarlier(step, cs, i, n - 1);
      var s, t := Scan(step, cs, n - 1), Scan(step, cs, n);
      if |s.phones| < 2 {
        assert t.events[..|s.events|] == s.events;
      }
      PrefixTransitive(Scan(step, cs, i).phones, s.phones, t.phones);
      PrefixTransitive(Scan(step, cs, i).events, s.events, t.events);
    }
  }

  /**
   * Every action belongs to a container that was reached while fewer than
   * two phones were held, and is one that container calls for: only a
   * hidden container with a button is clicked, waited on and dismissed,
   * with the selector its `data-target` gives.
   */
  lemma {:induction false} ScanEventsJustified(step: StepFn, cs: seq<Container>, n: nat)
    requires n <= |cs| && ActsOnItsContainer(step)
    ensures forall e :: e in Scan(step, cs, n).events ==>
              e.container < n && |Scan(step, cs, e.container).phones| < 2 && Justifies(cs[e.container], e)
    decreases n
  {
    if n > 0 {
      ScanEventsJustified(step, cs, n - 1);
      var s := Scan(step, cs, n - 1);
      if |s.phones| < 2 {
        var r := step(cs[n - 1], n - 1, s.phones);
        forall e | e in r.events
          ensures e.container < n && |Scan(step, cs, e.container).phones| < 2 && Justifies(cs[e.container], e)
        {
          assert e.container == n - 1;
        }
      }
    }
  }

  /** The container yields nothing: no span, or hidden with no button or no modal. */
  predicate Fails(c: Container) {
    c.span.NoSpan? || (IsHidden(c) && (c.button.NoButton? || c.outcome.Timeout?))
  }

  /** A failing container leaves the phones as they were and the scan goes on. */
  lemma FailureIsIsolated(cs: seq<Container>, j: nat)
    requires j < |cs| && Fails(cs[j])
    ensures Scan(Step, cs, j + 1).phones == Scan(Step, cs, j).phones
  {
  }

  /** A hidden container's shown text plays no part beyond the truncation test. */
  lemma HiddenTextIsNotRead(c1: Container, c2: Container, k: nat, held: seq<string>)
    requires IsHidden(c1) && IsHidden(c2)
    requires c1.button == c2.button && c1.outcome == c2.outcome
    ensures Step(c1, k, held) == Step(c2, k, held)
  {
  }

  /** A visible container's button and modal play no part. */
  lemma VisibleNeedsNoModal(c1: Container, c2: Container, k: nat, held: seq<string>)
    requires c1.span == c2.span && c1.span.Shown? && !IsHidden(c1)
    ensures Step(c1, k, held) == Step(c2, k, held)
    ensures Step(c1, k, held).events == [Inspected(k)]
  {
  }

  lemma TelHasNoDigits()
    ensures Digits("tel:") == []
  {
    var t := "tel:";
    assert !IsDigit(t[0]) && !IsDigit(t[1]) && !IsDigit(t[2]) && !IsDigit(t[3]);
    DigitsOfNoDigits(t);
  }

  /** Removing `tel:` from a link target never changes what `clean_phone` makes of it. */
  lemma TelPrefixIsIrrelevant(href: string)
    ensures CleanPhone(Candidate(TelLink, href)) == CleanPhone(href)
  {
    TelHasNoDigits();
    RemoveAllKeepsDigits(href, "tel:");
    StripKeepsDigits(RemoveAll(href, "tel:"));
  }

  /**
   * Every match of the grouped-digits pattern is accepted by `clean_phone`,
   * so the text tier yields nothing only when all its matches are held.
   */
  lemma TextTierRejectsOnlyDuplicates(text: string, held: seq<string>)
    ensures forall m :: m in FindAll(text) ==> CleanPhone(m).Some?
    ensures FirstNew(Cleaned(TextMatch, FindAll(text)), 0, held).None? ==>
              forall m :: m in FindAll(text) ==> CleanPhone(m).value in held
  {
    var ms := FindAll(text);
    var cs := Cleaned(TextMatch, ms);
    FirstNewIsFirst(cs, 0, held);
    if FirstNew(cs, 0, held).None? {
      forall m | m in ms ensures CleanPhone(m).value in held {
        var j :| 0 <= j < |ms| && ms[j] == m;
        CleanedAt(TextMatch, ms, j);
        assert !IsNew(cs[j], held);
      }
    }
  }

  /** A span that does not look truncated gives what `clean_phone` makes of its text, whatever the button and the modal. */
  lemma VisibleSpanScenario(t: string, b: Button, o: ModalOutcome, held: seq<string>)
    requires !HasEllipsis(Strip(t))
    ensures Gain(Container(Shown(t), b, o), held) == Append(CleanPhone(t), held)
  {
    StripKeepsDigits(t);
  }

  /** A span showing a full phone gives that phone, whatever the button and the modal. */
  lemma VisiblePhoneScenario(p: string, b: Button, o: ModalOutcome, held: seq<string>)
    requires IsCanonical(p)
    ensures Gain(Container(Shown(p), b, o), held) == if p in held then held else held + [p]
  {
    CanonicalIsStripped(p);
    CanonicalHasNoEllipsis(p);
    CleanPhoneIdempotent(p);
  }

  /** A revealed modal whose first link is `tel:` + ten digits gives those digits grouped, when new. */
  lemma TelLinkScenario(d: string, hrefs: seq<string>, bold: seq<string>, text: string, how: Dismissal, held: seq<string>)
    requires |d| == 10 && AllDigits(d) && Group(d) !in held
    ensures Reveal(Modal(["tel:" + d] + hrefs, bold, text, how), held) == Some(Group(d))
  {
    TelPrefixIsIrrelevant("tel:" + d);
    TelHasNoDigits();
    CleanPhoneAfterPrefix("tel:", d);
    var hs := ["tel:" + d] + hrefs;
    assert hs[0] == "tel:" + d;
    CleanedAt(TelLink, hs, 0);
  }

  /** A hidden container whose modal never appears yields nothing, whatever its span shows. */
  lemma TimeoutScenario(shown: string, target: Option<string>, held: seq<string>)
    requires HasEllipsis(Strip(shown))
    ensures Gain(Container(Shown(shown), ShowPhone(target), Timeout), held) == held
  {
  }

  /** A hidden container with a button whose modal appears gains what the modal reveals. */
  lemma RevealedContainerGain(t: string, target: Option<string>, m: Modal, held: seq<string>)
    requires HasEllipsis(Strip(t))
    ensures Gain(Container(Shown(t), ShowPhone(target), Appeared(m)), held) == Append(Reveal(m, held), held)
  {
  }

  /**
   * A modal whose only phone is in its text, written `DD DDDD DDDD` after
   * text without digits, gives that phone, when new.
   */
  lemma TextMatchScenario(w: string, d: string, how: Dismissal, held: seq<string>)
    requires Digits(w) == [] && |d| == 10 && AllDigits(d) && Group(d) !in held
    ensures Reveal(Modal([], [], w + Group(d), how), held) == Some(Group(d))
  {
    var g := Group(d);
    GroupIsCanonical(d);
    FindAllAfterDigitFree(w, g);
    CleanPhoneIdempotent(g);
    assert FindAll(w + g) == [g];
    CleanedAt(TextMatch, [g], 0);
  }

  /**
   * The whole page: one container whose number is hidden and whose modal
   * holds a single `tel:` link gives exactly that phone.
   */
  lemma HiddenTelLinkPage(t: string, target: Option<string>, d: string, how: Dismissal)
    requires HasEllipsis(Strip(t)) && |d| == 10 && AllDigits(d)
    ensures Extract(Loaded([Container(Shown(t), ShowPhone(target), Appeared(Modal(["tel:" + d], [], "", how)))])).phones == [Group(d)]
  {
    var m := Modal(["tel:" + d], [], "", how);
    TelLinkScenario(d, [], [], "", how, []);
    assert ["tel:" + d] + [] == m.telHrefs;
    var cs := [Container(Shown(t), ShowPhone(target), Appeared(m))];
    RevealedContainerGain(t, target, m, []);
    assert Gain(cs[0], []) == [Group(d)];
    assert Scan(Step, cs, 1).phones == Gain(cs[0], []);
  }
}
