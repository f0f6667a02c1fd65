/**
 * `extract_phones` as the scraper runs it: a loop over the containers that
 * breaks at two phones, and inside a hidden container the three tier loops
 * that each break at the first new phone. Every method is proved to compute
 * what the functions of `Extraction` describe.
 */
module Extractor {
  import opened Wrappers
  import opened Text
  import opened Phone
  import opened PhonePattern
  import opened ModalId
  import opened Page
  import opened Extraction

  /** One element of a tier loop: clean it and append it when it is a phone not yet held. */
  method TryItem(tier: Tier, raw: string, phones: seq<string>) returns (phones': seq<string>, extracted: bool)
    ensures extracted <==> IsNew(CleanPhone(Candidate(tier, raw)), phones)
    ensures phones' == Append(CleanPhone(Candidate(tier, raw)), phones)
  {
    var cleaned := CleanPhone(Candidate(tier, raw));
    phones', extracted := phones, false;
    if cleaned.Some? && cleaned.value !in phones {
      phones', extracted := phones + [cleaned.value], true;
    }
  }

  /**
   * One tier loop: walk the raw items, clean each one and append the first
   * phone not yet held, then stop; `extracted` tells whether one was found.
   */
  method ScanTier(tier: Tier, raws: seq<string>, phones: seq<string>) returns (phones': seq<string>, extracted: bool)
    ensures extracted <==> FirstNew(Cleaned(tier, raws), 0, phones).Some?
    ensures phones' == Append(FirstNew(Cleaned(tier, raws), 0, phones), phones)
  {
    ghost var cands := Cleaned(tier, raws);
    phones', extracted := phones, false;
    var i := 0;
    while i < |raws|
      invariant i <= |raws|
      invariant phones' == phones && !extracted
      invariant FirstNew(cands, 0, phones) == FirstNew(cands, i, phones)
    {
      CleanedAt(tier, raws, i);
      phones', extracted := TryItem(tier, raws[i], phones);
      if extracted {
        break;
      }
      i := i + 1;
    }
  }

  /** The tiers of a revealed modal, each tried only while no phone has been extracted. */
  method RevealPhone(m: Modal, phones: seq<string>) returns (phones': seq<string>)
    ensures phones' == Append(Reveal(m, phones), phones)
  {
    var extracted;
    phones', extracted := ScanTier(TelLink, m.telHrefs, phones);
    if !extracted {
      phones', extracted := ScanTier(BoldText, m.boldTexts, phones');
    }
    if !extracted {
      var matches := FindAll(m.text);
      phones', extracted := ScanTier(TextMatch, matches, phones');
    }
  }

  /** The body of the container loop for the container at index `k`. */
  method ProcessContainer(c: Container, k: nat, phones: seq<string>) returns (phones': seq<string>, events: seq<Event>)
    ensures State(phones', events) == Step(c, k, phones)
  {
    phones', events := phones, [Inspected(k)];
    match c.span {
      case NoSpan =>
      case Shown(raw) =>
        var partial := Strip(raw);
        if HasEllipsis(partial) {
          match c.button {
            case NoButton =>
            case ShowPhone(target) =>
              events := events + [Clicked(k)];
              var selector := ModalSelector(target);
              events := events + [Awaited(k, selector)];
              ghost var clicked := events;
              assert clicked == [Inspected(k), Clicked(k), Awaited(k, selector)];
              match c.outcome {
                case Timeout =>
                case Appeared(m) =>
                  phones' := RevealPhone(m, phones);
                  match m.dismissal {
                    case CloseControl => events := events + [Closed(k)];
                    case NoCloseControl => events := events + [ForceHidden(k)];
                    case HideFails =>
                  }
                  assert events == clicked + DismissEvents(m.dismissal, k);
              }
          }
        } else {
          var cleaned := CleanPhone(partial);
          if cleaned.Some? && cleaned.value !in phones {
            phones' := phones + [cleaned.value];
          }
        }
    }
  }

  /** One pass of the container loop, taken while fewer than two phones are held. */
  method ScanNext(ghost step: StepFn, cs: seq<Container>, i: nat, phones: seq<string>, trace: seq<Event>)
    returns (phones': seq<string>, trace': seq<Event>)
    requires Agrees(step) && i < |cs| && |phones| < 2
    requires State(phones, trace) == Scan(step, cs, i)
    ensures State(phones', trace') == Scan(step, cs, i + 1)
  {
    var events;
    phones', events := ProcessContainer(cs[i], i, phones);
    ScanAdvances(step, cs, i, State(phones', events));
    trace' := trace + events;
  }

  /**
   * The container loop: each container in turn, until two phones are held.
   * The ghost `step` is the scan's step as the proof sees it; `ExtractPhones`
   * passes `Step` itself.
   */
  method ScanContainers(ghost step: StepFn, cs: seq<Container>) returns (phones: seq<string>, trace: seq<Event>)
    requires Agrees(step)
    ensures State(phones, trace) == Scan(step, cs, |cs|)
  {
    phones, trace := [], [];
    var i := 0;
    while i < |cs|
      invariant i <= |cs|
      invariant State(phones, trace) == Scan(step, cs, i)
    {
      if |phones| >= 2 {
        ScanStopsAtTwo(step, cs, i, |cs|);
        break;
      }
      phones, trace := ScanNext(step, cs, i, phones, trace);
      i := i + 1;
    }
  }

  /**
   * `extract_phones`: the phones found on the page, at most two, and the DOM
   * actions taken, in order.
   */
  method ExtractPhones(page: Page) returns (phones: seq<string>, trace: seq<Event>)
    ensures State(phones, trace) == Extract(page)
  {
    phones, trace := [], [];
    if page.Loaded? {
      phones, trace := ScanContainers(Step, page.containers);
      phones := phones[..if |phones| < 2 then |phones| else 2];
    }
  }
}
