/**
 * A profile page as the extractor sees it. The browser is replaced by what
 * the code would read from each phone container, in document order, and the
 * DOM actions it takes (clicks, waits, closing a modal) become trace events.
 */
module Page {
  import opened Wrappers
  import opened ModalId

  /** The text of the `shrinked-number` span; `NoSpan` also covers a failure while reading it. */
  datatype Span = NoSpan | Shown(text: string)

  /** The `show-phone-number-modal` button and its `data-target` attribute. */
  datatype Button = NoButton | ShowPhone(dataTarget: Option<string>)

  /**
   * How the opened modal is dismissed: by clicking its close control, by
   * hiding it and removing the backdrops when it has none, or not at all
   * because hiding it raises.
   */
  datatype Dismissal = CloseControl | NoCloseControl | HideFails

  /** What the modal holds: the `tel:` link targets, the `b`/`strong` texts and its full text. */
  datatype Modal = Modal(telHrefs: seq<string>, boldTexts: seq<string>, text: string, dismissal: Dismissal)

  /** The result of waiting for the modal after a click. */
  datatype ModalOutcome = Timeout | Appeared(modal: Modal)

  /** One `gdpr-show-number-block` container. */
  datatype Container = Container(span: Span, button: Button, outcome: ModalOutcome)

  /**
   * The page after navigation: navigation or the wait for `body` failed,
   * the lookup of the containers raised, or the containers in document order.
   */
  datatype Page = NavigationFailed | ContainerLookupFailed | Loaded(containers: seq<Container>)

  /** The DOM actions taken for the container at index `container`. */
  datatype Event =
    | Inspected(container: nat)                     // its span was looked up
    | Clicked(container: nat)                       // its show-phone button was clicked
    | Awaited(container: nat, selector: Selector)   // the modal was waited for
    | Closed(container: nat)                        // the modal's close control was clicked
    | ForceHidden(container: nat)                   // the modal was hidden and the backdrops removed
}
