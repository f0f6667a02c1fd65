# Doctoralia phone scraper: a verified model of its core

`newday.py` reads a spreadsheet of Doctoralia profile URLs, opens each
profile in a browser, collects up to two phone numbers per profile and writes
them into the `Phone1` and `Phone2` columns. It saves the sheet every ten
processed profiles and once more at the end. This project models the
deterministic core of that program in Dafny and proves properties of it.

- **`clean_phone`** keeps the digits of a text. It accepts exactly ten and
  renders them as `DD DDDD DDDD` (modules `Text`, `Phone`).
- **`extract_phones`** models a profile page as the sequence of its
  `gdpr-show-number-block` containers. For each container the model records
  what the code would read:
  - the `shrinked-number` span, if present;
  - the show-phone button and its `data-target`;
  - what waiting for the modal produces (a timeout, or a modal with tel
    links, bold texts, full text and a way to dismiss it).

  The functions in `Extraction` describe what the loop computes. The methods
  in `Extractor` are the loops themselves and are proved to compute exactly
  that. The DOM actions (inspect, click, wait, close, force-hide) are kept as
  a trace of events.
- **Modal id parsing** reads the `data-id='…` id from `data-target` and falls
  back to the generic phone-modal selector (module `ModalId`). The
  `\d{2}\s?\d{4}\s?\d{4}` scan of the modal text is module `PhonePattern`.
- **`process_excel_file`** is covered by two modules:
  - `Sheet` holds the functions: the row range, URL normalisation, the two
    phone cells, the error text, and the sweep that saves every tenth
    processed profile plus once at the end.
  - `Batch` is the loop over an `array<Row>` rewritten in place. The web is a
    function from URL to `Page`, so `extract_phones` acts as an oracle inside
    the loop.

Digits are `'0'..'9'` and whitespace is the six ASCII whitespace
characters. Python's Unicode classes for `\d` and `\s` are not modelled.

The default `start_row` of 2 gives `start_index` 1, so the first data row
(frame row 0) is never visited. The code's log messages number rows
`index + 1`, so with the default it starts at its own "row 2".
`Sheet.DefaultStartSkipsFirstRow` states this.

## Model

| member | source | states |
|---|---|---|
| Text.DigitsAreDigits | newday.py:84 | the `\D`-stripped text holds only digits |
| Text.StripKeepsDigits | newday.py:115 | `strip()` never adds or removes a digit |
| Text.HasEllipsisIff | newday.py:117 | the `"..." in s` test holds exactly when `...` occurs at some position |
| Text.RemoveAllKeepsDigits | newday.py:151 | `replace(pat, '')` of a digit-free pattern keeps every digit, in order |
| Phone.CleanPhone | newday.py:74-87 | a value exactly when the text holds ten digits; the value is `DD DDDD DDDD` with the text's digits in order |
| Phone.GroupIsCanonical | newday.py:86 | grouping ten digits gives the 12-character `DD DDDD DDDD` form |
| Phone.GroupKeepsDigits | newday.py:86 | grouping keeps exactly the ten digits, in order |
| Phone.CleanPhoneIdempotent | newday.py:84-87 | `clean_phone` of its own output returns that output |
| Phone.CanonicalDeterminedByDigits | newday.py:84-87 | two outputs with the same digits are the same string |
| Phone.CleanPhoneAfterPrefix | newday.py:84-86 | ten digits behind a digit-free prefix are read as those digits, grouped |
| Phone.CanonicalIsStripped | newday.py:115 | `strip()` leaves an output of `clean_phone` unchanged |
| Phone.CanonicalHasNoEllipsis | newday.py:117 | an output of `clean_phone` never looks truncated |
| PhonePattern.MatchAt | newday.py:172 | a match of the grouped-digits pattern spans at least ten characters and holds exactly ten digits |
| PhonePattern.MatchHasTenDigits | newday.py:172 | two, four and four digits with optional single whitespace between them hold ten digits |
| PhonePattern.FindAllFrom | newday.py:172 | every match from a position on holds exactly ten digits |
| PhonePattern.FindAll | newday.py:172 | every `findall` match holds exactly ten digits |
| PhonePattern.MatchAtIsShape | newday.py:172 | a match is found at a position exactly when the pattern (two digits, optional whitespace, four digits, optional whitespace, four digits) matches there, and it ends where the pattern's match ends |
| PhonePattern.ShapeIsFound | newday.py:172 | wherever the pattern matches, the greedy `\s?` scan finds that same match |
| PhonePattern.FindAllFromSkips | newday.py:172 | positions where the pattern does not match are passed over |
| PhonePattern.FindAllFromFindsFirst | newday.py:172 | the first position where the pattern matches gives the first match returned, and the scan resumes at its end |
| PhonePattern.FindAllFromEmptyIff | newday.py:172 | nothing is returned exactly when the pattern matches nowhere from the position on |
| PhonePattern.FindAllAfterDigitFree | newday.py:172 | digit-free text followed by `DD DDDD DDDD` holds exactly that one match |
| ModalId.RunLength | newday.py:131 | the run after the marker holds no quote and ends at a quote or at the end |
| ModalId.SearchFrom | newday.py:131-133 | an id exactly when the pattern matches from the position on, and then the maximal non-quote run after the first match |
| ModalId.ParseModalId | newday.py:129-133 | an id exactly when `data-id='` is followed by a non-quote character, and then the maximal non-quote run after the first such marker |
| ModalId.ModalSelector | newday.py:129-143 | waits by id exactly when `data-target` is present and holds an id, and that id is the one `ParseModalId` extracts from it; the id is non-empty and quote-free; otherwise the generic phone-modal selector |
| ModalId.RunIsRunLength | newday.py:131 | the maximal non-quote run has one length only |
| ModalId.IdNeedsNoClosingQuote | newday.py:131-133 | `data-id='` + id + nothing or a quote yields the id, so no closing quote is needed |
| Extraction.Cleaned | newday.py:150-152 | one `clean_phone` result per raw item of a tier |
| Extraction.CleanedAt | newday.py:150-152 | the j-th result is `clean_phone` of the j-th item's candidate text |
| Extraction.CleanedAreCanonical | newday.py:152 | every phone a tier yields is in canonical form |
| Extraction.FirstNew | newday.py:150-157 | the tier loop adds a phone that is not yet held and comes from the tier |
| Extraction.FirstNewIsFirst | newday.py:150-157 | the tier loop adds the first new candidate, and nothing only when no candidate is new |
| Extraction.Reveal | newday.py:148-179 | a revealed modal yields a canonical phone not yet held that comes from one of its three tiers, or nothing |
| Extraction.Prioritized | newday.py:148-179 | the three gated tier loops yield a phone not yet held taken from one of the tiers, or nothing |
| Extraction.PrioritizedIsFirstOfFirstTier | newday.py:148-179 | the gated tier loops yield the first new candidate of the first tier that has one: a later tier is used only when every earlier tier has no new candidate |
| Extraction.RevealIsFirstOfFirstTier | newday.py:148-179 | a revealed modal's phone is the first new tel-link phone, else the first new bold-text phone, else the first new text match |
| Extraction.RevealFailsOnlyWhenAllRejected | newday.py:148-179 | a modal yields nothing exactly when every candidate of every tier is rejected or already held |
| Extraction.EarlierTierDecides | newday.py:159-179 | a later tier is looked at only when the earlier tiers yield nothing |
| Extraction.Found | newday.py:113-204 | one container yields a canonical phone or nothing |
| Extraction.Gain | newday.py:148-204 | one container keeps the phones held and appends at most one new canonical phone |
| Extraction.Actions | newday.py:113-125 | a container's actions start with the span lookup on that container |
| Extraction.ActionsAreJustified | newday.py:117-195 | only a truncated container with a button is clicked, waited on with its selector, then closed or force-hidden as its modal allows |
| Extraction.StepIsSound | newday.py:108-204 | every container step adds at most one new phone and acts only on its own container |
| Extraction.ScanKeepsInvariant | newday.py:108-204 | the loop holds at most two phones, none twice, all canonical |
| Extraction.ScanAdvances | newday.py:108-111 | while fewer than two phones are held, the next container is one more step |
| Extraction.Extract | newday.py:89-228 | at most two distinct canonical phones; a failed navigation or lookup gives none and no action; otherwise the `[:2]` cut changes nothing |
| Extraction.ScanStopsAtTwo | newday.py:110-111 | once two phones are held, the remaining containers change nothing |
| Extraction.ScanKeepsEarlier | newday.py:108-213 | phones and actions of earlier containers are kept, in discovery order |
| Extraction.ScanEventsJustified | newday.py:108-195 | every action belongs to a container reached with fewer than two phones held, and is one that container calls for |
| Extraction.FailureIsIsolated | newday.py:197-213 | a container with no span, no button or a timed-out modal leaves the phones unchanged |
| Extraction.HiddenTextIsNotRead | newday.py:117-125 | a truncated span's text is not normalised and plays no part beyond the `...` test |
| Extraction.VisibleNeedsNoModal | newday.py:200-204 | a visible number is read from the span alone and its container is never clicked |
| Extraction.TelPrefixIsIrrelevant | newday.py:151-152 | removing `tel:` and stripping never changes what `clean_phone` makes of a link |
| Extraction.TextTierRejectsOnlyDuplicates | newday.py:170-179 | every regex match is accepted by `clean_phone`, so the text tier fails only when all matches are held |
| Extraction.VisiblePhoneScenario | newday.py:200-204 | a span showing a canonical phone adds it exactly when it is new |
| Extraction.VisibleSpanScenario | newday.py:200-204 | any span text without an ellipsis is cleaned and kept as the container's phone, whatever its button and modal, and added exactly when new |
| Extraction.TelLinkScenario | newday.py:149-157 | a first link `tel:` + ten new digits yields those digits grouped |
| Extraction.TimeoutScenario | newday.py:197-198 | a truncated container whose modal times out adds nothing |
| Extraction.RevealedContainerGain | newday.py:116-179 | a truncated container with a button whose modal appears gains what `Reveal` yields on that modal |
| Extraction.TextMatchScenario | newday.py:170-179 | a modal whose only phone is `DD DDDD DDDD` in its text, after digit-free text, yields that phone when new |
| Extraction.HiddenTelLinkPage | newday.py:103-221 | a page with one truncated container whose modal holds one `tel:` link returns exactly that phone, grouped |
| Extractor.TryItem | newday.py:151-157 | one tier element: appended exactly when it cleans to a phone not yet held |
| Extractor.ScanTier | newday.py:148-179 | the tier loop with its `break` appends the first new phone of the tier and reports whether it found one |
| Extractor.RevealPhone | newday.py:148-179 | the three tier loops, each gated on `phone_extracted`, compute `Reveal` |
| Extractor.ProcessContainer | newday.py:109-213 | the container body computes exactly the phones and actions of one step |
| Extractor.ScanNext | newday.py:108-213 | one pass of the container loop is one step of the scan |
| Extractor.ScanContainers | newday.py:108-213 | the container loop with its break at two phones computes the scan |
| Extractor.ExtractPhones | newday.py:89-228 | `extract_phones` returns exactly the phones and actions of `Extract` |
| Sheet.NormalizeUrl | newday.py:263-264 | the result starts with `http`; an `http` URL is kept; otherwise `https://` followed by the URL without its leading slashes |
| Sheet.NormalizeUrlIdempotent | newday.py:263-264 | normalising twice is normalising once |
| Sheet.NormalizeUrlDropsOnlySlashes | newday.py:264 | what a non-`http` URL loses is leading slashes only |
| Sheet.VisitRow | newday.py:256-283 | blank URL gives `No URL` and is not counted; a non-text value gives `Error: ` + message and is not counted; a URL is counted and its cells are the first phone `extract_phones` finds on the normalised URL or `No phone found`, and the second phone or `""` |
| Sheet.BoundsVisitWanted | newday.py:251-254 | the loop visits the rows from `start_row - 1` that exist, no more than `max_rows` of them when it is truthy |
| Sheet.SweepAdvances | newday.py:254 | one more row of the range is one more pass of the loop |
| Sheet.ProcessSheet | newday.py:238-285 | an empty sheet is never saved; otherwise the last save is the final sheet and the sheet keeps its size |
| Sheet.SweepRows | newday.py:254-269 | each visited row holds its visit's cells and no other row changes |
| Sheet.SweepSaveCadence | newday.py:271-276 | the loop's count goes up by at most one per row; the k-th save holds the count 10 * (k + 1), and there are exactly count / 10 saves |
| Sheet.Counted | newday.py:256-271 | the number of rows in the range that reached `extract_phones` is at most the range's length |
| Sheet.SweepCountsCounted | newday.py:256-271 | the loop's count is the number of rows in the range that reached `extract_phones`; blank and `Error:` rows are not counted |
| Sheet.SweepSavesAreSnapshots | newday.py:271-276 | every save is taken right after a counted row was written, and holds the count and the whole sheet as they stood then, that row included |
| Sheet.DefaultStartSkipsFirstRow | newday.py:251 | with the default `start_row` the first data row is left as it was |
| Batch.ProcessRow | newday.py:256-283 | the loop body computes the row visit, with `extract_phones` on the page the URL leads to |
| Batch.WriteVisit | newday.py:260-276 | the row is written in place and every tenth count saves the sheet |
| Batch.VisitIndex | newday.py:255-283 | one pass of the row loop is one step of the sweep |
| Batch.VisitRange | newday.py:254-283 | the row loop over the range computes the sweep |
| Batch.ProcessExcelFile | newday.py:230-285 | the rows and the saves are exactly those of `ProcessSheet` |

## Left out

- Browser setup, Chrome options, the user agent, proxy flags and the `navigator.webdriver` script: browser plumbing with no effect on results.
- Every `time.sleep` and `random.uniform` delay: timing only.
- JavaScript clicks, modal dismissal, `style.display = 'none'` and backdrop removal. They appear only as trace events, because they do not change the phones returned.
- Reading and writing the workbook (`read_excel`, `to_excel`) and creating the phone columns: file I/O. A save is an abstract event that holds the sheet; rows start with whatever their phone cells held.
- `pd.isna` on NaN: a missing or falsy cell is `Blank`, and a truthy non-text cell is `NonText` carrying the message `startswith` raises.
- Logging, `main()` and `driver.quit`: no effect on the sheet.
- Python's Unicode `\d` and `\s`: only ASCII digits and the six ASCII whitespace characters are modelled.
- Batch.ProcessExcelFile: requires `start_row >= 1`. With a smaller `start_row`, `iloc` counts from the end and `loc` adds rows, which is not modelled.
- A failing save inside the loop (its exception would write `Error: ` over a row already counted) is not modelled; saves always succeed.
- Exceptions raised inside the tier loops (a `get_attribute` or `.text` that fails) are not modelled apart from the hide failure. Such an exception can only come before the container has added a phone, because each append is followed by `break` and the later tiers are skipped once `phone_extracted` is set. For the phones it is therefore the same as a `Timeout`: the container adds nothing and the loop moves on.
- Extraction.Found: the modal found does not depend on the selector waited for. The selector is recorded in the trace, but the page gives one outcome per container.
- `df.loc[index, …]` is read as the row at position `index`, which assumes the default integer row labels that `read_excel` produces.
- `row_index` appears only in log messages and is not modelled.
