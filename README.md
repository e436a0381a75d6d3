# Toxic compliments: the card session, modelled in Dafny

The app shows one "toxic compliment" card at a time. The user can switch between
three categories (corporate, personal, friend), ask a remote text generator for a
new compliment, copy the card's text or a PNG of the card, and browse a short
history of earlier cards. This project models the state behind the card: the
`useState` fields of the `App` component and the handlers that change them. It
also models the small direction cycle that animates the gradient border of the
buttons.

Files:

- `card.dfy` (module `Card`) has the categories and their starter texts, the
  starter test, the `HistoryItem` record, the variant switch of
  `getBackgroundStyle`, and the redraw loop that picks a new background variant.
- `history.dfy` (module `History`) has the bounded ledger. `pushToHistory` puts
  the new item first and keeps at most 15 (`[newItem, ...prev].slice(0, 15)`).
  Lemmas cover the bound, the order, and what repeated archiving keeps and loses.
- `session.dfy` (module `AppSession`) has class `Session`, whose fields are the
  component's state: `category`, `compliment`, `history`, `isLoading`,
  `isCopied`, `isCapturing` and `bgVariant`. Its methods are the handlers.
  `handleGenerate` has one await and is split there into a Start and a
  Complete method, so other UI events can be placed between the halves.
  `handleCopyImage` is split at its first await (`toPng`); `CompleteCapture`
  covers the remaining awaits (`fetch`, `blob`, `clipboard.write`) as one step
  with nothing in between. Those awaits read no session state and write only
  `isCopied` and `isCapturing`. The handlers the UI still lets run in that
  window (category change, generation) write neither, because both copy panels
  are disabled while `isCapturing` is set (App.tsx:295, App.tsx:383). `Generate` and
  `CopyImage` run both halves back to back. Two client methods show what the
  guards rule out: switching category while a generation is pending, and
  starting a second image capture while one is running.
- `hover_border_gradient.dfy` (module `HoverBorderGradient`) has
  `rotateDirection` over the cycle TOP, LEFT, BOTTOM, RIGHT.

Every outside call is an `Attempt` parameter that either returned a value or
threw: the text generator, `htmlToImage.toPng`, `fetch`/`blob` and the clipboard
writes. Whether the clipboard can take images is a boolean parameter.
`Math.random()` is a sequence of draws in [0, 1), and `Date.now()` is a natural
number parameter. A React handler reads the state captured when the component
rendered and schedules its updates. Each handler here reads the fields before it
writes any of them, so plain sequential field updates give the same result.

Two behaviours of the code are worth stating on their own:

- The code does not tag generation requests with the state they were issued
  against. It refuses category switches while `isLoading` is set
  (App.tsx:158), and the category buttons are disabled then too
  (App.tsx:218), so a response can never arrive for a category that is no
  longer shown. `SwitchDuringGenerationIsRefused` proves this.
- The starter test compares the text with the initial texts of all three
  categories, not only the card's own (App.tsx:101). `StarterNeverArchived`
  states this rule.

## Model

| member | source | states |
|---|---|---|
| `Card.InitialText` | App.tsx:48-52 | `INITIAL_TEXTS`: each category's placeholder text, written out as in the source; none of them is empty |
| `Card.IsStarter` | App.tsx:101 | `Object.values(INITIAL_TEXTS).includes(compliment)`: a text counts as a starter exactly when it equals the initial text of some category, whichever one that is |
| `Card.Archivable` | App.tsx:102 | the guard `compliment && !isStarter`: a text is archived exactly when it is non-empty and differs from every category's initial text |
| `Card.InitialTextsDistinct` | App.tsx:48-52 | the three initial texts are non-empty and pairwise different, so each category has its own starter |
| `Card.BackgroundOf` | App.tsx:90-97 | the background keeps the given colour; variants 1 to 4 pick their own gradient, and every other value falls to the default radial one |
| `Card.DistinctVariantsLookDifferent` | App.tsx:90-97 | two variants in 0..4 give the same background exactly when they are equal |
| `Card.VariantFromRandom` | App.tsx:169 | `Math.floor(Math.random() * 5)` always lies in 0..4 |
| `Card.DrawVariant` | App.tsx:168-169 | the redraw loop ends with a variant in 0..4 that differs from the current one; it is the first draw that differs, and every earlier draw equalled the current variant |
| `History.Keep` | App.tsx:109 | `.slice(0, 15)` keeps min(length, 15) entries, each equal to the entry at the same place in the input |
| `History.Prepend` | App.tsx:103-109 | the new item comes first, followed by the old ledger's leading entries in their old order; the length is min(old length + 1, 15) |
| `History.Archived` | App.tsx:100-111 | an empty or starter text leaves the ledger unchanged; otherwise the item with the current text, category, variant and id is prepended and the rest truncated; the ledger grows by at most one and the bound of 15 is kept |
| `History.StarterNeverArchived` | App.tsx:101-102 | archiving any category's starter text, on a card of any category, leaves the ledger unchanged |
| `History.EmptyNeverArchived` | App.tsx:102 | archiving the empty text leaves the ledger unchanged |
| `History.KeepAbsorbsInnerKeep` | App.tsx:109 | truncating a list before putting more entries in front of it and truncating again gives the same result as truncating once |
| `History.PrependAllIsOneTruncation` | App.tsx:109 | archiving items one at a time gives the same ledger as putting all of them in front, newest first, and truncating once |
| `History.NoArchivedCardLost` | App.tsx:109 | after archiving at most 15 items, all of them are in the ledger, newest first, at the positions given by their order |
| `History.OlderEntriesUnrecoverable` | App.tsx:109 | after 15 or more items are archived, the ledger is the 15 newest of them, whatever it held before |
| `AppSession.Session.constructor` | App.tsx:71-77 | the session starts on the corporate category with its starter text, an empty history, all flags down and variant 0 |
| `AppSession.Session.PushToHistory` | App.tsx:100-111 | the history becomes `Archived` of the card on display; only the history changes; the session invariant holds (bounded ledger, archived texts real, variants valid) |
| `AppSession.Session.ChangeCategory` | App.tsx:157-163 | choosing the current category, or any category while loading, changes nothing; otherwise the old card is archived, then the category, its starter text and variant 0 are set; the flags do not change |
| `AppSession.Session.StartGenerate` | App.tsx:165-169 | the card on display is archived and `isLoading` is raised before the request; the drawn variant is in 0..4 and differs from the current one; text and variant are untouched |
| `AppSession.Session.CompleteGenerate` | App.tsx:171-179 | on success the text becomes the response and the variant the drawn one; on failure both are unchanged; `isLoading` is down on both paths |
| `AppSession.Session.Generate` | App.tsx:165-180 | the whole handler: the previous card is archived whatever the outcome; `isLoading` ends down; success shows the new text on a new variant whose background differs in every colour; failure leaves text and variant as they were |
| `AppSession.Session.CopyText` | App.tsx:113-121 | a completed text write raises `isCopied` and copies exactly the given text; a failed write changes nothing |
| `AppSession.Session.StartCapture` | App.tsx:123-126 | a capture starts exactly when the region is mounted and no capture is running; starting raises `isCapturing`, a refused start leaves it as it was |
| `AppSession.Session.CompleteCapture` | App.tsx:127-154 | `isCapturing` ends down on every path; a failed render does nothing; with no clipboard support the PNG is downloaded; otherwise the PNG is copied exactly when the blob is truthy and the write completes; `isCopied` rises only for a copied image |
| `AppSession.Session.CopyImage` | App.tsx:123-155 | the whole handler: the capture flag ends as it began; an unmounted region or a running capture means no effect and no change to `isCopied`; a copied or downloaded image is the rendered PNG |
| `AppSession.SwitchDuringGenerationIsRefused` | App.tsx:158 | a category switch between the request and its response is refused, so the response lands on the original category and the only archived card is the one shown before the request |
| `AppSession.CaptureIsNotReentrant` | App.tsx:124-126 | a second image copy started while one is running is refused; after completion the flag is down, and `isCopied` rose only for a completed image write |
| `HoverBorderGradient.IndexOf` | components/HoverBorderGradient.tsx:30-31 | `indexOf` finds every direction at a valid index of the cycle, so -1 never comes back |
| `HoverBorderGradient.Rotate` | components/HoverBorderGradient.tsx:29-36 | a step never returns the direction it was given |
| `HoverBorderGradient.RotateFollowsTheCycle` | components/HoverBorderGradient.tsx:32-34 | clockwise steps go TOP, RIGHT, BOTTOM, LEFT, TOP; counter-clockwise steps go TOP, LEFT, BOTTOM, RIGHT, TOP |
| `HoverBorderGradient.RotateIndex` | components/HoverBorderGradient.tsx:32-34 | clockwise moves the index by -1 mod 4, counter-clockwise by +1 mod 4 |
| `HoverBorderGradient.PeriodFour` | components/HoverBorderGradient.tsx:29-36 | four steps in either orientation return to the start, and one, two or three steps never do |
| `HoverBorderGradient.OrientationsAreInverse` | components/HoverBorderGradient.tsx:32-34 | a clockwise step followed by a counter-clockwise step is the identity, and so is the reverse order |

## Left out

- The `setTimeout` calls that reset `isCopied` after 2 seconds (App.tsx:117, App.tsx:148) are left out. This is wall-clock scheduling with no cancellation in the code, so the model promises nothing about when the flag falls. Each reset is a plain `setTimeout` with no cancellation, so an earlier copy's timer can clear the flag raised by a later copy; the model does not describe this.
- The `setInterval` that applies `rotateDirection` every `duration * 375` ms (components/HoverBorderGradient.tsx:46-52) is left out. `RotateTimes` only counts the steps.
- `Card.DrawVariant` and the Start/Generate methods require that some draw of `Math.random()` gives a different variant. The real loop ends only with probability one.
- History ids are the `Date.now()` number rather than its decimal string. Nothing claims that ids are unique, because the code does not make them so. The download's file name (`toxic-<time>.png`) is not modelled.
- `selectedItem` and the detail modal (App.tsx:78, App.tsx:333, App.tsx:358, App.tsx:393) are view state that never touches the ledger. They are not modelled. The modal's copy buttons call the same handlers with the selected item's text or region.
- The button guards in components/ToxicButton.tsx and components/CopyActions.tsx (`disabled`, `if (!isLoading)`) are not modelled. The model starts from the handlers. `handleGenerate` has no guard of its own: only the disabled button keeps a second generation from starting while one is pending. `Session.StartGenerate` does not refuse one either.
- Category labels, icons and colours (`CATEGORIES`) are left out. `Card.BackgroundOf` takes the colour as a parameter and returns which gradient is used, not the CSS text.
- `scrollHistory` (DOM scrolling), the JSX, framer-motion animation, `console.error` logging, and the components Squares, CustomCursor and Spinner are presentation only. They are not modelled.
- The text generator's own file (`services/geminiService.ts`) is not part of this model. Its result is any string, or a throw.
