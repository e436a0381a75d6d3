/**
  The card session of App.tsx: the state the `App` component keeps with
  `useState` and the handlers that change it. `handleGenerate` is split at
  its one await, and `handleCopyImage` at its first (`toPng`), into a Start
  and a Complete method, so that the UI's other events can be placed between
  the two halves; the remaining awaits of `handleCopyImage` are taken as one
  step. `Generate` and `CopyImage` run both halves back to back.
  Every outside call (the text generator, the rasteriser, `fetch`, the
  clipboard) is an `Attempt` parameter: it returned a value or it threw.
 */
module AppSession {
  import opened Card
  import opened History

  /** How an awaited outside call ended. */
  datatype Attempt<T> = Threw | Returned(value: T)

  /** What a copy handler did outside the app: the platform's side of the copy. */
  datatype Effect =
    | NoEffect
    | CopiedText(text: string)            // navigator.clipboard.writeText
    | CopiedImage(dataUrl: string)        // navigator.clipboard.write of the PNG blob
    | DownloadedImage(dataUrl: string)    // anchor-click download, when the clipboard cannot take images

  class Session {
    var category: Category
    var compliment: string
    var history: seq<HistoryItem>
    var isLoading: bool
    var isCopied: bool
    var isCapturing: bool
    var bgVariant: int

    /**
      What every handler keeps: the variant is one of the five, the ledger
      holds at most 15 items, and every archived item carries a real
      (non-empty, non-starter) text and a valid variant.
     */
    ghost predicate Valid()
      reads this
    {
      && IsVariant(bgVariant)
      && WithinBound(history)
      && forall i :: 0 <= i < |history| ==> Archivable(history[i].text) && IsVariant(history[i].bgVariant)
    }

    /** The initial `useState` values. */
    constructor ()
      ensures Valid()
      ensures category == Corporate && compliment == InitialText(Corporate) && history == []
      ensures !isLoading && !isCopied && !isCapturing && bgVariant == 0
    {
      category := Corporate;
      compliment := InitialText(Corporate);
      history := [];
      isLoading := false;
      isCopied := false;
      isCapturing := false;
      bgVariant := 0;
    }

    /**
      `pushToHistory`: archive the card on display, unless its text is empty
      or any category's starter. `now` is the `Date.now()` reading used as id.
     */
    method PushToHistory(now: nat)
      requires Valid()
      modifies this`history
      ensures Valid()
      ensures history == Archived(old(history), compliment, category, bgVariant, now)
      ensures |history| <= |old(history)| + 1
    {
      var h := Archived(history, compliment, category, bgVariant, now);
      forall i | 0 <= i < |h|
        ensures Archivable(h[i].text) && IsVariant(h[i].bgVariant)
      {
        if Archivable(compliment) && i > 0 {
          assert h[i] == h[1..][i - 1] == history[i - 1];
        }
      }
      history := h;
    }

    /**
      `changeCategory`: refused while a generation is pending or when the
      category is already selected; otherwise archive the old card, then
      show the new category's starter text on the default background.
     */
    method ChangeCategory(newCat: Category, now: nat)
      requires Valid()
      modifies this`history, this`category, this`compliment, this`bgVariant
      ensures Valid()
      ensures old(newCat == category || isLoading) ==> unchanged(this)
      ensures !old(newCat == category || isLoading) ==>
        && history == Archived(old(history), old(compliment), old(category), old(bgVariant), now)
        && category == newCat
        && compliment == InitialText(newCat)
        && bgVariant == 0
    {
      if newCat == category || isLoading {
        return;
      }
      PushToHistory(now);
      category := newCat;
      compliment := InitialText(newCat);
      bgVariant := 0;
    }

    /**
      The part of `handleGenerate` before the await: archive the card on
      display, raise `isLoading`, and draw the next variant (`draws` are the
      values of `Math.random()`).
     */
    method StartGenerate(now: nat, draws: seq<real>) returns (nextBg: int)
      requires Valid()
      requires RandomDraws(draws)
      requires exists k :: 0 <= k < |draws| && VariantFromRandom(draws[k]) != bgVariant
      modifies this`history, this`isLoading
      ensures Valid()
      ensures history == Archived(old(history), compliment, category, bgVariant, now)
      ensures isLoading
      ensures IsVariant(nextBg) && nextBg != bgVariant
    {
      PushToHistory(now);
      isLoading := true;
      var used;
      nextBg, used := DrawVariant(bgVariant, draws);
    }

    /**
      The part of `handleGenerate` after the await: show the generated text
      on the drawn variant, or keep the card as it was if the call threw;
      `isLoading` falls on both paths.
     */
    method CompleteGenerate(nextBg: int, response: Attempt<string>)
      requires Valid()
      requires IsVariant(nextBg)
      modifies this`compliment, this`bgVariant, this`isLoading
      ensures Valid()
      ensures !isLoading
      ensures response.Returned? ==> compliment == response.value && bgVariant == nextBg
      ensures response.Threw? ==> compliment == old(compliment) && bgVariant == old(bgVariant)
    {
      if response.Returned? {
        compliment := response.value;
        bgVariant := nextBg;
      }
      isLoading := false;
    }

    /**
      `handleGenerate` with nothing happening during the await. The card shown
      before the call is archived whatever the outcome; on success the card
      changes text and its background visibly changes.
     */
    method Generate(now: nat, draws: seq<real>, response: Attempt<string>) returns (nextBg: int)
      requires Valid()
      requires RandomDraws(draws)
      requires exists k :: 0 <= k < |draws| && VariantFromRandom(draws[k]) != bgVariant
      modifies this`history, this`compliment, this`bgVariant, this`isLoading
      ensures Valid()
      ensures history == Archived(old(history), old(compliment), old(category), old(bgVariant), now)
      ensures !isLoading
      ensures IsVariant(nextBg) && nextBg != old(bgVariant)
      ensures response.Returned? ==> compliment == response.value && bgVariant == nextBg
      ensures response.Returned? ==>
        forall color :: BackgroundOf(bgVariant, color) != BackgroundOf(old(bgVariant), color)
      ensures response.Threw? ==> compliment == old(compliment) && bgVariant == old(bgVariant)
    {
      nextBg := StartGenerate(now, draws);
      CompleteGenerate(nextBg, response);
      forall color | response.Returned?
        ensures BackgroundOf(bgVariant, color) != BackgroundOf(old(bgVariant), color)
      {
        DistinctVariantsLookDifferent(bgVariant, old(bgVariant), color);
      }
    }

    /**
      `handleCopyText`: write `text` to the clipboard; only a write that did
      not throw raises `isCopied`.
     */
    method CopyText(text: string, write: Attempt<()>) returns (effect: Effect)
      modifies this`isCopied
      ensures write.Returned? ==> isCopied && effect == CopiedText(text)
      ensures write.Threw? ==> isCopied == old(isCopied) && effect == NoEffect
    {
      effect := NoEffect;
      if write.Returned? {
        effect := CopiedText(text);
        isCopied := true;
      }
    }

    /**
      The part of `handleCopyImage` before the first await: a no-op when the
      capture region is not mounted or a capture is already running;
      otherwise raise `isCapturing`.
     */
    method StartCapture(regionMounted: bool) returns (started: bool)
      modifies this`isCapturing
      ensures started <==> regionMounted && !old(isCapturing)
      ensures !started ==> isCapturing == old(isCapturing)
      ensures started ==> isCapturing
    {
      if !regionMounted || isCapturing {
        return false;
      }
      isCapturing := true;
      started := true;
    }

    /**
      The rest of `handleCopyImage`. `render` is `htmlToImage.toPng` (a data
      URL), `clipboardSupported` is `navigator.clipboard && window.ClipboardItem`,
      `blob` is `fetch(dataUrl)` then `.blob()` (true when the blob is truthy)
      and `write` is `navigator.clipboard.write`. Without clipboard support the
      image is downloaded instead, and `isCopied` is left alone; only a
      completed image write raises it. `isCapturing` falls on every path.
     */
    method CompleteCapture(render: Attempt<string>, clipboardSupported: bool, blob: Attempt<bool>, write: Attempt<()>)
      returns (effect: Effect)
      modifies this`isCapturing, this`isCopied
      ensures !isCapturing
      ensures render.Threw? ==> effect == NoEffect
      ensures render.Returned? && !clipboardSupported ==> effect == DownloadedImage(render.value)
      ensures render.Returned? && clipboardSupported ==>
        effect == (if blob == Returned(true) && write.Returned? then CopiedImage(render.value) else NoEffect)
      ensures isCopied == (old(isCopied) || effect.CopiedImage?)
    {
      effect := NoEffect;
      if render.Returned? {
        var dataUrl := render.value;
        if !clipboardSupported {
          effect := DownloadedImage(dataUrl);
        } else if blob == Returned(true) && write.Returned? {
          effect := CopiedImage(dataUrl);
          isCopied := true;
        }
      }
      // The `finally` block.
      isCapturing := false;
    }

    /**
      `handleCopyImage` with nothing happening during its awaits: when it
      starts, the capture flag is back down at the end, so the flag is what it
      was before the call on every path.
     */
    method CopyImage(regionMounted: bool, render: Attempt<string>, clipboardSupported: bool, blob: Attempt<bool>, write: Attempt<()>)
      returns (effect: Effect)
      modifies this`isCapturing, this`isCopied
      ensures isCapturing == old(isCapturing)
      ensures !regionMounted || old(isCapturing) ==> effect == NoEffect && isCopied == old(isCopied)
      ensures regionMounted && !old(isCapturing) ==>
        effect == (if render.Threw? then NoEffect
                   else if !clipboardSupported then DownloadedImage(render.value)
                   else if blob == Returned(true) && write.Returned? then CopiedImage(render.value)
                   else NoEffect)
      ensures isCopied == (old(isCopied) || effect.CopiedImage?)
      ensures effect.CopiedImage? ==> render.Returned? && clipboardSupported && effect.dataUrl == render.value
      ensures effect.DownloadedImage? ==> render.Returned? && !clipboardSupported && effect.dataUrl == render.value
    {
      var started := StartCapture(regionMounted);
      effect := NoEffect;
      if started {
        effect := CompleteCapture(render, clipboardSupported, blob, write);
      }
    }
  }

  /**
    A category button pressed while a generation is pending does nothing
    (the handler's guard; the buttons are disabled too), so the response that
    arrives later lands on the category it was requested for.
   */
  method SwitchDuringGenerationIsRefused(s: Session, now: nat, draws: seq<real>, newCat: Category, later: nat, response: Attempt<string>)
    requires s.Valid()
    requires RandomDraws(draws)
    requires exists k :: 0 <= k < |draws| && VariantFromRandom(draws[k]) != s.bgVariant
    modifies s
    ensures s.Valid() && !s.isLoading
    ensures s.category == old(s.category)
    ensures s.history == Archived(old(s.history), old(s.compliment), old(s.category), old(s.bgVariant), now)
    ensures s.compliment == if response.Returned? then response.value else old(s.compliment)
  {
    var nextBg := s.StartGenerate(now, draws);
    s.ChangeCategory(newCat, later);
    s.CompleteGenerate(nextBg, response);
  }

  /** A second image copy started while one is running is refused and changes nothing. */
  method CaptureIsNotReentrant(s: Session, render: Attempt<string>, clipboardSupported: bool, blob: Attempt<bool>, write: Attempt<()>)
    returns (first: bool, second: bool)
    requires !s.isCapturing
    modifies s
    ensures first && !second
    ensures !s.isCapturing
    ensures s.isCopied == (old(s.isCopied) || (render.Returned? && clipboardSupported && blob == Returned(true) && write.Returned?))
  {
    first := s.StartCapture(true);
    second := s.StartCapture(true);
    var _ := s.CompleteCapture(render, clipboardSupported, blob, write);
  }
}
