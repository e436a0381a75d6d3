/**
  The card's vocabulary (App.tsx): the three joke categories, each category's
  placeholder ("starter") text, the archived HistoryItem record, the five
  background variants chosen by `getBackgroundStyle`, and the redraw loop
  that picks a new variant.
 */
module Card {

  /** `ToxicCategory`: the closed set of category ids. */
  datatype Category = Corporate | Personal | Friend

  /** `INITIAL_TEXTS`: the placeholder text shown for a category before anything is generated. */
  function InitialText(c: Category): (t: string)
    ensures t != ""
  {
    match c
    case Corporate => "Стань лучшим сотрудником года (в глазах своего психолога)"
    case Personal => "Будь экспертом в любви (к себе, потому что больше некому)"
    case Friend => "Держи друзей близко, а врагов еще ближе"
  }

  /** `Object.values(INITIAL_TEXTS)`, in declaration order. */
  const StarterTexts: seq<string> :=
    [InitialText(Corporate), InitialText(Personal), InitialText(Friend)]

  /** A text is a starter when it equals the starter of ANY category, not only the card's own. */
  predicate IsStarter(text: string): (b: bool)
    ensures b <==> exists c: Category :: InitialText(c) == text
  {
    text in StarterTexts
  }

  /** The three starter texts are non-empty and pairwise different. */
  lemma InitialTextsDistinct(c: Category, d: Category)
    ensures InitialText(c) != ""
    ensures InitialText(c) == InitialText(d) <==> c == d
  {
  }

  /**
    The test guarding `pushToHistory`: the text is truthy (non-empty) and is
    not a starter.
   */
  predicate Archivable(text: string): (b: bool)
    ensures b <==> text != "" && forall c: Category :: InitialText(c) != text
  {
    text != "" && !IsStarter(text)
  }

  /**
    `HistoryItem`. The id is the `Date.now()` reading taken when the item was
    archived; nothing makes it unique.
   */
  datatype HistoryItem = HistoryItem(id: nat, text: string, categoryId: Category, bgVariant: int)

  /** Number of background variants: `Math.floor(Math.random() * 5)` yields 0..4. */
  const VariantCount: nat := 5

  predicate IsVariant(v: int)
  {
    0 <= v < VariantCount
  }

  /**
    The gradient families of `getBackgroundStyle`; every one is tinted with
    the category colour it is given.
   */
  datatype Background =
    | RadialCentre(color: string)   // default branch
    | LinearDown(color: string)     // case 1
    | LinearDiagonal(color: string) // case 2
    | LinearUp(color: string)       // case 3
    | RadialTop(color: string)      // case 4

  /** `getBackgroundStyle(variant, color)`: variants 1..4 pick a gradient, anything else the default. */
  function BackgroundOf(variant: int, color: string): (b: Background)
    ensures b.color == color
    ensures b.RadialCentre? <==> !(1 <= variant <= 4)
  {
    match variant
    case 1 => LinearDown(color)
    case 2 => LinearDiagonal(color)
    case 3 => LinearUp(color)
    case 4 => RadialTop(color)
    case _ => RadialCentre(color)
  }

  /** Two different variants in 0..4 always give two different backgrounds in the same colour. */
  lemma DistinctVariantsLookDifferent(v: int, w: int, color: string)
    requires IsVariant(v) && IsVariant(w)
    ensures BackgroundOf(v, color) == BackgroundOf(w, color) <==> v == w
  {
  }

  /** One draw `Math.floor(r * 5)` of a value `r = Math.random()` in [0, 1). */
  function VariantFromRandom(r: real): (v: int)
    requires 0.0 <= r < 1.0
    ensures IsVariant(v)
  {
    (r * 5.0).Floor
  }

  /** Every draw is a value of `Math.random()`, that is, lies in [0, 1). */
  predicate RandomDraws(draws: seq<real>)
  {
    forall k :: 0 <= k < |draws| ==> 0.0 <= draws[k] < 1.0
  }

  /**
    The redraw loop of `handleGenerate`:
    `do { nextBg = Math.floor(Math.random() * 5); } while (nextBg === bgVariant)`.
    The values `Math.random()` returns are `draws`, in order; the loop ends
    with probability one, which is stated as "some draw gives another variant".
    `used` is the number of draws the loop consumed.
   */
  method DrawVariant(current: int, draws: seq<real>) returns (nextBg: int, used: nat)
    requires RandomDraws(draws)
    requires exists k :: 0 <= k < |draws| && VariantFromRandom(draws[k]) != current
    ensures IsVariant(nextBg) && nextBg != current
    ensures 1 <= used <= |draws| && nextBg == VariantFromRandom(draws[used - 1])
    ensures forall k :: 0 <= k < used - 1 ==> VariantFromRandom(draws[k]) == current
  {
    // The first draw is unconditional: it is the body of a do-while.
    nextBg := VariantFromRandom(draws[0]);
    used := 1;
    while nextBg == current
      invariant 1 <= used <= |draws|
      invariant nextBg == VariantFromRandom(draws[used - 1])
      invariant forall k :: 0 <= k < used - 1 ==> VariantFromRandom(draws[k]) == current
      decreases |draws| - used
    {
      assert forall k :: 0 <= k < used ==> VariantFromRandom(draws[k]) == current;
      nextBg := VariantFromRandom(draws[used]);
      used := used + 1;
    }
  }
}
