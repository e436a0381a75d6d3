/**
  `rotateDirection` of components/HoverBorderGradient.tsx: the glowing edge of
  a button moves one step around the cycle ["TOP", "LEFT", "BOTTOM", "RIGHT"],
  backwards through that list when `clockwise` holds and forwards otherwise.
 */
module HoverBorderGradient {

  datatype Direction = Top | Left | Bottom | Right

  /** The `directions` array, in its order. */
  const Directions: seq<Direction> := [Top, Left, Bottom, Right]

  /** `directions.indexOf(d)`; every direction occurs in the array, so -1 never comes back. */
  function IndexOf(d: Direction): (i: nat)
    ensures i < |Directions| && Directions[i] == d
  {
    match d
    case Top => 0
    case Left => 1
    case Bottom => 2
    case Right => 3
  }

  /**
    `rotateDirection(d)` with the component's `clockwise` prop. The index is
    never negative (`- 1 + length` comes before `%`), so JavaScript's
    truncating `%` and Dafny's Euclidean `%` agree on it.
   */
  function Rotate(d: Direction, clockwise: bool): (r: Direction)
    ensures r != d
  {
    var n := |Directions|;
    var currentIndex := IndexOf(d);
    var nextIndex := if clockwise then (currentIndex - 1 + n) % n else (currentIndex + 1) % n;
    Directions[nextIndex]
  }

  /** The next edge clockwise, written out: TOP, RIGHT, BOTTOM, LEFT, TOP. */
  function ClockwiseNext(d: Direction): Direction
  {
    match d
    case Top => Right
    case Right => Bottom
    case Bottom => Left
    case Left => Top
  }

  /** The next edge counter-clockwise, written out: TOP, LEFT, BOTTOM, RIGHT, TOP. */
  function CounterClockwiseNext(d: Direction): Direction
  {
    match d
    case Top => Left
    case Left => Bottom
    case Bottom => Right
    case Right => Top
  }

  /** The index arithmetic walks exactly the two written-out orders. */
  lemma RotateFollowsTheCycle(d: Direction)
    ensures Rotate(d, true) == ClockwiseNext(d)
    ensures Rotate(d, false) == CounterClockwiseNext(d)
  {
  }

  /** In index terms: clockwise is index - 1 mod 4, counter-clockwise index + 1 mod 4. */
  lemma RotateIndex(d: Direction)
    ensures IndexOf(Rotate(d, true)) == (IndexOf(d) + 3) % 4
    ensures IndexOf(Rotate(d, false)) == (IndexOf(d) + 1) % 4
  {
  }

  /** `k` successive steps, as the interval timer applies them. */
  function RotateTimes(d: Direction, clockwise: bool, k: nat): Direction
    decreases k
  {
    if k == 0 then d else RotateTimes(Rotate(d, clockwise), clockwise, k - 1)
  }

  /** Four steps in either orientation come back to the start, and no fewer do. */
  lemma PeriodFour(d: Direction, clockwise: bool)
    ensures RotateTimes(d, clockwise, 4) == d
    ensures forall k :: 1 <= k < 4 ==> RotateTimes(d, clockwise, k) != d
  {
  }

  /** A clockwise step undoes a counter-clockwise step, and the other way round. */
  lemma OrientationsAreInverse(d: Direction)
    ensures Rotate(Rotate(d, true), false) == d
    ensures Rotate(Rotate(d, false), true) == d
  {
  }
}
