/**
 * The state of one `Horse` as a value, and one function per operation of the
 * Java class saying what that operation does to it. The class in module
 * Primary is proved against these functions; the lemmas here and in module
 * RaceSeries are what the class therefore guarantees.
 */
module HorseSpec {
  import opened Wrappers
  import opened JavaInts
  import opened HorseColours

  /** The message of the `IllegalArgumentException` for a confidence out of range. */
  const CONFIDENCE_MESSAGE: string := "Confidence must be a value between 0 and 1."

  /** The confidence a saddle adds when put on and takes away when taken off. */
  const SADDLE_STEP: real := 0.025

  datatype HorseError = IllegalArgumentException(message: string)

  /** Every field of a `Horse`, under the Java names. */
  datatype HorseState = HorseState(
    horseSymbol: char,
    horseName: string,
    horseConfidence: real,
    horseColour: HorseColour,
    hasFallen: bool,
    distanceTravelled: int32,
    hasSaddle: bool,
    recentTrends: seq<int32>)

  /** The range a confidence must lie in. */
  predicate InRange(c: real) {
    0.0 <= c <= 1.0
  }

  /** The object invariant: confidence is always in range. */
  predicate Valid(h: HorseState) {
    InRange(h.horseConfidence)
  }

  /** The per-race state is that of a horse at the start line. */
  predicate AtStart(h: HorseState) {
    !h.hasFallen && h.distanceTravelled == 0
  }

  /** Everything except the per-race state (fallen flag, distance) agrees. */
  predicate SameCrossRace(a: HorseState, b: HorseState) {
    a.horseSymbol == b.horseSymbol && a.horseName == b.horseName &&
    a.horseConfidence == b.horseConfidence && a.horseColour == b.horseColour &&
    a.hasSaddle == b.hasSaddle && a.recentTrends == b.recentTrends
  }

  function Min(x: real, y: real): real { if x <= y then x else y }
  function Max(x: real, y: real): real { if x <= y then y else x }

  /** The constructor: rejects a confidence out of range, else a horse at the start with no saddle and no history. */
  function NewHorse(symbol: char, name: string, confidence: real, colour: HorseColour): (r: Result<HorseState, HorseError>)
    ensures r.Success? <==> InRange(confidence)
    ensures r.Failure? ==> r.error == IllegalArgumentException(CONFIDENCE_MESSAGE)
    ensures r.Success? ==>
      Valid(r.value) && AtStart(r.value) && !r.value.hasSaddle && r.value.recentTrends == [] &&
      r.value.horseSymbol == symbol && r.value.horseName == name &&
      r.value.horseConfidence == confidence && r.value.horseColour == colour
  {
    if confidence > 1.0 || confidence < 0.0 then
      Failure(IllegalArgumentException(CONFIDENCE_MESSAGE))
    else
      Success(HorseState(symbol, name, confidence, colour, false, 0, false, []))
  }

  /** `setConfidence`: rejects a value out of range, else replaces the confidence and nothing else. */
  function SetConfidence(h: HorseState, newConfidence: real): (r: Result<HorseState, HorseError>)
    ensures r.Success? <==> InRange(newConfidence)
    ensures r.Failure? ==> r.error == IllegalArgumentException(CONFIDENCE_MESSAGE)
    ensures r.Success? ==> Valid(r.value) && r.value == h.(horseConfidence := newConfidence)
  {
    if newConfidence > 1.0 || newConfidence < 0.0 then
      Failure(IllegalArgumentException(CONFIDENCE_MESSAGE))
    else
      Success(h.(horseConfidence := newConfidence))
  }

  /** `setSymbol`: the symbol becomes the argument; nothing else changes. */
  function SetSymbol(h: HorseState, newSymbol: char): (r: HorseState)
    ensures r.horseSymbol == newSymbol
    ensures r.(horseSymbol := h.horseSymbol) == h
  {
    h.(horseSymbol := newSymbol)
  }

  /** `setName`: the name becomes the argument; nothing else changes. */
  function SetName(h: HorseState, newName: string): (r: HorseState)
    ensures r.horseName == newName
    ensures r.(horseName := h.horseName) == h
  {
    h.(horseName := newName)
  }

  /** `setColour`: the colour becomes the argument; nothing else changes. */
  function SetColour(h: HorseState, newColour: HorseColour): (r: HorseState)
    ensures r.horseColour == newColour
    ensures r.(horseColour := h.horseColour) == h
  {
    h.(horseColour := newColour)
  }

  /**
   * `setSaddle`, written as the Java is: on a change, try to move the
   * confidence by one step through `setConfidence`, and when that is rejected
   * set the boundary instead. Only confidence and saddle can change; a toggle
   * always lands in range; setting the current value keeps the confidence.
   */
  function SetSaddle(h: HorseState, newHasSaddle: bool): (r: HorseState)
    ensures r.hasSaddle == newHasSaddle
    ensures r == h.(horseConfidence := r.horseConfidence, hasSaddle := newHasSaddle)
    ensures h.hasSaddle == newHasSaddle ==> r.horseConfidence == h.horseConfidence
    ensures h.hasSaddle != newHasSaddle ==> InRange(r.horseConfidence)
  {
    var adjusted :=
      if h.hasSaddle == newHasSaddle then h
      else if newHasSaddle then
        match SetConfidence(h, h.horseConfidence + SADDLE_STEP)
        case Success(raised) => raised
        case Failure(_) => SetConfidence(h, 1.0).value
      else
        match SetConfidence(h, h.horseConfidence - SADDLE_STEP)
        case Success(lowered) => lowered
        case Failure(_) => SetConfidence(h, 0.0).value;
    adjusted.(hasSaddle := newHasSaddle)
  }

  /** `fall`: the fallen flag is set; distance and everything else are kept. */
  function Fall(h: HorseState): (r: HorseState)
    ensures r.hasFallen && r.distanceTravelled == h.distanceTravelled && SameCrossRace(h, r)
  {
    h.(hasFallen := true)
  }

  /** `moveForward`: one step further (a Java `int`, so it wraps at the top); nothing else changes. */
  function MoveForward(h: HorseState): (r: HorseState)
    ensures h.distanceTravelled as int < INT_MAX ==> r.distanceTravelled as int == h.distanceTravelled as int + 1
    ensures r.hasFallen == h.hasFallen && SameCrossRace(h, r)
  {
    h.(distanceTravelled := Increment(h.distanceTravelled))
  }

  /** `goBackToStart`: the per-race state is cleared; the cross-race state is kept. */
  function GoBackToStart(h: HorseState): (r: HorseState)
    ensures AtStart(r) && SameCrossRace(h, r)
  {
    h.(distanceTravelled := 0, hasFallen := false)
  }

  /** `addNewTrend`: the position is appended to the chronological history. */
  function AddNewTrend(h: HorseState, position: int32): (r: HorseState)
    ensures r.recentTrends == h.recentTrends + [position]
    ensures r == h.(recentTrends := r.recentTrends)
  {
    h.(recentTrends := h.recentTrends + [position])
  }

  /** `List.reversed`: the same elements, last first. */
  function Reversed<T>(s: seq<T>): (r: seq<T>)
    ensures |r| == |s|
    ensures forall k :: 0 <= k < |s| ==> r[k] == s[|s| - 1 - k]
  {
    if s == [] then [] else Reversed(s[1..]) + [s[0]]
  }

  /** `getRecentTrends`: the history, most recent first. */
  function RecentTrends(h: HorseState): (r: seq<int32>)
    ensures |r| == |h.recentTrends|
    ensures forall k :: 0 <= k < |r| ==> r[k] == h.recentTrends[|h.recentTrends| - 1 - k]
  {
    Reversed(h.recentTrends)
  }

  /**
   * `getMostRecentPosition`: absent for a horse with no history, otherwise
   * the position added last.
   */
  function MostRecentPosition(h: HorseState): (r: Option<int32>)
    ensures r.None? <==> h.recentTrends == []
    ensures r.Some? ==> r.value == h.recentTrends[|h.recentTrends| - 1]
  {
    if |RecentTrends(h)| == 0 then None else Some(RecentTrends(h)[0])
  }

  // ---- Lemmas about the operations ----

  /** Adding a saddle saturates at 1, removing it at 0: the toggle is a clamp. */
  lemma SetSaddleClamps(h: HorseState, newHasSaddle: bool)
    requires Valid(h)
    ensures var c := h.horseConfidence;
      SetSaddle(h, newHasSaddle).horseConfidence ==
        if h.hasSaddle == newHasSaddle then c
        else if newHasSaddle then Min(1.0, c + SADDLE_STEP)
        else Max(0.0, c - SADDLE_STEP)
  {
  }

  /** Away from the boundaries, putting the saddle on and taking it off again restores the horse. */
  lemma SaddleOnOffRestores(h: HorseState)
    requires !h.hasSaddle && 0.0 <= h.horseConfidence <= 1.0 - SADDLE_STEP
    ensures SetSaddle(SetSaddle(h, true), false) == h
  {
  }

  lemma SaddleOffOnRestores(h: HorseState)
    requires h.hasSaddle && SADDLE_STEP <= h.horseConfidence <= 1.0
    ensures SetSaddle(SetSaddle(h, false), true) == h
  {
  }

  /** At full confidence the saddle's step is lost: on then off leaves 1 - 0.025, not 1. */
  lemma SaddleSaturationLosesStep(h: HorseState)
    requires !h.hasSaddle && h.horseConfidence == 1.0
    ensures SetSaddle(h, true).horseConfidence == 1.0
    ensures SetSaddle(SetSaddle(h, true), false).horseConfidence == 1.0 - SADDLE_STEP
  {
  }

  /** Falling twice is falling once. */
  lemma FallIdempotent(h: HorseState)
    ensures Fall(Fall(h)) == Fall(h)
  {
  }

  /** Appending to a list puts the new element first in its reversal. */
  lemma {:induction false} ReversedAppend<T>(s: seq<T>, x: T)
    ensures Reversed(s + [x]) == [x] + Reversed(s)
  {
    var l, r := Reversed(s + [x]), [x] + Reversed(s);
    assert |l| == |r|;
    forall k | 0 <= k < |l| ensures l[k] == r[k] {
      if k > 0 {
        assert l[k] == (s + [x])[|s| - k];
      }
    }
  }

  /** Reversal is its own inverse: the stored chronological order is what a double reversal gives back. */
  lemma {:induction false} ReversedInvolution<T>(s: seq<T>)
    ensures Reversed(Reversed(s)) == s
  {
    var r := Reversed(Reversed(s));
    forall k | 0 <= k < |s| ensures r[k] == s[k] {
      assert r[k] == Reversed(s)[|s| - 1 - k];
    }
  }

  /** The position added last becomes the head of the most-recent-first view and the most recent position. */
  lemma AddNewTrendIsMostRecent(h: HorseState, position: int32)
    ensures RecentTrends(AddNewTrend(h, position)) == [position] + RecentTrends(h)
    ensures MostRecentPosition(AddNewTrend(h, position)) == Some(position)
  {
    ReversedAppend(h.recentTrends, position);
  }

  /** Recording 3, then 1, then 2 reads back as 2, 1, 3 ahead of the older history. */
  lemma TrendOrderExample(h: HorseState)
    ensures var t := AddNewTrend(AddNewTrend(AddNewTrend(h, 3), 1), 2);
      RecentTrends(t) == [2, 1, 3] + RecentTrends(h) && MostRecentPosition(t) == Some(2)
  {
    AddNewTrendIsMostRecent(h, 3);
    AddNewTrendIsMostRecent(AddNewTrend(h, 3), 1);
    AddNewTrendIsMostRecent(AddNewTrend(AddNewTrend(h, 3), 1), 2);
  }
}
