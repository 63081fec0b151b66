/**
 * Any sequence of calls a race controller or an editor makes on one horse.
 * The lemmas say what holds of the horse after all of them: the confidence
 * never leaves [0, 1], the history only grows, and within a race (no return
 * to the start) the distance only counts steps and a fall is never undone.
 */
module RaceSeries {
  import opened Wrappers
  import opened JavaInts
  import opened HorseColours
  import opened HorseSpec

  /** One call on the horse's public mutators. */
  datatype Call =
    | SetConfidenceCall(newConfidence: real)
    | SetSymbolCall(newSymbol: char)
    | SetNameCall(newName: string)
    | SetColourCall(newColour: HorseColour)
    | SetSaddleCall(newHasSaddle: bool)
    | MoveForwardCall
    | FallCall
    | GoBackToStartCall
    | AddNewTrendCall(position: int32)

  /** The effect of one call; a rejected `setConfidence` leaves the horse as it was. */
  function Apply(h: HorseState, c: Call): HorseState {
    match c
    case SetConfidenceCall(v) =>
      (match SetConfidence(h, v) case Success(h') => h' case Failure(_) => h)
    case SetSymbolCall(s) => SetSymbol(h, s)
    case SetNameCall(n) => SetName(h, n)
    case SetColourCall(col) => SetColour(h, col)
    case SetSaddleCall(b) => SetSaddle(h, b)
    case MoveForwardCall => MoveForward(h)
    case FallCall => Fall(h)
    case GoBackToStartCall => GoBackToStart(h)
    case AddNewTrendCall(p) => AddNewTrend(h, p)
  }

  /** The calls applied in order. */
  function Run(h: HorseState, calls: seq<Call>): HorseState
    decreases |calls|
  {
    if calls == [] then h else Run(Apply(h, calls[0]), calls[1..])
  }

  /** The number of `moveForward` calls. */
  function Moves(calls: seq<Call>): nat {
    if calls == [] then 0 else (if calls[0].MoveForwardCall? then 1 else 0) + Moves(calls[1..])
  }

  /** The positions recorded by `addNewTrend`, in call order. */
  function Recorded(calls: seq<Call>): seq<int32> {
    if calls == [] then []
    else (if calls[0].AddNewTrendCall? then [calls[0].position] else []) + Recorded(calls[1..])
  }

  /** A call a race controller makes during or after a race (no editing). */
  predicate IsRaceCall(c: Call) {
    c.MoveForwardCall? || c.FallCall? || c.GoBackToStartCall? || c.AddNewTrendCall?
  }

  /**
   * A caller that catches the exception sees no trace of a rejected
   * `setConfidence`: the call leaves the horse as it was exactly when the
   * value is out of range or equal to the current confidence.
   */
  lemma SetConfidenceCallNoTrace(h: HorseState, v: real)
    ensures Apply(h, SetConfidenceCall(v)) == h <==> !InRange(v) || v == h.horseConfidence
    ensures InRange(v) ==> Apply(h, SetConfidenceCall(v)).horseConfidence == v
  {
  }

  /** The confidence invariant survives every sequence of calls, saddle toggles at the boundaries included. */
  lemma {:induction false} RunKeepsConfidenceInRange(h: HorseState, calls: seq<Call>)
    requires Valid(h)
    ensures Valid(Run(h, calls))
    decreases |calls|
  {
    if calls != [] {
      RunKeepsConfidenceInRange(Apply(h, calls[0]), calls[1..]);
    }
  }

  /**
   * The history is append-only: after any calls it is the old history
   * followed by the recorded positions, and it reads back most recent first.
   */
  lemma {:induction false} RunAppendsTrends(h: HorseState, calls: seq<Call>)
    ensures Run(h, calls).recentTrends == h.recentTrends + Recorded(calls)
    ensures RecentTrends(Run(h, calls)) == Reversed(Recorded(calls)) + RecentTrends(h)
    decreases |calls|
  {
    if calls != [] {
      RunAppendsTrends(Apply(h, calls[0]), calls[1..]);
      assert h.recentTrends + Recorded(calls) ==
        Apply(h, calls[0]).recentTrends + Recorded(calls[1..]);
    }
    ReversedConcat(h.recentTrends, Recorded(calls));
  }

  /** Reversing a concatenation reverses the order of the parts. */
  lemma ReversedConcat<T>(a: seq<T>, b: seq<T>)
    ensures Reversed(a + b) == Reversed(b) + Reversed(a)
  {
    var l, r := Reversed(a + b), Reversed(b) + Reversed(a);
    assert |l| == |r|;
    forall k | 0 <= k < |l| ensures l[k] == r[k] {
      if k < |b| {
        assert r[k] == b[|b| - 1 - k];
      } else {
        assert r[k] == Reversed(a)[k - |b|];
      }
    }
  }

  /**
   * Within a race, with no return to the start: a fall is never undone, and
   * the distance grows by exactly the number of steps while it stays below
   * Java's `int` limit.
   */
  lemma {:induction false} RunWithinRace(h: HorseState, calls: seq<Call>)
    requires forall i :: 0 <= i < |calls| ==> !calls[i].GoBackToStartCall?
    ensures h.hasFallen ==> Run(h, calls).hasFallen
    ensures h.distanceTravelled as int + Moves(calls) <= INT_MAX ==>
      Run(h, calls).distanceTravelled as int == h.distanceTravelled as int + Moves(calls)
    decreases |calls|
  {
    if calls != [] {
      RunWithinRace(Apply(h, calls[0]), calls[1..]);
    }
  }

  /** Race calls never touch confidence, saddle, colour, name or symbol. */
  lemma {:induction false} RaceCallsKeepIdentity(h: HorseState, calls: seq<Call>)
    requires forall i :: 0 <= i < |calls| ==> IsRaceCall(calls[i])
    ensures var r := Run(h, calls);
      r.horseConfidence == h.horseConfidence && r.hasSaddle == h.hasSaddle &&
      r.horseColour == h.horseColour && r.horseName == h.horseName &&
      r.horseSymbol == h.horseSymbol
    decreases |calls|
  {
    if calls != [] {
      RaceCallsKeepIdentity(Apply(h, calls[0]), calls[1..]);
    }
  }

  /** A horse that has been sent back to the start is at the start, whatever happened in the race. */
  lemma {:induction false} ResetAfterRace(h: HorseState, calls: seq<Call>)
    ensures var r := Run(h, calls + [GoBackToStartCall]);
      AtStart(r) && SameCrossRace(Run(h, calls), r)
    decreases |calls|
  {
    if calls != [] {
      assert (calls + [GoBackToStartCall])[1..] == calls[1..] + [GoBackToStartCall];
      ResetAfterRace(Apply(h, calls[0]), calls[1..]);
    } else {
      assert Run(GoBackToStart(h), []) == GoBackToStart(h);
    }
  }
}
