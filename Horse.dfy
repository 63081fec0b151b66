/** The `Horse` class of package `Primary`, with its fields updated in place. */
module Primary {
  import opened Wrappers
  import opened JavaInts
  import opened HorseColours
  import HorseSpec

  class Horse {
    var horseSymbol: char
    var horseName: string
    var horseConfidence: real
    var hasFallen: bool
    var distanceTravelled: int32
    var horseColour: HorseColour
    var hasSaddle: bool
    /** Chronological: the first element is the oldest position, the last the most recent. */
    var recentTrends: seq<int32>

    /** The object invariant: the confidence stays within [0, 1]. */
    ghost predicate Valid()
      reads this
    {
      HorseSpec.InRange(horseConfidence)
    }

    /** The fields as a value, to tie each method to its specification in HorseSpec. */
    ghost function State(): HorseSpec.HorseState
      reads this
    {
      HorseSpec.HorseState(horseSymbol, horseName, horseConfidence, horseColour,
                           hasFallen, distanceTravelled, hasSaddle, recentTrends)
    }

    /** The field assignments of the Java constructor, once its range check has passed. */
    constructor (symbol: char, name: string, confidence: real, colour: HorseColour)
      requires HorseSpec.InRange(confidence)
      ensures Valid()
      ensures HorseSpec.NewHorse(symbol, name, confidence, colour) == Success(State())
    {
      horseSymbol := symbol;
      horseConfidence := confidence;
      horseName := name;
      horseColour := colour;
      hasFallen := false;
      distanceTravelled := 0;
      hasSaddle := false;
      recentTrends := [];
    }

    /** `new Horse(...)`: fails with the exception when the confidence is out of range. */
    static method Create(symbol: char, name: string, confidence: real, colour: HorseColour)
      returns (r: Result<Horse, HorseSpec.HorseError>)
      ensures r.Failure? ==> HorseSpec.NewHorse(symbol, name, confidence, colour) == Failure(r.error)
      ensures r.Success? ==>
        fresh(r.value) && r.value.Valid() &&
        HorseSpec.NewHorse(symbol, name, confidence, colour) == Success(r.value.State())
    {
      if confidence > 1.0 || confidence < 0.0 {
        return Failure(HorseSpec.IllegalArgumentException(HorseSpec.CONFIDENCE_MESSAGE));
      }
      var h := new Horse(symbol, name, confidence, colour);
      return Success(h);
    }

    method GetColour() returns (colour: HorseColour)
      ensures colour == horseColour
    {
      return horseColour;
    }

    method Fall()
      requires Valid()
      modifies this`hasFallen
      ensures Valid() && State() == HorseSpec.Fall(old(State()))
    {
      hasFallen := true;
    }

    /** The confidence as stored, which the invariant keeps in range. */
    method GetConfidence() returns (confidence: real)
      requires Valid()
      ensures confidence == horseConfidence && HorseSpec.InRange(confidence)
    {
      return horseConfidence;
    }

    method GetDistanceTravelled() returns (distance: int32)
      ensures distance == distanceTravelled
    {
      return distanceTravelled;
    }

    method GetName() returns (name: string)
      ensures name == horseName
    {
      return horseName;
    }

    method GetSymbol() returns (symbol: char)
      ensures symbol == horseSymbol
    {
      return horseSymbol;
    }

    method GetSaddle() returns (saddle: bool)
      ensures saddle == hasSaddle
    {
      return hasSaddle;
    }

    method GoBackToStart()
      requires Valid()
      modifies this`distanceTravelled, this`hasFallen
      ensures Valid() && State() == HorseSpec.GoBackToStart(old(State()))
    {
      distanceTravelled := 0;
      hasFallen := false;
    }

    method HasFallen() returns (fallen: bool)
      ensures fallen == hasFallen
    {
      return hasFallen;
    }

    /** No guard against a fallen horse: only calling it on a horse still running is the caller's contract. */
    method MoveForward()
      requires Valid()
      modifies this`distanceTravelled
      ensures Valid() && State() == HorseSpec.MoveForward(old(State()))
    {
      distanceTravelled := Increment(distanceTravelled);
    }

    /** Either the new confidence and `Pass`, or the exception's error and no change at all. */
    method SetConfidence(newConfidence: real) returns (outcome: Outcome<HorseSpec.HorseError>)
      requires Valid()
      modifies this`horseConfidence
      ensures Valid()
      ensures match HorseSpec.SetConfidence(old(State()), newConfidence)
        case Success(s) => outcome == Pass && State() == s
        case Failure(e) => outcome == Fail(e) && State() == old(State())
    {
      if newConfidence > 1.0 || newConfidence < 0.0 {
        return Fail(HorseSpec.IllegalArgumentException(HorseSpec.CONFIDENCE_MESSAGE));
      }
      horseConfidence := newConfidence;
      return Pass;
    }

    method SetSymbol(newSymbol: char)
      requires Valid()
      modifies this`horseSymbol
      ensures Valid() && State() == HorseSpec.SetSymbol(old(State()), newSymbol)
    {
      horseSymbol := newSymbol;
    }

    method SetName(newName: string)
      requires Valid()
      modifies this`horseName
      ensures Valid() && State() == HorseSpec.SetName(old(State()), newName)
    {
      horseName := newName;
    }

    method SetColour(newColour: HorseColour)
      requires Valid()
      modifies this`horseColour
      ensures Valid() && State() == HorseSpec.SetColour(old(State()), newColour)
    {
      horseColour := newColour;
    }

    /** Routes the confidence change through `SetConfidence`, falling back to the boundary when it is refused. */
    method SetSaddle(newHasSaddle: bool)
      requires Valid()
      modifies this`horseConfidence, this`hasSaddle
      ensures Valid() && State() == HorseSpec.SetSaddle(old(State()), newHasSaddle)
    {
      if hasSaddle != newHasSaddle {
        if newHasSaddle {
          var attempt := SetConfidence(horseConfidence + HorseSpec.SADDLE_STEP);
          if attempt.Fail? {
            attempt := SetConfidence(1.0);
          }
        } else {
          var attempt := SetConfidence(horseConfidence - HorseSpec.SADDLE_STEP);
          if attempt.Fail? {
            attempt := SetConfidence(0.0);
          }
        }
      }
      hasSaddle := newHasSaddle;
    }

    /** The history most recent first; the stored chronological list is left as it is. */
    method GetRecentTrends() returns (trends: seq<int32>)
      ensures trends == HorseSpec.RecentTrends(State())
      ensures |trends| == |recentTrends|
      ensures forall k :: 0 <= k < |trends| ==> trends[k] == recentTrends[|recentTrends| - 1 - k]
    {
      return HorseSpec.Reversed(recentTrends);
    }

    /** `None` (Java's `null`) when no race has been recorded, else the position recorded last. */
    method GetMostRecentPosition() returns (position: Option<int32>)
      ensures position == HorseSpec.MostRecentPosition(State())
      ensures position.None? <==> recentTrends == []
      ensures position.Some? ==> position.value == recentTrends[|recentTrends| - 1]
    {
      var trends := GetRecentTrends();
      if |trends| == 0 {
        return None;
      }
      trends := GetRecentTrends();
      return Some(trends[0]);
    }

    method AddNewTrend(position: int32)
      requires Valid()
      modifies this`recentTrends
      ensures Valid() && State() == HorseSpec.AddNewTrend(old(State()), position)
    {
      recentTrends := recentTrends + [position];
    }
  }
}
