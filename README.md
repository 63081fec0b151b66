# Horse: a verified model of the race horse entity

This project models the `Horse` class of the horse race simulator
(`Part2/src/Primary/Horse.java`): one racing participant with a bounded
confidence, a saddle that nudges that confidence, per-race state (distance
travelled, fallen flag) and a history of finishing positions. An external
race controller drives it one call at a time.

Layout:

- `Wrappers.dfy`: `Option` (Java `null`), `Result` and `Outcome` (thrown exceptions).
- `JavaInts.dfy`: Java's 32-bit `int` and its wrapping `+= 1`.
- `HorseColours.dfy`: the `HorseColour` enum, the `java.awt.Color` constants used, and `parseHorseColour`.
- `HorseSpec.dfy`: the horse's fields as a value `HorseState` and one function per operation. These functions are the specification. The lemmas state what the operations promise: saturating saddle toggles, idempotent fall, trend ordering.
- `Horse.dfy`: class `Primary.Horse`. Its fields are updated in place, and each method is proved to change the state exactly as its `HorseSpec` function says. `SetSaddle` goes through `SetConfidence` and falls back to the boundary when that call is refused, as the Java does.
- `RaceSeries.dfy`: any sequence of calls on one horse. Lemmas by induction show five things. Confidence stays in [0, 1]. History is append-only and reads back most recent first. Within a race, distance counts steps and a fall is never undone. Race calls never change the cross-race attributes. A final return to the start leaves the horse at the start with its cross-race state kept. A further lemma says a rejected `setConfidence` leaves no trace.

Abstractions:

- Confidence is an exact `real`, so `0.025` and the clamp at 0 and 1 are exact.
- `distanceTravelled` and positions are 32-bit `int32`. `moveForward` wraps from 2^31-1 to -2^31 as Java does.
- The `HorseColour` enum's source is not part of this model. Its four constants that `parseHorseColour` names are datatype constructors. Any other constant is `Other(name)`.
- A thrown `IllegalArgumentException` is a `Failure`/`Fail` value carrying the exception's message.
- The Java constructor is modelled in two parts. `Horse.Create` does the range check and returns a `Result`. The Dafny constructor does the field assignments that follow a passed check.

## Model

| member | source | states |
|---|---|---|
| JavaInts.Increment | Part2/src/Primary/Horse.java:166-168 | `distanceTravelled += 1` is addition modulo 2^32 in two's complement; below the `int` maximum it is exactly +1 |
| HorseColours.ParseHorseColour | Part2/src/Primary/Horse.java:263-287 | total; blue, green, purple and red map to blue, green, magenta and red (each in both directions); dark grey exactly for every other colour |
| HorseColours.ParseHorseColourInjectiveOnNamed | Part2/src/Primary/Horse.java:267-279 | the four named colours resolve to four different display colours |
| HorseSpec.NewHorse | Part2/src/Primary/Horse.java:68-80 | fails with the exception exactly when confidence is outside [0, 1] (so 0 and 1 are accepted); otherwise the arguments are stored and the horse is at the start, unsaddled, with no history |
| HorseSpec.SetConfidence | Part2/src/Primary/Horse.java:182-187 | fails exactly outside [0, 1]; otherwise only the confidence changes, to exactly the argument |
| HorseSpec.SetSaddle | Part2/src/Primary/Horse.java:232-254 | ends with the requested saddle; only confidence and saddle change; no change of saddle keeps the confidence; a change always lands in [0, 1] |
| HorseSpec.SetSymbol | Part2/src/Primary/Horse.java:197-199 | the symbol becomes the argument; every other field is kept |
| HorseSpec.SetName | Part2/src/Primary/Horse.java:209-211 | the name becomes the argument; every other field is kept |
| HorseSpec.SetColour | Part2/src/Primary/Horse.java:222-224 | the colour becomes the argument; every other field is kept |
| HorseSpec.RecentTrends | Part2/src/Primary/Horse.java:297-301 | same length as the stored history; element k is the position recorded k races before the last |
| HorseSpec.Fall | Part2/src/Primary/Horse.java:90-92 | sets the fallen flag and keeps distance and all cross-race state |
| HorseSpec.MoveForward | Part2/src/Primary/Horse.java:166-168 | distance +1 (below the `int` limit); fallen flag and cross-race state kept |
| HorseSpec.GoBackToStart | Part2/src/Primary/Horse.java:148-151 | the horse is at the start (distance 0, not fallen); confidence, saddle, colour, name, symbol and trends kept |
| HorseSpec.AddNewTrend | Part2/src/Primary/Horse.java:323-326 | the history becomes the old history with the position appended; nothing else changes |
| HorseSpec.Reversed | Part2/src/Primary/Horse.java:297-301 | same length; element k is the stored element counted k from the end |
| HorseSpec.MostRecentPosition | Part2/src/Primary/Horse.java:308-313 | absent exactly when the history is empty, otherwise the position added last |
| HorseSpec.SetSaddleClamps | Part2/src/Primary/Horse.java:235-251 | for a valid horse, putting the saddle on gives min(1, c + 0.025), taking it off max(0, c - 0.025) |
| HorseSpec.SaddleOnOffRestores | Part2/src/Primary/Horse.java:235-251 | with confidence at most 0.975, saddle on then off restores the horse exactly |
| HorseSpec.SaddleOffOnRestores | Part2/src/Primary/Horse.java:243-251 | with confidence at least 0.025, saddle off then on restores the horse exactly |
| HorseSpec.SaddleSaturationLosesStep | Part2/src/Primary/Horse.java:238-242 | at confidence 1 the saddle saturates (stays 1, not 1.025); off again gives 0.975 |
| HorseSpec.FallIdempotent | Part2/src/Primary/Horse.java:90-92 | falling twice is the same as falling once |
| HorseSpec.ReversedAppend | Part2/src/Primary/Horse.java:297-301 | appending a position puts it first in the reversed view |
| HorseSpec.ReversedInvolution | Part2/src/Primary/Horse.java:297-301 | reversing the reversed view gives back the stored chronological order |
| HorseSpec.AddNewTrendIsMostRecent | Part2/src/Primary/Horse.java:297-326 | after adding p, the most-recent-first view is p followed by the old view, and the most recent position is p |
| HorseSpec.TrendOrderExample | Part2/src/Primary/Horse.java:297-326 | recording 3, 1, 2 reads back as 2, 1, 3 ahead of the older history, most recent position 2 |
| RaceSeries.SetConfidenceCallNoTrace | Part2/src/Primary/Horse.java:182-187 | a caught rejection leaves the horse unchanged: the call is a no-op exactly when the value is out of range or already the confidence; an accepted value is read back exactly |
| RaceSeries.RunKeepsConfidenceInRange | Part2/src/Primary/Horse.java:182-254 | from a valid horse, every sequence of calls ends with confidence in [0, 1] |
| RaceSeries.RunAppendsTrends | Part2/src/Primary/Horse.java:297-326 | after any calls the history is the old one followed by the recorded positions in call order; the view shows them most recent first ahead of the old view |
| RaceSeries.RunWithinRace | Part2/src/Primary/Horse.java:148-168 | with no return to the start, a fallen horse stays fallen and the distance grows by exactly the number of steps (below the `int` limit) |
| RaceSeries.RaceCallsKeepIdentity | Part2/src/Primary/Horse.java:148-168 | calls of moveForward, fall, goBackToStart and addNewTrend never change confidence, saddle, colour, name or symbol |
| RaceSeries.ResetAfterRace | Part2/src/Primary/Horse.java:148-151 | whatever the race did, a final goBackToStart leaves the horse at the start with its cross-race state kept |
| Primary.Horse.constructor | Part2/src/Primary/Horse.java:74-79 | for an in-range confidence, the new object's state is the one `NewHorse` gives and satisfies the invariant |
| Primary.Horse.Create | Part2/src/Primary/Horse.java:68-80 | fails with the exception when `NewHorse` does; otherwise a fresh valid object whose state is `NewHorse`'s |
| Primary.Horse.GetColour | Part2/src/Primary/Horse.java:85-87 | returns the stored colour |
| Primary.Horse.Fall | Part2/src/Primary/Horse.java:90-92 | modifies only the fallen flag; the new state is `HorseSpec.Fall` of the old |
| Primary.Horse.GetConfidence | Part2/src/Primary/Horse.java:103-105 | returns the stored confidence, which lies in [0, 1] |
| Primary.Horse.GetDistanceTravelled | Part2/src/Primary/Horse.java:112-114 | returns the stored distance |
| Primary.Horse.GetName | Part2/src/Primary/Horse.java:121-123 | returns the stored name |
| Primary.Horse.GetSymbol | Part2/src/Primary/Horse.java:130-132 | returns the stored symbol |
| Primary.Horse.GetSaddle | Part2/src/Primary/Horse.java:139-141 | returns the stored saddle flag |
| Primary.Horse.GoBackToStart | Part2/src/Primary/Horse.java:148-151 | modifies only distance and fallen flag; the new state is `HorseSpec.GoBackToStart` of the old |
| Primary.Horse.HasFallen | Part2/src/Primary/Horse.java:158-160 | returns the stored fallen flag |
| Primary.Horse.MoveForward | Part2/src/Primary/Horse.java:166-168 | modifies only the distance; the new state is `HorseSpec.MoveForward` of the old |
| Primary.Horse.SetConfidence | Part2/src/Primary/Horse.java:182-187 | modifies only the confidence; on a rejected value reports the exception and leaves the state unchanged, otherwise the state `HorseSpec.SetConfidence` gives |
| Primary.Horse.SetSymbol | Part2/src/Primary/Horse.java:197-199 | modifies only the symbol, to the argument |
| Primary.Horse.SetName | Part2/src/Primary/Horse.java:209-211 | modifies only the name, to the argument |
| Primary.Horse.SetColour | Part2/src/Primary/Horse.java:222-224 | modifies only the colour, to the argument |
| Primary.Horse.SetSaddle | Part2/src/Primary/Horse.java:232-254 | modifies only confidence and saddle; keeps the invariant; the new state is `HorseSpec.SetSaddle` of the old |
| Primary.Horse.GetRecentTrends | Part2/src/Primary/Horse.java:297-301 | returns the stored history reversed, element by element, without changing it |
| Primary.Horse.GetMostRecentPosition | Part2/src/Primary/Horse.java:308-313 | `None` exactly when nothing has been recorded, otherwise the position recorded last |
| Primary.Horse.AddNewTrend | Part2/src/Primary/Horse.java:323-326 | modifies only the history, appending the position |

## Left out

- `Part2/src/Utils/Sprite/LoadImageIcon.java`: classpath resource lookup and Swing `ImageIcon` construction are I/O and a foreign library, with no logic to state.
- IEEE-754 `double` behaviour of the confidence. Rounding is not modelled, for example whether 0.975 + 0.025 is exactly 1.0. NaN is not modelled either: a NaN passes the Java range check, because both comparisons are false. The model uses exact reals.
- `java.awt.Color` identity and RGB values: abstracted to the enumerated `HorseColours.Color`.
- Java `char` and `String` are UTF-16 code units, while Dafny's `char` and `string` are Unicode scalar values. A symbol such as `'\U{1F40E}'` is a legal model symbol that Java's `char horseSymbol` cannot hold.
- For the same reason, lone surrogate code units are legal Java symbols and name characters that the model cannot represent.
- `null` values: a `null` name, a `null` colour (the Java switch would throw on it) and a `null` `Integer` position are not modelled. Positions are plain `int32`.
- Primary.Horse.GetRecentTrends: Java's `List.reversed()` returns a live view of the stored list, so a caller could change the history through it. The model returns a copy and does not capture that aliasing.
- Primary.Horse.MoveForward: no guard against a fallen horse, as in the source. Calling it only on a horse still running is the race controller's responsibility and is not enforced.
- The race controller's random advance/fall decision, rendering, betting and UI are not part of this model.
