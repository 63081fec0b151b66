/** The horse's categorical colour and its resolution to a display colour. */
module HorseColours {

  /**
   * The `HorseColour` enum. Its four named constants are the ones the lookup
   * distinguishes; any further constant of the enum is `Other`, carrying its name.
   */
  datatype HorseColour = Red | Green | Blue | Purple | Other(constant: string)

  /** The `java.awt.Color` constants the lookup can produce. */
  datatype Color = Blue | Green | Magenta | Red | DarkGray

  predicate IsNamed(colour: HorseColour) {
    !colour.Other?
  }

  /**
   * `Horse.parseHorseColour`: a total lookup. Each named colour has its own
   * non-grey display colour; every other constant falls to the default branch.
   */
  function ParseHorseColour(colour: HorseColour): (parsed: Color)
    ensures parsed == Color.DarkGray <==> !IsNamed(colour)
    ensures colour == HorseColour.Blue <==> parsed == Color.Blue
    ensures colour == HorseColour.Green <==> parsed == Color.Green
    ensures colour == HorseColour.Purple <==> parsed == Color.Magenta
    ensures colour == HorseColour.Red <==> parsed == Color.Red
  {
    match colour
    case Blue => Color.Blue
    case Green => Color.Green
    case Purple => Color.Magenta
    case Red => Color.Red
    case Other(_) => Color.DarkGray
  }

  /** Distinct named colours resolve to distinct display colours. */
  lemma ParseHorseColourInjectiveOnNamed(a: HorseColour, b: HorseColour)
    requires IsNamed(a) && IsNamed(b)
    ensures ParseHorseColour(a) == ParseHorseColour(b) <==> a == b
  {
  }
}
