/** The closed vocabulary of turn directions that label the edges of the
    directed maps, with the spelling used in map files and on the command
    line, and the opposite direction used for the reverse half of a road. */
module Directions {
  import opened Common

  datatype Direction = Right | Left | Straight | Back

  /** The lower-case word written for a direction; with its terminator it
      fits the 10-byte buffer the loaders read it into. */
  function Name(d: Direction): (r: string)
    ensures |r| < 10
  {
    match d
    case Right => "right"
    case Left => "left"
    case Straight => "straight"
    case Back => "back"
  }

  /** The case-sensitive comparison chain that turns a word back into a
      direction; any other word is not a direction. */
  function Parse(w: string): (r: Option<Direction>)
    ensures r.Some? ==> Name(r.value) == w
    ensures r.None? ==> forall d :: Name(d) != w
  {
    if w == "right" then Some(Right)
    else if w == "left" then Some(Left)
    else if w == "straight" then Some(Straight)
    else if w == "back" then Some(Back)
    else None
  }

  /** Printing a direction and parsing the word gives the direction back. */
  lemma ParseName(d: Direction)
    ensures Parse(Name(d)) == Some(d)
  {
    match d
    case Right =>
    case Left =>
    case Straight => assert Name(d) != "right" && Name(d) != "left";
    case Back => assert Name(d) != "right" && Name(d) != "left" && Name(d) != "straight";
  }

  /** The direction of the reverse edge of a two-way road. */
  function Opposite(d: Direction): (r: Direction)
    ensures r != d
  {
    match d
    case Right => Left
    case Left => Right
    case Straight => Back
    case Back => Straight
  }

  lemma OppositeInvolution(d: Direction)
    ensures Opposite(Opposite(d)) == d
  {
    match d
    case Right =>
    case Left =>
    case Straight =>
    case Back =>
  }
}
