/** The colour of an edge of the wall puzzle, its textual form, and the rule
    that decides whether an edge may follow the edge used to arrive. */
module Colors {

  /** Red and Blue are edge colours; None is the colour of the synthetic start
      state and of any edge whose colour name is not recognised. */
  datatype Color = Red | Blue | None

  /** The lower-case name a colour is printed with. */
  function Display(c: Color): (s: string)
    ensures |s| > 0 && forall i :: 0 <= i < |s| ==> 'a' <= s[i] <= 'z'
  {
    match c
    case Red => "red"
    case Blue => "blue"
    case None => "none"
  }

  /** Total conversion from a colour name: only "red" and "blue" are recognised,
      every other name (for example "green") becomes None and never fails. */
  function FromName(s: string): (c: Color)
    ensures c == Red <==> s == "red"
    ensures c == Blue <==> s == "blue"
    ensures c == None <==> s != "red" && s != "blue"
  {
    match s
    case "red" => Red
    case "blue" => Blue
    case _ => None
  }

  /** Printing a colour and reading the name back gives the same colour. */
  lemma DisplayRoundTrip(c: Color)
    ensures FromName(Display(c)) == c
  {
    match c
    case Red =>
    case Blue =>
    case None =>
  }

  /** Different colours are printed differently. */
  lemma DisplayInjective(c: Color, d: Color)
    ensures Display(c) == Display(d) ==> c == d
  {
    DisplayRoundTrip(c);
    DisplayRoundTrip(d);
  }

  /** An edge of colour `next` may be taken after arriving by an edge of colour
      `last` unless both are the same real colour. */
  predicate CanFollow(last: Color, next: Color)
    ensures last == None ==> CanFollow(last, next)
    ensures next == None ==> CanFollow(last, next)
    ensures last != next ==> CanFollow(last, next)
    ensures last == next && next != None ==> !CanFollow(last, next)
  {
    next == None || last != next
  }
}
