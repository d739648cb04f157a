/** Printing a solution: one line per step, `from ==(colour)=> to`, and the
    message printed when there is no solution. */
module Report {
  import opened Colors
  import opened Graphs
  import opened Search

  /** The line printed for the step from state `a` to state `b`, `a ==(c)=> b`.
      It can be read back as the node left, the colour of the edge taken and
      the node reached; the colour the state arrived with at `a` is not
      printed. */
  function StepLine(a: Edge, b: Edge): (s: string)
    ensures ' ' !in a.node ==> ReadStepLine(s) == Some((a.node, b.color, b.node))
  {
    var t := "==(" + (Display(b.color) + (")=> " + b.node));
    var s := a.node + ([' '] + t);
    assert ' ' !in a.node ==> ReadStepLine(s) == Some((a.node, b.color, b.node)) by {
      if ' ' !in a.node {
        SplitAtFirst(a.node, t, ' ');
        ReadArrowOf(b.color, b.node);
      }
    }
    s
  }

  /** The part of `s` before the first `m` (all of `s` when there is none). */
  function Before(s: string, m: char): string {
    if s == [] || s[0] == m then [] else [s[0]] + Before(s[1..], m)
  }

  /** The part of `s` after the first `m` (nothing when there is none). */
  function After(s: string, m: char): string {
    if s == [] then [] else if s[0] == m then s[1..] else After(s[1..], m)
  }

  lemma {:induction false} SplitAtFirst(w: string, r: string, m: char)
    requires m !in w
    ensures Before(w + ([m] + r), m) == w && After(w + ([m] + r), m) == r
  {
    if w != [] {
      assert (w + ([m] + r))[1..] == w[1..] + ([m] + r);
      SplitAtFirst(w[1..], r, m);
      assert [w[0]] + w[1..] == w;
    }
  }

  /** Reads the part of a step line after the node left: `==(`, the colour
      named up to the `)`, then `=> ` and the node reached. Nothing is read when
      either delimiter is missing. */
  function ReadArrow(t: string): Option<(Color, string)> {
    if |t| < 3 || t[..3] != "==(" then Option.None
    else
      var u := t[3..];
      var v := After(u, ')');
      if |v| < 3 || v[..3] != "=> " then Option.None
      else Some((FromName(Before(u, ')')), v[3..]))
  }

  /** Reads a printed step line back: the node before the first space, then
      the colour and the node reached. */
  function ReadStepLine(s: string): Option<(string, Color, string)> {
    match ReadArrow(After(s, ' '))
    case None => Option.None
    case Some((c, n)) => Some((Before(s, ' '), c, n))
  }

  lemma DisplayHasNoParen(c: Color)
    ensures ')' !in Display(c)
  {
    match c
    case Red =>
    case Blue =>
    case None =>
  }

  lemma ReadArrowOf(c: Color, n: string)
    ensures ReadArrow("==(" + (Display(c) + (")=> " + n))) == Some((c, n))
  {
    var d := Display(c);
    var t := "==(" + (d + (")=> " + n));
    assert t[..3] == "==(" && t[3..] == d + ([')'] + ("=> " + n));
    DisplayHasNoParen(c);
    SplitAtFirst(d, "=> " + n, ')');
    assert ("=> " + n)[..3] == "=> " && ("=> " + n)[3..] == n;
    DisplayRoundTrip(c);
  }

  /** A step line is never the message printed when there is no solution. */
  lemma StepLineIsNotMessage(a: Edge, b: Edge)
    ensures StepLine(a, b) != "No solution found"
  {
    assert StepLine(a, b)[|a.node| + 1] == '=';
    assert '=' !in "No solution found";
  }

  datatype Option<T> = None | Some(value: T)

  /** `print_solution`: walks the path keeping the previous and the current
      state, and emits a line for every state that has a predecessor. */
  method PrintSolution(solution: seq<Edge>) returns (lines: seq<string>)
    ensures |lines| == if |solution| == 0 then 0 else |solution| - 1
    ensures forall i :: 0 <= i < |lines| ==> lines[i] == StepLine(solution[i], solution[i + 1])
  {
    var prev: Option<Edge> := Option.None;
    var cur: Option<Edge> := Option.None;
    lines := [];
    for k := 0 to |solution|
      invariant cur == if k == 0 then Option.None else Some(solution[k - 1])
      invariant |lines| == if k == 0 then 0 else k - 1
      invariant forall i :: 0 <= i < |lines| ==> lines[i] == StepLine(solution[i], solution[i + 1])
    {
      prev := cur;
      cur := Some(solution[k]);
      if prev.Some? && cur.Some? {
        lines := lines + [StepLine(prev.value, cur.value)];
      }
    }
  }

  /** What the program prints for an outcome of the search: the steps of a path
      found, the message when there is none, and nothing on standard output
      when the search aborts. */
  method Report(r: Outcome) returns (out: seq<string>)
    ensures r.Found? ==> |out| == (if |r.path| == 0 then 0 else |r.path| - 1)
    ensures r.Found? ==> forall i :: 0 <= i < |out| ==> out[i] == StepLine(r.path[i], r.path[i + 1])
    ensures r.NoPath? <==> out == ["No solution found"]
    ensures r.Panicked? ==> out == []
  {
    match r
    case Found(path) =>
      out := PrintSolution(path);
      if |out| == 1 {
        StepLineIsNotMessage(path[0], path[1]);
      }
    case NoPath =>
      out := ["No solution found"];
    case Panicked(_) =>
      out := [];
  }
}
