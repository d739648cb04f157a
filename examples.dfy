/** The program's own examples, stated on the model: reading the sample
    graphs, the simple search and its printed output, and the search on a graph
    with a node that is only ever a destination.

    The inputs are string literals. Given a literal, the verifier unfolds the
    parser on it character by character and runs out of resources, so each
    input is first cut into the pieces it is written with (the `...Pieces`,
    `...IsWritten`, `...Meaning`, `OneEdgeThen`, `TwoEdgeLine` and `TwoLines...`
    lemmas, which state nothing about the program) and the general read-back
    lemmas of the format are applied to those pieces. */
module Examples {
  import opened Colors
  import opened Graphs
  import opened Parser
  import opened PuzzleFormat
  import opened Search
  import opened Report

  /** Two lines, each naming two edges; `b` is only a destination. */
  const TwoLines := "a red:b blue:a\nc red:a blue:b"

  function TwoLinesGraph(): (g: Graph)
    ensures "a" in g && "c" in g && "b" !in g
  {
    map["a" := [Edge(Red, "b"), Edge(Blue, "a")], "c" := [Edge(Red, "a"), Edge(Blue, "b")]]
  }

  /** The first line ends with a space before its newline. */
  const TrailingSpace := "a red:b \nb blue:a"

  function OneEdgeGraph(): (g: Graph)
    ensures "a" in g && "b" !in g
  {
    map["a" := [Edge(Red, "b")]]
  }

  /** Colour names: the two known ones, and any other as None. */
  lemma ColorNames()
    ensures FromName("red") == Red && FromName("blue") == Blue && FromName("green") == Color.None
  {
  }

  /** A line of two written edges followed by `rest`. */
  lemma TwoEdgeLine(w: WrittenLine, rest: string)
    requires |w.1| == 2
    ensures LinesThen([w], rest) == w.0 + (w.1[0].blanks + (w.1[0].word + (":" + (w.1[0].node
              + (w.1[1].blanks + (w.1[1].word + (":" + (w.1[1].node + rest))))))))
  {
    assert w.1[1..] == [w.1[1]];
    OneEdgeThen(w.1[1], rest);
  }

  /** One written edge followed by `rest`. */
  lemma OneEdgeThen(x: Written, rest: string)
    ensures EdgesThen([x], rest) == x.blanks + (x.word + (":" + (x.node + rest)))
  {
    assert [x][1..] == [];
  }

  /** The meaning of one written edge. */
  lemma OneMeaning(x: Written)
    ensures Meanings([x]) == [Meaning(x)]
  {
    assert [x][1..] == [];
  }

  /** The meanings of two written edges. */
  lemma TwoMeanings(x: Written, y: Written)
    ensures Meanings([x, y]) == [Meaning(x), Meaning(y)]
  {
    assert [x, y][1..] == [y] && [y][1..] == [];
  }

  /** Two lines of two written edges each. */
  lemma TwoLinesText(w1: WrittenLine, w2: WrittenLine)
    requires |w1.1| == 2 && |w2.1| == 2
    ensures LinesThen([w1, w2], []) == w1.0 + (w1.1[0].blanks + (w1.1[0].word + (":" + (w1.1[0].node
              + (w1.1[1].blanks + (w1.1[1].word + (":" + (w1.1[1].node + ("\n" + LinesThen([w2], []))))))))))
  {
    assert [w1, w2][1..] == [w2];
    TwoEdgeLine(w1, "\n" + LinesThen([w2], []));
  }

  /** The two-line input as written lines. */
  const TwoLinesWritten: seq<WrittenLine> := [("a", [Written(" ", "red", "b"), Written(" ", "blue", "a")]),
                                              ("c", [Written(" ", "red", "a"), Written(" ", "blue", "b")])]

  lemma TwoLinesIsWritten(s: string)
    requires s == TwoLines
    ensures s == LinesThen(TwoLinesWritten, [])
  {
    var w1 := TwoLinesWritten[0];
    var w2 := TwoLinesWritten[1];
    assert TwoLinesWritten == [w1, w2];
    TwoLinesPieces(s);
    TwoLinesFrom(w1, w2, s);
  }

  /** The two-line input, cut where its written edges begin and end. */
  lemma TwoLinesPieces(s: string)
    requires s == TwoLines
    ensures s == "a" + (" " + ("red" + (":" + ("b" + (" " + ("blue" + (":" + ("a" + ("\n"
                 + ("c" + (" " + ("red" + (":" + ("a" + (" " + ("blue" + (":" + ("b" + []))))))))))))))))))
  {
  }

  /** Two lines of two written edges each, joined by a newline. */
  lemma TwoLinesFrom(w1: WrittenLine, w2: WrittenLine, s: string)
    requires |w1.1| == 2 && |w2.1| == 2
    requires s == w1.0 + (w1.1[0].blanks + (w1.1[0].word + (":" + (w1.1[0].node
              + (w1.1[1].blanks + (w1.1[1].word + (":" + (w1.1[1].node + ("\n"
              + (w2.0 + (w2.1[0].blanks + (w2.1[0].word + (":" + (w2.1[0].node
              + (w2.1[1].blanks + (w2.1[1].word + (":" + (w2.1[1].node + []))))))))))))))))))
    ensures s == LinesThen([w1, w2], [])
  {
    TwoEdgeLine(w2, []);
    TwoLinesText(w1, w2);
  }

  lemma TwoLinesWellWritten()
    ensures forall w :: w in TwoLinesWritten ==> WellWrittenLine(w)
  {
    assert WellWrittenLine(TwoLinesWritten[0]) && WellWrittenLine(TwoLinesWritten[1]);
  }

  lemma TwoLinesMeaning()
    ensures LineMeanings(TwoLinesWritten) == [("a", [Edge(Red, "b"), Edge(Blue, "a")]), ("c", [Edge(Red, "a"), Edge(Blue, "b")])]
  {
    var w1 := TwoLinesWritten[0];
    var w2 := TwoLinesWritten[1];
    assert TwoLinesWritten[1..] == [w2];
    OneLineMeaning(w2);
    TwoMeanings(w1.1[0], w1.1[1]);
    TwoMeanings(w2.1[0], w2.1[1]);
  }

  lemma CollectTwoLines(l1: Line, l2: Line)
    requires l1 == ("a", [Edge(Red, "b"), Edge(Blue, "a")]) && l2 == ("c", [Edge(Red, "a"), Edge(Blue, "b")])
    ensures Collect([l1, l2]) == TwoLinesGraph()
  {
    assert [l1, l2][..1] == [l1] && [l1][..0] == [];
    assert Collect([l1]) == map["a" := l1.1];
  }

  /** Both lines are read, in full. */
  lemma ReadTwoLines(s: string)
    requires s == TwoLines
    ensures PuzzleFromStr(s) == TwoLinesGraph()
  {
    TwoLinesIsWritten(s);
    TwoLinesWellWritten();
    WrittenRoundTrip(TwoLinesWritten);
    TwoLinesMeaning();
    CollectTwoLines(LineMeanings(TwoLinesWritten)[0], LineMeanings(TwoLinesWritten)[1]);
  }

  /** A tab and a double space are separators as good as one space, and an
      unknown colour word is read as None. */
  const Spaced := "a\tgreen:b  red:c"

  /** The spaced input as a written line. */
  const SpacedWritten: WrittenLine := ("a", [Written("\t", "green", "b"), Written("  ", "red", "c")])

  lemma SpacedIsWritten(s: string)
    requires s == Spaced
    ensures s == LinesThen([SpacedWritten], [])
  {
    TwoEdgeLine(SpacedWritten, []);
  }

  lemma SpacedWellWritten()
    ensures WellWrittenLine(SpacedWritten)
  {
    assert IsBlanks("\t") && IsBlanks("  ");
  }

  lemma SpacedMeaning()
    ensures LineMeanings([SpacedWritten]) == [("a", [Edge(Color.None, "b"), Edge(Red, "c")])]
  {
    OneLineMeaning(SpacedWritten);
    TwoMeanings(SpacedWritten.1[0], SpacedWritten.1[1]);
  }

  lemma ReadSpaced(s: string)
    requires s == Spaced
    ensures ParseNodes(s) == Ok([], [("a", [Edge(Color.None, "b"), Edge(Red, "c")])])
  {
    SpacedIsWritten(s);
    SpacedWellWritten();
    EmptyEndsLines();
    ParseNodesThen([SpacedWritten], []);
    SpacedMeaning();
  }

  /** A blank followed by a newline neither extends nor continues anything. */
  lemma BlankThenNewline(after: string, rest: string)
    requires after != [] && after[0] == '\n' && rest == " " + after
    ensures EndsLines(rest)
  {
    assert ParseEdge(after).Err?;
    Space1Of(" ", after);
    assert Tag("\n", rest).Err?;
  }

  /** One written line followed by text that ends it. */
  lemma ReadLineThen(w: WrittenLine, rest: string, s: string)
    requires WellWrittenLine(w) && EndsLines(rest) && s == LinesThen([w], rest)
    ensures ParseNodes(s) == Ok(rest, [LineMeaning(w)])
    ensures PuzzleFromStr(s) == Collect([LineMeaning(w)])
  {
    ParseNodesThen([w], rest);
    OneLineMeaning(w);
  }

  lemma OneLineMeaning(w: WrittenLine)
    ensures LineMeanings([w]) == [LineMeaning(w)]
  {
    assert [w][1..] == [];
  }

  /** The trailing-space input: one written edge, then a blank and the rest. */
  const TrailingWritten: WrittenLine := ("a", [Written(" ", "red", "b")])

  lemma TrailingSpaceIsWritten(s: string, rest: string)
    requires s == TrailingSpace && rest == " \nb blue:a"
    ensures s == LinesThen([TrailingWritten], rest)
  {
    OneEdgeThen(TrailingWritten.1[0], rest);
    assert TrailingWritten.1 == [TrailingWritten.1[0]];
  }

  lemma TrailingMeaning()
    ensures WellWrittenLine(TrailingWritten)
    ensures LineMeaning(TrailingWritten) == ("a", [Edge(Red, "b")])
  {
    var x := TrailingWritten.1[0];
    assert IsBlanks(x.blanks) && IsWord(x.word) && IsWord(x.node);
    assert TrailingWritten.1 == [x];
    OneMeaning(x);
    assert Meaning(x) == Edge(Red, "b");
  }

  /** The blank after the last edge of the first line is a separator with no
      edge after it, so it is left unread; the newline that follows it is then
      not a line separator, and the second line is never read. */
  lemma ReadTrailingSpace(s: string)
    requires s == TrailingSpace
    ensures ParseNodes(s) == Ok(" \nb blue:a", [("a", [Edge(Red, "b")])])
    ensures PuzzleFromStr(s) == OneEdgeGraph()
  {
    var rest := " \nb blue:a";
    TrailingSpaceIsWritten(s, rest);
    TrailingMeaning();
    BlankThenNewline("\nb blue:a", rest);
    ReadLineThen(TrailingWritten, rest, s);
  }

  /** Every edge of the one-edge graph leads to the state (red, b). */
  lemma OneEdgePaths(p: seq<Edge>, i: nat)
    requires IsPathFrom(OneEdgeGraph(), "a", p) && 0 < i < |p|
    ensures p[i] == Edge(Red, "b")
  {
    assert IsStep(OneEdgeGraph(), p[i - 1], p[i]);
  }

  /** From `a` to `b` in the one-edge graph, the only answer is the path that
      takes the red edge. */
  lemma SimpleAnswer(r: Outcome)
    requires IsAnswer(OneEdgeGraph(), "a", "b", r)
    ensures r == Found([Edge(Color.None, "a"), Edge(Red, "b")])
  {
    var g := OneEdgeGraph();
    var p := [Edge(Color.None, "a"), Edge(Red, "b")];
    assert IsStep(g, p[0], p[1]);
    assert IsPathFrom(g, "a", p) && Last(p).node == "b";
    if r.Panicked? {
      var q :| IsPathFrom(g, "a", q) && Last(q).node == r.node
               && forall q' :: IsPathFrom(g, "a", q') && Last(q').node == "b" ==> |q| <= |q'|;
      if |q| > 1 {
        OneEdgePaths(q, |q| - 1);
      }
      assert false;
    }
    assert r.Found?;
    var path := r.path;
    assert |path| == 2;
    OneEdgePaths(path, 1);
    assert path == p;
  }

  lemma SimpleLine(a: Edge, b: Edge)
    requires a == Edge(Color.None, "a") && b == Edge(Red, "b")
    ensures StepLine(a, b) == "a ==(red)=> b"
  {
  }

  /** Reading the trailing-space example and searching from `a` to `b` finds
      the red edge; the goal `b` has no entry, but it is reached, not expanded. */
  method SolveSimple(input: string) returns (r: Outcome, out: seq<string>)
    requires input == TrailingSpace
    ensures r == Found([Edge(Color.None, "a"), Edge(Red, "b")])
    ensures out == ["a ==(red)=> b"]
  {
    var g := PuzzleFromStr(input);
    ReadTrailingSpace(input);
    r := Solve(g, "a", "b");
    SimpleAnswer(r);
    out := PrintSimple(r);
  }

  /** The path of the simple search is printed as one step. */
  method PrintSimple(r: Outcome) returns (out: seq<string>)
    requires r == Found([Edge(Color.None, "a"), Edge(Red, "b")])
    ensures out == ["a ==(red)=> b"]
  {
    out := Report.Report(r);
    assert |r.path| == 2 && |out| == 1;
    SimpleLine(r.path[0], r.path[1]);
    assert out == [out[0]];
  }

  /** Every edge of the two-line graph leads to `a` or `b`. */
  lemma TwoLinesPaths(p: seq<Edge>, i: nat)
    requires IsPathFrom(TwoLinesGraph(), "a", p) && i < |p|
    ensures p[i].node == "a" || p[i].node == "b"
  {
    if i > 0 {
      assert IsStep(TwoLinesGraph(), p[i - 1], p[i]);
    }
  }

  /** No path from `a` reaches `c` in the two-line graph. */
  lemma TwoLinesNoPath(p: seq<Edge>)
    requires IsPathFrom(TwoLinesGraph(), "a", p)
    ensures Last(p).node != "c"
  {
    TwoLinesPaths(p, |p| - 1);
  }

  /** As written, searching the two-line graph from `a` to `c` aborts: the state
      (red, b) is expanded and `b` has no entry. */
  lemma TwoLinesAnswer(r: Outcome)
    requires IsAnswer(TwoLinesGraph(), "a", "c", r)
    ensures r == Panicked("b")
  {
    var g := TwoLinesGraph();
    var p := [Edge(Color.None, "a"), Edge(Red, "b")];
    assert IsStep(g, p[0], p[1]);
    assert IsPathFrom(g, "a", p);
    if r.Found? {
      TwoLinesNoPath(r.path);
    } else if r.NoPath? {
      assert false;
    } else {
      var q :| IsPathFrom(g, "a", q) && Last(q).node == r.node
               && forall q' :: IsPathFrom(g, "a", q') && Last(q').node == "c" ==> |q| <= |q'|;
      TwoLinesPaths(q, |q| - 1);
    }
  }

  /** `a` has a red edge to `b`, which has no entry, and a blue edge to `x`,
      whose red edge leads to `c`. */
  function BranchGraph(): (g: Graph)
    ensures "a" in g && "x" in g && "b" !in g && "c" !in g
  {
    map["a" := [Edge(Red, "b"), Edge(Blue, "x")], "x" := [Edge(Red, "c")]]
  }

  /** Every state a path of the branch graph reaches, by the number of steps. */
  lemma {:induction false} BranchPaths(p: seq<Edge>)
    requires IsPathFrom(BranchGraph(), "a", p)
    ensures |p| == 1 ==> Last(p).node == "a"
    ensures |p| == 2 ==> Last(p).node == "b" || Last(p).node == "x"
    ensures |p| >= 3 ==> |p| == 3 && Last(p) == Edge(Red, "c")
  {
    if |p| > 1 {
      var q := p[..|p| - 1];
      PathPrefix(BranchGraph(), "a", p);
      BranchPaths(q);
    }
  }

  /** As written, the search of the branch graph from `a` to `c` aborts on `b`:
      the path to `c` is longer than the path to `b`, so `b` is expanded first. */
  lemma BranchAnswer(r: Outcome)
    requires IsAnswer(BranchGraph(), "a", "c", r)
    ensures r == Panicked("b")
  {
    var g := BranchGraph();
    var p := [Edge(Color.None, "a"), Edge(Red, "b")];
    var q := [Edge(Color.None, "a"), Edge(Blue, "x"), Edge(Red, "c")];
    assert IsStep(g, p[0], p[1]) && IsStep(g, q[0], q[1]) && IsStep(g, q[1], q[2]);
    assert IsPathFrom(g, "a", p) && IsPathFrom(g, "a", q);
    forall w | IsPathFrom(g, "a", w)
      ensures Last(w).node == "c" ==> |w| == 3
      ensures Last(w).node in {"a", "b", "x", "c"}
    {
      BranchPaths(w);
    }
  }

  /** The program as written, on the two-line input from `a` to `c`: the search
      aborts on `b` and nothing is printed. */
  method SolveAsWritten(input: string) returns (r: Outcome, out: seq<string>)
    requires input == TwoLines
    ensures r == Panicked("b") && out == []
  {
    ReadTwoLines(input);
    r := Solve(PuzzleFromStr(input), "a", "c");
    TwoLinesAnswer(r);
    out := Report.Report(r);
  }

  /** With a node without an entry treated as having no edges, the same search
      reports that there is no solution. */
  method SolveCorrected(input: string) returns (r: Outcome, out: seq<string>)
    requires input == TwoLines
    ensures r == NoPath && out == ["No solution found"]
  {
    ReadTwoLines(input);
    r := SolveTotal(PuzzleFromStr(input), "a", "c");
    forall p | IsPathFrom(TwoLinesGraph(), "a", p)
      ensures Last(p).node != "c"
    {
      TwoLinesNoPath(p);
    }
    out := Report.Report(r);
  }
}
