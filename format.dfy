/** Writing the puzzle format, and reading it back. Text is made of written
    edges: each is a run of blanks, a colour word, a colon and a destination.
    Every line so written is read back as its name and the edges its words
    stand for; conversely, every line the parser reads is such text. */
module PuzzleFormat {
  import opened Colors
  import opened Graphs
  import opened Parser

  /** An edge as it stands in a line: the blanks before it, its colour word and
      its destination. */
  datatype Written = Written(blanks: string, word: string, node: string)

  /** One or more spaces and tabs. */
  ghost predicate IsBlanks(b: string) {
    |b| > 0 && forall i :: 0 <= i < |b| ==> IsBlank(b[i])
  }

  /** A written edge the format allows: blanks, then `word:word`. */
  ghost predicate WellWritten(x: Written) {
    IsBlanks(x.blanks) && IsWord(x.word) && IsWord(x.node)
  }

  /** The edge a written edge stands for: its colour is the conversion of its
      colour word, so every word but "red" and "blue" means None. */
  function Meaning(x: Written): Edge {
    Edge(FromName(x.word), x.node)
  }

  function Meanings(xs: seq<Written>): (es: seq<Edge>)
    ensures |es| == |xs|
  {
    if xs == [] then [] else [Meaning(xs[0])] + Meanings(xs[1..])
  }

  /** Written edges, each after its blanks, followed by `rest`. */
  function EdgesThen(xs: seq<Written>, rest: string): string {
    if xs == [] then rest
    else xs[0].blanks + (xs[0].word + (":" + (xs[0].node + EdgesThen(xs[1..], rest))))
  }

  /** A line as written: a name and its written edges. */
  type WrittenLine = (string, seq<Written>)

  ghost predicate WellWrittenLine(w: WrittenLine) {
    IsWord(w.0) && |w.1| > 0 && forall x :: x in w.1 ==> WellWritten(x)
  }

  function LineMeaning(w: WrittenLine): Line {
    (w.0, Meanings(w.1))
  }

  function LineMeanings(ws: seq<WrittenLine>): (ls: seq<Line>)
    ensures |ls| == |ws|
  {
    if ws == [] then [] else [LineMeaning(ws[0])] + LineMeanings(ws[1..])
  }

  /** Written lines separated by newlines, followed by `rest`. */
  function LinesThen(ws: seq<WrittenLine>, rest: string): string {
    if ws == [] then rest
    else ws[0].0 + EdgesThen(ws[0].1, if |ws| == 1 then rest else "\n" + LinesThen(ws[1..], rest))
  }

  /** What may follow the last edge of a line: text that neither extends its
      destination nor continues its list of edges. */
  ghost predicate EndsEdges(rest: string) {
    EndsWord(rest) && MoreEdges(rest).0 == []
  }

  /** What may follow the last line: text that, in addition, does not continue
      the list of lines. */
  ghost predicate EndsLines(rest: string) {
    EndsEdges(rest) && MoreNodes(rest).0 == []
  }

  /** Text ends the edges of a line exactly when it does not extend the last
      destination and does not begin with blanks followed by `word:word` and a
      non-letter. */
  lemma EndsEdgesText(rest: string)
    ensures EndsEdges(rest) <==>
      (EndsWord(rest) && !exists b, w, n, t :: IsBlanks(b) && IsWord(w) && IsWord(n) && EndsWord(t)
                                               && rest == b + (w + (":" + (n + t))))
  {
    if MoreEdges(rest).0 != [] {
      var Ok(s1, b) := Space1(rest);
      var w := ParseEdgeSound(s1);
      var Ok(t, e) := ParseEdge(s1);
      Regroup(w, ":", e.node, t);
      assert IsBlanks(b) && rest == b + (w + (":" + (e.node + t)));
    } else if exists b, w, n, t :: IsBlanks(b) && IsWord(w) && IsWord(n) && EndsWord(t)
                                   && rest == b + (w + (":" + (n + t))) {
      var b, w, n, t :| IsBlanks(b) && IsWord(w) && IsWord(n) && EndsWord(t)
                        && rest == b + (w + (":" + (n + t)));
      MoreEdgesStep(Written(b, w, n), t, MoreEdges(t).0, MoreEdges(t).1);
      assert false;
    }
  }

  /** A written edge followed by a non-letter is read as the edge it stands for. */
  lemma ParseWritten(x: Written, t: string)
    requires WellWritten(x) && EndsWord(t)
    ensures ParseEdge(x.word + (":" + (x.node + t))) == Ok(t, Meaning(x))
  {
    ParseEdgeOf(x.word, x.node, t);
    Regroup(x.word, ":", x.node, t);
  }

  /** A written edge in front of further edges adds its meaning to them. */
  lemma MoreEdgesStep(x: Written, t: string, more: seq<Edge>, rest: string)
    requires WellWritten(x) && EndsWord(t) && MoreEdges(t) == (more, rest)
    ensures MoreEdges(x.blanks + (x.word + (":" + (x.node + t)))) == ([Meaning(x)] + more, rest)
  {
    var u := x.word + (":" + (x.node + t));
    assert u[0] == x.word[0];
    Space1Of(x.blanks, u);
    ParseWritten(x, t);
  }

  lemma InTail<T>(xs: seq<T>)
    requires xs != []
    ensures forall x :: x in xs[1..] ==> x in xs
  {
  }

  /** Written edges followed by text that ends them are read back as their
      meanings, in order, up to that text. */
  lemma {:induction false} MoreEdgesThen(xs: seq<Written>, rest: string)
    requires (forall x :: x in xs ==> WellWritten(x)) && EndsEdges(rest)
    ensures MoreEdges(EdgesThen(xs, rest)) == (Meanings(xs), rest)
    ensures EndsWord(EdgesThen(xs, rest))
  {
    if xs != [] {
      assert xs[0] in xs;
      InTail(xs);
      MoreEdgesThen(xs[1..], rest);
      MoreEdgesStep(xs[0], EdgesThen(xs[1..], rest), Meanings(xs[1..]), rest);
      assert EdgesThen(xs, rest)[0] == xs[0].blanks[0];
    }
  }

  /** A written line followed by text that ends its edges is read back as its
      name and the meanings of its edges. */
  lemma ParseNodeThen(w: WrittenLine, rest: string)
    requires WellWrittenLine(w) && EndsEdges(rest)
    ensures ParseNode(w.0 + EdgesThen(w.1, rest)) == Ok(rest, LineMeaning(w))
  {
    var xs := w.1;
    var x := xs[0];
    var t := EdgesThen(xs[1..], rest);
    var u := x.word + (":" + (x.node + t));
    assert x in xs;
    InTail(xs);
    MoreEdgesThen(xs[1..], rest);
    ParseWritten(x, t);
    assert ParseEdges(u) == Ok(rest, Meanings(xs));
    assert u[0] == x.word[0];
    Space1Of(x.blanks, u);
    assert EdgesThen(xs, rest)[0] == x.blanks[0];
    Alpha1Of(w.0, EdgesThen(xs, rest));
  }

  /** A newline followed by a node line continues the list of lines with the
      lines that follow it. */
  lemma MoreNodesAfterNewline(tail: string)
    requires ParseNode(tail).Ok?
    ensures MoreNodes("\n" + tail) == (ParseNodes(tail).value, ParseNodes(tail).rest)
  {
    assert Tag("\n", "\n" + tail) == Ok(tail, "\n");
  }

  /** A newline ends the edges of a line. */
  lemma NewlineEndsEdges(t: string)
    ensures EndsEdges("\n" + t)
  {
    assert Space1("\n" + t).Err?;
  }

  /** Written lines followed by text that ends them are read back as their
      meanings, in order, up to that text. */
  lemma {:induction false} ParseNodesThen(ws: seq<WrittenLine>, rest: string)
    requires |ws| > 0 && (forall w :: w in ws ==> WellWrittenLine(w)) && EndsLines(rest)
    ensures ParseNodes(LinesThen(ws, rest)) == Ok(rest, LineMeanings(ws))
  {
    assert ws[0] in ws;
    if |ws| == 1 {
      ParseNodeThen(ws[0], rest);
      assert LineMeanings(ws) == [LineMeaning(ws[0])] + [];
    } else {
      var t := LinesThen(ws[1..], rest);
      InTail(ws);
      ParseNodesThen(ws[1..], rest);
      NewlineEndsEdges(t);
      ParseNodeThen(ws[0], "\n" + t);
      MoreNodesAfterNewline(t);
    }
  }

  /** What the repeated part of an edge list reads is written edges, and the
      text it stops at ends them. */
  lemma {:induction false} MoreEdgesSound(s: string) returns (xs: seq<Written>)
    requires EndsWord(s)
    ensures forall x :: x in xs ==> WellWritten(x)
    ensures Meanings(xs) == MoreEdges(s).0 && s == EdgesThen(xs, MoreEdges(s).1)
    ensures EndsEdges(MoreEdges(s).1)
    decreases |s|
  {
    if MoreEdges(s).0 == [] {
      xs := [];
    } else {
      var Ok(s1, b) := Space1(s);
      var Ok(s2, e) := ParseEdge(s1);
      var w := ParseEdgeSound(s1);
      var ys := MoreEdgesSound(s2);
      xs := [Written(b, w, e.node)] + ys;
      Regroup(w, ":", e.node, s2);
      assert xs[1..] == ys;
    }
  }

  /** What the line parser reads is a written line, and the text it stops at
      ends its edges. */
  lemma ParseNodeSound(s: string) returns (w: WrittenLine)
    requires ParseNode(s).Ok?
    ensures WellWrittenLine(w) && LineMeaning(w) == ParseNode(s).value
    ensures s == w.0 + EdgesThen(w.1, ParseNode(s).rest) && EndsEdges(ParseNode(s).rest)
  {
    var Ok(s1, name) := Alpha1(s);
    var Ok(s2, b) := Space1(s1);
    var Ok(s3, e) := ParseEdge(s2);
    var word := ParseEdgeSound(s2);
    var ys := MoreEdgesSound(s3);
    w := (name, [Written(b, word, e.node)] + ys);
    Regroup(word, ":", e.node, s3);
    assert w.1[1..] == ys;
  }

  /** A non-empty list of lines read is written lines, and the text it stops
      at ends them. */
  lemma {:induction false} ParseNodesSound(s: string) returns (ws: seq<WrittenLine>)
    requires ParseNodes(s).value != []
    ensures |ws| > 0 && forall w :: w in ws ==> WellWrittenLine(w)
    ensures LineMeanings(ws) == ParseNodes(s).value
    ensures s == LinesThen(ws, ParseNodes(s).rest) && EndsLines(ParseNodes(s).rest)
    decreases |s|
  {
    var Ok(s1, l) := ParseNode(s);
    var w := ParseNodeSound(s);
    if MoreNodes(s1).0 == [] {
      ws := [w];
    } else {
      var t := s1[1..];
      assert s1 == "\n" + t;
      MoreNodesAfterNewline(t);
      var vs := ParseNodesSound(t);
      ws := [w] + vs;
      assert ws[1..] == vs;
    }
  }

  /** Reading written lines followed by the end of the text gives the map
      collected from the lines they stand for, with nothing left over. */
  lemma WrittenRoundTrip(ws: seq<WrittenLine>)
    requires forall w :: w in ws ==> WellWrittenLine(w)
    ensures ParsePuzzle(LinesThen(ws, [])) == Ok([], Collect(LineMeanings(ws)))
    ensures PuzzleFromStr(LinesThen(ws, [])) == Collect(LineMeanings(ws))
  {
    if ws == [] {
      ParseNodesEmpty();
    } else {
      EmptyEndsLines();
      ParseNodesThen(ws, []);
    }
  }

  /** An edge as the format is usually written: one space, then the printed
      colour. */
  function Canonical(e: Edge): Written {
    Written(" ", Display(e.color), e.node)
  }

  function CanonicalEdges(es: seq<Edge>): (xs: seq<Written>)
    ensures |xs| == |es|
  {
    if es == [] then [] else [Canonical(es[0])] + CanonicalEdges(es[1..])
  }

  function CanonicalLines(ls: seq<Line>): (ws: seq<WrittenLine>)
    ensures |ws| == |ls|
  {
    if ls == [] then [] else [(ls[0].0, CanonicalEdges(ls[0].1))] + CanonicalLines(ls[1..])
  }

  /** Lines written with single spaces and printed colour names, joined by
      newlines, with no trailing newline. */
  function PuzzleText(ls: seq<Line>): string {
    LinesThen(CanonicalLines(ls), [])
  }

  lemma DisplayIsWord(c: Color)
    ensures IsWord(Display(c))
  {
    match c
    case Red =>
    case Blue =>
    case None =>
  }

  /** Edges to words, written with printed colour names, mean themselves. */
  lemma {:induction false} CanonicalEdgesMean(es: seq<Edge>)
    requires forall e :: e in es ==> IsWord(e.node)
    ensures Meanings(CanonicalEdges(es)) == es
    ensures forall x :: x in CanonicalEdges(es) ==> WellWritten(x)
  {
    if es != [] {
      assert es[0] in es;
      InTail(es);
      CanonicalEdgesMean(es[1..]);
      DisplayIsWord(es[0].color);
      DisplayRoundTrip(es[0].color);
      assert [es[0]] + es[1..] == es;
    }
  }

  /** Well-formed lines, written canonically, mean themselves. */
  lemma {:induction false} CanonicalLinesMean(ls: seq<Line>)
    requires forall l :: l in ls ==> WellFormedLine(l)
    ensures LineMeanings(CanonicalLines(ls)) == ls
    ensures forall w :: w in CanonicalLines(ls) ==> WellWrittenLine(w)
  {
    if ls != [] {
      assert ls[0] in ls;
      InTail(ls);
      CanonicalLinesMean(ls[1..]);
      CanonicalEdgesMean(ls[0].1);
      assert [ls[0]] + ls[1..] == ls;
    }
  }

  /** The empty text holds no lines. */
  lemma ParseNodesEmpty()
    ensures ParseNodes([]) == Ok([], [])
  {
    assert Alpha1([]).Err?;
  }

  /** The end of the text ends every list. */
  lemma EmptyEndsLines()
    ensures EndsLines([])
  {
    assert Space1([]).Err? && Tag("\n", []).Err?;
  }

  /** Well-formed lines, written, are read back as themselves, consuming the
      whole text. */
  lemma ParseNodesText(ls: seq<Line>)
    requires forall l :: l in ls ==> WellFormedLine(l)
    ensures ParseNodes(PuzzleText(ls)) == Ok([], ls)
  {
    if ls == [] {
      ParseNodesEmpty();
    } else {
      CanonicalLinesMean(ls);
      EmptyEndsLines();
      ParseNodesThen(CanonicalLines(ls), []);
    }
  }

  /** Reading a written puzzle gives the collected graph of its lines, with
      nothing left over. */
  lemma RoundTrip(ls: seq<Line>)
    requires forall l :: l in ls ==> WellFormedLine(l)
    ensures ParsePuzzle(PuzzleText(ls)) == Ok([], Collect(ls))
    ensures PuzzleFromStr(PuzzleText(ls)) == Collect(ls)
  {
    ParseNodesText(ls);
  }
}
