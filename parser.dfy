/** The line-oriented puzzle format, read by parser combinators in the style of
    nom. Every parser takes the remaining input and either fails or returns the
    input it did not consume together with what it recognised. */
module Parser {
  import opened Colors
  import opened Graphs

  /** The outcome of one parser: success leaves `rest` unconsumed. */
  datatype IResult<T> = Ok(rest: string, value: T) | Err

  /** One node-definition line: the node's name and its edges in textual order. */
  type Line = (string, seq<Edge>)

  /** An ASCII letter, the only characters a name or a colour word may hold. */
  predicate IsLetter(ch: char) {
    'a' <= ch <= 'z' || 'A' <= ch <= 'Z'
  }

  /** A space or a tab: what separates a name from its edges and edges from each other. */
  predicate IsBlank(ch: char) {
    ch == ' ' || ch == '\t'
  }

  /** One or more letters. */
  ghost predicate IsWord(w: string) {
    |w| > 0 && forall i :: 0 <= i < |w| ==> IsLetter(w[i])
  }

  /** `rest` cannot extend a word that ends just before it. */
  predicate EndsWord(rest: string) {
    rest == [] || !IsLetter(rest[0])
  }

  /** `rest` cannot extend a run of blanks that ends just before it. */
  predicate EndsBlanks(rest: string) {
    rest == [] || !IsBlank(rest[0])
  }

  /** The two classes of characters the format reads runs of. */
  datatype CharClass = Letters | Blanks

  predicate InClass(c: CharClass, ch: char) {
    match c
    case Letters => IsLetter(ch)
    case Blanks => IsBlank(ch)
  }

  /** The end of the longest run of characters of `s` in class `c` that starts
      at index `i`. */
  function Span(s: string, c: CharClass, i: nat): (n: nat)
    requires i <= |s|
    ensures i <= n <= |s|
    ensures forall k :: i <= k < n ==> InClass(c, s[k])
    ensures n == |s| || !InClass(c, s[n])
    decreases |s| - i
  {
    if i < |s| && InClass(c, s[i]) then Span(s, c, i + 1) else i
  }

  /** The run of `w + rest` from index `i` ends at the end of `w` when `w` is
      in the class from `i` on and `rest` does not begin with a character of it. */
  lemma {:induction false} SpanOf(w: string, rest: string, c: CharClass, i: nat)
    requires i <= |w|
    requires forall k :: i <= k < |w| ==> InClass(c, w[k])
    requires rest == [] || !InClass(c, rest[0])
    ensures Span(w + rest, c, i) == |w|
    decreases |w| - i
  {
    if i < |w| {
      assert (w + rest)[i] == w[i];
      SpanOf(w, rest, c, i + 1);
    } else if rest != [] {
      assert (w + rest)[i] == rest[0];
    }
  }

  /** nom's `alpha1`: the longest non-empty run of letters. */
  function Alpha1(s: string): (r: IResult<string>)
    ensures r.Ok? <==> |s| > 0 && IsLetter(s[0])
    ensures r.Ok? ==> IsWord(r.value) && r.value + r.rest == s && EndsWord(r.rest)
  {
    var n := Span(s, Letters, 0);
    if n == 0 then Err
    else
      assert s[..n] + s[n..] == s;
      Ok(s[n..], s[..n])
  }

  /** Reading a word followed by a non-letter returns that word. */
  lemma Alpha1Of(w: string, rest: string)
    requires IsWord(w) && EndsWord(rest)
    ensures Alpha1(w + rest) == Ok(rest, w)
  {
    SpanOf(w, rest, Letters, 0);
    assert (w + rest)[..|w|] == w && (w + rest)[|w|..] == rest;
  }

  /** nom's `space1`: the longest non-empty run of spaces and tabs. */
  function Space1(s: string): (r: IResult<string>)
    ensures r.Ok? <==> |s| > 0 && IsBlank(s[0])
    ensures r.Ok? ==> |r.value| > 0 && r.value + r.rest == s && EndsBlanks(r.rest)
    ensures r.Ok? ==> forall i :: 0 <= i < |r.value| ==> IsBlank(r.value[i])
  {
    var n := Span(s, Blanks, 0);
    if n == 0 then Err
    else
      assert s[..n] + s[n..] == s;
      Ok(s[n..], s[..n])
  }

  /** A run of blanks before a non-blank is read as the whole separator. */
  lemma Space1Of(b: string, rest: string)
    requires |b| > 0 && (forall i :: 0 <= i < |b| ==> IsBlank(b[i])) && EndsBlanks(rest)
    ensures Space1(b + rest) == Ok(rest, b)
  {
    SpanOf(b, rest, Blanks, 0);
    assert (b + rest)[..|b|] == b && (b + rest)[|b|..] == rest;
  }

  /** nom's `tag`: the literal `t` at the front of the input. */
  function Tag(t: string, s: string): (r: IResult<string>)
    ensures r.Ok? <==> t <= s
    ensures r.Ok? ==> r.value == t && t + r.rest == s
  {
    if t <= s then
      assert t + s[|t|..] == s;
      Ok(s[|t|..], t)
    else Err
  }

  /** `parse_edge`: a colour word, a colon and a node name. The colour word goes
      through the lenient colour conversion. */
  function ParseEdge(s: string): (r: IResult<Edge>)
    ensures r.Ok? ==> |r.rest| < |s| && IsWord(r.value.node) && EndsWord(r.rest)
  {
    match Alpha1(s)
    case Err => Err
    case Ok(s1, color) =>
      match Tag(":", s1)
      case Err => Err
      case Ok(s2, _) =>
        match Alpha1(s2)
        case Err => Err
        case Ok(s3, node) =>
          Ok(s3, Edge(FromName(color), node))
  }

  /** Every `word:word` followed by a non-letter is read as one edge. */
  lemma ParseEdgeOf(w: string, n: string, rest: string)
    requires IsWord(w) && IsWord(n) && EndsWord(rest)
    ensures ParseEdge(w + ":" + n + rest) == Ok(rest, Edge(FromName(w), n))
  {
    var u := n + rest;
    var t := ":" + u;
    Regroup(w, ":", n, rest);
    Alpha1Of(w, t);
    assert Tag(":", t) == Ok(u, ":");
    Alpha1Of(n, rest);
  }

  /** Concatenation regrouped: the edge lemmas write `w + ":" + n + rest` as
      Dafny groups it, to the left; the writer of the format nests to the right. */
  lemma Regroup(a: string, b: string, c: string, d: string)
    ensures a + b + c + d == a + (b + (c + d))
  {
  }

  /** What an edge parse accepts is a colour word `w`, a colon and a node name
      followed by a non-letter; the colour is that of the word. */
  lemma ParseEdgeSound(s: string) returns (w: string)
    requires ParseEdge(s).Ok?
    ensures IsWord(w) && ParseEdge(s).value.color == FromName(w)
    ensures s == w + ":" + ParseEdge(s).value.node + ParseEdge(s).rest
  {
    var Ok(s1, color) := Alpha1(s);
    var Ok(s2, _) := Tag(":", s1);
    var Ok(s3, node) := Alpha1(s2);
    assert ParseEdge(s) == Ok(s3, Edge(FromName(color), node));
    w := color;
    assert s == w + (":" + (node + s3));
    Regroup(w, ":", node, s3);
  }

  /** A parse of `s` fails exactly when `s` does not begin with `word:word`. */
  lemma ParseEdgeFails(s: string)
    ensures ParseEdge(s).Err? <==>
      !exists w, n, rest :: IsWord(w) && IsWord(n) && EndsWord(rest) && s == w + ":" + n + rest
  {
    if ParseEdge(s).Ok? {
      var w := ParseEdgeSound(s);
      assert IsWord(ParseEdge(s).value.node) && EndsWord(ParseEdge(s).rest);
    } else if exists w, n, rest :: IsWord(w) && IsWord(n) && EndsWord(rest) && s == w + ":" + n + rest {
      var w, n, rest :| IsWord(w) && IsWord(n) && EndsWord(rest) && s == w + ":" + n + rest;
      ParseEdgeOf(w, n, rest);
      assert false;
    }
  }

  /** The repeated tail of `separated_list1(space1, parse_edge)`: more edges each
      preceded by blanks. A separator not followed by an edge is left unconsumed. */
  function MoreEdges(s: string): (r: (seq<Edge>, string))
    ensures |r.1| <= |s|
    ensures r.0 == [] ==> r.1 == s
    ensures forall e :: e in r.0 ==> IsWord(e.node)
    decreases |s|
  {
    match Space1(s)
    case Err => ([], s)
    case Ok(s1, _) =>
      match ParseEdge(s1)
      case Err => ([], s)
      case Ok(s2, e) =>
        var (es, s3) := MoreEdges(s2);
        ([e] + es, s3)
  }

  /** `separated_list1(space1, parse_edge)`: one or more edges. */
  function ParseEdges(s: string): (r: IResult<seq<Edge>>)
    ensures r.Ok? ==> |r.value| > 0 && |r.rest| < |s|
    ensures r.Ok? ==> forall e :: e in r.value ==> IsWord(e.node)
  {
    match ParseEdge(s)
    case Err => Err
    case Ok(s1, e) =>
      var (es, s2) := MoreEdges(s1);
      Ok(s2, [e] + es)
  }

  /** A node line is well formed when its name is a word and it has at least one
      edge, each to a word. */
  ghost predicate WellFormedLine(l: Line) {
    IsWord(l.0) && |l.1| > 0 && forall e :: e in l.1 ==> IsWord(e.node)
  }

  /** `parse_node`: a name, blanks, and one or more edges. */
  function ParseNode(s: string): (r: IResult<Line>)
    ensures r.Ok? ==> WellFormedLine(r.value) && |r.rest| < |s|
  {
    match Alpha1(s)
    case Err => Err
    case Ok(s1, name) =>
      match Space1(s1)
      case Err => Err
      case Ok(s2, _) =>
        match ParseEdges(s2)
        case Err => Err
        case Ok(s3, edges) => Ok(s3, (name, edges))
  }

  /** The repeated tail of `separated_list0(tag("\n"), parse_node)`. */
  function MoreNodes(s: string): (r: (seq<Line>, string))
    ensures |r.1| <= |s|
    ensures r.0 == [] ==> r.1 == s
    ensures forall l :: l in r.0 ==> WellFormedLine(l)
    decreases |s|
  {
    match Tag("\n", s)
    case Err => ([], s)
    case Ok(s1, _) =>
      match ParseNode(s1)
      case Err => ([], s)
      case Ok(s2, l) =>
        var (ls, s3) := MoreNodes(s2);
        ([l] + ls, s3)
  }

  /** `separated_list0(tag("\n"), parse_node)`: zero or more lines. It never
      fails: a line that does not parse ends the list. */
  function ParseNodes(s: string): (r: IResult<seq<Line>>)
    ensures r.Ok? && |r.rest| <= |s|
    ensures r.Ok? ==> forall l :: l in r.value ==> WellFormedLine(l)
    ensures r.Ok? && r.value == [] ==> r.rest == s
  {
    match ParseNode(s)
    case Err => Ok(s, [])
    case Ok(s1, l) =>
      var (ls, s2) := MoreNodes(s1);
      Ok(s2, [l] + ls)
  }

  /** Collecting lines into a map, in order: a later line for a name replaces
      the entry of an earlier one. */
  function Collect(ls: seq<Line>): (g: Graph)
    ensures forall n :: n in g ==> exists i :: 0 <= i < |ls| && ls[i] == (n, g[n])
    decreases |ls|
  {
    if ls == [] then map[] else Collect(ls[..|ls| - 1])[ls[|ls| - 1].0 := ls[|ls| - 1].1]
  }

  /** The names of the collected graph are exactly the names of the lines. */
  lemma {:induction false} CollectKeys(ls: seq<Line>, n: string)
    ensures n in Collect(ls) <==> exists i :: 0 <= i < |ls| && ls[i].0 == n
  {
    if ls != [] {
      var init := ls[..|ls| - 1];
      CollectKeys(init, n);
      if exists i :: 0 <= i < |init| && init[i].0 == n {
        var i :| 0 <= i < |init| && init[i].0 == n;
        assert ls[i].0 == n;
      }
      if exists i :: 0 <= i < |ls| && ls[i].0 == n {
        var i :| 0 <= i < |ls| && ls[i].0 == n;
        if i < |init| {
          assert init[i].0 == n;
        }
      }
    }
  }

  /** A name maps to the edges of the last line that defines it. */
  lemma {:induction false} CollectLastWins(ls: seq<Line>, i: nat)
    requires i < |ls|
    requires forall j :: i < j < |ls| ==> ls[j].0 != ls[i].0
    ensures ls[i].0 in Collect(ls) && Collect(ls)[ls[i].0] == ls[i].1
  {
    if i < |ls| - 1 {
      var init := ls[..|ls| - 1];
      assert init[i] == ls[i];
      CollectLastWins(init, i);
    }
  }

  /** `parse_puzzle`: the lines that parse, collected into the graph. It never
      fails. */
  function ParsePuzzle(s: string): (r: IResult<Graph>)
    ensures r.Ok?
  {
    var Ok(rest, ls) := ParseNodes(s);
    Ok(rest, Collect(ls))
  }

  /** `Puzzle::from_str`: the graph of `parse_puzzle`; unparsed input is
      dropped. Every entry is a line as the grammar allows it: a name that is a
      word, at least one edge, and destinations that are words. */
  function PuzzleFromStr(s: string): (g: Graph)
    ensures forall n :: n in g ==> WellFormedLine((n, g[n]))
  {
    ParsePuzzle(s).value
  }
}
