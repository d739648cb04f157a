/** Edges, the puzzle graph, the successor rule of the colour-constrained search
    and the paths it allows. A search state reuses Edge: its colour is the colour
    of the edge used to arrive and its node is where the search stands. */
module Graphs {
  import opened Colors

  /** A directed edge out of some node: its colour and its destination. */
  datatype Edge = Edge(color: Color, node: string)

  /** Each defined node name maps to its outgoing edges in textual order. */
  type Graph = map<string, seq<Edge>>

  /** The state the search starts from: no colour yet, standing on `start`. */
  function StartState(start: string): (s: Edge)
    ensures s.node == start && s.color == Color.None
  {
    Edge(Color.None, start)
  }

  /** The outgoing edges of `n`; a node without an entry has none. */
  function EdgesOf(g: Graph, n: string): (es: seq<Edge>)
    ensures n in g ==> es == g[n]
    ensures n !in g ==> es == []
  {
    if n in g then g[n] else []
  }

  /** The edges of `es` that may follow an arrival of colour `last`, in order. */
  function KeepLegal(last: Color, es: seq<Edge>): (r: seq<Edge>)
    ensures forall v :: v in r <==> v in es && CanFollow(last, v.color)
    ensures |r| <= |es|
  {
    if es == [] then []
    else (if CanFollow(last, es[0].color) then [es[0]] else []) + KeepLegal(last, es[1..])
  }

  /** Filtering a concatenation filters each part: the successor list keeps the
      order of the edge list. */
  lemma {:induction false} KeepLegalAppend(last: Color, a: seq<Edge>, b: seq<Edge>)
    ensures KeepLegal(last, a + b) == KeepLegal(last, a) + KeepLegal(last, b)
  {
    if a == [] {
      assert a + b == b;
    } else {
      assert (a + b)[1..] == a[1..] + b;
      KeepLegalAppend(last, a[1..], b);
    }
  }

  /** When every edge may follow, nothing is dropped and the order is kept. */
  lemma {:induction false} KeepLegalAll(last: Color, es: seq<Edge>)
    requires forall i :: 0 <= i < |es| ==> CanFollow(last, es[i].color)
    ensures KeepLegal(last, es) == es
  {
    if es != [] {
      KeepLegalAll(last, es[1..]);
    }
  }

  /** The successor states of `st`: every edge out of its node whose colour may
      follow the colour of arrival. The node must have an entry (the lookup is
      unwrapped). */
  function Successors(g: Graph, st: Edge): (r: seq<Edge>)
    requires st.node in g
    ensures forall v :: v in r <==> v in g[st.node] && CanFollow(st.color, v.color)
  {
    KeepLegal(st.color, g[st.node])
  }

  /** From the start state (colour None) every edge of the node is a successor,
      in textual order. */
  lemma StartSuccessors(g: Graph, start: string)
    requires start in g
    ensures Successors(g, StartState(start)) == g[start]
  {
    KeepLegalAll(Color.None, g[start]);
  }

  /** One unit-cost step of the search from `u` to `v`. A node without an
      entry has no edges, so no step leaves it. */
  predicate IsStep(g: Graph, u: Edge, v: Edge)
    ensures IsStep(g, u, v) ==> u.node in g
  {
    v in EdgesOf(g, u.node) && CanFollow(u.color, v.color)
  }

  /** The steps out of a node with an entry are exactly its successors. */
  lemma StepsAreSuccessors(g: Graph, u: Edge, v: Edge)
    requires u.node in g
    ensures IsStep(g, u, v) <==> v in Successors(g, u)
  {
  }

  function Last(p: seq<Edge>): Edge
    requires |p| > 0
  {
    p[|p| - 1]
  }

  /** A non-empty sequence of states each of which is a step from the one before. */
  ghost predicate IsPath(g: Graph, p: seq<Edge>) {
    |p| > 0 && forall i :: 0 <= i < |p| - 1 ==> IsStep(g, p[i], p[i + 1])
  }

  /** A path that begins at the start state of `start`. */
  ghost predicate IsPathFrom(g: Graph, start: string, p: seq<Edge>) {
    IsPath(g, p) && p[0] == StartState(start)
  }

  /** The steps of a path never repeat a real colour on consecutive edges. */
  lemma ColorsAlternate(g: Graph, start: string, p: seq<Edge>, i: nat)
    requires IsPathFrom(g, start, p) && i < |p| - 1
    ensures p[i].color == Color.None || p[i].color != p[i + 1].color
  {
    assert IsStep(g, p[i], p[i + 1]);
  }

  /** Dropping the last state of a path of two or more states leaves a path. */
  lemma PathPrefix(g: Graph, start: string, p: seq<Edge>)
    requires IsPathFrom(g, start, p) && |p| > 1
    ensures IsPathFrom(g, start, p[..|p| - 1])
    ensures IsStep(g, Last(p[..|p| - 1]), Last(p))
  {
    var q := p[..|p| - 1];
    forall i | 0 <= i < |q| - 1
      ensures IsStep(g, q[i], q[i + 1])
    {
      assert q[i] == p[i] && q[i + 1] == p[i + 1];
    }
    assert IsStep(g, p[|p| - 2], p[|p| - 1]);
  }
}
