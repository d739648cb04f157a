/** The colour-constrained shortest-path search. With every step costing one,
    the uniform-cost search the program delegates to expands states in order of
    their distance from the start, as a breadth-first search does; it is written
    here as one, with a queue, a map from every discovered state to its distance,
    and a map from every discovered state but the start to the state it was
    discovered from. */
module Search {
  import opened Colors
  import opened Graphs

  /** What the search can end with: a path, no path, or the abort that happens
      when a state whose node has no entry in the graph is expanded. */
  datatype Outcome = Found(path: seq<Edge>) | NoPath | Panicked(node: string)

  /** Every state the search can discover: the start state and the edges of the
      graph. */
  ghost function AllStates(g: Graph, start: string): set<Edge> {
    {StartState(start)} + set n, e | n in g && e in g[n] :: e
  }

  /** `parent` links every discovered state but the start to a discovered state
      one step before it and one unit of distance closer. */
  ghost predicate Tree(g: Graph, s0: Edge, dist: map<Edge, nat>, parent: map<Edge, Edge>) {
    && s0 in dist && dist[s0] == 0
    && (forall x :: x in dist && x != s0 ==> x in parent)
    && forall x {:trigger parent[x]} :: x in parent ==>
         x in dist && parent[x] in dist && IsStep(g, parent[x], x) && dist[x] == dist[parent[x]] + 1
  }

  /** No path from the start reaches a discovered state in fewer steps than its
      recorded distance. */
  ghost predicate Minimal(g: Graph, start: string, dist: map<Edge, nat>) {
    forall p {:trigger IsPathFrom(g, start, p)} :: IsPathFrom(g, start, p) && Last(p) in dist ==> dist[Last(p)] <= |p| - 1
  }

  /** The queue holds discovered states in order of distance, all at distance
      `level` or `level + 1`. */
  ghost predicate Layered(dist: map<Edge, nat>, queue: seq<Edge>, level: nat) {
    && (forall i :: 0 <= i < |queue| ==> queue[i] in dist && level <= dist[queue[i]] <= level + 1)
    && (forall i, j :: 0 <= i < j < |queue| ==> queue[i] in dist && queue[j] in dist && dist[queue[i]] <= dist[queue[j]])
  }

  /** Every step out of `x` leads to a discovered state. */
  ghost predicate Closed(g: Graph, dist: map<Edge, nat>, x: Edge) {
    forall v :: IsStep(g, x, v) ==> v in dist
  }

  /** Every discovered state that is not waiting in `pending` has been expanded:
      it is not a goal, its node has an entry, and its successors are discovered. */
  ghost predicate Expanded(g: Graph, end: string, dist: map<Edge, nat>, pending: seq<Edge>) {
    forall x :: x in dist && x !in pending ==> x.node != end && x.node in g && Closed(g, dist, x)
  }

  /** Every path from the start with fewer than `n` states ends on a node that
      has an entry: nothing nearer than `n - 1` steps can abort the search. */
  ghost predicate EntriesBefore(g: Graph, start: string, n: nat) {
    forall q :: IsPathFrom(g, start, q) && |q| < n ==> Last(q).node in g
  }

  /** The contract of the search: a path it finds starts at the start state,
      obeys the colour rule, ends on `end`, is as short as any such path, and
      no state nearer than its end lacks an entry; it reports no path only when
      no state on `end` is reachable and every reachable state's node has an
      entry; it aborts on a reachable node without an entry that is not `end`,
      is no farther than any path to `end`, and has no entry-less state nearer
      than itself. */
  ghost predicate IsAnswer(g: Graph, start: string, end: string, r: Outcome) {
    && (r.Found? ==>
          && IsPathFrom(g, start, r.path) && Last(r.path).node == end
          && (forall p :: IsPathFrom(g, start, p) && Last(p).node == end ==> |r.path| <= |p|)
          && EntriesBefore(g, start, |r.path|))
    && (r.NoPath? ==>
          forall p :: IsPathFrom(g, start, p) ==> Last(p).node != end && Last(p).node in g)
    && (r.Panicked? ==>
          && r.node !in g && r.node != end
          && exists p :: && IsPathFrom(g, start, p) && Last(p).node == r.node
                         && (forall q :: IsPathFrom(g, start, q) && Last(q).node == end ==> |p| <= |q|)
                         && EntriesBefore(g, start, |p|))
  }

  lemma PathPrepend(g: Graph, x: Edge, p: seq<Edge>)
    requires IsPath(g, p) && IsStep(g, x, p[0])
    ensures IsPath(g, [x] + p) && Last([x] + p) == Last(p)
  {
    var q := [x] + p;
    forall i | 0 <= i < |q| - 1
      ensures IsStep(g, q[i], q[i + 1])
    {
      if i > 0 {
        assert q[i] == p[i - 1] && q[i + 1] == p[i];
      }
    }
  }

  /** Follows the parent links back from `u` to the start: the path found has
      exactly the recorded distance of `u` as its number of steps. */
  method Reconstruct(ghost g: Graph, start: string, dist: map<Edge, nat>, parent: map<Edge, Edge>, u: Edge)
    returns (path: seq<Edge>)
    requires Tree(g, StartState(start), dist, parent) && u in dist
    ensures IsPathFrom(g, start, path) && Last(path) == u && |path| == dist[u] + 1
  {
    var s0 := StartState(start);
    var cur := u;
    path := [u];
    while cur != s0
      invariant cur in dist && IsPath(g, path) && path[0] == cur && Last(path) == u
      invariant |path| + dist[cur] == dist[u] + 1
      decreases dist[cur]
    {
      var prev := parent[cur];
      PathPrepend(g, prev, path);
      path := [prev] + path;
      cur := prev;
    }
  }

  /** Below the current level every reachable state is discovered and settled:
      a path of fewer steps than `level` ends on a discovered state whose
      distance is below `level`. */
  lemma {:induction false} ShortPathsSettled(g: Graph, start: string, end: string, dist: map<Edge, nat>,
                                             pending: seq<Edge>, level: nat, p: seq<Edge>)
    requires StartState(start) in dist && dist[StartState(start)] == 0
    requires Minimal(g, start, dist) && Expanded(g, end, dist, pending)
    requires forall x :: x in pending ==> x in dist && level <= dist[x]
    requires IsPathFrom(g, start, p) && |p| - 1 < level
    ensures Last(p) in dist && dist[Last(p)] < level
    ensures Last(p) !in pending && Last(p).node != end
  {
    if |p| > 1 {
      var q := p[..|p| - 1];
      PathPrefix(g, start, p);
      ShortPathsSettled(g, start, end, dist, pending, level, q);
      assert Last(q) !in pending;
      assert IsStep(g, Last(q), Last(p));
    }
  }

  /** A state not yet discovered is at least `level + 1` steps away. */
  lemma NewStateFar(g: Graph, start: string, end: string, dist: map<Edge, nat>,
                    pending: seq<Edge>, level: nat, p: seq<Edge>)
    requires StartState(start) in dist && dist[StartState(start)] == 0
    requires Minimal(g, start, dist) && Expanded(g, end, dist, pending)
    requires forall x :: x in pending ==> x in dist && level <= dist[x]
    requires IsPathFrom(g, start, p) && |p| - 1 <= level
    ensures Last(p) in dist
  {
    if |p| > 1 {
      var q := p[..|p| - 1];
      PathPrefix(g, start, p);
      ShortPathsSettled(g, start, end, dist, pending, level, q);
      assert Last(q) !in pending;
      assert IsStep(g, Last(q), Last(p));
    }
  }

  /** No path to `end` is shorter than the current level. */
  lemma NoShorterGoal(g: Graph, start: string, end: string, dist: map<Edge, nat>,
                      pending: seq<Edge>, level: nat, q: seq<Edge>)
    requires StartState(start) in dist && dist[StartState(start)] == 0
    requires Minimal(g, start, dist) && Expanded(g, end, dist, pending)
    requires forall x :: x in pending ==> x in dist && level <= dist[x]
    requires IsPathFrom(g, start, q) && Last(q).node == end
    ensures level <= |q| - 1
  {
    if |q| - 1 < level {
      ShortPathsSettled(g, start, end, dist, pending, level, q);
      assert false;
    }
  }

  /** Once nothing is pending, every state a path reaches is discovered. */
  lemma {:induction false} AllReached(g: Graph, start: string, end: string, dist: map<Edge, nat>, p: seq<Edge>)
    requires StartState(start) in dist && Expanded(g, end, dist, [])
    requires IsPathFrom(g, start, p)
    ensures Last(p) in dist
  {
    if |p| > 1 {
      var q := p[..|p| - 1];
      PathPrefix(g, start, p);
      AllReached(g, start, end, dist, q);
      assert IsStep(g, Last(q), Last(p));
    }
  }

  /** Discovering states shrinks the undiscovered part of a finite universe by
      their number. */
  lemma Undiscovered(all: set<Edge>, k: set<Edge>, k': set<Edge>)
    requires k <= k' <= all
    ensures |k| <= |k'| && |all - k'| == |all - k| - (|k'| - |k|)
  {
    assert k' == k + (k' - k) && k * (k' - k) == {};
    assert all == (all - k) + k && (all - k) * k == {};
    assert all == (all - k') + k' && (all - k') * k' == {};
  }

  /** The state of the search between two expansions: `queue` holds the
      discovered states not yet expanded, in order of distance. */
  ghost predicate Frontier(g: Graph, start: string, end: string, dist: map<Edge, nat>,
                           parent: map<Edge, Edge>, queue: seq<Edge>, level: nat) {
    && dist.Keys <= AllStates(g, start)
    && Tree(g, StartState(start), dist, parent) && Minimal(g, start, dist)
    && Layered(dist, queue, level) && Expanded(g, end, dist, queue)
  }

  /** The state of the search while the successors of `u` are being discovered. */
  ghost predicate Expanding(g: Graph, start: string, end: string, dist: map<Edge, nat>,
                            parent: map<Edge, Edge>, queue: seq<Edge>, level: nat, u: Edge) {
    && dist.Keys <= AllStates(g, start)
    && Tree(g, StartState(start), dist, parent) && Minimal(g, start, dist)
    && u in dist && dist[u] == level && u.node in g && u.node != end
    && Layered(dist, queue, level) && Expanded(g, end, dist, [u] + queue)
  }

  /** The head of the queue is the nearest state still to be expanded. */
  lemma HeadNearest(dist: map<Edge, nat>, queue: seq<Edge>, level: nat)
    requires Layered(dist, queue, level) && queue != []
    ensures forall x :: x in queue ==> x in dist && dist[queue[0]] <= dist[x]
  {
    forall x | x in queue
      ensures x in dist && dist[queue[0]] <= dist[x]
    {
      var i :| 0 <= i < |queue| && queue[i] == x;
    }
  }

  /** Without its head, the queue is layered from the distance of its head. */
  lemma LayeredTail(dist: map<Edge, nat>, queue: seq<Edge>, level: nat)
    requires Layered(dist, queue, level) && queue != []
    ensures Layered(dist, queue[1..], dist[queue[0]])
  {
  }

  /** No path to `end` is shorter than the distance of the head of the queue. */
  lemma GoalNoNearer(g: Graph, start: string, end: string, dist: map<Edge, nat>,
                     parent: map<Edge, Edge>, queue: seq<Edge>, level: nat, q: seq<Edge>)
    requires Frontier(g, start, end, dist, parent, queue, level) && queue != []
    requires IsPathFrom(g, start, q) && Last(q).node == end
    ensures dist[queue[0]] + 1 <= |q|
  {
    HeadNearest(dist, queue, level);
    NoShorterGoal(g, start, end, dist, queue, dist[queue[0]], q);
  }

  /** A path to the head of the queue of as many steps as its distance is no
      longer than any path to `end`. */
  lemma HeadIsNearest(g: Graph, start: string, end: string, dist: map<Edge, nat>,
                      parent: map<Edge, Edge>, queue: seq<Edge>, level: nat, path: seq<Edge>)
    requires Frontier(g, start, end, dist, parent, queue, level) && queue != []
    requires |path| == dist[queue[0]] + 1
    ensures forall q :: IsPathFrom(g, start, q) && Last(q).node == end ==> |path| <= |q|
  {
    forall q | IsPathFrom(g, start, q) && Last(q).node == end
      ensures |path| <= |q|
    {
      GoalNoNearer(g, start, end, dist, parent, queue, level, q);
    }
  }

  /** With nothing left to expand, no path reaches `end` and every reachable
      node has an entry. */
  lemma NothingPending(g: Graph, start: string, end: string, dist: map<Edge, nat>,
                       parent: map<Edge, Edge>, level: nat)
    requires Frontier(g, start, end, dist, parent, [], level)
    ensures forall p :: IsPathFrom(g, start, p) ==> Last(p).node != end && Last(p).node in g
  {
    forall p | IsPathFrom(g, start, p)
      ensures Last(p).node != end && Last(p).node in g
    {
      AllReached(g, start, end, dist, p);
    }
  }

  /** Taking a state that is not a goal and has an entry off the queue starts
      its expansion. */
  lemma BeginExpansion(g: Graph, start: string, end: string, dist: map<Edge, nat>,
                       parent: map<Edge, Edge>, queue: seq<Edge>, level: nat)
    requires Frontier(g, start, end, dist, parent, queue, level) && queue != []
    requires queue[0].node != end && queue[0].node in g
    ensures Expanding(g, start, end, dist, parent, queue[1..], dist[queue[0]], queue[0])
  {
    LayeredTail(dist, queue, level);
    assert [queue[0]] + queue[1..] == queue;
  }

  /** The states waiting to be expanded are discovered and no nearer than `level`. */
  lemma PendingAbove(dist: map<Edge, nat>, queue: seq<Edge>, level: nat, u: Edge)
    requires Layered(dist, queue, level) && u in dist && dist[u] == level
    ensures forall x :: x in [u] + queue ==> x in dist && level <= dist[x]
  {
    forall x | x in [u] + queue
      ensures x in dist && level <= dist[x]
    {
      if x != u {
        var i :| 0 <= i < |queue| && queue[i] == x;
      }
    }
  }

  /** Recording `v` at one more than the distance of `u` keeps the recorded
      distances minimal. */
  lemma DiscoverMinimal(g: Graph, start: string, end: string, dist: map<Edge, nat>,
                        pending: seq<Edge>, level: nat, u: Edge, v: Edge)
    requires StartState(start) in dist && dist[StartState(start)] == 0
    requires Minimal(g, start, dist) && Expanded(g, end, dist, pending)
    requires forall x :: x in pending ==> x in dist && level <= dist[x]
    requires u in dist && dist[u] == level && v !in dist
    ensures Minimal(g, start, dist[v := dist[u] + 1])
  {
    var dist' := dist[v := dist[u] + 1];
    forall p | IsPathFrom(g, start, p) && Last(p) in dist'
      ensures dist'[Last(p)] <= |p| - 1
    {
      if Last(p) == v && |p| - 1 <= level {
        NewStateFar(g, start, end, dist, pending, level, p);
      }
    }
  }

  /** Discovering a successor `v` of `u` at one more than the distance of `u`
      keeps the search consistent. */
  lemma Discover(g: Graph, start: string, end: string, dist: map<Edge, nat>,
                 parent: map<Edge, Edge>, queue: seq<Edge>, level: nat, u: Edge, v: Edge)
    requires Expanding(g, start, end, dist, parent, queue, level, u)
    requires IsStep(g, u, v) && v !in dist
    ensures v in AllStates(g, start)
    ensures Expanding(g, start, end, dist[v := dist[u] + 1], parent[v := u], queue + [v], level, u)
  {
    assert v in g[u.node];
    PendingAbove(dist, queue, level, u);
    DiscoverMinimal(g, start, end, dist, [u] + queue, level, u, v);
    DiscoverTree(g, StartState(start), dist, parent, u, v);
    DiscoverLayered(dist, queue, level, u, v);
    DiscoverExpanded(g, end, dist, queue, u, v);
  }

  lemma DiscoverTree(g: Graph, s0: Edge, dist: map<Edge, nat>, parent: map<Edge, Edge>, u: Edge, v: Edge)
    requires Tree(g, s0, dist, parent) && u in dist && IsStep(g, u, v) && v !in dist
    ensures Tree(g, s0, dist[v := dist[u] + 1], parent[v := u])
  {
  }

  lemma DiscoverLayered(dist: map<Edge, nat>, queue: seq<Edge>, level: nat, u: Edge, v: Edge)
    requires Layered(dist, queue, level) && u in dist && dist[u] == level && v !in dist
    ensures Layered(dist[v := dist[u] + 1], queue + [v], level)
  {
  }

  lemma DiscoverExpanded(g: Graph, end: string, dist: map<Edge, nat>, queue: seq<Edge>, u: Edge, v: Edge)
    requires Expanded(g, end, dist, [u] + queue) && u in dist
    ensures Expanded(g, end, dist[v := dist[u] + 1], [u] + (queue + [v]))
  {
  }

  /** Once every successor of `u` is discovered, `u` counts as expanded. */
  lemma EndExpansion(g: Graph, start: string, end: string, dist: map<Edge, nat>,
                     parent: map<Edge, Edge>, queue: seq<Edge>, level: nat, u: Edge)
    requires Expanding(g, start, end, dist, parent, queue, level, u)
    requires forall v :: IsStep(g, u, v) ==> v in dist
    ensures Frontier(g, start, end, dist, parent, queue, level)
  {
    assert Closed(g, dist, u);
  }

  lemma StillDiscovered(succ: seq<Edge>, j: nat, dist: map<Edge, nat>, d: nat)
    requires j < |succ| && forall k :: 0 <= k < j ==> succ[k] in dist
    ensures forall k :: 0 <= k < j + 1 ==> succ[k] in dist[succ[j] := d]
  {
  }

  /** Discovers, in order, every successor of `u` in `succ` not discovered yet:
      each is recorded one step farther than `u`, linked to `u` and queued. */
  method Expand(ghost g: Graph, ghost start: string, ghost end: string, succ: seq<Edge>,
                dist: map<Edge, nat>, parent: map<Edge, Edge>, queue: seq<Edge>, ghost level: nat, u: Edge)
    returns (dist': map<Edge, nat>, parent': map<Edge, Edge>, queue': seq<Edge>)
    requires Expanding(g, start, end, dist, parent, queue, level, u)
    requires forall v :: v in succ <==> IsStep(g, u, v)
    ensures Frontier(g, start, end, dist', parent', queue', level)
    ensures dist.Keys <= dist'.Keys && |queue'| - |queue| == |dist'.Keys| - |dist.Keys|
  {
    dist', parent', queue' := dist, parent, queue;
    for j := 0 to |succ|
      invariant Expanding(g, start, end, dist', parent', queue', level, u)
      invariant forall k :: 0 <= k < j ==> succ[k] in dist'
      invariant dist.Keys <= dist'.Keys && |queue'| - |queue| == |dist'.Keys| - |dist.Keys|
    {
      var v := succ[j];
      if v !in dist' {
        Discover(g, start, end, dist', parent', queue', level, u, v);
        StillDiscovered(succ, j, dist', dist'[u] + 1);
        dist' := dist'[v := dist'[u] + 1];
        parent' := parent'[v := u];
        queue' := queue' + [v];
      }
    }
    EndExpansion(g, start, end, dist', parent', queue', level, u);
  }

  /** Every state nearer than the head of the queue has been expanded, so its
      node has an entry. */
  lemma HeadHasNoNearerAbort(g: Graph, start: string, end: string, dist: map<Edge, nat>,
                             parent: map<Edge, Edge>, queue: seq<Edge>, level: nat)
    requires Frontier(g, start, end, dist, parent, queue, level) && queue != []
    ensures queue[0] in dist && EntriesBefore(g, start, dist[queue[0]] + 1)
  {
    HeadNearest(dist, queue, level);
    forall q | IsPathFrom(g, start, q) && |q| < dist[queue[0]] + 1
      ensures Last(q).node in g
    {
      ShortPathsSettled(g, start, end, dist, queue, dist[queue[0]], q);
    }
  }

  /** The search as the program runs it on `g`: the goal test comes first, so
      reaching `end` succeeds even on a node without an entry; any other state
      whose node has no entry aborts the search when it is expanded. */
  method Solve(g: Graph, start: string, end: string) returns (r: Outcome)
    ensures IsAnswer(g, start, end, r)
  {
    var s0 := StartState(start);
    var dist: map<Edge, nat> := map[s0 := 0];
    var parent: map<Edge, Edge> := map[];
    var queue := [s0];
    ghost var level: nat := 0;
    ghost var all := AllStates(g, start);
    while queue != []
      invariant Frontier(g, start, end, dist, parent, queue, level)
      decreases 2 * |all - dist.Keys| + |queue|
    {
      var u := queue[0];
      if u.node == end || u.node !in g {
        // For an abort, the path to the aborting state witnesses how it was reached.
        var path := Reconstruct(g, start, dist, parent, u);
        HeadIsNearest(g, start, end, dist, parent, queue, level, path);
        HeadHasNoNearerAbort(g, start, end, dist, parent, queue, level);
        if u.node == end {
          return Found(path);
        }
        return Panicked(u.node);
      }
      BeginExpansion(g, start, end, dist, parent, queue, level);
      level := dist[u];
      var succ := Successors(g, u);
      ghost var keys := dist.Keys;
      dist, parent, queue := Expand(g, start, end, succ, dist, parent, queue[1..], level, u);
      Undiscovered(all, keys, dist.Keys);

    }
    NothingPending(g, start, end, dist, parent, level);
    return NoPath;
  }

  /** When the start node is the end node, the search answers with the start
      state alone. */
  lemma AnswerWhenStartIsEnd(g: Graph, start: string, r: Outcome)
    requires IsAnswer(g, start, start, r)
    ensures r == Found([StartState(start)])
  {
    var p0 := [StartState(start)];
    assert IsPathFrom(g, start, p0) && Last(p0).node == start;
    if r.Panicked? {
      assert false;
    }
    assert r.Found?;
    assert r.path[0] == p0[0];
  }

  /** The graph with an empty edge list added for the start node and for every
      destination without an entry of its own, so that a node without an entry
      has no edges instead of aborting the search. */
  function Completed(g: Graph, start: string): (h: Graph)
    ensures forall n :: EdgesOf(h, n) == EdgesOf(g, n)
    ensures start in h
    ensures forall n, e :: n in h && e in h[n] ==> e.node in h
  {
    var missing := (set n, e | n in g && e in g[n] :: e.node) + {start};
    g + map m | m in missing && m !in g :: []
  }

  /** Graphs that give every node the same edges allow the same paths. */
  lemma SameEdgesSamePaths(g: Graph, h: Graph, start: string, p: seq<Edge>)
    requires forall n :: EdgesOf(h, n) == EdgesOf(g, n)
    ensures IsPathFrom(g, start, p) <==> IsPathFrom(h, start, p)
  {
    forall i | 0 <= i < |p| - 1
      ensures IsStep(g, p[i], p[i + 1]) <==> IsStep(h, p[i], p[i + 1])
    {
      assert EdgesOf(h, p[i].node) == EdgesOf(g, p[i].node);
    }
  }

  /** In a graph where the start node and every destination have an entry,
      every state a path reaches has an entry. */
  lemma {:induction false} ReachedHasEntry(h: Graph, start: string, p: seq<Edge>)
    requires start in h && forall n, e :: n in h && e in h[n] ==> e.node in h
    requires IsPathFrom(h, start, p)
    ensures Last(p).node in h
  {
    if |p| > 1 {
      var q := p[..|p| - 1];
      PathPrefix(h, start, p);
      ReachedHasEntry(h, start, q);
      assert Last(p) in h[Last(q).node];
    }
  }

  /** An answer on the completed graph never aborts, and is an answer on the
      original graph in which "no path" means exactly that no path reaches `end`. */
  lemma CompletedAnswer(g: Graph, start: string, end: string, r: Outcome)
    requires IsAnswer(Completed(g, start), start, end, r)
    ensures !r.Panicked?
    ensures r.Found? ==> IsPathFrom(g, start, r.path) && Last(r.path).node == end
    ensures r.Found? ==> forall p :: IsPathFrom(g, start, p) && Last(p).node == end ==> |r.path| <= |p|
    ensures r.NoPath? <==> forall p :: IsPathFrom(g, start, p) ==> Last(p).node != end
  {
    var h := Completed(g, start);
    if r.Panicked? {
      var p :| IsPathFrom(h, start, p) && Last(p).node == r.node
               && forall q :: IsPathFrom(h, start, q) && Last(q).node == end ==> |p| <= |q|;
      ReachedHasEntry(h, start, p);
      assert false;
    }
    if r.Found? {
      SameEdgesSamePaths(g, h, start, r.path);
      forall p | IsPathFrom(g, start, p) && Last(p).node == end
        ensures |r.path| <= |p|
      {
        SameEdgesSamePaths(g, h, start, p);
      }
    } else {
      forall p | IsPathFrom(g, start, p)
        ensures Last(p).node != end
      {
        SameEdgesSamePaths(g, h, start, p);
      }
    }
  }

  /** The search as the comment on the successor closure (src/main.rs:112-113)
      describes it: the successors of a state are the nodes its node is
      connected to, so a node without an entry, connected to nothing, has none.
      This search never aborts, finds a shortest path when one exists and
      reports no path exactly when none does. */
  method SolveTotal(g: Graph, start: string, end: string) returns (r: Outcome)
    ensures !r.Panicked?
    ensures r.Found? ==> IsPathFrom(g, start, r.path) && Last(r.path).node == end
    ensures r.Found? ==> forall p :: IsPathFrom(g, start, p) && Last(p).node == end ==> |r.path| <= |p|
    ensures r.NoPath? <==> forall p :: IsPathFrom(g, start, p) ==> Last(p).node != end
  {
    r := Solve(Completed(g, start), start, end);
    CompletedAnswer(g, start, end, r);
  }
}
