/** Directed graphs given by adjacency lists, reachability, and sink components. */
module Graph {

  type Node = string

  type Adjacency = map<Node, seq<Node>>

  /** The successors of a node; a node without an entry has none. */
  function Succ(adj: Adjacency, v: Node): seq<Node> {
    if v in adj then adj[v] else []
  }

  predicate Edge(adj: Adjacency, v: Node, w: Node) {
    w in Succ(adj, v)
  }

  /** p lists the nodes after u on a walk from u to w. */
  ghost predicate IsPath(adj: Adjacency, u: Node, p: seq<Node>, w: Node)
    decreases |p|
  {
    if p == [] then u == w
    else Edge(adj, u, p[0]) && IsPath(adj, p[0], p[1..], w)
  }

  ghost predicate Reach(adj: Adjacency, u: Node, w: Node) {
    exists p :: IsPath(adj, u, p, w)
  }

  ghost predicate Mutual(adj: Adjacency, u: Node, w: Node) {
    Reach(adj, u, w) && Reach(adj, w, u)
  }

  ghost predicate ClosedSet(adj: Adjacency, s: set<Node>) {
    forall v, w :: v in s && Edge(adj, v, w) ==> w in s
  }

  lemma ReachSelf(adj: Adjacency, u: Node)
    ensures Reach(adj, u, u)
  {
    assert IsPath(adj, u, [], u);
  }

  lemma {:induction false} PathConcat(adj: Adjacency, u: Node, p: seq<Node>, v: Node, q: seq<Node>, w: Node)
    requires IsPath(adj, u, p, v) && IsPath(adj, v, q, w)
    ensures IsPath(adj, u, p + q, w)
    decreases |p|
  {
    if p == [] {
      assert p + q == q;
    } else {
      PathConcat(adj, p[0], p[1..], v, q, w);
      assert (p + q)[0] == p[0] && (p + q)[1..] == p[1..] + q;
    }
  }

  lemma ReachTrans(adj: Adjacency, u: Node, v: Node, w: Node)
    requires Reach(adj, u, v) && Reach(adj, v, w)
    ensures Reach(adj, u, w)
  {
    var p :| IsPath(adj, u, p, v);
    var q :| IsPath(adj, v, q, w);
    PathConcat(adj, u, p, v, q, w);
  }

  lemma ReachEdge(adj: Adjacency, u: Node, w: Node)
    requires Edge(adj, u, w)
    ensures Reach(adj, u, w)
  {
    assert [w][1..] == [];
    assert IsPath(adj, w, [], w);
    assert IsPath(adj, u, [w], w);
  }

  lemma {:induction false} PathStays(adj: Adjacency, s: set<Node>, u: Node, p: seq<Node>, w: Node)
    requires ClosedSet(adj, s) && u in s && IsPath(adj, u, p, w)
    ensures w in s
    decreases |p|
  {
    if p != [] { PathStays(adj, s, p[0], p[1..], w); }
  }

  lemma ReachStays(adj: Adjacency, s: set<Node>, u: Node, w: Node)
    requires ClosedSet(adj, s) && u in s && Reach(adj, u, w)
    ensures w in s
  {
    var p :| IsPath(adj, u, p, w);
    PathStays(adj, s, u, p, w);
  }

  // ---- Sink components -------------------------------------------------------------------

  /** Every node mentioned anywhere. */
  function Universe(adj: Adjacency): set<Node> {
    adj.Keys + (set v, w | v in adj && w in adj[v] :: w)
  }

  lemma UniverseClosed(adj: Adjacency)
    ensures ClosedSet(adj, Universe(adj))
  {}

  /** v lies on a cycle with another node, and nothing v reaches fails to reach v back: the
      members of the multi-member components that no edge leaves. */
  ghost predicate InSinkCycle(adj: Adjacency, v: Node) {
    && (exists w :: w != v && Mutual(adj, v, w))
    && (forall w :: Reach(adj, v, w) ==> Reach(adj, w, v))
  }

  /** Every node has a successor, every successor is a node, no node is its own. */
  ghost predicate AllOffenders(adj: Adjacency) {
    forall v | v in adj :: adj[v] != [] && forall w | w in adj[v] :: w in adj && w != v
  }

  ghost function ReachSet(adj: Adjacency, v: Node): set<Node> {
    set w | w in Universe(adj) && Reach(adj, v, w)
  }

  /** A sink cycle is found from any node by walking on while something reachable cannot
      come back: the set of reachable nodes shrinks at every step. */
  lemma {:induction false} SinkFrom(adj: Adjacency, v: Node) returns (s: Node)
    requires AllOffenders(adj) && v in adj
    ensures s in adj && InSinkCycle(adj, s)
    decreases ReachSet(adj, v)
  {
    if w :| Reach(adj, v, w) && !Reach(adj, w, v) {
      UniverseClosed(adj);
      KeysClosed(adj);
      ReachStays(adj, adj.Keys, v, w);
      forall x | x in ReachSet(adj, w) ensures x in ReachSet(adj, v) { ReachTrans(adj, v, w, x); }
      ReachSelf(adj, v);
      assert v in ReachSet(adj, v) && v !in ReachSet(adj, w);
      s := SinkFrom(adj, w);
    } else {
      s := v;
      var w := adj[v][0];
      assert Edge(adj, v, w);
      ReachEdge(adj, v, w);
      assert Mutual(adj, v, w) && w != v;
    }
  }

  lemma KeysClosed(adj: Adjacency)
    requires AllOffenders(adj)
    ensures ClosedSet(adj, adj.Keys)
  {}

  /** When every victim is itself an offender there is a cycle no edge leaves. */
  lemma SinkCycleExists(adj: Adjacency)
    requires AllOffenders(adj) && adj.Keys != {}
    ensures exists v :: v in adj && InSinkCycle(adj, v)
  {
    var v :| v in adj;
    var s := SinkFrom(adj, v);
  }
}
