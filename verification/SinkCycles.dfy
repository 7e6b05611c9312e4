/** Which groups a cycle round refuses: the members of every multi-member component no
    edge leaves, found from Tarjan's component numbers. */
module SinkCycles {
  import opened Graph
  import opened Tarjan

  /** The component numbers of a whole graph. */
  ghost predicate Numbering(adj: Adjacency, sccOf: map<Node, nat>) {
    && adj.Keys <= sccOf.Keys
    && ClosedSet(adj, sccOf.Keys)
    && Components(adj, sccOf)
  }

  lemma NothingOpen(adj: Adjacency, s: Snapshot)
    requires Inv(adj, s, {})
    ensures s.stack == [] && s.sccOf.Keys == s.index.Keys
    ensures ClosedSet(adj, s.sccOf.Keys) && Components(adj, s.sccOf)
  {
    hide Reach;
    assert s.stack != [] ==> OpenBelow(adj, s.stack, {}, 0);
  }

  lemma StartInv(adj: Adjacency)
    ensures Inv(adj, Snapshot(map[], map[], {}, [], map[], 0, 0), {})
  {}

  lemma KeepsIndex(s0: Snapshot, s1: Snapshot)
    requires Extends(s0, s1, {})
    ensures s0.index.Keys <= s1.index.Keys
  {}

  /** Two nodes get the same number exactly when each reaches the other. */
  method StronglyConnectedComponents(adj: Adjacency) returns (sccOf: map<Node, nat>)
    ensures Numbering(adj, sccOf)
  {
    hide Inv, Extends, Returned, Reach;
    ghost var universe := Universe(adj);
    UniverseClosed(adj);
    var search := new Search(adj);
    StartInv(adj);
    var todo := adj.Keys;
    while todo != {}
      invariant search.adjacency == adj && fresh(search)
      invariant Inv(adj, search.Snap(), {})
      invariant search.index.Keys <= universe
      invariant todo <= adj.Keys && adj.Keys - todo <= search.index.Keys
      decreases todo
    {
      var n :| n in todo;
      todo := todo - {n};
      if n !in search.index {
        ghost var s := search.Snap();
        search.StrongConnect(n, {}, universe);
        KeepsIndex(s, search.Snap());
        ReturnedIndex(adj, s, search.Snap(), n);
      }
    }
    NothingOpen(adj, search.Snap());
    sccOf := search.sccOf;
  }

  lemma ReturnedIndex(adj: Adjacency, s0: Snapshot, s1: Snapshot, v: Node)
    requires Returned(adj, s0, s1, v)
    ensures v in s1.index
  {}

  ghost function MembersOf(adj: Adjacency, sccOf: map<Node, nat>, id: nat): set<Node> {
    set n | n in adj && n in sccOf && sccOf[n] == id
  }

  ghost predicate Escapes(adj: Adjacency, sccOf: map<Node, nat>, id: nat) {
    exists n, w :: n in adj && n in sccOf && sccOf[n] == id && w in adj[n] && w in sccOf && sccOf[w] != id
  }

  lemma SinkCycleByNumber(adj: Adjacency, sccOf: map<Node, nat>, v: Node)
    requires Numbering(adj, sccOf) && v in adj
    ensures InSinkCycle(adj, v) <==> !Escapes(adj, sccOf, sccOf[v]) && |MembersOf(adj, sccOf, sccOf[v])| > 1
  {
    var id := sccOf[v];
    var members := MembersOf(adj, sccOf, id);
    assert v in members;
    if !Escapes(adj, sccOf, id) && |members| > 1 {
      CycleWithoutEscape(adj, sccOf, v);
    }
    if InSinkCycle(adj, v) {
      NoEscapeFromSink(adj, sccOf, v);
    }
  }

  lemma CycleWithoutEscape(adj: Adjacency, sccOf: map<Node, nat>, v: Node)
    requires Numbering(adj, sccOf) && v in adj
    requires !Escapes(adj, sccOf, sccOf[v]) && |MembersOf(adj, sccOf, sccOf[v])| > 1
    ensures InSinkCycle(adj, v)
  {
    hide Reach;
    var id := sccOf[v];
    var members := MembersOf(adj, sccOf, id);
    var w := Another(members, v);
    assert Mutual(adj, v, w);
    var component := set x | x in sccOf && sccOf[x] == id;
    assert ClosedSet(adj, component) by {
      forall x, y | x in component && Edge(adj, x, y) ensures y in component {
        assert x in adj && y in adj[x];
      }
    }
    forall y | Reach(adj, v, y) ensures Reach(adj, y, v) {
      ReachStays(adj, component, v, y);
      assert Mutual(adj, v, y);
    }
  }

  lemma NoEscapeFromSink(adj: Adjacency, sccOf: map<Node, nat>, v: Node)
    requires Numbering(adj, sccOf) && v in adj && InSinkCycle(adj, v)
    ensures !Escapes(adj, sccOf, sccOf[v]) && |MembersOf(adj, sccOf, sccOf[v])| > 1
  {
    var id := sccOf[v];
    var members := MembersOf(adj, sccOf, id);
    var w :| w != v && Mutual(adj, v, w);
    ReachStays(adj, sccOf.Keys, v, w);
    HasSuccessor(adj, w, v);
    assert {v, w} <= members;
    assert |members| >= |{v, w}| by { SubsetSize({v, w}, members); }
    forall n, x | n in adj && sccOf[n] == id && x in adj[n] ensures x in sccOf && sccOf[x] == id {
      assert Edge(adj, n, x);
      assert Mutual(adj, v, n);
      ReachEdge(adj, n, x);
      ReachTrans(adj, v, n, x);
      assert Mutual(adj, v, x);
    }
  }

  lemma Another(s: set<Node>, v: Node) returns (w: Node)
    requires v in s && |s| > 1
    ensures w in s && w != v
  {
    assert |s - {v}| == |s| - 1;
    w :| w in s - {v};
  }

  lemma HasSuccessor(adj: Adjacency, w: Node, v: Node)
    requires Reach(adj, w, v) && w != v
    ensures w in adj
  {
    var p :| IsPath(adj, w, p, v);
    assert Edge(adj, w, p[0]);
  }

  lemma {:induction false} SubsetSize(a: set<Node>, b: set<Node>)
    requires a <= b
    ensures |a| <= |b|
  {
    if a != {} {
      var x :| x in a;
      SubsetSize(a - {x}, b - {x});
    }
  }

  // ---- Collecting the components ---------------------------------------------------------------

  ghost function MembersSoFar(adj: Adjacency, sccOf: map<Node, nat>, todo: set<Node>, id: nat): set<Node> {
    set n | n in adj && n !in todo && n in sccOf && sccOf[n] == id
  }

  ghost predicate EscapesSoFar(adj: Adjacency, sccOf: map<Node, nat>, todo: set<Node>, id: nat) {
    exists n, w :: n in adj && n !in todo && n in sccOf && sccOf[n] == id && w in adj[n] && w in sccOf && sccOf[w] != id
  }

  /** The two tables after the nodes outside `todo`. */
  ghost predicate Tabulated(adj: Adjacency, sccOf: map<Node, nat>, todo: set<Node>, members: map<nat, set<Node>>,
                            escapes: set<nat>)
  {
    && (forall id :: id in members <==> MembersSoFar(adj, sccOf, todo, id) != {})
    && (forall id | id in members :: members[id] == MembersSoFar(adj, sccOf, todo, id))
    && (forall id :: id in escapes <==> EscapesSoFar(adj, sccOf, todo, id))
  }

  lemma MemberAdded(adj: Adjacency, sccOf: map<Node, nat>, todo: set<Node>, n: Node, id: nat)
    requires n in todo && n in adj && n in sccOf
    ensures MembersSoFar(adj, sccOf, todo - {n}, id)
         == MembersSoFar(adj, sccOf, todo, id) + if id == sccOf[n] then {n} else {}
  {}

  lemma EscapeAdded(adj: Adjacency, sccOf: map<Node, nat>, todo: set<Node>, n: Node, id: nat)
    requires n in todo && n in adj && n in sccOf
    ensures EscapesSoFar(adj, sccOf, todo - {n}, id) <==>
            EscapesSoFar(adj, sccOf, todo, id)
            || (id == sccOf[n] && exists w :: w in adj[n] && w in sccOf && sccOf[w] != id)
  {
    if EscapesSoFar(adj, sccOf, todo - {n}, id) {
      var m, w :| m in adj && m !in todo - {n} && m in sccOf && sccOf[m] == id && w in adj[m] && w in sccOf
          && sccOf[w] != id;
      assert m != n ==> EscapesSoFar(adj, sccOf, todo, id);
    }
    if EscapesSoFar(adj, sccOf, todo, id) {
      var m, w :| m in adj && m !in todo && m in sccOf && sccOf[m] == id && w in adj[m] && w in sccOf && sccOf[w] != id;
      assert m !in todo - {n};
    }
    if w :| id == sccOf[n] && w in adj[n] && w in sccOf && sccOf[w] != id {
      assert n !in todo - {n};
    }
  }

  method HasEscape(successors: seq<Node>, sccOf: map<Node, nat>, id: nat) returns (r: bool)
    requires forall w | w in successors :: w in sccOf
    ensures r <==> exists w :: w in successors && w in sccOf && sccOf[w] != id
  {
    r := false;
    for i := 0 to |successors|
      invariant r <==> exists j :: 0 <= j < i && sccOf[successors[j]] != id
    {
      if sccOf[successors[i]] != id { r := true; }
    }
    if r {
      var j :| 0 <= j < |successors| && sccOf[successors[j]] != id;
      assert successors[j] in successors;
    }
  }

  method Tabulate(adj: Adjacency, sccOf: map<Node, nat>) returns (members: map<nat, set<Node>>, escapes: set<nat>)
    requires Numbering(adj, sccOf)
    ensures Tabulated(adj, sccOf, {}, members, escapes)
  {
    hide Components, Reach;
    members, escapes := map[], {};
    var todo := adj.Keys;
    while todo != {}
      invariant todo <= adj.Keys
      invariant Tabulated(adj, sccOf, todo, members, escapes)
      decreases todo
    {
      var n :| n in todo;
      var id := sccOf[n];
      forall w | w in adj[n] ensures w in sccOf { assert Edge(adj, n, w); }
      var leaves := HasEscape(adj[n], sccOf, id);
      forall i: nat ensures MembersSoFar(adj, sccOf, todo - {n}, i)
         == MembersSoFar(adj, sccOf, todo, i) + if i == id then {n} else {} { MemberAdded(adj, sccOf, todo, n, i); }
      forall i: nat ensures EscapesSoFar(adj, sccOf, todo - {n}, i)
         <==> EscapesSoFar(adj, sccOf, todo, i) || (i == id && leaves) { EscapeAdded(adj, sccOf, todo, n, i); }
      hide MembersSoFar, EscapesSoFar, Numbering;
      members := members[id := (if id in members then members[id] else {}) + {n}];
      if leaves { escapes := escapes + {id}; }
      todo := todo - {n};
    }
  }

  method SelectSinks(members: map<nat, set<Node>>, escapes: set<nat>) returns (out: set<Node>)
    ensures forall v :: v in out <==>
              exists id :: id in members && id !in escapes && |members[id]| > 1 && v in members[id]
  {
    out := {};
    var ids := members.Keys;
    while ids != {}
      invariant ids <= members.Keys
      invariant forall v :: v in out <==>
                  exists id :: id in members && id !in ids && id !in escapes && |members[id]| > 1 && v in members[id]
      decreases ids
    {
      var id :| id in ids;
      ids := ids - {id};
      if id !in escapes && |members[id]| > 1 { out := out + members[id]; }
    }
  }

  lemma SelectedAreSinks(adj: Adjacency, sccOf: map<Node, nat>, members: map<nat, set<Node>>, escapes: set<nat>,
                         v: Node)
    requires Numbering(adj, sccOf) && Tabulated(adj, sccOf, {}, members, escapes)
    ensures v in adj && InSinkCycle(adj, v) <==>
              exists id :: id in members && id !in escapes && |members[id]| > 1 && v in members[id]
  {
    hide Reach, InSinkCycle, Components, ClosedSet;
    if v in adj {
      var id := sccOf[v];
      SinkCycleByNumber(adj, sccOf, v);
      assert EscapesSoFar(adj, sccOf, {}, id) <==> Escapes(adj, sccOf, id);
      assert MembersSoFar(adj, sccOf, {}, id) == MembersOf(adj, sccOf, id);
      assert v in MembersOf(adj, sccOf, id);
      assert id in members && members[id] == MembersOf(adj, sccOf, id);
    }
  }

  /** The members of every multi-member component with no edge leaving it, or all nodes
      when there is none. The list's order is not part of the model. */
  method SinkCycleMembers(adj: Adjacency) returns (out: set<Node>)
    ensures var sinks := set v | v in adj && InSinkCycle(adj, v);
            out == if sinks == {} then adj.Keys else sinks
  {
    hide Numbering, Tabulated, InSinkCycle;
    var sccOf := StronglyConnectedComponents(adj);
    var members, escapes := Tabulate(adj, sccOf);
    out := SelectSinks(members, escapes);
    forall v ensures v in out <==> v in adj && InSinkCycle(adj, v) {
      SelectedAreSinks(adj, sccOf, members, escapes, v);
    }
    if out == {} {
      // Unreachable when every victim is itself an offender; see SinkCycleExists.
      out := adj.Keys;
    }
  }
}
