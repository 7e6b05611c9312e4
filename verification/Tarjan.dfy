/**
 Tarjan's algorithm as the refusal rounds use it. The class holds the variables the
 recursive closure captures; `Snap` reads them as one value, and the invariant and every
 step of the proof are about such values.
 */
module Tarjan {
  import opened Graph

  datatype Snapshot = Snapshot(
    index: map<Node, nat>, low: map<Node, nat>, onStack: set<Node>, stack: seq<Node>,
    sccOf: map<Node, nat>, counter: nat, sccCount: nat)

  function Elems(s: seq<Node>): set<Node> { set x | x in s }

  // ---- The invariant -------------------------------------------------------------------------

  /** Stack entries are numbered, and numbered in stack order. */
  ghost predicate Rising(index: map<Node, nat>, stack: seq<Node>) {
    && (forall i :: 0 <= i < |stack| ==> stack[i] in index)
    && (forall i, j :: 0 <= i < j < |stack| ==> index[stack[i]] < index[stack[j]])
  }

  /** The numbered nodes are those on the stack and, apart from them, the finished ones. */
  ghost predicate Partition(s: Snapshot) {
    && s.onStack == Elems(s.stack)
    && s.index.Keys == s.onStack + s.sccOf.Keys
    && s.onStack !! s.sccOf.Keys
    && s.low.Keys == s.index.Keys
  }

  ghost predicate Numbered(s: Snapshot) {
    && Rising(s.index, s.stack)
    && (forall v | v in s.index :: s.index[v] < s.counter)
    && (forall v | v in s.sccOf :: s.sccOf[v] < s.sccCount)
  }

  /** Nodes whose own call has finished have only visited successors, and the finished
      components are closed under edges. */
  ghost predicate Explored(adj: Adjacency, visited: set<Node>, gray: set<Node>, done: set<Node>) {
    && (forall v, w :: v in visited && v !in gray && Edge(adj, v, w) ==> w in visited)
    && ClosedSet(adj, done)
  }

  ghost predicate OpenBelow(adj: Adjacency, stack: seq<Node>, gray: set<Node>, i: nat)
    requires i < |stack|
  {
    exists k :: 0 <= k <= i && stack[k] in gray && Reach(adj, stack[i], stack[k])
  }

  /** Lower stack entries reach higher ones, and every entry reaches an open call at or
      below it. */
  ghost predicate StackReach(adj: Adjacency, stack: seq<Node>, gray: set<Node>) {
    && (forall i, j :: 0 <= i <= j < |stack| ==> Reach(adj, stack[i], stack[j]))
    && (forall i :: 0 <= i < |stack| ==> OpenBelow(adj, stack, gray, i))
  }

  /** Finished nodes share a number exactly when each reaches the other. */
  ghost predicate Components(adj: Adjacency, sccOf: map<Node, nat>) {
    forall v, w :: v in sccOf && w in sccOf ==> (sccOf[v] == sccOf[w] <==> Mutual(adj, v, w))
  }

  ghost predicate Inv(adj: Adjacency, s: Snapshot, gray: set<Node>) {
    && Partition(s) && Numbered(s) && gray <= s.onStack
    && Explored(adj, s.index.Keys, gray, s.sccOf.Keys)
    && StackReach(adj, s.stack, gray)
    && Components(adj, s.sccOf)
  }

  /** What a step may change: it adds nodes, and leaves everything recorded about earlier
      ones as it was, but for the low value of `but`. */
  ghost predicate Extends(s0: Snapshot, s1: Snapshot, but: set<Node>) {
    && s0.stack <= s1.stack
    && s0.counter <= s1.counter
    && (forall v | v in s0.index :: v in s1.index && s1.index[v] == s0.index[v])
    && (forall v | v in s0.low :: v in s1.low && (v !in but ==> s1.low[v] == s0.low[v]))
    && (forall v | v in s1.index && v !in s0.index :: s0.counter <= s1.index[v])
  }

  /** The low value is the number of a stack entry v reaches. */
  ghost predicate LowWitness(adj: Adjacency, index: map<Node, nat>, stack: seq<Node>, v: Node, low: nat) {
    exists i :: 0 <= i < |stack| && stack[i] in index && index[stack[i]] == low && Reach(adj, v, stack[i])
  }

  /** No edge leads from the stack at m and above to an entry below n numbered under bound. */
  ghost predicate NoEdgeUnder(adj: Adjacency, index: map<Node, nat>, stack: seq<Node>, m: nat, n: nat, bound: nat) {
    forall i, j ::
      (m <= i < |stack| && 0 <= j < n && j < |stack| && stack[j] in index && Edge(adj, stack[i], stack[j]))
      ==> bound <= index[stack[j]]
  }

  /** What a finished call on v promises about v's low value. */
  ghost predicate Returned(adj: Adjacency, s0: Snapshot, s1: Snapshot, v: Node) {
    && v in s1.index && v in s1.low && s0.counter <= s1.index[v]
    && s1.low[v] <= s1.index[v]
    && (v in s1.sccOf ==> s1.low[v] == s1.index[v])
    && (v !in s1.sccOf ==> LowWitness(adj, s1.index, s1.stack, v, s1.low[v]))
    && NoEdgeUnder(adj, s1.index, s1.stack, |s0.stack|, |s0.stack|, s1.low[v])
  }

  // ---- Opening a call ------------------------------------------------------------------------

  function Pushed(s: Snapshot, v: Node): Snapshot {
    s.(index := s.index[v := s.counter], low := s.low[v := s.counter], counter := s.counter + 1,
       stack := s.stack + [v], onStack := s.onStack + {v})
  }

  lemma PushReach(adj: Adjacency, stack: seq<Node>, gray: set<Node>, v: Node)
    requires StackReach(adj, stack, gray) && forall g | g in gray :: Reach(adj, g, v)
    ensures StackReach(adj, stack + [v], gray + {v})
  {
    hide Reach;
    var t, n := stack + [v], |stack|;
    ReachSelf(adj, v);
    forall i, j | 0 <= i <= j < |t| ensures Reach(adj, t[i], t[j]) {
      if i < j == n {
        assert OpenBelow(adj, stack, gray, i);
        var k :| 0 <= k <= i && stack[k] in gray && Reach(adj, stack[i], stack[k]);
        ReachTrans(adj, stack[i], stack[k], v);
      }
    }
    forall i | 0 <= i < |t| ensures OpenBelow(adj, t, gray + {v}, i) {
      if i < n {
        assert OpenBelow(adj, stack, gray, i);
        var k :| 0 <= k <= i && stack[k] in gray && Reach(adj, stack[i], stack[k]);
        assert t[k] in gray + {v};
      } else {
        assert t[n] in gray + {v};
      }
    }
  }

  lemma PushShape(s: Snapshot, v: Node)
    requires Partition(s) && Numbered(s) && v !in s.index
    ensures Partition(Pushed(s, v)) && Numbered(Pushed(s, v))
  {
    var t := Pushed(s, v);
    assert Elems(t.stack) == Elems(s.stack) + {v} by {
      forall x | x in Elems(s.stack) + {v} ensures x in t.stack {
        if x == v { assert t.stack[|s.stack|] == v; }
      }
    }
  }

  lemma PushKeeps(adj: Adjacency, s: Snapshot, gray: set<Node>, v: Node)
    requires Inv(adj, s, gray) && v !in s.index && forall g | g in gray :: Reach(adj, g, v)
    ensures Inv(adj, Pushed(s, v), gray + {v})
  {
    hide Partition, Numbered, StackReach, Components, Reach, Elems;
    PushReach(adj, s.stack, gray, v);
    PushShape(s, v);
  }

  // ---- Closing a call: v stays on the stack ------------------------------------------------------

  lemma RisingDistinct(index: map<Node, nat>, stack: seq<Node>, i: nat, j: nat)
    requires Rising(index, stack) && i < |stack| && j < |stack| && stack[i] == stack[j]
    ensures i == j
  {}

  /** Something older than v is reachable from v, so what relied on v's open call can rely
      on an older one. */
  lemma StayReach(adj: Adjacency, index: map<Node, nat>, stack: seq<Node>, gray: set<Node>, v: Node, n: nat, m: nat)
    requires StackReach(adj, stack, gray + {v}) && Rising(index, stack)
    requires m < n < |stack| && stack[n] == v && Reach(adj, v, stack[m])
    ensures StackReach(adj, stack, gray)
  {
    hide Reach;
    assert OpenBelow(adj, stack, gray + {v}, m);
    var l :| 0 <= l <= m && stack[l] in gray + {v} && Reach(adj, stack[m], stack[l]);
    assert index[stack[l]] <= index[stack[m]] < index[v];
    ReachTrans(adj, v, stack[m], stack[l]);
    forall i | 0 <= i < |stack| ensures OpenBelow(adj, stack, gray, i) {
      assert OpenBelow(adj, stack, gray + {v}, i);
      var k :| 0 <= k <= i && stack[k] in gray + {v} && Reach(adj, stack[i], stack[k]);
      if stack[k] == v {
        RisingDistinct(index, stack, k, n);
        ReachTrans(adj, stack[i], v, stack[l]);
      }
    }
  }

  lemma StayKeeps(adj: Adjacency, s: Snapshot, gray: set<Node>, v: Node, n: nat)
    requires Inv(adj, s, gray + {v}) && n < |s.stack| && s.stack[n] == v
    requires forall w | Edge(adj, v, w) :: w in s.index
    requires v in s.low && v in s.index && s.low[v] < s.index[v]
    requires LowWitness(adj, s.index, s.stack, v, s.low[v])
    ensures Inv(adj, s, gray)
  {
    hide Partition, StackReach, Components, Reach, Elems;
    var m :| 0 <= m < |s.stack| && s.stack[m] in s.index && s.index[s.stack[m]] == s.low[v]
        && Reach(adj, v, s.stack[m]);
    assert m < n;
    StayReach(adj, s.index, s.stack, gray, v, n, m);
  }

  // ---- Closing a call: v's component is complete -----------------------------------------------

  function Popped(s: Snapshot, n: nat): Snapshot
    requires n <= |s.stack| && s.onStack == Elems(s.stack)
  {
    s.(stack := s.stack[..n], onStack := Elems(s.stack[..n]),
       sccOf := Finish(s.sccOf, Elems(s.stack[n..]), s.sccCount),
       sccCount := s.sccCount + 1)
  }

  function Finish(sccOf: map<Node, nat>, part: set<Node>, id: nat): (r: map<Node, nat>)
    ensures r.Keys == sccOf.Keys + part
    ensures forall x | x in part :: r[x] == id
    ensures forall x | x in sccOf && x !in part :: r[x] == sccOf[x]
  {
    map x | x in sccOf.Keys + part :: if x in part then id else sccOf[x]
  }

  /** The two halves of a stack without repetitions are disjoint and make up the whole. */
  lemma SplitStack(index: map<Node, nat>, stack: seq<Node>, n: nat)
    requires Rising(index, stack) && n <= |stack|
    ensures Elems(stack) == Elems(stack[..n]) + Elems(stack[n..])
    ensures Elems(stack[..n]) !! Elems(stack[n..])
  {
    forall x ensures x in Elems(stack) <==> x in Elems(stack[..n]) + Elems(stack[n..]) {
      assert stack == stack[..n] + stack[n..];
    }
    forall x | x in stack[..n] ensures x !in stack[n..] {
      var i :| 0 <= i < n && stack[..n][i] == x;
      forall j | 0 <= j < |stack| - n ensures stack[n..][j] != x {
        assert index[stack[i]] < index[stack[n + j]];
      }
    }
  }

  lemma PopPartition(s: Snapshot, n: nat)
    requires Partition(s) && Rising(s.index, s.stack) && n <= |s.stack|
    ensures Partition(Popped(s, n))
  {
    SplitStack(s.index, s.stack, n);
    hide Elems, Finish, Rising;
    var t, lo, hi := Popped(s, n), Elems(s.stack[..n]), Elems(s.stack[n..]);
    assert t.onStack == lo && s.onStack == lo + hi;
    assert t.sccOf.Keys == s.sccOf.Keys + hi;
  }

  lemma PopNumbered(s: Snapshot, n: nat)
    requires Numbered(s) && s.onStack == Elems(s.stack) && n <= |s.stack|
    ensures Numbered(Popped(s, n))
  {
    hide Elems;
    var t := Popped(s, n);
    assert Rising(t.index, t.stack);
  }

  lemma PopReach(adj: Adjacency, index: map<Node, nat>, stack: seq<Node>, gray: set<Node>, v: Node, n: nat)
    requires StackReach(adj, stack, gray + {v}) && Rising(index, stack) && n < |stack| && stack[n] == v
    ensures StackReach(adj, stack[..n], gray)
  {
    hide Reach;
    forall i | 0 <= i < n ensures OpenBelow(adj, stack[..n], gray, i) {
      assert OpenBelow(adj, stack, gray + {v}, i);
      var k :| 0 <= k <= i && stack[k] in gray + {v} && Reach(adj, stack[i], stack[k]);
      assert index[stack[k]] < index[v];
      assert stack[..n][k] in gray;
    }
  }

  lemma WithRoot(adj: Adjacency, stack: seq<Node>, gray: set<Node>, v: Node, n: nat, x: Node)
    requires StackReach(adj, stack, gray + {v}) && n < |stack| && stack[n] == v && x in Elems(stack[n..])
    requires forall g | g in gray :: Reach(adj, g, v)
    ensures Mutual(adj, v, x)
  {
    hide Reach;
    var i :| 0 <= i < |stack| - n && stack[n..][i] == x;
    assert stack[n + i] == x && Reach(adj, stack[n], stack[n + i]);
    assert OpenBelow(adj, stack, gray + {v}, n + i);
    var k :| 0 <= k <= n + i && stack[k] in gray + {v} && Reach(adj, stack[n + i], stack[k]);
    if stack[k] != v { ReachTrans(adj, x, stack[k], v); }
  }

  lemma PopComponents(adj: Adjacency, sccOf: map<Node, nat>, part: set<Node>, id: nat, v: Node)
    requires Components(adj, sccOf) && ClosedSet(adj, sccOf.Keys) && part !! sccOf.Keys
    requires forall x | x in sccOf :: sccOf[x] < id
    requires forall x | x in part :: Mutual(adj, v, x)
    ensures Components(adj, Finish(sccOf, part, id))
  {
    hide Reach;
    var r := Finish(sccOf, part, id);
    forall x, y | x in r && y in r ensures r[x] == r[y] <==> Mutual(adj, x, y) {
      if x in part && y in part {
        ReachTrans(adj, x, v, y);
        ReachTrans(adj, y, v, x);
      } else if x in part {
        if Reach(adj, y, x) { ReachStays(adj, sccOf.Keys, y, x); }
      } else if y in part {
        if Reach(adj, x, y) { ReachStays(adj, sccOf.Keys, x, y); }
      }
    }
  }

  lemma PopClosed(adj: Adjacency, s: Snapshot, gray: set<Node>, v: Node, n: nat)
    requires Partition(s) && Rising(s.index, s.stack) && Explored(adj, s.index.Keys, gray + {v}, s.sccOf.Keys)
    requires n < |s.stack| && s.stack[n] == v && gray <= Elems(s.stack[..n])
    requires forall w | Edge(adj, v, w) :: w in s.index
    requires v in s.index && NoEdgeUnder(adj, s.index, s.stack, n, n, s.index[v])
    ensures ClosedSet(adj, s.sccOf.Keys + Elems(s.stack[n..]))
  {
    var done := s.sccOf.Keys + Elems(s.stack[n..]);
    SplitStack(s.index, s.stack, n);
    forall x, w | x in done && Edge(adj, x, w) ensures w in done {
      if x !in s.sccOf {
        hide Elems, NoEdgeUnder, Rising;
        assert x !in gray && x in s.index && w in s.index;
        NotBelow(adj, s.index, s.stack, v, n, x, w);
      }
    }
  }

  lemma NotBelow(adj: Adjacency, index: map<Node, nat>, stack: seq<Node>, v: Node, n: nat, x: Node, w: Node)
    requires Rising(index, stack) && n < |stack| && stack[n] == v && v in index
    requires NoEdgeUnder(adj, index, stack, n, n, index[v])
    requires x in Elems(stack[n..]) && Edge(adj, x, w)
    ensures w !in Elems(stack[..n])
  {
    var i :| 0 <= i < |stack| - n && stack[n..][i] == x;
    assert stack[n + i] == x;
    forall j | 0 <= j < n ensures stack[..n][j] != w {
      assert index[stack[j]] < index[v];
    }
  }

  /** The entries from v up form one component, and its edges stay among finished nodes. */
  lemma PopKeeps(adj: Adjacency, s: Snapshot, gray: set<Node>, v: Node, n: nat)
    requires Inv(adj, s, gray + {v}) && n < |s.stack| && s.stack[n] == v
    requires gray <= Elems(s.stack[..n]) && forall g | g in gray :: Reach(adj, g, v)
    requires forall w | Edge(adj, v, w) :: w in s.index
    requires v in s.index && NoEdgeUnder(adj, s.index, s.stack, n, n, s.index[v])
    ensures Inv(adj, Popped(s, n), gray)
    ensures forall x :: x in Elems(s.stack[n..]) <==> Mutual(adj, v, x)
  {
    hide Reach, StackReach, Components, Elems, NoEdgeUnder, Rising, Finish;
    PopPartition(s, n);
    PopNumbered(s, n);
    PopReach(adj, s.index, s.stack, gray, v, n);
    PopClosed(adj, s, gray, v, n);
    SplitStack(s.index, s.stack, n);
    var part := Elems(s.stack[n..]);
    forall x | x in part ensures Mutual(adj, v, x) { WithRoot(adj, s.stack, gray, v, n, x); }
    PopComponents(adj, s.sccOf, part, s.sccCount, v);
    assert v in part by { assert s.stack[n..][0] == v; FirstIn(s.stack[n..]); }
    forall x | Mutual(adj, v, x) ensures x in part { NothingMissed(adj, s.sccOf.Keys, part, v, x); }
  }

  lemma FirstIn(stack: seq<Node>)
    requires stack != []
    ensures stack[0] in Elems(stack)
  {}

  /** What v and x reach of each other is finished at the same time. */
  lemma NothingMissed(adj: Adjacency, done: set<Node>, part: set<Node>, v: Node, x: Node)
    requires ClosedSet(adj, done) && ClosedSet(adj, done + part) && v in part && part !! done && Mutual(adj, v, x)
    ensures x in part
  {
    hide Reach;
    ReachStays(adj, done + part, v, x);
    if x in done { ReachStays(adj, done, x, v); }
  }

  // ---- The running minimum over the successors -------------------------------------------------

  /** The first k successors of v are visited, and those on the old stack are numbered at
      least `low`. */
  ghost predicate SuccessorsSeen(adj: Adjacency, index: map<Node, nat>, before: set<Node>, v: Node, k: nat, low: nat) {
    && k <= |Succ(adj, v)|
    && (forall i :: 0 <= i < k ==> Succ(adj, v)[i] in index)
    && (forall i :: 0 <= i < k && Succ(adj, v)[i] in before ==> low <= index[Succ(adj, v)[i]])
  }

  /** After k successors of v. */
  ghost predicate Progress(adj: Adjacency, s0: Snapshot, s: Snapshot, gray: set<Node>, v: Node, k: nat) {
    && Inv(adj, s, gray + {v})
    && Extends(Pushed(s0, v), s, {v})
    && v in s.low && v in s.index && s.low[v] <= s.index[v]
    && LowWitness(adj, s.index, s.stack, v, s.low[v])
    && NoEdgeUnder(adj, s.index, s.stack, |s0.stack| + 1, |s0.stack|, s.low[v])
    && SuccessorsSeen(adj, s.index, s0.onStack, v, k, s.low[v])
  }

  lemma ProgressStart(adj: Adjacency, s0: Snapshot, gray: set<Node>, v: Node)
    requires Inv(adj, s0, gray) && v !in s0.index && forall g | g in gray :: Reach(adj, g, v)
    ensures Progress(adj, s0, Pushed(s0, v), gray, v, 0)
  {
    var s := Pushed(s0, v);
    PushKeeps(adj, s0, gray, v);
    hide Inv;
    ReachSelf(adj, v);
    assert s.stack[|s0.stack|] == v;
    assert LowWitness(adj, s.index, s.stack, v, s.low[v]);
  }

  lemma RelowInv(adj: Adjacency, s: Snapshot, gray: set<Node>, v: Node, low: nat)
    requires Inv(adj, s, gray) && v in s.low
    ensures Inv(adj, s.(low := s.low[v := low]), gray)
  {
    hide Reach, StackReach, Components, Explored, Rising, Elems;
    var t := s.(low := s.low[v := low]);
    assert t.low.Keys == s.low.Keys;
  }

  lemma Weaken(adj: Adjacency, index: map<Node, nat>, stack: seq<Node>, m: nat, n: nat, bound: nat, low: nat)
    requires NoEdgeUnder(adj, index, stack, m, n, bound) && low <= bound
    ensures NoEdgeUnder(adj, index, stack, m, n, low)
  {}

  lemma RelowExtends(s0: Snapshot, s: Snapshot, v: Node, low: nat)
    requires Extends(s0, s, {v}) && v in s.low
    ensures Extends(s0, s.(low := s.low[v := low]), {v})
  {}

  lemma ExtendsThen(s0: Snapshot, s: Snapshot, t: Snapshot, v: Node)
    requires Extends(s0, s, {v}) && Extends(s, t, {})
    ensures Extends(s0, t, {v})
  {}

  lemma SeenOne(adj: Adjacency, index: map<Node, nat>, index': map<Node, nat>, before: set<Node>, v: Node, k: nat,
                low: nat, low': nat)
    requires SuccessorsSeen(adj, index, before, v, k, low) && k < |Succ(adj, v)| && low' <= low
    requires forall x | x in index :: x in index' && index'[x] == index[x]
    requires Succ(adj, v)[k] in index' && (Succ(adj, v)[k] in before ==> low' <= index'[Succ(adj, v)[k]])
    ensures SuccessorsSeen(adj, index', before, v, k + 1, low')
  {}

  lemma VisitedWitness(adj: Adjacency, s: Snapshot, v: Node, w: Node, low: nat)
    requires Partition(s) && Edge(adj, v, w) && v in s.low && w in s.index
    requires LowWitness(adj, s.index, s.stack, v, s.low[v])
    requires low == if w in s.onStack && s.index[w] < s.low[v] then s.index[w] else s.low[v]
    ensures LowWitness(adj, s.index, s.stack, v, low)
  {
    if low != s.low[v] {
      var i :| 0 <= i < |s.stack| && s.stack[i] == w;
      ReachEdge(adj, v, w);
    }
  }

  /** A successor already visited: v's value is lowered to its number when it is on the
      stack with a smaller one. */
  lemma NextVisited(adj: Adjacency, s0: Snapshot, s: Snapshot, gray: set<Node>, v: Node, k: nat, low: nat)
    requires Progress(adj, s0, s, gray, v, k) && k < |Succ(adj, v)|
    requires var w := Succ(adj, v)[k];
      && w in s.index
      && low == (if w in s.onStack && s.index[w] < s.low[v] then s.index[w] else s.low[v])
    requires s0.onStack <= s.onStack
    ensures Progress(adj, s0, s.(low := s.low[v := low]), gray, v, k + 1)
  {
    var w := Succ(adj, v)[k];
    assert Edge(adj, v, w);
    RelowInv(adj, s, gray + {v}, v, low);
    assert Partition(s);
    hide Inv, Partition, Extends, LowWitness, NoEdgeUnder, SuccessorsSeen;
    RelowExtends(Pushed(s0, v), s, v, low);
    Weaken(adj, s.index, s.stack, |s0.stack| + 1, |s0.stack|, s.low[v], low);
    VisitedWitness(adj, s, v, w, low);
    SeenOne(adj, s.index, s.index, s0.onStack, v, k, s.low[v], low);
  }

  lemma CalledWitness(adj: Adjacency, s: Snapshot, t: Snapshot, v: Node, w: Node, low: nat)
    requires Edge(adj, v, w) && v in s.low && v in t.low && w in t.low && w in t.index && v in s.index && v in t.index
    requires s.stack <= t.stack && forall x | x in s.index :: x in t.index && t.index[x] == s.index[x]
    requires t.low[v] == s.low[v] <= t.index[v] < t.index[w]
    requires LowWitness(adj, s.index, s.stack, v, s.low[v])
    requires w in t.sccOf ==> t.low[w] == t.index[w]
    requires w !in t.sccOf ==> LowWitness(adj, t.index, t.stack, w, t.low[w])
    requires low == if t.low[w] < t.low[v] then t.low[w] else t.low[v]
    ensures LowWitness(adj, t.index, t.stack, v, low)
  {
    hide Reach;
    if t.low[w] < t.low[v] {
      var i :| 0 <= i < |t.stack| && t.stack[i] in t.index && t.index[t.stack[i]] == t.low[w]
          && Reach(adj, w, t.stack[i]);
      ReachEdge(adj, v, w);
      ReachTrans(adj, v, w, t.stack[i]);
    } else {
      var i :| 0 <= i < |s.stack| && s.stack[i] in s.index && s.index[s.stack[i]] == s.low[v]
          && Reach(adj, v, s.stack[i]);
      assert t.stack[i] == s.stack[i];
    }
  }

  lemma CalledEdges(adj: Adjacency, s: Snapshot, t: Snapshot, m: nat, n: nat, before: nat, after: nat, low: nat)
    requires n <= |s.stack| && s.stack <= t.stack && Rising(s.index, s.stack)
    requires forall x | x in s.index :: x in t.index && t.index[x] == s.index[x]
    requires NoEdgeUnder(adj, s.index, s.stack, m, n, before)
    requires NoEdgeUnder(adj, t.index, t.stack, |s.stack|, |s.stack|, after)
    requires low <= before && low <= after
    ensures NoEdgeUnder(adj, t.index, t.stack, m, n, low)
  {
    forall i, j | m <= i < |t.stack| && 0 <= j < n && Edge(adj, t.stack[i], t.stack[j])
      ensures low <= t.index[t.stack[j]]
    {
      assert t.stack[j] == s.stack[j];
      if i < |s.stack| { assert t.stack[i] == s.stack[i]; }
    }
  }

  /** A successor not visited before: after the call on it, v's value is the smaller of the
      two. */
  lemma NextCalled(adj: Adjacency, s0: Snapshot, s: Snapshot, t: Snapshot, gray: set<Node>, v: Node, k: nat, low: nat)
    requires Partition(s0) && Progress(adj, s0, s, gray, v, k) && k < |Succ(adj, v)|
    requires var w := Succ(adj, v)[k];
      && w !in s.index && Extends(s, t, {}) && Inv(adj, t, gray + {v}) && Returned(adj, s, t, w)
      && v in t.low && low == (if t.low[w] < t.low[v] then t.low[w] else t.low[v])
    ensures Progress(adj, s0, t.(low := t.low[v := low]), gray, v, k + 1)
  {
    var w := Succ(adj, v)[k];
    assert Edge(adj, v, w);
    assert Rising(s.index, s.stack) && s.index[v] < s.counter;
    assert s.stack <= t.stack && forall x | x in s.index :: x in t.index && t.index[x] == s.index[x];
    assert t.low[v] == s.low[v];
    OldSuccessor(s0, s, v, w);
    RelowInv(adj, t, gray + {v}, v, low);
    hide Inv, LowWitness, NoEdgeUnder, SuccessorsSeen, Rising, Partition;
    NewStackBelow(s0, s, v);
    CalledWitness(adj, s, t, v, w, low);
    CalledEdges(adj, s, t, |s0.stack| + 1, |s0.stack|, s.low[v], t.low[w], low);
    hide Extends;
    ExtendsThen(Pushed(s0, v), s, t, v);
    RelowExtends(Pushed(s0, v), t, v, low);
    SeenOne(adj, s.index, t.index, s0.onStack, v, k, s.low[v], low);
  }

  lemma OldSuccessor(s0: Snapshot, s: Snapshot, v: Node, w: Node)
    requires Partition(s0) && Extends(Pushed(s0, v), s, {v}) && w !in s.index
    ensures w !in s0.onStack
  {
    hide Elems;
    assert w !in Pushed(s0, v).index;
  }

  lemma NewStackBelow(s0: Snapshot, s: Snapshot, v: Node)
    requires Extends(Pushed(s0, v), s, {v})
    ensures |s0.stack| < |s.stack|
  {}

  lemma StackBelow(lower: seq<Node>, stack: seq<Node>, v: Node)
    requires lower + [v] <= stack
    ensures |lower| < |stack| && stack[|lower|] == v && stack[..|lower|] == lower
  {
    var n := |lower|;
    assert stack[..n + 1] == lower + [v];
    assert stack[n] == stack[..n + 1][n];
    assert stack[..n] == stack[..n + 1][..n];
  }

  /** All successors seen: nothing from v up has an edge under v's low value. */
  lemma AllSeen(adj: Adjacency, s0: Snapshot, s: Snapshot, gray: set<Node>, v: Node)
    requires Partition(s0) && Progress(adj, s0, s, gray, v, |Succ(adj, v)|)
    ensures NoEdgeUnder(adj, s.index, s.stack, |s0.stack|, |s0.stack|, s.low[v])
    ensures forall w | Edge(adj, v, w) :: w in s.index
    ensures |s0.stack| < |s.stack| && s.stack[|s0.stack|] == v && s.stack[..|s0.stack|] == s0.stack
  {
    hide Inv, LowWitness, Reach;
    var n := |s0.stack|;
    StackBelow(s0.stack, s.stack, v);
    forall j | 0 <= j < n && s.stack[j] in s.index && Edge(adj, v, s.stack[j]) ensures s.low[v] <= s.index[s.stack[j]] {
      var l :| 0 <= l < |Succ(adj, v)| && Succ(adj, v)[l] == s.stack[j];
      assert s.stack[..n][j] == s0.stack[j];
      assert Succ(adj, v)[l] in s0.onStack;
    }
    forall w | Edge(adj, v, w) ensures w in s.index {
      var l :| 0 <= l < |Succ(adj, v)| && Succ(adj, v)[l] == w;
    }
  }

  lemma OldEntries(s0: Snapshot, s: Snapshot, v: Node)
    requires Partition(s0) && Partition(s) && Pushed(s0, v).stack <= s.stack
    ensures s0.onStack <= s.onStack
  {
    forall x | x in s0.onStack ensures x in s.stack {
      var i :| 0 <= i < |s0.stack| && s0.stack[i] == x;
      assert Pushed(s0, v).stack[i] == x;
      assert s.stack[i] == x;
    }
  }

  // ---- What a finished call hands back -----------------------------------------------------------

  lemma FinishedOpen(adj: Adjacency, s0: Snapshot, s: Snapshot, gray: set<Node>, v: Node)
    requires Inv(adj, s0, gray) && v !in s0.index
    requires Progress(adj, s0, s, gray, v, |Succ(adj, v)|) && s.low[v] < s.index[v]
    ensures Inv(adj, s, gray) && Extends(s0, s, {}) && Returned(adj, s0, s, v)
  {
    var n := |s0.stack|;
    AllSeen(adj, s0, s, gray, v);
    StartExtends(s0, s, v);
    hide Extends, NoEdgeUnder, SuccessorsSeen;
    assert v in s.onStack && v !in s.sccOf by { assert v in s.stack; }
    StayKeeps(adj, s, gray, v, n);
  }

  lemma FinishedClosed(adj: Adjacency, s0: Snapshot, s: Snapshot, gray: set<Node>, v: Node)
    requires Inv(adj, s0, gray) && v !in s0.index && forall g | g in gray :: Reach(adj, g, v)
    requires Progress(adj, s0, s, gray, v, |Succ(adj, v)|) && s.low[v] == s.index[v]
    ensures |s0.stack| < |s.stack| && s.stack[|s0.stack|] == v && s.onStack == Elems(s.stack)
    ensures var t := Popped(s, |s0.stack|);
            Inv(adj, t, gray) && Extends(s0, t, {}) && Returned(adj, s0, t, v)
  {
    var n := |s0.stack|;
    AllSeen(adj, s0, s, gray, v);
    StartExtends(s0, s, v);
    assert gray <= Elems(s.stack[..n]);
    PopKeeps(adj, s, gray, v, n);
    hide Inv, LowWitness, SuccessorsSeen;
    assert v in Elems(s.stack[n..]) by { assert s.stack[n..][0] == v; }
    PopReturned(adj, s0, s, v);
  }

  lemma PopReturned(adj: Adjacency, s0: Snapshot, s: Snapshot, v: Node)
    requires |s0.stack| < |s.stack| && s.stack[..|s0.stack|] == s0.stack && s.onStack == Elems(s.stack)
    requires v in Elems(s.stack[|s0.stack|..]) && v in s.index && v in s.low && s.low[v] == s.index[v]
    requires Extends(s0, s, {}) && s0.counter <= s.index[v]
    ensures var t := Popped(s, |s0.stack|); Extends(s0, t, {}) && Returned(adj, s0, t, v)
  {
    hide Elems, Finish;
  }

  lemma StartExtends(s0: Snapshot, s: Snapshot, v: Node)
    requires Extends(Pushed(s0, v), s, {v}) && v !in s0.index && v !in s0.low
    ensures Extends(s0, s, {}) && v in s.index && s.index[v] == s0.counter
  {
    var p := Pushed(s0, v);
    assert s0.stack <= p.stack <= s.stack;
    forall x | x in s0.index ensures x in s.index && s.index[x] == s0.index[x] { assert x in p.index; }
    forall x | x in s0.low ensures x in s.low && s.low[x] == s0.low[x] { assert x in p.low; }
    forall x | x in s.index && x !in s0.index ensures s0.counter <= s.index[x] {
      if x == v { assert v in p.index; }
    }
    assert v in p.index;
  }

  // ---- The algorithm -----------------------------------------------------------------------------

  class Search {
    const adjacency: Adjacency
    var index: map<Node, nat>
    var low: map<Node, nat>
    var onStack: set<Node>
    var stack: seq<Node>
    var sccOf: map<Node, nat>
    var counter: nat
    var sccCount: nat

    ghost function Snap(): Snapshot
      reads this
    {
      Snapshot(index, low, onStack, stack, sccOf, counter, sccCount)
    }

    constructor (adjacency: Adjacency)
      ensures this.adjacency == adjacency
      ensures Snap() == Snapshot(map[], map[], {}, [], map[], 0, 0)
    {
      this.adjacency := adjacency;
      index, low, onStack, stack, sccOf, counter, sccCount := map[], map[], {}, [], map[], 0, 0;
    }

    /** Takes entries off the stack into a new component, down to and including v. */
    method PopComponent(v: Node, ghost n: nat)
      requires n < |stack| && stack[n] == v && Rising(index, stack)
      requires onStack == Elems(stack)
      modifies this`stack, this`onStack, this`sccOf, this`sccCount
      ensures Snap() == Popped(old(Snap()), n)
    {
      ghost var all, done := stack, sccOf;
      ghost var m := |stack|;
      SplitStack(index, all, m);
      assert sccOf == Finish(done, Elems(all[m..]), sccCount);
      while true
        invariant n < m <= |all| && stack == all[..m]
        invariant onStack == Elems(all[..m])
        invariant sccOf == Finish(done, Elems(all[m..]), sccCount)
        invariant sccCount == old(sccCount)
        decreases m
      {
        var w := stack[|stack| - 1];
        PopOne(index, all, m, done, sccCount);
        stack := stack[..|stack| - 1];
        onStack := onStack - {w};
        sccOf := sccOf[w := sccCount];
        m := m - 1;
        if w == v { break; }
      }
      RisingDistinct(index, all, m, n);
      sccCount := sccCount + 1;
    }

    method StrongConnect(v: Node, ghost gray: set<Node>, ghost universe: set<Node>)
      requires Inv(adjacency, Snap(), gray) && v !in index
      requires forall g | g in gray :: Reach(adjacency, g, v)
      requires ClosedSet(adjacency, universe) && v in universe && index.Keys <= universe
      modifies this
      ensures Inv(adjacency, Snap(), gray) && index.Keys <= universe
      ensures Extends(old(Snap()), Snap(), {})
      ensures Returned(adjacency, old(Snap()), Snap(), v)
      decreases universe - index.Keys, 0
    {
      hide Inv, Partition, Numbered, Explored, StackReach, Components, Extends, Progress, Returned;
      hide LowWitness, NoEdgeUnder, SuccessorsSeen, Reach, ClosedSet, Elems, Pushed, Popped, Finish, Rising, Edge;
      ghost var s0 := Snap();
      index := index[v := counter];
      low := low[v := counter];
      counter := counter + 1;
      stack := stack + [v];
      onStack := onStack + {v};
      SnapPushed(s0, Snap(), v);
      ProgressStart(adjacency, s0, gray, v);

      var succ := Succ(adjacency, v);
      for k := 0 to |succ|
        invariant Progress(adjacency, s0, Snap(), gray, v, k)
        invariant index.Keys <= universe
      {
        if succ[k] !in index {
          KnownKeys(adjacency, s0, Snap(), gray, v, k, universe);
          VisitNew(v, k, s0, gray, universe);
        } else {
          VisitSeen(v, k, s0, gray);
        }
      }

      ghost var s := Snap();
      InLoop(adjacency, s0, s, gray, v, |succ|);
      if low[v] == index[v] {
        FinishedClosed(adjacency, s0, s, gray, v);
        PopReady(adjacency, s, gray + {v});
        PopComponent(v, |s0.stack|);
        KeysAfterPop(s, |s0.stack|);
      } else {
        FinishedOpen(adjacency, s0, s, gray, v);
      }
    }

    /** A successor not visited yet is searched, and its low value taken if it is lower. */
    method VisitNew(v: Node, k: nat, ghost s0: Snapshot, ghost gray: set<Node>, ghost universe: set<Node>)
      requires Inv(adjacency, s0, gray) && v !in s0.index && forall g | g in gray :: Reach(adjacency, g, v)
      requires Progress(adjacency, s0, Snap(), gray, v, k)
      requires k < |Succ(adjacency, v)| && Succ(adjacency, v)[k] !in index
      requires ClosedSet(adjacency, universe) && v in universe && index.Keys <= universe
      modifies this
      ensures Progress(adjacency, s0, Snap(), gray, v, k + 1) && index.Keys <= universe
      decreases universe - index.Keys, 1
    {
      hide Inv, Partition, Numbered, Explored, StackReach, Components, Extends, Progress, Returned;
      hide LowWitness, NoEdgeUnder, SuccessorsSeen, Reach, ClosedSet, Elems, Pushed, Popped, Finish, Rising, Edge;
      var w := Succ(adjacency, v)[k];
      ghost var s := Snap();
      PartitionOf(adjacency, s0, gray);
      EdgeAt(adjacency, v, k);
      InLoop(adjacency, s0, s, gray, v, k);
      OpenReach(adjacency, gray, v, w);
      KnownKeys(adjacency, s0, s, gray, v, k, universe);
      StrongConnect(w, gray + {v}, universe);
      ghost var t := Snap();
      KeptLow(adjacency, s, t, v, w);
      NextCalled(adjacency, s0, s, t, gray, v, k, if t.low[w] < t.low[v] then t.low[w] else t.low[v]);
      if low[w] < low[v] {
        low := low[v := low[w]];
      } else {
        assert low[v := low[v]] == low;
      }
    }

    /** Of one already visited the number is taken, if it is still on the stack and lower. */
    method VisitSeen(v: Node, k: nat, ghost s0: Snapshot, ghost gray: set<Node>)
      requires Inv(adjacency, s0, gray) && Progress(adjacency, s0, Snap(), gray, v, k)
      requires k < |Succ(adjacency, v)| && Succ(adjacency, v)[k] in index
      modifies `low
      ensures Progress(adjacency, s0, Snap(), gray, v, k + 1)
    {
      hide Inv, Extends, Progress, Reach, Elems, Edge;
      var w := Succ(adjacency, v)[k];
      ghost var s := Snap();
      InLoop(adjacency, s0, s, gray, v, k);
      StillOpen(adjacency, s0, s, gray, v, k);
      NextVisited(adjacency, s0, s, gray, v, k,
                  if w in s.onStack && s.index[w] < s.low[v] then s.index[w] else s.low[v]);
      if w in onStack && index[w] < low[v] {
        low := low[v := index[w]];
      } else {
        assert low[v := low[v]] == low;
      }
    }
  }

  lemma SnapPushed(s0: Snapshot, s: Snapshot, v: Node)
    requires s == Snapshot(s0.index[v := s0.counter], s0.low[v := s0.counter], s0.onStack + {v}, s0.stack + [v],
                           s0.sccOf, s0.counter + 1, s0.sccCount)
    ensures s == Pushed(s0, v)
  {}

  lemma InLoop(adj: Adjacency, s0: Snapshot, s: Snapshot, gray: set<Node>, v: Node, k: nat)
    requires Progress(adj, s0, s, gray, v, k)
    ensures Inv(adj, s, gray + {v}) && v in s.low && v in s.index && s.low[v] <= s.index[v]
    ensures k <= |Succ(adj, v)|
  {}

  lemma PartitionOf(adj: Adjacency, s: Snapshot, gray: set<Node>)
    requires Inv(adj, s, gray)
    ensures Partition(s)
  {}

  lemma KeysAfterPop(s: Snapshot, n: nat)
    requires n <= |s.stack| && s.onStack == Elems(s.stack)
    ensures Popped(s, n).index == s.index
  {}

  lemma PopOne(index: map<Node, nat>, all: seq<Node>, m: nat, done: map<Node, nat>, id: nat)
    requires Rising(index, all) && 0 < m <= |all|
    ensures var w := all[m - 1];
      && Elems(all[..m - 1]) == Elems(all[..m]) - {w}
      && Finish(done, Elems(all[m - 1..]), id) == Finish(done, Elems(all[m..]), id)[w := id]
      && all[..m][..m - 1] == all[..m - 1]
  {
    var w := all[m - 1];
    assert all[m - 1..] == [w] + all[m..];
    assert Elems(all[m - 1..]) == {w} + Elems(all[m..]);
    assert all[..m] == all[..m - 1] + [w];
    assert Elems(all[..m]) == Elems(all[..m - 1]) + {w};
    assert all[..m - 1] == all[..m][..m - 1];
    FreshLast(index, all, m);
    hide Elems, Rising;
    FinishOne(done, Elems(all[m..]), w, id);
  }

  lemma FreshLast(index: map<Node, nat>, all: seq<Node>, m: nat)
    requires Rising(index, all) && 0 < m <= |all|
    ensures all[m - 1] !in Elems(all[..m - 1])
  {
    assert forall i :: 0 <= i < m - 1 ==> index[all[i]] < index[all[m - 1]];
  }

  lemma FinishOne(done: map<Node, nat>, part: set<Node>, w: Node, id: nat)
    ensures Finish(done, {w} + part, id) == Finish(done, part, id)[w := id]
  {
    assert (Finish(done, part, id)[w := id]).Keys == done.Keys + part + {w};
  }

  lemma EdgeAt(adj: Adjacency, v: Node, k: nat)
    requires k < |Succ(adj, v)|
    ensures Edge(adj, v, Succ(adj, v)[k])
  {}

  lemma OpenReach(adj: Adjacency, gray: set<Node>, v: Node, w: Node)
    requires Edge(adj, v, w) && forall g | g in gray :: Reach(adj, g, v)
    ensures forall g | g in gray + {v} :: Reach(adj, g, w)
  {
    ReachEdge(adj, v, w);
    hide Reach;
    forall g | g in gray ensures Reach(adj, g, w) { ReachTrans(adj, g, v, w); }
  }

  lemma KnownKeys(adj: Adjacency, s0: Snapshot, s: Snapshot, gray: set<Node>, v: Node, k: nat, universe: set<Node>)
    requires Progress(adj, s0, s, gray, v, k) && k < |Succ(adj, v)| && v !in s0.index
    requires ClosedSet(adj, universe) && v in universe && s.index.Keys <= universe
    ensures Succ(adj, v)[k] in universe
    ensures universe - s.index.Keys < universe - s0.index.Keys
  {
    hide Inv, LowWitness, NoEdgeUnder, SuccessorsSeen;
    assert Edge(adj, v, Succ(adj, v)[k]);
    StartKeys(s0, s, v);
    assert v in (universe - s0.index.Keys) && v !in universe - s.index.Keys;
  }

  lemma StartKeys(s0: Snapshot, s: Snapshot, v: Node)
    requires Extends(Pushed(s0, v), s, {v})
    ensures s0.index.Keys + {v} <= s.index.Keys
  {
    forall x | x in s0.index.Keys + {v} ensures x in s.index { assert x in Pushed(s0, v).index; }
  }

  lemma KeptLow(adj: Adjacency, s: Snapshot, t: Snapshot, v: Node, w: Node)
    requires Extends(s, t, {}) && Returned(adj, s, t, w) && v in s.low
    ensures v in t.low && w in t.low
  {}

  lemma StillOpen(adj: Adjacency, s0: Snapshot, s: Snapshot, gray: set<Node>, v: Node, k: nat)
    requires Inv(adj, s0, gray) && Progress(adj, s0, s, gray, v, k)
    ensures s0.onStack <= s.onStack
  {
    hide Reach, StackReach, Components, Explored, LowWitness, NoEdgeUnder, SuccessorsSeen;
    OldEntries(s0, s, v);
  }

  lemma PopReady(adj: Adjacency, s: Snapshot, gray: set<Node>)
    requires Inv(adj, s, gray)
    ensures Rising(s.index, s.stack) && s.onStack == Elems(s.stack)
  {}
}
