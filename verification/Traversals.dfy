/** Depth-first and breadth-first orders (Graph.hpp). */
module Traversals {
  import opened Digraphs
  import opened Lists

  // The order lists exactly the nodes reachable from start, each once.
  ghost predicate ListsReachable(g: Digraph, start: Node, order: seq<Node>) {
    && NoDuplicates(order)
    && forall v :: v in order <==> Reaches(g, start, v)
  }

  // v is entered from the node at position i of the order or from a later one.
  ghost predicate EnteredSince(g: Digraph, order: seq<Node>, i: nat, v: Node) {
    exists d :: i <= d < |order| && g.Edge(order[d], v)
  }

  // v comes next in a depth-first order: while a node listed before still has an unlisted
  // successor other than v, v is entered from that node or from one listed later.
  ghost predicate MayFollow(g: Digraph, order: seq<Node>, v: Node) {
    forall i, w | 0 <= i < |order| && g.Edge(order[i], w) && w !in order && w != v ::
      EnteredSince(g, order, i, v)
  }

  ghost predicate DepthFirst(g: Digraph, order: seq<Node>) {
    forall j | 0 <= j < |order| :: MayFollow(g, order[..j], order[j])
  }

  lemma EmptyDepthFirst(g: Digraph)
    ensures DepthFirst(g, [])
  {
  }

  lemma DepthFirstExtend(g: Digraph, order: seq<Node>, v: Node)
    requires DepthFirst(g, order) && MayFollow(g, order, v)
    ensures DepthFirst(g, order + [v])
  {
    var next := order + [v];
    forall j | 0 <= j < |next| ensures MayFollow(g, next[..j], next[j]) {
      assert next[..j] == order[..j];
      assert order[..|order|] == order;
    }
  }

  // In terms of three positions: when order[i] has an edge to order[k] and none to order[j],
  // i < j < k, then some node strictly between i and j has an edge to order[j].
  lemma DepthFirstBetween(g: Digraph, order: seq<Node>, i: nat, j: nat, k: nat) returns (d: nat)
    requires DepthFirst(g, order) && NoDuplicates(order) && i < j < k < |order|
    requires g.Edge(order[i], order[k]) && !g.Edge(order[i], order[j])
    ensures i < d < j && g.Edge(order[d], order[j])
  {
    assert MayFollow(g, order[..j], order[j]);
    assert order[..j][i] == order[i] && order[k] !in order[..j];
    assert EnteredSince(g, order[..j], i, order[j]);
    d :| i <= d < |order[..j]| && g.Edge(order[..j][d], order[j]);
  }

  // w was pushed for the listed node at position i.
  ghost predicate StackedBy(stack: seq<Node>, owner: seq<nat>, w: Node, i: nat)
    requires |owner| == |stack|
  {
    exists k :: 0 <= k < |stack| && stack[k] == w && owner[k] == i
  }

  // Owners grow towards the top, and an unlisted successor of a listed node is stacked for it.
  ghost predicate Stacked(g: Digraph, order: seq<Node>, stack: seq<Node>, owner: seq<nat>) {
    && |owner| == |stack|
    && (forall k | 0 <= k < |stack| :: owner[k] < |order| && g.Edge(order[owner[k]], stack[k]))
    && (forall k, l | 0 <= k < l < |stack| :: owner[k] <= owner[l])
    && (forall i, w {:trigger StackedBy(stack, owner, w, i)}
          | 0 <= i < |order| && g.Edge(order[i], w) && w !in order :: StackedBy(stack, owner, w, i))
  }

  lemma TopMayFollow(g: Digraph, order: seq<Node>, stack: seq<Node>, owner: seq<nat>)
    requires Stacked(g, order, stack, owner) && |stack| > 0
    ensures MayFollow(g, order, stack[|stack| - 1])
  {
    var v := stack[|stack| - 1];
    forall i, w | 0 <= i < |order| && g.Edge(order[i], w) && w !in order && w != v
      ensures EnteredSince(g, order, i, v)
    {
      assert StackedBy(stack, owner, w, i);
      var p := owner[|stack| - 1];
      assert i <= p < |order| && g.Edge(order[p], v);
    }
  }

  // Popping a node that is listed already.
  lemma PopListed(g: Digraph, order: seq<Node>, stack: seq<Node>, owner: seq<nat>)
    requires Stacked(g, order, stack, owner) && |stack| > 0 && stack[|stack| - 1] in order
    ensures Stacked(g, order, stack[..|stack| - 1], owner[..|stack| - 1])
  {
    var t, o := stack[..|stack| - 1], owner[..|stack| - 1];
    forall i, w | 0 <= i < |order| && g.Edge(order[i], w) && w !in order ensures StackedBy(t, o, w, i) {
      assert StackedBy(stack, owner, w, i);
      var k :| 0 <= k < |stack| && stack[k] == w && owner[k] == i;
      assert t[k] == w && o[k] == i;
    }
  }

  // Listing v and pushing its successors.
  ghost predicate Pushing(g: Digraph, order: seq<Node>, stack: seq<Node>, owner: seq<nat>, pending: set<Node>) {
    && |owner| == |stack| && |order| > 0
    && (forall k | 0 <= k < |stack| :: owner[k] < |order| && g.Edge(order[owner[k]], stack[k]))
    && (forall k, l | 0 <= k < l < |stack| :: owner[k] <= owner[l])
    && (forall i, w {:trigger StackedBy(stack, owner, w, i)}
          | 0 <= i < |order| && g.Edge(order[i], w) && w !in order && !(i == |order| - 1 && w in pending) ::
          StackedBy(stack, owner, w, i))
  }

  lemma PopUnlisted(g: Digraph, order: seq<Node>, stack: seq<Node>, owner: seq<nat>)
    requires |stack| > 0 && stack[|stack| - 1] in g.succ
    requires Stacked(g, order, stack, owner) || (order == [] && |stack| == 1 && owner == [0])
    ensures var v := stack[|stack| - 1];
            Pushing(g, order + [v], stack[..|stack| - 1], owner[..|stack| - 1], g.succ[v])
  {
    var v := stack[|stack| - 1];
    var next, t, o := order + [v], stack[..|stack| - 1], owner[..|stack| - 1];
    forall i, w | 0 <= i < |next| && g.Edge(next[i], w) && w !in next && !(i == |next| - 1 && w in g.succ[v])
      ensures StackedBy(t, o, w, i)
    {
      assert i < |order| && w !in order && w != v by {
        assert v in next && forall x | x in order :: x in next;
      }
      assert StackedBy(stack, owner, w, i);
      var k :| 0 <= k < |stack| && stack[k] == w && owner[k] == i;
      assert t[k] == w && o[k] == i;
    }
  }

  lemma PushOne(g: Digraph, order: seq<Node>, stack: seq<Node>, owner: seq<nat>, pending: set<Node>, w: Node)
    requires Pushing(g, order, stack, owner, pending) && g.Edge(order[|order| - 1], w)
    ensures Pushing(g, order, stack + [w], owner + [|order| - 1], pending - {w})
  {
    var t, o := stack + [w], owner + [|order| - 1];
    forall i, x | 0 <= i < |order| && g.Edge(order[i], x) && x !in order && !(i == |order| - 1 && x in pending - {w})
      ensures StackedBy(t, o, x, i)
    {
      if i == |order| - 1 && x == w {
        assert t[|stack|] == x && o[|stack|] == i;
      } else {
        assert StackedBy(stack, owner, x, i);
        var k :| 0 <= k < |stack| && stack[k] == x && owner[k] == i;
        assert t[k] == x && o[k] == i;
      }
    }
  }

  lemma PushedAll(g: Digraph, order: seq<Node>, stack: seq<Node>, owner: seq<nat>)
    requires Pushing(g, order, stack, owner, {})
    ensures Stacked(g, order, stack, owner)
  {
    forall i, w | 0 <= i < |order| && g.Edge(order[i], w) && w !in order ensures StackedBy(stack, owner, w, i) {
    }
  }

  // With an empty stack the listed nodes are closed under edges.
  lemma AllReached(g: Digraph, start: Node, order: seq<Node>)
    requires NoDuplicates(order) && start in order
    requires forall v | v in order :: Reaches(g, start, v)
    requires forall i, w | 0 <= i < |order| && g.Edge(order[i], w) :: w in order
    ensures ListsReachable(g, start, order)
  {
    var s := set v | v in order;
    forall a, b | a in s && g.Edge(a, b) ensures b in s {
      var i :| 0 <= i < |order| && order[i] == a;
    }
    forall v | Reaches(g, start, v) ensures v in order {
      ClosedKeepsPaths(g, s, start, v);
    }
  }

  lemma NothingStacked(g: Digraph, order: seq<Node>, owner: seq<nat>)
    requires Stacked(g, order, [], owner)
    ensures forall i, w | 0 <= i < |order| && g.Edge(order[i], w) :: w in order
  {
    forall i, w | 0 <= i < |order| && g.Edge(order[i], w) && w !in order ensures StackedBy([], owner, w, i) {
    }
  }

  // The successors of the node listed last go on the stack.
  method PushAll(g: Digraph, ghost start: Node, out: seq<Node>, stack0: seq<Node>, ghost owner0: seq<nat>)
    returns (stack: seq<Node>, ghost owner: seq<nat>)
    requires g.WellFormed() && out != [] && out[|out| - 1] in g.succ && Reaches(g, start, out[|out| - 1])
    requires |owner0| == |stack0| && Pushing(g, out, stack0, owner0, g.succ[out[|out| - 1]])
    requires forall x | x in stack0 :: x in g.succ && Reaches(g, start, x)
    ensures Pushing(g, out, stack, owner, {}) && |owner| == |stack|
    ensures forall x | x in stack :: x in g.succ && Reaches(g, start, x)
  {
    hide Reaches, Pushing;
    var v := out[|out| - 1];
    stack, owner := stack0, owner0;
    var pending := g.succ[v];
    while pending != {}
      invariant pending <= g.succ[v]
      invariant Pushing(g, out, stack, owner, pending) && |owner| == |stack|
      invariant forall x | x in stack :: x in g.succ && Reaches(g, start, x)
      decreases pending
    {
      var w :| w in pending;
      PushOne(g, out, stack, owner, pending, w);
      ReachesEdge(g, v, w);
      ReachesTrans(g, start, v, w);
      stack, owner := stack + [w], owner + [|out| - 1];
      pending := pending - {w};
    }
  }

  // Where the search stands between two rounds.
  ghost predicate Searching(g: Digraph, start: Node, out: seq<Node>, stack: seq<Node>, owner: seq<nat>) {
    && NoDuplicates(out) && DepthFirst(g, out) && |owner| == |stack|
    && (out == [] ==> stack == [start] && owner == [0])
    && (out != [] ==> Stacked(g, out, stack, owner) && start in out)
    && (forall v | v in out || v in stack :: v in g.succ && Reaches(g, start, v))
  }

  // And while the successors of the node listed last are pushed.
  ghost predicate Listing(g: Digraph, start: Node, out: seq<Node>, stack: seq<Node>, owner: seq<nat>) {
    && out != [] && NoDuplicates(out) && DepthFirst(g, out) && |owner| == |stack| && start in out
    && Pushing(g, out, stack, owner, {})
    && (forall v | v in out || v in stack :: v in g.succ && Reaches(g, start, v))
  }

  lemma SearchStarts(g: Digraph, start: Node)
    requires start in g.succ
    ensures Searching(g, start, [], [start], [0])
  {
    ReachesSelf(g, start);
    EmptyDepthFirst(g);
  }

  lemma SearchPops(g: Digraph, start: Node, out: seq<Node>, stack: seq<Node>, owner: seq<nat>)
    requires Searching(g, start, out, stack, owner) && stack != [] && stack[|stack| - 1] in out
    ensures Searching(g, start, out, stack[..|stack| - 1], owner[..|stack| - 1])
  {
    hide Reaches, DepthFirst, Stacked;
    PopListed(g, out, stack, owner);
  }

  lemma SearchLists(g: Digraph, start: Node, out: seq<Node>, stack: seq<Node>, owner: seq<nat>)
    requires Searching(g, start, out, stack, owner) && stack != [] && stack[|stack| - 1] !in out
    ensures var v := stack[|stack| - 1];
            && v in g.succ && Reaches(g, start, v) && NoDuplicates(out + [v]) && DepthFirst(g, out + [v])
            && start in out + [v]
            && Pushing(g, out + [v], stack[..|stack| - 1], owner[..|stack| - 1], g.succ[v])
            && forall x | x in out + [v] || x in stack[..|stack| - 1] :: x in g.succ && Reaches(g, start, x)
  {
    hide Reaches, MayFollow, DepthFirst, Stacked, Pushing;
    if out != [] {
      TopMayFollow(g, out, stack, owner);
    }
    DepthFirstExtend(g, out, stack[|stack| - 1]);
    PopUnlisted(g, out, stack, owner);
  }

  lemma SearchGoesOn(g: Digraph, start: Node, out: seq<Node>, stack: seq<Node>, owner: seq<nat>)
    requires Listing(g, start, out, stack, owner)
    ensures Searching(g, start, out, stack, owner)
  {
    hide Reaches, DepthFirst, Pushing, Stacked;
    PushedAll(g, out, stack, owner);
  }

  lemma SearchEnds(g: Digraph, start: Node, out: seq<Node>, owner: seq<nat>)
    requires Searching(g, start, out, [], owner)
    ensures ListsReachable(g, start, out) && DepthFirst(g, out)
  {
    hide Reaches, DepthFirst, Stacked;
    NothingStacked(g, out, owner);
    AllReached(g, start, out);
  }

  method DepthFirstOrder(g: Digraph, start: Node) returns (out: seq<Node>)
    requires g.WellFormed() && start in g.succ
    ensures ListsReachable(g, start, out)
    ensures DepthFirst(g, out)
  {
    hide Reaches, DepthFirst, Stacked, Pushing, ListsReachable, NoDuplicates;
    out := [];
    var discovered := {};
    var stack := [start];
    ghost var owner: seq<nat> := [0];
    SearchStarts(g, start);
    while stack != []
      invariant discovered == (set v | v in out) && discovered <= g.succ.Keys
      invariant Searching(g, start, out, stack, owner)
      decreases g.succ.Keys - discovered, |stack|
    {
      var v := stack[|stack| - 1];
      if v !in discovered {
        SearchLists(g, start, out, stack, owner);
        discovered := discovered + {v};
        out := out + [v];
        stack, owner := PushAll(g, start, out, stack[..|stack| - 1], owner[..|stack| - 1]);
        assert Listing(g, start, out, stack, owner);
        SearchGoesOn(g, start, out, stack, owner);
      } else {
        SearchPops(g, start, out, stack, owner);
        stack, owner := stack[..|stack| - 1], owner[..|stack| - 1];
      }
    }
    SearchEnds(g, start, out, owner);
  }

  // Every walk to b is at least as long as some walk to a.
  ghost predicate NoFarther(g: Digraph, start: Node, a: Node, b: Node) {
    forall n: nat | Walk(g, start, b, n) :: exists m: nat :: m <= n && Walk(g, start, a, m)
  }

  ghost predicate ByDistance(g: Digraph, start: Node, order: seq<Node>) {
    forall i, j | 0 <= i < j < |order| :: NoFarther(g, start, order[i], order[j])
  }

  // order is the listed nodes followed by the queued ones; level is the length of a walk to each.
  ghost predicate Levelled(g: Digraph, start: Node, order: seq<Node>, level: map<Node, nat>) {
    && NoDuplicates(order)
    && (forall v | v in order :: v in level)
    && (forall v | v in level :: v in order && v in g.succ && Walk(g, start, v, level[v]))
  }

  // The lengths do not decrease, and span at most two values from the last listed node on.
  ghost predicate Banded(order: seq<Node>, level: map<Node, nat>, listed: nat)
    requires forall v | v in order :: v in level
  {
    && (forall i, j | 0 <= i < j < |order| :: level[order[i]] <= level[order[j]])
    && (forall j | 0 <= listed - 1 <= j < |order| :: level[order[j]] <= level[order[listed - 1]] + 1)
  }

  // They grow by at most one along an edge from a listed node, but for the last one's pending edges.
  ghost predicate Followed(g: Digraph, order: seq<Node>, level: map<Node, nat>, listed: nat, pending: set<Node>)
    requires listed <= |order|
    requires forall v | v in order :: v in level
  {
    forall i, w {:trigger g.Edge(order[i], w)}
      | 0 <= i < listed && g.Edge(order[i], w) && !(i == listed - 1 && w in pending) ::
      w in level && level[w] <= level[order[i]] + 1
  }

  ghost predicate Layered(g: Digraph, start: Node, order: seq<Node>, level: map<Node, nat>, listed: nat,
                          pending: set<Node>) {
    && listed <= |order| && (listed == 0 ==> |order| == 1)
    && Levelled(g, start, order, level)
    && start in level && level[start] == 0
    && Banded(order, level, listed)
    && Followed(g, order, level, listed, pending)
  }

  lemma LayeredStart(g: Digraph, start: Node)
    requires start in g.succ
    ensures Layered(g, start, [start], map[start := 0], 0, {})
  {
    assert Walk(g, start, start, 0);
  }

  lemma LayeredFacts(g: Digraph, start: Node, order: seq<Node>, level: map<Node, nat>, listed: nat, pending: set<Node>)
    requires Layered(g, start, order, level, listed, pending)
    ensures listed <= |order|
    ensures forall v :: v in order <==> v in level
    ensures level.Keys <= g.succ.Keys
  {
  }

  lemma ListNext(g: Digraph, start: Node, order: seq<Node>, level: map<Node, nat>, listed: nat)
    requires Layered(g, start, order, level, listed, {}) && listed < |order|
    ensures Layered(g, start, order, level, listed + 1, g.succ[order[listed]])
  {
    if listed > 0 {
      assert level[order[listed - 1]] <= level[order[listed]];
    }
  }

  // One turn of the loop over the edges of the node just listed, for a node already explored.
  lemma FollowKnown(g: Digraph, start: Node, order: seq<Node>, level: map<Node, nat>, listed: nat,
                    pending: set<Node>, w: Node)
    requires Layered(g, start, order, level, listed, pending) && 0 < listed && w in level
    ensures Layered(g, start, order, level, listed, pending - {w})
  {
    hide Levelled, Walk;
    LayeredFacts(g, start, order, level, listed, pending);
    var j :| 0 <= j < |order| && order[j] == w;
    assert level[order[j]] <= level[order[listed - 1]] + 1;
  }

  lemma QueueLevelled(g: Digraph, start: Node, order: seq<Node>, level: map<Node, nat>, v: Node, w: Node)
    requires Levelled(g, start, order, level) && g.WellFormed()
    requires v in level && g.Edge(v, w) && w !in level
    ensures Levelled(g, start, order + [w], level[w := level[v] + 1])
    ensures forall x | x in order + [w] :: x in level[w := level[v] + 1]
  {
    assert Walk(g, w, w, 0);
    assert Walk(g, v, w, 1);
    WalkTrans(g, start, v, w, level[v], 1);
    hide Walk;
    assert forall x | x in order :: x in order + [w];
    assert (order + [w])[|order|] == w;
  }

  lemma QueueBanded(order: seq<Node>, level: map<Node, nat>, listed: nat, w: Node)
    requires forall v | v in order :: v in level
    requires Banded(order, level, listed) && 0 < listed <= |order| && w !in level
    ensures Banded(order + [w], level[w := level[order[listed - 1]] + 1], listed)
  {
  }

  lemma QueueFollowed(g: Digraph, order: seq<Node>, level: map<Node, nat>, listed: nat, pending: set<Node>, w: Node)
    requires forall v | v in order :: v in level
    requires 0 < listed <= |order| && w !in level
    requires Followed(g, order, level, listed, pending)
    ensures Followed(g, order + [w], level[w := level[order[listed - 1]] + 1], listed, pending - {w})
  {
    var next, lev := order + [w], level[w := level[order[listed - 1]] + 1];
    forall i, x | 0 <= i < listed && g.Edge(next[i], x) && !(i == listed - 1 && x in pending - {w})
      ensures x in lev && lev[x] <= lev[next[i]] + 1
    {
      assert next[i] == order[i];
      if !(i == listed - 1 && x == w) {
        assert g.Edge(order[i], x);
      }
    }
  }

  // For a node not yet explored.
  lemma FollowNew(g: Digraph, start: Node, order: seq<Node>, level: map<Node, nat>, listed: nat,
                  pending: set<Node>, w: Node)
    requires Layered(g, start, order, level, listed, pending) && 0 < listed && g.WellFormed()
    requires g.Edge(order[listed - 1], w) && w !in level
    ensures Layered(g, start, order + [w], level[w := level[order[listed - 1]] + 1], listed, pending - {w})
  {
    hide Levelled, Banded, Followed, Walk;
    LayeredFacts(g, start, order, level, listed, pending);
    QueueLevelled(g, start, order, level, order[listed - 1], w);
    QueueBanded(order, level, listed, w);
    QueueFollowed(g, order, level, listed, pending, w);
  }

  // Lengths that grow by at most one along each edge bound the length of every walk from below.
  lemma {:induction false} LevelsBoundWalks(g: Digraph, level: map<Node, nat>, a: Node, b: Node, n: nat)
    requires forall v, w | v in level && g.Edge(v, w) :: w in level && level[w] <= level[v] + 1
    requires a in level && Walk(g, a, b, n)
    ensures b in level && level[b] <= level[a] + n
    decreases n
  {
    if n > 0 {
      var c :| g.Edge(a, c) && Walk(g, c, b, n - 1);
      LevelsBoundWalks(g, level, c, b, n - 1);
    }
  }

  lemma AllListed(g: Digraph, start: Node, order: seq<Node>, level: map<Node, nat>)
    requires Layered(g, start, order, level, |order|, {})
    ensures ListsReachable(g, start, order) && ByDistance(g, start, order)
  {
    forall v, w | v in level && g.Edge(v, w) ensures w in level && level[w] <= level[v] + 1 {
      var i :| 0 <= i < |order| && order[i] == v;
    }
    forall v ensures v in order <==> Reaches(g, start, v) {
      if v in order {
        assert Walk(g, start, v, level[v]);
      }
      if Reaches(g, start, v) {
        var n: nat :| Walk(g, start, v, n);
        LevelsBoundWalks(g, level, start, v, n);
      }
    }
    forall i, j | 0 <= i < j < |order| ensures NoFarther(g, start, order[i], order[j]) {
      forall n: nat | Walk(g, start, order[j], n)
        ensures exists m: nat :: m <= n && Walk(g, start, order[i], m)
      {
        LevelsBoundWalks(g, level, start, order[j], n);
        assert level[order[i]] <= n && Walk(g, start, order[i], level[order[i]]);
      }
    }
  }

  // The successors of v, which has just been listed, join the queue unless explored.
  method EnqueueAll(g: Digraph, ghost start: Node, v: Node, ghost out: seq<Node>, queue0: seq<Node>, seen: set<Node>,
                    ghost level0: map<Node, nat>)
    returns (queue: seq<Node>, explored: set<Node>, ghost level: map<Node, nat>)
    requires g.WellFormed() && v in g.succ && out != [] && out[|out| - 1] == v
    requires Layered(g, start, out + queue0, level0, |out|, g.succ[v]) && seen == level0.Keys <= g.succ.Keys
    ensures Layered(g, start, out + queue, level, |out|, {}) && explored == level.Keys
    ensures seen <= explored <= g.succ.Keys && (seen == explored ==> |queue| == |queue0|)
  {
    hide Layered, Walk;
    queue, explored, level := queue0, seen, level0;
    var pending := g.succ[v];
    while pending != {}
      invariant pending <= g.succ[v]
      invariant Layered(g, start, out + queue, level, |out|, pending)
      invariant explored == level.Keys
      invariant seen <= explored <= g.succ.Keys && (seen == explored ==> |queue| == |queue0|)
      decreases pending
    {
      var w :| w in pending;
      LayeredFacts(g, start, out + queue, level, |out|, pending);
      assert (out + queue)[|out| - 1] == v;
      if w !in explored {
        FollowNew(g, start, out + queue, level, |out|, pending, w);
        explored := explored + {w};
        assert out + queue + [w] == out + (queue + [w]);
        queue := queue + [w];
        level := level[w := level[v] + 1];
      } else {
        FollowKnown(g, start, out + queue, level, |out|, pending, w);
      }
      pending := pending - {w};
    }
  }

  method BreadthFirstOrder(g: Digraph, start: Node) returns (out: seq<Node>)
    requires g.WellFormed() && start in g.succ
    ensures ListsReachable(g, start, out)
    ensures ByDistance(g, start, out)
  {
    hide Layered, Walk, ListsReachable, ByDistance;
    out := [];
    var explored := {start};
    var queue := [start];
    ghost var level: map<Node, nat> := map[start := 0];
    LayeredStart(g, start);
    assert out + queue == [start];
    while queue != []
      invariant Layered(g, start, out + queue, level, |out|, {})
      invariant explored == level.Keys
      invariant explored <= g.succ.Keys
      decreases g.succ.Keys - explored, |queue|
    {
      var v := queue[0];
      LayeredFacts(g, start, out + queue, level, |out|, {});
      assert (out + queue)[|out|] == v;
      ListNext(g, start, out + queue, level, |out|);
      assert out + queue == out + [v] + queue[1..];
      out := out + [v];
      queue, explored, level := EnqueueAll(g, start, v, out, queue[1..], explored, level);
    }
    assert out + queue == out;
    AllListed(g, start, out, level);
  }
}
