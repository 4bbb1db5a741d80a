/** Finite directed graphs given as successor sets, and the depth-first
    traversal the engine uses to gather a feature chain
    (engine/featureChain.go, repeated in engine/player.go). */
module Graphs {

  /** Nodes are arena ids, so pointer identity in the source is id equality. */
  type Node = nat

  type Graph = map<Node, set<Node>>

  /** Every successor of a node of the graph is itself a node of it. */
  predicate Closed(g: Graph)
  {
    forall v, w :: v in g && w in g[v] ==> w in g
  }

  /** `s` contains every successor of each of its members. */
  predicate ClosedSet(g: Graph, s: set<Node>)
  {
    forall v, w :: v in s && v in g && w in g[v] ==> w in s
  }

  ghost predicate IsPath(g: Graph, p: seq<Node>)
  {
    |p| >= 1
    && (forall i :: 0 <= i < |p| ==> p[i] in g)
    && forall i :: 0 <= i < |p| - 1 ==> p[i + 1] in g[p[i]]
  }

  ghost predicate Reachable(g: Graph, s: Node, t: Node)
  {
    exists p :: IsPath(g, p) && p[0] == s && p[|p| - 1] == t
  }

  lemma ReachSelf(g: Graph, s: Node)
    requires s in g
    ensures Reachable(g, s, s)
  {
    assert IsPath(g, [s]);
  }

  lemma ReachStep(g: Graph, s: Node, v: Node, w: Node)
    requires Reachable(g, s, v) && v in g && w in g[v] && w in g
    ensures Reachable(g, s, w)
  {
    var p :| IsPath(g, p) && p[0] == s && p[|p| - 1] == v;
    var q := p + [w];
    assert IsPath(g, q);
    assert q[0] == s && q[|q| - 1] == w;
  }

  /** A set holding `s` and closed under the graph holds everything
      reachable from `s`. */
  lemma {:induction false} ClosedHoldsReachable(g: Graph, s: Node, S: set<Node>, t: Node)
    requires s in S && ClosedSet(g, S) && Reachable(g, s, t)
    ensures t in S
  {
    var p :| IsPath(g, p) && p[0] == s && p[|p| - 1] == t;
    var i := 0;
    while i < |p| - 1
      invariant 0 <= i < |p|
      invariant p[i] in S
    {
      assert p[i + 1] in g[p[i]];
      i := i + 1;
    }
  }

  /** How many entries of `st` are already in `seen`. */
  function CountIn(st: seq<Node>, seen: set<Node>): nat
  {
    if st == [] then 0
    else CountIn(st[..|st| - 1], seen) + (if st[|st| - 1] in seen then 1 else 0)
  }

  lemma CountInAppend(st: seq<Node>, x: Node, seen: set<Node>)
    ensures CountIn(st + [x], seen) == CountIn(st, seen) + (if x in seen then 1 else 0)
  {
    assert (st + [x])[..|st + [x]| - 1] == st;
  }

  /** The traversal of `traverseFeatureLinks`: pop the top feature, push
      every linked feature not yet visited (in the map's arbitrary order),
      then mark the popped one visited. A feature may be pushed more than
      once before its first visit; popping it again only re-pushes
      unvisited neighbours. The result is the set of features reachable
      from `start`. */
  method VisitLinks(g: Graph, start: Node) returns (visited: set<Node>)
    requires Closed(g) && start in g
    ensures start in visited
    ensures visited <= g.Keys
    ensures ClosedSet(g, visited)
    ensures forall v :: v in visited ==> Reachable(g, start, v)
  {
    ReachSelf(g, start);
    visited := {};
    var stack := [start];
    while |stack| > 0
      invariant visited <= g.Keys
      invariant forall i :: 0 <= i < |stack| ==> stack[i] in g && Reachable(g, start, stack[i])
      invariant start in visited || start in stack
      invariant forall v, w :: v in visited && w in g[v] ==> w in visited || w in stack
      invariant forall v :: v in visited ==> Reachable(g, start, v)
      decreases |g.Keys - visited|, CountIn(stack, visited)
    {
      var f := stack[|stack| - 1];
      var rest := stack[..|stack| - 1];
      assert stack == rest + [f];
      CountInAppend(rest, f, visited);
      var next := PushUnvisited(g, start, rest, visited, f);
      FrontierKept(g, visited, rest, f, next);
      MarkingShrinks(g, visited, f);
      visited := visited + {f};
      stack := next;
    }
  }

  /** After popping `f` and pushing its unvisited successors, marking `f`
      visited keeps every successor of a visited node visited or stacked. */
  lemma FrontierKept(g: Graph, visited: set<Node>, rest: seq<Node>, f: Node, next: seq<Node>)
    requires visited <= g.Keys && f in g
    requires forall v, w :: v in visited && w in g[v] ==> w in visited || w in rest + [f]
    requires |next| >= |rest| && next[..|rest|] == rest
    requires forall w :: w in g[f] ==> w in visited || w in next
    ensures forall v, w :: v in visited + {f} && w in g[v] ==> w in visited + {f} || w in next
  {
    forall v, w | v in visited + {f} && w in g[v]
      ensures w in visited + {f} || w in next
    {
      if v != f && w !in visited && w != f {
        assert w in rest + [f];
        var i :| 0 <= i < |rest| + 1 && (rest + [f])[i] == w;
        assert i < |rest| && rest[i] == w;
        assert next[i] == w;
      }
    }
  }

  /** Marking a node of the graph visited leaves fewer unvisited nodes,
      unless it was visited already. */
  lemma MarkingShrinks(g: Graph, visited: set<Node>, f: Node)
    requires f in g
    ensures f !in visited ==> |g.Keys - (visited + {f})| < |g.Keys - visited|
    ensures f in visited ==> visited + {f} == visited
  {
    if f !in visited {
      var after := g.Keys - (visited + {f});
      assert g.Keys - visited == after + {f};
      assert f !in after;
    }
  }

  /** The inner loop of the traversal: push every successor of `f` that is
      not yet visited on top of `stack`. */
  method PushUnvisited(g: Graph, start: Node, stack: seq<Node>, visited: set<Node>, f: Node) returns (st: seq<Node>)
    requires Closed(g) && f in g && Reachable(g, start, f)
    requires forall i :: 0 <= i < |stack| ==> stack[i] in g && Reachable(g, start, stack[i])
    ensures |st| >= |stack| && st[..|stack|] == stack
    ensures forall i :: |stack| <= i < |st| ==> st[i] !in visited
    ensures forall w :: w in g[f] ==> w in visited || w in st
    ensures forall i :: 0 <= i < |st| ==> st[i] in g && Reachable(g, start, st[i])
    ensures CountIn(st, visited) == CountIn(stack, visited)
  {
    st := stack;
    var pending := g[f];
    while pending != {}
      invariant |st| >= |stack| && st[..|stack|] == stack
      invariant forall i :: |stack| <= i < |st| ==> st[i] !in visited
      invariant forall w :: w in g[f] && w !in pending ==> w in visited || w in st
      invariant forall i :: 0 <= i < |st| ==> st[i] in g && Reachable(g, start, st[i])
      invariant CountIn(st, visited) == CountIn(stack, visited)
      invariant pending <= g[f]
      decreases |pending|
    {
      var l :| l in pending;
      pending := pending - {l};
      if l !in visited {
        ReachStep(g, start, f, l);
        CountInAppend(st, l, visited);
        st := st + [l];
        assert st[|st| - 1] == l;
      }
    }
  }

  /** Every feature reachable from `start` is visited. */
  lemma VisitLinksIsComplete(g: Graph, start: Node, visited: set<Node>, t: Node)
    requires start in visited && ClosedSet(g, visited) && Reachable(g, start, t)
    ensures t in visited
  {
    ClosedHoldsReachable(g, start, visited, t);
  }
}
