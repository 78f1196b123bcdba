/** Finite directed graphs given by successor lists; an edge needs both ends to be nodes. */
module Graphs {

  type Graph<!T> = map<T, seq<T>>

  predicate Edge<T(==)>(g: Graph<T>, a: T, b: T) { a in g && b in g && b in g[a] }

  ghost predicate Linked<T>(g: Graph<T>, p: seq<T>) {
    forall i, j {:trigger Edge(g, p[i], p[j])} :: 0 <= i < j < |p| && j == i + 1 ==> Edge(g, p[i], p[j])
  }

  ghost predicate Path<T>(g: Graph<T>, p: seq<T>) { p != [] && Linked(g, p) }

  ghost predicate PathFromTo<T>(g: Graph<T>, p: seq<T>, a: T, b: T) {
    Path(g, p) && p[0] == a && p[|p| - 1] == b
  }

  /** At least one edge leads from `a` to `b`. */
  ghost predicate Beyond<T(!new)>(g: Graph<T>, a: T, b: T) {
    exists p :: PathFromTo(g, p, a, b) && |p| > 1
  }

  ghost predicate Reachable<T(!new)>(g: Graph<T>, a: T, b: T) { a == b || Beyond(g, a, b) }

  /** A cycle can be reached from `start`. */
  ghost predicate Cyclic<T(!new)>(g: Graph<T>, start: T) { exists v :: Reachable(g, start, v) && Beyond(g, v, v) }

  lemma LinkedSnoc<T>(g: Graph<T>, p: seq<T>, a: T)
    requires Linked(g, p) && (p == [] || Edge(g, p[|p| - 1], a))
    ensures Linked(g, p + [a])
  {
    forall i, j | 0 <= i < j < |p + [a]| && j == i + 1
      ensures Edge(g, (p + [a])[i], (p + [a])[j])
    {
      if j < |p| {
        assert Edge(g, p[i], p[j]);
      }
    }
  }

  /** No edge leaves `s`. */
  ghost predicate Closed<T(!new)>(g: Graph<T>, s: set<T>) {
    forall v, w {:trigger Edge(g, v, w)} :: v in s && Edge(g, v, w) ==> w in s
  }

  /** A path that returns to where it began. */
  ghost predicate Loop<T>(g: Graph<T>, p: seq<T>) { Path(g, p) && |p| > 1 && p[0] == p[|p| - 1] }

  ghost function Reach<T(!new)>(g: Graph<T>, start: T): set<T> {
    set v | v in g && Reachable(g, start, v)
  }

  lemma ReachIsClosed<T(!new)>(g: Graph<T>, start: T)
    ensures Closed(g, Reach(g, start))
  {
    forall v, w | v in Reach(g, start) && Edge(g, v, w)
      ensures w in Reach(g, start)
    {
      Further(g, start, v, w);
    }
  }

  /** Closing a walk from `start` on itself gives a loop. */
  lemma ClosingTheLoop<T(!new)>(g: Graph<T>, stack: seq<T>, id: T) returns (loop: seq<T>)
    requires Path(g, stack) && id in stack && Edge(g, stack[|stack| - 1], id)
    ensures Loop(g, loop) && loop[0] == id
  {
    var k :| 0 <= k < |stack| && stack[k] == id;
    loop := stack[k..] + [id];
  }

  lemma LoopIsCycle<T(!new)>(g: Graph<T>, start: T, loop: seq<T>)
    requires Loop(g, loop) && loop[0] in Reach(g, start)
    ensures Cyclic(g, start)
  {
    assert PathFromTo(g, loop, loop[0], loop[0]);
  }

  lemma EdgeIsBeyond<T(!new)>(g: Graph<T>, a: T, b: T)
    requires Edge(g, a, b)
    ensures Beyond(g, a, b)
  {
    assert PathFromTo(g, [a, b], a, b);
  }

  lemma Further<T(!new)>(g: Graph<T>, a: T, b: T, c: T)
    requires Reachable(g, a, b) && Edge(g, b, c)
    ensures Beyond(g, a, c)
  {
    if a == b {
      EdgeIsBeyond(g, b, c);
    } else {
      var p :| PathFromTo(g, p, a, b) && |p| > 1;
      assert PathFromTo(g, p + [c], a, c);
    }
  }

  /** A set of nodes that no edge leaves keeps every path that starts in it. */
  lemma {:induction false} ClosedKeepsPath<T(!new)>(g: Graph<T>, s: set<T>, p: seq<T>, n: nat)
    requires Path(g, p) && p[0] in s && n < |p|
    requires Closed(g, s)
    ensures p[n] in s
  {
    if n == 0 {
    } else {
      ClosedKeepsPath(g, s, p, n - 1);
      assert Edge(g, p[n - 1], p[n]);
    }
  }

  lemma ClosedKeepsReachable<T(!new)>(g: Graph<T>, s: set<T>, a: T)
    requires a in s && Closed(g, s)
    ensures forall b :: Reachable(g, a, b) ==> b in s
  {
    forall b | Reachable(g, a, b)
      ensures b in s
    {
      if a != b {
        var p :| PathFromTo(g, p, a, b) && |p| > 1;
        ClosedKeepsPath(g, s, p, |p| - 1);
      }
    }
  }

  /** Every edge out of a node with a height leads to a lower one. */
  ghost predicate Descending<T(!new)>(g: Graph<T>, height: map<T, nat>) {
    forall v, w {:trigger Edge(g, v, w)} :: v in height && Edge(g, v, w) ==> w in height && height[w] < height[v]
  }

  lemma {:induction false} PathDescends<T(!new)>(g: Graph<T>, height: map<T, nat>, p: seq<T>, n: nat)
    requires Path(g, p) && p[0] in height && n < |p| && Descending(g, height)
    ensures p[n] in height && (n > 0 ==> height[p[n]] < height[p[0]])
  {
    if n == 0 {
    } else {
      PathDescends(g, height, p, n - 1);
      assert Edge(g, p[n - 1], p[n]);
    }
  }

  lemma HeightsRuleOutCycles<T(!new)>(g: Graph<T>, start: T, height: map<T, nat>)
    requires start in height && Descending(g, height)
    ensures !Cyclic(g, start)
  {
    forall v | Reachable(g, start, v)
      ensures !Beyond(g, v, v)
    {
      if start != v {
        var p :| PathFromTo(g, p, start, v) && |p| > 1;
        PathDescends(g, height, p, |p| - 1);
      }
      if Beyond(g, v, v) {
        var q :| PathFromTo(g, q, v, v) && |q| > 1;
        PathDescends(g, height, q, |q| - 1);
      }
    }
  }

  lemma BeyondNeedsAnEdge<T(!new)>(g: Graph<T>, a: T, b: T) returns (w: T)
    requires Beyond(g, a, b)
    ensures Edge(g, a, w)
  {
    var p :| PathFromTo(g, p, a, b) && |p| > 1;
    assert Edge(g, p[0], p[1]);
    w := p[1];
  }

  /** A path from the start of an acyclic graph visits nothing twice. */
  lemma AcyclicPathsDoNotRepeat<T(!new)>(g: Graph<T>, p: seq<T>)
    requires Path(g, p) && !Cyclic(g, p[0])
    ensures forall i, j :: 0 <= i < j < |p| ==> p[i] != p[j]
  {
    forall i, j | 0 <= i < j < |p| && p[i] == p[j]
      ensures false
    {
      SubPath(g, p, 0, i);
      SubPath(g, p, i, j);
      if i > 0 {
        assert PathFromTo(g, p[0..i + 1], p[0], p[i]);
      }
      assert PathFromTo(g, p[i..j + 1], p[i], p[i]);
      assert Reachable(g, p[0], p[i]) && Beyond(g, p[i], p[i]);
    }
  }

  lemma SubPath<T>(g: Graph<T>, p: seq<T>, i: nat, j: nat)
    requires Path(g, p) && i <= j < |p|
    ensures Path(g, p[i..j + 1])
  {
    var q := p[i..j + 1];
    forall a, b | 0 <= a < b < |q| && b == a + 1
      ensures Edge(g, q[a], q[b])
    {
      assert Edge(g, p[i + a], p[i + b]);
    }
  }

  lemma {:induction false} Pigeonhole<T>(p: seq<T>, s: set<T>)
    requires forall i, j :: 0 <= i < j < |p| ==> p[i] != p[j]
    requires forall i :: 0 <= i < |p| ==> p[i] in s
    ensures |p| <= |s|
  {
    if p == [] {
    } else {
      Pigeonhole(p[1..], s - {p[0]});
    }
  }
}
