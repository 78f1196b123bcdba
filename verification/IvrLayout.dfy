/** Drawing a flow: levels by breadth-first search, rows per level, hand-placed nodes kept. */
module IvrLayout {
  import opened Seqs
  import opened Graphs
  import opened IvrGraph

  // ---------------------------------------------------------------- shortest distances

  /** `n` edges lead from `a` to `b`, and no fewer do. */
  ghost predicate Distance<T(!new)>(g: Graph<T>, a: T, b: T, n: nat) {
    && (exists p :: PathFromTo(g, p, a, b) && |p| == n + 1)
    && (forall p :: PathFromTo(g, p, a, b) ==> |p| >= n + 1)
  }

  /** What the search knows: `done` are the nodes whose branches it has followed, `ways` a path to every node found. */
  datatype Search<!T> = Search(levels: map<T, nat>, queue: seq<T>, done: set<T>, ways: map<T, seq<T>>)

  /** Found nodes are done or queued, not both, and nothing is queued twice. */
  ghost predicate Queued<T>(g: Graph<T>, s: Search<T>) {
    && s.done <= s.levels.Keys <= g.Keys
    && (forall i :: 0 <= i < |s.queue| ==> s.queue[i] in s.levels && s.queue[i] !in s.done)
    && (forall i, j :: 0 <= i < j < |s.queue| ==> s.queue[i] != s.queue[j])
    && (forall v :: v in s.levels && v !in s.done ==> v in s.queue)
  }

  /** The queue is in level order, and spans at most two levels, the first of them the highest done. */
  ghost predicate Ordered<T>(s: Search<T>)
    requires forall i :: 0 <= i < |s.queue| ==> s.queue[i] in s.levels
  {
    && (forall i, j :: 0 <= i < j < |s.queue| ==> s.levels[s.queue[i]] <= s.levels[s.queue[j]])
    && (s.queue != [] ==>
          (forall v :: v in s.levels ==> s.levels[v] <= s.levels[s.queue[0]] + 1)
          && (forall v :: v in s.levels && v in s.done ==> s.levels[v] <= s.levels[s.queue[0]]))
  }

  /** Levels are lengths of paths, and a branch of a done node gains at most one level. */
  ghost predicate Leveled<T(!new)>(g: Graph<T>, start: T, s: Search<T>) {
    && start in s.levels && s.levels[start] == 0 && s.ways.Keys == s.levels.Keys
    && (forall v :: v in s.levels ==> PathFromTo(g, s.ways[v], start, v) && |s.ways[v]| == s.levels[v] + 1)
    && (forall v, w {:trigger Edge(g, v, w)} :: v in s.done && v in s.levels && Edge(g, v, w) ==>
          w in s.levels && s.levels[w] <= s.levels[v] + 1)
  }

  lemma {:induction false} LevelsBoundPaths<T(!new)>(g: Graph<T>, start: T, s: Search<T>, p: seq<T>, n: nat)
    requires Leveled(g, start, s) && s.done == s.levels.Keys && Path(g, p) && p[0] == start && n < |p|
    ensures p[n] in s.levels && s.levels[p[n]] <= n
  {
    if n == 0 {
    } else {
      LevelsBoundPaths(g, start, s, p, n - 1);
      assert Edge(g, p[n - 1], p[n]);
    }
  }

  /** A search that has followed everything it found has found everything, at its shortest distance. */
  lemma SearchIsExact<T(!new)>(g: Graph<T>, start: T, s: Search<T>)
    requires Leveled(g, start, s) && s.done == s.levels.Keys <= g.Keys
    ensures s.levels.Keys == Reach(g, start)
    ensures forall v :: v in s.levels ==> Distance(g, start, v, s.levels[v])
  {
    forall v | v in s.levels
      ensures Distance(g, start, v, s.levels[v]) && Reachable(g, start, v)
    {
      assert PathFromTo(g, s.ways[v], start, v);
      forall p | PathFromTo(g, p, start, v)
        ensures |p| >= s.levels[v] + 1
      {
        LevelsBoundPaths(g, start, s, p, |p| - 1);
      }
    }
    forall v | v in Reach(g, start)
      ensures v in s.levels
    {
      if v != start {
        var p :| PathFromTo(g, p, start, v) && |p| > 1;
        LevelsBoundPaths(g, start, s, p, |p| - 1);
      }
    }
  }

  ghost predicate Searching<T(!new)>(g: Graph<T>, start: T, s: Search<T>) {
    Queued(g, s) && Ordered(s) && Leveled(g, start, s)
  }

  /** Finding `w` along a branch of the node in front. */
  ghost function Found<T>(s: Search<T>, id: T, w: T): Search<T>
    requires id in s.levels && id in s.ways
  {
    Search(s.levels[w := s.levels[id] + 1], s.queue + [w], s.done, s.ways[w := s.ways[id] + [w]])
  }

  lemma FoundKeepsQueue<T(!new)>(g: Graph<T>, s: Search<T>, id: T, w: T)
    requires s.queue != [] && s.queue[0] == id && w in g && w !in s.levels && id in s.ways
    requires Queued(g, s) && Ordered(s)
    ensures Queued(g, Found(s, id, w)) && Ordered(Found(s, id, w))
  {
    var t := Found(s, id, w);
    forall v | v in t.levels && v !in t.done
      ensures v in t.queue
    {
      if v == w {
        assert t.queue[|s.queue|] == w;
      } else {
        var i :| 0 <= i < |s.queue| && s.queue[i] == v;
        assert t.queue[i] == v;
      }
    }
  }

  lemma FoundKeepsLevels<T(!new)>(g: Graph<T>, start: T, s: Search<T>, id: T, w: T)
    requires Leveled(g, start, s) && s.done <= s.levels.Keys && id in s.levels && Edge(g, id, w) && w !in s.levels
    ensures Leveled(g, start, Found(s, id, w))
  {
    LinkedSnoc(g, s.ways[id], w);
    assert PathFromTo(g, s.ways[id] + [w], start, w);
  }

  /** The node in front is done once all its branches have been followed. */
  ghost function Finished<T>(s: Search<T>): Search<T>
    requires s.queue != []
  {
    s.(done := s.done + {s.queue[0]}, queue := s.queue[1..])
  }

  lemma FinishedKeepsQueue<T(!new)>(g: Graph<T>, s: Search<T>)
    requires s.queue != [] && Queued(g, s) && Ordered(s)
    ensures Queued(g, Finished(s)) && Ordered(Finished(s))
  {
    var t := Finished(s);
    assert forall i :: 0 <= i < |t.queue| ==> t.queue[i] == s.queue[i + 1];
    forall v | v in t.levels && v !in t.done
      ensures v in t.queue
    {
      var i :| 0 <= i < |s.queue| && s.queue[i] == v;
      assert t.queue[i - 1] == v;
    }
  }

  lemma FinishedKeepsLevels<T(!new)>(g: Graph<T>, start: T, s: Search<T>)
    requires s.queue != [] && Searching(g, start, s)
    requires forall w :: Edge(g, s.queue[0], w) ==> w in s.levels
    ensures Leveled(g, start, Finished(s))
  {
    assert s.queue[0] in s.levels;
  }

  lemma FoundKeeps<T(!new)>(g: Graph<T>, start: T, s: Search<T>, w: T)
    requires Searching(g, start, s) && s.queue != [] && Edge(g, s.queue[0], w) && w !in s.levels
    ensures s.queue[0] in s.levels && s.queue[0] in s.ways && Searching(g, start, Found(s, s.queue[0], w))
  {
    assert s.queue[0] in s.levels;
    FoundKeepsQueue(g, s, s.queue[0], w);
    FoundKeepsLevels(g, start, s, s.queue[0], w);
  }

  lemma FinishedKeeps<T(!new)>(g: Graph<T>, start: T, s: Search<T>)
    requires s.queue != [] && Searching(g, start, s)
    requires forall w :: Edge(g, s.queue[0], w) ==> w in s.levels
    ensures Searching(g, start, Finished(s)) && s.queue[0] in g && s.queue[0] !in s.done
  {
    assert s.queue[0] in s.levels;
    FinishedKeepsQueue(g, s);
    FinishedKeepsLevels(g, start, s);
  }

  /** The program's view of a search whose front node `id` is just being followed. */
  ghost predicate Shows<T>(s: Search<T>, id: T, levels: map<T, nat>, queue: seq<T>) {
    s.levels == levels && s.queue != [] && s.queue[0] == id && s.queue[1..] == queue
  }

  /** One branch of the node just taken from the queue. */
  method FollowBranch<T(==,!new)>(g: Graph<T>, ghost start: T, id: T, next: T, levels: map<T, nat>, queue: seq<T>,
      ghost s: Search<T>)
    returns (levels': map<T, nat>, queue': seq<T>, ghost s': Search<T>)
    requires Searching(g, start, s) && Shows(s, id, levels, queue) && id in levels && id in g && next in g[id]
    ensures Searching(g, start, s') && Shows(s', id, levels', queue') && s'.done == s.done
      && levels.Keys <= levels'.Keys
    ensures next in g ==> next in levels'
  {
    hide Searching;
    levels', queue', s' := levels, queue, s;
    if next in g && next !in levels {
      FoundKeeps(g, start, s, next);
      s' := Found(s, id, next);
      levels', queue' := levels[next := levels[id] + 1], queue + [next];
    }
  }

  /** The inner loop. */
  method FollowBranches<T(==,!new)>(g: Graph<T>, ghost start: T, id: T, levels: map<T, nat>, queue: seq<T>,
      ghost s: Search<T>)
    returns (levels': map<T, nat>, queue': seq<T>, ghost s': Search<T>)
    requires Searching(g, start, s) && Shows(s, id, levels, queue) && id in g && id in levels
    ensures Searching(g, start, s') && Shows(s', id, levels', queue') && s'.done == s.done
    ensures forall w :: Edge(g, id, w) ==> w in levels'
  {
    hide Searching;
    levels', queue', s' := levels, queue, s;
    var targets := g[id];
    var i := 0;
    while i < |targets|
      invariant 0 <= i <= |targets|
      invariant Searching(g, start, s') && Shows(s', id, levels', queue') && s'.done == s.done && id in levels'
      invariant forall k :: 0 <= k < i && targets[k] in g ==> targets[k] in levels'
    {
      levels', queue', s' := FollowBranch(g, start, id, targets[i], levels', queue', s');
      i := i + 1;
    }
  }

  lemma FreshSearch<T(!new)>(g: Graph<T>, start: T)
    requires start in g
    ensures Searching(g, start, Search(map[start := 0], [start], {}, map[start := [start]]))
  {
    assert PathFromTo(g, [start], start, start);
  }

  /** Breadth-first search. */
  method Levels<T(==,!new)>(g: Graph<T>, start: T) returns (levels: map<T, nat>)
    requires start in g
    ensures levels.Keys == Reach(g, start)
    ensures forall v :: v in levels ==> Distance(g, start, v, levels[v])
  {
    levels := map[start := 0];
    var queue := [start];
    ghost var s := Search(levels, queue, {}, map[start := [start]]);
    FreshSearch(g, start);
    while queue != []
      invariant Searching(g, start, s) && s.levels == levels && s.queue == queue
      decreases g.Keys - s.done
    {
      var id := queue[0];
      assert s.queue[0] in s.levels;
      levels, queue, s := FollowBranches(g, start, id, levels, queue[1..], s);
      FinishedKeeps(g, start, s);
      s := Finished(s);
    }
    SearchIsExact(g, start, s);
  }

  // ---------------------------------------------------------------- rows

  /** The branches the search follows: it does not skip empty targets, should a node have an empty name. */
  function LayoutGraph(d: Doc): Graph<string> {
    map id | id in Names(d) :: Targets(d, id)
  }

  predicate Started(d: Doc) { d.start != "" && Get(d, d.start).Some? }

  /** What the search from the start, if there is one, has to find. */
  ghost function FoundFrom(d: Doc): set<string> {
    if Started(d) then Reach(LayoutGraph(d), d.start) else {}
  }

  /** The greatest level, 0 when there is none. */
  method Top(levels: map<string, nat>) returns (top: nat)
    ensures forall v :: v in levels ==> levels[v] <= top
    ensures top == 0 || exists v :: v in levels && levels[v] == top
  {
    top := 0;
    var rest := levels.Keys;
    while rest != {}
      invariant rest <= levels.Keys
      invariant forall v :: v in levels && v !in rest ==> levels[v] <= top
      invariant top == 0 || exists v :: v in levels && levels[v] == top
      decreases |rest|
    {
      var v :| v in rest;
      if levels[v] > top {
        top := levels[v];
      }
      rest := rest - {v};
    }
  }

  /** Node `j` was not found: its row lies directly below the lowest row in use before it. */
  ghost predicate OwnRow(ids: seq<string>, levels: map<string, nat>, found: set<string>, j: nat)
    requires j < |ids| && ids[j] in levels
  {
    && (forall v :: v in found && v in levels ==> levels[v] < levels[ids[j]])
    && (forall i :: 0 <= i < j && ids[i] in levels ==> levels[ids[i]] < levels[ids[j]])
    && (levels[ids[j]] == 1 || exists v :: v in levels && levels[v] + 1 == levels[ids[j]])
  }

  /** Every node has a level: its distance from the start, or a row of its own. */
  ghost predicate Ranked(d: Doc, levels: map<string, nat>) {
    && levels.Keys == FoundFrom(d) + d.nodes.Keys
    && (forall v :: v in FoundFrom(d) ==> Distance(LayoutGraph(d), d.start, v, levels[v]))
    && (forall j :: 0 <= j < |d.ids| && d.ids[j] !in FoundFrom(d) ==> OwnRow(d.ids, levels, FoundFrom(d), j))
  }

  method LevelsFromStart(d: Doc) returns (levels: map<string, nat>)
    ensures levels.Keys == FoundFrom(d)
    ensures forall v :: v in levels ==> Distance(LayoutGraph(d), d.start, v, levels[v])
  {
    levels := map[];
    if Started(d) {
      levels := Levels(LayoutGraph(d), d.start);
    }
  }

  lemma OwnRowStays(ids: seq<string>, levels: map<string, nat>, found: set<string>, j: nat, id: string, level: nat)
    requires j < |ids| && ids[j] in levels && OwnRow(ids, levels, found, j)
    requires id !in levels && found <= levels.Keys && forall i :: 0 <= i <= j ==> ids[i] in levels
    ensures OwnRow(ids, levels[id := level], found, j)
  {
    if levels[ids[j]] != 1 {
      var v :| v in levels && levels[v] + 1 == levels[ids[j]];
      assert v in levels[id := level];
    }
  }

  lemma NewRow(ids: seq<string>, levels: map<string, nat>, found: set<string>, k: nat, top: nat)
    requires k < |ids| && ids[k] !in levels && found <= levels.Keys
    requires forall i, j :: 0 <= i < j < |ids| ==> ids[i] != ids[j]
    requires forall v :: v in levels ==> levels[v] <= top
    requires top == 0 || exists v :: v in levels && levels[v] == top
    ensures OwnRow(ids, levels[ids[k] := top + 1], found, k)
  {
    if top > 0 {
      var v :| v in levels && levels[v] == top;
      assert v in levels[ids[k] := top + 1];
    }
  }

  /** The first `k` nodes have their levels. */
  ghost predicate RankedUpTo(ids: seq<string>, levels: map<string, nat>, found: map<string, nat>, k: nat)
    requires k <= |ids|
  {
    && (forall v :: v in found ==> v in levels && levels[v] == found[v])
    && (forall j :: 0 <= j < k ==> ids[j] in levels)
    && (forall v :: v in levels ==> v in found || v in ids[..k])
    && (forall j :: 0 <= j < k && ids[j] !in found ==> OwnRow(ids, levels, found.Keys, j))
  }

  lemma RankNew(ids: seq<string>, levels: map<string, nat>, found: map<string, nat>, k: nat, top: nat)
    requires k < |ids| && ids[k] !in levels && RankedUpTo(ids, levels, found, k)
    requires forall i, j :: 0 <= i < j < |ids| ==> ids[i] != ids[j]
    requires forall v :: v in levels ==> levels[v] <= top
    requires top == 0 || exists v :: v in levels && levels[v] == top
    ensures RankedUpTo(ids, levels[ids[k] := top + 1], found, k + 1)
  {
    hide OwnRow;
    NewRow(ids, levels, found.Keys, k, top);
    forall j | 0 <= j < k && ids[j] !in found
      ensures OwnRow(ids, levels[ids[k] := top + 1], found.Keys, j)
    {
      OwnRowStays(ids, levels, found.Keys, j, ids[k], top + 1);
    }
  }

  lemma RankOld(ids: seq<string>, levels: map<string, nat>, found: map<string, nat>, k: nat)
    requires k < |ids| && ids[k] in levels && RankedUpTo(ids, levels, found, k)
    requires forall i, j :: 0 <= i < j < |ids| ==> ids[i] != ids[j]
    ensures RankedUpTo(ids, levels, found, k + 1)
  {
    hide OwnRow;
    assert ids[k] !in ids[..k];
  }

  /** The pass that gives every node the search did not find a row of its own. */
  method Rank(d: Doc) returns (levels: map<string, nat>)
    ensures Ranked(d, levels)
  {
    hide OwnRow, Distance;
    levels := LevelsFromStart(d);
    ghost var found := levels;
    var k := 0;
    while k < |d.ids|
      invariant 0 <= k <= |d.ids| && RankedUpTo(d.ids, levels, found, k)
    {
      if d.ids[k] !in levels {
        var top := Top(levels);
        RankNew(d.ids, levels, found, k, top);
        levels := levels[d.ids[k] := top + 1];
      } else {
        RankOld(d.ids, levels, found, k);
      }
      k := k + 1;
    }
  }

  /** The nodes among the first `k` that share a row, in order. */
  function Row(ids: seq<string>, levels: map<string, nat>, level: nat, k: nat): seq<string>
    requires k <= |ids|
  {
    if k == 0 then []
    else
      var row := Row(ids, levels, level, k - 1);
      if ids[k - 1] in levels && levels[ids[k - 1]] == level then row + [ids[k - 1]] else row
  }

  lemma {:induction false} RowGrows(ids: seq<string>, levels: map<string, nat>, level: nat, j: nat, k: nat)
    requires j <= k <= |ids|
    ensures Row(ids, levels, level, j) <= Row(ids, levels, level, k)
  {
    if j == k {
    } else {
      RowGrows(ids, levels, level, j, k - 1);
    }
  }

  lemma RowAdvances(ids: seq<string>, levels: map<string, nat>, level: nat, j: nat, k: nat)
    requires j < k <= |ids| && ids[j] in levels && levels[ids[j]] == level
    ensures |Row(ids, levels, level, j)| < |Row(ids, levels, level, k)|
  {
    RowGrows(ids, levels, level, j + 1, k);
  }

  /** Where in the list the `i`-th node of a row stands. */
  lemma {:induction false} RowAt(ids: seq<string>, levels: map<string, nat>, level: nat, k: nat, i: nat)
      returns (at: nat)
    requires k <= |ids| && i < |Row(ids, levels, level, k)|
    ensures at < k && ids[at] == Row(ids, levels, level, k)[i] && |Row(ids, levels, level, at)| == i
    ensures ids[at] in levels && levels[ids[at]] == level
  {
    if i < |Row(ids, levels, level, k - 1)| {
      at := RowAt(ids, levels, level, k - 1, i);
    } else {
      at := k - 1;
    }
  }

  lemma RowsStartEmpty(ids: seq<string>, levels: map<string, nat>)
    ensures forall l: nat :: Row(ids, levels, l, 0) == []
  {
  }

  lemma RowsGrowByOne(ids: seq<string>, levels: map<string, nat>, k: nat)
    requires k < |ids| && ids[k] in levels
    ensures forall l: nat ::
      Row(ids, levels, l, k + 1) == Row(ids, levels, l, k) + if levels[ids[k]] == l then [ids[k]] else []
  {
  }

  /** The rows, as the source collects them. */
  method Group(ids: seq<string>, levels: map<string, nat>) returns (groups: map<nat, seq<string>>)
    requires forall i :: 0 <= i < |ids| ==> ids[i] in levels
    ensures forall l :: l in groups ==> groups[l] == Row(ids, levels, l, |ids|) != []
    ensures forall i :: 0 <= i < |ids| ==> levels[ids[i]] in groups
  {
    hide Row;
    groups := map[];
    var k := 0;
    RowsStartEmpty(ids, levels);
    while k < |ids|
      invariant 0 <= k <= |ids|
      invariant forall l :: l in groups ==> groups[l] == Row(ids, levels, l, k) != []
      invariant forall l: nat :: l !in groups ==> Row(ids, levels, l, k) == []
      invariant forall i :: 0 <= i < k ==> levels[ids[i]] in groups
    {
      var level := levels[ids[k]];
      var row := if level in groups then groups[level] else [];
      groups := groups[level := row + [ids[k]]];
      RowsGrowByOne(ids, levels, k);
      k := k + 1;
    }
  }

  method Longest(groups: map<nat, seq<string>>) returns (longest: nat)
    ensures longest >= 1 && forall l :: l in groups ==> |groups[l]| <= longest
    ensures longest == 1 || exists l :: l in groups && |groups[l]| == longest
  {
    longest := 1;
    var rest := groups.Keys;
    while rest != {}
      invariant rest <= groups.Keys && longest >= 1
      invariant forall l :: l in groups && l !in rest ==> |groups[l]| <= longest
      invariant longest == 1 || exists l :: l in groups && |groups[l]| == longest
      decreases |rest|
    {
      var l :| l in rest;
      if |groups[l]| > longest {
        longest := |groups[l]|;
      }
      rest := rest - {l};
    }
  }

  // ---------------------------------------------------------------- positions

  datatype Point = Point(x: real, y: real)

  datatype Drawing = Drawing(width: real, height: real, positions: map<string, Point>, edges: seq<(string, string)>)

  /** The place of node `k` in its row: rows are centred, 210 apart across and 125 apart down. */
  function Spot(ids: seq<string>, levels: map<string, nat>, width: real, k: nat): Point
    requires k < |ids| && ids[k] in levels
  {
    var level := levels[ids[k]];
    Point((width - |Row(ids, levels, level, |ids|)| as real * 210.0) / 2.0
          + |Row(ids, levels, level, k)| as real * 210.0 + 105.0,
          54.0 + level as real * 125.0)
  }

  /** Wide enough for every row. */
  predicate Roomy(ids: seq<string>, levels: map<string, nat>, width: real) {
    forall k :: 0 <= k < |ids| && ids[k] in levels ==>
      |Row(ids, levels, levels[ids[k]], |ids|)| as real * 210.0 + 40.0 <= width
  }

  /** No two automatic places overlap, and all lie on the canvas. */
  lemma SpotsAreApart(ids: seq<string>, levels: map<string, nat>, width: real, j: nat, k: nat)
    requires j < k < |ids| && ids[j] in levels && ids[k] in levels
    ensures var a := Spot(ids, levels, width, j); var b := Spot(ids, levels, width, k);
      b.x - a.x >= 210.0 || a.y - b.y >= 125.0 || b.y - a.y >= 125.0
  {
    if levels[ids[j]] == levels[ids[k]] {
      RowGrows(ids, levels, levels[ids[j]], j + 1, k);
    }
  }

  lemma SpotsAreInside(ids: seq<string>, levels: map<string, nat>, width: real, k: nat)
    requires k < |ids| && ids[k] in levels && Roomy(ids, levels, width)
    ensures Spot(ids, levels, width, k).x >= 125.0 && Spot(ids, levels, width, k).x + 125.0 <= width
    ensures Spot(ids, levels, width, k).y >= 54.0
  {
    RowGrows(ids, levels, levels[ids[k]], k + 1, |ids|);
  }

  /** A row is centred: its places are 210 apart in the order of the nodes,
    the first as far from the left edge as the last
      from the right; each level is 125 below the one before. */
  lemma RowsAreCentred(ids: seq<string>, levels: map<string, nat>, width: real, first: nat, k: nat, last: nat)
    requires first < |ids| && k < |ids| && last < |ids| && ids[first] in levels && ids[k] in levels
      && ids[last] in levels
    requires levels[ids[first]] == levels[ids[k]] == levels[ids[last]]
    requires forall j :: 0 <= j < |ids| && ids[j] in levels && levels[ids[j]] == levels[ids[k]] ==> first <= j <= last
    ensures Spot(ids, levels, width, first).x == width - Spot(ids, levels, width, last).x
    ensures Spot(ids, levels, width, k).x
         == Spot(ids, levels, width, first).x + (210 * |Row(ids, levels, levels[ids[k]], k)|) as real
    ensures Spot(ids, levels, width, k).y == (54 + 125 * levels[ids[k]]) as real
  {
    NothingInRow(ids, levels, levels[ids[k]], 0, first);
    NothingInRow(ids, levels, levels[ids[k]], last + 1, |ids|);
  }

  lemma {:induction false} NothingInRow(ids: seq<string>, levels: map<string, nat>, level: nat, a: nat, b: nat)
    requires a <= b <= |ids| && forall j :: a <= j < b && ids[j] in levels ==> levels[ids[j]] != level
    ensures Row(ids, levels, level, b) == Row(ids, levels, level, a)
    decreases b
  {
    if a < b {
      NothingInRow(ids, levels, level, a, b - 1);
    }
  }

  /** Which nodes have their automatic place: those in finished rows, and the first `n` of the row being filled. */
  ghost predicate Spotted(ids: seq<string>, levels: map<string, nat>, width: real, positions: map<string, Point>,
      done: set<nat>, level: nat, n: nat)
  {
    && (forall id :: id in positions ==> id in ids)
    && (forall k :: 0 <= k < |ids| && ids[k] in levels
                    && (levels[ids[k]] in done || (levels[ids[k]] == level && |Row(ids, levels, level, k)| < n)) ==>
          ids[k] in positions && positions[ids[k]] == Spot(ids, levels, width, k))
  }

  lemma SpottedOne(ids: seq<string>, levels: map<string, nat>, width: real, before: map<string, Point>, done: set<nat>,
      level: nat, i: nat, at: nat)
    requires forall i, j :: 0 <= i < j < |ids| ==> ids[i] != ids[j]
    requires Spotted(ids, levels, width, before, done, level, i)
    requires at < |ids| && ids[at] in levels && levels[ids[at]] == level && |Row(ids, levels, level, at)| == i
    ensures Spotted(ids, levels, width, before[ids[at] := Spot(ids, levels, width, at)], done, level, i + 1)
  {
    hide Row, Spot;
    forall k | 0 <= k < |ids| && ids[k] in levels && levels[ids[k]] == level && |Row(ids, levels, level, k)| == i
      ensures k == at
    {
      if k < at {
        RowAdvances(ids, levels, level, k, at);
      } else if at < k {
        RowAdvances(ids, levels, level, at, k);
      }
    }
  }

  lemma SpottedAll(ids: seq<string>, levels: map<string, nat>, width: real, positions: map<string, Point>,
      done: set<nat>, level: nat)
    requires Spotted(ids, levels, width, positions, done, level, |Row(ids, levels, level, |ids|)|)
    ensures Spotted(ids, levels, width, positions, done + {level}, level, 0)
  {
    forall k | 0 <= k < |ids| && ids[k] in levels && levels[ids[k]] == level
      ensures |Row(ids, levels, level, k)| < |Row(ids, levels, level, |ids|)|
    {
      RowGrows(ids, levels, level, k + 1, |ids|);
    }
  }

  /** One row of automatic places. */
  method PlaceRow(ids: seq<string>, levels: map<string, nat>, width: real, group: seq<string>, level: nat,
      before: map<string, Point>, ghost done: set<nat>)
    returns (positions: map<string, Point>)
    requires forall i, j :: 0 <= i < j < |ids| ==> ids[i] != ids[j]
    requires group == Row(ids, levels, level, |ids|) && Spotted(ids, levels, width, before, done, level, 0)
    ensures Spotted(ids, levels, width, positions, done + {level}, level, 0)
  {
    hide Spotted, Row;
    positions := before;
    var i := 0;
    while i < |group|
      invariant 0 <= i <= |group|
      invariant Spotted(ids, levels, width, positions, done, level, i)
    {
      ghost var at := RowAt(ids, levels, level, |ids|, i);
      SpottedOne(ids, levels, width, positions, done, level, i, at);
      positions := positions[group[i] := Point((width - |group| as real * 210.0) / 2.0 + i as real * 210.0 + 105.0,
                                               54.0 + level as real * 125.0)];
      i := i + 1;
    }
    SpottedAll(ids, levels, width, positions, done, level);
  }

  method PlaceRows(ids: seq<string>, levels: map<string, nat>, width: real, groups: map<nat, seq<string>>)
      returns (positions: map<string, Point>)
    requires forall i, j :: 0 <= i < j < |ids| ==> ids[i] != ids[j]
    requires forall l :: l in groups ==> groups[l] == Row(ids, levels, l, |ids|)
    requires forall i :: 0 <= i < |ids| ==> ids[i] in levels && levels[ids[i]] in groups
    ensures forall id :: id in positions <==> id in ids
    ensures forall k :: 0 <= k < |ids| ==> positions[ids[k]] == Spot(ids, levels, width, k)
  {
    positions := map[];
    var rest := groups.Keys;
    while rest != {}
      invariant rest <= groups.Keys
      invariant Spotted(ids, levels, width, positions, groups.Keys - rest, 0, 0)
      decreases |rest|
    {
      var level :| level in rest;
      positions := PlaceRow(ids, levels, width, groups[level], level, positions, groups.Keys - rest);
      assert groups.Keys - (rest - {level}) == groups.Keys - rest + {level};
      rest := rest - {level};
    }
  }

  /** A hand-placed node; None when either coordinate is not a finite number. */
  type Manual = seq<(string, Option<Point>)>

  /** The last usable entry for a node among the first `k`. */
  function Placed(manual: Manual, id: string, k: nat): Option<Point>
    requires k <= |manual|
  {
    if k == 0 then None
    else if manual[k - 1].0 == id && manual[k - 1].1.Some? then manual[k - 1].1
    else Placed(manual, id, k - 1)
  }

  /** That is the last entry that names the node and has both coordinates, and none if there is no such entry. */
  lemma {:induction false} PlacedIsTheLast(manual: Manual, id: string, k: nat)
    requires k <= |manual|
    ensures match Placed(manual, id, k)
      case None => forall j :: 0 <= j < k ==> manual[j].0 != id || manual[j].1.None?
      case Some(p) => exists j :: 0 <= j < k && manual[j] == (id, Some(p))
                                  && forall i :: j < i < k ==> manual[i].0 != id || manual[i].1.None?
  {
    if k > 0 {
      PlacedIsTheLast(manual, id, k - 1);
      if manual[k - 1].0 == id && manual[k - 1].1.Some? {
        assert manual[k - 1] == (id, manual[k - 1].1);
      }
    }
  }

  /** Each coordinate as given, but not less than the margin. */
  function Clamp(p: Point): (r: Point)
    ensures r.x == if p.x < 90.0 then 90.0 else p.x
    ensures r.y == if p.y < 45.0 then 45.0 else p.y
  {
    Point(Larger(90.0, p.x), Larger(45.0, p.y))
  }

  /** The pass over the hand-placed nodes. Entries count for nodes and, since the lookup finds those too, for
      inherited names. */
  method MoveByHand(d: Doc, before: map<string, Point>, manual: Manual) returns (positions: map<string, Point>)
    requires before.Keys == d.nodes.Keys
    ensures forall id :: id in positions <==> id in d.nodes || (id in d.inherited && Placed(manual, id, |manual|).Some?)
    ensures forall id :: id in positions ==>
      match Placed(manual, id, |manual|)
      case Some(p) => positions[id] == Clamp(p)
      case None => id in before && positions[id] == before[id]
  {
    positions := before;
    var k := 0;
    while k < |manual|
      invariant 0 <= k <= |manual|
      invariant forall id :: id in positions <==> id in d.nodes || (id in d.inherited && Placed(manual, id, k).Some?)
      invariant forall id :: id in positions ==>
        match Placed(manual, id, k)
        case Some(p) => positions[id] == Clamp(p)
        case None => id in before && positions[id] == before[id]
    {
      var (id, point) := manual[k];
      if (id in positions || id in d.inherited) && point.Some? {
        positions := positions[id := Clamp(point.value)];
      }
      k := k + 1;
    }
  }

  /** The canvas around everything, at least as large as asked for. */
  method Surround(width: real, height: real, positions: map<string, Point>) returns (w: real, h: real)
    ensures w >= width && h >= height
    ensures forall id :: id in positions ==> positions[id].x + 100.0 <= w && positions[id].y + 65.0 <= h
    ensures w == width || exists id :: id in positions && w == positions[id].x + 100.0
    ensures h == height || exists id :: id in positions && h == positions[id].y + 65.0
  {
    w, h := width, height;
    var rest := positions.Keys;
    while rest != {}
      invariant rest <= positions.Keys && w >= width && h >= height
      invariant forall id :: id in positions && id !in rest ==>
        positions[id].x + 100.0 <= w && positions[id].y + 65.0 <= h
      invariant w == width || exists id :: id in positions && w == positions[id].x + 100.0
      invariant h == height || exists id :: id in positions && h == positions[id].y + 65.0
      decreases |rest|
    {
      var id :| id in rest;
      if positions[id].x + 100.0 > w {
        w := positions[id].x + 100.0;
      }
      if positions[id].y + 65.0 > h {
        h := positions[id].y + 65.0;
      }
      rest := rest - {id};
    }
  }

  /** Every node where its hand-placed entry says, or at its automatic place. */
  ghost predicate Positioned(d: Doc, manual: Manual, levels: map<string, nat>, width: real,
      positions: map<string, Point>)
    requires forall i :: 0 <= i < |d.ids| ==> d.ids[i] in levels
  {
    forall k :: 0 <= k < |d.ids| ==>
      d.ids[k] in positions
      && positions[d.ids[k]] == match Placed(manual, d.ids[k], |manual|)
                                case Some(p) => Clamp(p)
                                case None => Spot(d.ids, levels, width, k)
  }

  method Lowest(groups: map<nat, seq<string>>) returns (lowest: nat)
    ensures forall l :: l in groups ==> l <= lowest
    ensures lowest == 0 || lowest in groups
  {
    lowest := 0;
    var rest := groups.Keys;
    while rest != {}
      invariant rest <= groups.Keys && (lowest == 0 || lowest in groups)
      invariant forall l :: l in groups && l !in rest ==> l <= lowest
      decreases |rest|
    {
      var l :| l in rest;
      if l > lowest {
        lowest := l;
      }
      rest := rest - {l};
    }
  }

  lemma RankedNodes(d: Doc, levels: map<string, nat>)
    requires Ranked(d, levels)
    ensures forall i :: 0 <= i < |d.ids| ==> d.ids[i] in levels
  {
  }

  lemma RowsFit(ids: seq<string>, levels: map<string, nat>, groups: map<nat, seq<string>>, longest: nat, width: real)
    requires forall l :: l in groups ==> groups[l] == Row(ids, levels, l, |ids|) && |groups[l]| <= longest
    requires forall i :: 0 <= i < |ids| ==> ids[i] in levels && levels[ids[i]] in groups
    requires longest as real * 210.0 + 40.0 <= width
    ensures Roomy(ids, levels, width)
  {
  }

  /** No wider than the longest row asks for. */
  ghost predicate Snug(ids: seq<string>, levels: map<string, nat>, width: real) {
    || width == 580.0
    || exists k :: 0 <= k < |ids| && ids[k] in levels
                   && width == |Row(ids, levels, levels[ids[k]], |ids|)| as real * 210.0 + 40.0
  }

  lemma RowsAreSnug(ids: seq<string>, levels: map<string, nat>, groups: map<nat, seq<string>>, longest: nat)
    requires forall l :: l in groups ==> groups[l] == Row(ids, levels, l, |ids|) != []
    requires longest == 1 || exists l :: l in groups && |groups[l]| == longest
    ensures Snug(ids, levels, Larger(580.0, longest as real * 210.0 + 40.0))
  {
    if longest != 1 {
      var l :| l in groups && |groups[l]| == longest;
      var k := RowAt(ids, levels, l, |ids|, 0);
    }
  }

  /** No higher than 450, than its rows and than its places ask for. */
  ghost predicate Tight(ids: seq<string>, levels: map<string, nat>, r: Drawing) {
    || r.height == 450.0
    || (exists k :: 0 <= k < |ids| && ids[k] in levels && r.height == (levels[ids[k]] + 1) as real * 125.0 + 55.0)
    || exists id :: id in r.positions && r.height == r.positions[id].y + 65.0
  }

  lemma LowestRow(ids: seq<string>, levels: map<string, nat>, groups: map<nat, seq<string>>, lowest: nat)
    requires forall l :: l in groups ==> groups[l] == Row(ids, levels, l, |ids|) != []
    requires lowest == 0 || lowest in groups
    ensures lowest == 0 || exists k :: 0 <= k < |ids| && ids[k] in levels && levels[ids[k]] == lowest
  {
    if lowest != 0 {
      var k := RowAt(ids, levels, lowest, |ids|, 0);
    }
  }

  /** The least coordinates. */
  ghost predicate OnCanvas(positions: map<string, Point>) {
    forall id :: id in positions ==> positions[id].x >= 90.0 && positions[id].y >= 45.0
  }

  lemma SpotsAreOnCanvas(ids: seq<string>, levels: map<string, nat>, width: real, spots: map<string, Point>)
    requires forall i :: 0 <= i < |ids| ==> ids[i] in levels
    requires Roomy(ids, levels, width)
    requires forall id :: id in spots <==> id in ids
    requires forall k :: 0 <= k < |ids| ==> spots[ids[k]] == Spot(ids, levels, width, k)
    ensures OnCanvas(spots)
  {
    hide Roomy, Spot;
    forall id | id in spots
      ensures spots[id].x >= 90.0 && spots[id].y >= 45.0
    {
      var k :| 0 <= k < |ids| && ids[k] == id;
      SpotsAreInside(ids, levels, width, k);
    }
  }

  /** Every place before the canvas is drawn around them. */
  method Place(d: Doc, manual: Manual, levels: map<string, nat>, groups: map<nat, seq<string>>, width: real)
      returns (positions: map<string, Point>)
    requires forall l :: l in groups ==> groups[l] == Row(d.ids, levels, l, |d.ids|)
    requires forall i :: 0 <= i < |d.ids| ==> d.ids[i] in levels && levels[d.ids[i]] in groups
    requires Roomy(d.ids, levels, width)
    ensures Positioned(d, manual, levels, width, positions) && OnCanvas(positions)
    ensures d.nodes.Keys <= positions.Keys <= Names(d)
  {
    hide Roomy, Row, Spot, Placed;
    var spots := PlaceRows(d.ids, levels, width, groups);
    SpotsAreOnCanvas(d.ids, levels, width, spots);
    positions := MoveByHand(d, spots, manual);
  }

  // ---------------------------------------------------------------- the lines between the places

  /** The branches of a node whose targets are shown, in their order. */
  function DrawnFrom(id: string, targets: seq<string>, shown: set<string>): seq<(string, string)> {
    if targets == [] then []
    else (if targets[0] in shown then [(id, targets[0])] else []) + DrawnFrom(id, targets[1..], shown)
  }

  /** The lines out of the listed nodes. */
  function Drawn(d: Doc, shown: set<string>, ids: seq<string>): seq<(string, string)> {
    if ids == [] then [] else DrawnFrom(ids[0], Targets(d, ids[0]), shown) + Drawn(d, shown, ids[1..])
  }

  lemma {:induction false} DrawnFromShown(id: string, targets: seq<string>, shown: set<string>, a: string, b: string)
    ensures (a, b) in DrawnFrom(id, targets, shown) <==> a == id && b in targets && b in shown
  {
    if targets == [] {
    } else {
      DrawnFromShown(id, targets[1..], shown, a, b);
    }
  }

  lemma {:induction false} DrawnShown(d: Doc, shown: set<string>, ids: seq<string>, a: string, b: string)
    ensures (a, b) in Drawn(d, shown, ids) <==> a in ids && b in Targets(d, a) && b in shown
  {
    hide Targets, DrawnFrom;
    if ids == [] {
    } else {
      DrawnFromShown(ids[0], Targets(d, ids[0]), shown, a, b);
      DrawnShown(d, shown, ids[1..], a, b);
    }
  }

  /** What is drawn is what a walk follows: a line for every edge out of a node. Only branches to a node without a name
      are drawn and not followed. */
  lemma {:induction false} LinesAreEdges(d: Doc, a: string, b: string)
    ensures (a, b) in Drawn(d, Names(d), d.ids)
       <==> a in d.nodes && (Edge(FlowGraph(d), a, b) || (b == "" && "" in d.nodes && "" in Targets(d, a)))
  {
    hide Drawn, Targets;
    DrawnShown(d, Names(d), d.ids, a, b);
    FlowEdge(d, a, b);
  }

  /** The whole layout; `levels` and `width` are the levels and the width the automatic places were computed with. */
  method LayoutIVR(d: Doc, manual: Manual) returns (r: Drawing, ghost levels: map<string, nat>, ghost width: real)
    ensures Ranked(d, levels) && Roomy(d.ids, levels, width)
    ensures (forall i :: 0 <= i < |d.ids| ==> d.ids[i] in levels) && Positioned(d, manual, levels, width, r.positions)
    ensures forall id :: id in r.positions ==>
      90.0 <= r.positions[id].x <= r.width - 100.0 && 45.0 <= r.positions[id].y <= r.height - 65.0
    ensures r.width >= width >= 580.0 && r.height >= 450.0 && Snug(d.ids, levels, width)
    ensures r.width == width || exists id :: id in r.positions && r.width == r.positions[id].x + 100.0
    ensures forall i :: 0 <= i < |d.ids| ==> r.height >= (levels[d.ids[i]] + 1) as real * 125.0 + 55.0
    ensures Tight(d.ids, levels, r)
    ensures r.edges == Drawn(d, Names(d), d.ids)
  {
    hide Ranked, Roomy, Row, Positioned, Snug, Drawn, Placed;
    var ranks := Rank(d);
    RankedNodes(d, ranks);
    levels := ranks;
    var groups := Group(d.ids, ranks);
    var longest := Longest(groups);
    var base := Larger(580.0, longest as real * 210.0 + 40.0);
    width := base;
    RowsFit(d.ids, ranks, groups, longest, base);
    RowsAreSnug(d.ids, ranks, groups, longest);
    var positions := Place(d, manual, ranks, groups, base);
    var lowest := Lowest(groups);
    var w, h := Surround(base, Larger(450.0, (lowest + 1) as real * 125.0 + 55.0), positions);
    LowestRow(d.ids, ranks, groups, lowest);
    assert positions.Keys + d.inherited.Keys == Names(d);
    r := Drawing(w, h, positions, Drawn(d, positions.Keys + d.inherited.Keys, d.ids));
  }

  /** Without hand-placed nodes, no two nodes come closer than 210 across or 125 down. */
  lemma AutomaticLayoutIsClear(d: Doc, levels: map<string, nat>, width: real, positions: map<string, Point>,
      j: nat, k: nat)
    requires forall i :: 0 <= i < |d.ids| ==> d.ids[i] in levels
    requires Positioned(d, [], levels, width, positions) && j < k < |d.ids|
    ensures var a := positions[d.ids[j]]; var b := positions[d.ids[k]];
      b.x - a.x >= 210.0 || a.x - b.x >= 210.0 || b.y - a.y >= 125.0 || a.y - b.y >= 125.0
  {
    SpotsAreApart(d.ids, levels, width, j, k);
  }
}
