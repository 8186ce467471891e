/** The waterfall-depth metric of cmd/lint-modules: breadth-first search over the
    import graph. A module without an entry in the graph imports nothing. */
module ModuleDepth {
  type Graph = map<string, seq<string>>

  datatype Entry = Entry(name: string, depth: nat)

  function Imports(g: Graph, name: string): seq<string> {
    if name in g then g[name] else []
  }

  /** There is an import chain of exactly `k` edges from `root` to `name`. */
  ghost predicate Chain(g: Graph, root: string, name: string, k: nat)
    decreases k
  {
    if k == 0 then name == root
    else exists via :: Chain(g, root, via, k - 1) && name in Imports(g, via)
  }

  /** The shortest import chain from `root` to `name` has `k` edges. */
  ghost predicate Distance(g: Graph, root: string, name: string, k: nat) {
    Chain(g, root, name, k) && forall j: nat | j < k :: !Chain(g, root, name, j)
  }

  ghost predicate Levels(g: Graph, root: string, level: map<string, nat>) {
    root in level && forall m | m in level :: Distance(g, root, m, level[m])
  }

  /** Modules above level `d` have had their imports visited. */
  ghost predicate ExpandedAbove(g: Graph, level: map<string, nat>, d: nat) {
    forall m, dep | m in level && level[m] < d && dep in Imports(g, m) :: dep in level
  }

  /** The queue lists visited modules level by level, none above level `d`, none more than one below it. */
  ghost predicate Frontier(level: map<string, nat>, queue: seq<Entry>, d: nat) {
    && (forall e | e in queue :: e.name in level && level[e.name] == e.depth && d <= e.depth <= d + 1)
    && (forall i, j | 0 <= i < j < |queue| :: queue[i].depth <= queue[j].depth)
  }

  /** A visited module that is neither queued nor exempt has had its imports visited. */
  ghost predicate Expanded(g: Graph, level: map<string, nat>, queue: seq<Entry>, exempt: string, d: nat) {
    forall m | m in level :: m == exempt || Queued(queue, m) ||
                             (level[m] <= d && forall dep | dep in Imports(g, m) :: dep in level)
  }

  ghost predicate Queued(queue: seq<Entry>, m: string) {
    exists i :: 0 <= i < |queue| && queue[i].name == m
  }

  /** Once every visited module above level `d` has had its imports visited, every
      chain of at most `d` edges ends in a visited module. */
  lemma {:induction false} ShortChainsAreVisited(g: Graph, root: string, level: map<string, nat>, d: nat,
                                                 name: string, k: nat)
    requires Levels(g, root, level) && ExpandedAbove(g, level, d)
    requires Chain(g, root, name, k) && k <= d
    ensures name in level
    decreases k
  {
    if k != 0 {
      var via :| Chain(g, root, via, k - 1) && name in Imports(g, via);
      ShortChainsAreVisited(g, root, level, d, via, k - 1);
      assert level[via] <= k - 1;
    }
  }

  /** An unvisited import of a module on the current level lies one level further down. */
  lemma NewModuleIsOneFurther(g: Graph, root: string, level: map<string, nat>, via: string, name: string)
    requires Levels(g, root, level)
    requires via in level && name in Imports(g, via) && name !in level
    requires ExpandedAbove(g, level, level[via])
    ensures Distance(g, root, name, level[via] + 1)
  {
    forall j: nat | j <= level[via]
      ensures !Chain(g, root, name, j)
    {
      if Chain(g, root, name, j) {
        ShortChainsAreVisited(g, root, level, level[via], name, j);
      }
    }
  }

  /** Queueing a newly found import one level down keeps the search state. */
  lemma Enqueue(g: Graph, root: string, level: map<string, nat>, queue: seq<Entry>, e: Entry, name: string)
    requires Levels(g, root, level) && e.name in level && level[e.name] == e.depth
    requires Frontier(level, queue, e.depth) && Expanded(g, level, queue, e.name, e.depth)
    requires name in Imports(g, e.name) && name !in level
    ensures Levels(g, root, level[name := e.depth + 1])
    ensures Frontier(level[name := e.depth + 1], queue + [Entry(name, e.depth + 1)], e.depth)
    ensures Expanded(g, level[name := e.depth + 1], queue + [Entry(name, e.depth + 1)], e.name, e.depth)
  {
    hide *;
    ExpandedSoFar(g, level, queue, e);
    FrontierGrows(level, queue, e.depth, name);
    ExpandedStays(g, level, queue, e, name);
    NewModuleIsOneFurther(g, root, level, e.name, name);
    LevelsGrow(g, root, level, name, e.depth + 1);
  }

  lemma ExpandedSoFar(g: Graph, level: map<string, nat>, queue: seq<Entry>, e: Entry)
    requires Frontier(level, queue, e.depth) && Expanded(g, level, queue, e.name, e.depth)
    requires e.name in level && level[e.name] == e.depth
    ensures ExpandedAbove(g, level, e.depth)
  {
    forall m, dep | m in level && level[m] < e.depth && dep in Imports(g, m)
      ensures dep in level
    {
      assert m != e.name;
    }
  }

  lemma LevelsGrow(g: Graph, root: string, level: map<string, nat>, name: string, k: nat)
    requires Levels(g, root, level) && name !in level && Distance(g, root, name, k)
    ensures Levels(g, root, level[name := k])
  {
    hide Distance;
  }

  lemma FrontierGrows(level: map<string, nat>, queue: seq<Entry>, d: nat, name: string)
    requires Frontier(level, queue, d) && name !in level
    ensures Frontier(level[name := d + 1], queue + [Entry(name, d + 1)], d)
  {
  }

  lemma QueuedStays(queue: seq<Entry>, added: Entry, m: string)
    ensures Queued(queue + [added], m) <==> Queued(queue, m) || m == added.name
  {
    var longer := queue + [added];
    assert longer[|queue|] == added;
    assert forall j | 0 <= j < |queue| :: longer[j] == queue[j];
  }

  lemma ExpandedStays(g: Graph, level: map<string, nat>, queue: seq<Entry>, e: Entry, name: string)
    requires Expanded(g, level, queue, e.name, e.depth) && name !in level
    ensures Expanded(g, level[name := e.depth + 1], queue + [Entry(name, e.depth + 1)], e.name, e.depth)
  {
    var level', queue' := level[name := e.depth + 1], queue + [Entry(name, e.depth + 1)];
    hide Imports, Queued;
    forall m | m in level'
      ensures || m == e.name || Queued(queue', m)
              || (level'[m] <= e.depth && forall dep | dep in Imports(g, m) :: dep in level')
    {
      QueuedStays(queue, Entry(name, e.depth + 1), m);
    }
  }

  /** Taking the head off the queue leaves only its imports to be visited. */
  lemma Dequeue(g: Graph, level: map<string, nat>, queue: seq<Entry>, d: nat)
    requires queue != [] && Frontier(level, queue, queue[0].depth) && d <= queue[0].depth
    requires AllExpanded(g, level, queue, d)
    ensures Frontier(level, queue[1..], queue[0].depth)
    ensures Expanded(g, level, queue[1..], queue[0].name, queue[0].depth)
    ensures queue[0].name in level && level[queue[0].name] == queue[0].depth
  {
    assert queue[0] in queue;
    forall m | m in level && m != queue[0].name && Queued(queue, m)
      ensures Queued(queue[1..], m)
    {
      var j :| 0 <= j < |queue| && queue[j].name == m;
      assert queue[1..][j - 1].name == m;
    }
  }

  /** The frontier seen from the new head of the queue. */
  lemma Refocus(level: map<string, nat>, queue: seq<Entry>, d: nat)
    requires queue != [] && Frontier(level, queue, d)
    ensures d <= queue[0].depth && Frontier(level, queue, queue[0].depth)
  {
    assert queue[0] in queue;
  }

  /** Every module name the search can come across. */
  ghost function Universe(g: Graph, root: string): (names: set<string>)
    ensures root in names
    ensures forall m, dep | dep in Imports(g, m) :: dep in names
  {
    {root} + set m, i | m in g && 0 <= i < |g[m]| :: g[m][i]
  }

  /** Every visited module that is not queued has had its imports visited. */
  ghost predicate AllExpanded(g: Graph, level: map<string, nat>, queue: seq<Entry>, d: nat) {
    forall m | m in level :: Queued(queue, m) ||
                             (level[m] <= d && forall dep | dep in Imports(g, m) :: dep in level)
  }

  /** Once the imports of the exempt module are visited as well, nothing is exempt. */
  lemma FinishExpansion(g: Graph, level: map<string, nat>, queue: seq<Entry>, e: Entry)
    requires e.name in level && level[e.name] == e.depth
    requires Expanded(g, level, queue, e.name, e.depth)
    requires forall dep | dep in Imports(g, e.name) :: dep in level
    ensures AllExpanded(g, level, queue, e.depth)
  {
  }

  /** The inner loop of maxDepth: queue every import of `e` that was not visited before. */
  method VisitImports(g: Graph, root: string, e: Entry, queue0: seq<Entry>, visited0: set<string>,
                      ghost level0: map<string, nat>)
    returns (queue: seq<Entry>, visited: set<string>, ghost level: map<string, nat>)
    requires level0.Keys == visited0 && Levels(g, root, level0)
    requires e.name in level0 && level0[e.name] == e.depth
    requires Frontier(level0, queue0, e.depth) && Expanded(g, level0, queue0, e.name, e.depth)
    ensures level.Keys == visited && Levels(g, root, level)
    ensures e.name in level && level[e.name] == e.depth
    ensures forall m | m in level0 :: m in level && level[m] == level0[m]
    ensures Frontier(level, queue, e.depth) && AllExpanded(g, level, queue, e.depth)
    ensures visited0 <= visited <= visited0 + set dep | dep in Imports(g, e.name)
    ensures visited == visited0 ==> queue == queue0
  {
    hide *;
    queue, visited, level := queue0, visited0, level0;
    var deps := Imports(g, e.name);
    for i := 0 to |deps|
      invariant level.Keys == visited && Levels(g, root, level)
      invariant e.name in level && level[e.name] == e.depth
      invariant forall m | m in level0 :: m in level && level[m] == level0[m]
      invariant Frontier(level, queue, e.depth) && Expanded(g, level, queue, e.name, e.depth)
      invariant visited0 <= visited <= visited0 + set dep | dep in deps
      invariant visited == visited0 ==> queue == queue0
      invariant forall j | 0 <= j < i :: deps[j] in visited
    {
      if deps[i] !in visited {
        Enqueue(g, root, level, queue, e, deps[i]);
        level := level[deps[i] := e.depth + 1];
        visited := visited + {deps[i]};
        queue := queue + [Entry(deps[i], e.depth + 1)];
      }
    }
    FinishExpansion(g, level, queue, e);
  }

  /** With nothing left to expand, every module the root reaches was visited. */
  lemma SearchIsComplete(g: Graph, root: string, level: map<string, nat>, d: nat)
    requires Levels(g, root, level) && AllExpanded(g, level, [], d)
    ensures forall m, k: nat | Distance(g, root, m, k) :: k <= d
  {
    forall m, k: nat | Distance(g, root, m, k)
      ensures k <= d
    {
      ShortChainsAreVisited(g, root, level, k, m, k);
      assert level[m] == k;
    }
  }

  lemma StartOfSearch(g: Graph, root: string)
    ensures Levels(g, root, map[root := 0]) && Frontier(map[root := 0], [Entry(root, 0)], 0)
    ensures AllExpanded(g, map[root := 0], [Entry(root, 0)], 0)
  {
    assert [Entry(root, 0)][0].name == root;
  }

  lemma LevelIsDistance(g: Graph, root: string, level: map<string, nat>, m: string)
    requires Levels(g, root, level) && m in level
    ensures Distance(g, root, m, level[m])
  {
  }

  /** maxDepth: the largest shortest distance from the root over the modules it can reach. */
  method MaxDepth(root: string, g: Graph) returns (deepest: nat)
    ensures exists m :: Distance(g, root, m, deepest)
    ensures forall m, k: nat | Distance(g, root, m, k) :: k <= deepest
    ensures NoLongerChain(g, root, deepest) <==> exists number :: Numbered(g, root, number, deepest)
  {
    hide *;
    var visited := {root};
    var queue := [Entry(root, 0)];
    deepest := 0;
    ghost var universe := Universe(g, root);
    ghost var level: map<string, nat> := map[root := 0];
    StartOfSearch(g, root);
    ghost var farthest := root;
    while |queue| > 0
      invariant level.Keys == visited <= universe && Levels(g, root, level)
      invariant queue != [] ==> deepest <= queue[0].depth && Frontier(level, queue, queue[0].depth)
      invariant AllExpanded(g, level, queue, deepest)
      invariant farthest in level && level[farthest] == deepest
      decreases universe - visited, |queue|
    {
      var e := queue[0];
      Dequeue(g, level, queue, deepest);
      queue := queue[1..];
      if e.depth > deepest {
        deepest := e.depth;
        farthest := e.name;
      }
      queue, visited, level := VisitImports(g, root, e, queue, visited, level);
      if queue != [] {
        Refocus(level, queue, e.depth);
      }
    }
    SearchIsComplete(g, root, level, deepest);
    LevelIsDistance(g, root, level, farthest);
    NoLongerChainIffNumbered(g, root, deepest);
  }

  /** Whatever a chain reaches has a distance, and no chain is shorter. */
  lemma {:induction false} ReachedModuleHasDistance(g: Graph, root: string, name: string, k: nat) returns (d: nat)
    requires Chain(g, root, name, k)
    ensures d <= k && Distance(g, root, name, d)
    decreases k
  {
    if Distance(g, root, name, k) {
      d := k;
    } else {
      var j: nat :| j < k && Chain(g, root, name, j);
      d := ReachedModuleHasDistance(g, root, name, j);
    }
  }

  /** No module can be reached by chains of different lengths. */
  ghost predicate UniformChains(g: Graph, root: string) {
    forall m, j: nat, k: nat | Distance(g, root, m, k) && Chain(g, root, m, j) :: j == k
  }

  /** Every import made by a reachable module leads exactly one level down. */
  ghost predicate Layered(g: Graph, root: string) {
    forall m, dep, j: nat, k: nat | Distance(g, root, m, j) && dep in Imports(g, m) && Distance(g, root, dep, k) ::
      k == j + 1
  }

  lemma {:induction false} LayeredChain(g: Graph, root: string, m: string, j: nat, k: nat)
    requires Layered(g, root) && Distance(g, root, m, k) && Chain(g, root, m, j)
    ensures j == k
    decreases j
  {
    if j != 0 {
      var via :| Chain(g, root, via, j - 1) && m in Imports(g, via);
      var d := ReachedModuleHasDistance(g, root, via, j - 1);
      LayeredChain(g, root, via, j - 1, d);
    }
  }

  /** The comment on maxDepth promises the longest import chain. Chain length and
      search depth agree module by module exactly when no import skips or climbs a level. */
  lemma DepthIsChainLengthIffLayered(g: Graph, root: string)
    ensures UniformChains(g, root) <==> Layered(g, root)
  {
    if UniformChains(g, root) {
      forall m, dep, j: nat, k: nat | Distance(g, root, m, j) && dep in Imports(g, m) && Distance(g, root, dep, k)
        ensures k == j + 1
      {
        assert Chain(g, root, dep, j + 1);
      }
    }
    if Layered(g, root) {
      forall m, j: nat, k: nat | Distance(g, root, m, k) && Chain(g, root, m, j)
        ensures j == k
      {
        LayeredChain(g, root, m, j, k);
      }
    }
  }

  /** A numbering of modules from 0 to `top`, holding the root, in which every import goes up. */
  ghost predicate Numbered(g: Graph, root: string, number: map<string, nat>, top: nat) {
    && root in number
    && forall m | m in number ::
         number[m] <= top && forall dep | dep in Imports(g, m) :: dep in number && number[m] < number[dep]
  }

  lemma {:induction false} ChainClimbs(g: Graph, root: string, number: map<string, nat>, top: nat, m: string, k: nat)
    requires Numbered(g, root, number, top) && Chain(g, root, m, k)
    ensures m in number && k <= number[m]
    decreases k
  {
    if k != 0 {
      var via :| Chain(g, root, via, k - 1) && m in Imports(g, via);
      ChainClimbs(g, root, number, top, via, k - 1);
    }
  }

  ghost predicate Reaches(g: Graph, root: string, m: string, top: nat) {
    exists k: nat :: k <= top && Chain(g, root, m, k)
  }

  /** Length of the longest chain of at most `top` edges to a module. */
  ghost function Longest(g: Graph, root: string, m: string, top: nat): (j: nat)
    requires Reaches(g, root, m, top)
    ensures j <= top && Chain(g, root, m, j) && forall i: nat | i <= top && Chain(g, root, m, i) :: i <= j
  {
    if Chain(g, root, m, top) then top else Longest(g, root, m, top - 1)
  }

  ghost predicate NoLongerChain(g: Graph, root: string, top: nat) {
    forall m, k: nat | Chain(g, root, m, k) :: k <= top
  }

  lemma ImportGoesUp(g: Graph, root: string, top: nat, m: string, dep: string)
    requires NoLongerChain(g, root, top) && Reaches(g, root, m, top) && dep in Imports(g, m)
    ensures dep in Universe(g, root) && Reaches(g, root, dep, top)
    ensures Longest(g, root, m, top) < Longest(g, root, dep, top)
  {
    var k := Longest(g, root, m, top);
    assert Chain(g, root, dep, k + 1);
    hide Chain, Universe, Longest;
  }

  ghost function ByLongest(g: Graph, root: string, top: nat): (number: map<string, nat>)
    ensures forall m :: m in number <==> m in Universe(g, root) && Reaches(g, root, m, top)
    ensures forall m | m in number :: number[m] == Longest(g, root, m, top)
  {
    map m | m in Universe(g, root) && Reaches(g, root, m, top) :: Longest(g, root, m, top)
  }

  lemma RootReached(g: Graph, root: string, top: nat)
    ensures Reaches(g, root, root, top)
  {
    assert Chain(g, root, root, 0);
  }

  lemma LongestNumbers(g: Graph, root: string, top: nat)
    requires NoLongerChain(g, root, top)
    ensures Numbered(g, root, ByLongest(g, root, top), top)
  {
    RootReached(g, root, top);
    hide Chain, Universe, Longest, Imports, NoLongerChain, Reaches, ByLongest;
    var number := ByLongest(g, root, top);
    forall m, dep | m in number && dep in Imports(g, m)
      ensures dep in number && number[m] < number[dep]
    {
      ImportGoesUp(g, root, top, m, dep);
    }
  }

  /** What the comment means literally: no import chain at all is longer than the search depth
      `top`. That holds if and only if the modules can be numbered from 0 to `top` so that every
      import goes up. Cycles and long detours are what rule it out. */
  lemma NoLongerChainIffNumbered(g: Graph, root: string, top: nat)
    ensures NoLongerChain(g, root, top) <==> exists number :: Numbered(g, root, number, top)
  {
    hide Numbered;
    if number :| Numbered(g, root, number, top) {
      forall m, k: nat | Chain(g, root, m, k) ensures k <= top {
        ChainClimbs(g, root, number, top, m, k);
        NumberIsLow(g, root, number, top, m);
      }
    }
    if NoLongerChain(g, root, top) {
      LongestNumbers(g, root, top);
    }
  }

  lemma NumberIsLow(g: Graph, root: string, number: map<string, nat>, top: nat, m: string)
    requires Numbered(g, root, number, top) && m in number
    ensures number[m] <= top
  {
  }

  const SHORTCUT: Graph := map["app.js" := ["api.js", "views.js"], "api.js" := ["views.js"]]

  /** A two-edge chain in a graph whose search depth is one. */
  lemma SearchDepthMissesLongestChain()
    ensures Chain(SHORTCUT, "app.js", "views.js", 2)
    ensures forall m, k: nat | Distance(SHORTCUT, "app.js", m, k) :: k <= 1
  {
    assert Imports(SHORTCUT, "app.js")[0] == "api.js" && Imports(SHORTCUT, "app.js")[1] == "views.js";
    assert Imports(SHORTCUT, "api.js")[0] == "views.js";
    assert Chain(SHORTCUT, "app.js", "app.js", 0);
    assert Chain(SHORTCUT, "app.js", "api.js", 1);
    var level: map<string, nat> := map["app.js" := 0, "api.js" := 1, "views.js" := 1];
    forall m, k: nat | Chain(SHORTCUT, "app.js", m, k)
      ensures m in level
    {
      ShortcutReaches(m, k);
    }
    assert Chain(SHORTCUT, "app.js", "views.js", 1);
  }

  lemma {:induction false} ShortcutReaches(m: string, k: nat)
    requires Chain(SHORTCUT, "app.js", m, k)
    ensures m in {"app.js", "api.js", "views.js"}
    decreases k
  {
    if k != 0 {
      var via :| Chain(SHORTCUT, "app.js", via, k - 1) && m in Imports(SHORTCUT, via);
      ShortcutReaches(via, k - 1);
    }
  }
}
