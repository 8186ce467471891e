/** Building, sorting and flattening the category tree in place (srv/category_tree.go). */
module CategoryNodes {
  import opened Options
  import opened Sequences
  import opened Tables
  import opened CategoryTree

  class CategoryNode {
    const id: int
    const category: Category
    var children: seq<CategoryNode>
    var depth: nat

    constructor (id: int, category: Category)
      ensures this.id == id && this.category == category && children == [] && depth == 0
    {
      this.id, this.category, children, depth := id, category, [], 0;
    }
  }

  type Nodes = map<int, CategoryNode>

  /** The rows by id; of rows with the same id the last one counts. */
  function ById(rows: seq<(int, Category)>): Categories {
    if rows == [] then map[]
    else var (id, category) := rows[|rows| - 1]; ById(rows[..|rows| - 1])[id := category]
  }

  function IdsOf(list: seq<CategoryNode>): (ids: seq<int>)
    ensures |ids| == |list| && forall i | 0 <= i < |list| :: ids[i] == list[i].id
  {
    Map(list, (n: CategoryNode) => n.id)
  }

  ghost predicate NodesOf(cats: Categories, nodes: Nodes) {
    nodes.Keys == cats.Keys && forall k | k in nodes :: nodes[k].id == k && nodes[k].category == cats[k]
  }

  ghost predicate Within(nodes: Nodes, list: seq<CategoryNode>) {
    forall i | 0 <= i < |list| :: list[i].id in nodes && nodes[list[i].id] == list[i]
  }

  ghost function Kids(nodes: Nodes): map<int, seq<int>>
    reads set k | k in nodes :: nodes[k]`children
  {
    map k | k in nodes :: IdsOf(nodes[k].children)
  }

  ghost predicate ChildrenWithin(nodes: Nodes)
    reads set k | k in nodes :: nodes[k]`children
  {
    forall k | k in nodes :: Within(nodes, nodes[k].children)
  }

  /** Every child is one of the nodes, and the child lists are those of the parent links. */
  ghost predicate Linked(cats: Categories, nodes: Nodes)
    reads set k | k in nodes :: nodes[k]`children
  {
    NodesOf(cats, nodes) && ChildrenWithin(nodes) && Lists(cats, Kids(nodes))
  }

  // ----- Building

  /** The child lists once the nodes `done` have been linked. */
  ghost predicate PartLists(cats: Categories, done: set<int>, kids: map<int, seq<int>>) {
    && kids.Keys == cats.Keys
    && forall p | p in kids ::
         NoRepeats(kids[p]) && forall x :: x in kids[p] <==> x in done && Parent(cats, x) == Some(p)
  }

  ghost predicate PartRoots(cats: Categories, done: set<int>, roots: seq<int>) {
    NoRepeats(roots) && forall x :: x in roots <==> x in done && IsRoot(cats, x)
  }

  lemma LinkChild(cats: Categories, done: set<int>, kids: map<int, seq<int>>, roots: seq<int>, id: int, p: int)
    requires PartLists(cats, done, kids) && PartRoots(cats, done, roots)
    requires id !in done && Parent(cats, id) == Some(p) && p in kids
    ensures PartLists(cats, done + {id}, kids[p := kids[p] + [id]]) && PartRoots(cats, done + {id}, roots)
  {
    var next := kids[p := kids[p] + [id]];
    assert id !in kids[p];
    forall q | q in next
      ensures NoRepeats(next[q]) && forall x :: x in next[q] <==> x in done + {id} && Parent(cats, x) == Some(q)
    {
      assert q in kids;
    }
  }

  lemma LinkRoot(cats: Categories, done: set<int>, kids: map<int, seq<int>>, roots: seq<int>, id: int)
    requires PartLists(cats, done, kids) && PartRoots(cats, done, roots)
    requires id !in done && IsRoot(cats, id)
    ensures PartLists(cats, done + {id}, kids) && PartRoots(cats, done + {id}, roots + [id])
  {
    assert id !in roots;
  }

  /** Any element: Go's map iteration order is not specified. */
  method Pick<T>(s: set<T>) returns (x: T)
    requires s != {}
    ensures x in s
  {
    x :| x in s;
  }

  method MakeNodes(rows: seq<(int, Category)>) returns (nodes: Nodes)
    ensures forall k | k in nodes :: fresh(nodes[k]) && nodes[k].children == [] && nodes[k].depth == 0
    ensures NodesOf(ById(rows), nodes) && ChildrenWithin(nodes) && PartLists(ById(rows), {}, Kids(nodes))
  {
    nodes := map[];
    for i := 0 to |rows|
      invariant NodesOf(ById(rows[..i]), nodes)
      invariant forall k | k in nodes :: fresh(nodes[k]) && nodes[k].children == [] && nodes[k].depth == 0
    {
      assert rows[..i + 1][..i] == rows[..i];
      var node := new CategoryNode(rows[i].0, rows[i].1);
      nodes := nodes[rows[i].0 := node];
    }
    assert rows[..|rows|] == rows;
    NothingLinked(ById(rows), nodes);
  }

  lemma OtherNodes(cats: Categories, nodes: Nodes, node: CategoryNode)
    requires NodesOf(cats, nodes) && node.id in nodes && nodes[node.id] == node
    ensures forall k | k in nodes :: nodes[k] == node <==> k == node.id
  {
  }

  /** Replacing one node's children changes that entry of the child lists and no other. */
  method SetChildren(ghost cats: Categories, ghost nodes: Nodes, node: CategoryNode, children: seq<CategoryNode>)
    requires NodesOf(cats, nodes) && ChildrenWithin(nodes) && node.id in nodes && nodes[node.id] == node
    requires Within(nodes, children)
    modifies node`children
    ensures ChildrenWithin(nodes) && Kids(nodes) == old(Kids(nodes))[node.id := IdsOf(children)]
    ensures node.children == children
  {
    OtherNodes(cats, nodes, node);
    hide NodesOf, Within, IdsOf;
    node.children := children;
    forall k | k in nodes ensures Kids(nodes)[k] == if k == node.id then IdsOf(children) else old(Kids(nodes))[k] {
      assert nodes[k] == node <==> k == node.id;
    }
  }

  lemma WithinOne(nodes: Nodes, list: seq<CategoryNode>, node: CategoryNode)
    requires Within(nodes, list) && node.id in nodes && nodes[node.id] == node
    ensures Within(nodes, [node]) && Within(nodes, list + [node]) && IdsOf(list + [node]) == IdsOf(list) + [node.id]
  {
  }

  lemma LinkedParent(cats: Categories, nodes: Nodes, id: int)
    requires NodesOf(cats, nodes) && id in nodes
    ensures var parent := nodes[id].category.parent;
      nodes[id].id == id &&
      if parent.None? || parent.value !in nodes then IsRoot(cats, id)
      else Parent(cats, id) == parent && nodes[parent.value].id == parent.value
  {
  }

  method LinkNode(ghost cats: Categories, nodes: Nodes, ghost done: set<int>, roots: seq<CategoryNode>, id: int)
    returns (next: seq<CategoryNode>)
    requires NodesOf(cats, nodes) && ChildrenWithin(nodes) && Within(nodes, roots) && id in nodes && id !in done
    requires PartLists(cats, done, Kids(nodes)) && PartRoots(cats, done, IdsOf(roots))
    modifies set k | k in nodes :: nodes[k]`children
    ensures ChildrenWithin(nodes) && Within(nodes, next)
    ensures PartLists(cats, done + {id}, Kids(nodes)) && PartRoots(cats, done + {id}, IdsOf(next))
  {
    var node := nodes[id];
    ghost var kids, ids := Kids(nodes), IdsOf(roots);
    LinkedParent(cats, nodes, id);
    hide NodesOf, Within, PartLists, PartRoots, Parent, IsRoot;
    if node.category.parent.None? || node.category.parent.value !in nodes {
      LinkRoot(cats, done, kids, ids, id);
      WithinOne(nodes, roots, node);
      next := roots + [node];
    } else {
      var parent := nodes[node.category.parent.value];
      LinkChild(cats, done, kids, ids, id, parent.id);
      WithinOne(nodes, parent.children, node);
      SetChildren(cats, nodes, parent, parent.children + [node]);
      next := roots;
    }
  }

  lemma NothingLinked(cats: Categories, nodes: Nodes)
    requires NodesOf(cats, nodes) && forall k | k in nodes :: nodes[k].children == []
    ensures ChildrenWithin(nodes) && PartLists(cats, {}, Kids(nodes))
  {
  }

  lemma NoRootsYet(cats: Categories, nodes: Nodes)
    ensures Within(nodes, []) && PartRoots(cats, {}, IdsOf([]))
  {
  }

  method LinkNodes(ghost cats: Categories, nodes: Nodes) returns (roots: seq<CategoryNode>)
    requires NodesOf(cats, nodes) && ChildrenWithin(nodes) && PartLists(cats, {}, Kids(nodes))
    modifies set k | k in nodes :: nodes[k]`children
    ensures Linked(cats, nodes) && Within(nodes, roots) && ListsRoots(cats, IdsOf(roots))
  {
    hide *;
    NoRootsYet(cats, nodes);
    roots := [];
    var todo := nodes.Keys;
    ghost var done: set<int> := {};
    while todo != {}
      invariant todo + done == nodes.Keys && todo !! done && ChildrenWithin(nodes) && Within(nodes, roots)
      invariant PartLists(cats, done, Kids(nodes)) && PartRoots(cats, done, IdsOf(roots))
      decreases |todo|
    {
      var id := Pick(todo);
      roots := LinkNode(cats, nodes, done, roots, id);
      todo, done := todo - {id}, done + {id};
    }
    AllLinked(cats, nodes, done, roots);
  }

  lemma AllLinked(cats: Categories, nodes: Nodes, done: set<int>, roots: seq<CategoryNode>)
    requires NodesOf(cats, nodes) && ChildrenWithin(nodes) && done == nodes.Keys
    requires PartLists(cats, done, Kids(nodes)) && PartRoots(cats, done, IdsOf(roots))
    ensures Linked(cats, nodes) && ListsRoots(cats, IdsOf(roots))
  {
    var kids := Kids(nodes);
    forall p | p in kids ensures forall x :: x in kids[p] <==> Parent(cats, x) == Some(p) {
      forall x ensures Parent(cats, x) == Some(p) ==> x in done {
      }
    }
  }

  // ----- Sorting

  predicate Precedes(a: CategoryNode, b: CategoryNode) {
    !KeyLess(b.category, a.category)
  }

  lemma PrecedesOrder(a: CategoryNode, b: CategoryNode, c: CategoryNode)
    ensures Precedes(a, b) || Precedes(b, a)
    ensures Precedes(a, b) && Precedes(b, c) ==> Precedes(a, c)
  {
    hide KeyLess, SameKey;
    KeyOrder(a.category, b.category, c.category);
  }

  /** Places before `i` are settled: nothing after them belongs before them. */
  predicate Settled(s: seq<CategoryNode>, i: nat) {
    forall a, b | 0 <= a < b < |s| && a < i :: Precedes(s[a], s[b])
  }

  predicate LeastSoFar(s: seq<CategoryNode>, i: nat, j: nat) {
    forall b | i < b < j && b < |s| :: i < |s| && Precedes(s[i], s[b])
  }

  lemma Exchange(s: seq<CategoryNode>, i: nat, j: nat)
    requires i < j < |s| && Settled(s, i) && LeastSoFar(s, i, j) && !Precedes(s[i], s[j])
    ensures Settled(s[i := s[j]][j := s[i]], i) && LeastSoFar(s[i := s[j]][j := s[i]], i, j + 1)
  {
    var t := s[i := s[j]][j := s[i]];
    hide Precedes;
    forall a, b | 0 <= a < b < |t| && a < i ensures Precedes(t[a], t[b]) {
      assert t[a] == s[a] && t[b] == s[if b == i then j else if b == j then i else b];
    }
    forall b | i < b < j + 1 ensures Precedes(t[i], t[b]) {
      PrecedesOrder(s[j], s[i], s[b]);
    }
  }

  predicate SameNodes(s: seq<CategoryNode>, t: seq<CategoryNode>) {
    |s| == |t| && multiset(s) == multiset(t)
  }

  lemma SwapSameNodes(s: seq<CategoryNode>, i: nat, j: nat, t: seq<CategoryNode>)
    requires i < j < |s| && SameNodes(s, t)
    ensures SameNodes(s[i := s[j]][j := s[i]], t)
  {
  }

  /** The exchange sort of one list of siblings, by sort order, then by name. */
  method SortSiblings(list: seq<CategoryNode>) returns (sorted: seq<CategoryNode>)
    ensures SameNodes(sorted, list) && Settled(sorted, |sorted|)
  {
    sorted := list;
    var i := 0;
    while i < |sorted| - 1
      invariant 0 <= i && (sorted != [] ==> i < |sorted|) && SameNodes(sorted, list) && Settled(sorted, i)
      decreases |sorted| - i
    {
      var j := i + 1;
      while j < |sorted|
        invariant i < j <= |sorted| == |list| && SameNodes(sorted, list) && Settled(sorted, i)
        invariant LeastSoFar(sorted, i, j)
      {
        hide KeyLess;
        if KeyLess(sorted[j].category, sorted[i].category) {
          Exchange(sorted, i, j);
          SwapSameNodes(sorted, i, j, list);
          sorted := sorted[i := sorted[j]][j := sorted[i]];
        }
        j := j + 1;
      }
      i := i + 1;
    }
  }

  lemma {:induction false} DistinctCountOnce(list: seq<CategoryNode>, n: CategoryNode)
    requires NoRepeats(IdsOf(list))
    ensures multiset(list)[n] <= 1
  {
    if list != [] {
      assert IdsOf(list)[1..] == IdsOf(list[1..]);
      DistinctCountOnce(list[1..], n);
      assert list == [list[0]] + list[1..];
      forall k | 0 <= k < |list[1..]| ensures list[1..][k] != list[0] {
        assert IdsOf(list)[k + 1] != IdsOf(list)[0];
      }
    }
  }

  lemma TwiceCountsTwo(s: seq<CategoryNode>, a: nat, b: nat)
    requires a < b < |s| && s[a] == s[b]
    ensures multiset(s)[s[a]] >= 2
  {
    assert s == s[..b] + s[b..];
    assert s[..b][a] == s[a] && s[b..][0] == s[a];
    assert s[a] in multiset(s[..b]) && s[a] in multiset(s[b..]);
    assert multiset(s) == multiset(s[..b]) + multiset(s[b..]);
  }

  lemma SortedIds(cats: Categories, nodes: Nodes, list: seq<CategoryNode>, sorted: seq<CategoryNode>)
    requires NodesOf(cats, nodes) && Within(nodes, list) && NoRepeats(IdsOf(list))
    requires SameNodes(sorted, list) && Settled(sorted, |sorted|)
    ensures Within(nodes, sorted) && Rearranges(IdsOf(sorted), IdsOf(list)) && InOrder(cats, IdsOf(sorted))
  {
    hide KeyLess;
    forall n: CategoryNode ensures n in sorted <==> n in list {
      assert n in multiset(sorted) <==> n in multiset(list);
    }
    forall k | 0 <= k < |sorted| ensures sorted[k].id in nodes && nodes[sorted[k].id] == sorted[k] {
      assert sorted[k] in sorted;
    }
    forall a, b | 0 <= a < b < |sorted| ensures sorted[a].id != sorted[b].id {
      DistinctCountOnce(list, sorted[a]);
      if sorted[a] == sorted[b] { TwiceCountsTwo(sorted, a, b); }
    }
    SameIds(sorted, list);
    SameIds(list, sorted);
  }

  lemma SameIds(s: seq<CategoryNode>, t: seq<CategoryNode>)
    requires forall n | n in s :: n in t
    ensures forall x | x in IdsOf(s) :: x in IdsOf(t)
  {
    forall x | x in IdsOf(s) ensures x in IdsOf(t) {
      var k :| 0 <= k < |s| && IdsOf(s)[k] == x;
      assert s[k] in s;
      var m :| 0 <= m < |t| && t[m] == s[k];
      assert IdsOf(t)[m] == x;
    }
  }

  /** `x` is in `ids` or below one of them. */
  ghost predicate HangsFrom(cats: Categories, x: int, ids: seq<int>) {
    exists n: nat :: LeadsInto(cats, x, n, ids)
  }

  lemma HangsFromOne(cats: Categories, kids: map<int, seq<int>>, x: int, id: int)
    requires Lists(cats, kids) && id in cats
    ensures HangsFrom(cats, x, [id]) <==> x == id || HangsFrom(cats, x, kids[id])
  {
    assert id in kids;
    hide Lists, LeadsInto;
    if HangsFrom(cats, x, [id]) {
      var n: nat :| LeadsInto(cats, x, n, [id]);
      LeadsThroughChild(cats, kids, x, n, id);
    }
    if x == id {
      LeadsThroughChild(cats, kids, x, 0, id);
    }
    if HangsFrom(cats, x, kids[id]) {
      var n: nat :| LeadsInto(cats, x, n, kids[id]);
      LeadsThroughChild(cats, kids, x, n + 1, id);
    }
  }

  lemma HangsFromMore(cats: Categories, x: int, ids: seq<int>, i: nat)
    requires i < |ids|
    ensures HangsFrom(cats, x, ids[..i + 1]) <==> HangsFrom(cats, x, ids[..i]) || HangsFrom(cats, x, [ids[i]])
  {
    assert ids[..i + 1] == ids[..i] + [ids[i]];
    if HangsFrom(cats, x, ids[..i + 1]) {
      var n: nat :| LeadsInto(cats, x, n, ids[..i + 1]);
      assert LeadsInto(cats, x, n, ids[..i]) || LeadsInto(cats, x, n, [ids[i]]);
    }
    if HangsFrom(cats, x, ids[..i]) {
      var n: nat :| LeadsInto(cats, x, n, ids[..i]);
      assert LeadsInto(cats, x, n, ids[..i + 1]);
    }
    if HangsFrom(cats, x, [ids[i]]) {
      var n: nat :| LeadsInto(cats, x, n, [ids[i]]);
      assert LeadsInto(cats, x, n, ids[..i + 1]);
    }
  }

  lemma HangsFromSame(cats: Categories, x: int, a: seq<int>, b: seq<int>)
    requires Rearranges(a, b)
    ensures HangsFrom(cats, x, a) <==> HangsFrom(cats, x, b)
  {
    forall n: nat ensures LeadsInto(cats, x, n, a) <==> LeadsInto(cats, x, n, b) {
    }
  }

  /** The lists of everything at or below `ids` are sorted. */
  ghost predicate SortedFrom(cats: Categories, kids: map<int, seq<int>>, ids: seq<int>) {
    forall p | p in kids && HangsFrom(cats, p, ids) :: InOrder(cats, kids[p])
  }

  /** Sorted lists stay sorted. */
  ghost predicate NoneUnsorted(cats: Categories, was: map<int, seq<int>>, kids: map<int, seq<int>>) {
    was.Keys == kids.Keys && forall p | p in kids && InOrder(cats, was[p]) :: InOrder(cats, kids[p])
  }

  lemma ReplaceList(cats: Categories, kids: map<int, seq<int>>, id: int, list: seq<int>)
    requires Lists(cats, kids) && id in cats && Rearranges(list, kids[id]) && InOrder(cats, list)
    ensures Lists(cats, kids[id := list]) && NoneUnsorted(cats, kids, kids[id := list])
  {
  }

  /** A category's subtree is sorted once its children's subtrees and its own list are. */
  lemma SortedSubtree(cats: Categories, was: map<int, seq<int>>, mid: map<int, seq<int>>, id: int, list: seq<int>)
    requires Lists(cats, was) && Lists(cats, mid) && id in cats && NoneUnsorted(cats, was, mid)
    requires SortedFrom(cats, mid, was[id]) && Rearranges(list, was[id]) && InOrder(cats, list)
    ensures Lists(cats, mid[id := list]) && NoneUnsorted(cats, was, mid[id := list])
    ensures SortedFrom(cats, mid[id := list], [id])
  {
    var next := mid[id := list];
    assert Rearranges(list, mid[id]);
    ReplaceList(cats, mid, id, list);
    forall p | p in next && HangsFrom(cats, p, [id]) ensures InOrder(cats, next[p]) {
      HangsFromOne(cats, was, p, id);
    }
  }

  lemma SortedFromMore(cats: Categories, was: map<int, seq<int>>, kids: map<int, seq<int>>, ids: seq<int>, i: nat)
    requires i < |ids| && SortedFrom(cats, was, ids[..i]) && NoneUnsorted(cats, was, kids)
    requires SortedFrom(cats, kids, [ids[i]])
    ensures SortedFrom(cats, kids, ids[..i + 1])
  {
    forall p | p in kids && HangsFrom(cats, p, ids[..i + 1]) ensures InOrder(cats, kids[p]) {
      HangsFromMore(cats, p, ids, i);
    }
  }

  lemma SortedFromNone(cats: Categories, kids: map<int, seq<int>>, ids: seq<int>)
    ensures SortedFrom(cats, kids, ids[..0]) && NoneUnsorted(cats, kids, kids)
  {
  }

  lemma SortedFromSame(cats: Categories, kids: map<int, seq<int>>, a: seq<int>, b: seq<int>)
    requires Rearranges(a, b) && SortedFrom(cats, kids, a[..|a|])
    ensures SortedFrom(cats, kids, b)
  {
    assert a[..|a|] == a;
    forall p | p in kids && HangsFrom(cats, p, b) ensures InOrder(cats, kids[p]) {
      HangsFromSame(cats, p, a, b);
    }
  }

  lemma NoneUnsortedTwice(cats: Categories, a: map<int, seq<int>>, b: map<int, seq<int>>, c: map<int, seq<int>>)
    requires NoneUnsorted(cats, a, b) && NoneUnsorted(cats, b, c)
    ensures NoneUnsorted(cats, a, c)
  {
  }

  /** What a linked node's own children are. */
  lemma ChildrenOf(cats: Categories, nodes: Nodes, node: CategoryNode, d: nat)
    requires Linked(cats, nodes) && Within(nodes, [node]) && AtDepth(cats, node.id, d)
    ensures node.id in cats && node.id in nodes && nodes[node.id] == node
    ensures IdsOf(node.children) == Kids(nodes)[node.id]
    ensures Within(nodes, node.children) && NoRepeats(IdsOf(node.children))
    ensures AllAtDepth(cats, IdsOf(node.children), d + 1) && d < |cats.Keys|
  {
    assert nodes[[node][0].id] == node;
    KidsAreDeeper(cats, Kids(nodes), node.id, d);
  }

  lemma LinkedAgain(cats: Categories, nodes: Nodes, kids: map<int, seq<int>>)
    requires NodesOf(cats, nodes) && ChildrenWithin(nodes) && Kids(nodes) == kids && Lists(cats, kids)
    ensures Linked(cats, nodes)
  {
  }

  lemma LinkedParts(cats: Categories, nodes: Nodes)
    requires Linked(cats, nodes)
    ensures NodesOf(cats, nodes) && ChildrenWithin(nodes) && Lists(cats, Kids(nodes))
  {
  }

  /** A member of a list of nodes at depth `d`. */
  lemma MemberAtDepth(cats: Categories, nodes: Nodes, sorted: seq<CategoryNode>, ids: seq<int>, d: nat, i: nat)
    requires Within(nodes, sorted) && Rearranges(IdsOf(sorted), ids) && AllAtDepth(cats, ids, d) && i < |sorted|
    ensures Within(nodes, [sorted[i]]) && AtDepth(cats, sorted[i].id, d) && d < |cats.Keys|
  {
    assert sorted[i].id == IdsOf(sorted)[i] && IdsOf(sorted)[i] in IdsOf(sorted);
    DepthBound(cats, sorted[i].id, d);
  }

  method SortChildren(ghost cats: Categories, ghost nodes: Nodes, node: CategoryNode, ghost d: nat)
    requires Linked(cats, nodes) && Within(nodes, [node]) && AtDepth(cats, node.id, d)
    modifies set k | k in nodes :: nodes[k]`children
    ensures Linked(cats, nodes)
    ensures SortedFrom(cats, Kids(nodes), [node.id]) && NoneUnsorted(cats, old(Kids(nodes)), Kids(nodes))
    decreases |cats.Keys| - d, 0
  {
    ghost var was := Kids(nodes);
    hide *;
    ChildrenOf(cats, nodes, node, d);
    LinkedParts(cats, nodes);
    var children := SortCategoryNodes(cats, nodes, node.children, d + 1);
    ghost var mid := Kids(nodes);
    LinkedParts(cats, nodes);
    SortedSubtree(cats, was, mid, node.id, IdsOf(children));
    SetChildren(cats, nodes, node, children);
    LinkedAgain(cats, nodes, mid[node.id := IdsOf(children)]);
  }

  /** Sorts a list of siblings, then everything below each of them. Cycles are never reached. */
  method SortCategoryNodes(ghost cats: Categories, ghost nodes: Nodes, list: seq<CategoryNode>, ghost d: nat)
    returns (sorted: seq<CategoryNode>)
    requires Linked(cats, nodes) && Within(nodes, list) && NoRepeats(IdsOf(list)) && AllAtDepth(cats, IdsOf(list), d)
    modifies set k | k in nodes :: nodes[k]`children
    ensures Linked(cats, nodes) && Within(nodes, sorted)
    ensures Rearranges(IdsOf(sorted), IdsOf(list)) && InOrder(cats, IdsOf(sorted))
    ensures SortedFrom(cats, Kids(nodes), IdsOf(list)) && NoneUnsorted(cats, old(Kids(nodes)), Kids(nodes))
    decreases |cats.Keys| - d, 1
  {
    sorted := SortSiblings(list);
    hide *;
    LinkedParts(cats, nodes);
    SortedIds(cats, nodes, list, sorted);
    ghost var first := Kids(nodes);
    SortedFromNone(cats, first, IdsOf(sorted));
    for i := 0 to |sorted|
      invariant Linked(cats, nodes)
      invariant SortedFrom(cats, Kids(nodes), IdsOf(sorted)[..i]) && NoneUnsorted(cats, first, Kids(nodes))
    {
      ghost var was := Kids(nodes);
      MemberAtDepth(cats, nodes, sorted, IdsOf(list), d, i);
      SortChildren(cats, nodes, sorted[i], d);
      SortedFromMore(cats, was, Kids(nodes), IdsOf(sorted), i);
      NoneUnsortedTwice(cats, first, was, Kids(nodes));
    }
    SortedFromSame(cats, Kids(nodes), IdsOf(sorted), IdsOf(list));
  }

  // ----- Depths

  ghost function Depths(nodes: Nodes): map<int, nat>
    reads set k | k in nodes :: nodes[k]`depth
  {
    map k | k in nodes :: nodes[k].depth
  }

  /** The stored depths of everything at or below `ids` are the lengths of the parent chains. */
  ghost predicate DepthsFrom(cats: Categories, depths: map<int, nat>, ids: seq<int>) {
    forall x | x in depths && HangsFrom(cats, x, ids) :: AtDepth(cats, x, depths[x])
  }

  /** Right depths stay right. */
  ghost predicate DepthsKept(cats: Categories, was: map<int, nat>, depths: map<int, nat>) {
    was.Keys == depths.Keys && forall x | x in depths && AtDepth(cats, x, was[x]) :: AtDepth(cats, x, depths[x])
  }

  lemma DepthsFromNone(cats: Categories, depths: map<int, nat>, ids: seq<int>)
    ensures DepthsFrom(cats, depths, ids[..0]) && DepthsKept(cats, depths, depths)
  {
  }

  lemma DepthsFromMore(cats: Categories, was: map<int, nat>, depths: map<int, nat>, ids: seq<int>, i: nat)
    requires i < |ids| && DepthsFrom(cats, was, ids[..i]) && DepthsKept(cats, was, depths)
    requires DepthsFrom(cats, depths, [ids[i]])
    ensures DepthsFrom(cats, depths, ids[..i + 1])
  {
    forall x | x in depths && HangsFrom(cats, x, ids[..i + 1]) ensures AtDepth(cats, x, depths[x]) {
      HangsFromMore(cats, x, ids, i);
    }
  }

  lemma DepthsKeptTwice(cats: Categories, a: map<int, nat>, b: map<int, nat>, c: map<int, nat>)
    requires DepthsKept(cats, a, b) && DepthsKept(cats, b, c)
    ensures DepthsKept(cats, a, c)
  {
  }

  lemma DepthSet(cats: Categories, was: map<int, nat>, id: int, d: nat)
    requires AtDepth(cats, id, d) && id in was
    ensures DepthsKept(cats, was, was[id := d])
  {
  }

  /** A subtree's depths are right once its root's and its children's subtrees' are. */
  lemma DepthsOfSubtree(cats: Categories, kids: map<int, seq<int>>, mid: map<int, nat>, depths: map<int, nat>,
                        id: int, d: nat)
    requires Lists(cats, kids) && AtDepth(cats, id, d) && id in cats && id in kids && id in mid && mid[id] == d
    requires DepthsKept(cats, mid, depths) && DepthsFrom(cats, depths, kids[id][..|kids[id]|])
    ensures DepthsFrom(cats, depths, [id])
  {
    assert kids[id][..|kids[id]|] == kids[id];
    forall x | x in depths && HangsFrom(cats, x, [id]) ensures AtDepth(cats, x, depths[x]) {
      HangsFromOne(cats, kids, x, id);
    }
  }

  lemma ChildAtDepth(cats: Categories, nodes: Nodes, list: seq<CategoryNode>, d: nat, i: nat)
    requires Within(nodes, list) && AllAtDepth(cats, IdsOf(list), d) && i < |list|
    ensures Within(nodes, [list[i]]) && AtDepth(cats, list[i].id, d) && d < |cats.Keys|
  {
    assert list[i].id == IdsOf(list)[i] && IdsOf(list)[i] in IdsOf(list);
    DepthBound(cats, list[i].id, d);
  }

  method SetDepth(ghost cats: Categories, ghost nodes: Nodes, node: CategoryNode, depth: nat)
    requires NodesOf(cats, nodes) && node.id in nodes && nodes[node.id] == node
    modifies node`depth
    ensures Depths(nodes) == old(Depths(nodes))[node.id := depth]
  {
    node.depth := depth;
    forall k | k in nodes ensures Depths(nodes)[k] == if k == node.id then depth else old(Depths(nodes))[k] {
      assert nodes[k] == node <==> k == node.id;
    }
  }

  method CalculateDepths(ghost cats: Categories, ghost nodes: Nodes, node: CategoryNode, depth: nat)
    requires Linked(cats, nodes) && Within(nodes, [node]) && AtDepth(cats, node.id, depth)
    modifies set k | k in nodes :: nodes[k]`depth
    ensures DepthsFrom(cats, Depths(nodes), [node.id]) && DepthsKept(cats, old(Depths(nodes)), Depths(nodes))
    decreases |cats.Keys| - depth
  {
    ghost var was := Depths(nodes);
    hide *;
    ChildrenOf(cats, nodes, node, depth);
    LinkedParts(cats, nodes);
    DepthsCover(nodes, node.id);
    DepthSet(cats, was, node.id, depth);
    SetDepth(cats, nodes, node, depth);
    ghost var mid := Depths(nodes);
    DepthsFromNone(cats, mid, IdsOf(node.children));
    for i := 0 to |node.children|
      invariant DepthsFrom(cats, Depths(nodes), IdsOf(node.children)[..i]) && DepthsKept(cats, mid, Depths(nodes))
    {
      ghost var before := Depths(nodes);
      ChildAtDepth(cats, nodes, node.children, depth + 1, i);
      CalculateDepths(cats, nodes, node.children[i], depth + 1);
      DepthsFromMore(cats, before, Depths(nodes), IdsOf(node.children), i);
      DepthsKeptTwice(cats, mid, before, Depths(nodes));
    }
    DepthsKeptTwice(cats, was, mid, Depths(nodes));
    DepthsOfSubtree(cats, Kids(nodes), mid, Depths(nodes), node.id, depth);
  }

  lemma DepthsCover(nodes: Nodes, id: int)
    requires id in nodes
    ensures id in Depths(nodes) && id in Kids(nodes)
  {
  }

  // ----- The tree

  /** What a built tree is: child lists of the parent links, sorted, with depths, from the sorted roots. */
  ghost predicate Built(cats: Categories, nodes: Nodes, roots: seq<CategoryNode>)
    reads set k | k in nodes :: nodes[k]`children
    reads set k | k in nodes :: nodes[k]`depth
  {
    && Linked(cats, nodes) && Within(nodes, roots)
    && ListsRoots(cats, IdsOf(roots)) && InOrder(cats, IdsOf(roots)) && AllAtDepth(cats, IdsOf(roots), 0)
    && SortedFrom(cats, Kids(nodes), IdsOf(roots)) && DepthsFrom(cats, Depths(nodes), IdsOf(roots)[..|roots|])
  }

  lemma RootsAtDepth(cats: Categories, roots: seq<int>)
    requires ListsRoots(cats, roots)
    ensures NoRepeats(roots) && AllAtDepth(cats, roots, 0)
  {
  }

  lemma SortedFromRearranged(cats: Categories, kids: map<int, seq<int>>, a: seq<int>, b: seq<int>)
    requires SortedFrom(cats, kids, a) && Rearranges(b, a)
    ensures SortedFrom(cats, kids, b)
  {
    forall p | p in kids && HangsFrom(cats, p, b) ensures InOrder(cats, kids[p]) {
      HangsFromSame(cats, p, b, a);
    }
  }

  method SetDepths(ghost cats: Categories, ghost nodes: Nodes, roots: seq<CategoryNode>)
    requires Linked(cats, nodes) && Within(nodes, roots) && AllAtDepth(cats, IdsOf(roots), 0)
    modifies set k | k in nodes :: nodes[k]`depth
    ensures DepthsFrom(cats, Depths(nodes), IdsOf(roots)[..|roots|])
  {
    hide *;
    DepthsFromNone(cats, Depths(nodes), IdsOf(roots));
    for i := 0 to |roots|
      invariant DepthsFrom(cats, Depths(nodes), IdsOf(roots)[..i])
    {
      ghost var before := Depths(nodes);
      ChildAtDepth(cats, nodes, roots, 0, i);
      CalculateDepths(cats, nodes, roots[i], 0);
      DepthsFromMore(cats, before, Depths(nodes), IdsOf(roots), i);
    }
  }

  method BuildCategoryTree(rows: seq<(int, Category)>) returns (roots: seq<CategoryNode>, ghost nodes: Nodes)
    ensures Built(ById(rows), nodes, roots)
    ensures forall k | k in nodes :: fresh(nodes[k])
  {
    hide *;
    ghost var cats := ById(rows);
    var made := MakeNodes(rows);
    nodes := made;
    var unsorted := LinkNodes(cats, made);
    RootsAtDepth(cats, IdsOf(unsorted));
    roots := SortCategoryNodes(cats, nodes, unsorted, 0);
    RootsRearranged(cats, IdsOf(unsorted), IdsOf(roots));
    SortedFromRearranged(cats, Kids(nodes), IdsOf(unsorted), IdsOf(roots));
    SetDepths(cats, nodes, roots);
    BuiltFrom(cats, nodes, roots);
  }

  lemma BuiltFrom(cats: Categories, nodes: Nodes, roots: seq<CategoryNode>)
    requires Linked(cats, nodes) && Within(nodes, roots)
    requires ListsRoots(cats, IdsOf(roots)) && InOrder(cats, IdsOf(roots)) && AllAtDepth(cats, IdsOf(roots), 0)
    requires SortedFrom(cats, Kids(nodes), IdsOf(roots)) && DepthsFrom(cats, Depths(nodes), IdsOf(roots)[..|roots|])
    ensures Built(cats, nodes, roots)
  {
  }

  // ----- Flattening

  /** What the template shows: ids with depths. */
  ghost function Listing(list: seq<CategoryNode>): (f: seq<(int, nat)>)
    reads list
    ensures |f| == |list| && forall i | 0 <= i < |list| :: f[i] == (list[i].id, list[i].depth)
  {
    seq(|list|, i requires 0 <= i < |list| reads list => (list[i].id, list[i].depth))
  }

  lemma {:induction false} FlatConcat(cats: Categories, kids: map<int, seq<int>>, a: seq<int>, b: seq<int>, d: nat)
    requires Lists(cats, kids) && AllAtDepth(cats, a, d) && AllAtDepth(cats, b, d)
    ensures AllAtDepth(cats, a + b, d) && Flat(cats, kids, a + b, d) == Flat(cats, kids, a, d) + Flat(cats, kids, b, d)
    decreases |a|
  {
    hide Lists, AtDepth;
    assert AllAtDepth(cats, a + b, d);
    if a == [] {
      assert a + b == b;
    } else {
      FlatUnfold(cats, kids, a, d);
      FlatUnfold(cats, kids, a + b, d);
      hide Flat;
      assert (a + b)[1..] == a[1..] + b;
      FlatConcat(cats, kids, a[1..], b, d);
    }
  }

  lemma FlatMore(cats: Categories, kids: map<int, seq<int>>, ids: seq<int>, d: nat, i: nat)
    requires Lists(cats, kids) && AllAtDepth(cats, ids, d) && i < |ids|
    ensures AllAtDepth(cats, ids[..i], d) && AllAtDepth(cats, [ids[i]], d) && AllAtDepth(cats, ids[..i + 1], d)
    ensures Flat(cats, kids, ids[..i + 1], d) == Flat(cats, kids, ids[..i], d) + Flat(cats, kids, [ids[i]], d)
  {
    hide Lists, AtDepth;
    assert AllAtDepth(cats, ids[..i], d) && AllAtDepth(cats, [ids[i]], d);
    assert ids[..i + 1] == ids[..i] + [ids[i]];
    FlatConcat(cats, kids, ids[..i], [ids[i]], d);
  }

  lemma FlatNone(cats: Categories, kids: map<int, seq<int>>, ids: seq<int>, d: nat)
    requires Lists(cats, kids)
    ensures AllAtDepth(cats, ids[..0], d) && Flat(cats, kids, ids[..0], d) == []
  {
  }

  lemma DepthsOfMember(cats: Categories, depths: map<int, nat>, ids: seq<int>, i: nat)
    requires i < |ids| && DepthsFrom(cats, depths, ids)
    ensures DepthsFrom(cats, depths, [ids[i]])
  {
    assert ids[..|ids|] == ids;
    forall x | x in depths && HangsFrom(cats, x, [ids[i]]) ensures AtDepth(cats, x, depths[x]) {
      var n: nat :| LeadsInto(cats, x, n, [ids[i]]);
      assert LeadsInto(cats, x, n, ids);
    }
  }

  lemma DepthsOfChildren(cats: Categories, kids: map<int, seq<int>>, depths: map<int, nat>, id: int, d: nat)
    requires Lists(cats, kids) && id in cats && id in depths && AtDepth(cats, id, d) && DepthsFrom(cats, depths, [id])
    ensures id in kids && DepthsFrom(cats, depths, kids[id]) && depths[id] == d
  {
    assert id in kids;
    hide Lists, AtDepth, InOrder;
    HangsFromOne(cats, kids, id, id);
    DepthIsUnique(cats, id, d, depths[id]);
    forall x | x in depths && HangsFrom(cats, x, kids[id]) ensures AtDepth(cats, x, depths[x]) {
      HangsFromOne(cats, kids, x, id);
    }
  }

  lemma ListingMore(nodes: Nodes, list: seq<CategoryNode>, node: CategoryNode, d: nat)
    requires Within(nodes, list) && node.id in nodes && nodes[node.id] == node && Depths(nodes)[node.id] == d
    ensures Within(nodes, list + [node]) && Listing(list + [node]) == Listing(list) + [(node.id, d)]
  {
  }

  method FlattenNode(ghost cats: Categories, ghost nodes: Nodes, node: CategoryNode, ghost d: nat,
                     list: seq<CategoryNode>)
    returns (result: seq<CategoryNode>)
    requires Linked(cats, nodes) && Within(nodes, [node]) && AtDepth(cats, node.id, d) && Within(nodes, list)
    requires DepthsFrom(cats, Depths(nodes), [node.id])
    ensures AllAtDepth(cats, [node.id], d) && Within(nodes, result)
    ensures Listing(result) == Listing(list) + Flat(cats, Kids(nodes), [node.id], d)
    decreases |cats.Keys| - d
  {
    hide *;
    ChildrenOf(cats, nodes, node, d);
    LinkedParts(cats, nodes);
    DepthsCover(nodes, node.id);
    ghost var kids, ids := Kids(nodes), IdsOf(node.children);
    DepthsOfChildren(cats, kids, Depths(nodes), node.id, d);
    ListingMore(nodes, list, node, d);
    result := list + [node];
    ghost var start := Listing(result);
    FlatNone(cats, kids, ids, d + 1);
    for i := 0 to |node.children|
      invariant Within(nodes, result) && AllAtDepth(cats, ids[..i], d + 1)
      invariant Listing(result) == start + Flat(cats, kids, ids[..i], d + 1)
    {
      ChildAtDepth(cats, nodes, node.children, d + 1, i);
      DepthsOfMember(cats, Depths(nodes), ids, i);
      FlatMore(cats, kids, ids, d + 1, i);
      result := FlattenNode(cats, nodes, node.children[i], d + 1, result);
    }
    assert ids[..|ids|] == ids;
    FlatOne(cats, kids, node.id, d);
  }

  lemma BuiltParts(cats: Categories, nodes: Nodes, roots: seq<CategoryNode>)
    requires Built(cats, nodes, roots)
    ensures Linked(cats, nodes) && Within(nodes, roots) && Lists(cats, Kids(nodes))
    ensures ListsRoots(cats, IdsOf(roots)) && InOrder(cats, IdsOf(roots)) && AllAtDepth(cats, IdsOf(roots), 0)
    ensures DepthsFrom(cats, Depths(nodes), IdsOf(roots)) && SortedLists(cats, Kids(nodes))
  {
    assert IdsOf(roots)[..|roots|] == IdsOf(roots);
    var kids := Kids(nodes);
    forall p, d: nat | AtDepth(cats, p, d) ensures InOrder(cats, kids[p]) {
      UpFromTop(cats, p, d);
      UpFromTop(cats, p, 0);
      assert LeadsInto(cats, p, d, IdsOf(roots));
      assert HangsFrom(cats, p, IdsOf(roots));
    }
  }

  /** The display order: exactly the categories whose chain ends, each once, in preorder, siblings sorted. */
  method FlattenCategoryTree(ghost cats: Categories, ghost nodes: Nodes, roots: seq<CategoryNode>)
    returns (result: seq<CategoryNode>)
    requires Built(cats, nodes, roots)
    ensures Displays(cats, Listing(result)) && Within(nodes, result)
  {
    hide *;
    BuiltParts(cats, nodes, roots);
    ghost var kids, ids := Kids(nodes), IdsOf(roots);
    result := [];
    NothingListed(nodes);
    FlatNone(cats, kids, ids, 0);
    for i := 0 to |roots|
      invariant Within(nodes, result) && AllAtDepth(cats, ids[..i], 0)
      invariant Listing(result) == Flat(cats, kids, ids[..i], 0)
    {
      ChildAtDepth(cats, nodes, roots, 0, i);
      DepthsOfMember(cats, Depths(nodes), ids, i);
      FlatMore(cats, kids, ids, 0, i);
      result := FlattenNode(cats, nodes, roots[i], 0, result);
    }
    assert ids[..|ids|] == ids;
    FlatDisplays(cats, kids, ids);
  }

  lemma NothingListed(nodes: Nodes)
    ensures Within(nodes, []) && Listing([]) == []
  {
  }

  /** From the user's rows to the list the page shows. */
  method DisplayCategories(rows: seq<(int, Category)>) returns (shown: seq<CategoryNode>)
    ensures Displays(ById(rows), Listing(shown))
    ensures forall n | n in shown :: n.id in ById(rows) && n.category == ById(rows)[n.id]
  {
    var roots, nodes := BuildCategoryTree(rows);
    shown := FlattenCategoryTree(ById(rows), nodes, roots);
    hide Displays;
    assert NodesOf(ById(rows), nodes);
  }
}
