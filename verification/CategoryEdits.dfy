/** Moving and reordering categories (srv/server.go:2277-2350), and what the rebuilt tree then shows. */
module CategoryEdits {
  import opened Options
  import opened Sequences
  import opened Sets
  import opened Strings
  import opened Tables
  import opened CategoryTree

  // ----- Moving a category

  /** The user's own rows, which are all the tree is built from. */
  function Mine(table: Categories, user: int): Categories {
    map id | id in table && table[id].owner == Some(user) :: table[id]
  }

  /** The update finds a row of the user, and neither the handler nor the foreign key on parent_id
      refuses it. A parent of another user passes both. */
  predicate TakesEffect(table: Categories, user: int, id: int, parent: Option<int>) {
    && parent != Some(id) && id in table && table[id].owner == Some(user)
    && (parent.None? || parent.value in table)
  }

  function Moved(table: Categories, user: int, id: int, parent: Option<int>, sortOrder: int): Categories {
    if TakesEffect(table, user, id, parent)
    then table[id := table[id].(parent := parent, sortOrder := Some(sortOrder))]
    else table
  }

  lemma ListedIffParentIs(cats: Categories, x: int)
    requires x in cats
    ensures Listed(cats, x) <==> Parent(cats, x).None? || Listed(cats, Parent(cats, x).value)
  {
    if Parent(cats, x).None? {
      assert AtDepth(cats, x, 0);
    } else {
      var p := Parent(cats, x).value;
      if Listed(cats, x) {
        var d: nat :| AtDepth(cats, x, d);
        assert AtDepth(cats, p, d - 1);
      }
      if Listed(cats, p) {
        var d: nat :| AtDepth(cats, p, d);
        assert AtDepth(cats, x, d + 1);
      }
    }
  }

  lemma {:induction false} ListedIffAncestorIs(cats: Categories, x: int, n: nat)
    requires Up(cats, x, n).Some?
    ensures Listed(cats, x) <==> Listed(cats, Up(cats, x, n).value)
    decreases n
  {
    if n != 0 {
      hide Listed;
      ListedIffParentIs(cats, x);
      ListedIffAncestorIs(cats, Parent(cats, x).value, n - 1);
    }
  }

  // ----- Cycles

  ghost predicate OnCycle(cats: Categories, x: int) {
    exists n: nat :: n > 0 && Up(cats, x, n) == Some(x)
  }

  ghost predicate RunsIntoCycle(cats: Categories, x: int) {
    exists y :: Below(cats, x, y) && OnCycle(cats, y)
  }

  ghost predicate Acyclic(cats: Categories) {
    forall x | x in cats :: !OnCycle(cats, x)
  }

  /** A category on its own parent chain never reaches a root. */
  lemma CycleIsNotListed(cats: Categories, x: int)
    requires OnCycle(cats, x)
    ensures !Listed(cats, x)
  {
    var n: nat :| n > 0 && Up(cats, x, n) == Some(x);
    forall d: nat ensures !AtDepth(cats, x, d) {
      if AtDepth(cats, x, d) {
        ChainIsShorter(cats, x, d, n);
        DepthIsUnique(cats, x, d, d - n);
        assert false;
      }
    }
  }

  lemma RunsIntoParentsCycle(cats: Categories, x: int)
    requires Parent(cats, x).Some? && RunsIntoCycle(cats, Parent(cats, x).value)
    ensures RunsIntoCycle(cats, x)
  {
    hide Below, OnCycle;
    var y :| Below(cats, Parent(cats, x).value, y) && OnCycle(cats, y);
    BelowParent(cats, x, y);
  }

  /** A chain of `d` steps visits `d + 1` categories, unless it runs into a cycle. */
  lemma {:induction false} ChainCounts(cats: Categories, x: int, d: nat)
    requires Up(cats, x, d).Some? && !RunsIntoCycle(cats, x)
    ensures |ChainIds(cats, x, d)| == d + 1 && ChainIds(cats, x, d) <= cats.Keys
    decreases d
  {
    if d != 0 {
      hide RunsIntoCycle;
      var p := Parent(cats, x).value;
      if RunsIntoCycle(cats, p) {
        RunsIntoParentsCycle(cats, x);
      }
      ChainCounts(cats, p, d - 1);
      if x in ChainIds(cats, p, d - 1) {
        ComesBack(cats, x, d);
        assert false;
      }
    }
  }

  lemma ComesBack(cats: Categories, x: int, d: nat)
    requires d > 0 && Up(cats, x, d).Some? && x in ChainIds(cats, Parent(cats, x).value, d - 1)
    ensures RunsIntoCycle(cats, x)
  {
    var p := Parent(cats, x).value;
    ChainIdsAreAncestors(cats, p, d - 1, x);
    var k :| 0 <= k <= d - 1 && Up(cats, p, k) == Some(x);
    assert Up(cats, x, k + 1) == Some(x);
    BelowSelf(cats, x);
  }

  /** A chain that never ends at a root goes on for ever. */
  lemma {:induction false} UnlistedGoesOn(cats: Categories, x: int, n: nat)
    requires x in cats && !Listed(cats, x)
    ensures Up(cats, x, n).Some?
    decreases n
  {
    if n != 0 {
      hide Listed;
      ListedIffParentIs(cats, x);
      UnlistedGoesOn(cats, Parent(cats, x).value, n - 1);
    }
  }

  /** A category is missing from the listing if and only if its parent chain runs into a cycle. */
  lemma UnlistedIffCycle(cats: Categories, x: int)
    requires x in cats
    ensures !Listed(cats, x) <==> RunsIntoCycle(cats, x)
  {
    if RunsIntoCycle(cats, x) {
      var y :| Below(cats, x, y) && OnCycle(cats, y);
      var n: nat :| Up(cats, x, n) == Some(y);
      hide Listed, OnCycle;
      CycleIsNotListed(cats, y);
      ListedIffAncestorIs(cats, x, n);
    } else if !Listed(cats, x) {
      var d := |cats.Keys|;
      hide Listed, RunsIntoCycle;
      UnlistedGoesOn(cats, x, d);
      ChainCounts(cats, x, d);
      SubsetIsSmaller(ChainIds(cats, x, d), cats.Keys);
      assert false;
    }
  }

  /** So nothing is missing if and only if there is no cycle. */
  lemma AllListedIffAcyclic(cats: Categories)
    ensures (forall x | x in cats :: Listed(cats, x)) <==> Acyclic(cats)
  {
    hide Listed, OnCycle, Below;
    forall x | x in cats ensures Listed(cats, x) <==> !RunsIntoCycle(cats, x) {
      UnlistedIffCycle(cats, x);
    }
    forall x, y | Below(cats, x, y) ensures y in cats {
      BelowIsIn(cats, x, y);
    }
    forall x | x in cats && OnCycle(cats, x) ensures RunsIntoCycle(cats, x) {
      BelowSelf(cats, x);
    }
  }

  lemma BelowIsIn(cats: Categories, x: int, y: int)
    requires Below(cats, x, y)
    ensures y in cats
  {
    var n: nat :| Up(cats, x, n) == Some(y);
    UpFromTop(cats, x, n);
  }

  // ----- What a move does

  /** Chains that do not pass through the moved category stay as they were. */
  lemma {:induction false} ChainUnaffected(cats: Categories, after: Categories, id: int, x: int, n: nat)
    requires after.Keys == cats.Keys && (forall y | y != id :: Parent(after, y) == Parent(cats, y))
    requires !Below(cats, x, id)
    ensures Up(after, x, n) == Up(cats, x, n)
    decreases n
  {
    if x in cats {
      BelowSelf(cats, x);
      if n != 0 && Parent(cats, x).Some? {
        var p := Parent(cats, x).value;
        if Below(cats, p, id) { BelowParent(cats, x, id); }
        ChainUnaffected(cats, after, id, p, n - 1);
      }
    }
  }

  lemma {:induction false} StaysBelow(cats: Categories, after: Categories, id: int, x: int, n: nat)
    requires after.Keys == cats.Keys && (forall y | y != id :: Parent(after, y) == Parent(cats, y))
    requires Up(cats, x, n) == Some(id)
    ensures Below(after, x, id)
    decreases n
  {
    UpFromTop(cats, x, n);
    if x == id {
      BelowSelf(after, x);
    } else {
      StaysBelow(cats, after, id, Parent(cats, x).value, n - 1);
      BelowParent(after, x, id);
    }
  }

  lemma OthersStayListed(cats: Categories, after: Categories, id: int, x: int)
    requires after.Keys == cats.Keys && (forall y | y != id :: Parent(after, y) == Parent(cats, y))
    requires !Below(cats, x, id)
    ensures Listed(after, x) <==> Listed(cats, x)
  {
    forall d: nat ensures AtDepth(after, x, d) <==> AtDepth(cats, x, d) {
      ChainUnaffected(cats, after, id, x, d);
      assert Up(cats, x, d) == Some(id) ==> Below(cats, x, id);
    }
  }

  /** Moving a category under another: the rest of the tree stays listed as it was, its own subtree
      is listed if and only if it is itself, and it is listed if and only if the new parent is nil,
      another user's, or listed and not below it. So a move below itself takes the whole subtree out.
      A request that takes no effect changes nothing. */
  lemma MoveKeepsTheRest(table: Categories, user: int, id: int, parent: Option<int>, sortOrder: int, x: int)
    ensures var cats, after := Mine(table, user), Mine(Moved(table, user, id, parent, sortOrder), user);
      if TakesEffect(table, user, id, parent) then
        && (!Below(cats, x, id) ==> (Listed(after, x) <==> Listed(cats, x)))
        && (Below(cats, x, id) ==> (Listed(after, x) <==> Listed(after, id)))
        && (Listed(after, id) <==>
            parent.None? || parent.value !in cats || (Listed(cats, parent.value) && !Below(cats, parent.value, id)))
      else after == cats
  {
    if TakesEffect(table, user, id, parent) {
      var cats, after := Mine(table, user), Mine(Moved(table, user, id, parent, sortOrder), user);
      MovedLinks(table, user, id, parent, sortOrder);
      hide Below, Listed, Up, Moved, Parent, Mine, TakesEffect;
      ListedIffParentIs(after, id);
      if Below(cats, x, id) {
        SubtreeFollows(cats, after, id, x);
      } else {
        OthersStayListed(cats, after, id, x);
      }
      if Parent(after, id).Some? {
        if Below(cats, parent.value, id) {
          SubtreeFollows(cats, after, id, parent.value);
          LoopIsCycle(after, id);
          CycleIsNotListed(after, id);
        } else {
          OthersStayListed(cats, after, id, parent.value);
        }
      }
    }
  }

  lemma MovedLinks(table: Categories, user: int, id: int, parent: Option<int>, sortOrder: int)
    requires TakesEffect(table, user, id, parent)
    ensures var cats, after := Mine(table, user), Mine(Moved(table, user, id, parent, sortOrder), user);
      && id in cats && after.Keys == cats.Keys && (forall y | y != id :: Parent(after, y) == Parent(cats, y))
      && Parent(after, id) == if parent.Some? && parent.value in cats then parent else None
  {
    var cats, after := Mine(table, user), Mine(Moved(table, user, id, parent, sortOrder), user);
    assert after.Keys == cats.Keys;
  }

  /** The request puts the category on a cycle if and only if the new parent is below it. */
  lemma CycleMadeIff(table: Categories, user: int, id: int, parent: Option<int>, sortOrder: int)
    requires TakesEffect(table, user, id, parent)
    ensures var cats, after := Mine(table, user), Mine(Moved(table, user, id, parent, sortOrder), user);
      OnCycle(after, id) <==> parent.Some? && parent.value in cats && Below(cats, parent.value, id)
  {
    var cats, after := Mine(table, user), Mine(Moved(table, user, id, parent, sortOrder), user);
    MovedLinks(table, user, id, parent, sortOrder);
    hide Mine, Moved, TakesEffect, Parent;
    if OnCycle(after, id) {
      var n: nat :| n > 0 && Up(after, id, n) == Some(id);
      assert Up(after, parent.value, n - 1) == Some(id);
      if !Below(cats, parent.value, id) {
        ChainUnaffected(cats, after, id, parent.value, n - 1);
      }
    }
    if parent.Some? && parent.value in cats && Below(cats, parent.value, id) {
      SubtreeFollows(cats, after, id, parent.value);
      LoopIsCycle(after, id);
    }
  }

  /** What "Prevent circular references" would have to check: a request turns a tree without cycles
      into one with a cycle if and only if it takes effect and the new parent is below the category. */
  lemma MoveKeepsAcyclicIff(table: Categories, user: int, id: int, parent: Option<int>, sortOrder: int)
    requires Acyclic(Mine(table, user))
    ensures var cats, after := Mine(table, user), Mine(Moved(table, user, id, parent, sortOrder), user);
      !Acyclic(after) <==>
        TakesEffect(table, user, id, parent) && parent.Some? && parent.value in cats && Below(cats, parent.value, id)
  {
    var cats, after := Mine(table, user), Mine(Moved(table, user, id, parent, sortOrder), user);
    if TakesEffect(table, user, id, parent) {
      MovedLinks(table, user, id, parent, sortOrder);
      CycleMadeIff(table, user, id, parent, sortOrder);
      AllListedIffAcyclic(cats);
      AllListedIffAcyclic(after);
      hide Mine, Moved, TakesEffect, Parent, Below, OnCycle, Listed;
      forall x ensures
        && (!Below(cats, x, id) ==> (Listed(after, x) <==> Listed(cats, x)))
        && (Below(cats, x, id) ==> (Listed(after, x) <==> Listed(after, id)))
        && (Listed(after, id) <==>
            parent.None? || parent.value !in cats || (Listed(cats, parent.value) && !Below(cats, parent.value, id)))
      {
        MoveKeepsTheRest(table, user, id, parent, sortOrder, x);
      }
    }
  }

  const TWO: Categories :=
    map[1 := Category(Some(7), "a", Some(0), None), 2 := Category(Some(7), "b", Some(0), Some(1))]

  /** Moving a category under its own child is accepted, and both disappear from the listing. */
  lemma MoveUnderChildIsAccepted()
    ensures TakesEffect(TWO, 7, 1, Some(2))
    ensures Listed(Mine(TWO, 7), 1) && Listed(Mine(TWO, 7), 2)
    ensures var after := Mine(Moved(TWO, 7, 1, Some(2), 0), 7);
      OnCycle(after, 1) && !Listed(after, 1) && !Listed(after, 2)
  {
    var cats, after := Mine(TWO, 7), Mine(Moved(TWO, 7, 1, Some(2), 0), 7);
    assert AtDepth(cats, 1, 0);
    assert Parent(cats, 2) == Some(1);
    assert AtDepth(cats, 2, 1);
    assert Up(cats, 2, 1) == Some(1);
    assert Below(cats, 2, 1);
    hide Listed, Below, OnCycle;
    CycleMadeIff(TWO, 7, 1, Some(2), 0);
    CycleIsNotListed(after, 1);
    MoveKeepsTheRest(TWO, 7, 1, Some(2), 0, 2);
  }

  lemma SubtreeFollows(cats: Categories, after: Categories, id: int, x: int)
    requires after.Keys == cats.Keys && (forall y | y != id :: Parent(after, y) == Parent(cats, y))
    requires Below(cats, x, id)
    ensures Below(after, x, id) && (Listed(after, x) <==> Listed(after, id))
  {
    var n: nat :| Up(cats, x, n) == Some(id);
    StaysBelow(cats, after, id, x, n);
    var m: nat :| Up(after, x, m) == Some(id);
    ListedIffAncestorIs(after, x, m);
  }

  lemma LoopIsCycle(cats: Categories, id: int)
    requires Parent(cats, id).Some? && Below(cats, Parent(cats, id).value, id)
    ensures OnCycle(cats, id)
  {
    var n: nat :| Up(cats, Parent(cats, id).value, n) == Some(id);
    assert Up(cats, id, n + 1) == Some(id);
  }

  // ----- Reordering

  /** Sort order i for the i-th id of the request; rows of other users are out of reach. */
  function Reordered(table: Categories, user: int, order: seq<int>, i: int): Categories {
    if order == [] then table
    else
      var id := order[0];
      var next :=
        if id in table && table[id].owner == Some(user) then table[id := table[id].(sortOrder := Some(i))] else table;
      Reordered(next, user, order[1..], i + 1)
  }

  /** An id that is repeated counts where it stands last. */
  function LastOccurrences(order: seq<int>): (r: seq<int>)
    ensures forall x :: x in r <==> x in order
  {
    if order == [] then []
    else if order[0] in order[1..] then LastOccurrences(order[1..])
    else [order[0]] + LastOccurrences(order[1..])
  }

  function LastIndex(order: seq<int>, x: int): (k: nat)
    requires x in order
    ensures k < |order| && order[k] == x
  {
    if x in order[1..] then 1 + LastIndex(order[1..], x) else 0
  }

  lemma {:induction false} LastOccurrencesByIndex(order: seq<int>)
    ensures forall i, j | 0 <= i < j < |LastOccurrences(order)| ::
      LastIndex(order, LastOccurrences(order)[i]) < LastIndex(order, LastOccurrences(order)[j])
  {
    if order != [] {
      LastOccurrencesByIndex(order[1..]);
      var r, rest := LastOccurrences(order), LastOccurrences(order[1..]);
      assert forall k | 0 <= k < |rest| :: rest[k] in rest;
    }
  }

  lemma {:induction false} LastOccurrencesOfDistinct(order: seq<int>)
    requires NoRepeats(order)
    ensures LastOccurrences(order) == order
  {
    if order != [] {
      LastOccurrencesOfDistinct(order[1..]);
    }
  }

  function RowAfter(row: Category, user: int, order: seq<int>, i: int, x: int): Category {
    if row.owner == Some(user) && x in order then row.(sortOrder := Some(i + LastIndex(order, x))) else row
  }

  /** A row's sort order afterwards; nothing else changes. */
  lemma {:induction false} ReorderedRow(table: Categories, user: int, order: seq<int>, i: int, x: int)
    ensures Reordered(table, user, order, i).Keys == table.Keys
    ensures x in table ==> Reordered(table, user, order, i)[x] == RowAfter(table[x], user, order, i, x)
  {
    if order != [] {
      var id := order[0];
      var next :=
        if id in table && table[id].owner == Some(user) then table[id := table[id].(sortOrder := Some(i))] else table;
      ReorderedRow(next, user, order[1..], i + 1, x);
      assert x in order <==> x == id || x in order[1..];
    }
  }

  function Under(cats: Categories, parent: Option<int>): int -> bool {
    x => x in cats && Parent(cats, x) == parent
  }

  function Ids(f: seq<(int, nat)>): (ids: seq<int>)
    ensures |ids| == |f| && forall i | 0 <= i < |f| :: ids[i] == f[i].0
  {
    Map(f, (p: (int, nat)) => p.0)
  }

  lemma ReorderKeepsLinks(table: Categories, user: int, order: seq<int>)
    ensures var cats, after := Mine(table, user), Mine(Reordered(table, user, order, 0), user);
      after.Keys == cats.Keys && forall x :: Parent(after, x) == Parent(cats, x)
  {
    forall x ensures Reordered(table, user, order, 0).Keys == table.Keys
      ensures x in table ==> Reordered(table, user, order, 0)[x] == RowAfter(table[x], user, order, 0, x)
    {
      ReorderedRow(table, user, order, 0, x);
    }
    hide Reordered;
    var cats, after := Mine(table, user), Mine(Reordered(table, user, order, 0), user);
    forall x ensures x in after <==> x in cats {
    }
    assert after.Keys == cats.Keys;
  }

  /** Other users' trees are built from the same rows as before. */
  lemma ReorderLeavesOthers(table: Categories, user: int, order: seq<int>, other: int)
    requires other != user
    ensures Mine(Reordered(table, user, order, 0), other) == Mine(table, other)
  {
    forall x ensures Reordered(table, user, order, 0).Keys == table.Keys
      ensures x in table ==> Reordered(table, user, order, 0)[x] == RowAfter(table[x], user, order, 0, x)
    {
      ReorderedRow(table, user, order, 0, x);
    }
    hide Reordered;
  }

  ghost predicate Before(cats: Categories, x: int, y: int) {
    x != y && (x in cats && y in cats ==> NotAfter(cats, x, y) && !SameKey(cats[x], cats[y]))
  }

  /** The request's order is the sibling order of the rows it leaves behind. */
  lemma RequestIsSorted(table: Categories, user: int, order: seq<int>, p: int -> bool)
    requires var after := Mine(Reordered(table, user, order, 0), user);
      forall x | p(x) :: x in after
    ensures var after, a := Mine(Reordered(table, user, order, 0), user), Filter(LastOccurrences(order), p);
      NoRepeats(a) && InOrder(after, a) && KeysDiffer(after, a)
  {
    var after, r := Mine(Reordered(table, user, order, 0), user), LastOccurrences(order);
    LastOccurrencesByIndex(order);
    forall i, j | 0 <= i < j < |r| ensures Before(after, r[i], r[j]) {
      ReorderedRow(table, user, order, 0, r[i]);
      ReorderedRow(table, user, order, 0, r[j]);
      hide Reordered, StringLess, LastOccurrences, LastIndex;
      assert r[i] in r && r[j] in r;
    }
    hide Reordered, LastOccurrences, LastIndex, KeyLess, SameKey;
    FilterKeepsPairs(r, p, (x, y) => Before(after, x, y));
    var a := Filter(r, p);
    forall k | 0 <= k < |a| ensures a[k] in after {
      assert a[k] in a && p(a[k]);
    }
    assert forall i, j | 0 <= i < j < |a| :: Before(after, a[i], a[j]);
  }

  ghost predicate Shown(cats: Categories, x: int, y: int) {
    x != y && (Parent(cats, x) == Parent(cats, y) ==> NotAfter(cats, x, y))
  }

  lemma DisplayedSiblings(cats: Categories, f: seq<(int, nat)>, parent: Option<int>)
    requires Displays(cats, f)
    ensures NoRepeats(Filter(Ids(f), Under(cats, parent))) && InOrder(cats, Filter(Ids(f), Under(cats, parent)))
  {
    var ids, b := Ids(f), Filter(Ids(f), Under(cats, parent));
    FilterKeepsPairs(ids, Under(cats, parent), (x, y) => Shown(cats, x, y));
    forall k | 0 <= k < |b| ensures b[k] in cats && Parent(cats, b[k]) == parent {
      assert b[k] in b && Under(cats, parent)(b[k]);
    }
    assert forall i, j | 0 <= i < j < |b| :: Shown(cats, b[i], b[j]);
  }

  lemma ChildrenAreShown(cats: Categories, f: seq<(int, nat)>, parent: Option<int>, x: int)
    requires ListsTheTree(cats, f) && (parent.Some? ==> Listed(cats, parent.value))
    requires x in cats && Parent(cats, x) == parent
    ensures x in Ids(f)
  {
    ListedIffParentIs(cats, x);
    var d: nat :| AtDepth(cats, x, d);
    hide AtDepth;
    assert (x, d) in f;
    var k :| 0 <= k < |f| && f[k] == (x, d);
    assert Ids(f)[k] == x;
  }

  lemma {:induction false} ShowsTheRequest(table: Categories, user: int, order: seq<int>, parent: Option<int>,
                                           f: seq<(int, nat)>)
    requires var after := Mine(Reordered(table, user, order, 0), user);
      && Displays(after, f)
      && (parent.Some? ==> Listed(after, parent.value))
      && (forall x | x in after && Parent(after, x) == parent :: x in order)
    ensures var after := Mine(Reordered(table, user, order, 0), user);
      Filter(Ids(f), Under(after, parent)) == Filter(LastOccurrences(order), Under(after, parent))
  {
    hide *;
    var after := Mine(Reordered(table, user, order, 0), user);
    UnderIs(after, parent);
    var a, b := Filter(LastOccurrences(order), Under(after, parent)), Filter(Ids(f), Under(after, parent));
    DisplaysParts(after, f);
    RequestIsSorted(table, user, order, Under(after, parent));
    DisplayedSiblings(after, f, parent);
    forall x ensures x in a <==> x in b {
      if x in after && Parent(after, x) == parent {
        ChildrenAreShown(after, f, parent, x);
      }
    }
    RearrangesIf(b, a);
    SortedOnce(after, a, b);
  }

  lemma DisplaysParts(cats: Categories, f: seq<(int, nat)>)
    requires Displays(cats, f)
    ensures ListsTheTree(cats, f)
  {
  }

  lemma RearrangesIf(b: seq<int>, a: seq<int>)
    requires NoRepeats(b) && forall x :: x in a <==> x in b
    ensures Rearranges(b, a)
  {
  }

  lemma UnderIs(cats: Categories, parent: Option<int>)
    ensures forall x :: Under(cats, parent)(x) <==> x in cats && Parent(cats, x) == parent
  {
  }

  // ----- The handlers

  /** 200, 400 and 500. */
  datatype Reply = Done | SelfParent | Failed

  class CategoryTable {
    var rows: Categories

    constructor (rows: Categories)
      ensures this.rows == rows
    {
      this.rows := rows;
    }

    /** The handler refuses the category itself as its own parent; the foreign key refuses a parent
        in no row, but only when there is a row to update. */
    method SetParent(user: int, id: int, parent: Option<int>, sortOrder: int) returns (reply: Reply)
      modifies this
      ensures rows == Moved(old(rows), user, id, parent, sortOrder)
      ensures reply == SelfParent <==> parent == Some(id)
      ensures TakesEffect(old(rows), user, id, parent) ==> reply == Done
      ensures reply == Failed <==>
        parent != Some(id) && id in old(rows) && old(rows)[id].owner == Some(user) &&
        parent.Some? && parent.value !in old(rows)
    {
      if parent.Some? && parent.value == id {
        return SelfParent;
      }
      if id in rows && rows[id].owner == Some(user) {
        if parent.Some? && parent.value !in rows {
          return Failed;
        }
        rows := rows[id := rows[id].(parent := parent, sortOrder := Some(sortOrder))];
      }
      return Done;
    }

    method Reorder(user: int, order: seq<int>)
      modifies this
      ensures rows == Reordered(old(rows), user, order, 0)
    {
      for i := 0 to |order|
        invariant Reordered(rows, user, order[i..], i) == Reordered(old(rows), user, order, 0)
      {
        var id := order[i];
        assert order[i..][1..] == order[i + 1..];
        if id in rows && rows[id].owner == Some(user) {
          rows := rows[id := rows[id].(sortOrder := Some(i))];
        }
      }
    }
  }
}
