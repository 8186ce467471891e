/** The category forest (srv/category_tree.go): parent links, possibly cyclic, turned into a
    sorted tree with depths and flattened for display. */
module CategoryTree {
  import opened Options
  import opened Sets
  import opened Strings
  import opened Tables

  type Categories = map<int, Category>

  // ----- Parent links

  /** The parent, when it exists; a category with none, or with a missing one, is a root. */
  function Parent(cats: Categories, id: int): Option<int> {
    if id in cats && cats[id].parent.Some? && cats[id].parent.value in cats then cats[id].parent else None
  }

  predicate IsRoot(cats: Categories, id: int) {
    id in cats && Parent(cats, id).None?
  }

  /** The ancestor `n` steps up the parent chain. */
  function Up(cats: Categories, id: int, n: nat): Option<int>
    decreases n
  {
    if n == 0 then (if id in cats then Some(id) else None)
    else if Parent(cats, id).None? then None
    else Up(cats, Parent(cats, id).value, n - 1)
  }

  /** The parent chain reaches a root after `d` steps. */
  predicate AtDepth(cats: Categories, id: int, d: nat) {
    var top := Up(cats, id, d);
    top.Some? && IsRoot(cats, top.value)
  }

  ghost predicate Listed(cats: Categories, x: int) {
    exists d: nat :: AtDepth(cats, x, d)
  }

  lemma {:induction false} UpComposes(cats: Categories, id: int, n: nat, k: nat)
    requires Up(cats, id, n).Some?
    ensures Up(cats, id, n + k) == Up(cats, Up(cats, id, n).value, k)
    decreases n
  {
    if n != 0 {
      UpComposes(cats, Parent(cats, id).value, n - 1, k);
    }
  }

  lemma {:induction false} DepthIsUnique(cats: Categories, id: int, d: nat, e: nat)
    requires AtDepth(cats, id, d) && AtDepth(cats, id, e)
    ensures d == e
    decreases d
  {
    if d != 0 && e != 0 {
      DepthIsUnique(cats, Parent(cats, id).value, d - 1, e - 1);
    }
  }

  /** The categories on the first `d` steps of a parent chain. */
  ghost function ChainIds(cats: Categories, id: int, d: nat): (ids: set<int>)
    requires Up(cats, id, d).Some?
    decreases d
  {
    if d == 0 then {id} else {id} + ChainIds(cats, Parent(cats, id).value, d - 1)
  }

  lemma {:induction false} ChainIdsAreAncestors(cats: Categories, id: int, d: nat, x: int)
    requires Up(cats, id, d).Some? && x in ChainIds(cats, id, d)
    ensures x in cats && exists k :: 0 <= k <= d && Up(cats, id, k) == Some(x)
    decreases d
  {
    if x == id {
      assert Up(cats, id, 0) == Some(x);
    } else {
      var p := Parent(cats, id).value;
      ChainIdsAreAncestors(cats, p, d - 1, x);
      var k :| 0 <= k <= d - 1 && Up(cats, p, k) == Some(x);
      assert Up(cats, id, k + 1) == Some(x);
    }
  }

  /** A chain that reaches a root visits every category at most once. */
  lemma {:induction false} ChainHasNoRepeats(cats: Categories, id: int, d: nat)
    requires AtDepth(cats, id, d)
    ensures |ChainIds(cats, id, d)| == d + 1 && ChainIds(cats, id, d) <= cats.Keys
    decreases d
  {
    if d != 0 {
      var p := Parent(cats, id).value;
      ChainHasNoRepeats(cats, p, d - 1);
      if id in ChainIds(cats, p, d - 1) {
        NotAboveItself(cats, id, d);
        assert false;
      }
    }
  }

  lemma NotAboveItself(cats: Categories, id: int, d: nat)
    requires AtDepth(cats, id, d) && d != 0
    ensures Parent(cats, id).Some? && id !in ChainIds(cats, Parent(cats, id).value, d - 1)
  {
    var p := Parent(cats, id).value;
    if id in ChainIds(cats, p, d - 1) {
      ChainIdsAreAncestors(cats, p, d - 1, id);
      var k :| 0 <= k <= d - 1 && Up(cats, p, k) == Some(id);
      UpComposes(cats, p, k, d - 1 - k);
      DepthIsUnique(cats, id, d, d - 1 - k);
      assert false;
    }
  }

  /** Depths are bounded by the number of categories; this is why the recursions end. */
  lemma DepthBound(cats: Categories, id: int, d: nat)
    requires AtDepth(cats, id, d)
    ensures d < |cats.Keys|
  {
    ChainHasNoRepeats(cats, id, d);
    SubsetIsSmaller(ChainIds(cats, id, d), cats.Keys);
  }

  // ----- Sibling order

  /** Sort by sort_order, then by name. */
  predicate KeyLess(a: Category, b: Category) {
    var i, j := a.sortOrder.GetOr(0), b.sortOrder.GetOr(0);
    i < j || (i == j && StringLess(a.name, b.name))
  }

  predicate SameKey(a: Category, b: Category) {
    a.sortOrder.GetOr(0) == b.sortOrder.GetOr(0) && a.name == b.name
  }

  /** A strict weak order, total up to equal keys. */
  lemma KeyOrder(a: Category, b: Category, c: Category)
    ensures !KeyLess(a, a)
    ensures KeyLess(a, b) || SameKey(a, b) || KeyLess(b, a)
    ensures KeyLess(a, b) && KeyLess(b, c) ==> KeyLess(a, c)
    ensures KeyLess(a, b) ==> !KeyLess(b, a)
    ensures !KeyLess(b, a) && !KeyLess(c, b) ==> !KeyLess(c, a)
  {
    StringOrder(a.name, b.name, c.name);
    StringOrder(b.name, a.name, c.name);
    StringOrder(a.name, b.name, a.name);
    StringOrder(c.name, a.name, b.name);
    StringOrder(c.name, b.name, a.name);
    StringOrder(a.name, c.name, b.name);
    hide StringLess;
  }

  // ----- Sorted forests

  predicate NoRepeats(ids: seq<int>) {
    forall i, j | 0 <= i < j < |ids| :: ids[i] != ids[j]
  }

  predicate NotAfter(cats: Categories, x: int, y: int) {
    x in cats && y in cats && !KeyLess(cats[y], cats[x])
  }

  predicate InOrder(cats: Categories, ids: seq<int>) {
    forall i, j | 0 <= i < j < |ids| :: NotAfter(cats, ids[i], ids[j])
  }

  /** Child lists: each category's children, each once. */
  ghost predicate Lists(cats: Categories, kids: map<int, seq<int>>) {
    && kids.Keys == cats.Keys
    && forall p | p in kids :: NoRepeats(kids[p]) && forall x :: x in kids[p] <==> Parent(cats, x) == Some(p)
  }

  ghost predicate ListsRoots(cats: Categories, roots: seq<int>) {
    NoRepeats(roots) && forall x :: x in roots <==> IsRoot(cats, x)
  }

  /** Every list that can be reached from a root is sorted. */
  ghost predicate SortedLists(cats: Categories, kids: map<int, seq<int>>)
    requires Lists(cats, kids)
  {
    forall p, d: nat | AtDepth(cats, p, d) :: InOrder(cats, kids[p])
  }

  /** Siblings that take part in the tree have different keys. */
  ghost predicate SiblingKeysDiffer(cats: Categories) {
    forall x, y, d: nat | AtDepth(cats, x, d) && AtDepth(cats, y, d) && x != y && Parent(cats, x) == Parent(cats, y) ::
      !SameKey(cats[x], cats[y])
  }

  // ----- The flattened listing

  ghost predicate AllAtDepth(cats: Categories, ids: seq<int>, d: nat) {
    forall x | x in ids :: AtDepth(cats, x, d)
  }

  lemma KidsAreDeeper(cats: Categories, kids: map<int, seq<int>>, id: int, d: nat)
    requires Lists(cats, kids) && AtDepth(cats, id, d)
    ensures id in kids && AllAtDepth(cats, kids[id], d + 1) && d < |cats.Keys|
  {
    DepthBound(cats, id, d);
  }

  /** Preorder: each category with its depth, followed by its children's subtrees. */
  ghost function Flat(cats: Categories, kids: map<int, seq<int>>, ids: seq<int>, d: nat): seq<(int, nat)>
    requires Lists(cats, kids) && AllAtDepth(cats, ids, d)
    decreases |cats.Keys| - d, |ids|
  {
    if ids == [] then []
    else
      KidsAreDeeper(cats, kids, ids[0], d);
      [(ids[0], d)] + Flat(cats, kids, kids[ids[0]], d + 1) + Flat(cats, kids, ids[1..], d)
  }

  /** One step further up is the parent of where the chain stood. */
  lemma {:induction false} UpFromTop(cats: Categories, x: int, n: nat)
    ensures Up(cats, x, n + 1) == (if Up(cats, x, n).Some? then Parent(cats, Up(cats, x, n).value) else None)
    ensures Up(cats, x, n).Some? ==> Up(cats, x, n).value in cats
    decreases n
  {
    if n != 0 && Parent(cats, x).Some? {
      UpFromTop(cats, Parent(cats, x).value, n - 1);
    }
  }

  /** `y` is `n` steps above `x`, and has depth `d`. */
  lemma DepthBelow(cats: Categories, x: int, n: nat, y: int, d: nat)
    requires Up(cats, x, n) == Some(y) && AtDepth(cats, y, d)
    ensures AtDepth(cats, x, n + d)
  {
    UpComposes(cats, x, n, d);
  }

  predicate LeadsInto(cats: Categories, x: int, n: int, ids: seq<int>) {
    n >= 0 && Up(cats, x, n).Some? && Up(cats, x, n).value in ids
  }

  lemma LeadsThroughChild(cats: Categories, kids: map<int, seq<int>>, x: int, n: int, id: int)
    requires Lists(cats, kids) && id in cats
    ensures LeadsInto(cats, x, n, [id]) <==> (n == 0 && x == id) || LeadsInto(cats, x, n - 1, kids[id])
  {
    if n > 0 {
      UpFromTop(cats, x, n - 1);
    }
  }

  lemma FlatUnfold(cats: Categories, kids: map<int, seq<int>>, ids: seq<int>, d: nat)
    requires Lists(cats, kids) && AllAtDepth(cats, ids, d) && ids != []
    ensures ids[0] in kids && ids[0] in cats && AtDepth(cats, ids[0], d) && d < |cats.Keys|
    ensures AllAtDepth(cats, kids[ids[0]], d + 1) && AllAtDepth(cats, ids[1..], d)
    ensures Flat(cats, kids, ids, d) ==
      [(ids[0], d)] + Flat(cats, kids, kids[ids[0]], d + 1) + Flat(cats, kids, ids[1..], d)
  {
    KidsAreDeeper(cats, kids, ids[0], d);
  }

  lemma LeadsIntoSplit(cats: Categories, kids: map<int, seq<int>>, ids: seq<int>, x: int, n: int)
    requires Lists(cats, kids) && ids != [] && ids[0] in cats
    ensures LeadsInto(cats, x, n, ids)
      <==> (n == 0 && x == ids[0]) || LeadsInto(cats, x, n - 1, kids[ids[0]]) || LeadsInto(cats, x, n, ids[1..])
  {
    LeadsThroughChild(cats, kids, x, n, ids[0]);
    hide Lists, Parent;
    assert LeadsInto(cats, x, n, ids) <==> LeadsInto(cats, x, n, [ids[0]]) || LeadsInto(cats, x, n, ids[1..]) by {
      assert ids == [ids[0]] + ids[1..];
    }
  }

  /** The listing holds exactly the categories whose chain leads into `ids`, with the chain's length as depth. */
  lemma {:induction false} FlatMembers(cats: Categories, kids: map<int, seq<int>>, ids: seq<int>, d: nat, x: int,
                                       e: nat)
    requires Lists(cats, kids) && AllAtDepth(cats, ids, d)
    ensures (x, e) in Flat(cats, kids, ids, d) <==> LeadsInto(cats, x, e - d, ids)
    decreases |cats.Keys| - d, |ids|
  {
    if ids != [] {
      hide *;
      FlatUnfold(cats, kids, ids, d);
      FlatMembers(cats, kids, kids[ids[0]], d + 1, x, e);
      FlatMembers(cats, kids, ids[1..], d, x, e);
      LeadsIntoSplit(cats, kids, ids, x, e - d);
    }
  }

  lemma FlatEntry(cats: Categories, kids: map<int, seq<int>>, ids: seq<int>, d: nat, k: nat)
    requires Lists(cats, kids) && AllAtDepth(cats, ids, d) && k < |Flat(cats, kids, ids, d)|
    ensures var (x, e) := Flat(cats, kids, ids, d)[k];
      d <= e && LeadsInto(cats, x, e - d, ids) && AtDepth(cats, x, e)
  {
    var f := Flat(cats, kids, ids, d);
    var (x, e) := f[k];
    assert (x, e) in f;
    FlatMembers(cats, kids, ids, d, x, e);
    hide Flat;
    DepthBelow(cats, x, e - d, Up(cats, x, e - d).value, d);
  }

  // ----- No repetition

  predicate OnceEach(f: seq<(int, nat)>) {
    forall i, j | 0 <= i < j < |f| :: f[i].0 != f[j].0
  }

  predicate Apart(a: seq<(int, nat)>, b: seq<(int, nat)>) {
    forall i, j | 0 <= i < |a| && 0 <= j < |b| :: a[i].0 != b[j].0
  }

  lemma OnceEachConcat(a: seq<(int, nat)>, b: seq<(int, nat)>, c: seq<(int, nat)>)
    requires OnceEach(a) && OnceEach(b) && OnceEach(c)
    requires Apart(a, b) && Apart(a, c) && Apart(b, c)
    ensures OnceEach(a + b + c)
  {
    var f := a + b + c;
    forall i, j | 0 <= i < j < |f| ensures f[i].0 != f[j].0 {
      var n := |a| + |b|;
      assert f[i] == if i < |a| then a[i] else if i < n then b[i - |a|] else c[i - n];
      assert f[j] == if j < |a| then a[j] else if j < n then b[j - |a|] else c[j - n];
    }
  }

  /** A category below `ids[0]` is not below any other member of `ids`. */
  lemma BelowOneOnly(cats: Categories, kids: map<int, seq<int>>, ids: seq<int>, x: int, n: int)
    requires Lists(cats, kids) && ids != [] && NoRepeats(ids) && ids[0] in cats
    requires LeadsInto(cats, x, n - 1, kids[ids[0]])
    ensures !LeadsInto(cats, x, n, ids[1..])
  {
    UpFromTop(cats, x, n - 1);
    assert forall y | y in ids[1..] :: y != ids[0];
  }

  lemma HeadIsElsewhere(cats: Categories, kids: map<int, seq<int>>, ids: seq<int>, d: nat, k: nat)
    requires Lists(cats, kids) && AllAtDepth(cats, ids, d) && NoRepeats(ids) && ids != []
    requires AllAtDepth(cats, ids[1..], d) && k < |Flat(cats, kids, ids[1..], d)|
    ensures Flat(cats, kids, ids[1..], d)[k].0 != ids[0]
  {
    FlatEntry(cats, kids, ids[1..], d, k);
    var (x, e) := Flat(cats, kids, ids[1..], d)[k];
    hide Flat, Lists;
    assert forall y | y in ids[1..] :: y != ids[0];
    if x == ids[0] {
      DepthIsUnique(cats, x, d, e);
      assert false;
    }
  }

  lemma PartsApart(cats: Categories, kids: map<int, seq<int>>, ids: seq<int>, d: nat)
    requires Lists(cats, kids) && AllAtDepth(cats, ids, d) && NoRepeats(ids) && ids != []
    requires ids[0] in kids && AllAtDepth(cats, ids[1..], d) && AllAtDepth(cats, kids[ids[0]], d + 1)
    ensures Apart([(ids[0], d)], Flat(cats, kids, kids[ids[0]], d + 1))
    ensures Apart([(ids[0], d)], Flat(cats, kids, ids[1..], d))
    ensures Apart(Flat(cats, kids, kids[ids[0]], d + 1), Flat(cats, kids, ids[1..], d))
  {
    hide Flat, Lists;
    var id := ids[0];
    assert AtDepth(cats, id, d);
    var below, beside := Flat(cats, kids, kids[id], d + 1), Flat(cats, kids, ids[1..], d);
    forall j | 0 <= j < |beside| ensures id != beside[j].0 {
      HeadIsElsewhere(cats, kids, ids, d, j);
    }
    forall i | 0 <= i < |below| ensures id != below[i].0 {
      FlatEntry(cats, kids, kids[id], d + 1, i);
      if id == below[i].0 {
        DepthIsUnique(cats, id, d, below[i].1);
        assert false;
      }
    }
    forall i, j | 0 <= i < |below| && 0 <= j < |beside| ensures below[i].0 != beside[j].0 {
      FlatEntry(cats, kids, kids[id], d + 1, i);
      FlatEntry(cats, kids, ids[1..], d, j);
      var (x, e) := below[i];
      BelowOneOnly(cats, kids, ids, x, e - d);
      if x == beside[j].0 {
        DepthIsUnique(cats, x, e, beside[j].1);
        assert false;
      }
    }
  }

  lemma {:induction false} FlatOnceEach(cats: Categories, kids: map<int, seq<int>>, ids: seq<int>, d: nat)
    requires Lists(cats, kids) && AllAtDepth(cats, ids, d) && NoRepeats(ids)
    ensures OnceEach(Flat(cats, kids, ids, d))
    decreases |cats.Keys| - d, |ids|
  {
    if ids != [] {
      FlatUnfold(cats, kids, ids, d);
      assert NoRepeats(kids[ids[0]]) && NoRepeats(ids[1..]);
      hide *;
      FlatOnceEach(cats, kids, kids[ids[0]], d + 1);
      FlatOnceEach(cats, kids, ids[1..], d);
      PartsApart(cats, kids, ids, d);
      OneIsOnce((ids[0], d));
      OnceEachConcat([(ids[0], d)], Flat(cats, kids, kids[ids[0]], d + 1), Flat(cats, kids, ids[1..], d));
    }
  }

  lemma OneIsOnce(p: (int, nat))
    ensures OnceEach([p])
  {
  }

  // ----- Subtrees are contiguous

  lemma Stretch<T>(a: seq<T>, b: seq<T>, c: seq<T>, k: nat, n: nat)
    requires k + n <= |b|
    ensures (a + b + c)[|a| + k..|a| + k + n] == b[k..k + n]
  {
  }

  /** The listing of a single category. */
  lemma FlatOne(cats: Categories, kids: map<int, seq<int>>, id: int, d: nat)
    requires Lists(cats, kids) && AtDepth(cats, id, d)
    ensures AllAtDepth(cats, [id], d) && id in kids && AllAtDepth(cats, kids[id], d + 1)
    ensures Flat(cats, kids, [id], d) == [(id, d)] + Flat(cats, kids, kids[id], d + 1)
  {
    assert AllAtDepth(cats, [id], d);
    FlatUnfold(cats, kids, [id], d);
    assert Flat(cats, kids, [id][1..], d) == [];
  }

  ghost predicate HoldsSubtreeAt(cats: Categories, kids: map<int, seq<int>>, f: seq<(int, nat)>, k: nat)
    requires Lists(cats, kids) && k < |f|
  {
    AtDepth(cats, f[k].0, f[k].1) && AllAtDepth(cats, [f[k].0], f[k].1) &&
    var subtree := Flat(cats, kids, [f[k].0], f[k].1);
    k + |subtree| <= |f| && f[k..k + |subtree|] == subtree
  }

  lemma HoldsSubtreeWithin(cats: Categories, kids: map<int, seq<int>>, a: seq<(int, nat)>, b: seq<(int, nat)>,
                           c: seq<(int, nat)>, k: nat)
    requires Lists(cats, kids) && k < |b| && HoldsSubtreeAt(cats, kids, b, k)
    ensures HoldsSubtreeAt(cats, kids, a + b + c, |a| + k)
  {
    hide Lists, AtDepth, AllAtDepth, Flat;
    Stretch(a, b, c, k, |Flat(cats, kids, [b[k].0], b[k].1)|);
  }

  lemma HoldsInParts(cats: Categories, kids: map<int, seq<int>>, head: seq<(int, nat)>, below: seq<(int, nat)>,
                     beside: seq<(int, nat)>, k: nat)
    requires Lists(cats, kids) && |head| <= k < |head| + |below| + |beside|
    requires k < |head| + |below| ==> HoldsSubtreeAt(cats, kids, below, k - |head|)
    requires k >= |head| + |below| ==> HoldsSubtreeAt(cats, kids, beside, k - |head| - |below|)
    ensures HoldsSubtreeAt(cats, kids, head + below + beside, k)
  {
    hide *;
    if k < |head| + |below| {
      HoldsSubtreeWithin(cats, kids, head, below, beside, k - |head|);
    } else {
      HoldsSubtreeWithin(cats, kids, head + below, beside, [], k - |head| - |below|);
      assert head + below + beside + [] == head + below + beside;
    }
  }

  lemma HoldsAtStart(cats: Categories, kids: map<int, seq<int>>, id: int, d: nat, beside: seq<(int, nat)>)
    requires Lists(cats, kids) && AtDepth(cats, id, d) && id in kids && AllAtDepth(cats, kids[id], d + 1)
    ensures HoldsSubtreeAt(cats, kids, [(id, d)] + Flat(cats, kids, kids[id], d + 1) + beside, 0)
  {
    hide *;
    FlatOne(cats, kids, id, d);
    HoldsHere(cats, kids, [(id, d)] + Flat(cats, kids, kids[id], d + 1), beside);
  }

  /** Each entry is followed by its own subtree, whole and undivided. */
  lemma {:induction false} SubtreeIsContiguous(cats: Categories, kids: map<int, seq<int>>, ids: seq<int>, d: nat,
                                               k: nat)
    requires Lists(cats, kids) && AllAtDepth(cats, ids, d) && k < |Flat(cats, kids, ids, d)|
    ensures HoldsSubtreeAt(cats, kids, Flat(cats, kids, ids, d), k)
    decreases |cats.Keys| - d, |ids|
  {
    assert ids != [];
    hide *;
    FlatUnfold(cats, kids, ids, d);
    var id := ids[0];
    var below, beside := Flat(cats, kids, kids[id], d + 1), Flat(cats, kids, ids[1..], d);
    if k == 0 {
      HoldsAtStart(cats, kids, id, d, beside);
    } else {
      if k <= |below| {
        SubtreeIsContiguous(cats, kids, kids[id], d + 1, k - 1);
      } else {
        SubtreeIsContiguous(cats, kids, ids[1..], d, k - 1 - |below|);
      }
      HoldsInParts(cats, kids, [(id, d)], below, beside, k);
    }
  }

  lemma HoldsHere(cats: Categories, kids: map<int, seq<int>>, f: seq<(int, nat)>, rest: seq<(int, nat)>)
    requires Lists(cats, kids) && f != [] && AtDepth(cats, f[0].0, f[0].1) && AllAtDepth(cats, [f[0].0], f[0].1)
    requires f == Flat(cats, kids, [f[0].0], f[0].1)
    ensures HoldsSubtreeAt(cats, kids, f + rest, 0)
  {
    hide Lists, AtDepth, AllAtDepth, Flat;
    assert (f + rest)[0] == f[0] && (f + rest)[..|f|] == f;
  }

  // ----- Siblings in order

  lemma SiblingDepth(cats: Categories, x: int, y: int, d: nat, e: nat)
    requires Parent(cats, x) == Parent(cats, y) && AtDepth(cats, x, d) && AtDepth(cats, y, e)
    ensures d == e
    ensures forall n | 0 < n <= d :: Up(cats, x, n) == Up(cats, y, n)
  {
    if Parent(cats, x).Some? {
      assert d != 0 && e != 0;
      DepthIsUnique(cats, Parent(cats, x).value, d - 1, e - 1);
    }
  }

  lemma NoSiblingBelow(cats: Categories, kids: map<int, seq<int>>, id: int, d: nat, k: nat)
    requires Lists(cats, kids) && AtDepth(cats, id, d) && id in kids && AllAtDepth(cats, kids[id], d + 1)
    requires k < |Flat(cats, kids, kids[id], d + 1)|
    ensures Parent(cats, id) != Parent(cats, Flat(cats, kids, kids[id], d + 1)[k].0)
  {
    FlatEntry(cats, kids, kids[id], d + 1, k);
    var (x, e) := Flat(cats, kids, kids[id], d + 1)[k];
    hide Flat, Lists, LeadsInto, AllAtDepth;
    if Parent(cats, id) == Parent(cats, x) {
      SiblingDepth(cats, id, x, d, e);
      assert false;
    }
  }

  lemma SiblingIsBeside(cats: Categories, kids: map<int, seq<int>>, ids: seq<int>, d: nat, k: nat, r: (int,
                        int) -> bool)
    requires Lists(cats, kids) && AllAtDepth(cats, ids, d) && InOrderBy(r, ids) && ids != []
    requires AllAtDepth(cats, ids[1..], d) && k < |Flat(cats, kids, ids[1..], d)|
    requires Parent(cats, ids[0]) == Parent(cats, Flat(cats, kids, ids[1..], d)[k].0)
    ensures r(ids[0], Flat(cats, kids, ids[1..], d)[k].0)
  {
    FlatEntry(cats, kids, ids[1..], d, k);
    var (x, e) := Flat(cats, kids, ids[1..], d)[k];
    assert AtDepth(cats, ids[0], d);
    hide Flat, Lists, AllAtDepth;
    SiblingDepth(cats, ids[0], x, d, e);
    assert x in ids[1..];
  }

  lemma NoSiblingAcross(cats: Categories, kids: map<int, seq<int>>, ids: seq<int>, d: nat, i: nat, j: nat)
    requires Lists(cats, kids) && AllAtDepth(cats, ids, d) && NoRepeats(ids) && ids != [] && ids[0] in kids
    requires ids[0] in cats
    requires AllAtDepth(cats, ids[1..], d) && AllAtDepth(cats, kids[ids[0]], d + 1)
    requires i < |Flat(cats, kids, kids[ids[0]], d + 1)| && j < |Flat(cats, kids, ids[1..], d)|
    ensures Parent(cats, Flat(cats, kids, kids[ids[0]], d + 1)[i].0) != Parent(cats, Flat(cats, kids, ids[1..], d)[j].0)
  {
    hide Flat, Lists, AllAtDepth;
    FlatEntry(cats, kids, kids[ids[0]], d + 1, i);
    FlatEntry(cats, kids, ids[1..], d, j);
    var (x, e) := Flat(cats, kids, kids[ids[0]], d + 1)[i];
    var (y, g) := Flat(cats, kids, ids[1..], d)[j];
    BelowOneOnly(cats, kids, ids, x, e - d);
    if Parent(cats, x) == Parent(cats, y) {
      SiblingDepth(cats, x, y, e, g);
      assert false;
    }
  }

  predicate InOrderBy(r: (int, int) -> bool, ids: seq<int>) {
    forall i, j | 0 <= i < j < |ids| :: r(ids[i], ids[j])
  }

  ghost predicate ListsInOrderBy(cats: Categories, kids: map<int, seq<int>>, r: (int, int) -> bool)
    requires Lists(cats, kids)
  {
    forall p, d: nat | AtDepth(cats, p, d) :: InOrderBy(r, kids[p])
  }

  predicate SiblingPairs(cats: Categories, r: (int, int) -> bool, f: seq<(int, nat)>) {
    forall i, j | 0 <= i < j < |f| && Parent(cats, f[i].0) == Parent(cats, f[j].0) :: r(f[i].0, f[j].0)
  }

  /** Siblings stand in the listing as they stand in their list. */
  lemma {:induction false} FlatSiblings(cats: Categories, kids: map<int, seq<int>>, ids: seq<int>, d: nat,
                                        r: (int, int) -> bool)
    requires Lists(cats, kids) && ListsInOrderBy(cats, kids, r)
    requires AllAtDepth(cats, ids, d) && NoRepeats(ids) && InOrderBy(r, ids)
    ensures SiblingPairs(cats, r, Flat(cats, kids, ids, d))
    decreases |cats.Keys| - d, |ids|
  {
    hide *;
    if ids == [] {
      NoPairs(cats, kids, d, r);
    } else {
      FlatUnfold(cats, kids, ids, d);
      PartsAreFit(cats, kids, ids, d, r);
      var id := ids[0];
      var below, beside := Flat(cats, kids, kids[id], d + 1), Flat(cats, kids, ids[1..], d);
      FlatSiblings(cats, kids, kids[id], d + 1, r);
      FlatSiblings(cats, kids, ids[1..], d, r);
      forall k | 0 <= k < |below| ensures Parent(cats, id) != Parent(cats, below[k].0) {
        NoSiblingBelow(cats, kids, id, d, k);
      }
      forall k | 0 <= k < |beside| && Parent(cats, id) == Parent(cats, beside[k].0) ensures r(id, beside[k].0) {
        SiblingIsBeside(cats, kids, ids, d, k, r);
      }
      forall i, j | 0 <= i < |below| && 0 <= j < |beside|
        ensures Parent(cats, below[i].0) != Parent(cats, beside[j].0)
      {
        NoSiblingAcross(cats, kids, ids, d, i, j);
      }
      SiblingPairsConcat(cats, r, (id, d), below, beside);
    }
  }

  lemma NoPairs(cats: Categories, kids: map<int, seq<int>>, d: nat, r: (int, int) -> bool)
    requires Lists(cats, kids) && AllAtDepth(cats, [], d)
    ensures SiblingPairs(cats, r, Flat(cats, kids, [], d))
  {
  }

  lemma SiblingPairsConcat(cats: Categories, r: (int, int) -> bool, head: (int, nat), below: seq<(int, nat)>,
                           beside: seq<(int, nat)>)
    requires SiblingPairs(cats, r, below) && SiblingPairs(cats, r, beside)
    requires forall k | 0 <= k < |below| :: Parent(cats, head.0) != Parent(cats, below[k].0)
    requires forall k | 0 <= k < |beside| && Parent(cats, head.0) == Parent(cats, beside[k].0) :: r(head.0, beside[k].0)
    requires forall i, j | 0 <= i < |below| && 0 <= j < |beside| ::
      Parent(cats, below[i].0) != Parent(cats, beside[j].0)
    ensures SiblingPairs(cats, r, [head] + below + beside)
  {
    hide Parent;
    var f, n := [head] + below + beside, 1 + |below|;
    assert forall k | 0 <= k < |f| :: f[k] == if k == 0 then head else if k < n then below[k - 1] else beside[k - n];
  }

  /** Both parts the listing recurses into meet its premises. */
  lemma PartsAreFit(cats: Categories, kids: map<int, seq<int>>, ids: seq<int>, d: nat, r: (int, int) -> bool)
    requires Lists(cats, kids) && ListsInOrderBy(cats, kids, r) && ids != []
    requires AllAtDepth(cats, ids, d) && NoRepeats(ids) && InOrderBy(r, ids)
    ensures AllAtDepth(cats, ids[1..], d) && NoRepeats(ids[1..]) && InOrderBy(r, ids[1..])
    ensures ids[0] in cats && ids[0] in kids && AtDepth(cats, ids[0], d) && d < |cats.Keys|
    ensures AllAtDepth(cats, kids[ids[0]], d + 1) && NoRepeats(kids[ids[0]]) && InOrderBy(r, kids[ids[0]])
  {
    hide InOrderBy, AtDepth;
    KidsAreDeeper(cats, kids, ids[0], d);
    RestInOrder(r, ids);
  }

  lemma RestInOrder(r: (int, int) -> bool, ids: seq<int>)
    requires ids != [] && InOrderBy(r, ids)
    ensures InOrderBy(r, ids[1..])
  {
  }

  // ----- What a display listing is

  /** `y` is on `x`'s parent chain, `x` itself included. */
  ghost predicate Below(cats: Categories, x: int, y: int) {
    exists n: nat :: Up(cats, x, n) == Some(y)
  }

  /** Exactly the categories whose parent chain reaches a nil or missing parent, with the chain's length. */
  ghost predicate ListsTheTree(cats: Categories, f: seq<(int, nat)>) {
    forall x, d: nat :: (x, d) in f <==> AtDepth(cats, x, d)
  }

  /** Ancestors first, and nothing foreign between a category and its descendants. */
  ghost predicate IsPreorder(cats: Categories, f: seq<(int, nat)>) {
    && (forall i, j | 0 <= i < |f| && 0 <= j < |f| && Below(cats, f[j].0, f[i].0) :: i <= j)
    && (forall i, j, k | 0 <= i < j < k < |f| && Below(cats, f[k].0, f[i].0) :: Below(cats, f[j].0, f[i].0))
  }

  predicate SiblingsInOrder(cats: Categories, f: seq<(int, nat)>) {
    forall i, j | 0 <= i < j < |f| && Parent(cats, f[i].0) == Parent(cats, f[j].0) :: NotAfter(cats, f[i].0, f[j].0)
  }

  ghost predicate Displays(cats: Categories, f: seq<(int, nat)>) {
    ListsTheTree(cats, f) && OnceEach(f) && IsPreorder(cats, f) && SiblingsInOrder(cats, f)
  }

  // ----- A display listing, column by column

  /** A chain of parent ids from the category up to one without a parent, or with a missing one. */
  ghost predicate ParentChain(cats: Categories, x: int, chain: seq<int>) {
    && chain != [] && chain[0] == x && (forall k | 0 <= k < |chain| :: chain[k] in cats)
    && (forall k | 0 <= k < |chain| - 1 :: cats[chain[k]].parent == Some(chain[k + 1]))
    && var last := cats[chain[|chain| - 1]].parent; last.None? || last.value !in cats
  }

  lemma {:induction false} ChainGivesDepth(cats: Categories, x: int, chain: seq<int>)
    requires ParentChain(cats, x, chain)
    ensures AtDepth(cats, x, |chain| - 1)
    decreases |chain|
  {
    if |chain| > 1 {
      assert forall k | 0 <= k < |chain[1..]| :: chain[1..][k] == chain[k + 1];
      ChainGivesDepth(cats, chain[1], chain[1..]);
    }
  }

  lemma {:induction false} DepthGivesChain(cats: Categories, x: int, d: nat) returns (chain: seq<int>)
    requires AtDepth(cats, x, d)
    ensures ParentChain(cats, x, chain) && |chain| == d + 1
    decreases d
  {
    if d == 0 {
      chain := [x];
    } else {
      var rest := DepthGivesChain(cats, Parent(cats, x).value, d - 1);
      chain := [x] + rest;
    }
  }

  /** A category is listed at a depth if and only if a chain of that many parent ids leads from it to a
      category whose parent is absent or missing. */
  lemma ListedByChain(cats: Categories, f: seq<(int, nat)>, x: int, d: nat)
    requires Displays(cats, f)
    ensures (x, d) in f <==> exists chain :: ParentChain(cats, x, chain) && |chain| == d + 1
  {
    hide AtDepth, ParentChain;
    if (x, d) in f {
      var chain := DepthGivesChain(cats, x, d);
    }
    if chain :| ParentChain(cats, x, chain) && |chain| == d + 1 {
      ChainGivesDepth(cats, x, chain);
    }
  }

  /** Of two categories listed under one parent, or both at the top, the first has the smaller sort order, an
      absent one counting as zero; or they are equal and its name is the same or smaller where they differ. */
  lemma SiblingsByColumns(cats: Categories, f: seq<(int, nat)>, i: nat, j: nat)
    requires Displays(cats, f) && i < j < |f|
    requires f[i].0 in cats && f[j].0 in cats && Parent(cats, f[i].0) == Parent(cats, f[j].0)
    ensures var a, b := cats[f[i].0], cats[f[j].0];
      var m := if a.sortOrder.Some? then a.sortOrder.value else 0;
      var n := if b.sortOrder.Some? then b.sortOrder.value else 0;
      m < n || (m == n && (a.name == b.name || exists k: nat :: DifferAt(a.name, b.name, k)))
  {
    var a, b := cats[f[i].0], cats[f[j].0];
    hide ListsTheTree, OnceEach, IsPreorder;
    assert NotAfter(cats, f[i].0, f[j].0);
    LessAtFirstDifference(a.name, b.name);
    KeyOrder(a, b, a);
    hide StringLess, DifferAt;
  }

  // ----- The flattened forest is a display listing

  lemma TreeIsListed(cats: Categories, kids: map<int, seq<int>>, roots: seq<int>, x: int, d: nat)
    requires Lists(cats, kids) && ListsRoots(cats, roots) && AllAtDepth(cats, roots, 0)
    ensures (x, d) in Flat(cats, kids, roots, 0) <==> AtDepth(cats, x, d)
  {
    FlatMembers(cats, kids, roots, 0, x, d);
  }

  /** Whatever is below an entry stands in the block that starts there. */
  lemma BelowIsInBlock(cats: Categories, kids: map<int, seq<int>>, f: seq<(int, nat)>, i: nat, k: nat)
    requires Lists(cats, kids) && OnceEach(f) && i < |f| && k < |f|
    requires HoldsSubtreeAt(cats, kids, f, i) && AtDepth(cats, f[k].0, f[k].1) && Below(cats, f[k].0, f[i].0)
    ensures i <= k < i + |Flat(cats, kids, [f[i].0], f[i].1)|
  {
    hide Flat, Lists, AtDepth;
    var (x, e) := f[i];
    var (y, g) := f[k];
    var n: nat :| Up(cats, y, n) == Some(x);
    DepthBelow(cats, y, n, x, e);
    DepthIsUnique(cats, y, g, n + e);
    FlatMembers(cats, kids, [x], e, y, g);
    var block := Flat(cats, kids, [x], e);
    assert LeadsInto(cats, y, g - e, [x]);
    assert (y, g) in block;
    var m :| 0 <= m < |block| && block[m] == (y, g);
    assert f[i..i + |block|][m] == f[i + m];
  }

  lemma BlockIsBelow(cats: Categories, kids: map<int, seq<int>>, f: seq<(int, nat)>, i: nat, j: nat)
    requires Lists(cats, kids) && i < |f|
    requires HoldsSubtreeAt(cats, kids, f, i) && i <= j < i + |Flat(cats, kids, [f[i].0], f[i].1)|
    ensures Below(cats, f[j].0, f[i].0)
  {
    hide Flat, Lists, AtDepth;
    var (x, e) := f[i];
    var block := Flat(cats, kids, [x], e);
    assert f[i..i + |block|][j - i] == f[j];
    FlatEntry(cats, kids, [x], e, j - i);
  }

  lemma FlatIsPreorder(cats: Categories, kids: map<int, seq<int>>, roots: seq<int>)
    requires Lists(cats, kids) && NoRepeats(roots) && AllAtDepth(cats, roots, 0)
    ensures IsPreorder(cats, Flat(cats, kids, roots, 0))
  {
    hide Flat, Lists, AllAtDepth, AtDepth, Below, HoldsSubtreeAt;
    var f := Flat(cats, kids, roots, 0);
    FlatOnceEach(cats, kids, roots, 0);
    forall i, k | 0 <= i < |f| && 0 <= k < |f| && Below(cats, f[k].0, f[i].0)
      ensures i <= k && forall j | i < j < k :: Below(cats, f[j].0, f[i].0)
    {
      SubtreeIsContiguous(cats, kids, roots, 0, i);
      FlatEntry(cats, kids, roots, 0, k);
      BelowIsInBlock(cats, kids, f, i, k);
      forall j | i < j < k ensures Below(cats, f[j].0, f[i].0) {
        BlockIsBelow(cats, kids, f, i, j);
      }
    }
  }

  /** Flattening sorted child lists from the sorted roots gives a display listing. */
  lemma FlatDisplays(cats: Categories, kids: map<int, seq<int>>, roots: seq<int>)
    requires Lists(cats, kids) && SortedLists(cats, kids)
    requires ListsRoots(cats, roots) && InOrder(cats, roots) && AllAtDepth(cats, roots, 0)
    ensures Displays(cats, Flat(cats, kids, roots, 0))
  {
    var f := Flat(cats, kids, roots, 0);
    var sorts := (x, y) => NotAfter(cats, x, y);
    assert NoRepeats(roots) && InOrderBy(sorts, roots) && ListsInOrderBy(cats, kids, sorts);
    hide Flat, Lists, SortedLists, AllAtDepth, AtDepth, IsPreorder, OnceEach;
    FlatOnceEach(cats, kids, roots, 0);
    FlatIsPreorder(cats, kids, roots);
    forall x, d: nat ensures (x, d) in f <==> AtDepth(cats, x, d) {
      TreeIsListed(cats, kids, roots, x, d);
    }
    FlatSiblings(cats, kids, roots, 0, sorts);
  }

  // ----- The map's iteration order does not show

  lemma BelowSelf(cats: Categories, x: int)
    requires x in cats
    ensures Below(cats, x, x)
  {
    assert Up(cats, x, 0) == Some(x);
  }

  lemma BelowParent(cats: Categories, x: int, y: int)
    requires Parent(cats, x).Some? && Below(cats, Parent(cats, x).value, y)
    ensures Below(cats, x, y)
  {
    var n: nat :| Up(cats, Parent(cats, x).value, n) == Some(y);
    assert Up(cats, x, n + 1) == Some(y);
  }

  lemma BelowIsDeeper(cats: Categories, x: int, d: nat, y: int, e: nat)
    requires Below(cats, x, y) && AtDepth(cats, x, d) && AtDepth(cats, y, e)
    ensures e <= d && (d == e ==> x == y)
  {
    var n: nat :| Up(cats, x, n) == Some(y);
    DepthBelow(cats, x, n, y, e);
    DepthIsUnique(cats, x, d, n + e);
  }

  /** Two categories, neither above the other, hang from different siblings. */
  lemma {:induction false} ChainsPart(cats: Categories, x: int, d: nat, y: int, e: nat) returns (a: int, b: int)
    requires AtDepth(cats, x, d) && AtDepth(cats, y, e) && !Below(cats, x, y) && !Below(cats, y, x)
    ensures Below(cats, x, a) && Below(cats, y, b) && a != b && Parent(cats, a) == Parent(cats, b)
    decreases d + e, e
  {
    hide Below;
    BelowSelf(cats, x);
    BelowSelf(cats, y);
    if Parent(cats, x) == Parent(cats, y) {
      a, b := x, y;
    } else if d < e {
      b, a := ChainsPart(cats, y, e, x, d);
    } else if d == e {
      var p, q := Parent(cats, x).value, Parent(cats, y).value;
      if Below(cats, p, q) { BelowIsDeeper(cats, p, d - 1, q, d - 1); }
      if Below(cats, q, p) { BelowIsDeeper(cats, q, d - 1, p, d - 1); }
      a, b := ChainsPart(cats, p, d - 1, q, d - 1);
      BelowParent(cats, x, a);
      BelowParent(cats, y, b);
    } else {
      var p := Parent(cats, x).value;
      if Below(cats, p, y) { BelowParent(cats, x, y); }
      if Below(cats, y, p) {
        BelowIsDeeper(cats, y, e, p, d - 1);
        BelowSelf(cats, p);
        BelowParent(cats, x, p);
        assert false;
      }
      a, b := ChainsPart(cats, p, d - 1, y, e);
      BelowParent(cats, x, a);
    }
  }

  lemma ChainEndIsListed(cats: Categories, f: seq<(int, nat)>, x: int, d: nat, a: int) returns (k: nat)
    requires ListsTheTree(cats, f) && AtDepth(cats, x, d) && Below(cats, x, a)
    ensures k < |f| && f[k].0 == a && AtDepth(cats, a, f[k].1)
  {
    var n: nat :| Up(cats, x, n) == Some(a);
    ChainIsShorter(cats, x, d, n);
    assert (a, d - n) in f;
    k :| k < |f| && f[k] == (a, d - n);
  }

  lemma {:induction false} ChainIsShorter(cats: Categories, x: int, d: nat, n: nat)
    requires AtDepth(cats, x, d) && Up(cats, x, n).Some?
    ensures n <= d && AtDepth(cats, Up(cats, x, n).value, d - n)
    decreases n
  {
    if n != 0 {
      ChainIsShorter(cats, Parent(cats, x).value, d - 1, n - 1);
    }
  }

  /** Of two entries, neither above the other, the earlier one's branch sorts first. */
  lemma EarlierBranch(cats: Categories, f: seq<(int, nat)>, i: nat, j: nat, a: int, b: int)
    requires Displays(cats, f) && i < j < |f|
    requires Below(cats, f[i].0, a) && Below(cats, f[j].0, b) && a != b && Parent(cats, a) == Parent(cats, b)
    ensures NotAfter(cats, a, b)
  {
    hide Below, AtDepth, NotAfter;
    assert (forall k | 0 <= k < |f| :: f[k] in f);
    var m := ChainEndIsListed(cats, f, f[i].0, f[i].1, a);
    var n := ChainEndIsListed(cats, f, f[j].0, f[j].1, b);
    assert m <= i && n <= j;
    if n < m {
      assert Below(cats, f[m].0, f[n].0);
      SiblingDepth(cats, a, b, f[m].1, f[n].1);
      BelowIsDeeper(cats, a, f[m].1, b, f[n].1);
      assert false;
    }
  }

  /** Two display listings cannot put the same two entries in different orders. */
  lemma NoClash(cats: Categories, f: seq<(int, nat)>, g: seq<(int, nat)>, i: nat, j: nat, k: nat, l: nat)
    requires Displays(cats, f) && Displays(cats, g) && SiblingKeysDiffer(cats)
    requires i < j < |f| && k < l < |g|
    requires f[i] != f[j]
    ensures f[i] != g[l] || f[j] != g[k]
  {
    hide Below, AtDepth, NotAfter;
    if f[i] == g[l] && f[j] == g[k] {
      var (x, d) := f[i];
      var (y, e) := f[j];
      assert (x, d) in f && (y, e) in f;
      assert !Below(cats, x, y) && !Below(cats, y, x);
      var a, b := ChainsPart(cats, x, d, y, e);
      EarlierBranch(cats, f, i, j, a, b);
      EarlierBranch(cats, g, k, l, b, a);
      SiblingsTie(cats, x, d, a, y, e, b);
      assert false;
    }
  }

  lemma SiblingsTie(cats: Categories, x: int, d: nat, a: int, y: int, e: nat, b: int)
    requires AtDepth(cats, x, d) && Below(cats, x, a) && AtDepth(cats, y, e) && Below(cats, y, b)
    requires a != b && Parent(cats, a) == Parent(cats, b) && SiblingKeysDiffer(cats)
    ensures !(NotAfter(cats, a, b) && NotAfter(cats, b, a))
  {
    var n: nat :| Up(cats, x, n) == Some(a);
    var m: nat :| Up(cats, y, m) == Some(b);
    ChainIsShorter(cats, x, d, n);
    ChainIsShorter(cats, y, e, m);
    SiblingDepth(cats, a, b, d - n, e - m);
    hide Up, IsRoot, KeyLess, SameKey;
    KeyOrder(cats[a], cats[b], cats[a]);
  }

  lemma {:induction false} PrefixesAgree(cats: Categories, f: seq<(int, nat)>, g: seq<(int, nat)>, k: nat)
    requires Displays(cats, f) && Displays(cats, g) && SiblingKeysDiffer(cats) && k <= |f| && k <= |g|
    ensures f[..k] == g[..k]
    decreases k
  {
    hide *;
    if k != 0 {
      PrefixesAgree(cats, f, g, k - 1);
      NextAgrees(cats, f, g, k - 1);
      assert f[..k] == f[..k - 1] + [f[k - 1]] && g[..k] == g[..k - 1] + [g[k - 1]];
    }
  }

  lemma NextAgrees(cats: Categories, f: seq<(int, nat)>, g: seq<(int, nat)>, n: nat)
    requires Displays(cats, f) && Displays(cats, g) && SiblingKeysDiffer(cats) && n < |f| && n < |g|
    requires f[..n] == g[..n]
    ensures f[n] == g[n]
  {
    hide SiblingKeysDiffer, IsPreorder, SiblingsInOrder, AtDepth;
    if f[n] != g[n] {
      var l := LaterPlace(cats, f, g, n);
      var j := LaterPlace(cats, g, f, n);
      NoClash(cats, f, g, n, j, n, l);
      assert false;
    }
  }

  /** An entry of `f` at the first difference comes later in `g`. */
  lemma LaterPlace(cats: Categories, f: seq<(int, nat)>, g: seq<(int, nat)>, n: nat) returns (l: nat)
    requires ListsTheTree(cats, f) && ListsTheTree(cats, g) && OnceEach(f)
    requires n < |f| && n < |g| && f[..n] == g[..n] && f[n] != g[n]
    ensures n < l < |g| && g[l] == f[n]
  {
    assert f[n] in f;
    assert f[n] == (f[n].0, f[n].1) && f[n] in g;
    assert forall m | 0 <= m < n :: g[m] == g[..n][m] == f[..n][m] == f[m];
    l :| 0 <= l < |g| && g[l] == f[n];
  }

  /** With different keys for siblings there is only one display listing: neither the iteration
      order of the node map nor the order of the rows can be seen in the result. */
  lemma DisplayIsUnique(cats: Categories, f: seq<(int, nat)>, g: seq<(int, nat)>)
    requires Displays(cats, f) && Displays(cats, g) && SiblingKeysDiffer(cats)
    ensures f == g
  {
    var k := if |f| <= |g| then |f| else |g|;
    PrefixesAgree(cats, f, g, k);
    hide SiblingKeysDiffer, IsPreorder, SiblingsInOrder, AtDepth;
    if |f| < |g| {
      HoldsMore(cats, f, g);
      assert false;
    } else if |g| < |f| {
      HoldsMore(cats, g, f);
      assert false;
    }
  }

  lemma HoldsMore(cats: Categories, f: seq<(int, nat)>, g: seq<(int, nat)>)
    requires ListsTheTree(cats, f) && ListsTheTree(cats, g) && OnceEach(g) && |f| < |g|
    ensures f != g[..|f|]
  {
    hide AtDepth;
    var (x, d) := g[|f|];
    assert (x, d) in g;
    assert (x, d) in f;
    var k :| 0 <= k < |f| && f[k] == (x, d);
    assert g[..|f|][k] == g[k];
  }

  // ----- Sorted lists of the same siblings

  /** The same siblings, each once. */
  ghost predicate Rearranges(b: seq<int>, a: seq<int>) {
    NoRepeats(b) && (forall x | x in b :: x in a) && (forall x | x in a :: x in b)
  }

  predicate KeysDiffer(cats: Categories, ids: seq<int>) {
    forall i, j | 0 <= i < j < |ids| :: ids[i] in cats && ids[j] in cats && !SameKey(cats[ids[i]], cats[ids[j]])
  }

  lemma HeadIsIn(a: seq<int>, b: seq<int>)
    requires a != [] && forall x | x in a :: x in b
    ensures b != [] && a[0] in b
  {
    var x := a[0];
    assert x in a;
  }

  lemma {:induction false} SortedOnce(cats: Categories, a: seq<int>, b: seq<int>)
    requires NoRepeats(a) && InOrder(cats, a) && InOrder(cats, b) && Rearranges(b, a) && KeysDiffer(cats, a)
    ensures a == b
    decreases |a|
  {
    if a != [] { HeadIsIn(a, b); }
    if b != [] { HeadIsIn(b, a); }
    if a != [] {
      if a[0] != b[0] {
        var i :| 0 <= i < |a| && a[i] == b[0];
        var j :| 0 <= j < |b| && b[j] == a[0];
        assert NotAfter(cats, a[0], a[i]) && NotAfter(cats, b[0], b[j]);
        KeyOrder(cats[a[0]], cats[a[i]], cats[a[0]]);
        assert false;
      }
      assert a == [a[0]] + a[1..] && b == [b[0]] + b[1..];
      forall x ensures x in b[1..] <==> x in a[1..] {
        assert x in a <==> x == a[0] || x in a[1..];
        assert x in b <==> x == b[0] || x in b[1..];
        assert a[0] !in a[1..] && b[0] !in b[1..];
      }
      SortedOnce(cats, a[1..], b[1..]);
    }
  }

  lemma SwapTied(cats: Categories, a: seq<int>, i: nat, j: nat)
    requires NoRepeats(a) && InOrder(cats, a) && i < j < |a|
    requires a[i] in cats && a[j] in cats && SameKey(cats[a[i]], cats[a[j]])
    ensures Rearranges(a[i := a[j]][j := a[i]], a) && InOrder(cats, a[i := a[j]][j := a[i]])
  {
    var b := a[i := a[j]][j := a[i]];
    forall x ensures x in b <==> x in a {
      if x in a {
        var k :| 0 <= k < |a| && a[k] == x;
        assert b[if k == i then j else if k == j then i else k] == x;
      }
    }
    hide StringLess;
    forall m, n | 0 <= m < n < |b| ensures NotAfter(cats, b[m], b[n]) {
      var c := a[if m == i then j else if m == j then i else m];
      var d := a[if n == i then j else if n == j then i else n];
      assert b[m] == c && b[n] == d;
      KeyOrder(cats[a[i]], cats[a[m]], cats[a[j]]);
      KeyOrder(cats[a[i]], cats[a[n]], cats[a[j]]);
      assert NotAfter(cats, a[m], a[n]);
    }
  }

  // ----- Ties decide whether the order is open

  ghost function Insert(cats: Categories, ids: seq<int>, x: int): (r: seq<int>)
    requires InOrder(cats, ids) && NoRepeats(ids) && x in cats && x !in ids
    ensures NoRepeats(r) && forall y :: y in r <==> y == x || y in ids
  {
    if ids == [] then [x]
    else if NotAfter(cats, x, ids[0]) then [x] + ids
    else
      var rest := Insert(cats, ids[1..], x);
      assert ids[0] !in ids[1..] && forall k | 0 <= k < |rest| :: rest[k] in rest;
      [ids[0]] + rest
  }

  lemma {:induction false} InsertKeepsOrder(cats: Categories, ids: seq<int>, x: int)
    requires InOrder(cats, ids) && NoRepeats(ids) && x in cats && x !in ids && forall y | y in ids :: y in cats
    ensures InOrder(cats, Insert(cats, ids, x))
  {
    if ids != [] {
      var y := ids[0];
      assert y in ids;
      hide KeyLess, SameKey;
      if NotAfter(cats, x, y) {
        forall j | 0 <= j < |ids| ensures NotAfter(cats, x, ids[j]) {
          assert ids[j] in ids;
          KeyOrder(cats[x], cats[y], cats[ids[j]]);
          KeyOrder(cats[y], cats[ids[j]], cats[y]);
        }
      } else {
        InsertKeepsOrder(cats, ids[1..], x);
        KeyOrder(cats[x], cats[y], cats[x]);
        var rest := Insert(cats, ids[1..], x);
        forall j | 0 <= j < |rest| ensures NotAfter(cats, y, rest[j]) {
          assert rest[j] in rest;
        }
      }
    }
  }

  ghost function SortedIds(cats: Categories, s: set<int>): (ids: seq<int>)
    requires s <= cats.Keys
    ensures NoRepeats(ids) && InOrder(cats, ids) && forall x :: x in ids <==> x in s
  {
    if s == {} then []
    else
      var x := Element(s);
      var rest := SortedIds(cats, s - {x});
      InsertKeepsOrder(cats, rest, x);
      Insert(cats, rest, x)
  }

  ghost function SortedKids(cats: Categories): map<int, seq<int>> {
    map p | p in cats :: SortedIds(cats, set x | x in cats && Parent(cats, x) == Some(p))
  }

  ghost function SortedRoots(cats: Categories): seq<int> {
    SortedIds(cats, set x | x in cats && IsRoot(cats, x))
  }

  lemma SortedForest(cats: Categories)
    ensures Lists(cats, SortedKids(cats)) && SortedLists(cats, SortedKids(cats))
    ensures ListsRoots(cats, SortedRoots(cats)) && InOrder(cats, SortedRoots(cats))
    ensures AllAtDepth(cats, SortedRoots(cats), 0)
  {
    var kids := SortedKids(cats);
    hide InOrder, NoRepeats;
    forall p | p in kids
      ensures NoRepeats(kids[p]) && InOrder(cats, kids[p]) && forall x :: x in kids[p] <==> Parent(cats, x) == Some(p)
    {
    }
    forall p, d: nat | AtDepth(cats, p, d) ensures InOrder(cats, kids[p]) {
      UpFromTop(cats, p, 0);
    }
  }

  /** A list in which `x` comes first never has `y` before `x`. */
  predicate Keeps(x: int, y: int, a: int, b: int) {
    !(a == y && b == x)
  }

  /** Sorted lists that put `x` before its sibling `y` give a display listing that does. */
  lemma ListedBefore(cats: Categories, kids: map<int, seq<int>>, roots: seq<int>, x: int, y: int)
    requires Lists(cats, kids) && SortedLists(cats, kids)
    requires ListsRoots(cats, roots) && InOrder(cats, roots) && AllAtDepth(cats, roots, 0)
    requires Parent(cats, x) == Parent(cats, y)
    requires InOrderBy((a, b) => Keeps(x, y, a, b), roots)
    requires forall p | p in kids :: InOrderBy((a, b) => Keeps(x, y, a, b), kids[p])
    ensures var f := Flat(cats, kids, roots, 0);
      Displays(cats, f) && forall i, j | 0 <= i < j < |f| :: !(f[i].0 == y && f[j].0 == x)
  {
    FlatDisplays(cats, kids, roots);
    var r := (a, b) => Keeps(x, y, a, b);
    assert NoRepeats(roots);
    assert ListsInOrderBy(cats, kids, r) by {
      forall p, d: nat | AtDepth(cats, p, d) ensures InOrderBy(r, kids[p]) {
        UpFromTop(cats, p, 0);
      }
    }
    var f := Flat(cats, kids, roots, 0);
    hide Flat, Lists, SortedLists, Displays, InOrder, AllAtDepth, ListsRoots, ListsInOrderBy, InOrderBy;
    FlatSiblings(cats, kids, roots, 0, r);
    forall i, j | 0 <= i < j < |f| ensures !(f[i].0 == y && f[j].0 == x) {
      if Parent(cats, f[i].0) == Parent(cats, f[j].0) {
        assert r(f[i].0, f[j].0);
      }
    }
  }

  /** Swapping two tied siblings in their list. */
  lemma SwappedKeeps(cats: Categories, a: seq<int>, i: nat, j: nat)
    requires NoRepeats(a) && InOrder(cats, a) && i < j < |a|
    requires a[i] in cats && a[j] in cats && SameKey(cats[a[i]], cats[a[j]])
    ensures var b := a[i := a[j]][j := a[i]];
      && Rearranges(b, a) && InOrder(cats, b)
      && InOrderBy((m, n) => Keeps(a[i], a[j], m, n), a) && InOrderBy((m, n) => Keeps(a[j], a[i], m, n), b)
  {
    SwapTied(cats, a, i, j);
    hide InOrder, SameKey;
  }

  lemma DifferentDisplays(cats: Categories, f: seq<(int, nat)>, g: seq<(int, nat)>, x: int, y: int, d: nat)
    requires ListsTheTree(cats, f) && AtDepth(cats, x, d) && AtDepth(cats, y, d) && x != y
    requires forall i, j | 0 <= i < j < |f| :: !(f[i].0 == y && f[j].0 == x)
    requires forall i, j | 0 <= i < j < |g| :: !(g[i].0 == x && g[j].0 == y)
    ensures f != g
  {
    hide AtDepth;
    assert (x, d) in f && (y, d) in f;
    var i :| 0 <= i < |f| && f[i] == (x, d);
    var j :| 0 <= j < |f| && f[j] == (y, d);
    assert i < j;
  }

  lemma TiedRoots(cats: Categories, i: nat, j: nat) returns (f: seq<(int, nat)>, g: seq<(int, nat)>)
    requires i < j < |SortedRoots(cats)|
    requires var a := SortedRoots(cats);
      a[i] in cats && a[j] in cats && SameKey(cats[a[i]], cats[a[j]])
    ensures Displays(cats, f) && Displays(cats, g) && f != g
  {
    hide *;
    SortedForest(cats);
    f, g := TiedRootLists(cats, SortedKids(cats), SortedRoots(cats), i, j);
  }

  lemma TiedRootLists(cats: Categories, kids: map<int, seq<int>>, a: seq<int>, i: nat, j: nat)
    returns (f: seq<(int, nat)>, g: seq<(int, nat)>)
    requires Lists(cats, kids) && SortedLists(cats, kids) && i < j < |a|
    requires ListsRoots(cats, a) && InOrder(cats, a) && AllAtDepth(cats, a, 0)
    requires a[i] in cats && a[j] in cats && SameKey(cats[a[i]], cats[a[j]])
    ensures Displays(cats, f) && Displays(cats, g) && f != g
  {
    hide *;
    var b, x, y := a[i := a[j]][j := a[i]], a[i], a[j];
    RootsDiffer(cats, a, i, j);
    SwappedKeeps(cats, a, i, j);
    RootsRearranged(cats, a, b);
    NoListHoldsBoth(cats, kids, x, y);
    ListedBefore(cats, kids, a, x, y);
    ListedBefore(cats, kids, b, y, x);
    f, g := Flat(cats, kids, a, 0), Flat(cats, kids, b, 0);
    DisplaysAll(cats, f);
    DifferentDisplays(cats, f, g, x, y, 0);
  }

  lemma RootsDiffer(cats: Categories, a: seq<int>, i: nat, j: nat)
    requires ListsRoots(cats, a) && i < j < |a|
    ensures NoRepeats(a) && a[i] != a[j] && IsRoot(cats, a[i]) && IsRoot(cats, a[j])
    ensures AtDepth(cats, a[i], 0) && AtDepth(cats, a[j], 0) && Parent(cats, a[i]) == Parent(cats, a[j])
  {
    assert a[i] in a && a[j] in a;
  }

  lemma RootsRearranged(cats: Categories, a: seq<int>, b: seq<int>)
    requires ListsRoots(cats, a) && Rearranges(b, a)
    ensures ListsRoots(cats, b) && AllAtDepth(cats, b, 0)
    ensures Rearranges(a, b)
  {
  }

  lemma NoListHoldsBoth(cats: Categories, kids: map<int, seq<int>>, x: int, y: int)
    requires Lists(cats, kids) && x != y && (IsRoot(cats, x) || IsRoot(cats, y))
    ensures forall p | p in kids :: InOrderBy((a, b) => Keeps(x, y, a, b), kids[p])
    ensures forall p | p in kids :: InOrderBy((a, b) => Keeps(y, x, a, b), kids[p])
  {
    forall p | p in kids
      ensures InOrderBy((a, b) => Keeps(x, y, a, b), kids[p]) && InOrderBy((a, b) => Keeps(y, x, a, b), kids[p])
    {
      assert x !in kids[p] || y !in kids[p];
    }
  }

  /** Replacing one sorted list by another of the same children. */
  lemma ListReplaced(cats: Categories, kids: map<int, seq<int>>, p: int, b: seq<int>)
    requires Lists(cats, kids) && SortedLists(cats, kids) && p in kids
    requires Rearranges(b, kids[p]) && InOrder(cats, b)
    ensures Lists(cats, kids[p := b]) && SortedLists(cats, kids[p := b])
  {
    hide InOrder;
    assert Lists(cats, kids[p := b]);
  }

  lemma NoOtherListHoldsBoth(cats: Categories, kids: map<int, seq<int>>, roots: seq<int>, p: int, x: int, y: int)
    requires Lists(cats, kids) && ListsRoots(cats, roots) && Parent(cats, x) == Some(p) && Parent(cats, y) == Some(p)
    requires p in kids && InOrderBy((a, b) => Keeps(x, y, a, b), kids[p])
    ensures InOrderBy((a, b) => Keeps(x, y, a, b), roots)
    ensures forall q | q in kids :: InOrderBy((a, b) => Keeps(x, y, a, b), kids[q])
  {
    forall q | q in kids ensures InOrderBy((a, b) => Keeps(x, y, a, b), kids[q]) {
      assert q == p || x !in kids[q];
    }
    assert x !in roots;
  }

  /** The two siblings at places `i` and `j` of a sorted child list. */
  lemma TiedSiblings(cats: Categories, kids: map<int, seq<int>>, p: int, e: nat, i: nat, j: nat)
    requires Lists(cats, kids) && SortedLists(cats, kids) && AtDepth(cats, p, e) && p in kids && i < j < |kids[p]|
    ensures var a := kids[p];
      && NoRepeats(a) && InOrder(cats, a) && a[i] != a[j]
      && AtDepth(cats, a[i], e + 1) && AtDepth(cats, a[j], e + 1)
      && Parent(cats, a[i]) == Some(p) && Parent(cats, a[j]) == Some(p)
  {
    KidsAreDeeper(cats, kids, p, e);
    var a := kids[p];
    assert a[i] in a && a[j] in a;
    hide InOrder, AtDepth, Parent;
  }

  /** Swapping two tied children changes the listing, not its being one. */
  lemma TiedLists(cats: Categories, kids: map<int, seq<int>>, roots: seq<int>, p: int, e: nat, i: nat, j: nat)
    returns (f: seq<(int, nat)>, g: seq<(int, nat)>)
    requires Lists(cats, kids) && SortedLists(cats, kids) && AtDepth(cats, p, e) && p in kids && i < j < |kids[p]|
    requires ListsRoots(cats, roots) && InOrder(cats, roots) && AllAtDepth(cats, roots, 0)
    requires kids[p][i] in cats && kids[p][j] in cats && SameKey(cats[kids[p][i]], cats[kids[p][j]])
    ensures Displays(cats, f) && Displays(cats, g) && f != g
  {
    hide *;
    var a := kids[p];
    var b, x, y := a[i := a[j]][j := a[i]], a[i], a[j];
    TiedSiblings(cats, kids, p, e, i, j);
    SwappedKeeps(cats, a, i, j);
    ListReplaced(cats, kids, p, b);
    var swapped := kids[p := b];
    NoOtherListHoldsBoth(cats, kids, roots, p, x, y);
    NoOtherListHoldsBoth(cats, swapped, roots, p, y, x);
    ListedBefore(cats, kids, roots, x, y);
    ListedBefore(cats, swapped, roots, y, x);
    f, g := Flat(cats, kids, roots, 0), Flat(cats, swapped, roots, 0);
    DisplaysAll(cats, f);
    DifferentDisplays(cats, f, g, x, y, e + 1);
  }

  lemma TiedKids(cats: Categories, p: int, e: nat, i: nat, j: nat) returns (f: seq<(int, nat)>, g: seq<(int, nat)>)
    requires AtDepth(cats, p, e) && p in SortedKids(cats) && i < j < |SortedKids(cats)[p]|
    requires var a := SortedKids(cats)[p];
      a[i] in cats && a[j] in cats && SameKey(cats[a[i]], cats[a[j]])
    ensures Displays(cats, f) && Displays(cats, g) && f != g
  {
    hide *;
    SortedForest(cats);
    f, g := TiedLists(cats, SortedKids(cats), SortedRoots(cats), p, e, i, j);
  }

  lemma DisplaysAll(cats: Categories, f: seq<(int, nat)>)
    requires Displays(cats, f)
    ensures ListsTheTree(cats, f)
  {
  }

  lemma BothPlaces(list: seq<int>, x: int, y: int) returns (m: nat, n: nat)
    requires x in list && y in list && x != y
    ensures m < n < |list| && ((list[m] == x && list[n] == y) || (list[m] == y && list[n] == x))
  {
    var i :| 0 <= i < |list| && list[i] == x;
    var j :| 0 <= j < |list| && list[j] == y;
    m, n := if i < j then i else j, if i < j then j else i;
  }

  lemma InTheirList(cats: Categories, x: int, d: nat)
    requires AtDepth(cats, x, d)
    ensures x in cats
    ensures d == 0 ==> x in SortedRoots(cats)
    ensures d > 0 ==> Parent(cats, x).Some? && AtDepth(cats, Parent(cats, x).value, d - 1)
    ensures d > 0 ==> Parent(cats, x).value in SortedKids(cats) && x in SortedKids(cats)[Parent(cats, x).value]
  {
    SortedForest(cats);
    UpFromTop(cats, x, 0);
    hide SortedKids, SortedRoots, InOrder;
  }

  lemma TieGivesTwo(cats: Categories, x: int, y: int, d: nat) returns (f: seq<(int, nat)>, g: seq<(int, nat)>)
    requires AtDepth(cats, x, d) && AtDepth(cats, y, d) && x != y && Parent(cats, x) == Parent(cats, y)
    requires x in cats && y in cats && SameKey(cats[x], cats[y])
    ensures Displays(cats, f) && Displays(cats, g) && f != g
  {
    assert SameKey(cats[y], cats[x]);
    hide *;
    InTheirList(cats, x, d);
    InTheirList(cats, y, d);
    if d == 0 {
      var m, n := BothPlaces(SortedRoots(cats), x, y);
      f, g := TiedRoots(cats, m, n);
    } else {
      var p := Parent(cats, x).value;
      var m, n := BothPlaces(SortedKids(cats)[p], x, y);
      f, g := TiedKids(cats, p, d - 1, m, n);
    }
  }

  /** The categories alone determine the listing, whatever the iteration order of the node map, if
      and only if no two listed siblings have the same sort order and name. */
  lemma OrderIsFixedIffKeysDiffer(cats: Categories)
    ensures (forall f, g | Displays(cats, f) && Displays(cats, g) :: f == g) <==> SiblingKeysDiffer(cats)
  {
    hide Displays;
    if SiblingKeysDiffer(cats) {
      forall f, g | Displays(cats, f) && Displays(cats, g) ensures f == g {
        DisplayIsUnique(cats, f, g);
      }
    } else {
      var x, y, d: nat :| AtDepth(cats, x, d) && AtDepth(cats, y, d) && x != y && Parent(cats, x) == Parent(cats, y) &&
        SameKey(cats[x], cats[y]);
      UpFromTop(cats, x, 0);
      UpFromTop(cats, y, 0);
      var f, g := TieGivesTwo(cats, x, y, d);
    }
  }

  ghost predicate NamesDiffer(cats: Categories) {
    forall x, y | x in cats && y in cats && x != y :: cats[x].name != cats[y].name
  }

  /** The table keeps one user's category names apart, so the order of a user's tree is fixed. */
  lemma UniqueNamesFixTheOrder(cats: Categories, f: seq<(int, nat)>, g: seq<(int, nat)>)
    requires NamesDiffer(cats) && Displays(cats, f) && Displays(cats, g)
    ensures f == g
  {
    forall x, y, d: nat | AtDepth(cats, x, d) && AtDepth(cats, y, d) && x != y && Parent(cats, x) == Parent(cats, y)
      ensures !SameKey(cats[x], cats[y])
    {
      UpFromTop(cats, x, 0);
      UpFromTop(cats, y, 0);
    }
    hide Displays;
    DisplayIsUnique(cats, f, g);
  }
}
