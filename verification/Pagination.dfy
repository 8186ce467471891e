/** Infinite scroll: the cursor queries and page handler of srv/server.go against the
    client of srv/static/modules/pagination.js, with the database changing between steps. */
module Pagination {
  import opened Options
  import opened Sequences
  import opened Tables
  import opened ArticleStore
  import opened Exclusions
  import opened Counts

  const PAGE_SIZE := 50
  const WINDOW := 2 * PAGE_SIZE

  datatype Cursor = Cursor(time: int, id: int)

  // ----- Order and queries

  /** Sort keys: time first, then id. */
  predicate KeyBelow(time: int, id: int, c: Cursor) {
    time < c.time || (time == c.time && id < c.id)
  }

  predicate Below(a: Article, c: Cursor) {
    KeyBelow(a.SortTime(), a.id, c)
  }

  function CursorAt(a: Article): Cursor {
    Cursor(a.SortTime(), a.id)
  }

  predicate Descending(rows: seq<Article>) {
    forall i, j | 0 <= i < j < |rows| :: Below(rows[j], CursorAt(rows[i]))
  }

  function Insert(a: Article, rows: seq<Article>): seq<Article> {
    if rows == [] || Below(rows[0], CursorAt(a)) then [a] + rows else [rows[0]] + Insert(a, rows[1..])
  }

  /** ORDER BY COALESCE(published_at, fetched_at) DESC, id DESC */
  function Sorted(rows: seq<Article>): seq<Article> {
    if rows == [] then [] else Insert(rows[0], Sorted(rows[1..]))
  }

  function Take<T>(s: seq<T>, n: nat): seq<T> {
    if |s| <= n then s else s[..n]
  }

  function RowsBelow(db: Db, user: int, c: Cursor): seq<Article> {
    Filter(UnreadRows(db, user), (a: Article) => Below(a, c))
  }

  /** ListUnreadArticlesCursor with LIMIT 100. */
  function WindowBelow(db: Db, user: int, c: Cursor): seq<Article> {
    Take(Sorted(RowsBelow(db, user, c)), WINDOW)
  }

  /** The page the handler answers with: window, filter, truncate. */
  ghost function PageBelow(db: Db, m: Matcher, user: int, c: Cursor): seq<Article> {
    Take(Survivors(db, m, user, WindowBelow(db, user, c)), PAGE_SIZE)
  }

  // ----- What a window is

  /** The first rows of the listing: all of them, or a full window with only later rows left out. */
  ghost predicate IsWindow(rows: seq<Article>, w: seq<Article>) {
    && Descending(w)
    && (forall a | a in w :: a in rows)
    && (forall a | a in rows && a !in w :: |w| == WINDOW && forall b | b in w :: Below(a, CursorAt(b)))
  }

  lemma {:induction false} InsertSorts(a: Article, rows: seq<Article>)
    requires Descending(rows) && forall b | b in rows :: b.id != a.id
    ensures Descending(Insert(a, rows)) && |Insert(a, rows)| == |rows| + 1
    ensures forall b :: b in Insert(a, rows) <==> b == a || b in rows
  {
    if rows != [] && !Below(rows[0], CursorAt(a)) {
      InsertSorts(a, rows[1..]);
      assert rows == [rows[0]] + rows[1..];
      forall b | b in Insert(a, rows[1..])
        ensures Below(b, CursorAt(rows[0]))
      {
      }
    }
  }

  lemma {:induction false} SortedSorts(rows: seq<Article>)
    requires forall i, j | 0 <= i < j < |rows| :: rows[i].id < rows[j].id
    ensures Descending(Sorted(rows)) && |Sorted(rows)| == |rows|
    ensures forall b :: b in Sorted(rows) <==> b in rows
  {
    if rows != [] {
      SortedSorts(rows[1..]);
      assert rows == [rows[0]] + rows[1..];
      InsertSorts(rows[0], Sorted(rows[1..]));
    }
  }

  lemma TakeIsWindow(rows: seq<Article>, sorted: seq<Article>)
    requires Descending(sorted) && forall a :: a in sorted <==> a in rows
    ensures IsWindow(rows, Take(sorted, WINDOW))
  {
    var w := Take(sorted, WINDOW);
    forall a, b | a in sorted && a !in w && b in w
      ensures Below(a, CursorAt(b))
    {
      var i :| 0 <= i < |sorted| && sorted[i] == a;
      var j :| 0 <= j < |w| && w[j] == b;
      assert i >= |w|;
    }
  }

  /** The cursor query returns the first rows below the cursor. */
  lemma QueryIsWindow(db: Db, user: int, c: Cursor)
    requires KeysApart(db.articles)
    ensures IsWindow(RowsBelow(db, user, c), WindowBelow(db, user, c))
  {
    var unread := (a: Article) => !a.isRead && Owns(db.feeds, user, a.feed);
    var byId := (a: Article, b: Article) => a.id < b.id;
    FilterKeepsPairs(db.articles, unread, byId);
    FilterKeepsPairs(UnreadRows(db, user), (a: Article) => Below(a, c), byId);
    SortedSorts(RowsBelow(db, user, c));
    hide Descending, Sorted, UnreadRows;
    TakeIsWindow(RowsBelow(db, user, c), Sorted(RowsBelow(db, user, c)));
  }

  /** The handler, given the rows in query order. */
  method GetUnreadPage(db: Db, m: Matcher, user: int, c: Cursor) returns (page: seq<Article>)
    ensures page == PageBelow(db, m, user, c)
  {
    hide WindowBelow, Survivors;
    var articles := WindowBelow(db, user, c);
    page := FilterAll(db, m, articles, user);
    if |page| > PAGE_SIZE {
      page := page[..PAGE_SIZE];
    }
  }

  // ----- The listing, column by column

  /** Later first; of two rows of one time the one with the greater id. A row's time is its publication
      time, or its fetch time when it has none. */
  ghost predicate ListedBefore(x: Article, y: Article) {
    match (x.body.publishedAt, y.body.publishedAt)
    case (Some(s), Some(t)) => s > t || (s == t && x.id > y.id)
    case (Some(s), None) => s > y.fetchedAt || (s == y.fetchedAt && x.id > y.id)
    case (None, Some(t)) => x.fetchedAt > t || (x.fetchedAt == t && x.id > y.id)
    case (None, None) => x.fetchedAt > y.fetchedAt || (x.fetchedAt == y.fetchedAt && x.id > y.id)
  }

  /** An unread row of one of the user's feeds, before the given time, or at it with a smaller id. */
  ghost predicate Matches(db: Db, user: int, time: int, id: int, a: Article) {
    && !a.isRead && (exists f | f in db.feeds :: f == a.feed && db.feeds[f].owner == Some(user))
    && match a.body.publishedAt
       case Some(t) => t < time || (t == time && a.id < id)
       case None => a.fetchedAt < time || (a.fetchedAt == time && a.id < id)
  }

  lemma {:induction false} InsertCounts(a: Article, rows: seq<Article>, p: Article -> bool)
    ensures |Filter(Insert(a, rows), p)| == |Filter(rows, p)| + if p(a) then 1 else 0
  {
    if rows != [] && !Below(rows[0], CursorAt(a)) {
      InsertCounts(a, rows[1..], p);
      assert Insert(a, rows) == [rows[0]] + Insert(a, rows[1..]);
    }
  }

  lemma {:induction false} SortedCounts(rows: seq<Article>, p: Article -> bool)
    ensures |Filter(Sorted(rows), p)| == |Filter(rows, p)|
  {
    if rows != [] {
      SortedCounts(rows[1..], p);
      InsertCounts(rows[0], Sorted(rows[1..]), p);
    }
  }

  lemma BelowIsListedAfter(x: Article, y: Article)
    ensures Below(y, CursorAt(x)) <==> ListedBefore(x, y)
    ensures ListedBefore(x, y) ==> !ListedBefore(y, x)
    ensures x.id != y.id ==> ListedBefore(x, y) || ListedBefore(y, x)
  {
  }

  lemma RowsBelowMatch(db: Db, user: int, time: int, id: int, p: Article -> bool)
    ensures Filter(RowsBelow(db, user, Cursor(time, id)), p) ==
            Filter(Filter(db.articles, (a: Article) => Matches(db, user, time, id, a)), p)
    ensures forall a :: a in RowsBelow(db, user, Cursor(time, id)) <==>
              a in db.articles && Matches(db, user, time, id, a)
  {
    FilterBoth(db.articles, (a: Article) => !a.isRead && Owns(db.feeds, user, a.feed),
               (a: Article) => Below(a, Cursor(time, id)), (a: Article) => Matches(db, user, time, id, a));
    FilterAgrees(UnreadRows(db, user), (a: Article) => Below(a, Cursor(time, id)),
                 (a: Article) => Below(a, Cursor(time, id)));
  }

  /** The position of a row is the number of rows listed before it. */
  lemma PositionCounts(rows: seq<Article>, k: nat)
    requires (forall i, j | 0 <= i < j < |rows| :: rows[i].id < rows[j].id) && k < |Sorted(rows)|
    ensures |Filter(rows, (x: Article) => ListedBefore(x, Sorted(rows)[k]))| == k
  {
    hide Sorted, Below, ListedBefore;
    var sorted := Sorted(rows);
    var before := (x: Article) => ListedBefore(x, Sorted(rows)[k]);
    SortedSorts(rows);
    SortedCounts(rows, before);
    forall i | 0 <= i < |sorted| ensures before(sorted[i]) <==> i < k {
      BelowIsListedAfter(sorted[i], sorted[k]);
      BelowIsListedAfter(sorted[k], sorted[i]);
      BelowIsListedAfter(sorted[k], sorted[k]);
    }
    FilterPrefix(sorted, k, before);
  }

  lemma SortedOrder(sorted: seq<Article>, i: nat, j: nat)
    requires Descending(sorted) && i < |sorted| && j < |sorted|
    ensures i < j <==> ListedBefore(sorted[i], sorted[j])
  {
    BelowIsListedAfter(sorted[i], sorted[j]);
    BelowIsListedAfter(sorted[j], sorted[i]);
    hide Below, ListedBefore;
  }

  lemma RowsBelowById(db: Db, user: int, c: Cursor)
    requires KeysApart(db.articles)
    ensures var rows := RowsBelow(db, user, c);
      forall i, j | 0 <= i < j < |rows| :: rows[i].id < rows[j].id
  {
    var byId := (a: Article, b: Article) => a.id < b.id;
    FilterKeepsPairs(db.articles, (a: Article) => !a.isRead && Owns(db.feeds, user, a.feed), byId);
    FilterKeepsPairs(UnreadRows(db, user), (a: Article) => Below(a, c), byId);
  }

  /** The rows the cursor query returns: the matching rows with fewer than a hundred others listed before
      them, in listing order. */
  lemma WindowByColumns(db: Db, user: int, time: int, id: int)
    requires KeysApart(db.articles)
    ensures var w := WindowBelow(db, user, Cursor(time, id));
      && (forall i, j | 0 <= i < |w| && 0 <= j < |w| :: i < j <==> ListedBefore(w[i], w[j]))
      && forall a :: a in w <==>
           && a in db.articles && Matches(db, user, time, id, a)
           && |Filter(Filter(db.articles, (x: Article) => Matches(db, user, time, id, x)),
                      (x: Article) => ListedBefore(x, a))| < 100
  {
    hide Sorted, Below, ListedBefore, UnreadRows, Matches, RowsBelow;
    var rows := RowsBelow(db, user, Cursor(time, id));
    var sorted, w := Sorted(rows), WindowBelow(db, user, Cursor(time, id));
    RowsBelowById(db, user, Cursor(time, id));
    SortedSorts(rows);
    forall i, j | 0 <= i < |w| && 0 <= j < |w| ensures i < j <==> ListedBefore(w[i], w[j]) {
      SortedOrder(sorted, i, j);
    }
    forall a ensures a in w <==>
      && a in db.articles && Matches(db, user, time, id, a)
      && |Filter(Filter(db.articles, (x: Article) => Matches(db, user, time, id, x)),
                 (x: Article) => ListedBefore(x, a))| < 100
    {
      RowsBelowMatch(db, user, time, id, (x: Article) => ListedBefore(x, a));
      if a in sorted {
        var k :| 0 <= k < |sorted| && sorted[k] == a;
        PositionCounts(rows, k);
        FilterAgrees(rows, (x: Article) => ListedBefore(x, sorted[k]), (x: Article) => ListedBefore(x, a));
        InWindowIff(sorted, k);
      }
    }
  }

  lemma InWindowIff(sorted: seq<Article>, k: nat)
    requires Descending(sorted) && k < |sorted|
    ensures sorted[k] in Take(sorted, WINDOW) <==> k < 100
  {
  }

  // ----- Client and server together

  datatype Flight = Idle | Requested(c: Cursor) | Replied(page: seq<Article>)

  datatype Sys = Sys(db: Db, cursor: Option<Cursor>, done: bool, flight: Flight, shown: seq<Article>)

  /** `Change` is any other activity: articles read, unread, inserted, deleted, rules edited. */
  datatype Step = Change(db: Db) | Start | Reply | Deliver | Fail

  ghost function Next(s: Sys, m: Matcher, user: int, step: Step): Sys {
    match step
    case Change(db) => s.(db := db)
    case Start => if s.flight == Idle && !s.done && s.cursor.Some? then s.(flight := Requested(s.cursor.value)) else s
    case Reply => if s.flight.Requested? then s.(flight := Replied(PageBelow(s.db, m, user, s.flight.c))) else s
    case Deliver =>
      if !s.flight.Replied? then s
      else
        var page := s.flight.page;
        if page == [] then s.(done := true, flight := Idle)
        else s.(done := s.done || |page| < PAGE_SIZE, cursor := Some(CursorAt(page[|page| - 1])),
                shown := s.shown + page, flight := Idle)
    case Fail => s.(flight := Idle)
  }

  ghost function Run(s: Sys, m: Matcher, user: int, steps: seq<Step>): Sys
    decreases |steps|
  {
    if steps == [] then s else Run(Next(s, m, user, steps[0]), m, user, steps[1..])
  }

  /** The server-rendered first page, from a listing by time that may order ties in any way. */
  ghost predicate FirstListing(db: Db, user: int, listing: seq<Article>) {
    && (forall a :: a in listing <==> a in UnreadRows(db, user))
    && (forall i, j | 0 <= i < j < |listing| :: listing[i].id != listing[j].id)
    && (forall i, j | 0 <= i < j < |listing| :: listing[i].SortTime() >= listing[j].SortTime())
  }

  ghost function FirstPage(db: Db, m: Matcher, user: int, listing: seq<Article>): seq<Article> {
    Take(Survivors(db, m, user, Take(listing, WINDOW)), PAGE_SIZE)
  }

  /** initPagination */
  ghost function Initial(db: Db, m: Matcher, user: int, listing: seq<Article>): Sys {
    var page := FirstPage(db, m, user, listing);
    Sys(db, if page == [] then None else Some(CursorAt(page[|page| - 1])), |page| < PAGE_SIZE, Idle, page)
  }

  // ----- Assumptions about the run

  /** Ids are unique and every row keeps the sort time its id was given. */
  ghost predicate KeysFixed(db: Db, key: int -> int) {
    KeysApart(db.articles) && forall a | a in db.articles :: a.SortTime() == key(a.id)
  }

  ghost predicate KeysFixedAlong(s: Sys, m: Matcher, user: int, steps: seq<Step>, key: int -> int)
    decreases |steps|
  {
    KeysFixed(s.db, key) && (steps != [] ==> KeysFixedAlong(Next(s, m, user, steps[0]), m, user, steps[1..], key))
  }

  /** The article is unread, the user's, and hit by no exclusion rule. */
  ghost predicate Visible(db: Db, m: Matcher, user: int, id: int) {
    exists a | a in UnreadRows(db, user) :: a.id == id && !Excluded(db, m, user, a)
  }

  ghost predicate VisibleAlong(s: Sys, m: Matcher, user: int, steps: seq<Step>, id: int)
    decreases |steps|
  {
    Visible(s.db, m, user, id) && (steps != [] ==> VisibleAlong(Next(s, m, user, steps[0]), m, user, steps[1..], id))
  }

  /** A full window keeps at least a page of survivors. */
  ghost predicate FillsPage(db: Db, m: Matcher, user: int, w: seq<Article>) {
    |w| == WINDOW ==> |Survivors(db, m, user, w)| >= PAGE_SIZE
  }

  ghost predicate FillsPagesAlong(s: Sys, m: Matcher, user: int, steps: seq<Step>)
    decreases |steps|
  {
    steps != [] ==>
      && (steps[0] == Reply && s.flight.Requested? ==> FillsPage(s.db, m, user, WindowBelow(s.db, user, s.flight.c)))
      && FillsPagesAlong(Next(s, m, user, steps[0]), m, user, steps[1..])
  }

  // ----- Order: what comes after the first page is strictly descending

  lemma BelowTransitive(a: Article, b: Article, c: Cursor)
    requires Below(a, CursorAt(b)) && Below(b, c)
    ensures Below(a, c)
  {
  }

  lemma DescendingConcat(a: seq<Article>, b: seq<Article>)
    requires Descending(a) && Descending(b)
    requires a != [] ==> forall x | x in b :: Below(x, CursorAt(a[|a| - 1]))
    ensures Descending(a + b)
  {
    forall i, j | 0 <= i < |a| && 0 <= j < |b|
      ensures Below(b[j], CursorAt(a[i]))
    {
      assert b[j] in b;
      if i < |a| - 1 {
        BelowTransitive(b[j], a[|a| - 1], CursorAt(a[i]));
      }
    }
  }

  /** Everything shown after the first page, in order, down to the cursor. */
  ghost predicate Orderly(s: Sys, key: int -> int, c0: Cursor, tail: seq<Article>) {
    && Descending(tail)
    && (forall a | a in tail :: Below(a, c0) && a.SortTime() == key(a.id))
    && s.cursor == Some(if tail == [] then c0 else CursorAt(tail[|tail| - 1]))
    && (s.done ==> s.flight == Idle)
    && match s.flight
       case Idle => true
       case Requested(c) => c == s.cursor.value
       case Replied(page) =>
         Descending(page) && forall a | a in page :: Below(a, s.cursor.value) && a.SortTime() == key(a.id)
  }

  lemma PageIsBelow(db: Db, m: Matcher, user: int, c: Cursor)
    requires KeysApart(db.articles)
    ensures var page := PageBelow(db, m, user, c);
            && Descending(page) && |page| <= PAGE_SIZE
            && forall a | a in page :: a in UnreadRows(db, user) && !Excluded(db, m, user, a) && Below(a, c)
  {
    hide *;
    QueryIsWindow(db, user, c);
    var w := WindowBelow(db, user, c);
    WindowParts(RowsBelow(db, user, c), w);
    RowsBelowAre(db, user, c);
    SurvivorsStayInOrder(db, m, user, w);
    PageIsTaken(db, m, user, c);
  }

  lemma PageIsTaken(db: Db, m: Matcher, user: int, c: Cursor)
    ensures var page, kept := PageBelow(db, m, user, c), Survivors(db, m, user, WindowBelow(db, user, c));
      page == Take(kept, PAGE_SIZE) && |page| <= PAGE_SIZE && forall a | a in page :: a in kept
  {
    hide Survivors, WindowBelow;
  }

  lemma WindowParts(rows: seq<Article>, w: seq<Article>)
    requires IsWindow(rows, w)
    ensures Descending(w) && forall a | a in w :: a in rows
  {
    hide Descending;
  }

  lemma RowsBelowAre(db: Db, user: int, c: Cursor)
    ensures forall a :: a in RowsBelow(db, user, c) <==> a in UnreadRows(db, user) && Below(a, c)
  {
    hide UnreadRows, Below;
  }

  lemma SurvivorsStayInOrder(db: Db, m: Matcher, user: int, w: seq<Article>)
    requires Descending(w)
    ensures Descending(Take(Survivors(db, m, user, w), PAGE_SIZE))
    ensures forall a | a in Survivors(db, m, user, w) :: a in w && !Excluded(db, m, user, a)
  {
    hide Excluded, Below;
    var after := (a: Article, b: Article) => Below(b, CursorAt(a));
    assert forall i, j | 0 <= i < j < |w| :: after(w[i], w[j]);
    FilterKeepsPairs(w, (a: Article) => !Excluded(db, m, user, a), after);
    var kept := Survivors(db, m, user, w);
    assert forall i, j | 0 <= i < j < |kept| :: after(kept[i], kept[j]);
  }

  /** What a step appends to the articles shown. */
  ghost function Appended(s: Sys, step: Step): seq<Article> {
    if step == Deliver && s.flight.Replied? then s.flight.page else []
  }

  lemma DeliverKeepsOrderly(s: Sys, m: Matcher, user: int, key: int -> int, c0: Cursor, tail: seq<Article>)
    requires Orderly(s, key, c0, tail) && s.flight.Replied?
    ensures Orderly(Next(s, m, user, Deliver), key, c0, tail + s.flight.page)
  {
    var page := s.flight.page;
    DescendingConcat(tail, page);
    if page == [] {
      assert tail + page == tail;
    }
    if tail != [] {
      forall a | a in page
        ensures Below(a, c0) && a.SortTime() == key(a.id)
      {
        BelowTransitive(a, tail[|tail| - 1], c0);
      }
    }
    hide Descending;
  }

  lemma NextKeepsOrderly(s: Sys, m: Matcher, user: int, step: Step, key: int -> int, c0: Cursor, tail: seq<Article>)
    requires KeysFixed(s.db, key) && Orderly(s, key, c0, tail)
    ensures Orderly(Next(s, m, user, step), key, c0, tail + Appended(s, step))
    ensures Next(s, m, user, step).shown == s.shown + Appended(s, step)
  {
    hide Descending, PageBelow, KeysFixed;
    if step == Deliver && s.flight.Replied? {
      hide Orderly;
      DeliverKeepsOrderly(s, m, user, key, c0, tail);
      assert s.flight.page == [] ==> s.shown + s.flight.page == s.shown;
    } else {
      assert tail + [] == tail && s.shown + [] == s.shown;
      if step == Reply && s.flight.Requested? {
        ReplyIsOrderly(s.db, m, user, s.flight.c, key);
      }
    }
  }

  lemma ReplyIsOrderly(db: Db, m: Matcher, user: int, c: Cursor, key: int -> int)
    requires KeysFixed(db, key)
    ensures var page := PageBelow(db, m, user, c);
      Descending(page) && forall a | a in page :: Below(a, c) && a.SortTime() == key(a.id)
  {
    RowKeys(db, user, key);
    hide Descending, PageBelow, UnreadRows, Excluded, Below;
    PageIsBelow(db, m, user, c);
  }

  /** Whatever happens meanwhile, what later pages add is strictly descending and below the
      first page's cursor, so no article is added twice. */
  lemma {:induction false} RunStaysOrderly(s: Sys, m: Matcher, user: int, steps: seq<Step>, key: int -> int,
                                           c0: Cursor, tail: seq<Article>) returns (more: seq<Article>)
    requires KeysFixedAlong(s, m, user, steps, key) && Orderly(s, key, c0, tail)
    ensures Orderly(Run(s, m, user, steps), key, c0, tail + more)
    ensures Run(s, m, user, steps).shown == s.shown + more
    decreases |steps|
  {
    hide Orderly, Next;
    if steps == [] {
      more := [];
      assert tail + [] == tail;
    } else {
      NextKeepsOrderly(s, m, user, steps[0], key, c0, tail);
      var rest := RunStaysOrderly(Next(s, m, user, steps[0]), m, user, steps[1..], key, c0,
                                  tail + Appended(s, steps[0]));
      more := Appended(s, steps[0]) + rest;
      assert tail + more == tail + Appended(s, steps[0]) + rest;
    }
  }

  // ----- Completeness: what stays visible is served

  predicate Shows(rows: seq<Article>, id: int) {
    exists a | a in rows :: a.id == id
  }

  /** The article has been added since the first page, or still lies ahead. */
  ghost predicate Ahead(s: Sys, key: int -> int, tail: seq<Article>, id: int) {
    || Shows(tail, id)
    || (&& !s.done && s.cursor.Some? && KeyBelow(key(id), id, s.cursor.value)
        && (s.flight.Replied? ==>
              || Shows(s.flight.page, id)
              || (|s.flight.page| == PAGE_SIZE &&
                  KeyBelow(key(id), id, CursorAt(s.flight.page[PAGE_SIZE - 1])))))
  }

  /** The page either contains a visible article below the cursor or is full and ends above it. */
  lemma PageCoversVisible(db: Db, m: Matcher, user: int, c: Cursor, a: Article)
    requires KeysApart(db.articles) && FillsPage(db, m, user, WindowBelow(db, user, c))
    requires a in UnreadRows(db, user) && !Excluded(db, m, user, a) && Below(a, c)
    ensures var page := PageBelow(db, m, user, c);
            a in page || (|page| == PAGE_SIZE && Below(a, CursorAt(page[PAGE_SIZE - 1])))
  {
    QueryIsWindow(db, user, c);
    var w := WindowBelow(db, user, c);
    var survivors := Survivors(db, m, user, w);
    assert a in RowsBelow(db, user, c);
    FilterKeepsPairs(w, (x: Article) => !Excluded(db, m, user, x), (x: Article, y: Article) => Below(y, CursorAt(x)));
    hide WindowBelow, UnreadRows, Excluded, RowsBelow;
    var page := PageBelow(db, m, user, c);
    if a in w {
      assert a in survivors;
      var k :| 0 <= k < |survivors| && survivors[k] == a;
      if |survivors| > PAGE_SIZE {
        assert page == survivors[..PAGE_SIZE];
        if k < PAGE_SIZE {
          assert page[k] == a;
        }
      }
    } else {
      assert |page| == PAGE_SIZE && page[PAGE_SIZE - 1] in page && page[PAGE_SIZE - 1] in survivors;
    }
  }

  lemma NextKeepsAhead(s: Sys, m: Matcher, user: int, step: Step, key: int -> int, c0: Cursor, tail: seq<Article>,
                       id: int)
    requires KeysFixed(s.db, key) && Orderly(s, key, c0, tail)
    requires Visible(s.db, m, user, id) && FillsPagesAlong(s, m, user, [step])
    requires Ahead(s, key, tail, id)
    ensures Ahead(Next(s, m, user, step), key, tail + Appended(s, step), id)
  {
    hide Descending, PageBelow, UnreadRows, Orderly;
    if Shows(tail, id) {
      ShowsEither(tail, Appended(s, step), id);
    } else if step == Reply && s.flight.Requested? {
      assert tail + [] == tail;
      ReplyCoversVisible(s, m, user, key, c0, tail, id);
    } else if step == Deliver && s.flight.Replied? && Shows(s.flight.page, id) {
      ShowsEither(tail, s.flight.page, id);
    } else {
      assert tail + [] == tail;
    }
  }

  lemma ShowsEither(a: seq<Article>, b: seq<Article>, id: int)
    ensures Shows(a + b, id) <==> Shows(a, id) || Shows(b, id)
  {
    assert forall x :: x in a + b <==> x in a || x in b;
  }

  lemma ReplyCoversVisible(s: Sys, m: Matcher, user: int, key: int -> int, c0: Cursor, tail: seq<Article>, id: int)
    requires KeysFixed(s.db, key) && Orderly(s, key, c0, tail) && s.flight.Requested?
    requires Visible(s.db, m, user, id) && FillsPagesAlong(s, m, user, [Reply])
    requires KeyBelow(key(id), id, s.cursor.value)
    ensures var page := PageBelow(s.db, m, user, s.flight.c);
      Shows(page, id) || (|page| == PAGE_SIZE && KeyBelow(key(id), id, CursorAt(page[PAGE_SIZE - 1])))
  {
    var a :| a in UnreadRows(s.db, user) && a.id == id && !Excluded(s.db, m, user, a);
    RowKeys(s.db, user, key);
    hide Descending, UnreadRows, PageBelow, Excluded, WindowBelow;
    PageCoversVisible(s.db, m, user, s.flight.c, a);
  }

  /** An article that lies ahead and stays visible is added before the client is done. */
  lemma {:induction false} VisibleStaysAhead(s: Sys, m: Matcher, user: int, steps: seq<Step>, key: int -> int,
                                             c0: Cursor, tail: seq<Article>, id: int) returns (more: seq<Article>)
    requires KeysFixedAlong(s, m, user, steps, key) && Orderly(s, key, c0, tail)
    requires VisibleAlong(s, m, user, steps, id) && FillsPagesAlong(s, m, user, steps)
    requires Ahead(s, key, tail, id)
    ensures Orderly(Run(s, m, user, steps), key, c0, tail + more)
    ensures Run(s, m, user, steps).shown == s.shown + more
    ensures Ahead(Run(s, m, user, steps), key, tail + more, id)
    decreases |steps|
  {
    hide Orderly, Next, Ahead, Visible, KeysFixed, FillsPage;
    if steps == [] {
      more := [];
      assert tail + [] == tail && s.shown + [] == s.shown;
    } else {
      var step, next := steps[0], Next(s, m, user, steps[0]);
      FillsFirst(s, m, user, steps);
      NextKeepsOrderly(s, m, user, step, key, c0, tail);
      NextKeepsAhead(s, m, user, step, key, c0, tail, id);
      var rest := VisibleStaysAhead(next, m, user, steps[1..], key, c0, tail + Appended(s, step), id);
      more := Appended(s, step) + rest;
      assert tail + more == tail + Appended(s, step) + rest;
    }
  }

  lemma FillsFirst(s: Sys, m: Matcher, user: int, steps: seq<Step>)
    requires steps != [] && FillsPagesAlong(s, m, user, steps)
    ensures FillsPagesAlong(s, m, user, [steps[0]])
  {
    hide FillsPage, Next;
    assert [steps[0]][1..] == [];
  }

  // ----- The first page

  /** No two of the rows share a sort time. */
  ghost predicate DistinctTimes(rows: seq<Article>) {
    forall a, b | a in rows && b in rows && a.SortTime() == b.SortTime() :: a == b
  }

  /** Where the first page ends, the id order agrees with what the page holds: nothing on the
      page lies below its cursor, and what is not on it does. */
  ghost predicate CleanCut(db: Db, m: Matcher, user: int, page: seq<Article>) {
    |page| == PAGE_SIZE ==>
      && (forall a | a in page :: !Below(a, CursorAt(page[PAGE_SIZE - 1])))
      && (forall a | a in UnreadRows(db, user) && !Excluded(db, m, user, a) && a !in page ::
            Below(a, CursorAt(page[PAGE_SIZE - 1])))
  }

  predicate ByTime(rows: seq<Article>) {
    forall i, j | 0 <= i < j < |rows| :: rows[i].id != rows[j].id && rows[i].SortTime() >= rows[j].SortTime()
  }

  lemma SurvivorsByTime(db: Db, m: Matcher, user: int, w: seq<Article>)
    requires ByTime(w)
    ensures ByTime(Survivors(db, m, user, w))
    ensures forall a | a in Survivors(db, m, user, w) :: a in w && !Excluded(db, m, user, a)
  {
    hide Excluded;
    var later := (a: Article, b: Article) => a.id != b.id && a.SortTime() >= b.SortTime();
    FilterKeepsPairs(w, (a: Article) => !Excluded(db, m, user, a), later);
    var kept := Survivors(db, m, user, w);
    assert forall i, j | 0 <= i < j < |kept| :: later(kept[i], kept[j]);
  }

  lemma FirstPageRows(db: Db, m: Matcher, user: int, listing: seq<Article>)
    requires FirstListing(db, user, listing)
    ensures var page := FirstPage(db, m, user, listing);
            && |page| <= PAGE_SIZE
            && (forall a | a in page :: a in UnreadRows(db, user) && !Excluded(db, m, user, a))
            && ByTime(page)
  {
    hide UnreadRows, Excluded, Survivors;
    var w := Take(listing, WINDOW);
    assert forall a | a in w :: a in listing;
    SurvivorsByTime(db, m, user, w);
  }

  /** When the first window fills a page, whatever is visible but not on the page comes
      no later in time than its last article. */
  lemma FirstPageCovers(db: Db, m: Matcher, user: int, listing: seq<Article>, a: Article)
    requires FirstListing(db, user, listing) && FillsPage(db, m, user, Take(listing, WINDOW))
    requires a in UnreadRows(db, user) && !Excluded(db, m, user, a) && a !in FirstPage(db, m, user, listing)
    ensures var page := FirstPage(db, m, user, listing);
            |page| == PAGE_SIZE && a.SortTime() <= page[PAGE_SIZE - 1].SortTime()
  {
    hide UnreadRows, Excluded;
    var w := Take(listing, WINDOW);
    var survivors, page := Survivors(db, m, user, w), FirstPage(db, m, user, listing);
    SurvivorsByTime(db, m, user, w);
    assert forall k | 0 <= k < |page| :: page[k] == survivors[k];
    assert forall i | 0 <= i < |w| :: w[i] == listing[i];
    if a in w {
      assert a in survivors;
      var k :| 0 <= k < |survivors| && survivors[k] == a;
    } else {
      var i :| 0 <= i < |listing| && listing[i] == a;
      var last := survivors[PAGE_SIZE - 1];
      assert page[PAGE_SIZE - 1] == last && last in survivors && last in w;
      var j :| 0 <= j < |w| && w[j] == last;
      assert listing[j] == last;
    }
  }

  /** Distinct sort times make the cut clean. */
  lemma DistinctTimesCutCleanly(db: Db, m: Matcher, user: int, listing: seq<Article>)
    requires FirstListing(db, user, listing) && FillsPage(db, m, user, Take(listing, WINDOW))
    requires DistinctTimes(UnreadRows(db, user))
    ensures CleanCut(db, m, user, FirstPage(db, m, user, listing))
  {
    FirstPageRows(db, m, user, listing);
    hide UnreadRows, Excluded, FirstPage;
    var page := FirstPage(db, m, user, listing);
    if |page| == PAGE_SIZE {
      var last := page[PAGE_SIZE - 1];
      assert last in page;
      forall a | a in page
        ensures !Below(a, CursorAt(last))
      {
        var i :| 0 <= i < |page| && page[i] == a;
      }
      forall a | a in UnreadRows(db, user) && !Excluded(db, m, user, a) && a !in page
        ensures Below(a, CursorAt(last))
      {
        FirstPageCovers(db, m, user, listing, a);
      }
    }
  }

  lemma {:induction false} DoneShowsNoMore(s: Sys, m: Matcher, user: int, steps: seq<Step>)
    requires s.done && s.flight == Idle
    ensures Run(s, m, user, steps).shown == s.shown && Run(s, m, user, steps).done
    decreases |steps|
  {
    if steps != [] {
      DoneShowsNoMore(Next(s, m, user, steps[0]), m, user, steps[1..]);
    }
  }

  lemma InitialIsOrderly(db: Db, m: Matcher, user: int, listing: seq<Article>, key: int -> int)
    requires |FirstPage(db, m, user, listing)| == PAGE_SIZE
    ensures Orderly(Initial(db, m, user, listing), key, CursorAt(FirstPage(db, m, user, listing)[PAGE_SIZE - 1]), [])
  {
  }

  ghost predicate IdsDistinct(rows: seq<Article>) {
    forall i, j | 0 <= i < j < |rows| :: rows[i].id != rows[j].id
  }

  /** No article is shown twice, in any interleaving of loads with other activity. */
  lemma NothingShownTwice(db: Db, m: Matcher, user: int, listing: seq<Article>, steps: seq<Step>, key: int -> int)
    requires FirstListing(db, user, listing) && CleanCut(db, m, user, FirstPage(db, m, user, listing))
    requires KeysFixedAlong(Initial(db, m, user, listing), m, user, steps, key)
    ensures IdsDistinct(Run(Initial(db, m, user, listing), m, user, steps).shown)
  {
    FirstPageRows(db, m, user, listing);
    var s, page := Initial(db, m, user, listing), FirstPage(db, m, user, listing);
    RowKeys(db, user, key);
    hide UnreadRows, Excluded, FirstPage, Run, KeysFixed;
    if |page| < PAGE_SIZE {
      DoneShowsNoMore(s, m, user, steps);
    } else {
      var c0 := CursorAt(page[PAGE_SIZE - 1]);
      InitialIsOrderly(db, m, user, listing, key);
      var more := RunStaysOrderly(s, m, user, steps, key, c0, []);
      assert [] + more == more;
      TailsJoin(page, more, key, c0);
    }
  }

  lemma RowKeys(db: Db, user: int, key: int -> int)
    requires KeysFixed(db, key)
    ensures forall a | a in UnreadRows(db, user) :: a.SortTime() == key(a.id)
    ensures forall a, b | a in UnreadRows(db, user) && b in UnreadRows(db, user) && a.id == b.id :: a == b
  {
    assert forall a | a in UnreadRows(db, user) :: a in db.articles;
    hide UnreadRows;
  }

  lemma TailsJoin(page: seq<Article>, more: seq<Article>, key: int -> int, c0: Cursor)
    requires IdsDistinct(page) && Descending(more)
    requires forall a | a in page :: !Below(a, c0) && a.SortTime() == key(a.id)
    requires forall a | a in more :: Below(a, c0) && a.SortTime() == key(a.id)
    ensures IdsDistinct(page + more)
  {
    forall i, j | 0 <= i < j < |more|
      ensures more[i].id != more[j].id
    {
      assert more[i] in more && more[j] in more;
    }
    forall i, j | 0 <= i < |page| && 0 <= j < |more|
      ensures page[i].id != more[j].id
    {
      assert page[i] in page && more[j] in more;
    }
  }

  /** Every article that stays visible from the first page until the client is done is shown. */
  lemma VisibleIsShown(db: Db, m: Matcher, user: int, listing: seq<Article>, steps: seq<Step>, key: int -> int, id: int)
    requires FirstListing(db, user, listing) && CleanCut(db, m, user, FirstPage(db, m, user, listing))
    requires FillsPage(db, m, user, Take(listing, WINDOW))
    requires KeysFixedAlong(Initial(db, m, user, listing), m, user, steps, key)
    requires FillsPagesAlong(Initial(db, m, user, listing), m, user, steps)
    requires VisibleAlong(Initial(db, m, user, listing), m, user, steps, id)
    requires Run(Initial(db, m, user, listing), m, user, steps).done
    ensures Shows(Run(Initial(db, m, user, listing), m, user, steps).shown, id)
  {
    hide *;
    var s, page := Initial(db, m, user, listing), FirstPage(db, m, user, listing);
    InitialParts(db, m, user, listing);
    VisibleNow(s, m, user, steps, id);
    KeysFixedNow(s, m, user, steps, key);
    if Shows(page, id) {
      ShownStays(s, m, user, steps, id);
    } else {
      MissingIsAhead(db, m, user, listing, key, id);
      var c0 := CursorAt(page[PAGE_SIZE - 1]);
      InitialIsOrderly(db, m, user, listing, key);
      var more := VisibleStaysAhead(s, m, user, steps, key, c0, [], id);
      assert [] + more == more;
      AheadNoLonger(Run(s, m, user, steps), key, more, id);
      ShowsEither(page, more, id);
    }
  }

  lemma InitialParts(db: Db, m: Matcher, user: int, listing: seq<Article>)
    ensures var s := Initial(db, m, user, listing);
      s.db == db && s.shown == FirstPage(db, m, user, listing) && s.flight == Idle
  {
    hide FirstPage;
  }

  lemma VisibleNow(s: Sys, m: Matcher, user: int, steps: seq<Step>, id: int)
    requires VisibleAlong(s, m, user, steps, id)
    ensures Visible(s.db, m, user, id)
  {
    hide Visible;
  }

  lemma KeysFixedNow(s: Sys, m: Matcher, user: int, steps: seq<Step>, key: int -> int)
    requires KeysFixedAlong(s, m, user, steps, key)
    ensures KeysFixed(s.db, key)
  {
    hide KeysFixed;
  }

  /** A visible article that a clean first page does not show lies ahead of its cursor. */
  lemma MissingIsAhead(db: Db, m: Matcher, user: int, listing: seq<Article>, key: int -> int, id: int)
    requires FirstListing(db, user, listing) && CleanCut(db, m, user, FirstPage(db, m, user, listing))
    requires FillsPage(db, m, user, Take(listing, WINDOW)) && KeysFixed(db, key)
    requires Visible(db, m, user, id) && !Shows(FirstPage(db, m, user, listing), id)
    ensures |FirstPage(db, m, user, listing)| == PAGE_SIZE > 0
    ensures Ahead(Initial(db, m, user, listing), key, [], id)
  {
    hide UnreadRows, Excluded, FirstPage, FirstListing, FillsPage, KeysFixed;
    var a :| a in UnreadRows(db, user) && a.id == id && !Excluded(db, m, user, a);
    FirstPageCovers(db, m, user, listing, a);
    RowKeys(db, user, key);
    var c := CursorAt(FirstPage(db, m, user, listing)[PAGE_SIZE - 1]);
    assert Below(a, c);
    AheadAtFirst(db, m, user, listing, key, id);
  }

  lemma AheadAtFirst(db: Db, m: Matcher, user: int, listing: seq<Article>, key: int -> int, id: int)
    requires |FirstPage(db, m, user, listing)| == PAGE_SIZE
    requires KeyBelow(key(id), id, CursorAt(FirstPage(db, m, user, listing)[PAGE_SIZE - 1]))
    ensures Ahead(Initial(db, m, user, listing), key, [], id)
  {
    hide FirstPage, KeyBelow;
  }

  lemma AheadNoLonger(s: Sys, key: int -> int, more: seq<Article>, id: int)
    requires Ahead(s, key, more, id) && s.done
    ensures Shows(more, id)
  {
  }

  lemma {:induction false} ShownStays(s: Sys, m: Matcher, user: int, steps: seq<Step>, id: int)
    requires Shows(s.shown, id)
    ensures Shows(Run(s, m, user, steps).shown, id)
    decreases |steps|
  {
    if steps != [] {
      var a :| a in s.shown && a.id == id;
      assert a in Next(s, m, user, steps[0]).shown;
      ShownStays(Next(s, m, user, steps[0]), m, user, steps[1..], id);
    }
  }

  /** Infinite scroll is exactly-once under interference: with distinct sort times, no article
      is shown twice and every article that stays visible until the end is shown. */
  lemma ExactlyOnce(db: Db, m: Matcher, user: int, listing: seq<Article>, steps: seq<Step>, key: int -> int)
    requires FirstListing(db, user, listing) && DistinctTimes(UnreadRows(db, user))
    requires FillsPage(db, m, user, Take(listing, WINDOW))
    requires KeysFixedAlong(Initial(db, m, user, listing), m, user, steps, key)
    requires FillsPagesAlong(Initial(db, m, user, listing), m, user, steps)
    ensures var after := Run(Initial(db, m, user, listing), m, user, steps);
            && IdsDistinct(after.shown)
            && (after.done ==> forall id | VisibleAlong(Initial(db, m, user, listing), m, user, steps, id) ::
                  Shows(after.shown, id))
  {
    DistinctTimesCutCleanly(db, m, user, listing);
    NothingShownTwice(db, m, user, listing, steps, key);
    var s := Initial(db, m, user, listing);
    hide *;
    forall id | Run(s, m, user, steps).done && VisibleAlong(s, m, user, steps, id)
      ensures Shows(Run(s, m, user, steps).shown, id)
    {
      VisibleIsShown(db, m, user, listing, steps, key, id);
    }
  }

  // ----- Where the guarantee ends

  ghost predicate Quiet(steps: seq<Step>) {
    forall i | 0 <= i < |steps| :: !steps[i].Change?
  }

  lemma {:induction false} QuietStaysVisible(s: Sys, m: Matcher, user: int, steps: seq<Step>, id: int)
    requires Quiet(steps) && Visible(s.db, m, user, id)
    ensures VisibleAlong(s, m, user, steps, id)
    decreases |steps|
  {
    if steps != [] {
      QuietStaysVisible(Next(s, m, user, steps[0]), m, user, steps[1..], id);
    }
  }

  lemma {:induction false} QuietKeepsKeys(s: Sys, m: Matcher, user: int, steps: seq<Step>, key: int -> int)
    requires Quiet(steps) && KeysFixed(s.db, key)
    ensures KeysFixedAlong(s, m, user, steps, key)
    decreases |steps|
  {
    if steps != [] {
      hide KeysFixed;
      QuietKeepsKeys(Next(s, m, user, steps[0]), m, user, steps[1..], key);
    }
  }

  ghost predicate AllVisibleShown(db: Db, m: Matcher, user: int, shown: seq<Article>) {
    forall a | a in UnreadRows(db, user) && !Excluded(db, m, user, a) :: Shows(shown, a.id)
  }

  /** An article of the first page that lies below its cursor is shown a second time. */
  lemma OverlapIsShownTwice(db: Db, m: Matcher, user: int, listing: seq<Article>, steps: seq<Step>, key: int -> int,
                            a: Article)
    requires FirstListing(db, user, listing) && KeysFixed(db, key) && Quiet(steps)
    requires FillsPagesAlong(Initial(db, m, user, listing), m, user, steps)
    requires Run(Initial(db, m, user, listing), m, user, steps).done
    requires var page := FirstPage(db, m, user, listing);
             |page| == PAGE_SIZE && a in page && Below(a, CursorAt(page[PAGE_SIZE - 1]))
    ensures !IdsDistinct(Run(Initial(db, m, user, listing), m, user, steps).shown)
  {
    hide *;
    var s, page := Initial(db, m, user, listing), FirstPage(db, m, user, listing);
    InitialParts(db, m, user, listing);
    OverlapIsAhead(db, m, user, listing, key, a);
    QuietStaysVisible(s, m, user, steps, a.id);
    QuietKeepsKeys(s, m, user, steps, key);
    InitialIsOrderly(db, m, user, listing, key);
    var c0 := CursorAt(page[PAGE_SIZE - 1]);
    var more := VisibleStaysAhead(s, m, user, steps, key, c0, [], a.id);
    assert [] + more == more;
    AheadNoLonger(Run(s, m, user, steps), key, more, a.id);
    SameIdTwice(page, more, a);
  }

  /** An article of the first page below its cursor is still ahead. */
  lemma OverlapIsAhead(db: Db, m: Matcher, user: int, listing: seq<Article>, key: int -> int, a: Article)
    requires FirstListing(db, user, listing) && KeysFixed(db, key)
    requires var page := FirstPage(db, m, user, listing);
             |page| == PAGE_SIZE && a in page && Below(a, CursorAt(page[PAGE_SIZE - 1]))
    ensures Visible(db, m, user, a.id) && Ahead(Initial(db, m, user, listing), key, [], a.id)
  {
    FirstPageRows(db, m, user, listing);
    RowKeys(db, user, key);
    hide UnreadRows, Excluded, FirstPage, FirstListing, KeysFixed;
  }

  lemma SameIdTwice(page: seq<Article>, more: seq<Article>, a: Article)
    requires a in page && Shows(more, a.id)
    ensures !IdsDistinct(page + more)
  {
    var i :| 0 <= i < |page| && page[i] == a;
    var j :| 0 <= j < |more| && more[j].id == a.id;
    assert (page + more)[i].id == (page + more)[|page| + j].id;
  }

  /** A visible article that is neither on the first page nor below its cursor is never shown. */
  lemma GapIsNeverShown(db: Db, m: Matcher, user: int, listing: seq<Article>, steps: seq<Step>, key: int -> int,
                        a: Article)
    requires FirstListing(db, user, listing) && a in UnreadRows(db, user)
    requires KeysFixedAlong(Initial(db, m, user, listing), m, user, steps, key)
    requires var page := FirstPage(db, m, user, listing);
             |page| == PAGE_SIZE && a !in page && !Below(a, CursorAt(page[PAGE_SIZE - 1]))
    ensures !Shows(Run(Initial(db, m, user, listing), m, user, steps).shown, a.id)
  {
    var s, page := Initial(db, m, user, listing), FirstPage(db, m, user, listing);
    FirstPageRows(db, m, user, listing);
    RowKeys(db, user, key);
    InitialIsOrderly(db, m, user, listing, key);
    hide UnreadRows, Excluded, FirstPage, Run, KeysFixed;
    var more := RunStaysOrderly(s, m, user, steps, key, CursorAt(page[PAGE_SIZE - 1]), []);
    assert [] + more == more;
    forall b | b in page + more
      ensures b.id != a.id
    {
    }
  }

  /** The first query has no id tie-break. Left to itself, a client whose first page is full
      shows every visible article exactly once if and only if that page is cut cleanly. */
  lemma QuietRunIsExactIffCleanCut(db: Db, m: Matcher, user: int, listing: seq<Article>, steps: seq<Step>,
                                   key: int -> int)
    requires FirstListing(db, user, listing) && KeysFixed(db, key) && Quiet(steps)
    requires FillsPage(db, m, user, Take(listing, WINDOW)) && |FirstPage(db, m, user, listing)| == PAGE_SIZE
    requires FillsPagesAlong(Initial(db, m, user, listing), m, user, steps)
    requires Run(Initial(db, m, user, listing), m, user, steps).done
    ensures var shown := Run(Initial(db, m, user, listing), m, user, steps).shown;
            IdsDistinct(shown) && AllVisibleShown(db, m, user, shown) <==>
            CleanCut(db, m, user, FirstPage(db, m, user, listing))
  {
    var s, page := Initial(db, m, user, listing), FirstPage(db, m, user, listing);
    var shown := Run(s, m, user, steps).shown;
    QuietKeepsKeys(s, m, user, steps, key);
    hide UnreadRows, Excluded, FirstPage, Run, KeysFixed, FillsPage, FirstListing;
    if CleanCut(db, m, user, page) {
      NothingShownTwice(db, m, user, listing, steps, key);
      forall a | a in UnreadRows(db, user) && !Excluded(db, m, user, a)
        ensures Shows(shown, a.id)
      {
        QuietStaysVisible(s, m, user, steps, a.id);
        VisibleIsShown(db, m, user, listing, steps, key, a.id);
      }
    }
    if IdsDistinct(shown) && AllVisibleShown(db, m, user, shown) {
      forall a | a in page
        ensures !Below(a, CursorAt(page[PAGE_SIZE - 1]))
      {
        if Below(a, CursorAt(page[PAGE_SIZE - 1])) {
          OverlapIsShownTwice(db, m, user, listing, steps, key, a);
        }
      }
      forall a | a in UnreadRows(db, user) && !Excluded(db, m, user, a) && a !in page
        ensures Below(a, CursorAt(page[PAGE_SIZE - 1]))
      {
        if !Below(a, CursorAt(page[PAGE_SIZE - 1])) {
          GapIsNeverShown(db, m, user, listing, steps, key, a);
        }
      }
    }
  }

  // ----- The missing tie-break at work

  function Tied(id: nat): Article {
    Article(id, 1, seq(id, i => 'g'), Body("t", None, None, None, None, None, None), 0, false, false)
  }

  /** One feed with fifty-one unread articles fetched in the same second. */
  function TiedDb(): Db {
    Db([7], map[1 := Feed(Some(7), false)], 2, seq(PAGE_SIZE + 1, i requires 0 <= i => Tied(i + 1)), PAGE_SIZE + 2,
       map[], [], [], [], map[], [], map[], map[])
  }

  lemma AllUnread(db: Db, user: int)
    requires forall i | 0 <= i < |db.articles| :: !db.articles[i].isRead && Owns(db.feeds, user, db.articles[i].feed)
    ensures UnreadRows(db, user) == db.articles
  {
    hide Owns;
    FilterKeepsAll(db.articles, (a: Article) => !a.isRead && Owns(db.feeds, user, a.feed));
  }

  lemma TiedAreUnread()
    ensures UnreadRows(TiedDb(), 7) == TiedDb().articles
  {
    hide UnreadRows;
    AllUnread(TiedDb(), 7);
  }

  lemma TiedSurvive(m: Matcher, rows: seq<Article>)
    ensures Survivors(TiedDb(), m, 7, rows) == rows
  {
    NoRulesNoExclusion(TiedDb(), m, 7, rows);
  }

  lemma TiedKeys()
    ensures KeysFixed(TiedDb(), (id: int) => 0)
  {
    var rows := TiedDb().articles;
    forall i, j | 0 <= i < j < |rows| ensures rows[i].Key() != rows[j].Key() {
      assert |rows[i].guid| == i + 1 && |rows[j].guid| == j + 1;
    }
  }

  lemma TiedListing()
    ensures FirstListing(TiedDb(), 7, TiedDb().articles)
  {
    TiedAreUnread();
    TiedIds();
    hide UnreadRows, TiedDb;
  }

  lemma TiedPage(m: Matcher)
    ensures var db := TiedDb();
      FillsPage(db, m, 7, Take(db.articles, WINDOW)) && FirstPage(db, m, 7, db.articles) == db.articles[..PAGE_SIZE]
  {
    var db := TiedDb();
    TiedIds();
    hide Survivors, TiedDb;
    TiedSurvive(m, db.articles);
  }

  lemma NotCut(db: Db, m: Matcher, page: seq<Article>)
    requires |page| == PAGE_SIZE && Below(page[0], CursorAt(page[PAGE_SIZE - 1]))
    ensures !CleanCut(db, m, 7, page)
  {
    hide Below, UnreadRows, Excluded;
    assert page[0] in page;
  }

  lemma TiedFirstPage(m: Matcher)
    ensures var db := TiedDb();
      && FirstListing(db, 7, db.articles) && FillsPage(db, m, 7, Take(db.articles, WINDOW))
      && FirstPage(db, m, 7, db.articles) == db.articles[..PAGE_SIZE]
      && !CleanCut(db, m, 7, FirstPage(db, m, 7, db.articles))
  {
    hide FirstListing, FillsPage, FirstPage, CleanCut, TiedDb;
    TiedListing();
    TiedPage(m);
    TiedIds();
    NotCut(TiedDb(), m, TiedDb().articles[..PAGE_SIZE]);
  }

  lemma TiedRowsBelow()
    ensures |RowsBelow(TiedDb(), 7, Cursor(0, PAGE_SIZE))| < PAGE_SIZE
  {
    TiedAreUnread();
    TiedIds();
    hide UnreadRows, TiedDb;
    FewBelow(TiedDb().articles);
  }

  lemma FewBelow(rows: seq<Article>)
    requires |rows| == PAGE_SIZE + 1 && forall i | 0 <= i < |rows| :: rows[i].id == i + 1 && rows[i].SortTime() == 0
    ensures |Filter(rows, (a: Article) => Below(a, Cursor(0, PAGE_SIZE)))| < PAGE_SIZE
  {
    var n, below := PAGE_SIZE - 1, (a: Article) => Below(a, Cursor(0, PAGE_SIZE));
    assert rows == rows[..n] + rows[n..];
    FilterConcat(rows[..n], rows[n..], below);
    FilterKeepsNone(rows[n..], below);
  }

  lemma TiedIds()
    ensures var rows := TiedDb().articles;
      |rows| == PAGE_SIZE + 1 && forall i | 0 <= i < |rows| :: rows[i].id == i + 1 && rows[i].SortTime() == 0
  {
  }

  lemma NoMoreThanBelow(db: Db, m: Matcher, user: int, c: Cursor)
    requires KeysApart(db.articles)
    ensures |PageBelow(db, m, user, c)| <= |WindowBelow(db, user, c)| <= |RowsBelow(db, user, c)|
  {
    var byId := (a: Article, b: Article) => a.id < b.id;
    FilterKeepsPairs(db.articles, (a: Article) => !a.isRead && Owns(db.feeds, user, a.feed), byId);
    FilterKeepsPairs(UnreadRows(db, user), (a: Article) => Below(a, c), byId);
    SortedSorts(RowsBelow(db, user, c));
    hide Descending, Sorted, UnreadRows, Excluded;
  }

  lemma TiedInitial(m: Matcher)
    ensures var db := TiedDb();
      && Initial(db, m, 7, db.articles) == Sys(db, Some(Cursor(0, PAGE_SIZE)), false, Idle, db.articles[..PAGE_SIZE])
      && |FirstPage(db, m, 7, db.articles)| == PAGE_SIZE
  {
    TiedFirstPage(m);
    TiedIds();
    hide TiedDb, FirstPage, FirstListing, FillsPage, CleanCut;
    var page := TiedDb().articles[..PAGE_SIZE];
    assert CursorAt(page[PAGE_SIZE - 1]) == Cursor(0, PAGE_SIZE);
  }

  lemma TiedSecondPage(m: Matcher)
    ensures |PageBelow(TiedDb(), m, 7, Cursor(0, PAGE_SIZE))| < PAGE_SIZE
    ensures |WindowBelow(TiedDb(), 7, Cursor(0, PAGE_SIZE))| < WINDOW
  {
    TiedKeys();
    TiedRowsBelow();
    hide TiedDb, PageBelow, WindowBelow, RowsBelow;
    NoMoreThanBelow(TiedDb(), m, 7, Cursor(0, PAGE_SIZE));
  }

  /** A run the code allows in which the claim fails: nothing else happens, the second load ends the
      scroll, and the articles have not all been shown exactly once. */
  lemma TiesBreakTheScroll(m: Matcher)
    ensures var db, key, steps := TiedDb(), (id: int) => 0, [Start, Reply, Deliver];
      var s := Initial(db, m, 7, db.articles);
      && FirstListing(db, 7, db.articles) && KeysFixed(db, key) && Quiet(steps)
      && FillsPagesAlong(s, m, 7, steps) && Run(s, m, 7, steps).done
      && !(IdsDistinct(Run(s, m, 7, steps).shown) && AllVisibleShown(db, m, 7, Run(s, m, 7, steps).shown))
  {
    var db, key, steps := TiedDb(), (id: int) => 0, [Start, Reply, Deliver];
    var s := Initial(db, m, 7, db.articles);
    TiedKeys();
    TiedFirstPage(m);
    TiedInitial(m);
    hide FirstListing, FirstPage, FillsPage, CleanCut, KeysFixed, TiedDb, PageBelow, Initial, Run;
    hide WindowBelow, FillsPagesAlong, IdsDistinct, AllVisibleShown;
    TiedSecondPage(m);
    LoadOnce(s, m, 7);
    ShortLoadFills(s, m, 7);
    QuietRunIsExactIffCleanCut(db, m, 7, db.articles, steps, key);
  }

  lemma ShortLoadFills(s: Sys, m: Matcher, user: int)
    requires s.cursor.Some? && s.flight == Idle && !s.done
    requires |WindowBelow(s.db, user, s.cursor.value)| < WINDOW
    ensures FillsPagesAlong(s, m, user, [Start, Reply, Deliver])
  {
    hide WindowBelow, PageBelow;
    var s1 := Next(s, m, user, Start);
    assert [Start, Reply, Deliver][1..] == [Reply, Deliver];
    assert [Reply, Deliver][1..] == [Deliver] && [Deliver][1..] == [];
    assert FillsPagesAlong(s1, m, user, [Reply, Deliver]);
  }

  /** A page that is not full ends the scroll for good, and loses exactly the visible articles
      that its window of a hundred rows did not reach. */
  lemma ShortPageEndsScroll(s: Sys, m: Matcher, user: int, later: seq<Step>, a: Article)
    requires s.flight == Idle && !s.done && s.cursor.Some? && KeysApart(s.db.articles)
    requires |PageBelow(s.db, m, user, s.cursor.value)| < PAGE_SIZE
    requires a in RowsBelow(s.db, user, s.cursor.value) && !Excluded(s.db, m, user, a)
    ensures var loaded := Run(s, m, user, [Start, Reply, Deliver]);
            && Run(loaded, m, user, later).shown == s.shown + PageBelow(s.db, m, user, s.cursor.value)
            && (a in PageBelow(s.db, m, user, s.cursor.value) <==> a in WindowBelow(s.db, user, s.cursor.value))
            && (a !in WindowBelow(s.db, user, s.cursor.value) ==>
                  |WindowBelow(s.db, user, s.cursor.value)| == WINDOW)
  {
    LoadOnce(s, m, user);
    QueryIsWindow(s.db, user, s.cursor.value);
    hide WindowBelow, RowsBelow, Excluded;
    DoneShowsNoMore(Run(s, m, user, [Start, Reply, Deliver]), m, user, later);
    hide Run;
  }

  lemma LoadOnce(s: Sys, m: Matcher, user: int)
    requires s.flight == Idle && !s.done && s.cursor.Some?
    ensures var page, loaded := PageBelow(s.db, m, user, s.cursor.value), Run(s, m, user, [Start, Reply, Deliver]);
            && loaded.flight == Idle && loaded.shown == s.shown + page && (loaded.done <==> |page| < PAGE_SIZE)
  {
    hide PageBelow;
    var requested := Next(s, m, user, Start);
    var replied := Next(requested, m, user, Reply);
    var loaded := Next(replied, m, user, Deliver);
    assert [Start, Reply, Deliver][1..] == [Reply, Deliver];
    assert [Reply, Deliver][1..] == [Deliver] && [Deliver][1..] == [];
    assert Run(loaded, m, user, []) == loaded;
    assert Run(replied, m, user, [Deliver]) == loaded;
    assert Run(requested, m, user, [Reply, Deliver]) == loaded;
  }

  /** A load serves the database as it is when the request arrives, whatever it was before. */
  lemma LoadAfterChange(s: Sys, m: Matcher, user: int, db: Db)
    requires s.flight == Idle && !s.done && s.cursor.Some?
    ensures Run(s, m, user, [Start, Change(db), Reply, Deliver]).shown ==
            s.shown + PageBelow(db, m, user, s.cursor.value)
  {
    hide PageBelow;
    var steps := [Start, Change(db), Reply, Deliver];
    var requested := Next(s, m, user, Start);
    var changed := Next(requested, m, user, Change(db));
    var replied := Next(changed, m, user, Reply);
    var loaded := Next(replied, m, user, Deliver);
    assert steps[1..] == [Change(db), Reply, Deliver] && [Change(db), Reply, Deliver][1..] == [Reply, Deliver];
    assert [Reply, Deliver][1..] == [Deliver] && [Deliver][1..] == [];
    assert Run(loaded, m, user, []) == loaded;
    assert Run(replied, m, user, [Deliver]) == loaded;
    assert Run(changed, m, user, [Reply, Deliver]) == loaded;
    assert Run(requested, m, user, [Change(db), Reply, Deliver]) == loaded;
  }

  // ----- A window of excluded articles

  const SEEN := PAGE_SIZE
  const BURIED := 1
  const COVERED := WINDOW + 1

  /** Published one after the other; after the first come a hundred by the excluded author. */
  function Covered(id: nat): Article {
    var author := if BURIED < id <= COVERED then Some("spam") else None;
    Article(id, 1, seq(id, i => 'g'), Body("t", None, author, None, None, None, Some(id)), 0, false, false)
  }

  function CoveredDb(): Db {
    Db([7], map[1 := Feed(Some(7), false)], 2, seq(COVERED + SEEN, i requires 0 <= i => Covered(i + 1)),
       COVERED + SEEN + 1, map[1 := Category(Some(7), "c", Some(0), None)], [FeedCategory(1, 1)],
       [Exclusion(1, 1, "author", "spam", false)], [], map[], [], map[], map[])
  }

  function CoveredListing(): seq<Article> {
    seq(COVERED + SEEN, i requires 0 <= i < COVERED + SEEN => Covered(COVERED + SEEN - i))
  }

  lemma CoveredRows()
    ensures var rows, listing := CoveredDb().articles, CoveredListing();
      && |rows| == |listing| == COVERED + SEEN && (forall i | 0 <= i < |rows| :: rows[i] == Covered(i + 1))
      && (forall i | 0 <= i < |rows| :: listing[i] == Covered(COVERED + SEEN - i))
    ensures forall id: nat :: Covered(id).id == id && Covered(id).SortTime() == id
  {
  }

  lemma CoveredAreUnread()
    ensures UnreadRows(CoveredDb(), 7) == CoveredDb().articles
  {
    hide UnreadRows;
    AllUnread(CoveredDb(), 7);
  }

  lemma CoveredIsExcluded(m: Matcher, id: nat)
    ensures Excluded(CoveredDb(), m, 7, Covered(id)) <==> BURIED < id <= COVERED
  {
    var db, rule := CoveredDb(), Exclusion(1, 1, "author", "spam", false);
    assert db.exclusions == [rule] && db.feedCategories == [FeedCategory(1, 1)];
    if BURIED < id <= COVERED {
      assert m.lower("spam")[0..] == m.lower("spam");
      assert RuleMatches(m, rule, Covered(id));
      assert FeedCategory(1, 1) in db.feedCategories && rule in db.exclusions;
    } else {
      assert !RuleMatches(m, rule, Covered(id));
    }
  }

  lemma CoveredKeys()
    ensures KeysApart(CoveredDb().articles)
  {
    var rows := CoveredDb().articles;
    forall i, j | 0 <= i < j < |rows| ensures rows[i].Key() != rows[j].Key() {
      assert |rows[i].guid| == i + 1 && |rows[j].guid| == j + 1;
    }
  }

  lemma CoveredFirstListing()
    ensures FirstListing(CoveredDb(), 7, CoveredListing())
  {
    CoveredAreUnread();
    CoveredRows();
    hide UnreadRows, CoveredDb, CoveredListing, Covered;
    var rows, listing := CoveredDb().articles, CoveredListing();
    assert forall i | 0 <= i < |rows| :: rows[i] == listing[|rows| - 1 - i];
    assert forall i | 0 <= i < |rows| :: listing[i] == rows[|rows| - 1 - i];
  }

  lemma CoveredFirstPage(m: Matcher)
    ensures FirstPage(CoveredDb(), m, 7, CoveredListing()) == CoveredListing()[..SEEN]
  {
    CoveredRows();
    hide CoveredDb, CoveredListing, Covered, Excluded;
    var listing, survives := CoveredListing(), (a: Article) => !Excluded(CoveredDb(), m, 7, a);
    var w := Take(listing, WINDOW);
    forall i | 0 <= i < |w| ensures survives(w[i]) <==> i < SEEN {
      CoveredIsExcluded(m, COVERED + SEEN - i);
    }
    FilterPrefix(w, SEEN, survives);
  }

  lemma CoveredInitial(m: Matcher)
    ensures Initial(CoveredDb(), m, 7, CoveredListing()) ==
            Sys(CoveredDb(), Some(Cursor(COVERED + 1, COVERED + 1)), false, Idle, CoveredListing()[..SEEN])
  {
    CoveredRows();
    CoveredFirstPage(m);
    hide CoveredDb, CoveredListing, Covered, FirstPage;
  }

  lemma CoveredRowsBelow()
    ensures RowsBelow(CoveredDb(), 7, Cursor(COVERED + 1, COVERED + 1)) == CoveredDb().articles[..COVERED]
  {
    CoveredRows();
    CoveredAreUnread();
    hide CoveredDb, Covered, UnreadRows;
    FirstAreBelow(CoveredDb().articles, COVERED);
  }

  lemma FirstAreBelow(rows: seq<Article>, n: nat)
    requires n <= |rows| && forall i | 0 <= i < |rows| :: rows[i].id == rows[i].SortTime() == i + 1
    ensures Filter(rows, (a: Article) => Below(a, Cursor(n + 1, n + 1))) == rows[..n]
  {
    hide Filter;
    var below := (a: Article) => Below(a, Cursor(n + 1, n + 1));
    FilterPrefix(rows, n, below);
  }

  /** The last row of more than a window is not in the window. */
  lemma LastIsCutOff(rows: seq<Article>, last: Article)
    requires (forall i, j | 0 <= i < j < |rows| :: rows[i].id < rows[j].id) && |rows| > WINDOW
    requires forall a | a in rows && a != last :: Below(last, CursorAt(a))
    ensures last !in Take(Sorted(rows), WINDOW)
    ensures forall a | a in Take(Sorted(rows), WINDOW) :: a in rows
  {
    SortedSorts(rows);
    hide Sorted, Below;
    var sorted := Sorted(rows);
    assert sorted[WINDOW] in sorted;
    forall k | 0 <= k < WINDOW ensures sorted[k] != last {
      NotBothBelow(sorted[WINDOW], sorted[k]);
    }
  }

  lemma NotBothBelow(a: Article, b: Article)
    ensures !(Below(a, CursorAt(b)) && Below(b, CursorAt(a)))
  {
  }

  lemma CoveredWindow()
    ensures var w := WindowBelow(CoveredDb(), 7, Cursor(COVERED + 1, COVERED + 1));
      Covered(BURIED) !in w && forall a | a in w :: exists id: nat :: BURIED < id <= COVERED && a == Covered(id)
  {
    CoveredRows();
    CoveredRowsBelow();
    hide CoveredDb, Covered, RowsBelow, Sorted;
    var rows := CoveredDb().articles[..COVERED];
    assert rows[0] == Covered(BURIED);
    LastIsCutOff(rows, Covered(BURIED));
    forall a | a in Take(Sorted(rows), WINDOW) ensures exists id: nat :: BURIED < id <= COVERED && a == Covered(id) {
      var i :| 0 <= i < |rows| && rows[i] == a;
      assert a == Covered(i + 1);
    }
  }

  lemma CoveredPage(m: Matcher)
    ensures PageBelow(CoveredDb(), m, 7, Cursor(COVERED + 1, COVERED + 1)) == []
  {
    CoveredWindow();
    hide CoveredDb, Covered, WindowBelow, Excluded;
    var w := WindowBelow(CoveredDb(), 7, Cursor(COVERED + 1, COVERED + 1));
    forall a | a in w ensures Excluded(CoveredDb(), m, 7, a) {
      var id: nat :| BURIED < id <= COVERED && a == Covered(id);
      CoveredIsExcluded(m, id);
    }
    FilterKeepsNone(w, (a: Article) => !Excluded(CoveredDb(), m, 7, a));
  }

  lemma BuriedIsVisible(m: Matcher)
    ensures Covered(BURIED) in UnreadRows(CoveredDb(), 7) && !Excluded(CoveredDb(), m, 7, Covered(BURIED))
    ensures Covered(BURIED) in RowsBelow(CoveredDb(), 7, Cursor(COVERED + 1, COVERED + 1))
    ensures Covered(BURIED) !in CoveredListing()[..SEEN]
  {
    CoveredRows();
    CoveredAreUnread();
    CoveredRowsBelow();
    CoveredIsExcluded(m, BURIED);
    hide CoveredDb, Covered, CoveredListing, UnreadRows, RowsBelow, Excluded;
    assert CoveredDb().articles[0] == Covered(BURIED) == CoveredDb().articles[..COVERED][0];
  }

  /** Fifty articles are shown, the next hundred are excluded, and the one behind them is never shown,
      whatever happens later. */
  lemma ExcludedWindowBuries(m: Matcher, later: seq<Step>)
    ensures var s := Initial(CoveredDb(), m, 7, CoveredListing());
      && FirstListing(CoveredDb(), 7, CoveredListing()) && |s.shown| == PAGE_SIZE
      && Covered(BURIED) in UnreadRows(CoveredDb(), 7) && !Excluded(CoveredDb(), m, 7, Covered(BURIED))
      && Covered(BURIED) !in Run(Run(s, m, 7, [Start, Reply, Deliver]), m, 7, later).shown
  {
    CoveredRows();
    CoveredKeys();
    CoveredInitial(m);
    BuriedIsVisible(m);
    CoveredFirstListing();
    CoveredPage(m);
    CoveredWindow();
    hide CoveredDb, CoveredListing, Covered, Initial, FirstListing, UnreadRows, RowsBelow, WindowBelow, PageBelow;
    hide Excluded, Run, KeysApart;
    var s := Initial(CoveredDb(), m, 7, CoveredListing());
    ShortPageEndsScroll(s, m, 7, later, Covered(BURIED));
    assert s.shown + [] == s.shown;
  }

  // ----- The client module

  class Client {
    var cursor: Option<Cursor>
    var loading: bool
    var done: bool
    var shown: seq<Article>

    /** The module variables are the client part of the system state. */
    ghost predicate Mirrors(s: Sys)
      reads this
    {
      cursor == s.cursor && done == s.done && shown == s.shown && (loading <==> s.flight != Idle)
    }

    /** initPagination over the server-rendered first page. */
    method InitPagination(page: seq<Article>)
      modifies this
      ensures shown == page && !loading && done == (|page| < PAGE_SIZE)
      ensures cursor == if page == [] then None else Some(CursorAt(page[|page| - 1]))
    {
      shown, loading, cursor := page, false, None;
      if |page| > 0 {
        cursor, done := Some(CursorAt(page[|page| - 1])), |page| < PAGE_SIZE;
      } else {
        done := true;
      }
    }

    /** loadMoreArticles up to the request. */
    method RequestMore(ghost s: Sys, ghost m: Matcher, ghost user: int) returns (request: Option<Cursor>)
      requires Mirrors(s)
      modifies this
      ensures Mirrors(Next(s, m, user, Start))
      ensures request.Some? <==> s.flight == Idle && !s.done && s.cursor.Some?
      ensures request.Some? ==> Next(s, m, user, Start).flight == Requested(request.value)
    {
      if loading || done || cursor.None? {
        return None;
      }
      loading := true;
      return cursor;
    }

    /** loadMoreArticles from the response on. */
    method Receive(page: seq<Article>, ghost s: Sys, ghost m: Matcher, ghost user: int)
      requires Mirrors(s) && s.flight == Replied(page)
      modifies this
      ensures Mirrors(Next(s, m, user, Deliver))
    {
      if |page| == 0 {
        done := true;
      } else {
        if |page| < PAGE_SIZE {
          done := true;
        }
        cursor := Some(CursorAt(page[|page| - 1]));
        shown := shown + page;
      }
      loading := false;
    }

    method ReceiveError(ghost s: Sys, ghost m: Matcher, ghost user: int)
      requires Mirrors(s)
      modifies this
      ensures Mirrors(Next(s, m, user, Fail))
    {
      loading := false;
    }
  }
}
