/** storeItems of srv/feeds/fetcher.go with the upsert and the seen-GUID check of
    db/dbgen/articles.sql.go. Statements are assumed to succeed, except that an
    insert for a feed that no longer exists violates its foreign key. */
module ArticleStore {
  import opened Options
  import opened Sequences
  import opened Tables

  datatype Item = Item(guid: string, body: Body)

  /** An item that reaches the table: it has a GUID, that GUID was not retired, the feed exists. */
  predicate Storable(db: Db, feed: int, item: Item) {
    Accepted(db, feed, item.guid)
  }

  predicate Accepted(db: Db, feed: int, guid: string) {
    guid != "" && (feed, guid) !in db.seen && feed in db.feeds
  }

  /** The row with the given key, or -1. */
  function RowOf(articles: seq<Article>, key: (int, string)): (i: int)
    ensures -1 <= i < |articles|
    ensures i >= 0 ==> articles[i].Key() == key
    ensures i == -1 ==> forall a | a in articles :: a.Key() != key
  {
    if articles == [] then -1
    else if articles[|articles| - 1].Key() == key then |articles| - 1
    else RowOf(articles[..|articles| - 1], key)
  }

  /** INSERT ... ON CONFLICT(feed_id, guid) DO UPDATE */
  function Upsert(db: Db, now: int, feed: int, item: Item): Db {
    var i := RowOf(db.articles, (feed, item.guid));
    if i >= 0 then db.(articles := db.articles[i := db.articles[i].(body := item.body)])
    else db.(articles := db.articles + [Article(db.nextArticle, feed, item.guid, item.body, now, false, false)],
             nextArticle := db.nextArticle + 1)
  }

  function StoreItem(db: Db, now: int, feed: int, item: Item): Db {
    if Storable(db, feed, item) then Upsert(db, now, feed, item) else db
  }

  function AfterStore(db: Db, now: int, feed: int, items: seq<Item>): Db {
    if items == [] then db
    else StoreItem(AfterStore(db, now, feed, items[..|items| - 1]), now, feed, items[|items| - 1])
  }

  // ----- What storing keeps

  /** One row per (feed, guid), ids ascending and below the next one. */
  ghost predicate WellKeyed(db: Db) {
    KeysApart(db.articles) && forall a | a in db.articles :: a.id < db.nextArticle
  }

  ghost predicate KeysApart(rows: seq<Article>) {
    && (forall i, j | 0 <= i < j < |rows| :: rows[i].Key() != rows[j].Key())
    && (forall i, j | 0 <= i < j < |rows| :: rows[i].id < rows[j].id)
  }

  predicate Live(db: Db, key: (int, string)) {
    exists a | a in db.articles :: a.Key() == key
  }

  /** The same row, with possibly newer content. */
  predicate SameRow(a: Article, b: Article) {
    b == a.(body := b.body)
  }

  /** Everything a store of `feed` at time `now` may do to the database. */
  ghost predicate Stored(before: Db, after: Db, now: int, feed: int) {
    && after == before.(articles := after.articles, nextArticle := after.nextArticle)
    && |before.articles| <= |after.articles|
    && after.nextArticle - before.nextArticle == |after.articles| - |before.articles|
    && (forall i | 0 <= i < |before.articles| :: SameRow(before.articles[i], after.articles[i]))
    && (forall i | |before.articles| <= i < |after.articles| ::
          var a := after.articles[i]; a.feed == feed && a.fetchedAt == now && !a.isRead && !a.isStarred)
  }

  lemma UpsertStores(db: Db, now: int, feed: int, item: Item)
    ensures Stored(db, Upsert(db, now, feed, item), now, feed)
  {
  }

  lemma UpsertKeepsKeysApart(db: Db, now: int, feed: int, item: Item)
    requires WellKeyed(db)
    ensures WellKeyed(Upsert(db, now, feed, item))
  {
    var i := RowOf(db.articles, (feed, item.guid));
    assert forall k | 0 <= k < |db.articles| :: db.articles[k] in db.articles;
    if i >= 0 {
      UpdateKeepsKeysApart(db.articles, i, item.body);
    } else {
      AppendKeepsKeysApart(db.articles, Article(db.nextArticle, feed, item.guid, item.body, now, false, false));
    }
  }

  lemma UpdateKeepsKeysApart(rows: seq<Article>, i: nat, body: Body)
    requires KeysApart(rows) && i < |rows|
    ensures KeysApart(rows[i := rows[i].(body := body)])
    ensures forall a | a in rows[i := rows[i].(body := body)] :: a == rows[i].(body := body) || a in rows
  {
    var after := rows[i := rows[i].(body := body)];
    assert forall k | 0 <= k < |rows| :: after[k].Key() == rows[k].Key() && after[k].id == rows[k].id;
    assert forall k | 0 <= k < |rows| :: rows[k] in rows;
  }

  lemma AppendKeepsKeysApart(rows: seq<Article>, a: Article)
    requires KeysApart(rows) && forall k | 0 <= k < |rows| :: rows[k].Key() != a.Key() && rows[k].id < a.id
    ensures KeysApart(rows + [a])
  {
  }

  lemma UpsertAddsKey(db: Db, now: int, feed: int, item: Item, key: (int, string))
    ensures Live(Upsert(db, now, feed, item), key) <==> Live(db, key) || key == (feed, item.guid)
  {
    var before, after := db.articles, Upsert(db, now, feed, item).articles;
    var i := RowOf(before, (feed, item.guid));
    hide RowOf;
    if i >= 0 {
      var a := before[i].(body := item.body);
      assert after == before[i := a];
      LiveAfterUpdate(before, i, a, key);
      assert before[i] in before;
    } else {
      assert after == before + [after[|before|]];
      assert forall a | a in after :: a in before || a == after[|before|];
      assert after[|before|] in after;
    }
  }

  lemma LiveAfterUpdate(rows: seq<Article>, i: nat, a: Article, key: (int, string))
    requires i < |rows| && a.Key() == rows[i].Key()
    ensures (exists x | x in rows[i := a] :: x.Key() == key) <==> exists x | x in rows :: x.Key() == key
  {
    if x :| x in rows && x.Key() == key {
      var k :| 0 <= k < |rows| && rows[k] == x;
      assert rows[i := a][k] in rows[i := a];
    }
    if x :| x in rows[i := a] && x.Key() == key {
      var k :| 0 <= k < |rows| && rows[i := a][k] == x;
      assert rows[k] in rows && rows[k].Key() == key;
    }
  }

  lemma StoredTransitive(a: Db, b: Db, c: Db, now: int, feed: int)
    requires Stored(a, b, now, feed) && Stored(b, c, now, feed)
    ensures Stored(a, c, now, feed)
  {
    forall i | |a.articles| <= i < |c.articles|
      ensures var x := c.articles[i]; x.feed == feed && x.fetchedAt == now && !x.isRead && !x.isStarred
    {
      if i < |b.articles| {
        assert SameRow(b.articles[i], c.articles[i]);
      }
    }
    forall i | 0 <= i < |a.articles|
      ensures SameRow(a.articles[i], c.articles[i])
    {
      assert SameRow(a.articles[i], b.articles[i]) && SameRow(b.articles[i], c.articles[i]);
    }
  }

  /** Re-fetching never changes a row's id, fetch time, read or star state, and keeps
      one row per (feed, guid). */
  lemma {:induction false} StoreKeepsRows(db: Db, now: int, feed: int, items: seq<Item>)
    requires WellKeyed(db)
    ensures WellKeyed(AfterStore(db, now, feed, items)) && Stored(db, AfterStore(db, now, feed, items), now, feed)
  {
    if items != [] {
      var init, last := items[..|items| - 1], items[|items| - 1];
      StoreKeepsRows(db, now, feed, init);
      var before := AfterStore(db, now, feed, init);
      UpsertStores(before, now, feed, last);
      UpsertKeepsKeysApart(before, now, feed, last);
      hide WellKeyed, Upsert;
      if Storable(before, feed, last) {
        StoredTransitive(db, before, Upsert(before, now, feed, last), now, feed);
      }
    }
  }

  /** The keys in the table afterwards: those there before and those of the storable items. */
  lemma {:induction false} StoreAddsStorableKeys(db: Db, now: int, feed: int, items: seq<Item>, key: (int, string))
    ensures AfterStore(db, now, feed, items).(articles := db.articles, nextArticle := db.nextArticle) == db
    ensures Live(AfterStore(db, now, feed, items), key) <==>
            Live(db, key) || exists item | item in items :: Storable(db, feed, item) && key == (feed, item.guid)
  {
    if items != [] {
      var init, last := items[..|items| - 1], items[|items| - 1];
      StoreAddsStorableKeys(db, now, feed, init, key);
      var before := AfterStore(db, now, feed, init);
      UpsertAddsKey(before, now, feed, last, key);
      UpsertStores(before, now, feed, last);
      hide Live, Upsert;
      assert items == init + [last];
    }
  }

  /** Which rows there are afterwards: those there were, and one for each new GUID of an item of an existing
      feed that is not on record as deleted. */
  lemma StoredKeysByColumns(db: Db, now: int, feed: int, items: seq<Item>, f: int, guid: string)
    ensures (exists a | a in AfterStore(db, now, feed, items).articles :: a.feed == f && a.guid == guid) <==>
      || (exists a | a in db.articles :: a.feed == f && a.guid == guid)
      || (&& f == feed && feed in db.feeds && |guid| > 0 && (feed, guid) !in db.seen.Keys
          && exists item | item in items :: item.guid == guid)
  {
    StoreAddsStorableKeys(db, now, feed, items, (f, guid));
    hide AfterStore;
    assert forall d: Db :: Live(d, (f, guid)) <==> exists a | a in d.articles :: a.feed == f && a.guid == guid;
  }

  /** The content of the last storable item with the given GUID. */
  function LastBody(items: seq<Item>, guid: string): Option<Body> {
    if items == [] then None
    else if items[|items| - 1].guid == guid then Some(items[|items| - 1].body)
    else LastBody(items[..|items| - 1], guid)
  }

  /** Row `i` holds the content of the last accepted item with its GUID, and is the row
      it was before when there is no such item. */
  ghost predicate HasLastBody(db: Db, after: Db, feed: int, items: seq<Item>, i: nat)
    requires i < |after.articles|
  {
    var a := after.articles[i];
    if a.feed == feed && Accepted(db, feed, a.guid) && LastBody(items, a.guid).Some?
    then a.body == LastBody(items, a.guid).value
    else i < |db.articles| && a == db.articles[i]
  }

  lemma UpsertHasLastBody(db: Db, before: Db, now: int, feed: int, items: seq<Item>, last: Item, i: nat)
    requires WellKeyed(before) && Accepted(db, feed, last.guid)
    requires forall k | 0 <= k < |before.articles| :: HasLastBody(db, before, feed, items, k)
    requires i < |Upsert(before, now, feed, last).articles|
    ensures HasLastBody(db, Upsert(before, now, feed, last), feed, items + [last], i)
  {
    var after := Upsert(before, now, feed, last);
    LastBodySnoc(items, last, after.articles[i].guid);
    UpsertedRow(before, now, feed, last, i);
    hide WellKeyed, Upsert, LastBody, Accepted;
    if i < |before.articles| && after.articles[i] == before.articles[i] {
      assert HasLastBody(db, before, feed, items, i);
    }
  }

  /** After an upsert a row either has the item's key and content, or is an old row with another key. */
  lemma UpsertedRow(before: Db, now: int, feed: int, item: Item, i: nat)
    requires WellKeyed(before)
    ensures var rows := Upsert(before, now, feed, item).articles;
            i < |rows| ==>
              || (rows[i].Key() == (feed, item.guid) && rows[i].body == item.body)
              || (i < |before.articles| && rows[i] == before.articles[i] && rows[i].Key() != (feed, item.guid))
  {
    var r := RowOf(before.articles, (feed, item.guid));
    if i < |before.articles| && i != r {
      assert before.articles[i] in before.articles;
    }
  }

  lemma LastBodySnoc(items: seq<Item>, last: Item, guid: string)
    ensures LastBody(items + [last], guid) == if last.guid == guid then Some(last.body) else LastBody(items, guid)
  {
    assert (items + [last])[..|items|] == items;
  }

  /** Of several items with one GUID the last one wins. */
  lemma {:induction false} LastItemWins(db: Db, now: int, feed: int, items: seq<Item>)
    requires WellKeyed(db)
    ensures forall i | 0 <= i < |AfterStore(db, now, feed, items).articles| ::
              HasLastBody(db, AfterStore(db, now, feed, items), feed, items, i)
  {
    if items != [] {
      var init, last := items[..|items| - 1], items[|items| - 1];
      LastItemWins(db, now, feed, init);
      StoreKeepsRows(db, now, feed, init);
      var before := AfterStore(db, now, feed, init);
      var after := StoreItem(before, now, feed, last);
      assert items == init + [last];
      hide WellKeyed, Upsert, AfterStore;
      forall i | 0 <= i < |after.articles|
        ensures HasLastBody(db, after, feed, items, i)
      {
        if Storable(before, feed, last) {
          UpsertHasLastBody(db, before, now, feed, init, last, i);
        } else {
          assert HasLastBody(db, before, feed, init, i);
        }
      }
    }
  }

  /** Storing the same items again, at any later time, changes nothing. */
  lemma StoringAgainIsNoOp(db: Db, now: int, later: int, feed: int, items: seq<Item>)
    requires WellKeyed(db)
    ensures AfterStore(AfterStore(db, now, feed, items), later, feed, items) == AfterStore(db, now, feed, items)
  {
    hide *;
    var once := AfterStore(db, now, feed, items);
    var twice := AfterStore(once, later, feed, items);
    StoreKeepsRows(db, now, feed, items);
    StoreKeepsRows(once, later, feed, items);
    LastItemWins(db, now, feed, items);
    LastItemWins(once, later, feed, items);
    NoNewRows(db, now, later, feed, items);
    StoredRows(once, twice, later, feed);
    StoredIsLocal(db, once, now, feed);
    forall i | 0 <= i < |once.articles|
      ensures twice.articles[i] == once.articles[i]
    {
      SameContentAgain(db, once, twice, feed, items, i);
    }
    assert twice.articles == once.articles;
  }

  lemma StoredRows(before: Db, after: Db, now: int, feed: int)
    requires Stored(before, after, now, feed) && |after.articles| == |before.articles|
    ensures after == before.(articles := after.articles)
    ensures forall i | 0 <= i < |before.articles| :: SameRow(before.articles[i], after.articles[i])
  {
    hide SameRow;
  }

  lemma StoredIsLocal(before: Db, after: Db, now: int, feed: int)
    requires Stored(before, after, now, feed)
    ensures after.feeds == before.feeds && after.seen == before.seen
  {
    hide SameRow;
  }

  /** A row that holds its last item's content gets the same content again. */
  lemma SameContentAgain(db: Db, once: Db, twice: Db, feed: int, items: seq<Item>, i: nat)
    requires i < |once.articles| && i < |twice.articles|
    requires HasLastBody(db, once, feed, items, i) && HasLastBody(once, twice, feed, items, i)
    requires SameRow(once.articles[i], twice.articles[i])
    requires once.feeds == db.feeds && once.seen == db.seen
    ensures twice.articles[i] == once.articles[i]
  {
    hide LastBody;
  }

  lemma NoNewRows(db: Db, now: int, later: int, feed: int, items: seq<Item>)
    requires WellKeyed(db)
    ensures var once := AfterStore(db, now, feed, items);
            |AfterStore(once, later, feed, items).articles| == |once.articles|
  {
    var once := AfterStore(db, now, feed, items);
    var twice := AfterStore(once, later, feed, items);
    StoreKeepsRows(db, now, feed, items);
    StoreKeepsRows(once, later, feed, items);
    hide AfterStore;
    forall i | |once.articles| <= i < |twice.articles|
      ensures Live(once, twice.articles[i].Key())
    {
      var a := twice.articles[i];
      assert a in twice.articles && Live(twice, a.Key());
      StoreAddsStorableKeys(once, later, feed, items, a.Key());
      StoreAddsStorableKeys(db, now, feed, items, a.Key());
    }
    OldKeysOldRows(once, twice, later, feed);
  }

  lemma OldKeysOldRows(before: Db, after: Db, now: int, feed: int)
    requires Stored(before, after, now, feed) && WellKeyed(after)
    requires forall i | |before.articles| <= i < |after.articles| :: Live(before, after.articles[i].Key())
    ensures |after.articles| == |before.articles|
  {
    assert forall k | 0 <= k < |before.articles| :: SameRow(before.articles[k], after.articles[k]);
    var n := |before.articles|;
    var key := if n < |after.articles| then after.articles[n].Key() else (0, "");
  }

  class Fetcher {
    var db: Db

    /** storeItems: one transaction over all items; returns how many were inserted or updated. */
    method StoreItems(now: int, feed: int, items: seq<Item>) returns (inserted: nat)
      modifies this
      ensures db == AfterStore(old(db), now, feed, items)
      ensures inserted == |Filter(items, (item: Item) => Storable(old(db), feed, item))|
    {
      hide *;
      var tx := db;
      inserted := 0;
      ghost var storable := (item: Item) => Storable(old(db), feed, item);
      StoreNothing(db, now, feed, items, storable);
      for i := 0 to |items|
        invariant tx == AfterStore(old(db), now, feed, items[..i])
        invariant inserted == |Filter(items[..i], storable)|
      {
        var item := items[i];
        StoreOneMore(old(db), now, feed, items, i);
        FilterSnoc(items[..i], item, storable);
        if item.guid == "" {
          continue;
        }
        if (feed, item.guid) in tx.seen {
          continue;
        }
        if feed in tx.feeds {
          tx := Upsert(tx, now, feed, item);
          inserted := inserted + 1;
        }
      }
      assert items[..|items|] == items;
      db := tx;
    }
  }

  lemma StoreNothing(db: Db, now: int, feed: int, items: seq<Item>, p: Item -> bool)
    ensures AfterStore(db, now, feed, items[..0]) == db && Filter(items[..0], p) == []
  {
  }

  /** One turn of the loop: whether the item is storable can be read off the transaction. */
  lemma StoreOneMore(db: Db, now: int, feed: int, items: seq<Item>, i: nat)
    requires i < |items|
    ensures items[..i + 1] == items[..i] + [items[i]]
    ensures var tx, item := AfterStore(db, now, feed, items[..i]), items[i];
      && Storable(db, feed, item) == (item.guid != "" && (feed, item.guid) !in tx.seen && feed in tx.feeds)
      && AfterStore(db, now, feed, items[..i + 1]) ==
           if Storable(db, feed, item) then Upsert(tx, now, feed, item) else tx
  {
    assert items[..i + 1] == items[..i] + [items[i]] && items[..i + 1][..i] == items[..i];
    StoreAddsStorableKeys(db, now, feed, items[..i], (feed, ""));
    hide Upsert, Live;
  }
}
