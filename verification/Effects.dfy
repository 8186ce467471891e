/** What each request does to the tables, row by row, and to the acting user's counts. */
module Effects {
  import opened Options
  import opened Sequences
  import opened Tables
  import opened ArticleStore
  import opened Exclusions
  import opened Counts
  import opened Views
  import opened Flags
  import opened Operations
  import Retention

  // ----- Reading

  /** The same rows in all columns but the read flag, and the same other tables. */
  ghost predicate OnlyReadFlags(db: Db, after: Db) {
    && after.(articles := db.articles) == db && |after.articles| == |db.articles|
    && forall i | 0 <= i < |db.articles| :: after.articles[i].(isRead := db.articles[i].isRead) == db.articles[i]
  }

  ghost predicate OfUser(db: Db, user: int, a: Article) {
    a.feed in db.feeds && db.feeds[a.feed].owner == Some(user)
  }

  /** Marking by scope reads the user's articles in the named feed, in the feeds filed under the named
      category, or in all feeds; with an age limit those whose publication, or fetch if they have no
      publication time, is earlier. */
  lemma ReadScopeMarks(db: Db, m: Matcher, user: int, scope: Scope, olderThan: Option<int>)
    ensures var after := Apply(db, m, ReadScope(user, scope, olderThan));
      && OnlyReadFlags(db, after)
      && forall i | 0 <= i < |db.articles| ::
           var a := db.articles[i];
           after.articles[i].isRead <==>
             || a.isRead
             || (&& OfUser(db, user, a)
                 && (scope.OneFeed? ==> a.feed == scope.feed)
                 && (scope.OneCategory? ==>
                       exists fc | fc in db.feedCategories :: fc.feed == a.feed && fc.category == scope.category)
                 && (olderThan.Some? ==>
                       match a.body.publishedAt
                       case Some(t) => t < olderThan.value
                       case None => a.fetchedAt < olderThan.value))
  {
    var after := Apply(db, m, ReadScope(user, scope, olderThan));
    forall i | 0 <= i < |db.articles| && scope.OneCategory?
      ensures FeedCategory(db.articles[i].feed, scope.category) in db.feedCategories <==>
              exists fc | fc in db.feedCategories :: fc.feed == db.articles[i].feed && fc.category == scope.category
    {
      if fc :| fc in db.feedCategories && fc.feed == db.articles[i].feed && fc.category == scope.category {
        assert fc == FeedCategory(db.articles[i].feed, scope.category);
      }
    }
  }

  lemma SetReadMarks(db: Db, m: Matcher, user: int, id: int, isRead: bool)
    ensures var after := Apply(db, m, SetRead(user, id, isRead));
      && OnlyReadFlags(db, after)
      && forall i | 0 <= i < |db.articles| ::
           var a := db.articles[i];
           after.articles[i].isRead <==> if a.id == id && OfUser(db, user, a) then isRead else a.isRead
  {
  }

  /** Up to two hundred ids are marked read where they are the user's; a longer list is refused whole. */
  lemma BatchReadMarks(db: Db, m: Matcher, user: int, ids: seq<int>)
    ensures var after := Apply(db, m, BatchRead(user, ids));
      && OnlyReadFlags(db, after)
      && forall i | 0 <= i < |db.articles| ::
           var a := db.articles[i];
           after.articles[i].isRead <==>
             a.isRead || (|ids| <= 200 && OfUser(db, user, a) && exists k | 0 <= k < |ids| :: ids[k] == a.id)
  {
  }

  /** One statement of the loop over a batch. */
  function MarkOne(rows: seq<Article>, feeds: map<int, Feed>, user: int, id: int): seq<Article> {
    Map(rows, (a: Article) => if a.id == id && Owns(feeds, user, a.feed) then a.(isRead := true) else a)
  }

  /** apiBatchMarkRead past its checks: the ids are marked one by one. */
  method MarkEach(db: Db, user: int, ids: seq<int>) returns (after: Db)
    ensures after ==
            db.(articles := MarkRead(db.articles, (a: Article) => a.id in ids && Owns(db.feeds, user, a.feed)))
  {
    hide Owns;
    after := db;
    MarkNothing(db.articles, (a: Article) => a.id in ids[..0] && Owns(db.feeds, user, a.feed));
    for i := 0 to |ids|
      invariant after ==
        db.(articles := MarkRead(db.articles, (a: Article) => a.id in ids[..i] && Owns(db.feeds, user, a.feed)))
    {
      assert ids[..i + 1] == ids[..i] + [ids[i]];
      after := after.(articles := MarkOne(after.articles, after.feeds, user, ids[i]));
      assert after.articles ==
             MarkRead(db.articles, (a: Article) => a.id in ids[..i + 1] && Owns(db.feeds, user, a.feed));
    }
    assert ids[..|ids|] == ids;
  }

  /** After a marking the user is shown, and counted, what was shown before and is not covered by it. */
  lemma MarkingHides(db: Db, m: Matcher, p: Article -> bool, user: int)
    requires forall a: Article, r: bool :: p(a.(isRead := r)) == p(a)
    ensures Shown(db.(articles := MarkRead(db.articles, p)), m, user) ==
            Filter(Shown(db, m, user), (a: Article) => !p(a))
    ensures FreshCounts(db.(articles := MarkRead(db.articles, p)), m, user).unread ==
            |Filter(Shown(db, m, user), (a: Article) => !p(a))|
  {
    var other, keep := db.(articles := MarkRead(db.articles, p)), (a: Article) => Shows(db, m, user, a);
    hide Shown, Shows, MarkRead, FreshCounts;
    forall a: Article, r: bool ensures keep(a.(isRead := r)) == keep(a) {
      ShowsIgnoresFlag(db, m, user, a, r);
    }
    forall a ensures Shows(other, m, user, a) <==> Shows(db, m, user, a) {
      ShowsIgnoresRows(db, other, m, user, a);
    }
    ShownIs(db, m, user);
    ShownIs(other, m, user);
    UnreadIsShown(other, m, user);
    UnreadAfterMarking(db.articles, p, keep);
    FilterAgrees(db.articles, (a: Article) => !a.isRead && keep(a), (a: Article) => !a.isRead && Shows(db, m, user, a));
    FilterAgrees(other.articles, (a: Article) => !a.isRead && keep(a),
                 (a: Article) => !a.isRead && Shows(other, m, user, a));
  }

  // ----- Starring

  /** The star of the user's own article flips; no other column and no other row changes. */
  lemma ToggleStarFlips(db: Db, m: Matcher, user: int, id: int)
    ensures var after := Apply(db, m, ToggleStar(user, id));
      && after.(articles := db.articles) == db && |after.articles| == |db.articles|
      && forall i | 0 <= i < |db.articles| ::
           var a, b := db.articles[i], after.articles[i];
           && b.(isStarred := a.isStarred) == a
           && (b.isStarred != a.isStarred <==> a.id == id && OfUser(db, user, a))
  {
  }

  function Unstarred(rows: seq<Article>): seq<Article> {
    Map(rows, (a: Article) => a.(isStarred := false))
  }

  lemma MapUnfolds<T>(x: T, s: seq<T>, f: T -> T)
    ensures Map([x] + s, f) == [f(x)] + Map(s, f)
  {
  }

  lemma FilterUnfoldsOn<T>(x: T, s: seq<T>, p: T -> bool)
    ensures Filter([x] + s, p) == if p(x) then [x] + Filter(s, p) else Filter(s, p)
  {
    assert ([x] + s)[1..] == s;
  }

  lemma {:induction false} FilterOfMap<T>(s: seq<T>, f: T -> T, p: T -> bool)
    requires forall x | x in s :: p(f(x)) == p(x)
    ensures Filter(Map(s, f), p) == Map(Filter(s, p), f)
  {
    if s != [] {
      var x, rest := s[0], s[1..];
      assert s == [x] + rest && x in s;
      hide Filter, Map;
      FilterOfMap(rest, f, p);
      MapUnfolds(x, rest, f);
      FilterUnfoldsOn(x, rest, p);
      FilterUnfoldsOn(f(x), Map(rest, f), p);
      MapUnfolds(x, Filter(rest, p), f);
    }
  }

  lemma {:induction false} CategoriesIgnoreStars(rows: seq<Article>, mappings: seq<FeedCategory>)
    ensures JoinCategories(Unstarred(rows), mappings) == JoinCategories(rows, mappings)
    ensures FirstCategories(Unstarred(rows), mappings) == FirstCategories(rows, mappings)
    ensures Feeds(Unstarred(rows)) == Feeds(rows) && |Unstarred(rows)| == |rows|
  {
    if rows != [] {
      hide CategoriesIn;
      var init := rows[..|rows| - 1];
      CategoriesIgnoreStars(init, mappings);
      assert Unstarred(rows)[..|rows| - 1] == Unstarred(init);
    }
  }

  lemma CaughtIgnoresStar(m: Matcher, rules: seq<Exclusion>, mappings: seq<FeedCategory>, a: Article, s: bool)
    ensures CaughtBy(m, rules, mappings, a.(isStarred := s)) <==> CaughtBy(m, rules, mappings, a)
  {
    hide MatchesPattern, CategoriesIn, RulesIn;
    forall e ensures RuleMatches(m, e, a.(isStarred := s)) <==> RuleMatches(m, e, a) {
    }
  }

  /** Apart from the starred count, counts do not depend on stars. */
  lemma CountsIgnoreStars(view: View, m: Matcher)
    ensures CountsFrom(view.(rows := Unstarred(view.rows)), m).(starred := 0) == CountsFrom(view, m).(starred := 0)
  {
    var f := (a: Article) => a.(isStarred := false);
    var caught := (a: Article) => !CaughtBy(m, view.rules, view.mappings, a);
    forall a ensures caught(f(a)) == caught(a) {
      CaughtIgnoresStar(m, view.rules, view.mappings, a, false);
    }
    hide CaughtBy, GroupCount;
    var unread := Filter(view.rows, (a: Article) => !a.isRead);
    FilterOfMap(view.rows, f, (a: Article) => !a.isRead);
    FilterOfMap(unread, f, caught);
    CategoriesIgnoreStars(unread, view.mappings);
    CategoriesIgnoreStars(Filter(unread, caught), view.mappings);
    var other := view.(rows := Unstarred(view.rows));
    FilterAgrees(Unstarred(unread), caught, (a: Article) => !CaughtBy(m, other.rules, other.mappings, a));
    hide JoinCategories, FirstCategories, Feeds, Unstarred;
  }

  lemma StarsAside(db: Db, other: Db, m: Matcher, user: int)
    requires other == db.(articles := other.articles) && Unstarred(other.articles) == Unstarred(db.articles)
    ensures FreshCounts(other, m, user) == FreshCounts(db, m, user).(starred := StarredCount(other, user))
  {
    OwnUnstarred(db, user);
    OwnUnstarred(other, user);
    StarredIs(other, m, user);
    FreshCountsFromView(db, m, user);
    FreshCountsFromView(other, m, user);
    CountsIgnoreStars(ViewOf(db, user), m);
    CountsIgnoreStars(ViewOf(other, user), m);
    hide CountsFrom, FreshCounts, StarredCount, Unstarred, OwnRows;
  }

  lemma OwnUnstarred(db: Db, user: int)
    ensures Unstarred(OwnRows(db.articles, db.feeds, user)) == OwnRows(Unstarred(db.articles), db.feeds, user)
  {
    FilterOfMap(db.articles, (a: Article) => a.(isStarred := false), (a: Article) => Owns(db.feeds, user, a.feed));
  }

  lemma StarredIs(db: Db, m: Matcher, user: int)
    ensures FreshCounts(db, m, user).starred == StarredCount(db, user)
  {
    hide GroupCount;
  }

  lemma {:induction false} FlipOne(rows: seq<Article>, id: int, own: Article -> bool, k: nat)
    requires k < |rows| && rows[k].id == id && own(rows[k])
    requires forall i | 0 <= i < |rows| && i != k :: rows[i].id != id
    requires forall a: Article, s: bool :: own(a.(isStarred := s)) == own(a)
    ensures var after := Map(rows, (a: Article) => if a.id == id && own(a) then a.(isStarred := !a.isStarred) else a);
      |Filter(after, (a: Article) => a.isStarred && own(a))| ==
      |Filter(rows, (a: Article) => a.isStarred && own(a))| + if rows[k].isStarred then -1 else 1
  {
    var f := (a: Article) => if a.id == id && own(a) then a.(isStarred := !a.isStarred) else a;
    var starred := (a: Article) => a.isStarred && own(a);
    assert rows == rows[..k] + [rows[k]] + rows[k + 1..];
    assert Map(rows, f) == rows[..k] + [f(rows[k])] + rows[k + 1..];
    FilterConcat(rows[..k] + [rows[k]], rows[k + 1..], starred);
    FilterConcat(rows[..k], [rows[k]], starred);
    FilterConcat(rows[..k] + [f(rows[k])], rows[k + 1..], starred);
    FilterConcat(rows[..k], [f(rows[k])], starred);
  }

  function Flipped(db: Db, user: int, id: int): seq<Article> {
    Map(db.articles, (a: Article) =>
      if a.id == id && Owns(db.feeds, user, a.feed) then a.(isStarred := !a.isStarred) else a)
  }

  lemma StarredAfterFlip(db: Db, user: int, a: Article)
    requires KeysApart(db.articles) && a in db.articles && Owns(db.feeds, user, a.feed)
    ensures StarredCount(db.(articles := Flipped(db, user, a.id)), user) ==
            StarredCount(db, user) + if a.isStarred then -1 else 1
  {
    var other, own := db.(articles := Flipped(db, user, a.id)), (x: Article) => Owns(db.feeds, user, x.feed);
    var k :| 0 <= k < |db.articles| && db.articles[k] == a;
    FlipOne(db.articles, a.id, own, k);
    assert other.articles ==
           Map(db.articles, (x: Article) => if x.id == a.id && own(x) then x.(isStarred := !x.isStarred) else x);
    hide KeysApart, Flipped, Owns;
    FilterAgrees(db.articles, (x: Article) => x.isStarred && own(x),
                 (x: Article) => x.isStarred && Owns(db.feeds, user, x.feed));
    FilterAgrees(other.articles, (x: Article) => x.isStarred && own(x),
                 (x: Article) => x.isStarred && Owns(other.feeds, user, x.feed));
  }

  lemma NothingFlipped(db: Db, user: int, a: Article)
    requires KeysApart(db.articles) && a in db.articles && !Owns(db.feeds, user, a.feed)
    ensures Flipped(db, user, a.id) == db.articles
  {
    hide Owns;
    var k :| 0 <= k < |db.articles| && db.articles[k] == a;
    assert forall i | 0 <= i < |db.articles| && i != k :: db.articles[i].id != a.id;
  }

  lemma ToggleStarIs(db: Db, m: Matcher, user: int, id: int)
    ensures Apply(db, m, ToggleStar(user, id)) == db.(articles := Flipped(db, user, id))
    ensures Unstarred(Flipped(db, user, id)) == Unstarred(db.articles)
  {
    assert Apply(db, m, ToggleStar(user, id)).articles == Flipped(db, user, id);
  }

  /** Starring one's own article moves the starred count by one and no other count; starring anything else
      moves none. */
  lemma ToggleStarCounts(db: Db, m: Matcher, user: int, a: Article)
    requires KeysApart(db.articles) && a in db.articles
    ensures var before, after := FreshCounts(db, m, user), FreshCounts(Apply(db, m, ToggleStar(user, a.id)), m, user);
      after == before.(starred := before.starred +
        if !OfUser(db, user, a) then 0 else if a.isStarred then -1 else 1)
  {
    hide FreshCounts, Unstarred, Flipped, Apply, StarredCount, KeysApart;
    ToggleStarIs(db, m, user, a.id);
    StarsAside(db, Apply(db, m, ToggleStar(user, a.id)), m, user);
    StarredIs(db, m, user);
    if OfUser(db, user, a) {
      StarredAfterFlip(db, user, a);
    } else {
      NothingFlipped(db, user, a);
    }
  }

  // ----- The queue

  /** The queue's primary key. */
  ghost predicate NoneTwice(queue: seq<QueueEntry>) {
    forall i, j | 0 <= i < j < |queue| :: queue[i] != queue[j]
  }

  /** The same entries in the same order, the given one aside. */
  ghost predicate SameOthers(before: seq<QueueEntry>, after: seq<QueueEntry>, e: QueueEntry) {
    Filter(after, (x: QueueEntry) => x != e) == Filter(before, (x: QueueEntry) => x != e)
  }

  lemma {:induction false} CountWithout<T>(s: seq<T>, e: T, other: T -> bool, p: T -> bool)
    requires forall i, j | 0 <= i < j < |s| :: s[i] != s[j]
    requires forall x | x in s :: other(x) == (x != e)
    ensures |Filter(Filter(s, other), p)| == |Filter(s, p)| - if e in s && p(e) then 1 else 0
  {
    if s != [] {
      var head, rest := [s[0]], s[1..];
      assert s == head + rest;
      FilterConcat(head, rest, p);
      FilterConcat(head, rest, other);
      if s[0] == e {
        assert forall j | 0 < j < |s| :: s[j] != e;
        FilterKeepsAll(rest, other);
        assert Filter(head, other) == [] && [] + rest == rest;
        assert |Filter(head, p)| == if p(e) then 1 else 0;
      } else {
        CountWithout(rest, e, other, p);
        assert Filter(head, other) == head;
        FilterConcat(head, Filter(rest, other), p);
        assert e in s <==> e in rest;
      }
    }
  }

  lemma DequeuedOnce(queue: seq<QueueEntry>, user: int, article: int)
    requires NoneTwice(queue)
    ensures NoneTwice(Dequeued(queue, user, article)) && QueueEntry(user, article) !in Dequeued(queue, user, article)
    ensures SameOthers(queue, Dequeued(queue, user, article), QueueEntry(user, article))
    ensures |OwnQueue(Dequeued(queue, user, article), user)| ==
            |OwnQueue(queue, user)| - if QueueEntry(user, article) in queue then 1 else 0
  {
    var e := QueueEntry(user, article);
    var other := (x: QueueEntry) => x != e;
    FilterKeepsPairs(queue, (x: QueueEntry) => x != QueueEntry(user, article),
                     (x: QueueEntry, y: QueueEntry) => x != y);
    FilterAgrees(queue, other, (x: QueueEntry) => x != QueueEntry(user, article));
    FilterKeepsAll(Dequeued(queue, user, article), other);
    CountWithout(queue, e, other, (x: QueueEntry) => x.user == user);
  }

  lemma Appended(queue: seq<QueueEntry>, e: QueueEntry)
    requires NoneTwice(queue) && e !in queue
    ensures NoneTwice(queue + [e]) && SameOthers(queue, queue + [e], e)
    ensures |OwnQueue(queue + [e], e.user)| == |OwnQueue(queue, e.user)| + 1
  {
    FilterSnoc(queue, e, (x: QueueEntry) => x != e);
    FilterSnoc(queue, e, (x: QueueEntry) => x.user == e.user);
    hide Filter;
  }

  lemma QueueCountIs(db: Db, user: int)
    ensures QueueCount(db, user) == |OwnQueue(db.queue, user)|
  {
  }

  lemma ToggleQueueIs(db: Db, m: Matcher, user: int, article: int)
    ensures Apply(db, m, ToggleQueue(user, article)) == db.(queue := Toggled(db, user, article))
    ensures QueueEntry(user, article) in db.queue ==> Toggled(db, user, article) == Dequeued(db.queue, user, article)
    ensures QueueEntry(user, article) !in db.queue && HasRow(db, article) ==>
              Toggled(db, user, article) == db.queue + [QueueEntry(user, article)]
    ensures QueueEntry(user, article) !in db.queue && !HasRow(db, article) ==> Toggled(db, user, article) == db.queue
  {
    hide Dequeued;
  }

  /** Toggling takes the article out of the user's queue, or puts it at the end if there is such an article;
      everything else stays, and the queue count moves with it. */
  lemma ToggleQueueMoves(db: Db, m: Matcher, user: int, article: int)
    requires NoneTwice(db.queue)
    ensures var after, e := Apply(db, m, ToggleQueue(user, article)), QueueEntry(user, article);
      && after.(queue := db.queue) == db && NoneTwice(after.queue) && SameOthers(db.queue, after.queue, e)
      && (e in after.queue <==> e !in db.queue && exists a | a in db.articles :: a.id == article)
      && (e in after.queue ==> after.queue[|after.queue| - 1] == e)
      && QueueCount(after, user) == QueueCount(db, user) +
           if e in db.queue then -1 else if e in after.queue then 1 else 0
  {
    var e, after := QueueEntry(user, article), Apply(db, m, ToggleQueue(user, article));
    hide Dequeued, OwnQueue, NoneTwice, QueueCount, Toggled, Apply, Filter;
    ToggleQueueIs(db, m, user, article);
    QueueCountIs(db, user);
    QueueCountIs(after, user);
    if e in db.queue {
      DequeuedOnce(db.queue, user, article);
    } else if exists a | a in db.articles :: a.id == article {
      Appended(db.queue, e);
      assert after.queue[|db.queue|] == e;
    }
  }

  lemma RemoveFromQueueMoves(db: Db, m: Matcher, user: int, article: int)
    requires NoneTwice(db.queue)
    ensures var after, e := Apply(db, m, RemoveFromQueue(user, article)), QueueEntry(user, article);
      && after.(queue := db.queue) == db && SameOthers(db.queue, after.queue, e) && e !in after.queue
      && QueueCount(after, user) == QueueCount(db, user) - if e in db.queue then 1 else 0
  {
    DequeuedOnce(db.queue, user, article);
    QueueCountIs(db, user);
    QueueCountIs(Apply(db, m, RemoveFromQueue(user, article)), user);
    hide Dequeued, OwnQueue, NoneTwice, SameOthers, QueueCount;
  }

  /** What the queue requests change in the counts is the queue count. */
  lemma QueueCounts(db: Db, m: Matcher, queue: seq<QueueEntry>, user: int)
    ensures var other := db.(queue := queue);
      FreshCounts(other, m, user) == FreshCounts(db, m, user).(queue := QueueCount(other, user))
  {
    var other := db.(queue := queue);
    FreshCountsFromView(db, m, user);
    FreshCountsFromView(other, m, user);
    assert ViewOf(other, user) == ViewOf(db, user).(queue := OwnQueue(queue, user));
    hide FreshCounts, ViewOf, CaughtBy, GroupCount, JoinCategories, FirstCategories;
  }

  // ----- Alerts

  ghost predicate AlertOfUser(db: Db, user: int, alert: int) {
    (alert, user) in db.alerts.Items
  }

  lemma AlertItems(db: Db, user: int, alert: int)
    ensures OwnsAlert(db, user, alert) <==> AlertOfUser(db, user, alert)
  {
  }

  /** Dismissing an alert of one's own dismisses its matches; no other column, row or table changes. */
  lemma DismissAlertDismisses(db: Db, m: Matcher, user: int, alert: int)
    ensures var after := Apply(db, m, DismissAlert(user, alert));
      && after.(articleAlerts := db.articleAlerts) == db && |after.articleAlerts| == |db.articleAlerts|
      && forall i | 0 <= i < |db.articleAlerts| ::
           var aa, bb := db.articleAlerts[i], after.articleAlerts[i];
           && bb.(dismissed := aa.dismissed) == aa
           && (bb.dismissed <==> aa.dismissed || (aa.alert == alert && AlertOfUser(db, user, alert)))
  {
    AlertItems(db, user, alert);
    hide OwnsAlert, AlertOfUser;
  }

  lemma SetDismissedSets(db: Db, m: Matcher, user: int, id: int, dismissed: bool)
    ensures var after := Apply(db, m, SetDismissed(user, id, dismissed));
      && after.(articleAlerts := db.articleAlerts) == db && |after.articleAlerts| == |db.articleAlerts|
      && forall i | 0 <= i < |db.articleAlerts| ::
           var aa, bb := db.articleAlerts[i], after.articleAlerts[i];
           && bb.(dismissed := aa.dismissed) == aa
           && (bb.dismissed <==> if aa.id == id && AlertOfUser(db, user, aa.alert) then dismissed else aa.dismissed)
  {
    forall alert ensures OwnsAlert(db, user, alert) <==> AlertOfUser(db, user, alert) {
      AlertItems(db, user, alert);
    }
    hide OwnsAlert, AlertOfUser;
  }

  /** Deleting an alert of one's own takes its matches with it, in place; other alerts keep theirs. */
  lemma DeleteAlertDeletes(db: Db, m: Matcher, user: int, alert: int)
    ensures var after := Apply(db, m, DeleteAlert(user, alert));
      && after.(alerts := db.alerts, articleAlerts := db.articleAlerts) == db
      && (!AlertOfUser(db, user, alert) ==> after == db)
      && (AlertOfUser(db, user, alert) ==>
            && after.alerts.Items == db.alerts.Items - {(alert, user)}
            && after.articleAlerts == Filter(db.articleAlerts, (aa: ArticleAlert) => aa.alert != alert))
  {
    AlertItems(db, user, alert);
    var after := Apply(db, m, DeleteAlert(user, alert));
    if OwnsAlert(db, user, alert) {
      forall x ensures x in after.alerts.Items <==> x in db.alerts.Items - {(alert, user)} {
        assert x in db.alerts.Items <==> x.0 in db.alerts && db.alerts[x.0] == x.1;
        assert x in after.alerts.Items <==> x.0 in after.alerts && after.alerts[x.0] == x.1;
      }
    }
  }

  /** What the alert requests change in the counts is the alert count. */
  lemma AlertCounts(db: Db, other: Db, m: Matcher, user: int)
    requires other == db.(alerts := other.alerts, articleAlerts := other.articleAlerts)
    ensures FreshCounts(other, m, user) == FreshCounts(db, m, user).(alerts := UndismissedAlerts(other, user))
  {
    FreshCountsFromView(db, m, user);
    FreshCountsFromView(other, m, user);
    ViewHoldsTheQueries(other, user);
    assert ViewOf(other, user) == ViewOf(db, user).(matches := OwnMatches(other.articleAlerts, other.alerts, user));
    hide FreshCounts, ViewOf, CaughtBy, GroupCount, JoinCategories, FirstCategories, UndismissedAlerts;
  }

  /** After dismissing an alert the user is told of the matches of the other alerts. */
  lemma DismissAlertCounts(db: Db, m: Matcher, user: int, alert: int)
    ensures FreshCounts(Apply(db, m, DismissAlert(user, alert)), m, user) == FreshCounts(db, m, user).(alerts :=
      |Filter(db.articleAlerts, (aa: ArticleAlert) =>
        AlertOfUser(db, user, aa.alert) && !aa.dismissed && aa.alert != alert)|)
  {
    var after := Apply(db, m, DismissAlert(user, alert));
    hide FreshCounts;
    AlertCounts(db, after, m, user);
    UndismissedAfter(db, user, alert);
  }

  lemma UndismissedAfter(db: Db, user: int, alert: int)
    ensures UndismissedAlerts(db.(articleAlerts := Dismissed(db, user, alert)), user) ==
      |Filter(db.articleAlerts, (aa: ArticleAlert) =>
        AlertOfUser(db, user, aa.alert) && !aa.dismissed && aa.alert != alert)|
  {
    var other := db.(articleAlerts := Dismissed(db, user, alert));
    var f := (aa: ArticleAlert) =>
      if aa.alert == alert && OwnsAlert(db, user, alert) then aa.(dismissed := true) else aa;
    var told := (aa: ArticleAlert) => OwnsAlert(db, user, aa.alert) && !aa.dismissed;
    FilterAgrees(other.articleAlerts, (aa: ArticleAlert) => OwnsAlert(other, user, aa.alert) && !aa.dismissed, told);
    assert other.articleAlerts == Map(db.articleAlerts, f);
    MappedAway(db.articleAlerts, f, told, (aa: ArticleAlert) => aa.alert == alert && OwnsAlert(db, user, alert),
               (aa: ArticleAlert) => AlertOfUser(db, user, aa.alert) && !aa.dismissed && aa.alert != alert);
  }

  /** Rows that an update puts out of sight are as good as dropped. */
  lemma {:induction false} MappedAway<T>(s: seq<T>, f: T -> T, p: T -> bool, hit: T -> bool, rest: T -> bool)
    requires forall x | x in s :: if hit(x) then !p(f(x)) else f(x) == x
    requires forall x | x in s :: rest(x) == (p(x) && !hit(x))
    ensures Filter(Map(s, f), p) == Filter(s, rest)
  {
    if s != [] {
      MappedAway(s[1..], f, p, hit, rest);
      assert Map(s, f)[1..] == Map(s[1..], f);
    }
  }

  // ----- Rules

  /** A rule with a known kind, a pattern and an existing category is stored; the unread articles of the
      feeds filed under a category of the user's that one of its rules matches are then marked read. */
  lemma CreateExclusionStores(db: Db, m: Matcher, user: int, rule: Exclusion)
    ensures var after := Apply(db, m, CreateExclusion(user, rule));
      var accepted := (rule.kind == "title" || rule.kind == "author" || rule.kind == "keyword") &&
                      |rule.pattern| > 0 && rule.category in db.categories.Keys;
      && OnlyReadFlags(db, after.(exclusions := db.exclusions))
      && after.exclusions == (if accepted then db.exclusions + [rule] else db.exclusions)
      && forall i | 0 <= i < |db.articles| ::
           var a := db.articles[i];
           after.articles[i].isRead <==>
             || a.isRead
             || (&& accepted && db.categories[rule.category].owner == Some(user)
                 && (exists fc | fc in db.feedCategories :: fc.feed == a.feed && fc.category == rule.category)
                 && exists e | e in db.exclusions + [rule] :: e.category == rule.category && RuleMatches(m, e, a))
  {
    hide RuleMatches;
    var after := Apply(db, m, CreateExclusion(user, rule));
    if AcceptsRule(db, rule) {
      var other := db.(exclusions := db.exclusions + [rule]);
      assert after == MarkCategory(other, m, rule.category, user);
      forall i | 0 <= i < |db.articles|
        ensures MarkedBy(other, m, rule.category, user, db.articles[i]) <==>
          && !db.articles[i].isRead && db.categories[rule.category].owner == Some(user)
          && (exists fc | fc in db.feedCategories :: fc.feed == db.articles[i].feed && fc.category == rule.category)
          && exists e | e in db.exclusions + [rule] :: e.category == rule.category && RuleMatches(m, e, db.articles[i])
      {
        MarkedByRules(other, m, rule.category, user, db.articles[i]);
      }
    }
  }

  lemma MarkedByRules(db: Db, m: Matcher, category: int, user: int, a: Article)
    ensures MarkedBy(db, m, category, user, a) <==>
      && !a.isRead && category in db.categories && db.categories[category].owner == Some(user)
      && (exists fc | fc in db.feedCategories :: fc.feed == a.feed && fc.category == category)
      && exists e | e in db.exclusions :: e.category == category && RuleMatches(m, e, a)
  {
    hide RuleMatches;
    if fc :| fc in db.feedCategories && fc.feed == a.feed && fc.category == category {
      assert fc == FeedCategory(a.feed, category);
    }
    if OwnsCategory(db, user, category) {
      var rules := ExclusionsOf(db, category, Some(user));
      assert forall e | e in db.exclusions && e.category == category :: e in rules;
    }
  }

  lemma OtherRulesStay(db: Db, user: int, id: int, p: Exclusion -> bool)
    requires forall e | e in db.exclusions && p(e) :: e.id != id
    ensures Filter(WithoutRule(db, user, id), p) == Filter(db.exclusions, p)
  {
    DeleteOutside(db.exclusions, (e: Exclusion) => !(e.id == id && OwnsCategory(db, user, e.category)), p);
  }

  /** Deleting a rule of a category of one's own takes that rule out, in place, and changes nothing else. */
  lemma DeleteExclusionDeletes(db: Db, m: Matcher, user: int, id: int)
    ensures var after := Apply(db, m, DeleteExclusion(user, id));
      && after.(exclusions := db.exclusions) == db
      && (forall e :: e in after.exclusions <==>
            && e in db.exclusions
            && (e.id == id ==> e.category in db.categories ==> db.categories[e.category].owner != Some(user)))
      && forall p: Exclusion -> bool | (forall e | e in db.exclusions && p(e) :: e.id != id) ::
           Filter(after.exclusions, p) == Filter(db.exclusions, p)
  {
    var after := Apply(db, m, DeleteExclusion(user, id));
    assert after == db.(exclusions := WithoutRule(db, user, id));
    forall e ensures e in after.exclusions <==>
      && e in db.exclusions
      && (e.id == id ==> e.category in db.categories ==> db.categories[e.category].owner != Some(user))
    {
    }
    hide WithoutRule, Apply;
    forall p: Exclusion -> bool | forall e | e in db.exclusions && p(e) :: e.id != id
      ensures Filter(after.exclusions, p) == Filter(db.exclusions, p)
    {
      OtherRulesStay(db, user, id, p);
    }
  }

  // ----- Feeds

  /** Deleting a feed of one's own takes its articles, filings and seen GUIDs with it, and the queue entries
      and alert matches that are left without an article; all else stays as it is and in place. */
  lemma DeleteFeedDeletes(db: Db, m: Matcher, user: int, feed: int)
    ensures var after := Apply(db, m, DeleteFeed(user, feed));
      && (!(feed in db.feeds && db.feeds[feed].owner == Some(user)) ==> after == db)
      && (feed in db.feeds && db.feeds[feed].owner == Some(user) ==>
            && after == db.(feeds := after.feeds, articles := after.articles, feedCategories := after.feedCategories,
                            queue := after.queue, articleAlerts := after.articleAlerts, seen := after.seen)
            && after.feeds == (map f | f in db.feeds && f != feed :: db.feeds[f])
            && after.articles == Filter(db.articles, (a: Article) => a.feed != feed)
            && after.feedCategories == Filter(db.feedCategories, (fc: FeedCategory) => fc.feed != feed)
            && after.queue == Filter(db.queue, (e: QueueEntry) => InOtherFeed(db, feed, e.article))
            && after.articleAlerts ==
                 Filter(db.articleAlerts, (aa: ArticleAlert) => InOtherFeed(db, feed, aa.article))
            && after.seen == (map k | k in db.seen && k.0 != feed :: db.seen[k]))
  {
    if Owns(db.feeds, user, feed) {
      var kept := Filter(db.articles, (a: Article) => a.feed != feed);
      forall id ensures (exists a | a in kept :: a.id == id) <==> InOtherFeed(db, feed, id) {
      }
      hide InOtherFeed;
      FilterAgrees(db.queue, (e: QueueEntry) => exists a | a in kept :: a.id == e.article,
                   (e: QueueEntry) => InOtherFeed(db, feed, e.article));
      FilterAgrees(db.articleAlerts, (aa: ArticleAlert) => exists a | a in kept :: a.id == aa.article,
                   (aa: ArticleAlert) => InOtherFeed(db, feed, aa.article));
    }
  }

  predicate InOtherFeed(db: Db, feed: int, article: int) {
    exists a | a in db.articles :: a.id == article && a.feed != feed
  }

  lemma ShownWithoutFeed(db: Db, m: Matcher, feed: int, user: int)
    ensures Shown(Retention.RemoveFeed(db, feed), m, user) == Filter(Shown(db, m, user), (a: Article) => a.feed != feed)
  {
    var after := Retention.RemoveFeed(db, feed);
    var stays := (a: Article) => a.feed != feed;
    assert after.articles == Filter(db.articles, stays);
    forall a: Article | a.feed != feed ensures Shows(after, m, user, a) <==> Shows(db, m, user, a) {
      ExcludedWithoutFeed(db, m, feed, user, a);
      OwnsWithoutFeed(db, feed, user, a);
    }
    ShownIs(db, m, user);
    ShownIs(after, m, user);
    hide Shown, Shows, Retention.RemoveFeed;
    FilterBoth(db.articles, stays, (a: Article) => !a.isRead && Shows(after, m, user, a),
               (a: Article) => !a.isRead && Shows(db, m, user, a) && a.feed != feed);
    FilterBoth(db.articles, (a: Article) => !a.isRead && Shows(db, m, user, a), stays,
               (a: Article) => !a.isRead && Shows(db, m, user, a) && a.feed != feed);
  }

  lemma OwnsWithoutFeed(db: Db, feed: int, user: int, a: Article)
    requires a.feed != feed
    ensures Owns(Retention.RemoveFeed(db, feed).feeds, user, a.feed) <==> Owns(db.feeds, user, a.feed)
  {
  }

  /** A deleted feed's articles are no longer shown or counted; what is shown and starred of the others
      stays. */
  lemma DeleteFeedHides(db: Db, m: Matcher, user: int, feed: int)
    requires Owns(db.feeds, user, feed)
    ensures var after := Apply(db, m, DeleteFeed(user, feed));
      && Shown(after, m, user) == Filter(Shown(db, m, user), (a: Article) => a.feed != feed)
      && FreshCounts(after, m, user).unread == |Filter(Shown(db, m, user), (a: Article) => a.feed != feed)|
      && FreshCounts(after, m, user).starred == |Filter(db.articles, (a: Article) =>
           a.isStarred && Owns(db.feeds, user, a.feed) && a.feed != feed)|
  {
    assert Apply(db, m, DeleteFeed(user, feed)) == Retention.RemoveFeed(db, feed);
    hide Apply, Retention.RemoveFeed, FreshCounts, Shown, StarredCount;
    ShownWithoutFeed(db, m, feed, user);
    UnreadIsShown(Retention.RemoveFeed(db, feed), m, user);
    StarredIs(Retention.RemoveFeed(db, feed), m, user);
    StarredWithoutFeed(db, feed, user);
  }

  lemma StarredWithoutFeed(db: Db, feed: int, user: int)
    ensures StarredCount(Retention.RemoveFeed(db, feed), user) == |Filter(db.articles, (a: Article) =>
              a.isStarred && Owns(db.feeds, user, a.feed) && a.feed != feed)|
  {
    var after := Retention.RemoveFeed(db, feed);
    FilterBoth(db.articles, (a: Article) => a.feed != feed,
               (a: Article) => a.isStarred && Owns(after.feeds, user, a.feed),
               (a: Article) => a.isStarred && Owns(db.feeds, user, a.feed) && a.feed != feed);
  }

  lemma ExcludedWithoutFeed(db: Db, m: Matcher, feed: int, user: int, a: Article)
    requires a.feed != feed
    ensures Excluded(Retention.RemoveFeed(db, feed), m, user, a) <==> Excluded(db, m, user, a)
  {
    hide RuleMatches;
    var after := Retention.RemoveFeed(db, feed);
    assert forall fc | fc in db.feedCategories && fc.feed == a.feed :: fc in after.feedCategories;
  }

  // ----- What rules show and hide

  ghost predicate HitBy(db: Db, m: Matcher, rule: Exclusion, a: Article) {
    FeedCategory(a.feed, rule.category) in db.feedCategories && RuleMatches(m, rule, a)
  }

  lemma ExcludedWithOwnRule(db: Db, m: Matcher, user: int, rule: Exclusion, a: Article)
    requires OwnsCategory(db, user, rule.category) && Owns(db.feeds, user, a.feed)
    ensures Excluded(db.(exclusions := db.exclusions + [rule]), m, user, a) <==>
            Excluded(db, m, user, a) || HitBy(db, m, rule, a)
  {
    hide RuleMatches;
    var other := db.(exclusions := db.exclusions + [rule]);
    ExcludedByRule(db, m, user, a);
    ExcludedByRule(other, m, user, a);
    assert forall e :: e in other.exclusions <==> e in db.exclusions || e == rule;
    hide Excluded;
  }

  /** Marking rows that are not shown anyway makes no difference to what is shown. */
  lemma MarkedByIsHidden(db: Db, m: Matcher, category: int, user: int, a: Article)
    requires MarkedBy(db, m, category, user, a) && Owns(db.feeds, user, a.feed)
    ensures Excluded(db, m, user, a)
  {
    hide RuleMatches;
    MarkedByRules(db, m, category, user, a);
    var e :| e in db.exclusions && e.category == category && RuleMatches(m, e, a);
    ExcludedByRule(db, m, user, a);
    assert AppliesTo(db, user, e, a.feed);
  }

  lemma ShownWithOwnRule(db: Db, m: Matcher, user: int, rule: Exclusion)
    requires OwnsCategory(db, user, rule.category)
    ensures Shown(db.(exclusions := db.exclusions + [rule]), m, user) ==
            Filter(Shown(db, m, user), (a: Article) => !HitBy(db, m, rule, a))
  {
    var other := db.(exclusions := db.exclusions + [rule]);
    hide Excluded, HitBy;
    ShownIs(db, m, user);
    ShownIs(other, m, user);
    forall a: Article | Owns(db.feeds, user, a.feed)
      ensures Excluded(other, m, user, a) <==> Excluded(db, m, user, a) || HitBy(db, m, rule, a)
    {
      ExcludedWithOwnRule(db, m, user, rule, a);
    }
    hide Shown;
    FilterBoth(db.articles, (a: Article) => !a.isRead && Shows(db, m, user, a), (a: Article) => !HitBy(db, m, rule, a),
               (a: Article) => !a.isRead && Shows(other, m, user, a));
  }

  lemma ShownAfterMarkCategory(db: Db, m: Matcher, category: int, user: int)
    ensures Shown(MarkCategory(db, m, category, user), m, user) == Shown(db, m, user)
  {
    var after := MarkCategory(db, m, category, user);
    var marked := (a: Article) => MarkedBy(db, m, category, user, a);
    hide MarkedBy, Shown, Excluded;
    ShownIs(db, m, user);
    ShownIs(after, m, user);
    forall a ensures Shows(after, m, user, a) <==> Shows(db, m, user, a) {
      ShowsIgnoresRows(db, after, m, user, a);
    }
    forall a | a in db.articles && Shows(db, m, user, a) ensures !marked(a) {
      if marked(a) {
        MarkedByIsHidden(db, m, category, user, a);
      }
    }
    forall a: Article, r: bool ensures Shows(db, m, user, a.(isRead := r)) == Shows(db, m, user, a) {
      ShowsIgnoresFlag(db, m, user, a, r);
    }
    hide Shows;
    var keep := (a: Article) => Shows(db, m, user, a);
    HiddenMarked(db.articles, marked, keep);
    FilterAgrees(after.articles, (a: Article) => !a.isRead && keep(a),
                 (a: Article) => !a.isRead && Shows(after, m, user, a));
    FilterAgrees(db.articles, (a: Article) => !a.isRead && keep(a), (a: Article) => !a.isRead && Shows(db, m, user, a));
  }

  lemma {:induction false} HiddenMarked(rows: seq<Article>, p: Article -> bool, keep: Article -> bool)
    requires forall a | a in rows && keep(a) :: !p(a)
    requires forall a: Article, r: bool :: keep(a.(isRead := r)) == keep(a)
    ensures Filter(MarkRead(rows, p), (a: Article) => !a.isRead && keep(a)) ==
            Filter(rows, (a: Article) => !a.isRead && keep(a))
  {
    if rows != [] {
      HiddenMarked(rows[1..], p, keep);
      assert MarkRead(rows, p)[1..] == MarkRead(rows[1..], p);
    }
  }

  /** After a new rule on a category of one's own the user is shown, and counted, what was shown before
      except what the rule hits in the feeds filed under the category. */
  lemma OwnRuleHides(db: Db, m: Matcher, user: int, rule: Exclusion)
    requires AcceptsRule(db, rule) && OwnsCategory(db, user, rule.category)
    ensures var after := Apply(db, m, CreateExclusion(user, rule));
      && Shown(after, m, user) == Filter(Shown(db, m, user), (a: Article) => !HitBy(db, m, rule, a))
      && FreshCounts(after, m, user).unread == |Filter(Shown(db, m, user), (a: Article) => !HitBy(db, m, rule, a))|
  {
    var other := db.(exclusions := db.exclusions + [rule]);
    assert Apply(db, m, CreateExclusion(user, rule)) == MarkCategory(other, m, rule.category, user);
    hide Shown, MarkCategory, FreshCounts, HitBy;
    ShownWithOwnRule(db, m, user, rule);
    ShownAfterMarkCategory(other, m, rule.category, user);
    UnreadIsShown(MarkCategory(other, m, rule.category, user), m, user);
  }

  /** After deleting a rule the user is shown, and counted, the unread articles that no remaining rule of
      theirs hits. */
  lemma DeleteExclusionShows(db: Db, m: Matcher, user: int, id: int)
    ensures var after := Apply(db, m, DeleteExclusion(user, id));
      var shown := Filter(UnreadRows(db, user), (a: Article) => !RemainingRuleHits(db, m, user, id, a));
      Shown(after, m, user) == shown && FreshCounts(after, m, user).unread == |shown|
  {
    var after := Apply(db, m, DeleteExclusion(user, id));
    UnreadIsShown(after, m, user);
    hide FreshCounts;
    SameUnread(db, after, user);
    forall a ensures Excluded(after, m, user, a) <==> RemainingRuleHits(db, m, user, id, a) {
      RemainingRules(db, m, user, id, a);
    }
    hide Excluded, RemainingRuleHits, UnreadRows;
    FilterAgrees(UnreadRows(db, user), (a: Article) => !Excluded(after, m, user, a),
                 (a: Article) => !RemainingRuleHits(db, m, user, id, a));
  }

  lemma SameUnread(db: Db, other: Db, user: int)
    requires other.articles == db.articles && other.feeds == db.feeds
    ensures UnreadRows(other, user) == UnreadRows(db, user)
  {
    FilterAgrees(db.articles, (a: Article) => !a.isRead && Owns(other.feeds, user, a.feed),
                 (a: Article) => !a.isRead && Owns(db.feeds, user, a.feed));
  }

  ghost predicate RemainingRuleHits(db: Db, m: Matcher, user: int, id: int, a: Article) {
    exists e | e in db.exclusions && e.id != id && AppliesTo(db, user, e, a.feed) :: RuleMatches(m, e, a)
  }

  lemma RemainingRules(db: Db, m: Matcher, user: int, id: int, a: Article)
    ensures Excluded(Apply(db, m, DeleteExclusion(user, id)), m, user, a) <==> RemainingRuleHits(db, m, user, id, a)
  {
    var after := Apply(db, m, DeleteExclusion(user, id));
    DeleteExclusionDeletes(db, m, user, id);
    hide RuleMatches;
    ExcludedByRule(after, m, user, a);
    hide Excluded, Apply;
    forall e ensures AppliesTo(after, user, e, a.feed) <==> AppliesTo(db, user, e, a.feed) {
    }
  }

  lemma CountsAside(db: Db, other: Db, m: Matcher, user: int)
    requires other == db.(articles := other.articles, exclusions := other.exclusions)
    requires StarredCount(other, user) == StarredCount(db, user)
    ensures var before, after := FreshCounts(db, m, user), FreshCounts(other, m, user);
      after.starred == before.starred && after.queue == before.queue && after.alerts == before.alerts
  {
    hide GroupCount, StarredCount, UnreadRows, Survivors, Mappings, AllExclusions;
    FilterAgrees(db.articleAlerts, (aa: ArticleAlert) => OwnsAlert(other, user, aa.alert) && !aa.dismissed,
                 (aa: ArticleAlert) => OwnsAlert(db, user, aa.alert) && !aa.dismissed);
  }

  lemma StarredAfterMarking(db: Db, other: Db, p: Article -> bool, user: int)
    requires other.feeds == db.feeds && other.articles == MarkRead(db.articles, p)
    ensures StarredCount(other, user) == StarredCount(db, user)
  {
    var starred := (a: Article) => a.isStarred && Owns(db.feeds, user, a.feed);
    CountAfterMarking(db.articles, p, starred);
    FilterAgrees(other.articles, starred, (a: Article) => a.isStarred && Owns(other.feeds, user, a.feed));
    FilterAgrees(db.articles, starred, (a: Article) => a.isStarred && Owns(db.feeds, user, a.feed));
  }

  /** Rule requests change no starred, queue or alert count. */
  lemma RuleCountsAside(db: Db, m: Matcher, op: Op, user: int)
    requires op.CreateExclusion? || op.DeleteExclusion?
    ensures var before, after := FreshCounts(db, m, user), FreshCounts(Apply(db, m, op), m, user);
      after.starred == before.starred && after.queue == before.queue && after.alerts == before.alerts
  {
    var other := Apply(db, m, op);
    var with := if op.CreateExclusion? then db.(exclusions := db.exclusions + [op.rule]) else db;
    hide MarkedBy, FreshCounts, AcceptsRule, StarredCount;
    if op.CreateExclusion? && AcceptsRule(db, op.rule) {
      StarredAfterMarking(db, other, (a: Article) => MarkedBy(with, m, op.rule.category, op.user, a), user);
    } else {
      StarredAfterMarking(db, other, (a: Article) => false, user);
    }
    CountsAside(db, other, m, user);
  }

  // ----- Fetching

  /** A fetch that stores something marks the feed, and then records those matches of its owner's alerts
      that are for unread articles of the feed; one that stores nothing changes nothing. */
  lemma FetchMarksAndAlerts(db: Db, m: Matcher, now: int, feed: int, items: seq<Item>, matches: seq<ArticleAlert>)
    ensures var after := Apply(db, m, FeedFetched(now, feed, items, matches));
      var marked := AfterMarking(AfterStore(db, now, feed, items), m, feed);
      if exists item | item in items :: item.guid != "" && (feed, item.guid) !in db.seen && feed in db.feeds
      then
        && after.(articleAlerts := marked.articleAlerts) == marked
        && after.articleAlerts == marked.articleAlerts + Filter(matches, (aa: ArticleAlert) =>
             && (exists u | (aa.alert, u) in db.alerts.Items :: feed in db.feeds && db.feeds[feed].owner == Some(u))
             && exists a | a in marked.articles :: a.id == aa.article && a.feed == feed && !a.isRead)
      else after == db
  {
    var stored := AfterStore(db, now, feed, items);
    StoreAddsStorableKeys(db, now, feed, items, (0, ""));
    MarkingFeedMarks(stored, m, feed);
    var marked := AfterMarking(stored, m, feed);
    hide AfterStore, AfterMarking, RuleMatches;
    if StoresSomething(db, feed, items) {
      assert forall alert, u :: (alert, u) in db.alerts.Items <==> alert in db.alerts && db.alerts[alert] == u;
      FilterAgrees(matches, (aa: ArticleAlert) =>
                     && aa.alert in marked.alerts && Owns(marked.feeds, marked.alerts[aa.alert], feed)
                     && exists a | a in marked.articles :: a.id == aa.article && a.feed == feed && !a.isRead,
                   (aa: ArticleAlert) =>
                     && (exists u | (aa.alert, u) in db.alerts.Items ::
                           feed in db.feeds && db.feeds[feed].owner == Some(u))
                     && exists a | a in marked.articles :: a.id == aa.article && a.feed == feed && !a.isRead);
    } else {
      NothingStored(db, now, feed, items);
    }
  }

  // ----- Cleaning up

  lemma {:induction false} NobodyOldNothingDeleted(db: Db, now: int, users: seq<int>)
    requires Retention.Sound(db) && forall u, a | u in users && a in db.articles :: !Retention.IsOld(db, now, u, a)
    ensures Retention.CleanUsers(db, now, users).articles == db.articles
  {
    if users != [] {
      var init, last := users[..|users| - 1], users[|users| - 1];
      assert users == init + [last];
      NobodyOldNothingDeleted(db, now, init);
      Retention.CleanUsersSnoc(db, now, init, last);
      var mid := Retention.CleanUsers(db, now, init);
      Retention.CleanupCleans(db, now, init, 0);
      Retention.CleanedIsLocal(db, mid, now, 0);
      hide Retention.CleanUsers, Retention.IsOld, Retention.Sound, Retention.Cleaned;
      forall a | a in db.articles
        ensures !Retention.Expired(mid, now, Retention.RetentionDays(mid, last), last, a)
      {
        Retention.ExpiredIgnoresRows(db, mid, now, last, a);
        Retention.ExpiredIsOld(db, now, last, a);
      }
      NoneExpired(mid, now, last);
    }
  }

  lemma NoneExpired(db: Db, now: int, user: int)
    requires forall a | a in db.articles :: !Retention.Expired(db, now, Retention.RetentionDays(db, user), user, a)
    ensures Retention.CleanUser(db, now, user).articles == db.articles
  {
    var days := Retention.RetentionDays(db, user);
    var recorded := Retention.RecordSeen(db, now, days, user);
    hide Retention.RetentionDays, Retention.Expired;
    forall a ensures Retention.Expired(recorded, now, days, user, a) <==> Retention.Expired(db, now, days, user, a) {
      Retention.ExpiredIgnoresSeen(db, recorded, now, days, user);
    }
    FilterKeepsAll(db.articles, (a: Article) => !Retention.Expired(recorded, now, days, user, a));
  }

  /** A cleanup of all users deletes something if and only if a row is old for one of them. */
  lemma CleanupDeletesIff(db: Db, now: int)
    requires Retention.Sound(db) && Linked(db)
    ensures |Retention.CleanUsers(db, now, db.users).articles| < |db.articles| <==>
            exists u, a | u in db.users && a in db.articles :: Retention.IsOld(db, now, u, a)
  {
    hide *;
    CleanupKeepsViews(db, now, db.users);
    var after := Retention.CleanUsers(db, now, db.users);
    if u, a :| u in db.users && a in db.articles && Retention.IsOld(db, now, u, a) {
      Retention.GoneIffOld(db, now, db.users, a);
    } else {
      NobodyOldNothingDeleted(db, now, db.users);
    }
  }

  lemma CleanNowDeletesIff(db: Db, now: int, user: int)
    requires Retention.Sound(db) && Linked(db)
    ensures |Retention.RecordAndDelete(db, now, user).articles| < |db.articles| <==>
            exists a | a in db.articles :: Retention.IsOld(db, now, user, a)
  {
    hide *;
    CleanUserKeepsViews(db, now, user);
    var after := Retention.RecordAndDelete(db, now, user);
    if a :| a in db.articles && Retention.IsOld(db, now, user, a) {
      Retention.CleanNowByColumns(db, now, user);
    } else {
      forall a | a in db.articles
        ensures !Retention.Expired(db, now, Retention.RetentionDays(db, user), user, a)
      {
        Retention.ExpiredIsOld(db, now, user, a);
      }
      NoneExpired(db, now, user);
      PruningKeepsRows(db, now, user);
    }
  }

  lemma PruningKeepsRows(db: Db, now: int, user: int)
    ensures Retention.CleanUser(db, now, user).articles == Retention.RecordAndDelete(db, now, user).articles
  {
    hide Retention.RecordAndDelete;
  }

  predicate HasArticle(rows: seq<Article>, aa: ArticleAlert) {
    exists a | a in rows :: a.id == aa.article
  }

  lemma TurnMatches(db: Db, now: int, user: int)
    ensures var after := Retention.RecordAndDelete(db, now, user);
      && after.articleAlerts == Filter(db.articleAlerts, (aa: ArticleAlert) => HasArticle(after.articles, aa))
      && Retention.CleanUser(db, now, user).articles == after.articles
      && Retention.CleanUser(db, now, user).articleAlerts == after.articleAlerts
      && forall a | a in after.articles :: a in db.articles
  {
    var after := Retention.RecordAndDelete(db, now, user);
    hide Retention.RetentionDays, Retention.Expired;
    FilterAgrees(db.articleAlerts, (aa: ArticleAlert) => exists a | a in after.articles :: a.id == aa.article,
                 (aa: ArticleAlert) => HasArticle(after.articles, aa));
  }

  /** A cleanup keeps exactly the alert matches whose article is still there, in their order. */
  lemma {:induction false} CleanupMatches(db: Db, now: int, users: seq<int>)
    requires forall aa | aa in db.articleAlerts :: HasArticle(db.articles, aa)
    ensures var after := Retention.CleanUsers(db, now, users);
      && after.articleAlerts == Filter(db.articleAlerts, (aa: ArticleAlert) => HasArticle(after.articles, aa))
      && forall a | a in after.articles :: a in db.articles
  {
    if users == [] {
      FilterKeepsAll(db.articleAlerts, (aa: ArticleAlert) => HasArticle(db.articles, aa));
    } else {
      var init, last := users[..|users| - 1], users[|users| - 1];
      assert users == init + [last];
      CleanupMatches(db, now, init);
      Retention.CleanUsersSnoc(db, now, init, last);
      var mid := Retention.CleanUsers(db, now, init);
      TurnMatches(mid, now, last);
      var after := Retention.CleanUsers(db, now, users);
      hide Retention.CleanUsers, Retention.CleanUser, Retention.RecordAndDelete;
      FilterBoth(db.articleAlerts, (aa: ArticleAlert) => HasArticle(mid.articles, aa),
                 (aa: ArticleAlert) => HasArticle(after.articles, aa),
                 (aa: ArticleAlert) => HasArticle(after.articles, aa));
    }
  }

  // ----- The requests in the life of an article

  lemma SetReadIsStep(db: Db, m: Matcher, now: int, u: int, id: int, isRead: bool)
    requires forall a, b | a in db.articles && b in db.articles && a.id == id && b.id == id :: a == b
    ensures var after, s := Apply(db, m, SetRead(u, id, isRead)), Retention.State(now, db);
      if exists a | a in db.articles :: a.id == id && OfUser(db, u, a)
      then after == Retention.Next(s, Retention.SetRead(id, isRead)).db else after == db
  {
    var rows, own := db.articles, (a: Article) => a.id == id && Owns(db.feeds, u, a.feed);
    assert forall i | 0 <= i < |rows| :: rows[i] in rows;
    assert Apply(db, m, SetRead(u, id, isRead)).articles ==
           Map(rows, (a: Article) => if own(a) then a.(isRead := isRead) else a);
    if exists a | a in rows :: own(a) {
      assert forall a | a in rows :: own(a) <==> a.id == id;
      assert Map(rows, (a: Article) => if own(a) then a.(isRead := isRead) else a) ==
             Map(rows, (a: Article) => if a.id == id then a.(isRead := isRead) else a);
    } else {
      assert Map(rows, (a: Article) => if own(a) then a.(isRead := isRead) else a) == rows;
    }
  }

  lemma ToggleStarIsStep(db: Db, m: Matcher, now: int, u: int, a: Article)
    requires a in db.articles && forall b | b in db.articles && b.id == a.id :: b == a
    ensures Apply(db, m, ToggleStar(u, a.id)) == if OfUser(db, u, a)
      then Retention.Next(Retention.State(now, db), Retention.SetStarred(a.id, !a.isStarred)).db else db
  {
    var rows := db.articles;
    assert forall i | 0 <= i < |rows| :: rows[i] in rows;
    var f := (x: Article) => if x.id == a.id && Owns(db.feeds, u, x.feed) then x.(isStarred := !x.isStarred) else x;
    assert Apply(db, m, ToggleStar(u, a.id)).articles == Map(rows, f);
    if OfUser(db, u, a) {
      assert Map(rows, f) == Map(rows, (x: Article) => if x.id == a.id then x.(isStarred := !a.isStarred) else x);
    } else {
      assert Map(rows, f) == rows;
    }
  }

  /** The requests that change a row's life are steps of the runs that retention is proved about. */
  lemma RequestsAreSteps(db: Db, m: Matcher, now: int, op: Op)
    requires KeysApart(db.articles)
    ensures var after, s := Apply(db, m, op), Retention.State(now, db);
      match op
      case SetRead(u, id, isRead) =>
        if exists a | a in db.articles :: a.id == id && OfUser(db, u, a)
        then after == Retention.Next(s, Retention.SetRead(id, isRead)).db else after == db
      case ToggleStar(u, id) =>
        forall a | a in db.articles && a.id == id ::
          after == if OfUser(db, u, a) then Retention.Next(s, Retention.SetStarred(id, !a.isStarred)).db else db
      case ToggleQueue(_, _) => after == Retention.Next(s, Retention.SetQueue(after.queue)).db
      case RemoveFromQueue(_, _) => after == Retention.Next(s, Retention.SetQueue(after.queue)).db
      case DeleteFeed(u, feed) =>
        Owns(db.feeds, u, feed) ==> after == Retention.Next(s, Retention.DeleteFeed(feed)).db
      case Cleanup(at) => at == now ==> after == Retention.Next(s, Retention.Cleanup).db
      case CleanupNow(at, u) => at == now ==> after == Retention.Next(s, Retention.CleanupNow(u)).db
      case _ => true
  {
    match op
    case SetRead(u, id, isRead) =>
      OneRowHasId(db.articles, id);
      hide *;
      SetReadIsStep(db, m, now, u, id, isRead);
    case ToggleStar(u, id) =>
      OneRowHasId(db.articles, id);
      hide *;
      forall a | a in db.articles && a.id == id
        ensures Apply(db, m, op) == if OfUser(db, u, a)
          then Retention.Next(Retention.State(now, db), Retention.SetStarred(id, !a.isStarred)).db else db
      {
        ToggleStarIsStep(db, m, now, u, a);
      }
    case _ =>
      hide Retention.CleanUsers, Retention.RecordAndDelete, Retention.RemoveFeed, KeysApart, Toggled, Dequeued;
  }

  lemma OneRowHasId(rows: seq<Article>, id: int)
    requires KeysApart(rows)
    ensures forall a, b | a in rows && b in rows && a.id == id && b.id == id :: a == b
  {
  }

  // ----- Whose cached counts go

  /** Which requests drop a user's cached counts: those the user makes, as far as they can change anything,
      a fetch that stores something into a feed of the user's, and a cleanup that deletes a row of anyone. */
  lemma DropsWhom(db: Db, m: Matcher, op: Op, user: int)
    requires Retention.Sound(db) && Linked(db)
    ensures Invalidates(db, m, op, user) <==>
      match op
      case FeedFetched(_, feed, items, _) =>
        && feed in db.feeds && db.feeds[feed].owner == Some(user)
        && exists item | item in items :: item.guid != "" && (feed, item.guid) !in db.seen
      case Cleanup(now) => exists u, a | u in db.users && a in db.articles :: Retention.IsOld(db, now, u, a)
      case CleanupNow(now, u) => exists a | a in db.articles :: Retention.IsOld(db, now, u, a)
      case BatchRead(u, ids) => user == u && 1 <= |ids| <= 200
      case ToggleQueue(u, id) =>
        user == u && (QueueEntry(u, id) in db.queue || exists a | a in db.articles :: a.id == id)
      case CreateExclusion(u, rule) =>
        && user == u && (rule.kind == "title" || rule.kind == "author" || rule.kind == "keyword")
        && |rule.pattern| > 0 && rule.category in db.categories.Keys
      case _ => user == op.user
  {
    hide Retention.Sound, Linked, Retention.IsOld, Retention.CleanUsers, Retention.RecordAndDelete;
    match op
    case Cleanup(now) =>
      CleanupDeletesIff(db, now);
    case CleanupNow(now, u) =>
      CleanNowDeletesIff(db, now, u);
    case FeedFetched(now, feed, items, _) =>
      hide Apply;
    case _ =>
      hide Apply;
  }
}
