/** The state-changing requests of srv/server.go that invalidate cached counts, as
    transformations of the database, and whose counts each of them can change. */
module Operations {
  import opened Options
  import opened Sequences
  import opened Tables
  import opened ArticleStore
  import opened Exclusions
  import opened Counts
  import opened Views
  import Retention

  const MAX_BATCH := 200

  datatype Scope = Everything | OneFeed(feed: int) | OneCategory(category: int)

  datatype Op =
    | SetRead(user: int, article: int, isRead: bool)
    | BatchRead(user: int, articles: seq<int>)
    | ToggleStar(user: int, article: int)
    | ToggleQueue(user: int, article: int)
    | RemoveFromQueue(user: int, article: int)
    | ReadScope(user: int, scope: Scope, olderThan: Option<int>)
    | DeleteFeed(user: int, feed: int)
    | CreateExclusion(user: int, rule: Exclusion)
    | DeleteExclusion(user: int, exclusion: int)
    | DeleteAlert(user: int, alert: int)
    | DismissAlert(user: int, alert: int)
    | SetDismissed(user: int, articleAlert: int, dismissed: bool)
    | FeedFetched(now: int, feed: int, items: seq<Item>, matches: seq<ArticleAlert>)
    | Cleanup(now: int)
    | CleanupNow(now: int, user: int)

  // ----- What each request does

  predicate InScope(db: Db, scope: Scope, a: Article) {
    match scope
    case Everything => true
    case OneFeed(feed) => a.feed == feed
    case OneCategory(category) => FeedCategory(a.feed, category) in db.feedCategories
  }

  /** UPDATE articles SET is_read = 1 with an optional age limit. */
  predicate ReadBy(db: Db, user: int, scope: Scope, olderThan: Option<int>, a: Article) {
    && Owns(db.feeds, user, a.feed) && InScope(db, scope, a)
    && (olderThan.Some? ==> !a.isRead && a.SortTime() < olderThan.value)
  }

  /** The rows MarkExcludedArticlesReadForCategory marks: unread ones filed under the category that
      one of its rules, looked up for the acting user, matches. */
  predicate MarkedBy(db: Db, m: Matcher, category: int, user: int, a: Article) {
    && FeedCategory(a.feed, category) in db.feedCategories && !a.isRead
    && AnyRuleMatches(m, ExclusionsOf(db, category, Some(user)), a)
  }

  function MarkCategory(db: Db, m: Matcher, category: int, user: int): Db {
    db.(articles := MarkRead(db.articles, (a: Article) => MarkedBy(db, m, category, user, a)))
  }

  /** The handler refuses other types and empty patterns, the foreign key unknown categories. */
  predicate AcceptsRule(db: Db, rule: Exclusion) {
    rule.kind in {"author", "keyword", "title"} && rule.pattern != "" && rule.category in db.categories
  }

  function AddRule(db: Db, m: Matcher, user: int, rule: Exclusion): Db {
    if AcceptsRule(db, rule) then MarkCategory(db.(exclusions := db.exclusions + [rule]), m, rule.category, user)
    else db
  }

  /** The matches EvaluateAlertsForFeed inserts: alerts of the feed's owner, unread rows of the feed. */
  function AddMatches(db: Db, feed: int, matches: seq<ArticleAlert>): Db {
    db.(articleAlerts := db.articleAlerts + Filter(matches, (aa: ArticleAlert) =>
          && aa.alert in db.alerts && Owns(db.feeds, db.alerts[aa.alert], feed)
          && exists a | a in db.articles :: a.id == aa.article && a.feed == feed && !a.isRead))
  }

  predicate StoresSomething(db: Db, feed: int, items: seq<Item>) {
    exists item | item in items :: Storable(db, feed, item)
  }

  predicate HasRow(db: Db, article: int) {
    exists a | a in db.articles :: a.id == article
  }

  function Dequeued(queue: seq<QueueEntry>, user: int, article: int): seq<QueueEntry> {
    Filter(queue, (e: QueueEntry) => e != QueueEntry(user, article))
  }

  function Toggled(db: Db, user: int, article: int): seq<QueueEntry> {
    if QueueEntry(user, article) in db.queue then Dequeued(db.queue, user, article)
    else if HasRow(db, article) then db.queue + [QueueEntry(user, article)]
    else db.queue
  }

  function WithoutRule(db: Db, user: int, exclusion: int): seq<Exclusion> {
    Filter(db.exclusions, (e: Exclusion) => !(e.id == exclusion && OwnsCategory(db, user, e.category)))
  }

  /** The alert's matches, dismissed. */
  function Dismissed(db: Db, user: int, alert: int): seq<ArticleAlert> {
    Map(db.articleAlerts, (aa: ArticleAlert) =>
      if aa.alert == alert && OwnsAlert(db, user, alert) then aa.(dismissed := true) else aa)
  }

  function DismissedOne(db: Db, user: int, id: int, dismissed: bool): seq<ArticleAlert> {
    Map(db.articleAlerts, (aa: ArticleAlert) =>
      if aa.id == id && OwnsAlert(db, user, aa.alert) then aa.(dismissed := dismissed) else aa)
  }

  function Apply(db: Db, m: Matcher, op: Op): Db {
    match op
    case SetRead(u, id, isRead) =>
      db.(articles := Map(db.articles, (a: Article) =>
            if a.id == id && Owns(db.feeds, u, a.feed) then a.(isRead := isRead) else a))
    case BatchRead(u, ids) =>
      if |ids| > MAX_BATCH then db
      else db.(articles := MarkRead(db.articles, (a: Article) => a.id in ids && Owns(db.feeds, u, a.feed)))
    case ToggleStar(u, id) =>
      db.(articles := Map(db.articles, (a: Article) =>
            if a.id == id && Owns(db.feeds, u, a.feed) then a.(isStarred := !a.isStarred) else a))
    case ToggleQueue(u, id) => db.(queue := Toggled(db, u, id))
    case RemoveFromQueue(u, id) => db.(queue := Dequeued(db.queue, u, id))
    case ReadScope(u, scope, olderThan) =>
      db.(articles := MarkRead(db.articles, (a: Article) => ReadBy(db, u, scope, olderThan, a)))
    case DeleteFeed(u, feed) => if Owns(db.feeds, u, feed) then Retention.RemoveFeed(db, feed) else db
    case CreateExclusion(u, rule) => AddRule(db, m, u, rule)
    case DeleteExclusion(u, id) => db.(exclusions := WithoutRule(db, u, id))
    case DeleteAlert(u, alert) =>
      if OwnsAlert(db, u, alert)
      then db.(alerts := db.alerts - {alert},
               articleAlerts := Filter(db.articleAlerts, (aa: ArticleAlert) => aa.alert != alert))
      else db
    case DismissAlert(u, alert) => db.(articleAlerts := Dismissed(db, u, alert))
    case SetDismissed(u, id, dismissed) => db.(articleAlerts := DismissedOne(db, u, id, dismissed))
    case FeedFetched(now, feed, items, matches) =>
      var stored := AfterStore(db, now, feed, items);
      if StoresSomething(db, feed, items) then AddMatches(AfterMarking(stored, m, feed), feed, matches) else stored
    case Cleanup(now) => Retention.CleanUsers(db, now, db.users)
    case CleanupNow(now, u) => Retention.RecordAndDelete(db, now, u)
  }

  /** The owner of the fetched feed, when the fetch stored something. */
  function FetchOwner(db: Db, op: Op): Option<int> {
    if op.FeedFetched? && StoresSomething(db, op.feed, op.items) && op.feed in db.feeds
    then db.feeds[op.feed].owner
    else None
  }

  /** The handler does not return early with an error: AddToQueue fails when the article does not
      exist, and a rule can be refused. */
  predicate Succeeds(db: Db, op: Op) {
    match op
    case ToggleQueue(u, id) => QueueEntry(u, id) in db.queue || HasRow(db, id)
    case CreateExclusion(_, rule) => AcceptsRule(db, rule)
    case _ => true
  }

  /** Whose cached counts the handler drops, given whether rows were deleted, the owner of a
      feed that was fetched into, and whether the request succeeded. */
  predicate Drops(op: Op, deleted: bool, feedOwner: Option<int>, succeeded: bool, user: int) {
    match op
    case FeedFetched(_, _, _, _) => feedOwner == Some(user)
    case Cleanup(_) => deleted
    case CleanupNow(_, _) => deleted
    case BatchRead(u, ids) => user == u && 0 < |ids| <= MAX_BATCH
    case ToggleQueue(u, _) => user == u && succeeded
    case CreateExclusion(u, _) => user == u && succeeded
    case _ => user == op.user
  }

  predicate Invalidates(db: Db, m: Matcher, op: Op, user: int) {
    Drops(op, |Apply(db, m, op).articles| < |db.articles|, FetchOwner(db, op), Succeeds(db, op), user)
  }

  // ----- How the tables are linked

  ghost predicate RowOwned(db: Db, article: int, user: int) {
    exists a | a in db.articles :: a.id == article && Owns(db.feeds, user, a.feed)
  }

  /** Ids are keys, queue entries have articles, and users are alerted about their own. Users may queue
      anybody's articles and file their feeds under anybody's categories. */
  ghost predicate Linked(db: Db) {
    && WellKeyed(db)
    && (forall e | e in db.queue :: HasRow(db, e.article))
    && (forall aa | aa in db.articleAlerts ::
          aa.alert in db.alerts && RowOwned(db, aa.article, db.alerts[aa.alert]))
  }

  /** The user has queued an article of the feed. */
  ghost predicate QueuedFrom(db: Db, user: int, feed: int) {
    exists e, a | e in db.queue && a in db.articles :: e.user == user && e.article == a.id && a.feed == feed
  }

  /** The user has filed a feed under the category. */
  ghost predicate FiledUnder(db: Db, user: int, category: int) {
    exists fc | fc in db.feedCategories :: fc.category == category && Owns(db.feeds, user, fc.feed)
  }

  /** A new rule is for a category of one's own with feeds of one's own, and no feed is deleted that
      another user has queued an article of. */
  ghost predicate Considerate(db: Db, op: Op) {
    match op
    case CreateExclusion(u, rule) =>
      OwnsCategory(db, u, rule.category) && forall v | v != u :: !FiledUnder(db, v, rule.category)
    case DeleteFeed(u, feed) => Owns(db.feeds, u, feed) ==> forall v | v != u :: !QueuedFrom(db, v, feed)
    case _ => true
  }

  // ----- Frames: other users' views stay as they are

  /** The other user's rows survive an update of rows that are not theirs. */
  lemma RowsUpdated(db: Db, f: Article -> Article, user: int)
    requires forall a | a in db.articles :: f(a).feed == a.feed && (Owns(db.feeds, user, a.feed) ==> f(a) == a)
    ensures ViewOf(db.(articles := Map(db.articles, f)), user) == ViewOf(db, user)
  {
    UpdateOutside(db.articles, f, (a: Article) => Owns(db.feeds, user, a.feed));
  }

  lemma RowsMarked(db: Db, p: Article -> bool, user: int)
    requires forall a | a in db.articles && p(a) :: !Owns(db.feeds, user, a.feed)
    ensures ViewOf(db.(articles := MarkRead(db.articles, p)), user) == ViewOf(db, user)
  {
    RowsUpdated(db, (a: Article) => if p(a) then a.(isRead := true) else a, user);
  }

  lemma RuleAppended(db: Db, rule: Exclusion, user: int)
    ensures ViewOf(db.(exclusions := db.exclusions + [rule]), user) ==
      ViewOf(db, user).(rules := OwnRules(db.exclusions, db.categories, user) +
        if OwnsCategory(db, user, rule.category) then [rule] else [])
  {
    FilterSnoc(db.exclusions, rule,
               (e: Exclusion) => e.category in db.categories && db.categories[e.category].owner == Some(user));
  }

  lemma CategoryMarked(db: Db, m: Matcher, category: int, u: int, user: int)
    requires !FiledUnder(db, user, category)
    ensures ViewOf(MarkCategory(db, m, category, u), user) == ViewOf(db, user)
  {
    hide AnyRuleMatches, ViewOf;
    RowsMarked(db, (a: Article) => MarkedBy(db, m, category, u, a), user);
  }

  lemma CreateExclusionFrame(db: Db, m: Matcher, u: int, rule: Exclusion, user: int)
    requires OwnsCategory(db, u, rule.category) && user != u && !FiledUnder(db, user, rule.category)
    ensures ViewOf(AddRule(db, m, u, rule), user) == ViewOf(db, user)
  {
    var other := db.(exclusions := db.exclusions + [rule]);
    assert !FiledUnder(other, user, rule.category);
    RuleAppended(db, rule, user);
    hide MarkCategory, AcceptsRule, FiledUnder;
    CategoryMarked(other, m, rule.category, u, user);
    hide Owns;
    assert OwnRules(db.exclusions, db.categories, user) + [] == OwnRules(db.exclusions, db.categories, user);
  }

  lemma RowsOfOther(rows: seq<Article>, feeds: map<int, Feed>, feed: int, user: int)
    requires !Owns(feeds, user, feed)
    ensures OwnRows(Filter(rows, (a: Article) => a.feed != feed), feeds - {feed}, user) == OwnRows(rows, feeds, user)
  {
    var kept := Filter(rows, (a: Article) => a.feed != feed);
    DeleteOutside(rows, (a: Article) => a.feed != feed, (a: Article) => Owns(feeds, user, a.feed));
    FilterAgrees(kept, (a: Article) => Owns(feeds - {feed}, user, a.feed), (a: Article) => Owns(feeds, user, a.feed));
  }

  lemma MappingsOfOther(mappings: seq<FeedCategory>, feeds: map<int, Feed>, feed: int, user: int)
    requires !Owns(feeds, user, feed)
    ensures OwnMappings(Filter(mappings, (fc: FeedCategory) => fc.feed != feed), feeds - {feed}, user)
         == OwnMappings(mappings, feeds, user)
  {
    var kept := Filter(mappings, (fc: FeedCategory) => fc.feed != feed);
    DeleteOutside(mappings, (fc: FeedCategory) => fc.feed != feed, (fc: FeedCategory) => Owns(feeds, user, fc.feed));
    FilterAgrees(kept, (fc: FeedCategory) => Owns(feeds - {feed}, user, fc.feed),
                 (fc: FeedCategory) => Owns(feeds, user, fc.feed));
  }

  lemma RowStays(db: Db, feed: int, id: int)
    requires WellKeyed(db) && HasRow(db, id)
    ensures HasRow(Retention.RemoveFeed(db, feed), id) <==> forall a | a in db.articles && a.id == id :: a.feed != feed
  {
    var after := Retention.RemoveFeed(db, feed);
    var a :| a in db.articles && a.id == id;
    if a.feed != feed {
      assert a in after.articles;
    }
    if HasRow(after, id) {
      var b :| b in after.articles && b.id == id;
      assert b in db.articles && b.feed != feed;
    }
  }

  lemma EntriesStayIff(db: Db, feed: int, user: int)
    requires Linked(db)
    ensures (forall e | e in db.queue && e.user == user :: HasRow(Retention.RemoveFeed(db, feed), e.article)) <==>
            !QueuedFrom(db, user, feed)
  {
    hide HasRow, WellKeyed, RowOwned, Retention.RemoveFeed;
    forall e | e in db.queue
      ensures HasRow(Retention.RemoveFeed(db, feed), e.article) <==>
              forall a | a in db.articles && a.id == e.article :: a.feed != feed
    {
      RowStays(db, feed, e.article);
    }
  }

  /** Deleting a feed changes the view of a user who does not own it in the queue alone. */
  lemma OtherViewAfterDelete(db: Db, feed: int, user: int)
    requires Linked(db) && !Owns(db.feeds, user, feed)
    ensures var after := Retention.RemoveFeed(db, feed);
      ViewOf(after, user) == ViewOf(db, user).(queue := OwnQueue(after.queue, user))
  {
    var after := Retention.RemoveFeed(db, feed);
    RowsOfOther(db.articles, db.feeds, feed, user);
    MappingsOfOther(db.feedCategories, db.feeds, feed, user);
    forall id | RowOwned(db, id, user)
      ensures exists a | a in after.articles :: a.id == id
    {
      var a :| a in db.articles && a.id == id && Owns(db.feeds, user, a.feed);
      assert a in after.articles;
    }
    hide RowOwned, WellKeyed, Owns, HasRow, OwnRows, OwnMappings;
    DeleteOutside(db.articleAlerts, (aa: ArticleAlert) => exists a | a in after.articles :: a.id == aa.article,
                  (aa: ArticleAlert) => aa.alert in db.alerts && db.alerts[aa.alert] == user);
  }

  lemma QueueAfterDelete(db: Db, feed: int)
    ensures var after := Retention.RemoveFeed(db, feed);
      after.queue == Filter(db.queue, (e: QueueEntry) => HasRow(after, e.article))
  {
    var after := Retention.RemoveFeed(db, feed);
    FilterAgrees(db.queue, (e: QueueEntry) => exists a | a in after.articles :: a.id == e.article,
                 (e: QueueEntry) => HasRow(after, e.article));
  }

  lemma DeleteFeedFrame(db: Db, u: int, feed: int, user: int)
    requires Linked(db) && Owns(db.feeds, u, feed) && user != u && !QueuedFrom(db, user, feed)
    ensures ViewOf(Retention.RemoveFeed(db, feed), user) == ViewOf(db, user)
  {
    var after := Retention.RemoveFeed(db, feed);
    QueueAfterDelete(db, feed);
    OtherViewAfterDelete(db, feed, user);
    EntriesStayIff(db, feed, user);
    hide Linked, QueuedFrom, HasRow, Retention.RemoveFeed;
    DeleteOutside(db.queue, (e: QueueEntry) => HasRow(after, e.article), (e: QueueEntry) => e.user == user);
  }

  lemma MatchesOfOther(db: Db, alert: int, user: int)
    requires !OwnsAlert(db, user, alert)
    ensures OwnMatches(Filter(db.articleAlerts, (aa: ArticleAlert) => aa.alert != alert), db.alerts - {alert}, user)
         == OwnMatches(db.articleAlerts, db.alerts, user)
  {
    var owns := (aa: ArticleAlert) => aa.alert in db.alerts && db.alerts[aa.alert] == user;
    var kept, alerts := Filter(db.articleAlerts, (aa: ArticleAlert) => aa.alert != alert), db.alerts - {alert};
    DeleteOutside(db.articleAlerts, (aa: ArticleAlert) => aa.alert != alert, owns);
    FilterAgrees(kept, (aa: ArticleAlert) => aa.alert in alerts && alerts[aa.alert] == user, owns);
  }

  lemma DeleteAlertFrame(db: Db, m: Matcher, u: int, alert: int, user: int)
    requires user != u
    ensures ViewOf(Apply(db, m, DeleteAlert(u, alert)), user) == ViewOf(db, user)
  {
    if OwnsAlert(db, u, alert) {
      hide OwnMatches;
      MatchesOfOther(db, alert, user);
    }
  }

  lemma MatchesUpdated(db: Db, f: ArticleAlert -> ArticleAlert, user: int)
    requires forall aa | aa in db.articleAlerts ::
               f(aa).alert == aa.alert && (OwnsAlert(db, user, aa.alert) ==> f(aa) == aa)
    ensures ViewOf(db.(articleAlerts := Map(db.articleAlerts, f)), user) == ViewOf(db, user)
  {
    UpdateOutside(db.articleAlerts, f, (aa: ArticleAlert) => aa.alert in db.alerts && db.alerts[aa.alert] == user);
  }

  lemma {:induction false} NothingStored(db: Db, now: int, feed: int, items: seq<Item>)
    requires !StoresSomething(db, feed, items)
    ensures AfterStore(db, now, feed, items) == db
  {
    if items != [] {
      var init, last := items[..|items| - 1], items[|items| - 1];
      assert items == init + [last];
      assert !StoresSomething(db, feed, init);
      NothingStored(db, now, feed, init);
      assert last in items && !Storable(db, feed, last);
    }
  }

  lemma StoreFrame(db: Db, now: int, feed: int, items: seq<Item>, user: int)
    requires WellKeyed(db) && !Owns(db.feeds, user, feed)
    ensures ViewOf(AfterStore(db, now, feed, items), user) == ViewOf(db, user)
  {
    var after := AfterStore(db, now, feed, items);
    StoreKeepsRows(db, now, feed, items);
    LastItemWins(db, now, feed, items);
    hide AfterStore, WellKeyed;
    var owns := (a: Article) => Owns(db.feeds, user, a.feed);
    forall i | 0 <= i < |db.articles|
      ensures owns(after.articles[i]) == owns(db.articles[i])
      ensures owns(db.articles[i]) ==> after.articles[i] == db.articles[i]
    {
      assert SameRow(db.articles[i], after.articles[i]);
      assert HasLastBody(db, after, feed, items, i);
    }
    ReplaceOutside(db.articles, after.articles, owns);
  }

  lemma MarkFeedFrame(db: Db, m: Matcher, feed: int, user: int)
    requires !Owns(db.feeds, user, feed)
    ensures ViewOf(AfterMarking(db, m, feed), user) == ViewOf(db, user)
    ensures AfterMarking(db, m, feed) == db.(articles := AfterMarking(db, m, feed).articles)
  {
    CategoriesExist(db, feed);
    var rules := FeedRules(db, CategoriesOf(db, feed));
    AfterMarkingIs(db, m, feed, rules);
    hide AfterMarking, AnyRuleMatches, ViewOf;
    RowsMarked(db, (a: Article) => a.feed == feed && !a.isRead && AnyRuleMatches(m, rules, a), user);
  }

  lemma AddMatchesFrame(db: Db, feed: int, matches: seq<ArticleAlert>, user: int)
    requires !Owns(db.feeds, user, feed)
    ensures ViewOf(AddMatches(db, feed, matches), user) == ViewOf(db, user)
  {
    var owns := (aa: ArticleAlert) => aa.alert in db.alerts && db.alerts[aa.alert] == user;
    var inserted := AddMatches(db, feed, matches).articleAlerts[|db.articleAlerts|..];
    AppendOutside(db.articleAlerts, inserted, owns);
    assert AddMatches(db, feed, matches).articleAlerts == db.articleAlerts + inserted;
  }

  lemma FeedFetchedFrame(db: Db, m: Matcher, now: int, feed: int, items: seq<Item>, matches: seq<ArticleAlert>,
                         user: int)
    requires WellKeyed(db) && !Invalidates(db, m, FeedFetched(now, feed, items, matches), user)
    ensures ViewOf(Apply(db, m, FeedFetched(now, feed, items, matches)), user) == ViewOf(db, user)
  {
    var stored := AfterStore(db, now, feed, items);
    if StoresSomething(db, feed, items) {
      StoreFrame(db, now, feed, items, user);
      StoreKeepsRows(db, now, feed, items);
      hide AfterStore, ViewOf, WellKeyed;
      MarkFeedFrame(stored, m, feed, user);
      hide AfterMarking;
      AddMatchesFrame(AfterMarking(stored, m, feed), feed, matches, user);
    } else {
      NothingStored(db, now, feed, items);
    }
  }

  lemma {:induction false} FilterSameLength<T>(s: seq<T>, p: T -> bool)
    requires |Filter(s, p)| == |s|
    ensures Filter(s, p) == s
  {
    if s != [] {
      FilterSameLength(s[1..], p);
    }
  }

  /** A cleanup that deletes no row leaves all that counts depend on. */
  lemma CleanUserKeepsViews(db: Db, now: int, u: int)
    requires Linked(db)
    ensures var after := Retention.RecordAndDelete(db, now, u);
            && |after.articles| <= |db.articles|
            && (|after.articles| == |db.articles| ==> after == db.(seen := after.seen))
  {
    var days := Retention.RetentionDays(db, u);
    var recorded := Retention.RecordSeen(db, now, days, u);
    var after := Retention.DeleteExpired(recorded, now, days, u);
    if |after.articles| == |db.articles| {
      hide Retention.Expired;
      FilterSameLength(db.articles, (a: Article) => !Retention.Expired(recorded, now, days, u, a));
      forall aa | aa in db.articleAlerts
        ensures exists a | a in after.articles :: a.id == aa.article
      {
        assert RowOwned(db, aa.article, db.alerts[aa.alert]);
      }
      FilterKeepsAll(db.articleAlerts, (aa: ArticleAlert) => exists a | a in after.articles :: a.id == aa.article);
    }
  }

  lemma {:induction false} CleanupKeepsViews(db: Db, now: int, users: seq<int>)
    requires Linked(db)
    ensures var after := Retention.CleanUsers(db, now, users);
            && |after.articles| <= |db.articles|
            && (|after.articles| == |db.articles| ==> after == db.(seen := after.seen))
  {
    if users != [] {
      var init, last := users[..|users| - 1], users[|users| - 1];
      CleanupKeepsViews(db, now, init);
      var mid := Retention.CleanUsers(db, now, init);
      hide Retention.RecordAndDelete, Retention.RetentionDays;
      if |mid.articles| == |db.articles| {
        LinkedIgnoresSeen(db, mid);
        CleanUserKeepsViews(mid, now, last);
      } else {
        CleanUserShrinks(mid, now, last);
      }
    }
  }

  lemma CleanUserShrinks(db: Db, now: int, u: int)
    ensures |Retention.CleanUser(db, now, u).articles| <= |db.articles|
  {
  }

  lemma LinkedIgnoresSeen(db: Db, other: Db)
    requires Linked(db) && other == db.(seen := other.seen)
    ensures Linked(other)
  {
    hide KeysApart;
    assert forall id, u | RowOwned(db, id, u) :: RowOwned(other, id, u);
  }

  lemma ReadFrame(db: Db, m: Matcher, op: Op, user: int)
    requires op.SetRead? || op.BatchRead? || op.ReadScope?
    requires !Invalidates(db, m, op, user)
    ensures ViewOf(Apply(db, m, op), user) == ViewOf(db, user)
  {
    hide ViewOf;
    match op
    case SetRead(u, id, isRead) =>
      RowsUpdated(db, (a: Article) =>
        if a.id == id && Owns(db.feeds, u, a.feed) then a.(isRead := isRead) else a, user);
    case BatchRead(u, ids) =>
      if |ids| == 0 {
        MarkNothing(db.articles, (a: Article) => a.id in ids && Owns(db.feeds, u, a.feed));
      } else if |ids| <= MAX_BATCH {
        RowsMarked(db, (a: Article) => a.id in ids && Owns(db.feeds, u, a.feed), user);
      }
    case ReadScope(u, scope, olderThan) =>
      RowsMarked(db, (a: Article) => ReadBy(db, u, scope, olderThan, a), user);
  }

  lemma StarFrame(db: Db, m: Matcher, u: int, id: int, user: int)
    requires user != u
    ensures ViewOf(Apply(db, m, ToggleStar(u, id)), user) == ViewOf(db, user)
  {
    hide ViewOf;
    RowsUpdated(db, (a: Article) =>
      if a.id == id && Owns(db.feeds, u, a.feed) then a.(isStarred := !a.isStarred) else a, user);
  }

  lemma QueueReplaced(db: Db, queue: seq<QueueEntry>, user: int)
    requires OwnQueue(queue, user) == OwnQueue(db.queue, user)
    ensures ViewOf(db.(queue := queue), user) == ViewOf(db, user)
  {
  }

  lemma QueueOfOther(db: Db, u: int, id: int, user: int)
    requires user != u
    ensures OwnQueue(Dequeued(db.queue, u, id), user) == OwnQueue(db.queue, user)
    ensures OwnQueue(Toggled(db, u, id), user) == OwnQueue(db.queue, user)
  {
    DeleteOutside(db.queue, (e: QueueEntry) => e != QueueEntry(u, id), (e: QueueEntry) => e.user == user);
    AppendOutside(db.queue, [QueueEntry(u, id)], (e: QueueEntry) => e.user == user);
  }

  lemma QueueFrame(db: Db, m: Matcher, op: Op, user: int)
    requires op.ToggleQueue? || op.RemoveFromQueue?
    requires user != op.user || !(op.RemoveFromQueue? || Succeeds(db, op))
    ensures ViewOf(Apply(db, m, op), user) == ViewOf(db, user)
  {
    hide HasRow, ViewOf, OwnQueue, Dequeued;
    if user != op.user {
      hide Toggled;
      QueueOfOther(db, op.user, op.article, user);
      QueueReplaced(db, Apply(db, m, op).queue, user);
    }
  }

  lemma Uninvalidated(db: Db, m: Matcher, op: Op, user: int)
    requires !Invalidates(db, m, op, user)
    ensures op.ToggleQueue? || op.CreateExclusion? ==> user != op.user || !Succeeds(db, op)
    ensures op.ToggleStar? || op.RemoveFromQueue? ==> user != op.user
    ensures op.DeleteExclusion? || op.DismissAlert? || op.SetDismissed? ==> user != op.user
  {
    hide Apply, FetchOwner, Succeeds;
  }

  lemma RulesReplaced(db: Db, u: int, id: int, user: int)
    requires user != u
    ensures ViewOf(db.(exclusions := WithoutRule(db, u, id)), user) == ViewOf(db, user)
  {
    DeleteOutside(db.exclusions, (e: Exclusion) => !(e.id == id && OwnsCategory(db, u, e.category)),
                  (e: Exclusion) => e.category in db.categories && db.categories[e.category].owner == Some(user));
  }

  lemma MatchesDismissed(db: Db, u: int, alert: int, user: int)
    requires user != u
    ensures ViewOf(db.(articleAlerts := Dismissed(db, u, alert)), user) == ViewOf(db, user)
  {
    hide ViewOf;
    MatchesUpdated(db, (aa: ArticleAlert) =>
      if aa.alert == alert && OwnsAlert(db, u, alert) then aa.(dismissed := true) else aa, user);
  }

  lemma MatchDismissed(db: Db, u: int, id: int, dismissed: bool, user: int)
    requires user != u
    ensures ViewOf(db.(articleAlerts := DismissedOne(db, u, id, dismissed)), user) == ViewOf(db, user)
  {
    hide ViewOf;
    MatchesUpdated(db, (aa: ArticleAlert) =>
      if aa.id == id && OwnsAlert(db, u, aa.alert) then aa.(dismissed := dismissed) else aa, user);
  }

  lemma RuleAndAlertFrame(db: Db, m: Matcher, op: Op, user: int)
    requires op.DeleteExclusion? || op.DismissAlert? || op.SetDismissed?
    requires user != op.user
    ensures ViewOf(Apply(db, m, op), user) == ViewOf(db, user)
  {
    hide ViewOf, WithoutRule, Dismissed, DismissedOne;
    match op
    case DeleteExclusion(u, id) => RulesReplaced(db, u, id, user);
    case DismissAlert(u, alert) => MatchesDismissed(db, u, alert, user);
    case SetDismissed(u, id, dismissed) => MatchDismissed(db, u, id, dismissed, user);
  }

  lemma SeenIsNotViewed(db: Db, after: Db, user: int)
    requires after == db.(seen := after.seen)
    ensures ViewOf(after, user) == ViewOf(db, user)
  {
  }

  lemma KeptWhenNothingDeleted(db: Db, m: Matcher, op: Op, user: int)
    requires op.Cleanup? || op.CleanupNow?
    ensures Invalidates(db, m, op, user) <==> |Apply(db, m, op).articles| < |db.articles|
    ensures op.Cleanup? ==> Apply(db, m, op) == Retention.CleanUsers(db, op.now, db.users)
    ensures op.CleanupNow? ==> Apply(db, m, op) == Retention.RecordAndDelete(db, op.now, op.user)
  {
    hide Retention.CleanUsers, Retention.RecordAndDelete;
  }

  lemma CleanupFrame(db: Db, m: Matcher, op: Op, user: int)
    requires op.Cleanup? || op.CleanupNow?
    requires Linked(db) && !Invalidates(db, m, op, user)
    ensures ViewOf(Apply(db, m, op), user) == ViewOf(db, user)
  {
    hide *;
    KeptWhenNothingDeleted(db, m, op, user);
    if op.Cleanup? {
      CleanupKeepsViews(db, op.now, db.users);
    } else {
      CleanUserKeepsViews(db, op.now, op.user);
    }
    SeenIsNotViewed(db, Apply(db, m, op), user);
  }

  lemma OwnRequestFrame(db: Db, m: Matcher, op: Op, user: int)
    requires op.DeleteFeed? || op.CreateExclusion? || op.DeleteAlert?
    requires Linked(db) && Considerate(db, op) && !Invalidates(db, m, op, user)
    ensures ViewOf(Apply(db, m, op), user) == ViewOf(db, user)
  {
    hide Linked, ViewOf, MarkCategory, AcceptsRule, Retention.RemoveFeed, QueuedFrom, FiledUnder;
    match op
    case DeleteFeed(u, feed) =>
      if Owns(db.feeds, u, feed) {
        DeleteFeedFrame(db, u, feed, user);
      }
    case CreateExclusion(u, rule) =>
      if user != u {
        CreateExclusionFrame(db, m, u, rule, user);
      }
    case DeleteAlert(u, alert) => DeleteAlertFrame(db, m, u, alert, user);
  }

  lemma LinkedIsKeyed(db: Db)
    requires Linked(db)
    ensures WellKeyed(db)
  {
  }

  /** The frame: a request leaves the view of every user it does not invalidate as it was. */
  lemma UninvalidatedViewsStay(db: Db, m: Matcher, op: Op, user: int)
    requires Linked(db) && Considerate(db, op) && !Invalidates(db, m, op, user)
    ensures ViewOf(Apply(db, m, op), user) == ViewOf(db, user)
  {
    hide *;
    LinkedIsKeyed(db);
    Uninvalidated(db, m, op, user);
    match op
    case SetRead(_, _, _) => ReadFrame(db, m, op, user);
    case BatchRead(_, _) => ReadFrame(db, m, op, user);
    case ReadScope(_, _, _) => ReadFrame(db, m, op, user);
    case ToggleStar(u, id) => StarFrame(db, m, u, id, user);
    case ToggleQueue(_, _) => QueueFrame(db, m, op, user);
    case RemoveFromQueue(_, _) => QueueFrame(db, m, op, user);
    case DeleteExclusion(_, _) => RuleAndAlertFrame(db, m, op, user);
    case DismissAlert(_, _) => RuleAndAlertFrame(db, m, op, user);
    case SetDismissed(_, _, _) => RuleAndAlertFrame(db, m, op, user);
    case DeleteFeed(_, _) => OwnRequestFrame(db, m, op, user);
    case CreateExclusion(_, _) => OwnRequestFrame(db, m, op, user);
    case DeleteAlert(_, _) => OwnRequestFrame(db, m, op, user);
    case FeedFetched(now, feed, items, matches) => FeedFetchedFrame(db, m, now, feed, items, matches, user);
    case Cleanup(_) => CleanupFrame(db, m, op, user);
    case CleanupNow(_, _) => CleanupFrame(db, m, op, user);
  }

  // ----- The tables stay linked

  lemma RowsUpdatedKeepLinked(db: Db, f: Article -> Article)
    requires Linked(db)
    requires forall a | a in db.articles :: f(a).id == a.id && f(a).feed == a.feed && f(a).guid == a.guid
    ensures Linked(db.(articles := Map(db.articles, f)))
  {
    var after := db.(articles := Map(db.articles, f));
    Retention.MapKeepsKeysApart(db.articles, f);
    hide KeysApart;
    forall id, u | RowOwned(db, id, u)
      ensures RowOwned(after, id, u)
    {
      var k :| 0 <= k < |db.articles| && db.articles[k].id == id && Owns(db.feeds, u, db.articles[k].feed);
      assert db.articles[k] in db.articles && after.articles[k] in after.articles;
    }
  }

  lemma RowsMarkedKeepLinked(db: Db, p: Article -> bool)
    requires Linked(db)
    ensures Linked(db.(articles := MarkRead(db.articles, p)))
  {
    hide Linked;
    RowsUpdatedKeepLinked(db, (a: Article) => if p(a) then a.(isRead := true) else a);
  }

  /** Dropping rows keeps the tables linked when what refers to a dropped row goes too. */
  lemma RowsDroppedKeepLinked(db: Db, after: Db)
    requires Linked(db) && KeysApart(after.articles) && after.nextArticle == db.nextArticle
    requires forall a | a in after.articles :: a in db.articles
    requires forall f | f in after.feeds :: f in db.feeds && after.feeds[f] == db.feeds[f]
    requires forall a | a in after.articles :: a.feed in db.feeds ==> a.feed in after.feeds
    requires forall e | e in after.queue :: e in db.queue && exists a | a in after.articles :: a.id == e.article
    requires forall aa | aa in after.articleAlerts ::
               aa in db.articleAlerts && exists a | a in after.articles :: a.id == aa.article
    requires after.alerts == db.alerts
    ensures Linked(after)
  {
    forall id, u, a | RowOwned(db, id, u) && a in after.articles && a.id == id
      ensures RowOwned(after, id, u)
    {
      var b :| b in db.articles && b.id == id && Owns(db.feeds, u, b.feed);
      IdsTellRowsApart(db.articles, a, b);
    }
    hide KeysApart, RowOwned;
  }

  lemma IdsTellRowsApart(rows: seq<Article>, a: Article, b: Article)
    requires KeysApart(rows) && a in rows && b in rows && a.id == b.id
    ensures a == b
  {
  }

  lemma RemoveFeedKeepsLinked(db: Db, feed: int)
    requires Linked(db)
    ensures Linked(Retention.RemoveFeed(db, feed))
  {
    var after := Retention.RemoveFeed(db, feed);
    Retention.FilterKeepsKeysApart(db.articles, (a: Article) => a.feed != feed);
    hide KeysApart, Linked;
    RowsDroppedKeepLinked(db, after);
  }

  /** A queued row is never expired, so the queue keeps its rows. */
  lemma RecordAndDeleteKeepsLinked(db: Db, now: int, u: int)
    requires Linked(db)
    ensures Linked(Retention.RecordAndDelete(db, now, u))
  {
    var days := Retention.RetentionDays(db, u);
    var recorded := Retention.RecordSeen(db, now, days, u);
    var after := Retention.DeleteExpired(recorded, now, days, u);
    LinkedIgnoresSeen(db, recorded);
    Retention.DeleteRemovesExpired(recorded, now, days, u);
    forall e | e in db.queue
      ensures exists a | a in after.articles :: a.id == e.article
    {
      var a :| a in db.articles && a.id == e.article;
      assert Queued(recorded, a.id);
      assert a in after.articles;
    }
    hide KeysApart, Retention.Expired;
    RowsDroppedKeepLinked(recorded, after);
  }

  lemma {:induction false} CleanUsersKeepLinked(db: Db, now: int, users: seq<int>)
    requires Linked(db)
    ensures Linked(Retention.CleanUsers(db, now, users))
  {
    if users != [] {
      var init, last := users[..|users| - 1], users[|users| - 1];
      CleanUsersKeepLinked(db, now, init);
      var mid := Retention.CleanUsers(db, now, init);
      RecordAndDeleteKeepsLinked(mid, now, last);
      var deleted := Retention.RecordAndDelete(mid, now, last);
      hide Linked, Retention.RecordAndDelete;
      LinkedIgnoresSeen(deleted, Retention.CleanUser(mid, now, last));
    }
  }

  lemma StoreKeepsLinked(db: Db, now: int, feed: int, items: seq<Item>)
    requires Linked(db)
    ensures Linked(AfterStore(db, now, feed, items))
  {
    var after := AfterStore(db, now, feed, items);
    StoreKeepsRows(db, now, feed, items);
    hide AfterStore, WellKeyed;
    forall id, u | RowOwned(db, id, u)
      ensures RowOwned(after, id, u)
    {
      var k :| 0 <= k < |db.articles| && db.articles[k].id == id && Owns(db.feeds, u, db.articles[k].feed);
      assert SameRow(db.articles[k], after.articles[k]);
      assert after.articles[k] in after.articles;
    }
  }

  lemma AddMatchesKeepsLinked(db: Db, feed: int, matches: seq<ArticleAlert>)
    requires Linked(db)
    ensures Linked(AddMatches(db, feed, matches))
  {
    hide KeysApart;
    var after := AddMatches(db, feed, matches);
    assert forall id, u | RowOwned(db, id, u) :: RowOwned(after, id, u);
    forall aa | aa in after.articleAlerts && aa !in db.articleAlerts
      ensures aa.alert in db.alerts && RowOwned(after, aa.article, db.alerts[aa.alert])
    {
      var a :| a in db.articles && a.id == aa.article && a.feed == feed;
      assert a in after.articles;
    }
  }

  lemma FeedFetchedKeepsLinked(db: Db, m: Matcher, now: int, feed: int, items: seq<Item>, matches: seq<ArticleAlert>)
    requires Linked(db)
    ensures Linked(Apply(db, m, FeedFetched(now, feed, items, matches)))
  {
    var stored := AfterStore(db, now, feed, items);
    StoreKeepsLinked(db, now, feed, items);
    CategoriesExist(stored, feed);
    var rules := FeedRules(stored, CategoriesOf(stored, feed));
    AfterMarkingIs(stored, m, feed, rules);
    hide AfterStore, Linked, AfterMarking, AnyRuleMatches;
    RowsMarkedKeepLinked(stored, (a: Article) => a.feed == feed && !a.isRead && AnyRuleMatches(m, rules, a));
    AddMatchesKeepsLinked(AfterMarking(stored, m, feed), feed, matches);
  }

  lemma RulesDoNotOwn(db: Db, exclusions: seq<Exclusion>)
    requires Linked(db)
    ensures Linked(db.(exclusions := exclusions))
  {
    hide KeysApart;
    var other := db.(exclusions := exclusions);
    assert forall id, v | RowOwned(db, id, v) :: RowOwned(other, id, v);
  }

  lemma CreateExclusionKeepsLinked(db: Db, m: Matcher, u: int, rule: Exclusion)
    requires Linked(db)
    ensures Linked(AddRule(db, m, u, rule))
  {
    hide Linked, MarkedBy, AcceptsRule;
    var other := db.(exclusions := db.exclusions + [rule]);
    RulesDoNotOwn(db, db.exclusions + [rule]);
    RowsMarkedKeepLinked(other, (a: Article) => MarkedBy(other, m, rule.category, u, a));
  }

  /** Requests that leave articles, feeds and categories alone. */
  lemma SameRowsKeepLinked(db: Db, after: Db)
    requires Linked(db)
    requires after == db.(queue := after.queue, exclusions := after.exclusions, alerts := after.alerts,
                          articleAlerts := after.articleAlerts)
    requires forall e | e in after.queue :: HasRow(db, e.article)
    requires forall aa | aa in after.articleAlerts ::
               aa.alert in after.alerts && RowOwned(db, aa.article, after.alerts[aa.alert])
    ensures Linked(after)
  {
    hide KeysApart;
    assert forall id, v | RowOwned(db, id, v) :: RowOwned(after, id, v);
  }

  lemma ReadsKeepLinked(db: Db, m: Matcher, op: Op)
    requires Linked(db) && (op.SetRead? || op.BatchRead? || op.ReadScope? || op.ToggleStar?)
    ensures Linked(Apply(db, m, op))
  {
    hide Linked;
    match op
    case SetRead(u, id, isRead) =>
      RowsUpdatedKeepLinked(db, (a: Article) =>
        if a.id == id && Owns(db.feeds, u, a.feed) then a.(isRead := isRead) else a);
    case BatchRead(u, ids) =>
      RowsMarkedKeepLinked(db, (a: Article) => a.id in ids && Owns(db.feeds, u, a.feed));
    case ToggleStar(u, id) =>
      RowsUpdatedKeepLinked(db, (a: Article) =>
        if a.id == id && Owns(db.feeds, u, a.feed) then a.(isStarred := !a.isStarred) else a);
    case ReadScope(u, scope, olderThan) =>
      RowsMarkedKeepLinked(db, (a: Article) => ReadBy(db, u, scope, olderThan, a));
  }

  lemma QueueKeepsLinked(db: Db, m: Matcher, op: Op)
    requires Linked(db) && (op.ToggleQueue? || op.RemoveFromQueue?)
    ensures Linked(Apply(db, m, op))
  {
    hide WellKeyed, RowOwned, HasRow;
    SameRowsKeepLinked(db, Apply(db, m, op));
  }

  lemma AlertsKeepLinked(db: Db, m: Matcher, op: Op)
    requires Linked(db) && (op.DeleteExclusion? || op.DeleteAlert? || op.DismissAlert? || op.SetDismissed?)
    ensures Linked(Apply(db, m, op))
  {
    hide WellKeyed, RowOwned;
    SameRowsKeepLinked(db, Apply(db, m, op));
  }

  lemma RowsGoKeepLinked(db: Db, m: Matcher, op: Op)
    requires Linked(db) && (op.DeleteFeed? || op.Cleanup? || op.CleanupNow?)
    ensures Linked(Apply(db, m, op))
  {
    hide Linked, Retention.RemoveFeed, Retention.CleanUsers, Retention.RecordAndDelete;
    match op
    case DeleteFeed(u, feed) => RemoveFeedKeepsLinked(db, feed);
    case Cleanup(now) => CleanUsersKeepLinked(db, now, db.users);
    case CleanupNow(now, u) => RecordAndDeleteKeepsLinked(db, now, u);
  }

  lemma RuleKeepsLinked(db: Db, m: Matcher, op: Op)
    requires Linked(db) && op.CreateExclusion?
    ensures Linked(Apply(db, m, op))
  {
    hide Linked, AddRule;
    CreateExclusionKeepsLinked(db, m, op.user, op.rule);
  }

  /** Every request keeps the tables linked. */
  lemma ApplyKeepsLinked(db: Db, m: Matcher, op: Op)
    requires Linked(db)
    ensures Linked(Apply(db, m, op))
  {
    hide *;
    match op
    case SetRead(_, _, _) => ReadsKeepLinked(db, m, op);
    case BatchRead(_, _) => ReadsKeepLinked(db, m, op);
    case ToggleStar(_, _) => ReadsKeepLinked(db, m, op);
    case ReadScope(_, _, _) => ReadsKeepLinked(db, m, op);
    case DeleteFeed(_, _) => RowsGoKeepLinked(db, m, op);
    case CreateExclusion(u, rule) => RuleKeepsLinked(db, m, op);
    case FeedFetched(now, feed, items, matches) => FeedFetchedKeepsLinked(db, m, now, feed, items, matches);
    case Cleanup(_) => RowsGoKeepLinked(db, m, op);
    case CleanupNow(_, _) => RowsGoKeepLinked(db, m, op);
    case ToggleQueue(_, _) => QueueKeepsLinked(db, m, op);
    case RemoveFromQueue(_, _) => QueueKeepsLinked(db, m, op);
    case _ => AlertsKeepLinked(db, m, op);
  }
}
