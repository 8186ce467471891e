/** Retention cleanup (srv/retention.go) and the life of an article row between
    fetches and cleanups. */
module Retention {
  import opened Options
  import opened Sequences
  import opened Tables
  import opened ArticleStore

  const DAY := 86400
  const DEFAULT_RETENTION_DAYS := 30

  /** getUserRetentionDays: unset, unparsable and non-positive settings mean the default. */
  function RetentionDays(db: Db, user: int): (days: int)
    ensures days >= 1
  {
    if user in db.retentionDays && db.retentionDays[user].Some? && db.retentionDays[user].value >= 1
    then db.retentionDays[user].value
    else DEFAULT_RETENTION_DAYS
  }

  /** Rows cleanup may touch at all, whatever their age. */
  predicate Eligible(db: Db, user: int, a: Article) {
    !a.isStarred && !Queued(db, a.id) && Owns(db.feeds, user, a.feed) && !db.feeds[a.feed].skipRetention
  }

  /** The WHERE clause shared by the recording and the deleting statement. */
  predicate Expired(db: Db, now: int, days: int, user: int, a: Article) {
    Eligible(db, user, a) && a.fetchedAt < now - days * DAY
  }

  /** InsertSeenGuids: INSERT OR IGNORE, so a GUID already seen keeps its time. */
  function RecordSeen(db: Db, now: int, days: int, user: int): Db {
    db.(seen := (map a | a in db.articles && Expired(db, now, days, user, a) :: a.Key() := now) + db.seen)
  }

  /** DeleteOldUnstarredArticles; alert matches of a deleted row go with it. */
  function DeleteExpired(db: Db, now: int, days: int, user: int): Db {
    var kept := Filter(db.articles, (a: Article) => !Expired(db, now, days, user, a));
    db.(articles := kept,
        articleAlerts := Filter(db.articleAlerts, (aa: ArticleAlert) => exists a | a in kept :: a.id == aa.article))
  }

  function PruneSeen(db: Db, now: int, days: int): Db {
    db.(seen := map k | k in db.seen && !(db.seen[k] < now - days * DAY) :: db.seen[k])
  }

  function RecordAndDelete(db: Db, now: int, user: int): Db {
    DeleteExpired(RecordSeen(db, now, RetentionDays(db, user), user), now, RetentionDays(db, user), user)
  }

  /** One user's turn in cleanup. The pruning is not restricted to the user. */
  function CleanUser(db: Db, now: int, user: int): Db {
    PruneSeen(RecordAndDelete(db, now, user), now, RetentionDays(db, user) * 2)
  }

  function CleanUsers(db: Db, now: int, users: seq<int>): Db {
    if users == [] then db else CleanUser(CleanUsers(db, now, users[..|users| - 1]), now, users[|users| - 1])
  }

  // ----- What every step keeps

  /** Rows are well keyed, belong to existing feeds, and none of their GUIDs is marked as seen. */
  ghost predicate Sound(db: Db) {
    && WellKeyed(db)
    && (forall a | a in db.articles :: a.Key() !in db.seen && a.feed in db.feeds)
    && (forall f | f in db.feeds :: f < db.nextFeed)
  }

  lemma FilterKeepsKeysApart(rows: seq<Article>, p: Article -> bool)
    requires KeysApart(rows)
    ensures KeysApart(Filter(rows, p))
  {
    FilterKeepsPairs(rows, p, (a: Article, b: Article) => a.Key() != b.Key() && a.id < b.id);
  }

  /** The recording statement marks exactly the expired rows' GUIDs, at the current time. */
  lemma RecordMarksExpired(db: Db, now: int, days: int, user: int)
    requires forall a | a in db.articles :: a.Key() !in db.seen
    ensures var after := RecordSeen(db, now, days, user);
            && after == db.(seen := after.seen)
            && (forall k | k in db.seen :: k in after.seen && after.seen[k] == db.seen[k])
            && (forall k | k in after.seen && k !in db.seen ::
                  exists a | a in db.articles :: Expired(db, now, days, user, a) && a.Key() == k)
            && (forall a | a in db.articles && Expired(db, now, days, user, a) ::
                  a.Key() in after.seen && after.seen[a.Key()] == now)
  {
  }

  /** The deleting statement removes exactly the expired rows. */
  lemma DeleteRemovesExpired(db: Db, now: int, days: int, user: int)
    requires WellKeyed(db)
    ensures var after := DeleteExpired(db, now, days, user);
            && WellKeyed(after)
            && after == db.(articles := after.articles, articleAlerts := after.articleAlerts)
            && (forall a :: a in after.articles <==> a in db.articles && !Expired(db, now, days, user, a))
  {
    FilterKeepsKeysApart(db.articles, (a: Article) => !Expired(db, now, days, user, a));
    hide Expired, KeysApart;
  }

  /** Exactly the expired rows disappear, and exactly their GUIDs become seen. */
  lemma RecordAndDeleteAgree(db: Db, now: int, user: int)
    requires Sound(db)
    ensures var after, days := RecordAndDelete(db, now, user), RetentionDays(db, user);
            && Sound(after)
            && after == db.(articles := after.articles, seen := after.seen, articleAlerts := after.articleAlerts)
            && (forall a :: a in after.articles <==> a in db.articles && !Expired(db, now, days, user, a))
            && (forall k | k in db.seen :: k in after.seen && after.seen[k] == db.seen[k])
            && (forall a | a in db.articles && a !in after.articles ::
                  a.Key() in after.seen && after.seen[a.Key()] == now)
  {
    var days := RetentionDays(db, user);
    var recorded := RecordSeen(db, now, days, user);
    hide RecordSeen, DeleteExpired, Expired, Sound;
    SoundIsKeyed(db);
    RecordMarksExpired(db, now, days, user);
    DeleteRemovesExpired(recorded, now, days, user);
    ExpiredIgnoresSeen(db, recorded, now, days, user);
    RecordedIsSound(db, recorded, DeleteExpired(recorded, now, days, user), now, days, user);
  }

  lemma SoundIsKeyed(db: Db)
    requires Sound(db)
    ensures WellKeyed(db) && forall a | a in db.articles :: a.Key() !in db.seen
  {
  }

  lemma RecordedIsSound(db: Db, recorded: Db, after: Db, now: int, days: int, user: int)
    requires Sound(db) && WellKeyed(after) && recorded == db.(seen := recorded.seen)
    requires after == recorded.(articles := after.articles, articleAlerts := after.articleAlerts)
    requires forall a :: a in after.articles <==> a in db.articles && !Expired(db, now, days, user, a)
    requires forall k | k in recorded.seen && k !in db.seen ::
               exists a | a in db.articles :: Expired(db, now, days, user, a) && a.Key() == k
    ensures Sound(after)
  {
    KeysTellRowsApart(db);
    hide Expired, WellKeyed;
  }

  lemma ExpiredIgnoresSeen(db: Db, other: Db, now: int, days: int, user: int)
    requires other == db.(seen := other.seen)
    ensures forall a :: Expired(other, now, days, user, a) <==> Expired(db, now, days, user, a)
  {
  }

  lemma KeysTellRowsApart(db: Db)
    requires WellKeyed(db)
    ensures forall a, b | a in db.articles && b in db.articles && a.Key() == b.Key() :: a == b
  {
  }

  /** What a cleanup at time `now` does when no retention setting it uses is below `m` days. */
  ghost predicate Cleaned(before: Db, after: Db, now: int, m: int) {
    && after == before.(articles := after.articles, seen := after.seen, articleAlerts := after.articleAlerts)
    && (forall a | a in after.articles :: a in before.articles)
    && (forall a | a in before.articles && a !in after.articles :: SeenSince(after, a.Key(), now))
    && (forall k, t | t >= now - 2 * m * DAY && SeenSince(before, k, t) :: SeenSince(after, k, t))
  }

  /** The GUID is on record with a time of `t` or later. */
  predicate SeenSince(db: Db, key: (int, string), t: int) {
    key in db.seen && db.seen[key] >= t
  }

  lemma CleanNowCleans(db: Db, now: int, user: int, m: int)
    requires Sound(db)
    ensures Sound(RecordAndDelete(db, now, user)) && Cleaned(db, RecordAndDelete(db, now, user), now, m)
  {
    RecordAndDeleteAgree(db, now, user);
    hide RecordAndDelete, RetentionDays, WellKeyed, Expired;
  }

  lemma CleanedTransitive(a: Db, b: Db, c: Db, now: int, m: int)
    requires Cleaned(a, b, now, m) && Cleaned(b, c, now, m) && m >= 0
    ensures Cleaned(a, c, now, m)
  {
    hide SeenSince;
    forall x | x in a.articles && x !in c.articles
      ensures SeenSince(c, x.Key(), now)
    {
      if x !in b.articles {
        assert SeenSince(b, x.Key(), now);
      }
    }
  }

  /** Pruning at twice a setting of at least `m` days spares everything seen within 2m days. */
  lemma PruneCleans(db: Db, now: int, days: int, m: int)
    requires Sound(db) && 0 <= m <= days
    ensures Sound(PruneSeen(db, now, days * 2)) && Cleaned(db, PruneSeen(db, now, days * 2), now, m)
  {
    assert now - days * 2 * DAY <= now - 2 * m * DAY;
  }

  lemma CleanUserCleans(db: Db, now: int, user: int, m: int)
    requires Sound(db) && 0 <= m <= RetentionDays(db, user)
    ensures Sound(CleanUser(db, now, user)) && Cleaned(db, CleanUser(db, now, user), now, m)
    ensures forall a :: a in CleanUser(db, now, user).articles <==>
                        a in db.articles && !Expired(db, now, RetentionDays(db, user), user, a)
  {
    var mid := RecordAndDelete(db, now, user);
    CleanNowCleans(db, now, user, m);
    RecordAndDeleteAgree(db, now, user);
    PruneCleans(mid, now, RetentionDays(db, user), m);
    hide RecordAndDelete, Cleaned, Sound, Expired, RetentionDays;
    CleanedTransitive(db, mid, CleanUser(db, now, user), now, m);
  }

  lemma {:induction false} CleanupCleans(db: Db, now: int, users: seq<int>, m: int)
    requires Sound(db) && m >= 0 && forall u | u in users :: m <= RetentionDays(db, u)
    ensures Sound(CleanUsers(db, now, users)) && Cleaned(db, CleanUsers(db, now, users), now, m)
  {
    if users != [] {
      var init, last := users[..|users| - 1], users[|users| - 1];
      CleanupCleans(db, now, init, m);
      var mid := CleanUsers(db, now, init);
      assert RetentionDays(mid, last) == RetentionDays(db, last);
      CleanUserCleans(mid, now, last, m);
      hide CleanUser, Cleaned, Sound;
      CleanedTransitive(db, mid, CleanUser(mid, now, last), now, m);
    }
  }

  /** A cleanup removes a row only when it is unstarred, unqueued, in a feed without the
      skip flag, and older than the retention days of that feed's owner. */
  lemma {:induction false} RemovesOnlyExpired(db: Db, now: int, users: seq<int>, a: Article)
    requires Sound(db) && a in db.articles
    ensures a !in CleanUsers(db, now, users).articles <==> ExpiredForSome(db, now, users, a)
  {
    hide *;
    if users == [] {
      CleanNobody(db, now);
      NobodyExpires(db, now, a);
    } else {
      var init, last := users[..|users| - 1], users[|users| - 1];
      assert users == init + [last];
      RemovesOnlyExpired(db, now, init, a);
      ExpiredForSomeSnoc(db, now, init, last, a);
      CleanedSoFar(db, now, init, last, a);
      CleanUsersSnoc(db, now, init, last);
    }
  }

  lemma NobodyExpires(db: Db, now: int, a: Article)
    ensures !ExpiredForSome(db, now, [], a)
  {
  }

  /** One more user's turn removes a row exactly when it is expired for that user. */
  lemma CleanedSoFar(db: Db, now: int, init: seq<int>, last: int, a: Article)
    requires Sound(db)
    ensures var mid := CleanUsers(db, now, init);
      a in CleanUser(mid, now, last).articles <==>
        a in mid.articles && !Expired(db, now, RetentionDays(db, last), last, a)
  {
    hide *;
    CleanupCleans(db, now, init, 0);
    var mid := CleanUsers(db, now, init);
    CleanedIsLocal(db, mid, now, 0);
    ExpiredIgnoresRows(db, mid, now, last, a);
    CleanUserCleans(mid, now, last, 0);
  }

  lemma CleanedIsLocal(before: Db, after: Db, now: int, m: int)
    requires Cleaned(before, after, now, m)
    ensures after == before.(articles := after.articles, seen := after.seen, articleAlerts := after.articleAlerts)
  {
  }

  ghost predicate ExpiredForSome(db: Db, now: int, users: seq<int>, a: Article) {
    exists u | u in users :: Expired(db, now, RetentionDays(db, u), u, a)
  }

  lemma ExpiredForSomeSnoc(db: Db, now: int, users: seq<int>, user: int, a: Article)
    ensures ExpiredForSome(db, now, users + [user], a) <==>
            ExpiredForSome(db, now, users, a) || Expired(db, now, RetentionDays(db, user), user, a)
  {
    hide Expired, RetentionDays;
    assert user in users + [user];
  }

  lemma ExpiredIgnoresRows(db: Db, other: Db, now: int, user: int, a: Article)
    requires other == db.(articles := other.articles, seen := other.seen, articleAlerts := other.articleAlerts)
    ensures RetentionDays(other, user) == RetentionDays(db, user)
    ensures Expired(other, now, RetentionDays(other, user), user, a) <==>
            Expired(db, now, RetentionDays(db, user), user, a)
  {
  }

  // ----- The cleanup, column by column

  /** The setting counts when it is a positive number of days; otherwise it is thirty. */
  lemma RetentionDaysAre(db: Db, user: int)
    ensures forall d :: d == RetentionDays(db, user) <==>
      (d >= 1 && (user, Some(d)) in db.retentionDays.Items) ||
      (d == 30 && forall e | (user, Some(e)) in db.retentionDays.Items :: e < 1)
  {
    var settings := db.retentionDays;
    assert forall d :: (user, Some(d)) in settings.Items <==> user in settings && settings[user] == Some(d);
  }

  /** The row's feed belongs to the user and is cleaned up, nothing protects the row, and it was fetched
      more than the user's days ago. */
  ghost predicate IsOld(db: Db, now: int, user: int, a: Article) {
    && a.feed in db.feeds && db.feeds[a.feed] == Feed(Some(user), false)
    && a.isStarred == false
    && (forall e | e in db.queue :: e.article != a.id)
    && now - a.fetchedAt > 86400 * RetentionDays(db, user)
  }

  lemma ExpiredIsOld(db: Db, now: int, user: int, a: Article)
    ensures Expired(db, now, RetentionDays(db, user), user, a) <==> IsOld(db, now, user, a)
  {
    hide RetentionDays;
  }

  /** A cleanup removes a row if and only if one of the users owns its feed, the feed has no skip flag, the
      row is unstarred and in nobody's queue, and it was fetched more than that user's days ago. */
  lemma GoneIffOld(db: Db, now: int, users: seq<int>, a: Article)
    requires Sound(db) && a in db.articles
    ensures a !in CleanUsers(db, now, users).articles <==> exists u | u in users :: IsOld(db, now, u, a)
  {
    hide *;
    RemovesOnlyExpired(db, now, users, a);
    forall u ensures Expired(db, now, RetentionDays(db, u), u, a) <==> IsOld(db, now, u, a) {
      ExpiredIsOld(db, now, u, a);
    }
    SomeExpired(db, now, users, a);
  }

  lemma SomeExpired(db: Db, now: int, users: seq<int>, a: Article)
    ensures ExpiredForSome(db, now, users, a) <==> exists u | u in users :: Expired(db, now, RetentionDays(db, u), u, a)
  {
    hide Expired, RetentionDays;
  }

  /** One user's turn without pruning removes the user's old rows and puts their GUIDs on record with the
      present time; the other rows, GUIDs and times stay. */
  lemma CleanNowByColumns(db: Db, now: int, user: int)
    requires Sound(db)
    ensures var after := RecordAndDelete(db, now, user);
      && (forall a :: a in after.articles <==> a in db.articles && !IsOld(db, now, user, a))
      && (forall k :: k in after.seen <==>
            k in db.seen || exists a | a in db.articles && IsOld(db, now, user, a) :: (a.feed, a.guid) == k)
      && (forall k | k in after.seen :: after.seen[k] == if k in db.seen then db.seen[k] else now)
  {
    var days := RetentionDays(db, user);
    RecordAndDeleteAgree(db, now, user);
    RecordMarksExpired(db, now, days, user);
    forall a ensures Expired(db, now, days, user, a) <==> IsOld(db, now, user, a) {
      ExpiredIsOld(db, now, user, a);
    }
    hide IsOld, Expired, RetentionDays, WellKeyed;
    var after, recorded := RecordAndDelete(db, now, user), RecordSeen(db, now, days, user);
    assert after.seen == recorded.seen;
    forall k ensures k in after.seen <==>
      k in db.seen || exists a | a in db.articles && IsOld(db, now, user, a) :: (a.feed, a.guid) == k
    {
      assert forall a: Article :: a.Key() == (a.feed, a.guid);
    }
  }

  // ----- Runs

  datatype Step =
    | Tick(seconds: nat)
    | Fetch(feed: int, items: seq<Item>)
    | Cleanup
    | CleanupNow(user: int)
    | SetRead(article: int, isRead: bool)
    | SetStarred(article: int, isStarred: bool)
    | SetQueue(queue: seq<QueueEntry>)
    | SetRetention(user: int, days: Option<int>)
    | SetSkipRetention(feed: int, skip: bool)
    | AddUser(user: int)
    | AddFeed(owner: Option<int>, skip: bool)
    | DeleteFeed(feed: int)

  datatype State = State(now: int, db: Db)

  /** ON DELETE CASCADE from feeds. */
  function RemoveFeed(db: Db, feed: int): Db {
    var kept := Filter(db.articles, (a: Article) => a.feed != feed);
    db.(feeds := db.feeds - {feed},
        articles := kept,
        feedCategories := Filter(db.feedCategories, (fc: FeedCategory) => fc.feed != feed),
        queue := Filter(db.queue, (e: QueueEntry) => exists a | a in kept :: a.id == e.article),
        articleAlerts := Filter(db.articleAlerts, (aa: ArticleAlert) => exists a | a in kept :: a.id == aa.article),
        seen := map k | k in db.seen && k.0 != feed :: db.seen[k])
  }

  function Next(s: State, step: Step): State {
    match step
    case Tick(seconds) => s.(now := s.now + seconds)
    case Fetch(feed, items) => s.(db := AfterStore(s.db, s.now, feed, items))
    case Cleanup => s.(db := CleanUsers(s.db, s.now, s.db.users))
    case CleanupNow(user) => s.(db := RecordAndDelete(s.db, s.now, user))
    case SetRead(article, isRead) =>
      s.(db := s.db.(articles := Map(s.db.articles, (a: Article) =>
           if a.id == article then a.(isRead := isRead) else a)))
    case SetStarred(article, isStarred) =>
      s.(db := s.db.(articles :=
          Map(s.db.articles, (a: Article) => if a.id == article then a.(isStarred := isStarred) else a)))
    case SetQueue(queue) => s.(db := s.db.(queue := queue))
    case SetRetention(user, days) => s.(db := s.db.(retentionDays := s.db.retentionDays[user := days]))
    case SetSkipRetention(feed, skip) =>
      if feed in s.db.feeds
      then s.(db := s.db.(feeds := s.db.feeds[feed := s.db.feeds[feed].(skipRetention := skip)]))
      else s
    case AddUser(user) => s.(db := s.db.(users := s.db.users + [user]))
    case AddFeed(owner, skip) =>
      s.(db := s.db.(feeds := s.db.feeds[s.db.nextFeed := Feed(owner, skip)], nextFeed := s.db.nextFeed + 1))
    case DeleteFeed(feed) => s.(db := RemoveFeed(s.db, feed))
  }

  function Run(s: State, steps: seq<Step>): State
    decreases |steps|
  {
    if steps == [] then s else Run(Next(s, steps[0]), steps[1..])
  }

  /** Every cleanup of the run finds all users' retention settings at `m` days or more. */
  predicate RetentionAtLeast(s: State, steps: seq<Step>, m: int)
    decreases |steps|
  {
    steps != [] ==>
      && (steps[0] == Cleanup ==> forall u | u in s.db.users :: RetentionDays(s.db, u) >= m)
      && RetentionAtLeast(Next(s, steps[0]), steps[1..], m)
  }

  lemma MapKeepsKeysApart(rows: seq<Article>, f: Article -> Article)
    requires KeysApart(rows) && forall a | a in rows :: f(a).Key() == a.Key() && f(a).id == a.id
    ensures KeysApart(Map(rows, f))
    ensures forall b | b in Map(rows, f) :: exists a | a in rows :: b == f(a)
  {
    assert forall i | 0 <= i < |rows| :: rows[i] in rows;
  }

  lemma SoundAfterFlag(db: Db, f: Article -> Article)
    requires Sound(db) && forall a | a in db.articles :: f(a).Key() == a.Key() && f(a).id == a.id
    ensures Sound(db.(articles := Map(db.articles, f)))
  {
    MapKeepsKeysApart(db.articles, f);
    hide KeysApart;
  }

  lemma SoundAfterFetch(db: Db, now: int, feed: int, items: seq<Item>)
    requires Sound(db)
    ensures Sound(AfterStore(db, now, feed, items))
  {
    var after := AfterStore(db, now, feed, items);
    StoreKeepsRows(db, now, feed, items);
    hide AfterStore, WellKeyed;
    forall a | a in after.articles
      ensures a.Key() !in after.seen && a.feed in after.feeds
    {
      assert Live(after, a.Key());
      StoreAddsStorableKeys(db, now, feed, items, a.Key());
    }
  }

  lemma SoundAfterRemoveFeed(db: Db, feed: int)
    requires Sound(db)
    ensures Sound(RemoveFeed(db, feed))
  {
    FilterKeepsKeysApart(db.articles, (a: Article) => a.feed != feed);
    hide KeysApart;
  }

  /** Seen GUIDs and stored rows stay disjoint in every step, and so in every run. */
  lemma NextKeepsSound(s: State, step: Step)
    requires Sound(s.db)
    ensures Sound(Next(s, step).db)
  {
    match step
    case Fetch(feed, items) => SoundAfterFetch(s.db, s.now, feed, items);
    case Cleanup => CleanupCleans(s.db, s.now, s.db.users, 0);
    case CleanupNow(user) => CleanNowCleans(s.db, s.now, user, 0);
    case SetRead(article, isRead) =>
      SoundAfterFlag(s.db, (a: Article) => if a.id == article then a.(isRead := isRead) else a);
    case SetStarred(article, isStarred) =>
      SoundAfterFlag(s.db, (a: Article) => if a.id == article then a.(isStarred := isStarred) else a);
    case DeleteFeed(feed) => SoundAfterRemoveFeed(s.db, feed);
    case _ =>
  }

  lemma {:induction false} SeenAndStoredStayDisjoint(s: State, steps: seq<Step>)
    requires Sound(s.db)
    ensures Sound(Run(s, steps).db)
    decreases |steps|
  {
    if steps != [] {
      NextKeepsSound(s, steps[0]);
      SeenAndStoredStayDisjoint(Next(s, steps[0]), steps[1..]);
    }
  }

  /** The GUID cannot come back yet: it is on record, or its feed is gone for good. */
  ghost predicate Retired(db: Db, key: (int, string), t: int) {
    key.0 < db.nextFeed && (SeenSince(db, key, t) || key.0 !in db.feeds)
  }

  lemma NextKeepsRetired(s: State, step: Step, key: (int, string), t: int, m: int)
    requires Sound(s.db) && Retired(s.db, key, t) && m >= 0
    requires RetentionAtLeast(s, [step], m) && s.now <= t + 2 * m * DAY
    ensures Retired(Next(s, step).db, key, t)
  {
    match step
    case Fetch(feed, items) => StoreAddsStorableKeys(s.db, s.now, feed, items, key);
    case Cleanup => CleanupCleans(s.db, s.now, s.db.users, m);
    case CleanupNow(user) => CleanNowCleans(s.db, s.now, user, m);
    case _ =>
  }

  lemma {:induction false} ClockOnlyAdvances(s: State, steps: seq<Step>)
    ensures Run(s, steps).now >= s.now
    decreases |steps|
  {
    if steps != [] {
      ClockOnlyAdvances(Next(s, steps[0]), steps[1..]);
    }
  }

  lemma {:induction false} StaysRetired(s: State, steps: seq<Step>, key: (int, string), t: int, m: int)
    requires Sound(s.db) && Retired(s.db, key, t) && m >= 0
    requires RetentionAtLeast(s, steps, m) && Run(s, steps).now <= t + 2 * m * DAY
    ensures Sound(Run(s, steps).db) && Retired(Run(s, steps).db, key, t)
    decreases |steps|
  {
    if steps != [] {
      ClockOnlyAdvances(s, steps);
      NextKeepsSound(s, steps[0]);
      assert RetentionAtLeast(s, [steps[0]], m);
      NextKeepsRetired(s, steps[0], key, t, m);
      hide Sound, Retired;
      StaysRetired(Next(s, steps[0]), steps[1..], key, t, m);
    }
  }

  /** No resurrection: a GUID whose row a cleanup removed is not stored again while no more
      than twice the smallest retention setting met by any later cleanup has passed. */
  lemma NoResurrection(s: State, cleanup: Step, steps: seq<Step>, key: (int, string), m: int)
    requires Sound(s.db) && (cleanup == Cleanup || cleanup.CleanupNow?)
    requires Live(s.db, key) && !Live(Next(s, cleanup).db, key)
    requires m >= 0 && RetentionAtLeast(s, [cleanup] + steps, m)
    requires Run(Next(s, cleanup), steps).now <= s.now + 2 * m * DAY
    ensures !Live(Run(Next(s, cleanup), steps).db, key)
  {
    var after := Next(s, cleanup);
    assert ([cleanup] + steps)[1..] == steps;
    var a :| a in s.db.articles && a.Key() == key;
    assert a !in after.db.articles;
    if cleanup == Cleanup {
      CleanupCleans(s.db, s.now, s.db.users, m);
    } else {
      CleanNowCleans(s.db, s.now, cleanup.user, m);
    }
    NextKeepsSound(s, cleanup);
    assert Retired(after.db, key, s.now);
    StaysRetired(after, steps, key, s.now, m);
  }

  predicate KeepsSettings(steps: seq<Step>) {
    forall step | step in steps :: !step.SetRetention? && !step.AddUser?
  }

  lemma StepKeepsSettings(s: State, step: Step)
    requires Sound(s.db) && !step.SetRetention? && !step.AddUser?
    ensures Next(s, step).db.users == s.db.users && Next(s, step).db.retentionDays == s.db.retentionDays
  {
    hide KeysApart, IsOld;
    match step
    case Fetch(feed, items) => StoreAddsStorableKeys(s.db, s.now, feed, items, (0, ""));
    case Cleanup => CleanupCleans(s.db, s.now, s.db.users, 0);
    case CleanupNow(user) => CleanNowCleans(s.db, s.now, user, 0);
    case _ =>
  }

  /** While nobody changes a setting or joins, the bound is twice the smallest setting there is. */
  lemma {:induction false} SteadySettings(s: State, steps: seq<Step>, m: int)
    requires Sound(s.db) && KeepsSettings(steps) && forall u | u in s.db.users :: m <= RetentionDays(s.db, u)
    ensures RetentionAtLeast(s, steps, m)
    decreases |steps|
  {
    if steps != [] {
      assert steps[0] in steps && forall x | x in steps[1..] :: x in steps;
      NextKeepsSound(s, steps[0]);
      StepKeepsSettings(s, steps[0]);
      hide Sound, Next;
      SteadySettings(Next(s, steps[0]), steps[1..], m);
    }
  }

  // ----- What cleanups never remove

  /** The row with the given identity. */
  ghost predicate Present(db: Db, id: int, feed: int, guid: string) {
    exists a | a in db.articles :: a.id == id && a.feed == feed && a.guid == guid
  }

  /** The row is starred, or in a queue, or its feed is exempt from cleanups. */
  ghost predicate Protected(db: Db, id: int, feed: int) {
    || (forall a | a in db.articles && a.id == id :: a.isStarred)
    || (exists e | e in db.queue :: e.article == id)
    || (feed in db.feeds && db.feeds[feed].skipRetention)
  }

  /** Whenever a cleanup runs the row is protected, and its feed is not deleted. */
  ghost predicate ProtectedAlong(s: State, steps: seq<Step>, id: int, feed: int)
    decreases |steps|
  {
    steps != [] ==>
      && steps[0] != DeleteFeed(feed)
      && (steps[0].Cleanup? || steps[0].CleanupNow? ==> Protected(s.db, id, feed))
      && ProtectedAlong(Next(s, steps[0]), steps[1..], id, feed)
  }

  lemma ProtectedIsNotOld(db: Db, now: int, user: int, a: Article)
    requires Sound(db) && a in db.articles && Protected(db, a.id, a.feed)
    ensures !IsOld(db, now, user, a)
  {
    hide RetentionDays;
    assert forall b | b in db.articles && b.id == a.id :: b == a;
  }

  lemma FetchKeepsPresent(db: Db, now: int, feed: int, items: seq<Item>, a: Article)
    requires WellKeyed(db) && a in db.articles
    ensures Present(AfterStore(db, now, feed, items), a.id, a.feed, a.guid)
  {
    var after := AfterStore(db, now, feed, items);
    StoreKeepsRows(db, now, feed, items);
    hide AfterStore, WellKeyed;
    var k :| 0 <= k < |db.articles| && db.articles[k] == a;
    assert SameRow(db.articles[k], after.articles[k]) && after.articles[k] in after.articles;
  }

  lemma MapKeepsPresent(db: Db, f: Article -> Article, a: Article)
    requires a in db.articles && f(a).id == a.id && f(a).feed == a.feed && f(a).guid == a.guid
    ensures Present(db.(articles := Map(db.articles, f)), a.id, a.feed, a.guid)
  {
    var after := Map(db.articles, f);
    var k :| 0 <= k < |db.articles| && db.articles[k] == a;
    assert after[k] in after;
  }

  lemma CleanupKeepsPresent(db: Db, now: int, users: seq<int>, a: Article)
    requires Sound(db) && a in db.articles && Protected(db, a.id, a.feed)
    ensures a in CleanUsers(db, now, users).articles
  {
    hide *;
    GoneIffOld(db, now, users, a);
    forall u ensures !IsOld(db, now, u, a) {
      ProtectedIsNotOld(db, now, u, a);
    }
  }

  lemma CleanNowKeepsPresent(db: Db, now: int, user: int, a: Article)
    requires Sound(db) && a in db.articles && Protected(db, a.id, a.feed)
    ensures a in RecordAndDelete(db, now, user).articles
  {
    hide *;
    CleanNowByColumns(db, now, user);
    ProtectedIsNotOld(db, now, user, a);
  }

  lemma OtherRowsStay(s: State, step: Step, a: Article)
    requires a in s.db.articles && (step.DeleteFeed? ==> step.feed != a.feed)
    requires !step.Fetch? && !step.Cleanup? && !step.CleanupNow? && !step.SetRead? && !step.SetStarred?
    ensures a in Next(s, step).db.articles
  {
  }

  lemma StepKeepsPresent(s: State, step: Step, a: Article)
    requires Sound(s.db) && a in s.db.articles && ProtectedAlong(s, [step], a.id, a.feed)
    ensures Present(Next(s, step).db, a.id, a.feed, a.guid)
  {
    hide Protected, CleanUsers, RecordAndDelete, AfterStore, KeysApart, RemoveFeed, IsOld;
    match step
    case Fetch(feed, items) => FetchKeepsPresent(s.db, s.now, feed, items, a);
    case Cleanup => CleanupKeepsPresent(s.db, s.now, s.db.users, a);
    case CleanupNow(user) => CleanNowKeepsPresent(s.db, s.now, user, a);
    case SetRead(article, isRead) =>
      MapKeepsPresent(s.db, (x: Article) => if x.id == article then x.(isRead := isRead) else x, a);
    case SetStarred(article, isStarred) =>
      MapKeepsPresent(s.db, (x: Article) => if x.id == article then x.(isStarred := isStarred) else x, a);
    case _ => OtherRowsStay(s, step, a);
  }

  /** A row that is starred, queued or in an exempt feed whenever a cleanup runs is in the table after every
      run that does not delete its feed. */
  lemma {:induction false} ProtectedStays(s: State, steps: seq<Step>, id: int, feed: int, guid: string)
    requires Sound(s.db) && Present(s.db, id, feed, guid) && ProtectedAlong(s, steps, id, feed)
    ensures Present(Run(s, steps).db, id, feed, guid)
    decreases |steps|
  {
    if steps != [] {
      var a :| a in s.db.articles && a.id == id && a.feed == feed && a.guid == guid;
      assert ProtectedAlong(s, [steps[0]], id, feed);
      NextKeepsSound(s, steps[0]);
      StepKeepsPresent(s, steps[0], a);
      hide Sound, Present, Protected, Next;
      ProtectedStays(Next(s, steps[0]), steps[1..], id, feed, guid);
    }
  }

  /** The steps neither unstar the article, nor delete its feed. */
  predicate LeavesStarred(steps: seq<Step>, id: int, feed: int) {
    forall step | step in steps :: step != SetStarred(id, false) && step != DeleteFeed(feed)
  }

  ghost predicate StarredRow(db: Db, id: int, feed: int, guid: string) {
    exists a | a in db.articles :: a.id == id && a.feed == feed && a.guid == guid && a.isStarred
  }

  lemma StarredIsProtected(db: Db, id: int, feed: int, guid: string)
    requires WellKeyed(db) && StarredRow(db, id, feed, guid)
    ensures Protected(db, id, feed)
  {
    var a :| a in db.articles && a.id == id && a.feed == feed && a.guid == guid && a.isStarred;
    assert forall b | b in db.articles && b.id == id :: b == a;
  }

  lemma MapKeepsStarred(db: Db, f: Article -> Article, a: Article)
    requires a in db.articles && f(a).id == a.id && f(a).feed == a.feed && f(a).guid == a.guid && f(a).isStarred
    ensures StarredRow(db.(articles := Map(db.articles, f)), a.id, a.feed, a.guid)
  {
    var after := Map(db.articles, f);
    var k :| 0 <= k < |db.articles| && db.articles[k] == a;
    assert after[k] in after;
  }

  lemma FetchKeepsStarred(db: Db, now: int, feed: int, items: seq<Item>, a: Article)
    requires WellKeyed(db) && a in db.articles && a.isStarred
    ensures StarredRow(AfterStore(db, now, feed, items), a.id, a.feed, a.guid)
  {
    var after := AfterStore(db, now, feed, items);
    StoreKeepsRows(db, now, feed, items);
    hide AfterStore, WellKeyed;
    var k :| 0 <= k < |db.articles| && db.articles[k] == a;
    assert SameRow(db.articles[k], after.articles[k]) && after.articles[k] in after.articles;
  }

  lemma StepKeepsStarred(s: State, step: Step, a: Article)
    requires Sound(s.db) && a in s.db.articles && a.isStarred && LeavesStarred([step], a.id, a.feed)
    ensures StarredRow(Next(s, step).db, a.id, a.feed, a.guid)
  {
    assert step in [step];
    StarredIsProtected(s.db, a.id, a.feed, a.guid);
    hide Protected, CleanUsers, RecordAndDelete, AfterStore, KeysApart, RemoveFeed, IsOld;
    match step
    case Fetch(feed, items) => FetchKeepsStarred(s.db, s.now, feed, items, a);
    case Cleanup => CleanupKeepsPresent(s.db, s.now, s.db.users, a);
    case CleanupNow(user) => CleanNowKeepsPresent(s.db, s.now, user, a);
    case SetRead(article, isRead) =>
      MapKeepsStarred(s.db, (x: Article) => if x.id == article then x.(isRead := isRead) else x, a);
    case SetStarred(article, isStarred) =>
      MapKeepsStarred(s.db, (x: Article) => if x.id == article then x.(isStarred := isStarred) else x, a);
    case _ => OtherRowsStay(s, step, a);
  }

  lemma {:induction false} StarredStays(s: State, steps: seq<Step>, id: int, feed: int, guid: string)
    requires Sound(s.db) && StarredRow(s.db, id, feed, guid) && LeavesStarred(steps, id, feed)
    ensures StarredRow(Run(s, steps).db, id, feed, guid)
    decreases |steps|
  {
    if steps != [] {
      var a :| a in s.db.articles && a.id == id && a.feed == feed && a.guid == guid && a.isStarred;
      assert steps[0] in steps && forall x | x in steps[1..] :: x in steps;
      NextKeepsSound(s, steps[0]);
      StepKeepsStarred(s, steps[0], a);
      hide Sound, StarredRow, Next;
      StarredStays(Next(s, steps[0]), steps[1..], id, feed, guid);
    }
  }

  /** Starring an article keeps it, starred, through any run of fetches, cleanups and changes of settings,
      until it is unstarred or its feed is deleted. */
  lemma StarKeeps(s: State, a: Article, steps: seq<Step>)
    requires Sound(s.db) && a in s.db.articles && LeavesStarred(steps, a.id, a.feed)
    ensures StarredRow(Run(Next(s, SetStarred(a.id, true)), steps).db, a.id, a.feed, a.guid)
  {
    var starred := Next(s, SetStarred(a.id, true));
    NextKeepsSound(s, SetStarred(a.id, true));
    MapKeepsStarred(s.db, (x: Article) => if x.id == a.id then x.(isStarred := true) else x, a);
    hide Sound, StarredRow, Run, LeavesStarred;
    StarredStays(starred, steps, a.id, a.feed, a.guid);
  }

  /** What the steps that change settings, users and feeds do: a setting counts for its user from then on, a
      skip flag for its feed, and a new feed gets an id no feed has had. */
  lemma SettingsApply(s: State, step: Step)
    requires Sound(s.db)
    ensures var before, after := s.db, Next(s, step).db;
      match step
      case SetRetention(user, days) =>
        && after.(retentionDays := before.retentionDays) == before
        && (forall u | u != user :: RetentionDays(after, u) == RetentionDays(before, u))
        && (days.Some? && days.value > 0 ==> RetentionDays(after, user) == days.value)
        && (days.None? || days.value <= 0 ==> RetentionDays(after, user) == 30)
      case SetSkipRetention(feed, skip) =>
        && after.(feeds := before.feeds) == before && after.feeds.Keys == before.feeds.Keys
        && forall f | f in before.feeds ::
             after.feeds[f] == Feed(before.feeds[f].owner, if f == feed then skip else before.feeds[f].skipRetention)
      case AddFeed(owner, skip) =>
        && after.(feeds := before.feeds, nextFeed := before.nextFeed) == before
        && before.nextFeed !in before.feeds && after.nextFeed == before.nextFeed + 1
        && after.feeds.Items == before.feeds.Items + {(before.nextFeed, Feed(owner, skip))}
      case AddUser(user) =>
        after.(users := before.users) == before && |after.users| == |before.users| + 1 &&
        before.users <= after.users && after.users[|before.users|] == user
      case _ => true
  {
    hide AfterStore, CleanUsers, RecordAndDelete, KeysApart;
    if step.AddFeed? {
      var before, after := s.db, Next(s, step).db;
      forall x ensures x in after.feeds.Items <==>
        x in before.feeds.Items + {(before.nextFeed, Feed(step.owner, step.skip))}
      {
        assert x in before.feeds.Items <==> x.0 in before.feeds && before.feeds[x.0] == x.1;
        assert x in after.feeds.Items <==> x.0 in after.feeds && after.feeds[x.0] == x.1;
      }
    }
  }

  // ----- How long a GUID stays retired

  /** No user's window of twice the retention days has run out on a GUID seen at `t`. */
  ghost predicate WithinEveryWindow(db: Db, now: int, users: seq<int>, t: int) {
    forall u | u in users :: now <= t + RetentionDays(db, u) * 2 * DAY
  }

  lemma CleanUserOnSeen(db: Db, now: int, user: int, key: (int, string))
    requires Sound(db) && !Live(db, key)
    ensures !Live(CleanUser(db, now, user), key)
    ensures key in CleanUser(db, now, user).seen <==>
            key in db.seen && now <= db.seen[key] + RetentionDays(db, user) * 2 * DAY
    ensures key in CleanUser(db, now, user).seen ==> CleanUser(db, now, user).seen[key] == db.seen[key]
  {
    var days := RetentionDays(db, user);
    RecordMarksExpired(db, now, days, user);
    CleanUserCleans(db, now, user, 0);
    hide RetentionDays, Expired, WellKeyed;
  }

  lemma WindowSnoc(db: Db, now: int, users: seq<int>, user: int, t: int)
    ensures WithinEveryWindow(db, now, users + [user], t) <==>
            WithinEveryWindow(db, now, users, t) && now <= t + RetentionDays(db, user) * 2 * DAY
  {
    hide RetentionDays;
    assert user in users + [user];
  }

  /** A cleanup forgets a GUID exactly when some user's window, not only its owner's, has run out. */
  lemma {:induction false} CleanupForgets(db: Db, now: int, users: seq<int>, key: (int, string))
    requires Sound(db) && key in db.seen
    ensures !Live(CleanUsers(db, now, users), key)
    ensures key in CleanUsers(db, now, users).seen <==> WithinEveryWindow(db, now, users, db.seen[key])
    ensures key in CleanUsers(db, now, users).seen ==> CleanUsers(db, now, users).seen[key] == db.seen[key]
  {
    hide *;
    if users == [] {
      NobodyForgets(db, now, key);
    } else {
      var init, last := users[..|users| - 1], users[|users| - 1];
      CleanupForgets(db, now, init, key);
      CleanupKeepsSettings(db, now, init, last);
      var mid := CleanUsers(db, now, init);
      CleanUserOnSeen(mid, now, last, key);
      WindowSnoc(db, now, init, last, db.seen[key]);
      assert users == init + [last];
      CleanUsersSnoc(db, now, init, last);
    }
  }

  lemma NobodyForgets(db: Db, now: int, key: (int, string))
    requires Sound(db) && key in db.seen
    ensures CleanUsers(db, now, []) == db && !Live(db, key) && WithinEveryWindow(db, now, [], db.seen[key])
  {
  }

  lemma CleanupKeepsSettings(db: Db, now: int, users: seq<int>, user: int)
    requires Sound(db)
    ensures Sound(CleanUsers(db, now, users)) && CleanUsers(db, now, users).feeds == db.feeds
    ensures RetentionDays(CleanUsers(db, now, users), user) == RetentionDays(db, user)
  {
    CleanupCleans(db, now, users, 0);
  }

  /** The bound is exact: offered again right after a cleanup, a retired GUID is stored if
      and only if some user's retention window has run out twice over. */
  lemma ComesBackIffForgotten(s: State, key: (int, string), item: Item)
    requires Sound(s.db) && key in s.db.seen && key.0 in s.db.feeds && item.guid == key.1 != ""
    ensures Live(Run(s, [Cleanup, Fetch(key.0, [item])]).db, key) <==>
            !WithinEveryWindow(s.db, s.now, s.db.users, s.db.seen[key])
  {
    var cleaned := CleanUsers(s.db, s.now, s.db.users);
    CleanupForgets(s.db, s.now, s.db.users, key);
    CleanupKeepsSettings(s.db, s.now, s.db.users, 0);
    StoreAddsStorableKeys(cleaned, s.now, key.0, [item], key);
    CleanupThenFetch(s, key.0, [item]);
    hide *;
    hide Storable;
    FetchedBack(cleaned, key, item);
  }

  lemma CleanupThenFetch(s: State, feed: int, items: seq<Item>)
    ensures Run(s, [Cleanup, Fetch(feed, items)]).db ==
            AfterStore(CleanUsers(s.db, s.now, s.db.users), s.now, feed, items)
  {
    hide CleanUsers, AfterStore;
    RunTwo(s, Cleanup, Fetch(feed, items));
  }

  lemma RunTwo(s: State, first: Step, second: Step)
    ensures Run(s, [first, second]) == Next(Next(s, first), second)
  {
    hide Next;
    assert [first, second][1..] == [second];
    assert [second][1..] == [];
    assert Run(Next(s, first), [second]) == Run(Next(Next(s, first), second), []);
  }

  lemma FetchedBack(db: Db, key: (int, string), item: Item)
    requires key.0 in db.feeds && item.guid == key.1 != ""
    ensures (exists x | x in [item] :: Storable(db, key.0, x) && key == (key.0, x.guid)) <==> key !in db.seen
  {
    assert item in [item];
  }

  const OLD: Article :=
    Article(1, 1, "g", Body("t", None, None, None, None, None, None), -DEFAULT_RETENTION_DAYS * DAY - 1, false, false)

  /** User 7 keeps articles for thirty days and owns the only one; user 8 keeps articles for one day. */
  const TWO_USERS_DB: Db :=
    Db([7, 8], map[1 := Feed(Some(7), false)], 2, [OLD], 2, map[], [], [], [], map[], [], map[], map[8 := Some(1)])

  lemma TwoSettings()
    ensures Sound(TWO_USERS_DB) && RetentionDays(TWO_USERS_DB, 8) == 1
    ensures RetentionDays(TWO_USERS_DB, 7) == DEFAULT_RETENTION_DAYS && Live(TWO_USERS_DB, OLD.Key())
  {
    assert OLD in TWO_USERS_DB.articles;
  }

  /** User 7's turn moves the GUID to the record. */
  lemma FirstTurn()
    ensures CleanUser(TWO_USERS_DB, 0, 7) == TWO_USERS_DB.(articles := [], seen := map[OLD.Key() := 0])
  {
    var db, days := TWO_USERS_DB, RetentionDays(TWO_USERS_DB, 7);
    assert OLD in db.articles && Expired(db, 0, days, 7, OLD);
    var recorded := RecordSeen(db, 0, days, 7);
    assert recorded.seen == map[OLD.Key() := 0];
    assert Expired(recorded, 0, days, 7, OLD);
    assert DeleteExpired(recorded, 0, days, 7).articles == [];
  }

  /** User 8's turn finds nothing. */
  lemma SecondTurn(db: Db, user: int)
    requires db.articles == [] && db.articleAlerts == [] && forall k | k in db.seen :: db.seen[k] == 0
    ensures CleanUser(db, 0, user) == db
  {
    assert RecordSeen(db, 0, RetentionDays(db, user), user) == db;
    assert PruneSeen(db, 0, RetentionDays(db, user) * 2) == db;
  }

  lemma BothTurns()
    ensures Next(State(0, TWO_USERS_DB), Cleanup) ==
            State(0, TWO_USERS_DB.(articles := [], seen := map[OLD.Key() := 0]))
  {
    FirstTurn();
    SecondTurn(CleanUser(TWO_USERS_DB, 0, 7), 8);
    CleanNobody(TWO_USERS_DB, 0);
    CleanUsersSnoc(TWO_USERS_DB, 0, [], 7);
    CleanUsersSnoc(TWO_USERS_DB, 0, [7], 8);
    assert [] + [7] == [7] && [7] + [8] == [7, 8];
    hide CleanUsers, CleanUser;
  }

  lemma NothingLive(db: Db, key: (int, string))
    requires db.articles == []
    ensures !Live(db, key)
  {
  }

  lemma OneWindowIsOver(db: Db)
    requires db == TWO_USERS_DB.(articles := [], seen := map[OLD.Key() := 0])
    ensures Sound(db) && !WithinEveryWindow(db, 2 * DAY + 1, db.users, 0)
  {
    assert 8 in db.users && RetentionDays(db, 8) == 1;
  }

  /** Two days after a cleanup has removed user 7's article the feed offers it again, and the next cleanup
      lets it back in: user 8's setting decides, and user 7's thirty days do not matter. */
  lemma OtherSettingBringsBack()
    ensures var s, key := State(0, TWO_USERS_DB), OLD.Key();
      var retired := Run(s, [Cleanup, Tick(2 * DAY + 1)]);
      && Sound(s.db) && RetentionDays(s.db, 7) == DEFAULT_RETENTION_DAYS && RetentionDays(s.db, 8) == 1
      && Live(s.db, key) && !Live(retired.db, key)
      && Live(Run(retired, [Cleanup, Fetch(key.0, [Item(key.1, OLD.body)])]).db, key)
  {
    var s, key := State(0, TWO_USERS_DB), OLD.Key();
    TwoSettings();
    BothTurns();
    RunTwo(s, Cleanup, Tick(2 * DAY + 1));
    var retired := Run(s, [Cleanup, Tick(2 * DAY + 1)]);
    OneWindowIsOver(retired.db);
    NothingLive(retired.db, key);
    hide Run, CleanUsers, Live, Sound, WithinEveryWindow, RetentionDays;
    ComesBackIffForgotten(retired, key, Item(key.1, OLD.body));
  }

  // ----- The two statements of a cleanup

  /** Every removed row is on record and no remaining one is. */
  ghost predicate NothingForgotten(before: Db, after: Db) {
    && (forall a | a in before.articles && a !in after.articles :: a.Key() in after.seen)
    && (forall a | a in after.articles :: a.Key() !in after.seen)
  }

  /** Recording and deleting read the clock separately. They agree exactly when no eligible
      row's age passes the retention limit between the two readings. */
  lemma StatementsAgreeIffNoRowCrosses(db: Db, now1: int, now2: int, days: int, user: int)
    requires Sound(db)
    ensures NothingForgotten(db, DeleteExpired(RecordSeen(db, now1, days, user), now2, days, user)) <==>
            forall a | a in db.articles && Eligible(db, user, a) ::
              a.fetchedAt < now1 - days * DAY <==> a.fetchedAt < now2 - days * DAY
  {
    var recorded := RecordSeen(db, now1, days, user);
    var after := DeleteExpired(recorded, now2, days, user);
    RecordMarksExpired(db, now1, days, user);
    DeleteRemovesExpired(recorded, now2, days, user);
    ExpiredIgnoresSeen(db, recorded, now2, days, user);
    KeysTellRowsApart(db);
    hide RecordSeen, DeleteExpired, WellKeyed, Eligible;
    if NothingForgotten(db, after) {
      forall a | a in db.articles && Eligible(db, user, a)
        ensures a.fetchedAt < now1 - days * DAY <==> a.fetchedAt < now2 - days * DAY
      {
        assert Expired(db, now1, days, user, a) ==> a.Key() in after.seen;
        assert a !in after.articles <==> Expired(db, now2, days, user, a);
      }
    }
  }

  const LATE: Article :=
    Article(1, 1, "g", Body("t", None, None, None, None, None, None), -DEFAULT_RETENTION_DAYS * DAY, false, false)

  /** One article whose age reaches the limit in the second between the two statements. */
  const LATE_DB: Db := Db([7], map[1 := Feed(Some(7), false)], 2, [LATE], 2, map[], [], [], [], map[], [], map[], map[])

  /** It is deleted without having been recorded, and the next fetch brings it back. */
  lemma ClockTickLosesTheGuid()
    ensures var days := DEFAULT_RETENTION_DAYS;
      var after := DeleteExpired(RecordSeen(LATE_DB, 0, days, 7), 1, days, 7);
      && Sound(LATE_DB) && RetentionDays(LATE_DB, 7) == days && !NothingForgotten(LATE_DB, after)
      && Live(LATE_DB, LATE.Key()) && !Live(after, LATE.Key())
      && Live(AfterStore(after, 1, 1, [Item("g", LATE.body)]), LATE.Key())
  {
    var days := DEFAULT_RETENTION_DAYS;
    var recorded := RecordSeen(LATE_DB, 0, days, 7);
    var after := DeleteExpired(recorded, 1, days, 7);
    assert LATE in LATE_DB.articles && !Expired(LATE_DB, 0, days, 7, LATE) && Expired(recorded, 1, days, 7, LATE);
    FilterKeepsNone([LATE], (a: Article) => !Expired(recorded, 1, days, 7, a));
    StatementsAgreeIffNoRowCrosses(LATE_DB, 0, 1, days, 7);
    assert after.articles == [] && recorded.seen == map[];
    hide AfterStore, Upsert;
    StoreAddsStorableKeys(after, 1, 1, [Item("g", LATE.body)], LATE.Key());
    assert Item("g", LATE.body) in [Item("g", LATE.body)];
  }

  // ----- The manager

  class RetentionManager {
    var db: Db

    /** cleanup: all users in turn; the counts cache is invalidated when a row was deleted. */
    method RunCleanup(now: int) returns (totalDeleted: int, invalidateAll: bool)
      requires Sound(db)
      modifies this
      ensures Sound(db) && db == CleanUsers(old(db), now, old(db).users)
      ensures totalDeleted == |old(db).articles| - |db.articles|
      ensures invalidateAll <==> totalDeleted > 0
    {
      hide *;
      var userIds := db.users;
      totalDeleted := 0;
      CleanNobody(db, now);
      assert userIds[..0] == [];
      for i := 0 to |userIds|
        invariant Sound(db) && db == CleanUsers(old(db), now, userIds[..i])
        invariant totalDeleted == |old(db).articles| - |db.articles|
      {
        assert userIds[..i + 1] == userIds[..i] + [userIds[i]];
        CleanUsersSnoc(old(db), now, userIds[..i], userIds[i]);
        var days := RetentionDays(db, userIds[i]);
        var before := db;
        TurnKeepsSound(before, now, userIds[i]);
        db := RecordSeen(db, now, days, userIds[i]);
        var rows := |db.articles|;
        db := DeleteExpired(db, now, days, userIds[i]);
        var deleted := rows - |db.articles|;
        if deleted > 0 {
          totalDeleted := totalDeleted + deleted;
        }
        db := PruneSeen(db, now, days * 2);
      }
      assert userIds[..|userIds|] == userIds;
      invalidateAll := totalDeleted > 0;
    }

    /** RunCleanupNow: one user, without pruning. */
    method RunCleanupNow(now: int, user: int) returns (deleted: int, invalidateAll: bool)
      requires Sound(db)
      modifies this
      ensures Sound(db) && db == RecordAndDelete(old(db), now, user)
      ensures deleted == |old(db).articles| - |db.articles|
      ensures invalidateAll <==> deleted > 0
    {
      CleanNowCleans(db, now, user, 0);
      var days := RetentionDays(db, user);
      db := RecordSeen(db, now, days, user);
      var rows := |db.articles|;
      db := DeleteExpired(db, now, days, user);
      deleted := rows - |db.articles|;
      invalidateAll := deleted > 0;
    }
  }

  lemma CleanNobody(db: Db, now: int)
    ensures CleanUsers(db, now, []) == db
  {
  }

  lemma CleanUsersSnoc(db: Db, now: int, users: seq<int>, user: int)
    ensures CleanUsers(db, now, users + [user]) == CleanUser(CleanUsers(db, now, users), now, user)
  {
    assert (users + [user])[..|users|] == users;
  }

  lemma TurnKeepsSound(db: Db, now: int, user: int)
    requires Sound(db)
    ensures var days := RetentionDays(db, user);
            var recorded := RecordSeen(db, now, days, user);
            var deleted := DeleteExpired(recorded, now, days, user);
            && Sound(CleanUser(db, now, user)) && CleanUser(db, now, user) == PruneSeen(deleted, now, days * 2)
            && |recorded.articles| == |db.articles| && |deleted.articles| <= |db.articles|
            && |CleanUser(db, now, user).articles| == |deleted.articles|
  {
    CleanUserCleans(db, now, user, 0);
  }
}
