/** What one user's counts depend on, and how single statements leave other users' part alone. */
module Views {
  import opened Options
  import opened Sequences
  import opened Tables
  import opened Exclusions
  import opened Counts

  /** The rows a user's counts are computed from. */
  datatype View = View(rows: seq<Article>, mappings: seq<FeedCategory>, rules: seq<Exclusion>,
                       queue: seq<QueueEntry>, matches: seq<ArticleAlert>)

  function OwnRows(rows: seq<Article>, feeds: map<int, Feed>, user: int): seq<Article> {
    Filter(rows, (a: Article) => Owns(feeds, user, a.feed))
  }

  function OwnMappings(mappings: seq<FeedCategory>, feeds: map<int, Feed>, user: int): seq<FeedCategory> {
    Filter(mappings, (fc: FeedCategory) => Owns(feeds, user, fc.feed))
  }

  function OwnRules(rules: seq<Exclusion>, categories: map<int, Category>, user: int): seq<Exclusion> {
    Filter(rules, (e: Exclusion) => e.category in categories && categories[e.category].owner == Some(user))
  }

  function OwnQueue(queue: seq<QueueEntry>, user: int): seq<QueueEntry> {
    Filter(queue, (e: QueueEntry) => e.user == user)
  }

  function OwnMatches(matches: seq<ArticleAlert>, alerts: map<int, int>, user: int): seq<ArticleAlert> {
    Filter(matches, (aa: ArticleAlert) => aa.alert in alerts && alerts[aa.alert] == user)
  }

  function ViewOf(db: Db, user: int): View {
    View(OwnRows(db.articles, db.feeds, user), OwnMappings(db.feedCategories, db.feeds, user),
         OwnRules(db.exclusions, db.categories, user), OwnQueue(db.queue, user),
         OwnMatches(db.articleAlerts, db.alerts, user))
  }

  /** The counts computed from a view alone. */
  function CountsFrom(view: View, m: Matcher): ArticleCounts {
    var unread := Filter(view.rows, (a: Article) => !a.isRead);
    var rows := Filter(unread, (a: Article) => !CaughtBy(m, view.rules, view.mappings, a));
    var starred := |Filter(view.rows, (a: Article) => a.isStarred)|;
    var alerts := |Filter(view.matches, (aa: ArticleAlert) => !aa.dismissed)|;
    if view.rules == [] then
      ArticleCounts(|unread|, starred, |view.queue|, alerts, GroupCount(Feeds(unread)),
                    GroupCount(JoinCategories(unread, view.mappings)))
    else
      ArticleCounts(|rows|, starred, |view.queue|, alerts, GroupCount(Feeds(rows)),
                    GroupCount(FirstCategories(rows, view.mappings)))
  }

  lemma ViewHoldsTheQueries(db: Db, user: int)
    ensures var view := ViewOf(db, user);
            && UnreadRows(db, user) == Filter(view.rows, (a: Article) => !a.isRead)
            && StarredCount(db, user) == |Filter(view.rows, (a: Article) => a.isStarred)|
            && Mappings(db, user) == view.mappings && AllExclusions(db, user) == view.rules
            && QueueCount(db, user) == |view.queue|
            && UndismissedAlerts(db, user) == |Filter(view.matches, (aa: ArticleAlert) => !aa.dismissed)|
  {
    var owns := (a: Article) => Owns(db.feeds, user, a.feed);
    FilterBoth(db.articles, owns, (a: Article) => !a.isRead, (a: Article) => !a.isRead && Owns(db.feeds, user, a.feed));
    FilterBoth(db.articles, owns, (a: Article) => a.isStarred,
               (a: Article) => a.isStarred && Owns(db.feeds, user, a.feed));
    FilterAgrees(db.feedCategories, (fc: FeedCategory) => Owns(db.feeds, user, fc.feed),
                 (fc: FeedCategory) => Owns(db.feeds, user, fc.feed));
    FilterAgrees(db.exclusions, (e: Exclusion) => OwnsCategory(db, user, e.category),
                 (e: Exclusion) => e.category in db.categories && db.categories[e.category].owner == Some(user));
    FilterBoth(db.articleAlerts, (aa: ArticleAlert) => aa.alert in db.alerts && db.alerts[aa.alert] == user,
               (aa: ArticleAlert) => !aa.dismissed,
               (aa: ArticleAlert) => OwnsAlert(db, user, aa.alert) && !aa.dismissed);
  }

  /** A user's fresh counts are a function of the user's view. */
  lemma FreshCountsFromView(db: Db, m: Matcher, user: int)
    ensures FreshCounts(db, m, user) == CountsFrom(ViewOf(db, user), m)
  {
    hide UnreadRows, Mappings, AllExclusions, Survivors, StarredCount, QueueCount, UndismissedAlerts, ViewOf;
    hide CaughtBy, GroupCount, JoinCategories, FirstCategories, Feeds;
    ViewHoldsTheQueries(db, user);
    GroupedFilterIsNaive(db, m, user, UnreadRows(db, user));
  }

  // ----- Statements that touch other rows only

  lemma {:induction false} UpdateOutside<T>(rows: seq<T>, f: T -> T, q: T -> bool)
    requires forall a | a in rows :: q(f(a)) == q(a) && (q(a) ==> f(a) == a)
    ensures Filter(Map(rows, f), q) == Filter(rows, q)
  {
    if rows != [] {
      UpdateOutside(rows[1..], f, q);
      assert Map(rows, f)[1..] == Map(rows[1..], f);
    }
  }

  lemma {:induction false} DeleteOutside<T>(s: seq<T>, keep: T -> bool, q: T -> bool)
    requires forall x | x in s && q(x) :: keep(x)
    ensures Filter(Filter(s, keep), q) == Filter(s, q)
  {
    if s != [] {
      DeleteOutside(s[1..], keep, q);
      FilterConcat(if keep(s[0]) then [s[0]] else [], Filter(s[1..], keep), q);
    }
  }

  lemma AppendOutside<T>(s: seq<T>, added: seq<T>, q: T -> bool)
    requires forall x | x in added :: !q(x)
    ensures Filter(s + added, q) == Filter(s, q)
  {
    FilterConcat(s, added, q);
    FilterKeepsNone(added, q);
  }

  lemma {:induction false} ReplaceOutside<T>(s: seq<T>, t: seq<T>, q: T -> bool)
    requires |s| <= |t|
    requires forall i | 0 <= i < |s| :: q(t[i]) == q(s[i]) && (q(s[i]) ==> t[i] == s[i])
    requires forall i | |s| <= i < |t| :: !q(t[i])
    ensures Filter(t, q) == Filter(s, q)
  {
    if s == [] {
      FilterKeepsNone(t, q);
    } else {
      ReplaceOutside(s[1..], t[1..], q);
    }
  }
}
