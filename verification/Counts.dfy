/** The sidebar counts of srv/server.go: the fast SQL path, the filtered path for users
    with exclusion rules, and how the two relate. */
module Counts {
  import opened Options
  import opened Sequences
  import opened Sets
  import opened Tables
  import opened Exclusions

  datatype ArticleCounts = ArticleCounts(unread: int, starred: int, queue: int, alerts: int,
                                         feedCounts: map<int, int>, catCounts: map<int, int>)

  // ----- Counting groups

  /** SELECT key, COUNT(*) ... GROUP BY key */
  function GroupCount(keys: seq<int>): map<int, int> {
    map k | k in keys :: multiset(keys)[k]
  }

  /** counts[k]++ on a map whose missing entries read as zero. */
  function Increment(counts: map<int, int>, k: int): map<int, int> {
    counts[k := (if k in counts then counts[k] else 0) + 1]
  }

  lemma GroupCountSnoc(keys: seq<int>, k: int)
    ensures GroupCount(keys + [k]) == Increment(GroupCount(keys), k)
  {
    assert multiset(keys + [k]) == multiset(keys) + multiset{k};
    assert k !in keys ==> multiset(keys)[k] == 0;
  }

  ghost function SumOver(m: map<int, int>, keys: set<int>): int
    requires keys <= m.Keys
  {
    if keys == {} then 0 else
      var k := Element(keys);
      m[k] + SumOver(m, keys - {k})
  }

  ghost function Sum(m: map<int, int>): int {
    SumOver(m, m.Keys)
  }

  lemma {:induction false} SumWithout(m: map<int, int>, keys: set<int>, k: int)
    requires keys <= m.Keys && k in keys
    ensures SumOver(m, keys) == m[k] + SumOver(m, keys - {k})
    decreases keys
  {
    var j := Element(keys);
    if j != k {
      SumWithout(m, keys - {j}, k);
      SumWithout(m, keys - {k}, j);
      assert keys - {j} - {k} == keys - {k} - {j};
    }
  }

  lemma {:induction false} SumAgrees(m: map<int, int>, n: map<int, int>, keys: set<int>)
    requires keys <= m.Keys && keys <= n.Keys && forall k | k in keys :: m[k] == n[k]
    ensures SumOver(m, keys) == SumOver(n, keys)
    decreases keys
  {
    if keys != {} {
      var k := Element(keys);
      SumWithout(m, keys, k);
      SumWithout(n, keys, k);
      SumAgrees(m, n, keys - {k});
    }
  }

  lemma SumOfIncrement(m: map<int, int>, k: int)
    ensures Sum(Increment(m, k)) == Sum(m) + 1
  {
    var n := Increment(m, k);
    SumWithout(n, n.Keys, k);
    SumAgrees(m, n, m.Keys - {k});
    assert n.Keys - {k} == m.Keys - {k};
    if k in m {
      SumWithout(m, m.Keys, k);
    } else {
      assert m.Keys - {k} == m.Keys;
    }
  }

  /** The group counts add up to the number of rows. */
  lemma {:induction false} GroupCountsAddUp(keys: seq<int>)
    ensures Sum(GroupCount(keys)) == |keys|
  {
    if keys != [] {
      var init, k := keys[..|keys| - 1], keys[|keys| - 1];
      GroupCountsAddUp(init);
      GroupCountSnoc(init, k);
      assert keys == init + [k];
      hide Sum, GroupCount;
      SumOfIncrement(GroupCount(init), k);
    }
  }

  // ----- The SQL queries

  function UnreadRows(db: Db, user: int): seq<Article> {
    Filter(db.articles, (a: Article) => !a.isRead && Owns(db.feeds, user, a.feed))
  }

  function StarredCount(db: Db, user: int): int {
    |Filter(db.articles, (a: Article) => a.isStarred && Owns(db.feeds, user, a.feed))|
  }

  function QueueCount(db: Db, user: int): int {
    |Filter(db.queue, (e: QueueEntry) => e.user == user)|
  }

  predicate OwnsAlert(db: Db, user: int, alert: int) {
    alert in db.alerts && db.alerts[alert] == user
  }

  function UndismissedAlerts(db: Db, user: int): int {
    |Filter(db.articleAlerts, (aa: ArticleAlert) => OwnsAlert(db, user, aa.alert) && !aa.dismissed)|
  }

  function Feeds(rows: seq<Article>): seq<int> {
    Map(rows, (a: Article) => a.feed)
  }

  /** One entry per pair of a row and a category its feed is filed under. */
  function JoinCategories(rows: seq<Article>, mappings: seq<FeedCategory>): seq<int> {
    if rows == [] then []
    else JoinCategories(rows[..|rows| - 1], mappings) + CategoriesIn(mappings, rows[|rows| - 1].feed)
  }

  predicate HasRules(db: Db, user: int) {
    AllExclusions(db, user) != []
  }

  /** getArticleCounts without rules: every number straight from a query. */
  function FastCounts(db: Db, user: int): ArticleCounts {
    var rows := UnreadRows(db, user);
    ArticleCounts(|rows|, StarredCount(db, user), QueueCount(db, user), UndismissedAlerts(db, user),
                  GroupCount(Feeds(rows)), GroupCount(JoinCategories(rows, Mappings(db, user))))
  }

  // ----- The filtered path

  /** The first category of each row's feed, for the rows that have one. */
  function FirstCategories(rows: seq<Article>, mappings: seq<FeedCategory>): seq<int> {
    if rows == [] then []
    else
      var cats := CategoriesIn(mappings, rows[|rows| - 1].feed);
      FirstCategories(rows[..|rows| - 1], mappings) + if cats == [] then [] else [cats[0]]
  }

  ghost function FilteredCounts(db: Db, m: Matcher, user: int): ArticleCounts {
    var rows := Survivors(db, m, user, UnreadRows(db, user));
    ArticleCounts(|rows|, StarredCount(db, user), QueueCount(db, user), UndismissedAlerts(db, user),
                  GroupCount(Feeds(rows)), GroupCount(FirstCategories(rows, Mappings(db, user))))
  }

  /** What a fresh computation returns. */
  ghost function FreshCounts(db: Db, m: Matcher, user: int): ArticleCounts {
    if HasRules(db, user) then FilteredCounts(db, m, user) else FastCounts(db, user)
  }

  // ----- The filtered path refines the fast one

  /** The database in which the excluded articles count as read. */
  ghost function WithoutExcluded(db: Db, m: Matcher, user: int): Db {
    db.(articles := MarkRead(db.articles, (a: Article) => Excluded(db, m, user, a)))
  }

  lemma {:induction false} UnreadAfterMarking(rows: seq<Article>, drop: Article -> bool, keep: Article -> bool)
    requires forall a: Article, r: bool :: drop(a.(isRead := r)) == drop(a) && keep(a.(isRead := r)) == keep(a)
    ensures Filter(MarkRead(rows, drop), (a: Article) => !a.isRead && keep(a)) ==
            Filter(Filter(rows, (a: Article) => !a.isRead && keep(a)), (a: Article) => !drop(a))
  {
    if rows != [] {
      var unread, survives := (a: Article) => !a.isRead && keep(a), (a: Article) => !drop(a);
      var first, rest := rows[0], rows[1..];
      UnreadAfterMarking(rest, drop, keep);
      var marked := MarkRead(rows, drop);
      assert marked[0] == if drop(first) then first.(isRead := true) else first;
      assert marked[1..] == MarkRead(rest, drop);
      FilterConcat(if unread(first) then [first] else [], Filter(rest, unread), survives);
    }
  }

  lemma UnreadWithoutExcluded(db: Db, m: Matcher, user: int)
    ensures UnreadRows(WithoutExcluded(db, m, user), user) == Survivors(db, m, user, UnreadRows(db, user))
  {
    var drop, keep := (a: Article) => Excluded(db, m, user, a), (a: Article) => Owns(db.feeds, user, a.feed);
    forall a: Article, r: bool
      ensures drop(a.(isRead := r)) == drop(a)
    {
      ExcludedIgnoresFlag(db, m, user, a, r);
    }
    hide Excluded;
    UnreadAfterMarking(db.articles, drop, keep);
    FilterAgrees(db.articles, (a: Article) => !a.isRead && keep(a),
                 (a: Article) => !a.isRead && Owns(db.feeds, user, a.feed));
    var other := WithoutExcluded(db, m, user);
    FilterAgrees(other.articles, (a: Article) => !a.isRead && keep(a),
                 (a: Article) => !a.isRead && Owns(other.feeds, user, a.feed));
    FilterAgrees(UnreadRows(db, user), (a: Article) => !drop(a), (a: Article) => !Excluded(db, m, user, a));
  }

  lemma ExcludedIgnoresFlag(db: Db, m: Matcher, user: int, a: Article, r: bool)
    ensures Excluded(db, m, user, a.(isRead := r)) <==> Excluded(db, m, user, a)
  {
    hide MatchesPattern, Owns, OwnsCategory;
  }

  /** No feed with a surviving article is filed under two categories. */
  ghost predicate SingleCategory(rows: seq<Article>, mappings: seq<FeedCategory>) {
    forall a | a in rows :: |CategoriesIn(mappings, a.feed)| <= 1
  }

  lemma {:induction false} JoinVersusFirst(rows: seq<Article>, mappings: seq<FeedCategory>)
    ensures |FirstCategories(rows, mappings)| <= |JoinCategories(rows, mappings)|
    ensures if SingleCategory(rows, mappings)
            then FirstCategories(rows, mappings) == JoinCategories(rows, mappings)
            else |FirstCategories(rows, mappings)| < |JoinCategories(rows, mappings)|
    ensures |FirstCategories(rows, mappings)| ==
            |Filter(rows, (a: Article) => CategoriesIn(mappings, a.feed) != [])|
  {
    hide CategoriesIn;
    if rows != [] {
      var init, last := rows[..|rows| - 1], rows[|rows| - 1];
      JoinVersusFirst(init, mappings);
      assert rows == init + [last];
      FilterSnoc(init, last, (a: Article) => CategoriesIn(mappings, a.feed) != []);
      var cats := CategoriesIn(mappings, last.feed);
      assert |cats| == 1 ==> cats == [cats[0]];
    }
  }

  /** The filtered counts are the SQL counts over the surviving articles, except that an
      article counts in one category only: the category counts agree exactly when no
      surviving article's feed has two. Their sum is the number of survivors filed anywhere. */
  lemma FilteredRefinesFast(db: Db, m: Matcher, user: int)
    ensures var filtered, fast := FilteredCounts(db, m, user), FastCounts(WithoutExcluded(db, m, user), user);
            var rows, mappings := Survivors(db, m, user, UnreadRows(db, user)), Mappings(db, user);
            && filtered.(catCounts := fast.catCounts) == fast
            && (filtered == fast <==> SingleCategory(rows, mappings))
            && filtered.unread == Sum(filtered.feedCounts)
            && Sum(filtered.catCounts) == |Filter(rows, (a: Article) => CategoriesIn(mappings, a.feed) != [])|
  {
    hide Survivors, CategoriesIn, GroupCount, Sum, Excluded, SingleCategory, FirstCategories, JoinCategories;
    var rows, mappings := Survivors(db, m, user, UnreadRows(db, user)), Mappings(db, user);
    var other := WithoutExcluded(db, m, user);
    UnreadWithoutExcluded(db, m, user);
    StarredWithoutExcluded(db, m, user);
    SameMappings(db, other, user);
    hide UnreadRows, Mappings, StarredCount, WithoutExcluded;
    GroupCountsAddUp(Feeds(rows));
    GroupCountsAddUp(FirstCategories(rows, mappings));
    GroupCountsAddUp(JoinCategories(rows, mappings));
    JoinVersusFirst(rows, mappings);
  }

  lemma SameMappings(db: Db, other: Db, user: int)
    requires other == db.(articles := other.articles)
    ensures Mappings(other, user) == Mappings(db, user)
    ensures QueueCount(other, user) == QueueCount(db, user)
    ensures UndismissedAlerts(other, user) == UndismissedAlerts(db, user)
  {
    FilterAgrees(db.feedCategories, (fc: FeedCategory) => Owns(other.feeds, user, fc.feed),
                 (fc: FeedCategory) => Owns(db.feeds, user, fc.feed));
    FilterAgrees(db.articleAlerts, (aa: ArticleAlert) => OwnsAlert(other, user, aa.alert) && !aa.dismissed,
                 (aa: ArticleAlert) => OwnsAlert(db, user, aa.alert) && !aa.dismissed);
  }

  lemma {:induction false} CountAfterMarking(rows: seq<Article>, drop: Article -> bool, p: Article -> bool)
    requires forall a: Article, r: bool :: p(a.(isRead := r)) == p(a)
    ensures |Filter(MarkRead(rows, drop), p)| == |Filter(rows, p)|
  {
    if rows != [] {
      CountAfterMarking(rows[1..], drop, p);
      assert MarkRead(rows, drop)[1..] == MarkRead(rows[1..], drop);
    }
  }

  lemma StarredWithoutExcluded(db: Db, m: Matcher, user: int)
    ensures StarredCount(WithoutExcluded(db, m, user), user) == StarredCount(db, user)
  {
    hide Excluded;
    var other := WithoutExcluded(db, m, user);
    var p := (a: Article) => a.isStarred && Owns(db.feeds, user, a.feed);
    CountAfterMarking(db.articles, (a: Article) => Excluded(db, m, user, a), p);
    FilterAgrees(other.articles, p, (a: Article) => a.isStarred && Owns(other.feeds, user, a.feed));
    FilterAgrees(db.articles, p, (a: Article) => a.isStarred && Owns(db.feeds, user, a.feed));
  }

  // ----- The category counts, row by row

  /** A missing entry of a count reads as zero. */
  function At(counts: map<int, int>, k: int): int {
    if k in counts then counts[k] else 0
  }

  lemma GroupCountAt(keys: seq<int>, k: int)
    ensures At(GroupCount(keys), k) == multiset(keys)[k]
  {
  }

  lemma {:induction false} FilterMultiplicity<T>(s: seq<T>, p: T -> bool, x: T)
    ensures multiset(Filter(s, p))[x] == if p(x) then multiset(s)[x] else 0
  {
    if s != [] {
      FilterMultiplicity(s[1..], p, x);
      assert s == [s[0]] + s[1..];
    }
  }

  /** How often a pair of a row's feed and the category occurs among the mappings, over all rows. */
  ghost function Filings(rows: seq<Article>, mappings: seq<FeedCategory>, c: int): int {
    if rows == [] then 0
    else multiset(mappings)[FeedCategory(rows[0].feed, c)] + Filings(rows[1..], mappings, c)
  }

  lemma {:induction false} FilingsSnoc(rows: seq<Article>, a: Article, mappings: seq<FeedCategory>, c: int)
    ensures Filings(rows + [a], mappings, c) ==
            Filings(rows, mappings, c) + multiset(mappings)[FeedCategory(a.feed, c)]
  {
    if rows == [] {
      assert rows + [a] == [a];
    } else {
      assert (rows + [a])[1..] == rows[1..] + [a];
      FilingsSnoc(rows[1..], a, mappings, c);
    }
  }

  lemma {:induction false} CategoriesMultiplicity(mappings: seq<FeedCategory>, feed: int, c: int)
    ensures multiset(CategoriesIn(mappings, feed))[c] == multiset(mappings)[FeedCategory(feed, c)]
  {
    if mappings == [] {
      CategoriesInNothing();
    } else {
      var init, fc := mappings[..|mappings| - 1], mappings[|mappings| - 1];
      assert mappings == init + [fc];
      CategoriesMultiplicity(init, feed, c);
      CategoriesInSnoc(init, fc);
      hide CategoriesIn;
    }
  }

  lemma {:induction false} JoinMultiplicity(rows: seq<Article>, mappings: seq<FeedCategory>, c: int)
    ensures multiset(JoinCategories(rows, mappings))[c] == Filings(rows, mappings, c)
  {
    if rows != [] {
      var init, last := rows[..|rows| - 1], rows[|rows| - 1];
      JoinMultiplicity(init, mappings, c);
      assert rows == init + [last];
      FilingsSnoc(init, last, mappings, c);
      CategoriesMultiplicity(mappings, last.feed, c);
      hide CategoriesIn, Filings;
    }
  }

  /** Where no pair is filed twice, each row counts once or not at all. */
  lemma {:induction false} FilingsOfPairs(rows: seq<Article>, mappings: seq<FeedCategory>, c: int)
    requires forall fc :: multiset(mappings)[fc] <= 1
    ensures Filings(rows, mappings, c) == |Filter(rows, (a: Article) => FeedCategory(a.feed, c) in mappings)|
  {
    if rows != [] {
      FilingsOfPairs(rows[1..], mappings, c);
      var fc := FeedCategory(rows[0].feed, c);
      assert fc in mappings <==> multiset(mappings)[fc] > 0;
    }
  }

  lemma {:induction false} FilingsAgree(rows: seq<Article>, mappings: seq<FeedCategory>, all: seq<FeedCategory>, c: int)
    requires forall a | a in rows ::
               multiset(mappings)[FeedCategory(a.feed, c)] == multiset(all)[FeedCategory(a.feed, c)]
    ensures Filings(rows, mappings, c) == Filings(rows, all, c)
  {
    if rows != [] {
      FilingsAgree(rows[1..], mappings, all, c);
    }
  }

  lemma MappingsMultiplicity(db: Db, user: int, feed: int, c: int)
    ensures multiset(Mappings(db, user))[FeedCategory(feed, c)] ==
            if Owns(db.feeds, user, feed) then multiset(db.feedCategories)[FeedCategory(feed, c)] else 0
  {
    FilterMultiplicity(db.feedCategories, (fc: FeedCategory) => Owns(db.feeds, user, fc.feed), FeedCategory(feed, c));
  }

  /** Without rules a category counts each unread article of the user as often as its feed is filed under
      the category. With the table's unique pairs that is the number of unread articles in it. */
  lemma FastCategoryCount(db: Db, user: int, c: int)
    ensures At(FastCounts(db, user).catCounts, c) == Filings(UnreadRows(db, user), db.feedCategories, c)
    ensures (forall fc :: multiset(db.feedCategories)[fc] <= 1) ==>
      At(FastCounts(db, user).catCounts, c) == |Filter(db.articles, (a: Article) =>
        && !a.isRead && a.feed in db.feeds && db.feeds[a.feed].owner == Some(user)
        && FeedCategory(a.feed, c) in db.feedCategories)|
  {
    var rows := UnreadRows(db, user);
    GroupCountAt(JoinCategories(rows, Mappings(db, user)), c);
    JoinMultiplicity(rows, Mappings(db, user), c);
    forall a | a in rows
      ensures multiset(Mappings(db, user))[FeedCategory(a.feed, c)] ==
              multiset(db.feedCategories)[FeedCategory(a.feed, c)]
    {
      MappingsMultiplicity(db, user, a.feed, c);
    }
    hide GroupCount, Mappings, JoinCategories, Filings;
    FilingsAgree(rows, Mappings(db, user), db.feedCategories, c);
    if forall fc :: multiset(db.feedCategories)[fc] <= 1 {
      FilingsOfPairs(rows, db.feedCategories, c);
      UnreadAnd(db, user, (a: Article) => FeedCategory(a.feed, c) in db.feedCategories, (a: Article) =>
        && !a.isRead && a.feed in db.feeds && db.feeds[a.feed].owner == Some(user)
        && FeedCategory(a.feed, c) in db.feedCategories);
    }
  }

  lemma UnreadAnd(db: Db, user: int, q: Article -> bool, both: Article -> bool)
    requires forall a | a in db.articles ::
      both(a) == (!a.isRead && a.feed in db.feeds && db.feeds[a.feed].owner == Some(user) && q(a))
    ensures Filter(UnreadRows(db, user), q) == Filter(db.articles, both)
  {
    FilterBoth(db.articles, (a: Article) => !a.isRead && Owns(db.feeds, user, a.feed), q, both);
  }

  lemma {:induction false} FirstMultiplicity(rows: seq<Article>, mappings: seq<FeedCategory>, c: int)
    ensures multiset(FirstCategories(rows, mappings))[c] ==
            |Filter(rows, (a: Article) => FirstIs(mappings, a.feed, c))|
  {
    if rows != [] {
      var init, last := rows[..|rows| - 1], rows[|rows| - 1];
      FirstMultiplicity(init, mappings, c);
      assert rows == init + [last];
      FilterSnoc(init, last, (a: Article) => FirstIs(mappings, a.feed, c));
      FirstCategoryIs(mappings, last.feed, c);
      hide CategoriesIn, FirstIs;
    }
  }

  /** The feed is filed under the category, and under no other before it. */
  ghost predicate FirstIs(mappings: seq<FeedCategory>, feed: int, c: int) {
    exists k | 0 <= k < |mappings| ::
      mappings[k] == FeedCategory(feed, c) && forall j | 0 <= j < k :: mappings[j].feed != feed
  }

  lemma FirstIsSnoc(init: seq<FeedCategory>, fc: FeedCategory, feed: int, c: int)
    ensures FirstIs(init + [fc], feed, c) <==>
      FirstIs(init, feed, c) || (fc == FeedCategory(feed, c) && forall j | 0 <= j < |init| :: init[j].feed != feed)
  {
    var all := init + [fc];
    assert all[|init|] == fc && forall j | 0 <= j < |init| :: all[j] == init[j];
  }

  lemma FirstIsNothing(feed: int, c: int)
    ensures !FirstIs([], feed, c)
  {
  }

  lemma {:induction false} FirstCategoryIs(mappings: seq<FeedCategory>, feed: int, c: int)
    ensures FirstIs(mappings, feed, c) <==>
            CategoriesIn(mappings, feed) != [] && CategoriesIn(mappings, feed)[0] == c
  {
    hide *;
    if mappings == [] {
      CategoriesInNothing();
      FirstIsNothing(feed, c);
    } else {
      var init, fc := mappings[..|mappings| - 1], mappings[|mappings| - 1];
      assert mappings == init + [fc];
      FirstCategoryIs(init, feed, c);
      CategoriesInSnoc(init, fc);
      FirstIsSnoc(init, fc, feed, c);
      NoneFiled(init, feed);
    }
  }

  lemma NoneFiled(mappings: seq<FeedCategory>, feed: int)
    ensures CategoriesIn(mappings, feed) == [] <==> forall j | 0 <= j < |mappings| :: mappings[j].feed != feed
  {
    var own := Filter(mappings, (fc: FeedCategory) => fc.feed == feed);
    assert |own| == |CategoriesIn(mappings, feed)|;
    assert forall j | 0 <= j < |mappings| :: mappings[j] in mappings;
    if own != [] {
      assert own[0] in own && own[0] in mappings;
    }
  }

  /** With rules a category counts the surviving articles whose feed is filed under it first. */
  lemma FilteredCategoryCount(db: Db, m: Matcher, user: int, c: int)
    ensures At(FilteredCounts(db, m, user).catCounts, c) ==
            |Filter(Survivors(db, m, user, UnreadRows(db, user)),
                    (a: Article) => FirstIs(Mappings(db, user), a.feed, c))|
  {
    hide Survivors, GroupCount, Mappings, FirstIs, FirstCategories;
    var rows := Survivors(db, m, user, UnreadRows(db, user));
    GroupCountAt(FirstCategories(rows, Mappings(db, user)), c);
    FirstMultiplicity(rows, Mappings(db, user), c);
  }

  // ----- The loops

  /** feed_id -> category_id, keeping the first category of each feed. */
  method FirstCategoryMap(mappings: seq<FeedCategory>) returns (feedToCat: map<int, int>)
    ensures forall f :: f in feedToCat <==> CategoriesIn(mappings, f) != []
    ensures forall f | f in feedToCat :: feedToCat[f] == CategoriesIn(mappings, f)[0]
  {
    hide *;
    feedToCat := map[];
    CategoriesInNothing();
    assert mappings[..0] == [];
    for i := 0 to |mappings|
      invariant forall f :: f in feedToCat <==> CategoriesIn(mappings[..i], f) != []
      invariant forall f | f in feedToCat :: feedToCat[f] == CategoriesIn(mappings[..i], f)[0]
    {
      var fc := mappings[i];
      assert mappings[..i + 1] == mappings[..i] + [fc];
      CategoriesInSnoc(mappings[..i], fc);
      if fc.feed !in feedToCat {
        feedToCat := feedToCat[fc.feed := fc.category];
      }
    }
    assert mappings[..|mappings|] == mappings;
  }

  /** The aggregation loop. */
  method Aggregate(rows: seq<Article>, mappings: seq<FeedCategory>, feedToCat: map<int, int>)
    returns (feedCounts: map<int, int>, catCounts: map<int, int>)
    requires forall f :: f in feedToCat <==> CategoriesIn(mappings, f) != []
    requires forall f | f in feedToCat :: feedToCat[f] == CategoriesIn(mappings, f)[0]
    ensures feedCounts == GroupCount(Feeds(rows)) && catCounts == GroupCount(FirstCategories(rows, mappings))
  {
    hide *;
    feedCounts, catCounts := map[], map[];
    AggregateNothing(mappings);
    assert rows[..0] == [];
    for i := 0 to |rows|
      invariant feedCounts == GroupCount(Feeds(rows[..i]))
      invariant catCounts == GroupCount(FirstCategories(rows[..i], mappings))
    {
      var row := rows[i];
      AggregateRow(rows, i, mappings);
      feedCounts := Increment(feedCounts, row.feed);
      if row.feed in feedToCat {
        catCounts := Increment(catCounts, feedToCat[row.feed]);
      }
    }
    assert rows[..|rows|] == rows;
  }

  lemma AggregateNothing(mappings: seq<FeedCategory>)
    ensures GroupCount(Feeds([])) == map[] && GroupCount(FirstCategories([], mappings)) == map[]
  {
  }

  lemma AggregateRow(rows: seq<Article>, i: nat, mappings: seq<FeedCategory>)
    requires i < |rows|
    ensures GroupCount(Feeds(rows[..i + 1])) == Increment(GroupCount(Feeds(rows[..i])), rows[i].feed)
    ensures var cats, before := CategoriesIn(mappings, rows[i].feed), GroupCount(FirstCategories(rows[..i], mappings));
            GroupCount(FirstCategories(rows[..i + 1], mappings)) ==
              if cats == [] then before else Increment(before, cats[0])
  {
    hide GroupCount, CategoriesIn;
    assert rows[..i + 1][..i] == rows[..i];
    assert Feeds(rows[..i + 1]) == Feeds(rows[..i]) + [rows[i].feed];
    GroupCountSnoc(Feeds(rows[..i]), rows[i].feed);
    var cats := CategoriesIn(mappings, rows[i].feed);
    assert FirstCategories(rows[..i + 1], mappings) ==
           FirstCategories(rows[..i], mappings) + if cats == [] then [] else [cats[0]];
    if cats == [] {
      assert FirstCategories(rows[..i + 1], mappings) == FirstCategories(rows[..i], mappings);
    } else {
      GroupCountSnoc(FirstCategories(rows[..i], mappings), cats[0]);
    }
  }

  /** getFilteredArticleCounts */
  method GetFilteredArticleCounts(db: Db, m: Matcher, user: int) returns (counts: ArticleCounts)
    ensures counts == FilteredCounts(db, m, user)
  {
    var starred, queue, alerts := StarredCount(db, user), QueueCount(db, user), UndismissedAlerts(db, user);
    var mappings := Mappings(db, user);
    var feedToCat := FirstCategoryMap(mappings);
    var rows := UnreadRows(db, user);
    var filtered := FilterAll(db, m, rows, user);
    var feedCounts, catCounts := Aggregate(filtered, mappings, feedToCat);
    hide Survivors, StarredCount, QueueCount, UndismissedAlerts, Mappings, UnreadRows, GroupCount;
    counts := ArticleCounts(|filtered|, starred, queue, alerts, feedCounts, catCounts);
  }

  /** getArticleCounts past the cache. */
  method ComputeCounts(db: Db, m: Matcher, user: int) returns (counts: ArticleCounts)
    ensures counts == FreshCounts(db, m, user)
  {
    hide FilteredCounts, FastCounts;
    if HasRules(db, user) {
      counts := GetFilteredArticleCounts(db, m, user);
    } else {
      counts := FastCounts(db, user);
    }
  }
}
