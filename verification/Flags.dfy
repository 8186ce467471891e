/** What setting the read flag of some articles does to a user's counts. */
module Flags {
  import opened Sequences
  import opened Tables
  import opened Exclusions
  import opened Counts
  import opened Views

  function Flagged(rows: seq<Article>, p: Article -> bool, isRead: bool): seq<Article> {
    Map(rows, (a: Article) => if p(a) then a.(isRead := isRead) else a)
  }

  /** Setting the flag of some rows changes the list of unread rows that pass `keep` if and only if one
      of those rows passes and had the other flag; the list then changes in length. */
  lemma {:induction false} UnreadAfterFlag(rows: seq<Article>, p: Article -> bool, keep: Article -> bool, isRead: bool)
    requires forall a: Article, r: bool :: keep(a.(isRead := r)) == keep(a)
    ensures var unread := (a: Article) => !a.isRead && keep(a);
      var before, after := Filter(rows, unread), Filter(Flagged(rows, p, isRead), unread);
      && (if isRead then |after| <= |before| else |before| <= |after|)
      && (|after| == |before| <==> forall a | a in rows && p(a) && keep(a) :: a.isRead == isRead)
      && (|after| == |before| ==> after == before)
  {
    if rows != [] {
      hide Filter, Flagged;
      var unread := (a: Article) => !a.isRead && keep(a);
      UnreadAfterFlag(rows[1..], p, keep, isRead);
      FilterUnfolds(rows, unread);
      FlaggedUnfolds(rows, p, isRead);
      FilterUnfolds(Flagged(rows, p, isRead), unread);
      assert forall a | a in rows :: a == rows[0] || a in rows[1..];
    }
  }

  lemma FilterUnfolds(rows: seq<Article>, p: Article -> bool)
    requires rows != []
    ensures Filter(rows, p) == if p(rows[0]) then [rows[0]] + Filter(rows[1..], p) else Filter(rows[1..], p)
  {
  }

  lemma FlaggedUnfolds(rows: seq<Article>, p: Article -> bool, isRead: bool)
    requires rows != []
    ensures Flagged(rows, p, isRead) != []
    ensures Flagged(rows, p, isRead)[0] == if p(rows[0]) then rows[0].(isRead := isRead) else rows[0]
    ensures Flagged(rows, p, isRead)[1..] == Flagged(rows[1..], p, isRead)
  {
  }

  lemma {:induction false} CountAfterFlag(rows: seq<Article>, p: Article -> bool, isRead: bool, q: Article -> bool)
    requires forall a: Article, r: bool :: q(a.(isRead := r)) == q(a)
    ensures |Filter(Flagged(rows, p, isRead), q)| == |Filter(rows, q)|
  {
    if rows != [] {
      CountAfterFlag(rows[1..], p, isRead, q);
      assert Flagged(rows, p, isRead)[1..] == Flagged(rows[1..], p, isRead);
    }
  }

  /** The unread articles a user is shown, and counted. */
  ghost function Shown(db: Db, m: Matcher, user: int): seq<Article> {
    Survivors(db, m, user, UnreadRows(db, user))
  }

  ghost predicate Shows(db: Db, m: Matcher, user: int, a: Article) {
    Owns(db.feeds, user, a.feed) && !Excluded(db, m, user, a)
  }

  lemma ShownIs(db: Db, m: Matcher, user: int)
    ensures Shown(db, m, user) == Filter(db.articles, (a: Article) => !a.isRead && Shows(db, m, user, a))
  {
    hide Excluded;
    FilterBoth(db.articles, (a: Article) => !a.isRead && Owns(db.feeds, user, a.feed),
               (a: Article) => !Excluded(db, m, user, a), (a: Article) => !a.isRead && Shows(db, m, user, a));
  }

  lemma UnreadIsShown(db: Db, m: Matcher, user: int)
    ensures FreshCounts(db, m, user).unread == |Shown(db, m, user)|
  {
    hide UnreadRows, Survivors, AllExclusions, GroupCount, StarredCount, QueueCount, UndismissedAlerts, Mappings;
    hide JoinCategories, FirstCategories, Feeds;
    if AllExclusions(db, user) == [] {
      NoRulesNoExclusion(db, m, user, UnreadRows(db, user));
    }
  }

  lemma SameShownSameCounts(db: Db, other: Db, m: Matcher, user: int)
    requires other == db.(articles := other.articles)
    requires Shown(other, m, user) == Shown(db, m, user) && StarredCount(other, user) == StarredCount(db, user)
    ensures FreshCounts(other, m, user) == FreshCounts(db, m, user)
  {
    SameMappings(db, other, user);
    SameRules(db, other, user);
    hide UnreadRows, Survivors, AllExclusions, GroupCount, StarredCount, QueueCount, UndismissedAlerts, Mappings;
    hide JoinCategories, FirstCategories, Feeds;
    if AllExclusions(db, user) == [] {
      NoRulesNoExclusion(db, m, user, UnreadRows(db, user));
      NoRulesNoExclusion(other, m, user, UnreadRows(other, user));
    }
  }

  lemma SameRules(db: Db, other: Db, user: int)
    requires other == db.(articles := other.articles)
    ensures AllExclusions(other, user) == AllExclusions(db, user)
  {
    FilterAgrees(db.exclusions, (e: Exclusion) => OwnsCategory(other, user, e.category),
                 (e: Exclusion) => OwnsCategory(db, user, e.category));
  }

  lemma StarredAfterFlag(db: Db, p: Article -> bool, isRead: bool, user: int)
    ensures StarredCount(db.(articles := Flagged(db.articles, p, isRead)), user) == StarredCount(db, user)
  {
    var other := db.(articles := Flagged(db.articles, p, isRead));
    var q := (a: Article) => a.isStarred && Owns(db.feeds, user, a.feed);
    CountAfterFlag(db.articles, p, isRead, q);
    FilterAgrees(other.articles, q, (a: Article) => a.isStarred && Owns(other.feeds, user, a.feed));
    FilterAgrees(db.articles, q, (a: Article) => a.isStarred && Owns(db.feeds, user, a.feed));
  }

  lemma ShowsIgnoresFlag(db: Db, m: Matcher, user: int, a: Article, r: bool)
    ensures Shows(db, m, user, a.(isRead := r)) <==> Shows(db, m, user, a)
  {
    hide Excluded;
    ExcludedIgnoresFlag(db, m, user, a, r);
  }

  lemma ShowsIgnoresRows(db: Db, other: Db, m: Matcher, user: int, a: Article)
    requires other == db.(articles := other.articles)
    ensures Shows(other, m, user, a) <==> Shows(db, m, user, a)
  {
    hide Excluded;
    ExcludedIgnoresRows(db, other, m, user, a);
  }

  lemma ShownAfterFlag(db: Db, m: Matcher, p: Article -> bool, isRead: bool, user: int)
    ensures var before, after := Shown(db, m, user), Shown(db.(articles := Flagged(db.articles, p, isRead)), m, user);
      && (|after| == |before| <==>
          forall a | a in db.articles && p(a) && Shows(db, m, user, a) :: a.isRead == isRead)
      && (|after| == |before| ==> after == before)
  {
    hide Shown, Shows, Flagged;
    var other := db.(articles := Flagged(db.articles, p, isRead));
    var keep := (a: Article) => Shows(db, m, user, a);
    forall a: Article, r: bool ensures keep(a.(isRead := r)) == keep(a) {
      ShowsIgnoresFlag(db, m, user, a, r);
    }
    forall a ensures Shows(other, m, user, a) <==> Shows(db, m, user, a) {
      ShowsIgnoresRows(db, other, m, user, a);
    }
    ShownIs(db, m, user);
    ShownIs(other, m, user);
    UnreadAfterFlag(db.articles, p, keep, isRead);
    FilterAgrees(db.articles, (a: Article) => !a.isRead && keep(a), (a: Article) => !a.isRead && Shows(db, m, user, a));
    FilterAgrees(other.articles, (a: Article) => !a.isRead && keep(a),
                 (a: Article) => !a.isRead && Shows(other, m, user, a));
  }

  /** Setting the flag of some rows changes a user's counts if and only if one of them is the user's, is
      not excluded and had the other flag. */
  lemma FlagKeepsCountsIff(db: Db, m: Matcher, p: Article -> bool, isRead: bool, user: int)
    ensures FreshCounts(db.(articles := Flagged(db.articles, p, isRead)), m, user) == FreshCounts(db, m, user) <==>
            forall a | a in db.articles && p(a) && Shows(db, m, user, a) :: a.isRead == isRead
  {
    hide FreshCounts, Shown, Shows, Flagged, StarredCount;
    var other := db.(articles := Flagged(db.articles, p, isRead));
    ShownAfterFlag(db, m, p, isRead, user);
    UnreadIsShown(db, m, user);
    UnreadIsShown(other, m, user);
    StarredAfterFlag(db, p, isRead, user);
    if Shown(other, m, user) == Shown(db, m, user) {
      SameShownSameCounts(db, other, m, user);
    }
  }
}
