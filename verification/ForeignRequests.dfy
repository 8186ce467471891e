/** What requests on other users' things do to cached counts. Creating a rule, queueing an article and
    filing a feed check no ownership of the category or the article (srv/server.go:1634-1663, 2420-2463,
    3174-3226), so nothing makes requests considerate. */
module ForeignRequests {
  import opened Options
  import opened Sequences
  import opened Tables
  import opened Exclusions
  import opened Counts
  import opened Views
  import opened Flags
  import opened Operations
  import opened CountsCache
  import Retention

  // ----- A rule on another user's category

  lemma ForeignRuleMarksNothing(db: Db, m: Matcher, u: int, rule: Exclusion)
    requires AcceptsRule(db, rule) && !OwnsCategory(db, u, rule.category)
    ensures AddRule(db, m, u, rule) == db.(exclusions := db.exclusions + [rule])
  {
    var other := db.(exclusions := db.exclusions + [rule]);
    assert ExclusionsOf(other, rule.category, Some(u)) == [] by {
      FilterKeepsNone(other.exclusions, (e: Exclusion) =>
        e.category == rule.category && Some(u).Some? && OwnsCategory(other, Some(u).value, rule.category));
    }
    MarkNothing(other.articles, (a: Article) => MarkedBy(other, m, rule.category, u, a));
  }

  /** The rule is stored, marks nothing read, and changes the view of the category's owner alone. */
  lemma ForeignRule(db: Db, m: Matcher, u: int, rule: Exclusion, user: int)
    requires AcceptsRule(db, rule) && !OwnsCategory(db, u, rule.category)
    ensures AddRule(db, m, u, rule).articles == db.articles
    ensures ViewOf(AddRule(db, m, u, rule), user) ==
      if OwnsCategory(db, user, rule.category) then WithRule(ViewOf(db, user), rule) else ViewOf(db, user)
  {
    ForeignRuleMarksNothing(db, m, u, rule);
    hide AddRule;
    RuleAppended(db, rule, user);
    assert ViewOf(db, user).rules + [] == ViewOf(db, user).rules;
  }

  function WithRule(view: View, rule: Exclusion): View {
    view.(rules := view.rules + [rule])
  }

  function Kept(db: Db, m: Matcher, op: Op, entries: Entries): Entries {
    map u | u in entries && !Invalidates(db, m, op, u) :: entries[u]
  }

  lemma OnlyActorDropped(db: Db, m: Matcher, u: int, rule: Exclusion, user: int)
    requires AcceptsRule(db, rule)
    ensures Invalidates(db, m, CreateExclusion(u, rule), user) <==> user == u
    ensures Apply(db, m, CreateExclusion(u, rule)) == AddRule(db, m, u, rule)
  {
    hide AddRule, AcceptsRule;
  }

  predicate Hit(m: Matcher, rule: Exclusion, mappings: seq<FeedCategory>, a: Article) {
    FeedCategory(a.feed, rule.category) in mappings && RuleMatches(m, rule, a)
  }

  /** The rule matches no article its category's owner has counted, and, where it is the owner's first
      rule, no unread article of theirs is in two categories. */
  ghost predicate Harmless(m: Matcher, view: View, rule: Exclusion) {
    && (forall a | a in view.rows && !a.isRead && !CaughtBy(m, view.rules, view.mappings, a) ::
          !Hit(m, rule, view.mappings, a))
    && (view.rules == [] ==> SingleCategory(Filter(view.rows, (a: Article) => !a.isRead), view.mappings))
  }

  lemma CaughtWithRule(m: Matcher, rules: seq<Exclusion>, rule: Exclusion, mappings: seq<FeedCategory>, a: Article)
    ensures CaughtBy(m, rules + [rule], mappings, a) <==> CaughtBy(m, rules, mappings, a) || Hit(m, rule, mappings, a)
  {
    hide CategoriesIn, RulesIn, RuleMatches;
    CategoriesInMappings(mappings, a.feed, rule.category);
    RulesInSnoc(rules, rule);
    forall c ensures AnyRuleMatches(m, RulesIn(rules + [rule], c), a) <==>
                     AnyRuleMatches(m, RulesIn(rules, c), a) || (c == rule.category && RuleMatches(m, rule, a))
    {
      var more := RulesIn(rules, c) + [rule];
      assert more[|more| - 1] == rule;
    }
  }

  function Counted(m: Matcher, view: View): seq<Article> {
    Filter(Filter(view.rows, (a: Article) => !a.isRead), (a: Article) => !CaughtBy(m, view.rules, view.mappings, a))
  }

  /** The rule takes the articles it hits from those counted. */
  lemma CountedWithRule(m: Matcher, view: View, rule: Exclusion)
    ensures Counted(m, WithRule(view, rule)) ==
            Filter(Counted(m, view), (a: Article) => !Hit(m, rule, view.mappings, a))
  {
    hide CaughtBy, Hit;
    var unread := Filter(view.rows, (a: Article) => !a.isRead);
    forall a ensures CaughtBy(m, view.rules + [rule], view.mappings, a) <==>
                     CaughtBy(m, view.rules, view.mappings, a) || Hit(m, rule, view.mappings, a)
    {
      CaughtWithRule(m, view.rules, rule, view.mappings, a);
    }
    FilterBoth(unread, (a: Article) => !CaughtBy(m, view.rules, view.mappings, a),
               (a: Article) => !Hit(m, rule, view.mappings, a),
               (a: Article) => !CaughtBy(m, WithRule(view, rule).rules, WithRule(view, rule).mappings, a));
  }

  lemma CountedWithoutRules(m: Matcher, view: View)
    requires view.rules == []
    ensures Counted(m, view) == Filter(view.rows, (a: Article) => !a.isRead)
  {
    hide RuleMatches;
    FilterKeepsAll(Filter(view.rows, (a: Article) => !a.isRead),
                   (a: Article) => !CaughtBy(m, view.rules, view.mappings, a));
  }

  lemma CountsAre(m: Matcher, view: View)
    ensures var rows, counts := Counted(m, view), CountsFrom(view, m);
      && counts.unread == |rows| && counts.feedCounts == GroupCount(Feeds(rows))
      && counts.catCounts == GroupCount(if view.rules == [] then JoinCategories(rows, view.mappings)
                                        else FirstCategories(rows, view.mappings))
      && counts == CountsFrom(view.(rules := []), m).(unread := counts.unread, feedCounts := counts.feedCounts,
                                                      catCounts := counts.catCounts)
  {
    if view.rules == [] {
      CountedWithoutRules(m, view);
    }
    hide CaughtBy, GroupCount, JoinCategories, FirstCategories, Feeds;
  }

  /** Without a hit the same articles are counted, with one fewer. */
  lemma SameCountedIff(m: Matcher, view: View, rule: Exclusion)
    ensures var rows, after := Counted(m, view), Counted(m, WithRule(view, rule));
      && (|after| == |rows| <==> after == rows)
      && (after == rows <==> forall a | a in rows :: !Hit(m, rule, view.mappings, a))
  {
    hide Counted, Hit, WithRule;
    var rows, missed := Counted(m, view), (a: Article) => !Hit(m, rule, view.mappings, a);
    CountedWithRule(m, view, rule);
    if |Filter(rows, missed)| == |rows| {
      FilterSameLength(rows, missed);
    }
    if forall a | a in rows :: missed(a) {
      FilterKeepsAll(rows, missed);
    }
  }

  /** Counting a row under its first category alone makes no difference if and only if no row has two. */
  lemma FirstCategoriesCountIff(rows: seq<Article>, mappings: seq<FeedCategory>)
    ensures GroupCount(FirstCategories(rows, mappings)) == GroupCount(JoinCategories(rows, mappings)) <==>
            SingleCategory(rows, mappings)
  {
    hide *;
    JoinVersusFirst(rows, mappings);
    GroupCountsAddUp(FirstCategories(rows, mappings));
    GroupCountsAddUp(JoinCategories(rows, mappings));
  }

  lemma CountedRows(m: Matcher, view: View, a: Article)
    ensures a in Counted(m, view) <==> a in view.rows && !a.isRead && !CaughtBy(m, view.rules, view.mappings, a)
  {
    hide CaughtBy;
  }

  /** One more rule leaves the owner's counts alone if and only if it is harmless. */
  lemma RuleKeepsCountsIff(m: Matcher, view: View, rule: Exclusion)
    ensures CountsFrom(WithRule(view, rule), m) == CountsFrom(view, m) <==> Harmless(m, view, rule)
  {
    hide Counted, CountsFrom, GroupCount, FirstCategories, JoinCategories, Feeds, CaughtBy, Hit, SingleCategory;
    var rows := Counted(m, view);
    CountsAre(m, view);
    CountsAre(m, WithRule(view, rule));
    SameCountedIff(m, view, rule);
    forall a ensures a in rows <==> a in view.rows && !a.isRead && !CaughtBy(m, view.rules, view.mappings, a) {
      CountedRows(m, view, a);
    }
    if view.rules == [] {
      CountedWithoutRules(m, view);
      FirstCategoriesCountIff(rows, view.mappings);
    }
  }

  /** The request drops the acting user's entry only. The cache stays coherent if and only if the rule
      is harmless to the category's owner, where the owner's counts are cached. */
  lemma ForeignRuleKeepsCoherentIff(db: Db, m: Matcher, u: int, rule: Exclusion, entries: Entries)
    requires AcceptsRule(db, rule) && !OwnsCategory(db, u, rule.category) && Coherent(db, m, entries)
    ensures var op := CreateExclusion(u, rule);
      Coherent(Apply(db, m, op), m, Kept(db, m, op, entries)) <==>
      forall v | v in entries && OwnsCategory(db, v, rule.category) :: Harmless(m, ViewOf(db, v), rule)
  {
    var op := CreateExclusion(u, rule);
    var after := Apply(db, m, op);
    hide Apply, Invalidates, FreshCounts, CountsFrom, ViewOf, AcceptsRule, AddRule, WithRule, Harmless;
    forall v ensures Invalidates(db, m, op, v) <==> v == u
      ensures FreshCounts(db, m, v) == CountsFrom(ViewOf(db, v), m)
      ensures FreshCounts(after, m, v) == FreshCounts(db, m, v) <==>
              (OwnsCategory(db, v, rule.category) ==> Harmless(m, ViewOf(db, v), rule))
    {
      OnlyActorDropped(db, m, u, rule, v);
      ForeignRule(db, m, u, rule, v);
      FreshCountsFromView(db, m, v);
      FreshCountsFromView(after, m, v);
      RuleKeepsCountsIff(m, ViewOf(db, v), rule);
    }
  }

  const SPAM: Article := Article(1, 1, "g", Body("spam", None, None, None, None, None, None), 0, false, false)

  /** User 7 has one unread article, filed under one category, and no rules. */
  const OWNER_DB: Db :=
    Db([7, 8], map[1 := Feed(Some(7), false)], 2, [SPAM], 2, map[1 := Category(Some(7), "c", Some(0), None)],
       [FeedCategory(1, 1)], [], [], map[], [], map[], map[])

  const RULE: Exclusion := Exclusion(1, 1, "title", "spam", false)

  lemma OwnerCounts(m: Matcher)
    ensures CountsFrom(ViewOf(OWNER_DB, 7), m).unread == 1
    ensures CountsFrom(WithRule(ViewOf(OWNER_DB, 7), RULE), m).unread == 0
  {
    var view := ViewOf(OWNER_DB, 7);
    assert view.rows == [SPAM] && view.mappings == [FeedCategory(1, 1)] && view.rules == [];
    var unread := Filter(view.rows, (a: Article) => !a.isRead);
    assert unread == [SPAM];
    SpamIsCaught(m);
    FilterKeepsNone(unread, (a: Article) => !CaughtBy(m, WithRule(view, RULE).rules, view.mappings, a));
    hide GroupCount, CaughtBy;
  }

  lemma SpamIsCaught(m: Matcher)
    ensures CaughtBy(m, [] + [RULE], [FeedCategory(1, 1)], SPAM)
  {
    assert [] + [RULE] == [RULE];
    CategoriesInMappings([FeedCategory(1, 1)], 1, 1);
    assert RulesIn([RULE], 1) == [RULE];
    assert m.lower("spam")[0..] == m.lower("spam");
    assert RuleMatches(m, RULE, SPAM);
    assert RULE in [RULE];
  }

  lemma SpamIsHit(m: Matcher)
    ensures !Harmless(m, ViewOf(OWNER_DB, 7), RULE)
  {
    OwnerCounts(m);
    RuleKeepsCountsIff(m, ViewOf(OWNER_DB, 7), RULE);
  }

  /** User 8 adds a rule to user 7's category: 7 keeps being told of the article the rule excludes. */
  lemma ForeignRuleGoesStale(m: Matcher)
    ensures var op := CreateExclusion(8, RULE);
      var entries := map[7 := Entry(FreshCounts(OWNER_DB, m, 7), 0)];
      AcceptsRule(OWNER_DB, RULE) && Coherent(OWNER_DB, m, entries) &&
      !Coherent(Apply(OWNER_DB, m, op), m, Kept(OWNER_DB, m, op, entries))
  {
    hide FreshCounts, Harmless, ViewOf, Apply, Kept, AcceptsRule, OwnsCategory;
    var entries := map[7 := Entry(FreshCounts(OWNER_DB, m, 7), 0)];
    SpamIsHit(m);
    RuleIsForeign();
    assert 7 in entries;
    ForeignRuleKeepsCoherentIff(OWNER_DB, m, 8, RULE, entries);
  }

  lemma RuleIsForeign()
    ensures AcceptsRule(OWNER_DB, RULE) && OwnsCategory(OWNER_DB, 7, RULE.category)
    ensures forall v | v != 7 :: !OwnsCategory(OWNER_DB, v, RULE.category)
  {
  }

  /** The same article, its feed filed under two of user 7's categories. */
  const TWICE_FILED_DB: Db :=
    OWNER_DB.(categories := map[1 := Category(Some(7), "c", Some(0), None), 2 := Category(Some(7), "d", Some(1), None)],
              feedCategories := [FeedCategory(1, 1), FeedCategory(1, 2)])

  const AUTHOR_RULE: Exclusion := Exclusion(1, 1, "author", "spam", false)

  lemma FirstRuleIsNotHarmless(m: Matcher)
    ensures !Harmless(m, ViewOf(TWICE_FILED_DB, 7), AUTHOR_RULE)
  {
    var view := ViewOf(TWICE_FILED_DB, 7);
    var unread := Filter(view.rows, (a: Article) => !a.isRead);
    assert view.rules == [] && view.mappings == [FeedCategory(1, 1), FeedCategory(1, 2)] && view.rows == [SPAM];
    assert SPAM in unread;
    CategoriesInSnoc([FeedCategory(1, 1)], FeedCategory(1, 2));
    assert [FeedCategory(1, 1)] + [FeedCategory(1, 2)] == view.mappings;
    hide CaughtBy, Hit;
  }

  lemma AuthorRuleIsForeign(m: Matcher)
    ensures AcceptsRule(TWICE_FILED_DB, AUTHOR_RULE) && OwnsCategory(TWICE_FILED_DB, 7, AUTHOR_RULE.category)
    ensures !OwnsCategory(TWICE_FILED_DB, 8, AUTHOR_RULE.category) && !RuleMatches(m, AUTHOR_RULE, SPAM)
  {
  }

  /** The owner's first rule goes stale even when it matches nothing: from then on the owner's categories
      are counted on the filtered path, which files an article under one category only. */
  lemma ForeignFirstRuleGoesStale(m: Matcher)
    ensures var op := CreateExclusion(8, AUTHOR_RULE);
      var entries := map[7 := Entry(FreshCounts(TWICE_FILED_DB, m, 7), 0)];
      AcceptsRule(TWICE_FILED_DB, AUTHOR_RULE) && !RuleMatches(m, AUTHOR_RULE, SPAM) &&
      Coherent(TWICE_FILED_DB, m, entries) &&
      !Coherent(Apply(TWICE_FILED_DB, m, op), m, Kept(TWICE_FILED_DB, m, op, entries))
  {
    hide FreshCounts, Harmless, ViewOf, Apply, Kept, AcceptsRule, OwnsCategory, RuleMatches;
    var entries := map[7 := Entry(FreshCounts(TWICE_FILED_DB, m, 7), 0)];
    FirstRuleIsNotHarmless(m);
    AuthorRuleIsForeign(m);
    assert 7 in entries;
    ForeignRuleKeepsCoherentIff(TWICE_FILED_DB, m, 8, AUTHOR_RULE, entries);
  }

  // ----- A rule on one's own category, with another user's feed in it

  function WithNewRule(db: Db, rule: Exclusion): Db {
    db.(exclusions := db.exclusions + [rule])
  }

  /** Some unread article that `user` is shown is filed under the category and matched by one of its rules. */
  ghost predicate MarksForeign(db: Db, m: Matcher, u: int, rule: Exclusion, user: int) {
    exists a | a in db.articles ::
      Shows(db, m, user, a) && MarkedBy(WithNewRule(db, rule), m, rule.category, u, a)
  }

  lemma ShowsIgnoresForeignRule(db: Db, m: Matcher, rule: Exclusion, user: int, a: Article)
    requires !OwnsCategory(db, user, rule.category)
    ensures Shows(WithNewRule(db, rule), m, user, a) <==> Shows(db, m, user, a)
  {
    hide RuleMatches, Owns;
    var other := WithNewRule(db, rule);
    if Excluded(other, m, user, a) {
      var fc, e :| fc in other.feedCategories && e in other.exclusions && fc.feed == a.feed &&
        Owns(other.feeds, user, a.feed) && e.category == fc.category && OwnsCategory(other, user, e.category) &&
        RuleMatches(m, e, a);
      assert e in db.exclusions;
    }
    assert forall e | e in db.exclusions :: e in other.exclusions;
  }

  lemma MarkCategoryFlags(db: Db, m: Matcher, category: int, u: int)
    ensures MarkCategory(db, m, category, u) == db.(articles :=
              Flagged(db.articles, (a: Article) => MarkedBy(db, m, category, u, a), true))
  {
    hide AnyRuleMatches;
    var marked := (a: Article) => MarkedBy(db, m, category, u, a);
    assert MarkCategory(db, m, category, u).articles == Flagged(db.articles, marked, true);
  }

  lemma MarkedChangesCountsIff(db: Db, m: Matcher, category: int, u: int, user: int)
    ensures FreshCounts(MarkCategory(db, m, category, u), m, user) == FreshCounts(db, m, user) <==>
            forall a | a in db.articles && Shows(db, m, user, a) :: !MarkedBy(db, m, category, u, a)
  {
    hide FreshCounts, MarkCategory, Shows, Flagged, AnyRuleMatches;
    MarkCategoryFlags(db, m, category, u);
    FlagKeepsCountsIff(db, m, (a: Article) => MarkedBy(db, m, category, u, a), true, user);
  }

  lemma OwnRuleKeepsCountsIff(db: Db, m: Matcher, u: int, rule: Exclusion, user: int)
    requires AcceptsRule(db, rule) && OwnsCategory(db, u, rule.category) && user != u
    ensures FreshCounts(AddRule(db, m, u, rule), m, user) == FreshCounts(db, m, user) <==>
            !MarksForeign(db, m, u, rule, user)
  {
    var other := WithNewRule(db, rule);
    assert AddRule(db, m, u, rule) == MarkCategory(other, m, rule.category, u);
    hide FreshCounts, AddRule, MarkCategory, MarkedBy, AcceptsRule, CountsFrom, ViewOf, Shows;
    RuleAppended(db, rule, user);
    assert ViewOf(other, user) == ViewOf(db, user) by {
      assert OwnRules(db.exclusions, db.categories, user) + [] == OwnRules(db.exclusions, db.categories, user);
      ViewKeepsRules(db, user);
    }
    FreshCountsFromView(db, m, user);
    FreshCountsFromView(other, m, user);
    MarkedChangesCountsIff(other, m, rule.category, u, user);
    forall a ensures Shows(other, m, user, a) <==> Shows(db, m, user, a) {
      ShowsIgnoresForeignRule(db, m, rule, user, a);
    }
  }

  lemma ViewKeepsRules(db: Db, user: int)
    ensures ViewOf(db, user).rules == OwnRules(db.exclusions, db.categories, user)
  {
  }

  /** A rule on one's own category marks articles read in all feeds filed under it, and drops the acting
      user's entry only. The cache stays coherent if and only if no other user with a cached entry is
      shown an article that is marked. */
  lemma OwnRuleKeepsCoherentIff(db: Db, m: Matcher, u: int, rule: Exclusion, entries: Entries)
    requires AcceptsRule(db, rule) && OwnsCategory(db, u, rule.category) && Coherent(db, m, entries)
    ensures var op := CreateExclusion(u, rule);
      Coherent(Apply(db, m, op), m, Kept(db, m, op, entries)) <==>
      forall v | v in entries && v != u :: !MarksForeign(db, m, u, rule, v)
  {
    var op := CreateExclusion(u, rule);
    hide Apply, Invalidates, FreshCounts, AcceptsRule, OwnsCategory, MarksForeign, AddRule;
    forall v ensures Invalidates(db, m, op, v) <==> v == u
      ensures v != u ==>
              (FreshCounts(Apply(db, m, op), m, v) == FreshCounts(db, m, v) <==> !MarksForeign(db, m, u, rule, v))
    {
      OnlyActorDropped(db, m, u, rule, v);
      if v != u {
        OwnRuleKeepsCountsIff(db, m, u, rule, v);
      }
    }
  }

  /** User 7's feed, filed under user 8's category. */
  const FOREIGN_FILED_DB: Db := OWNER_DB.(categories := map[1 := Category(Some(8), "c", Some(0), None)])

  lemma SpamIsMarked(m: Matcher)
    ensures AcceptsRule(FOREIGN_FILED_DB, RULE) && OwnsCategory(FOREIGN_FILED_DB, 8, RULE.category)
    ensures MarksForeign(FOREIGN_FILED_DB, m, 8, RULE, 7)
  {
    var db, other := FOREIGN_FILED_DB, WithNewRule(FOREIGN_FILED_DB, RULE);
    assert m.lower("spam")[0..] == m.lower("spam");
    assert RuleMatches(m, RULE, SPAM);
    assert other.exclusions == [RULE] && RULE in other.exclusions;
    assert RULE in ExclusionsOf(other, 1, Some(8));
    assert FeedCategory(1, 1) in other.feedCategories;
    assert MarkedBy(other, m, 1, 8, SPAM);
    assert SPAM in db.articles && db.exclusions == [];
    assert !Excluded(db, m, 7, SPAM);
  }

  /** User 8's rule marks user 7's article read, and 7 keeps being told of an unread article. */
  lemma ForeignFilingGoesStale(m: Matcher)
    ensures var op := CreateExclusion(8, RULE);
      var entries := map[7 := Entry(FreshCounts(FOREIGN_FILED_DB, m, 7), 0)];
      AcceptsRule(FOREIGN_FILED_DB, RULE) && Coherent(FOREIGN_FILED_DB, m, entries) &&
      !Coherent(Apply(FOREIGN_FILED_DB, m, op), m, Kept(FOREIGN_FILED_DB, m, op, entries))
  {
    hide FreshCounts, MarksForeign, Apply, Kept, AcceptsRule, OwnsCategory;
    var entries := map[7 := Entry(FreshCounts(FOREIGN_FILED_DB, m, 7), 0)];
    SpamIsMarked(m);
    assert 7 in entries;
    OwnRuleKeepsCoherentIff(FOREIGN_FILED_DB, m, 8, RULE, entries);
  }

  // ----- Queueing another user's article

  /** Deleting a feed takes the queue entries of its articles with it, whoever queued them. Another
      user's queue count changes if and only if such an entry was theirs. */
  lemma DeleteFeedShortensQueueIff(db: Db, feed: int, user: int)
    ensures var after := Retention.RemoveFeed(db, feed);
      && QueueCount(after, user) <= QueueCount(db, user)
      && (QueueCount(after, user) == QueueCount(db, user) <==>
          forall e | e in db.queue && e.user == user :: HasRow(after, e.article))
  {
    var after := Retention.RemoveFeed(db, feed);
    var own := (e: QueueEntry) => e.user == user;
    var stays := (e: QueueEntry) => HasRow(after, e.article);
    QueueAfterDelete(db, feed);
    hide HasRow, Retention.RemoveFeed;
    FilterCommutes(db.queue, stays, own);
    var mine := Filter(db.queue, own);
    assert QueueCount(after, user) == |Filter(mine, stays)|;
    if |Filter(mine, stays)| == |mine| {
      FilterSameLength(mine, stays);
      forall e | e in db.queue && e.user == user ensures HasRow(after, e.article) {
        assert own(e) && e in mine && e in Filter(mine, stays) && stays(e);
      }
    }
    if forall e | e in db.queue && e.user == user :: HasRow(after, e.article) {
      FilterKeepsAll(mine, stays);
    }
  }

  lemma QueueAlone(m: Matcher, view: View, queue: seq<QueueEntry>)
    ensures CountsFrom(view.(queue := queue), m) == CountsFrom(view, m) <==> |queue| == |view.queue|
  {
    hide CaughtBy, GroupCount, JoinCategories, FirstCategories;
  }

  /** Deleting a feed changes the counts of a user who does not own it if and only if that user has one of
      its articles queued. */
  lemma DeleteFeedKeepsCountsIff(db: Db, m: Matcher, feed: int, user: int)
    requires Linked(db) && !Owns(db.feeds, user, feed)
    ensures FreshCounts(Retention.RemoveFeed(db, feed), m, user) == FreshCounts(db, m, user) <==>
            !QueuedFrom(db, user, feed)
  {
    var after := Retention.RemoveFeed(db, feed);
    hide Linked, Owns, FreshCounts, CountsFrom, Retention.RemoveFeed, HasRow, QueuedFrom;
    hide OwnRows, OwnMappings, OwnRules;
    OtherViewAfterDelete(db, feed, user);
    QueueAlone(m, ViewOf(db, user), OwnQueue(after.queue, user));
    FreshCountsFromView(db, m, user);
    FreshCountsFromView(after, m, user);
    EntriesStayIff(db, feed, user);
    DeleteFeedShortensQueueIff(db, feed, user);
  }

  lemma OnlyDeleterDropped(db: Db, m: Matcher, u: int, feed: int, user: int)
    requires Owns(db.feeds, u, feed)
    ensures Invalidates(db, m, DeleteFeed(u, feed), user) <==> user == u
    ensures Apply(db, m, DeleteFeed(u, feed)) == Retention.RemoveFeed(db, feed)
    ensures Owns(db.feeds, user, feed) <==> user == u
  {
    hide Retention.RemoveFeed;
  }

  /** When the owner deletes a feed, the cache stays coherent if and only if no other user with a cached
      entry has one of its articles queued. */
  lemma DeleteFeedKeepsCoherentIff(db: Db, m: Matcher, u: int, feed: int, entries: Entries)
    requires Linked(db) && Owns(db.feeds, u, feed) && Coherent(db, m, entries)
    ensures var op := DeleteFeed(u, feed);
      Coherent(Apply(db, m, op), m, Kept(db, m, op, entries)) <==>
      forall v | v in entries && v != u :: !QueuedFrom(db, v, feed)
  {
    var op := DeleteFeed(u, feed);
    hide Apply, Invalidates, FreshCounts, Linked, Owns, QueuedFrom, Retention.RemoveFeed;
    forall v ensures Invalidates(db, m, op, v) <==> v == u
      ensures v != u ==>
              (FreshCounts(Apply(db, m, op), m, v) == FreshCounts(db, m, v) <==> !QueuedFrom(db, v, feed))
    {
      OnlyDeleterDropped(db, m, u, feed, v);
      if v != u {
        DeleteFeedKeepsCountsIff(db, m, feed, v);
      }
    }
  }

  const QUEUED_DB: Db := OWNER_DB.(queue := [QueueEntry(8, 1)])

  lemma ForeignEntryIsAccepted(m: Matcher)
    ensures Apply(OWNER_DB, m, ToggleQueue(8, 1)) == QUEUED_DB
  {
    assert SPAM in OWNER_DB.articles && SPAM.id == 1;
  }

  lemma EntryGoesWithTheFeed()
    ensures Linked(QUEUED_DB) && Owns(QUEUED_DB.feeds, 7, 1) && QueuedFrom(QUEUED_DB, 8, 1)
  {
    assert SPAM in QUEUED_DB.articles && QueueEntry(8, 1) in QUEUED_DB.queue;
  }

  /** User 8 queues user 7's article, is told of one queued article, and 7 deletes the feed: only 7's
      entry is dropped, and 8 keeps being told of an article that is gone. */
  lemma ForeignQueueEntryGoesStale(m: Matcher)
    ensures Apply(OWNER_DB, m, ToggleQueue(8, 1)) == QUEUED_DB
    ensures var op, entries := DeleteFeed(7, 1), map[8 := Entry(FreshCounts(QUEUED_DB, m, 8), 0)];
      Coherent(QUEUED_DB, m, entries) && !Coherent(Apply(QUEUED_DB, m, op), m, Kept(QUEUED_DB, m, op, entries))
  {
    ForeignEntryIsAccepted(m);
    EntryGoesWithTheFeed();
    hide Linked, Owns, QueuedFrom, FreshCounts, Apply, Kept;
    var entries := map[8 := Entry(FreshCounts(QUEUED_DB, m, 8), 0)];
    assert 8 in entries;
    DeleteFeedKeepsCoherentIff(QUEUED_DB, m, 7, 1, entries);
  }

  // ----- Any request, whoever makes it

  /** What a request must meet so that the cache stays coherent: a rule on a category of somebody else is
      harmless to its owner, one on a category of one's own marks no article that another user is shown,
      and nobody else has queued an article of a feed that goes. */
  ghost predicate KeepsCached(db: Db, m: Matcher, op: Op, entries: Entries) {
    match op
    case CreateExclusion(u, rule) =>
      AcceptsRule(db, rule) ==>
        if OwnsCategory(db, u, rule.category)
        then forall v | v in entries && v != u :: !MarksForeign(db, m, u, rule, v)
        else forall v | v in entries && OwnsCategory(db, v, rule.category) :: Harmless(m, ViewOf(db, v), rule)
    case DeleteFeed(u, feed) =>
      Owns(db.feeds, u, feed) ==> forall v | v in entries && v != u :: !QueuedFrom(db, v, feed)
    case _ => true
  }

  lemma RefusedRule(db: Db, m: Matcher, u: int, rule: Exclusion, entries: Entries)
    requires !AcceptsRule(db, rule)
    ensures var op := CreateExclusion(u, rule); Apply(db, m, op) == db && Kept(db, m, op, entries) == entries
  {
    hide AcceptsRule;
  }

  /** Two of the fifteen requests can make a coherent cache stale, on exactly these conditions. */
  lemma RequestKeepsCoherentIff(db: Db, m: Matcher, op: Op, entries: Entries)
    requires Linked(db) && Coherent(db, m, entries)
    ensures Coherent(Apply(db, m, op), m, Kept(db, m, op, entries)) <==> KeepsCached(db, m, op, entries)
  {
    hide Linked, Coherent, Apply, AcceptsRule, OwnsCategory, Owns, Harmless, MarksForeign, QueuedFrom, ViewOf;
    if op.CreateExclusion? {
      if !AcceptsRule(db, op.rule) {
        RefusedRule(db, m, op.user, op.rule, entries);
      } else if OwnsCategory(db, op.user, op.rule.category) {
        OwnRuleKeepsCoherentIff(db, m, op.user, op.rule, entries);
      } else {
        ForeignRuleKeepsCoherentIff(db, m, op.user, op.rule, entries);
      }
    } else if op.DeleteFeed? && Owns(db.feeds, op.user, op.feed) {
      DeleteFeedKeepsCoherentIff(db, m, op.user, op.feed, entries);
    } else {
      DoKeepsCoherent(db, m, op, entries);
    }
  }

  ghost predicate CoherentAt(s: Server, m: Matcher, ttl: int, requests: seq<Request>, i: nat)
    requires i <= |requests|
  {
    Coherent(Run(s, m, ttl, requests[..i]).db, m, Run(s, m, ttl, requests[..i]).entries)
  }

  ghost predicate KeepsCachedAt(s: Server, m: Matcher, ttl: int, requests: seq<Request>, i: nat)
    requires i < |requests|
  {
    var before := Run(s, m, ttl, requests[..i]);
    requests[i].Do? ==> KeepsCached(before.db, m, requests[i].op, before.entries)
  }

  lemma ServeKeepsCoherentIff(s: Server, m: Matcher, ttl: int, r: Request)
    requires Linked(s.db) && Coherent(s.db, m, s.entries) && !r.Write?
    ensures var after := Serve(s, m, ttl, r);
      Coherent(after.db, m, after.entries) <==> (r.Do? ==> KeepsCached(s.db, m, r.op, s.entries))
  {
    hide Linked, Apply, Invalidates, FreshCounts, KeepsCached;
    if r.Do? {
      hide Coherent;
      RequestKeepsCoherentIff(s.db, m, r.op, s.entries);
    }
  }

  lemma {:induction false} RunKeepsLinked(s: Server, m: Matcher, ttl: int, requests: seq<Request>)
    requires Linked(s.db) && forall r | r in requests :: !r.Write?
    ensures Linked(Run(s, m, ttl, requests).db)
  {
    hide Linked, Apply, FreshCounts;
    if requests != [] {
      var init, last := requests[..|requests| - 1], requests[|requests| - 1];
      assert last in requests;
      RunKeepsLinked(s, m, ttl, init);
      if last.Do? {
        ApplyKeepsLinked(Run(s, m, ttl, init).db, m, last.op);
      }
    }
  }

  lemma PrefixesSnoc(s: Server, m: Matcher, ttl: int, init: seq<Request>, last: Request)
    ensures forall i | 0 <= i <= |init| :: CoherentAt(s, m, ttl, init + [last], i) <==> CoherentAt(s, m, ttl, init, i)
    ensures forall i | 0 <= i < |init| ::
              KeepsCachedAt(s, m, ttl, init + [last], i) <==> KeepsCachedAt(s, m, ttl, init, i)
  {
    hide Coherent, KeepsCached, Run;
    assert forall i | 0 <= i <= |init| :: (init + [last])[..i] == init[..i];
  }

  lemma LastStep(s: Server, m: Matcher, ttl: int, init: seq<Request>, last: Request)
    requires Linked(s.db) && (forall r | r in init :: !r.Write?) && !last.Write?
    requires CoherentAt(s, m, ttl, init + [last], |init|)
    ensures CoherentAt(s, m, ttl, init + [last], |init| + 1) <==> KeepsCachedAt(s, m, ttl, init + [last], |init|)
  {
    hide Linked, Coherent, KeepsCached, Run, Serve;
    assert (init + [last])[..|init|] == init && (init + [last])[..|init| + 1] == init + [last];
    RunKeepsLinked(s, m, ttl, init);
    RunSnoc(s, m, ttl, init, last);
    ServeKeepsCoherentIff(Run(s, m, ttl, init), m, ttl, last);
  }

  /** With no premise on who asks for what: the cache is coherent all along a serialized run of the
      invalidating requests if and only if each of them meets its condition when it is made. */
  lemma {:induction false} RunIsCoherentIff(s: Server, m: Matcher, ttl: int, requests: seq<Request>)
    requires Linked(s.db) && s.entries == map[] && forall r | r in requests :: !r.Write?
    ensures (forall i | 0 <= i <= |requests| :: CoherentAt(s, m, ttl, requests, i)) <==>
            (forall i | 0 <= i < |requests| :: KeepsCachedAt(s, m, ttl, requests, i))
  {
    hide Linked, KeepsCachedAt, CoherentAt;
    if requests == [] {
      NothingCached(s, m, ttl);
    } else {
      var init, last := requests[..|requests| - 1], requests[|requests| - 1];
      assert requests == init + [last] && last in requests;
      RunIsCoherentIff(s, m, ttl, init);
      PrefixesSnoc(s, m, ttl, init, last);
      if CoherentAt(s, m, ttl, requests, |init|) {
        LastStep(s, m, ttl, init, last);
      }
    }
  }

  lemma NothingCached(s: Server, m: Matcher, ttl: int)
    requires s.entries == map[]
    ensures CoherentAt(s, m, ttl, [], 0)
  {
    hide FreshCounts;
  }
}
