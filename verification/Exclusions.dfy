/** Folder exclusion rules (srv/filter.go): grouped filtering of article lists and
    automatic marking of excluded articles. Regular expressions and case folding are
    parameters of the model. */
module Exclusions {
  import opened Options
  import opened Sequences
  import opened Tables
  import opened ArticleStore

  /** `regex(pattern, text)` is false for a pattern that does not compile. */
  datatype Matcher = Matcher(regex: (string, string) -> bool, lower: string -> string)

  predicate Contains(text: string, part: string) {
    exists i | 0 <= i <= |text| :: part <= text[i..]
  }

  predicate MatchesPattern(m: Matcher, text: string, pattern: string, isRegex: bool) {
    text != "" && pattern != "" &&
    if isRegex then m.regex(pattern, text) else Contains(m.lower(text), m.lower(pattern))
  }

  predicate RuleMatches(m: Matcher, e: Exclusion, a: Article) {
    match e.kind
    case "author" => MatchesPattern(m, a.body.author.GetOr(""), e.pattern, e.isRegex)
    case "title" => MatchesPattern(m, a.body.title, e.pattern, e.isRegex)
    case "keyword" =>
      MatchesPattern(m, a.body.title, e.pattern, e.isRegex) ||
      MatchesPattern(m, a.body.summary.GetOr(""), e.pattern, e.isRegex)
    case _ => false
  }

  predicate AnyRuleMatches(m: Matcher, rules: seq<Exclusion>, a: Article) {
    exists e | e in rules :: RuleMatches(m, e, a)
  }

  // ----- What a rule looks at

  /** The part stands somewhere in the text. */
  ghost predicate Occurs(part: string, text: string) {
    exists before: string, after: string :: text == before + part + after
  }

  /** The texts of an article that a rule of a kind looks at. */
  ghost function Texts(kind: string, a: Article): set<string> {
    (if kind in {"title", "keyword"} then {a.body.title} else {}) +
    (if kind == "keyword" && a.body.summary.Some? then {a.body.summary.value} else {}) +
    (if kind == "author" && a.body.author.Some? then {a.body.author.value} else {})
  }

  lemma ContainsIsOccurs(text: string, part: string)
    ensures Contains(text, part) <==> Occurs(part, text)
  {
    if Contains(text, part) {
      var i :| 0 <= i <= |text| && part <= text[i..];
      assert text == text[..i] + part + text[i + |part|..];
    }
    if Occurs(part, text) {
      var before: string, after: string :| text == before + part + after;
      assert part <= text[|before|..];
    }
  }

  /** A rule matches if and only if one of the texts it looks at is not empty and matches its non-empty
      pattern: as a regular expression, or as a part of the text when case is ignored. */
  lemma RuleMatchesText(m: Matcher, e: Exclusion, a: Article)
    ensures RuleMatches(m, e, a) <==>
      e.pattern != "" && exists text | text in Texts(e.kind, a) ::
        text != "" && if e.isRegex then m.regex(e.pattern, text) else Occurs(m.lower(e.pattern), m.lower(text))
  {
    hide Contains, Occurs;
    forall text ensures Contains(m.lower(text), m.lower(e.pattern)) <==> Occurs(m.lower(e.pattern), m.lower(text)) {
      ContainsIsOccurs(m.lower(text), m.lower(e.pattern));
    }
  }

  /** A keyword rule is the title rule tried on the title and on the summary, an author rule the title rule
      tried on the author, and a title rule depends on the title alone. */
  lemma KindsReduceToTitle(m: Matcher, e: Exclusion, a: Article, b: Article)
    ensures var titled := (text: string) => a.(body := a.body.(title := text));
      && (RuleMatches(m, e.(kind := "keyword"), a) <==>
            || RuleMatches(m, e.(kind := "title"), a)
            || (a.body.summary.Some? && RuleMatches(m, e.(kind := "title"), titled(a.body.summary.value))))
      && (RuleMatches(m, e.(kind := "author"), a) <==>
            a.body.author.Some? && RuleMatches(m, e.(kind := "title"), titled(a.body.author.value)))
      && (a.body.title == b.body.title ==>
            (RuleMatches(m, e.(kind := "title"), a) <==> RuleMatches(m, e.(kind := "title"), b)))
  {
    var rule := e.(kind := "title");
    hide Contains;
  }

  /** shouldExclude: stops at the first matching rule. */
  method ShouldExclude(m: Matcher, a: Article, rules: seq<Exclusion>) returns (excluded: bool)
    ensures excluded == AnyRuleMatches(m, rules, a)
  {
    hide RuleMatches;
    for i := 0 to |rules|
      invariant forall j | 0 <= j < i :: !RuleMatches(m, rules[j], a)
    {
      if RuleMatches(m, rules[i], a) {
        return true;
      }
    }
    return false;
  }

  // ----- Queries

  function AllExclusions(db: Db, user: int): seq<Exclusion> {
    Filter(db.exclusions, (e: Exclusion) => OwnsCategory(db, user, e.category))
  }

  function ExclusionsOf(db: Db, category: int, user: Option<int>): seq<Exclusion> {
    Filter(db.exclusions, (e: Exclusion) =>
      e.category == category && user.Some? && OwnsCategory(db, user.value, category))
  }

  function Mappings(db: Db, user: int): seq<FeedCategory> {
    Filter(db.feedCategories, (fc: FeedCategory) => Owns(db.feeds, user, fc.feed))
  }

  /** The categories a feed is filed under, as their ids. */
  function CategoriesOf(db: Db, feed: int): seq<int> {
    Map(Filter(db.feedCategories, (fc: FeedCategory) => fc.feed == feed && fc.category in db.categories),
        (fc: FeedCategory) => fc.category)
  }

  // ----- The rule, stated naively

  /** Some category of the article's feed, owned by the user, has a rule that matches. */
  ghost predicate Excluded(db: Db, m: Matcher, user: int, a: Article) {
    exists fc, e | fc in db.feedCategories && e in db.exclusions ::
      && fc.feed == a.feed && Owns(db.feeds, user, a.feed)
      && e.category == fc.category && OwnsCategory(db, user, e.category)
      && RuleMatches(m, e, a)
  }

  ghost function Survivors(db: Db, m: Matcher, user: int, articles: seq<Article>): seq<Article> {
    Filter(articles, (a: Article) => !Excluded(db, m, user, a))
  }

  // ----- Grouped filtering

  function RulesIn(rules: seq<Exclusion>, category: int): seq<Exclusion> {
    Filter(rules, (e: Exclusion) => e.category == category)
  }

  function CategoriesIn(mappings: seq<FeedCategory>, feed: int): seq<int> {
    Map(Filter(mappings, (fc: FeedCategory) => fc.feed == feed), (fc: FeedCategory) => fc.category)
  }

  method GroupExclusions(rules: seq<Exclusion>) returns (byCategory: map<int, seq<Exclusion>>)
    ensures forall c :: (if c in byCategory then byCategory[c] else []) == RulesIn(rules, c)
  {
    hide *;
    byCategory := map[];
    RulesInNothing();
    assert rules[..0] == [];
    for i := 0 to |rules|
      invariant forall c :: (if c in byCategory then byCategory[c] else []) == RulesIn(rules[..i], c)
    {
      var e := rules[i];
      assert rules[..i + 1] == rules[..i] + [e];
      RulesInSnoc(rules[..i], e);
      byCategory := byCategory[e.category := (if e.category in byCategory then byCategory[e.category] else []) + [e]];
    }
    assert rules[..|rules|] == rules;
  }

  lemma RulesInNothing()
    ensures forall c :: RulesIn([], c) == []
  {
  }

  lemma RulesInSnoc(rules: seq<Exclusion>, e: Exclusion)
    ensures forall c :: RulesIn(rules + [e], c) ==
                        if e.category == c then RulesIn(rules, c) + [e] else RulesIn(rules, c)
  {
    forall c
      ensures RulesIn(rules + [e], c) == if e.category == c then RulesIn(rules, c) + [e] else RulesIn(rules, c)
    {
      FilterSnoc(rules, e, (x: Exclusion) => x.category == c);
    }
  }

  method GroupMappings(mappings: seq<FeedCategory>) returns (byFeed: map<int, seq<int>>)
    ensures forall f :: (if f in byFeed then byFeed[f] else []) == CategoriesIn(mappings, f)
  {
    hide *;
    byFeed := map[];
    CategoriesInNothing();
    assert mappings[..0] == [];
    for i := 0 to |mappings|
      invariant forall f :: (if f in byFeed then byFeed[f] else []) == CategoriesIn(mappings[..i], f)
    {
      var fc := mappings[i];
      assert mappings[..i + 1] == mappings[..i] + [fc];
      CategoriesInSnoc(mappings[..i], fc);
      byFeed := byFeed[fc.feed := (if fc.feed in byFeed then byFeed[fc.feed] else []) + [fc.category]];
    }
    assert mappings[..|mappings|] == mappings;
  }

  lemma CategoriesInNothing()
    ensures forall f :: CategoriesIn([], f) == []
  {
  }

  lemma CategoriesInSnoc(mappings: seq<FeedCategory>, fc: FeedCategory)
    ensures forall f :: CategoriesIn(mappings + [fc], f) ==
                        if fc.feed == f then CategoriesIn(mappings, f) + [fc.category] else CategoriesIn(mappings, f)
  {
    forall f
      ensures CategoriesIn(mappings + [fc], f) ==
              if fc.feed == f then CategoriesIn(mappings, f) + [fc.category] else CategoriesIn(mappings, f)
    {
      FilterSnoc(mappings, fc, (x: FeedCategory) => x.feed == f);
    }
  }

  /** An article is caught through some category of its feed. */
  predicate CaughtBy(m: Matcher, rules: seq<Exclusion>, mappings: seq<FeedCategory>, a: Article) {
    exists c | c in CategoriesIn(mappings, a.feed) :: AnyRuleMatches(m, RulesIn(rules, c), a)
  }

  /** Going through categories catches exactly the articles the naive rule excludes. */
  lemma GroupedIsNaive(db: Db, m: Matcher, user: int, a: Article)
    ensures CaughtBy(m, AllExclusions(db, user), Mappings(db, user), a) <==> Excluded(db, m, user, a)
  {
    if CaughtBy(m, AllExclusions(db, user), Mappings(db, user), a) {
      CaughtIsExcluded(db, m, user, a);
    }
    if Excluded(db, m, user, a) {
      ExcludedIsCaught(db, m, user, a);
    }
  }

  lemma CategoriesInMappings(mappings: seq<FeedCategory>, feed: int, c: int)
    ensures c in CategoriesIn(mappings, feed) <==> FeedCategory(feed, c) in mappings
  {
    var own := Filter(mappings, (fc: FeedCategory) => fc.feed == feed);
    var cats := CategoriesIn(mappings, feed);
    if c in cats {
      var i :| 0 <= i < |cats| && cats[i] == c;
      assert own[i] in own && own[i] == FeedCategory(feed, c);
    }
    if FeedCategory(feed, c) in mappings {
      assert FeedCategory(feed, c) in own;
      var i :| 0 <= i < |own| && own[i] == FeedCategory(feed, c);
      assert cats[i] == c;
    }
  }

  lemma CaughtIsExcluded(db: Db, m: Matcher, user: int, a: Article)
    requires CaughtBy(m, AllExclusions(db, user), Mappings(db, user), a)
    ensures Excluded(db, m, user, a)
  {
    hide RuleMatches, Owns, OwnsCategory, CategoriesIn;
    var rules, mappings := AllExclusions(db, user), Mappings(db, user);
    var c :| c in CategoriesIn(mappings, a.feed) && AnyRuleMatches(m, RulesIn(rules, c), a);
    var e :| e in RulesIn(rules, c) && RuleMatches(m, e, a);
    CategoriesInMappings(mappings, a.feed, c);
    assert FeedCategory(a.feed, c) in db.feedCategories && e in rules && e in db.exclusions;
  }

  lemma ExcludedIsCaught(db: Db, m: Matcher, user: int, a: Article)
    requires Excluded(db, m, user, a)
    ensures CaughtBy(m, AllExclusions(db, user), Mappings(db, user), a)
  {
    hide RuleMatches, Owns, OwnsCategory, CategoriesIn;
    var fc, e :| fc in db.feedCategories && e in db.exclusions && fc.feed == a.feed && Owns(db.feeds, user, a.feed) &&
      e.category == fc.category && OwnsCategory(db, user, e.category) && RuleMatches(m, e, a);
    assert fc in Mappings(db, user) && fc == FeedCategory(a.feed, fc.category);
    CategoriesInMappings(Mappings(db, user), a.feed, fc.category);
    assert e in AllExclusions(db, user) && e in RulesIn(AllExclusions(db, user), fc.category);
  }

  lemma FilterNothing<T>(p: T -> bool)
    ensures Filter([], p) == []
  {
  }

  lemma NoRulesNoExclusion(db: Db, m: Matcher, user: int, articles: seq<Article>)
    requires AllExclusions(db, user) == []
    ensures Survivors(db, m, user, articles) == articles
  {
    hide RuleMatches;
    forall e | e in db.exclusions
      ensures !OwnsCategory(db, user, e.category)
    {
      assert e !in AllExclusions(db, user);
    }
    FilterKeepsAll(articles, (a: Article) => !Excluded(db, m, user, a));
  }

  /** The inner loop over the categories of an article's feed, left at the first match. */
  method Caught(m: Matcher, a: Article, rules: seq<Exclusion>, mappings: seq<FeedCategory>,
                byCategory: map<int, seq<Exclusion>>, byFeed: map<int, seq<int>>) returns (excluded: bool)
    requires forall c :: (if c in byCategory then byCategory[c] else []) == RulesIn(rules, c)
    requires forall f :: (if f in byFeed then byFeed[f] else []) == CategoriesIn(mappings, f)
    ensures excluded == CaughtBy(m, rules, mappings, a)
  {
    hide RuleMatches, RulesIn, CategoriesIn;
    var cats := if a.feed in byFeed then byFeed[a.feed] else [];
    assert cats == CategoriesIn(mappings, a.feed);
    for k := 0 to |cats|
      invariant forall j | 0 <= j < k :: !AnyRuleMatches(m, RulesIn(rules, cats[j]), a)
    {
      assert RulesIn(rules, cats[k]) == if cats[k] in byCategory then byCategory[cats[k]] else [];
      if cats[k] in byCategory {
        var hit := ShouldExclude(m, a, byCategory[cats[k]]);
        if hit {
          return true;
        }
      }
    }
    return false;
  }

  /** The loop over the articles. */
  method FilterRows(m: Matcher, articles: seq<Article>, rules: seq<Exclusion>, mappings: seq<FeedCategory>,
                    byCategory: map<int, seq<Exclusion>>, byFeed: map<int, seq<int>>) returns (filtered: seq<Article>)
    requires forall c :: (if c in byCategory then byCategory[c] else []) == RulesIn(rules, c)
    requires forall f :: (if f in byFeed then byFeed[f] else []) == CategoriesIn(mappings, f)
    ensures filtered == Filter(articles, (a: Article) => !CaughtBy(m, rules, mappings, a))
  {
    hide *;
    ghost var survives := (a: Article) => !CaughtBy(m, rules, mappings, a);
    filtered := [];
    FilterNothing(survives);
    assert articles[..0] == [];
    for i := 0 to |articles|
      invariant filtered == Filter(articles[..i], survives)
    {
      var a := articles[i];
      assert articles[..i + 1] == articles[..i] + [a];
      FilterSnoc(articles[..i], a, survives);
      var excluded := Caught(m, a, rules, mappings, byCategory, byFeed);
      if !excluded {
        filtered := filtered + [a];
      }
    }
    assert articles[..|articles|] == articles;
  }

  lemma GroupedFilterIsNaive(db: Db, m: Matcher, user: int, articles: seq<Article>)
    ensures Filter(articles, (a: Article) => !CaughtBy(m, AllExclusions(db, user), Mappings(db, user), a)) ==
            Survivors(db, m, user, articles)
  {
    hide CaughtBy, Excluded;
    forall a
      ensures CaughtBy(m, AllExclusions(db, user), Mappings(db, user), a) <==> Excluded(db, m, user, a)
    {
      GroupedIsNaive(db, m, user, a);
    }
    FilterAgrees(articles, (a: Article) => !CaughtBy(m, AllExclusions(db, user), Mappings(db, user), a),
                 (a: Article) => !Excluded(db, m, user, a));
  }

  /** FilterAllUnreadArticles and its variants for other row types: the articles no rule
      matches, in their original order. */
  method FilterAll(db: Db, m: Matcher, articles: seq<Article>, user: int) returns (filtered: seq<Article>)
    ensures filtered == Survivors(db, m, user, articles)
  {
    hide *;
    var rules, mappings := AllExclusions(db, user), Mappings(db, user);
    if |rules| == 0 {
      NoRulesNoExclusion(db, m, user, articles);
      return articles;
    }
    var byCategory := GroupExclusions(rules);
    var byFeed := GroupMappings(mappings);
    filtered := FilterRows(m, articles, rules, mappings, byCategory, byFeed);
    GroupedFilterIsNaive(db, m, user, articles);
  }

  /** The user owns the feed and the rule's category, and the feed is filed under it. */
  ghost predicate AppliesTo(db: Db, user: int, e: Exclusion, feed: int) {
    && FeedCategory(feed, e.category) in db.feedCategories
    && feed in db.feeds && db.feeds[feed].owner == Some(user)
    && e.category in db.categories && db.categories[e.category].owner == Some(user)
  }

  /** What FilterAll drops: the articles with a text that a rule applying to their feed looks at and whose
      pattern it matches. */
  lemma FilterAllDrops(db: Db, m: Matcher, user: int, articles: seq<Article>, a: Article)
    requires a in articles
    ensures a !in Survivors(db, m, user, articles) <==>
      exists e, text | e in db.exclusions && AppliesTo(db, user, e, a.feed) && text in Texts(e.kind, a) ::
        e.pattern != "" && text != "" &&
        if e.isRegex then m.regex(e.pattern, text) else Occurs(m.lower(e.pattern), m.lower(text))
  {
    hide Occurs, RuleMatches, Texts;
    forall e ensures RuleMatches(m, e, a) <==> e.pattern != "" && exists text | text in Texts(e.kind, a) ::
      text != "" && if e.isRegex then m.regex(e.pattern, text) else Occurs(m.lower(e.pattern), m.lower(text))
    {
      RuleMatchesText(m, e, a);
    }
    ExcludedByRule(db, m, user, a);
  }

  lemma ExcludedByRule(db: Db, m: Matcher, user: int, a: Article)
    ensures Excluded(db, m, user, a) <==>
      exists e | e in db.exclusions && AppliesTo(db, user, e, a.feed) :: RuleMatches(m, e, a)
  {
    hide RuleMatches;
    if Excluded(db, m, user, a) {
      var fc, e :| fc in db.feedCategories && e in db.exclusions && fc.feed == a.feed && Owns(db.feeds, user, a.feed) &&
        e.category == fc.category && OwnsCategory(db, user, e.category) && RuleMatches(m, e, a);
      assert fc == FeedCategory(a.feed, e.category);
    }
  }

  const CRYPTO: Article :=
    Article(1, 1, "g", Body("Markets today", None, None, None, Some("crypto prices"), None, None), 0, false, false)

  const KEYWORD: Exclusion := Exclusion(1, 1, "keyword", "crypto", false)

  /** One feed of user 7 under one category with a keyword rule. */
  const KEYWORD_DB: Db :=
    Db([7], map[1 := Feed(Some(7), false)], 2, [CRYPTO], 2, map[1 := Category(Some(7), "c", Some(0), None)],
       [FeedCategory(1, 1)], [KEYWORD], [], map[], [], map[], map[])

  /** A keyword rule hides an article for its summary. */
  lemma KeywordInSummary(m: Matcher)
    requires m.lower("crypto prices") == "crypto prices" && m.lower("crypto") == "crypto"
    ensures Survivors(KEYWORD_DB, m, 7, [CRYPTO]) == []
  {
    assert "crypto prices"[0..][..6] == "crypto";
    assert RuleMatches(m, KEYWORD, CRYPTO);
    assert KEYWORD in KEYWORD_DB.exclusions && FeedCategory(1, 1) in KEYWORD_DB.feedCategories;
    assert Excluded(KEYWORD_DB, m, 7, CRYPTO);
  }

  // ----- Filtering by one category

  /** FilterArticlesByCategory and its variant for listings with read articles. */
  method FilterByCategory(db: Db, m: Matcher, articles: seq<Article>, category: int, user: int)
    returns (filtered: seq<Article>)
    ensures filtered == Filter(articles, (a: Article) => !AnyRuleMatches(m, ExclusionsOf(db, category, Some(user)), a))
  {
    hide *;
    var rules := ExclusionsOf(db, category, Some(user));
    ghost var survives := (a: Article) => !AnyRuleMatches(m, rules, a);
    if |rules| == 0 {
      NoRulesMatchNothing(m, articles);
      return articles;
    }
    filtered := [];
    FilterNothing(survives);
    assert articles[..0] == [];
    for i := 0 to |articles|
      invariant filtered == Filter(articles[..i], survives)
    {
      assert articles[..i + 1] == articles[..i] + [articles[i]];
      FilterSnoc(articles[..i], articles[i], survives);
      var excluded := ShouldExclude(m, articles[i], rules);
      if !excluded {
        filtered := filtered + [articles[i]];
      }
    }
    assert articles[..|articles|] == articles;
  }

  lemma NoRulesMatchNothing(m: Matcher, articles: seq<Article>)
    ensures Filter(articles, (a: Article) => !AnyRuleMatches(m, [], a)) == articles
  {
    FilterKeepsAll(articles, (a: Article) => !AnyRuleMatches(m, [], a));
  }

  /** The rules of the feed's first category alone. */
  function FirstRules(db: Db, feed: int, user: int): seq<Exclusion> {
    var cats := CategoriesOf(db, feed);
    if cats == [] then [] else ExclusionsOf(db, cats[0], Some(user))
  }

  /** FilterArticlesByFeed */
  method FilterByFeed(db: Db, m: Matcher, articles: seq<Article>, feed: int, user: int)
    returns (filtered: seq<Article>)
    ensures filtered == Filter(articles, (a: Article) => !AnyRuleMatches(m, FirstRules(db, feed, user), a))
  {
    hide CategoriesOf, ExclusionsOf, RuleMatches, AnyRuleMatches, Filter;
    var cats := CategoriesOf(db, feed);
    ghost var survives := (a: Article) => !AnyRuleMatches(m, FirstRules(db, feed, user), a);
    if |cats| == 0 {
      NoRulesMatchNothing(m, articles);
      FilterAgrees(articles, (a: Article) => !AnyRuleMatches(m, [], a), survives);
      return articles;
    }
    filtered := FilterByCategory(db, m, articles, cats[0], user);
    FilterAgrees(articles, (a: Article) => !AnyRuleMatches(m, ExclusionsOf(db, cats[0], Some(user)), a), survives);
  }

  /** Some rule of the user in a category of the feed other than the first matches. */
  predicate LaterMatches(db: Db, m: Matcher, feed: int, user: int, a: Article) {
    exists k | 0 < k < |CategoriesOf(db, feed)| ::
      AnyRuleMatches(m, ExclusionsOf(db, CategoriesOf(db, feed)[k], Some(user)), a)
  }

  lemma RuleOfCategoryExcludes(db: Db, m: Matcher, feed: int, user: int, k: nat, a: Article)
    requires Owns(db.feeds, user, feed) && a.feed == feed && k < |CategoriesOf(db, feed)|
    requires AnyRuleMatches(m, ExclusionsOf(db, CategoriesOf(db, feed)[k], Some(user)), a)
    ensures Excluded(db, m, user, a)
  {
    hide RuleMatches, Owns;
    var own := Filter(db.feedCategories, (fc: FeedCategory) => fc.feed == feed && fc.category in db.categories);
    var fc := own[k];
    assert fc in own && fc in db.feedCategories && fc.feed == feed;
    var e :| e in ExclusionsOf(db, fc.category, Some(user)) && RuleMatches(m, e, a);
    assert e in db.exclusions && e.category == fc.category && OwnsCategory(db, user, e.category);
  }

  lemma ExcludedByFirstOrLater(db: Db, m: Matcher, feed: int, user: int, a: Article)
    requires Owns(db.feeds, user, feed) && a.feed == feed
    ensures Excluded(db, m, user, a) <==>
            AnyRuleMatches(m, FirstRules(db, feed, user), a) || LaterMatches(db, m, feed, user, a)
  {
    hide RuleMatches, Owns;
    var cats := CategoriesOf(db, feed);
    if Excluded(db, m, user, a) {
      var fc, e :| fc in db.feedCategories && e in db.exclusions && fc.feed == a.feed && Owns(db.feeds, user, a.feed) &&
        e.category == fc.category && OwnsCategory(db, user, e.category) && RuleMatches(m, e, a);
      var own := Filter(db.feedCategories, (x: FeedCategory) => x.feed == feed && x.category in db.categories);
      assert fc in own;
      var k :| 0 <= k < |own| && own[k] == fc;
      assert cats[k] == fc.category && e in ExclusionsOf(db, cats[k], Some(user));
      assert AnyRuleMatches(m, ExclusionsOf(db, cats[k], Some(user)), a);
    }
    hide CategoriesOf, ExclusionsOf, AnyRuleMatches, Excluded;
    if AnyRuleMatches(m, FirstRules(db, feed, user), a) && cats != [] {
      RuleOfCategoryExcludes(db, m, feed, user, 0, a);
    }
    if LaterMatches(db, m, feed, user, a) {
      var k :| 0 < k < |cats| && AnyRuleMatches(m, ExclusionsOf(db, cats[k], Some(user)), a);
      RuleOfCategoryExcludes(db, m, feed, user, k, a);
    }
    if cats == [] {
      NoRulesMatch(m, a);
    }
  }

  lemma NoRulesMatch(m: Matcher, a: Article)
    ensures !AnyRuleMatches(m, [], a)
  {
  }

  /** A feed's own listing agrees with the filtering elsewhere if and only if the rules of the feed's first
      category match every listed article that the rules of its other categories match. */
  lemma FeedFilterIsNaiveIff(db: Db, m: Matcher, articles: seq<Article>, feed: int, user: int)
    requires Owns(db.feeds, user, feed) && forall a | a in articles :: a.feed == feed
    ensures Filter(articles, (a: Article) => !AnyRuleMatches(m, FirstRules(db, feed, user), a)) ==
              Survivors(db, m, user, articles) <==>
            forall a | a in articles && LaterMatches(db, m, feed, user, a) ::
              AnyRuleMatches(m, FirstRules(db, feed, user), a)
  {
    hide Owns, AnyRuleMatches, FirstRules, LaterMatches, Excluded;
    var first, all := (a: Article) => !AnyRuleMatches(m, FirstRules(db, feed, user), a),
                      (a: Article) => !Excluded(db, m, user, a);
    forall a | a in articles
      ensures Excluded(db, m, user, a) <==>
              AnyRuleMatches(m, FirstRules(db, feed, user), a) || LaterMatches(db, m, feed, user, a)
    {
      ExcludedByFirstOrLater(db, m, feed, user, a);
    }
    if Filter(articles, first) == Filter(articles, all) {
      forall a | a in articles && LaterMatches(db, m, feed, user, a)
        ensures AnyRuleMatches(m, FirstRules(db, feed, user), a)
      {
        assert a !in Filter(articles, all) && a !in Filter(articles, first);
      }
    }
    if forall a | a in articles && LaterMatches(db, m, feed, user, a) ::
         AnyRuleMatches(m, FirstRules(db, feed, user), a) {
      FilterAgrees(articles, first, all);
    }
  }

  const NOISE: Article :=
    Article(1, 1, "g", Body("t", None, Some("noise"), None, None, None, None), 0, false, false)

  /** A feed in two categories, the second of which excludes an author. */
  const TWO_CATEGORIES_DB: Db :=
    Db([7], map[1 := Feed(Some(7), false)], 2, [NOISE], 2,
       map[1 := Category(Some(7), "c", Some(0), None), 2 := Category(Some(7), "d", Some(1), None)],
       [FeedCategory(1, 1), FeedCategory(1, 2)], [Exclusion(1, 2, "author", "noise", false)],
       [], map[], [], map[], map[])

  /** The feed's listing shows an article that every other listing hides. */
  lemma SecondCategoryIsIgnored(m: Matcher)
    ensures Filter([NOISE], (a: Article) => !AnyRuleMatches(m, FirstRules(TWO_CATEGORIES_DB, 1, 7), a)) == [NOISE]
    ensures Survivors(TWO_CATEGORIES_DB, m, 7, [NOISE]) == []
  {
    var db, rule := TWO_CATEGORIES_DB, Exclusion(1, 2, "author", "noise", false);
    assert CategoriesOf(db, 1) == [1, 2] && FirstRules(db, 1, 7) == [];
    assert m.lower("noise")[0..] == m.lower("noise");
    assert RuleMatches(m, rule, NOISE);
    assert FeedCategory(1, 2) in db.feedCategories && rule in db.exclusions;
    assert Excluded(db, m, 7, NOISE);
  }

  // ----- Marking excluded articles read

  function MarkRead(rows: seq<Article>, p: Article -> bool): seq<Article> {
    Map(rows, (a: Article) => if p(a) then a.(isRead := true) else a)
  }

  /** The rules of all the feed's categories, each looked up as its own owner. */
  function FeedRules(db: Db, cats: seq<int>): seq<Exclusion>
    requires forall c | c in cats :: c in db.categories
  {
    if cats == [] then []
    else FeedRules(db, cats[..|cats| - 1]) +
         ExclusionsOf(db, cats[|cats| - 1], db.categories[cats[|cats| - 1]].owner)
  }

  lemma CategoriesExist(db: Db, feed: int)
    ensures forall c | c in CategoriesOf(db, feed) :: c in db.categories
  {
    var own := Filter(db.feedCategories, (fc: FeedCategory) => fc.feed == feed && fc.category in db.categories);
    assert forall i | 0 <= i < |own| :: own[i] in own;
  }

  function AfterMarking(db: Db, m: Matcher, feed: int): Db {
    CategoriesExist(db, feed);
    var rules := FeedRules(db, CategoriesOf(db, feed));
    db.(articles := MarkRead(db.articles, (a: Article) => a.feed == feed && !a.isRead && AnyRuleMatches(m, rules, a)))
  }

  lemma {:induction false} FeedRulesCollectAll(db: Db, cats: seq<int>, c: int, e: Exclusion)
    requires (forall x | x in cats :: x in db.categories) && c in cats
    requires e in ExclusionsOf(db, c, db.categories[c].owner)
    ensures e in FeedRules(db, cats)
  {
    hide ExclusionsOf;
    var init, last := cats[..|cats| - 1], cats[|cats| - 1];
    assert cats == init + [last];
    if c != last {
      FeedRulesCollectAll(db, init, c, e);
    }
  }

  /** The naive rule never catches more than the rules collected for the feed. */
  lemma ExcludedIsCollected(db: Db, m: Matcher, user: int, a: Article)
    requires Excluded(db, m, user, a)
    ensures (CategoriesExist(db, a.feed); AnyRuleMatches(m, FeedRules(db, CategoriesOf(db, a.feed)), a))
  {
    hide RuleMatches;
    CategoriesExist(db, a.feed);
    var fc, e :| fc in db.feedCategories && e in db.exclusions && fc.feed == a.feed && Owns(db.feeds, user, a.feed) &&
      e.category == fc.category && OwnsCategory(db, user, e.category) && RuleMatches(m, e, a);
    var own := Filter(db.feedCategories, (x: FeedCategory) => x.feed == a.feed && x.category in db.categories);
    assert fc in own;
    var i :| 0 <= i < |own| && own[i] == fc;
    assert CategoriesOf(db, a.feed)[i] == fc.category;
    assert e in ExclusionsOf(db, fc.category, db.categories[fc.category].owner);
    FeedRulesCollectAll(db, CategoriesOf(db, a.feed), fc.category, e);
  }

  /** Once a feed's excluded articles are marked read, the global filter drops none of the
      feed's remaining unread articles, whichever user it runs for. */
  lemma MarkedFeedIsNotFiltered(db: Db, m: Matcher, feed: int, user: int, a: Article)
    requires a in AfterMarking(db, m, feed).articles && a.feed == feed && !a.isRead
    ensures !Excluded(AfterMarking(db, m, feed), m, user, a)
  {
    hide RuleMatches;
    CategoriesExist(db, feed);
    var rules := FeedRules(db, CategoriesOf(db, feed));
    var after := AfterMarking(db, m, feed);
    var i :| 0 <= i < |after.articles| && after.articles[i] == a;
    assert a == db.articles[i] && !AnyRuleMatches(m, rules, a);
    ExcludedIgnoresRows(db, after, m, user, a);
    if Excluded(db, m, user, a) {
      ExcludedIsCollected(db, m, user, a);
    }
  }

  lemma {:induction false} FeedRulesAreOf(db: Db, cats: seq<int>, e: Exclusion)
    requires forall x | x in cats :: x in db.categories
    ensures e in FeedRules(db, cats) <==>
            exists c | c in cats :: e in ExclusionsOf(db, c, db.categories[c].owner)
  {
    if cats != [] {
      hide ExclusionsOf;
      var init, last := cats[..|cats| - 1], cats[|cats| - 1];
      assert cats == init + [last];
      FeedRulesAreOf(db, init, e);
    }
  }

  lemma CategoriesOfAre(db: Db, feed: int, c: int)
    ensures c in CategoriesOf(db, feed) <==> FeedCategory(feed, c) in db.feedCategories && c in db.categories
  {
    var own := Filter(db.feedCategories, (fc: FeedCategory) => fc.feed == feed && fc.category in db.categories);
    if c in CategoriesOf(db, feed) {
      var k :| 0 <= k < |own| && CategoriesOf(db, feed)[k] == c;
      assert own[k] in own && own[k] == FeedCategory(feed, c);
    }
    if FeedCategory(feed, c) in db.feedCategories && c in db.categories {
      var k :| 0 <= k < |own| && own[k] == FeedCategory(feed, c);
      assert CategoriesOf(db, feed)[k] == c;
    }
  }

  lemma FeedRulesByColumns(db: Db, feed: int, e: Exclusion)
    ensures (CategoriesExist(db, feed); e in FeedRules(db, CategoriesOf(db, feed))) <==>
      && e in db.exclusions && FeedCategory(feed, e.category) in db.feedCategories
      && e.category in db.categories && db.categories[e.category].owner.Some?
  {
    CategoriesExist(db, feed);
    FeedRulesAreOf(db, CategoriesOf(db, feed), e);
    forall c ensures c in CategoriesOf(db, feed) <==> FeedCategory(feed, c) in db.feedCategories && c in db.categories {
      CategoriesOfAre(db, feed, c);
    }
    hide CategoriesOf, FeedRules;
  }

  /** Marking a feed reads its articles that some rule of a category it is filed under matches, where the
      category has an owner; it changes no other column and no other row. */
  lemma MarkingFeedMarks(db: Db, m: Matcher, feed: int)
    ensures var after := AfterMarking(db, m, feed);
      && after.(articles := db.articles) == db && |after.articles| == |db.articles|
      && forall i | 0 <= i < |db.articles| ::
           var a, b := db.articles[i], after.articles[i];
           && b.(isRead := a.isRead) == a
           && (b.isRead <==> a.isRead || (a.feed == feed && exists e | e in db.exclusions ::
                && FeedCategory(feed, e.category) in db.feedCategories && e.category in db.categories
                && db.categories[e.category].owner.Some? && RuleMatches(m, e, a)))
  {
    hide RuleMatches;
    CategoriesExist(db, feed);
    var rules := FeedRules(db, CategoriesOf(db, feed));
    forall e ensures e in rules <==>
      && e in db.exclusions && FeedCategory(feed, e.category) in db.feedCategories
      && e.category in db.categories && db.categories[e.category].owner.Some?
    {
      FeedRulesByColumns(db, feed, e);
    }
    AfterMarkingIs(db, m, feed, rules);
    hide AfterMarking, FeedRules, CategoriesOf;
  }

  lemma ExcludedIgnoresRows(db: Db, other: Db, m: Matcher, user: int, a: Article)
    requires other == db.(articles := other.articles)
    ensures Excluded(other, m, user, a) <==> Excluded(db, m, user, a)
  {
    hide RuleMatches;
  }

  /** Marking by id the rows that satisfy `p`, then one more row, marks exactly those. */
  lemma MarkOneMore(rows: seq<Article>, p: Article -> bool, q: Article -> bool, a: Article)
    requires KeysApart(rows) && a in rows
    requires forall x | x in rows :: q(x) <==> p(x) || x == a
    ensures MarkRead(MarkRead(rows, p), (x: Article) => x.id == a.id) == MarkRead(rows, q)
  {
    var once, twice := MarkRead(rows, p), MarkRead(MarkRead(rows, p), (x: Article) => x.id == a.id);
    var k :| 0 <= k < |rows| && rows[k] == a;
    forall i | 0 <= i < |rows|
      ensures twice[i] == MarkRead(rows, q)[i]
    {
      assert rows[i] in rows && once[i].id == rows[i].id;
      assert rows[i].id == a.id <==> i == k;
    }
  }

  lemma MarkNothing(rows: seq<Article>, p: Article -> bool)
    requires forall a | a in rows :: !p(a)
    ensures MarkRead(rows, p) == rows
  {
    assert forall i | 0 <= i < |rows| :: rows[i] in rows;
  }

  lemma MarkAgrees(rows: seq<Article>, p: Article -> bool, q: Article -> bool)
    requires forall a | a in rows :: p(a) == q(a)
    ensures MarkRead(rows, p) == MarkRead(rows, q)
  {
    assert forall i | 0 <= i < |rows| :: rows[i] in rows;
  }

  class Marker {
    var db: Db

    /** MarkExcludedArticlesReadForFeed */
    method MarkExcludedArticlesReadForFeed(m: Matcher, feed: int)
      requires KeysApart(db.articles)
      modifies this
      ensures db == AfterMarking(old(db), m, feed)
    {
      CategoriesExist(db, feed);
      var cats := CategoriesOf(db, feed);
      var rules := CollectRules(db, cats);
      ghost var marked := (a: Article) => a.feed == feed && !a.isRead && AnyRuleMatches(m, rules, a);
      hide *;
      hide AnyRuleMatches;
      AfterMarkingIs(db, m, feed, rules);
      if |rules| == 0 {
        return;
      }
      MarkRows(m, feed, rules);
    }

    /** The loop over the feed's unread rows, each marked by its id. */
    method MarkRows(m: Matcher, feed: int, rules: seq<Exclusion>)
      requires KeysApart(db.articles)
      modifies this
      ensures db == old(db).(articles := MarkRead(old(db).articles,
                (a: Article) => a.feed == feed && !a.isRead && AnyRuleMatches(m, rules, a)))
    {
      hide *;
      var rows := db.articles;
      var unread := Filter(rows, (a: Article) => a.feed == feed && !a.isRead);
      MarkNothing(rows, (x: Article) => x in unread[..0] && AnyRuleMatches(m, rules, x));
      for i := 0 to |unread|
        invariant db == old(db).(articles := db.articles)
        invariant db.articles == MarkRead(rows, (x: Article) => x in unread[..i] && AnyRuleMatches(m, rules, x))
      {
        var a := unread[i];
        ghost var p := (x: Article) => x in unread[..i] && AnyRuleMatches(m, rules, x);
        ghost var q := (x: Article) => x in unread[..i + 1] && AnyRuleMatches(m, rules, x);
        assert unread[..i + 1] == unread[..i] + [a] && a in unread;
        var excluded := ShouldExclude(m, a, rules);
        if excluded {
          MarkOneMore(rows, p, q, a);
          db := db.(articles := MarkRead(db.articles, (x: Article) => x.id == a.id));
        } else {
          MarkAgrees(rows, p, q);
        }
      }
      assert unread[..|unread|] == unread;
      MarkAgrees(rows, (x: Article) => x in unread[..|unread|] && AnyRuleMatches(m, rules, x),
                 (x: Article) => x.feed == feed && !x.isRead && AnyRuleMatches(m, rules, x));
    }
  }

  lemma AfterMarkingIs(db: Db, m: Matcher, feed: int, rules: seq<Exclusion>)
    requires (CategoriesExist(db, feed); rules == FeedRules(db, CategoriesOf(db, feed)))
    ensures AfterMarking(db, m, feed) == db.(articles := MarkRead(db.articles,
              (a: Article) => a.feed == feed && !a.isRead && AnyRuleMatches(m, rules, a)))
    ensures rules == [] ==> AfterMarking(db, m, feed) == db
  {
    if rules == [] {
      MarkNothing(db.articles, (a: Article) => a.feed == feed && !a.isRead && AnyRuleMatches(m, rules, a));
    }
  }

  /** The loop collecting the rules of all of a feed's categories. */
  method CollectRules(db: Db, cats: seq<int>) returns (rules: seq<Exclusion>)
    requires forall c | c in cats :: c in db.categories
    ensures rules == FeedRules(db, cats)
  {
    hide ExclusionsOf;
    rules := [];
    for i := 0 to |cats|
      invariant rules == FeedRules(db, cats[..i])
    {
      assert cats[..i + 1][..i] == cats[..i];
      assert cats[i] in cats;
      rules := rules + ExclusionsOf(db, cats[i], db.categories[cats[i]].owner);
    }
    assert cats[..|cats|] == cats;
  }
}
