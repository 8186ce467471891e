# FeedReader: a verified model of the article store and what is derived from it

This project models the state FeedReader keeps about articles, and the algorithms that read
it, and proves what they promise over all inputs and all runs.

* **Article lifecycle.** `Tables` holds the rows, `ArticleStore` the upsert of fetched items,
  `Retention` the cleanup that records, deletes and forgets. Main results: a removed article
  does not come back within an exact time bound; seen and stored never overlap.
* **Filtering and counts.** `Exclusions` is the rule filter against its naive meaning, `Counts`
  the fast and the filtered counting paths, `Views` and `Operations` the frame of each request,
  `Flags` and `Effects` what read flags and whole requests do to tables and counts, row by row,
  `CountsCache` the per-user cache,
  `OverlappingFills` the same cache when counts are read and stored at different moments, and
  `ForeignRequests` what requests on other users' things do to it. Main results: the filtered
  path refines the fast one; a serialized run keeps every cached count equal to a fresh
  computation exactly when each request meets a condition on the tables; with other writes
  mixed in an answer is never older than the TTL.
* **Infinite scroll.** `Pagination` is client and server as one transition system with
  arbitrary interference. Main result: exactly-once delivery, and the exact condition under
  which the missing tie-break of the first page breaks it.
* **Category forest.** `CategoryTree` says what a display listing is, `CategoryNodes` builds,
  sorts and flattens linked nodes in place, `CategoryEdits` moves and reorders. Main results:
  the listing is right for arbitrary links, misses exactly what hangs from a cycle, and is
  determined by the rows exactly when sibling keys differ; and when a move makes a cycle.
* **Read queue.** `ReadQueue` is the snapshot-and-remove protocol under overlap, failure and
  replay. Main results: nothing is lost; the exact condition under which it can drain.
* **Algorithms.** `ModuleDepth` (breadth-first depth), `TagBalance` (stack checker against a
  grammar), `Opml` (export and import), `Migrations` (runs under failure), `Utf8`
  (sanitizing), `Consolidate` (merging runs of items). `Options`, `Sequences`,
  `Sets` and `Strings` are shared helpers.

Code that changes things step by step is a class or a method with loops, proved against a
specification function; what is promised is then proved about that function. Times are integer
seconds and regular expressions an uninterpreted match predicate. Where the code and its
comments disagree the code is modelled: `maxDepth` is called the longest chain
(cmd/lint-modules/main.go:120), `sanitizeUTF8` is said to insert a replacement character
(srv/feeds/parser.go:65), later category mappings are said to overwrite (srv/server.go:703),
and setting a parent is said to prevent circular references (srv/server.go:2325), although
moving a category under its own child is accepted.

Check everything with `dafny verify dfyconfig.toml`.

## Model

| member | source | states |
|---|---|---|
| ModuleDepth.MaxDepth | cmd/lint-modules/main.go:121-145 | for every finite graph, cycles and missing entries included, the result is the shortest distance of some reachable module, no reachable module is further away, and no import chain is longer if and only if a climbing numbering up to the result exists |
| ModuleDepth.VisitImports | cmd/lint-modules/main.go:137-142 | the inner loop keeps the breadth-first state: marked modules carry their shortest distance, the queue is level by level, and only unmarked imports are queued |
| ModuleDepth.ShortChainsAreVisited | cmd/lint-modules/main.go:131-143 | once all levels above d are expanded, every import chain of at most d edges ends in a visited module |
| ModuleDepth.NewModuleIsOneFurther | cmd/lint-modules/main.go:137-140 | a module first met from level d has shortest distance exactly d + 1 |
| ModuleDepth.SearchIsComplete | cmd/lint-modules/main.go:131-143 | with the queue empty no reachable module is further than the deepest level |
| ModuleDepth.DepthIsChainLengthIffLayered | cmd/lint-modules/main.go:120-145 | module by module: every chain to every module has its shortest distance as length if and only if every import made by a reachable module leads exactly one level down |
| ModuleDepth.NoLongerChainIffNumbered | cmd/lint-modules/main.go:120-145 | the comment taken literally: no import chain is longer than a depth if and only if the modules can be numbered from 0 to that depth with every import going up |
| ModuleDepth.SearchDepthMissesLongestChain | cmd/lint-modules/main.go:120-145 | a three-module graph with a two-edge chain whose search depth is one |
| TagBalance.CheckTagBalance | cmd/lint-templates/main.go:218-281 | the reports are those of the token-by-token scan, and there are none if and only if the tokens are balanced |
| TagBalance.NoProblemsIffBalanced | cmd/lint-templates/main.go:227-280 | silence is equivalent to derivability in the grammar of nested non-void elements, lone void tags, and elements left open at the end that are html, head or body |
| TagBalance.CleanScanIsTemplate | cmd/lint-templates/main.go:227-268 | a scan without reports has read a well-nested template whose open elements, outermost first, are the stack |
| TagBalance.ScanTemplate | cmd/lint-templates/main.go:227-268 | reading a well-nested template reports nothing and leaves exactly its open elements on the stack |
| TagBalance.ScanContent | cmd/lint-templates/main.go:227-268 | complete content, wherever it stands, leaves stack and reports as they were |
| TagBalance.NothingAtEnd | cmd/lint-templates/main.go:270-278 | nothing is reported at the end exactly when only html, head and body are open |
| TagBalance.LoneTags | cmd/lint-templates/main.go:226-279 | a lone start tag is reported unless it is one of the fourteen elements without end tag or html, head or body; a lone end tag always |
| TagBalance.FindOpenFromTop | cmd/lint-templates/main.go:250-257 | the search finds the innermost open element with the tag, or none |
| TagBalance.ReportUnclosed | cmd/lint-templates/main.go:261-264 | every element above the match is reported once, innermost first |
| Opml.Export | srv/opml/opml.go:115-154 | for some visiting order of the category map the outlines are the export, and extracting them gives back, in every category, the feeds with a URL in their order |
| Opml.GroupByCategory | srv/opml/opml.go:115-125 | the map holds, for every category that occurs, exactly its feeds in input order |
| Opml.RoundTripByCategory | srv/opml/opml.go:63-95 | whatever order the map is visited in, import after export returns each category with its URL-bearing feeds in order |
| Opml.RoundTripIffUrls | srv/opml/opml.go:63-154 | the round trip yields a permutation of the feeds with a URL, and of all feeds if and only if every feed has one |
| Opml.ExtractFolders | srv/opml/opml.go:80-94 | in any visiting order each folder yields its own category and nothing else |
| Opml.ExtractsTheFound | srv/opml/opml.go:63-95 | for any outline tree an import finds exactly the outlines with a URL at any depth, named by title or else text, in the category of their innermost folder, named by text or else title |
| Opml.ExportedShape | srv/opml/opml.go:126-154 | an exported outline is an entry of type rss for a feed, or a folder without type or URL around the entries of its category |
| Opml.SameGroupsSameFeeds | srv/opml/opml.go:115-125 | feeds grouped alike in every category are a permutation of each other |
| Migrations.Database.RunMigrations | db/db.go:55-114 | a run over the sorted matching files has the outcome of the run function, for any failing calls; with foreign keys on before, they are on afterwards when every migration that switched them off restored them on the same pooled connection |
| Migrations.Database.ExecuteMigration | db/db.go:116-154 | a migration is applied and recorded together or not at all; the script runs with foreign keys off if and only if the pool gives it the connection they were switched off on, and they are on again if and only if the restoring call, whose error is dropped, succeeds on that connection |
| Migrations.AllOnAgainIff | db/db.go:126-131 | switching off, then back on, leaves foreign keys on everywhere if and only if the second call succeeds on the connection of the first |
| Migrations.Database.ExecuteInTransaction | db/db.go:133-153 | the transaction is all or nothing at each of its failure points |
| Migrations.StringOrderIsNumeric | db/db.go:61-71 | sorting three-digit names as strings sorts them by number |
| Migrations.ListedInNumericOrder | db/db.go:60-71 | the files considered come in numeric order |
| Migrations.NameIsNumberThenSql | db/db.go:61 | a name matches if and only if it is three digits, a hyphen, anything on one line and .sql, and its number is the one the digits write |
| Migrations.ListedAreMatching | db/db.go:60-71 | the migrations considered are the names of the matching files that are no directories, in string order |
| Migrations.RunAppliesPrefix | db/db.go:96-113 | each run applies a prefix of what was pending, all of it exactly when it succeeds |
| Migrations.EveryRunStaysConsistent | db/db.go:55-154 | over any runs of changing sets of files with distinct numbers, failing anywhere, applied equals recorded and nothing takes effect twice |
| Migrations.AppliedIsPrefix | db/db.go:55-154 | with fixed files the applied scripts are always a prefix of the sorted list, and all of it once a run succeeded |
| Migrations.RunExtendsPrefix | db/db.go:96-113 | each further run extends the applied prefix and succeeds exactly when it completes it |
| Migrations.RerunIsNoOp | db/db.go:105-107 | a run after a successful one changes nothing and cannot fail |
| Migrations.NothingLostIffDistinctNumbers | db/db.go:73-113 | no sequence of failed runs followed by a good one loses a migration if and only if the files have distinct numbers |
| Migrations.SharedNumberIsLost | db/db.go:105-107 | a file that shares its number with an earlier one and fails once is never applied |
| Migrations.SecondFileIsLost | db/db.go:60-107 | 001-a.sql and 001-b.sql, the second failing once: the next run succeeds without it |
| Utf8.SanitizeUtf8 | srv/feeds/parser.go:60-78 | the loop returns what the specification keeps; the remaining length is its measure |
| Utf8.SanitizeTheorem | srv/feeds/parser.go:60-78 | the output is well-formed as in section 4 of RFC 3629, equals the input exactly when that was well-formed, a second pass changes nothing, and any invalid octet makes the output shorter (the comment speaks of a replacement character) |
| Utf8.KeepsExactlyTheChars | srv/feeds/parser.go:67-76 | however the input is cut into characters and stray octets, exactly the characters are kept, in order |
| Utf8.SegmentationExists | srv/feeds/parser.go:67-76 | every input can be cut that way |
| Utf8.DecodeThenEncode | srv/feeds/parser.go:68-75 | a decoded rune is a scalar value whose encoding is the octets read |
| Utf8.CharIsDecoded | srv/feeds/parser.go:68 | wherever the RFC grammar has a character, decoding reads it with the right width |
| Utf8.EncodeThenDecode | srv/feeds/parser.go:68-74 | every scalar value survives encoding and decoding, whatever follows |
| Utf8.ValidIsWellFormed | srv/feeds/parser.go:61-63 | the validity test accepts exactly the octet sequences of the RFC grammar |
| Consolidate.ConsolidateItems | srv/scrapers/json_scraper.go:146-219 | the result has one item per maximal run of equal titles, lone items untouched and longer runs merged |
| Consolidate.MergeItems | srv/scrapers/json_scraper.go:164-213 | a run becomes its first item with combined title and GUID, the first 50 distinct sentences, and the latest date |
| Consolidate.RunsPartition | srv/scrapers/json_scraper.go:153-158 | the runs join up to the input, their lengths add up, and no two neighbours share a title |
| Consolidate.RunsAreUnique | srv/scrapers/json_scraper.go:153-158 | there is only one way to cut the items into maximal runs |
| Consolidate.CollectSentences | srv/scrapers/json_scraper.go:169-192 | the two early-exit loops collect the first 50 of the first occurrences of the trimmed sentences of all texts |
| Consolidate.AddSentences | srv/scrapers/json_scraper.go:178-188 | one text extends the distinct sentences so far, up to the cap |
| Consolidate.CapReached | srv/scrapers/json_scraper.go:185-191 | leaving at the cap loses nothing: later sentences cannot change the first 50 |
| Consolidate.LatestDate | srv/scrapers/json_scraper.go:201-208 | the loop returns the latest date of the run |
| Consolidate.LatestIsMaximum | srv/scrapers/json_scraper.go:201-208 | the date is absent only when no item has one; otherwise it is one of the dates and no date is later |
| Consolidate.SplitSentences | srv/scrapers/json_scraper.go:222-245 | the nested loops return the trimmed non-blank lines in order |
| Consolidate.ParagraphsDoNotMatter | srv/scrapers/json_scraper.go:227-243 | splitting on blank lines first and trimming paragraphs makes no difference to the lines found |
| Consolidate.MergedTextSplitsBack | srv/scrapers/json_scraper.go:169-199 | for every run, splitting the combined text gives back exactly the sentences joined into it |
| Consolidate.TrimIsIdempotent | srv/scrapers/json_scraper.go:179 | trimming a trimmed sentence changes nothing |
| Consolidate.TrimCutsSpaces | srv/scrapers/json_scraper.go:231-238 | trimming cuts off spaces at both ends and leaves none there |
| Consolidate.SplitJoins | srv/scrapers/json_scraper.go:228-236 | the parts joined with the separator are the text |
| Consolidate.DecimalIsValue | srv/scrapers/json_scraper.go:150-215 | a count is written in decimal without leading zeros |
| Consolidate.FirstFifty | srv/scrapers/json_scraper.go:150-215 | the merged sentences are the first fifty distinct ones |
| ArticleStore.Fetcher.StoreItems | srv/feeds/fetcher.go:221-276 | the transaction leaves the specified table and counts exactly the storable items |
| ArticleStore.StoreKeepsRows | db/dbgen/articles.sql.go:51-63 | re-fetching changes no id, fetch time, read or star state, appends only, and keeps one row per feed and GUID |
| ArticleStore.StoreAddsStorableKeys | srv/feeds/fetcher.go:231-269 | the keys afterwards are those before and those of items with a GUID that is not retired |
| ArticleStore.StoredKeysByColumns | srv/feeds/fetcher.go:221-276 | in terms of the columns: the rows afterwards are those before and one for each new GUID, not empty and not on record, of an item of an existing feed |
| ArticleStore.LastItemWins | db/dbgen/articles.sql.go:54-61 | a row holds the content of the last storable item with its GUID, and is untouched when there is none |
| ArticleStore.StoringAgainIsNoOp | srv/feeds/fetcher.go:230-276 | storing the same items again, at any later time, changes nothing |
| ArticleStore.UpsertAddsKey | db/dbgen/articles.sql.go:51-55 | an upsert adds its own key and no other |
| Retention.RetentionManager.RunCleanup | srv/retention.go:82-134 | all users in turn; the total is the number of rows that disappeared and the counts cache is flushed exactly when it is positive |
| Retention.RetentionManager.RunCleanupNow | srv/retention.go:137-165 | one user, without pruning, with the same accounting |
| Retention.RecordAndDeleteAgree | srv/retention.go:98-109 | with one clock exactly the expired rows disappear and exactly their GUIDs become seen, now |
| Retention.RecordMarksExpired | db/dbgen/articles.sql.go:270-277 | the recording statement marks exactly the expired rows and keeps older times |
| Retention.DeleteRemovesExpired | db/dbgen/articles.sql.go:108-114 | the deleting statement removes exactly the expired rows |
| Retention.RemovesOnlyExpired | srv/retention.go:93-119 | a cleanup removes a row if and only if it is unstarred, unqueued, in a feed without the skip flag and older than the retention days of that feed's owner |
| Retention.GoneIffOld | db/dbgen/articles.sql.go:108-114 | in terms of the columns: a row is gone after a cleanup if and only if one of the users owns its feed, the feed has no skip flag, the row is unstarred and in no queue, and it was fetched more than 86400 times that user's days ago |
| Retention.CleanNowByColumns | srv/retention.go:93-119 | one user's turn removes exactly those rows of the user, puts exactly their GUIDs on record with the present time, and keeps all other rows, GUIDs and times |
| Retention.RetentionDaysAre | srv/retention.go:67-80 | a positive setting is used as it is; any other, or none, means thirty days |
| Retention.ProtectedStays | db/dbgen/articles.sql.go:108-114 | a row that is starred, queued or in an exempt feed whenever a cleanup runs is in the table after every run that does not delete its feed |
| Retention.StarKeeps | db/dbgen/articles.sql.go:108-114 | starring an article keeps it, starred, through every run until it is unstarred or its feed is deleted |
| Retention.PruneCleans | db/dbgen/articles.sql.go:1516-1518 | pruning at twice a setting of at least m days spares all GUIDs seen within 2m days |
| Retention.CleanupCleans | srv/retention.go:93-126 | a whole cleanup keeps seen GUIDs and stored rows disjoint and spares recent GUIDs up to the smallest setting |
| Retention.SeenAndStoredStayDisjoint | srv/retention.go:92-126 | in every run of fetches, cleanups, flag changes, setting changes and feed deletions, no stored row's GUID is seen and there is one row per key |
| Retention.NoResurrection | srv/feeds/fetcher.go:239-246 | a GUID removed by a cleanup is not stored again within twice the smallest retention setting met by any later cleanup of the run |
| Retention.StaysRetired | srv/feeds/fetcher.go:239-246 | a retired GUID stays on record, or its feed is gone, for that long |
| Retention.SteadySettings | srv/retention.go:121-125 | while nobody changes a setting or joins, the bound is twice the smallest setting there is |
| Retention.SettingsApply | srv/retention.go:67-80 | a changed setting counts for its user alone, a skip flag for its feed alone, and a new feed gets an id no feed has had |
| Retention.CleanupForgets | srv/retention.go:121-125 | a cleanup forgets a GUID exactly when some user's window, not only its owner's, has run out |
| Retention.ComesBackIffForgotten | srv/retention.go:121-125 | the bound is exact: offered right after a cleanup, a retired GUID is stored if and only if some user's doubled window has run out |
| Retention.OtherSettingBringsBack | srv/retention.go:93-125 | with one user at thirty days and another at one day, the first user's article comes back two days and a second after it was removed |
| Retention.StatementsAgreeIffNoRowCrosses | srv/retention.go:98-109 | recording and deleting read the clock separately; every deleted row is on record and no other is, if and only if no eligible row passes the limit between the two readings |
| Retention.ClockTickLosesTheGuid | srv/retention.go:98-109 | a row whose age reaches the limit in the second between the two statements is deleted unrecorded, and the next fetch stores it again |
| Retention.RetentionDays | srv/retention.go:67-80 | the setting used is never below one day |
| Exclusions.FilterAll | srv/filter.go:97-144 | the articles that no rule of any category of their feed matches, in their order |
| Exclusions.GroupedIsNaive | srv/filter.go:105-138 | going through feed categories and grouped rules catches exactly the articles the naive rule excludes |
| Exclusions.GroupedFilterIsNaive | srv/filter.go:128-143 | so the grouped filter is the naive one, order kept |
| Exclusions.GroupExclusions | srv/filter.go:105-116 | the map holds each category's rules in order |
| Exclusions.GroupMappings | srv/filter.go:123-126 | the map holds each feed's categories in order |
| Exclusions.ShouldExclude | srv/filter.go:265-288 | true if and only if some rule matches; an unknown type never does |
| Exclusions.RuleMatchesText | srv/filter.go:265-313 | a rule matches if and only if its pattern is not empty and matches a non-empty text among those its kind looks at: the title, the title and the summary, or the author; as a regular expression or as a part of the text in lower case |
| Exclusions.KindsReduceToTitle | srv/filter.go:265-288 | a keyword rule is the title rule tried on title and summary, an author rule the title rule tried on the author, and a title rule depends on the title alone |
| Exclusions.FilterAllDrops | srv/filter.go:97-144 | an article is dropped if and only if a rule of a category that is the user's, with the user's feed filed under it, matches one of those texts |
| Exclusions.KeywordInSummary | srv/filter.go:277-284 | a keyword rule hides an article for its summary |
| Exclusions.MarkingFeedMarks | srv/filter.go:309-348 | marking a feed reads its articles that a rule of a category with an owner it is filed under matches, and changes no other column or row |
| Exclusions.FilterByCategory | srv/filter.go:198-214 | the articles that no rule of the category, looked up for the user, matches, in their order |
| Exclusions.FilterByFeed | srv/filter.go:217-243 | the articles of a feed that no rule of the feed's first category matches |
| Exclusions.FeedFilterIsNaiveIff | srv/filter.go:220-225 | a feed's listing agrees with the naive rule if and only if every listed article matched by a rule of a later category is matched by one of the first |
| Exclusions.SecondCategoryIsIgnored | srv/filter.go:225 | a feed in two categories on which it does not: its listing shows an article all other listings hide |
| Exclusions.Marker.MarkExcludedArticlesReadForFeed | srv/filter.go:309-348 | exactly the feed's unread rows that some collected rule matches become read |
| Exclusions.ExcludedIsCollected | srv/filter.go:318-330 | whatever the naive rule excludes, for any user, the rules collected for the feed catch |
| Exclusions.MarkedFeedIsNotFiltered | srv/filter.go:309-348 | once a feed is marked, the global filter drops none of its remaining unread articles, whichever user it runs for |
| Exclusions.CollectRules | srv/filter.go:318-330 | the rules of all of a feed's categories, each looked up as its own owner |
| Counts.ComputeCounts | srv/server.go:647-682 | past the cache, a user without rules gets the query counts and one with rules the filtered ones |
| Counts.GetFilteredArticleCounts | srv/server.go:689-736 | the loops return the filtered counts |
| Counts.FilteredRefinesFast | srv/server.go:689-736 | the filtered counts are the query counts over the surviving articles, except category counts, which agree if and only if no survivor's feed has two categories; unread is the sum of the feed counts; the category counts sum to the survivors filed anywhere |
| Counts.Aggregate | srv/server.go:716-724 | the incremented maps are the group counts by feed and by first category |
| Counts.FirstCategoryMap | srv/server.go:699-707 | each feed is attributed to its first mapping (the comment says later ones overwrite) |
| Counts.JoinVersusFirst | db/dbgen/feeds.sql.go:137-143 | counting by first category never exceeds counting by join and equals it exactly without double filing |
| Counts.FastCategoryCount | db/dbgen/feeds.sql.go:137-143 | without rules a category counts each unread article of the user as often as its feed is filed under it; with the table's unique pairs, the unread articles in it |
| Counts.FilteredCategoryCount | srv/server.go:697-724 | with rules a category counts the surviving articles whose feed is filed under it before any other |
| Counts.GroupCountsAddUp | db/dbgen/feeds.sql.go:173-178 | the group counts add up to the number of rows |
| Counts.UnreadWithoutExcluded | srv/server.go:713-714 | reading the excluded articles leaves exactly the survivors unread |
| Views.FreshCountsFromView | srv/server.go:642-683 | fresh counts are a function of the user's own rows, mappings, rules, queue and alert matches |
| Views.ViewHoldsTheQueries | srv/server.go:656-671 | every query of the count path reads only that view |
| Operations.UninvalidatedViewsStay | srv/server.go:1539-1781 | for each of the fifteen state-changing requests, made on one's own rules and feeds, the view of every user whose cache entry is kept is what it was |
| Operations.ApplyKeepsLinked | srv/server.go:1539-1781 | each request, whoever makes it, keeps ids unique, queue entries with their articles and alert matches with their users |
| Operations.ReadFrame | srv/server.go:1720-1781 | reading articles one by one, in batches or by scope leaves other users' views alone |
| Operations.QueueFrame | srv/server.go:1634-1684 | queue requests leave other users' views alone |
| Operations.DeleteFeedFrame | srv/server.go:1231-1250 | deleting a feed, with all that cascades, leaves the view of every other user alone who has none of its articles queued |
| Operations.CreateExclusionFrame | srv/server.go:3174-3226 | a new rule and the articles it marks read are invisible to users who have no feed in the category |
| Operations.DeleteAlertFrame | srv/server.go:3658-3677 | deleting an alert with its matches is invisible to other users |
| Operations.FeedFetchedFrame | srv/server.go:90-97 | storing, marking and alerting after a fetch changes no view but the feed owner's |
| Operations.StoreFrame | srv/feeds/fetcher.go:221-276 | storing items leaves the views of users who do not own the feed alone |
| Operations.CleanupKeepsViews | srv/retention.go:128-130 | a cleanup that deletes no row changes nothing that counts depend on |
| Effects.ReadScopeMarks | srv/server.go:1720-1781 | marking by scope reads, of the user's articles, those in the named feed, in a feed filed under the named category or all, and with an age limit those published, or fetched if never published, earlier; no other column, row or table changes |
| Effects.SetReadMarks | srv/server.go:1539-1611 | reading or unreading sets the flag of the user's article with the id and nothing else |
| Effects.MarkEach | srv/server.go:1582-1586 | the loop over a batch marks the user's articles with these ids |
| Effects.BatchReadMarks | srv/server.go:1560-1590 | up to 200 ids are marked read where they are the user's; a longer list changes nothing |
| Effects.MarkingHides | srv/server.go:656-671 | after a marking exactly what was shown before and is not marked is shown and counted |
| Effects.ToggleStarFlips | srv/server.go:1613-1632 | the star of the user's article with the id flips and nothing else changes |
| Effects.ToggleStarCounts | srv/server.go:1613-1632 | starring one's own article moves the starred count by one and no other count; anybody else's moves none |
| Effects.ToggleQueueMoves | srv/server.go:1634-1663 | toggling removes the entry, or appends it if there is such an article; other entries, their order and all other tables stay, and the queue count moves with the entry |
| Effects.RemoveFromQueueMoves | srv/server.go:1665-1684 | removing takes the one entry out and the count down with it |
| Effects.QueueCounts | srv/server.go:656-671 | queue requests change no other count |
| Effects.DismissAlertDismisses | db/dbgen/alerts.sql.go:86-99 | dismissing an alert of one's own dismisses its matches; no other column, row or table changes |
| Effects.SetDismissedSets | db/dbgen/alerts.sql.go:101-115 | one match of one's own alerts is dismissed or undismissed and nothing else |
| Effects.DeleteAlertDeletes | db/dbgen/alerts.sql.go:72-84 | deleting an alert of one's own deletes it and its matches; another's changes nothing |
| Effects.AlertCounts | srv/server.go:656-671 | alert requests change no other count |
| Effects.DismissAlertCounts | srv/server.go:3679-3698 | after dismissing an alert the undismissed matches of the user's other alerts are counted |
| Effects.CreateExclusionStores | srv/server.go:3174-3226 | a rule of one of the three kinds with a pattern and an existing category is stored, and the articles that a rule of the category matches are marked read if the category is the user's; any other changes nothing |
| Effects.OwnRuleHides | srv/server.go:3174-3226 | after a rule on one's own category what was shown before and is not hit by it is shown and counted |
| Effects.DeleteExclusionDeletes | srv/server.go:3228-3246 | the rule goes if its category is the user's; the other rules and their order and all other tables stay |
| Effects.DeleteExclusionShows | srv/server.go:3228-3246 | afterwards the unread articles that no remaining rule hits are shown and counted |
| Effects.RuleCountsAside | srv/server.go:656-671 | rule requests change no starred, queue or alert count |
| Effects.DeleteFeedDeletes | srv/server.go:1231-1250 | the feed goes with its articles, filings and seen GUIDs and with the queue entries and matches left without an article; the rest stays in place |
| Effects.DeleteFeedHides | srv/server.go:1231-1250 | its articles are no longer shown, counted or starred, and the others as before |
| Effects.FetchMarksAndAlerts | srv/server.go:90-97 | a fetch that stores something marks the feed and records the matches of its owner's alerts with its unread articles; one that stores nothing changes nothing |
| Effects.CleanupDeletesIff | srv/retention.go:93-130 | a cleanup deletes something if and only if a row is old for one of the users |
| Effects.CleanupMatches | db/dbgen/articles.sql.go:108-114 | a cleanup keeps exactly the alert matches whose article is still there, in order |
| Effects.RequestsAreSteps | srv/server.go:1539-1684 | reading, starring, queueing, deleting a feed and cleaning up are the steps of the runs that retention is proved about |
| Effects.DropsWhom | srv/server.go:1550-1587 | for each request, exactly whose cached counts are dropped, in terms of the tables |
| CountsCache.Cache.Get | srv/counts_cache.go:32-43 | a hit is an entry not older than the TTL |
| CountsCache.Cache.Set | srv/counts_cache.go:46-56 | one entry is replaced, stamped now |
| CountsCache.Cache.Invalidate | srv/counts_cache.go:59-66 | one entry goes, the others stay |
| CountsCache.Cache.InvalidateAll | srv/counts_cache.go:70-77 | all entries go |
| CountsCache.CachedServer.GetArticleCounts | srv/server.go:642-683 | the answer is the fresh counts, and the cache stays coherent |
| CountsCache.CachedServer.Handle | srv/server.go:1550-1587 | a request followed by its invalidation keeps every remaining entry equal to the fresh counts |
| CountsCache.CachedServer.Invalidate | srv/server.go:1550-1587 | each handler drops the entries it has to, and no others |
| CountsCache.DoKeepsCoherent | srv/server.go:1550-1587 | dropping only the acting user's entry is enough |
| CountsCache.RunStaysCoherent | srv/server.go:642-683 | coherence holds along every serialized run of the invalidating requests in which rules go to categories with one's own feeds only and no feed is deleted that another user queued from |
| CountsCache.AnswersAreFresh | srv/server.go:642-683 | after every such run every user is told the fresh counts |
| CountsCache.EntriesWereComputed | srv/counts_cache.go:46-56 | whatever else writes, each entry is the fresh counts of the moment it is stamped with |
| CountsCache.AnswersAreRecent | srv/counts_cache.go:32-43 | with arbitrary writes mixed in, an answer is the fresh counts of a moment no further back than the TTL |
| CountsCache.TtlIsReached | srv/counts_cache.go:32-43 | that bound is exact: counts read once are told until the TTL has passed, and not a second longer |
| OverlappingFills.AnswersAreFreshUnlessOvertaken | srv/server.go:642-683 | fills may overlap requests: after every run from an empty cache all answers are fresh, as long as no counts are stored after a request has invalidated their user's entry |
| OverlappingFills.OvertakenFillIsStale | srv/server.go:673-682 | that premise is needed: in a three-event run an overtaken fill is stored and the user is told of an unread article that has been read |
| OverlappingFills.OvertakenFillIsFreshIff | srv/server.go:642-683 | an overtaken fill is not always harmful: from any state, when a request of the same user marks articles read or unread between reading and storing, the answer is fresh if and only if the request changes the flag of no article the user is shown |
| Flags.FlagKeepsCountsIff | srv/server.go:1720-1781 | setting the read flag of any rows changes a user's counts if and only if one of them is the user's, is not excluded and had the other flag |
| OverlappingFills.AnswersAreBoundedlyStale | srv/counts_cache.go:32-56 | however fills overlap and whatever else writes, an answer is the fresh counts of a moment of the run no further back than the TTL plus the slowest fill |
| OverlappingFills.BoundIsReached | srv/counts_cache.go:46-56 | that bound is exact: a run whose answer is as old as the TTL and the slowest fill together |
| OverlappingFills.RunStaysSound | srv/server.go:642-683 | along such runs the cache and every fill that was not overtaken hold fresh counts |
| OverlappingFills.FinishStores | srv/counts_cache.go:46-56 | storing a fill stamps its counts with the present time and touches no other entry and no other fill |
| OverlappingFills.FreshStaysFresh | srv/server.go:1550-1587 | a request leaves the fresh counts of every user it does not invalidate unchanged |
| ForeignRequests.RunIsCoherentIff | srv/server.go:642-683 | with no premise on who asks for what, the cache is coherent all along a serialized run of the invalidating requests if and only if each request meets its condition on the tables when it is made |
| ForeignRequests.RequestKeepsCoherentIff | srv/server.go:1539-1781 | of the fifteen requests only a new rule and a feed deletion can make a coherent cache stale, each on an exact condition |
| ForeignRequests.ForeignRule | srv/server.go:3174-3226 | a rule created on another user's category is stored, marks nothing read and changes the view of the category's owner alone |
| ForeignRequests.RuleKeepsCountsIff | srv/server.go:642-683 | one more rule leaves its owner's counts alone if and only if it hits no article counted so far and, where it is the first rule, no unread article is in two categories |
| ForeignRequests.ForeignRuleKeepsCoherentIff | srv/server.go:3222-3223 | such a request drops the acting user's entry only; the cache stays coherent if and only if the rule is harmless in that sense to the owner, where the owner's counts are cached |
| ForeignRequests.ForeignRuleGoesStale | srv/server.go:3222-3223 | a concrete table on which the rule hits an article |
| ForeignRequests.ForeignFirstRuleGoesStale | srv/server.go:3222-3223 | a concrete table on which a first rule that matches nothing makes the owner's category counts stale |
| ForeignRequests.OwnRuleKeepsCoherentIff | srv/filter.go:350-376 | a rule on one's own category marks articles of all feeds filed under it; the cache stays coherent if and only if no other user with a cached entry is shown an article that is marked |
| ForeignRequests.ForeignFilingGoesStale | srv/server.go:2448-2463 | a feed may be filed under another user's category; the latter's rule then marks an article whose owner keeps a stale count |
| ForeignRequests.DeleteFeedKeepsCoherentIff | srv/server.go:1231-1250 | when a feed is deleted the cache stays coherent if and only if no other user with a cached entry has one of its articles queued |
| ForeignRequests.DeleteFeedKeepsCountsIff | srv/server.go:1242-1247 | deleting a feed leaves the counts of a user who does not own it alone if and only if that user has none of its articles queued |
| ForeignRequests.DeleteFeedShortensQueueIff | srv/server.go:1242-1247 | deleting a feed changes another user's queue count if and only if one of that user's queue entries loses its article |
| ForeignRequests.ForeignQueueEntryGoesStale | srv/server.go:1655-1660 | a user may queue another user's article; when the owner deletes the feed, the cached queue count of the former is stale |
| Pagination.ExactlyOnce | srv/static/modules/pagination.js:56-95 | with distinct sort times, in every interleaving of loads with reads, inserts and rule changes no article is shown twice, and every article visible throughout is shown by the time the client is done, as long as full windows keep 50 survivors |
| Pagination.NothingShownTwice | srv/static/modules/pagination.js:56-95 | no article is shown twice whenever the first page is cut cleanly |
| Pagination.VisibleIsShown | srv/static/modules/pagination.js:74-95 | an article that stays visible until the client is done is shown |
| Pagination.RunStaysOrderly | srv/static/modules/pagination.js:56-61 | all later pages together are strictly descending and lie below the first page's cursor |
| Pagination.VisibleStaysAhead | srv/static/modules/pagination.js:74-95 | at every step a visible article has been shown or lies ahead of the cursor |
| Pagination.PageCoversVisible | srv/server.go:1493-1512 | a page contains a visible article below its cursor, or is full and ends above it |
| Pagination.QueryIsWindow | db/dbgen/articles.sql.go:1287-1295 | the cursor query returns the first hundred rows below the cursor and leaves out only later ones |
| Pagination.WindowByColumns | db/dbgen/articles.sql.go:1287-1293 | in terms of the columns: a row is served below (t, i) if and only if it is unread, of the user's, its publication time, or else its fetch time, is before t or at t with a smaller id, and fewer than a hundred such rows come before it; of two rows the one with the greater time, then id, stands first, dated or not |
| Pagination.GetUnreadPage | srv/server.go:1493-1512 | window, filter, truncate |
| Pagination.QuietRunIsExactIffCleanCut | db/dbgen/articles.sql.go:977-983 | the first query has no id tie-break: with a full first page and nothing else going on, every visible article is shown exactly once if and only if the page separates the rows by time and id |
| Pagination.TiesBreakTheScroll | db/dbgen/articles.sql.go:977-983 | fifty-one articles fetched in the same second, listed by ascending id: the second load ends the scroll and the articles have not all been shown exactly once |
| Pagination.OverlapIsShownTwice | db/dbgen/articles.sql.go:977-983 | an article of the first page that lies below its cursor is shown again |
| Pagination.GapIsNeverShown | db/dbgen/articles.sql.go:977-983 | a visible article that is neither on the page nor below its cursor is never shown |
| Pagination.DistinctTimesCutCleanly | db/dbgen/articles.sql.go:981 | distinct times rule both out |
| Pagination.ShortPageEndsScroll | srv/static/modules/pagination.js:91-93 | a filtered page under 50 ends the scroll and loses exactly the visible rows its window did not reach |
| Pagination.LoadAfterChange | srv/server.go:1493-1512 | a load serves the database as it is when the request arrives |
| Pagination.ExcludedWindowBuries | srv/static/modules/pagination.js:91-93 | fifty articles shown, a hundred excluded ones behind them and a visible one behind those: it is never shown, whatever happens later |
| Pagination.Client.InitPagination | srv/static/modules/pagination.js:133-150 | the state starts at the last card, done when the first page is short |
| Pagination.Client.RequestMore | srv/static/modules/pagination.js:74-85 | a request goes out exactly when idle, not done and with a cursor |
| Pagination.Client.Receive | srv/static/modules/pagination.js:86-118 | a response moves the cursor, appends the page and ends the scroll when it is short |
| Pagination.Client.ReceiveError | srv/static/modules/pagination.js:110-115 | after a failed request the cursor and the done flag stand and the client may load again |
| ReadQueue.NothingIsLost | srv/static/modules/read-queue.js:51-132 | in every interleaving of enqueues, overlapping flushes, failures, replays and reloads, each enqueued id is pending or was in a batch the server accepted and marked read |
| ReadQueue.EveryEnqueuedIdCounts | srv/static/modules/read-queue.js:51-132 | in terms of the events: an id enqueued at any point of a run is pending at its end, or was accepted and marked read |
| ReadQueue.RespondsOnce | srv/static/modules/read-queue.js:121-130 | a response is acted upon once, and not at all after an error or a reload; a reload leaves what session storage holds |
| ReadQueue.LeavesOnlyWhenConfirmed | srv/static/modules/read-queue.js:120-130 | an id leaves storage if and only if the response to an accepted batch containing it arrives |
| ReadQueue.BatchAcceptedIff | srv/server.go:1560-1590 | an arriving batch is accepted if and only if it has at most 200 ids and each is an integer of 64 bits; exactly those articles are then marked read, and none otherwise |
| ReadQueue.SurvivesUnlessConfirmed | srv/static/modules/read-queue.js:123-128 | an id enqueued after a snapshot survives unless it was also in an accepted one |
| ReadQueue.DrainsIffAcceptable | srv/server.go:1566-1580 | a queue can ever be emptied if and only if it holds at most 200 ids and every one is an int64; otherwise no sequence of flushes and reloads gets through |
| ReadQueue.FractionNeverDrains | srv/static/modules/read-queue.js:51-58 | after one enqueued number that is no integer no run of flushes and reloads empties the queue |
| ReadQueue.TooManyNeverDrain | srv/server.go:1577-1580 | nor after 201 articles are read before the first flush |
| ReadQueue.StuckForEver | srv/server.go:1577-1580 | once an unacceptable set of ids is pending, it stays pending along every run |
| ReadQueue.OneFlushDrains | srv/static/modules/read-queue.js:104-131 | one flush, handled and answered, empties an acceptable queue |
| ReadQueue.Queue.EnqueueRead | srv/static/modules/read-queue.js:51-58 | storage afterwards is that of the protocol step |
| ReadQueue.Queue.WriteToStorage | srv/static/modules/read-queue.js:29-43 | a failed write moves the whole set to memory for good |
| ReadQueue.Queue.StartFlush | srv/static/modules/read-queue.js:104-116 | the snapshot is everything pending, and storage is not touched |
| ReadQueue.Queue.FinishFlush | srv/static/modules/read-queue.js:121-130 | on success exactly the snapshot is removed from what is stored by then |
| CategoryNodes.DisplayCategories | srv/server.go:767-768 | from the user's rows, for every map iteration order, the shown list is a display listing and every node carries its row |
| CategoryNodes.BuildCategoryTree | srv/category_tree.go:15-49 | child lists follow the parent links, all reachable lists and the roots are sorted, and stored depths are chain lengths, for arbitrary links including cycles |
| CategoryNodes.LinkNodes | srv/category_tree.go:26-40 | visiting the node map in any order, each node lands once in its parent's children or, without a parent, in the roots |
| CategoryNodes.MakeNodes | srv/category_tree.go:17-24 | one fresh node per id; of rows with one id the last counts |
| CategoryNodes.SortCategoryNodes | srv/category_tree.go:51-72 | the list and every list below it become sorted, lists sorted before stay so, and no list gains or loses a child |
| CategoryNodes.SortSiblings | srv/category_tree.go:53-67 | the exchange sort yields a sorted permutation |
| CategoryNodes.CalculateDepths | srv/category_tree.go:74-79 | everything at or below the node gets its chain length as depth, and right depths elsewhere stay right |
| CategoryNodes.FlattenNode | srv/category_tree.go:90-95 | the node and its subtree are appended in preorder with their depths |
| CategoryNodes.FlattenCategoryTree | srv/category_tree.go:82-88 | the result is a display listing of the categories |
| CategoryTree.FlatDisplays | srv/category_tree.go:82-95 | a flattened sorted forest lists exactly the categories whose chain reaches a nil or missing parent, each once, with its chain length, in preorder, siblings in order |
| CategoryTree.FlatMembers | srv/category_tree.go:90-95 | an entry is listed at depth e exactly when its chain leads into the roots after that many steps |
| CategoryTree.FlatOnceEach | srv/category_tree.go:90-95 | nothing is listed twice |
| CategoryTree.SubtreeIsContiguous | srv/category_tree.go:90-95 | each entry is followed at once by the whole of its subtree |
| CategoryTree.FlatSiblings | srv/category_tree.go:90-95 | siblings are listed in the order of their list |
| CategoryTree.ListedByChain | srv/category_tree.go:26-46 | a category is listed at a depth if and only if a chain of that many parent ids leads from it to one whose parent is absent or missing |
| CategoryTree.SiblingsByColumns | srv/category_tree.go:54-65 | of two siblings the first has the smaller sort order, an absent one counting as zero, or the same and a name that is equal or smaller at the first difference |
| CategoryTree.ChainHasNoRepeats | srv/category_tree.go:74-79 | a chain that reaches a root visits no category twice, so the recursions end |
| CategoryTree.KeyOrder | srv/category_tree.go:54-65 | sort order, then name, is a strict order, total up to equal keys |
| CategoryTree.DisplayIsUnique | srv/category_tree.go:28-45 | with different keys for siblings there is only one display listing, so map iteration order cannot be seen |
| CategoryTree.OrderIsFixedIffKeysDiffer | srv/category_tree.go:28-65 | the categories alone determine the listing if and only if no two listed siblings have the same sort order and name |
| CategoryTree.UniqueNamesFixTheOrder | db/migrations/013-fix-category-unique-constraint.sql:13 | the table keeps the names of one user's categories apart, so the iteration order of the node map never shows in a user's tree |
| CategoryEdits.ShowsTheRequest | srv/server.go:2291-2301 | after a reorder request that names all children of a listed parent, or all roots, a rebuilt listing shows them in exactly the requested order (a repeated id counts where it stands last) |
| CategoryEdits.ReorderLeavesOthers | db/dbgen/feeds.sql.go:765-767 | other users' trees are built from the same rows as before |
| CategoryEdits.ReorderKeepsLinks | srv/server.go:2291-2301 | reordering changes no parent link |
| CategoryEdits.LastOccurrencesOfDistinct | srv/server.go:2291-2301 | a request without repetitions is its own display order |
| CategoryEdits.MoveKeepsTheRest | srv/server.go:2325-2341 | after a move that takes effect the rest of the tree is listed as before, and the moved subtree is listed if and only if the new parent is nil, another user's, or listed and not below the moved category; any other request changes nothing |
| CategoryEdits.CycleMadeIff | srv/server.go:2325-2341 | only self-parenting and a parent in no row are refused: the request puts the category on a cycle if and only if the new parent is below it |
| CategoryEdits.MoveKeepsAcyclicIff | srv/server.go:2325-2330 | a request makes the first cycle of a user's tree if and only if it takes effect and the new parent is below the category |
| CategoryEdits.MoveUnderChildIsAccepted | srv/server.go:2325-2330 | with two categories, moving the parent under its child is accepted, and both disappear from the listing |
| CategoryEdits.UnlistedIffCycle | srv/category_tree.go:26-46 | a category is missing from the listing if and only if its parent chain runs into a cycle |
| CategoryEdits.AllListedIffAcyclic | srv/category_tree.go:26-46 | nothing is missing if and only if there is no cycle |
| CategoryEdits.CategoryTable.SetParent | srv/server.go:2306-2349 | the handler refuses the category itself, the foreign key (db/migrations/013-fix-category-unique-constraint.sql:12) a parent in no row once there is a row to update, and otherwise only the user's own row changes |
| CategoryEdits.CategoryTable.Reorder | srv/server.go:2277-2304 | the loop gives the i-th id sort order i, own rows only |

## Left out

- HTTP routing, authentication, templates, logging and static files: plumbing around the modelled state.
- XML, HTML, JSON and regular-expression parsing, and SQLite itself: the model starts from outlines, tokens, octets, match predicates and tables; every statement succeeds except in the migration model and the read queue.
- Database errors inside handlers: the source logs them and goes on; the model assumes statements succeed.
- Retention.NoResurrection: does not cover the newsletter path, which inserts without the seen check (srv/email/email.go:152), nor a cleanup whose two statements read different clocks, whose exact condition is Retention.StatementsAgreeIffNoRowCrosses.
- Retention.RetentionDays: settings are an optional integer, because parsing the setting string is a library call; SQLite's limits on very large day counts are not modelled.
- Pagination.ExactlyOnce: covers the unread listing; the category and feed handlers have the same cursor and another scope, the starred one pages fifty rows without a filter, and the include_read variant lists read rows too; none of these is modelled. Updates that change published_at move the sort key and are excluded by the fixed-key premise, and survivors of full windows are a premise whose necessity is Pagination.ShortPageEndsScroll.
- Pagination.QueryIsWindow: compares times as instants, while the database compares their text. `fetched_at` defaults to CURRENT_TIMESTAMP, which carries no zone (db/migrations/001-init.sql:51), and cursor times are written in the driver's own format (db/db.go:28); should that format append a zone, an article without published_at that ends a page would compare below its own cursor and be served again. The SQLite driver is not part of this model.
- Migrations.Database.ExecuteMigration: which pooled connection a call gets is an input, and so is whether the restoring call succeeds; connections closed and reopened between calls are not modelled.
- Pagination.Client.Receive: the DOM work after the cursor has moved is assumed to succeed, because a failure there leaves a page fetched and not shown.
- CountsCache.AnswersAreFresh: requests are serialized and considerate; what the others do to the cache is ForeignRequests, and a computation that overlaps requests is OverlappingFills, where the queries of one computation still read one moment of the database. Writes that never invalidate, such as filing a feed (srv/server.go:2448-2463), are in the TTL half only.
- Operations.FeedFetchedFrame: which alert matches a fetch inserts is a parameter restricted to the feed's own unread articles and its owner's alerts, because alert evaluation matches patterns.
- Exclusions.FilterByFeed: categories come in table order; the query (db/queries/feeds.sql:67-70) names none.
- ReadQueue.NothingIsLost: a failing storage read, an explicit clear, a reload while ids are in memory only, and marking unread between replays are outside the protocol modelled.
- CategoryNodes.SortCategoryNodes: a child slice is a sequence that is sorted and assigned back, so aliasing of one backing array by two slices is not modelled.
- CategoryTree.KeyOrder: names compare by character, as the source compares bytes; the two agree on UTF-8 text.
- Consolidate.MergeItems: dates are integers.
- Network clients, scrapers' page fetching, favicons, the SMTP session, the rate limiter and the user cache.
- The service worker's pending actions, whose load, push and save steps are separate awaits.
