/** OPML import and export of srv/opml, at the level of outlines: the XML encoding
    of an outline tree is not part of this model. */
module Opml {
  import opened Sequences

  datatype Feed = Feed(name: string, url: string, siteUrl: string, category: string)

  datatype Outline =
    Outline(text: string, title: string, kind: string, xmlUrl: string, htmlUrl: string, outlines: seq<Outline>)

  // ----- Import

  /** extractFeeds: the feeds of an outline and its children, in document order. */
  function ExtractFeeds(o: Outline, category: string): seq<Feed>
    decreases o
  {
    var own := if o.xmlUrl != "" then [Feed(if o.title == "" then o.text else o.title, o.xmlUrl, o.htmlUrl, category)]
               else [];
    var folderName := if o.xmlUrl == "" && |o.outlines| > 0 then (if o.text == "" then o.title else o.text)
                      else category;
    own + ExtractAll(o.outlines, folderName)
  }

  /** The feeds of a list of outlines; Parse applies it to the body with no category. */
  function ExtractAll(outlines: seq<Outline>, category: string): seq<Feed>
    decreases outlines
  {
    if outlines == [] then [] else ExtractFeeds(outlines[0], category) + ExtractAll(outlines[1..], category)
  }

  /** Outlines one inside the other, from the top level down. */
  ghost predicate Nested(outlines: seq<Outline>, path: seq<Outline>) {
    && path != [] && path[0] in outlines
    && forall k | 0 <= k < |path| - 1 :: path[k + 1] in path[k].outlines
  }

  /** All outlines around the last one, from place `k` on, have a URL. */
  ghost predicate NoFolderFrom(path: seq<Outline>, k: nat) {
    forall j | k <= j < |path| - 1 :: path[j].xmlUrl != ""
  }

  /** The innermost folder around the last outline, a folder being an outline without a URL. */
  ghost predicate LastFolder(path: seq<Outline>, k: nat) {
    k < |path| - 1 && path[k].xmlUrl == "" && NoFolderFrom(path, k + 1)
  }

  /** The category of the last outline: the text of its innermost folder, or the title if there is no text. */
  ghost predicate InFolder(path: seq<Outline>, category: string, name: string) {
    || (name == category && NoFolderFrom(path, 0))
    || exists k: nat | LastFolder(path, k) :: name == if path[k].text != "" then path[k].text else path[k].title
  }

  /** The last outline of a path has a URL and describes the feed; the title counts before the text. */
  ghost predicate Describes(path: seq<Outline>, category: string, f: Feed)
    requires path != []
  {
    var o := path[|path| - 1];
    && o.xmlUrl == f.url != "" && o.htmlUrl == f.siteUrl && InFolder(path, category, f.category)
    && f.name == if o.title != "" then o.title else o.text
  }

  ghost predicate Found(outlines: seq<Outline>, category: string, f: Feed) {
    exists path :: Nested(outlines, path) && Describes(path, category, f)
  }

  function FolderName(o: Outline, category: string): string {
    if o.xmlUrl != "" then category else if o.text != "" then o.text else o.title
  }

  lemma NoFolderShifts(path: seq<Outline>, k: nat)
    requires path != []
    ensures NoFolderFrom(path, k + 1) <==> NoFolderFrom(path[1..], k)
  {
    var rest := path[1..];
    if NoFolderFrom(path, k + 1) {
      assert forall j | k <= j < |rest| - 1 :: rest[j] == path[j + 1];
    }
    if NoFolderFrom(rest, k) {
      assert forall j | k + 1 <= j < |path| - 1 :: path[j] == rest[j - 1];
    }
  }

  lemma LastFolderShifts(path: seq<Outline>, k: nat)
    requires path != []
    ensures LastFolder(path, k + 1) <==> LastFolder(path[1..], k)
  {
    NoFolderShifts(path, k + 1);
    hide NoFolderFrom;
  }

  lemma InFolderOfRest(path: seq<Outline>, category: string, name: string)
    requires |path| > 1
    ensures InFolder(path, category, name) <==> InFolder(path[1..], FolderName(path[0], category), name)
  {
    var rest := path[1..];
    forall k: nat ensures LastFolder(path, k + 1) <==> LastFolder(rest, k) {
      LastFolderShifts(path, k);
    }
    NoFolderShifts(path, 0);
    assert LastFolder(path, 0) <==> path[0].xmlUrl == "" && NoFolderFrom(path, 1);
    assert NoFolderFrom(path, 0) <==> path[0].xmlUrl != "" && NoFolderFrom(path, 1);
    hide LastFolder, NoFolderFrom;
    if InFolder(path, category, name) {
      if k: nat :| LastFolder(path, k) && name == if path[k].text != "" then path[k].text else path[k].title {
        if k > 0 {
          assert LastFolder(path, (k - 1) + 1) && rest[k - 1] == path[k];
        }
      }
    }
    if k: nat :| LastFolder(rest, k) && name == (if rest[k].text != "" then rest[k].text else rest[k].title) {
      assert LastFolder(path, k + 1) && path[k + 1] == rest[k];
    }
  }

  /** A feed described by one outline is described by the outline itself or below it. */
  lemma FoundUnfolds(o: Outline, category: string, f: Feed)
    ensures Found([o], category, f) <==>
      Describes([o], category, f) || Found(o.outlines, FolderName(o, category), f)
  {
    if Found([o], category, f) {
      var path :| Nested([o], path) && Describes(path, category, f);
      if |path| == 1 {
        assert path == [o];
      } else {
        InFolderOfRest(path, category, f.category);
        assert forall k | 0 <= k < |path[1..]| :: path[1..][k] == path[k + 1];
        assert Nested(o.outlines, path[1..]) && Describes(path[1..], FolderName(o, category), f);
      }
    }
    if Describes([o], category, f) {
      assert Nested([o], [o]);
    }
    if Found(o.outlines, FolderName(o, category), f) {
      var rest :| Nested(o.outlines, rest) && Describes(rest, FolderName(o, category), f);
      var path := [o] + rest;
      assert path[1..] == rest;
      InFolderOfRest(path, category, f.category);
      assert forall k | 0 < k < |path| - 1 :: path[k] == rest[k - 1] && path[k + 1] == rest[k];
      assert Nested([o], path) && Describes(path, category, f);
    }
  }

  lemma FoundInParts(outlines: seq<Outline>, category: string, f: Feed)
    requires outlines != []
    ensures Found(outlines, category, f) <==> Found([outlines[0]], category, f) || Found(outlines[1..], category, f)
  {
    assert outlines == [outlines[0]] + outlines[1..];
    hide Describes;
    forall path ensures Nested(outlines, path) <==> Nested([outlines[0]], path) || Nested(outlines[1..], path) {
    }
  }

  /** What an import finds: the outlines with a URL at any depth, each in its innermost folder. */
  lemma {:induction false} ExtractsTheFound(outlines: seq<Outline>, category: string, f: Feed)
    ensures f in ExtractAll(outlines, category) <==> Found(outlines, category, f)
    decreases outlines, 1
  {
    if outlines != [] {
      ExtractsFromOne(outlines[0], category, f);
      ExtractsTheFound(outlines[1..], category, f);
      FoundInParts(outlines, category, f);
      hide Found;
    }
  }

  lemma {:induction false} ExtractsFromOne(o: Outline, category: string, f: Feed)
    ensures f in ExtractFeeds(o, category) <==> Found([o], category, f)
    decreases o, 0
  {
    ExtractsTheFound(o.outlines, FolderName(o, category), f);
    FoundUnfolds(o, category, f);
    NothingFound(FolderName(o, category), f);
    NothingFound(category, f);
    hide Found;
  }

  lemma NothingFound(category: string, f: Feed)
    ensures !Found([], category, f)
  {
  }

  // ----- Export

  function WithUrl(feeds: seq<Feed>): seq<Feed> {
    Filter(feeds, (f: Feed) => f.url != "")
  }

  function InCategory(feeds: seq<Feed>, category: string): seq<Feed> {
    Filter(feeds, (f: Feed) => f.category == category)
  }

  function Leaf(f: Feed): Outline {
    Outline(f.name, f.name, "rss", f.url, f.siteUrl, [])
  }

  function Leaves(feeds: seq<Feed>): seq<Outline> {
    Map(feeds, Leaf)
  }

  function Folder(category: string, feeds: seq<Feed>): Outline {
    Outline(category, category, "", "", "", Leaves(feeds))
  }

  /** The exported outlines when the category map is visited in the given order. */
  function Folders(feeds: seq<Feed>, order: seq<string>): seq<Outline> {
    Map(order, c => Folder(c, InCategory(feeds, c)))
  }

  ghost predicate VisitsOnce(order: seq<string>, keys: set<string>) {
    (forall c :: c in order <==> c in keys) && forall i, j | 0 <= i < j < |order| :: order[i] != order[j]
  }

  ghost function FolderNames(feeds: seq<Feed>): set<string> {
    set f | f in feeds && f.category != "" :: f.category
  }

  // ----- The round trip

  lemma {:induction false} ExtractConcat(a: seq<Outline>, b: seq<Outline>, category: string)
    ensures ExtractAll(a + b, category) == ExtractAll(a, category) + ExtractAll(b, category)
  {
    if a == [] {
      assert a + b == b;
    } else {
      assert (a + b)[1..] == a[1..] + b;
      ExtractConcat(a[1..], b, category);
    }
  }

  /** Extracting the leaves of one category gives back its feeds, bar those without a URL. */
  lemma {:induction false} ExtractLeaves(feeds: seq<Feed>, category: string)
    requires forall f | f in feeds :: f.category == category
    ensures ExtractAll(Leaves(feeds), category) == WithUrl(feeds)
  {
    if feeds != [] {
      assert Leaves(feeds)[1..] == Leaves(feeds[1..]);
      var f := feeds[0];
      assert ExtractFeeds(Leaf(f), category) == if f.url != "" then [f] else [] by {
        assert Leaf(f).outlines == [];
      }
      ExtractLeaves(feeds[1..], category);
    }
  }

  lemma ExtractFolder(feeds: seq<Feed>, category: string)
    requires category != ""
    ensures ExtractFeeds(Folder(category, InCategory(feeds, category)), "") == WithUrl(InCategory(feeds, category))
  {
    ExtractLeaves(InCategory(feeds, category), category);
  }

  /** In any visiting order, each category's folder yields exactly that category's feeds. */
  lemma {:induction false} ExtractFolders(feeds: seq<Feed>, order: seq<string>, category: string)
    requires "" !in order
    requires forall i, j | 0 <= i < j < |order| :: order[i] != order[j]
    ensures InCategory(ExtractAll(Folders(feeds, order), ""), category) ==
            if category in order then WithUrl(InCategory(feeds, category)) else []
  {
    if order != [] {
      hide *;
      var c, rest := order[0], order[1..];
      ExtractFolders(feeds, rest, category);
      FirstFolder(feeds, order);
      InCategoryConcat(WithUrl(InCategory(feeds, c)), ExtractAll(Folders(feeds, rest), ""), category);
      OneFolder(feeds, c, category);
    }
  }

  lemma FirstFolder(feeds: seq<Feed>, order: seq<string>)
    requires order != [] && order[0] != ""
    ensures ExtractAll(Folders(feeds, order), "") ==
            WithUrl(InCategory(feeds, order[0])) + ExtractAll(Folders(feeds, order[1..]), "")
  {
    assert Folders(feeds, order)[1..] == Folders(feeds, order[1..]);
    ExtractFolder(feeds, order[0]);
  }

  lemma OneFolder(feeds: seq<Feed>, c: string, category: string)
    ensures InCategory(WithUrl(InCategory(feeds, c)), category) ==
            if category == c then WithUrl(InCategory(feeds, c)) else []
  {
    if category == c {
      FilterKeepsAll(WithUrl(InCategory(feeds, c)), (f: Feed) => f.category == category);
    } else {
      FilterNone(WithUrl(InCategory(feeds, c)), category);
    }
  }

  lemma FilterNone(feeds: seq<Feed>, category: string)
    requires forall f | f in feeds :: f.category != category
    ensures InCategory(feeds, category) == []
  {
    FilterKeepsNone(feeds, (f: Feed) => f.category == category);
  }

  /** The exported document for a visiting order of the category map. */
  function Exported(feeds: seq<Feed>, order: seq<string>): seq<Outline> {
    Leaves(InCategory(feeds, "")) + Folders(feeds, order)
  }

  /** Importing an export gives back every category's feeds that have a URL, in their
      original order, whatever order the category map was visited in. */
  lemma RoundTripByCategory(feeds: seq<Feed>, order: seq<string>, category: string)
    requires VisitsOnce(order, FolderNames(feeds))
    ensures InCategory(ExtractAll(Exported(feeds, order), ""), category) == InCategory(WithUrl(feeds), category)
  {
    hide *;
    ExtractExported(feeds, order);
    InCategoryConcat(WithUrl(InCategory(feeds, "")), ExtractAll(Folders(feeds, order), ""), category);
    FoldersInOrder(feeds, order, category);
    ExtractFolders(feeds, order, category);
    WithUrlByCategory(feeds, category);
    if category == "" {
      GroupOfGroup(feeds);
    } else {
      OtherGroup(feeds, category);
      if category !in order {
        NotAFolder(feeds, category);
      }
    }
  }

  lemma ExtractExported(feeds: seq<Feed>, order: seq<string>)
    ensures ExtractAll(Exported(feeds, order), "") ==
            WithUrl(InCategory(feeds, "")) + ExtractAll(Folders(feeds, order), "")
  {
    ExtractConcat(Leaves(InCategory(feeds, "")), Folders(feeds, order), "");
    ExtractLeaves(InCategory(feeds, ""), "");
  }

  lemma FoldersInOrder(feeds: seq<Feed>, order: seq<string>, category: string)
    requires VisitsOnce(order, FolderNames(feeds))
    ensures "" !in order && (category in order <==> category in FolderNames(feeds))
    ensures forall i, j | 0 <= i < j < |order| :: order[i] != order[j]
  {
  }

  lemma InCategoryConcat(a: seq<Feed>, b: seq<Feed>, category: string)
    ensures InCategory(a + b, category) == InCategory(a, category) + InCategory(b, category)
  {
    FilterConcat(a, b, (f: Feed) => f.category == category);
  }

  lemma WithUrlByCategory(feeds: seq<Feed>, category: string)
    ensures WithUrl(InCategory(feeds, category)) == InCategory(WithUrl(feeds), category)
  {
    FilterCommutes(feeds, (f: Feed) => f.category == category, (f: Feed) => f.url != "");
  }

  lemma GroupOfGroup(feeds: seq<Feed>)
    ensures InCategory(WithUrl(InCategory(feeds, "")), "") == WithUrl(InCategory(feeds, ""))
  {
    FilterKeepsAll(WithUrl(InCategory(feeds, "")), (f: Feed) => f.category == "");
  }

  lemma OtherGroup(feeds: seq<Feed>, category: string)
    requires category != ""
    ensures InCategory(WithUrl(InCategory(feeds, "")), category) == []
  {
    FilterNone(WithUrl(InCategory(feeds, "")), category);
  }

  lemma NotAFolder(feeds: seq<Feed>, category: string)
    requires category != "" && category !in FolderNames(feeds)
    ensures InCategory(WithUrl(feeds), category) == []
  {
    FilterNone(WithUrl(feeds), category);
  }

  /** Feeds grouped the same way in every category are a permutation of each other. */
  lemma SameGroupsSameFeeds(a: seq<Feed>, b: seq<Feed>)
    requires forall c :: InCategory(a, c) == InCategory(b, c)
    ensures multiset(a) == multiset(b)
  {
    forall f: Feed
      ensures multiset(a)[f] == multiset(b)[f]
    {
      FilterMultiplicity(a, f);
      FilterMultiplicity(b, f);
    }
  }

  lemma {:induction false} FilterMultiplicity(feeds: seq<Feed>, f: Feed)
    ensures multiset(feeds)[f] == multiset(InCategory(feeds, f.category))[f]
  {
    if feeds != [] {
      FilterMultiplicity(feeds[1..], f);
      assert feeds == [feeds[0]] + feeds[1..];
      var rest := InCategory(feeds[1..], f.category);
      assert InCategory(feeds, f.category) == (if feeds[0].category == f.category then [feeds[0]] else []) + rest;
    }
  }

  /** The round trip returns a permutation of the feeds with a URL; it loses nothing
      exactly when every feed has one. */
  lemma RoundTripIffUrls(feeds: seq<Feed>, order: seq<string>)
    requires VisitsOnce(order, FolderNames(feeds))
    ensures multiset(ExtractAll(Exported(feeds, order), "")) == multiset(WithUrl(feeds))
    ensures multiset(ExtractAll(Exported(feeds, order), "")) == multiset(feeds) <==>
            forall f | f in feeds :: f.url != ""
  {
    hide *;
    var back := ExtractAll(Exported(feeds, order), "");
    forall c
      ensures InCategory(back, c) == InCategory(WithUrl(feeds), c)
    {
      RoundTripByCategory(feeds, order, c);
    }
    SameGroupsSameFeeds(back, WithUrl(feeds));
    LosslessIffUrls(feeds);
  }

  lemma LosslessIffUrls(feeds: seq<Feed>)
    ensures multiset(WithUrl(feeds)) == multiset(feeds) <==> forall f | f in feeds :: f.url != ""
  {
    if forall f | f in feeds :: f.url != "" {
      FilterKeepsAll(feeds, (f: Feed) => f.url != "");
    } else {
      var f :| f in feeds && f.url == "";
      assert f in multiset(feeds) && f !in multiset(WithUrl(feeds));
    }
  }

  lemma GroupingStart()
    ensures forall c :: InCategory([], c) == []
    ensures FolderNames([]) == {}
  {
  }

  lemma GroupingStep(feeds: seq<Feed>, f: Feed)
    ensures forall c :: InCategory(feeds + [f], c) ==
                        if f.category == c then InCategory(feeds, c) + [f] else InCategory(feeds, c)
    ensures FolderNames(feeds + [f]) == FolderNames(feeds) + if f.category != "" then {f.category} else {}
    ensures "" !in FolderNames(feeds)
    ensures f.category !in FolderNames(feeds) ==> f.category == "" || InCategory(feeds, f.category) == []
  {
    forall c
      ensures InCategory(feeds + [f], c) == if f.category == c then InCategory(feeds, c) + [f] else InCategory(feeds, c)
    {
      FilterSnoc(feeds, f, (g: Feed) => g.category == c);
    }
    if f.category !in FolderNames(feeds) && f.category != "" {
      FilterNone(feeds, f.category);
    }
  }

  /** The first half of Export: the category map and the uncategorized feeds. */
  method GroupByCategory(feeds: seq<Feed>) returns (categories: map<string, seq<Feed>>, uncategorized: seq<Feed>)
    ensures uncategorized == InCategory(feeds, "")
    ensures categories.Keys == FolderNames(feeds)
    ensures forall c | c in categories :: categories[c] == InCategory(feeds, c)
  {
    hide *;
    GroupingStart();
    categories, uncategorized := map[], [];
    assert feeds[..0] == [];
    for i := 0 to |feeds|
      invariant uncategorized == InCategory(feeds[..i], "")
      invariant categories.Keys == FolderNames(feeds[..i])
      invariant forall c | c in categories :: categories[c] == InCategory(feeds[..i], c)
    {
      var f := feeds[i];
      assert feeds[..i + 1] == feeds[..i] + [f];
      GroupingStep(feeds[..i], f);
      if f.category == "" {
        uncategorized := uncategorized + [f];
      } else {
        categories := categories[f.category := (if f.category in categories then categories[f.category] else []) + [f]];
      }
    }
    assert feeds[..|feeds|] == feeds;
  }

  /** What an export consists of: an entry of type rss for each feed, with its name as text and as title, and
      around the entries of a category a folder of its name, without type or URL. */
  lemma ExportedShape(feeds: seq<Feed>, order: seq<string>, o: Outline)
    requires o in Exported(feeds, order)
    ensures o.text == o.title && (o.kind == "rss" || (o.kind == o.xmlUrl == o.htmlUrl == "" && o.text in order))
    ensures forall e | e in (if o.kind == "rss" then [o] else o.outlines) ::
      && e.kind == "rss" && e.text == e.title && e.outlines == []
      && Feed(e.text, e.xmlUrl, e.htmlUrl, if o.kind == "rss" then "" else o.text) in feeds
  {
    LeavesAre(InCategory(feeds, ""));
    if k :| 0 <= k < |order| && o == Folder(order[k], InCategory(feeds, order[k])) {
      LeavesAre(InCategory(feeds, order[k]));
    }
  }

  lemma LeavesAre(feeds: seq<Feed>)
    ensures forall e | e in Leaves(feeds) ::
      && e.kind == "rss" && e.text == e.title && e.outlines == []
      && exists f | f in feeds :: f.name == e.text && f.url == e.xmlUrl && f.siteUrl == e.htmlUrl
  {
    forall i | 0 <= i < |feeds| ensures feeds[i] in feeds && Leaves(feeds)[i] == Leaf(feeds[i]) {
    }
  }

  /** Export: groups the feeds, then writes the uncategorized ones and one folder per
      category, in whatever order the category map is visited. */
  method Export(feeds: seq<Feed>) returns (outlines: seq<Outline>)
    ensures exists order :: VisitsOnce(order, FolderNames(feeds)) && outlines == Exported(feeds, order)
    ensures forall c :: InCategory(ExtractAll(outlines, ""), c) == InCategory(WithUrl(feeds), c)
  {
    hide FolderNames, InCategory, ExtractAll;
    var categories, uncategorized := GroupByCategory(feeds);
    outlines := Leaves(uncategorized);
    var unvisited := categories.Keys;
    ghost var order: seq<string> := [];
    assert Folders(feeds, []) == [];
    while unvisited != {}
      invariant unvisited <= categories.Keys
      invariant VisitsOnce(order, categories.Keys - unvisited)
      invariant outlines == Exported(feeds, order)
    {
      var c :| c in unvisited;
      assert Folders(feeds, order + [c]) == Folders(feeds, order) + [Folder(c, InCategory(feeds, c))];
      outlines := outlines + [Folder(c, categories[c])];
      order := order + [c];
      unvisited := unvisited - {c};
    }
    forall c
      ensures InCategory(ExtractAll(outlines, ""), c) == InCategory(WithUrl(feeds), c)
    {
      RoundTripByCategory(feeds, order, c);
    }
  }
}
