/** The tables of the feed reader as sequences of rows in table order, or as maps
    where only the primary key matters. Times are integer seconds. */
module Tables {
  import opened Options

  /** The columns an upsert overwrites. */
  datatype Body = Body(title: string, url: Option<string>, author: Option<string>, content: Option<string>,
                       summary: Option<string>, imageUrl: Option<string>, publishedAt: Option<int>)

  datatype Article = Article(id: int, feed: int, guid: string, body: Body, fetchedAt: int, isRead: bool,
                             isStarred: bool) {
    /** COALESCE(published_at, fetched_at) */
    function SortTime(): int {
      body.publishedAt.GetOr(fetchedAt)
    }

    function Key(): (int, string) {
      (feed, guid)
    }
  }

  datatype Feed = Feed(owner: Option<int>, skipRetention: bool)
  datatype Category = Category(owner: Option<int>, name: string, sortOrder: Option<int>, parent: Option<int>)
  datatype Exclusion = Exclusion(id: int, category: int, kind: string, pattern: string, isRegex: bool)
  datatype FeedCategory = FeedCategory(feed: int, category: int)
  datatype QueueEntry = QueueEntry(user: int, article: int)
  datatype ArticleAlert = ArticleAlert(id: int, article: int, alert: int, dismissed: bool)

  datatype Db = Db(
    users: seq<int>,
    feeds: map<int, Feed>,
    nextFeed: int,
    articles: seq<Article>,
    nextArticle: int,
    categories: map<int, Category>,
    feedCategories: seq<FeedCategory>,
    exclusions: seq<Exclusion>,
    queue: seq<QueueEntry>,
    alerts: map<int, int>,
    articleAlerts: seq<ArticleAlert>,
    seen: map<(int, string), int>,
    retentionDays: map<int, Option<int>>)

  /** feed_id IN (SELECT id FROM feeds WHERE user_id = ?) */
  predicate Owns(feeds: map<int, Feed>, user: int, feed: int) {
    feed in feeds && feeds[feed].owner == Some(user)
  }

  predicate OwnsCategory(db: Db, user: int, category: int) {
    category in db.categories && db.categories[category].owner == Some(user)
  }

  predicate Queued(db: Db, article: int) {
    exists e | e in db.queue :: e.article == article
  }
}
