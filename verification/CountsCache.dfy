/** The per-user counts cache (srv/counts_cache.go) behind getArticleCounts, over runs of
    requests. Requests are served one at a time; times are integer seconds. */
module CountsCache {
  import opened Options
  import opened Tables
  import opened Exclusions
  import opened Counts
  import opened Views
  import opened Operations

  datatype Entry = Entry(counts: ArticleCounts, cachedAt: int)
  type Entries = map<int, Entry>

  /** A hit: the entry exists and is not older than the TTL. */
  function Lookup(entries: Entries, ttl: int, now: int, user: int): Option<ArticleCounts> {
    if user in entries && now - entries[user].cachedAt <= ttl then Some(entries[user].counts) else None
  }

  class Cache {
    var entries: Entries
    const ttl: int

    constructor (ttl: int)
      ensures entries == map[] && this.ttl == ttl
    {
      this.ttl := ttl;
      entries := map[];
    }

    method Get(user: int, now: int) returns (counts: Option<ArticleCounts>)
      ensures counts == Lookup(entries, ttl, now, user)
    {
      if user !in entries {
        return None;
      }
      var e := entries[user];
      if now - e.cachedAt > ttl {
        return None;
      }
      return Some(e.counts);
    }

    method Set(user: int, counts: ArticleCounts, now: int)
      modifies this
      ensures entries == old(entries)[user := Entry(counts, now)]
    {
      entries := entries[user := Entry(counts, now)];
    }

    method Invalidate(user: int)
      modifies this
      ensures entries == old(entries) - {user}
    {
      entries := entries - {user};
    }

    method InvalidateAll()
      modifies this
      ensures entries == map[]
    {
      entries := map[];
    }
  }

  // ----- Runs of requests

  datatype Server = Server(now: int, db: Db, entries: Entries)

  /** `Write` stands for any other change of the database: it invalidates nothing. */
  datatype Request = Tick(seconds: nat) | Do(op: Op) | Read(user: int) | Write(db: Db)

  /** What getArticleCounts returns. */
  ghost function Answer(s: Server, m: Matcher, ttl: int, user: int): ArticleCounts {
    Lookup(s.entries, ttl, s.now, user).GetOr(FreshCounts(s.db, m, user))
  }

  ghost function Serve(s: Server, m: Matcher, ttl: int, r: Request): Server {
    match r
    case Tick(seconds) => s.(now := s.now + seconds)
    case Do(op) => s.(db := Apply(s.db, m, op),
                      entries := map u | u in s.entries && !Invalidates(s.db, m, op, u) :: s.entries[u])
    case Read(user) =>
      if Lookup(s.entries, ttl, s.now, user).Some? then s
      else s.(entries := s.entries[user := Entry(FreshCounts(s.db, m, user), s.now)])
    case Write(db) => s.(db := db)
  }

  ghost function Run(s: Server, m: Matcher, ttl: int, requests: seq<Request>): Server {
    if requests == [] then s
    else Serve(Run(s, m, ttl, requests[..|requests| - 1]), m, ttl, requests[|requests| - 1])
  }

  /** Every entry is what a fresh computation would return now. */
  ghost predicate Coherent(db: Db, m: Matcher, entries: Entries) {
    forall u | u in entries :: entries[u].counts == FreshCounts(db, m, u)
  }

  /** Only invalidating requests, each considerate when it is made. */
  ghost predicate AllInvalidating(s: Server, m: Matcher, ttl: int, requests: seq<Request>) {
    forall i | 0 <= i < |requests| ::
      !requests[i].Write? && (requests[i].Do? ==> Considerate(Run(s, m, ttl, requests[..i]).db, requests[i].op))
  }

  lemma DoKeepsCoherent(db: Db, m: Matcher, op: Op, entries: Entries)
    requires Linked(db) && Considerate(db, op) && Coherent(db, m, entries)
    ensures Coherent(Apply(db, m, op), m, map u | u in entries && !Invalidates(db, m, op, u) :: entries[u])
  {
    hide Linked, Considerate, Apply, Invalidates, FreshCounts, CountsFrom, ViewOf;
    forall u | u in entries && !Invalidates(db, m, op, u)
      ensures entries[u].counts == FreshCounts(Apply(db, m, op), m, u)
    {
      UninvalidatedViewsStay(db, m, op, u);
      FreshCountsFromView(db, m, u);
      FreshCountsFromView(Apply(db, m, op), m, u);
    }
  }

  lemma ServeKeepsCoherent(s: Server, m: Matcher, ttl: int, r: Request)
    requires Linked(s.db) && Coherent(s.db, m, s.entries) && !r.Write? && (r.Do? ==> Considerate(s.db, r.op))
    ensures Linked(Serve(s, m, ttl, r).db) && Coherent(Serve(s, m, ttl, r).db, m, Serve(s, m, ttl, r).entries)
  {
    hide Linked, Considerate, Apply, Invalidates, FreshCounts;
    if r.Do? {
      ApplyKeepsLinked(s.db, m, r.op);
      DoKeepsCoherent(s.db, m, r.op, s.entries);
    }
  }

  lemma {:induction false} RunStaysCoherent(s: Server, m: Matcher, ttl: int, requests: seq<Request>)
    requires Linked(s.db) && Coherent(s.db, m, s.entries) && AllInvalidating(s, m, ttl, requests)
    ensures Linked(Run(s, m, ttl, requests).db)
    ensures Coherent(Run(s, m, ttl, requests).db, m, Run(s, m, ttl, requests).entries)
  {
    hide Linked, Considerate, Coherent, Serve, FreshCounts;
    if requests != [] {
      var init, last := requests[..|requests| - 1], requests[|requests| - 1];
      assert forall i | 0 <= i < |init| :: init[i] == requests[i] && init[..i] == requests[..i];
      RunStaysCoherent(s, m, ttl, init);
      ServeKeepsCoherent(Run(s, m, ttl, init), m, ttl, last);
    }
  }

  /** Cache coherence: after any serialized run of the invalidating requests, what any user is
      told is what a fresh computation returns. */
  lemma AnswersAreFresh(s: Server, m: Matcher, ttl: int, requests: seq<Request>, user: int)
    requires Linked(s.db) && s.entries == map[] && AllInvalidating(s, m, ttl, requests)
    ensures var after := Run(s, m, ttl, requests);
            Answer(after, m, ttl, user) == FreshCounts(after.db, m, user)
  {
    RunStaysCoherent(s, m, ttl, requests);
  }

  // ----- With other writes mixed in

  /** The entry was computed, at the time it carries, from a state the run went through. */
  ghost predicate Computed(s: Server, m: Matcher, ttl: int, requests: seq<Request>, user: int, e: Entry, i: nat) {
    i <= |requests| && var moment := Run(s, m, ttl, requests[..i]);
    e.cachedAt == moment.now && e.counts == FreshCounts(moment.db, m, user)
  }

  ghost predicate WasComputed(s: Server, m: Matcher, ttl: int, requests: seq<Request>, user: int, e: Entry) {
    exists i: nat :: Computed(s, m, ttl, requests, user, e, i)
  }

  lemma ComputedEarlier(s: Server, m: Matcher, ttl: int, init: seq<Request>, last: Request, user: int, e: Entry)
    requires WasComputed(s, m, ttl, init, user, e)
    ensures WasComputed(s, m, ttl, init + [last], user, e)
  {
    hide Run, FreshCounts;
    var i: nat :| Computed(s, m, ttl, init, user, e, i);
    assert (init + [last])[..i] == init[..i];
    assert Computed(s, m, ttl, init + [last], user, e, i);
  }

  lemma {:induction false} EntriesWereComputed(s: Server, m: Matcher, ttl: int, requests: seq<Request>)
    requires s.entries == map[]
    ensures forall u | u in Run(s, m, ttl, requests).entries ::
              WasComputed(s, m, ttl, requests, u, Run(s, m, ttl, requests).entries[u])
  {
    hide *;
    if requests == [] {
      RunOfNothing(s, m, ttl);
    } else {
      var init, last := requests[..|requests| - 1], requests[|requests| - 1];
      EntriesWereComputed(s, m, ttl, init);
      assert requests == init + [last];
      RunSnoc(s, m, ttl, init, last);
      var before, after := Run(s, m, ttl, init), Run(s, m, ttl, requests);
      ServeEntries(before, m, ttl, last);
      forall u | u in after.entries
        ensures WasComputed(s, m, ttl, requests, u, after.entries[u])
      {
        if u in before.entries && before.entries[u] == after.entries[u] {
          ComputedEarlier(s, m, ttl, init, last, u, after.entries[u]);
        } else {
          ComputedJustNow(s, m, ttl, init, last, u);
        }
      }
    }
  }

  lemma RunOfNothing(s: Server, m: Matcher, ttl: int)
    ensures Run(s, m, ttl, []) == s
  {
  }

  lemma RunSnoc(s: Server, m: Matcher, ttl: int, init: seq<Request>, last: Request)
    ensures Run(s, m, ttl, init + [last]) == Serve(Run(s, m, ttl, init), m, ttl, last)
  {
    hide Serve;
    assert (init + [last])[..|init|] == init;
  }

  /** An entry after a request was there before or has just been computed. */
  lemma ServeEntries(s: Server, m: Matcher, ttl: int, r: Request)
    ensures var after := Serve(s, m, ttl, r);
            forall u | u in after.entries ::
              (u in s.entries && s.entries[u] == after.entries[u]) ||
              after.entries[u] == Entry(FreshCounts(s.db, m, u), s.now)
  {
    hide Apply, Invalidates, FreshCounts;
  }

  lemma ComputedJustNow(s: Server, m: Matcher, ttl: int, init: seq<Request>, last: Request, user: int)
    ensures var before := Run(s, m, ttl, init);
            WasComputed(s, m, ttl, init + [last], user, Entry(FreshCounts(before.db, m, user), before.now))
  {
    hide Run, FreshCounts;
    var before := Run(s, m, ttl, init);
    assert (init + [last])[..|init|] == init;
    assert Computed(s, m, ttl, init + [last], user, Entry(FreshCounts(before.db, m, user), before.now), |init|);
  }

  /** Whatever else writes to the database, an answer is the fresh counts of some moment of
      the run no further back than the TTL. */
  lemma AnswersAreRecent(s: Server, m: Matcher, ttl: int, requests: seq<Request>, user: int) returns (i: nat)
    requires s.entries == map[] && ttl >= 0
    ensures i <= |requests|
    ensures var moment, after := Run(s, m, ttl, requests[..i]), Run(s, m, ttl, requests);
            && after.now - moment.now <= ttl
            && Answer(after, m, ttl, user) == FreshCounts(moment.db, m, user)
  {
    EntriesWereComputed(s, m, ttl, requests);
    var after := Run(s, m, ttl, requests);
    assert requests[..|requests|] == requests;
    hide Run;
    if Lookup(after.entries, ttl, after.now, user).Some? {
      var j: nat :| Computed(s, m, ttl, requests, user, after.entries[user], j);
      i := j;
    } else {
      i := |requests|;
    }
  }

  /** The bound is exact: counts read once are told until the TTL has passed, whatever is written. */
  lemma TtlIsReached(db: Db, other: Db, m: Matcher, ttl: nat, user: int)
    ensures var after := Run(Server(0, db, map[]), m, ttl, [Read(user), Write(other), Tick(ttl)]);
      after.now == ttl && after.db == other && Answer(after, m, ttl, user) == FreshCounts(db, m, user)
    ensures var after := Run(Server(0, db, map[]), m, ttl, [Read(user), Write(other), Tick(ttl + 1)]);
      Answer(after, m, ttl, user) == FreshCounts(other, m, user)
  {
    hide FreshCounts, Run;
    var s := Server(0, db, map[]);
    forall d: nat ensures Run(s, m, ttl, [Read(user), Write(other), Tick(d)]) ==
      Server(d, other, map[user := Entry(FreshCounts(db, m, user), 0)])
    {
      assert [] + [Read(user)] == [Read(user)] && [Read(user)] + [Write(other)] == [Read(user), Write(other)];
      assert [Read(user), Write(other)] + [Tick(d)] == [Read(user), Write(other), Tick(d)];
      RunOfNothing(s, m, ttl);
      RunSnoc(s, m, ttl, [], Read(user));
      RunSnoc(s, m, ttl, [Read(user)], Write(other));
      RunSnoc(s, m, ttl, [Read(user), Write(other)], Tick(d));
    }
  }

  // ----- The server

  class CachedServer {
    var db: Db
    const cache: Cache
    const m: Matcher

    constructor (db: Db, m: Matcher, cache: Cache)
      ensures this.db == db && this.m == m && this.cache == cache
    {
      this.db, this.m, this.cache := db, m, cache;
    }

    /** getArticleCounts */
    method GetArticleCounts(user: int, now: int) returns (counts: ArticleCounts)
      requires Coherent(db, m, cache.entries)
      modifies cache
      ensures counts == FreshCounts(db, m, user)
      ensures Coherent(db, m, cache.entries)
      ensures cache.entries == if Lookup(old(cache.entries), cache.ttl, now, user).Some? then old(cache.entries)
                               else old(cache.entries)[user := Entry(counts, now)]
    {
      hide FreshCounts;
      var cached := cache.Get(user, now);
      if cached.Some? {
        return cached.value;
      }
      counts := ComputeCounts(db, m, user);
      cache.Set(user, counts, now);
    }

    /** A state-changing handler: the writes, then the invalidation. */
    method Handle(op: Op)
      requires Linked(db) && Considerate(db, op) && Coherent(db, m, cache.entries)
      modifies this, cache
      ensures db == Apply(old(db), m, op) && Linked(db)
      ensures cache.entries ==
              map u | u in old(cache.entries) && !Invalidates(old(db), m, op, u) :: old(cache.entries)[u]
      ensures Coherent(db, m, cache.entries)
    {
      hide *;
      ApplyKeepsLinked(db, m, op);
      DoKeepsCoherent(db, m, op, cache.entries);
      var rows, feedOwner, succeeded := |db.articles|, FetchOwner(db, op), Succeeds(db, op);
      InvalidatesIs(db, m, op);
      db := Apply(db, m, op);
      Invalidate(op, |db.articles| < rows, feedOwner, succeeded);
    }

    /** The invalidation at the end of each handler. */
    method Invalidate(op: Op, deleted: bool, feedOwner: Option<int>, succeeded: bool)
      modifies cache
      ensures cache.entries == map u | u in old(cache.entries) && !Drops(op, deleted, feedOwner, succeeded, u) ::
                                 old(cache.entries)[u]
    {
      match op
      case FeedFetched(_, _, _, _) =>
        if feedOwner.Some? {
          cache.Invalidate(feedOwner.value);
        }
      case Cleanup(_) =>
        if deleted {
          cache.InvalidateAll();
        }
      case CleanupNow(_, _) =>
        if deleted {
          cache.InvalidateAll();
        }
      case BatchRead(user, ids) =>
        if 0 < |ids| <= MAX_BATCH {
          cache.Invalidate(user);
        }
      case ToggleQueue(user, _) =>
        if succeeded {
          cache.Invalidate(user);
        }
      case CreateExclusion(user, _) =>
        if succeeded {
          cache.Invalidate(user);
        }
      case _ => cache.Invalidate(op.user);
    }
  }

  lemma InvalidatesIs(db: Db, m: Matcher, op: Op)
    ensures forall u :: Invalidates(db, m, op, u) <==>
              Drops(op, |Apply(db, m, op).articles| < |db.articles|, FetchOwner(db, op), Succeeds(db, op), u)
  {
    hide Apply, Drops, FetchOwner, Succeeds;
  }
}
