/** getArticleCounts without the assumption that it runs alone (srv/server.go:642-683): the counts
    are read at one moment and stored in the cache at a later one. */
module OverlappingFills {
  import opened Options
  import opened Sequences
  import opened Tables
  import opened Exclusions
  import opened Counts
  import opened Flags
  import opened Operations
  import opened CountsCache

  /** Counts on their way into the cache. `dropped` records that a request has meanwhile
      invalidated the user's entry. */
  datatype Fill = Fill(user: int, counts: ArticleCounts, at: int, dropped: bool)
  datatype Racing = Racing(server: Server, fills: seq<Fill>)
  datatype Event = Plain(r: Request) | Begin(user: int) | Finish(k: nat)

  ghost function AfterRequest(db: Db, m: Matcher, r: Request, fills: seq<Fill>): (after: seq<Fill>)
    ensures |after| == |fills|
    ensures forall i | 0 <= i < |fills| ::
      after[i] == fills[i].(dropped := fills[i].dropped || (r.Do? && Invalidates(db, m, r.op, fills[i].user)))
  {
    seq(|fills|, i requires 0 <= i < |fills| =>
      fills[i].(dropped := fills[i].dropped || (r.Do? && Invalidates(db, m, r.op, fills[i].user))))
  }

  ghost function Next(s: Racing, m: Matcher, ttl: int, e: Event): Racing {
    match e
    case Plain(r) => Racing(Serve(s.server, m, ttl, r), AfterRequest(s.server.db, m, r, s.fills))
    case Begin(user) =>
      if Lookup(s.server.entries, ttl, s.server.now, user).Some? then s
      else s.(fills := s.fills + [Fill(user, FreshCounts(s.server.db, m, user), s.server.now, false)])
    case Finish(k) =>
      if k >= |s.fills| then s
      else
        var f := s.fills[k];
        Racing(s.server.(entries := s.server.entries[f.user := Entry(f.counts, s.server.now)]),
               s.fills[..k] + s.fills[k + 1..])
  }

  ghost function After(s: Racing, m: Matcher, ttl: int, events: seq<Event>): Racing {
    if events == [] then s else Next(After(s, m, ttl, events[..|events| - 1]), m, ttl, events[|events| - 1])
  }

  /** Storing a fill stamps its counts with the present time and leaves the other fills under way. */
  lemma FinishStores(s: Racing, m: Matcher, ttl: int, k: nat)
    requires k < |s.fills|
    ensures var f, after := s.fills[k], Next(s, m, ttl, Finish(k));
      && after.server.entries.Keys == s.server.entries.Keys + {f.user}
      && after.server.entries[f.user] == Entry(f.counts, s.server.now)
      && (forall u | u in s.server.entries && u != f.user :: after.server.entries[u] == s.server.entries[u])
      && after.server.(entries := s.server.entries) == s.server
      && |after.fills| == |s.fills| - 1
      && forall i | 0 <= i < |after.fills| :: after.fills[i] == s.fills[if i < k then i else i + 1]
  {
  }

  // ----- Fills that no invalidation has overtaken keep the cache fresh

  ghost predicate FillsFresh(s: Racing, m: Matcher) {
    forall f | f in s.fills && !f.dropped :: f.counts == FreshCounts(s.server.db, m, f.user)
  }

  ghost predicate Sound(s: Racing, m: Matcher) {
    Linked(s.server.db) && Coherent(s.server.db, m, s.server.entries) && FillsFresh(s, m)
  }

  /** Only invalidating requests, each considerate, and no overtaken fill is stored. */
  ghost predicate Orderly(s: Racing, e: Event) {
    && (e.Plain? ==> !e.r.Write? && (e.r.Do? ==> Considerate(s.server.db, e.r.op)))
    && (e.Finish? && e.k < |s.fills| ==> !s.fills[e.k].dropped)
  }

  ghost predicate AllOrderly(s: Racing, m: Matcher, ttl: int, events: seq<Event>) {
    forall i | 0 <= i < |events| :: Orderly(After(s, m, ttl, events[..i]), events[i])
  }

  /** A request that does not invalidate a user leaves the user's fresh counts as they are. */
  lemma FreshStaysFresh(db: Db, m: Matcher, op: Op, user: int)
    requires Linked(db) && Considerate(db, op) && !Invalidates(db, m, op, user)
    ensures FreshCounts(Apply(db, m, op), m, user) == FreshCounts(db, m, user)
  {
    var entries := map[user := Entry(FreshCounts(db, m, user), 0)];
    hide Linked, Considerate, Apply, Invalidates, FreshCounts;
    DoKeepsCoherent(db, m, op, entries);
    var kept := map u | u in entries && !Invalidates(db, m, op, u) :: entries[u];
    assert user in kept;
  }

  lemma PlainKeepsFills(s: Racing, m: Matcher, ttl: int, r: Request)
    requires Sound(s, m) && Orderly(s, Plain(r))
    ensures FillsFresh(Next(s, m, ttl, Plain(r)), m)
  {
    var after := Next(s, m, ttl, Plain(r));
    hide Linked, Considerate, Apply, Invalidates, FreshCounts, Coherent;
    forall i | 0 <= i < |s.fills| && !after.fills[i].dropped
      ensures after.fills[i].counts == FreshCounts(after.server.db, m, after.fills[i].user)
    {
      assert s.fills[i] in s.fills;
      if r.Do? {
        FreshStaysFresh(s.server.db, m, r.op, s.fills[i].user);
      }
    }
  }

  lemma NextKeepsSound(s: Racing, m: Matcher, ttl: int, e: Event)
    requires Sound(s, m) && Orderly(s, e)
    ensures Sound(Next(s, m, ttl, e), m)
  {
    hide Linked, Considerate, Apply, Invalidates, FreshCounts, AfterRequest;
    match e
    case Plain(r) =>
      hide Coherent, Serve;
      PlainKeepsFills(s, m, ttl, r);
      ServeKeepsCoherent(s.server, m, ttl, r);
    case Begin(user) =>
    case Finish(k) =>
      if k < |s.fills| {
        assert s.fills[k] in s.fills;
      }
  }

  lemma {:induction false} RunStaysSound(s: Racing, m: Matcher, ttl: int, events: seq<Event>)
    requires Sound(s, m) && AllOrderly(s, m, ttl, events)
    ensures Sound(After(s, m, ttl, events), m)
  {
    hide Sound, Orderly, Next;
    if events != [] {
      var init, last := events[..|events| - 1], events[|events| - 1];
      assert forall i | 0 <= i < |init| :: init[i] == events[i] && init[..i] == events[..i];
      RunStaysSound(s, m, ttl, init);
      NextKeepsSound(After(s, m, ttl, init), m, ttl, last);
    }
  }

  /** Serialization is not needed as such: answers are fresh as long as no fill is stored after
      a request has invalidated its user's entry. */
  lemma AnswersAreFreshUnlessOvertaken(s: Racing, m: Matcher, ttl: int, events: seq<Event>, user: int)
    requires Linked(s.server.db) && s.server.entries == map[] && s.fills == [] && AllOrderly(s, m, ttl, events)
    ensures var after := After(s, m, ttl, events).server;
            Answer(after, m, ttl, user) == FreshCounts(after.db, m, user)
  {
    RunStaysSound(s, m, ttl, events);
  }

  // ----- An overtaken fill

  const UNREAD: Article := Article(1, 1, "g", Body("t", None, None, None, None, None, None), 0, false, false)

  /** One user with one unread article and no rules. */
  const ONE_DB: Db :=
    Db([7], map[1 := Feed(Some(7), false)], 2, [UNREAD], 2, map[], [], [], [], map[], [], map[], map[])

  lemma UnreadCount(db: Db, m: Matcher)
    requires db == ONE_DB.(articles := db.articles) && |db.articles| == 1 && db.articles[0].feed == 1
    ensures FreshCounts(db, m, 7).unread == if db.articles[0].isRead then 0 else 1
  {
    assert !HasRules(db, 7);
    hide GroupCount;
  }

  lemma MarkedRead(m: Matcher)
    ensures Apply(ONE_DB, m, SetRead(7, 1, true)) == ONE_DB.(articles := [UNREAD.(isRead := true)])
    ensures Invalidates(ONE_DB, m, SetRead(7, 1, true), 7)
  {
    assert Apply(ONE_DB, m, SetRead(7, 1, true)).articles[0] == UNREAD.(isRead := true);
  }

  lemma OneDbIsLinked()
    ensures Linked(ONE_DB)
  {
  }

  /** The counts are read, the user marks the article read, the counts are stored: from then on the
      user is told of an unread article that is not there. Nothing but the last event is out of order. */
  lemma OvertakenFillIsStale(m: Matcher, ttl: int)
    requires ttl >= 0
    ensures var s := Racing(Server(0, ONE_DB, map[]), []);
      var events := [Begin(7), Plain(Do(SetRead(7, 1, true))), Finish(0)];
      var after := After(s, m, ttl, events).server;
      && Linked(ONE_DB) && AllOrderly(s, m, ttl, events[..2]) && !Orderly(After(s, m, ttl, events[..2]), events[2])
      && Answer(after, m, ttl, 7).unread == 1 && FreshCounts(after.db, m, 7).unread == 0
  {
    hide *;
    var s, read := Racing(Server(0, ONE_DB, map[]), []), ONE_DB.(articles := [UNREAD.(isRead := true)]);
    ReadCounts(m);
    OneDbIsLinked();
    Overtaken(m, ttl);
    AfterThree(s, m, ttl, Begin(7), Plain(Do(SetRead(7, 1, true))), Finish(0));
    OrderlyTwice(s, m, ttl, SetRead(7, 1, true));
    StoredIsAnswered(m, ttl, read, FreshCounts(ONE_DB, m, 7));
    DroppedIsNotOrderly(Racing(Server(0, read, map[]), [Fill(7, FreshCounts(ONE_DB, m, 7), 0, true)]));
  }

  lemma ReadCounts(m: Matcher)
    ensures FreshCounts(ONE_DB, m, 7).unread == 1
    ensures FreshCounts(ONE_DB.(articles := [UNREAD.(isRead := true)]), m, 7).unread == 0
  {
    hide FreshCounts;
    UnreadCount(ONE_DB, m);
    UnreadCount(ONE_DB.(articles := [UNREAD.(isRead := true)]), m);
  }

  lemma OrderlyTwice(s: Racing, m: Matcher, ttl: int, op: Op)
    requires op.SetRead?
    ensures AllOrderly(s, m, ttl, [Begin(7), Plain(Do(op))])
  {
    hide After;
  }

  lemma StoredIsAnswered(m: Matcher, ttl: int, db: Db, counts: ArticleCounts)
    requires ttl >= 0
    ensures Answer(Server(0, db, map[7 := Entry(counts, 0)]), m, ttl, 7) == counts
  {
    hide FreshCounts;
  }

  lemma DroppedIsNotOrderly(s: Racing)
    requires s.fills != [] && s.fills[0].dropped
    ensures !Orderly(s, Finish(0))
  {
  }

  lemma AfterThree(s: Racing, m: Matcher, ttl: int, a: Event, b: Event, c: Event)
    ensures [a, b, c][..0] == [] && [a, b, c][..1] == [a] && [a, b, c][..2] == [a, b]
    ensures [a, b][..0] == [] && [a, b][..1] == [a]
    ensures After(s, m, ttl, []) == s && After(s, m, ttl, [a]) == Next(s, m, ttl, a)
    ensures After(s, m, ttl, [a, b]) == Next(Next(s, m, ttl, a), m, ttl, b)
    ensures After(s, m, ttl, [a, b, c]) == Next(Next(Next(s, m, ttl, a), m, ttl, b), m, ttl, c)
  {
    hide Next;
    assert [] + [a] == [a] && [a] + [b] == [a, b] && [a, b] + [c] == [a, b, c];
    AfterSnoc(s, m, ttl, [], a);
    AfterSnoc(s, m, ttl, [a], b);
    AfterSnoc(s, m, ttl, [a, b], c);
  }

  /** The three steps one by one. */
  lemma Overtaken(m: Matcher, ttl: int)
    ensures var counts, read := FreshCounts(ONE_DB, m, 7), ONE_DB.(articles := [UNREAD.(isRead := true)]);
      var s := Racing(Server(0, ONE_DB, map[]), []);
      var s1 := Racing(Server(0, ONE_DB, map[]), [Fill(7, counts, 0, false)]);
      var s2 := Racing(Server(0, read, map[]), [Fill(7, counts, 0, true)]);
      && Next(s, m, ttl, Begin(7)) == s1 && Next(s1, m, ttl, Plain(Do(SetRead(7, 1, true)))) == s2
      && Next(s2, m, ttl, Finish(0)) == Racing(Server(0, read, map[7 := Entry(counts, 0)]), [])
  {
    MarkedRead(m);
    hide Apply, Invalidates, FreshCounts;
    var s1 := Racing(Server(0, ONE_DB, map[]), [Fill(7, FreshCounts(ONE_DB, m, 7), 0, false)]);
    var s2 := Next(s1, m, ttl, Plain(Do(SetRead(7, 1, true))));
    assert |s2.fills| == 1 && s2.server.entries == map[];
  }

  // ----- Which overtaken fills do harm

  predicate SetsFlags(op: Op) {
    op.SetRead? || op.BatchRead?
  }

  predicate NewFlag(op: Op)
    requires SetsFlags(op)
  {
    op.BatchRead? || op.isRead
  }

  predicate Names(op: Op, a: Article)
    requires SetsFlags(op)
  {
    if op.SetRead? then a.id == op.article else |op.articles| <= MAX_BATCH && a.id in op.articles
  }

  lemma SetsFlagsIs(db: Db, m: Matcher, op: Op)
    requires SetsFlags(op)
    ensures Apply(db, m, op) == db.(articles :=
              Flagged(db.articles, (a: Article) => Names(op, a) && Owns(db.feeds, op.user, a.feed), NewFlag(op)))
  {
    var after := Apply(db, m, op).articles;
    var p := (a: Article) => Names(op, a) && Owns(db.feeds, op.user, a.feed);
    if op.BatchRead? && |op.articles| > MAX_BATCH {
      assert forall i | 0 <= i < |db.articles| :: !p(db.articles[i]);
    }
    assert after == Flagged(db.articles, p, NewFlag(op));
  }

  /** The request names a row of the user that no rule excludes and that has the other flag. */
  ghost predicate Changes(db: Db, m: Matcher, op: Op)
    requires SetsFlags(op)
  {
    exists a | a in db.articles :: Names(op, a) && Shows(db, m, op.user, a) && a.isRead != NewFlag(op)
  }

  lemma FlagRequestKeepsCountsIff(db: Db, m: Matcher, op: Op)
    requires SetsFlags(op)
    ensures FreshCounts(Apply(db, m, op), m, op.user) == FreshCounts(db, m, op.user) <==> !Changes(db, m, op)
  {
    hide FreshCounts, Apply, Excluded, Flagged, Names, NewFlag;
    SetsFlagsIs(db, m, op);
    FlagKeepsCountsIff(db, m, (a: Article) => Names(op, a) && Owns(db.feeds, op.user, a.feed), NewFlag(op), op.user);
  }

  /** What the three events leave in the cache and in the database. */
  lemma OvertakenBy(s: Racing, m: Matcher, ttl: int, op: Op)
    requires SetsFlags(op) && Lookup(s.server.entries, ttl, s.server.now, op.user).None?
    ensures var after := After(s, m, ttl, [Begin(op.user), Plain(Do(op)), Finish(|s.fills|)]).server;
      && after.db == Apply(s.server.db, m, op) && after.now == s.server.now
      && op.user in after.entries
      && after.entries[op.user] == Entry(FreshCounts(s.server.db, m, op.user), s.server.now)
  {
    hide Apply, Invalidates, FreshCounts, After;
    AfterThree(s, m, ttl, Begin(op.user), Plain(Do(op)), Finish(|s.fills|));
  }

  /** A fill that a request of the same user overtakes while it marks articles read or unread does harm if
      and only if the request changes the flag of an article the user is shown. */
  lemma OvertakenFillIsFreshIff(s: Racing, m: Matcher, ttl: int, op: Op)
    requires SetsFlags(op) && ttl >= 0 && Lookup(s.server.entries, ttl, s.server.now, op.user).None?
    ensures var after := After(s, m, ttl, [Begin(op.user), Plain(Do(op)), Finish(|s.fills|)]).server;
      Answer(after, m, ttl, op.user) == FreshCounts(after.db, m, op.user) <==> !Changes(s.server.db, m, op)
  {
    hide Apply, FreshCounts, After, Changes;
    OvertakenBy(s, m, ttl, op);
    FlagRequestKeepsCountsIff(s.server.db, m, op);
  }

  // ----- Otherwise they are old, but not older than the TTL and the slowest fill

  /** The counts were fresh at some moment of the run at or after time `t`. */
  ghost predicate FreshAt(s: Racing, m: Matcher, ttl: int, events: seq<Event>, user: int, counts: ArticleCounts,
                          t: int, i: nat) {
    i <= |events| && var moment := After(s, m, ttl, events[..i]).server;
    moment.now >= t && counts == FreshCounts(moment.db, m, user)
  }

  ghost predicate WasFresh(s: Racing, m: Matcher, ttl: int, events: seq<Event>, user: int, counts: ArticleCounts,
                           t: int) {
    exists i: nat :: FreshAt(s, m, ttl, events, user, counts, t, i)
  }

  /** No fill takes longer than `slowest` from reading the counts to storing them. */
  ghost predicate FillsWithin(s: Racing, m: Matcher, ttl: int, events: seq<Event>, slowest: int) {
    forall i | 0 <= i < |events| && events[i].Finish? ::
      var before := After(s, m, ttl, events[..i]);
      events[i].k < |before.fills| ==> before.server.now - before.fills[events[i].k].at <= slowest
  }

  ghost predicate History(s: Racing, m: Matcher, ttl: int, events: seq<Event>, slowest: int, current: Racing) {
    && (forall f | f in current.fills :: WasFresh(s, m, ttl, events, f.user, f.counts, f.at))
    && (forall u | u in current.server.entries ::
          var e := current.server.entries[u];
          WasFresh(s, m, ttl, events, u, e.counts, e.cachedAt - slowest))
  }

  lemma StillWasFresh(s: Racing, m: Matcher, ttl: int, init: seq<Event>, last: Event, user: int, counts: ArticleCounts,
                      t: int, u: int)
    requires WasFresh(s, m, ttl, init, user, counts, t) && u <= t
    ensures WasFresh(s, m, ttl, init + [last], user, counts, u)
  {
    hide After, FreshCounts;
    var i: nat :| FreshAt(s, m, ttl, init, user, counts, t, i);
    assert (init + [last])[..i] == init[..i];
    assert FreshAt(s, m, ttl, init + [last], user, counts, u, i);
  }

  lemma FreshNow(s: Racing, m: Matcher, ttl: int, init: seq<Event>, last: Event, user: int, t: int)
    requires t <= After(s, m, ttl, init).server.now
    ensures WasFresh(s, m, ttl, init + [last], user, FreshCounts(After(s, m, ttl, init).server.db, m, user), t)
  {
    hide After, FreshCounts;
    assert (init + [last])[..|init|] == init;
    assert FreshAt(s, m, ttl, init + [last], user, FreshCounts(After(s, m, ttl, init).server.db, m, user), t, |init|);
  }

  lemma AfterSnoc(s: Racing, m: Matcher, ttl: int, init: seq<Event>, last: Event)
    ensures After(s, m, ttl, init + [last]) == Next(After(s, m, ttl, init), m, ttl, last)
  {
    hide Next;
    assert (init + [last])[..|init|] == init;
  }

  /** Where the fills after an event come from. */
  lemma FillsFrom(s: Racing, m: Matcher, ttl: int, e: Event)
    ensures forall f | f in Next(s, m, ttl, e).fills ::
      || (exists g | g in s.fills :: g.user == f.user && g.counts == f.counts && g.at == f.at)
      || (f.counts == FreshCounts(s.server.db, m, f.user) && f.at == s.server.now)
  {
    hide Serve, Invalidates, FreshCounts;
    var after := Next(s, m, ttl, e);
    forall i | 0 <= i < |after.fills|
      ensures
        var f := after.fills[i];
        || (exists g | g in s.fills :: g.user == f.user && g.counts == f.counts && g.at == f.at)
        || (f.counts == FreshCounts(s.server.db, m, f.user) && f.at == s.server.now)
    {
      if e.Plain? {
        assert s.fills[i] in s.fills;
      }
    }
  }

  /** Where the entries after an event come from. */
  lemma EntriesFrom(s: Racing, m: Matcher, ttl: int, e: Event)
    ensures var after := Next(s, m, ttl, e).server;
      forall u | u in after.entries ::
        || (u in s.server.entries && s.server.entries[u] == after.entries[u])
        || after.entries[u] == Entry(FreshCounts(s.server.db, m, u), s.server.now)
        || (e.Finish? && e.k < |s.fills| && s.fills[e.k].user == u &&
            after.entries[u] == Entry(s.fills[e.k].counts, s.server.now))
  {
    hide Invalidates, FreshCounts, Apply, AfterRequest;
  }

  lemma FillsKeepHistory(s: Racing, m: Matcher, ttl: int, init: seq<Event>, last: Event)
    requires forall f | f in After(s, m, ttl, init).fills :: WasFresh(s, m, ttl, init, f.user, f.counts, f.at)
    ensures forall f | f in After(s, m, ttl, init + [last]).fills ::
              WasFresh(s, m, ttl, init + [last], f.user, f.counts, f.at)
  {
    hide *;
    var before := After(s, m, ttl, init);
    AfterSnoc(s, m, ttl, init, last);
    FillsFrom(before, m, ttl, last);
    forall f | f in After(s, m, ttl, init + [last]).fills
      ensures WasFresh(s, m, ttl, init + [last], f.user, f.counts, f.at)
    {
      if g :| g in before.fills && g.user == f.user && g.counts == f.counts && g.at == f.at {
        StillWasFresh(s, m, ttl, init, last, f.user, f.counts, f.at, f.at);
      } else {
        FreshNow(s, m, ttl, init, last, f.user, f.at);
      }
    }
  }

  lemma StoredFill(s: Racing, m: Matcher, ttl: int, init: seq<Event>, last: Event, slowest: int)
    requires History(s, m, ttl, init, slowest, After(s, m, ttl, init)) && FillsWithin(s, m, ttl, init + [last], slowest)
    requires last.Finish? && last.k < |After(s, m, ttl, init).fills|
    ensures var before := After(s, m, ttl, init);
      var f := before.fills[last.k];
      before.server.now - f.at <= slowest && WasFresh(s, m, ttl, init, f.user, f.counts, f.at)
  {
    hide After, WasFresh;
    assert (init + [last])[|init|] == last && (init + [last])[..|init|] == init;
    assert After(s, m, ttl, init).fills[last.k] in After(s, m, ttl, init).fills;
  }

  lemma EntryKeepsHistory(s: Racing, m: Matcher, ttl: int, init: seq<Event>, last: Event, slowest: int, u: int)
    requires History(s, m, ttl, init, slowest, After(s, m, ttl, init))
    requires FillsWithin(s, m, ttl, init + [last], slowest) && slowest >= 0
    requires u in After(s, m, ttl, init + [last]).server.entries
    ensures var e := After(s, m, ttl, init + [last]).server.entries[u];
      WasFresh(s, m, ttl, init + [last], u, e.counts, e.cachedAt - slowest)
  {
    hide *;
    var before := After(s, m, ttl, init);
    AfterSnoc(s, m, ttl, init, last);
    EntriesFrom(before, m, ttl, last);
    var e := After(s, m, ttl, init + [last]).server.entries[u];
    if u in before.server.entries && before.server.entries[u] == e {
      OldEntry(s, m, ttl, init, slowest, u);
      StillWasFresh(s, m, ttl, init, last, u, e.counts, e.cachedAt - slowest, e.cachedAt - slowest);
    } else if e == Entry(FreshCounts(before.server.db, m, u), before.server.now) {
      FreshNow(s, m, ttl, init, last, u, e.cachedAt - slowest);
    } else {
      StoredFill(s, m, ttl, init, last, slowest);
      StillWasFresh(s, m, ttl, init, last, u, e.counts, before.fills[last.k].at, e.cachedAt - slowest);
    }
  }

  lemma OldEntry(s: Racing, m: Matcher, ttl: int, init: seq<Event>, slowest: int, u: int)
    requires History(s, m, ttl, init, slowest, After(s, m, ttl, init)) && u in After(s, m, ttl, init).server.entries
    ensures var e := After(s, m, ttl, init).server.entries[u];
      WasFresh(s, m, ttl, init, u, e.counts, e.cachedAt - slowest)
  {
    hide After, WasFresh;
  }

  lemma NextKeepsHistory(s: Racing, m: Matcher, ttl: int, init: seq<Event>, last: Event, slowest: int)
    requires History(s, m, ttl, init, slowest, After(s, m, ttl, init))
    requires FillsWithin(s, m, ttl, init + [last], slowest) && slowest >= 0
    ensures History(s, m, ttl, init + [last], slowest, After(s, m, ttl, init + [last]))
  {
    hide After, Next, FreshCounts, WasFresh, FillsWithin;
    FillsKeepHistory(s, m, ttl, init, last);
    forall u | u in After(s, m, ttl, init + [last]).server.entries
      ensures var e := After(s, m, ttl, init + [last]).server.entries[u];
        WasFresh(s, m, ttl, init + [last], u, e.counts, e.cachedAt - slowest)
    {
      EntryKeepsHistory(s, m, ttl, init, last, slowest, u);
    }
  }

  lemma {:induction false} RunKeepsHistory(s: Racing, m: Matcher, ttl: int, events: seq<Event>, slowest: int)
    requires s.server.entries == map[] && s.fills == [] && FillsWithin(s, m, ttl, events, slowest) && slowest >= 0
    ensures History(s, m, ttl, events, slowest, After(s, m, ttl, events))
  {
    hide *;
    if events == [] {
      NoHistory(s, m, ttl, slowest);
    } else {
      var init, last := events[..|events| - 1], events[|events| - 1];
      assert events == init + [last];
      FillsWithinBefore(s, m, ttl, init, last, slowest);
      RunKeepsHistory(s, m, ttl, init, slowest);
      NextKeepsHistory(s, m, ttl, init, last, slowest);
    }
  }

  lemma NoHistory(s: Racing, m: Matcher, ttl: int, slowest: int)
    requires s.server.entries == map[] && s.fills == []
    ensures History(s, m, ttl, [], slowest, After(s, m, ttl, []))
  {
    hide WasFresh;
  }

  lemma FillsWithinBefore(s: Racing, m: Matcher, ttl: int, init: seq<Event>, last: Event, slowest: int)
    requires FillsWithin(s, m, ttl, init + [last], slowest)
    ensures FillsWithin(s, m, ttl, init, slowest)
  {
    hide After;
    var events := init + [last];
    assert forall i | 0 <= i < |init| :: init[i] == events[i] && init[..i] == events[..i];
  }

  /** Whatever else writes and however fills overlap with requests, an answer is the fresh counts of
      a moment of the run no further back than the TTL plus the slowest fill. */
  lemma AnswersAreBoundedlyStale(s: Racing, m: Matcher, ttl: int, events: seq<Event>, slowest: int,
                                 user: int) returns (i: nat)
    requires s.server.entries == map[] && s.fills == [] && FillsWithin(s, m, ttl, events, slowest)
    requires ttl >= 0 && slowest >= 0
    ensures i <= |events|
    ensures var moment, after := After(s, m, ttl, events[..i]).server, After(s, m, ttl, events).server;
      && after.now - moment.now <= ttl + slowest
      && Answer(after, m, ttl, user) == FreshCounts(moment.db, m, user)
  {
    hide After, FreshCounts, FillsWithin, History, FreshAt;
    RunKeepsHistory(s, m, ttl, events, slowest);
    var after := After(s, m, ttl, events).server;
    assert events[..|events|] == events;
    if Lookup(after.entries, ttl, after.now, user).Some? {
      var e := after.entries[user];
      OldEntry(s, m, ttl, events, slowest, user);
      var j: nat :| FreshAt(s, m, ttl, events, user, e.counts, e.cachedAt - slowest, j);
      FreshAtGives(s, m, ttl, events, user, e.counts, e.cachedAt - slowest, j);
      i := j;
    } else {
      i := |events|;
    }
  }

  lemma FreshAtGives(s: Racing, m: Matcher, ttl: int, events: seq<Event>, user: int, counts: ArticleCounts, t: int,
                     i: nat)
    requires FreshAt(s, m, ttl, events, user, counts, t, i)
    ensures i <= |events| && After(s, m, ttl, events[..i]).server.now >= t
    ensures counts == FreshCounts(After(s, m, ttl, events[..i]).server.db, m, user)
  {
  }

  lemma AfterMore(s: Racing, m: Matcher, ttl: int, first: seq<Event>, a: Event, b: Event)
    ensures After(s, m, ttl, first + [a, b]) == Next(Next(After(s, m, ttl, first), m, ttl, a), m, ttl, b)
  {
    hide Next;
    assert first + [a, b] == first + [a] + [b];
    AfterSnoc(s, m, ttl, first + [a], b);
    AfterSnoc(s, m, ttl, first, a);
  }

  /** Storing after a while, and reading at the last moment the entry is good for. */
  lemma StoredLate(db: Db, counts: ArticleCounts, m: Matcher, ttl: int, late: nat, at: int)
    requires ttl >= 0
    ensures var s := Racing(Server(at, db, map[]), [Fill(7, counts, at, true)]);
      var s2 := Next(Next(s, m, ttl, Plain(Tick(late))), m, ttl, Finish(0));
      s2 == Racing(Server(at + late, db, map[7 := Entry(counts, at + late)]), [])
  {
    hide FreshCounts;
    var s := Racing(Server(at, db, map[]), [Fill(7, counts, at, true)]);
    var s1 := Next(s, m, ttl, Plain(Tick(late)));
    assert s1.fills == [Fill(7, counts, at, true)];
  }

  /** The bound is exact: an answer can be as old as the TTL and the slowest fill together. */
  lemma BoundIsReached(m: Matcher, ttl: nat, slowest: nat)
    ensures var s := Racing(Server(0, ONE_DB, map[]), []);
      var start := [Begin(7), Plain(Do(SetRead(7, 1, true)))];
      var events := start + [Plain(Tick(slowest)), Finish(0)] + [Plain(Tick(ttl))];
      var after := After(s, m, ttl, events).server;
      && after.now == ttl + slowest && Answer(after, m, ttl, 7) == FreshCounts(ONE_DB, m, 7)
      && FreshCounts(after.db, m, 7) != FreshCounts(ONE_DB, m, 7)
  {
    hide *;
    var s, read := Racing(Server(0, ONE_DB, map[]), []), ONE_DB.(articles := [UNREAD.(isRead := true)]);
    var start := [Begin(7), Plain(Do(SetRead(7, 1, true)))];
    ReadCounts(m);
    Overtaken(m, ttl);
    AfterThree(s, m, ttl, Begin(7), Plain(Do(SetRead(7, 1, true))), Finish(0));
    AfterMore(s, m, ttl, start, Plain(Tick(slowest)), Finish(0));
    StoredLate(read, FreshCounts(ONE_DB, m, 7), m, ttl, slowest, 0);
    AfterSnoc(s, m, ttl, start + [Plain(Tick(slowest)), Finish(0)], Plain(Tick(ttl)));
    TickThenAnswer(read, FreshCounts(ONE_DB, m, 7), m, ttl, slowest);
  }

  lemma TickThenAnswer(db: Db, counts: ArticleCounts, m: Matcher, ttl: nat, at: int)
    ensures var s := Racing(Server(at, db, map[7 := Entry(counts, at)]), []);
      var after := Next(s, m, ttl, Plain(Tick(ttl))).server;
      after.now == ttl + at && after.db == db && Answer(after, m, ttl, 7) == counts
  {
    hide FreshCounts;
  }
}
