/** The durable read queue of srv/static/modules/read-queue.js against the batch endpoint of
    srv/server.go. Ids are JavaScript numbers, modelled as reals. */
module ReadQueue {
  import opened Options
  import opened Sets

  const MAX_BATCH := 200
  const INT64_LIMIT := 0x8000_0000_0000_0000

  // ----- Storage

  /** Session storage, and the in-memory set that takes over for good once a write has failed. */
  datatype Storage = Storage(session: set<real>, memory: Option<set<real>>)

  /** _readFromStorage */
  function Ids(st: Storage): set<real> {
    st.memory.GetOr(st.session)
  }

  /** _writeToStorage; `works` is false when setItem throws. */
  function Write(st: Storage, ids: set<real>, works: bool): Storage {
    if st.memory.Some? then st.(memory := Some(ids))
    else if works then st.(session := ids)
    else st.(memory := Some(ids))
  }

  // ----- The server

  /** The id decodes as a Go int64. */
  predicate Decodes(id: real) {
    id == id.Floor as real && -INT64_LIMIT <= id.Floor < INT64_LIMIT
  }

  /** apiBatchMarkRead answers 2xx: every id decodes and there are at most 200 of them. */
  predicate Acceptable(ids: set<real>) {
    |ids| <= MAX_BATCH && forall id | id in ids :: Decodes(id)
  }

  // ----- The protocol

  datatype Outcome = Waiting | Accepted | Rejected

  /** A POST; after a reload its promise has no one left to run its callbacks. */
  datatype Flight = Flight(ids: set<real>, outcome: Outcome, attached: bool)

  datatype Event =
    | Enqueue(id: real, works: bool)
    | Flush
    | Arrive(k: nat)
    | Respond(k: nat, works: bool)
    | NetworkError(k: nat)
    | Reload

  /** `enqueued`, `accepted` and `marked` record what has happened so far. */
  datatype State = State(storage: Storage, flights: seq<Flight>, enqueued: set<real>, accepted: set<real>,
                         marked: set<int>)

  const EMPTY := State(Storage({}, None), [], {}, {}, {})

  function Pending(s: State): set<real> {
    Ids(s.storage)
  }

  function Next(s: State, e: Event): State {
    match e
    case Enqueue(id, works) =>
      var after := s.(enqueued := s.enqueued + {id});
      if id in Pending(s) then after
      else after.(storage := Write(s.storage, Pending(s) + {id}, works))
    case Flush =>
      if Pending(s) == {} then s else s.(flights := s.flights + [Flight(Pending(s), Waiting, true)])
    case Arrive(k) =>
      if k >= |s.flights| || s.flights[k].outcome != Waiting then s
      else
        var f := s.flights[k];
        if Acceptable(f.ids)
        then s.(flights := s.flights[k := f.(outcome := Accepted)], accepted := s.accepted + f.ids,
                marked := s.marked + set id | id in f.ids :: id.Floor)
        else s.(flights := s.flights[k := f.(outcome := Rejected)])
    case Respond(k, works) =>
      if k >= |s.flights| || s.flights[k].outcome == Waiting || !s.flights[k].attached then s
      else
        var f := s.flights[k];
        var rest := s.(flights := s.flights[k := f.(attached := false)]);
        if f.outcome == Rejected then rest
        else rest.(storage := Write(s.storage, Pending(s) - f.ids, works))
    case NetworkError(k) =>
      if k >= |s.flights| then s else s.(flights := s.flights[k := s.flights[k].(attached := false)])
    case Reload =>
      s.(storage := s.storage.(memory := None),
         flights := seq(|s.flights|, i requires 0 <= i < |s.flights| => s.flights[i].(attached := false)))
  }

  function Run(s: State, events: seq<Event>): State
    decreases |events|
  {
    if events == [] then s else Run(Next(s, events[0]), events[1..])
  }

  /** The page is not reloaded while ids are kept in memory only. */
  predicate KeepsStorage(s: State, events: seq<Event>)
    decreases |events|
  {
    events != [] ==> (events[0] == Reload ==> s.storage.memory.None?) && KeepsStorage(Next(s, events[0]), events[1..])
  }

  ghost predicate IsWhole(id: real, n: int) {
    n as real == id
  }

  /** The batch that arrives is accepted if and only if it holds at most two hundred ids, each an integer of
      64 bits; exactly those articles are then marked read, and otherwise none. Storage is not touched. */
  lemma BatchAcceptedIff(s: State, k: nat)
    requires k < |s.flights| && s.flights[k].outcome == Waiting
    ensures var f, after := s.flights[k], Next(s, Arrive(k));
      var accepted := |f.ids| <= 200 && forall id | id in f.ids ::
        exists n: int :: IsWhole(id, n) && -9223372036854775808 <= n <= 9223372036854775807;
      && after.flights == s.flights[k := f.(outcome := if accepted then Accepted else Rejected)]
      && after.accepted == (if accepted then s.accepted + f.ids else s.accepted)
      && after.storage == s.storage && after.enqueued == s.enqueued
      && (forall n: int :: n in after.marked <==> n in s.marked || (accepted && n as real in f.ids))
  {
    var f, after := s.flights[k], Next(s, Arrive(k));
    forall id ensures Decodes(id) <==>
      exists n: int :: IsWhole(id, n) && -9223372036854775808 <= n <= 9223372036854775807
    {
      DecodesInteger(id);
    }
    if Acceptable(f.ids) {
      forall n: int ensures n in after.marked <==> n in s.marked || n as real in f.ids {
        assert (n as real).Floor == n;
        assert forall id | id in f.ids :: id.Floor as real == id;
      }
    }
  }

  lemma DecodesInteger(id: real)
    ensures Decodes(id) <==> exists n: int :: IsWhole(id, n) && -9223372036854775808 <= n <= 9223372036854775807
  {
    if n: int :| IsWhole(id, n) && -9223372036854775808 <= n <= 9223372036854775807 {
      assert id.Floor == n;
    }
    if Decodes(id) {
      assert IsWhole(id, id.Floor);
    }
  }

  // ----- Delivery

  ghost predicate Delivering(s: State) {
    && s.enqueued <= Pending(s) + s.accepted
    && (forall f | f in s.flights && f.outcome == Accepted :: f.ids <= s.accepted)
    && (forall id | id in s.accepted :: id.Floor in s.marked)
  }

  lemma NextKeepsDelivering(s: State, e: Event)
    requires Delivering(s) && (e == Reload ==> s.storage.memory.None?)
    ensures Delivering(Next(s, e))
  {
    hide Acceptable;
    var after := Next(s, e);
    match e
    case Respond(k, works) =>
      assert k < |s.flights| ==> s.flights[k] in s.flights;
    case Reload =>
      forall f | f in after.flights && f.outcome == Accepted
        ensures f.ids <= after.accepted
      {
        var i :| 0 <= i < |after.flights| && after.flights[i] == f;
        assert s.flights[i] in s.flights;
      }
    case Arrive(k) =>
      if k < |s.flights| && s.flights[k].outcome == Waiting {
        forall f | f in after.flights && f.outcome == Accepted
          ensures f.ids <= after.accepted
        {
          assert f == after.flights[k] || f in s.flights;
        }
      }
    case _ =>
  }

  /** In every interleaving of enqueues, overlapping flushes, lost responses and reloads, each
      enqueued id is still pending or was in a batch the server accepted and marked read. */
  lemma {:induction false} NothingIsLost(s: State, events: seq<Event>)
    requires Delivering(s) && KeepsStorage(s, events)
    ensures Delivering(Run(s, events))
    decreases |events|
  {
    if events != [] {
      NextKeepsDelivering(s, events[0]);
      NothingIsLost(Next(s, events[0]), events[1..]);
    }
  }

  lemma {:induction false} EnqueuedAreRecorded(s: State, events: seq<Event>, id: real)
    ensures id in Run(s, events).enqueued <==>
            id in s.enqueued || exists e | e in events :: e.Enqueue? && e.id == id
    decreases |events|
  {
    if events != [] {
      var first, rest := events[0], events[1..];
      EnqueuedAreRecorded(Next(s, first), rest, id);
      assert events == [first] + rest;
      EnqueueRecords(s, first);
      hide Next, Run;
    }
  }

  lemma EnqueueRecords(s: State, e: Event)
    ensures Next(s, e).enqueued == s.enqueued + if e.Enqueue? then {e.id} else {}
  {
    hide Acceptable;
  }

  /** The same in terms of the events: an id that was enqueued at any point of a run is pending at its end,
      or was accepted and its article marked read. */
  lemma EveryEnqueuedIdCounts(events: seq<Event>, id: real)
    requires KeepsStorage(EMPTY, events) && exists e | e in events :: e.Enqueue? && e.id == id
    ensures var s := Run(EMPTY, events);
      id in Pending(s) || (id in s.accepted && id.Floor in s.marked)
  {
    NothingIsLost(EMPTY, events);
    EnqueuedAreRecorded(EMPTY, events, id);
  }

  /** A response is acted upon once: after it has been, after an error, and after a reload, it changes
      nothing any more. A reload leaves what session storage holds. */
  lemma RespondsOnce(s: State, k: nat, works: bool, again: bool)
    requires k < |s.flights| && s.flights[k].outcome != Waiting
    ensures var after := Next(s, Respond(k, works)); Next(after, Respond(k, again)) == after
    ensures var after := Next(s, NetworkError(k)); after.storage == s.storage && Next(after, Respond(k, again)) == after
    ensures var after := Next(s, Reload);
      && Pending(after) == s.storage.session && after.storage.session == s.storage.session
      && Next(after, Respond(k, again)) == after
  {
  }

  /** The response being processed is to an accepted batch with the id in it. */
  predicate Confirms(s: State, e: Event, id: real) {
    e.Respond? && e.k < |s.flights| && s.flights[e.k].outcome == Accepted && s.flights[e.k].attached &&
    id in s.flights[e.k].ids
  }

  /** An id leaves storage only through the response to an accepted batch containing it. */
  lemma LeavesOnlyWhenConfirmed(s: State, e: Event, id: real)
    requires id in Pending(s) && (e == Reload ==> s.storage.memory.None?)
    ensures id in Pending(Next(s, e)) <==> !Confirms(s, e, id)
  {
  }

  predicate ConfirmedAlong(s: State, events: seq<Event>, id: real)
    decreases |events|
  {
    events != [] && (Confirms(s, events[0], id) || ConfirmedAlong(Next(s, events[0]), events[1..], id))
  }

  /** So an id survives any flush whose accepted snapshots do not hold it. */
  lemma {:induction false} SurvivesUnlessConfirmed(s: State, events: seq<Event>, id: real)
    requires id in Pending(s) && KeepsStorage(s, events) && !ConfirmedAlong(s, events, id)
    ensures id in Pending(Run(s, events))
    decreases |events|
  {
    if events != [] {
      LeavesOnlyWhenConfirmed(s, events[0], id);
      SurvivesUnlessConfirmed(Next(s, events[0]), events[1..], id);
    }
  }

  // ----- When the queue can drain

  lemma RejectedStaysRejected(a: set<real>, b: set<real>)
    requires a <= b && !Acceptable(a)
    ensures !Acceptable(b)
  {
    SubsetIsSmaller(a, b);
  }

  /** What is pending contains an unacceptable set, and so does every batch still under way. */
  ghost predicate Stuck(s: State, core: set<real>) {
    && !Acceptable(core) && core <= Pending(s)
    && forall f | f in s.flights :: f.outcome != Accepted && (f.outcome == Waiting ==> core <= f.ids)
  }

  lemma NextKeepsStuck(s: State, e: Event, core: set<real>)
    requires Stuck(s, core) && (e == Reload ==> s.storage.memory.None?)
    ensures Stuck(Next(s, e), core)
  {
    var after := Next(s, e);
    match e
    case Arrive(k) =>
      if k < |s.flights| && s.flights[k].outcome == Waiting {
        assert s.flights[k] in s.flights;
        RejectedStaysRejected(core, s.flights[k].ids);
      }
      hide Acceptable;
      assert forall f | f in after.flights :: f in s.flights || f == after.flights[k];
    case Respond(k, works) =>
      hide Acceptable;
      assert k < |s.flights| ==> s.flights[k] in s.flights;
      assert forall f | f in after.flights :: f in s.flights || f == after.flights[k];
    case NetworkError(k) =>
      hide Acceptable;
      assert k < |s.flights| ==> s.flights[k] in s.flights;
      assert forall f | f in after.flights :: f in s.flights || f == after.flights[k];
    case Reload =>
      hide Acceptable;
      forall f | f in after.flights
        ensures f.outcome != Accepted && (f.outcome == Waiting ==> core <= f.ids)
      {
        var i :| 0 <= i < |after.flights| && after.flights[i] == f;
        assert s.flights[i] in s.flights;
      }
    case _ => hide Acceptable;
  }

  lemma {:induction false} StuckForEver(s: State, events: seq<Event>, core: set<real>)
    requires Stuck(s, core) && KeepsStorage(s, events)
    ensures Stuck(Run(s, events), core)
    decreases |events|
  {
    if events != [] {
      NextKeepsStuck(s, events[0], core);
      StuckForEver(Next(s, events[0]), events[1..], core);
    }
  }

  ghost predicate CanDrain(s: State) {
    exists events :: KeepsStorage(s, events) && Pending(Run(s, events)) == {}
  }

  /** One flush, handled and answered, empties an acceptable queue. */
  lemma OneFlushDrains(s: State)
    requires s.flights == [] && Acceptable(Pending(s)) && Pending(s) != {}
    ensures var events := [Flush, Arrive(0), Respond(0, true)];
            KeepsStorage(s, events) && Pending(Run(s, events)) == {}
  {
    var events := [Flush, Arrive(0), Respond(0, true)];
    var s1 := Next(s, Flush);
    var s2 := Next(s1, Arrive(0));
    var s3 := Next(s2, Respond(0, true));
    hide Acceptable;
    assert s1.flights == [Flight(Pending(s), Waiting, true)] && s2.flights == [Flight(Pending(s), Accepted, true)];
    assert events[1..] == [Arrive(0), Respond(0, true)] && events[1..][1..] == [Respond(0, true)];
    assert events[1..][1..][1..] == [];
    assert Run(s3, []) == s3 && KeepsStorage(s3, []);
    assert Run(s2, [Respond(0, true)]) == s3 && KeepsStorage(s2, [Respond(0, true)]);
    assert Run(s1, [Arrive(0), Respond(0, true)]) == s3 && KeepsStorage(s1, [Arrive(0), Respond(0, true)]);
  }

  /** A queue with nothing under way can ever be emptied if and only if the server would accept
      its present contents: with more than 200 ids, or one that is no integer, no sequence of
      flushes, replays and reloads ever gets through. */
  lemma DrainsIffAcceptable(s: State)
    requires s.flights == []
    ensures CanDrain(s) <==> Acceptable(Pending(s))
  {
    if Pending(s) == {} {
      assert KeepsStorage(s, []) && Pending(Run(s, [])) == {};
    } else if Acceptable(Pending(s)) {
      OneFlushDrains(s);
    } else {
      hide Acceptable;
      var core := Pending(s);
      assert Stuck(s, core);
      forall events | KeepsStorage(s, events)
        ensures Pending(Run(s, events)) != {}
      {
        StuckForEver(s, events, core);
      }
    }
  }

  /** One id that is no integer blocks the queue for good. */
  lemma FractionNeverDrains()
    ensures var s := Run(EMPTY, [Enqueue(0.5, true)]);
      Pending(s) == {0.5} && s.flights == [] && !CanDrain(s)
  {
    var s := Next(EMPTY, Enqueue(0.5, true));
    assert Run(EMPTY, [Enqueue(0.5, true)]) == Run(s, []) == s;
    DrainsIffAcceptable(s);
    assert 0.5 in Pending(s) && !Decodes(0.5);
  }

  function Numbers(n: nat): set<real> {
    if n == 0 then {} else Numbers(n - 1) + {n as real}
  }

  /** Reading the articles 1 to n while nothing is flushed. */
  function Reading(n: nat): seq<Event> {
    seq(n, i requires 0 <= i => Enqueue((i + 1) as real, true))
  }

  lemma {:induction false} NumbersCount(n: nat)
    ensures |Numbers(n)| == n && forall x | x in Numbers(n) :: x <= n as real
  {
    if n != 0 {
      NumbersCount(n - 1);
    }
  }

  lemma {:induction false} RunConcat(s: State, a: seq<Event>, b: seq<Event>)
    ensures Run(s, a + b) == Run(Run(s, a), b)
    decreases |a|
  {
    hide Next;
    if a == [] {
      assert a + b == b;
    } else {
      assert (a + b)[1..] == a[1..] + b;
      RunConcat(Next(s, a[0]), a[1..], b);
    }
  }

  lemma {:induction false} ReadingFills(n: nat)
    ensures var s := Run(EMPTY, Reading(n));
      s.storage == Storage(Numbers(n), None) && s.flights == []
  {
    if n != 0 {
      var e := Enqueue(n as real, true);
      ReadingFills(n - 1);
      NumbersCount(n - 1);
      assert Reading(n) == Reading(n - 1) + [e];
      RunConcat(EMPTY, Reading(n - 1), [e]);
      var s := Run(EMPTY, Reading(n - 1));
      assert Run(s, [e]) == Run(Next(s, e), []) == Next(s, e);
    }
  }

  /** So do 201 ids that were read before the first flush. */
  lemma TooManyNeverDrain()
    ensures var s := Run(EMPTY, Reading(MAX_BATCH + 1));
      |Pending(s)| == MAX_BATCH + 1 && s.flights == [] && !CanDrain(s)
  {
    ReadingFills(MAX_BATCH + 1);
    NumbersCount(MAX_BATCH + 1);
    var s := Run(EMPTY, Reading(MAX_BATCH + 1));
    hide Run, Reading, Numbers;
    DrainsIffAcceptable(s);
  }

  // ----- The module

  class Queue {
    var storage: Storage

    constructor ()
      ensures storage == Storage({}, None)
    {
      storage := Storage({}, None);
    }

    method WriteToStorage(ids: set<real>, works: bool)
      modifies this
      ensures storage == Write(old(storage), ids, works)
    {
      if storage.memory.Some? {
        storage := storage.(memory := Some(ids));
        return;
      }
      if works {
        storage := storage.(session := ids);
      } else {
        storage := storage.(memory := Some(ids));
      }
    }

    method EnqueueRead(id: real, works: bool, ghost s: State)
      requires storage == s.storage
      modifies this
      ensures storage == Next(s, Enqueue(id, works)).storage
    {
      var current := Ids(storage);
      if id in current {
        return;
      }
      WriteToStorage(current + {id}, works);
    }

    /** flush up to the POST: the snapshot to send, if there is anything to send. */
    method StartFlush(ghost s: State) returns (snapshot: Option<set<real>>)
      requires storage == s.storage
      ensures storage == Next(s, Flush).storage
      ensures Next(s, Flush).flights ==
              s.flights + if snapshot.Some? then [Flight(snapshot.value, Waiting, true)] else []
    {
      var ids := Ids(storage);
      if ids == {} {
        return None;
      }
      return Some(ids);
    }

    /** The then-callback: on success remove the snapshot from what is stored by now. */
    method FinishFlush(snapshot: set<real>, ok: bool, works: bool, ghost s: State, ghost k: nat) returns (flushed: bool)
      requires storage == s.storage
      requires k < |s.flights| && s.flights[k].attached && s.flights[k].ids == snapshot
      requires s.flights[k].outcome == if ok then Accepted else Rejected
      modifies this
      ensures storage == Next(s, Respond(k, works)).storage && flushed == ok
    {
      if !ok {
        return false;
      }
      WriteToStorage(Ids(storage) - snapshot, works);
      return true;
    }
  }
}
