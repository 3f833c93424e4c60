/**
 The cache of recent transaction counts. A call that finds no fresh entry waits for a query and
 stores its result when the query completes; calls overlap freely in between. A history is a
 list of events: calls, and completions and failures of the queries of calls that had to wait.
 */
module CountsCache {
  import opened Wrappers

  /** The period argument: "24h", "7d" or none. */
  datatype Period = Last24h | Last7d | Unrestricted

  /** None is undefined. */
  datatype Counts = Counts(last24h: Option<nat>, last7d: Option<nat>)

  datatype Cache = Cache(counts: Counts, updatedAt: int)

  const EMPTY := Cache(Counts(None, None), 0)
  const TTL := 10_000

  /** runCountsQuery, given what the database counts for both periods. */
  function QueryResult(period: Period, day: nat, week: nat): Counts {
    match period
    case Last24h => Counts(Some(day), None)
    case Last7d => Counts(None, Some(week))
    case Unrestricted => Counts(Some(day), Some(week))
  }

  /** What a call gets from the cache; None when it has to wait for a query. */
  function Serve(cache: Cache, period: Period, now: int): Option<Counts> {
    if cache.updatedAt != 0 && now - cache.updatedAt < TTL then
      match period
      case Last24h => Some(Counts(cache.counts.last24h, None))
      case Last7d => Some(Counts(None, cache.counts.last7d))
      case Unrestricted => Some(cache.counts)
    else None
  }

  // ---- Histories ----------------------------------------------------------------------------

  datatype Event =
    | Call(caller: nat, period: Period, now: int)
    | Completion(caller: nat, day: nat, week: nat, now: int)
    | Failure(caller: nat, now: int)

  /** The cache, and the period of each call that waits for its query. */
  datatype State = State(cache: Cache, waiting: map<nat, Period>)

  /** A query that ends has a call that waits; a caller's next call comes after its answer. */
  predicate Enabled(s: State, e: Event) {
    match e
    case Call(id, _, _) => id !in s.waiting
    case Completion(id, _, _, _) => id in s.waiting
    case Failure(id, _) => id in s.waiting
  }

  function Step(s: State, e: Event): State
    requires Enabled(s, e)
  {
    match e
    case Call(id, period, now) =>
      if Serve(s.cache, period, now).Some? then s else s.(waiting := s.waiting[id := period])
    case Completion(id, day, week, now) =>
      State(Cache(QueryResult(s.waiting[id], day, week), now), s.waiting - {id})
    case Failure(id, _) => State(s.cache, s.waiting - {id})
  }

  /** What the event's caller is told: the promise waits, is fulfilled or is rejected. */
  datatype Reply = Waiting | Told(counts: Counts) | Rejected

  function ReplyTo(served: Option<Counts>): Reply {
    if served.Some? then Told(served.value) else Waiting
  }

  function Answer(s: State, e: Event): Reply
    requires Enabled(s, e)
  {
    match e
    case Call(_, period, now) => ReplyTo(Serve(s.cache, period, now))
    case Completion(id, day, week, _) => Told(QueryResult(s.waiting[id], day, week))
    case Failure(_, _) => Rejected
  }

  /** The state after a history; None when some event of it could not happen. */
  function Run(events: seq<Event>): Option<State> {
    if events == [] then Some(State(EMPTY, map[]))
    else
      var s := Run(events[..|events| - 1]);
      var e := events[|events| - 1];
      if s.Some? && Enabled(s.value, e) then Some(Step(s.value, e)) else None
  }

  predicate Possible(events: seq<Event>) {
    Run(events).Some?
  }

  // ---- The program --------------------------------------------------------------------------

  class TransactionService {
    var countsCache: Cache

    constructor ()
      ensures countsCache == EMPTY
    {
      countsCache := EMPTY;
    }

    /** getTransactionCountsRecent, up to the await. */
    method Begin(period: Period, now: int) returns (served: Option<Counts>)
      ensures served == Serve(countsCache, period, now)
    {
      if countsCache.updatedAt != 0 && now - countsCache.updatedAt < TTL {
        if period == Last24h {
          return Some(Counts(countsCache.counts.last24h, None));
        }
        if period == Last7d {
          return Some(Counts(None, countsCache.counts.last7d));
        }
        return Some(Counts(countsCache.counts.last24h, countsCache.counts.last7d));
      }
      return None;
    }

    /** getTransactionCountsRecent, from the await on. */
    method Resume(result: Counts, now: int) returns (r: Counts)
      modifies this
      ensures countsCache == Cache(result, now) && r == result
    {
      countsCache := Cache(Counts(result.last24h, result.last7d), now);
      r := result;
    }
  }

  /** What each caller is told, event by event. */
  function Answers(events: seq<Event>): (answers: seq<Reply>)
    requires Possible(events)
    ensures |answers| == |events|
  {
    if events == [] then []
    else
      var before := events[..|events| - 1];
      Answers(before) + [Answer(Run(before).value, events[|events| - 1])]
  }

  /** One service object lives through a history and gives each caller its answer. */
  method Live(events: seq<Event>) returns (answers: seq<Reply>, cache: Cache)
    requires Possible(events)
    ensures answers == Answers(events)
    ensures cache == Run(events).value.cache
  {
    var service := new TransactionService();
    var waiting: map<nat, Period> := map[];
    answers := [];
    for n := 0 to |events|
      invariant Run(events[..n]) == Some(State(service.countsCache, waiting))
      invariant answers == Answers(events[..n])
    {
      PrefixPossible(events, n + 1);
      assert events[..n + 1][..n] == events[..n];
      match events[n]
      case Call(id, period, now) =>
        var served := service.Begin(period, now);
        if served.None? {
          waiting := waiting[id := period];
        }
        answers := answers + [ReplyTo(served)];
      case Completion(id, day, week, now) =>
        var r := service.Resume(QueryResult(waiting[id], day, week), now);
        waiting := waiting - {id};
        answers := answers + [Told(r)];
      case Failure(id, _) =>
        // the error passes through the call at its await: nothing after it is done
        waiting := waiting - {id};
        answers := answers + [Rejected];
    }
    assert events[..|events|] == events;
    cache := service.countsCache;
  }

  lemma {:induction false} PrefixPossible(events: seq<Event>, n: nat)
    requires Possible(events) && n <= |events|
    ensures Possible(events[..n])
  {
    if n < |events| {
      PrefixPossible(events[..|events| - 1], n);
      assert events[..|events| - 1][..n] == events[..n];
    } else {
      assert events[..n] == events;
    }
  }

  // ---- What the cache holds -----------------------------------------------------------------

  /** The last completion of a history. */
  function LastCompletion(events: seq<Event>): (k: Option<nat>)
    ensures k.Some? ==> k.value < |events| && events[k.value].Completion?
    ensures forall i :: (if k.Some? then k.value + 1 else 0) <= i < |events| ==> !events[i].Completion?
  {
    if events == [] then None
    else if events[|events| - 1].Completion? then Some(|events| - 1)
    else LastCompletion(events[..|events| - 1])
  }

  /** The last call of a caller. */
  function LastCall(events: seq<Event>, id: nat): (k: Option<nat>)
    ensures k.Some? ==> k.value < |events| && events[k.value].Call? && events[k.value].caller == id
    ensures forall i :: (if k.Some? then k.value + 1 else 0) <= i < |events| ==>
              !(events[i].Call? && events[i].caller == id)
  {
    if events == [] then None
    else if events[|events| - 1].Call? && events[|events| - 1].caller == id then Some(|events| - 1)
    else LastCall(events[..|events| - 1], id)
  }

  /** The call that the completion at position i answers. */
  function CallOf(events: seq<Event>, i: nat): Option<nat>
    requires i < |events|
  {
    LastCall(events[..i], events[i].caller)
  }

  /** The call at position c found nothing fresh in the cache. */
  predicate Missed(events: seq<Event>, c: nat) {
    && c < |events| && events[c].Call? && Possible(events[..c])
    && Serve(Run(events[..c]).value.cache, events[c].period, events[c].now) == None
  }

  /** A call that waits is its caller's last one, it missed, and nothing has answered it. */
  lemma {:induction false} WaitingIsLastCall(events: seq<Event>, id: nat)
    requires Possible(events) && id in Run(events).value.waiting
    ensures LastCall(events, id).Some?
    ensures var c := LastCall(events, id).value;
            && Run(events).value.waiting[id] == events[c].period
            && Missed(events, c)
            && forall i :: c < i < |events| ==> events[i].caller != id
  {
    var n := |events| - 1;
    if LastCall(events, id) != Some(n) {
      WaitingIsLastCall(events[..n], id);
      var c := LastCall(events[..n], id).value;
      assert events[..n][..c] == events[..c];
      assert forall i :: c < i < n ==> events[..n][i] == events[i];
    }
  }

  /** The cache is what the completion at position i of its missed call at c left in it. */
  predicate FilledBy(cache: Cache, events: seq<Event>, c: nat, i: nat) {
    && c < i < |events|
    && Missed(events, c) && events[i].Completion? && events[i].caller == events[c].caller
    && cache == Cache(QueryResult(events[c].period, events[i].day, events[i].week), events[i].now)
  }

  /** The cache is empty, or exactly the result of the last query to complete: counts never mix. */
  lemma {:induction false} CacheIsLastQuery(events: seq<Event>)
    requires Possible(events)
    ensures var cache, k := Run(events).value.cache, LastCompletion(events);
            if k.None? then cache == EMPTY
            else CallOf(events, k.value).Some? && FilledBy(cache, events, CallOf(events, k.value).value, k.value)
  {
    if events != [] {
      var n := |events| - 1;
      var before := events[..n];
      if events[n].Completion? {
        WaitingIsLastCall(before, events[n].caller);
        var c := CallOf(events, n).value;
        assert before[..c] == events[..c];
      } else {
        CacheIsLastQuery(before);
        var k := LastCompletion(before);
        if k.Some? {
          assert before[..k.value] == events[..k.value];
          var c := CallOf(before, k.value).value;
          assert before[..c] == events[..c];
        }
      }
    }
  }

  /** A call is served exactly when the last query to complete did so less than 10 seconds ago. */
  lemma {:induction false} ServedIffFresh(events: seq<Event>, period: Period, now: int)
    requires Possible(events)
    ensures Serve(Run(events).value.cache, period, now).Some?
            <==> var k := LastCompletion(events);
                 k.Some? && events[k.value].now != 0 && now - events[k.value].now < 10_000
  {
    CacheIsLastQuery(events);
  }

  /**
   A served call gets, for each period it asks for, the count of one query stored less than 10
   seconds ago; but it gets undefined exactly when that query was restricted to the other
   period. It gets nothing for a period it does not ask for.
   */
  lemma {:induction false} ServedCounts(events: seq<Event>, period: Period, now: int)
    requires Possible(events) && Serve(Run(events).value.cache, period, now).Some?
    ensures LastCompletion(events).Some? && CallOf(events, LastCompletion(events).value).Some?
    ensures var i := LastCompletion(events).value;
            var filling, counts :=
              events[CallOf(events, i).value].period, Serve(Run(events).value.cache, period, now).value;
            && now - events[i].now < 10_000
            && counts.last24h == (if period != Last7d && filling != Last7d then Some(events[i].day) else None)
            && counts.last7d == (if period != Last24h && filling != Last24h then Some(events[i].week) else None)
  {
    CacheIsLastQuery(events);
  }

  // ---- What each caller is told --------------------------------------------------------------

  lemma {:induction false} AnswersAre(events: seq<Event>, i: nat)
    requires Possible(events) && i < |events|
    ensures Possible(events[..i]) && Enabled(Run(events[..i]).value, events[i])
    ensures Answers(events)[i] == Answer(Run(events[..i]).value, events[i])
  {
    var n := |events| - 1;
    if i < n {
      AnswersAre(events[..n], i);
      assert events[..n][..i] == events[..i];
    } else if n > 0 {
      AnswersAre(events[..n], 0);
    }
  }

  /** A query tells its own caller what it counted for the periods that call asked for. */
  lemma {:induction false} QueryTells(events: seq<Event>, i: nat)
    requires Possible(events) && i < |events| && !events[i].Call?
    ensures CallOf(events, i).Some? && Missed(events, CallOf(events, i).value)
    ensures var period := events[CallOf(events, i).value].period;
            Answers(events)[i]
            == if events[i].Failure? then Rejected
               else Told(Counts(if period == Last7d then None else Some(events[i].day),
                                if period == Last24h then None else Some(events[i].week)))
  {
    AnswersAre(events, i);
    WaitingIsLastCall(events[..i], events[i].caller);
    var c := CallOf(events, i).value;
    assert events[..i][..c] == events[..c];
  }

  /** A call is told the counts of the last query to complete, if that is fresh, and has to wait if not. */
  lemma {:induction false} CallIsTold(events: seq<Event>, i: nat)
    requires Possible(events) && i < |events| && events[i].Call?
    ensures var k := LastCompletion(events[..i]);
            if k.Some? && events[k.value].now != 0 && events[i].now - events[k.value].now < 10_000 then
              && CallOf(events, k.value).Some?
              && var asked, filling := events[i].period, events[CallOf(events, k.value).value].period;
                 Answers(events)[i]
                 == Told(Counts(if Last7d in {asked, filling} then None else Some(events[k.value].day),
                                if Last24h in {asked, filling} then None else Some(events[k.value].week)))
            else Answers(events)[i] == Waiting
  {
    AnswersAre(events, i);
    var before := events[..i];
    ServedIffFresh(before, events[i].period, events[i].now);
    CacheIsLastQuery(before);
    var k := LastCompletion(before);
    if k.Some? {
      assert before[..k.value] == events[..k.value];
    }
  }

  /** A caller waits exactly when its last call missed and nothing has ended that call's query. */
  lemma {:induction false} WaitsIff(events: seq<Event>, id: nat)
    requires Possible(events)
    ensures id in Run(events).value.waiting
            <==> var c := LastCall(events, id);
                 && c.Some? && Missed(events, c.value)
                 && forall i :: c.value < i < |events| ==> events[i].caller != id
  {
    if events != [] {
      var n := |events| - 1;
      var before := events[..n];
      WaitsIff(before, id);
      var c := LastCall(events, id);
      if c.Some? && c.value < n {
        assert before[..c.value] == events[..c.value];
        assert forall i :: c.value < i < n ==> before[i] == events[i];
      }
    }
  }

  /** The clock has left zero and never goes back. */
  ghost predicate ClockRuns(events: seq<Event>) {
    && (forall i :: 0 <= i < |events| ==> events[i].now > 0)
    && forall i, j :: 0 <= i < j < |events| ==> events[i].now <= events[j].now
  }

  /** For 10 seconds after any completion, whatever else happens in between, no call starts a query. */
  lemma NoQueryWithinTtl(events: seq<Event>, i: nat, j: nat)
    requires Possible(events) && ClockRuns(events)
    requires i < j < |events| && events[i].Completion? && events[j].Call?
    requires events[j].now - events[i].now < 10_000
    ensures Possible(events[..j]) && !Missed(events, j)
  {
    PrefixPossible(events, j);
    ServedIffFresh(events[..j], events[j].period, events[j].now);
    var k := LastCompletion(events[..j]);
    assert events[..j][i].Completion?;
    assert k.Some? && i <= k.value;
  }

  // ---- Slow queries -------------------------------------------------------------------------

  /** The call at position c has been answered by a completion. */
  ghost predicate Completed(events: seq<Event>, c: nat) {
    exists i :: 0 <= i < |events| && Settles(events, i, c)
  }

  ghost predicate Settles(events: seq<Event>, i: nat, c: nat)
    requires i < |events|
  {
    events[i].Completion? && CallOf(events, i) == Some(c)
  }

  /** A call after position c has been answered. */
  ghost predicate LaterCompleted(events: seq<Event>, c: nat) {
    exists later: nat :: later > c && Completed(events, later)
  }

  /** The cache holds the result of a query although one that began later has completed before. */
  ghost predicate Stale(events: seq<Event>) {
    var k := LastCompletion(events);
    k.Some? && CallOf(events, k.value).Some? && LaterCompleted(events, CallOf(events, k.value).value)
  }

  predicate NoCalls(events: seq<Event>) {
    forall i :: 0 <= i < |events| ==> !events[i].Call?
  }

  predicate Waits(events: seq<Event>, id: nat)
    requires Possible(events)
  {
    id in Run(events).value.waiting
  }

  /** Without any new call, some completion still to come can leave the cache stale, others or failures before it. */
  ghost predicate CanGoStale(events: seq<Event>) {
    exists more, e :: NoCalls(more) && StaleWith(events, more, e)
  }

  ghost predicate StaleWith(events: seq<Event>, more: seq<Event>, e: Event) {
    e.Completion? && Possible(events + more + [e]) && Stale(events + more + [e])
  }

  /** Some call that waits began before one that has completed. */
  ghost predicate Overtaken(events: seq<Event>)
    requires Possible(events)
  {
    exists id :: Waits(events, id) && LastCall(events, id).Some? && LaterCompleted(events, LastCall(events, id).value)
  }

  ghost predicate TwoWait(events: seq<Event>)
    requires Possible(events)
  {
    exists a, b :: a != b && Waits(events, a) && Waits(events, b)
  }

  /** A query that ends, well or not, lets its call wait no longer. */
  lemma AfterCompletion(events: seq<Event>, e: Event)
    requires Possible(events) && !e.Call? && Waits(events, e.caller)
    ensures Possible(events + [e]) && forall id :: Waits(events + [e], id) <==> Waits(events, id) && id != e.caller
  {
    assert (events + [e])[..|events|] == events;
  }

  lemma CallsAfterCompletion(events: seq<Event>, e: Event)
    requires Possible(events) && e.Completion? && Waits(events, e.caller)
    ensures LastCompletion(events + [e]) == Some(|events|)
    ensures LastCall(events, e.caller).Some? && CallOf(events + [e], |events|) == LastCall(events, e.caller)
    ensures forall id :: LastCall(events + [e], id) == LastCall(events, id)
  {
    assert (events + [e])[..|events|] == events;
    WaitingIsLastCall(events, e.caller);
  }

  lemma {:induction false} CompletedAppend(events: seq<Event>, e: Event, c: nat)
    ensures Completed(events + [e], c)
            <==> Completed(events, c) || (e.Completion? && LastCall(events, e.caller) == Some(c))
  {
    var all := events + [e];
    assert all[..|events|] == events;
    forall i | 0 <= i < |events| ensures Settles(all, i, c) <==> Settles(events, i, c) {
      assert all[..i] == events[..i];
    }
    assert Settles(all, |events|, c) <==> e.Completion? && LastCall(events, e.caller) == Some(c);
    if Completed(events, c) {
      var i :| 0 <= i < |events| && Settles(events, i, c);
      assert Settles(all, i, c);
    }
  }

  /** A completion leaves the cache stale exactly when a later call has completed before it. */
  lemma StaleAfterCompletion(events: seq<Event>, e: Event)
    requires Possible(events) && e.Completion? && Waits(events, e.caller)
    ensures LastCall(events, e.caller).Some?
    ensures Stale(events + [e]) <==> LaterCompleted(events, LastCall(events, e.caller).value)
  {
    CallsAfterCompletion(events, e);
    var c := LastCall(events, e.caller).value;
    forall later: nat ensures Completed(events + [e], later) <==> Completed(events, later) || later == c {
      CompletedAppend(events, e, later);
    }
  }

  /** Of two calls that wait, the earlier one may complete last. */
  lemma TwoCanGoStale(events: seq<Event>, a: nat, b: nat)
    requires Possible(events) && a != b && Waits(events, a) && Waits(events, b)
    requires LastCall(events, a).Some? && LastCall(events, b).Some?
             && LastCall(events, a).value < LastCall(events, b).value
    ensures CanGoStale(events)
  {
    var first, second := Completion(b, 0, 0, 0), Completion(a, 0, 0, 0);
    var next := events + [first];
    AfterCompletion(events, first);
    CallsAfterCompletion(events, first);
    CompletedAppend(events, first, LastCall(events, b).value);
    assert LaterCompleted(next, LastCall(next, a).value);
    AfterCompletion(next, second);
    StaleAfterCompletion(next, second);
    assert next == events + [first] && NoCalls([first]) && StaleWith(events, [first], second);
  }

  lemma EndWaits(all: seq<Event>, n: nat)
    requires Possible(all) && n < |all| && !all[n].Call?
    ensures Possible(all[..n]) && Waits(all[..n], all[n].caller)
  {
    PrefixPossible(all, n);
    PrefixPossible(all, n + 1);
    assert all[..n + 1][..n] == all[..n];
  }

  /** Where only one call waits, only one query can end. */
  lemma OneCompletionLeft(events: seq<Event>, more: seq<Event>, e: Event)
    requires Possible(events) && !TwoWait(events)
    requires NoCalls(more) && e.Completion? && Possible(events + more + [e])
    ensures more == [] && Waits(events, e.caller)
  {
    var all, n := events + more + [e], |events|;
    assert all[..n] == events;
    EndWaits(all, n);
    if more != [] {
      assert all[n] == more[0] && all[..n + 1] == events + [more[0]];
      AfterCompletion(events, more[0]);
      var next := all[n + 1];
      assert !next.Call?;
      EndWaits(all, n + 1);
    }
  }

  /**
   Over every history: the completions still to come can leave the cache with a query begun
   earlier than one already completed if and only if two calls wait, or one that waits began
   before one that has completed.
   */
  lemma CanGoStaleIff(events: seq<Event>)
    requires Possible(events)
    ensures CanGoStale(events) <==> TwoWait(events) || Overtaken(events)
  {
    if TwoWait(events) {
      var a, b :| a != b && Waits(events, a) && Waits(events, b);
      WaitingIsLastCall(events, a);
      WaitingIsLastCall(events, b);
      if LastCall(events, a).value < LastCall(events, b).value {
        TwoCanGoStale(events, a, b);
      } else {
        TwoCanGoStale(events, b, a);
      }
    } else if Overtaken(events) {
      var id :| Waits(events, id) && LastCall(events, id).Some? && LaterCompleted(events, LastCall(events, id).value);
      var e := Completion(id, 0, 0, 0);
      AfterCompletion(events, e);
      StaleAfterCompletion(events, e);
      assert events + [] + [e] == events + [e] && NoCalls([]) && StaleWith(events, [], e);
    } else if CanGoStale(events) {
      var more, e :| NoCalls(more) && StaleWith(events, more, e);
      OneCompletionLeft(events, more, e);
      assert events + more + [e] == events + [e];
      StaleAfterCompletion(events, e);
      assert false;
    }
  }

  /** At no moment of the history do two calls wait. */
  ghost predicate SingleFlight(events: seq<Event>) {
    forall n :: 0 <= n <= |events| ==> Possible(events[..n]) && !TwoWait(events[..n])
  }

  /** If never two calls wait, queries complete in the order they began: the filling call never goes back. */
  lemma {:induction false} SingleFlightNeverStale(events: seq<Event>)
    requires SingleFlight(events)
    ensures Possible(events) && !Stale(events) && !Overtaken(events)
  {
    assert events[..|events|] == events;
    if events != [] {
      var n := |events| - 1;
      var before, e := events[..n], events[n];
      assert events == before + [e];
      forall m | 0 <= m <= n ensures Possible(before[..m]) && !TwoWait(before[..m]) {
        assert before[..m] == events[..m];
      }
      SingleFlightNeverStale(before);
      if e.Completion? {
        CompletionInOrder(before, e);
      } else {
        OtherInOrder(before, e);
      }
    }
  }

  lemma CompletionInOrder(before: seq<Event>, e: Event)
    requires Possible(before + [e]) && Possible(before) && e.Completion?
    requires !TwoWait(before) && !Overtaken(before)
    ensures !Stale(before + [e]) && !Overtaken(before + [e])
  {
    assert (before + [e])[..|before|] == before && Waits(before, e.caller);
    StaleAfterCompletion(before, e);
    AfterCompletion(before, e);
    forall id ensures !Waits(before + [e], id) {
      assert Waits(before, id) ==> id == e.caller;
    }
  }

  lemma OtherInOrder(before: seq<Event>, e: Event)
    requires Possible(before + [e]) && Possible(before) && !e.Completion?
    requires !TwoWait(before + [e]) && !Overtaken(before) && !Stale(before)
    ensures !Stale(before + [e]) && !Overtaken(before + [e])
  {
    var all := before + [e];
    assert all[..|before|] == before;
    assert LastCompletion(all) == LastCompletion(before);
    forall c: nat ensures Completed(all, c) <==> Completed(before, c) {
      CompletedAppend(before, e, c);
    }
    if LastCompletion(before).Some? {
      assert all[..LastCompletion(before).value] == before[..LastCompletion(before).value];
    }
    forall id | Waits(all, id) && LastCall(all, id).Some? ensures !LaterCompleted(all, LastCall(all, id).value) {
      if e.Call? && id == e.caller {
        forall later: nat | Completed(before, later) ensures later < |before| {
          CompletedIsEarlier(before, later);
        }
        assert LastCall(all, id) == Some(|before|);
      } else {
        assert Waits(before, id) && LastCall(all, id) == LastCall(before, id);
      }
    }
  }

  lemma CompletedIsEarlier(events: seq<Event>, c: nat)
    requires Completed(events, c)
    ensures c < |events|
  {
    var i :| 0 <= i < |events| && Settles(events, i, c);
  }

  /**
   A slow query overwrites a newer one. Here a call at 1 waits for a day count; a later call, at
   20000, misses as well and completes first; then the first one completes, and its older count
   is what the next call is served.
   */
  lemma SlowQueryOverwritesNewer(older: nat, newer: nat)
    ensures var events := [Call(0, Last24h, 1), Call(1, Last24h, 20_000),
                           Completion(1, newer, 0, 20_001), Completion(0, older, 0, 20_002)];
            && Possible(events) && ClockRuns(events)
            && Serve(Run(events).value.cache, Last24h, 20_003) == Some(Counts(Some(older), None))
  {
    var e0 := Call(0, Last24h, 1);
    var e1 := Call(1, Last24h, 20_000);
    var e2 := Completion(1, newer, 0, 20_001);
    var e3 := Completion(0, older, 0, 20_002);
    var events := [e0, e1, e2, e3];
    assert events[..3] == [e0, e1, e2];
    assert events[..3][..2] == [e0, e1];
    assert [e0, e1, e2][..2] == [e0, e1] && [e0, e1][..1] == [e0] && [e0][..0] == [];
    assert map[0 := Last24h, 1 := Last24h] - {1} == map[0 := Last24h];
    assert Run([e0]) == Some(State(EMPTY, map[0 := Last24h]));
    assert Run([e0, e1]) == Some(State(EMPTY, map[0 := Last24h, 1 := Last24h]));
    assert Run([e0, e1, e2]) == Some(State(Cache(Counts(Some(newer), None), 20_001), map[0 := Last24h]));
  }
}
