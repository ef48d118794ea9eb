/**
 * The admission scheduler of TokenClient (`_request` with the
 * `requestPending` counter and the `requestTask` queue) as discrete submit
 * and complete events, the constructor's adjustment of `rps`, and the fan-out
 * of `request(options, multis, maxRetry)`.
 */
module Admission {
  import opened Wrappers

  /** The constructor keeps max(1, rps - 1): `_request` queues once more than that many are pending. */
  function EffectiveRps(rps: int): (r: int)
    ensures r >= 1
    ensures rps >= 2 ==> r == rps - 1
  {
    if rps - 1 > 1 then rps - 1 else 1
  }

  /** The scheduler's state: requests in flight, and the queued ones, oldest first. */
  datatype Sched<R> = Sched(pending: nat, queue: seq<R>)

  /**
   * `_request(options)`: queued exactly when `requestPending > rps`,
   * otherwise started (the counter goes up by one). `started` says which.
   */
  function Submit<R>(s: Sched<R>, rps: int, r: R): (res: (Sched<R>, bool))
  {
    if s.pending > rps then (s.(queue := s.queue + [r]), false)
    else (s.(pending := s.pending + 1), true)
  }

  /**
   * The end of a started request, whether its send returned or threw: the
   * counter goes down by one and the oldest queued task, if any, runs; that
   * task is `_request` again, so it starts or is queued anew by the same rule.
   */
  function Complete<R>(s: Sched<R>, rps: int): (res: (Sched<R>, Option<R>))
    requires s.pending > 0
  {
    var s1 := s.(pending := s.pending - 1);
    if s.queue == [] then (s1, None)
    else
      var (s2, started) := Submit(s1.(queue := s.queue[1..]), rps, s.queue[0]);
      (s2, if started then Some(s.queue[0]) else None)
  }

  /** At most rps + 1 requests are in flight, and something waits only when all rps + 1 slots are taken. */
  predicate Inv<R>(s: Sched<R>, rps: int)
  {
    s.pending <= rps + 1 && (s.queue != [] ==> s.pending == rps + 1)
  }

  lemma SubmitKeepsInv<R>(s: Sched<R>, rps: int, r: R)
    requires rps >= 0 && Inv(s, rps)
    ensures Inv(Submit(s, rps, r).0, rps)
    ensures Submit(s, rps, r).1 <==> s.pending <= rps
    ensures Submit(s, rps, r).1 ==> s.queue == [] && Submit(s, rps, r).0.queue == []
  {
  }

  /** A completion with a non-empty queue starts exactly the oldest queued request and keeps the counter. */
  lemma CompleteStartsOldest<R>(s: Sched<R>, rps: int)
    requires rps >= 0 && s.pending > 0 && Inv(s, rps)
    ensures var (s', started) := Complete(s, rps);
      && Inv(s', rps)
      && (s.queue == [] ==> started == None && s'.pending == s.pending - 1 && s'.queue == [])
      && (s.queue != [] ==> started == Some(s.queue[0]) && s'.pending == s.pending && s'.queue == s.queue[1..])
  {
  }

  datatype Event<R> = Sub(r: R) | Done

  /** What an event submits: its request, or nothing for a completion. */
  function SubmittedBy<R>(e: Event<R>): seq<R>
  {
    if e.Sub? then [e.r] else []
  }

  /** The requests of a trace in order of submission. */
  function Submitted<R>(events: seq<Event<R>>): seq<R>
  {
    if events == [] then []
    else Submitted(events[..|events| - 1]) + SubmittedBy(events[|events| - 1])
  }

  /**
   * One event: the new state and the request it starts, if any. A
   * completion with nothing pending cannot happen and is ignored.
   */
  function Step<R>(s: Sched<R>, rps: int, e: Event<R>): (res: (Sched<R>, seq<R>))
  {
    match e
    case Sub(r) =>
      var (s1, now) := Submit(s, rps, r);
      (s1, if now then [r] else [])
    case Done =>
      if s.pending == 0 then (s, [])
      else
        var (s1, next) := Complete(s, rps);
        (s1, if next.Some? then [next.value] else [])
  }

  /** A trace of events: the state after it and the requests started, in the order they started. */
  function Run<R>(s: Sched<R>, rps: int, events: seq<Event<R>>): (res: (Sched<R>, seq<R>))
  {
    if events == [] then (s, [])
    else
      var (s1, started) := Run(s, rps, events[..|events| - 1]);
      var (s2, now) := Step(s1, rps, events[|events| - 1]);
      (s2, started + now)
  }

  /** One event keeps the bound, and the queue plus what it submits is what it starts plus the new queue. */
  lemma StepIsFifo<R>(s: Sched<R>, rps: int, e: Event<R>)
    requires rps >= 0 && Inv(s, rps)
    ensures var (s', now) := Step(s, rps, e);
      && Inv(s', rps)
      && s.queue + SubmittedBy(e) == now + s'.queue
  {
    match e
    case Sub(r) =>
      SubmitKeepsInv(s, rps, r);
      if s.pending <= rps {
        assert s.queue + [r] == [r] + [];
      }
    case Done =>
      if s.pending > 0 {
        CompleteStartsOldest(s, rps);
        if s.queue != [] {
          assert s.queue == [s.queue[0]] + s.queue[1..];
        }
      }
  }

  /** Two FIFO stages in a row make one: the queue's contents carry over from the first to the second. */
  lemma Regroup<R>(q0: seq<R>, in1: seq<R>, in2: seq<R>, out1: seq<R>, q1: seq<R>, out2: seq<R>, q2: seq<R>)
    requires q0 + in1 == out1 + q1 && q1 + in2 == out2 + q2
    ensures q0 + (in1 + in2) == (out1 + out2) + q2
  {
    calc {
      q0 + (in1 + in2);
      (q0 + in1) + in2;
      (out1 + q1) + in2;
      out1 + (q1 + in2);
      out1 + (out2 + q2);
    }
  }

  /**
   * First in, first out: whatever the interleaving of submissions and
   * completions, the requests started so far followed by those still queued
   * are exactly the requests submitted, in submission order; and the bound
   * on requests in flight always holds.
   */
  lemma {:induction false} RunIsFifo<R>(s: Sched<R>, rps: int, events: seq<Event<R>>)
    requires rps >= 0 && Inv(s, rps)
    ensures var (s', started) := Run(s, rps, events);
      && Inv(s', rps)
      && s.queue + Submitted(events) == started + s'.queue
  {
    if events != [] {
      var init, e := events[..|events| - 1], events[|events| - 1];
      RunIsFifo(s, rps, init);
      var r1 := Run(s, rps, init);
      StepIsFifo(r1.0, rps, e);
      var r2 := Step(r1.0, rps, e);
      assert Run(s, rps, events) == (r2.0, r1.1 + r2.1);
      assert Submitted(events) == Submitted(init) + SubmittedBy(e);
      Regroup(s.queue, Submitted(init), SubmittedBy(e), r1.1, r1.0.queue, r2.1, r2.0.queue);
    }
  }

  /**
   * The constructor's adjustment lets rps requests run at once for rps >= 2,
   * but two for rps = 1: max(1, rps - 1) + 1 slots.
   */
  lemma InFlightLimit(rps: int)
    ensures rps >= 2 ==> EffectiveRps(rps) + 1 == rps
    ensures rps <= 2 ==> EffectiveRps(rps) + 1 == 2
  {
  }

  /** Two requests submitted to a fresh client built with rps = 1 both start at once. */
  lemma SingleRpsAdmitsTwo()
    ensures var s1 := Submit(Sched(0, []), EffectiveRps(1), "a");
      var s2 := Submit(s1.0, EffectiveRps(1), "b");
      s1.1 && s2.1 && s2.0.pending == 2
  {
  }

  /** The adjustment as evidently intended: at most max(1, rps) requests in flight. */
  function EffectiveRpsIntended(rps: int): (r: int)
    ensures r >= 0
  {
    if rps - 1 > 0 then rps - 1 else 0
  }

  /**
   * With the corrected adjustment, over any interleaving of submissions and
   * completions on a fresh client, at most max(1, rps) requests are in flight,
   * and the requests still run first in, first out.
   */
  lemma {:induction false} IntendedLimit<R>(rps: int, events: seq<Event<R>>)
    ensures var (s', started) := Run(Sched(0, []), EffectiveRpsIntended(rps), events);
      && s'.pending <= (if rps >= 1 then rps else 1)
      && (s'.queue != [] ==> s'.pending == (if rps >= 1 then rps else 1))
      && Submitted(events) == started + s'.queue
  {
    RunIsFifo(Sched(0, []), EffectiveRpsIntended(rps), events);
    assert [] + Submitted(events) == Submitted(events);
  }

  /** With the corrected adjustment, a client built with rps = 1 queues the second of two requests. */
  lemma IntendedSingleRpsAdmitsOne()
    ensures var s1 := Submit(Sched(0, []), EffectiveRpsIntended(1), "a");
      var s2 := Submit(s1.0, EffectiveRpsIntended(1), "b");
      s1.1 && !s2.1 && s2.0.pending == 1 && s2.0.queue == ["b"]
  {
  }

  // -------------------------------------------------------------- fan-out

  /** The `multis` argument of `request`: a number, an array of option rows, or anything else. */
  datatype Multis<O> = Count(n: int) | Rows(rows: seq<O>) | Absent

  /** What `request` sends: one merged option set per row, the retry limit, and whether it answers with a list. */
  datatype Fanout<O> = Fanout(requests: seq<O>, maxRetry: int, batch: bool)

  const DefaultMaxRetry: int := 3

  /**
   * `request(options, multis, maxRetry = 3)`: a number replaces maxRetry; an
   * array gives one request per row with `{...options, ...row}`; anything
   * else, and the empty array, gives a single request with `options`
   * (merged with `{}`).
   */
  function Plan(options: map<string, string>, multis: Multis<map<string, string>>, maxRetry: Option<int>): (f: Fanout<map<string, string>>)
  {
    var limit := if multis.Count? then multis.n else if maxRetry.Some? then maxRetry.value else DefaultMaxRetry;
    var batch := multis.Rows? && |multis.rows| > 0;
    var rows := if batch then multis.rows else [map[]];
    Fanout(Merge(options, rows), limit, batch)
  }

  function Merge(options: map<string, string>, rows: seq<map<string, string>>): (r: seq<map<string, string>>)
    ensures |r| == |rows|
    ensures forall i :: 0 <= i < |rows| ==> r[i] == options + rows[i]
  {
    if rows == [] then [] else [options + rows[0]] + Merge(options, rows[1..])
  }

  /**
   * One request per row of a non-empty array, each with the row's entries
   * overriding the shared ones; exactly one otherwise, with the shared options.
   */
  lemma PlanShape(options: map<string, string>, multis: Multis<map<string, string>>, maxRetry: Option<int>)
    ensures var f := Plan(options, multis, maxRetry);
      && (f.batch <==> multis.Rows? && multis.rows != [])
      && (f.batch ==> |f.requests| == |multis.rows|
                      && forall i :: 0 <= i < |f.requests| ==>
                           (forall k :: k in f.requests[i] <==> k in options || k in multis.rows[i])
                           && (forall k :: k in multis.rows[i] ==> f.requests[i][k] == multis.rows[i][k])
                           && (forall k :: k in options && k !in multis.rows[i] ==> f.requests[i][k] == options[k]))
      && (!f.batch ==> f.requests == [options])
      && f.maxRetry == (if multis.Count? then multis.n else if maxRetry.Some? then maxRetry.value else 3)
  {
    var f := Plan(options, multis, maxRetry);
    if !f.batch {
      assert options + map[] == options;
    }
  }

  /** The answer of `request`: the list of results for a batch, the first (only) one otherwise. */
  datatype Answer<T> = Many(results: seq<T>) | One(result: T)

  function Respond<T>(f: Fanout<map<string, string>>, results: seq<T>): Answer<T>
    requires |results| == |f.requests| && |results| > 0
  {
    if f.batch then Many(results) else One(results[0])
  }

  /** An empty array still sends one request and answers with its single result, not a list. */
  lemma EmptyArraySendsOne<T>(options: map<string, string>, maxRetry: Option<int>, result: T)
    ensures var f := Plan(options, Rows([]), maxRetry);
      && f.requests == [options]
      && Respond(f, [result]) == One(result)
  {
    assert options + map[] == options;
  }

  /** Submitting the requests of a fan-out one after another. */
  function SubmitAll<R>(s: Sched<R>, rps: int, rs: seq<R>): (res: (Sched<R>, seq<bool>))
    ensures |res.1| == |rs|
    decreases |rs|
  {
    if rs == [] then (s, [])
    else
      var (s1, b) := Submit(s, rps, rs[0]);
      var (s2, bs) := SubmitAll(s1, rps, rs[1..]);
      (s2, [b] + bs)
  }

  /**
   * A batch submitted with an empty queue starts its first free-slot-many
   * rows at once and queues the rest in order.
   */
  lemma {:induction false} SubmitAllFillsSlots<R>(s: Sched<R>, rps: int, rs: seq<R>)
    requires rps >= 0 && Inv(s, rps) && s.queue == []
    ensures var free := rps + 1 - s.pending;
      var k := if |rs| < free then |rs| else free;
      var (s', started) := SubmitAll(s, rps, rs);
      && (forall i :: 0 <= i < |rs| ==> (started[i] <==> i < k))
      && s'.pending == s.pending + k
      && s'.queue == rs[k..]
    decreases |rs|
  {
    if rs != [] {
      var (s1, b) := Submit(s, rps, rs[0]);
      if s.pending <= rps {
        SubmitAllFillsSlots(s1, rps, rs[1..]);
        var (s2, bs) := SubmitAll(s1, rps, rs[1..]);
        assert rs[1..][(if |rs| - 1 < rps + 1 - s1.pending then |rs| - 1 else rps + 1 - s1.pending)..]
            == rs[(if |rs| < rps + 1 - s.pending then |rs| else rps + 1 - s.pending)..];
      } else {
        QueuedAll(s1, rps, rs[1..]);
        assert [rs[0]] + rs[1..] == rs;
      }
    }
  }

  /** With every slot taken, a batch is queued whole. */
  lemma {:induction false} QueuedAll<R>(s: Sched<R>, rps: int, rs: seq<R>)
    requires s.pending > rps
    ensures var (s', started) := SubmitAll(s, rps, rs);
      && (forall i :: 0 <= i < |rs| ==> !started[i])
      && s'.pending == s.pending && s'.queue == s.queue + rs
    decreases |rs|
  {
    if rs != [] {
      QueuedAll(s.(queue := s.queue + [rs[0]]), rps, rs[1..]);
      assert s.queue + [rs[0]] + rs[1..] == s.queue + rs;
    }
  }

  /** Submitting a batch one more request at a time: the loop `request` performs. */
  lemma {:induction false} SubmitAllSnoc<R>(s: Sched<R>, rps: int, rs: seq<R>, r: R)
    ensures var (s1, bs) := SubmitAll(s, rps, rs);
      SubmitAll(s, rps, rs + [r]) == (Submit(s1, rps, r).0, bs + [Submit(s1, rps, r).1])
    decreases |rs|
  {
    if rs == [] {
      assert rs + [r] == [r] && [r][1..] == [];
      var (t, b) := Submit(s, rps, r);
      assert SubmitAll(t, rps, []) == (t, []);
      assert [b] + [] == [] + [b];
    } else {
      assert (rs + [r])[1..] == rs[1..] + [r];
      assert (rs + [r])[0] == rs[0];
      var (t, b) := Submit(s, rps, rs[0]);
      SubmitAllSnoc(t, rps, rs[1..], r);
      var (t1, bs) := SubmitAll(t, rps, rs[1..]);
      assert [b] + (bs + [Submit(t1, rps, r).1]) == ([b] + bs) + [Submit(t1, rps, r).1];
    }
  }
}
