/**
 * The TokenClient object itself: the fields the source updates in place
 * (the key tables, the evicted list, the reset day, the pending counter and
 * the `requestTask` queue, and TronGridClient's `witoutedKey` switch) and the methods
 * that update them. Each method is proved to perform exactly the transition
 * of the pure definitions in KeyPool, Retry, Admission and Http, whose
 * properties are proved there.
 */
module Client {
  import opened Wrappers
  import opened OrderedMap
  import opened KeyPool
  import opened Http
  import opened Retry
  import opened Admission

  /** The constructor's options object; None stands for an entry left undefined, which takes the default. */
  datatype Settings = Settings(
    host: string,
    keys: seq<Key>,
    rps: Option<int>,
    keyRps: Option<int>,
    keyLimit: Option<int>,
    keyName: Option<string>)

  function OrDefault<T>(o: Option<T>, d: T): T
  {
    if o.Some? then o.value else d
  }

  const DefaultRps: int := 80
  const DefaultKeyRps: int := 12
  const DefaultKeyLimit: int := 33000
  const DefaultKeyName: string := "TRON-PRO-API-KEY"

  /** A call of `_request` waiting in `requestTask`: its options and retry limit. */
  datatype Task = Task(options: Options, maxRetry: int)

  /** The calls `request` submits for a fan-out, in row order. */
  function Tasks(f: Fanout<Options>): (r: seq<Task>)
    ensures |r| == |f.requests|
    ensures forall i :: 0 <= i < |r| ==> r[i] == Task(f.requests[i], f.maxRetry)
  {
    seq(|f.requests|, i requires 0 <= i < |f.requests| => Task(f.requests[i], f.maxRetry))
  }

  /** What `_sendRequest` resolves with: the session's response, tagged with the host and the options of the first attempt. */
  datatype Sent = Sent(response: Response, host: string, request: Options)

  /**
   * `_sendRequest(options, maxRetry)` on the pool state `s`. `connected` says
   * whether `connect` got a connection (it throws otherwise); `clock(t)` is
   * the time during attempt `t`, the first `_beforeRequest` running at
   * `clock(0)`. A throw (no connection, or the day-reset error inside
   * `_beforeRequest`) gives None: `_request` catches it and resolves with
   * undefined. The session gets max(maxRetry, 0) + 1 attempts of fuel, which
   * SendAnswers shows is always enough.
   */
  function Send(s: PoolState, cfg: Config, host: string, withoutKey: bool, options: Options, maxRetry: int, connected: bool,
                parse: string -> Option<Doc>, frozenTime: string -> Freeze, clock: nat -> int,
                open: nat -> bool, send: (nat, Options) -> seq<Http.Event>): (PoolState, Option<Sent>)
  {
    if !connected then (s, None)
    else
      match Retry.BeforeRequest(s, cfg, options, false, withoutKey, clock(0))
      case BeforeThrew(s1) => (s1, None)
      case Applied(s1, o) =>
        var out := Session(s1, o, 0, [], [], Max0(maxRetry) + 1, ClientRetry(cfg, maxRetry, parse, frozenTime, withoutKey, clock), open, send);
        if out.None? then (s1, None)
        else (out.value.s, Some(Sent(out.value.response, host, o)))
  }

  /**
   * A request resolves with a response exactly when the connection is there
   * and the first `_beforeRequest` does not throw; the response records the
   * options that first `_beforeRequest` produced.
   */
  lemma SendAnswers(s: PoolState, cfg: Config, host: string, withoutKey: bool, options: Options, maxRetry: int, connected: bool,
                    parse: string -> Option<Doc>, frozenTime: string -> Freeze, clock: nat -> int,
                    open: nat -> bool, send: (nat, Options) -> seq<Http.Event>)
    ensures var r := Send(s, cfg, host, withoutKey, options, maxRetry, connected, parse, frozenTime, clock, open, send);
      var b := Retry.BeforeRequest(s, cfg, options, false, withoutKey, clock(0));
      && (r.1.Some? <==> connected && b.Applied?)
      && (r.1.Some? ==> r.1.value.request == b.options && r.1.value.host == host)
  {
    if connected {
      match Retry.BeforeRequest(s, cfg, options, false, withoutKey, clock(0))
      case BeforeThrew(_) =>
      case Applied(s1, o) =>
        SessionEnds(cfg, maxRetry, parse, frozenTime, withoutKey, clock, s1, o, 0, [], [], Max0(maxRetry) + 1, open, send);
    }
  }

  /** `goal` is what remains, `rest`, after the passes so far evicted `evicted` and took `keys`. */
  predicate Joined(goal: Pass, evicted: seq<Key>, keys: seq<Key>, rest: Pass)
  {
    goal == Pass(rest.kept, evicted + rest.evicted, keys + rest.taken)
  }

  lemma JoinedStep(goal: Pass, evicted: seq<Key>, keys: seq<Key>, ev: seq<Key>, taken: seq<Key>, rest: Pass)
    requires Joined(goal, evicted, keys, Pass(rest.kept, ev + rest.evicted, taken + rest.taken))
    ensures Joined(goal, evicted + ev, keys + taken, rest)
  {
    assert evicted + (ev + rest.evicted) == (evicted + ev) + rest.evicted;
    assert keys + (taken + rest.taken) == (keys + taken) + rest.taken;
  }

  /** One turn of the polling loop: the pass just made either ends the loop or leaves the rest to the later passes. */
  lemma PollStep(goal: Pass, evicted: seq<Key>, keys: seq<Key>, a: OMap<Counters>, need: nat, elapsed: nat, maxwait: int,
                 keyRps: int, keyLimit: int, kept: OMap<Counters>, ev: seq<Key>, taken: seq<Key>)
    requires Joined(goal, evicted, keys, Passes(a, need, elapsed, maxwait, keyRps, keyLimit))
    requires Scan(a, need, keyRps, keyLimit) == Pass(kept, ev, taken)
    ensures |taken| <= need
    ensures |taken| >= need || elapsed >= maxwait ==> goal == Pass(kept, evicted + ev, keys + taken)
    ensures !(|taken| >= need || elapsed >= maxwait) ==>
      Joined(goal, evicted + ev, keys + taken, Passes(kept, need - |taken|, elapsed + PollMs, maxwait, keyRps, keyLimit))
  {
    ScanTakesAtMostNeed(a, need, keyRps, keyLimit);
    PassesFirst(a, need, elapsed, maxwait, keyRps, keyLimit);
    if !(|taken| >= need || elapsed >= maxwait) {
      JoinedStep(goal, evicted, keys, ev, taken, Passes(kept, need - |taken|, elapsed + PollMs, maxwait, keyRps, keyLimit));
    }
  }

  class TokenClient {
    const host: string
    /** The adjusted limit: a call is queued once more than `rps` are pending. */
    const rps: int
    const keyRps: int
    const keyLimit: int
    const keyName: string

    /** key -> [inUse, dailyTotal], in Map order. */
    var apikeys: OMap<Counters>
    /** key -> [expiry, carriedTotal]. */
    var fronzekeys: OMap<Thaw>
    var overloadKeys: seq<Key>
    var resetDay: int
    var requestPending: nat
    var requestTask: seq<Task>
    /** TronGridClient's `withoutKey` switch; a plain TokenClient never sets it. */
    var witoutedKey: bool

    function State(): PoolState
      reads this
    {
      PoolState(apikeys, fronzekeys, overloadKeys, resetDay)
    }

    function Cfg(): Config
    {
      Config(rps, keyRps, keyLimit, keyName)
    }

    function Scheduler(): Sched<Task>
      reads this
    {
      Sched(requestPending, requestTask)
    }

    /**
     * Both tables are Maps, no key is in use more than keyRps times (for a
     * non-negative keyRps), and the admission bound holds.
     */
    predicate Valid()
      reads this
    {
      PoolOk(State(), Cfg()) && rps >= 1 && Inv(Scheduler(), rps)
    }

    /** `new TokenClient(options)`: defaults for what is undefined, rps lowered by one (at least 1), then `_setKeys(keys)`. */
    constructor(settings: Settings)
      ensures host == settings.host
      ensures rps == EffectiveRps(OrDefault(settings.rps, DefaultRps))
      ensures keyRps == OrDefault(settings.keyRps, DefaultKeyRps)
      ensures keyLimit == OrDefault(settings.keyLimit, DefaultKeyLimit)
      ensures keyName == OrDefault(settings.keyName, DefaultKeyName)
      ensures State() == AddKeys(PoolState([], [], [], 0), settings.keys)
      ensures Scheduler() == Sched(0, []) && !witoutedKey
      ensures Valid()
    {
      host := settings.host;
      rps := Max(1, OrDefault(settings.rps, DefaultRps) - 1);
      keyRps := OrDefault(settings.keyRps, DefaultKeyRps);
      keyLimit := OrDefault(settings.keyLimit, DefaultKeyLimit);
      keyName := OrDefault(settings.keyName, DefaultKeyName);
      apikeys := [];
      fronzekeys := [];
      overloadKeys := [];
      resetDay := 0;
      requestPending := 0;
      requestTask := [];
      witoutedKey := false;
      new;
      assert InUseAtMost(apikeys, keyRps);
      SetKeys(settings.keys);
      AddKeysSpec(PoolState([], [], [], 0), settings.keys);
    }

    /** `_setKeys(keys)`: each key not yet active nor evicted enters the active table as [0, 0]. */
    method SetKeys(keys: seq<Key>)
      requires Valid()
      modifies this`apikeys
      ensures State() == AddKeys(old(State()), keys)
      ensures Valid()
    {
      AddKeysSpec(State(), keys);
      if keyRps >= 0 {
        AddKeysKeepsInUseBound(State(), keys, keyRps);
      }
      for i := 0 to |keys|
        invariant State() == AddKeys(old(State()), keys[..i])
      {
        assert keys[..i + 1][..i] == keys[..i];
        var key := keys[i];
        if key in overloadKeys || key in Keys(apikeys) {
          continue;
        }
        apikeys := Set(apikeys, key, Counters(0, 0));
      }
      assert keys[..|keys|] == keys;
    }

    /**
     * The body of the `for ... of self.apikeys` loop of `_getKeys` for the
     * entry `e`, `need` keys still wanted: at the daily limit the entry is
     * deleted and its key pushed onto overloadKeys; otherwise `take` copies
     * (none without headroom) are added to both counters in place.
     */
    method VisitEntry(e: (Key, Counters), need: nat, ghost before: OMap<Counters>, ghost after: OMap<Counters>)
      returns (evict: bool, take: nat)
      requires apikeys == before + [e] + after && Distinct(apikeys)
      modifies this`apikeys, this`overloadKeys
      ensures evict <==> e.1.total >= keyLimit
      ensures take == Take(e.1, need, keyRps, keyLimit)
      ensures evict ==> apikeys == before + after && overloadKeys == old(overloadKeys) + [e.0]
      ensures !evict ==> apikeys == before + [Bump(e, take)] + after && overloadKeys == old(overloadKeys)
      ensures Distinct(apikeys)
    {
      var (key, val) := e;
      if val.total >= keyLimit {
        DeleteMid(before, e, after);
        apikeys := Delete(apikeys, key);
        overloadKeys := overloadKeys + [key];
        return true, 0;
      }
      var remain := keyRps - val.inUse;
      if remain <= 0 {
        assert Bump(e, 0) == e;
        return false, 0;
      }
      take := Min(remain, need);
      SetMid(before, e, after, Counters(val.inUse + take, val.total + take));
      apikeys := Set(apikeys, key, Counters(val.inUse + take, val.total + take));
      evict := false;
    }

    /** One pass of the `for ... of self.apikeys` loop of `_getKeys`, `need0` keys still wanted. */
    method ScanPass(need0: nat) returns (taken: seq<Key>, evicted: seq<Key>)
      requires Distinct(apikeys)
      modifies this`apikeys, this`overloadKeys
      ensures Scan(old(apikeys), need0, keyRps, keyLimit) == Pass(apikeys, evicted, taken)
      ensures overloadKeys == old(overloadKeys) + evicted
      ensures Distinct(apikeys)
    {
      var entries := apikeys;
      ghost var goal := Scan(entries, need0, keyRps, keyLimit);
      ghost var kept: OMap<Counters> := [];
      taken, evicted := [], [];
      var need: nat := need0;
      var i := 0;
      assert kept + goal.kept == goal.kept && [] + goal.evicted == goal.evicted && [] + goal.taken == goal.taken;
      while i < |entries| && need > 0
        invariant 0 <= i <= |entries|
        invariant apikeys == kept + entries[i..] && Distinct(apikeys)
        invariant ScanSoFar(goal, kept, evicted, taken, Scan(entries[i..], need, keyRps, keyLimit))
        invariant overloadKeys == old(overloadKeys) + evicted
      {
        var e := entries[i];
        Unroll(kept, entries, i);
        ScanStep(goal, kept, evicted, taken, e, entries[i + 1..], need, keyRps, keyLimit);
        var evict, take := VisitEntry(e, need, kept, entries[i + 1..]);
        if evict {
          evicted := evicted + [e.0];
        } else {
          kept := kept + [Bump(e, take)];
          taken := taken + Repeat(e.0, take);
          need := need - take;
        }
        i := i + 1;
      }
      assert Scan(entries[i..], need, keyRps, keyLimit) == Pass(entries[i..], [], []);
      assert evicted + [] == evicted && taken + [] == taken;
    }

    /** The unfreeze loop of `_getKeys`: expired frozen entries are written back as [0, carried]; none is removed. */
    method UnfreezeKeys(now: int)
      modifies this`apikeys
      ensures apikeys == Unfreeze(old(apikeys), fronzekeys, now)
    {
      var frozen := fronzekeys;
      for i := 0 to |frozen|
        invariant apikeys == Unfreeze(old(apikeys), frozen[..i], now)
        invariant frozen == fronzekeys
      {
        assert frozen[..i + 1][..i] == frozen[..i];
        var (key, thaw) := frozen[i];
        if thaw.expiry < now {
          apikeys := Set(apikeys, key, Counters(0, thaw.carried));
        }
      }
      assert frozen[..|frozen|] == frozen;
    }

    /** One turn of the polling loop: a scan pass, and what it leaves to the later passes. */
    method PollTurn(need: nat, elapsed: nat, maxwait: int, ghost goal: Pass, ghost evicted: seq<Key>, ghost keys: seq<Key>)
        returns (taken: seq<Key>, ev: seq<Key>)
      requires Distinct(apikeys)
      requires Joined(goal, evicted, keys, Passes(apikeys, need, elapsed, maxwait, keyRps, keyLimit))
      modifies this`apikeys, this`overloadKeys
      ensures Distinct(apikeys) && overloadKeys == old(overloadKeys) + ev && |taken| <= need
      ensures |taken| >= need || elapsed >= maxwait ==> goal == Pass(apikeys, evicted + ev, keys + taken)
      ensures !(|taken| >= need || elapsed >= maxwait) ==>
        Joined(goal, evicted + ev, keys + taken, Passes(apikeys, need - |taken|, elapsed + PollMs, maxwait, keyRps, keyLimit))
    {
      ghost var before := apikeys;
      taken, ev := ScanPass(need);
      PollStep(goal, evicted, keys, before, need, elapsed, maxwait, keyRps, keyLimit, apikeys, ev, taken);
    }

    /**
     * The `while (true)` loop of `_getKeys`: scan passes, 10 ms apart on the
     * model's clock, until `amount` keys are found or `maxwait` has elapsed.
     */
    method Poll(amount: nat, maxwait: int) returns (keys: seq<Key>, evicted: seq<Key>)
      requires Distinct(apikeys)
      modifies this`apikeys, this`overloadKeys
      ensures Passes(old(apikeys), amount, 0, maxwait, keyRps, keyLimit) == Pass(apikeys, evicted, keys)
      ensures overloadKeys == old(overloadKeys) + evicted
    {
      ghost var goal := Passes(apikeys, amount, 0, maxwait, keyRps, keyLimit);
      evicted := [];
      var need: nat := amount;
      var elapsed: nat := 0;
      keys := [];
      assert [] + goal.evicted == goal.evicted && [] + goal.taken == goal.taken;
      while true
        invariant Distinct(apikeys)
        invariant overloadKeys == old(overloadKeys) + evicted
        invariant Joined(goal, evicted, keys, Passes(apikeys, need, elapsed, maxwait, keyRps, keyLimit))
        decreases Max(maxwait - elapsed, 0)
      {
        var taken, ev := PollTurn(need, elapsed, maxwait, goal, evicted, keys);
        assert (old(overloadKeys) + evicted) + ev == old(overloadKeys) + (evicted + ev);
        keys := keys + taken;
        evicted := evicted + ev;
        if |taken| >= need || elapsed >= maxwait {
          return;
        }
        need := need - |taken|;
        elapsed := elapsed + PollMs;
      }
    }

    /** `_getKeys(amount, maxwait)` called at time `now`; `threw` reports the day-reset ReferenceError. */
    method GetKeys(amount: int, maxwait: int, now: int) returns (keys: seq<Key>, threw: bool)
      requires Valid()
      modifies this`apikeys, this`overloadKeys, this`resetDay
      ensures var r := Acquire(old(State()), keyRps, keyLimit, amount, maxwait, now);
        && State() == r.s
        && (threw <==> r.AcquireThrew?)
        && (!threw ==> keys == r.keys)
      ensures Valid()
    {
      AcquireKeepsWellFormed(State(), keyRps, keyLimit, amount, maxwait, now);
      if keyRps >= 0 {
        AcquireKeepsInUseBound(State(), keyRps, keyLimit, amount, maxwait, now);
      }
      var date := now / DayMs;
      if date != resetDay {
        resetDay := date;
        if overloadKeys != [] {
          // As written, the restore loop assigns to `key` before the `let`
          // that declares it: a ReferenceError, thrown after resetDay moved.
          return [], true;
        }
      }
      ghost var s1 := State();
      UnfreezeKeys(now);
      UnfreezeSpec(s1.apikeys, s1.frozen, now, "");
      var evicted;
      keys, evicted := Poll(Max(amount, 1), maxwait);
      threw := false;
    }

    /** `_freeKey(key, frozen)` at time `now`. */
    method FreeKey(key: Key, frozen: Freeze, now: int)
      requires Valid()
      modifies this`apikeys, this`fronzekeys
      ensures State() == Free(old(State()), key, frozen, now)
      ensures Valid()
    {
      if keyRps >= 0 {
        FreeKeepsInUseBound(State(), key, frozen, now, keyRps);
      }
      if key == "" {
        return;
      }
      var row := Get(apikeys, key);
      if row.None? {
        return;
      }
      if Truthy(frozen) {
        assert Free(State(), key, frozen, now).apikeys == Delete(apikeys, key);
        apikeys := Delete(apikeys, key);
        fronzekeys := Set(fronzekeys, key, Thaw(now + FreezeMs(frozen), row.value.total));
      } else {
        apikeys := Set(apikeys, key, Counters(Max(0, row.value.inUse - 1), row.value.total));
      }
    }

    /** TronGridClient's `withoutKey(without)`. */
    method WithoutKey(without: bool)
      requires Valid()
      modifies this`witoutedKey
      ensures witoutedKey == without
      ensures Valid()
    {
      witoutedKey := without;
    }

    /** `_beforeRequest(options, retry)` (with TronGridClient's override) at time `now`; `threw` as in GetKeys. */
    method BeforeRequest(options: Options, retry: bool, now: int) returns (result: Options, threw: bool)
      requires Valid()
      modifies this`apikeys, this`overloadKeys, this`resetDay
      ensures var b := Retry.BeforeRequest(old(State()), Cfg(), options, retry, witoutedKey, now);
        && State() == b.s
        && (threw <==> b.BeforeThrew?)
        && (!threw ==> result == b.options)
      ensures Valid()
    {
      if witoutedKey && !retry {
        return options, false;
      }
      if retry || !HasKey(options, keyName) {
        var keys;
        keys, threw := GetKeys(1, 0, now);
        if threw {
          return options, true;
        }
        result := if keys == [] then options - {keyName} else options[keyName := keys[0]];
      } else {
        result, threw := options, false;
      }
    }

    /** Replaces the pool fields with the state the session's callbacks left. */
    method SetState(s: PoolState)
      modifies this`apikeys, this`fronzekeys, this`overloadKeys, this`resetDay
      ensures State() == s
    {
      apikeys, fronzekeys, overloadKeys, resetDay := s.apikeys, s.frozen, s.overload, s.resetDay;
    }

    /** `_sendRequest(options, maxRetry)`; the callback's pool updates are carried through the session as values. */
    method SendRequest(options: Options, maxRetry: int, connected: bool,
                       parse: string -> Option<Doc>, frozenTime: string -> Freeze, clock: nat -> int,
                       open: nat -> bool, send: (nat, Options) -> seq<Http.Event>)
      returns (res: Option<Sent>)
      requires Valid()
      modifies this`apikeys, this`fronzekeys, this`overloadKeys, this`resetDay
      ensures (State(), res) == Send(old(State()), Cfg(), host, witoutedKey, options, maxRetry, connected,
                                     parse, frozenTime, clock, open, send)
      ensures Valid()
    {
      if !connected {
        return None;
      }
      var o, threw := BeforeRequest(options, false, clock(0));
      if threw {
        return None;
      }
      var retry := ClientRetry(Cfg(), maxRetry, parse, frozenTime, witoutedKey, clock);
      var out := RequestSession(State(), o, Max0(maxRetry) + 1, retry, open, send);
      forall s0: PoolState, r: Response, t: nat | PoolOk(s0, Cfg())
        ensures PoolOk(retry(s0, r, t).s, Cfg())
      {
        ClientRetryCalls(Cfg(), maxRetry, parse, frozenTime, witoutedKey, clock, s0, r, t);
        CallbackKeepsPool(s0, Cfg(), maxRetry, parse, frozenTime, witoutedKey, clock(t), r, t);
      }
      SessionKeeps((p: PoolState) => PoolOk(p, Cfg()), State(), o, 0, [], [], Max0(maxRetry) + 1, retry, open, send);
      if out.None? {
        return None;
      }
      SetState(out.value.s);
      res := Some(Sent(out.value.response, host, o));
    }

    /**
     * The admission half of `_request`: start the call now, or queue it when
     * more than rps are pending. It keeps Valid; it does not require it,
     * because `Complete` resubmits the oldest task after lowering the counter
     * and before that task has started, where the bound is briefly not met.
     */
    method Submit(task: Task) returns (started: bool)
      modifies this`requestPending, this`requestTask
      ensures (Scheduler(), started) == Admission.Submit(old(Scheduler()), rps, task)
      ensures old(Valid()) ==> Valid()
    {
      if Valid() {
        SubmitKeepsInv(Scheduler(), rps, task);
      }
      if requestPending > rps {
        requestTask := requestTask + [task];
        return false;
      }
      requestPending := requestPending + 1;
      return true;
    }

    /**
     * The end of a started `_request`, whether its send resolved or threw:
     * the counter goes down and the oldest queued task runs `_request`
     * again; `next` is that task when it started.
     */
    method Complete() returns (next: Option<Task>)
      requires Valid() && requestPending > 0
      modifies this`requestPending, this`requestTask
      ensures (Scheduler(), next) == Admission.Complete(old(Scheduler()), rps)
      ensures Valid()
    {
      CompleteStartsOldest(Scheduler(), rps);
      requestPending := requestPending - 1;
      if requestTask == [] {
        return None;
      }
      var task := requestTask[0];
      requestTask := requestTask[1..];
      var started := Submit(task);
      next := if started then Some(task) else None;
    }

    /**
     * The submission half of `request(options, multis, maxRetry)`: the
     * fan-out plan and one `_request` per planned option set, in order.
     */
    method Request(options: Options, multis: Multis<Options>, maxRetry: Option<int>) returns (f: Fanout<Options>, started: seq<bool>)
      requires Valid()
      modifies this`requestPending, this`requestTask
      ensures f == Plan(options, multis, maxRetry)
      ensures (Scheduler(), started) == SubmitAll(old(Scheduler()), rps, Tasks(f))
      ensures Valid()
    {
      f := Plan(options, multis, maxRetry);
      started := SubmitTasks(Tasks(f));
    }

    /** The `for` loop of `request`: one `_request` per task, in order. */
    method SubmitTasks(tasks: seq<Task>) returns (started: seq<bool>)
      requires Valid()
      modifies this`requestPending, this`requestTask
      ensures (Scheduler(), started) == SubmitAll(old(Scheduler()), rps, tasks)
      ensures Valid()
    {
      started := [];
      for i := 0 to |tasks|
        invariant (Scheduler(), started) == SubmitAll(old(Scheduler()), rps, tasks[..i])
        invariant Valid()
      {
        SubmitAllSnoc(old(Scheduler()), rps, tasks[..i], tasks[i]);
        assert tasks[..i + 1] == tasks[..i] + [tasks[i]];
        var b := Submit(tasks[i]);
        started := started + [b];
      }
      assert tasks[..|tasks|] == tasks;
    }
  }
}
