/**
 * The request hooks of TokenClient and the retry callback it hands to
 * `requestSession`: `_beforeRequest` (with the `withoutKey` override of
 * TronGridClient), `_afterRequest`, `_getFrozenTime` and the callback built in
 * `_sendRequest`. They are functions of the pool state; the pool operations
 * they call are those of KeyPool.
 */
module Retry {
  import opened Wrappers
  import opened OrderedMap
  import opened KeyPool
  import opened Http

  /** The client settings the hooks read (after the constructor's defaults and adjustment). */
  datatype Config = Config(rps: int, keyRps: int, keyLimit: int, keyName: string)

  /** `options[keyName]` is truthy: present and not the empty string. */
  predicate HasKey(o: Options, keyName: string)
  {
    keyName in o && o[keyName] != ""
  }

  /** `options?.[keyName]`, with the empty string standing for a missing one. */
  function KeyOf(o: Options, keyName: string): Key
  {
    if keyName in o then o[keyName] else ""
  }

  // ---------------------------------------------------------- _beforeRequest

  datatype Before = Applied(s: PoolState, options: Options) | BeforeThrew(s: PoolState)

  /**
   * `_beforeRequest(options, retry)`. Without `withoutKey` (or on a retry) a
   * key is fetched with `_getKeys(1)` when this is a retry or the options
   * carry no key. The result of `_getKeys` is an array and therefore truthy
   * even when empty, so the options always get `keyName: keys[0]`, which is
   * `undefined` (the header is dropped) when no key was available.
   */
  function BeforeRequest(s: PoolState, cfg: Config, options: Options, retry: bool, withoutKey: bool, now: int): Before
  {
    if withoutKey && !retry then Applied(s, options)
    else if retry || !HasKey(options, cfg.keyName) then
      match Acquire(s, cfg.keyRps, cfg.keyLimit, 1, 0, now)
      case AcquireThrew(s') => BeforeThrew(s')
      case Acquired(s', keys) =>
        Applied(s', if keys == [] then options - {cfg.keyName} else options[cfg.keyName := keys[0]])
    else Applied(s, options)
  }

  /** A first attempt whose options already carry a key, or a client switched to `withoutKey`, sends them unchanged. */
  lemma BeforeRequestPassesThrough(s: PoolState, cfg: Config, options: Options, withoutKey: bool, now: int)
    requires withoutKey || HasKey(options, cfg.keyName)
    ensures BeforeRequest(s, cfg, options, false, withoutKey, now) == Applied(s, options)
  {
  }

  /**
   * Otherwise exactly the key header changes: it names the key handed out by
   * the pool, or disappears when the pool had none; the pool is left as
   * `_getKeys(1)` leaves it.
   */
  lemma BeforeRequestAppliesKey(s: PoolState, cfg: Config, options: Options, retry: bool, withoutKey: bool, now: int)
    requires retry || (!withoutKey && !HasKey(options, cfg.keyName))
    ensures var b := BeforeRequest(s, cfg, options, retry, withoutKey, now);
      match Acquire(s, cfg.keyRps, cfg.keyLimit, 1, 0, now)
      case AcquireThrew(s') => b == BeforeThrew(s')
      case Acquired(s', keys) =>
        && b.Applied? && b.s == s'
        && (forall h :: h != cfg.keyName ==> (h in b.options <==> h in options))
        && (forall h :: h != cfg.keyName && h in options ==> b.options[h] == options[h])
        && (keys == [] ==> cfg.keyName !in b.options)
        && (keys != [] ==> cfg.keyName in b.options && b.options[cfg.keyName] == keys[0] && |keys| == 1)
  {
    match Acquire(s, cfg.keyRps, cfg.keyLimit, 1, 0, now)
    case AcquireThrew(_) =>
    case Acquired(_, keys) => AcquireBound(s, cfg.keyRps, cfg.keyLimit, 1, 0, now);
  }

  // ----------------------------------------------------------- _afterRequest

  /** `response.data = JSON.parse(response.data)`, left unchanged when parsing throws. */
  function ParseBody(parse: string -> Option<Doc>, data: Body): Body
  {
    match data
    case Text(t) => (match parse(t) case None => data case Some(d) => Parsed(d))
    case _ => data
  }

  /** `_getFrozenTime` of TokenClient: always `true`, i.e. freeze for the default 10 s. */
  function BaseFrozenTime(error: string): Freeze
  {
    FreezeDefault
  }

  /** The freeze flag `_afterRequest` computes: `true`, or `_getFrozenTime(data.Error)` when that is a string. */
  function FreezeFlag(frozenTime: string -> Freeze, data: Body): Freeze
  {
    if data.Parsed? && data.doc.error.Some? then frozenTime(data.doc.error.value) else FreezeDefault
  }

  datatype After = After(s: PoolState, data: Body, reoptions: Option<Options>) | AfterThrew(s: PoolState)

  /**
   * `_afterRequest(response, options)`: any code but 403 ends without
   * touching the pool; a 403 without a key asks for one; a 403 with a key
   * frees it with the freeze flag and asks for another only when the flag
   * is truthy.
   */
  function AfterRequest(s: PoolState, cfg: Config, parse: string -> Option<Doc>, frozenTime: string -> Freeze,
                        withoutKey: bool, now: int, response: Response, options: Options): After
  {
    var data := ParseBody(parse, response.data);
    if response.code != 403 then After(s, data, None)
    else if !HasKey(options, cfg.keyName) then
      match BeforeRequest(s, cfg, options, true, withoutKey, now)
      case BeforeThrew(s') => AfterThrew(s')
      case Applied(s', o) => After(s', data, Some(o))
    else
      var frozen := FreezeFlag(frozenTime, data);
      var s1 := Free(s, options[cfg.keyName], frozen, now);
      if !Truthy(frozen) then After(s1, data, None)
      else
        match BeforeRequest(s1, cfg, options, true, withoutKey, now)
        case BeforeThrew(s') => AfterThrew(s')
        case Applied(s', o) => After(s', data, Some(o))
  }

  // -------------------------------------------------------- retry callback

  /** The decision the callback takes, from the code, the attempt number, the retry limit, the key and the freeze flag. */
  datatype Decision =
    | GiveUp        // retries used up: release the key normally and stop
    | Backoff       // no response or a 5xx other than 500: retry in 100 ms with the same options
    | Accept        // any other code but 403: stop, the key is kept
    | AskKey        // 403 without a key: retry at once with a key
    | Rotate(f: Freeze) // 403 with a key: free it with flag f, retry at once with another only when f is truthy

  function Classify(code: int, times: nat, maxRetry: int, hasKey: bool, f: Freeze): Decision
  {
    if times >= maxRetry then GiveUp
    else if code == -1 || (500 < code < 600) then Backoff
    else if code != 403 then Accept
    else if !hasKey then AskKey
    else Rotate(f)
  }

  /** The pause before retrying after a stream error or a 5xx answer. */
  const BackoffMs: int := 100

  /**
   * The callback of `_sendRequest` for the attempt numbered `times`, shown
   * `shown` (whose `options` are the attempt's). It answers with a fresh
   * `{ code, headers, data }`.
   */
  function Callback(s: PoolState, cfg: Config, maxRetry: int, parse: string -> Option<Doc>, frozenTime: string -> Freeze,
                    withoutKey: bool, now: int, shown: Response, times: nat): Reply<PoolState>
  {
    var options := if shown.options.Some? then shown.options.value else map[];
    var response := Response(shown.code, shown.headers, shown.data, None);
    if times >= maxRetry then
      Returned(Free(s, KeyOf(options, cfg.keyName), NoFreeze, now), Verdict(response, -1, None))
    else if shown.code == -1 || (500 < shown.code < 600) then
      Returned(s, Verdict(response, BackoffMs, None))
    else
      match AfterRequest(s, cfg, parse, frozenTime, withoutKey, now, response, options)
      case AfterThrew(s') => Threw(s')
      case After(s', data, reoptions) =>
        Returned(s', Verdict(response.(data := data), if reoptions.Some? then 0 else -1, reoptions))
  }

  /**
   * The callback follows the decision table: what it does to the pool, the
   * delay it answers and the options it hands back depend only on the
   * decision `Classify` takes.
   */
  lemma CallbackFollowsDecision(s: PoolState, cfg: Config, maxRetry: int, parse: string -> Option<Doc>,
                                frozenTime: string -> Freeze, withoutKey: bool, now: int, shown: Response, times: nat)
    requires shown.options.Some?
    ensures var options := shown.options.value;
      var data := ParseBody(parse, shown.data);
      var response := Response(shown.code, shown.headers, shown.data, None);
      var d := Classify(shown.code, times, maxRetry, HasKey(options, cfg.keyName), FreezeFlag(frozenTime, data));
      var r := Callback(s, cfg, maxRetry, parse, frozenTime, withoutKey, now, shown, times);
      && (d.GiveUp? ==> r == Returned(Free(s, KeyOf(options, cfg.keyName), NoFreeze, now), Verdict(response, -1, None)))
      && (d.Backoff? ==> r == Returned(s, Verdict(response, 100, None)))
      && (d.Accept? ==> r == Returned(s, Verdict(response.(data := data), -1, None)))
      && (d.AskKey? ==>
            match BeforeRequest(s, cfg, options, true, withoutKey, now)
            case BeforeThrew(s') => r == Threw(s')
            case Applied(s', o) => r == Returned(s', Verdict(response.(data := data), 0, Some(o))))
      && (d.Rotate? && !Truthy(d.f) ==>
            r == Returned(Free(s, options[cfg.keyName], d.f, now), Verdict(response.(data := data), -1, None)))
      && (d.Rotate? && Truthy(d.f) ==>
            match BeforeRequest(Free(s, options[cfg.keyName], d.f, now), cfg, options, true, withoutKey, now)
            case BeforeThrew(s') => r == Threw(s')
            case Applied(s', o) => r == Returned(s', Verdict(response.(data := data), 0, Some(o))))
  {
  }

  /**
   * With the base `_getFrozenTime`, a 403 on a keyed request always freezes
   * the key for 10 s and retries with another one, never stopping there.
   */
  lemma Keyed403RotatesKey(s: PoolState, cfg: Config, maxRetry: int, parse: string -> Option<Doc>,
                           withoutKey: bool, now: int, shown: Response, times: nat)
    requires shown.options.Some? && HasKey(shown.options.value, cfg.keyName)
    requires shown.code == 403 && times < maxRetry
    ensures var key := shown.options.value[cfg.keyName];
      var r := Callback(s, cfg, maxRetry, parse, BaseFrozenTime, withoutKey, now, shown, times);
      var s1 := Free(s, key, FreezeDefault, now);
      && (key in Keys(s.apikeys) ==>
            key !in Keys(s1.apikeys) && Get(s1.frozen, key).Some?
            && Get(s1.frozen, key).value.expiry == now + 10000)
      && (r.Returned? ==> r.verdict.next == 0 && r.verdict.reoptions.Some?)
  {
    var key := shown.options.value[cfg.keyName];
    if key in Keys(s.apikeys) {
      FreeFreezes(s, key, FreezeDefault, now);
    }
  }

  /**
   * A `_getFrozenTime` answering a truthy value that `parseInt` reads as 0
   * (the string "0", the number 0.5) freezes the key until `now` only, and
   * still asks for another key at once: the flag's truthiness, not its
   * parsed length, decides the retry.
   */
  lemma ZeroParsedFreezeRetries(s: PoolState, cfg: Config, maxRetry: int, parse: string -> Option<Doc>,
                                frozenTime: string -> Freeze, withoutKey: bool, now: int, shown: Response, times: nat)
    requires shown.options.Some? && HasKey(shown.options.value, cfg.keyName)
    requires shown.code == 403 && times < maxRetry
    requires FreezeFlag(frozenTime, ParseBody(parse, shown.data)) == FreezeParsed(0)
    ensures var key := shown.options.value[cfg.keyName];
      var r := Callback(s, cfg, maxRetry, parse, frozenTime, withoutKey, now, shown, times);
      var s1 := Free(s, key, FreezeParsed(0), now);
      && (key in Keys(s.apikeys) ==>
            key !in Keys(s1.apikeys) && Get(s1.frozen, key).Some?
            && Get(s1.frozen, key).value.expiry == now)
      && (r.Returned? ==> r.verdict.next == 0 && r.verdict.reoptions.Some?)
  {
    var key := shown.options.value[cfg.keyName];
    if key in Keys(s.apikeys) {
      FreeFreezes(s, key, FreezeParsed(0), now);
    }
  }

  /**
   * A `_getFrozenTime` answering a falsy value (false or 0) does not freeze:
   * the key is released normally and the request is not retried.
   */
  lemma FalsyFreezeReleasesAndStops(s: PoolState, cfg: Config, maxRetry: int, parse: string -> Option<Doc>,
                                    frozenTime: string -> Freeze, withoutKey: bool, now: int, shown: Response, times: nat)
    requires shown.options.Some? && HasKey(shown.options.value, cfg.keyName)
    requires shown.code == 403 && times < maxRetry
    requires !Truthy(FreezeFlag(frozenTime, ParseBody(parse, shown.data)))
    ensures var key := shown.options.value[cfg.keyName];
      var r := Callback(s, cfg, maxRetry, parse, frozenTime, withoutKey, now, shown, times);
      && r.Returned? && r.verdict.next == -1
      && r.s.frozen == s.frozen
      && (key in Keys(s.apikeys) ==> Get(r.s.apikeys, key).value.inUse == Max(0, Get(s.apikeys, key).value.inUse - 1))
  {
    var key := shown.options.value[cfg.keyName];
    if key in Keys(s.apikeys) {
      FreeReleases(s, key, FreezeFlag(frozenTime, ParseBody(parse, shown.data)), now);
    }
  }

  /**
   * Only the exhausted and the 403 paths touch the pool: a success, a 5xx or
   * a stream error before the limit leaves every key as it was, so a key
   * handed out for a successful request stays counted as in use.
   */
  lemma NonForbiddenKeepsPool(s: PoolState, cfg: Config, maxRetry: int, parse: string -> Option<Doc>,
                              frozenTime: string -> Freeze, withoutKey: bool, now: int, shown: Response, times: nat)
    requires shown.code != 403 && times < maxRetry
    ensures var r := Callback(s, cfg, maxRetry, parse, frozenTime, withoutKey, now, shown, times);
      r.Returned? && r.s == s
  {
  }

  // -------------------------------------------------- the pool invariants

  /** What the client keeps true of its pool: both tables are Maps, and no key is in use more than keyRps times. */
  predicate PoolOk(s: PoolState, cfg: Config)
  {
    WellFormed(s) && (cfg.keyRps >= 0 ==> InUseBounded(s, cfg.keyRps))
  }

  lemma BeforeRequestKeepsPool(s: PoolState, cfg: Config, options: Options, retry: bool, withoutKey: bool, now: int)
    requires PoolOk(s, cfg)
    ensures PoolOk(BeforeRequest(s, cfg, options, retry, withoutKey, now).s, cfg)
  {
    AcquireKeepsWellFormed(s, cfg.keyRps, cfg.keyLimit, 1, 0, now);
    if cfg.keyRps >= 0 {
      AcquireKeepsInUseBound(s, cfg.keyRps, cfg.keyLimit, 1, 0, now);
    }
  }

  /** Every answer of the callback, a throw included, leaves the pool invariants holding. */
  lemma CallbackKeepsPool(s: PoolState, cfg: Config, maxRetry: int, parse: string -> Option<Doc>, frozenTime: string -> Freeze,
                          withoutKey: bool, now: int, shown: Response, times: nat)
    requires PoolOk(s, cfg)
    ensures PoolOk(Callback(s, cfg, maxRetry, parse, frozenTime, withoutKey, now, shown, times).s, cfg)
  {
    var options := if shown.options.Some? then shown.options.value else map[];
    if times >= maxRetry {
      if cfg.keyRps >= 0 {
        FreeKeepsInUseBound(s, KeyOf(options, cfg.keyName), NoFreeze, now, cfg.keyRps);
      }
    } else if !(shown.code == -1 || (500 < shown.code < 600)) {
      AfterRequestKeepsPool(s, cfg, parse, frozenTime, withoutKey, now, Response(shown.code, shown.headers, shown.data, None), options);
    }
  }

  lemma AfterRequestKeepsPool(s: PoolState, cfg: Config, parse: string -> Option<Doc>, frozenTime: string -> Freeze,
                              withoutKey: bool, now: int, response: Response, options: Options)
    requires PoolOk(s, cfg)
    ensures PoolOk(AfterRequest(s, cfg, parse, frozenTime, withoutKey, now, response, options).s, cfg)
  {
    if response.code == 403 {
      if !HasKey(options, cfg.keyName) {
        BeforeRequestKeepsPool(s, cfg, options, true, withoutKey, now);
      } else {
        var frozen := FreezeFlag(frozenTime, ParseBody(parse, response.data));
        if cfg.keyRps >= 0 {
          FreeKeepsInUseBound(s, options[cfg.keyName], frozen, now, cfg.keyRps);
        }
        BeforeRequestKeepsPool(Free(s, options[cfg.keyName], frozen, now), cfg, options, true, withoutKey, now);
      }
    }
  }

  // ------------------------------------------------------ the whole session

  /** The callback `_sendRequest` passes, with the clock reading `clock(times)` during attempt `times`. */
  function ClientRetry(cfg: Config, maxRetry: int, parse: string -> Option<Doc>, frozenTime: string -> Freeze,
                       withoutKey: bool, clock: nat -> int): (S: (PoolState, Response, nat) -> Reply<PoolState>)
  {
    (s: PoolState, r: Response, t: nat) => Callback(s, cfg, maxRetry, parse, frozenTime, withoutKey, clock(t), r, t)
  }

  lemma ClientRetryCalls(cfg: Config, maxRetry: int, parse: string -> Option<Doc>, frozenTime: string -> Freeze,
                         withoutKey: bool, clock: nat -> int, s: PoolState, r: Response, t: nat)
    ensures ClientRetry(cfg, maxRetry, parse, frozenTime, withoutKey, clock)(s, r, t)
         == Callback(s, cfg, maxRetry, parse, frozenTime, withoutKey, clock(t), r, t)
  {
  }

  /**
   * With the client's callback a session always ends: by the attempt
   * numbered max(maxRetry, 0) the callback answers -1 (or the session is
   * closed, or the callback threw), so max(maxRetry, 0) + 1 attempts suffice.
   */
  lemma {:induction false} SessionEnds(cfg: Config, maxRetry: int, parse: string -> Option<Doc>, frozenTime: string -> Freeze,
                                       withoutKey: bool, clock: nat -> int,
                                       s: PoolState, options: Options, times: nat, sent: seq<Options>, waits: seq<nat>, fuel: nat,
                                       open: nat -> bool, send: (nat, Options) -> seq<Event>)
    requires fuel > 0 && times <= Max0(maxRetry) < times + fuel
    ensures var o := Session(s, options, times, sent, waits, fuel, ClientRetry(cfg, maxRetry, parse, frozenTime, withoutKey, clock), open, send);
      o.Some? && |o.value.sent| <= |sent| + Max0(maxRetry) + 1 - times
    decreases fuel
  {
    var retry := ClientRetry(cfg, maxRetry, parse, frozenTime, withoutKey, clock);
    var r := Attempt(send(times, options));
    if open(times) {
      var shown := r.(options := Some(options));
      ClientRetryCalls(cfg, maxRetry, parse, frozenTime, withoutKey, clock, s, shown, times);
      match retry(s, shown, times)
      case Threw(_) =>
      case Returned(s', v) =>
        if v.next >= 0 {
          assert times < maxRetry;
          var options' := if v.reoptions.Some? then v.reoptions.value else options;
          SessionEnds(cfg, maxRetry, parse, frozenTime, withoutKey, clock, s', options', times + 1,
                      sent + [options], waits + [Wait(v.next)], fuel - 1, open, send);
        }
    }
  }

  /** Every attempt of the session answers `code`, and the session stays open. */
  ghost predicate AlwaysAnswers(send: (nat, Options) -> seq<Event>, code: int)
  {
    forall t: nat, o: Options :: Attempt(send(t, o)).code == code
  }

  /**
   * A server that always answers 503 gets the request max(maxRetry, 0) + 1
   * times (attempts 0 .. maxRetry), 100 ms apart and with the same options;
   * the last 503 is returned, not thrown, and the key is released once.
   */
  lemma {:induction false} Always503(cfg: Config, maxRetry: int, parse: string -> Option<Doc>, frozenTime: string -> Freeze,
                                     withoutKey: bool, clock: nat -> int,
                                     s: PoolState, options: Options, times: nat, sent: seq<Options>, waits: seq<nat>, fuel: nat,
                                     send: (nat, Options) -> seq<Event>)
    requires AlwaysAnswers(send, 503)
    requires times <= Max0(maxRetry) && times + fuel > Max0(maxRetry)
    ensures var o := Session(s, options, times, sent, waits, fuel, ClientRetry(cfg, maxRetry, parse, frozenTime, withoutKey, clock),
                             (t: nat) => true, send);
      && o.Some?
      && o.value.sent == sent + Fill(options, Max0(maxRetry) + 1 - times)
      && o.value.waits == waits + Fill(100, Max0(maxRetry) - times)
      && o.value.response.code == 503
      && o.value.s == Free(s, KeyOf(options, cfg.keyName), NoFreeze, clock(Max0(maxRetry)))
    decreases fuel
  {
    var retry := ClientRetry(cfg, maxRetry, parse, frozenTime, withoutKey, clock);
    var r := Attempt(send(times, options));
    assert r.code == 503;
    var shown := r.(options := Some(options));
    ClientRetryCalls(cfg, maxRetry, parse, frozenTime, withoutKey, clock, s, shown, times);
    if times >= maxRetry {
      assert times == Max0(maxRetry);
      assert Fill(options, 1) == [options];
      assert waits + Fill(100, 0) == waits;
    } else {
      var v := retry(s, shown, times);
      assert v == Returned(s, Verdict(Response(503, r.headers, r.data, None), 100, None));
      Always503(cfg, maxRetry, parse, frozenTime, withoutKey, clock, s, options, times + 1,
                sent + [options], waits + [100], fuel - 1, send);
      FillCons(options, Max0(maxRetry) - times);
      FillCons(100, Max0(maxRetry) - times - 1);
      assert sent + [options] + Fill(options, Max0(maxRetry) - times) == sent + Fill(options, Max0(maxRetry) + 1 - times);
      assert waits + [100] + Fill(100, Max0(maxRetry) - times - 1) == waits + Fill(100, Max0(maxRetry) - times);
    }
  }
}
