/**
 * The HTTP/2 helpers of src/http.js: the retry loop of `requestSession`, the
 * attempt countdown of `createConnection` and the zero-delay rule of `esleep`.
 *
 * The network is an oracle: `send(times, options)` is the sequence of stream
 * events the attempt numbered `times` produces, `open(times)` says whether the
 * session was still open when that attempt ended, and `connect(i)` is the
 * outcome of the i-th connection attempt.
 */
module Http {
  import opened Wrappers

  /** Request options: the HTTP/2 pseudo-headers and headers, plus `payload`. */
  type Options = map<string, string>
  type Headers = map<string, string>

  /** A JSON document after `JSON.parse`: its text and its `Error` field when that is a string. */
  datatype Doc = Doc(text: string, error: Option<string>)

  /** The `data` of a response: the text received, the stream error, or (after the client's hook) parsed JSON. */
  datatype Body = Text(text: string) | StreamError(error: string) | Parsed(doc: Doc)

  /** The response object `{ code, headers, data }`; `options` is set when it is shown to the retry callback. */
  datatype Response = Response(code: int, headers: Headers, data: Body, options: Option<Options>)

  /** The events of one `session.request` stream that the session listens to. */
  datatype Event = Head(status: int, headers: Headers) | Chunk(text: string) | Close | Fail(error: string)

  // ------------------------------------------------------------------ esleep

  /** The delay `esleep(time)` waits: `time` when positive, otherwise none at all. */
  function Wait(time: int): (r: nat)
    ensures r == 0 <==> time <= 0
    ensures time > 0 ==> r == time
  {
    if time > 0 then time else 0
  }

  // ----------------------------------------------------- one request attempt

  /**
   * The state `onEnd` sees: `code`, `headers` and `data` start as 500, {} and
   * '', the response event sets the first two, data events append, and the
   * model ends the attempt at the first close or error event (the source's
   * `onEnd` also runs again on a later one; that is not modelled). An error
   * sets code -1 and data to the error. A stream with no further events
   * counts as closed.
   */
  function Collect(events: seq<Event>, code: int, headers: Headers, data: string): Response
    decreases |events|
  {
    if events == [] then Response(code, headers, Text(data), None)
    else
      match events[0]
      case Head(status, h) => Collect(events[1..], status, h, data)
      case Chunk(t) => Collect(events[1..], code, headers, data + t)
      case Close => Response(code, headers, Text(data), None)
      case Fail(e) => Response(-1, headers, StreamError(e), None)
  }

  function Attempt(events: seq<Event>): Response
  {
    Collect(events, 500, map[], "")
  }

  /** The attempt ends at the first close or error. */
  predicate EndsWithin(events: seq<Event>, n: nat)
  {
    n < |events| && (events[n].Close? || events[n].Fail?)
  }

  /** No response event and no error before position `n`. */
  predicate Silent(events: seq<Event>, n: nat)
  {
    forall i :: 0 <= i < n && i < |events| ==> events[i].Chunk?
  }

  /** The text of the data events before position `n`. */
  function Chunks(events: seq<Event>, n: nat): string
    decreases n
  {
    if n == 0 || events == [] then ""
    else (if events[0].Chunk? then events[0].text else "") + Chunks(events[1..], n - 1)
  }

  /**
   * A stream that ends (at position n) without a response event and without
   * an error leaves the code at 500, with the data received so far.
   */
  lemma {:induction false} SilentStreamIs500(events: seq<Event>, n: nat, code: int, headers: Headers, data: string)
    requires EndsWithin(events, n) && events[n].Close? && Silent(events, n)
    ensures Collect(events, code, headers, data) == Response(code, headers, Text(data + Chunks(events, n)), None)
    decreases n
  {
    if n > 0 {
      assert events[0].Chunk?;
      assert EndsWithin(events[1..], n - 1);
      assert Silent(events[1..], n - 1) by {
        forall i | 0 <= i < n - 1 && i < |events[1..]| ensures events[1..][i].Chunk? {
          assert events[1..][i] == events[i + 1];
        }
      }
      SilentStreamIs500(events[1..], n - 1, code, headers, data + events[0].text);
      assert data + events[0].text + Chunks(events[1..], n - 1) == data + Chunks(events, n);
    } else {
      assert data + Chunks(events, n) == data;
    }
  }

  lemma SilentAttemptIs500(events: seq<Event>, n: nat)
    requires EndsWithin(events, n) && events[n].Close? && Silent(events, n)
    ensures Attempt(events).code == 500
    ensures Attempt(events).data == Text(Chunks(events, n))
  {
    SilentStreamIs500(events, n, 500, map[], "");
    assert "" + Chunks(events, n) == Chunks(events, n);
  }

  /** Whatever came before, an error ends the attempt with code -1 and the error as data. */
  lemma {:induction false} FailedStreamIsMinusOne(events: seq<Event>, n: nat, code: int, headers: Headers, data: string)
    requires EndsWithin(events, n) && events[n].Fail?
    requires forall i :: 0 <= i < n ==> !events[i].Close? && !events[i].Fail?
    ensures Collect(events, code, headers, data).code == -1
    ensures Collect(events, code, headers, data).data == StreamError(events[n].error)
    decreases n
  {
    if n > 0 {
      assert EndsWithin(events[1..], n - 1);
      assert events[1..][n - 1] == events[n];
      forall i | 0 <= i < n - 1 ensures !events[1..][i].Close? && !events[1..][i].Fail? {
        assert events[1..][i] == events[i + 1];
      }
      match events[0]
      case Head(status, h) => FailedStreamIsMinusOne(events[1..], n - 1, status, h, data);
      case Chunk(t) => FailedStreamIsMinusOne(events[1..], n - 1, code, headers, data + t);
    }
  }

  /** A response event followed by the close gives the status received. */
  lemma AnsweredAttempt(status: int, h: Headers, body: seq<string>)
    ensures Attempt([Head(status, h)] + ChunkEvents(body) + [Close]) == Response(status, h, Text(Concat(body)), None)
  {
    var events := [Head(status, h)] + ChunkEvents(body) + [Close];
    assert events[1..] == ChunkEvents(body) + [Close];
    ChunksCollect(body, status, h, "");
    assert "" + Concat(body) == Concat(body);
  }

  function ChunkEvents(body: seq<string>): (r: seq<Event>)
    ensures |r| == |body|
    ensures forall i :: 0 <= i < |r| ==> r[i] == Chunk(body[i])
  {
    if body == [] then [] else [Chunk(body[0])] + ChunkEvents(body[1..])
  }

  function Concat(body: seq<string>): string
  {
    if body == [] then "" else body[0] + Concat(body[1..])
  }

  lemma {:induction false} ChunksCollect(body: seq<string>, code: int, h: Headers, data: string)
    ensures Collect(ChunkEvents(body) + [Close], code, h, data) == Response(code, h, Text(data + Concat(body)), None)
    decreases |body|
  {
    if body == [] {
      assert ChunkEvents(body) + [Close] == [Close];
      assert data + Concat(body) == data;
    } else {
      assert (ChunkEvents(body) + [Close])[1..] == ChunkEvents(body[1..]) + [Close];
      ChunksCollect(body[1..], code, h, data + body[0]);
      assert data + body[0] + Concat(body[1..]) == data + Concat(body);
    }
  }

  // ------------------------------------------------------------ retry loop

  /** What the retry callback returns: `[response, next, reoptions]`. */
  datatype Verdict = Verdict(response: Response, next: int, reoptions: Option<Options>)

  /** The callback either returns a verdict or throws; `S` is the state it updates. */
  datatype Reply<S> = Returned(s: S, verdict: Verdict) | Threw(s: S)

  /**
   * The end of a session: the state left by the callbacks, the response
   * resolved, and the options of every attempt and the wait before every
   * attempt after the first, in order.
   */
  datatype Outcome<S> = Outcome(s: S, response: Response, sent: seq<Options>, waits: seq<nat>)

  /**
   * `requestSession(host, session, options, retry, timing, times)`, with the
   * options sent and waits made so far accumulated in `sent` and `waits`.
   * The callback is only consulted while the session is open; a callback that
   * throws leaves `next` at -1; `next >= 0` re-sends after `esleep(next)` with
   * `reptions || options` and `times + 1`. The source puts no bound on the
   * recursion; `fuel` bounds the number of attempts and None means it ran out.
   */
  function Session<S>(
    s: S, options: Options, times: nat, sent: seq<Options>, waits: seq<nat>, fuel: nat,
    retry: (S, Response, nat) -> Reply<S>, open: nat -> bool, send: (nat, Options) -> seq<Event>): Option<Outcome<S>>
    decreases fuel
  {
    if fuel == 0 then None
    else
      var r := Attempt(send(times, options));
      var sent' := sent + [options];
      if !open(times) then Some(Outcome(s, r, sent', waits))
      else
        var shown := r.(options := Some(options));
        match retry(s, shown, times)
        case Threw(s') => Some(Outcome(s', shown, sent', waits))
        case Returned(s', v) =>
          if v.next < 0 then Some(Outcome(s', v.response, sent', waits))
          else
            var options' := if v.reoptions.Some? then v.reoptions.value else options;
            Session(s', options', times + 1, sent', waits + [Wait(v.next)], fuel - 1, retry, open, send)
  }

  /** `requestSession` from its first attempt: the loop the recursion performs. */
  method RequestSession<S>(
    s0: S, options0: Options, fuel: nat,
    retry: (S, Response, nat) -> Reply<S>, open: nat -> bool, send: (nat, Options) -> seq<Event>)
    returns (o: Option<Outcome<S>>)
    ensures o == Session(s0, options0, 0, [], [], fuel, retry, open, send)
  {
    var s, options, times, sent, waits, f := s0, options0, 0, [], [], fuel;
    while true
      invariant Session(s0, options0, 0, [], [], fuel, retry, open, send)
             == Session(s, options, times, sent, waits, f, retry, open, send)
      decreases f
    {
      if f == 0 {
        return None;
      }
      var r := Attempt(send(times, options));
      sent := sent + [options];
      if !open(times) {
        return Some(Outcome(s, r, sent, waits));
      }
      var shown := r.(options := Some(options));
      var reply := retry(s, shown, times);
      if reply.Threw? {
        return Some(Outcome(reply.s, shown, sent, waits));
      }
      if reply.verdict.next < 0 {
        return Some(Outcome(reply.s, reply.verdict.response, sent, waits));
      }
      if reply.verdict.reoptions.Some? {
        options := reply.verdict.reoptions.value;
      }
      waits := waits + [Wait(reply.verdict.next)];
      s := reply.s;
      times := times + 1;
      f := f - 1;
    }
  }

  /** Bookkeeping of a session: one option set per attempt and one wait between consecutive attempts. */
  lemma {:induction false} SessionCounts<S>(
    s: S, options: Options, times: nat, sent: seq<Options>, waits: seq<nat>, fuel: nat,
    retry: (S, Response, nat) -> Reply<S>, open: nat -> bool, send: (nat, Options) -> seq<Event>)
    requires |sent| == |waits|
    ensures var o := Session(s, options, times, sent, waits, fuel, retry, open, send);
      o.Some? ==> |o.value.sent| == |o.value.waits| + 1
    decreases fuel
  {
    if fuel > 0 {
      var r := Attempt(send(times, options));
      if open(times) {
        match retry(s, r.(options := Some(options)), times)
        case Threw(_) =>
        case Returned(s', v) =>
          if v.next >= 0 {
            var options' := if v.reoptions.Some? then v.reoptions.value else options;
            SessionCounts(s', options', times + 1, sent + [options], waits + [Wait(v.next)], fuel - 1, retry, open, send);
          }
      }
    }
  }

  /** With the session closed the callback is skipped and the first response is returned as received. */
  lemma ClosedSessionReturnsFirstResponse<S>(
    s: S, options: Options, fuel: nat,
    retry: (S, Response, nat) -> Reply<S>, open: nat -> bool, send: (nat, Options) -> seq<Event>)
    requires fuel > 0 && !open(0)
    ensures Session(s, options, 0, [], [], fuel, retry, open, send)
         == Some(Outcome(s, Attempt(send(0, options)), [options], []))
  {
    assert [] + [options] == [options];
  }

  /** A callback that throws ends the session with the response it was shown. */
  lemma ThrowingCallbackStops<S>(
    s: S, options: Options, fuel: nat,
    retry: (S, Response, nat) -> Reply<S>, open: nat -> bool, send: (nat, Options) -> seq<Event>)
    requires fuel > 0 && open(0) && retry(s, Attempt(send(0, options)).(options := Some(options)), 0).Threw?
    ensures var o := Session(s, options, 0, [], [], fuel, retry, open, send);
      && o.Some?
      && o.value.response == Attempt(send(0, options)).(options := Some(options))
      && o.value.sent == [options]
  {
    assert [] + [options] == [options];
  }

  /**
   * A retry: after `next >= 0` the following attempt is number times + 1 and
   * sends the replacement options when given, the same options otherwise,
   * after waiting `esleep(next)`.
   */
  lemma RetryResends<S>(
    s: S, options: Options, times: nat, sent: seq<Options>, waits: seq<nat>, fuel: nat,
    retry: (S, Response, nat) -> Reply<S>, open: nat -> bool, send: (nat, Options) -> seq<Event>)
    requires fuel > 1 && open(times)
    requires var v := retry(s, Attempt(send(times, options)).(options := Some(options)), times);
      v.Returned? && v.verdict.next >= 0
    ensures var v := retry(s, Attempt(send(times, options)).(options := Some(options)), times);
      var o := Session(s, options, times, sent, waits, fuel, retry, open, send);
      var options' := if v.verdict.reoptions.Some? then v.verdict.reoptions.value else options;
      o.Some? ==>
        && |o.value.sent| >= |sent| + 2
        && o.value.sent[|sent|] == options
        && o.value.sent[|sent| + 1] == options'
        && |o.value.waits| > |waits| && o.value.waits[|waits|] == Wait(v.verdict.next)
  {
    var v := retry(s, Attempt(send(times, options)).(options := Some(options)), times);
    var options' := if v.verdict.reoptions.Some? then v.verdict.reoptions.value else options;
    SessionPrefix(v.s, options', times + 1, sent + [options], waits + [Wait(v.verdict.next)], fuel - 1, retry, open, send);
  }

  /** A session only appends to what was sent and waited before it. */
  lemma {:induction false} SessionPrefix<S>(
    s: S, options: Options, times: nat, sent: seq<Options>, waits: seq<nat>, fuel: nat,
    retry: (S, Response, nat) -> Reply<S>, open: nat -> bool, send: (nat, Options) -> seq<Event>)
    ensures var o := Session(s, options, times, sent, waits, fuel, retry, open, send);
      o.Some? ==>
        && |o.value.sent| > |sent| && o.value.sent[..|sent|] == sent && o.value.sent[|sent|] == options
        && |o.value.waits| >= |waits| && o.value.waits[..|waits|] == waits
    decreases fuel
  {
    if fuel > 0 {
      var r := Attempt(send(times, options));
      if open(times) {
        match retry(s, r.(options := Some(options)), times)
        case Threw(_) =>
        case Returned(s', v) =>
          if v.next >= 0 {
            var options' := if v.reoptions.Some? then v.reoptions.value else options;
            var sent' := sent + [options];
            var waits' := waits + [Wait(v.next)];
            SessionPrefix(s', options', times + 1, sent', waits', fuel - 1, retry, open, send);
            var o := Session(s', options', times + 1, sent', waits', fuel - 1, retry, open, send);
            if o.Some? {
              assert o.value.sent[..|sent'|][..|sent|] == o.value.sent[..|sent|];
              assert o.value.sent[..|sent'|][|sent|] == o.value.sent[|sent|];
              assert o.value.waits[..|waits'|][..|waits|] == o.value.waits[..|waits|];
            }
          }
      }
    }
  }

  /** A property of the state that every callback preserves holds of the state the session ends in. */
  lemma {:induction false} SessionKeeps<S>(
    P: S -> bool, s: S, options: Options, times: nat, sent: seq<Options>, waits: seq<nat>, fuel: nat,
    retry: (S, Response, nat) -> Reply<S>, open: nat -> bool, send: (nat, Options) -> seq<Event>)
    requires P(s)
    requires forall s0: S, r: Response, t: nat :: P(s0) ==> P(retry(s0, r, t).s)
    ensures var o := Session(s, options, times, sent, waits, fuel, retry, open, send);
      o.Some? ==> P(o.value.s)
    decreases fuel
  {
    if fuel > 0 {
      var r := Attempt(send(times, options));
      if open(times) {
        var reply := retry(s, r.(options := Some(options)), times);
        assert P(reply.s);
        if reply.Returned? && reply.verdict.next >= 0 {
          var options' := if reply.verdict.reoptions.Some? then reply.verdict.reoptions.value else options;
          SessionKeeps(P, reply.s, options', times + 1, sent + [options], waits + [Wait(reply.verdict.next)],
                       fuel - 1, retry, open, send);
        }
      }
    }
  }

  // ------------------------------------------------------- createConnection

  /**
   * `createConnection(host, times)`: attempt `i` either connects or fails;
   * a failure with times > 1 retries 100 ms later with times - 1, otherwise
   * the promise rejects with that failure.
   */
  function Connect<C>(connect: nat -> Result<C>, times: int, i: nat): (r: Result<C>)
    decreases Max0(times)
  {
    match connect(i)
    case Success(c) => Success(c)
    case Failure(e) => if times > 1 then Connect(connect, times - 1, i + 1) else Failure(e)
  }

  function Max0(x: int): nat { if x > 0 then x else 0 }

  /** The pause between two connection attempts. */
  const ConnectRetryMs: nat := 100

  method CreateConnection<C>(connect: nat -> Result<C>, times0: int)
    returns (r: Result<C>, attempts: nat, waits: seq<nat>)
    ensures r == Connect(connect, times0, 0)
    ensures 1 <= attempts <= Max1(times0)
    ensures waits == Fill(ConnectRetryMs, attempts - 1)
    ensures forall i :: 0 <= i < attempts - 1 ==> connect(i).Failure?
    ensures r.Success? <==> connect(attempts - 1).Success?
    ensures r.Failure? ==> attempts == Max1(times0) && r == connect(attempts - 1)
  {
    var times := times0;
    attempts := 0;
    waits := [];
    while true
      invariant attempts + Max1(times) == Max1(times0)
      invariant Connect(connect, times0, 0) == Connect(connect, times, attempts)
      invariant waits == Fill(ConnectRetryMs, attempts)
      invariant forall i :: 0 <= i < attempts ==> connect(i).Failure?
      decreases Max0(times)
    {
      var c := connect(attempts);
      attempts := attempts + 1;
      if c.Success? {
        return c, attempts, waits;
      }
      if times > 1 {
        waits := waits + [ConnectRetryMs];
        times := times - 1;
      } else {
        return c, attempts, waits;
      }
    }
  }

  function Max1(x: int): nat { if x > 1 then x else 1 }

  /** `n` copies of `x`. */
  function Fill<T>(x: T, n: nat): (r: seq<T>)
    ensures |r| == n && forall i :: 0 <= i < n ==> r[i] == x
  {
    if n == 0 then [] else Fill(x, n - 1) + [x]
  }

  lemma FillCons<T>(x: T, n: nat)
    ensures [x] + Fill(x, n) == Fill(x, n + 1)
  {
    assert |[x] + Fill(x, n)| == n + 1;
  }
}
