/**
 * The batch helpers: `TokenClient.formatOptions` (one option set per
 * distinct address, the first occurrence kept), `TokenClient.formatResponse`
 * (the responses keyed by address), the de-duplication `[...new Set(list)]`
 * and the four single-endpoint lookups of TronGridClient built on them.
 */
module Batch {
  import opened Wrappers
  import opened OrderedMap
  import opened Admission
  import Http

  type Options = Http.Options

  /** An address argument: a single value, or an array of them. */
  datatype Input<T> = Scalar(item: T) | List(items: seq<T>)

  function Items<T>(input: Input<T>): seq<T>
  {
    if input.Scalar? then [input.item] else input.items
  }

  // ------------------------------------------------------------ de-duplication

  /** `[...new Set(xs)]`: each distinct value once, where it first occurs. */
  function Dedup<T(==)>(xs: seq<T>): seq<T>
  {
    if xs == [] then []
    else
      var n := |xs| - 1;
      Dedup(xs[..n]) + (if xs[n] in xs[..n] then [] else [xs[n]])
  }

  /** The position where `a` first occurs in xs. */
  function FirstIndex<T(==)>(xs: seq<T>, a: T): (i: nat)
    requires a in xs
    ensures i < |xs| && xs[i] == a && a !in xs[..i]
  {
    var n := |xs| - 1;
    if a in xs[..n] then
      var i := FirstIndex(xs[..n], a);
      assert xs[..n][..i] == xs[..i];
      i
    else n
  }

  /** The values of `[...new Set(xs)]`: all of those of xs, none twice, so no more of them. */
  lemma {:induction false} DedupSpec<T>(xs: seq<T>)
    ensures var d := Dedup(xs);
      && (forall x :: x in d <==> x in xs)
      && (forall j, j' :: 0 <= j < j' < |d| ==> d[j] != d[j'])
      && |d| <= |xs|
  {
    if xs != [] {
      var n := |xs| - 1;
      DedupSpec(xs[..n]);
      assert xs == xs[..n] + [xs[n]];
    }
  }

  /** `[...new Set(xs)]` lists the values in the order of their first occurrence in xs. */
  lemma {:induction false} DedupOrder<T>(xs: seq<T>)
    ensures forall j :: 0 <= j < |Dedup(xs)| ==> Dedup(xs)[j] in xs
    ensures forall j, j' :: 0 <= j < j' < |Dedup(xs)| ==> FirstIndex(xs, Dedup(xs)[j]) < FirstIndex(xs, Dedup(xs)[j'])
  {
    if xs != [] {
      var n := |xs| - 1;
      var init := xs[..n];
      DedupOrder(init);
      var d0 := Dedup(init);
      var d := Dedup(xs);
      assert d == d0 + (if xs[n] in init then [] else [xs[n]]);
      forall j | 0 <= j < |d0|
        ensures d[j] == d0[j] && d[j] in xs && FirstIndex(xs, d[j]) == FirstIndex(init, d0[j]) < n
      {
        var a := d0[j];
        assert a in init;
        assert init[FirstIndex(init, a)] == a;
        assert xs[FirstIndex(init, a)] == a;
      }
      if xs[n] !in init {
        assert FirstIndex(xs, xs[n]) == n;
      }
    }
  }

  // ------------------------------------------------------------ formatOptions

  /** One element of the address array: a string, or an object merged into the options. */
  datatype Item = Text(text: string) | Fields(fields: Options)

  /**
   * The callback argument. `NoCallback` stands for every falsy value
   * (undefined, null, false, 0); the empty string is falsy too and behaves as
   * `NoCallback` under `Rename("")`. `Unsupported` is any other non-function.
   */
  datatype Callback = NoCallback | Rename(key: string) | Transform(f: Options -> Options) | Unsupported

  /** The option name the address is stored under: 'address' unless a non-empty string callback renames it. */
  function AddrKey(cb: Callback): string
  {
    if cb.Rename? && cb.key != "" then cb.key else "address"
  }

  /** A function callback maps each kept option set; a string callback has been consumed. */
  function Apply(cb: Callback, o: Options): Options
  {
    if cb.Transform? then cb.f(o) else o
  }

  /** `{...options, [addrKey]: item}` for a string, `{...options, ...item}` for an object. */
  function ItemOptions(options: Options, key: string, item: Item): Options
  {
    match item
    case Text(s) => options[key := s]
    case Fields(m) => options + m
  }

  /** `opts[addrKey]`, undefined when absent. */
  function AddrOf(o: Options, key: string): Option<string>
  {
    if key in o then Some(o[key]) else None
  }

  /** The merged option sets, one per input element. */
  function AllOptions(items: seq<Item>, options: Options, key: string): (r: seq<Options>)
    ensures |r| == |items|
  {
    seq(|items|, i requires 0 <= i < |items| => ItemOptions(options, key, items[i]))
  }

  /** The address of each merged option set. */
  function Addrs(opts: seq<Options>, key: string): (r: seq<Option<string>>)
    ensures |r| == |opts|
  {
    seq(|opts|, i requires 0 <= i < |opts| => AddrOf(opts[i], key))
  }

  /** `[onlyOne, addrStrs, multis]`. */
  datatype Formatted = Formatted(onlyOne: bool, addrStrs: seq<Option<string>>, multis: seq<Options>)

  /** The loop of formatOptions over the merged option sets: a set is kept when its address is new. */
  function Keep(opts: seq<Options>, key: string, cb: Callback): (r: (seq<Option<string>>, seq<Options>))
  {
    if opts == [] then ([], [])
    else
      var n := |opts| - 1;
      var (addrStrs, multis) := Keep(opts[..n], key, cb);
      var a := AddrOf(opts[n], key);
      if a in addrStrs then (addrStrs, multis) else (addrStrs + [a], multis + [Apply(cb, opts[n])])
  }

  /**
   * The kept addresses are the de-duplicated addresses, and each kept option
   * set is the (mapped) one of the first element carrying its address.
   */
  lemma {:induction false} KeepSpec(opts: seq<Options>, key: string, cb: Callback)
    ensures var (addrStrs, multis) := Keep(opts, key, cb);
      && addrStrs == Dedup(Addrs(opts, key))
      && (forall x :: x in addrStrs <==> x in Addrs(opts, key))
      && |multis| == |addrStrs|
      && forall j :: 0 <= j < |multis| ==> multis[j] == Apply(cb, opts[FirstIndex(Addrs(opts, key), addrStrs[j])])
  {
    if opts != [] {
      var n := |opts| - 1;
      KeepSpec(opts[..n], key, cb);
      var xs := Addrs(opts, key);
      var a := AddrOf(opts[n], key);
      assert xs[..n] == Addrs(opts[..n], key);
      assert xs == xs[..n] + [a];
      DedupSpec(xs[..n]);
      var (addrStrs, multis) := Keep(opts[..n], key, cb);
      forall j | 0 <= j < |addrStrs|
        ensures FirstIndex(xs, addrStrs[j]) == FirstIndex(xs[..n], addrStrs[j])
      {
      }
    }
  }

  /** What `formatOptions(address, options, callback)` returns, or the Error it throws. */
  function FormatSpec(input: Input<Item>, options: Options, cb: Callback): Result<Formatted>
  {
    if cb.Unsupported? then Failure("callback only support string or function")
    else
      var r := Keep(AllOptions(Items(input), options, AddrKey(cb)), AddrKey(cb), cb);
      Success(Formatted(input.Scalar?, r.0, r.1))
  }

  /** `formatOptions(address, options, callback)`. */
  method FormatOptions(input: Input<Item>, options: Options, cb: Callback) returns (r: Result<Formatted>)
    ensures r == FormatSpec(input, options, cb)
  {
    if cb.Unsupported? {
      return Failure("callback only support string or function");
    }
    var items := Items(input);
    var key := AddrKey(cb);
    ghost var opts := AllOptions(items, options, key);
    var addrStrs: seq<Option<string>> := [];
    var multis: seq<Options> := [];
    for i := 0 to |items|
      invariant (addrStrs, multis) == Keep(opts[..i], key, cb)
    {
      var o := ItemOptions(options, key, items[i]);
      var a := AddrOf(o, key);
      assert (opts[..i + 1])[..i] == opts[..i];
      if a in addrStrs {
        continue;
      }
      addrStrs := addrStrs + [a];
      multis := multis + [Apply(cb, o)];
    }
    assert opts[..|items|] == opts;
    r := Success(Formatted(input.Scalar?, addrStrs, multis));
  }

  /**
   * What formatOptions promises: an unsupported callback throws; otherwise
   * `addrStrs` holds every address once, in order of first occurrence, and
   * `multis[j]` is the (mapped) option set of the first element carrying
   * `addrStrs[j]`.
   */
  lemma FormatOptionsShape(input: Input<Item>, options: Options, cb: Callback)
    ensures FormatSpec(input, options, cb).Failure? <==> cb.Unsupported?
    ensures FormatSpec(input, options, cb).Success? ==>
      var f := FormatSpec(input, options, cb).value;
      var opts := AllOptions(Items(input), options, AddrKey(cb));
      var addrs := Addrs(opts, AddrKey(cb));
      && f.onlyOne == input.Scalar?
      && f.addrStrs == Dedup(addrs)
      && (forall x :: x in f.addrStrs <==> x in addrs)
      && (forall j, j' :: 0 <= j < j' < |f.addrStrs| ==> f.addrStrs[j] != f.addrStrs[j'])
      && |f.multis| == |f.addrStrs| <= |opts|
      && forall j :: 0 <= j < |f.multis| ==> f.multis[j] == Apply(cb, opts[FirstIndex(addrs, f.addrStrs[j])])
  {
    if !cb.Unsupported? {
      var opts := AllOptions(Items(input), options, AddrKey(cb));
      KeepSpec(opts, AddrKey(cb), cb);
      DedupSpec(Addrs(opts, AddrKey(cb)));
    }
  }

  /** A string callback only renames the address option; nothing is mapped. */
  lemma RenameKeepsOptions(input: Input<Item>, options: Options, key: string, i: nat)
    requires key != "" && i < |Items(input)|
    requires Items(input)[i].Text?
    ensures var o := AllOptions(Items(input), options, AddrKey(Rename(key)))[i];
      AddrOf(o, key) == Some(Items(input)[i].text) && Apply(Rename(key), o) == o
  {
  }

  // ------------------------------------------------------------ formatResponse

  /** A result keyed by address, or the single one for a scalar address. */
  datatype Shaped<T> = Single(value: Option<T>) | Keyed(entries: OMap<Option<T>>)

  /** `xs[i]`, undefined past the end. */
  function At<T>(xs: seq<T>, i: nat): Option<T>
  {
    if i < |xs| then Some(xs[i]) else None
  }

  /** The object `formatResponse` builds: `result[address[i]] = response[i]` for i < n, in order. */
  function Collect<T>(address: seq<string>, response: seq<T>, n: nat): OMap<Option<T>>
    requires n <= |address|
  {
    if n == 0 then [] else Set(Collect(address, response, n - 1), address[n - 1], At(response, n - 1))
  }

  /** `formatResponse(address, response, onlyOne)`: `autoLog` only logs, so each response passes through. */
  function FormatResponse<T>(address: seq<string>, response: seq<T>, onlyOne: bool): Shaped<T>
  {
    var result := Collect(address, response, |address|);
    if onlyOne then Single(if result == [] then None else result[0].1) else Keyed(result)
  }

  /** The keys of the result are the addresses, each once, in order of first occurrence. */
  lemma {:induction false} CollectOrder<T>(address: seq<string>, response: seq<T>, n: nat)
    requires n <= |address|
    ensures Order(Collect(address, response, n)) == Dedup(address[..n])
  {
    if n > 0 {
      var prev := Collect(address, response, n - 1);
      CollectOrder(address, response, n - 1);
      var k := address[n - 1];
      SetOrder(prev, k, At(response, n - 1));
      OrderHasKeys(prev, k);
      DedupSpec(address[..n - 1]);
      assert address[..n][..n - 1] == address[..n - 1];
    }
  }

  /** An address listed more than once holds the response of its last position. */
  lemma {:induction false} CollectLastWins<T>(address: seq<string>, response: seq<T>, n: nat, i: nat)
    requires i < n <= |address|
    requires address[i] !in address[i + 1..n]
    ensures Get(Collect(address, response, n), address[i]) == Some(At(response, i))
  {
    if i < n - 1 {
      assert address[n - 1] in address[i + 1..n];
      CollectLastWins(address, response, n - 1, i);
    }
  }

  /** With distinct addresses, the result pairs each address with the response at its position. */
  lemma {:induction false} CollectDistinct<T>(address: seq<string>, response: seq<T>, n: nat)
    requires n <= |address|
    requires forall i, j :: 0 <= i < j < |address| ==> address[i] != address[j]
    ensures Collect(address, response, n) == seq(n, i requires 0 <= i < n => (address[i], At(response, i)))
  {
    if n > 0 {
      CollectDistinct(address, response, n - 1);
      var prev := Collect(address, response, n - 1);
      OrderHasKeys(prev, address[n - 1]);
      assert address[n - 1] !in Order(prev);
    }
  }

  // ------------------------------------------------------------ lookups

  /** `getContract`, `getAccountsV1`, `getAccountResource`, `getTransactioninfo`. */
  datatype Endpoint = Contract | AccountsV1 | AccountResource | TransactionInfo

  /** The options shared by every request of a lookup. */
  function Base(e: Endpoint): Options
  {
    match e
    case Contract => map[":method" := "POST", ":path" := "/wallet/getcontractinfo"]
    case AccountsV1 => map[":method" := "GET"]
    case AccountResource => map[":method" := "POST", ":path" := "/wallet/getaccountresource"]
    case TransactionInfo => map[":method" := "POST", ":path" := "/walletsolidity/gettransactioninfobyid"]
  }

  /** The row of one value: its payload, or its path for the v1 accounts endpoint. */
  function Row(e: Endpoint, v: string): Options
  {
    match e
    case Contract => map["payload" := "{\"value\":\"" + v + "\",\"visible\":true}"]
    case AccountsV1 => map[":path" := "/v1/accounts/" + v]
    case AccountResource => map["payload" := "{\"address\":\"" + v + "\",\"visible\":true}"]
    case TransactionInfo => map["payload" := "{\"value\":\"" + v + "\"}"]
  }

  /** The values looked up, whether the answer is a single one, and the fan-out handed to `request`. */
  datatype LookupPlan = LookupPlan(values: seq<string>, onlyOne: bool, fanout: Fanout<Options>)

  /** The values looked up: the scalar itself, or the array without repeats. */
  function Values(input: Input<string>): seq<string>
  {
    if input.Scalar? then [input.item] else Dedup(input.items)
  }

  /** The fan-out for some values: the shared options, one row per value. */
  function LookupFanout(e: Endpoint, values: seq<string>, maxRetry: Option<int>): Fanout<Options>
  {
    Plan(Base(e), Rows(seq(|values|, i requires 0 <= i < |values| => Row(e, values[i]))), maxRetry)
  }

  function Lookup(e: Endpoint, input: Input<string>, maxRetry: Option<int>): LookupPlan
  {
    var values := Values(input);
    LookupPlan(values, input.Scalar?, LookupFanout(e, values, maxRetry))
  }

  /** `formatResponse(values, res, onlyOne)`; a non-batch answer is one object, which has no indexed entries. */
  function LookupResult<T>(p: LookupPlan, answer: Answer<T>): Shaped<T>
  {
    FormatResponse(p.values, if answer.Many? then answer.results else [], p.onlyOne)
  }

  /**
   * One request per distinct value, in order of first occurrence, each the
   * shared options plus that value's row; an empty array still sends one
   * request, with the shared options alone. The answer is a single response
   * exactly when the input was a scalar.
   */
  lemma LookupShape(e: Endpoint, input: Input<string>, maxRetry: Option<int>)
    ensures var p := Lookup(e, input, maxRetry);
      && p.values == Values(input)
      && (p.onlyOne <==> input.Scalar?)
      && (forall x :: x in p.values <==> x in Items(input))
      && (forall j, j' :: 0 <= j < j' < |p.values| ==> p.values[j] != p.values[j'])
      && (forall j, j' :: 0 <= j < j' < |p.values| ==> FirstIndex(Items(input), p.values[j]) < FirstIndex(Items(input), p.values[j']))
      && (p.fanout.batch <==> p.values != [])
      && (p.values != [] ==>
            |p.fanout.requests| == |p.values|
            && forall j :: 0 <= j < |p.values| ==> p.fanout.requests[j] == Base(e) + Row(e, p.values[j]))
      && (p.values == [] ==> p.fanout.requests == [Base(e)])
  {
    var p := Lookup(e, input, maxRetry);
    if input.List? {
      DedupSpec(input.items);
      DedupOrder(input.items);
    }
    PlanShape(Base(e), Rows(seq(|p.values|, i requires 0 <= i < |p.values| => Row(e, p.values[i]))), maxRetry);
  }

  /** A scalar lookup answers with the single response; a batch maps each value to its own response. */
  lemma LookupAnswers<T>(e: Endpoint, input: Input<string>, maxRetry: Option<int>, results: seq<T>)
    requires |results| == |Lookup(e, input, maxRetry).values|
    ensures var p := Lookup(e, input, maxRetry);
      && (input.Scalar? ==> LookupResult(p, Many(results)) == Single(Some(results[0])))
      && (input.List? ==>
            LookupResult(p, Many(results)) == Keyed(seq(|p.values|, i requires 0 <= i < |p.values| => (p.values[i], Some(results[i])))))
  {
    var p := Lookup(e, input, maxRetry);
    LookupFields(e, input, maxRetry);
    ValuesAnswers(input, results);
    assert LookupResult(p, Many(results)) == FormatResponse(Values(input), results, input.Scalar?);
  }

  /** Proof step of LookupAnswers: the plan's values and its onlyOne flag. */
  lemma LookupFields(e: Endpoint, input: Input<string>, maxRetry: Option<int>)
    ensures Lookup(e, input, maxRetry).values == Values(input)
    ensures Lookup(e, input, maxRetry).onlyOne == input.Scalar?
  {
  }

  lemma ValuesAnswers<T>(input: Input<string>, results: seq<T>)
    requires |results| == |Values(input)|
    ensures var values := Values(input);
      && (input.Scalar? ==> FormatResponse(values, results, true) == Single(Some(results[0])))
      && (input.List? ==>
            FormatResponse(values, results, false) == Keyed(seq(|values|, i requires 0 <= i < |values| => (values[i], Some(results[i])))))
  {
    var values := Values(input);
    if input.List? {
      DedupSpec(input.items);
      CollectDistinct(values, results, |values|);
    } else {
      assert Collect(values, results, 1) == [(input.item, Some(results[0]))];
    }
  }

  /** An empty array sends one bare request and answers with an empty object. */
  lemma EmptyLookup<T>(e: Endpoint, maxRetry: Option<int>, answer: Answer<T>)
    ensures Lookup(e, List([]), maxRetry).fanout.requests == [Base(e)]
    ensures LookupResult(Lookup(e, List([]), maxRetry), answer) == Keyed([])
  {
    LookupShape(e, List([]), maxRetry);
    assert Dedup<string>([]) == [];
  }
}
