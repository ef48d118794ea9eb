/**
 * `TronGridClient.getTrc20TransactionsV1`: one request per distinct
 * address, each page's Transfer rows turned into signed transfers, and, when
 * a last known transaction id is being looked for, follow-up pages fetched by
 * fingerprint (at most ten per address) and appended to what the earlier
 * pages gave. The network is the oracle `fetch`: the page a request gets in a
 * given round, or None when `request` resolved that entry as undefined
 * (`_request` catches a throw of `_sendRequest`, such as a missing
 * connection or the day-reset ReferenceError, and resolves with undefined);
 * reading `response.code` of it then throws a TypeError that rejects the
 * whole call.
 */
module TronGrid {
  import opened Wrappers
  import opened OrderedMap
  import opened Batch
  import Admission
  import Http

  type Options = Http.Options

  /** One row of a page's `data.data`: `kind` is `row.type`, "" for a null row. */
  datatype Row = Row(kind: string, id: string, time: int, from: string, to: string, value: int,
                     decimals: Option<int>, symbol: Option<string>)

  /** A formatted transfer; `symbol` is absent when the query names a contract. */
  datatype Transfer = Transfer(id: string, time: int, trader: string, amount: int,
                               decimals: Option<int>, symbol: Option<string>)

  /**
   * The options: `format`, `checkHash` and `lastHash` are taken out, the rest
   * is the query. An absent or empty `lastHash` is "".
   */
  datatype Trc20Options = Trc20Options(format: bool, checkHash: bool, lastHash: string, query: Options)

  /** `Boolean(opts.contract_address)`. */
  predicate WithContract(o: Trc20Options)
  {
    "contract_address" in o.query && o.query["contract_address"] != ""
  }

  /** The transfer of a row seen from `addr`: incoming when `row.to` is addr, and the trader is the other side. */
  function ToTransfer(row: Row, addr: string, withContract: bool): (t: Transfer)
    ensures t.id == row.id && t.time == row.time && t.decimals == row.decimals
    ensures row.to == addr ==> t.amount == row.value && t.trader == row.from
    ensures row.to != addr ==> t.amount == -row.value && t.trader == row.to
    ensures t.symbol == if withContract then None else row.symbol
  {
    var incoming := row.to == addr;
    Transfer(row.id, row.time, if incoming then row.from else row.to,
             if incoming then row.value else -row.value, row.decimals,
             if withContract then None else row.symbol)
  }

  // ------------------------------------------------------------ one page

  /** What scanning a page gives: the transfers, the rows they came from, and whether the target was found. */
  datatype Scanned = Scanned(transfers: seq<Transfer>, rows: seq<Row>, found: bool)

  /** The row loop from a given point, `found` as it stands there. */
  function ScanFrom(rows: seq<Row>, addr: string, o: Trc20Options, found: bool): Scanned
    decreases |rows|
  {
    if rows == [] then Scanned([], [], found)
    else if rows[0].kind != "Transfer" then ScanFrom(rows[1..], addr, o, found)
    else
      var item := ToTransfer(rows[0], addr, WithContract(o));
      var isLast := o.checkHash && o.lastHash != "" && item.id == o.lastHash;
      var found' := found || (o.checkHash && (o.lastHash == "" || isLast));
      var rest := if found' then Scanned([], [], true) else ScanFrom(rows[1..], addr, o, false);
      Scanned((if isLast then [] else [item]) + rest.transfers, (if isLast then [] else [rows[0]]) + rest.rows, rest.found)
  }

  /** The row loop of one page, as written: it starts with `found = !checkHash`. */
  function Scan(rows: seq<Row>, addr: string, o: Trc20Options): Scanned
  {
    ScanFrom(rows, addr, o, !o.checkHash)
  }

  /** The row loop of one page. */
  method ScanPage(datalist: seq<Row>, addr: string, o: Trc20Options) returns (lists: seq<Transfer>, dataTransfer: seq<Row>, found: bool)
    ensures Scanned(lists, dataTransfer, found) == Scan(datalist, addr, o)
  {
    ghost var goal := Scan(datalist, addr, o);
    lists, dataTransfer := [], [];
    found := !o.checkHash;
    var withContract := WithContract(o);
    var i := 0;
    while i < |datalist|
      invariant 0 <= i <= |datalist|
      invariant var rest := ScanFrom(datalist[i..], addr, o, found);
        goal == Scanned(lists + rest.transfers, dataTransfer + rest.rows, rest.found)
    {
      var row := datalist[i];
      assert datalist[i..][0] == row && datalist[i..][1..] == datalist[i + 1..];
      if row.kind != "Transfer" {
        i := i + 1;
        continue;
      }
      ghost var next := ScanFrom(datalist[i + 1..], addr, o, false);
      var item := ToTransfer(row, addr, withContract);
      var add := true;
      if o.checkHash {
        if o.lastHash == "" {
          found := true;
        } else if item.id == o.lastHash {
          add := false;
          found := true;
        }
      }
      if add {
        assert lists + ([item] + next.transfers) == (lists + [item]) + next.transfers;
        assert dataTransfer + ([row] + next.rows) == (dataTransfer + [row]) + next.rows;
        lists := lists + [item];
        dataTransfer := dataTransfer + [row];
      }
      if found {
        assert lists + [] == lists && dataTransfer + [] == dataTransfer;
        return;
      }
      i := i + 1;
    }
    assert datalist[i..] == [];
    assert lists + [] == lists && dataTransfer + [] == dataTransfer;
  }

  /** The rows of type Transfer, in order. */
  function TransferRows(rows: seq<Row>): seq<Row>
  {
    if rows == [] then []
    else (if rows[0].kind == "Transfer" then [rows[0]] else []) + TransferRows(rows[1..])
  }

  /** The Transfer rows before the first one whose id is h. */
  function Before(rows: seq<Row>, h: string): seq<Row>
  {
    if rows == [] || rows[0].id == h then [] else [rows[0]] + Before(rows[1..], h)
  }

  /** Does some row carry id h? */
  predicate HasId(rows: seq<Row>, h: string)
  {
    exists r :: r in rows && r.id == h
  }

  /** Every transfer comes from the Transfer row kept beside it. */
  lemma {:induction false} ScanPairs(rows: seq<Row>, addr: string, o: Trc20Options, found: bool)
    ensures var s := ScanFrom(rows, addr, o, found);
      && |s.transfers| == |s.rows|
      && forall i :: 0 <= i < |s.rows| ==>
           s.rows[i].kind == "Transfer" && s.transfers[i] == ToTransfer(s.rows[i], addr, WithContract(o))
    decreases |rows|
  {
    if rows != [] {
      if rows[0].kind != "Transfer" {
        ScanPairs(rows[1..], addr, o, found);
      } else {
        ScanPairs(rows[1..], addr, o, false);
      }
    }
  }

  /**
   * Looking for a last id h: the page's Transfer rows are kept up to the one
   * with id h, which is left out and ends the scan; `found` says whether it
   * was met.
   */
  lemma {:induction false} ScanUpToLastHash(rows: seq<Row>, addr: string, o: Trc20Options)
    requires o.checkHash && o.lastHash != ""
    ensures ScanFrom(rows, addr, o, false).rows == Before(TransferRows(rows), o.lastHash)
    ensures ScanFrom(rows, addr, o, false).found <==> HasId(TransferRows(rows), o.lastHash)
    decreases |rows|
  {
    if rows != [] {
      ScanUpToLastHash(rows[1..], addr, o);
      var t := TransferRows(rows[1..]);
      if rows[0].kind == "Transfer" {
        assert TransferRows(rows) == [rows[0]] + t;
        assert ([rows[0]] + t)[1..] == t;
        if rows[0].id != o.lastHash {
          assert HasId([rows[0]] + t, o.lastHash) ==> HasId(t, o.lastHash);
        }
      } else {
        assert TransferRows(rows) == t;
      }
    }
  }

  /** Only the first Transfer row is kept (when there is one) if the scan stops at the first Transfer row. */
  lemma {:induction false} ScanKeepsFirst(rows: seq<Row>, addr: string, o: Trc20Options, found: bool)
    requires (found && !o.checkHash) || (o.checkHash && o.lastHash == "")
    ensures ScanFrom(rows, addr, o, found).rows == if TransferRows(rows) == [] then [] else [TransferRows(rows)[0]]
    ensures ScanFrom(rows, addr, o, found).found == (found || TransferRows(rows) != [])
    decreases |rows|
  {
    if rows != [] {
      ScanKeepsFirst(rows[1..], addr, o, found);
      if rows[0].kind == "Transfer" {
        assert TransferRows(rows) == [rows[0]] + TransferRows(rows[1..]);
        assert ScanFrom(rows, addr, o, found).rows == [rows[0]] + [];
      } else {
        assert TransferRows(rows) == TransferRows(rows[1..]);
      }
    }
  }

  /** With checkHash and no last id, the first Transfer row is kept and counts as the target. */
  lemma ScanNoLastHash(rows: seq<Row>, addr: string, o: Trc20Options)
    requires o.checkHash && o.lastHash == ""
    ensures Scan(rows, addr, o).rows == if TransferRows(rows) == [] then [] else [TransferRows(rows)[0]]
    ensures Scan(rows, addr, o).found <==> TransferRows(rows) != []
  {
    ScanKeepsFirst(rows, addr, o, false);
  }

  /**
   * As written, without checkHash `found` starts true, so the loop breaks
   * after the first Transfer row: a formatted page holds at most one transfer.
   */
  lemma ScanWithoutCheckHashKeepsOne(rows: seq<Row>, addr: string, o: Trc20Options)
    requires !o.checkHash
    ensures Scan(rows, addr, o).rows == if TransferRows(rows) == [] then [] else [TransferRows(rows)[0]]
    ensures Scan(rows, addr, o).found
  {
    ScanKeepsFirst(rows, addr, o, true);
  }

  /** Two Transfer rows on a page without checkHash: only the first becomes a transfer. */
  lemma ScanWithoutCheckHashExample()
    ensures var r1 := Row("Transfer", "a", 1, "x", "T1", 5, None, None);
      var r2 := Row("Transfer", "b", 2, "T1", "y", 7, None, None);
      |Scan([r1, r2], "T1", Trc20Options(true, false, "", map[])).transfers| == 1
  {
    var r1 := Row("Transfer", "a", 1, "x", "T1", 5, None, None);
    var r2 := Row("Transfer", "b", 2, "T1", "y", 7, None, None);
    var o := Trc20Options(true, false, "", map[]);
    ScanPairs([r1, r2], "T1", o, true);
    ScanWithoutCheckHashKeepsOne([r1, r2], "T1", o);
    assert TransferRows([r1, r2]) == [r1, r2] by {
      assert [r1, r2][1..] == [r2];
      assert [r2][1..] == [];
      assert TransferRows([r2]) == [r2] + TransferRows([]);
    }
  }

  /**
   * The row loop as evidently intended: the same loop with `found` starting
   * false, so the first Transfer row ends it only when a target is being
   * looked for (with checkHash this is the loop as written).
   */
  function ScanIntended(rows: seq<Row>, addr: string, o: Trc20Options): Scanned
  {
    ScanFrom(rows, addr, o, false)
  }

  /** Intended: without checkHash every Transfer row of the page becomes a transfer, in order, and the scan never stops early. */
  lemma {:induction false} ScanIntendedKeepsAll(rows: seq<Row>, addr: string, o: Trc20Options)
    requires !o.checkHash
    ensures ScanIntended(rows, addr, o).rows == TransferRows(rows)
    ensures |ScanIntended(rows, addr, o).transfers| == |TransferRows(rows)|
    ensures forall i :: 0 <= i < |TransferRows(rows)| ==>
      ScanIntended(rows, addr, o).transfers[i] == ToTransfer(TransferRows(rows)[i], addr, WithContract(o))
    ensures !ScanIntended(rows, addr, o).found
    decreases |rows|
  {
    ScanPairs(rows, addr, o, false);
    if rows != [] {
      ScanIntendedKeepsAll(rows[1..], addr, o);
      if rows[0].kind == "Transfer" {
        assert TransferRows(rows) == [rows[0]] + TransferRows(rows[1..]);
      } else {
        assert TransferRows(rows) == TransferRows(rows[1..]);
      }
    }
  }

  // ------------------------------------------------------------ paging

  /** The part of a response the paging reads: the code, the `data.data` array if it is one, and `data.meta.fingerprint`. */
  datatype Page = Page(code: int, list: Option<seq<Row>>, fingerprint: Option<string>)

  /** What is stored per address: the raw response, or the last page with the accumulated rows and transfers. */
  datatype Stored = Raw(page: Page) | Listed(page: Page, rows: seq<Row>, transfers: seq<Transfer>)

  /** `addrStarted[addr]`: follow-up pages fetched so far and the first request's path. */
  datatype Start = Start(page: nat, path: string)

  /** The loop state: the stored responses, addrStarted, and the addresses and paths of the next round. */
  datatype Crawl = Crawl(transactions: OMap<Stored>, started: OMap<Start>, addrs: seq<string>, paths: seq<string>)

  /** Follow-up pages an address may still get. */
  const MaxFollowUps: nat := 10

  /** The first request's path for `addr`, the query string `q` appended when non-empty. */
  function FirstPath(addr: string, q: string): string
  {
    "/v1/accounts/" + addr + "/transactions/trc20" + (if q == "" then "" else "?" + q)
  }

  /** The follow-up link: the fingerprint joined with '&' when the path already has a query, with '?' otherwise. */
  function Follow(path: string, fingerprint: string): string
  {
    path + (if '?' in path then "&" else "?") + "fingerprint=" + fingerprint
  }

  lemma FollowShape(path: string, fingerprint: string)
    ensures var link := Follow(path, fingerprint);
      && link[..|path|] == path
      && link[|path|] == (if '?' in path then '&' else '?')
      && link[|path| + 1..] == "fingerprint=" + fingerprint
  {
  }

  /** The request of one address: `{":method": "GET", ...row}`. */
  function Request(path: string): Options
  {
    map[":method" := "GET", ":path" := path]
  }

  /** The options every round shares: `{":method": "GET"}`. */
  const GetMethod: Options := map[":method" := "GET"]

  /** The `multis` rows of one round: `{":path": path}` per queued path. */
  function PathRows(paths: seq<string>): seq<Options>
  {
    seq(|paths|, i requires 0 <= i < |paths| => map[":path" := paths[i]])
  }

  /** The requests `this.request({":method": "GET"}, multis, maxRetry)` sends for a round with these paths. */
  function Sent(paths: seq<string>): seq<Options>
  {
    Admission.Plan(GetMethod, Admission.Rows(PathRows(paths)), None).requests
  }

  /**
   * A round sends the request of each queued path, in order. A round with no
   * path still sends one bare GET without a path, since `request` turns an
   * empty batch into `[{}]`.
   */
  lemma SentShape(paths: seq<string>)
    ensures paths != [] ==> |Sent(paths)| == |paths| && forall i :: 0 <= i < |paths| ==> Sent(paths)[i] == Request(paths[i])
    ensures paths == [] ==> Sent(paths) == [GetMethod]
  {
    var rows := PathRows(paths);
    if paths != [] {
      assert Sent(paths) == Admission.Merge(GetMethod, rows);
      forall i | 0 <= i < |paths|
        ensures Sent(paths)[i] == Request(paths[i])
      {
        assert GetMethod + rows[i] == Request(paths[i]);
      }
    } else {
      assert Sent(paths) == Admission.Merge(GetMethod, [map[]]);
      assert GetMethod + map[] == GetMethod;
    }
  }

  /** `response.code === 200 && format ? response.data.data : null`, when that is an array. */
  function Listing(p: Page, o: Trc20Options): Option<seq<Row>>
  {
    if p.code == 200 && o.format then p.list else None
  }

  /** The body of the address loop for one address and its response. */
  function Visit(c: Crawl, o: Trc20Options, addr: string, p: Page): Crawl
  {
    var listing := Listing(p, o);
    if listing.None? then c.(transactions := Set(c.transactions, addr, Raw(p)))
    else
      var sc := Scan(listing.value, addr, o);
      var st := Get(c.started, addr);
      var more := !sc.found && st.Some? && st.value.page < MaxFollowUps
                  && p.fingerprint.Some? && p.fingerprint.value != "";
      var prev := Get(c.transactions, addr);
      var stored := if prev.Some? && prev.value.Listed?
                    then Listed(p, prev.value.rows + sc.rows, prev.value.transfers + sc.transfers)
                    else Listed(p, sc.rows, sc.transfers);
      Crawl(Set(c.transactions, addr, stored),
            if more then Set(c.started, addr, Start(st.value.page + 1, st.value.path)) else c.started,
            if more then c.addrs + [addr] else c.addrs,
            if more then c.paths + [Follow(st.value.path, p.fingerprint.value)] else c.paths)
  }

  /**
   * What one address's response does to the stored entry: a non-list
   * response replaces it whole (earlier pages included); a list appends its
   * rows and transfers to those of an earlier listed page.
   */
  lemma VisitStores(c: Crawl, o: Trc20Options, addr: string, p: Page)
    ensures var c' := Visit(c, o, addr, p);
      var prev := Get(c.transactions, addr);
      && (Listing(p, o).None? ==> Get(c'.transactions, addr) == Some(Raw(p)) && c'.started == c.started
                                  && c'.addrs == c.addrs && c'.paths == c.paths)
      && (Listing(p, o).Some? && prev.Some? && prev.value.Listed? ==>
            var sc := Scan(Listing(p, o).value, addr, o);
            Get(c'.transactions, addr) == Some(Listed(p, prev.value.rows + sc.rows, prev.value.transfers + sc.transfers)))
      && forall a :: a != addr ==> Get(c'.transactions, a) == Get(c.transactions, a)
  {
  }

  /**
   * A follow-up request for the address is queued exactly when its page was
   * a list, the target was not found, addrStarted has it with fewer than ten
   * follow-ups, and the page has a fingerprint; the link extends the first path.
   */
  lemma VisitPages(c: Crawl, o: Trc20Options, addr: string, p: Page)
    ensures var c' := Visit(c, o, addr, p);
      var st := Get(c.started, addr);
      var more := Listing(p, o).Some? && !Scan(Listing(p, o).value, addr, o).found
                  && st.Some? && st.value.page < MaxFollowUps && p.fingerprint.Some? && p.fingerprint.value != "";
      && (more ==> c'.addrs == c.addrs + [addr] && c'.paths == c.paths + [Follow(st.value.path, p.fingerprint.value)]
                   && Get(c'.started, addr) == Some(Start(st.value.page + 1, st.value.path)))
      && (!more ==> c'.addrs == c.addrs && c'.paths == c.paths && c'.started == c.started)
  {
  }

  /** The oracle: the response a request gets in round k, None for an undefined entry of `res`. */
  type Fetch = (nat, Options) -> Option<Page>

  /**
   * One round: the address loop over `addrs[i..]`, their responses fetched
   * in round k. None when some response is undefined: `response.code` throws
   * a TypeError there and the call rejects.
   */
  function Round(c: Crawl, addrs: seq<string>, paths: seq<string>, k: nat, o: Trc20Options,
                 fetch: Fetch, i: nat): Option<Crawl>
    requires |addrs| == |paths| && i <= |addrs|
    decreases |addrs| - i
  {
    if i == |addrs| then Some(c)
    else
      var p := fetch(k, Request(paths[i]));
      if p.None? then None
      else Round(Visit(c, o, addrs[i], p.value), addrs, paths, k, o, fetch, i + 1)
  }

  /** Does some request of `paths[i..]` get an undefined response in round k? */
  predicate SomeUndefined(paths: seq<string>, k: nat, fetch: Fetch, i: nat)
  {
    exists j :: i <= j < |paths| && fetch(k, Request(paths[j])).None?
  }

  /** A round rejects exactly when one of its responses is undefined. */
  lemma {:induction false} RoundRejects(c: Crawl, addrs: seq<string>, paths: seq<string>, k: nat, o: Trc20Options,
                                        fetch: Fetch, i: nat)
    requires |addrs| == |paths| && i <= |addrs|
    ensures Round(c, addrs, paths, k, o, fetch, i).None? <==> SomeUndefined(paths, k, fetch, i)
    decreases |addrs| - i
  {
    if i < |addrs| {
      var p := fetch(k, Request(paths[i]));
      if p.Some? {
        RoundRejects(Visit(c, o, addrs[i], p.value), addrs, paths, k, o, fetch, i + 1);
        if SomeUndefined(paths, k, fetch, i) {
          var j :| i <= j < |paths| && fetch(k, Request(paths[j])).None?;
          assert j != i;
        }
      }
    }
  }

  /** Follow-ups still allowed, summed over addrStarted. */
  function Budget(started: OMap<Start>): nat
  {
    if started == [] then 0
    else (if started[0].1.page < MaxFollowUps then MaxFollowUps - started[0].1.page else 0) + Budget(started[1..])
  }

  /** Moving an address on by one follow-up takes one from the budget. */
  lemma {:induction false} BudgetSet(started: OMap<Start>, addr: string, st: Start)
    requires Distinct(started) && Get(started, addr) == Some(st) && st.page < MaxFollowUps
    ensures Budget(Set(started, addr, Start(st.page + 1, st.path))) + 1 == Budget(started)
  {
    if started[0].0 != addr {
      BudgetSet(started[1..], addr, st);
    }
  }

  /** A follow-up queued for an address is paid for from the budget. */
  lemma VisitBudget(c: Crawl, o: Trc20Options, addr: string, p: Page)
    requires Distinct(c.started) && |c.addrs| == |c.paths|
    ensures var c' := Visit(c, o, addr, p);
      && Distinct(c'.started) && |c'.addrs| == |c'.paths|
      && Budget(c'.started) + |c'.addrs| == Budget(c.started) + |c.addrs|
  {
    VisitPages(c, o, addr, p);
    var st := Get(c.started, addr);
    if Listing(p, o).Some? && !Scan(Listing(p, o).value, addr, o).found
       && st.Some? && st.value.page < MaxFollowUps && p.fingerprint.Some? && p.fingerprint.value != "" {
      BudgetSet(c.started, addr, st.value);
    }
  }

  /** Each follow-up queued in a round is paid for from the budget. */
  lemma {:induction false} RoundBudget(c: Crawl, addrs: seq<string>, paths: seq<string>, k: nat, o: Trc20Options,
                                       fetch: Fetch, i: nat)
    requires |addrs| == |paths| && i <= |addrs| && Distinct(c.started) && |c.addrs| == |c.paths|
    ensures var r := Round(c, addrs, paths, k, o, fetch, i);
      r.Some? ==>
        && Distinct(r.value.started) && |r.value.addrs| == |r.value.paths|
        && Budget(r.value.started) + |r.value.addrs| == Budget(c.started) + |c.addrs|
    decreases |addrs| - i
  {
    if i < |addrs| {
      var p := fetch(k, Request(paths[i]));
      if p.Some? {
        VisitBudget(c, o, addrs[i], p.value);
        RoundBudget(Visit(c, o, addrs[i], p.value), addrs, paths, k, o, fetch, i + 1);
      }
    }
  }

  /**
   * The `while (multis)` loop from round k: the round runs, and another
   * follows while follow-ups were queued. The result is the stored
   * responses (None when a round rejected) and the requests sent in each
   * round, the rejecting round included.
   */
  function CrawlFrom(transactions: OMap<Stored>, started: OMap<Start>, addrs: seq<string>, paths: seq<string>,
                     k: nat, o: Trc20Options, fetch: Fetch): (r: (Option<OMap<Stored>>, seq<seq<Options>>))
    requires |addrs| == |paths| && Distinct(started)
    ensures |r.1| >= 1 && r.1[0] == Sent(paths)
    decreases Budget(started)
  {
    var c := Round(Crawl(transactions, started, [], []), addrs, paths, k, o, fetch, 0);
    RoundBudget(Crawl(transactions, started, [], []), addrs, paths, k, o, fetch, 0);
    if c.None? then (None, [Sent(paths)])
    else if c.value.addrs == [] then (Some(c.value.transactions), [Sent(paths)])
    else
      var rest := CrawlFrom(c.value.transactions, c.value.started, c.value.addrs, c.value.paths, k + 1, o, fetch);
      (rest.0, [Sent(paths)] + rest.1)
  }

  /** The first paths, one per address, in order. */
  function FirstPaths(addrs: seq<string>, q: string): (r: seq<string>)
    ensures |r| == |addrs|
    ensures forall i :: 0 <= i < |addrs| ==> r[i] == FirstPath(addrs[i], q)
  {
    seq(|addrs|, i requires 0 <= i < |addrs| => FirstPath(addrs[i], q))
  }

  /** addrStarted as the checkHash loop fills it for the first n addresses. */
  function Starts(addrs: seq<string>, paths: seq<string>, n: nat): OMap<Start>
    requires n <= |addrs| == |paths|
  {
    if n == 0 then [] else Set(Starts(addrs, paths, n - 1), addrs[n - 1], Start(0, paths[n - 1]))
  }

  lemma {:induction false} StartsDistinct(addrs: seq<string>, paths: seq<string>, n: nat)
    requires n <= |addrs| == |paths|
    ensures Distinct(Starts(addrs, paths, n))
  {
    if n > 0 {
      StartsDistinct(addrs, paths, n - 1);
    }
  }

  /** The answer: the single stored response for a scalar address, all of them otherwise. */
  datatype Transactions = OneAddress(value: Option<Stored>) | ByAddress(entries: OMap<Stored>)

  /** `TokenClient.testResponse(transactions, onlyOne)`: autoLog only logs. */
  function Answer(transactions: OMap<Stored>, onlyOne: bool): Transactions
  {
    if onlyOne then OneAddress(if transactions == [] then None else Some(transactions[0].1))
    else ByAddress(transactions)
  }

  /** The query string handed to `querystring.stringify`: the options less `address`. */
  function Query(o: Trc20Options, stringify: Options -> string): string
  {
    stringify(o.query - {"address"})
  }

  /** The rejection of the call when a response was undefined. */
  const UndefinedResponse: string := "TypeError: Cannot read properties of undefined (reading 'code')"

  /** `getTrc20TransactionsV1(address, options)`: the answer or the rejection, and the requests sent in each round. */
  function Trc20Spec(input: Input<string>, o: Trc20Options, stringify: Options -> string,
                     fetch: Fetch): (Result<Transactions>, seq<seq<Options>>)
  {
    var addrs := Dedup(Items(input));
    var paths := FirstPaths(addrs, Query(o, stringify));
    var started := if o.checkHash then Starts(addrs, paths, |addrs|) else [];
    StartsDistinct(addrs, paths, |addrs|);
    var r := CrawlFrom([], started, addrs, paths, 0, o, fetch);
    (if r.0.None? then Failure(UndefinedResponse) else Success(Answer(r.0.value, input.Scalar?)), r.1)
  }

  /**
   * A call whose first round gets an undefined response for some address
   * rejects with the TypeError, after sending that round only.
   */
  lemma UndefinedFirstResponseRejects(input: Input<string>, o: Trc20Options, stringify: Options -> string,
                                      fetch: Fetch, j: nat)
    requires j < |Dedup(Items(input))|
    requires fetch(0, Request(FirstPath(Dedup(Items(input))[j], Query(o, stringify)))).None?
    ensures Trc20Spec(input, o, stringify, fetch) ==
      (Failure(UndefinedResponse), [Sent(FirstPaths(Dedup(Items(input)), Query(o, stringify)))])
  {
    var addrs := Dedup(Items(input));
    var paths := FirstPaths(addrs, Query(o, stringify));
    var started := if o.checkHash then Starts(addrs, paths, |addrs|) else [];
    RoundRejects(Crawl([], started, [], []), addrs, paths, 0, o, fetch, 0);
    assert fetch(0, Request(paths[j])).None?;
  }

  /** The body of the address loop: store the response of `addr`, and queue its next page when one is due. */
  method VisitAddress(c: Crawl, o: Trc20Options, addr: string, response: Page) returns (c': Crawl)
    ensures c' == Visit(c, o, addr, response)
  {
    c' := c;
    var datalist := Listing(response, o);
    if datalist.None? {
      c' := c'.(transactions := Set(c'.transactions, addr, Raw(response)));
      return;
    }
    var lists, dataTransfer, found := ScanPage(datalist.value, addr, o);
    var st := Get(c'.started, addr);
    if !found && st.Some? && st.value.page < MaxFollowUps && response.fingerprint.Some? && response.fingerprint.value != "" {
      c' := c'.(started := Set(c'.started, addr, Start(st.value.page + 1, st.value.path)),
                addrs := c'.addrs + [addr],
                paths := c'.paths + [Follow(st.value.path, response.fingerprint.value)]);
    }
    var prev := Get(c'.transactions, addr);
    if prev.Some? && prev.value.Listed? {
      c' := c'.(transactions := Set(c'.transactions, addr,
                  Listed(response, prev.value.rows + dataTransfer, prev.value.transfers + lists)));
    } else {
      c' := c'.(transactions := Set(c'.transactions, addr, Listed(response, dataTransfer, lists)));
    }
  }

  /** The address loop of one round; None when a response is undefined and `response.code` throws. */
  method RunRound(transactions: OMap<Stored>, started: OMap<Start>, addrs: seq<string>, paths: seq<string>,
                  k: nat, o: Trc20Options, fetch: Fetch) returns (c: Option<Crawl>)
    requires |addrs| == |paths|
    ensures c == Round(Crawl(transactions, started, [], []), addrs, paths, k, o, fetch, 0)
  {
    ghost var goal := Round(Crawl(transactions, started, [], []), addrs, paths, k, o, fetch, 0);
    var cur := Crawl(transactions, started, [], []);
    for i := 0 to |addrs|
      invariant goal == Round(cur, addrs, paths, k, o, fetch, i)
    {
      var response := fetch(k, Request(paths[i]));
      if response.None? {
        return None;
      }
      cur := VisitAddress(cur, o, addrs[i], response.value);
    }
    c := Some(cur);
  }

  /** One turn of the `while (multis)` loop: the round, then either the end or the rounds after it. */
  lemma CrawlStep(transactions: OMap<Stored>, started: OMap<Start>, addrs: seq<string>, paths: seq<string>,
                  k: nat, o: Trc20Options, fetch: Fetch)
    requires |addrs| == |paths| && Distinct(started)
    ensures var c := Round(Crawl(transactions, started, [], []), addrs, paths, k, o, fetch, 0);
      && (c.None? ==> CrawlFrom(transactions, started, addrs, paths, k, o, fetch) == (None, [Sent(paths)]))
      && (c.Some? ==>
            && Distinct(c.value.started) && |c.value.addrs| == |c.value.paths|
            && (c.value.addrs != [] ==> Budget(c.value.started) < Budget(started))
            && CrawlFrom(transactions, started, addrs, paths, k, o, fetch)
               == if c.value.addrs == [] then (Some(c.value.transactions), [Sent(paths)])
                  else (CrawlFrom(c.value.transactions, c.value.started, c.value.addrs, c.value.paths, k + 1, o, fetch).0,
                        [Sent(paths)] + CrawlFrom(c.value.transactions, c.value.started, c.value.addrs, c.value.paths, k + 1, o, fetch).1))
  {
    RoundBudget(Crawl(transactions, started, [], []), addrs, paths, k, o, fetch, 0);
  }

  /** `addrStarted`: every address starts at page 0 of its first path. */
  method StartAll(addrs: seq<string>, paths: seq<string>) returns (started: OMap<Start>)
    requires |addrs| == |paths|
    ensures started == Starts(addrs, paths, |addrs|)
  {
    started := [];
    for i := 0 to |addrs|
      invariant started == Starts(addrs, paths, i)
    {
      started := Set(started, addrs[i], Start(0, paths[i]));
    }
  }

  /** The `while (multis)` loop: rounds until no address has a page left to request, or a round rejects. */
  method CrawlLoop(transactions: OMap<Stored>, started: OMap<Start>, addrs: seq<string>, paths: seq<string>,
                   o: Trc20Options, fetch: Fetch) returns (stored: Option<OMap<Stored>>, sent: seq<seq<Options>>)
    requires |addrs| == |paths| && Distinct(started)
    ensures (stored, sent) == CrawlFrom(transactions, started, addrs, paths, 0, o, fetch)
  {
    ghost var goal := CrawlFrom(transactions, started, addrs, paths, 0, o, fetch);
    var current := transactions;
    var st, queued, pending := started, addrs, paths;
    var k: nat := 0;
    sent := [];
    assert [] + goal.1 == goal.1;
    while true
      invariant |queued| == |pending| && Distinct(st)
      invariant var rest := CrawlFrom(current, st, queued, pending, k, o, fetch);
        goal == (rest.0, sent + rest.1)
      decreases Budget(st)
    {
      var c := RunRound(current, st, queued, pending, k, o, fetch);
      CrawlStep(current, st, queued, pending, k, o, fetch);
      if c.None? {
        stored := None;
        sent := sent + [Sent(pending)];
        return;
      }
      if c.value.addrs == [] {
        stored := Some(c.value.transactions);
        sent := sent + [Sent(pending)];
        return;
      }
      ghost var tail := CrawlFrom(c.value.transactions, c.value.started, c.value.addrs, c.value.paths, k + 1, o, fetch).1;
      assert sent + ([Sent(pending)] + tail) == (sent + [Sent(pending)]) + tail;
      sent := sent + [Sent(pending)];
      current, st, queued, pending := c.value.transactions, c.value.started, c.value.addrs, c.value.paths;
      k := k + 1;
    }
  }

  /** `getTrc20TransactionsV1(address, options)`, with `stringify` for `querystring.stringify`. */
  method Trc20Transactions(input: Input<string>, o: Trc20Options, stringify: Options -> string,
                           fetch: Fetch) returns (result: Result<Transactions>, sent: seq<seq<Options>>)
    ensures (result, sent) == Trc20Spec(input, o, stringify, fetch)
  {
    var addrs := Dedup(Items(input));
    var paths := FirstPaths(addrs, Query(o, stringify));
    var started: OMap<Start> := [];
    if o.checkHash {
      started := StartAll(addrs, paths);
    }
    StartsDistinct(addrs, paths, |addrs|);
    var transactions;
    transactions, sent := CrawlLoop([], started, addrs, paths, o, fetch);
    if transactions.None? {
      return Failure(UndefinedResponse), sent;
    }
    result := Success(Answer(transactions.value, input.Scalar?));
  }

  /**
   * Without checkHash nothing is paged: one round, with the first request of
   * each distinct address in order, or one bare GET when there is no address.
   */
  lemma NoPagingWithoutCheckHash(input: Input<string>, o: Trc20Options, stringify: Options -> string,
                                 fetch: Fetch)
    requires !o.checkHash
    ensures var addrs := Dedup(Items(input));
      var sent := Trc20Spec(input, o, stringify, fetch).1;
      && |sent| == 1
      && (addrs == [] ==> sent[0] == [GetMethod])
      && (addrs != [] ==> |sent[0]| == |addrs|
                          && forall i :: 0 <= i < |addrs| ==> sent[0][i] == Request(FirstPath(addrs[i], Query(o, stringify))))
  {
    var addrs := Dedup(Items(input));
    var paths := FirstPaths(addrs, Query(o, stringify));
    NoStartNoFollowUp(Crawl([], [], [], []), addrs, paths, 0, o, fetch, 0);
    SentShape(paths);
  }

  /**
   * An empty address array still makes one round: `request` sends one bare
   * GET without a path, whose response no address reads, and the answer is
   * the empty object.
   */
  lemma EmptyAddressListSendsOne(o: Trc20Options, stringify: Options -> string, fetch: Fetch)
    ensures Trc20Spec(List([]), o, stringify, fetch) == (Success(ByAddress([])), [[GetMethod]])
  {
    var empty: Input<string> := List([]);
    assert Dedup(Items(empty)) == [];
    SentShape([]);
  }

  /** With addrStarted empty, a round queues nothing. */
  lemma {:induction false} NoStartNoFollowUp(c: Crawl, addrs: seq<string>, paths: seq<string>, k: nat, o: Trc20Options,
                                             fetch: Fetch, i: nat)
    requires |addrs| == |paths| && i <= |addrs| && c.started == []
    ensures var r := Round(c, addrs, paths, k, o, fetch, i);
      r.Some? ==> r.value.addrs == c.addrs && r.value.started == []
    decreases |addrs| - i
  {
    if i < |addrs| {
      var p := fetch(k, Request(paths[i]));
      if p.Some? {
        NoStartNoFollowUp(Visit(c, o, addrs[i], p.value), addrs, paths, k, o, fetch, i + 1);
      }
    }
  }
}
