/**
 * The credential ("API key") pool of TokenClient, as functions on a value of
 * the pool's state. The class in tokenclient.dfy keeps the same state in its
 * fields and its methods are proved to perform exactly these transitions.
 *
 * State (the names of the source's fields):
 *   apikeys  : key -> [inUse, dailyTotal], in Map iteration order
 *   frozen   : key -> [expiry, carriedTotal]  (the source calls it `fronzekeys`)
 *   overload : the keys evicted for reaching the daily limit, in eviction order
 *   resetDay : the day number (ms since the epoch / 86400000) of the last reset
 */
module KeyPool {
  import opened Wrappers
  import opened OrderedMap

  type Key = string

  datatype Counters = Counters(inUse: nat, total: nat)
  datatype Thaw = Thaw(expiry: int, carried: nat)

  datatype PoolState = PoolState(
    apikeys: OMap<Counters>,
    frozen: OMap<Thaw>,
    overload: seq<Key>,
    resetDay: int)

  const DayMs: int := 86400000
  /** Freeze length used when the freeze flag is not a number (`parseInt` gives NaN). */
  const DefaultFreezeMs: int := 10000
  /** The pause between two scan passes of `_getKeys`. */
  const PollMs: int := 10

  function Max(a: int, b: int): int { if a < b then b else a }
  function Min(a: int, b: int): int { if a < b then a else b }

  /** Both tables are JavaScript Maps: no key twice. */
  predicate WellFormed(s: PoolState)
  {
    Distinct(s.apikeys) && Distinct(s.frozen)
  }

  /** `n` copies of `k`: what `Array(take).fill(key)` pushes. */
  function Repeat(k: Key, n: nat): (r: seq<Key>)
    ensures |r| == n
    ensures forall i :: 0 <= i < n ==> r[i] == k
  {
    if n == 0 then [] else [k] + Repeat(k, n - 1)
  }

  lemma {:induction false} RepeatCount(k: Key, n: nat, j: Key)
    ensures multiset(Repeat(k, n))[j] == if j == k then n else 0
  {
    if n > 0 {
      RepeatCount(k, n - 1, j);
      assert Repeat(k, n) == [k] + Repeat(k, n - 1);
    }
  }

  /** Every active key's inUse is at most `bound`. */
  predicate InUseAtMost(a: OMap<Counters>, bound: int)
  {
    forall i :: 0 <= i < |a| ==> a[i].1.inUse <= bound
  }

  lemma InUseAtMostCons(e: (Key, Counters), rest: OMap<Counters>, bound: int)
    requires e.1.inUse <= bound && InUseAtMost(rest, bound)
    ensures InUseAtMost([e] + rest, bound)
  {
    forall i | 0 <= i < |[e] + rest| ensures ([e] + rest)[i].1.inUse <= bound {
      if i > 0 { assert ([e] + rest)[i] == rest[i - 1]; }
    }
  }

  lemma InUseAtMostTail(a: OMap<Counters>, bound: int)
    requires a != [] && InUseAtMost(a, bound)
    ensures a[0].1.inUse <= bound && InUseAtMost(a[1..], bound)
  {
    forall i | 0 <= i < |a[1..]| ensures a[1..][i].1.inUse <= bound {
      assert a[1..][i] == a[i + 1];
    }
  }

  // ---------------------------------------------------------------- _setKeys

  /** One step of `_setKeys`: a key already active or already evicted is skipped. */
  function AddKey(s: PoolState, k: Key): PoolState
  {
    if k in s.overload || k in Keys(s.apikeys) then s
    else s.(apikeys := Set(s.apikeys, k, Counters(0, 0)))
  }

  /** `_setKeys(keys)`: the keys in order, each through AddKey. */
  function AddKeys(s: PoolState, keys: seq<Key>): PoolState
    decreases |keys|
  {
    if keys == [] then s
    else AddKey(AddKeys(s, keys[..|keys| - 1]), keys[|keys| - 1])
  }

  lemma {:induction false} AddKeysSpec(s: PoolState, keys: seq<Key>)
    ensures var r := AddKeys(s, keys);
      && r.frozen == s.frozen && r.overload == s.overload && r.resetDay == s.resetDay
      && (Distinct(s.apikeys) ==> Distinct(r.apikeys))
      && (forall k :: k in Keys(s.apikeys) ==> Get(r.apikeys, k) == Get(s.apikeys, k))
      && (forall k :: k in keys && k !in s.overload ==> k in Keys(r.apikeys))
      && (forall k :: k in Keys(r.apikeys) && k !in Keys(s.apikeys) ==>
            k in keys && k !in s.overload && Get(r.apikeys, k) == Some(Counters(0, 0)))
    decreases |keys|
  {
    if keys != [] {
      var init := keys[..|keys| - 1];
      AddKeysSpec(s, init);
      forall k | k in keys
        ensures k in init || k == keys[|keys| - 1]
      {
        var i :| 0 <= i < |keys| && keys[i] == k;
        if i < |keys| - 1 { assert init[i] == k; }
      }
    }
  }

  /** `_setKeys` adds keys at inUse 0, which keeps inUse <= keyRps. */
  lemma {:induction false} AddKeysKeepsInUseBound(s: PoolState, keys: seq<Key>, keyRps: int)
    requires keyRps >= 0 && InUseBounded(s, keyRps)
    ensures InUseBounded(AddKeys(s, keys), keyRps)
    decreases |keys|
  {
    if keys != [] {
      var r := AddKeys(s, keys[..|keys| - 1]);
      AddKeysKeepsInUseBound(s, keys[..|keys| - 1], keyRps);
      SetKeepsInUseBound(r.apikeys, keys[|keys| - 1], Counters(0, 0), keyRps);
    }
  }

  // ----------------------------------------------------- _getKeys: day reset

  datatype Rolled = Rolled(s: PoolState) | RollThrew(s: PoolState)

  /**
   * The day-reset block of `_getKeys`, AS WRITTEN. The loop over `overloadKeys`
   * assigns to `key`, which is declared by the `let` that follows the block, so
   * the first assignment throws a ReferenceError. The result: when the day has
   * changed, `resetDay` is updated and then, if any key was evicted, the call
   * throws before restoring anything. On the next call the day matches, so the
   * evicted keys never come back.
   */
  function Rollover(s: PoolState, now: int): (r: Rolled)
    ensures r.s == s.(resetDay := now / DayMs)
    ensures r.RollThrew? <==> now / DayMs != s.resetDay && s.overload != []
  {
    var date := now / DayMs;
    if date == s.resetDay then Rolled(s)
    else if s.overload == [] then Rolled(s.(resetDay := date))
    else RollThrew(s.(resetDay := date))
  }

  /** Writes [0, 0] for every evicted key, in eviction order. */
  function Restore(a: OMap<Counters>, keys: seq<Key>): (r: OMap<Counters>)
    ensures Keys(r) == Keys(a) + (set k | k in keys)
    ensures forall k :: k in keys ==> Get(r, k) == Some(Counters(0, 0))
    ensures forall k :: k !in keys ==> Get(r, k) == Get(a, k)
    ensures Distinct(a) ==> Distinct(r)
    decreases |keys|
  {
    if keys == [] then a
    else
      var r := Set(Restore(a, keys[..|keys| - 1]), keys[|keys| - 1], Counters(0, 0));
      assert forall k :: k in keys ==> k in keys[..|keys| - 1] || k == keys[|keys| - 1] by {
        forall k | k in keys ensures k in keys[..|keys| - 1] || k == keys[|keys| - 1] {
          var i :| 0 <= i < |keys| && keys[i] == k;
          if i < |keys| - 1 { assert keys[..|keys| - 1][i] == k; }
        }
      }
      r
  }

  /**
   * The day reset as evidently intended: every evicted key is back in the
   * active table with zeroed counters, and the evicted list is emptied.
   */
  function RolloverIntended(s: PoolState, now: int): PoolState
  {
    var date := now / DayMs;
    if date == s.resetDay then s
    else s.(resetDay := date, apikeys := Restore(s.apikeys, s.overload), overload := [])
  }

  lemma RolloverIntendedRestores(s: PoolState, now: int)
    requires now / DayMs != s.resetDay
    ensures var r := RolloverIntended(s, now);
      && r.overload == []
      && (forall k :: k in s.overload ==> Get(r.apikeys, k) == Some(Counters(0, 0)))
      && (forall k :: k !in s.overload ==> Get(r.apikeys, k) == Get(s.apikeys, k))
      && r.frozen == s.frozen
  {
  }

  /** The counterexample: one evicted key and a new day. */
  lemma RolloverAsWrittenLosesEvicted()
    ensures var s := PoolState([], [], ["k"], 0);
      && Rollover(s, DayMs).RollThrew?
      && Rollover(s, DayMs).s.resetDay == 1
      && Rollover(Rollover(s, DayMs).s, DayMs + 1) == Rolled(Rollover(s, DayMs).s)
      && "k" !in Keys(Rollover(s, DayMs).s.apikeys)
      && "k" in Keys(RolloverIntended(s, DayMs).apikeys)
  {
    var s := PoolState([], [], ["k"], 0);
    assert "k" in s.overload;
  }

  // ---------------------------------------------------- _getKeys: unfreezing

  /**
   * The unfreeze loop of `_getKeys`: every frozen entry whose expiry is
   * strictly before `now` is written into the active table as [0, carried].
   * The frozen entry itself is kept, so the write is repeated on every later
   * call, overwriting whatever counters the key has acquired meanwhile.
   */
  function Unfreeze(a: OMap<Counters>, f: OMap<Thaw>, now: int): OMap<Counters>
    decreases |f|
  {
    if f == [] then a
    else
      var a' := Unfreeze(a, f[..|f| - 1], now);
      var e := f[|f| - 1];
      if e.1.expiry < now then Set(a', e.0, Counters(0, e.1.carried)) else a'
  }

  predicate Expired(f: OMap<Thaw>, k: Key, now: int)
  {
    Get(f, k).Some? && Get(f, k).value.expiry < now
  }

  lemma {:induction false} UnfreezeSpec(a: OMap<Counters>, f: OMap<Thaw>, now: int, k: Key)
    requires Distinct(f)
    ensures Distinct(a) ==> Distinct(Unfreeze(a, f, now))
    ensures Expired(f, k, now) ==> Get(Unfreeze(a, f, now), k) == Some(Counters(0, Get(f, k).value.carried))
    ensures !Expired(f, k, now) ==> Get(Unfreeze(a, f, now), k) == Get(a, k)
    decreases |f|
  {
    if f != [] {
      var init := f[..|f| - 1];
      var e := f[|f| - 1];
      assert f == init + [e];
      DistinctAppend(init, [e]);
      GetAppend(init, [e], k);
      assert Keys([e]) == {e.0};
      UnfreezeSpec(a, init, now, k);
    }
  }

  // ---------------------------------------------------- _getKeys: scan pass

  datatype Pass = Pass(kept: OMap<Counters>, evicted: seq<Key>, taken: seq<Key>)

  /**
   * One pass of the `for ... of self.apikeys` loop with `need` = amount - find.
   * It stops (leaving the rest untouched) as soon as nothing more is needed;
   * otherwise it visits the first entry and continues with what is still needed.
   */
  function Scan(a: OMap<Counters>, need: nat, keyRps: int, keyLimit: int): Pass
    decreases |a|
  {
    if a == [] || need == 0 then Pass(a, [], [])
    else Visit(a[0], Scan(a[1..], Remaining(a[0].1, need, keyRps, keyLimit), keyRps, keyLimit), need, keyRps, keyLimit)
  }

  /** The copies of a key a visit hands out: min(headroom, need), and none when it is at the limit or busy. */
  function Take(c: Counters, need: nat, keyRps: int, keyLimit: int): (r: nat)
    ensures r <= need
    ensures r > 0 <==> need > 0 && c.total < keyLimit && c.inUse < keyRps
    ensures r <= keyRps - c.inUse || r == 0
  {
    if c.total >= keyLimit || keyRps - c.inUse <= 0 then 0 else Min(keyRps - c.inUse, need)
  }

  /** What is still needed after visiting an entry with counters `c`. */
  function Remaining(c: Counters, need: nat, keyRps: int, keyLimit: int): nat
  {
    need - Take(c, need, keyRps, keyLimit)
  }

  /**
   * The visit of one entry, given the pass `p` over the entries after it:
   * a key whose total has reached keyLimit is deleted and evicted; a key
   * without concurrency headroom is skipped; otherwise its copies are taken
   * and added to both of its counters. The take is not limited by
   * keyLimit - total.
   */
  function Visit(e: (Key, Counters), p: Pass, need: nat, keyRps: int, keyLimit: int): Pass
  {
    var take := Take(e.1, need, keyRps, keyLimit);
    if e.1.total >= keyLimit then Pass(p.kept, [e.0] + p.evicted, p.taken)
    else if take == 0 then Pass([e] + p.kept, p.evicted, p.taken)
    else Pass([(e.0, Counters(e.1.inUse + take, e.1.total + take))] + p.kept, p.evicted, Repeat(e.0, take) + p.taken)
  }

  lemma {:induction false} ScanTakesAtMostNeed(a: OMap<Counters>, need: nat, keyRps: int, keyLimit: int)
    ensures |Scan(a, need, keyRps, keyLimit).taken| <= need
    decreases |a|
  {
    if a != [] && need > 0 {
      ScanTakesAtMostNeed(a[1..], Remaining(a[0].1, need, keyRps, keyLimit), keyRps, keyLimit);
    }
  }

  /** The facts about one key after a pass `p` over `a`. */
  predicate Fate(a: OMap<Counters>, p: Pass, keyLimit: int, k: Key)
  {
    && (k in Keys(p.kept) ==> k in Keys(a))
    && (k in p.evicted ==> k !in Keys(p.kept) && Get(a, k).Some? && Get(a, k).value.total >= keyLimit)
    && (k in Keys(a) ==> k in Keys(p.kept) || k in p.evicted)
    && (k !in Keys(p.kept) ==> k !in p.taken)
  }

  lemma VisitFate(e: (Key, Counters), rest: OMap<Counters>, p: Pass, need: nat, keyRps: int, keyLimit: int, k: Key)
    requires e.0 !in Keys(rest)
    requires Fate(rest, p, keyLimit, k) && Fate(rest, p, keyLimit, e.0)
    ensures Fate([e] + rest, Visit(e, p, need, keyRps, keyLimit), keyLimit, k)
  {
    var r := Visit(e, p, need, keyRps, keyLimit);
    var take := Take(e.1, need, keyRps, keyLimit);
    GetCons(e, rest, k);
    if e.1.total < keyLimit {
      var e' := if take == 0 then e else (e.0, Counters(e.1.inUse + take, e.1.total + take));
      GetCons(e', p.kept, k);
    }
  }

  /** Every key of a pass is kept or evicted, never both; only keys at the limit are evicted; only kept keys are handed out. */
  lemma {:induction false} ScanKeyFate(a: OMap<Counters>, need: nat, keyRps: int, keyLimit: int, k: Key)
    requires Distinct(a)
    ensures Fate(a, Scan(a, need, keyRps, keyLimit), keyLimit, k)
    decreases |a|
  {
    if a != [] && need > 0 {
      var rest := Remaining(a[0].1, need, keyRps, keyLimit);
      ScanKeyFate(a[1..], rest, keyRps, keyLimit, k);
      ScanKeyFate(a[1..], rest, keyRps, keyLimit, a[0].0);
      assert a == [a[0]] + a[1..];
      VisitFate(a[0], a[1..], Scan(a[1..], rest, keyRps, keyLimit), need, keyRps, keyLimit, k);
    }
  }

  /** The kept entries of a pass still form a Map. */
  lemma {:induction false} ScanKeepsDistinct(a: OMap<Counters>, need: nat, keyRps: int, keyLimit: int)
    requires Distinct(a)
    ensures Distinct(Scan(a, need, keyRps, keyLimit).kept)
    decreases |a|
  {
    if a != [] && need > 0 {
      var rest := Remaining(a[0].1, need, keyRps, keyLimit);
      var p := Scan(a[1..], rest, keyRps, keyLimit);
      ScanKeepsDistinct(a[1..], rest, keyRps, keyLimit);
      ScanKeyFate(a[1..], rest, keyRps, keyLimit, a[0].0);
      var take := Take(a[0].1, need, keyRps, keyLimit);
      if a[0].1.total < keyLimit {
        var e' := if take == 0 then a[0] else (a[0].0, Counters(a[0].1.inUse + take, a[0].1.total + take));
        GetCons(e', p.kept, a[0].0);
      }
    }
  }

  /** A kept key's inUse and total both grew by the number of copies of it handed out. */
  predicate Counted(a: OMap<Counters>, p: Pass, k: Key)
  {
    k in Keys(p.kept) ==>
      && Get(a, k).Some?
      && Get(p.kept, k).value.inUse == Get(a, k).value.inUse + multiset(p.taken)[k]
      && Get(p.kept, k).value.total == Get(a, k).value.total + multiset(p.taken)[k]
  }

  lemma VisitCounted(e: (Key, Counters), rest: OMap<Counters>, p: Pass, need: nat, keyRps: int, keyLimit: int, k: Key)
    requires e.0 !in Keys(rest)
    requires Counted(rest, p, k) && Fate(rest, p, keyLimit, e.0)
    ensures Counted([e] + rest, Visit(e, p, need, keyRps, keyLimit), k)
  {
    var r := Visit(e, p, need, keyRps, keyLimit);
    var take := Take(e.1, need, keyRps, keyLimit);
    GetCons(e, rest, k);
    RepeatCount(e.0, take, k);
    if e.1.total < keyLimit {
      var e' := if take == 0 then e else (e.0, Counters(e.1.inUse + take, e.1.total + take));
      GetCons(e', p.kept, k);
      if take > 0 {
        assert multiset(r.taken)[k] == multiset(Repeat(e.0, take))[k] + multiset(p.taken)[k];
      }
    }
  }

  lemma {:induction false} ScanPerKey(a: OMap<Counters>, need: nat, keyRps: int, keyLimit: int, k: Key)
    requires Distinct(a)
    ensures Counted(a, Scan(a, need, keyRps, keyLimit), k)
    decreases |a|
  {
    if a != [] && need > 0 {
      var rest := Remaining(a[0].1, need, keyRps, keyLimit);
      ScanPerKey(a[1..], rest, keyRps, keyLimit, k);
      ScanKeyFate(a[1..], rest, keyRps, keyLimit, a[0].0);
      assert a == [a[0]] + a[1..];
      VisitCounted(a[0], a[1..], Scan(a[1..], rest, keyRps, keyLimit), need, keyRps, keyLimit, k);
    }
  }

  /** No pass lifts a key's inUse above keyRps. */
  lemma {:induction false} ScanKeepsInUseBound(a: OMap<Counters>, need: nat, keyRps: int, keyLimit: int)
    requires InUseAtMost(a, keyRps)
    ensures InUseAtMost(Scan(a, need, keyRps, keyLimit).kept, keyRps)
    decreases |a|
  {
    if a != [] && need > 0 {
      InUseAtMostTail(a, keyRps);
      var rest := Remaining(a[0].1, need, keyRps, keyLimit);
      var p := Scan(a[1..], rest, keyRps, keyLimit);
      ScanKeepsInUseBound(a[1..], rest, keyRps, keyLimit);
      var take := Take(a[0].1, need, keyRps, keyLimit);
      if a[0].1.total < keyLimit {
        var e' := if take == 0 then a[0] else (a[0].0, Counters(a[0].1.inUse + take, a[0].1.total + take));
        InUseAtMostCons(e', p.kept, keyRps);
      }
    }
  }

  /** Every entry of `a` that is not in `b` has a total below keyLimit + keyRps. */
  predicate NewBelow(a: OMap<Counters>, b: OMap<Counters>, bound: int)
  {
    forall i :: 0 <= i < |a| ==> a[i] in b || a[i].1.total < bound
  }

  /**
   * Because the take is not limited by keyLimit - total, a total may end above
   * keyLimit, but by less than keyRps: a key is only taken from while its total
   * is below keyLimit, and never by more than its headroom.
   */
  lemma {:induction false} ScanOvershootBound(a: OMap<Counters>, need: nat, keyRps: int, keyLimit: int)
    ensures NewBelow(Scan(a, need, keyRps, keyLimit).kept, a, keyLimit + keyRps)
    decreases |a|
  {
    if a != [] && need > 0 {
      var rest := Remaining(a[0].1, need, keyRps, keyLimit);
      var p := Scan(a[1..], rest, keyRps, keyLimit);
      ScanOvershootBound(a[1..], rest, keyRps, keyLimit);
      var r := Scan(a, need, keyRps, keyLimit);
      var take := Take(a[0].1, need, keyRps, keyLimit);
      if a[0].1.total >= keyLimit {
        forall i | 0 <= i < |r.kept| ensures r.kept[i] in a || r.kept[i].1.total < keyLimit + keyRps {
          assert p.kept[i] in a[1..] || p.kept[i].1.total < keyLimit + keyRps;
        }
      } else {
        var e' := if take == 0 then a[0] else (a[0].0, Counters(a[0].1.inUse + take, a[0].1.total + take));
        assert r.kept == [e'] + p.kept;
        forall i | 0 <= i < |r.kept| ensures r.kept[i] in a || r.kept[i].1.total < keyLimit + keyRps {
          if i > 0 {
            assert r.kept[i] == p.kept[i - 1];
            assert p.kept[i - 1] in a[1..] || p.kept[i - 1].1.total < keyLimit + keyRps;
          } else {
            assert r.kept[i] == e';
          }
        }
      }
    }
  }

  /** A total above the limit is possible: the take is not clamped to the daily headroom. */
  lemma ScanOvershootExample()
    ensures Scan([("k", Counters(0, 4))], 3, 3, 5) == Pass([("k", Counters(3, 7))], [], ["k", "k", "k"])
  {
  }

  /** No active key has concurrency headroom left. */
  predicate NoHeadroom(a: OMap<Counters>, keyRps: int)
  {
    forall i :: 0 <= i < |a| ==> keyRps <= a[i].1.inUse
  }

  lemma NoHeadroomCons(e: (Key, Counters), rest: OMap<Counters>, keyRps: int)
    requires keyRps <= e.1.inUse && NoHeadroom(rest, keyRps)
    ensures NoHeadroom([e] + rest, keyRps)
  {
    forall i | 0 <= i < |[e] + rest| ensures keyRps <= ([e] + rest)[i].1.inUse {
      if i > 0 { assert ([e] + rest)[i] == rest[i - 1]; }
    }
  }

  /** Every key of `a` at the limit is in `ev`. */
  predicate AllAtLimitIn(a: OMap<Counters>, keyLimit: int, ev: seq<Key>)
  {
    forall i :: 0 <= i < |a| && a[i].1.total >= keyLimit ==> a[i].0 in ev
  }

  /**
   * A pass that hands out fewer than needed has looked at every key: no key
   * still active has headroom, and every key at the limit was evicted.
   */
  lemma {:induction false} ScanShortMeansSaturated(a: OMap<Counters>, need: nat, keyRps: int, keyLimit: int)
    requires |Scan(a, need, keyRps, keyLimit).taken| < need
    ensures NoHeadroom(Scan(a, need, keyRps, keyLimit).kept, keyRps)
    ensures AllAtLimitIn(a, keyLimit, Scan(a, need, keyRps, keyLimit).evicted)
    decreases |a|
  {
    if a != [] {
      var rest := Remaining(a[0].1, need, keyRps, keyLimit);
      var p := Scan(a[1..], rest, keyRps, keyLimit);
      var r := Scan(a, need, keyRps, keyLimit);
      var take := Take(a[0].1, need, keyRps, keyLimit);
      assert |r.taken| == take + |p.taken|;
      ScanShortMeansSaturated(a[1..], rest, keyRps, keyLimit);
      if a[0].1.total < keyLimit {
        var e' := if take == 0 then a[0] else (a[0].0, Counters(a[0].1.inUse + take, a[0].1.total + take));
        NoHeadroomCons(e', p.kept, keyRps);
      }
      forall i | 0 <= i < |a| && a[i].1.total >= keyLimit
        ensures a[i].0 in r.evicted
      {
        if i > 0 { assert a[1..][i - 1] == a[i]; }
      }
    }
  }

  /** A pass over `a` amounts to `goal` once `kept`, `evicted` and `taken` are put before the pass `p` over what is left. */
  predicate ScanSoFar(goal: Pass, kept: OMap<Counters>, evicted: seq<Key>, taken: seq<Key>, p: Pass)
  {
    goal == Pass(kept + p.kept, evicted + p.evicted, taken + p.taken)
  }

  /** An entry with `t` more copies handed out: both counters grow by `t`. */
  function Bump(e: (Key, Counters), t: nat): (Key, Counters)
  {
    (e.0, Counters(e.1.inUse + t, e.1.total + t))
  }

  /** Visiting one entry moves it (or its key) from the pass still to make into what is already done. */
  lemma ScanStep(goal: Pass, kept: OMap<Counters>, evicted: seq<Key>, taken: seq<Key>,
                 e: (Key, Counters), rest: OMap<Counters>, need: nat, keyRps: int, keyLimit: int)
    requires need > 0
    requires ScanSoFar(goal, kept, evicted, taken, Scan([e] + rest, need, keyRps, keyLimit))
    ensures e.1.total >= keyLimit ==>
      ScanSoFar(goal, kept, evicted + [e.0], taken, Scan(rest, need, keyRps, keyLimit))
    ensures var t := Take(e.1, need, keyRps, keyLimit);
      e.1.total < keyLimit ==>
        ScanSoFar(goal, kept + [Bump(e, t)], evicted, taken + Repeat(e.0, t), Scan(rest, need - t, keyRps, keyLimit))
  {
    assert ([e] + rest)[0] == e && ([e] + rest)[1..] == rest;
    var t := Take(e.1, need, keyRps, keyLimit);
    var p := Scan(rest, need - t, keyRps, keyLimit);
    if e.1.total >= keyLimit {
      assert evicted + ([e.0] + p.evicted) == (evicted + [e.0]) + p.evicted;
    } else if t == 0 {
      assert Bump(e, t) == e;
      assert kept + ([e] + p.kept) == (kept + [e]) + p.kept;
      assert taken + Repeat(e.0, t) == taken;
    } else {
      assert kept + ([Bump(e, t)] + p.kept) == (kept + [Bump(e, t)]) + p.kept;
      assert taken + (Repeat(e.0, t) + p.taken) == (taken + Repeat(e.0, t)) + p.taken;
    }
  }

  // ------------------------------------------------- _getKeys: polling loop

  /**
   * The `while (true)` loop: scan passes until `amount` keys are found or the
   * wait is used up. The model's clock advances only by the 10 ms sleeps:
   * `elapsed` is the time since the call began, PollMs more after each
   * pass; with the default maxwait of 0 exactly one pass runs.
   */
  function Passes(a: OMap<Counters>, need: nat, elapsed: nat, maxwait: int, keyRps: int, keyLimit: int): Pass
    decreases Max(maxwait - elapsed, 0)
  {
    var p := Scan(a, need, keyRps, keyLimit);
    if |p.taken| >= need || elapsed >= maxwait then p
    else
      var q := Passes(p.kept, need - |p.taken|, elapsed + PollMs, maxwait, keyRps, keyLimit);
      Pass(q.kept, p.evicted + q.evicted, p.taken + q.taken)
  }

  lemma {:induction false} PassesTakesAtMostNeed(a: OMap<Counters>, need: nat, elapsed: nat, maxwait: int, keyRps: int, keyLimit: int)
    ensures |Passes(a, need, elapsed, maxwait, keyRps, keyLimit).taken| <= need
    decreases Max(maxwait - elapsed, 0)
  {
    var p := Scan(a, need, keyRps, keyLimit);
    ScanTakesAtMostNeed(a, need, keyRps, keyLimit);
    if !(|p.taken| >= need || elapsed >= maxwait) {
      PassesTakesAtMostNeed(p.kept, need - |p.taken|, elapsed + PollMs, maxwait, keyRps, keyLimit);
    }
  }

  lemma {:induction false} PassesKeepInUseBound(a: OMap<Counters>, need: nat, elapsed: nat, maxwait: int, keyRps: int, keyLimit: int)
    requires InUseAtMost(a, keyRps)
    ensures InUseAtMost(Passes(a, need, elapsed, maxwait, keyRps, keyLimit).kept, keyRps)
    decreases Max(maxwait - elapsed, 0)
  {
    var p := Scan(a, need, keyRps, keyLimit);
    ScanKeepsInUseBound(a, need, keyRps, keyLimit);
    if !(|p.taken| >= need || elapsed >= maxwait) {
      PassesKeepInUseBound(p.kept, need - |p.taken|, elapsed + PollMs, maxwait, keyRps, keyLimit);
    }
  }

  /** The first pass of Passes, and what follows it. */
  lemma PassesFirst(a: OMap<Counters>, need: nat, elapsed: nat, maxwait: int, keyRps: int, keyLimit: int)
    ensures var p := Scan(a, need, keyRps, keyLimit);
      var q := Passes(a, need, elapsed, maxwait, keyRps, keyLimit);
      && (|p.taken| >= need || elapsed >= maxwait ==> q == p)
      && (!(|p.taken| >= need || elapsed >= maxwait) ==>
            var r := Passes(p.kept, need - |p.taken|, elapsed + PollMs, maxwait, keyRps, keyLimit);
            q == Pass(r.kept, p.evicted + r.evicted, p.taken + r.taken))
  {
  }

  /** The kept entries after all passes still form a Map. */
  lemma {:induction false} PassesKeepDistinct(a: OMap<Counters>, need: nat, elapsed: nat, maxwait: int, keyRps: int, keyLimit: int)
    requires Distinct(a)
    ensures Distinct(Passes(a, need, elapsed, maxwait, keyRps, keyLimit).kept)
    decreases Max(maxwait - elapsed, 0)
  {
    var p := Scan(a, need, keyRps, keyLimit);
    ScanKeepsDistinct(a, need, keyRps, keyLimit);
    if !(|p.taken| >= need || elapsed >= maxwait) {
      PassesKeepDistinct(p.kept, need - |p.taken|, elapsed + PollMs, maxwait, keyRps, keyLimit);
    }
  }

  /** A second pass right after a short one hands nothing out. */
  lemma ScanAfterShortPassIsEmpty(a: OMap<Counters>, need: nat, need': nat, keyRps: int, keyLimit: int)
    requires |Scan(a, need, keyRps, keyLimit).taken| < need
    ensures Scan(Scan(a, need, keyRps, keyLimit).kept, need', keyRps, keyLimit).taken == []
  {
    ScanShortMeansSaturated(a, need, keyRps, keyLimit);
    SaturatedScanTakesNothing(Scan(a, need, keyRps, keyLimit).kept, need', keyRps, keyLimit);
  }

  lemma {:induction false} SaturatedScanTakesNothing(a: OMap<Counters>, need: nat, keyRps: int, keyLimit: int)
    requires NoHeadroom(a, keyRps)
    ensures Scan(a, need, keyRps, keyLimit).taken == []
    decreases |a|
  {
    if a != [] && need > 0 {
      assert keyRps <= a[0].1.inUse;
      assert NoHeadroom(a[1..], keyRps) by {
        forall i | 0 <= i < |a[1..]| ensures keyRps <= a[1..][i].1.inUse { assert a[1..][i] == a[i + 1]; }
      }
      SaturatedScanTakesNothing(a[1..], need, keyRps, keyLimit);
    }
  }

  // ------------------------------------------------------------- _getKeys

  datatype Acquired = Acquired(s: PoolState, keys: seq<Key>) | AcquireThrew(s: PoolState)

  /** `_getKeys(amount, maxwait)` called at time `now`. */
  function Acquire(s: PoolState, keyRps: int, keyLimit: int, amount: int, maxwait: int, now: int): Acquired
  {
    match Rollover(s, now)
    case RollThrew(s1) => AcquireThrew(s1)
    case Rolled(s1) =>
      var a := Unfreeze(s1.apikeys, s1.frozen, now);
      var p := Passes(a, Max(amount, 1), 0, maxwait, keyRps, keyLimit);
      Acquired(s1.(apikeys := p.kept, overload := s1.overload + p.evicted), p.taken)
  }

  /** Never more keys than asked for (at least one is always asked for). */
  lemma AcquireBound(s: PoolState, keyRps: int, keyLimit: int, amount: int, maxwait: int, now: int)
    ensures var r := Acquire(s, keyRps, keyLimit, amount, maxwait, now);
      r.Acquired? ==> |r.keys| <= Max(amount, 1)
  {
    match Rollover(s, now)
    case RollThrew(_) =>
    case Rolled(s1) =>
      PassesTakesAtMostNeed(Unfreeze(s1.apikeys, s1.frozen, now), Max(amount, 1), 0, maxwait, keyRps, keyLimit);
  }

  /** The concurrency bound inUse <= keyRps survives an acquisition. */
  predicate InUseBounded(s: PoolState, keyRps: int)
  {
    InUseAtMost(s.apikeys, keyRps)
  }

  lemma {:induction false} UnfreezeKeepsInUseBound(a: OMap<Counters>, f: OMap<Thaw>, now: int, keyRps: int)
    requires keyRps >= 0
    requires InUseAtMost(a, keyRps)
    ensures InUseAtMost(Unfreeze(a, f, now), keyRps)
    decreases |f|
  {
    if f != [] {
      UnfreezeKeepsInUseBound(a, f[..|f| - 1], now, keyRps);
      var e := f[|f| - 1];
      SetKeepsInUseBound(Unfreeze(a, f[..|f| - 1], now), e.0, Counters(0, e.1.carried), keyRps);
    }
  }

  lemma {:induction false} SetKeepsInUseBound(a: OMap<Counters>, k: Key, c: Counters, keyRps: int)
    requires c.inUse <= keyRps && InUseAtMost(a, keyRps)
    ensures InUseAtMost(Set(a, k, c), keyRps)
    decreases |a|
  {
    if a == [] {
      InUseAtMostCons((k, c), [], keyRps);
    } else {
      InUseAtMostTail(a, keyRps);
      if a[0].0 == k {
        InUseAtMostCons((k, c), a[1..], keyRps);
      } else {
        SetKeepsInUseBound(a[1..], k, c, keyRps);
        InUseAtMostCons(a[0], Set(a[1..], k, c), keyRps);
      }
    }
  }

  /** Both tables stay Maps through a whole `_getKeys`, whether it throws or not. */
  lemma AcquireKeepsWellFormed(s: PoolState, keyRps: int, keyLimit: int, amount: int, maxwait: int, now: int)
    requires WellFormed(s)
    ensures WellFormed(Acquire(s, keyRps, keyLimit, amount, maxwait, now).s)
  {
    match Rollover(s, now)
    case RollThrew(_) =>
    case Rolled(s1) =>
      UnfreezeSpec(s1.apikeys, s1.frozen, now, "");
      PassesKeepDistinct(Unfreeze(s1.apikeys, s1.frozen, now), Max(amount, 1), 0, maxwait, keyRps, keyLimit);
  }

  lemma AcquireKeepsInUseBound(s: PoolState, keyRps: int, keyLimit: int, amount: int, maxwait: int, now: int)
    requires keyRps >= 0 && InUseBounded(s, keyRps)
    ensures InUseBounded(Acquire(s, keyRps, keyLimit, amount, maxwait, now).s, keyRps)
  {
    match Rollover(s, now)
    case RollThrew(_) =>
    case Rolled(s1) =>
      UnfreezeKeepsInUseBound(s1.apikeys, s1.frozen, now, keyRps);
      PassesKeepInUseBound(Unfreeze(s1.apikeys, s1.frozen, now), Max(amount, 1), 0, maxwait, keyRps, keyLimit);
  }

  // -------------------------------------------------------------- _freeKey

  /**
   * The `frozen` flag of `_freeKey`: undefined/false; a truthy value that
   * `parseInt` reads as NaN (`true`, a non-numeric string); a whole number
   * of ms; or a truthy value that is not a whole number (a numeric string
   * such as "0", a fraction such as 0.5) that `parseInt` reads as `ms`.
   */
  datatype Freeze = NoFreeze | FreezeDefault | FreezeFor(ms: int) | FreezeParsed(ms: int)

  /** JavaScript truthiness of the flag: only the number 0 is falsy; "0" and 0.5 are truthy. */
  predicate Truthy(f: Freeze)
  {
    f.FreezeDefault? || f.FreezeParsed? || (f.FreezeFor? && f.ms != 0)
  }

  /** `parseInt(frozen)`, with NaN replaced by 10000. */
  function FreezeMs(f: Freeze): int
    requires Truthy(f)
  {
    if f.FreezeDefault? then DefaultFreezeMs else f.ms
  }

  /** `_freeKey(key, frozen)` at time `now`; the empty key stands for a missing one. */
  function Free(s: PoolState, key: Key, f: Freeze, now: int): PoolState
  {
    if key == "" || Get(s.apikeys, key).None? then s
    else
      var row := Get(s.apikeys, key).value;
      if Truthy(f) then
        s.(apikeys := Delete(s.apikeys, key), frozen := Set(s.frozen, key, Thaw(now + FreezeMs(f), row.total)))
      else
        s.(apikeys := Set(s.apikeys, key, Counters(Max(0, row.inUse - 1), row.total)))
  }

  lemma FreeAbsentKeyIsNoOp(s: PoolState, key: Key, f: Freeze, now: int)
    requires key !in Keys(s.apikeys)
    ensures Free(s, key, f, now) == s
  {
  }

  /**
   * A normal release: inUse down by one (floored at 0), total and position
   * kept; every other key keeps its counters and the iteration order is
   * unchanged.
   */
  lemma FreeReleases(s: PoolState, key: Key, f: Freeze, now: int)
    requires key != "" && key in Keys(s.apikeys) && !Truthy(f)
    ensures var r := Free(s, key, f, now);
      && Order(r.apikeys) == Order(s.apikeys)
      && Get(r.apikeys, key).value.inUse == Max(0, Get(s.apikeys, key).value.inUse - 1)
      && Get(r.apikeys, key).value.total == Get(s.apikeys, key).value.total
      && (forall k :: k != key ==> Get(r.apikeys, k) == Get(s.apikeys, k))
      && r.frozen == s.frozen && r.overload == s.overload && r.resetDay == s.resetDay
  {
    var row := Get(s.apikeys, key).value;
    SetOrder(s.apikeys, key, Counters(Max(0, row.inUse - 1), row.total));
  }

  /** The counters `Get` finds obey a bound that holds for every entry. */
  lemma {:induction false} GetInUseAtMost(a: OMap<Counters>, k: Key, bound: int)
    requires InUseAtMost(a, bound) && k in Keys(a)
    ensures Get(a, k).value.inUse <= bound
    decreases |a|
  {
    InUseAtMostTail(a, bound);
    if a[0].0 != k {
      GetInUseAtMost(a[1..], k, bound);
    }
  }

  lemma {:induction false} DeleteKeepsInUseBound(a: OMap<Counters>, k: Key, bound: int)
    requires InUseAtMost(a, bound)
    ensures InUseAtMost(Delete(a, k), bound)
    decreases |a|
  {
    if a != [] {
      InUseAtMostTail(a, bound);
      DeleteKeepsInUseBound(a[1..], k, bound);
      if a[0].0 != k {
        InUseAtMostCons(a[0], Delete(a[1..], k), bound);
      }
    }
  }

  /** `_freeKey`, releasing or freezing, keeps inUse <= keyRps. */
  lemma FreeKeepsInUseBound(s: PoolState, key: Key, f: Freeze, now: int, keyRps: int)
    requires keyRps >= 0 && InUseBounded(s, keyRps)
    ensures InUseBounded(Free(s, key, f, now), keyRps)
  {
    if key != "" && Get(s.apikeys, key).Some? {
      var row := Get(s.apikeys, key).value;
      if Truthy(f) {
        DeleteKeepsInUseBound(s.apikeys, key, keyRps);
      } else {
        GetInUseAtMost(s.apikeys, key, keyRps);
        SetKeepsInUseBound(s.apikeys, key, Counters(Max(0, row.inUse - 1), row.total), keyRps);
      }
    }
  }

  /** A freeze: the key leaves the active table and is recorded with its expiry and total. */
  lemma FreeFreezes(s: PoolState, key: Key, f: Freeze, now: int)
    requires key != "" && key in Keys(s.apikeys) && Truthy(f)
    ensures var r := Free(s, key, f, now);
      && key !in Keys(r.apikeys)
      && Get(r.frozen, key) == Some(Thaw(now + FreezeMs(f), Get(s.apikeys, key).value.total))
      && (forall k :: k != key ==> Get(r.apikeys, k) == Get(s.apikeys, k))
      && r.overload == s.overload
  {
  }

  /**
   * Freeze and thaw: a key frozen at `now` for `ms` is back in the active
   * table after the unfreeze sweep at time `t` exactly when t > now + ms (the
   * source compares with `<`), and then with inUse 0 and its total kept.
   */
  lemma FreezeThenUnfreeze(s: PoolState, key: Key, f: Freeze, now: int, t: int)
    requires WellFormed(s)
    requires key != "" && key in Keys(s.apikeys) && Truthy(f)
    ensures var r := Free(s, key, f, now);
      var a := Unfreeze(r.apikeys, r.frozen, t);
      && (key in Keys(a) <==> t > now + FreezeMs(f))
      && (t > now + FreezeMs(f) ==> Get(a, key) == Some(Counters(0, Get(s.apikeys, key).value.total)))
  {
    var r := Free(s, key, f, now);
    UnfreezeSpec(r.apikeys, r.frozen, t, key);
  }

  /**
   * The frozen entry is never removed: after its expiry, every unfreeze sweep
   * resets the key to [0, carried], whatever it has been handed out since.
   */
  lemma UnfreezeRepeats(a: OMap<Counters>, f: OMap<Thaw>, now: int, k: Key, c: Counters)
    requires Distinct(f) && Expired(f, k, now)
    ensures Get(Unfreeze(Set(a, k, c), f, now), k) == Some(Counters(0, Get(f, k).value.carried))
  {
    UnfreezeSpec(Set(a, k, c), f, now, k);
  }
}
