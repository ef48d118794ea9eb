/**
 * An insertion-ordered map, as a JavaScript `Map` keeps it: the order in which
 * keys were first set is the order of iteration, `set` on a present key
 * replaces its value in place, and `delete` removes the key without disturbing
 * the order of the others. The pool hands out keys in iteration order, so the
 * order is part of the observable behaviour and a plain Dafny `map` would lose it.
 */
module OrderedMap {
  import opened Wrappers

  type OMap<V> = seq<(string, V)>

  /** The set of keys present. */
  function Keys<V>(m: OMap<V>): set<string>
  {
    if m == [] then {} else {m[0].0} + Keys(m[1..])
  }

  /** No key occurs twice: what every JavaScript `Map` guarantees. */
  predicate Distinct<V>(m: OMap<V>)
  {
    m == [] || (m[0].0 !in Keys(m[1..]) && Distinct(m[1..]))
  }

  /** `m.get(k)`: the value of the first (and, in a distinct map, only) entry for `k`. */
  function Get<V>(m: OMap<V>, k: string): (r: Option<V>)
    ensures r.Some? <==> k in Keys(m)
  {
    if m == [] then None
    else if m[0].0 == k then Some(m[0].1)
    else Get(m[1..], k)
  }

  /** `m.set(k, v)`: replaces the value in place when `k` is present, appends otherwise. */
  function Set<V>(m: OMap<V>, k: string, v: V): (r: OMap<V>)
    ensures Keys(r) == Keys(m) + {k}
    ensures Get(r, k) == Some(v)
    ensures forall j :: j != k ==> Get(r, j) == Get(m, j)
    ensures k !in Keys(m) ==> r == m + [(k, v)]
    ensures k in Keys(m) ==> |r| == |m|
    ensures Distinct(m) ==> Distinct(r)
  {
    if m == [] then [(k, v)]
    else if m[0].0 == k then [(k, v)] + m[1..]
    else [m[0]] + Set(m[1..], k, v)
  }

  /** `m.delete(k)`. */
  function Delete<V>(m: OMap<V>, k: string): (r: OMap<V>)
    ensures Keys(r) == Keys(m) - {k}
    ensures Get(r, k) == None
    ensures forall j :: j != k ==> Get(r, j) == Get(m, j)
    ensures k !in Keys(m) ==> r == m
    ensures Distinct(m) ==> Distinct(r)
  {
    if m == [] then []
    else if m[0].0 == k then Delete(m[1..], k)
    else [m[0]] + Delete(m[1..], k)
  }

  lemma GetCons<V>(e: (string, V), rest: OMap<V>, k: string)
    ensures Get([e] + rest, k) == if e.0 == k then Some(e.1) else Get(rest, k)
    ensures Keys([e] + rest) == {e.0} + Keys(rest)
  {
    assert ([e] + rest)[0] == e;
    assert ([e] + rest)[1..] == rest;
  }

  lemma {:induction false} KeysAppend<V>(a: OMap<V>, b: OMap<V>)
    ensures Keys(a + b) == Keys(a) + Keys(b)
  {
    if a == [] {
      assert a + b == b;
    } else {
      assert (a + b)[1..] == a[1..] + b;
      KeysAppend(a[1..], b);
    }
  }

  lemma {:induction false} DistinctAppend<V>(a: OMap<V>, b: OMap<V>)
    ensures Distinct(a + b) <==> Distinct(a) && Distinct(b) && Keys(a) !! Keys(b)
  {
    if a == [] {
      assert a + b == b;
    } else {
      assert (a + b)[1..] == a[1..] + b;
      KeysAppend(a[1..], b);
      DistinctAppend(a[1..], b);
    }
  }

  lemma {:induction false} GetAppend<V>(a: OMap<V>, b: OMap<V>, k: string)
    ensures Get(a + b, k) == if k in Keys(a) then Get(a, k) else Get(b, k)
  {
    if a == [] {
      assert a + b == b;
    } else {
      assert (a + b)[1..] == a[1..] + b;
      GetAppend(a[1..], b, k);
    }
  }

  /** Setting the entry at position |a| of `a + [(k, v)] + b` rewrites it in place. */
  lemma {:induction false} SetAt<V>(a: OMap<V>, k: string, v: V, v': V, b: OMap<V>)
    requires k !in Keys(a)
    ensures Set(a + [(k, v)] + b, k, v') == a + [(k, v')] + b
  {
    if a != [] {
      assert (a + [(k, v)] + b)[1..] == a[1..] + [(k, v)] + b;
      SetAt(a[1..], k, v, v', b);
    }
  }

  /** Deleting the entry at position |a| of `a + [(k, v)] + b` leaves `a + b`. */
  lemma {:induction false} DeleteAt<V>(a: OMap<V>, k: string, v: V, b: OMap<V>)
    requires k !in Keys(a) && k !in Keys(b)
    ensures Delete(a + [(k, v)] + b, k) == a + b
  {
    if a == [] {
      assert ([(k, v)] + b)[1..] == b;
    } else {
      assert (a + [(k, v)] + b)[1..] == a[1..] + [(k, v)] + b;
      assert (a + b)[1..] == a[1..] + b;
      DeleteAt(a[1..], k, v, b);
    }
  }

  /** In a map `a + [e] + b`, the key of `e` occurs neither before nor after it. */
  lemma DistinctMid<V>(a: OMap<V>, e: (string, V), b: OMap<V>)
    requires Distinct(a + [e] + b)
    ensures e.0 !in Keys(a) && e.0 !in Keys(b)
  {
    DistinctAppend(a + [e], b);
    DistinctAppend(a, [e]);
    KeysAppend(a, [e]);
    assert Keys([e]) == {e.0} by { GetCons(e, [], e.0); assert [e] + [] == [e]; }
  }

  /** Setting the key of the middle entry of a map rewrites that entry in place. */
  lemma SetMid<V>(a: OMap<V>, e: (string, V), b: OMap<V>, v: V)
    requires Distinct(a + [e] + b)
    ensures Set(a + [e] + b, e.0, v) == a + [(e.0, v)] + b
    ensures Distinct(a + [(e.0, v)] + b)
  {
    DistinctMid(a, e, b);
    SetAt(a, e.0, e.1, v, b);
    assert e == (e.0, e.1);
    DistinctAppend(a + [e], b);
    DistinctAppend(a, [e]);
    KeysAppend(a, [e]);
    DistinctAppend(a + [(e.0, v)], b);
    DistinctAppend(a, [(e.0, v)]);
    KeysAppend(a, [(e.0, v)]);
    assert Keys([(e.0, v)]) == {e.0} == Keys([e]) by {
      GetCons(e, [], e.0);
      GetCons((e.0, v), [], e.0);
      assert [e] + [] == [e];
      assert [(e.0, v)] + [] == [(e.0, v)];
    }
  }

  /** Deleting the key of the middle entry of a map leaves the entries around it. */
  lemma DeleteMid<V>(a: OMap<V>, e: (string, V), b: OMap<V>)
    requires Distinct(a + [e] + b)
    ensures Delete(a + [e] + b, e.0) == a + b
    ensures Distinct(a + b)
  {
    DistinctMid(a, e, b);
    DeleteAt(a, e.0, e.1, b);
    assert e == (e.0, e.1);
    DistinctAppend(a + [e], b);
    DistinctAppend(a, [e]);
    KeysAppend(a, [e]);
    DistinctAppend(a, b);
  }

  /** Splitting off the entry at position i of the entries still to visit. */
  lemma Unroll<V>(kept: OMap<V>, entries: OMap<V>, i: nat)
    requires i < |entries|
    ensures entries[i..] == [entries[i]] + entries[i + 1..]
    ensures kept + entries[i..] == kept + [entries[i]] + entries[i + 1..]
  {
    assert entries[i..] == [entries[i]] + entries[i + 1..];
  }

  /** The keys in iteration order. */
  function Order<V>(m: OMap<V>): (r: seq<string>)
    ensures |r| == |m|
  {
    seq(|m|, i requires 0 <= i < |m| => m[i].0)
  }

  /** A key is present exactly when iteration meets it. */
  lemma {:induction false} OrderHasKeys<V>(m: OMap<V>, k: string)
    ensures k in Keys(m) <==> k in Order(m)
  {
    if m != [] {
      OrderHasKeys(m[1..], k);
      assert Order(m) == [m[0].0] + Order(m[1..]);
    }
  }

  /** `set` keeps the iteration order when the key is present and puts a new key last. */
  lemma {:induction false} SetOrder<V>(m: OMap<V>, k: string, v: V)
    ensures Order(Set(m, k, v)) == if k in Keys(m) then Order(m) else Order(m) + [k]
  {
    if m == [] {
      assert Order([(k, v)]) == [k];
    } else if m[0].0 == k {
      assert Order([(k, v)] + m[1..]) == [k] + Order(m[1..]);
      assert Order(m) == [m[0].0] + Order(m[1..]);
    } else {
      SetOrder(m[1..], k, v);
      assert Order([m[0]] + Set(m[1..], k, v)) == [m[0].0] + Order(Set(m[1..], k, v));
      assert Order(m) == [m[0].0] + Order(m[1..]);
    }
  }
}
