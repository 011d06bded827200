/**
 * The per-alias store of received payloads. Each alias owns a key/value map (entries
 * may also vanish from it on their own, through expiry) and a queue of keys in order
 * of arrival. Draining pops keys from one end of the queue, keeps those whose value is
 * still present, and silently drops the others.
 */
module Cache {
  import opened Wrappers
  import opened Sequences

  const AliasNotFound: string := "Alias not found"

  /** Entry lifetime used when `CACHE_TTL` is unset or not a number, in seconds. */
  const DefaultTtlSeconds: nat := 300

  /** Entries kept per alias before the map starts evicting. */
  const MaxCapacity: nat := 10000

  /** The queue invariant: no key is queued twice, and every key with a value is queued. */
  ghost predicate QueueOk<K, V>(live: map<K, V>, order: seq<K>)
  {
    NoDup(order) && forall k :: k in live ==> k in order
  }

  // ---------------------------------------------------------------- insertion order

  /** The queue after (re)inserting `k`: any earlier occurrence is taken out, and `k` goes to the back. */
  function Requeue<K(==)>(order: seq<K>, k: K): seq<K>
  {
    Without(order, k) + [k]
  }

  /**
   * Re-inserting keeps the queue invariant; the key then occurs exactly once, at the back,
   * behind every other queued key in its old relative order; the queue only grows when
   * the key is new.
   */
  lemma RequeueKeepsQueue<K, V>(live: map<K, V>, order: seq<K>, k: K, v: V)
    requires QueueOk(live, order)
    ensures QueueOk(live[k := v], Requeue(order, k))
    ensures var r := Requeue(order, k); r[|r| - 1] == k && forall i :: 0 <= i < |r| - 1 ==> r[i] != k
    ensures Requeue(order, k)[..|Requeue(order, k)| - 1] == Without(order, k)
    ensures |Requeue(order, k)| == if k in order then |order| else |order| + 1
  {
    RequeueNoDup(order, k);
    RequeueCovers(live, order, k, v);
    RequeueLength(order, k);
    var r := Requeue(order, k);
    assert r[..|r| - 1] == Without(order, k);
  }

  lemma RequeueNoDup<K>(order: seq<K>, k: K)
    requires NoDup(order)
    ensures NoDup(Requeue(order, k))
  {
    var w := Without(order, k);
    var r := w + [k];
    NoDupWithout(order, k);
    forall i, j | 0 <= i < j < |r| ensures r[i] != r[j] {
      if j == |r| - 1 { assert r[i] == w[i]; } else { assert r[i] == w[i] && r[j] == w[j]; }
    }
  }

  lemma RequeueCovers<K, V>(live: map<K, V>, order: seq<K>, k: K, v: V)
    requires forall x :: x in live ==> x in order
    ensures forall x :: x in live[k := v] ==> x in Requeue(order, k)
  {
    var w := Without(order, k);
    forall x | x in live[k := v] ensures x in w + [k] {
      if x != k {
        var i :| 0 <= i < |order| && order[i] == x;
        assert x in w;
      }
    }
  }

  lemma RequeueLength<K>(order: seq<K>, k: K)
    requires NoDup(order)
    ensures |Requeue(order, k)| == if k in order then |order| else |order| + 1
  {
    if k in order {
      var i :| 0 <= i < |order| && order[i] == k;
      WithoutAt(order, i);
    } else {
      WithoutAbsent(order, k);
    }
  }

  // ---------------------------------------------------------------- draining

  /** What a drain returns and leaves behind: the taken entries, the remaining map and the remaining queue. */
  datatype Drain<K(==), V> = Drain(items: seq<(K, V)>, live: map<K, V>, order: seq<K>)

  /** `drained` in front of the entries of `rest`. */
  function After<K(==), V>(drained: seq<(K, V)>, rest: Drain<K, V>): Drain<K, V>
  {
    Drain(drained + rest.items, rest.live, rest.order)
  }

  /**
   * The `remove_oldest` loop: while fewer than `n` entries are taken and the queue is not
   * empty, pop the front key; if it still has a value, take the entry and delete it.
   */
  function DrainOldest<K(==), V>(live: map<K, V>, order: seq<K>, n: nat): (r: Drain<K, V>)
    ensures |r.items| <= n && |r.order| <= |order|
    decreases |order|
  {
    if n == 0 || order == [] then Drain([], live, order)
    else if order[0] in live then
      After([(order[0], live[order[0]])], DrainOldest(live - {order[0]}, order[1..], n - 1))
    else DrainOldest(live, order[1..], n)
  }

  /** The `remove_newest` loop: the same, popping from the back. */
  function DrainNewest<K(==), V>(live: map<K, V>, order: seq<K>, n: nat): (r: Drain<K, V>)
    ensures |r.items| <= n && |r.order| <= |order|
    decreases |order|
  {
    if n == 0 || order == [] then Drain([], live, order)
    else
      var k := order[|order| - 1];
      if k in live then After([(k, live[k])], DrainNewest(live - {k}, order[..|order| - 1], n - 1))
      else DrainNewest(live, order[..|order| - 1], n)
  }

  /** The entries of the keys in `keys` that have a value, in the order of `keys`. */
  function LiveEntries<K(==), V>(keys: seq<K>, live: map<K, V>): (r: seq<(K, V)>)
    ensures |r| <= |keys|
    ensures forall i :: 0 <= i < |r| ==> r[i].0 in keys && r[i].0 in live && r[i].1 == live[r[i].0]
  {
    if keys == [] then []
    else (if keys[0] in live then [(keys[0], live[keys[0]])] else []) + LiveEntries(keys[1..], live)
  }

  /** Deleting a key that is not among `keys` does not change their live entries. */
  lemma {:induction false} LiveEntriesWithout<K, V>(keys: seq<K>, live: map<K, V>, k: K)
    requires k !in keys
    ensures LiveEntries(keys, live - {k}) == LiveEntries(keys, live)
  {
    if keys != [] {
      assert keys[0] != k;
      LiveEntriesWithout(keys[1..], live, k);
    }
  }

  /**
   * What `remove_oldest(n)` does, in closed form. It consumes a prefix of the queue and
   * leaves the rest. It returns the live entries of that prefix, front to back, with
   * their stored values. Those keys lose their values; nothing else does. It takes at
   * most `n` entries, and stops short of `n` only when the queue runs out. Keys without
   * a value are dropped from the queue and are neither returned nor counted. With
   * `n == 0` nothing changes.
   */
  lemma {:induction false} DrainOldestSpec<K, V>(live: map<K, V>, order: seq<K>, n: nat)
    requires NoDup(order)
    ensures var d := DrainOldest(live, order, n); var m := |order| - |d.order|;
      |d.order| <= |order| && d.order == order[m..]
      && d.items == LiveEntries(order[..m], live)
      && (forall k :: k in d.live ==> k in live && d.live[k] == live[k])
      && (forall k :: k in live ==> (k in d.live <==> k !in order[..m]))
      && |d.items| <= n
      && (|d.items| < n ==> d.order == [])
    ensures n == 0 ==> DrainOldest(live, order, n) == Drain([], live, order)
  {
    DrainOldestShape(live, order, n);
    DrainOldestItems(live, order, n);
    DrainOldestLive(live, order, n);
  }

  /** The queue loses a prefix; at most `n` entries are taken, fewer only when the queue runs out. */
  lemma {:induction false} DrainOldestShape<K, V>(live: map<K, V>, order: seq<K>, n: nat)
    ensures var d := DrainOldest(live, order, n);
      |d.order| <= |order| && d.order == order[|order| - |d.order|..]
      && |d.items| <= n && (|d.items| < n ==> d.order == [])
    ensures n == 0 ==> DrainOldest(live, order, n) == Drain([], live, order)
    decreases |order|
  {
    if n > 0 && order != [] {
      if order[0] in live {
        DrainOldestShape(live - {order[0]}, order[1..], n - 1);
      } else {
        DrainOldestShape(live, order[1..], n);
      }
    }
  }

  /** The entries taken are the live entries of the consumed prefix, in queue order. */
  lemma {:induction false} DrainOldestItems<K, V>(live: map<K, V>, order: seq<K>, n: nat)
    requires NoDup(order)
    ensures var d := DrainOldest(live, order, n);
      |d.order| <= |order| && d.items == LiveEntries(order[..|order| - |d.order|], live)
    decreases |order|
  {
    DrainOldestShape(live, order, n);
    if n == 0 || order == [] {
      assert order[..0] == [];
    } else {
      NoDupTail(order);
      if order[0] in live {
        DrainOldestItems(live - {order[0]}, order[1..], n - 1);
        DrainItemsStep(live, order, n - 1, live - {order[0]});
      } else {
        DrainOldestItems(live, order[1..], n);
        DrainItemsStep(live, order, n, live);
      }
    }
  }

  /** One step of `DrainOldestItems`: from the tail's drain (on `rest`, the map after the front is taken) to the whole queue's. */
  lemma DrainItemsStep<K, V>(live: map<K, V>, order: seq<K>, n': nat, rest: map<K, V>)
    requires NoDup(order) && order != []
    requires rest == if order[0] in live then live - {order[0]} else live
    requires var t := DrainOldest(rest, order[1..], n');
      |t.order| <= |order| - 1 && t.items == LiveEntries(order[1..][..|order| - 1 - |t.order|], rest)
    ensures var t := DrainOldest(rest, order[1..], n');
      (if order[0] in live then [(order[0], live[order[0]])] else []) + t.items
        == LiveEntries(order[..|order| - |t.order|], live)
  {
    var t := DrainOldest(rest, order[1..], n');
    var k := order[0];
    var pre := order[1..][..|order| - 1 - |t.order|];
    assert order[..|order| - |t.order|] == [k] + pre;
    LiveEntriesCons(k, pre, live);
    if k in live {
      assert k !in pre;
      LiveEntriesWithout(pre, live, k);
    }
  }

  lemma LiveEntriesCons<K, V>(k: K, keys: seq<K>, live: map<K, V>)
    ensures LiveEntries([k] + keys, live) == (if k in live then [(k, live[k])] else []) + LiveEntries(keys, live)
  {
    assert ([k] + keys)[1..] == keys;
  }

  /** Exactly the keys of the consumed prefix lose their values; the other values stay as they were. */
  lemma {:induction false} DrainOldestLive<K, V>(live: map<K, V>, order: seq<K>, n: nat)
    requires NoDup(order)
    ensures var d := DrainOldest(live, order, n); var m := |order| - |d.order|;
      |d.order| <= |order|
      && (forall k :: k in d.live ==> k in live && d.live[k] == live[k])
      && (forall k :: k in live ==> (k in d.live <==> k !in order[..m]))
    decreases |order|
  {
    DrainOldestShape(live, order, n);
    if n == 0 || order == [] {
      assert order[..0] == [];
    } else {
      var k := order[0];
      NoDupTail(order);
      var tail := order[1..];
      var live' := if k in live then live - {k} else live;
      var n' := if k in live then n - 1 else n;
      var rest := DrainOldest(live', tail, n');
      assert DrainOldest(live, order, n).live == rest.live;
      assert DrainOldest(live, order, n).order == rest.order;
      DrainOldestLive(live', tail, n');
      var m' := |tail| - |rest.order|;
      assert order[..m' + 1] == [k] + tail[..m'];
    }
  }

  /** Draining keeps the queue invariant, and every returned key has lost its value. */
  lemma DrainOldestKeepsQueue<K, V>(live: map<K, V>, order: seq<K>, n: nat)
    requires QueueOk(live, order)
    ensures var d := DrainOldest(live, order, n);
      QueueOk(d.live, d.order) && forall i :: 0 <= i < |d.items| ==> d.items[i].0 !in d.live
  {
    DrainOldestSpec(live, order, n);
    var d := DrainOldest(live, order, n);
    var m := |order| - |d.order|;
    forall i, j | 0 <= i < j < |d.order| ensures d.order[i] != d.order[j] {
      assert d.order[i] == order[m + i] && d.order[j] == order[m + j];
    }
    assert order == order[..m] + order[m..];
    forall k | k in d.live ensures k in d.order {
      assert k in order[..m] + order[m..];
    }
  }

  /** `remove_newest` is `remove_oldest` on the reversed queue: it takes the newest entries first. */
  lemma {:induction false} DrainMirror<K, V>(live: map<K, V>, order: seq<K>, n: nat)
    ensures var d := DrainOldest(live, Reverse(order), n);
      DrainNewest(live, order, n) == Drain(d.items, d.live, Reverse(d.order))
    decreases |order|
  {
    if n == 0 || order == [] {
      ReverseReverse(order);
    } else {
      ReverseInit(order);
      var k := order[|order| - 1];
      if k in live {
        DrainMirror(live - {k}, order[..|order| - 1], n - 1);
      } else {
        DrainMirror(live, order[..|order| - 1], n);
      }
    }
  }

  /**
   * What `remove_newest(n)` does: it consumes a suffix of the queue and returns the live
   * entries of that suffix newest first, at most `n` of them, stopping short only when
   * the queue runs out.
   */
  lemma DrainNewestSpec<K, V>(live: map<K, V>, order: seq<K>, n: nat)
    requires NoDup(order)
    ensures var d := DrainNewest(live, order, n); var m := |d.order|;
      m <= |order| && d.order == order[..m]
      && d.items == LiveEntries(Reverse(order[m..]), live)
      && (forall k :: k in d.live ==> k in live && d.live[k] == live[k])
      && (forall k :: k in live ==> (k in d.live <==> k !in order[m..]))
      && |d.items| <= n
      && (|d.items| < n ==> d.order == [])
  {
    DrainMirror(live, order, n);
    ReverseNoDup(order);
    DrainOldestSpec(live, Reverse(order), n);
    var r := Reverse(order);
    var e := DrainOldest(live, r, n);
    var m := |e.order|;
    var j := |r| - m;
    ReverseSlices(order, j);
    ReverseReverse(order[..m]);
    forall k | k in live ensures k in r[..j] <==> k in order[m..] {
      ReverseMembers(order[m..], k);
    }
  }

  lemma DrainNewestKeepsQueue<K, V>(live: map<K, V>, order: seq<K>, n: nat)
    requires QueueOk(live, order)
    ensures var d := DrainNewest(live, order, n);
      QueueOk(d.live, d.order) && forall i :: 0 <= i < |d.items| ==> d.items[i].0 !in d.live
  {
    DrainMirror(live, order, n);
    ReverseQueue(live, order);
    DrainOldestKeepsQueue(live, Reverse(order), n);
    var e := DrainOldest(live, Reverse(order), n);
    ReverseQueue(e.live, e.order);
  }

  lemma ReverseQueue<K, V>(live: map<K, V>, order: seq<K>)
    requires QueueOk(live, order)
    ensures QueueOk(live, Reverse(order))
  {
    ReverseNoDup(order);
    forall k | k in live ensures k in Reverse(order) {
      ReverseMembers(order, k);
    }
  }

  /** Expiry removes values, never queued keys, and so keeps the queue invariant. */
  lemma ExpireKeepsQueue<K, V>(live: map<K, V>, order: seq<K>, k: K)
    requires QueueOk(live, order)
    ensures QueueOk(live - {k}, order)
  {
  }

  /**
   * Inserting `f1`, then `f2`, then `f1` again with new content queues `f2` before `f1`:
   * draining one entry yields `f2`, and draining two yields `f1` behind it with its
   * second value.
   */
  lemma ReinsertionReorders<K, V>(f1: K, f2: K, v1: V, v2: V, w1: V)
    requires f1 != f2
    ensures Requeue(Requeue(Requeue([], f1), f2), f1) == [f2, f1]
    ensures DrainOldest(map[f1 := v1][f2 := v2][f1 := w1], [f2, f1], 1).items == [(f2, v2)]
    ensures DrainOldest(map[f1 := v1][f2 := v2][f1 := w1], [f2, f1], 2).items == [(f2, v2), (f1, w1)]
  {
    assert Without([], f1) == [];
    assert Without([f1], f2) == [f1];
    assert Without([f1, f2], f1) == [f2];
    var live := map[f1 := v1][f2 := v2][f1 := w1];
    assert [f2, f1][1..] == [f1] && [f1][1..] == [];
    assert DrainOldest(live - {f2}, [f1], 0) == Drain([], live - {f2}, [f1]);
    assert DrainOldest(live - {f2} - {f1}, [], 0) == Drain([], live - {f2} - {f1}, []);
  }

  // ---------------------------------------------------------------- the store

  /** `OrderedCache`: for each alias, the live entries (`caches`) and the arrival queue (`orders`). */
  class OrderedCache<V> {
    var caches: map<string, map<string, V>>
    var orders: map<string, seq<string>>

    ghost predicate Valid()
      reads this
    {
      caches.Keys == orders.Keys && forall a :: a in caches ==> QueueOk(caches[a], orders[a])
    }

    /** `new(aliases)`: one empty map and one empty queue for each listed alias. */
    constructor (aliases: seq<string>)
      ensures Valid()
      ensures caches.Keys == set a | a in aliases
      ensures forall a :: a in caches ==> caches[a] == map[] && orders[a] == []
    {
      var c: map<string, map<string, V>> := map[];
      var o: map<string, seq<string>> := map[];
      for i := 0 to |aliases|
        invariant c.Keys == o.Keys == set j | 0 <= j < i :: aliases[j]
        invariant forall a :: a in c ==> c[a] == map[] && o[a] == []
      {
        c := c[aliases[i] := map[]];
        o := o[aliases[i] := []];
      }
      assert forall a :: a in aliases <==> exists j :: 0 <= j < |aliases| && aliases[j] == a;
      caches := c;
      orders := o;
    }

    /** `has_alias`. */
    predicate HasAlias(alias: string)
      reads this
      ensures Valid() ==> (HasAlias(alias) <==> alias in orders)
    {
      alias in caches
    }

    /** `get`: the live value stored under `key` for `alias`, if any. */
    function Get(alias: string, key: string): (r: Option<V>)
      reads this
      ensures r.Some? <==> alias in caches && key in caches[alias]
      ensures r.Some? ==> r.value == caches[alias][key]
      ensures Valid() && r.Some? ==> key in orders[alias]
      ensures !HasAlias(alias) ==> r.None?
    {
      if alias in caches && key in caches[alias] then Some(caches[alias][key]) else None
    }

    /** `insert`: store the value and move the key to the back of the queue. */
    method Insert(alias: string, key: string, value: V) returns (r: Result<(), string>)
      requires Valid()
      modifies this
      ensures Valid()
      ensures alias !in old(caches) ==> r == Err(AliasNotFound) && caches == old(caches) && orders == old(orders)
      ensures alias in old(caches) ==>
        (r == Ok(())
        && caches == old(caches)[alias := old(caches)[alias][key := value]]
        && orders == old(orders)[alias := Requeue(old(orders)[alias], key)])
      ensures alias in old(caches) ==> Get(alias, key) == Some(value)
    {
      if alias !in caches || alias !in orders {
        return Err(AliasNotFound);
      }
      RequeueKeepsQueue(caches[alias], orders[alias], key, value);
      caches := caches[alias := caches[alias][key := value]];
      var order := orders[alias];
      var pos := 0;
      while pos < |order| && order[pos] != key
        invariant pos <= |order| && key !in order[..pos]
      {
        assert order[..pos + 1] == order[..pos] + [order[pos]];
        pos := pos + 1;
      }
      if pos < |order| {
        WithoutAt(order, pos);
        order := order[..pos] + order[pos + 1..];
      } else {
        assert order[..pos] == order;
        WithoutAbsent(order, key);
      }
      orders := orders[alias := order + [key]];
      r := Ok(());
    }

    /** `remove_oldest`: take up to `n` live entries from the front of the queue. */
    method RemoveOldest(alias: string, n: nat) returns (r: Result<seq<(string, V)>, string>)
      requires Valid()
      modifies this
      ensures Valid()
      ensures alias !in old(caches) ==> r == Err(AliasNotFound) && caches == old(caches) && orders == old(orders)
      ensures alias in old(caches) ==>
        var d := DrainOldest(old(caches)[alias], old(orders)[alias], n);
        r == Ok(d.items) && caches == old(caches)[alias := d.live] && orders == old(orders)[alias := d.order]
    {
      if alias !in caches || alias !in orders {
        return Err(AliasNotFound);
      }
      DrainOldestKeepsQueue(caches[alias], orders[alias], n);
      ghost var d := DrainOldest(caches[alias], orders[alias], n);
      var removed: seq<(string, V)> := [];
      while |removed| < n && orders[alias] != []
        invariant alias in caches && alias in orders
        invariant caches == old(caches)[alias := caches[alias]] && orders == old(orders)[alias := orders[alias]]
        invariant |removed| <= n
        invariant d == After(removed, DrainOldest(caches[alias], orders[alias], n - |removed|))
        decreases |orders[alias]|
      {
        var key := orders[alias][0];
        orders := orders[alias := orders[alias][1..]];
        if key in caches[alias] {
          removed := removed + [(key, caches[alias][key])];
          caches := caches[alias := caches[alias] - {key}];
        }
      }
      assert removed + [] == removed;
      r := Ok(removed);
    }

    /** `remove_newest`: take up to `n` live entries from the back of the queue. */
    method RemoveNewest(alias: string, n: nat) returns (r: Result<seq<(string, V)>, string>)
      requires Valid()
      modifies this
      ensures Valid()
      ensures alias !in old(caches) ==> r == Err(AliasNotFound) && caches == old(caches) && orders == old(orders)
      ensures alias in old(caches) ==>
        var d := DrainNewest(old(caches)[alias], old(orders)[alias], n);
        r == Ok(d.items) && caches == old(caches)[alias := d.live] && orders == old(orders)[alias := d.order]
    {
      if alias !in caches || alias !in orders {
        return Err(AliasNotFound);
      }
      DrainNewestKeepsQueue(caches[alias], orders[alias], n);
      ghost var d := DrainNewest(caches[alias], orders[alias], n);
      var removed: seq<(string, V)> := [];
      while |removed| < n && orders[alias] != []
        invariant alias in caches && alias in orders
        invariant caches == old(caches)[alias := caches[alias]] && orders == old(orders)[alias := orders[alias]]
        invariant |removed| <= n
        invariant d == After(removed, DrainNewest(caches[alias], orders[alias], n - |removed|))
        decreases |orders[alias]|
      {
        var order := orders[alias];
        var key := order[|order| - 1];
        orders := orders[alias := order[..|order| - 1]];
        if key in caches[alias] {
          removed := removed + [(key, caches[alias][key])];
          caches := caches[alias := caches[alias] - {key}];
        }
      }
      assert removed + [] == removed;
      r := Ok(removed);
    }

    /** `add_alias`: a fresh empty map and queue for `alias`, replacing any it had. */
    method AddAlias(alias: string)
      requires Valid()
      modifies this
      ensures Valid()
      ensures caches == old(caches)[alias := map[]] && orders == old(orders)[alias := []]
    {
      caches := caches[alias := map[]];
      orders := orders[alias := []];
    }

    /** `get_aliases`: every alias once, in no particular order. */
    method GetAliases() returns (r: seq<string>)
      ensures NoDup(r) && forall a :: a in r <==> a in caches
    {
      r := [];
      var rest := caches.Keys;
      while rest != {}
        invariant rest <= caches.Keys && NoDup(r)
        invariant forall a :: a in r <==> a in caches && a !in rest
        decreases |rest|
      {
        var a :| a in rest;
        forall i | 0 <= i < |r| ensures r[i] != a { assert r[i] in r; }
        r := r + [a];
        rest := rest - {a};
      }
    }

    /** The value under `key` expires (time to live or capacity); its key stays queued. */
    method Expire(alias: string, key: string)
      requires Valid()
      modifies this
      ensures Valid()
      ensures caches == if alias in old(caches) then old(caches)[alias := old(caches)[alias] - {key}] else old(caches)
      ensures orders == old(orders)
    {
      if alias in caches {
        ExpireKeepsQueue(caches[alias], orders[alias], key);
        caches := caches[alias := caches[alias] - {key}];
      }
    }
  }
}
