/**
 * Long-poll retrieval: drain up to the configured number of oldest entries for an alias,
 * retrying until something arrives or the time runs out, and report the outcome as a
 * `DataResponse`. The timeout is a bound on the number of drains.
 */
module DataPolling {
  import opened Wrappers
  import opened Sequences
  import opened Text
  import opened JsonValues
  import opened Cache

  /** What the retrieval endpoint answers with. */
  datatype DataResponse = DataResponse(status: string, message: string, count: nat, data: seq<Json>)

  /** An operation run under a deadline: it finished with a value, or the deadline passed first. */
  datatype Timed<T> = Completed(value: T) | Elapsed

  /** The polling settings: how long a client may wait, and how many entries one answer carries. */
  datatype PollingConfig = PollingConfig(timeoutSeconds: nat, maxPolledItems: nat)

  const DefaultTimeoutSeconds: nat := 20
  const DefaultMaxPolledItems: nat := 5
  const DefaultPollingConfig: PollingConfig := PollingConfig(DefaultTimeoutSeconds, DefaultMaxPolledItems)

  /** The pause between two drains. */
  const PollIntervalMillis: nat := 100

  /** The member that tags each returned object with the key it was stored under. */
  const CacheKeyField: string := "_cache_key"

  const StatusError: string := "error"
  const StatusSuccess: string := "success"
  const StatusTimeout: string := "timeout"
  const TimeoutMessage: string := "No data available within timeout period"

  /** The drains after the first that fit in the timeout, one per pause. */
  function Retries(config: PollingConfig): nat
  {
    config.timeoutSeconds * 1000 / PollIntervalMillis
  }

  type Polled = Timed<Result<seq<(string, Json)>, string>>

  /** The outcome of the polling loop, with the alias's map and queue it leaves behind. */
  datatype PollOutcome = PollOutcome(result: Polled, live: map<string, Json>, order: seq<string>)

  /**
   * `poll_for_data` on an alias's map and queue: drain; a non-empty drain is the answer;
   * an empty one is retried after a pause while `retries` allow, after which time is up.
   */
  function Poll(live: map<string, Json>, order: seq<string>, n: nat, retries: nat): (r: PollOutcome)
    ensures r.result.Completed? ==> r.result.value.Ok? && 0 < |r.result.value.value| <= n
    ensures |r.order| <= |order|
    decreases retries
  {
    DrainOldestShape(live, order, n);
    var d := DrainOldest(live, order, n);
    if d.items != [] then PollOutcome(Completed(Ok(d.items)), d.live, d.order)
    else if retries == 0 then PollOutcome(Elapsed, d.live, d.order)
    else Poll(d.live, d.order, n, retries - 1)
  }

  /** `add_cache_keys_to_data` on one entry: an object gains its key; any other value is kept. */
  function TagWithKey(key: string, value: Json): Json
  {
    match value
    case JObject(fields) => JObject(fields[CacheKeyField := JString(key)])
    case _ => value
  }

  /** `add_cache_keys_to_data`. */
  function AddCacheKeys(items: seq<(string, Json)>): (r: seq<Json>)
    ensures |r| == |items|
    ensures forall i :: 0 <= i < |r| ==> (r[i].JObject? <==> items[i].1.JObject?)
    ensures forall i :: 0 <= i < |r| && !items[i].1.JObject? ==> r[i] == items[i].1
    ensures forall i :: 0 <= i < |r| && items[i].1.JObject? ==>
      r[i].fields == items[i].1.fields[CacheKeyField := JString(items[i].0)]
  {
    seq(|items|, i requires 0 <= i < |items| => TagWithKey(items[i].0, items[i].1))
  }

  function TimedOut(): DataResponse
  {
    DataResponse(StatusTimeout, TimeoutMessage, 0, [])
  }

  /** The answer of `retrieve_data_with_polling`, given whether the alias exists and how polling ended. */
  function Respond(alias: string, known: bool, polled: Polled): (r: DataResponse)
    ensures r.status == StatusError <==> !known
    ensures r.status == StatusSuccess <==> known && polled.Completed? && polled.value.Ok? && polled.value.value != []
    ensures r.status == StatusError || r.status == StatusSuccess || r.status == StatusTimeout
    ensures r.count == |r.data|
    ensures r.status == StatusSuccess ==> r.data == AddCacheKeys(polled.value.value)
    ensures r.status != StatusSuccess ==> r.data == []
  {
    if !known then DataResponse(StatusError, "Alias '" + alias + "' not found", 0, [])
    else match polled
      case Completed(Ok(items)) =>
        if items == [] then TimedOut()
        else
          var data := AddCacheKeys(items);
          DataResponse(StatusSuccess, "Retrieved " + NatToString(|data|) + " items after polling", |data|, data)
      case _ => TimedOut()
  }

  // ---------------------------------------------------------------- the loops

  /** `poll_for_data`. */
  method PollForData(cache: OrderedCache<Json>, alias: string, n: nat, retries: nat) returns (r: Polled)
    requires cache.Valid()
    modifies cache
    ensures cache.Valid()
    ensures alias !in old(cache.caches) ==>
      r == Completed(Err(AliasNotFound)) && cache.caches == old(cache.caches) && cache.orders == old(cache.orders)
    ensures alias in old(cache.caches) ==>
      var p := Poll(old(cache.caches)[alias], old(cache.orders)[alias], n, retries);
      r == p.result && cache.caches == old(cache.caches)[alias := p.live] && cache.orders == old(cache.orders)[alias := p.order]
  {
    var used := 0;
    ghost var known := alias in cache.caches;
    ghost var caches0 := cache.caches;
    ghost var orders0 := cache.orders;
    ghost var goal := if known then Poll(caches0[alias], orders0[alias], n, retries) else PollOutcome(Elapsed, map[], []);
    while true
      invariant cache.Valid() && used <= retries
      invariant !known ==> cache.caches == caches0 && cache.orders == orders0
      invariant known ==> alias in cache.caches && alias in cache.orders
      invariant known ==> cache.caches == caches0[alias := cache.caches[alias]]
      invariant known ==> cache.orders == orders0[alias := cache.orders[alias]]
      invariant known ==> goal == Poll(cache.caches[alias], cache.orders[alias], n, retries - used)
      decreases retries - used
    {
      var drained := cache.RemoveOldest(alias, n);
      if drained.Err? {
        return Completed(Err(drained.error));
      }
      if drained.value != [] {
        return Completed(Ok(drained.value));
      }
      if used == retries {
        return Elapsed;
      }
      used := used + 1;
    }
  }

  /** `retrieve_data_with_polling`: never an error; the alias check comes before any draining. */
  method RetrieveDataWithPolling(alias: string, cache: OrderedCache<Json>, config: PollingConfig)
    returns (r: Result<DataResponse, string>)
    requires cache.Valid()
    modifies cache
    ensures cache.Valid()
    ensures alias !in old(cache.caches) ==>
      r == Ok(Respond(alias, false, Elapsed)) && cache.caches == old(cache.caches) && cache.orders == old(cache.orders)
    ensures alias in old(cache.caches) ==>
      var p := Poll(old(cache.caches)[alias], old(cache.orders)[alias], config.maxPolledItems, Retries(config));
      r == Ok(Respond(alias, true, p.result))
      && cache.caches == old(cache.caches)[alias := p.live] && cache.orders == old(cache.orders)[alias := p.order]
  {
    if !cache.HasAlias(alias) {
      return Ok(Respond(alias, false, Elapsed));
    }
    var polled := PollForData(cache, alias, config.maxPolledItems, Retries(config));
    r := Ok(Respond(alias, true, polled));
  }

  // ---------------------------------------------------------------- properties

  /** An unknown alias gets the error answer, whatever polling would have done. */
  lemma UnknownAlias(alias: string, polled: Polled)
    ensures var d := Respond(alias, false, polled);
      d.status == StatusError && d.message == "Alias '" + alias + "' not found" && d.count == 0 && d.data == []
  {
  }

  /**
   * Every answer is tagged `error`, `success` or `timeout`. A success carries between one
   * and all of the drained entries' values, as many as `count` says; the other two carry
   * nothing.
   */
  lemma ResponseShapes(alias: string, known: bool, polled: Polled)
    ensures var d := Respond(alias, known, polled);
      (d.status == StatusError || d.status == StatusSuccess || d.status == StatusTimeout)
      && (d.status == StatusSuccess ==> d.count == |d.data| && d.count >= 1)
      && (d.status != StatusSuccess ==> d.count == 0 && d.data == [])
    ensures var d := Respond(alias, known, polled);
      d.status == StatusSuccess <==> known && polled.Completed? && polled.value.Ok? && polled.value.value != []
    ensures var d := Respond(alias, known, polled);
      d.status == StatusSuccess ==> d.data == AddCacheKeys(polled.value.value)
    ensures known && (polled.Elapsed? || polled.value.Err? || polled.value.value == []) ==> Respond(alias, known, polled) == TimedOut()
  {
    assert StatusSuccess[0] != StatusError[0] && StatusSuccess[0] != StatusTimeout[0];
  }

  /**
   * Tagging keeps the entries' number and order. An object value gains `_cache_key` set to
   * its key and keeps every other member; any other value is passed through.
   */
  lemma AddCacheKeysSpec(items: seq<(string, Json)>)
    ensures |AddCacheKeys(items)| == |items|
    ensures forall i :: 0 <= i < |items| && items[i].1.JObject? ==>
      var t := AddCacheKeys(items)[i];
      Get(t, CacheKeyField) == Some(JString(items[i].0))
      && t.JObject? && t.fields.Keys == items[i].1.fields.Keys + {CacheKeyField}
      && forall k :: k in items[i].1.fields && k != CacheKeyField ==> Get(t, k) == Some(items[i].1.fields[k])
    ensures forall i :: 0 <= i < |items| && !items[i].1.JObject? ==> AddCacheKeys(items)[i] == items[i].1
  {
  }

  /** Tagging distributes over concatenation: it is a per-entry map. */
  lemma AddCacheKeysAppend(a: seq<(string, Json)>, b: seq<(string, Json)>)
    ensures AddCacheKeys(a + b) == AddCacheKeys(a) + AddCacheKeys(b)
  {
    var l := AddCacheKeys(a + b);
    var rr := AddCacheKeys(a) + AddCacheKeys(b);
    forall i | 0 <= i < |l| ensures l[i] == rr[i] {
      if i < |a| { assert (a + b)[i] == a[i]; } else { assert (a + b)[i] == b[i - |a|]; }
    }
  }

  /** A drain of an empty queue takes nothing and changes nothing. */
  lemma DrainEmptyQueue(live: map<string, Json>, n: nat)
    ensures DrainOldest(live, [], n) == Drain([], live, [])
  {
  }

  /**
   * Polling completes only with a non-empty list of at most `n` entries, never with an
   * error (the loop is only run on an existing alias), and never raises the queue
   * invariant's guard.
   */
  lemma {:induction false} PollResults(live: map<string, Json>, order: seq<string>, n: nat, retries: nat)
    requires QueueOk(live, order)
    ensures var p := Poll(live, order, n, retries);
      (p.result.Elapsed? || (p.result.value.Ok? && 1 <= |p.result.value.value| <= n))
      && QueueOk(p.live, p.order)
    decreases retries
  {
    var d := DrainOldest(live, order, n);
    DrainOldestSpec(live, order, n);
    DrainOldestKeepsQueue(live, order, n);
    if d.items == [] && retries > 0 {
      PollResults(d.live, d.order, n, retries - 1);
    }
  }

  /** When nothing is taken, a queue with something to take was empty: afterwards it has nothing left. */
  lemma EmptyDrainExhausts(live: map<string, Json>, order: seq<string>, n: nat)
    requires QueueOk(live, order) && n > 0
    requires DrainOldest(live, order, n).items == []
    ensures DrainOldest(live, order, n).order == [] && DrainOldest(live, order, n).live == map[]
  {
    DrainOldestSpec(live, order, n);
    DrainOldestKeepsQueue(live, order, n);
  }

  /** With nothing to take and no producer in between, every retry finds nothing too. */
  lemma {:induction false} PollNothing(live: map<string, Json>, n: nat, retries: nat)
    requires live == map[]
    ensures Poll(live, [], n, retries) == PollOutcome(Elapsed, map[], [])
    decreases retries
  {
    DrainEmptyQueue(live, n);
    if retries > 0 { PollNothing(live, n, retries - 1); }
  }

  /**
   * With no other producer, the first drain decides: polling returns its entries if it
   * took any, and otherwise times out however many retries are left. The entries are
   * the oldest live ones, front to back.
   */
  lemma PollFirstDrainDecides(live: map<string, Json>, order: seq<string>, n: nat, retries: nat)
    requires QueueOk(live, order)
    ensures var d := DrainOldest(live, order, n);
      Poll(live, order, n, retries).result == if d.items != [] then Completed(Ok(d.items)) else Elapsed
  {
    var d := DrainOldest(live, order, n);
    if d.items == [] && retries > 0 {
      if n == 0 {
        PollZero(live, order, retries);
      } else {
        EmptyDrainExhausts(live, order, n);
        PollNothing(d.live, n, retries - 1);
      }
    }
  }

  /** Asking for zero entries always times out and leaves the queue as it was. */
  lemma {:induction false} PollZero(live: map<string, Json>, order: seq<string>, retries: nat)
    ensures Poll(live, order, 0, retries) == PollOutcome(Elapsed, live, order)
    decreases retries
  {
    if retries > 0 { PollZero(live, order, retries - 1); }
  }

  /**
   * The end-to-end promise of retrieval on a known alias: a success lists between one and
   * `max_polled_items` values, the oldest live entries tagged with their keys, front to
   * back; otherwise the answer is the timeout answer.
   */
  lemma RetrievalOutcome(alias: string, live: map<string, Json>, order: seq<string>, config: PollingConfig)
    requires QueueOk(live, order)
    ensures var d := DrainOldest(live, order, config.maxPolledItems);
      var resp := Respond(alias, true, Poll(live, order, config.maxPolledItems, Retries(config)).result);
      d.items != [] ==> resp.status == StatusSuccess && resp.data == AddCacheKeys(d.items) && 1 <= resp.count <= config.maxPolledItems
    ensures var d := DrainOldest(live, order, config.maxPolledItems);
      |d.order| <= |order| && d.items == LiveEntries(order[..|order| - |d.order|], live)
    ensures var d := DrainOldest(live, order, config.maxPolledItems);
      d.items == [] ==> Respond(alias, true, Poll(live, order, config.maxPolledItems, Retries(config)).result) == TimedOut()
  {
    PollFirstDrainDecides(live, order, config.maxPolledItems, Retries(config));
    DrainOldestSpec(live, order, config.maxPolledItems);
  }
}
