/** The stateful wrappers of `apihangar/models.py` around the query engine:
    the per-binding result cache of `EndpointQuery.run`, the merge of the
    binding results in `Endpoint.run`, and the parameter fallback of
    `PrebuiltView.load_params`. */
module Models {
  import opened Wrappers
  import opened PyStr
  import Utils
  import Core

  // ---------------------------------------------------------------------------
  // EndpointQuery: a query bound to an endpoint under a key
  // ---------------------------------------------------------------------------

  /** One binding of a query to an endpoint: its database id, the query, the
      key its output is published under, whether only the first row is
      returned, and the cache timeout (None: never cached). */
  datatype EndpointQuery = EndpointQuery(
    id: nat,
    query: Core.Query,
    key: string,
    returnOne: bool,
    cacheTimeoutSeconds: Option<int>)

  /** A stored cache entry: the value and the timeout it was stored with. */
  datatype CacheEntry = CacheEntry(value: Core.RunOutput, timeout: int)

  /** The cache backend's contents, as a plain key -> entry map. */
  type Store = map<string, CacheEntry>

  const KeyPrefix: string := "apihangar.endpoint_query."

  /** `"apihangar.endpoint_query.%s.%s" % (id, digest)`. */
  function CacheKey(id: nat, digest: string): (key: string)
    ensures KeyPrefix <= key
  {
    KeyPrefix + NatToString(id) + "." + digest
  }

  /** The cache key identifies the binding and the parameter digest: two
      bindings never share an entry, and neither do two digests. */
  lemma CacheKeyInjective(a: nat, d: string, b: nat, e: string)
    ensures CacheKey(a, d) == CacheKey(b, e) <==> a == b && d == e
  {
    var x, y := NatToString(a), NatToString(b);
    assert CacheKey(a, d)[|KeyPrefix|..] == x + "." + d;
    assert CacheKey(b, e)[|KeyPrefix|..] == y + "." + e;
    if CacheKey(a, d) == CacheKey(b, e) {
      SplitAtFirstDot(x, d, y, e);
      NatToStringInjective(a, b);
    }
  }

  /** Digits, a dot, and anything: the first dot marks the split. */
  lemma SplitAtFirstDot(x: string, d: string, y: string, e: string)
    requires AllDigits(x) && AllDigits(y)
    requires x + "." + d == y + "." + e
    ensures x == y && d == e
  {
    var s := x + "." + d;
    FirstDot(x, d);
    FirstDot(y, e);
    if |x| != |y| {
      assert false;
    }
    assert x == s[..|x|] == y;
    assert d == s[|x| + 1..] == e;
  }

  lemma FirstDot(x: string, d: string)
    requires AllDigits(x)
    ensures (x + "." + d)[|x|] == '.'
    ensures forall i :: 0 <= i < |x| ==> (x + "." + d)[i] != '.'
  {
    assert forall i :: 0 <= i < |x| ==> (x + "." + d)[i] == x[i];
  }

  /** `EndpointQuery.run` as a function of the cache contents: the result
      and the cache contents afterwards. `digest` stands for
      `md5(json_dumps(params)).hexdigest()`. */
  function CachedRun(engine: Core.Engine, store: Store, eq: EndpointQuery, params: Core.Params,
                     digest: Core.Params -> string): (out: (Result<Core.RunOutput>, Store))
    // Without a timeout the cache is neither read nor written.
    ensures eq.cacheTimeoutSeconds.None? ==>
              out == (Core.Executed(engine, eq.query, eq.returnOne, params), store)
    // A hit returns the stored value and runs nothing.
    ensures eq.cacheTimeoutSeconds.Some? && CacheKey(eq.id, digest(params)) in store ==>
              out == (Success(store[CacheKey(eq.id, digest(params))].value), store)
    // A miss runs the query once; a success is stored under the key with
    // the timeout and returned, a failure propagates and stores nothing.
    ensures eq.cacheTimeoutSeconds.Some? && CacheKey(eq.id, digest(params)) !in store ==>
              var ran := Core.Executed(engine, eq.query, eq.returnOne, params);
              && out.0 == ran
              && out.1 == (if ran.Success?
                           then store[CacheKey(eq.id, digest(params)) := CacheEntry(ran.value, eq.cacheTimeoutSeconds.value)]
                           else store)
    // Only the binding's own entry can change.
    ensures forall k :: k != CacheKey(eq.id, digest(params)) && k in store ==> k in out.1 && out.1[k] == store[k]
  {
    match eq.cacheTimeoutSeconds
    case None => (Core.Executed(engine, eq.query, eq.returnOne, params), store)
    case Some(timeout) =>
      var key := CacheKey(eq.id, digest(params));
      if key in store then (Success(store[key].value), store)
      else
        var ran := Core.Executed(engine, eq.query, eq.returnOne, params);
        if ran.Success? then (ran, store[key := CacheEntry(ran.value, timeout)])
        else (ran, store)
  }

  /** After a successful cached run, running the same binding again with the
      same parameters returns the same result from the cache and changes
      nothing, whatever the database would now answer. */
  lemma CachedRunRepeats(engine: Core.Engine, later: Core.Engine, store: Store, eq: EndpointQuery,
                         params: Core.Params, digest: Core.Params -> string)
    requires eq.cacheTimeoutSeconds.Some?
    requires CachedRun(engine, store, eq, params, digest).0.Success?
    ensures var (r, after) := CachedRun(engine, store, eq, params, digest);
            CachedRun(later, after, eq, params, digest) == (r, after)
  {
    var key := CacheKey(eq.id, digest(params));
    var (r, after) := CachedRun(engine, store, eq, params, digest);
    assert key in after && after[key].value == r.value;
  }

  /** A run of one binding never changes what another binding finds in the
      cache. */
  lemma CachedRunSeparate(engine: Core.Engine, store: Store, eq: EndpointQuery, other: EndpointQuery,
                          params: Core.Params, otherParams: Core.Params, digest: Core.Params -> string)
    requires eq.id != other.id
    ensures var after := CachedRun(engine, store, eq, params, digest).1;
            var k := CacheKey(other.id, digest(otherParams));
            (k in after <==> k in store) && (k in store ==> after[k] == store[k])
  {
    CacheKeyInjective(eq.id, digest(params), other.id, digest(otherParams));
  }

  /** The cache backend: a key -> entry store shared by all bindings. Entry
      expiry is not modelled. */
  class Cache {
    var entries: Store

    constructor ()
      ensures entries == map[]
    {
      entries := map[];
    }

    /** `cache.get(key)`: the stored value, or None. */
    function Get(key: string): (r: Option<Core.RunOutput>)
      reads this
      ensures r.Some? <==> key in entries
      ensures r.Some? ==> r.value == entries[key].value
    {
      if key in entries then Some(entries[key].value) else None
    }

    /** `cache.set(key, value, timeout)`. */
    method Set(key: string, value: Core.RunOutput, timeout: int)
      modifies this
      ensures entries == old(entries)[key := CacheEntry(value, timeout)]
      ensures Get(key) == Some(value)
    {
      entries := entries[key := CacheEntry(value, timeout)];
    }
  }

  /** `EndpointQuery.run`: consult the cache when the binding has a timeout,
      run the query on a miss and store its result. */
  method RunEndpointQuery(engine: Core.Engine, cache: Cache, eq: EndpointQuery, params: Core.Params,
                          digest: Core.Params -> string) returns (r: Result<Core.RunOutput>)
    modifies cache
    ensures (r, cache.entries) == CachedRun(engine, old(cache.entries), eq, params, digest)
  {
    if eq.cacheTimeoutSeconds.None? {
      r := Core.Run(engine, eq.query, eq.returnOne, params);
      return;
    }
    var key := CacheKey(eq.id, digest(params));
    var hit := cache.Get(key);
    if hit.Some? {
      return Success(hit.value);
    }
    r := Core.Run(engine, eq.query, eq.returnOne, params);
    if r.Success? {
      cache.Set(key, r.value, eq.cacheTimeoutSeconds.value);
    }
  }

  // ---------------------------------------------------------------------------
  // Endpoint.run: merging the outputs of the bindings
  // ---------------------------------------------------------------------------

  /** `dict(queries=queries, results=results)`. */
  datatype EndpointOutput = EndpointOutput(queries: map<string, string>, results: map<string, Core.QueryResult>)

  /** The keys of a sequence of (key, output) pairs. */
  function KeysOf(outs: seq<(string, Core.RunOutput)>): set<string>
  {
    set i | 0 <= i < |outs| :: outs[i].0
  }

  /** The two maps filled in binding order: `queries[key] = sql`,
      `results[key] = result`, so a later binding overwrites an earlier one
      with the same key. */
  function Merged(outs: seq<(string, Core.RunOutput)>): (m: EndpointOutput)
    ensures m.queries.Keys == KeysOf(outs) && m.results.Keys == KeysOf(outs)
  {
    if outs == [] then EndpointOutput(map[], map[])
    else
      var init := outs[..|outs| - 1];
      var (k, o) := outs[|outs| - 1];
      var m := Merged(init);
      assert KeysOf(outs) == KeysOf(init) + {k} by {
        assert forall i :: 0 <= i < |init| ==> init[i] == outs[i];
      }
      EndpointOutput(m.queries[k := o.sql], m.results[k := o.result])
  }

  /** Each key holds the SQL and the result of the last binding with that key. */
  lemma {:induction false} MergedLast(outs: seq<(string, Core.RunOutput)>, i: nat)
    requires i < |outs|
    requires forall j :: i < j < |outs| ==> outs[j].0 != outs[i].0
    ensures Merged(outs).queries[outs[i].0] == outs[i].1.sql
    ensures Merged(outs).results[outs[i].0] == outs[i].1.result
    decreases |outs|
  {
    if i < |outs| - 1 {
      var init := outs[..|outs| - 1];
      assert init[i] == outs[i];
      MergedLast(init, i);
    }
  }

  /** The bindings run in order, threading the cache; the first failure
      propagates, leaving the cache as the earlier runs left it. */
  function RunAll(engine: Core.Engine, store: Store, bindings: seq<EndpointQuery>, params: Core.Params,
                  digest: Core.Params -> string): (out: (Result<seq<(string, Core.RunOutput)>>, Store))
    ensures out.0.Success? ==> |out.0.value| == |bindings|
  {
    if bindings == [] then (Success([]), store)
    else
      var prev := RunAll(engine, store, bindings[..|bindings| - 1], params, digest);
      if prev.0.Failure? then (Failure(prev.0.error), prev.1)
      else
        var last := bindings[|bindings| - 1];
        var step := CachedRun(engine, prev.1, last, params, digest);
        if step.0.Failure? then (Failure(step.0.error), step.1)
        else (Success(prev.0.value + [(last.key, step.0.value)]), step.1)
  }

  /** A successful run yields one output per binding, labelled with the
      binding's key, in binding order. */
  lemma {:induction false} RunAllKeys(engine: Core.Engine, store: Store, bindings: seq<EndpointQuery>,
                                      params: Core.Params, digest: Core.Params -> string)
    requires RunAll(engine, store, bindings, params, digest).0.Success?
    ensures var outs := RunAll(engine, store, bindings, params, digest).0.value;
            |outs| == |bindings| && forall i :: 0 <= i < |bindings| ==> outs[i].0 == bindings[i].key
    decreases |bindings|
  {
    if bindings != [] {
      var init := bindings[..|bindings| - 1];
      var prev := RunAll(engine, store, init, params, digest);
      RunAllLast(engine, store, bindings, params, digest);
      RunAllKeys(engine, store, init, params, digest);
      var outs := RunAll(engine, store, bindings, params, digest).0.value;
      forall i | 0 <= i < |bindings| - 1 ensures outs[i].0 == bindings[i].key {
        assert outs[i] == prev.0.value[i] && init[i] == bindings[i];
      }
    }
  }

  /** A successful run extends the successful run of all but the last
      binding by an output labelled with the last key. */
  lemma RunAllLast(engine: Core.Engine, store: Store, bindings: seq<EndpointQuery>,
                   params: Core.Params, digest: Core.Params -> string)
    requires bindings != []
    requires RunAll(engine, store, bindings, params, digest).0.Success?
    ensures var prev := RunAll(engine, store, bindings[..|bindings| - 1], params, digest);
            var outs := RunAll(engine, store, bindings, params, digest).0.value;
            && prev.0.Success?
            && outs[..|outs| - 1] == prev.0.value
            && outs[|outs| - 1].0 == bindings[|bindings| - 1].key
  {
  }

  /** One more binding: the run of a prefix extended by binding i. */
  lemma RunAllPrefix(engine: Core.Engine, store: Store, bindings: seq<EndpointQuery>, i: nat,
                     params: Core.Params, digest: Core.Params -> string)
    requires i < |bindings|
    ensures var prev := RunAll(engine, store, bindings[..i], params, digest);
            var step := CachedRun(engine, prev.1, bindings[i], params, digest);
            RunAll(engine, store, bindings[..i + 1], params, digest)
            == if prev.0.Failure? then (Failure(prev.0.error), prev.1)
               else if step.0.Failure? then (Failure(step.0.error), step.1)
               else (Success(prev.0.value + [(bindings[i].key, step.0.value)]), step.1)
  {
    assert bindings[..i + 1][..i] == bindings[..i];
  }

  /** `Endpoint.run` as a function of the cache contents. */
  function EndpointRun(engine: Core.Engine, store: Store, bindings: seq<EndpointQuery>, params: Core.Params,
                       digest: Core.Params -> string): (out: (Result<EndpointOutput>, Store))
    ensures out.0.Success? ==>
              && out.0.value.queries.Keys == (set i | 0 <= i < |bindings| :: bindings[i].key)
              && out.0.value.results.Keys == (set i | 0 <= i < |bindings| :: bindings[i].key)
  {
    var (r, after) := RunAll(engine, store, bindings, params, digest);
    if r.Failure? then (Failure(r.error), after)
    else
      RunAllKeys(engine, store, bindings, params, digest);
      assert KeysOf(r.value) == (set i | 0 <= i < |bindings| :: bindings[i].key) by {
        forall k | k in (set i | 0 <= i < |bindings| :: bindings[i].key) ensures k in KeysOf(r.value) {
          var i :| 0 <= i < |bindings| && bindings[i].key == k;
          assert r.value[i].0 == k;
        }
      }
      (Success(Merged(r.value)), after)
  }

  /** With no binding cached, each key holds the SQL and result of running
      the last binding with that key. */
  lemma EndpointRunUncached(engine: Core.Engine, store: Store, bindings: seq<EndpointQuery>,
                            params: Core.Params, digest: Core.Params -> string, i: nat)
    requires forall j :: 0 <= j < |bindings| ==> bindings[j].cacheTimeoutSeconds.None?
    requires i < |bindings| && forall j :: i < j < |bindings| ==> bindings[j].key != bindings[i].key
    requires EndpointRun(engine, store, bindings, params, digest).0.Success?
    ensures var out := EndpointRun(engine, store, bindings, params, digest).0.value;
            var ran := Core.Executed(engine, bindings[i].query, bindings[i].returnOne, params);
            && ran.Success?
            && out.queries[bindings[i].key] == ran.value.sql
            && out.results[bindings[i].key] == ran.value.result
  {
    var outs := RunAll(engine, store, bindings, params, digest).0.value;
    RunAllKeys(engine, store, bindings, params, digest);
    RunAllUncachedAt(engine, store, bindings, params, digest, i);
    assert forall j :: i < j < |outs| ==> outs[j].0 != outs[i].0;
    MergedLast(outs, i);
  }

  /** With no binding cached, a run leaves the cache untouched. */
  lemma {:induction false} RunAllUncachedStore(engine: Core.Engine, store: Store, bindings: seq<EndpointQuery>,
                                               params: Core.Params, digest: Core.Params -> string)
    requires forall k :: 0 <= k < |bindings| ==> bindings[k].cacheTimeoutSeconds.None?
    ensures RunAll(engine, store, bindings, params, digest).1 == store
    decreases |bindings|
  {
    if bindings != [] {
      var init := bindings[..|bindings| - 1];
      RunAllUncachedStore(engine, store, init, params, digest);
    }
  }

  /** With no binding cached, binding j's output is what the engine gives
      for its query, and the cache is untouched. */
  lemma {:induction false} RunAllUncachedAt(engine: Core.Engine, store: Store, bindings: seq<EndpointQuery>,
                                            params: Core.Params, digest: Core.Params -> string, j: nat)
    requires forall k :: 0 <= k < |bindings| ==> bindings[k].cacheTimeoutSeconds.None?
    requires RunAll(engine, store, bindings, params, digest).0.Success?
    requires j < |bindings|
    ensures var out := RunAll(engine, store, bindings, params, digest);
            && out.1 == store
            && |out.0.value| == |bindings|
            && Core.Executed(engine, bindings[j].query, bindings[j].returnOne, params) == Success(out.0.value[j].1)
    decreases |bindings|
  {
    var init := bindings[..|bindings| - 1];
    var last := bindings[|bindings| - 1];
    var prev := RunAll(engine, store, init, params, digest);
    assert prev.0.Success?;
    RunAllUncachedStore(engine, store, init, params, digest);
    if j < |init| {
      RunAllUncachedAt(engine, store, init, params, digest, j);
    }
    var ran := Core.Executed(engine, last.query, last.returnOne, params);
    assert CachedRun(engine, store, last, params, digest) == (ran, store);
    assert ran.Success?;
    var outs := prev.0.value + [(last.key, ran.value)];
    assert RunAll(engine, store, bindings, params, digest) == (Success(outs), store);
    if j < |init| {
      assert bindings[j] == init[j] && outs[j] == prev.0.value[j];
      assert Core.Executed(engine, bindings[j].query, bindings[j].returnOne, params) == Success(outs[j].1);
    } else {
      assert j == |bindings| - 1 == |prev.0.value|;
      assert outs[j] == (last.key, ran.value);
      assert Core.Executed(engine, bindings[j].query, bindings[j].returnOne, params) == Success(outs[j].1);
    }
  }

  /** `Endpoint.run`: run every binding through the cache and merge. */
  method RunEndpoint(engine: Core.Engine, cache: Cache, bindings: seq<EndpointQuery>, params: Core.Params,
                     digest: Core.Params -> string) returns (r: Result<EndpointOutput>)
    modifies cache
    ensures (r, cache.entries) == EndpointRun(engine, old(cache.entries), bindings, params, digest)
  {
    ghost var outs: seq<(string, Core.RunOutput)> := [];
    var queries: map<string, string> := map[];
    var results: map<string, Core.QueryResult> := map[];
    for i := 0 to |bindings|
      invariant RunAll(engine, old(cache.entries), bindings[..i], params, digest) == (Success(outs), cache.entries)
      invariant EndpointOutput(queries, results) == Merged(outs)
    {
      RunAllPrefix(engine, old(cache.entries), bindings, i, params, digest);
      var ran := RunEndpointQuery(engine, cache, bindings[i], params, digest);
      if ran.Failure? {
        FailureStops(engine, old(cache.entries), bindings, i + 1, params, digest);
        assert bindings == bindings[..|bindings|];
        return Failure(ran.error);
      }
      var (sql, result) := (ran.value.sql, ran.value.result);
      results := results[bindings[i].key := result];
      queries := queries[bindings[i].key := sql];
      ghost var prev := outs;
      outs := outs + [(bindings[i].key, ran.value)];
      assert outs[..|outs| - 1] == prev;
    }
    assert bindings[..|bindings|] == bindings;
    return Success(EndpointOutput(queries, results));
  }

  /** Once a prefix of the bindings fails, the whole run fails the same way
      and leaves the cache as that prefix did. */
  lemma {:induction false} FailureStops(engine: Core.Engine, store: Store, bindings: seq<EndpointQuery>, n: nat,
                                        params: Core.Params, digest: Core.Params -> string)
    requires n <= |bindings|
    requires RunAll(engine, store, bindings[..n], params, digest).0.Failure?
    ensures EndpointRun(engine, store, bindings, params, digest)
         == (Failure(RunAll(engine, store, bindings[..n], params, digest).0.error),
             RunAll(engine, store, bindings[..n], params, digest).1)
    decreases |bindings| - n
  {
    if n < |bindings| {
      assert bindings[..n + 1][..n] == bindings[..n];
      FailureStops(engine, store, bindings, n + 1, params, digest);
    } else {
      assert bindings[..n] == bindings;
    }
  }

  // ---------------------------------------------------------------------------
  // PrebuiltView.load_params
  // ---------------------------------------------------------------------------

  /** `load_params`: the view's stored JSON text parsed by `parse`; a parse
      that raises KeyError or ValueError gives `{}`. A view without stored
      parameters hands None to the parser, whose TypeError is not caught. */
  function LoadParams(stored: Option<string>, parse: string -> Result<Utils.PyValue>): (r: Result<Utils.PyValue>)
    ensures stored.None? ==> r == Failure(TypeError)
    ensures stored.Some? && parse(stored.value).Success? ==> r == parse(stored.value)
    ensures stored.Some? && parse(stored.value).Failure? ==>
              if parse(stored.value).error == KeyError || parse(stored.value).error == ValueError
              then r == Success(Utils.Dict([]))
              else r == parse(stored.value)
    ensures r.Failure? ==> r.error != KeyError && r.error != ValueError
  {
    match stored
    case None => Failure(TypeError)
    case Some(text) =>
      match parse(text)
      case Success(v) => Success(v)
      case Failure(e) =>
        if e == KeyError || e == ValueError then Success(Utils.Dict([])) else Failure(e)
  }
}
