/** Finding the providers of multihashes, while values of providers that are no longer registered are deleted in the
    background. */
module Finder {
  import opened Wrappers
  import opened Types
  import opened Advertisements
  import R = Registry

  datatype Value = Value(provider: PeerID, contextID: ContextID, metadata: nat)
  type Index = map<Multihash, seq<Value>>

  /** The providers that a lookup in the registry finds, and their addresses: see `Registry.Found`. In this module
      "registered" means found, so it leaves out the inactive ones. */
  type Lookups = map<PeerID, seq<Addr>>

  datatype ProviderResult = ProviderResult(provider: PeerID, addrs: seq<Addr>, contextID: ContextID, metadata: nat)
  datatype MultihashResult = MultihashResult(multihash: Multihash, providerResults: seq<ProviderResult>)

  datatype Response = Results(results: seq<MultihashResult>) | QueryFailed

  // ---------- Deletion ----------

  function Without(values: seq<Value>, key: ContextKey): seq<Value> {
    if values == [] then []
    else (if ContextKey(values[0].provider, values[0].contextID) == key then [] else [values[0]])
         + Without(values[1..], key)
  }

  lemma {:induction false} WithoutKeepsOthers(values: seq<Value>, key: ContextKey, v: Value)
    ensures v in Without(values, key) <==> v in values && ContextKey(v.provider, v.contextID) != key
  {
    if values != [] {
      WithoutKeepsOthers(values[1..], key, v);
    }
  }

  /** Delete the values of a provider's context under all multihashes. */
  function RemoveProviderContext(index: Index, key: ContextKey): Index {
    map mh | mh in index :: Without(index[mh], key)
  }

  function Values(index: Index, mh: Multihash): seq<Value> {
    if mh in index then index[mh] else []
  }

  // ---------- What a find returns, without a cache and without deletion ----------

  /** A result for each value whose provider is registered. */
  function ProviderResults(lookups: Lookups, values: seq<Value>): seq<ProviderResult> {
    if values == [] then [] else FirstResult(lookups, values) + ProviderResults(lookups, values[1..])
  }

  function FirstResult(lookups: Lookups, values: seq<Value>): seq<ProviderResult>
    requires values != []
  {
    var v := values[0];
    if v.provider in lookups then [ProviderResult(v.provider, lookups[v.provider], v.contextID, v.metadata)] else []
  }

  /** A result for a multihash that has some. */
  function ResultFor(lookups: Lookups, index: Index, mh: Multihash): seq<MultihashResult> {
    var results := ProviderResults(lookups, Values(index, mh));
    if results == [] then [] else [MultihashResult(mh, results)]
  }

  function AllResults(lookups: Lookups, index: Index, mhs: seq<Multihash>): seq<MultihashResult> {
    if mhs == [] then [] else ResultFor(lookups, index, mhs[0]) + AllResults(lookups, index, mhs[1..])
  }

  predicate NoneFails(failing: set<Multihash>, mhs: seq<Multihash>) {
    forall k | 0 <= k < |mhs| :: mhs[k] !in failing
  }

  /** The results in the order of the request, unless the indexer fails on one of the multihashes. */
  function Found(lookups: Lookups, index: Index, failing: set<Multihash>, mhs: seq<Multihash>): Response {
    if NoneFails(failing, mhs) then Results(AllResults(lookups, index, mhs)) else QueryFailed
  }

  lemma {:induction false} ProviderResultsAppend(lookups: Lookups, a: seq<Value>, b: seq<Value>)
    ensures ProviderResults(lookups, a + b) == ProviderResults(lookups, a) + ProviderResults(lookups, b)
  {
    if a == [] {
      assert a + b == b;
    } else {
      ProviderResultsAppend(lookups, a[1..], b);
      assert (a + b)[1..] == a[1..] + b && (a + b)[0] == a[0];
      Assoc(FirstResult(lookups, a), ProviderResults(lookups, a[1..]), ProviderResults(lookups, b));
    }
  }

  lemma {:induction false} AllResultsAppend(lookups: Lookups, index: Index, a: seq<Multihash>, b: seq<Multihash>)
    ensures AllResults(lookups, index, a + b) == AllResults(lookups, index, a) + AllResults(lookups, index, b)
  {
    if a == [] {
      assert a + b == b;
    } else {
      AllResultsAppend(lookups, index, a[1..], b);
      assert (a + b)[1..] == a[1..] + b && (a + b)[0] == a[0];
      Assoc(ResultFor(lookups, index, a[0]), AllResults(lookups, index, a[1..]), AllResults(lookups, index, b));
    }
  }

  /** What is in a response: only values of registered providers, with the addresses from the registry, and no empty
      result. */
  lemma {:induction false} ProviderResultsAreRegistered(lookups: Lookups, values: seq<Value>, k: nat)
    requires k < |ProviderResults(lookups, values)|
    ensures var r := ProviderResults(lookups, values)[k];
            && r.provider in lookups && r.addrs == lookups[r.provider]
            && Value(r.provider, r.contextID, r.metadata) in values
  {
    var first := ProviderResults(lookups, values[..1]);
    ProviderResultsAppend(lookups, values[..1], values[1..]);
    assert values == values[..1] + values[1..];
    if k >= |first| {
      ProviderResultsAreRegistered(lookups, values[1..], k - |first|);
    }
  }

  /** And every value of a registered provider is in it. */
  lemma {:induction false} RegisteredAreInProviderResults(lookups: Lookups, values: seq<Value>, j: nat)
    requires j < |values| && values[j].provider in lookups
    ensures var v := values[j];
            ProviderResult(v.provider, lookups[v.provider], v.contextID, v.metadata) in ProviderResults(lookups, values)
  {
    if j > 0 {
      RegisteredAreInProviderResults(lookups, values[1..], j - 1);
    }
  }

  // ---------- What is in a response ----------

  /** These are the indices of the marked places, in order. */
  ghost predicate Marks(at: seq<nat>, marked: seq<bool>) {
    && (forall j, k | 0 <= j < k < |at| :: at[j] < at[k])
    && (forall k | 0 <= k < |at| :: at[k] < |marked| && marked[at[k]])
    && (forall j | 0 <= j < |marked| && marked[j] :: j in at)
  }

  /** The indices of the marked places from i on. */
  function Indices(marked: seq<bool>, i: nat): seq<nat>
    decreases |marked| - i
  {
    if i >= |marked| then [] else (if marked[i] then [i] else []) + Indices(marked, i + 1)
  }

  lemma {:induction false} IndexIsMarked(marked: seq<bool>, i: nat, k: nat)
    requires k < |Indices(marked, i)|
    ensures var at := Indices(marked, i);
            i <= at[k] < |marked| && marked[at[k]]
    decreases |marked| - i
  {
    if !marked[i] {
      IndexIsMarked(marked, i + 1, k);
    } else if k > 0 {
      IndexIsMarked(marked, i + 1, k - 1);
    }
  }

  lemma {:induction false} IndicesIncrease(marked: seq<bool>, i: nat, j: nat, k: nat)
    requires j < k < |Indices(marked, i)|
    ensures Indices(marked, i)[j] < Indices(marked, i)[k]
    decreases |marked| - i
  {
    if !marked[i] {
      IndicesIncrease(marked, i + 1, j, k);
    } else if j > 0 {
      IndicesIncrease(marked, i + 1, j - 1, k - 1);
    } else {
      IndexIsMarked(marked, i + 1, k - 1);
    }
  }

  lemma {:induction false} MarkedIsIndex(marked: seq<bool>, i: nat, j: nat)
    requires i <= j < |marked| && marked[j]
    ensures j in Indices(marked, i)
    decreases j - i
  {
    if i < j {
      MarkedIsIndex(marked, i + 1, j);
    }
  }

  lemma IndicesAreMarks(marked: seq<bool>)
    ensures Marks(Indices(marked, 0), marked)
  {
    var at := Indices(marked, 0);
    forall j, k | 0 <= j < k < |at| ensures at[j] < at[k] {
      IndicesIncrease(marked, 0, j, k);
    }
    forall k | 0 <= k < |at| ensures at[k] < |marked| && marked[at[k]] {
      IndexIsMarked(marked, 0, k);
    }
    forall j | 0 <= j < |marked| && marked[j] ensures j in at {
      MarkedIsIndex(marked, 0, j);
    }
  }

  /** Which of the values are those of registered providers. */
  function Registered(lookups: Lookups, values: seq<Value>): seq<bool> {
    seq(|values|, j requires 0 <= j < |values| => values[j].provider in lookups)
  }

  predicate IsResult(r: ProviderResult, lookups: Lookups, v: Value) {
    && v.provider in lookups && r.provider == v.provider && r.addrs == lookups[v.provider]
    && r.contextID == v.contextID && r.metadata == v.metadata
  }

  /** The results are those of all values of registered providers, in order, with the addresses from the registry. */
  ghost predicate ResultsOf(rs: seq<ProviderResult>, lookups: Lookups, values: seq<Value>) {
    exists at :: ResultsAt(rs, at, lookups, values)
  }

  ghost predicate ResultsAt(rs: seq<ProviderResult>, at: seq<nat>, lookups: Lookups, values: seq<Value>) {
    && Marks(at, Registered(lookups, values)) && |at| == |rs|
    && forall k | 0 <= k < |at| :: IsResult(rs[k], lookups, values[at[k]])
  }

  lemma {:induction false} ResultsInOrder(lookups: Lookups, values: seq<Value>, i: nat, k: nat)
    requires i <= |values|
    ensures var rs, at := ProviderResults(lookups, values[i..]), Indices(Registered(lookups, values), i);
            && |rs| == |at|
            && (k < |rs| ==> at[k] < |values| && IsResult(rs[k], lookups, values[at[k]]))
    decreases |values| - i
  {
    if i < |values| {
      assert values[i..][1..] == values[i + 1..];
      ResultsInOrder(lookups, values, i + 1, if values[i].provider in lookups && k > 0 then k - 1 else k);
    }
  }

  lemma ProviderResultsAreAll(lookups: Lookups, values: seq<Value>)
    ensures ResultsOf(ProviderResults(lookups, values), lookups, values)
  {
    var rs, at := ProviderResults(lookups, values), Indices(Registered(lookups, values), 0);
    IndicesAreMarks(Registered(lookups, values));
    assert values[0..] == values;
    ResultsInOrder(lookups, values, 0, 0);
    forall k | 0 <= k < |at| ensures IsResult(rs[k], lookups, values[at[k]]) {
      ResultsInOrder(lookups, values, 0, k);
    }
    assert ResultsAt(rs, at, lookups, values);
  }

  ghost predicate HasRegistered(lookups: Lookups, index: Index, mh: Multihash) {
    mh in index && exists v :: v in index[mh] && v.provider in lookups
  }

  /** Which of the multihashes have a value of a registered provider. */
  ghost function Answerable(lookups: Lookups, index: Index, mhs: seq<Multihash>): seq<bool> {
    seq(|mhs|, i requires 0 <= i < |mhs| => HasRegistered(lookups, index, mhs[i]))
  }

  ghost predicate IsResultFor(r: MultihashResult, lookups: Lookups, index: Index, mh: Multihash) {
    && r.multihash == mh && mh in index && r.providerResults != []
    && ResultsOf(r.providerResults, lookups, index[mh])
  }

  /** There is a result for each requested multihash under which the index has a value of a registered provider, and for
      no other, in the order of the request. */
  ghost predicate AnswersTo(results: seq<MultihashResult>, lookups: Lookups, index: Index, mhs: seq<Multihash>) {
    exists at :: AnswersAt(results, at, lookups, index, mhs)
  }

  ghost predicate AnswersAt(results: seq<MultihashResult>, at: seq<nat>, lookups: Lookups, index: Index,
                            mhs: seq<Multihash>) {
    && Marks(at, Answerable(lookups, index, mhs)) && |at| == |results|
    && forall k | 0 <= k < |at| :: IsResultFor(results[k], lookups, index, mhs[at[k]])
  }

  lemma AnyResultIff(lookups: Lookups, values: seq<Value>)
    ensures ProviderResults(lookups, values) != [] <==> exists v :: v in values && v.provider in lookups
  {
    if v :| v in values && v.provider in lookups {
      var j :| 0 <= j < |values| && values[j] == v;
      RegisteredAreInProviderResults(lookups, values, j);
    }
    if ProviderResults(lookups, values) != [] {
      ProviderResultsAreRegistered(lookups, values, 0);
    }
  }

  /** A multihash has a result exactly if it has a value of a registered provider, and then one with all of these. */
  lemma ResultForIs(lookups: Lookups, index: Index, mh: Multihash)
    ensures var rs := ResultFor(lookups, index, mh);
            if HasRegistered(lookups, index, mh) then |rs| == 1 && IsResultFor(rs[0], lookups, index, mh) else rs == []
  {
    AnyResultIff(lookups, Values(index, mh));
    ProviderResultsAreAll(lookups, Values(index, mh));
  }

  lemma {:induction false} AnswersInOrder(lookups: Lookups, index: Index, mhs: seq<Multihash>, i: nat, k: nat)
    requires i <= |mhs|
    ensures var rs, at := AllResults(lookups, index, mhs[i..]), Indices(Answerable(lookups, index, mhs), i);
            && |rs| == |at|
            && (k < |rs| ==> at[k] < |mhs| && IsResultFor(rs[k], lookups, index, mhs[at[k]]))
    decreases |mhs| - i
  {
    if i < |mhs| {
      ResultForIs(lookups, index, mhs[i]);
      assert mhs[i..][1..] == mhs[i + 1..];
      AnswersInOrder(lookups, index, mhs, i + 1, if HasRegistered(lookups, index, mhs[i]) && k > 0 then k - 1 else k);
    }
  }

  /** A response that `Found` describes lists just what it should. */
  lemma AllResultsAnswer(lookups: Lookups, index: Index, mhs: seq<Multihash>)
    ensures AnswersTo(AllResults(lookups, index, mhs), lookups, index, mhs)
  {
    var rs, at := AllResults(lookups, index, mhs), Indices(Answerable(lookups, index, mhs), 0);
    IndicesAreMarks(Answerable(lookups, index, mhs));
    assert mhs[0..] == mhs;
    AnswersInOrder(lookups, index, mhs, 0, 0);
    forall k | 0 <= k < |at| ensures IsResultFor(rs[k], lookups, index, mhs[at[k]]) {
      AnswersInOrder(lookups, index, mhs, 0, k);
    }
    assert AnswersAt(rs, at, lookups, index, mhs);
  }

  /** There is a response exactly if the indexer fails on none of the multihashes, and then the right one. */
  ghost predicate RespondsTo(response: Response, lookups: Lookups, index: Index, failing: set<Multihash>,
                             mhs: seq<Multihash>)
  {
    && (response.Results? <==> forall k | 0 <= k < |mhs| :: mhs[k] !in failing)
    && (response.Results? ==> AnswersTo(response.results, lookups, index, mhs))
  }

  lemma FoundResponds(lookups: Lookups, index: Index, failing: set<Multihash>, mhs: seq<Multihash>)
    ensures RespondsTo(Found(lookups, index, failing, mhs), lookups, index, failing, mhs)
  {
    AllResultsAnswer(lookups, index, mhs);
  }

  /** These are the lookups that the registry finds: the providers that it has and that are active. */
  ghost predicate LooksUp(registry: R.Registry, lookups: Lookups)
    reads registry, registry.providers.Values
  {
    forall id ::
      && (id in lookups <==> id in registry.providers && !registry.providers[id].inactive)
      && (id in lookups ==> lookups[id] == registry.providers[id].record.addrs)
  }

  // ---------- Deletion cannot be seen ----------

  lemma {:induction false} DeletionKeepsProviderResults(lookups: Lookups, values: seq<Value>, key: ContextKey)
    requires key.provider !in lookups
    ensures ProviderResults(lookups, Without(values, key)) == ProviderResults(lookups, values)
  {
    if values != [] {
      DeletionKeepsProviderResults(lookups, values[1..], key);
      var rest := Without(values[1..], key);
      if ContextKey(values[0].provider, values[0].contextID) == key {
        assert [] + rest == rest;
      } else {
        assert ([values[0]] + rest)[1..] == rest;
      }
    }
  }

  /** As far as registered providers go, the index is what it was. */
  ghost predicate SameForRegistered(lookups: Lookups, index: Index, was: Index) {
    forall mh: Multihash ::
      ProviderResults(lookups, Values(index, mh)) == ProviderResults(lookups, Values(was, mh))
  }

  lemma DeletionKeepsRegistered(lookups: Lookups, index: Index, was: Index, key: ContextKey)
    requires key.provider !in lookups && SameForRegistered(lookups, index, was)
    ensures SameForRegistered(lookups, RemoveProviderContext(index, key), was)
  {
    forall mh: Multihash
      ensures ProviderResults(lookups, Values(RemoveProviderContext(index, key), mh))
           == ProviderResults(lookups, Values(was, mh))
    {
      DeletionKeepsProviderResults(lookups, Values(index, mh), key);
    }
  }

  /** What deletions for unregistered providers leave gives the same results. */
  lemma {:induction false} DeletionKeepsResults(lookups: Lookups, index: Index, was: Index, mhs: seq<Multihash>)
    requires SameForRegistered(lookups, index, was)
    ensures AllResults(lookups, index, mhs) == AllResults(lookups, was, mhs)
  {
    if mhs != [] {
      DeletionKeepsResults(lookups, index, was, mhs[1..]);
    }
  }

  /** The contexts of the unregistered providers among some values. */
  function Stale(lookups: Lookups, values: seq<Value>): set<ContextKey> {
    set v | v in values && v.provider !in lookups :: ContextKey(v.provider, v.contextID)
  }

  function KeyOf(v: Value): ContextKey {
    ContextKey(v.provider, v.contextID)
  }

  predicate AbsentOrInactive(standings: map<PeerID, R.Standing>, provider: PeerID) {
    provider !in standings || standings[provider].inactive
  }

  /** A value's context is stale, and so will be deleted, exactly if its provider is not registered or is inactive. */
  lemma StaleIffAbsentOrInactive(standings: map<PeerID, R.Standing>, values: seq<Value>, v: Value)
    requires v in values
    ensures KeyOf(v) in Stale(R.Found(standings), values) <==> AbsentOrInactive(standings, v.provider)
  {
    if v.provider !in R.Found(standings) {
      assert KeyOf(v) in Stale(R.Found(standings), values);
    }
  }

  lemma AllStaleIff(standings: map<PeerID, R.Standing>, values: seq<Value>)
    ensures forall v | v in values ::
      KeyOf(v) in Stale(R.Found(standings), values) <==> AbsentOrInactive(standings, v.provider)
  {
    forall v | v in values
      ensures KeyOf(v) in Stale(R.Found(standings), values) <==> AbsentOrInactive(standings, v.provider)
    {
      StaleIffAbsentOrInactive(standings, values, v);
    }
  }

  /** So the values of registered providers are left alone exactly if none of those providers is inactive. */
  lemma SparesRegisteredIff(standings: map<PeerID, R.Standing>, values: seq<Value>)
    ensures (forall v | v in values && v.provider in standings :: KeyOf(v) !in Stale(R.Found(standings), values))
       <==> (forall v | v in values && v.provider in standings :: !standings[v.provider].inactive)
  {
    AllStaleIff(standings, values);
  }

  /** A provider that is registered but inactive: no result for its value, and the value will be deleted. */
  lemma InactiveIsDeleted(v: Value, addrs: seq<Addr>)
    ensures var lookups := R.Found(map[v.provider := R.Standing(addrs, true)]);
            && ProviderResults(lookups, [v]) == []
            && Stale(lookups, [v]) == {KeyOf(v)} && Without([v], KeyOf(v)) == []
  {
    var standings := map[v.provider := R.Standing(addrs, true)];
    StaleIffAbsentOrInactive(standings, [v], v);
    assert [v][1..] == [] && v.provider !in R.Found(standings);
  }

  /** Whatever is left of unregistered providers under these multihashes is going to be deleted. */
  ghost predicate Scheduled(lookups: Lookups, index: Index, mhs: seq<Multihash>, spawned: set<ContextKey>) {
    forall k | 0 <= k < |mhs| :: Stale(lookups, Values(index, mhs[k])) <= spawned
  }

  lemma DeletionKeepsScheduled(lookups: Lookups, index: Index, mhs: seq<Multihash>, spawned: set<ContextKey>,
                               key: ContextKey)
    requires Scheduled(lookups, index, mhs, spawned)
    ensures Scheduled(lookups, RemoveProviderContext(index, key), mhs, spawned - {key})
  {
    forall k | 0 <= k < |mhs|
      ensures Stale(lookups, Values(RemoveProviderContext(index, key), mhs[k])) <= spawned - {key}
    {
      var values := Values(index, mhs[k]);
      forall v | v in Without(values, key) && v.provider !in lookups
        ensures ContextKey(v.provider, v.contextID) in spawned - {key}
      {
        WithoutKeepsOthers(values, key, v);
        assert ContextKey(v.provider, v.contextID) in Stale(lookups, values);
      }
    }
  }

  // ---------- The code ----------

  class FinderHandler {
    var index: Index
    /** The deletions that were spawned and have not run yet. */
    var spawned: set<ContextKey>

    constructor (index: Index)
      ensures this.index == index && spawned == {}
    {
      this.index, spawned := index, {};
    }

    /** Spawned deletions are for providers that are not registered. */
    ghost predicate OnlyUnregistered(lookups: Lookups)
      reads this
    {
      forall key | key in spawned :: key.provider !in lookups
    }

    /** Some of the spawned deletions run. */
    method RunDeletions(chosen: set<ContextKey>, ghost lookups: Lookups, ghost was: Index, ghost mhs: seq<Multihash>)
      requires OnlyUnregistered(lookups) && SameForRegistered(lookups, index, was)
      requires Scheduled(lookups, index, mhs, spawned)
      modifies this`index, this`spawned
      ensures OnlyUnregistered(lookups) && SameForRegistered(lookups, index, was)
      ensures Scheduled(lookups, index, mhs, spawned) && spawned == old(spawned) - chosen
    {
      var run := chosen * spawned;
      while run != {}
        invariant run <= old(spawned) && OnlyUnregistered(lookups) && SameForRegistered(lookups, index, was)
        invariant Scheduled(lookups, index, mhs, spawned)
        invariant spawned == old(spawned) - chosen + run
        decreases run
      {
        var key :| key in run;
        DeletionKeepsRegistered(lookups, index, was, key);
        DeletionKeepsScheduled(lookups, index, mhs, spawned, key);
        index := RemoveProviderContext(index, key);
        run, spawned := run - {key}, spawned - {key};
      }
    }

    method FindValue(v: Value, registry: R.Registry, ghost lookups: Lookups, cache: Lookups)
      returns (result: seq<ProviderResult>, provAddrs: Lookups)
      requires Answers(registry, lookups) && Cached(cache, lookups)
      modifies this`spawned
      ensures spawned == old(spawned) + if v.provider in lookups then {} else {KeyOf(v)}
      ensures result == ProviderResults(lookups, [v]) && Cached(provAddrs, lookups)
    {
      var addrs;
      addrs, provAddrs := LookUpOnce(v.provider, registry, lookups, cache);
      if addrs.None? {
        spawned := spawned + {KeyOf(v)};
        return [], provAddrs;
      }
      return [ProviderResult(v.provider, addrs.value, v.contextID, v.metadata)], provAddrs;
    }

    /** The loop over the values of one multihash. */
    method FindValues(values: seq<Value>, registry: R.Registry, ghost lookups: Lookups, cache: Lookups)
      returns (provResults: seq<ProviderResult>, provAddrs: Lookups)
      requires Answers(registry, lookups) && Cached(cache, lookups)
      modifies this`spawned
      ensures spawned == old(spawned) + Stale(lookups, values) && Cached(provAddrs, lookups)
      ensures forall v | v in values ::
        KeyOf(v) in spawned <==> KeyOf(v) in old(spawned) || AbsentOrInactive(registry.Standings(), v.provider)
      ensures provResults == ProviderResults(lookups, values) && ResultsOf(provResults, lookups, values)
    {
      provResults, provAddrs := [], cache;
      for j := 0 to |values|
        invariant spawned == old(spawned) + Stale(lookups, values[..j]) && Cached(provAddrs, lookups)
        invariant provResults == ProviderResults(lookups, values[..j])
      {
        var result;
        result, provAddrs := FindValue(values[j], registry, lookups, provAddrs);
        NextValue(lookups, values, j);
        provResults := provResults + result;
      }
      assert values[..|values|] == values;
      ProviderResultsAreAll(lookups, values);
      AllStaleIff(registry.Standings(), values);
    }

    /** The result for one multihash that the indexer does not fail on, if there is one. */
    method FindOne(mh: Multihash, registry: R.Registry, ghost lookups: Lookups, cache: Lookups, ghost was: Index)
      returns (results: seq<MultihashResult>, provAddrs: Lookups)
      requires Answers(registry, lookups)
      requires SameForRegistered(lookups, index, was) && Cached(cache, lookups)
      modifies this`spawned
      ensures spawned == old(spawned) + Stale(lookups, Values(index, mh)) && Cached(provAddrs, lookups)
      ensures results == ResultFor(lookups, was, mh)
      ensures if HasRegistered(lookups, was, mh) then |results| == 1 && IsResultFor(results[0], lookups, was, mh)
              else results == []
    {
      ResultForIs(lookups, was, mh);
      assert ProviderResults(lookups, Values(index, mh)) == ProviderResults(lookups, Values(was, mh));
      if mh !in index || index[mh] == [] {
        return [], cache;
      }
      var provResults;
      provResults, provAddrs := FindValues(index[mh], registry, lookups, cache);
      if |provResults| == 0 {
        return [], provAddrs;
      }
      return [MultihashResult(mh, provResults)], provAddrs;
    }

    /** The i-th multihash of a request. */
    method FindNext(mhs: seq<Multihash>, i: nat, registry: R.Registry, ghost lookups: Lookups, cache: Lookups,
                    ghost was: Index)
      returns (results: seq<MultihashResult>, provAddrs: Lookups)
      requires Answers(registry, lookups) && OnlyUnregistered(lookups)
      requires SameForRegistered(lookups, index, was) && Cached(cache, lookups)
      requires i < |mhs| && Scheduled(lookups, index, mhs[..i], spawned)
      modifies this`spawned
      ensures OnlyUnregistered(lookups) && Cached(provAddrs, lookups)
      ensures Scheduled(lookups, index, mhs[..i + 1], spawned)
      ensures results == ResultFor(lookups, was, mhs[i])
    {
      ghost var before := spawned;
      results, provAddrs := FindOne(mhs[i], registry, lookups, cache, was);
      ScheduledNext(lookups, index, mhs, i, before, spawned);
    }

    /** Find with a cache of lookups, while before each query of the index some of the deletions spawned so far run, as
        `schedule` says. Whatever it says, the response is the one that `Found` describes for the index at the start. */
    method Find(mhs: seq<Multihash>, registry: R.Registry, failing: set<Multihash>, schedule: nat -> set<ContextKey>)
      returns (response: Response)
      requires registry.Valid() && OnlyUnregistered(R.Found(registry.Standings()))
      modifies this`index, this`spawned
      ensures var lookups := R.Found(registry.Standings());
              && response == Found(lookups, old(index), failing, mhs)
              && LooksUp(registry, lookups) && RespondsTo(response, lookups, old(index), failing, mhs)
              && OnlyUnregistered(lookups) && SameForRegistered(lookups, index, old(index))
              && (response.Results? ==> Scheduled(lookups, index, mhs, spawned))
    {
      FoundResponds(R.Found(registry.Standings()), index, failing, mhs);
      response := FindAll(mhs, registry, R.Found(registry.Standings()), failing, schedule);
    }

    method FindAll(mhs: seq<Multihash>, registry: R.Registry, ghost lookups: Lookups, failing: set<Multihash>,
                   schedule: nat -> set<ContextKey>)
      returns (response: Response)
      requires Answers(registry, lookups) && OnlyUnregistered(lookups)
      modifies this`index, this`spawned
      ensures response == Found(lookups, old(index), failing, mhs)
      ensures OnlyUnregistered(lookups) && SameForRegistered(lookups, index, old(index))
      ensures response.Results? ==> Scheduled(lookups, index, mhs, spawned)
    {
      var results: seq<MultihashResult> := [];
      var provAddrs: Lookups := map[];
      ghost var was := index;
      for i := 0 to |mhs|
        invariant OnlyUnregistered(lookups) && SameForRegistered(lookups, index, was) && Cached(provAddrs, lookups)
        invariant NoneFails(failing, mhs[..i])
        invariant Scheduled(lookups, index, mhs[..i], spawned)
        invariant results == AllResults(lookups, was, mhs[..i])
      {
        RunDeletions(schedule(i), lookups, was, mhs[..i]);
        NextMultihash(lookups, was, mhs, i);
        if mhs[i] in failing {
          return QueryFailed;
        }
        NoneFailsNext(failing, mhs, i);
        var found;
        found, provAddrs := FindNext(mhs, i, registry, lookups, provAddrs, was);
        results := results + found;
      }
      assert mhs[..|mhs|] == mhs;
      return Results(results);
    }
  }

  /** The addresses of a provider that the registry finds. The program then tests whether the provider is inactive, but
      an inactive one is not found. */
  method LookUp(provider: PeerID, registry: R.Registry, ghost lookups: Lookups) returns (addrs: Option<seq<Addr>>)
    requires Answers(registry, lookups)
    ensures addrs == if provider in lookups then Some(lookups[provider]) else None
  {
    var pinfo := registry.ProviderInfo(provider);
    return if pinfo == null then None else Some(pinfo.record.addrs);
  }

  /** A provider's addresses, which are looked up if they are not cached. */
  method LookUpOnce(provider: PeerID, registry: R.Registry, ghost lookups: Lookups, cache: Lookups)
    returns (addrs: Option<seq<Addr>>, provAddrs: Lookups)
    requires Answers(registry, lookups) && Cached(cache, lookups)
    ensures addrs == if provider in lookups then Some(lookups[provider]) else None
    ensures Cached(provAddrs, lookups)
  {
    if provider in cache {
      return Some(cache[provider]), cache;
    }
    addrs := LookUp(provider, registry, lookups);
    return addrs, if addrs.None? then cache else cache[provider := addrs.value];
  }

  /** Lookups in the registry are answered like this. */
  ghost predicate Answers(registry: R.Registry, lookups: Lookups)
    reads registry, registry.providers.Values
  {
    registry.Valid() && lookups == R.Found(registry.Standings())
  }

  predicate Cached(cache: Lookups, lookups: Lookups) {
    cache.Keys <= lookups.Keys && forall p | p in cache :: cache[p] == lookups[p]
  }

  lemma NextValue(lookups: Lookups, values: seq<Value>, j: nat)
    requires j < |values|
    ensures ProviderResults(lookups, values[..j + 1])
         == ProviderResults(lookups, values[..j]) + ProviderResults(lookups, [values[j]])
    ensures Stale(lookups, values[..j + 1])
         == Stale(lookups, values[..j]) + if values[j].provider in lookups then {} else {KeyOf(values[j])}
  {
    assert values[..j + 1] == values[..j] + [values[j]];
    ProviderResultsAppend(lookups, values[..j], [values[j]]);
  }

  lemma ScheduledNext(lookups: Lookups, index: Index, mhs: seq<Multihash>, i: nat, before: set<ContextKey>,
                      spawned: set<ContextKey>)
    requires i < |mhs| && Scheduled(lookups, index, mhs[..i], before)
    requires spawned == before + Stale(lookups, Values(index, mhs[i]))
    ensures Scheduled(lookups, index, mhs[..i + 1], spawned)
  {
    var next := mhs[..i + 1];
    forall k | 0 <= k < |next| ensures Stale(lookups, Values(index, next[k])) <= spawned {
      if k < i {
        assert next[k] == mhs[..i][k];
      }
    }
  }

  lemma NoneFailsNext(failing: set<Multihash>, mhs: seq<Multihash>, i: nat)
    requires i < |mhs| && NoneFails(failing, mhs[..i]) && mhs[i] !in failing
    ensures NoneFails(failing, mhs[..i + 1])
  {
    assert mhs[..i + 1] == mhs[..i] + [mhs[i]];
  }

  lemma NextMultihash(lookups: Lookups, index: Index, mhs: seq<Multihash>, i: nat)
    requires i < |mhs|
    ensures AllResults(lookups, index, mhs[..i + 1])
         == AllResults(lookups, index, mhs[..i]) + ResultFor(lookups, index, mhs[i])
  {
    assert mhs[..i + 1] == mhs[..i] + [mhs[i]];
    AllResultsAppend(lookups, index, mhs[..i], [mhs[i]]);
    assert AllResults(lookups, index, [mhs[i]]) == ResultFor(lookups, index, mhs[i]) + [];
  }
}
