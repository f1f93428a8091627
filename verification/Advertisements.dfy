/** Advertisements, the effect of ingesting one of them on the value store, and the keys of the
    datastore that record progress. */
module Advertisements {
  import opened Wrappers
  import opened Types

  /** Where an advertisement's entries are: nowhere (a metadata update), an undefined link, or a link. */
  datatype Entries = NoEntries | UndefLink | Link(cid: Cid)

  /** `provider` is None when the provider string of the advertisement does not decode. */
  datatype Ad = Ad(provider: Option<PeerID>, contextID: ContextID, isRm: bool, entries: Entries)
  datatype AdInfo = AdInfo(cid: Cid, ad: Ad)
  datatype Assignment = Assignment(adInfos: seq<AdInfo>, publisher: PeerID, provider: PeerID)

  ghost predicate DistinctCids(ads: seq<AdInfo>) {
    forall i, j :: 0 <= i < j < |ads| ==> ads[i].cid != ads[j].cid
  }

  ghost predicate AllFrom(ads: seq<AdInfo>, provider: PeerID) {
    forall i :: 0 <= i < |ads| ==> ads[i].ad.provider == Some(provider)
  }

  // ---------- The value store ----------

  datatype ContextKey = ContextKey(provider: PeerID, contextID: ContextID)
  type Content = map<nat, nat>  // multihash to metadata
  type ValueStore = map<ContextKey, Content>

  function Lookup(values: ValueStore, key: ContextKey): Option<Content> {
    if key in values then Some(values[key]) else None
  }

  function Update(values: ValueStore, key: ContextKey, content: Option<Content>): (r: ValueStore)
    ensures forall k :: Lookup(r, k) == if k == key then content else Lookup(values, k)
  {
    if content.Some? then values[key := content.value] else values - {key}
  }

  lemma EqualLookupsEqualStores(v1: ValueStore, v2: ValueStore)
    requires forall k :: Lookup(v1, k) == Lookup(v2, k)
    ensures v1 == v2
  {
    forall k ensures k in v1 <==> k in v2 {
      assert Lookup(v1, k) == Lookup(v2, k);
    }
    forall k | k in v1 ensures v1[k] == v2[k] {
      assert Lookup(v1, k) == Lookup(v2, k);
    }
  }

  // ---------- Ingesting one advertisement ----------

  datatype AdIngestState =
    | IndexerErr | DecodingErr | MalformedErr | RegisterProviderErr
    | SyncEntriesErr | ContentNotFound | EntryChunkErr

  /** The errors that would happen again on a retry, so the worker logs and drops them. */
  predicate Permanent(state: AdIngestState) {
    state == DecodingErr || state == MalformedErr || state == EntryChunkErr || state == ContentNotFound
  }

  predicate Retained(err: Option<AdIngestState>) {
    err.Some? && !Permanent(err.value)
  }

  /** What the outside world does during one call: whether the registry accepts the provider, whether the
      indexer succeeds, how syncing the entries ends, and what, possibly partial, change is made to
      the content of the advertisement's own context. */
  datatype Attempt = Attempt(registered: bool, indexerOk: bool, entriesErr: Option<AdIngestState>,
                             effect: Option<Content> -> Option<Content>)

  function IngestContent(ad: Ad, attempt: Attempt, content: Option<Content>): (Option<Content>, Option<AdIngestState>) {
    if ad.provider.None? then (content, Some(DecodingErr))
    else if !attempt.registered then (content, Some(RegisterProviderErr))
    else if ad.isRm then
      if attempt.indexerOk then (None, None) else (attempt.effect(content), Some(IndexerErr))
    else match ad.entries
      case NoEntries => (attempt.effect(content), if attempt.indexerOk then None else Some(IndexerErr))
      case UndefLink => (content, Some(MalformedErr))
      case Link(_) => (attempt.effect(content), attempt.entriesErr)
  }

  function IngestAd(values: ValueStore, ad: Ad, attempt: Attempt): (ValueStore, Option<AdIngestState>) {
    if ad.provider.None? then (values, Some(DecodingErr)) else
    var key := ContextKey(ad.provider.value, ad.contextID);
    var (content, err) := IngestContent(ad, attempt, Lookup(values, key));
    (Update(values, key, content), err)
  }

  /** What one ingestion changes, in which case, and how it ends. Whatever the case, it changes nothing outside of the
      context that the advertisement names. */
  lemma IngestAdIs(values: ValueStore, ad: Ad, attempt: Attempt)
    ensures var (r, err) := IngestAd(values, ad, attempt);
            && (ad.provider.None? ==> r == values && err == Some(DecodingErr))
            && (ad.provider.Some? ==>
                  var key := ContextKey(ad.provider.value, ad.contextID);
                  var changed := Lookup(r, key) == attempt.effect(Lookup(values, key));
                  && (forall k | k != key :: Lookup(r, k) == Lookup(values, k))
                  && (!attempt.registered ==> r == values && err == Some(RegisterProviderErr))
                  && (attempt.registered && ad.isRm && attempt.indexerOk ==> key !in r && err == None)
                  && (attempt.registered && ad.isRm && !attempt.indexerOk ==> changed && err == Some(IndexerErr))
                  && (attempt.registered && !ad.isRm ==>
                        && (ad.entries.NoEntries? && attempt.indexerOk ==> changed && err == None)
                        && (ad.entries.NoEntries? && !attempt.indexerOk ==> changed && err == Some(IndexerErr))
                        && (ad.entries.UndefLink? ==> r == values && err == Some(MalformedErr))
                        && (ad.entries.Link? ==> changed && err == attempt.entriesErr)))
  {
    if ad.provider.Some? {
      var (r, err) := IngestAd(values, ad, attempt);
      var key := ContextKey(ad.provider.value, ad.contextID);
      if Lookup(r, key) == Lookup(values, key) {
        EqualLookupsEqualStores(r, values);
      }
      assert key in r <==> Lookup(r, key).Some?;
    }
  }

  /** The attempts that end a worker's turn, and with which error: the registry refuses the provider, the indexer fails
      on a removal or a metadata update, or, with entries, the indexer fails, the entries cannot be synced, or the
      provider cannot be registered. An error of any other kind is dropped. */
  predicate StopsBy(ad: Ad, attempt: Attempt, err: AdIngestState) {
    && ad.provider.Some?
    && if !attempt.registered then err == RegisterProviderErr
       else if ad.isRm || ad.entries.NoEntries? then !attempt.indexerOk && err == IndexerErr
       else && ad.entries.Link? && attempt.entriesErr == Some(err)
            && (err == IndexerErr || err == SyncEntriesErr || err == RegisterProviderErr)
  }

  ghost predicate Stops(ad: Ad, attempt: Attempt) {
    exists err :: StopsBy(ad, attempt, err)
  }

  lemma RetainedIffStops(values: ValueStore, ad: Ad, attempt: Attempt)
    ensures var err := IngestAd(values, ad, attempt).1;
            && (Retained(err) <==> Stops(ad, attempt))
            && (Retained(err) ==> StopsBy(ad, attempt, err.value))
  {
    IngestAdIs(values, ad, attempt);
    var err := IngestAd(values, ad, attempt).1;
    assert Retained(err) ==> StopsBy(ad, attempt, err.value);
  }

  /** The content without the multihashes that a removal lists, as a removal with entries is documented. */
  function WithoutListed(content: Option<Content>, listed: set<nat>): Option<Content> {
    if content.None? || content.value.Keys <= listed then None else Some(content.value - listed)
  }

  /** A removal ignores what it lists and clears its context. It does what is documented exactly if it lists all that is
      left there. */
  lemma RemovalAsDocumentedIff(ad: Ad, attempt: Attempt, content: Option<Content>, listed: set<nat>)
    requires ad.isRm && ad.provider.Some? && attempt.registered && attempt.indexerOk
    ensures IngestContent(ad, attempt, content) == (None, None)
    ensures IngestContent(ad, attempt, content).0 == WithoutListed(content, listed)
       <==> content.None? || content.value.Keys <= listed
  {
  }

  /** A removal that lists one of two multihashes removes both. */
  lemma RemovalTakesUnlisted(ad: Ad, attempt: Attempt, mh: nat, other: nat, metadata: nat)
    requires ad.isRm && ad.provider.Some? && attempt.registered && attempt.indexerOk && mh != other
    ensures var content := Some(map[mh := metadata, other := metadata]);
            && IngestContent(ad, attempt, content).0 == None
            && WithoutListed(content, {mh}) == Some(map[other := metadata])
  {
    var content: Content := map[mh := metadata, other := metadata];
    assert other in content.Keys && content - {mh} == map[other := metadata];
    RemovalAsDocumentedIff(ad, attempt, Some(content), {mh});
  }

  // ---------- The datastore ----------

  /** The three key spaces the ingester uses: "/adProcessed/", "/sync/", and the blocks of
      advertisements, which load as None when they do not decode. */
  datatype Datastore = Datastore(processed: map<Cid, bool>, latest: map<PeerID, Cid>, blocks: map<Cid, Option<Ad>>)

  datatype Write =
    | PutProcessed(cid: Cid, done: bool)
    | DeleteBlock(cid: Cid)
    | PutSync(publisher: PeerID, cid: Cid)

  predicate Done(ds: Datastore, cid: Cid) {
    cid in ds.processed && ds.processed[cid]
  }

  function Apply(ds: Datastore, w: Write): Datastore {
    match w
    case PutProcessed(c, done) => ds.(processed := ds.processed[c := done])
    case DeleteBlock(c) => ds.(blocks := ds.blocks - {c})
    case PutSync(p, c) => ds.(latest := ds.latest[p := c])
  }

  /** The datastore after a sequence of writes: what is found on restart if the process dies there. */
  function Replay(ds: Datastore, ws: seq<Write>): Datastore {
    if ws == [] then ds else Apply(Replay(ds, ws[..|ws| - 1]), ws[|ws| - 1])
  }

  lemma {:induction false} ReplayAppend(ds: Datastore, ws: seq<Write>, w: Write)
    ensures Replay(ds, ws + [w]) == Apply(Replay(ds, ws), w)
  {
    assert (ws + [w])[..|ws|] == ws;
  }
}
