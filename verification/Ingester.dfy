/** The ingester's own state and the methods that change it, each proved against the functions of module Worker
    or against the grouping functions below. One method call here is one undisturbed call in the program; module
    Staging has the interleavings. */
module Ingester {
  import opened Wrappers
  import opened Types
  import opened Advertisements
  import opened Worker

  /** Number of listed advertisements newer than the newest processed one. */
  function Unprocessed(ds: Datastore, cids: seq<Cid>): (n: nat)
    ensures n <= |cids|
    ensures n < |cids| ==> Done(ds, cids[n])
    ensures forall i :: 0 <= i < n ==> !Done(ds, cids[i])
  {
    if cids == [] || Done(ds, cids[0]) then 0 else 1 + Unprocessed(ds, cids[1..])
  }

  /** The advertisement with this CID, if it loads and names provider p. */
  function LoadFor(ds: Datastore, c: Cid, p: PeerID): seq<AdInfo> {
    if c in ds.blocks && ds.blocks[c].Some? && ds.blocks[c].value.provider == Some(p)
    then [AdInfo(c, ds.blocks[c].value)] else []
  }

  /** The loadable advertisements of provider p among the first n listed, in the same order. */
  function GroupOf(ds: Datastore, cids: seq<Cid>, n: nat, p: PeerID): seq<AdInfo>
    requires n <= |cids|
  {
    if n == 0 then [] else GroupOf(ds, cids, n - 1, p) + LoadFor(ds, cids[n - 1], p)
  }

  type Groups = map<PeerID, seq<AdInfo>>

  function Group(groups: Groups, p: PeerID): seq<AdInfo> {
    if p in groups then groups[p] else []
  }

  function AddLoaded(groups: Groups, ds: Datastore, c: Cid): (r: Groups)
    requires forall p :: p in groups ==> groups[p] != []
    ensures forall p :: p in r ==> r[p] != []
    ensures forall p :: Group(r, p) == Group(groups, p) + LoadFor(ds, c, p)
  {
    if c in ds.blocks && ds.blocks[c].Some? && ds.blocks[c].value.provider.Some? then
      var p := ds.blocks[c].value.provider.value;
      groups[p := Group(groups, p) + [AdInfo(c, ds.blocks[c].value)]]
    else groups
  }

  lemma GroupNext(groups: Groups, ds: Datastore, cids: seq<Cid>, i: nat)
    requires i < |cids| && forall p :: p in groups ==> groups[p] != []
    requires forall p :: GroupOf(ds, cids, i, p) == Group(groups, p)
    ensures forall p :: GroupOf(ds, cids, i + 1, p) == Group(AddLoaded(groups, ds, cids[i]), p)
  {
    forall p ensures GroupOf(ds, cids, i + 1, p) == Group(AddLoaded(groups, ds, cids[i]), p) {
      assert GroupOf(ds, cids, i + 1, p) == GroupOf(ds, cids, i, p) + LoadFor(ds, cids[i], p);
    }
  }

  function StagedCells(groups: Groups, ps: set<PeerID>, publisher: PeerID): map<PeerID, Cell<Assignment>>
    requires ps <= groups.Keys
  {
    map p | p in ps :: Staged(Assignment(groups[p], publisher, p))
  }

  lemma StagedCellsNext(groups: Groups, ps: set<PeerID>, publisher: PeerID, p: PeerID,
                        staging: map<PeerID, Cell<Assignment>>, before: map<PeerID, Cell<Assignment>>)
    requires ps <= groups.Keys && p in groups && p !in ps
    requires staging == before + StagedCells(groups, ps, publisher)
    ensures staging[p := Staged(Assignment(groups[p], publisher, p))]
         == before + StagedCells(groups, ps + {p}, publisher)
    ensures p in staging <==> p in before
    ensures p in staging ==> staging[p] == before[p]
  {
  }

  /** `sent` holds one token for each of these providers whose cell held no assignment before. */
  ghost predicate OneTokenEach(ps: set<PeerID>, before: map<PeerID, Cell<Assignment>>, sent: seq<PeerID>) {
    && (forall i, j :: 0 <= i < j < |sent| ==> sent[i] != sent[j])
    && (forall p :: p in sent <==> p in ps && !(p in before && before[p].Staged?))
  }

  lemma OneMoreToken(ps: set<PeerID>, p: PeerID, before: map<PeerID, Cell<Assignment>>, sent: seq<PeerID>,
                     sent': seq<PeerID>)
    requires OneTokenEach(ps, before, sent) && p !in ps
    requires sent' == if p in before && before[p].Staged? then sent else sent + [p]
    ensures OneTokenEach(ps + {p}, before, sent')
  {
  }

  lemma TokensSent(toWorkers: seq<PeerID>, sent: seq<PeerID>, sent': seq<PeerID>)
    requires sent <= sent'
    ensures toWorkers + sent + sent'[|sent|..] == toWorkers + sent'
  {
    Assoc(toWorkers, sent, sent'[|sent|..]);
    assert sent + sent'[|sent|..] == sent';
  }

  /** The block of this advertisement holds it, and it names provider p. */
  predicate BlockHolds(ds: Datastore, c: Cid, ad: Ad, p: PeerID) {
    c in ds.blocks && ds.blocks[c] == Some(ad) && ad.provider == Some(p)
  }

  /** A group consists of the advertisements of its provider that are in the blocks of the CIDs listed, as they are
      there. */
  lemma {:induction false} GroupFromBlocks(ds: Datastore, cids: seq<Cid>, n: nat, p: PeerID, ai: AdInfo)
    requires n <= |cids|
    ensures ai in GroupOf(ds, cids, n, p) <==> ai.cid in cids[..n] && BlockHolds(ds, ai.cid, ai.ad, p)
  {
    if n > 0 {
      GroupFromBlocks(ds, cids, n - 1, p, ai);
      assert cids[..n] == cids[..n - 1] + [cids[n - 1]];
    }
  }

  ghost predicate Distinct(cids: seq<Cid>) {
    forall u, v :: 0 <= u < v < |cids| ==> cids[u] != cids[v]
  }

  lemma PlaceInList(ds: Datastore, cids: seq<Cid>, n: nat, p: PeerID, j: nat, x: nat)
    requires n <= |cids| && x < |cids| && Distinct(cids)
    requires j < |GroupOf(ds, cids, n, p)| && GroupOf(ds, cids, n, p)[j].cid == cids[x]
    ensures x < n
  {
    var ai := GroupOf(ds, cids, n, p)[j];
    GroupFromBlocks(ds, cids, n, p, ai);
    var u :| 0 <= u < n && cids[..n][u] == ai.cid;
  }

  /** And it is in the order of the list. */
  lemma {:induction false} GroupInOrder(ds: Datastore, cids: seq<Cid>, n: nat, p: PeerID, j: nat, k: nat,
                                        x: nat, y: nat)
    requires n <= |cids| && x < |cids| && y < |cids| && Distinct(cids)
    requires j < k < |GroupOf(ds, cids, n, p)|
    requires GroupOf(ds, cids, n, p)[j].cid == cids[x] && GroupOf(ds, cids, n, p)[k].cid == cids[y]
    ensures x < y
  {
    var g := GroupOf(ds, cids, n - 1, p);
    if k < |g| {
      GroupInOrder(ds, cids, n - 1, p, j, k, x, y);
    } else {
      PlaceInList(ds, cids, n - 1, p, j, x);
      assert GroupOf(ds, cids, n, p)[k].cid == cids[n - 1];
    }
  }

  /** What a worker relies on: the advertisements staged for a provider name that provider, none of them was
      processed, they have distinct CIDs if the listed ones do, and every loadable one listed is there. */
  lemma GroupIsFaithful(ds: Datastore, cids: seq<Cid>, n: nat, p: PeerID)
    requires n <= Unprocessed(ds, cids)
    requires Distinct(cids)
    ensures var g := GroupOf(ds, cids, n, p);
            && AllFrom(g, p) && DistinctCids(g)
            && (forall ai: AdInfo :: ai in g ==> ai.cid in cids[..n] && !Done(ds, ai.cid))
            && (forall ai: AdInfo :: ai in g <==> ai.cid in cids[..n] && BlockHolds(ds, ai.cid, ai.ad, p))
  {
    GroupIsSound(ds, cids, n, p);
    forall ai: AdInfo
      ensures ai in GroupOf(ds, cids, n, p) <==> ai.cid in cids[..n] && BlockHolds(ds, ai.cid, ai.ad, p)
    {
      GroupFromBlocks(ds, cids, n, p, ai);
    }
  }

  /** An unprocessed advertisement that loads is staged exactly if no newer one that is listed is processed. */
  lemma StagedIff(ds: Datastore, cids: seq<Cid>, i: nat, ad: Ad, p: PeerID)
    requires Distinct(cids)
    requires i < |cids| && !Done(ds, cids[i]) && BlockHolds(ds, cids[i], ad, p)
    ensures AdInfo(cids[i], ad) in GroupOf(ds, cids, Unprocessed(ds, cids), p)
       <==> forall j :: 0 <= j < i ==> !Done(ds, cids[j])
  {
    var n := Unprocessed(ds, cids);
    GroupFromBlocks(ds, cids, n, p, AdInfo(cids[i], ad));
    if i < n {
      assert cids[..n][i] == cids[i];
    }
  }

  /** The chain lists b of provider q and, newer, a of provider p. Once a worker has processed a, and before one has
      processed b, a scan of both leaves b out, and latest-sync names a, at which syncs stop. */
  lemma OtherProviderIsLeftOut(ds: Datastore, a: Cid, b: Cid, ad: Ad, other: Ad, p: PeerID, q: PeerID,
                               publisher: PeerID, env: seq<Attempt>, values: ValueStore)
    requires a != b && !Done(ds, a) && !Done(ds, b) && BlockHolds(ds, b, other, q) && |env| >= 1
    requires WorkerTurn(Assignment([AdInfo(a, ad)], publisher, p), env, ds, values).left == 0
    ensures var f := WorkerTurn(Assignment([AdInfo(a, ad)], publisher, p), env, ds, values);
            var d := Replay(ds, f.writes);
            && Done(d, a) && !Done(d, b) && BlockHolds(d, b, other, q) && d.latest == ds.latest[publisher := a]
            && GroupOf(d, [a, b], Unprocessed(d, [a, b]), q) == []
  {
    var assignment := Assignment([AdInfo(a, ad)], publisher, p);
    var n := SplitAt(assignment.adInfos, ds);
    assert assignment.adInfos[0].cid == a;
    TurnTrace(assignment, n, env, values);
    assert MarkWrites(publisher, a) + [] == MarkWrites(publisher, a);
    ReplayMark(ds, publisher, a);
  }

  lemma {:induction false} GroupIsSound(ds: Datastore, cids: seq<Cid>, n: nat, p: PeerID)
    requires n <= Unprocessed(ds, cids)
    requires Distinct(cids)
    ensures var g := GroupOf(ds, cids, n, p);
            && AllFrom(g, p) && DistinctCids(g)
            && (forall ai: AdInfo :: ai in g ==> ai.cid in cids[..n] && !Done(ds, ai.cid))
  {
    if n > 0 {
      GroupIsSound(ds, cids, n - 1, p);
      FromPrefix(ds, cids, n, p);
      var g, last := GroupOf(ds, cids, n - 1, p), LoadFor(ds, cids[n - 1], p);
      if last != [] {
        assert cids[n - 1] !in cids[..n - 1];
        AppendDistinct(g, last[0]);
      }
    }
  }

  /** One more listed advertisement, which is unprocessed, may join the group. */
  lemma FromPrefix(ds: Datastore, cids: seq<Cid>, n: nat, p: PeerID)
    requires 0 < n <= Unprocessed(ds, cids)
    requires forall ai: AdInfo :: ai in GroupOf(ds, cids, n - 1, p) ==> ai.cid in cids[..n - 1] && !Done(ds, ai.cid)
    ensures forall ai: AdInfo :: ai in GroupOf(ds, cids, n, p) ==> ai.cid in cids[..n] && !Done(ds, ai.cid)
  {
    assert cids[..n] == cids[..n - 1] + [cids[n - 1]];
    var g, last := GroupOf(ds, cids, n - 1, p), LoadFor(ds, cids[n - 1], p);
    forall ai: AdInfo | ai in g + last ensures ai.cid in cids[..n] && !Done(ds, ai.cid) {
      if ai in g {} else { assert ai == last[0]; }
    }
  }

  lemma AppendDistinct(g: seq<AdInfo>, ai: AdInfo)
    requires DistinctCids(g) && forall other: AdInfo :: other in g ==> other.cid != ai.cid
    ensures DistinctCids(g + [ai])
  {
    forall i | 0 <= i < |g| ensures g[i].cid != ai.cid {
      assert g[i] in g;
    }
  }

  /** The worker's stack, which is `skips` with `skip` on top: the sentinel -1 at the bottom and, above it, exactly
      the redundant advertisements among the first n, in increasing order. */
  ghost predicate SkipStack(ads: seq<AdInfo>, n: int, stack: seq<int>) {
    && |stack| > 0 && stack[0] == -1
    && (forall i, j :: 0 <= i < j < |stack| ==> stack[i] < stack[j])
    && (forall i :: 0 < i < |stack| ==> stack[i] < n && Redundant(ads, stack[i]))
    && (forall k :: 0 <= k < n && Redundant(ads, k) ==> k in stack)
  }

  /** The test the worker makes is exact; when it succeeds there is something to pop, and popping keeps the
      stack exact. */
  lemma SkipIsExact(ads: seq<AdInfo>, i: nat, stack: seq<int>)
    requires SkipStack(ads, i + 1, stack)
    ensures var top := |stack| - 1;
            && (i == stack[top] <==> Redundant(ads, i))
            && (if i == stack[top] then top > 0 && SkipStack(ads, i, stack[..top]) else SkipStack(ads, i, stack))
  {
    var top := |stack| - 1;
    assert forall j :: 0 <= j < top ==> stack[j] < stack[top];
    if i == stack[top] {
      assert Redundant(ads, stack[top]);
      forall k | 0 <= k < i && Redundant(ads, k) ensures k in stack[..top] {
        var at :| 0 <= at < |stack| && stack[at] == k;
        assert stack[..top][at] == k;
      }
    }
  }

  /** The same for the stack as the worker keeps it, with its top apart. */
  lemma PopSkip(ads: seq<AdInfo>, i: nat, skips: seq<int>, skip: int)
    requires SkipStack(ads, i + 1, skips + [skip])
    ensures i == skip <==> Redundant(ads, i)
    ensures if i == skip then |skips| > 0 && SkipStack(ads, i, skips[..|skips| - 1] + [skips[|skips| - 1]])
            else SkipStack(ads, i, skips + [skip])
  {
    SkipIsExact(ads, i, skips + [skip]);
    assert (skips + [skip])[..|skips|] == skips;
    if i == skip {
      assert skips[..|skips| - 1] + [skips[|skips| - 1]] == skips;
    }
  }

  lemma PushSkip(ads: seq<AdInfo>, n: nat, stack: seq<int>)
    requires n < |ads| && SkipStack(ads, n, stack)
    ensures if Redundant(ads, n) then SkipStack(ads, n + 1, stack + [n]) else SkipStack(ads, n + 1, stack)
  {
    assert (stack + [n])[|stack|] == n;
    assert forall k :: k in stack ==> k in stack + [n];
  }

  lemma RemovedWithinNext(ads: seq<AdInfo>, n: nat)
    requires n < |ads|
    ensures forall ctx :: RemovedWithin(ads, n + 1, ctx) <==>
              RemovedWithin(ads, n, ctx) || (ads[n].ad.isRm && ads[n].ad.contextID == ctx)
  {
    forall ctx | RemovedWithin(ads, n, ctx) ensures RemovedWithin(ads, n + 1, ctx) {
      var j :| 0 <= j < n && ads[j].ad.isRm && ads[j].ad.contextID == ctx;
      assert j < n + 1;
    }
  }

  /** A turn that has sent these events and made these writes, and goes on as f. */
  ghost function After(events: seq<Event>, writes: seq<Write>, f: Finish): Finish {
    f.(events := events + f.events, writes := writes + f.writes)
  }

  /** One iteration of the worker's second loop, from `i + 1` advertisements to go to `i`. */
  lemma ProcessNext(a: Assignment, i: nat, env: seq<Attempt>, values: ValueStore,
                    values': ValueStore, err: Option<AdIngestState>, events: seq<Event>, writes: seq<Write>)
    requires i < |a.adInfos| <= |env|
    requires if Redundant(a.adInfos, i) then values' == values && err.None?
             else (values', err) == IngestAd(values, a.adInfos[i].ad, env[i])
    ensures After(events, writes, Process(a, i + 1, env, values)) ==
            if Retained(err) then Finish(values', events + [EventFor(a, i, err)], writes, i + 1)
            else After(events + [EventFor(a, i, None)], writes + MarkWrites(a.publisher, a.adInfos[i].cid),
                       Process(a, i, env, values'))
  {
    if Retained(err) {
      assert writes + [] == writes;
    } else {
      var f := Process(a, i, env, values');
      assert Process(a, i + 1, env, values) == MarkThen(a, i, f);
      assert events + ([EventFor(a, i, None)] + f.events) == events + [EventFor(a, i, None)] + f.events;
      assert writes + (MarkWrites(a.publisher, a.adInfos[i].cid) + f.writes)
          == writes + MarkWrites(a.publisher, a.adInfos[i].cid) + f.writes;
    }
  }

  /** What the ingester has sent and written. */
  datatype Log = Log(events: seq<Event>, journal: seq<Write>, trace: seq<Action>)

  /** A turn that stops at advertisement i has done what its result says, the last action being the error event. */
  lemma StopsWith(a: Assignment, hi: nat, i: nat, err: Option<AdIngestState>, before: Log,
                  values: ValueStore, now: Log, f: Finish)
    requires f.left <= hi <= |a.adInfos| && (f.left > 0 ==> f.events != []) && now.events != []
    requires Finish(values, now.events, now.journal, i + 1) == After(before.events, before.journal, f)
    requires now.events[|now.events| - 1] == EventFor(a, i, err)
    requires now.trace == before.trace + ActionsDown(a, hi, i + 1) + [Sent(EventFor(a, i, err))]
    ensures values == f.values && now.events == before.events + f.events && now.journal == before.journal + f.writes
    ensures now.trace == before.trace + TurnActions(a, hi, f)
  {
    assert f.left == i + 1 && EventFor(a, i, err) == f.events[|f.events| - 1];
    Assoc(before.trace, ActionsDown(a, hi, i + 1), [Sent(EventFor(a, i, err))]);
  }

  lemma GoesOn(a: Assignment, hi: nat, i: nat, before: seq<Action>, now: seq<Action>)
    requires i < hi <= |a.adInfos| && now == before + ActionsDown(a, hi, i + 1) + MarkActions(a, i)
    ensures now == before + ActionsDown(a, hi, i)
  {
    ActionsGrow(a, hi, i + 1);
    Assoc(before, ActionsDown(a, hi, i + 1), MarkActions(a, i));
  }

  class Ingester {
    var ds: Datastore
    var values: ValueStore
    var locks: set<PeerID>             // providers that have a lock channel
    var staging: map<PeerID, Cell<Assignment>>
    var toWorkers: seq<PeerID>         // tokens sent to the worker pool
    var inEvents: seq<Event>           // events sent to the distributor
    ghost var journal: seq<Write>      // all writes made to the datastore
    ghost var trace: seq<Action>       // the writes and the sent events, in their order
    ghost const ds0: Datastore         // the datastore at startup

    ghost predicate Valid()
      reads this
    {
      ds == Replay(ds0, journal)
    }

    constructor (ds: Datastore, values: ValueStore)
      ensures Valid() && this.ds == ds && this.values == values
      ensures locks == {} && staging == map[] && toWorkers == [] && inEvents == [] && journal == [] && trace == []
    {
      this.ds, this.values, this.locks, this.staging, this.toWorkers, this.inEvents := ds, values, {}, map[], [], [];
      this.ds0, this.journal, this.trace := ds, [], [];
    }

    method Commit(w: Write)
      requires Valid()
      modifies this`ds, this`journal, this`trace
      ensures Valid() && journal == old(journal) + [w] && trace == old(trace) + [Wrote(w)]
    {
      ReplayAppend(ds0, journal, w);
      ds := Apply(ds, w);
      journal, trace := journal + [w], trace + [Wrote(w)];
    }

    method MarkAdProcessed(publisher: PeerID, cid: Cid)
      requires Valid()
      modifies this`ds, this`journal, this`trace
      ensures Valid() && journal == old(journal) + MarkWrites(publisher, cid)
      ensures trace == old(trace) + [Wrote(PutProcessed(cid, true)), Wrote(DeleteBlock(cid)),
                                     Wrote(PutSync(publisher, cid))]
    {
      Commit(PutProcessed(cid, true));
      Commit(DeleteBlock(cid));
      Commit(PutSync(publisher, cid));
    }

    /** The hook of a resync: it sees the chain newest first. */
    method MarkChainUnprocessed(ads: seq<AdInfo>)
      requires Valid()
      modifies this`ds, this`journal, this`trace
      ensures Valid() && journal == old(journal) + Unmarks(ads)
      ensures ds == Replay(old(ds), Unmarks(ads))
    {
      var i := 0;
      while i < |ads|
        invariant Valid() && i <= |ads| && journal == old(journal) + Unmarks(ads)[..i]
      {
        assert Unmarks(ads)[..i + 1] == Unmarks(ads)[..i] + [PutProcessed(ads[i].cid, false)];
        Commit(PutProcessed(ads[i].cid, false));
        i := i + 1;
      }
      assert Unmarks(ads)[..i] == Unmarks(ads);
      ReplayConcat(ds0, old(journal), Unmarks(ads));
    }

    /** Group the listed advertisements by provider, up to the first processed one. */
    method GroupByProvider(cids: seq<Cid>) returns (groups: Groups)
      ensures forall p :: GroupOf(ds, cids, Unprocessed(ds, cids), p) == Group(groups, p)
      ensures forall p :: p in groups ==> groups[p] != []
    {
      groups := map[];
      var i := 0;
      while i < |cids| && !Done(ds, cids[i])
        invariant i <= Unprocessed(ds, cids)
        invariant forall p :: GroupOf(ds, cids, i, p) == Group(groups, p)
        invariant forall p :: p in groups ==> groups[p] != []
        decreases |cids| - i
      {
        GroupNext(groups, ds, cids, i);
        groups := AddLoaded(groups, ds, cids[i]);
        i := i + 1;
      }
      assert i == Unprocessed(ds, cids);
    }

    /** Stage the newly synced advertisements, and send one token for each provider whose cell was empty. */
    method RunIngestStep(publisher: PeerID, cids: seq<Cid>) returns (ghost groups: Groups, ghost sent: seq<PeerID>)
      modifies this`locks, this`staging, this`toWorkers
      ensures forall p :: GroupOf(ds, cids, Unprocessed(ds, cids), p) == Group(groups, p)
      ensures locks == old(locks) + groups.Keys
      ensures staging == old(staging) + StagedCells(groups, groups.Keys, publisher)
      ensures toWorkers == old(toWorkers) + sent
      ensures OneTokenEach(groups.Keys, old(staging), sent)
      ensures forall p | p in groups :: staging[p] == Staged(Assignment(groups[p], publisher, p))
      ensures forall i, ad, p | IsNew(cids, i) && BlockHolds(ds, cids[i], ad, p) ::
        StagedFor(cids[i], ad, p, publisher)
    {
      var byProvider := GroupByProvider(cids);
      groups := byProvider;
      sent := StageGroups(publisher, byProvider);
      forall i, ad, p | IsNew(cids, i) && BlockHolds(ds, cids[i], ad, p)
        ensures StagedFor(cids[i], ad, p, publisher)
      {
        var n := Unprocessed(ds, cids);
        GroupFromBlocks(ds, cids, n, p, AdInfo(cids[i], ad));
        assert cids[..n][i] == cids[i] && AdInfo(cids[i], ad) in Group(groups, p);
      }
    }

    /** The i-th advertisement listed is before the first processed one. */
    ghost predicate IsNew(cids: seq<Cid>, i: int)
      reads this
    {
      0 <= i < |cids| && forall j :: 0 <= j <= i ==> !Done(ds, cids[j])
    }

    /** This advertisement is in its provider's cell, as one from this publisher. */
    ghost predicate StagedFor(c: Cid, ad: Ad, p: PeerID, publisher: PeerID)
      reads this
    {
      && p in staging && staging[p].Staged? && AdInfo(c, ad) in staging[p].content.adInfos
      && staging[p].content.publisher == publisher && staging[p].content.provider == p
    }

    /** The loop over the providers that were grouped, in any order. */
    method StageGroups(publisher: PeerID, groups: Groups) returns (ghost sent: seq<PeerID>)
      modifies this`locks, this`staging, this`toWorkers
      ensures locks == old(locks) + groups.Keys
      ensures staging == old(staging) + StagedCells(groups, groups.Keys, publisher)
      ensures toWorkers == old(toWorkers) + sent
      ensures OneTokenEach(groups.Keys, old(staging), sent)
    {
      sent := [];
      var todo := groups.Keys;
      ghost var done: set<PeerID> := {};
      while todo != {}
        invariant done !! todo && done + todo == groups.Keys
        invariant locks == old(locks) + done
        invariant staging == old(staging) + StagedCells(groups, done, publisher)
        invariant toWorkers == old(toWorkers) + sent
        invariant OneTokenEach(done, old(staging), sent)
        decreases todo
      {
        var p :| p in todo;
        StagedCellsNext(groups, done, publisher, p, staging, old(staging));
        ghost var before := sent;
        sent := StageGroup(p, Assignment(groups[p], publisher, p), sent);
        OneMoreToken(done, p, old(staging), before, sent);
        TokensSent(old(toWorkers), before, sent);
        todo, done := todo - {p}, done + {p};
      }
    }

    /** Swap one assignment into its provider's cell; `sent` lists the tokens this step has sent so far. */
    method StageGroup(p: PeerID, a: Assignment, ghost sent: seq<PeerID>) returns (ghost sent': seq<PeerID>)
      modifies this`locks, this`staging, this`toWorkers
      ensures locks == old(locks) + {p} && staging == old(staging)[p := Staged(a)]
      ensures sent' == if p in old(staging) && old(staging)[p].Staged? then sent else sent + [p]
      ensures toWorkers == old(toWorkers) + sent'[|sent|..]
    {
      locks := locks + {p};
      if p !in staging {
        staging := staging[p := Unset];
      }
      var previous := staging[p];
      staging := staging[p := Staged(a)];
      sent' := sent;
      if !previous.Staged? {
        toWorkers := toWorkers + [p];
        sent' := sent + [p];
      }
    }

    /** The first loop of a worker turn: newest to oldest, find where processed advertisements begin and stack up
        those made redundant by a newer removal. */
    method ScanAssignment(ads: seq<AdInfo>) returns (split: nat, skips: seq<int>, skip: int)
      ensures split == SplitAt(ads, ds)
      ensures SkipStack(ads, split, skips + [skip])
    {
      var rmCtxID: set<ContextID> := {};
      skips, skip := [], -1;
      split := 0;
      while split < |ads| && !Done(ds, ads[split].cid)
        invariant split <= SplitAt(ads, ds)
        invariant forall ctx :: ctx in rmCtxID <==> RemovedWithin(ads, split, ctx)
        invariant SkipStack(ads, split, skips + [skip])
        decreases |ads| - split
      {
        var ad := ads[split].ad;
        RemovedWithinNext(ads, split);
        PushSkip(ads, split, skips + [skip]);
        if ad.contextID in rmCtxID {
          skips := skips + [skip];
          skip := split;
        } else if ad.isRm {
          rmCtxID := rmCtxID + {ad.contextID};
        }
        split := split + 1;
      }
    }

    /** Mark advertisement i and announce it. */
    method Complete(a: Assignment, i: nat)
      requires Valid() && i < |a.adInfos|
      modifies this`ds, this`journal, this`inEvents, this`trace
      ensures Valid() && inEvents == old(inEvents) + [EventFor(a, i, None)]
      ensures trace == old(trace) + MarkActions(a, i)
      ensures journal == old(journal) + MarkWrites(a.publisher, a.adInfos[i].cid)
    {
      MarkAdProcessed(a.publisher, a.adInfos[i].cid);
      Emit(EventFor(a, i, None));
    }

    /** Send an event to the distributor. */
    method Emit(event: Event)
      modifies this`inEvents, this`trace
      ensures inEvents == old(inEvents) + [event] && trace == old(trace) + [Sent(event)]
    {
      inEvents, trace := inEvents + [event], trace + [Sent(event)];
    }

    /** One iteration of the second loop: skip or ingest advertisement i, and mark it unless that failed. */
    method ProcessAd(a: Assignment, i: nat, skips: seq<int>, skip: int, env: seq<Attempt>)
      returns (newSkips: seq<int>, newSkip: int, err: Option<AdIngestState>)
      requires Valid()
      requires i < |a.adInfos| <= |env| && SkipStack(a.adInfos, i + 1, skips + [skip])
      modifies this`ds, this`journal, this`values, this`inEvents, this`trace
      ensures Valid() && SkipStack(a.adInfos, i, newSkips + [newSkip])
      ensures After(old(inEvents), old(journal), Process(a, i + 1, env, old(values)))
           == if Retained(err) then Finish(values, inEvents, journal, i + 1)
              else After(inEvents, journal, Process(a, i, env, values))
      ensures trace == old(trace) + if Retained(err) then [Sent(EventFor(a, i, err))] else MarkActions(a, i)
      ensures Retained(err) ==> inEvents == old(inEvents) + [EventFor(a, i, err)]
    {
      newSkips, newSkip, err := skips, skip, None;
      PopSkip(a.adInfos, i, skips, skip);
      if i == skip {
        newSkip := skips[|skips| - 1];
        newSkips := skips[..|skips| - 1];
        ProcessNext(a, i, env, values, values, None, inEvents, journal);
      } else {
        var (values', ingestErr) := IngestAd(values, a.adInfos[i].ad, env[i]);
        ProcessNext(a, i, env, values, values', ingestErr, inEvents, journal);
        values, err := values', ingestErr;
        if Retained(err) {
          Emit(EventFor(a, i, err));
          return;
        }
      }
      Complete(a, i);
    }

    /** With i advertisements to go, what is to come makes the turn what f says. */
    ghost predicate Turning(a: Assignment, split: nat, i: nat, env: seq<Attempt>, f: Finish, before: Log)
      requires i <= split <= |a.adInfos| <= |env|
      reads this
    {
      && After(inEvents, journal, Process(a, i, env, values)) == After(before.events, before.journal, f)
      && trace == before.trace + ActionsDown(a, split, i)
    }

    /** The turn is what f says. */
    ghost predicate Turned(a: Assignment, split: nat, f: Finish, before: Log)
      requires f.left <= split <= |a.adInfos| && (f.left > 0 ==> f.events != [])
      reads this
    {
      && values == f.values && inEvents == before.events + f.events && journal == before.journal + f.writes
      && trace == before.trace + TurnActions(a, split, f)
    }

    method ProcessNextAd(a: Assignment, ghost split: nat, i: nat, skips: seq<int>, skip: int, env: seq<Attempt>,
                         ghost f: Finish, ghost before: Log)
      returns (newSkips: seq<int>, newSkip: int, stopped: bool)
      requires Valid() && i < split <= |a.adInfos| <= |env| && SkipStack(a.adInfos, i + 1, skips + [skip])
      requires f.left <= split && (f.left > 0 ==> f.events != [])
      requires Turning(a, split, i + 1, env, f, before)
      modifies this`ds, this`journal, this`values, this`inEvents, this`trace
      ensures Valid() && SkipStack(a.adInfos, i, newSkips + [newSkip])
      ensures if stopped then Turned(a, split, f, before) else Turning(a, split, i, env, f, before)
    {
      var err;
      newSkips, newSkip, err := ProcessAd(a, i, skips, skip, env);
      stopped := Retained(err);
      if stopped {
        StopsWith(a, split, i, err, before, values, Log(inEvents, journal, trace), f);
      } else {
        GoesOn(a, split, i, before.trace, trace);
      }
    }

    /** The second loop: oldest to newest, over advertisements split-1 down to 0. */
    method ProcessAds(a: Assignment, split: nat, skips0: seq<int>, skip0: int, env: seq<Attempt>)
      requires Valid()
      requires split <= |a.adInfos| <= |env| && SkipStack(a.adInfos, split, skips0 + [skip0])
      modifies this`ds, this`journal, this`values, this`inEvents, this`trace
      ensures Valid()
      ensures var f := Process(a, split, env, old(values));
              (f.left > 0 ==> f.events != []) && Turned(a, split, f, Log(old(inEvents), old(journal), old(trace)))
    {
      EventIfLeft(a, split, env, values);
      var i: nat, skips, skip := split, skips0, skip0;
      ghost var f, before := Process(a, split, env, values), Log(inEvents, journal, trace);
      assert trace + [] == trace;
      while i > 0
        invariant Valid() && i <= split && SkipStack(a.adInfos, i, skips + [skip])
        invariant Turning(a, split, i, env, f, before)
      {
        i := i - 1;
        var stopped;
        skips, skip, stopped := ProcessNextAd(a, split, i, skips, skip, env, f, before);
        if stopped {
          return;
        }
      }
      assert inEvents + [] == inEvents && journal + [] == journal;
      assert ActionsDown(a, split, 0) + [] == ActionsDown(a, split, 0);
    }

    /** Drain the provider's cell and process what it held. With an unset or empty cell there is nothing to do. */
    method IngestWorkerLogic(provider: PeerID, env: seq<Attempt>)
      requires Valid() && provider in staging
      requires staging[provider].Staged? ==> |staging[provider].content.adInfos| <= |env|
      modifies this`ds, this`journal, this`values, this`inEvents, this`staging, this`trace
      ensures Valid() && staging == old(staging)[provider := NoAssignment]
      ensures !old(staging)[provider].Staged? ==>
        && ds == old(ds) && values == old(values) && inEvents == old(inEvents) && journal == old(journal)
        && trace == old(trace)
      ensures old(staging)[provider].Staged? ==>
        var a := old(staging)[provider].content;
        var f := WorkerTurn(a, env, old(ds), old(values));
        && values == f.values
        && inEvents == old(inEvents) + f.events
        && journal == old(journal) + f.writes
        && ds == Replay(old(ds), f.writes)
        && (f.left > 0 ==> f.events != [])
        && trace == old(trace) + TurnActions(a, SplitAt(a.adInfos, old(ds)), f)
    {
      var cell := staging[provider];
      staging := staging[provider := NoAssignment];
      if cell.Staged? {
        var split, skips, skip := ScanAssignment(cell.content.adInfos);
        ProcessAds(cell.content, split, skips, skip, env);
        ReplayConcat(ds0, old(journal), WorkerTurn(cell.content, env, old(ds), old(values)).writes);
      }
    }

    /** The loop in which a call to Sync waits for head c: it reads events until one releases it. */
    method AwaitHead(events: seq<Event>, c: Cid) returns (read: nat)
      ensures read <= |events|
      ensures read < |events| ==> Releases(events[read], c)
      ensures forall k :: 0 <= k < read ==> !Releases(events[k], c)
    {
      read := 0;
      while read < |events|
        invariant read <= |events|
        invariant forall k :: 0 <= k < read ==> !Releases(events[k], c)
      {
        var event := events[read];
        if event.adCid == c || (event.err.Some? && event.headAdCid == c) {
          return;
        }
        read := read + 1;
      }
    }
  }

}
