/** What one turn of an ingest worker does with an assignment, as a function of what it finds, and the
    properties of that function. `Ingester.Ingester.IngestWorkerLogic` is proved to compute it. */
module Worker {
  import opened Wrappers
  import opened Types
  import opened Advertisements

  /** A success event has no error. Every event names the head of the chain being processed. */
  datatype Event = Event(publisher: PeerID, headAdCid: Cid, adCid: Cid, err: Option<AdIngestState>)

  /** The value store after a turn, the events sent and the datastore writes made during it, and the number of
      advertisements, counted from the newest, that it did not process. */
  datatype Finish = Finish(values: ValueStore, events: seq<Event>, writes: seq<Write>, left: nat)

  function MarkWrites(publisher: PeerID, cid: Cid): seq<Write> {
    [PutProcessed(cid, true), DeleteBlock(cid), PutSync(publisher, cid)]
  }

  function EventFor(a: Assignment, i: nat, err: Option<AdIngestState>): Event
    requires i < |a.adInfos|
  {
    Event(a.publisher, a.adInfos[0].cid, a.adInfos[i].cid, err)
  }

  /** A turn that first marks advertisement i and announces it, and then goes on as f. */
  function MarkThen(a: Assignment, i: nat, f: Finish): (r: Finish)
    requires i < |a.adInfos|
    ensures r.values == f.values && r.left == f.left
  {
    f.(events := [EventFor(a, i, None)] + f.events, writes := MarkWrites(a.publisher, a.adInfos[i].cid) + f.writes)
  }

  ghost predicate RemovedWithin(ads: seq<AdInfo>, n: int, ctx: ContextID) {
    exists j :: 0 <= j < n && j < |ads| && ads[j].ad.isRm && ads[j].ad.contextID == ctx
  }

  /** A newer advertisement of the assignment removes the context of advertisement i. */
  ghost predicate Redundant(ads: seq<AdInfo>, i: int) {
    0 <= i < |ads| && RemovedWithin(ads, i, ads[i].ad.contextID)
  }

  /** Number of advertisements newer than the newest processed one. */
  function SplitAt(ads: seq<AdInfo>, ds: Datastore): (n: nat)
    ensures n <= |ads|
    ensures n < |ads| ==> Done(ds, ads[n].cid)
    ensures forall i :: 0 <= i < n ==> !Done(ds, ads[i].cid)
  {
    if ads == [] || Done(ds, ads[0].cid) then 0 else 1 + SplitAt(ads[1..], ds)
  }

  /** Process advertisements i-1 down to 0: a redundant one is only marked, any other is ingested and then
      marked, and the first error that is not permanent ends the turn. */
  ghost function Process(a: Assignment, i: nat, env: seq<Attempt>, values: ValueStore): (f: Finish)
    requires i <= |a.adInfos| <= |env|
    ensures f.left <= i
  {
    if i == 0 then Finish(values, [], [], 0)
    else if Redundant(a.adInfos, i - 1) then MarkThen(a, i - 1, Process(a, i - 1, env, values))
    else
      var (values', err) := IngestAd(values, a.adInfos[i - 1].ad, env[i - 1]);
      if Retained(err) then Finish(values', [EventFor(a, i - 1, err)], [], i)
      else MarkThen(a, i - 1, Process(a, i - 1, env, values'))
  }

  ghost function WorkerTurn(a: Assignment, env: seq<Attempt>, ds: Datastore, values: ValueStore): Finish
    requires |a.adInfos| <= |env|
  {
    Process(a, SplitAt(a.adInfos, ds), env, values)
  }

  // ---------- Eliding removed advertisements preserves meaning ----------

  /** The reference: ingest advertisements i-1 down to k, skipping none and stopping at no error. */
  ghost function IngestEvery(ads: seq<AdInfo>, env: seq<Attempt>, i: nat, k: nat, values: ValueStore): ValueStore
    requires k <= i <= |ads| <= |env|
  {
    if i == k then values
    else IngestEvery(ads, env, i - 1, k, IngestAd(values, ads[i - 1].ad, env[i - 1]).0)
  }

  /** How far the reference runs: it, too, attempts the advertisement that stopped the worker. */
  ghost function Reference(a: Assignment, env: seq<Attempt>, i: nat, left: nat, values: ValueStore): ValueStore
    requires left <= i <= |a.adInfos| <= |env|
  {
    IngestEvery(a.adInfos, env, i, if left == 0 then 0 else left - 1, values)
  }

  /** The stores agree on this key, unless one of the n newest advertisements removes its context. */
  ghost predicate AgreeAt(a: Assignment, n: nat, key: ContextKey, v1: ValueStore, v2: ValueStore) {
    || (key.provider == a.provider && RemovedWithin(a.adInfos, n, key.contextID))
    || Lookup(v1, key) == Lookup(v2, key)
  }

  /** One advertisement, which takes the worker's store from v1 to w1 and the reference's from v2 to w2. */
  lemma AgreementStep(a: Assignment, i: nat, attempt: Attempt, key: ContextKey, v1: ValueStore, v2: ValueStore,
                      w1: ValueStore, err: Option<AdIngestState>, w2: ValueStore)
    requires i < |a.adInfos| && AllFrom(a.adInfos, a.provider)
    requires AgreeAt(a, i + 1, key, v1, v2)
    requires IngestAd(v1, a.adInfos[i].ad, attempt) == (w1, err) && IngestAd(v2, a.adInfos[i].ad, attempt).0 == w2
    ensures Redundant(a.adInfos, i) ==> AgreeAt(a, i, key, v1, w2)
    ensures !Redundant(a.adInfos, i) && !Retained(err) ==> AgreeAt(a, i, key, w1, w2)
    ensures !Redundant(a.adInfos, i) ==> AgreeAt(a, i + 1, key, w1, w2)
  {
    var ads, ad := a.adInfos, a.adInfos[i].ad;
    if ad.isRm {
      assert RemovedWithin(ads, i + 1, ad.contextID);
    }
    assert RemovedWithin(ads, i, key.contextID) ==> RemovedWithin(ads, i + 1, key.contextID);
    assert ad.contextID != key.contextID || !ad.isRm ==>
      (RemovedWithin(ads, i + 1, key.contextID) <==> RemovedWithin(ads, i, key.contextID));
  }

  lemma ReferenceAttempts(a: Assignment, env: seq<Attempt>, i: nat, values: ValueStore)
    requires 0 < i <= |a.adInfos| <= |env|
    ensures Reference(a, env, i, i, values) == IngestAd(values, a.adInfos[i - 1].ad, env[i - 1]).0
  {
    var next := IngestAd(values, a.adInfos[i - 1].ad, env[i - 1]).0;
    assert IngestEvery(a.adInfos, env, i - 1, i - 1, next) == next;
  }

  lemma ReferenceGoesOn(a: Assignment, env: seq<Attempt>, i: nat, left: nat, values: ValueStore)
    requires left < i <= |a.adInfos| <= |env|
    ensures Reference(a, env, i, left, values)
         == Reference(a, env, i - 1, left, IngestAd(values, a.adInfos[i - 1].ad, env[i - 1]).0)
  {
  }

  /** A turn that gets past advertisement i - 1, and goes on with this store. */
  lemma ProcessGoesOn(a: Assignment, i: nat, env: seq<Attempt>, values: ValueStore) returns (next: ValueStore)
    requires 0 < i <= |a.adInfos| <= |env|
    requires Redundant(a.adInfos, i - 1) || !Retained(IngestAd(values, a.adInfos[i - 1].ad, env[i - 1]).1)
    ensures next == if Redundant(a.adInfos, i - 1) then values else IngestAd(values, a.adInfos[i - 1].ad, env[i - 1]).0
    ensures var f, g := Process(a, i, env, values), Process(a, i - 1, env, next);
            f.left == g.left && f.values == g.values
  {
    next := if Redundant(a.adInfos, i - 1) then values else IngestAd(values, a.adInfos[i - 1].ad, env[i - 1]).0;
  }

  lemma {:induction false} ElisionAgreesAt(a: Assignment, i: nat, env: seq<Attempt>, values: ValueStore,
                                           reference: ValueStore, key: ContextKey)
    requires i <= |a.adInfos| <= |env| && AllFrom(a.adInfos, a.provider)
    requires AgreeAt(a, i, key, values, reference)
    ensures var f := Process(a, i, env, values);
            AgreeAt(a, f.left, key, f.values, Reference(a, env, i, f.left, reference))
    decreases i
  {
    if i > 0 {
      var k := i - 1;
      var reference' := IngestAd(reference, a.adInfos[k].ad, env[k]).0;
      var (values', err) := IngestAd(values, a.adInfos[k].ad, env[k]);
      AgreementStep(a, k, env[k], key, values, reference, values', err, reference');
      if Redundant(a.adInfos, k) || !Retained(err) {
        var next := ProcessGoesOn(a, i, env, values);
        ElisionAgreesAt(a, k, env, next, reference', key);
        ReferenceGoesOn(a, env, i, Process(a, k, env, next).left, reference);
      } else {
        ReferenceAttempts(a, env, i, reference);
      }
    }
  }

  /** A turn, whether it completes or stops early, leaves the same content as the reference under every context
      that has no removal among the advertisements it left; if it left none, the two stores are equal. */
  lemma ElisionPreservesMeaning(a: Assignment, env: seq<Attempt>, ds: Datastore, values: ValueStore)
    requires |a.adInfos| <= |env| && AllFrom(a.adInfos, a.provider)
    ensures var f := WorkerTurn(a, env, ds, values);
            var reference := Reference(a, env, SplitAt(a.adInfos, ds), f.left, values);
            && (forall key :: AgreeAt(a, f.left, key, f.values, reference))
            && (f.left == 0 ==> f.values == reference)
  {
    var n := SplitAt(a.adInfos, ds);
    var f := WorkerTurn(a, env, ds, values);
    var reference := Reference(a, env, n, f.left, values);
    forall key ensures AgreeAt(a, f.left, key, f.values, reference) {
      ElisionAgreesAt(a, n, env, values, values, key);
    }
    if f.left == 0 {
      forall key ensures Lookup(f.values, key) == Lookup(reference, key) {
        assert AgreeAt(a, 0, key, f.values, reference);
      }
      EqualLookupsEqualStores(f.values, reference);
    }
  }

  /** The context is removed within the same advertisements when newer ones come in front of them. */
  lemma RemovedBehindNewer(newer: seq<AdInfo>, ads: seq<AdInfo>, n: nat, ctx: ContextID)
    requires n <= |ads| && RemovedWithin(ads, n, ctx)
    ensures RemovedWithin(newer + ads, |newer| + n, ctx)
  {
    var j :| 0 <= j < n && j < |ads| && ads[j].ad.isRm && ads[j].ad.contextID == ctx;
    assert (newer + ads)[|newer| + j] == ads[j];
  }

  /** A turn over the advertisements of the turns before and newer ones staged in front of them. */
  datatype Turn = Turn(newer: seq<AdInfo>, env: seq<Attempt>)

  /** Where a row of turns stands: the assignment last worked on, how many of its advertisements are left, and the
      stores that the worker and the reference have come to. */
  datatype Standing = Standing(a: Assignment, left: nat, values: ValueStore, reference: ValueStore)

  function Grown(a: Assignment, newer: seq<AdInfo>): Assignment {
    a.(adInfos := newer + a.adInfos)
  }

  ghost predicate Possible(a: Assignment, turns: seq<Turn>)
    decreases |turns|
  {
    turns == [] ||
    var b := Grown(a, turns[0].newer);
    AllFrom(b.adInfos, b.provider) && |b.adInfos| <= |turns[0].env| && Possible(b, turns[1..])
  }

  /** One turn from a standing: it begins at the oldest advertisement left (`LaterTurnResumesBehindNewer`). The
      reference, which skips nothing, attempts in every turn what the worker had before it and did not leave, and what
      stopped it. */
  ghost function AfterTurn(s: Standing, turn: Turn): Standing
    requires s.left <= |s.a.adInfos| && Possible(s.a, [turn])
  {
    var b, i := Grown(s.a, turn.newer), |turn.newer| + s.left;
    var f := Process(b, i, turn.env, s.values);
    Standing(b, f.left, f.values, Reference(b, turn.env, i, f.left, s.reference))
  }

  ghost function AfterTurns(s: Standing, turns: seq<Turn>): Standing
    requires s.left <= |s.a.adInfos| && Possible(s.a, turns)
    decreases |turns|
  {
    if turns == [] then s else AfterTurns(AfterTurn(s, turns[0]), turns[1..])
  }

  lemma {:induction false} TurnsAgreeAt(s: Standing, turns: seq<Turn>, key: ContextKey)
    requires s.left <= |s.a.adInfos| && Possible(s.a, turns) && AgreeAt(s.a, s.left, key, s.values, s.reference)
    ensures var t := AfterTurns(s, turns);
            AgreeAt(t.a, t.left, key, t.values, t.reference)
    decreases |turns|
  {
    if turns != [] {
      var newer := turns[0].newer;
      if RemovedWithin(s.a.adInfos, s.left, key.contextID) {
        RemovedBehindNewer(newer, s.a.adInfos, s.left, key.contextID);
      }
      ElisionAgreesAt(Grown(s.a, newer), |newer| + s.left, turns[0].env, s.values, s.reference, key);
      TurnsAgreeAt(AfterTurn(s, turns[0]), turns[1..], key);
    }
  }

  /** The same across any number of turns that stop early and go on later, with newer advertisements coming in between:
      the stores agree on every context that has no removal among the advertisements still left, and they are equal
      whenever none is left. */
  lemma ElisionAcrossTurns(a: Assignment, values: ValueStore, turns: seq<Turn>)
    requires a.adInfos == [] && Possible(a, turns)
    ensures var t := AfterTurns(Standing(a, 0, values, values), turns);
            && (forall key :: AgreeAt(t.a, t.left, key, t.values, t.reference))
            && (t.left == 0 ==> t.values == t.reference)
  {
    var s := Standing(a, 0, values, values);
    var t := AfterTurns(s, turns);
    forall key ensures AgreeAt(t.a, t.left, key, t.values, t.reference) {
      TurnsAgreeAt(s, turns, key);
    }
    if t.left == 0 {
      forall key ensures Lookup(t.values, key) == Lookup(t.reference, key) {
        assert AgreeAt(t.a, 0, key, t.values, t.reference);
      }
      EqualLookupsEqualStores(t.values, t.reference);
    }
  }

  // ---------- The trace of a turn ----------

  /** The writes that mark advertisements hi-1 down to lo. */
  function MarksDown(a: Assignment, hi: nat, lo: nat): (ws: seq<Write>)
    requires lo <= hi <= |a.adInfos|
    ensures |ws| == 3 * (hi - lo)
  {
    if hi == lo then []
    else MarkWrites(a.publisher, a.adInfos[hi - 1].cid) + MarksDown(a, hi - 1, lo)
  }

  /** The success events of advertisements hi-1 down to lo. */
  function SuccessesDown(a: Assignment, hi: nat, lo: nat): (es: seq<Event>)
    requires lo <= hi <= |a.adInfos|
    ensures |es| == hi - lo
    ensures forall m :: 0 <= m < |es| ==> es[m] == EventFor(a, hi - 1 - m, None)
  {
    seq(hi - lo, m requires 0 <= m < hi - lo => EventFor(a, hi - 1 - m, None))
  }

  /** What a turn over the i newest advertisements leaves behind. */
  ghost predicate Traces(a: Assignment, i: nat, f: Finish)
    requires f.left <= i <= |a.adInfos|
  {
    && f.writes == MarksDown(a, i, f.left)
    && |f.events| == i - f.left + (if f.left == 0 then 0 else 1)
    && f.events[..i - f.left] == SuccessesDown(a, i, f.left)
    && (f.left > 0 ==> var last := f.events[i - f.left];
          last == EventFor(a, f.left - 1, last.err) && Retained(last.err))
  }

  lemma TraceNext(a: Assignment, k: nat, g: Finish)
    requires g.left <= k < |a.adInfos| && Traces(a, k, g)
    ensures Traces(a, k + 1, MarkThen(a, k, g))
  {
    var f := MarkThen(a, k, g);
    assert f.events[..k + 1 - f.left] == [EventFor(a, k, None)] + g.events[..k - f.left];
  }

  /** Each advertisement from i-1 down to `left` is marked once, in that order; each is announced by one success
      event, in the same order; and if any are left, one error event for the oldest of them comes last. */
  lemma {:induction false} TurnTrace(a: Assignment, i: nat, env: seq<Attempt>, values: ValueStore)
    requires i <= |a.adInfos| <= |env|
    ensures Traces(a, i, Process(a, i, env, values))
    decreases i
  {
    if i > 0 {
      var k := i - 1;
      var (values', err) := IngestAd(values, a.adInfos[k].ad, env[k]);
      if Redundant(a.adInfos, k) || !Retained(err) {
        var rest := if Redundant(a.adInfos, k) then values else values';
        TurnTrace(a, k, env, rest);
        TraceNext(a, k, Process(a, k, env, rest));
      }
    }
  }

  lemma {:induction false} TurnGetsPast(a: Assignment, i: nat, env: seq<Attempt>, values: ValueStore, j: nat)
    requires i <= |a.adInfos| <= |env| && Process(a, i, env, values).left <= j < i
    ensures Redundant(a.adInfos, j) || !Stops(a.adInfos[j].ad, env[j])
    decreases i
  {
    RetainedIffStops(values, a.adInfos[i - 1].ad, env[i - 1]);
    if j < i - 1 {
      var next := ProcessGoesOn(a, i, env, values);
      TurnGetsPast(a, i - 1, env, next, j);
    }
  }

  lemma {:induction false} TurnStopsBy(a: Assignment, i: nat, env: seq<Attempt>, values: ValueStore)
    requires i <= |a.adInfos| <= |env| && Process(a, i, env, values).left > 0
    ensures var f := Process(a, i, env, values);
            && !Redundant(a.adInfos, f.left - 1) && f.events != [] && f.events[|f.events| - 1].err.Some?
            && StopsBy(a.adInfos[f.left - 1].ad, env[f.left - 1], f.events[|f.events| - 1].err.value)
    decreases i
  {
    var k := i - 1;
    RetainedIffStops(values, a.adInfos[k].ad, env[k]);
    if Redundant(a.adInfos, k) || !Retained(IngestAd(values, a.adInfos[k].ad, env[k]).1) {
      var next := ProcessGoesOn(a, i, env, values);
      TurnStopsBy(a, k, env, next);
      var f, g := Process(a, i, env, values), Process(a, k, env, next);
      assert f.events[|f.events| - 1] == g.events[|g.events| - 1];
    }
  }

  /** Where a turn stops, whatever is in the value store: at the oldest advertisement that is not redundant and whose
      attempt ends a turn, with the error that it ends with in the last event. */
  lemma TurnStopsAt(a: Assignment, env: seq<Attempt>, ds: Datastore, values: ValueStore)
    requires |a.adInfos| <= |env|
    ensures var f := WorkerTurn(a, env, ds, values);
            && (forall j | f.left <= j < SplitAt(a.adInfos, ds) ::
                  Redundant(a.adInfos, j) || !Stops(a.adInfos[j].ad, env[j]))
            && (f.left > 0 ==>
                  && !Redundant(a.adInfos, f.left - 1) && f.events != [] && f.events[|f.events| - 1].err.Some?
                  && StopsBy(a.adInfos[f.left - 1].ad, env[f.left - 1], f.events[|f.events| - 1].err.value))
  {
    var n, f := SplitAt(a.adInfos, ds), WorkerTurn(a, env, ds, values);
    forall j | f.left <= j < n ensures Redundant(a.adInfos, j) || !Stops(a.adInfos[j].ad, env[j]) {
      TurnGetsPast(a, n, env, values, j);
    }
    if f.left > 0 {
      TurnStopsBy(a, n, env, values);
    }
  }

  // ---------- The order of writes and events ----------

  datatype Action = Wrote(write: Write) | Sent(event: Event)

  /** Marking advertisement i and then announcing it. */
  function MarkActions(a: Assignment, i: nat): seq<Action>
    requires i < |a.adInfos|
  {
    var cid := a.adInfos[i].cid;
    [Wrote(PutProcessed(cid, true)), Wrote(DeleteBlock(cid)), Wrote(PutSync(a.publisher, cid)),
     Sent(EventFor(a, i, None))]
  }

  /** The actions of marking and announcing advertisements hi-1 down to lo. */
  function ActionsDown(a: Assignment, hi: nat, lo: nat): seq<Action>
    requires lo <= hi <= |a.adInfos|
  {
    if hi == lo then [] else MarkActions(a, hi - 1) + ActionsDown(a, hi - 1, lo)
  }

  lemma {:induction false} ActionsGrow(a: Assignment, hi: nat, lo: nat)
    requires 0 < lo <= hi <= |a.adInfos|
    ensures ActionsDown(a, hi, lo - 1) == ActionsDown(a, hi, lo) + MarkActions(a, lo - 1)
    decreases hi
  {
    if lo < hi {
      ActionsGrow(a, hi - 1, lo);
      Assoc(MarkActions(a, hi - 1), ActionsDown(a, hi - 1, lo), MarkActions(a, lo - 1));
    } else {
      assert MarkActions(a, lo - 1) + [] == [] + MarkActions(a, lo - 1);
    }
  }

  /** The actions of a turn over the i newest advertisements, of which it leaves f.left. */
  function TurnActions(a: Assignment, i: nat, f: Finish): seq<Action>
    requires f.left <= i <= |a.adInfos| && (f.left > 0 ==> f.events != [])
  {
    ActionsDown(a, i, f.left) + if f.left == 0 then [] else [Sent(f.events[|f.events| - 1])]
  }

  /** A turn that leaves some has sent an event, the last of which is an error. */
  lemma EventIfLeft(a: Assignment, i: nat, env: seq<Attempt>, values: ValueStore)
    requires i <= |a.adInfos| <= |env|
    ensures var f := Process(a, i, env, values);
            f.left > 0 ==> f.events != [] && Retained(f.events[|f.events| - 1].err)
  {
    TurnTrace(a, i, env, values);
  }

  // ---------- Crash consistency ----------

  /** If an advertisement is processed, then so are all older ones. */
  ghost predicate OlderProcessed(ads: seq<AdInfo>, ds: Datastore) {
    forall i, j :: 0 <= i <= j < |ads| && Done(ds, ads[i].cid) ==> Done(ds, ads[j].cid)
  }

  /** Exactly the advertisements from index c on are processed. */
  ghost predicate Frontier(ads: seq<AdInfo>, ds: Datastore, c: int) {
    0 <= c <= |ads| && forall i :: 0 <= i < |ads| ==> (Done(ds, ads[i].cid) <==> c <= i)
  }

  lemma SplitIsFrontier(ads: seq<AdInfo>, ds: Datastore, c: nat)
    requires c <= |ads|
    ensures OlderProcessed(ads, ds) ==> Frontier(ads, ds, SplitAt(ads, ds))
    ensures Frontier(ads, ds, c) ==> OlderProcessed(ads, ds) && SplitAt(ads, ds) == c
  {
    var n := SplitAt(ads, ds);
    if Frontier(ads, ds, c) {
      assert n < |ads| ==> c <= n;
      assert c < |ads| ==> Done(ds, ads[c].cid);
    }
  }

  lemma {:induction false} ReplayConcat(ds: Datastore, xs: seq<Write>, ys: seq<Write>)
    ensures Replay(ds, xs + ys) == Replay(Replay(ds, xs), ys)
  {
    if ys == [] {
      assert xs + ys == xs;
    } else {
      var last := |ys| - 1;
      assert (xs + ys)[..|xs + ys| - 1] == xs + ys[..last];
      ReplayConcat(ds, xs, ys[..last]);
    }
  }

  lemma ReplayMark(ds: Datastore, publisher: PeerID, cid: Cid)
    ensures Replay(ds, MarkWrites(publisher, cid)) ==
            Apply(Apply(Apply(ds, PutProcessed(cid, true)), DeleteBlock(cid)), PutSync(publisher, cid))
    ensures Replay(ds, MarkWrites(publisher, cid)[..2]) == Apply(Apply(ds, PutProcessed(cid, true)), DeleteBlock(cid))
    ensures Replay(ds, MarkWrites(publisher, cid)[..1]) == Apply(ds, PutProcessed(cid, true))
  {
    var w0, w1, w2 := PutProcessed(cid, true), DeleteBlock(cid), PutSync(publisher, cid);
    ReplayAppend(ds, [], w0);
    ReplayAppend(ds, [w0], w1);
    ReplayAppend(ds, [w0, w1], w2);
    assert [] + [w0] == [w0] == MarkWrites(publisher, cid)[..1];
    assert [w0] + [w1] == [w0, w1] == MarkWrites(publisher, cid)[..2];
    assert [w0, w1] + [w2] == MarkWrites(publisher, cid);
  }

  /** `d` is the datastore after the first m writes of marking advertisements hi-1 downwards in `ds`: the frontier
      moves with the first write of each mark and the latest-sync key follows with the third. */
  ghost predicate CrashState(a: Assignment, hi: nat, ds: Datastore, m: nat, d: Datastore)
    requires m <= 3 * hi && hi <= |a.adInfos|
  {
    && Frontier(a.adInfos, d, hi - (m + 2) / 3)
    && d.latest == if m < 3 then ds.latest else ds.latest[a.publisher := a.adInfos[hi - m / 3].cid]
  }

  lemma CrashInMark(a: Assignment, hi: nat, ds: Datastore, m: nat)
    requires 0 < hi <= |a.adInfos| && DistinctCids(a.adInfos) && Frontier(a.adInfos, ds, hi)
    requires 0 < m <= 3
    ensures CrashState(a, hi, ds, m, Replay(ds, MarkWrites(a.publisher, a.adInfos[hi - 1].cid)[..m]))
  {
    var ws := MarkWrites(a.publisher, a.adInfos[hi - 1].cid);
    assert ws[..3] == ws;
    ReplayMark(ds, a.publisher, a.adInfos[hi - 1].cid);
  }

  lemma CrashAfterMark(a: Assignment, hi: nat, ds: Datastore, m: nat, marked: Datastore, d: Datastore)
    requires 0 < hi <= |a.adInfos| && 3 <= m <= 3 * hi
    requires CrashState(a, hi, ds, 3, marked) && CrashState(a, hi - 1, marked, m - 3, d)
    ensures CrashState(a, hi, ds, m, d)
  {
    assert (m - 3) / 3 == m / 3 - 1 && (m - 3 + 2) / 3 == (m + 2) / 3 - 1;
  }

  lemma FirstMarks(a: Assignment, hi: nat, lo: nat, m: nat)
    requires lo < hi <= |a.adInfos| && m <= 3 * (hi - lo)
    ensures var first := MarkWrites(a.publisher, a.adInfos[hi - 1].cid);
            MarksDown(a, hi, lo)[..m] == if m < 3 then first[..m] else first[..3] + MarksDown(a, hi - 1, lo)[..m - 3]
  {
  }

  lemma {:induction false} CrashPoint(a: Assignment, hi: nat, lo: nat, ds: Datastore, m: nat)
    requires lo <= hi <= |a.adInfos| && DistinctCids(a.adInfos) && Frontier(a.adInfos, ds, hi)
    requires m <= 3 * (hi - lo)
    ensures CrashState(a, hi, ds, m, Replay(ds, MarksDown(a, hi, lo)[..m]))
    decreases hi
  {
    if 0 < m {
      var first := MarkWrites(a.publisher, a.adInfos[hi - 1].cid)[..if m < 3 then m else 3];
      FirstMarks(a, hi, lo, m);
      CrashInMark(a, hi, ds, |first|);
      if m >= 3 {
        var rest := MarksDown(a, hi - 1, lo)[..m - 3];
        var marked := Replay(ds, first);
        ReplayConcat(ds, first, rest);
        CrashPoint(a, hi - 1, lo, marked, m - 3);
        CrashAfterMark(a, hi, ds, m, marked, Replay(marked, rest));
      }
    }
  }

  lemma CrashAtEnd(a: Assignment, hi: nat, lo: nat, ds: Datastore)
    requires lo <= hi <= |a.adInfos| && DistinctCids(a.adInfos) && Frontier(a.adInfos, ds, hi)
    ensures var d := Replay(ds, MarksDown(a, hi, lo));
            && Frontier(a.adInfos, d, lo)
            && d.latest == if lo == hi then ds.latest else ds.latest[a.publisher := a.adInfos[lo].cid]
  {
    var ws := MarksDown(a, hi, lo);
    assert ws[..|ws|] == ws;
    CrashPoint(a, hi, lo, ds, |ws|);
  }

  /** A process that dies after any number m of the writes of a turn leaves a datastore in which processed implies
      all older processed. */
  lemma CrashKeepsOlderProcessed(a: Assignment, env: seq<Attempt>, ds: Datastore, values: ValueStore, m: nat)
    requires |a.adInfos| <= |env| && DistinctCids(a.adInfos) && OlderProcessed(a.adInfos, ds)
    requires m <= |WorkerTurn(a, env, ds, values).writes|
    ensures OlderProcessed(a.adInfos, Replay(ds, WorkerTurn(a, env, ds, values).writes[..m]))
  {
    var n := SplitAt(a.adInfos, ds);
    var f := WorkerTurn(a, env, ds, values);
    SplitIsFrontier(a.adInfos, ds, n);
    TurnTrace(a, n, env, values);
    CrashPoint(a, n, f.left, ds, m);
    SplitIsFrontier(a.adInfos, Replay(ds, f.writes[..m]), n - (m + 2) / 3);
  }

  /** A turn as a whole leaves processed exactly the advertisements from `left` on, and latest-sync names the last
      one marked. */
  lemma TurnAdvancesFrontier(a: Assignment, env: seq<Attempt>, ds: Datastore, values: ValueStore)
    requires |a.adInfos| <= |env| && DistinctCids(a.adInfos) && OlderProcessed(a.adInfos, ds)
    ensures var f := WorkerTurn(a, env, ds, values);
            var d := Replay(ds, f.writes);
            && Frontier(a.adInfos, d, f.left)
            && d.latest == (if f.left == SplitAt(a.adInfos, ds) then ds.latest
                            else ds.latest[a.publisher := a.adInfos[f.left].cid])
  {
    var n := SplitAt(a.adInfos, ds);
    var f := WorkerTurn(a, env, ds, values);
    SplitIsFrontier(a.adInfos, ds, n);
    TurnTrace(a, n, env, values);
    CrashAtEnd(a, n, f.left, ds);
  }

  ghost predicate CidWithin(ads: seq<AdInfo>, lo: nat, hi: nat, c: Cid) {
    exists j :: lo <= j < hi && j < |ads| && ads[j].cid == c
  }

  /** What the marks of advertisements hi-1 down to lo change for any one advertisement, also one of another chain. */
  lemma {:induction false} MarksChange(a: Assignment, hi: nat, lo: nat, ds: Datastore, c: Cid)
    requires lo <= hi <= |a.adInfos|
    ensures var d := Replay(ds, MarksDown(a, hi, lo));
            && (Done(d, c) <==> Done(ds, c) || CidWithin(a.adInfos, lo, hi, c))
            && (c in d.blocks <==> c in ds.blocks && !CidWithin(a.adInfos, lo, hi, c))
            && (c in d.blocks ==> d.blocks[c] == ds.blocks[c])
    decreases hi
  {
    if lo < hi {
      var k := hi - 1;
      var marked := Replay(ds, MarkWrites(a.publisher, a.adInfos[k].cid));
      ReplayMark(ds, a.publisher, a.adInfos[k].cid);
      ReplayConcat(ds, MarkWrites(a.publisher, a.adInfos[k].cid), MarksDown(a, k, lo));
      MarksChange(a, k, lo, marked, c);
      assert CidWithin(a.adInfos, lo, hi, c) <==> CidWithin(a.adInfos, lo, k, c) || a.adInfos[k].cid == c;
    }
  }

  /** A turn marks the advertisements that it gets past as processed and deletes their blocks, and no others. */
  lemma TurnMarksOnly(a: Assignment, env: seq<Attempt>, ds: Datastore, values: ValueStore, c: Cid)
    requires |a.adInfos| <= |env|
    ensures var f, n := WorkerTurn(a, env, ds, values), SplitAt(a.adInfos, ds);
            var d := Replay(ds, f.writes);
            && (Done(d, c) <==> Done(ds, c) || CidWithin(a.adInfos, f.left, n, c))
            && (c in d.blocks <==> c in ds.blocks && !CidWithin(a.adInfos, f.left, n, c))
            && (c in d.blocks ==> d.blocks[c] == ds.blocks[c])
  {
    TurnTrace(a, SplitAt(a.adInfos, ds), env, values);
    MarksChange(a, SplitAt(a.adInfos, ds), WorkerTurn(a, env, ds, values).left, ds, c);
  }

  /** After a turn that failed, a later turn over the same advertisements starts at the one that failed. */
  lemma LaterTurnResumes(a: Assignment, env: seq<Attempt>, ds: Datastore, values: ValueStore)
    requires |a.adInfos| <= |env| && DistinctCids(a.adInfos) && OlderProcessed(a.adInfos, ds)
    ensures var f := WorkerTurn(a, env, ds, values);
            SplitAt(a.adInfos, Replay(ds, f.writes)) == f.left
  {
    var f := WorkerTurn(a, env, ds, values);
    TurnAdvancesFrontier(a, env, ds, values);
    SplitIsFrontier(a.adInfos, Replay(ds, f.writes), f.left);
  }

  lemma {:induction false} SplitBehindNewer(newer: seq<AdInfo>, ads: seq<AdInfo>, ds: Datastore)
    requires forall i :: 0 <= i < |newer| ==> !Done(ds, newer[i].cid)
    ensures SplitAt(newer + ads, ds) == |newer| + SplitAt(ads, ds)
  {
    if newer == [] {
      assert newer + ads == ads;
    } else {
      assert (newer + ads)[1..] == newer[1..] + ads;
      SplitBehindNewer(newer[1..], ads, ds);
    }
  }

  /** With newer advertisements in front of them, too: this is where `ElisionAcrossTurns` goes on. */
  lemma LaterTurnResumesBehindNewer(a: Assignment, env: seq<Attempt>, ds: Datastore, values: ValueStore,
                                    newer: seq<AdInfo>)
    requires |a.adInfos| <= |env| && DistinctCids(a.adInfos) && OlderProcessed(a.adInfos, ds)
    requires var d := Replay(ds, WorkerTurn(a, env, ds, values).writes);
             forall i :: 0 <= i < |newer| ==> !Done(d, newer[i].cid)
    ensures var f := WorkerTurn(a, env, ds, values);
            SplitAt(newer + a.adInfos, Replay(ds, f.writes)) == |newer| + f.left
  {
    LaterTurnResumes(a, env, ds, values);
    SplitBehindNewer(newer, a.adInfos, Replay(ds, WorkerTurn(a, env, ds, values).writes));
  }

  function Unmarks(ads: seq<AdInfo>): (ws: seq<Write>) {
    seq(|ads|, i requires 0 <= i < |ads| => PutProcessed(ads[i].cid, false))
  }

  /** A resync unmarks the advertisements of a chain from the newest on; every prefix of that pass keeps
      the implication, too. */
  lemma {:induction false} UnmarkingKeepsOlderProcessed(ads: seq<AdInfo>, ds: Datastore, m: nat)
    requires m <= |ads| && DistinctCids(ads) && OlderProcessed(ads, ds)
    ensures var d := Replay(ds, Unmarks(ads)[..m]);
            && OlderProcessed(ads, d)
            && forall i :: 0 <= i < |ads| ==> (Done(d, ads[i].cid) <==> m <= i && Done(ds, ads[i].cid))
  {
    if m > 0 {
      UnmarkingKeepsOlderProcessed(ads, ds, m - 1);
      assert Unmarks(ads)[..m][..m - 1] == Unmarks(ads)[..m - 1];
    }
  }

  // ---------- Releasing a waiter ----------

  /** The condition on which a call to Sync that waits for head c stops waiting. */
  predicate Releases(e: Event, c: Cid) {
    e.adCid == c || (e.err.Some? && e.headAdCid == c)
  }

  /** The k-th event of a turn is about the k-th oldest advertisement, a success except if it is the one that the turn
      stops at. */
  lemma EventOf(a: Assignment, n: nat, f: Finish, k: nat)
    requires f.left <= n <= |a.adInfos| && Traces(a, n, f) && k < |f.events|
    ensures k < n && f.events[k] == EventFor(a, n - 1 - k, f.events[k].err)
    ensures f.events[k].err.Some? <==> k == n - f.left
  {
    if k < n - f.left {
      assert f.events[..n - f.left][k] == EventFor(a, n - 1 - k, None);
    }
  }

  /** A turn with work to do releases the waiters for its head with its last event and with no earlier one. */
  lemma LastEventReleasesWaiter(a: Assignment, env: seq<Attempt>, ds: Datastore, values: ValueStore, k: nat)
    requires |a.adInfos| <= |env| && DistinctCids(a.adInfos) && SplitAt(a.adInfos, ds) > 0
    ensures var sent := WorkerTurn(a, env, ds, values).events;
            && |sent| > 0
            && (k < |sent| ==> (Releases(sent[k], a.adInfos[0].cid) <==> k == |sent| - 1))
  {
    var n := SplitAt(a.adInfos, ds);
    var f := WorkerTurn(a, env, ds, values);
    TurnTrace(a, n, env, values);
    if k < |f.events| {
      EventOf(a, n, f, k);
    }
  }

  /** A waiter for an advertisement behind the head, whose own assignment was superseded in the cell, is released by the
      turn exactly if the turn gets as far as that advertisement: whoever waits for a newer one than the one that fails
      goes on waiting. */
  lemma TurnReleasesWaiterIff(a: Assignment, env: seq<Attempt>, ds: Datastore, values: ValueStore, j: nat)
    requires |a.adInfos| <= |env| && DistinctCids(a.adInfos) && 0 < j < SplitAt(a.adInfos, ds)
    ensures var f := WorkerTurn(a, env, ds, values);
            (exists k :: 0 <= k < |f.events| && Releases(f.events[k], a.adInfos[j].cid)) <==> f.left <= j + 1
  {
    var n := SplitAt(a.adInfos, ds);
    var f := WorkerTurn(a, env, ds, values);
    TurnTrace(a, n, env, values);
    forall k: nat | k < |f.events| ensures Releases(f.events[k], a.adInfos[j].cid) <==> k == n - 1 - j {
      EventOf(a, n, f, k);
    }
    if f.left <= j + 1 {
      assert Releases(f.events[n - 1 - j], a.adInfos[j].cid);
    }
  }
}
