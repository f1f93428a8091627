/** From a turn of a worker to whoever waits for it: what its events say, in which order they are sent with the writes,
    and on which channels they stand in the end. */
module Notify {
  import opened Wrappers
  import opened Types
  import opened Advertisements
  import opened Worker
  import opened Listeners

  /** The k-th event of a turn comes from the publisher of the assignment, and names its head and the k-th oldest of the
      unprocessed advertisements. It is an error exactly if it is the last one of a turn that leaves some. */
  lemma EventFields(a: Assignment, env: seq<Attempt>, ds: Datastore, values: ValueStore, k: nat)
    requires |a.adInfos| <= |env| && k < |WorkerTurn(a, env, ds, values).events|
    ensures var n, f := SplitAt(a.adInfos, ds), WorkerTurn(a, env, ds, values);
            var e := f.events[k];
            && k < n && |f.events| == n - f.left + (if f.left > 0 then 1 else 0)
            && e.publisher == a.publisher && e.headAdCid == a.adInfos[0].cid && e.adCid == a.adInfos[n - 1 - k].cid
            && (e.err.Some? <==> f.left > 0 && k == |f.events| - 1)
  {
    var n, f := SplitAt(a.adInfos, ds), WorkerTurn(a, env, ds, values);
    TurnTrace(a, n, env, values);
    EventOf(a, n, f, k);
  }

  // ---------- Writes before events ----------

  function SentIn(actions: seq<Action>): seq<Event> {
    if actions == [] then [] else
    var last := |actions| - 1;
    SentIn(actions[..last]) + if actions[last].Sent? then [actions[last].event] else []
  }

  function WrittenIn(actions: seq<Action>): seq<Write> {
    if actions == [] then [] else
    var last := |actions| - 1;
    WrittenIn(actions[..last]) + if actions[last].Wrote? then [actions[last].write] else []
  }

  lemma {:induction false} SentAppend(x: seq<Action>, y: seq<Action>)
    ensures SentIn(x + y) == SentIn(x) + SentIn(y) && WrittenIn(x + y) == WrittenIn(x) + WrittenIn(y)
  {
    if y == [] {
      assert x + y == x;
    } else {
      var last := |y| - 1;
      assert (x + y)[..|x + y| - 1] == x + y[..last];
      SentAppend(x, y[..last]);
    }
  }

  lemma OneAction(x: Action)
    ensures SentIn([x]) == if x.Sent? then [x.event] else []
    ensures WrittenIn([x]) == if x.Wrote? then [x.write] else []
  {
    assert [x][..0] == [] && SentIn([x][..0]) == [] && WrittenIn([x][..0]) == [];
  }

  lemma SentInMark(a: Assignment, i: nat)
    requires i < |a.adInfos|
    ensures SentIn(MarkActions(a, i)) == [EventFor(a, i, None)]
    ensures WrittenIn(MarkActions(a, i)) == MarkWrites(a.publisher, a.adInfos[i].cid)
  {
    var cid := a.adInfos[i].cid;
    var w0, w1, w2 := Wrote(PutProcessed(cid, true)), Wrote(DeleteBlock(cid)), Wrote(PutSync(a.publisher, cid));
    OneAction(w0);
    OneAction(w1);
    OneAction(w2);
    OneAction(Sent(EventFor(a, i, None)));
    SentAppend([w0], [w1]);
    SentAppend([w0] + [w1], [w2]);
    SentAppend([w0] + [w1] + [w2], [Sent(EventFor(a, i, None))]);
    assert MarkActions(a, i) == [w0] + [w1] + [w2] + [Sent(EventFor(a, i, None))];
  }

  lemma {:induction false} SentInActionsDown(a: Assignment, hi: nat, lo: nat)
    requires lo <= hi <= |a.adInfos|
    ensures SentIn(ActionsDown(a, hi, lo)) == SuccessesDown(a, hi, lo)
    ensures WrittenIn(ActionsDown(a, hi, lo)) == MarksDown(a, hi, lo)
    decreases hi
  {
    if lo < hi {
      SentInActionsDown(a, hi - 1, lo);
      SentInMark(a, hi - 1);
      SentAppend(MarkActions(a, hi - 1), ActionsDown(a, hi - 1, lo));
      assert SuccessesDown(a, hi, lo) == [EventFor(a, hi - 1, None)] + SuccessesDown(a, hi - 1, lo);
    }
  }

  /** The actions of a turn are its events and its writes. */
  lemma ActionsAreEventsAndWrites(a: Assignment, env: seq<Attempt>, ds: Datastore, values: ValueStore)
    requires |a.adInfos| <= |env|
    ensures var n, f := SplitAt(a.adInfos, ds), WorkerTurn(a, env, ds, values);
            && (f.left > 0 ==> f.events != [])
            && SentIn(TurnActions(a, n, f)) == f.events && WrittenIn(TurnActions(a, n, f)) == f.writes
  {
    var n, f := SplitAt(a.adInfos, ds), WorkerTurn(a, env, ds, values);
    TurnTrace(a, n, env, values);
    SentInActionsDown(a, n, f.left);
    var last := if f.left == 0 then [] else [Sent(f.events[|f.events| - 1])];
    SentAppend(ActionsDown(a, n, f.left), last);
    assert f.left > 0 ==> last[..0] == [] && f.events == f.events[..n - f.left] + [f.events[n - f.left]];
  }

  /** The three writes of a mark come right before the k-th action, which announces that mark. */
  predicate JustMarked(publisher: PeerID, acts: seq<Action>, k: nat) {
    && 3 <= k < |acts| && acts[k].Sent?
    && var cid := acts[k].event.adCid;
       && acts[k - 3] == Wrote(PutProcessed(cid, true)) && acts[k - 2] == Wrote(DeleteBlock(cid))
       && acts[k - 1] == Wrote(PutSync(publisher, cid))
  }

  lemma {:induction false} MarkedBeforeSent(a: Assignment, hi: nat, lo: nat, k: nat)
    requires lo <= hi <= |a.adInfos| && k < |ActionsDown(a, hi, lo)| && ActionsDown(a, hi, lo)[k].Sent?
    ensures JustMarked(a.publisher, ActionsDown(a, hi, lo), k)
    decreases hi
  {
    if k >= 4 {
      var rest := ActionsDown(a, hi - 1, lo);
      assert ActionsDown(a, hi, lo) == MarkActions(a, hi - 1) + rest;
      MarkedBeforeSent(a, hi - 1, lo, k - 4);
    }
  }

  /** Whenever a turn announces an advertisement as processed, it has just made the three writes of its mark. */
  lemma MarkedBeforeAnnounced(a: Assignment, env: seq<Attempt>, ds: Datastore, values: ValueStore, k: nat)
    requires |a.adInfos| <= |env|
    requires var f := WorkerTurn(a, env, ds, values); f.left > 0 ==> f.events != []
    requires var acts := TurnActions(a, SplitAt(a.adInfos, ds), WorkerTurn(a, env, ds, values));
             k < |acts| && acts[k].Sent? && acts[k].event.err.None?
    ensures JustMarked(a.publisher, TurnActions(a, SplitAt(a.adInfos, ds), WorkerTurn(a, env, ds, values)), k)
  {
    var n, f := SplitAt(a.adInfos, ds), WorkerTurn(a, env, ds, values);
    EventIfLeft(a, n, env, values);
    assert k < |ActionsDown(a, n, f.left)|;
    MarkedBeforeSent(a, n, f.left, k);
  }

  // ---------- The channels ----------

  lemma {:induction false} AllHeard(events: seq<Event>, lists: Lists, ch: Chan, publisher: PeerID)
    requires forall e | e in events :: e.publisher == publisher
    ensures Heard(events, lists, ch) == if ch in ListOf(lists, publisher) then events else []
  {
    if events != [] {
      var last := |events| - 1;
      AllHeard(events[..last], lists, ch, publisher);
      assert events[last] in events && events == events[..last] + [events[last]];
    }
  }

  /** The events of a turn, distributed, stand on every channel listed for the publisher of the assignment, in order,
      and on no other one. With `Worker.LastEventReleasesWaiter`, the one that releases a waiter is among them. */
  method TurnIsHeard(hub: EventHub, a: Assignment, ghost env: seq<Attempt>, ghost ds: Datastore,
                     ghost values: ValueStore, events: seq<Event>)
    requires hub.Valid() && |a.adInfos| <= |env| && events == WorkerTurn(a, env, ds, values).events
    modifies hub`sent
    ensures hub.Valid()
    ensures forall p, ch | ch in ListOf(hub.Lists(), p) ::
      ch in hub.sent && hub.sent[ch] == old(hub.sent)[ch] + if p == a.publisher then events else []
  {
    hub.DistributeEvents(events);
    forall e | e in events ensures e.publisher == a.publisher {
      var k :| 0 <= k < |events| && events[k] == e;
      EventFields(a, env, ds, values, k);
    }
    forall p, ch | ch in ListOf(hub.Lists(), p)
      ensures hub.sent[ch] == old(hub.sent)[ch] + if p == a.publisher then events else []
    {
      AllHeard(events, hub.Lists(), ch, a.publisher);
    }
  }
}
