/** The expiry of providers by polling: what the history of one provider makes of it, and which intervals it is polled
    by when some providers have intervals of their own. */
module Expiry {
  import opened Wrappers
  import opened Types

  datatype Polling = Polling(interval: Time, retryAfter: Time, stopAfter: Time)

  /** A provider with a publisher, as polling sees it: removed, or present with the time of last contact, which is
      unknown at first. */
  datatype Tracked = Gone | Live(lastContact: Option<Time>, inactive: bool)

  function PollStep(polling: Polling, now: Time, p: Tracked): Tracked {
    if p.Gone? then Gone
    else if p.lastContact.None? then p.(lastContact := Some(now - polling.interval))
    else
      var noContact := now - p.lastContact.value;
      if noContact < polling.interval then p
      else if noContact - polling.interval >= polling.stopAfter then Gone
      else if noContact - polling.interval >= 2 * polling.retryAfter then p.(inactive := true)
      else p
  }

  /** What happens to a provider. A poll goes by the intervals that the loop uses for it. */
  datatype Event = Contact(time: Time) | Discovered(time: Time) | Poll(time: Time, polling: Polling)

  function Advance(p: Tracked, e: Event): Tracked {
    match e
    case Contact(t) => Live(Some(t), false)
    case Discovered(t) => Live(None, false)
    case Poll(t, polling) => PollStep(polling, t, p)
  }

  function Track(h: seq<Event>): Tracked {
    if h == [] then Live(None, false) else Advance(Track(h[..|h| - 1]), h[|h| - 1])
  }

  lemma TrackNext(h: seq<Event>, e: Event)
    ensures Track(h + [e]) == Advance(Track(h), e)
  {
    assert (h + [e])[..|h|] == h;
  }

  /** The time since when there has been no contact: that of the last contact, or if there was none since the
      provider was registered, the time of the first poll less its polling interval. */
  function SilentSince(h: seq<Event>): Option<Time> {
    if h == [] then None else
    match h[|h| - 1]
    case Contact(t) => Some(t)
    case Discovered(t) => None
    case Poll(t, polling) =>
      var before := SilentSince(h[..|h| - 1]);
      if before.Some? then before else Some(t - polling.interval)
  }

  predicate Polls(h: seq<Event>, i: nat) {
    i <= |h| && forall k | i <= k < |h| :: h[k].Poll?
  }

  datatype Limit = Removal | Inactivity

  function AtLeastZero(t: Time): Time {
    if t < 0 then 0 else t
  }

  /** How long a poll lets a provider be silent before it is removed, or inactive. */
  function Patience(polling: Polling, limit: Limit): Time {
    polling.interval + AtLeastZero(if limit.Removal? then polling.stopAfter else 2 * polling.retryAfter)
  }

  /** Some poll since the last contact or registration came after a silence that was too long for it. */
  ghost predicate PolledAfter(h: seq<Event>, limit: Limit) {
    exists i | 0 <= i < |h| :: PollSees(h, i, limit)
  }

  ghost predicate PollSees(h: seq<Event>, i: nat, limit: Limit)
    requires i < |h|
  {
    && Polls(h, i)
    && var since := SilentSince(h[..i]);
       since.Some? && h[i].time - since.value >= Patience(h[i].polling, limit)
  }

  lemma PollSeesEarlier(h: seq<Event>, i: nat, limit: Limit)
    requires i + 1 < |h| && h[|h| - 1].Poll?
    ensures PollSees(h, i, limit) <==> PollSees(h[..|h| - 1], i, limit)
  {
    assert h[..|h| - 1][..i] == h[..i];
    if PollSees(h[..|h| - 1], i, limit) {
      assert forall k | i <= k < |h| - 1 :: h[k] == h[..|h| - 1][k];
    }
  }

  lemma PolledAfterStep(h: seq<Event>, limit: Limit)
    requires h != [] && h[|h| - 1].Poll?
    ensures PolledAfter(h, limit) <==> PolledAfter(h[..|h| - 1], limit) || PollSees(h, |h| - 1, limit)
  {
    var before := h[..|h| - 1];
    if PolledAfter(h, limit) {
      var i :| 0 <= i < |h| && PollSees(h, i, limit);
      if i < |h| - 1 {
        PollSeesEarlier(h, i, limit);
      }
    }
    if PolledAfter(before, limit) {
      var i :| 0 <= i < |before| && PollSees(before, i, limit);
      PollSeesEarlier(h, i, limit);
    }
  }

  /** Expiry, over any history of contacts, registrations and polls, each by intervals of its own: a provider is gone
      exactly if a poll since the last contact came at least its interval + stopAfter after it; otherwise it is inactive
      exactly if a poll since then came at least its interval + 2 * retryAfter after it. */
  lemma {:induction false} ExpiryTimeline(h: seq<Event>)
    ensures var p := Track(h);
            && (p.Gone? <==> PolledAfter(h, Removal))
            && (p.Live? ==> p.lastContact == SilentSince(h))
            && (p.Live? ==> (p.inactive <==> PolledAfter(h, Inactivity)))
  {
    if h != [] && h[|h| - 1].Poll? {
      ExpiryTimeline(h[..|h| - 1]);
      PolledAfterStep(h, Removal);
      PolledAfterStep(h, Inactivity);
    } else if h != [] {
      assert forall i: nat | i < |h| :: !Polls(h, i) by {
        forall i: nat | i < |h| ensures !Polls(h, i) {
          assert !h[|h| - 1].Poll?;
        }
      }
    }
  }

  function PollsAt(times: seq<Time>, polling: Polling): seq<Event> {
    seq(|times|, k requires 0 <= k < |times| => Poll(times[k], polling))
  }

  /** In numbers, for polls by the same intervals after a contact at t: the provider is removed once a poll comes at
      t + interval + stopAfter or later, and inactive once one comes at t + interval + 2 * retryAfter or later. */
  lemma {:induction false} PollsAfterContact(h: seq<Event>, t: Time, times: seq<Time>, polling: Polling)
    requires polling.interval >= 0 && polling.retryAfter >= 0 && polling.stopAfter >= 0
    ensures var p := Track(h + [Contact(t)] + PollsAt(times, polling));
            && (p.Gone? <==> exists k :: 0 <= k < |times| && times[k] >= t + polling.interval + polling.stopAfter)
            && (p.Live? ==> p.lastContact == Some(t))
            && (p.Live? ==> (p.inactive <==>
                  exists k :: 0 <= k < |times| && times[k] >= t + polling.interval + 2 * polling.retryAfter))
  {
    if times == [] {
      TrackNext(h, Contact(t));
      assert h + [Contact(t)] + PollsAt([], polling) == h + [Contact(t)];
    } else {
      var last := |times| - 1;
      var before := h + [Contact(t)] + PollsAt(times[..last], polling);
      PollsAfterContact(h, t, times[..last], polling);
      TrackNext(before, Poll(times[last], polling));
      assert h + [Contact(t)] + PollsAt(times, polling) == before + [Poll(times[last], polling)];
      assert forall k | 0 <= k < last :: times[..last][k] == times[k];
    }
  }

  /** A poll at this time leaves what is known of a provider as it was: the silence is known to have begun, and is too
      short for removal, and for inactivity unless the provider is inactive already. */
  predicate LeavesAsIs(polling: Polling, now: Time, p: Tracked)
    requires p.Live?
  {
    && p.lastContact.Some?
    && var silent := now - p.lastContact.value;
       silent < Patience(polling, Removal) && (p.inactive || silent < Patience(polling, Inactivity))
  }

  lemma PollLeavesAsIsIff(polling: Polling, now: Time, p: Tracked)
    requires p.Live?
    ensures PollStep(polling, now, p) == p <==> LeavesAsIs(polling, now, p)
  {
  }

  /** The same in terms of the history: one more poll makes a difference exactly if it is the first since a registration
      without contact, or the first to find the silence too long for activity, or too long altogether. */
  lemma PollLeavesAsIsOverHistory(h: seq<Event>, polling: Polling, now: Time)
    requires Track(h).Live?
    ensures Track(h + [Poll(now, polling)]) == Track(h)
       <==> && SilentSince(h).Some?
            && var silent := now - SilentSince(h).value;
               && silent < Patience(polling, Removal)
               && (PolledAfter(h, Inactivity) || silent < Patience(polling, Inactivity))
  {
    ExpiryTimeline(h);
    TrackNext(h, Poll(now, polling));
    PollLeavesAsIsIff(polling, now, Track(h));
  }

  lemma {:induction false} SilenceLasts(h: seq<Event>, m: nat, n: nat)
    requires m <= n <= |h| && Polls(h, m) && SilentSince(h[..m]).Some?
    ensures SilentSince(h[..n]) == SilentSince(h[..m])
    decreases n
  {
    if m < n {
      SilenceLasts(h, m, n - 1);
      assert h[..n][..n - 1] == h[..n - 1] && h[..n][n - 1] == h[n - 1];
    }
  }

  /** A provider that keeps silent, while polls come at most `gap` after one another and none is more patient than
      `patience`, is gone by the time it has been silent for patience + gap. */
  lemma {:induction false} SilentProviderGoes(h: seq<Event>, m: nat, patience: Time, gap: Time) returns (i: nat)
    requires 0 < m < |h| && Polls(h, m) && SilentSince(h[..m]).Some?
    requires forall k | m <= k < |h| :: h[k].time <= h[k - 1].time + gap && Patience(h[k].polling, Removal) <= patience
    requires h[m - 1].time <= SilentSince(h[..m]).value + patience <= h[|h| - 1].time
    ensures m <= i < |h| && h[i].time <= SilentSince(h[..m]).value + patience + gap
    ensures Track(h[..i + 1]).Gone?
  {
    var due := SilentSince(h[..m]).value + patience;
    i := m;
    while h[i].time < due
      invariant m <= i < |h| && h[i - 1].time <= due
      decreases |h| - i
    {
      i := i + 1;
    }
    SilenceLasts(h, m, i);
    var seen := h[..i + 1];
    assert seen[..i] == h[..i] && seen[i] == h[i];
    assert PollSees(seen, i, Removal);
    ExpiryTimeline(seen);
  }

  // ---------- Intervals of one's own ----------

  type Overrides = map<PeerID, Polling>

  /** The loop has one variable for the intervals, which a polled provider with intervals of its own sets. So one
      without goes by those of the last polled one before it that has some. */
  function Carried(base: Polling, overrides: Overrides, polled: set<PeerID>, order: seq<PeerID>): Polling {
    if order == [] then base else
    var last := |order| - 1;
    if order[last] in polled && order[last] in overrides then overrides[order[last]]
    else Carried(base, overrides, polled, order[..last])
  }

  /** The intervals that the providers are polled by when the loop comes to all of them in this order. */
  function Used(base: Polling, overrides: Overrides, polled: set<PeerID>, order: seq<PeerID>): map<PeerID, Polling> {
    if order == [] then map[] else
    var last := |order| - 1;
    var before := Used(base, overrides, polled, order[..last]);
    if order[last] in polled then before[order[last] := Carried(base, overrides, polled, order)] else before
  }

  /** The intervals that they are meant to be polled by. */
  function Configured(base: Polling, overrides: Overrides, polled: set<PeerID>): map<PeerID, Polling> {
    map id | id in polled :: if id in overrides then overrides[id] else base
  }

  ghost predicate Distinct(order: seq<PeerID>) {
    forall j, k | 0 <= j < k < |order| :: order[j] != order[k]
  }

  ghost predicate OrderOf(order: seq<PeerID>, ids: set<PeerID>) {
    Distinct(order) && forall id :: id in order <==> id in ids
  }

  lemma {:induction false} UsedAt(base: Polling, overrides: Overrides, polled: set<PeerID>, order: seq<PeerID>, i: nat)
    requires i < |order| && order[i] in polled && Distinct(order)
    ensures var used := Used(base, overrides, polled, order);
            order[i] in used && used[order[i]] == Carried(base, overrides, polled, order[..i + 1])
  {
    var last := |order| - 1;
    if i == last {
      assert order[..i + 1] == order;
    } else {
      var before := order[..last];
      UsedAt(base, overrides, polled, before, i);
      assert before[..i + 1] == order[..i + 1];
    }
  }

  lemma {:induction false} UsedKeys(base: Polling, overrides: Overrides, polled: set<PeerID>, order: seq<PeerID>)
    ensures forall id :: id in Used(base, overrides, polled, order) <==> id in order && id in polled
  {
    if order != [] {
      UsedKeys(base, overrides, polled, order[..|order| - 1]);
    }
  }

  /** The intervals that one provider is polled by: its own, or those that are carried to it. */
  lemma UsedIsOwnOrCarried(base: Polling, overrides: Overrides, polled: set<PeerID>, order: seq<PeerID>, i: nat)
    requires i < |order| && order[i] in polled && Distinct(order)
    ensures var used := Used(base, overrides, polled, order);
            order[i] in used
            && used[order[i]] == if order[i] in overrides then overrides[order[i]]
                                 else Carried(base, overrides, polled, order[..i])
  {
    UsedAt(base, overrides, polled, order, i);
    assert order[..i + 1][..i] == order[..i];
  }

  lemma {:induction false} CarriedIsBase(base: Polling, overrides: Overrides, polled: set<PeerID>, order: seq<PeerID>)
    requires forall id | id in polled && id in overrides :: overrides[id] == base
    ensures Carried(base, overrides, polled, order) == base
  {
    if order != [] {
      CarriedIsBase(base, overrides, polled, order[..|order| - 1]);
    }
  }

  lemma {:induction false} SomeOrder(ids: set<PeerID>) returns (order: seq<PeerID>)
    ensures OrderOf(order, ids)
  {
    if ids == {} {
      order := [];
    } else {
      var id :| id in ids;
      var rest := SomeOrder(ids - {id});
      order := [id] + rest;
    }
  }

  /** A provider without intervals of its own that comes right after one with others is polled by those. */
  lemma CarriedToNext(base: Polling, overrides: Overrides, all: set<PeerID>, polled: set<PeerID>, p: PeerID, q: PeerID)
    returns (order: seq<PeerID>)
    requires {p, q} <= polled <= all && p in overrides && q !in overrides
    ensures OrderOf(order, all) && q in Used(base, overrides, polled, order)
    ensures Used(base, overrides, polled, order)[q] == overrides[p]
  {
    var rest := SomeOrder(all - {p, q});
    order := [p, q] + rest;
    UsedIsOwnOrCarried(base, overrides, polled, order, 1);
    assert order[..1] == [p];
  }

  /** Whatever the order of the providers, the polls go by the intervals that are configured, exactly if each polled
      provider has intervals of its own, or those that some have are no others than everybody's. */
  lemma PolledAsConfiguredIff(base: Polling, overrides: Overrides, all: set<PeerID>, polled: set<PeerID>)
    requires polled <= all
    ensures (forall order | OrderOf(order, all) ::
               Used(base, overrides, polled, order) == Configured(base, overrides, polled))
       <==> polled <= overrides.Keys || forall id | id in polled && id in overrides :: overrides[id] == base
  {
    if polled <= overrides.Keys || forall id | id in polled && id in overrides :: overrides[id] == base {
      forall order | OrderOf(order, all)
        ensures Used(base, overrides, polled, order) == Configured(base, overrides, polled)
      {
        NothingCarried(base, overrides, polled, order);
      }
    } else {
      var p :| p in polled && p in overrides && overrides[p] != base;
      var q :| q in polled && q !in overrides;
      var order := CarriedToNext(base, overrides, all, polled, p, q);
      assert Configured(base, overrides, polled)[q] == base;
    }
  }

  lemma NothingCarried(base: Polling, overrides: Overrides, polled: set<PeerID>, order: seq<PeerID>)
    requires Distinct(order) && forall id | id in polled :: id in order
    requires polled <= overrides.Keys || forall id | id in polled && id in overrides :: overrides[id] == base
    ensures Used(base, overrides, polled, order) == Configured(base, overrides, polled)
  {
    UsedKeys(base, overrides, polled, order);
    forall id | id in polled
      ensures Used(base, overrides, polled, order)[id] == Configured(base, overrides, polled)[id]
    {
      var i :| 0 <= i < |order| && order[i] == id;
      UsedIsOwnOrCarried(base, overrides, polled, order, i);
      if id !in overrides {
        CarriedIsBase(base, overrides, polled, order[..i]);
      }
    }
  }

  /** Whether q, which has been silent for less than its interval, is removed depends on the order in which the loop
      comes to it and to p, which has intervals that are less patient. */
  lemma OrderDecidesRemoval(base: Polling, override: Polling, p: PeerID, q: PeerID, since: Time, now: Time)
    requires p != q && Patience(override, Removal) <= now - since < base.interval
    ensures var silent := Live(Some(since), false);
            var used := (order: seq<PeerID>) => Used(base, map[p := override], {p, q}, order);
            && q in used([p, q]) && PollStep(used([p, q])[q], now, silent) == Gone
            && q in used([q, p]) && PollStep(used([q, p])[q], now, silent) == silent
  {
    UsedIsOwnOrCarried(base, map[p := override], {p, q}, [p, q], 1);
    UsedIsOwnOrCarried(base, map[p := override], {p, q}, [q, p], 0);
    assert [p, q][..1] == [p] && [q, p][..0] == [];
  }
}
