/** The provider registry: its memory, the records it persists, and the polling that expires providers. The actions
    of the registry run one at a time. */
module Registry {
  import opened Wrappers
  import opened Types
  import opened Expiry

  /** A string with an address: None if it does not parse as one. */
  type AddrString = Option<Addr>

  /** The fields of a provider that are persisted. `publisher` is None when the publisher ID is not valid. */
  datatype Record = Record(id: PeerID, addrs: seq<Addr>, discoveryAddr: Option<DiscoveryAddr>, lastAd: Option<Cid>,
                           lastAdTime: Time, publisher: Option<PeerID>, publisherAddr: Option<Addr>)

  /** Whoever is its own publisher, and has no address as one, is reached at its first address. */
  predicate NeedsPublisherAddr(r: Record) {
    r.publisher == Some(r.id) && r.publisherAddr.None?
  }

  /** A provider with a publisher has an address: see `Register`. */
  predicate HasAddrs(r: Record) {
    r.publisher.Some? ==> r.addrs != []
  }

  function FillIn(r: Record): Record
    requires HasAddrs(r)
  {
    if NeedsPublisherAddr(r) then r.(publisherAddr := Some(r.addrs[0])) else r
  }

  /** Filling in gives such a provider its first address as the publisher's, and changes nothing else. */
  lemma FillInIs(r: Record)
    requires HasAddrs(r)
    ensures var f := FillIn(r);
            && f == r.(publisherAddr := f.publisherAddr)
            && (r.publisherAddr.Some? || r.publisher != Some(r.id) ==> f.publisherAddr == r.publisherAddr)
            && (r.publisherAddr.None? && r.publisher == Some(r.id) ==> f.publisherAddr == Some(r.addrs[0]))
  {
  }

  // ---------- The registry ----------

  /** `record` never changes once the provider is registered; the other fields are not persisted. */
  class ProviderInfo {
    const record: Record
    var lastContactTime: Option<Time>
    var deleted: bool
    var inactive: bool

    constructor (record: Record, lastContactTime: Option<Time>)
      ensures this.record == record && this.lastContactTime == lastContactTime && !deleted && !inactive
    {
      this.record, this.lastContactTime, deleted, inactive := record, lastContactTime, false, false;
    }

    ghost function Tracked(): Tracked
      reads this`lastContactTime, this`inactive
    {
      Live(lastContactTime, inactive)
    }
  }

  datatype Standing = Standing(addrs: seq<Addr>, inactive: bool)

  /** The providers that a lookup finds, and their addresses: the inactive ones are not found. */
  function Found(standings: map<PeerID, Standing>): map<PeerID, seq<Addr>> {
    map id | id in standings && !standings[id].inactive :: standings[id].addrs
  }

  /** What a provider in memory has in common with its persisted record. */
  predicate Loaded(r: Record, persisted: Record)
    requires HasAddrs(persisted)
  {
    r.id == persisted.id && HasAddrs(r) && FillIn(r) == FillIn(persisted)
  }

  method LoadProvider(persisted: Record) returns (info: ProviderInfo)
    requires HasAddrs(persisted)
    ensures fresh(info) && info.record == FillIn(persisted) && info.Tracked() == Live(None, false)
    ensures Loaded(info.record, persisted)
  {
    var record := persisted;
    if record.publisher.Some? && record.publisherAddr.None? && record.publisher == Some(record.id) {
      record := record.(publisherAddr := Some(record.addrs[0]));
    }
    info := new ProviderInfo(record, None);
  }

  datatype Error =
    | NotAllowed | PublisherNotAllowed | CannotPublish | MissingAddress | NotPersisted
    | Panicked  // not an error the code returns: it panics

  datatype Policy = Policy(allowed: set<PeerID>, publishAllowed: set<(PeerID, PeerID)>)

  type Disk = map<PeerID, Record>

  predicate DiskOk(disk: Disk) {
    forall id | id in disk :: disk[id].id == id && HasAddrs(disk[id])
  }

  /** The disk after the removal of some providers, of which the datastore took those in `stored`. */
  function DiskWithout(disk: Disk, gone: set<PeerID>, stored: set<PeerID>): Disk {
    disk - (gone * stored)
  }

  function FailedWithout(failed: set<PeerID>, gone: set<PeerID>, stored: set<PeerID>): set<PeerID> {
    failed - (gone * stored) + (gone - stored)
  }

  /** Whether a provider is on disk after that, with which record, and whether its last write failed. */
  lemma RemovedIs(disk: Disk, failed: set<PeerID>, gone: set<PeerID>, stored: set<PeerID>, id: PeerID)
    ensures id in DiskWithout(disk, gone, stored) <==> id in disk && !(id in gone && id in stored)
    ensures id in DiskWithout(disk, gone, stored) ==> DiskWithout(disk, gone, stored)[id] == disk[id]
    ensures id in FailedWithout(failed, gone, stored) <==> if id in gone then id !in stored else id in failed
  {
  }

  lemma OneMoreGone(disk: Disk, failed: set<PeerID>, all: set<PeerID>, left: set<PeerID>, id: PeerID,
                    stored: set<PeerID>)
    requires left <= all && id in left
    ensures var gone, more := all - left, all - (left - {id});
            && DiskWithout(disk, more, stored)
               == (if id in stored then DiskWithout(disk, gone, stored) - {id} else DiskWithout(disk, gone, stored))
            && FailedWithout(failed, more, stored)
               == (if id in stored then FailedWithout(failed, gone, stored) - {id}
                   else FailedWithout(failed, gone, stored) + {id})
  {
    assert all - (left - {id}) == (all - left) + {id};
  }

  /** The histories after a poll, which the providers in `used` take part in, each by these intervals. */
  function AddPoll(history: map<PeerID, seq<Event>>, used: map<PeerID, Polling>, now: Time): map<PeerID, seq<Event>> {
    map id | id in history :: if id in used then history[id] + [Poll(now, used[id])] else history[id]
  }

  function HistoryOf(history: map<PeerID, seq<Event>>, id: PeerID): seq<Event> {
    if id in history then history[id] else []
  }

  class Registry {
    const poll: Polling
    const overrides: Overrides  // the polling intervals that some providers have for themselves
    var providers: map<PeerID, ProviderInfo>
    var disk: Disk
    /** The providers whose last write to the datastore failed. */
    ghost var failed: set<PeerID>
    /** The providers that were on disk at the start, were kept out of memory by policy, and were not written since. */
    ghost var refused: set<PeerID>
    /** For each provider, also one that expired: what happened to it since it was loaded or first registered. */
    ghost var history: map<PeerID, seq<Event>>

    ghost predicate Valid()
      reads this`providers, this`disk, this`failed, this`refused
    {
      && DiskOk(disk)
      && (forall id | id in providers :: providers[id].record.id == id && HasAddrs(providers[id].record))
      && (forall id | id in refused :: id in disk && id !in providers)
      && (forall id | id !in failed && id !in refused :: id in disk <==> id in providers)
      && (forall id | id in disk && id in providers && id !in failed ::
            FillIn(disk[id]) == FillIn(providers[id].record))
    }

    ghost function TrackedOf(id: PeerID): Tracked
      reads this`providers, providers.Values`lastContactTime, providers.Values`inactive
    {
      if id in providers then providers[id].Tracked() else Gone
    }

    /** Every provider is where its history puts it. */
    ghost predicate Timed()
      reads this`providers, this`history, providers.Values`lastContactTime, providers.Values`inactive
    {
      && providers.Keys <= history.Keys
      && forall id | id in history :: TrackedOf(id) == Track(history[id])
    }

    /** The polled providers: those with a publisher. */
    ghost function Published(): set<PeerID>
      reads this`providers
    {
      set id | id in providers && providers[id].record.publisher.Some?
    }

    /** Expiry in any registry that the methods lead to. */
    lemma ExpiryHolds(id: PeerID)
      requires Timed() && id in history
      ensures id !in providers <==> PolledAfter(history[id], Removal)
      ensures id in providers ==> (providers[id].inactive <==> PolledAfter(history[id], Inactivity))
    {
      ExpiryTimeline(history[id]);
    }

    /** A registry on what an earlier one persisted: exactly the providers that the policy allows are loaded, with the
        publisher's address filled in. No record makes the loading index out of range. */
    constructor (disk: Disk, policy: Policy, poll: Polling, overrides: Overrides)
      requires DiskOk(disk)
      ensures Valid() && Timed() && this.disk == disk && this.poll == poll && this.overrides == overrides
      ensures failed == {} && refused == disk.Keys - policy.allowed
      ensures providers.Keys == disk.Keys * policy.allowed
      ensures forall id | id in providers ::
        fresh(providers[id]) && providers[id].record == FillIn(disk[id]) && providers[id].Tracked() == Live(None, false)
    {
      this.disk, providers, failed, refused := disk, map[], {}, disk.Keys - policy.allowed;
      this.poll, this.overrides, history := poll, overrides, map[];
      new;
      LoadPersistedProviders(policy);
      history := map id | id in providers :: [];
    }

    method LoadPersistedProviders(policy: Policy)
      requires DiskOk(disk) && providers == map[]
      modifies this`providers
      ensures providers.Keys == disk.Keys * policy.allowed
      ensures forall id | id in providers ::
        && fresh(providers[id]) && providers[id].record == FillIn(disk[id]) && Loaded(providers[id].record, disk[id])
        && providers[id].Tracked() == Live(None, false)
    {
      var todo := disk.Keys;
      while todo != {}
        invariant todo <= disk.Keys && providers.Keys == (disk.Keys - todo) * policy.allowed
        invariant forall id | id in providers ::
          && fresh(providers[id]) && providers[id].record == FillIn(disk[id]) && Loaded(providers[id].record, disk[id])
          && providers[id].Tracked() == Live(None, false)
        decreases |todo|
      {
        var id :| id in todo;
        todo := todo - {id};
        if id in policy.allowed {
          var info := LoadProvider(disk[id]);
          providers := providers[id := info];
        }
      }
    }

    /** What registering adds to a provider's history. */
    ghost function Registration(info: ProviderInfo, now: Time): Event
      reads info
    {
      if info.lastContactTime.Some? then Contact(info.lastContactTime.value) else Discovered(now)
    }

    /** Put a provider in memory and on disk; `stored` says whether the datastore takes it. */
    method SyncRegister(info: ProviderInfo, stored: bool, ghost now: Time) returns (err: Option<Error>)
      requires Valid() && Timed() && HasAddrs(info.record) && !info.inactive
      modifies this
      ensures Valid() && Timed() && providers == old(providers)[info.record.id := info]
      ensures var id := info.record.id;
              history == old(history)[id := HistoryOf(old(history), id) + [Registration(info, now)]]
              && refused == old(refused) - {id}
      ensures if stored then err.None? && disk == old(disk)[info.record.id := info.record]
                             && failed == old(failed) - {info.record.id}
              else err == Some(NotPersisted) && disk == old(disk) && failed == old(failed) + {info.record.id}
    {
      ghost var was := failed;
      failed, refused := failed + {info.record.id}, refused - {info.record.id};
      providers := providers[info.record.id := info];
      err := SyncPersistProvider(info, stored, was);
      AddRegistration(info, now);
    }

    /** The registration that has been made becomes part of the provider's history. */
    ghost method AddRegistration(info: ProviderInfo, now: Time)
      requires info.record.id in providers && providers[info.record.id] == info && !info.inactive
      requires providers.Keys <= history.Keys + {info.record.id}
      requires forall id | id in history && id != info.record.id :: TrackedOf(id) == Track(history[id])
      modifies this`history
      ensures Timed()
      ensures var id := info.record.id;
              history == old(history)[id := HistoryOf(old(history), id) + [Registration(info, now)]]
    {
      var id := info.record.id;
      var h := HistoryOf(history, id) + [Registration(info, now)];
      assert Track(h) == TrackedOf(id) by {
        TrackNext(HistoryOf(history, id), Registration(info, now));
      }
      history := history[id := h];
    }

    ghost method DropHistory(id: PeerID)
      requires id !in providers && providers.Keys <= history.Keys
      requires forall other | other in history && other != id :: TrackedOf(other) == Track(history[other])
      modifies this`history
      ensures Timed() && history == old(history) - {id}
    {
      history := history - {id};
    }

    /** Write a provider that is in memory to disk. */
    method SyncPersistProvider(info: ProviderInfo, stored: bool, ghost was: set<PeerID>) returns (err: Option<Error>)
      requires Valid() && info.record.id in providers && providers[info.record.id] == info
      requires failed == was + {info.record.id}
      modifies this`disk, this`failed
      ensures Valid()
      ensures if stored then err.None? && disk == old(disk)[info.record.id := info.record]
                             && failed == was - {info.record.id}
              else err == Some(NotPersisted) && disk == old(disk) && failed == was + {info.record.id}
    {
      if !stored {
        return Some(NotPersisted);
      }
      disk := disk[info.record.id := info.record];
      failed := was - {info.record.id};
      return None;
    }

    /** Drop a provider from memory and from disk. */
    method SyncRemove(id: PeerID, stored: bool) returns (err: Option<Error>)
      requires Valid()
      modifies this`providers, this`disk, this`failed, this`refused
      ensures Valid() && providers == old(providers) - {id}
      ensures if stored then err.None? && disk == old(disk) - {id} && failed == old(failed) - {id}
              else err == Some(NotPersisted) && disk == old(disk) && failed == old(failed) + {id}
      ensures refused == old(refused) - {id}
    {
      providers, refused := providers - {id}, refused - {id};
      if !stored {
        failed := failed + {id};
        return Some(NotPersisted);
      }
      disk := disk - {id};
      failed := failed - {id};
      return None;
    }

    /** What a poll by these intervals makes of a provider, and whether it is marked as deleted then. */
    ghost function Polled(polling: Polling, now: Time, info: ProviderInfo): (Tracked, bool)
      reads info
    {
      var p := PollStep(polling, now, info.Tracked());
      (p, info.deleted || p.Gone?)
    }

    /** The same for any provider, also one that is not polled. */
    ghost function Outcome(used: map<PeerID, Polling>, now: Time, info: ProviderInfo): (Tracked, bool)
      reads info
    {
      if info.record.id in used then Polled(used[info.record.id], now, info) else (info.Tracked(), info.deleted)
    }

    /** The body of the loop over the providers, for one that has a publisher. */
    method PollOne(id: PeerID, info: ProviderInfo, polling: Polling, now: Time, stored: bool)
      requires Valid() && id in providers && providers[id] == info
      modifies this, info
      ensures Valid() && (providers == old(providers) || providers == old(providers) - {id})
      ensures history == old(history) && refused == old(refused)
      ensures (TrackedOf(id), info.deleted) == old(Polled(polling, now, info))
      ensures (TrackedOf(id), info.deleted) == old((TrackedOf(id), info.deleted))
         <==> old(LeavesAsIs(polling, now, info.Tracked()))
      ensures disk == if id !in providers && stored then old(disk) - {id} else old(disk)
      ensures failed == if id in providers then old(failed)
                       else if stored then old(failed) - {id} else old(failed) + {id}
    {
      PollLeavesAsIsIff(polling, now, info.Tracked());
      if info.lastContactTime.None? {
        info.lastContactTime := Some(now - polling.interval);
        return;
      }
      var noContactTime := now - info.lastContactTime.value;
      if noContactTime < polling.interval {
        return;
      }
      var sincePollingStarted := noContactTime - polling.interval;
      if sincePollingStarted >= polling.stopAfter {
        var err := SyncRemove(id, stored);
        info.deleted := true;
      } else if sincePollingStarted >= 2 * polling.retryAfter {
        info.inactive := true;
      }
    }

    /** The intervals that the loop over the providers uses when it comes to them in this order. */
    ghost function UsedIn(order: seq<PeerID>): map<PeerID, Polling>
      reads this`providers
    {
      Used(poll, overrides, Published(), order)
    }

    ghost function BeforePoll(used: map<PeerID, Polling>, now: Time): Before
      reads this, providers.Values
    {
      Before(providers, used, map id | id in providers :: Outcome(used, now, providers[id]), disk, failed, refused,
             history)
    }

    lemma PollStarts(order: seq<PeerID>, now: Time, stored: set<PeerID>)
      requires Valid() && Timed() && OrderOf(order, providers.Keys)
      ensures var before := BeforePoll(UsedIn(order), now);
              PollingAt(before, Rest(order, 0), now, stored) && Foreseen(before, now)
    {
      UsedKeys(poll, overrides, Published(), order);
    }

    /** Poll all providers, in any order. `stored` says which deletions the datastore takes. */
    method PollProviders(order: seq<PeerID>, now: Time, stored: set<PeerID>)
      requires Valid() && Timed() && OrderOf(order, providers.Keys)
      modifies this, providers.Values
      ensures Valid() && Timed() && providers.Keys <= old(providers.Keys)
      ensures history == AddPoll(old(history), old(UsedIn(order)), now)
      ensures forall id | id in providers :: providers[id] == old(providers)[id]
      ensures forall id | id in old(providers) ::
        (TrackedOf(id), old(providers)[id].deleted) == old(Outcome(UsedIn(order), now, providers[id]))
      ensures forall id | id in old(providers) ::
        (TrackedOf(id), old(providers)[id].deleted) == old((TrackedOf(id), providers[id].deleted))
        <==> old(SparedBy(UsedIn(order), now, providers[id]))
      ensures disk == DiskWithout(old(disk), old(providers.Keys) - providers.Keys, stored)
      ensures failed == FailedWithout(old(failed), old(providers.Keys) - providers.Keys, stored)
      ensures refused == old(refused)
    {
      ghost var before := BeforePoll(UsedIn(order), now);
      PollStarts(order, now, stored);
      SparedOrNot(UsedIn(order), now);
      PollInOrder(before, Published(), order, now, stored);
      FinishPoll(before, now, stored);
    }

    /** Polling by these intervals leaves a provider's information as it is. */
    ghost predicate SparedBy(used: map<PeerID, Polling>, now: Time, info: ProviderInfo)
      reads info
    {
      info.record.id in used ==> LeavesAsIs(used[info.record.id], now, info.Tracked())
    }

    lemma SparedOrNot(used: map<PeerID, Polling>, now: Time)
      requires Valid()
      ensures forall id | id in providers ::
        Outcome(used, now, providers[id]) == (TrackedOf(id), providers[id].deleted)
        <==> SparedBy(used, now, providers[id])
    {
      forall id | id in used && id in providers
        ensures PollStep(used[id], now, TrackedOf(id)) == TrackedOf(id) <==> LeavesAsIs(used[id], now, TrackedOf(id))
      {
        PollLeavesAsIsIff(used[id], now, TrackedOf(id));
      }
    }

    /** The loop over the providers, which come in any order. */
    method PollInOrder(ghost before: Before, ghost published: set<PeerID>, order: seq<PeerID>, now: Time,
                       stored: set<PeerID>)
      requires Distinct(order) && before.used == Used(poll, overrides, published, order)
      requires PollingAt(before, Rest(order, 0), now, stored)
      modifies this, before.providers.Values
      ensures PollingAt(before, {}, now, stored)
    {
      var polling := poll;
      for i := 0 to |order|
        invariant PollingAt(before, Rest(order, i), now, stored)
        invariant polling == Carried(poll, overrides, published, order[..i])
      {
        NextInOrder(before.used, published, poll, overrides, order, i);
        polling := PollNext(before, Rest(order, i), order[i], polling, now, stored);
      }
      assert Rest(order, |order|) == {};
    }

    /** The poll that has been made becomes part of the histories. */
    ghost method FinishPoll(before: Before, now: Time, stored: set<PeerID>)
      requires PollingAt(before, {}, now, stored) && Foreseen(before, now)
      modifies this`history
      ensures Valid() && Timed() && history == AddPoll(before.history, before.used, now)
      ensures forall id | id in before.providers ::
        (TrackedOf(id), before.providers[id].deleted) == before.outcomes[id]
    {
      history := AddPoll(history, before.used, now);
      forall id | id in history ensures TrackedOf(id) == Track(history[id]) {
        TrackAfterPoll(before, now, id);
      }
    }

    /** Where polling stands when the providers in `todo` are still to be polled. */
    ghost predicate PollingAt(before: Before, todo: set<PeerID>, now: Time, stored: set<PeerID>)
      reads this, before.providers.Values, providers.Values
    {
      var all := before.providers;
      && before.outcomes.Keys == all.Keys
      && Valid() && todo <= providers.Keys <= all.Keys && history == before.history
      && refused == before.refused
      && (forall id | id in all :: all[id].record.id == id)
      && (forall id | id in all :: id in before.used <==> all[id].record.publisher.Some?)
      && (forall id | id in providers :: providers[id] == all[id])
      && (forall id | id in todo :: Outcome(before.used, now, all[id]) == before.outcomes[id])
      && (forall id | id in all && id !in todo :: (TrackedOf(id), all[id].deleted) == before.outcomes[id])
      && disk == DiskWithout(before.disk, all.Keys - providers.Keys, stored)
      && failed == FailedWithout(before.failed, all.Keys - providers.Keys, stored)
    }

    /** One iteration. The intervals in use are those of this provider, if it has some and is polled. */
    method PollNext(ghost before: Before, ghost todo: set<PeerID>, id: PeerID, polling: Polling, now: Time,
                    stored: set<PeerID>)
      returns (next: Polling)
      requires id in todo && PollingAt(before, todo, now, stored)
      requires id in before.used ==> before.used[id] == if id in overrides then overrides[id] else polling
      modifies this, before.providers.Values
      ensures PollingAt(before, todo - {id}, now, stored)
      ensures next == if id in before.used then before.used[id] else polling
    {
      if providers[id].record.publisher.None? {
        return polling;
      }
      next := if id in overrides then overrides[id] else polling;
      PollPublished(before, todo, id, next, now, stored);
    }

    method PollPublished(ghost before: Before, ghost todo: set<PeerID>, id: PeerID, polling: Polling, now: Time,
                         stored: set<PeerID>)
      requires id in todo && PollingAt(before, todo, now, stored) && id in before.used && before.used[id] == polling
      modifies this, before.providers.Values
      ensures PollingAt(before, todo - {id}, now, stored)
    {
      OneMoreGone(before.disk, before.failed, before.providers.Keys, providers.Keys, id, stored);
      ghost var all := before.providers;
      assert Polled(polling, now, all[id]) == before.outcomes[id];
      PollAmong(all, before.used, id, polling, now, id in stored);
      forall other | other in all && other !in todo - {id}
        ensures (TrackedOf(other), all[other].deleted) == before.outcomes[other]
      {
        if other != id {
          assert old((TrackedOf(other), all[other].deleted)) == before.outcomes[other];
        }
      }
    }

    /** Polling one provider leaves the others, which are other objects. */
    method PollAmong(ghost all: map<PeerID, ProviderInfo>, ghost used: map<PeerID, Polling>, id: PeerID,
                     polling: Polling, now: Time, stored: bool)
      requires Valid() && id in providers && id in all && providers[id] == all[id]
      requires forall other | other in all :: all[other].record.id == other
      requires forall other | other in providers :: other in all && providers[other] == all[other]
      modifies this, all[id]
      ensures Valid() && (providers == old(providers) || providers == old(providers) - {id})
      ensures history == old(history) && refused == old(refused)
      ensures (TrackedOf(id), all[id].deleted) == old(Polled(polling, now, all[id]))
      ensures disk == if id !in providers && stored then old(disk) - {id} else old(disk)
      ensures failed == if id in providers then old(failed)
                        else if stored then old(failed) - {id} else old(failed) + {id}
      ensures forall other | other in all && other != id ::
        && Outcome(used, now, all[other]) == old(Outcome(used, now, all[other]))
        && (TrackedOf(other), all[other].deleted) == old((TrackedOf(other), all[other].deleted))
    {
      PollOne(id, providers[id], polling, now, stored);
      assert forall other | other in all && other != id :: all[other] != all[id];
    }

    /** What polling makes of a provider without contact that is alone. */
    lemma FirstOutcome(id: PeerID, now: Time)
      requires Valid() && providers.Keys == {id} && overrides == map[]
      requires providers[id].record.publisher.Some? && providers[id].lastContactTime.None?
      ensures Outcome(UsedIn([id]), now, providers[id]).0 == Live(Some(now - poll.interval), providers[id].inactive)
    {
      UsedIsOwnOrCarried(poll, map[], Published(), [id], 0);
    }

    // ---------- Registration ----------

    /** What a lookup can tell of the providers. */
    ghost function Standings(): map<PeerID, Standing>
      reads this`providers, providers.Values
    {
      map id | id in providers :: Standing(providers[id].record.addrs, providers[id].inactive)
    }

    /** An inactive provider counts as not registered here. */
    method ProviderInfo(id: PeerID) returns (info: ProviderInfo?)
      requires Valid()
      ensures var found := Found(Standings());
              if id in found then info != null && !info.inactive && info.record.addrs == found[id] else info == null
      ensures if id in providers && !providers[id].inactive then info == providers[id] else info == null
    {
      if id in providers && !providers[id].inactive {
        return providers[id];
      }
      return null;
    }

    /** Register a provider that policy allows, with a publisher that policy allows to publish for it. */
    method Register(info: ProviderInfo, policy: Policy, stored: bool, ghost now: Time) returns (err: Option<Error>)
      requires Valid() && Timed() && !info.inactive
      modifies this
      ensures Valid() && Timed()
      ensures var refusal := Refusal(info.record, policy);
              if refusal.Some? then err == refusal && unchanged(this)
              else
                && providers == old(providers)[info.record.id := info] && (err.None? <==> stored)
                && history == old(history)[info.record.id :=
                     HistoryOf(old(history), info.record.id) + [Registration(info, now)]]
                && disk == (if stored then old(disk)[info.record.id := info.record] else old(disk))
                && failed == (if stored then old(failed) - {info.record.id} else old(failed) + {info.record.id})
                && refused == old(refused) - {info.record.id}
    {
      var r := info.record;
      if |r.addrs| == 0 {
        return Some(MissingAddress);
      }
      if r.id !in policy.allowed {
        return Some(NotAllowed);
      }
      if r.publisher.Some? && r.publisher.value != r.id {
        if r.publisher.value !in policy.allowed {
          return Some(PublisherNotAllowed);
        }
        if (r.publisher.value, r.id) !in policy.publishAllowed {
          return Some(CannotPublish);
        }
      }
      err := SyncRegister(info, stored, now);
    }

    ghost function Known(id: PeerID): Option<Record>
      reads this`providers, providers.Values
    {
      if id in providers && !providers[id].inactive then Some(providers[id].record) else None
    }

    /** Register a provider, or update the one that is registered: `Updated` says with what. The datastore takes the
        record if `stored`. Here nothing happens between the lookup and the registration; `RegisterKnown` allows it. */
    method RegisterOrUpdate(id: PeerID, addrs: seq<AddrString>, ad: Option<Cid>, publisher: Option<PeerID>,
                            publisherAddrs: seq<Addr>, now: Time, policy: Policy, stored: bool)
      returns (err: Option<Error>)
      requires Valid() && Timed()
      modifies this
      ensures Valid() && Timed()
      ensures Registered(old(Known(id)), id, addrs, ad, publisher, publisherAddrs, now, policy, stored, err)
    {
      var current := ProviderInfo(id);
      var known := if current != null then Some(current.record) else None;
      err := RegisterKnown(known, id, addrs, ad, publisher, publisherAddrs, now, policy, stored);
    }

    /** The same after the lookup, which is an action of its own: `known` is what it found, and other actions may have
        changed the registry since. */
    method RegisterKnown(known: Option<Record>, id: PeerID, addrs: seq<AddrString>, ad: Option<Cid>,
                         publisher: Option<PeerID>, publisherAddrs: seq<Addr>, now: Time, policy: Policy, stored: bool)
      returns (err: Option<Error>)
      requires Valid() && Timed() && (known.Some? ==> known.value.id == id && HasAddrs(known.value))
      modifies this
      ensures Valid() && Timed()
      ensures Registered(known, id, addrs, ad, publisher, publisherAddrs, now, policy, stored, err)
    {
      var r, fullRegister := UpdateRecord(known, id, addrs, ad, publisher, publisherAddrs, now);
      if r.None? {
        return Some(Panicked);
      }
      var info := new ProviderInfo(r.value, Some(now));
      if fullRegister {
        err := Register(info, policy, stored, now);
      } else {
        err := SyncRegister(info, stored, now);
      }
    }

    /** What a registration does, given what was known: it panics, is refused by policy, or registers the updated record
        with a contact now. */
    twostate predicate Registered(known: Option<Record>, id: PeerID, addrs: seq<AddrString>, ad: Option<Cid>,
                                  publisher: Option<PeerID>, publisherAddrs: seq<Addr>, now: Time, policy: Policy,
                                  stored: bool, new err: Option<Error>)
      reads this, providers.Values
    {
      var isNew := known.None? || (publisher.Some? && publisher != known.value.publisher);
      if None in addrs || (known.Some? && isNew && publisherAddrs == []) then err == Some(Panicked) && unchanged(this)
      else
      var r := Updated(known, id, addrs, ad, publisher, publisherAddrs, now);
      if isNew && Refusal(r, policy).Some? then err == Refusal(r, policy) && unchanged(this)
      else
        && id in providers && providers == old(providers)[id := providers[id]] && fresh(providers[id])
        && providers[id].record == r && Replaces(r, known, id, addrs, ad, publisher, publisherAddrs, now)
        && providers[id].Tracked() == Live(Some(now), false)
        && history == old(history)[id := HistoryOf(old(history), id) + [Contact(now)]]
        && (err.None? <==> stored)
        && disk == (if stored then old(disk)[id := r] else old(disk))
        && failed == (if stored then old(failed) - {id} else old(failed) + {id})
        && refused == old(refused) - {id}
    }

    /** Remove a provider, and mark it for the deletion of its data. */
    method RemoveProvider(id: PeerID, stored: bool) returns (err: Option<Error>)
      requires Valid() && Timed()
      modifies this, providers.Values`deleted
      ensures Valid() && Timed() && providers == old(providers) - {id} && (err.None? <==> stored)
      ensures history == old(history) - {id}
      ensures disk == if stored then old(disk) - {id} else old(disk)
      ensures failed == (if stored then old(failed) - {id} else old(failed) + {id}) && refused == old(refused) - {id}
      ensures forall other | other in old(providers) :: var info := old(providers)[other];
        && info.Tracked() == old(info.Tracked())
        && info.deleted == (old(info.deleted) || (stored && other == id))
    {
      var pinfo: ProviderInfo? := if id in providers then providers[id] else null;
      err := SyncRemove(id, stored);
      if err.None? && pinfo != null {
        MarkDeleted(pinfo, old(providers));
      }
      DropHistory(id);
    }

    /** Tell the ingester to delete the data of one of these providers. */
    static method MarkDeleted(pinfo: ProviderInfo, ghost all: map<PeerID, ProviderInfo>)
      requires pinfo.record.id in all && all[pinfo.record.id] == pinfo
      requires forall id | id in all :: all[id].record.id == id
      modifies pinfo`deleted
      ensures forall id | id in all :: all[id].deleted == (old(all[id].deleted) || id == pinfo.record.id)
    {
      pinfo.deleted := true;
    }
  }

  // ---------- What registration makes of a provider ----------

  /** Why `Register` refuses a provider, if it does. */
  function Refusal(r: Record, policy: Policy): Option<Error> {
    if r.addrs == [] then Some(MissingAddress)
    else if r.id !in policy.allowed then Some(NotAllowed)
    else if r.publisher.None? || r.publisher == Some(r.id) then None
    else if r.publisher.value !in policy.allowed then Some(PublisherNotAllowed)
    else if (r.publisher.value, r.id) !in policy.publishAllowed then Some(CannotPublish)
    else None
  }

  /** The order of the refusals, and what a provider needs so that there is none. */
  lemma RefusalIs(r: Record, policy: Policy)
    ensures var err, addressed, allowed := Refusal(r, policy), r.addrs != [], r.id in policy.allowed;
            var other := r.publisher.Some? && r.publisher.value != r.id;
            && (err == Some(MissingAddress) <==> !addressed)
            && (err == Some(NotAllowed) <==> addressed && !allowed)
            && (err == Some(PublisherNotAllowed) <==>
                  addressed && allowed && other && r.publisher.value !in policy.allowed)
            && (err == Some(CannotPublish) <==>
                  && addressed && allowed && other && r.publisher.value in policy.allowed
                  && (r.publisher.value, r.id) !in policy.publishAllowed)
            && (err == None <==>
                  && addressed && allowed
                  && (other ==> r.publisher.value in policy.allowed
                                && (r.publisher.value, r.id) in policy.publishAllowed))
  {
  }

  predicate IsNew(known: Option<Record>, publisher: Option<PeerID>) {
    known.None? || (publisher.Some? && publisher != known.value.publisher)
  }

  /** A changed publisher without an address, or a provider address that does not parse. */
  predicate Panics(known: Option<Record>, addrs: seq<AddrString>, publisher: Option<PeerID>,
                   publisherAddrs: seq<Addr>) {
    (known.Some? && IsNew(known, publisher) && publisherAddrs == []) || None in addrs
  }

  function Parsed(addrs: seq<AddrString>): seq<Addr>
    requires None !in addrs
  {
    seq(|addrs|, i requires 0 <= i < |addrs| => addrs[i].value)
  }

  /** The record after an update: what is given replaces what is known. The publisher's address is filled in from the
      provider's addresses as they were before. */
  function Updated(known: Option<Record>, id: PeerID, addrs: seq<AddrString>, ad: Option<Cid>,
                   publisher: Option<PeerID>, publisherAddrs: seq<Addr>, now: Time): Record
    requires !Panics(known, addrs, publisher, publisherAddrs)
  {
    var was := if known.Some? then known.value else Record(id, [], None, None, 0, None, None);
    var newPublisher := if publisher.Some? then publisher else was.publisher;
    var given := if publisherAddrs != [] && (publisher.Some? || known.None?) then Some(publisherAddrs[0])
                 else was.publisherAddr;
    Record(id,
           if addrs != [] then Parsed(addrs) else was.addrs,
           was.discoveryAddr,
           if ad.Some? then ad else was.lastAd,
           if ad.Some? && ad != was.lastAd then now else was.lastAdTime,
           newPublisher,
           if given.None? && newPublisher == Some(id) && was.addrs != [] then Some(was.addrs[0]) else given)
  }

  /** What an update makes of a record, field by field: what is given, of which a publisher's address is the first one,
      or what was known, or nothing if nothing was. */
  predicate Replaces(r: Record, known: Option<Record>, id: PeerID, addrs: seq<AddrString>, ad: Option<Cid>,
                     publisher: Option<PeerID>, publisherAddrs: seq<Addr>, now: Time)
  {
    && r.id == id
    && r.discoveryAddr == (if known.None? then None else known.value.discoveryAddr)
    && (if addrs == [] then r.addrs == if known.None? then [] else known.value.addrs
        else |r.addrs| == |addrs| && forall i | 0 <= i < |addrs| :: addrs[i] == Some(r.addrs[i]))
    && (if ad.None? then r.lastAd == if known.None? then None else known.value.lastAd else r.lastAd == ad)
    && (if ad.None? || (known.Some? && known.value.lastAd == ad)
        then r.lastAdTime == if known.None? then 0 else known.value.lastAdTime
        else r.lastAdTime == now)
    && (if publisher.None? then r.publisher == if known.None? then None else known.value.publisher
        else r.publisher == publisher)
    && (publisherAddrs != [] && (publisher.Some? || known.None?) ==> r.publisherAddr == Some(publisherAddrs[0]))
    && (publisherAddrs == [] || (publisher.None? && known.Some?) ==>
          if known.None? then r.publisherAddr == None
          else if known.value.publisherAddr.None? && r.publisher == Some(id) && known.value.addrs != []
          then r.publisherAddr == Some(known.value.addrs[0])
          else r.publisherAddr == known.value.publisherAddr)
  }

  /** There is just one such record. */
  lemma ReplacedIsUpdated(r: Record, known: Option<Record>, id: PeerID, addrs: seq<AddrString>, ad: Option<Cid>,
                          publisher: Option<PeerID>, publisherAddrs: seq<Addr>, now: Time)
    requires !Panics(known, addrs, publisher, publisherAddrs)
    ensures r == Updated(known, id, addrs, ad, publisher, publisherAddrs, now)
       <==> Replaces(r, known, id, addrs, ad, publisher, publisherAddrs, now)
  {
    if Replaces(r, known, id, addrs, ad, publisher, publisherAddrs, now) && addrs != [] {
      assert r.addrs == Parsed(addrs);
    }
  }

  /** The same update again only fills in the publisher's address, if it is still missing. */
  lemma RepeatedUpdate(known: Option<Record>, id: PeerID, addrs: seq<AddrString>, ad: Option<Cid>,
                       publisher: Option<PeerID>, publisherAddrs: seq<Addr>, now: Time, later: Time)
    requires !Panics(known, addrs, publisher, publisherAddrs)
    requires HasAddrs(Updated(known, id, addrs, ad, publisher, publisherAddrs, now))
    ensures var r := Updated(known, id, addrs, ad, publisher, publisherAddrs, now);
            && !Panics(Some(r), addrs, publisher, publisherAddrs)
            && Updated(Some(r), id, addrs, ad, publisher, publisherAddrs, later) == FillIn(r)
  {
    var r := Updated(known, id, addrs, ad, publisher, publisherAddrs, now);
    FillInIs(r);
    ReplacedIsUpdated(FillIn(r), Some(r), id, addrs, ad, publisher, publisherAddrs, later);
  }

  /** When a registration or update leaves a provider that is its own publisher without the publisher's address: exactly
      when it was not known and no publisher address came with it, whatever addresses of the provider came. */
  lemma PublisherAddrMissingIff(known: Option<Record>, id: PeerID, addrs: seq<AddrString>, ad: Option<Cid>,
                                publisher: Option<PeerID>, publisherAddrs: seq<Addr>, now: Time)
    requires !Panics(known, addrs, publisher, publisherAddrs)
    requires known.Some? ==> known.value.id == id && HasAddrs(known.value)
    ensures NeedsPublisherAddr(Updated(known, id, addrs, ad, publisher, publisherAddrs, now))
       <==> known.None? && publisher == Some(id) && publisherAddrs == []
  {
  }

  /** A provider that registers itself, with one address of its own: its record has no publisher address, and the next
      update or load fills it in. */
  lemma SelfRegistered(id: PeerID, addr: Addr, now: Time)
    ensures var r := Updated(None, id, [Some(addr)], None, Some(id), [], now);
            && r.addrs == [addr] && r.publisherAddr == None && Refusal(r, Policy({id}, {})) == None
            && Updated(Some(r), id, [], None, None, [], now).publisherAddr == FillIn(r).publisherAddr == Some(addr)
  {
    PublisherAddrMissingIff(None, id, [Some(addr)], None, Some(id), [], now);
    var r := Updated(None, id, [Some(addr)], None, Some(id), [], now);
    assert r.addrs == [addr];
    EmptyUpdateFillsIn(r, now);
  }

  /** An update that brings nothing new fills in the publisher's address, as loading the record does. */
  lemma EmptyUpdateFillsIn(r: Record, now: Time)
    requires HasAddrs(r)
    ensures Updated(Some(r), r.id, [], None, None, [], now) == FillIn(r)
  {
  }

  /** The part of `RegisterOrUpdate` that makes a new record out of the known one, with None for a panic. */
  method UpdateRecord(known: Option<Record>, id: PeerID, addrs: seq<AddrString>, ad: Option<Cid>,
                      publisher: Option<PeerID>, publisherAddrs: seq<Addr>, now: Time)
    returns (record: Option<Record>, fullRegister: bool)
    requires known.Some? ==> known.value.id == id
    ensures record.None? <==> Panics(known, addrs, publisher, publisherAddrs)
    ensures record.Some? ==>
      && record.value == Updated(known, id, addrs, ad, publisher, publisherAddrs, now)
      && Replaces(record.value, known, id, addrs, ad, publisher, publisherAddrs, now)
      && fullRegister == IsNew(known, publisher)
      && (fullRegister <==> known.None? || (publisher.Some? && publisher != known.value.publisher))
  {
    var r: Record;
    fullRegister := false;
    if known.Some? {
      r := known.value;
      if publisher.Some? {
        if publisher != r.publisher {
          if publisherAddrs == [] {
            return None, false;
          }
          r := r.(publisher := publisher, publisherAddr := Some(publisherAddrs[0]));
          fullRegister := true;
        } else if |publisherAddrs| != 0 {
          r := r.(publisherAddr := Some(publisherAddrs[0]));
        }
      }
    } else {
      fullRegister := true;
      r := Record(id, [], None, None, 0, publisher, if publisherAddrs != [] then Some(publisherAddrs[0]) else None);
    }
    if r.publisher.Some? && r.publisherAddr.None? && r.publisher == Some(r.id) {
      if |r.addrs| != 0 {
        r := r.(publisherAddr := Some(r.addrs[0]));
      }
    }
    if |addrs| != 0 {
      var maddrs := StringsToMultiaddrs(addrs);
      if maddrs.None? {
        return None, false;
      }
      r := r.(addrs := maddrs.value);
    }
    if ad != r.lastAd && ad.Some? {
      r := r.(lastAd := ad, lastAdTime := now);
    }
    ReplacedIsUpdated(r, known, id, addrs, ad, publisher, publisherAddrs, now);
    return Some(r), fullRegister;
  }

  method StringsToMultiaddrs(addrs: seq<AddrString>) returns (maddrs: Option<seq<Addr>>)
    ensures if None in addrs then maddrs.None? else maddrs == Some(Parsed(addrs))
    ensures maddrs.Some? ==>
      |maddrs.value| == |addrs| && forall i | 0 <= i < |addrs| :: addrs[i] == Some(maddrs.value[i])
  {
    var parsed: seq<Addr> := [];
    for i := 0 to |addrs|
      invariant None !in addrs[..i] && |parsed| == i
      invariant forall k | 0 <= k < i :: addrs[k] == Some(parsed[k])
    {
      if addrs[i].None? {
        return None;
      }
      parsed := parsed + [addrs[i].value];
    }
    assert addrs[..|addrs|] == addrs;
    assert parsed == Parsed(addrs);
    return Some(parsed);
  }

  /** Close a registry and open one on the same datastore, maybe with another policy: of the providers that the first
      one had, and of those that its policy refused, exactly those that the new policy allows are back, with all that is
      persisted, up to the publisher's address. Only providers whose last write failed may be others. */
  method Restart(r: Registry, policy: Policy, poll: Polling, overrides: Overrides) returns (r': Registry)
    requires r.Valid()
    ensures r'.Valid() && r'.Timed() && fresh(r')
    ensures forall id | id !in r.failed ::
      id in r'.providers <==> (id in r.providers || id in r.refused) && id in policy.allowed
    ensures forall id | id in r'.providers && id !in r.failed ::
      r'.providers[id].record == FillIn(if id in r.providers then r.providers[id].record else r.disk[id])
  {
    r' := new Registry(r.disk, policy, poll, overrides);
  }

  /** Two updates of a provider that is known: another publisher without an address, and an address that does not
      parse. Both panic. */
  method UpdatesThatPanic(registry: Registry, id: PeerID, publisher: PeerID, now: Time, policy: Policy)
    returns (unreachable: Option<Error>, unparsed: Option<Error>)
    requires registry.Valid() && registry.Timed() && id in registry.providers && !registry.providers[id].inactive
    requires registry.providers[id].record.publisher != Some(publisher)
    modifies registry
    ensures unreachable == unparsed == Some(Panicked)
  {
    ghost var known := registry.Known(id);
    assert Panics(known, [], Some(publisher), []) && Panics(known, [None], None, []);
    unreachable := registry.RegisterOrUpdate(id, [], None, Some(publisher), [], now, policy, true);
    unparsed := registry.RegisterOrUpdate(id, [None], None, None, [], now, policy, true);
  }

  /** A provider without contact, alone in the registry: a reference to it that was found before a poll sees another
      contact time after it. */
  method PollChanges(registry: Registry, id: PeerID, now: Time) returns (info: ProviderInfo)
    requires registry.Valid() && registry.Timed() && registry.providers.Keys == {id} && registry.overrides == map[]
    requires registry.providers[id].record.publisher.Some? && registry.providers[id].lastContactTime.None?
    modifies registry, registry.providers.Values
    ensures info == old(registry.providers[id]) && info.lastContactTime == Some(now - registry.poll.interval)
  {
    info := registry.providers[id];
    registry.FirstOutcome(id, now);
    registry.PollProviders([id], now, {});
  }

  /** Such a registry is one that has just loaded a provider with a publisher. */
  method FirstPollChanges(r: Record, policy: Policy, poll: Polling, now: Time) returns (info: ProviderInfo)
    requires r.publisher.Some? && HasAddrs(r) && r.id in policy.allowed
    ensures fresh(info) && info.lastContactTime == Some(now - poll.interval)
  {
    var registry := new Registry(map[r.id := r], policy, poll, map[]);
    assert registry.providers[r.id].Tracked() == Live(None, false);
    info := PollChanges(registry, r.id, now);
  }

  /** The registry before polling, the intervals that polling is to use, and what it is to make of each provider. */
  datatype Before = Before(providers: map<PeerID, ProviderInfo>, used: map<PeerID, Polling>,
                           outcomes: map<PeerID, (Tracked, bool)>, disk: Disk,
                           failed: set<PeerID>, refused: set<PeerID>, history: map<PeerID, seq<Event>>)

  lemma TrackAfterPoll(before: Before, now: Time, id: PeerID)
    requires Foreseen(before, now) && id in before.history
    ensures Track(AddPoll(before.history, before.used, now)[id])
         == if id in before.outcomes then before.outcomes[id].0 else Gone
  {
    if id in before.used {
      TrackNext(before.history[id], Poll(now, before.used[id]));
    }
  }

  /** What polling is to make of each provider follows from its history, and whoever is gone stays gone. */
  ghost predicate Foreseen(before: Before, now: Time) {
    && before.outcomes.Keys == before.providers.Keys <= before.history.Keys
    && before.used.Keys <= before.providers.Keys
    && (forall id | id in before.history && id !in before.providers :: Track(before.history[id]) == Gone)
    && (forall id | id in before.outcomes ::
          before.outcomes[id].0 == if id in before.used then PollStep(before.used[id], now, Track(before.history[id]))
                                   else Track(before.history[id]))
  }

  /** What is left of an order from index i on. */
  function Rest(order: seq<PeerID>, i: nat): set<PeerID>
    requires i <= |order|
  {
    set k | i <= k < |order| :: order[k]
  }

  lemma NextInOrder(used: map<PeerID, Polling>, published: set<PeerID>, poll: Polling, overrides: Overrides,
                    order: seq<PeerID>, i: nat)
    requires i < |order| && Distinct(order) && used == Used(poll, overrides, published, order)
    ensures order[i] in Rest(order, i) && Rest(order, i + 1) == Rest(order, i) - {order[i]}
    ensures order[i] in used <==> order[i] in published
    ensures var polling := Carried(poll, overrides, published, order[..i]);
            var next := if order[i] !in published then polling
                        else if order[i] in overrides then overrides[order[i]] else polling;
            && (order[i] in published ==> used[order[i]] == next)
            && Carried(poll, overrides, published, order[..i + 1]) == next
  {
    UsedKeys(poll, overrides, published, order);
    if order[i] in published {
      UsedIsOwnOrCarried(poll, overrides, published, order, i);
    }
    assert order[..i + 1][..i] == order[..i];
  }
}
