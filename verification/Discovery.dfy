/** Which addresses are being discovered, and when discovery of an address may start again. The actions of the
    registry run one at a time, each reading the clock, so any run is a sequence of calls of the methods here. */
module Discovery {
  import opened Wrappers
  import opened Types

  datatype Refusal = InProgress | TooSoon

  /** When discovery of an address completed; None while it is in progress. */
  type Times = map<DiscoveryAddr, Option<Time>>

  /** The full record: what is running, and when each address was last done. */
  type Running = multiset<DiscoveryAddr>
  type DoneAt = map<DiscoveryAddr, Time>

  predicate RecentlyDone(wait: Time, completed: Time, now: Time) {
    wait != 0 && now - completed < wait
  }

  /** Why a discovery may not start, if it may not. */
  function NeedDiscover(times: Times, wait: Time, addr: DiscoveryAddr, now: Time): Option<Refusal> {
    if addr !in times then None
    else if times[addr].None? then Some(InProgress)
    else if RecentlyDone(wait, times[addr].value, now) then Some(TooSoon)
    else None
  }

  /** What remains after a cleanup. */
  function Cleaned(times: Times, wait: Time, now: Time): Times {
    map addr | addr in times && (times[addr].None? || RecentlyDone(wait, times[addr].value, now)) :: times[addr]
  }

  /** Cleaning up changes no answer, now or later. */
  lemma CleanupKeepsAnswers(times: Times, wait: Time, now: Time, addr: DiscoveryAddr, later: Time)
    requires now <= later
    ensures NeedDiscover(Cleaned(times, wait, now), wait, addr, later) == NeedDiscover(times, wait, addr, later)
  {
  }

  /** The rule, on a record that is never cleaned up. */
  function Rule(running: Running, done: DoneAt, wait: Time, addr: DiscoveryAddr, now: Time): Option<Refusal> {
    if addr in running then Some(InProgress)
    else if addr in done && RecentlyDone(wait, done[addr], now) then Some(TooSoon)
    else None
  }

  /** At most one discovery of an address is running, the addresses with one are those marked as in progress, and an
      address that is not remembered as done was done long enough ago. */
  ghost predicate Agree(times: Times, running: Running, done: DoneAt, wait: Time, clock: Time) {
    forall addr: DiscoveryAddr :: AgreeOn(times, running, done, wait, clock, addr)
  }

  predicate AgreeOn(times: Times, running: Running, done: DoneAt, wait: Time, clock: Time, addr: DiscoveryAddr) {
    if addr in times && times[addr].None? then running[addr] == 1
    else
      && running[addr] == 0
      && if addr in times then addr in done && done[addr] == times[addr].value
         else addr in done ==> !RecentlyDone(wait, done[addr], clock)
  }

  lemma StartAgrees(times: Times, running: Running, done: DoneAt, wait: Time, clock: Time, addr: DiscoveryAddr)
    requires Agree(times, running, done, wait, clock) && addr !in running
    ensures Agree(times[addr := None], running + multiset{addr}, done, wait, clock)
  {
    var marked, more := times[addr := None], running + multiset{addr};
    forall other: DiscoveryAddr ensures AgreeOn(marked, more, done, wait, clock, other) {
      assert AgreeOn(times, running, done, wait, clock, other);
    }
  }

  lemma CompleteAgrees(times: Times, running: Running, done: DoneAt, wait: Time, clock: Time,
                       addr: DiscoveryAddr)
    requires Agree(times, running, done, wait, clock) && addr in running
    ensures Agree(times[addr := Some(clock)], running - multiset{addr}, done[addr := clock], wait, clock)
  {
    var dated, fewer, done' := times[addr := Some(clock)], running - multiset{addr}, done[addr := clock];
    forall other: DiscoveryAddr ensures AgreeOn(dated, fewer, done', wait, clock, other) {
      assert AgreeOn(times, running, done, wait, clock, other);
    }
  }

  lemma CleanedAgrees(times: Times, running: Running, done: DoneAt, wait: Time, clock: Time)
    requires Agree(times, running, done, wait, clock)
    ensures Agree(Cleaned(times, wait, clock), running, done, wait, clock)
  {
    forall addr: DiscoveryAddr ensures AgreeOn(Cleaned(times, wait, clock), running, done, wait, clock, addr) {
      assert AgreeOn(times, running, done, wait, clock, addr);
    }
  }

  lemma LaterAgrees(times: Times, running: Running, done: DoneAt, wait: Time, clock: Time, now: Time)
    requires Agree(times, running, done, wait, clock) && clock <= now
    ensures Agree(times, running, done, wait, now)
  {
    forall addr: DiscoveryAddr ensures AgreeOn(times, running, done, wait, now, addr) {
      assert AgreeOn(times, running, done, wait, clock, addr);
    }
  }

  /** The bookkeeping, which forgets, answers as the rule does, which does not forget. */
  lemma NeedDiscoverFollowsRule(times: Times, running: Running, done: DoneAt, wait: Time, clock: Time,
                                addr: DiscoveryAddr, now: Time)
    requires Agree(times, running, done, wait, clock) && clock <= now
    ensures NeedDiscover(times, wait, addr, now) == Rule(running, done, wait, addr, now)
  {
    assert AgreeOn(times, running, done, wait, clock, addr);
  }

  class Discoveries {
    const wait: Time
    /** None stands for the nil map, which can be read but not written. */
    var discoverTimes: Option<Times>
    ghost var running: Running
    ghost var done: DoneAt
    ghost var clock: Time

    ghost function Recorded(): Times
      reads this
    {
      if discoverTimes.Some? then discoverTimes.value else map[]
    }

    ghost predicate Valid()
      reads this
    {
      Agree(Recorded(), running, done, wait, clock)
    }

    constructor (wait: Time, now: Time)
      ensures Valid() && this.wait == wait && running == multiset{} && done == map[] && clock == now
    {
      this.wait, discoverTimes := wait, None;
      running, done, clock := multiset{}, map[], now;
    }

    method SyncNeedDiscover(addr: DiscoveryAddr, now: Time) returns (refusal: Option<Refusal>)
      requires Valid() && clock <= now
      ensures refusal == NeedDiscover(Recorded(), wait, addr, now) == Rule(running, done, wait, addr, now)
      ensures refusal == Some(InProgress) <==> addr in running
      ensures refusal == Some(TooSoon) <==>
        addr !in running && wait != 0 && addr in done && now < done[addr] + wait
    {
      NeedDiscoverFollowsRule(Recorded(), running, done, wait, clock, addr, now);
      if discoverTimes.None? || addr !in discoverTimes.value {
        return None;
      }
      var completed := discoverTimes.value[addr];
      if completed.None? {
        return Some(InProgress);
      }
      if wait != 0 && now - completed.value < wait {
        return Some(TooSoon);
      }
      return None;
    }

    /** Start a discovery, unless the rule refuses. */
    method SyncStartDiscover(addr: DiscoveryAddr, now: Time) returns (refusal: Option<Refusal>)
      requires Valid() && clock <= now
      modifies this
      ensures Valid() && clock == now && done == old(done)
      ensures refusal == Rule(old(running), old(done), wait, addr, now)
      ensures refusal == Some(InProgress) <==> addr in old(running)
      ensures refusal == Some(TooSoon) <==>
        addr !in old(running) && wait != 0 && addr in done && now < done[addr] + wait
      ensures running == if refusal.None? then old(running) + multiset{addr} else old(running)
      ensures addr in running ==> running[addr] == 1
    {
      LaterAgrees(Recorded(), running, done, wait, clock, now);
      clock := now;
      assert AgreeOn(Recorded(), running, done, wait, clock, addr);
      refusal := SyncNeedDiscover(addr, now);
      if refusal.Some? {
        return;
      }
      StartAgrees(Recorded(), running, done, wait, clock, addr);
      if discoverTimes.None? {
        discoverTimes := Some(map[]);
      }
      discoverTimes := Some(discoverTimes.value[addr := None]);
      running := running + multiset{addr};
    }

    /** A running discovery is done. The map that is written is not nil. */
    method Complete(addr: DiscoveryAddr, now: Time)
      requires Valid() && clock <= now && addr in running
      modifies this
      ensures Valid() && clock == now
      ensures running == old(running) - multiset{addr} && done == old(done)[addr := now]
      ensures addr !in running
    {
      LaterAgrees(Recorded(), running, done, wait, clock, now);
      clock := now;
      assert AgreeOn(Recorded(), running, done, wait, clock, addr);
      CompleteAgrees(Recorded(), running, done, wait, clock, addr);
      discoverTimes := Some(discoverTimes.value[addr := Some(now)]);
      running, done := running - multiset{addr}, done[addr := now];
    }

    /** Forget the addresses whose time has passed, and the map itself once it is empty. */
    method Cleanup(now: Time)
      requires Valid() && clock <= now
      modifies this
      ensures Valid() && clock == now && running == old(running) && done == old(done)
      ensures Recorded() == Cleaned(old(Recorded()), wait, now)
      ensures forall addr: DiscoveryAddr :: addr in Recorded() <==>
        && addr in old(Recorded())
        && (old(Recorded())[addr].None? || (wait != 0 && now < old(Recorded())[addr].value + wait))
      ensures forall addr | addr in Recorded() :: Recorded()[addr] == old(Recorded())[addr]
      ensures discoverTimes == Some(map[]) ==> old(discoverTimes) == Some(map[])
    {
      LaterAgrees(Recorded(), running, done, wait, clock, now);
      clock := now;
      CleanedAgrees(Recorded(), running, done, wait, clock);
      if discoverTimes.None? || discoverTimes.value == map[] {
        assert Cleaned(Recorded(), wait, now) == Recorded();
        return;
      }
      var times := CleanUp(discoverTimes.value, wait, now);
      discoverTimes := if times == map[] then None else Some(times);
    }
  }

  /** The loop over the map that deletes from it. */
  method CleanUp(was: Times, wait: Time, now: Time) returns (times: Times)
    ensures times == Cleaned(was, wait, now)
  {
    times := was;
    var todo := times.Keys;
    while todo != {}
      invariant todo <= times.Keys <= was.Keys
      invariant forall addr | addr in times :: times[addr] == was[addr]
      invariant forall addr | addr in was && addr !in todo :: addr in times <==> addr in Cleaned(was, wait, now)
      decreases |todo|
    {
      var addr :| addr in todo;
      todo := todo - {addr};
      var completed := times[addr];
      if completed.None? {
        continue;
      }
      if wait != 0 && now - completed.value < wait {
        continue;
      }
      times := times - {addr};
    }
  }
}
