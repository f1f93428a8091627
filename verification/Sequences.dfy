/** Replay rejection by sequence numbers, with garbage collection of old ones. */
module Sequences {
  import opened Wrappers
  import opened Types
  import opened Words

  const DEFAULT_MAX_AGE := 48 * 3600 * 1_000_000_000

  /** The oldest sequence number allowed: the reading of the clock less the maximum age, in nanoseconds, as an unsigned
      64-bit number. */
  function OldestAllowed(now: nat, maxAge: nat): u64
    requires now < TWO_63 && maxAge < TWO_63
  {
    if now >= maxAge then now - maxAge else now - maxAge + TWO_64
  }

  /** The calls in the order in which they hold the mutex. Each reads the clock before it asks for the mutex, so the
      floors, which come from these readings, may be in any order. */
  datatype Event = Check(id: PeerID, sequence: u64, floor: u64) | Retire(floor: u64)

  type Seen = map<PeerID, u64>

  predicate Accepts(seen: Seen, e: Event) {
    e.Check? && e.floor <= e.sequence && (e.id in seen ==> seen[e.id] < e.sequence)
  }

  function Step(seen: Seen, e: Event): Seen {
    match e
    case Check(id, sequence, floor) => if Accepts(seen, e) then seen[id := sequence] else seen
    case Retire(floor) => map id | id in seen && seen[id] > floor :: seen[id]
  }

  function After(events: seq<Event>, n: nat): Seen
    requires n <= |events|
  {
    if n == 0 then map[] else Step(After(events, n - 1), events[n - 1])
  }

  predicate Accepted(events: seq<Event>, i: nat) {
    i < |events| && Accepts(After(events, i), events[i])
  }

  /** The garbage collection at j may forget what the check at i accepted, and the check at k may accept it again. */
  predicate Clash(events: seq<Event>, i: int, j: int, k: int) {
    && 0 <= i < j < k < |events| && events[i].Check? && events[j].Retire? && events[k].Check?
    && events[i].floor <= events[j].floor && events[k].floor <= events[j].floor
  }

  ghost predicate Safe(events: seq<Event>) {
    forall i, j, k :: !Clash(events, i, j, k)
  }

  /** The later of two calls accepts a number for the same peer that is not higher. */
  predicate Replays(events: seq<Event>, i: int, k: int) {
    && 0 <= i < k && Accepted(events, i) && Accepted(events, k)
    && events[i].id == events[k].id && events[k].sequence <= events[i].sequence
  }

  /** Of the sequence numbers accepted for a peer, each is higher than those before it. */
  ghost predicate RejectsReplay(events: seq<Event>) {
    forall i, k :: !Replays(events, i, k)
  }

  /** An accepted number is remembered by itself or a higher one, unless garbage collection may have forgotten it. */
  lemma {:induction false} RememberedOrRetired(events: seq<Event>, i: nat, n: nat) returns (j: nat)
    requires Accepted(events, i) && i < n <= |events|
    ensures var seen, e := After(events, n), events[i];
            || (e.id in seen && e.sequence <= seen[e.id])
            || (i < j < n && events[j].Retire? && e.sequence <= events[j].floor)
  {
    j := 0;
    if n > i + 1 {
      j := RememberedOrRetired(events, i, n - 1);
      if events[n - 1].Retire? && events[i].id in After(events, n - 1) && events[i].id !in After(events, n) {
        j := if i < j < n - 1 && events[j].Retire? && events[i].sequence <= events[j].floor then j else n - 1;
      }
    }
  }

  /** A replay takes a clash. */
  lemma ReplayMeansClash(events: seq<Event>, i: nat, k: nat) returns (j: nat)
    requires Replays(events, i, k)
    ensures Clash(events, i, j, k)
  {
    j := RememberedOrRetired(events, i, k);
  }

  lemma SafeRejectsReplay(events: seq<Event>)
    requires Safe(events)
    ensures RejectsReplay(events)
  {
    forall i, k ensures !Replays(events, i, k) {
      if Replays(events, i, k) {
        var j := ReplayMeansClash(events, i, k);
      }
    }
  }

  /** The same calls in the same order with the same readings of the clock, for any peers and sequence numbers. */
  ghost predicate SameSchedule(a: seq<Event>, b: seq<Event>) {
    && |a| == |b|
    && forall i | 0 <= i < |a| :: a[i].floor == b[i].floor && a[i].Check? == b[i].Check?
  }

  /** One number, checked for one peer at i and at k; the other checks are for another peer. */
  function Replayed(events: seq<Event>, i: nat, k: nat, sequence: u64): seq<Event> {
    seq(|events|, m requires 0 <= m < |events| =>
      if events[m].Retire? then events[m]
      else if m == i || m == k then Check(PeerID(0), sequence, events[m].floor)
      else Check(PeerID(1), sequence, events[m].floor))
  }

  lemma {:induction false} ForgottenBefore(events: seq<Event>, i: nat, j: nat, k: nat, n: nat)
    requires i < j < k < |events| && n <= k && events[i].Check? && events[j].Retire? && events[k].Check?
    ensures var sequence := events[j].floor;
            var seen := After(Replayed(events, i, k, sequence), n);
            PeerID(0) in seen ==> i < n <= j && seen[PeerID(0)] == sequence
  {
    if n > 0 {
      ForgottenBefore(events, i, j, k, n - 1);
    }
  }

  lemma UnsafeAllowsReplay(events: seq<Event>) returns (replay: seq<Event>)
    requires !Safe(events)
    ensures SameSchedule(events, replay) && !RejectsReplay(replay)
  {
    var i, j, k :| Clash(events, i, j, k);
    replay := Replayed(events, i, k, events[j].floor);
    ForgottenBefore(events, i, j, k, i);
    ForgottenBefore(events, i, j, k, k);
    assert Replays(replay, i, k);
  }

  lemma SameScheduleIsSafe(events: seq<Event>, other: seq<Event>)
    requires Safe(events) && SameSchedule(events, other)
    ensures Safe(other)
  {
    forall i, j, k ensures !Clash(other, i, j, k) {
      assert !Clash(events, i, j, k);
    }
  }

  /** Replays are rejected whatever is asked, exactly on the safe schedules. */
  lemma ReplayRejectedIffSafe(events: seq<Event>)
    ensures Safe(events) <==> forall other | SameSchedule(events, other) :: RejectsReplay(other)
  {
    if Safe(events) {
      forall other | SameSchedule(events, other) ensures RejectsReplay(other) {
        SameScheduleIsSafe(events, other);
        SafeRejectsReplay(other);
      }
    } else {
      var replay := UnsafeAllowsReplay(events);
    }
  }

  /** Every call reads a later time than the one before it. */
  ghost predicate Advances(events: seq<Event>, times: seq<nat>, maxAge: nat) {
    && maxAge < TWO_63 && |times| == |events|
    && (forall i | 0 <= i < |times| :: times[i] < TWO_63 && events[i].floor == OldestAllowed(times[i], maxAge))
    && forall i, j | 0 <= i < j < |times| :: times[i] < times[j]
  }

  /** A check and a garbage collection within the maximum age of the epoch, when floors wrap around to huge numbers,
      and a check after that. */
  predicate Straddles(events: seq<Event>, times: seq<nat>, maxAge: nat, i: int, j: int, k: int) {
    && 0 <= i < j < k < |events| == |times| && events[i].Check? && events[j].Retire? && events[k].Check?
    && times[j] < maxAge <= times[k]
  }

  lemma ClashesStraddle(events: seq<Event>, times: seq<nat>, maxAge: nat, i: int, j: int, k: int)
    requires Advances(events, times, maxAge)
    ensures Clash(events, i, j, k) <==> Straddles(events, times, maxAge, i, j, k)
  {
    if 0 <= i < j < k < |events| {
      assert times[i] < times[j] < times[k];
    }
  }

  /** With a clock that strictly advances between the calls, replays are rejected, whatever is asked, exactly if no such
      three calls straddle the moment that is the maximum age after the epoch. */
  lemma AdvancingClockRejectsReplay(events: seq<Event>, times: seq<nat>, maxAge: nat)
    requires Advances(events, times, maxAge)
    ensures (forall other | SameSchedule(events, other) :: RejectsReplay(other))
       <==> (forall i, j, k :: !Straddles(events, times, maxAge, i, j, k))
  {
    ReplayRejectedIffSafe(events);
    forall i, j, k ensures Clash(events, i, j, k) <==> Straddles(events, times, maxAge, i, j, k) {
      ClashesStraddle(events, times, maxAge, i, j, k);
    }
  }

  /** It is not enough that the clock never goes back: a check, a garbage collection and a check again that read the
      same time accept the same number twice. */
  lemma SameTimeAllowsReplay(id: PeerID, floor: u64)
    ensures !RejectsReplay([Check(id, floor, floor), Retire(floor), Check(id, floor, floor)])
  {
    var events := [Check(id, floor, floor), Retire(floor), Check(id, floor, floor)];
    assert After(events, 0) == map[];
    assert After(events, 1) == map[id := floor];
    assert After(events, 2) == map[];
    assert Replays(events, 0, 2);
  }

  // ---------- The code ----------

  /** A number is in time until more than the maximum age has passed since the time it stands for. Sooner than the
      maximum age after the epoch, only numbers just below 2^64 are, which stand for times before the epoch then. */
  predicate InTime(sequence: u64, now: nat, maxAge: nat) {
    if maxAge <= now then now <= sequence + maxAge else now + TWO_64 <= sequence + maxAge
  }

  /** A number that is remembered goes once the maximum age has passed, when it is still in time for an instant. */
  predicate DueToGo(sequence: u64, now: nat, maxAge: nat) {
    if maxAge <= now then sequence + maxAge <= now else sequence + maxAge <= now + TWO_64
  }


  datatype CheckError = TooSmall | NotAboveLast

  class SequenceChecker {
    const maxAge: nat
    var seqs: Seen

    constructor (maxAge: nat)
      ensures seqs == map[] && this.maxAge == if maxAge == 0 then DEFAULT_MAX_AGE else maxAge
    {
      this.maxAge := if maxAge == 0 then DEFAULT_MAX_AGE else maxAge;
      seqs := map[];
    }

    /** Check a sequence number at the time that was read from the clock. */
    method Check(id: PeerID, sequence: u64, now: nat) returns (err: Option<CheckError>)
      requires now < TWO_63 && maxAge < TWO_63
      modifies this
      ensures var e := Event.Check(id, sequence, OldestAllowed(now, maxAge));
              && seqs == Step(old(seqs), e) && (err.None? <==> Accepts(old(seqs), e))
              && (err == Some(TooSmall) <==> sequence < e.floor)
      ensures err == Some(TooSmall) <==> !InTime(sequence, now, maxAge)
      ensures err == Some(NotAboveLast) <==>
        InTime(sequence, now, maxAge) && id in old(seqs) && sequence <= old(seqs)[id]
      ensures seqs == if err.None? then old(seqs)[id := sequence] else old(seqs)
    {
      var oldestAllowed := OldestAllowed(now, maxAge);
      if sequence < oldestAllowed {
        return Some(TooSmall);
      }
      if id in seqs && sequence <= seqs[id] {
        return Some(NotAboveLast);
      }
      seqs := seqs[id := sequence];
      return None;
    }

    /** Forget the sequence numbers that are too old to be checked. */
    method Retire(now: nat)
      requires now < TWO_63 && maxAge < TWO_63
      modifies this
      ensures seqs == Step(old(seqs), Event.Retire(OldestAllowed(now, maxAge)))
      ensures forall id :: id in seqs <==> id in old(seqs) && !DueToGo(old(seqs)[id], now, maxAge)
      ensures forall id | id in seqs :: seqs[id] == old(seqs)[id]
    {
      var oldestAllowed := OldestAllowed(now, maxAge);
      var active: Seen := map[];
      var ids := seqs.Keys;
      while ids != {}
        invariant ids <= seqs.Keys
        invariant active == map id | id in seqs && id !in ids && seqs[id] > oldestAllowed :: seqs[id]
        decreases |ids|
      {
        var id :| id in ids;
        if seqs[id] > oldestAllowed {
          active := active[id := seqs[id]];
        }
        ids := ids - {id};
      }
      seqs := active;
    }
  }
}
