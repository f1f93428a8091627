/** Indexing the multihashes of an advertisement in batches. A producer fills one of two buffers and hands it over an
    unbuffered channel to a consumer, which stores it while the producer fills the other. */
module Batching {
  import opened Wrappers
  import opened Types

  function Valid(mhs: seq<Multihash>): seq<Multihash> {
    if mhs == [] then []
    else if mhs[0].decodes then [mhs[0]] + Valid(mhs[1..])
    else Valid(mhs[1..])
  }

  function Flatten(batches: seq<seq<Multihash>>): seq<Multihash> {
    if batches == [] then [] else batches[0] + Flatten(batches[1..])
  }

  // ---------- The result to be had ----------

  /** Cut off batches of n, and a last one with what is left. */
  function Chunks(s: seq<Multihash>, n: nat): seq<seq<Multihash>>
    requires n > 0
    decreases |s|
  {
    if s == [] then [] else if |s| <= n then [s] else [s[..n]] + Chunks(s[n..], n)
  }

  ghost predicate FullButLast(c: seq<seq<Multihash>>, n: nat) {
    && (forall i :: 0 <= i < |c| ==> 0 < |c[i]| <= n)
    && (forall i :: 0 <= i < |c| - 1 ==> |c[i]| == n)
  }

  lemma OneMoreFull(first: seq<Multihash>, rest: seq<seq<Multihash>>, n: nat)
    requires 0 < |first| == n && FullButLast(rest, n)
    ensures FullButLast([first] + rest, n) && Flatten([first] + rest) == first + Flatten(rest)
  {
    var c := [first] + rest;
    assert c[1..] == rest;
    forall i | 0 <= i < |c| ensures 0 < |c[i]| <= n && (i < |c| - 1 ==> |c[i]| == n) {
      assert i > 0 ==> c[i] == rest[i - 1];
    }
  }

  lemma OneBatch(s: seq<Multihash>)
    ensures Flatten([s]) == s
  {
    assert [s][1..] == [] && s + [] == s;
  }

  /** The batches hold everything in order; none is empty, and all but the last are full. */
  lemma {:induction false} ChunksPartition(s: seq<Multihash>, n: nat)
    requires n > 0
    ensures Flatten(Chunks(s, n)) == s && FullButLast(Chunks(s, n), n)
    decreases |s|
  {
    if s == [] {
    } else if |s| <= n {
      OneBatch(s);
    } else {
      ChunksPartition(s[n..], n);
      OneMoreFull(s[..n], Chunks(s[n..], n), n);
      assert s == s[..n] + s[n..];
    }
  }

  /** There is no other way to cut s like this. */
  lemma {:induction false} PartitionIsChunks(c: seq<seq<Multihash>>, n: nat)
    requires n > 0 && FullButLast(c, n)
    ensures Chunks(Flatten(c), n) == c
    decreases |c|
  {
    if |c| == 1 {
      assert Flatten(c[1..]) == [];
      assert Flatten(c) == c[0];
    } else if |c| > 1 {
      PartitionIsChunks(c[1..], n);
      var s := Flatten(c);
      assert s[..n] == c[0] && s[n..] == Flatten(c[1..]);
      assert |Flatten(c[1..])| >= |c[1..][0]|;
    }
  }

  lemma {:induction false} FlattenAppend(a: seq<seq<Multihash>>, b: seq<seq<Multihash>>)
    ensures Flatten(a + b) == Flatten(a) + Flatten(b)
  {
    if a == [] {
      assert a + b == b;
    } else {
      FlattenAppend(a[1..], b);
      assert (a + b)[1..] == a[1..] + b && (a + b)[0] == a[0];
      Assoc(a[0], Flatten(a[1..]), Flatten(b));
    }
  }

  lemma {:induction false} ValidAppend(a: seq<Multihash>, b: seq<Multihash>)
    ensures Valid(a + b) == Valid(a) + Valid(b)
  {
    if a == [] {
      assert a + b == b;
    } else {
      ValidAppend(a[1..], b);
      assert (a + b)[1..] == a[1..] + b;
    }
  }

  // ---------- The producer and the consumer ----------

  /** The producer scans entries into its buffer, waits to hand the buffer over, has closed the channel and waits for
      the consumer to be done, or has returned. */
  datatype Producer = Filling | Offering(last: bool) | Closing | Returned(ok: bool)

  /** The consumer waits for a batch, stores the slice of length `len` of buffer `buf`, has put an error into its
      channel, or has closed that channel without one. */
  datatype Consumer = Waiting | Storing(buf: nat, len: nat) | Failed | Finished

  /** `next` entries are scanned; `filled` of them stand in buffer `cur`. A batch is a slice of a buffer, so the
      consumer stores what the buffer holds when it gets to read it. */
  datatype State = State(next: nat, buffers: seq<seq<Multihash>>, cur: nat, filled: nat,
                         producer: Producer, consumer: Consumer, stored: seq<seq<Multihash>>)

  datatype Action = Scan | EndScan | Send | Store | StoreFails | TakeError | Stop | Return

  /** The buffers have room for n multihashes each, and hold anything. */
  ghost predicate Initial(n: nat, s: State) {
    && s.next == s.filled == s.cur == 0 && s.producer == Filling && s.consumer == Waiting && s.stored == []
    && |s.buffers| == 2 && |s.buffers[0]| == |s.buffers[1]| == n
  }

  predicate WellFormed(n: nat, mhs: seq<Multihash>, s: State) {
    && s.next <= |mhs| && s.cur < 2 && |s.buffers| == 2 && |s.buffers[0]| == |s.buffers[1]| == n
    && s.filled <= n && (s.producer.Filling? ==> s.filled < n)
    && (s.consumer.Storing? ==> s.consumer.buf < 2 && s.consumer.len <= n)
  }

  function ScanEntry(n: nat, mhs: seq<Multihash>, s: State): State
    requires WellFormed(n, mhs, s) && s.producer.Filling? && s.next < |mhs|
  {
    var entry := mhs[s.next];
    if !entry.decodes then s.(next := s.next + 1) else
    s.(next := s.next + 1,
       buffers := s.buffers[s.cur := s.buffers[s.cur][s.filled := entry]],
       filled := s.filled + 1,
       producer := if s.filled + 1 == n then Offering(false) else Filling)
  }

  ghost predicate Next(n: nat, mhs: seq<Multihash>, s: State, action: Action, t: State) {
    WellFormed(n, mhs, s) &&
    match action
    case Scan => s.producer.Filling? && s.next < |mhs| && t == ScanEntry(n, mhs, s)
    case EndScan =>
      && s.producer.Filling? && s.next == |mhs|
      && t == s.(producer := if s.filled != 0 then Offering(true) else Closing)
    case Send =>
      && s.producer.Offering? && s.consumer.Waiting?
      && t == if s.producer.last then s.(consumer := Storing(s.cur, s.filled), producer := Closing)
              else s.(consumer := Storing(s.cur, s.filled), cur := 1 - s.cur, filled := 0, producer := Filling)
    case Store =>
      && s.consumer.Storing?
      && t == s.(stored := s.stored + [s.buffers[s.consumer.buf][..s.consumer.len]], consumer := Waiting)
    case StoreFails => s.consumer.Storing? && t == s.(consumer := Failed)
    case TakeError => s.producer.Offering? && s.consumer.Failed? && t == s.(producer := Returned(false))
    case Stop => s.producer.Closing? && s.consumer.Waiting? && t == s.(consumer := Finished)
    case Return =>
      && s.producer.Closing? && (s.consumer.Finished? || s.consumer.Failed?)
      && t == s.(producer := Returned(s.consumer.Finished?))
  }

  ghost predicate Steps(n: nat, mhs: seq<Multihash>, states: seq<State>, actions: seq<Action>) {
    |states| == |actions| + 1 && forall i :: 0 <= i < |actions| ==> Next(n, mhs, states[i], actions[i], states[i + 1])
  }

  ghost predicate IsRun(n: nat, mhs: seq<Multihash>, states: seq<State>, actions: seq<Action>) {
    Steps(n, mhs, states, actions) && Initial(n, states[0])
  }

  // ---------- The invariant ----------

  /** The batch that the consumer is storing. */
  function InFlight(s: State): seq<seq<Multihash>>
    requires |s.buffers| == 2 && (s.consumer.Storing? ==> s.consumer.buf < 2)
    requires s.consumer.Storing? ==> s.consumer.len <= |s.buffers[s.consumer.buf]|
  {
    if s.consumer.Storing? then [s.buffers[s.consumer.buf][..s.consumer.len]] else []
  }

  /** What the producer has in its buffer and has not handed over. */
  function Pending(s: State): seq<Multihash>
    requires |s.buffers| == 2 && s.cur < 2 && s.filled <= |s.buffers[s.cur]|
  {
    if s.producer.Filling? || s.producer.Offering? then s.buffers[s.cur][..s.filled] else []
  }

  /** The buffer being filled is never one that the consumer reads. */
  predicate Apart(s: State) {
    s.consumer.Storing? && (s.producer.Filling? || s.producer.Offering?) ==> s.consumer.buf != s.cur
  }

  predicate AllFull(batches: seq<seq<Multihash>>, n: nat) {
    forall i :: 0 <= i < |batches| ==> |batches[i]| == n
  }

  predicate AllButLastFull(batches: seq<seq<Multihash>>, n: nat) {
    && (forall i :: 0 <= i < |batches| ==> 0 < |batches[i]| <= n)
    && (forall i :: 0 <= i < |batches| - 1 ==> |batches[i]| == n)
  }

  /** The batches handed over so far are the first of those that the valid multihashes are to be cut into. */
  predicate OnTrack(n: nat, mhs: seq<Multihash>, s: State, handed: seq<seq<Multihash>>, pending: seq<Multihash>)
    requires s.next <= |mhs|
  {
    && Flatten(handed) + pending == Valid(mhs[..s.next])
    && if s.producer.Filling? || s.producer.Offering? then AllFull(handed, n)
       else AllButLastFull(handed, n) && pending == [] && s.next == |mhs|
  }

  predicate ProducerOk(n: nat, mhs: seq<Multihash>, s: State) {
    match s.producer
    case Filling => true
    case Offering(last) => if last then 0 < s.filled < n && s.next == |mhs| else s.filled == n
    case Closing => true
    case Returned(ok) => if ok then s.consumer.Finished? else s.consumer.Failed?
  }

  /** Some but not all of the batches are stored. */
  predicate StoppedShort(n: nat, mhs: seq<Multihash>, stored: seq<seq<Multihash>>)
    requires n > 0
  {
    stored < Chunks(Valid(mhs), n)
  }

  predicate Inv(n: nat, mhs: seq<Multihash>, s: State)
    requires n > 0
  {
    && WellFormed(n, mhs, s) && Apart(s) && ProducerOk(n, mhs, s)
    && (s.consumer.Finished? ==> s.producer.Closing? || s.producer.Returned?)
    && if s.consumer.Failed? then StoppedShort(n, mhs, s.stored)
       else OnTrack(n, mhs, s, s.stored + InFlight(s), Pending(s))
  }

  lemma InitialInv(n: nat, mhs: seq<Multihash>, s: State)
    requires n > 0 && Initial(n, s)
    ensures Inv(n, mhs, s)
  {
    assert mhs[..0] == [];
  }

  lemma ValidNext(mhs: seq<Multihash>, i: nat)
    requires i < |mhs|
    ensures Valid(mhs[..i + 1]) == Valid(mhs[..i]) + if mhs[i].decodes then [mhs[i]] else []
  {
    assert mhs[..i + 1] == mhs[..i] + [mhs[i]];
    ValidAppend(mhs[..i], [mhs[i]]);
  }

  lemma ScanKeepsInv(n: nat, mhs: seq<Multihash>, s: State, t: State)
    requires n > 0 && Inv(n, mhs, s) && Next(n, mhs, s, Scan, t)
    ensures Inv(n, mhs, t)
  {
    ValidNext(mhs, s.next);
    assert InFlight(t) == InFlight(s);
    if mhs[s.next].decodes {
      assert Pending(t) == Pending(s) + [mhs[s.next]];
    } else {
      assert Pending(t) == Pending(s);
    }
    if !s.consumer.Failed? {
      var handed := s.stored + InFlight(s);
      assert Flatten(handed) + Pending(t) == Valid(mhs[..t.next]);
    }
  }

  lemma EndScanKeepsInv(n: nat, mhs: seq<Multihash>, s: State, t: State)
    requires n > 0 && Inv(n, mhs, s) && Next(n, mhs, s, EndScan, t)
    ensures Inv(n, mhs, t)
  {
    assert InFlight(t) == InFlight(s) && Pending(t) == Pending(s);
  }

  lemma SendKeepsInv(n: nat, mhs: seq<Multihash>, s: State, t: State)
    requires n > 0 && Inv(n, mhs, s) && Next(n, mhs, s, Send, t)
    ensures Inv(n, mhs, t)
  {
    assert InFlight(s) == [] && InFlight(t) == [Pending(s)] && Pending(t) == [];
    assert s.stored + [] == s.stored;
    FlattenAppend(s.stored, [Pending(s)]);
    assert Flatten([Pending(s)]) == Pending(s) by { assert [Pending(s)][1..] == []; }
  }

  lemma StoreKeepsInv(n: nat, mhs: seq<Multihash>, s: State, t: State)
    requires n > 0 && Inv(n, mhs, s) && Next(n, mhs, s, Store, t)
    ensures Inv(n, mhs, t)
  {
    assert t.stored + InFlight(t) == s.stored + InFlight(s) && Pending(t) == Pending(s);
  }

  /** Full batches from the start of v are the first of its chunks. */
  lemma {:induction false} FullPrefix(full: seq<seq<Multihash>>, rest: seq<Multihash>, n: nat)
    requires n > 0 && AllFull(full, n)
    ensures full <= Chunks(Flatten(full) + rest, n)
    decreases |full|
  {
    if full != [] {
      FullPrefix(full[1..], rest, n);
      var v := Flatten(full) + rest;
      assert v[..n] == full[0] && v[n..] == Flatten(full[1..]) + rest;
      if |full| > 1 {
        assert |Flatten(full[1..])| >= |full[1]|;
      }
    }
  }

  lemma HandedAreFirst(n: nat, mhs: seq<Multihash>, s: State, handed: seq<seq<Multihash>>, pending: seq<Multihash>)
    requires n > 0 && s.next <= |mhs| && OnTrack(n, mhs, s, handed, pending)
    ensures handed <= Chunks(Valid(mhs), n)
    ensures !s.producer.Filling? && !s.producer.Offering? ==> handed == Chunks(Valid(mhs), n)
  {
    if s.producer.Filling? || s.producer.Offering? {
      var rest := mhs[s.next..];
      assert mhs == mhs[..s.next] + rest;
      ValidAppend(mhs[..s.next], rest);
      FullPrefix(handed, pending + Valid(rest), n);
      assert Flatten(handed) + (pending + Valid(rest)) == Flatten(handed) + pending + Valid(rest);
    } else {
      assert mhs[..s.next] == mhs && Flatten(handed) + [] == Flatten(handed);
      PartitionIsChunks(handed, n);
    }
  }

  lemma StoreFailsKeepsInv(n: nat, mhs: seq<Multihash>, s: State, t: State)
    requires n > 0 && Inv(n, mhs, s) && Next(n, mhs, s, StoreFails, t)
    ensures Inv(n, mhs, t)
  {
    HandedAreFirst(n, mhs, s, s.stored + InFlight(s), Pending(s));
  }

  lemma NextKeepsInv(n: nat, mhs: seq<Multihash>, s: State, action: Action, t: State)
    requires n > 0 && Inv(n, mhs, s) && Next(n, mhs, s, action, t)
    ensures Inv(n, mhs, t)
  {
    match action
    case Scan => ScanKeepsInv(n, mhs, s, t);
    case EndScan => EndScanKeepsInv(n, mhs, s, t);
    case Send => SendKeepsInv(n, mhs, s, t);
    case Store => StoreKeepsInv(n, mhs, s, t);
    case StoreFails => StoreFailsKeepsInv(n, mhs, s, t);
    case _ =>
  }

  lemma {:induction false} RunKeepsInv(n: nat, mhs: seq<Multihash>, states: seq<State>, actions: seq<Action>, i: nat)
    requires n > 0 && IsRun(n, mhs, states, actions) && i < |states|
    ensures Inv(n, mhs, states[i])
  {
    if i == 0 {
      InitialInv(n, mhs, states[0]);
    } else {
      RunKeepsInv(n, mhs, states, actions, i - 1);
      NextKeepsInv(n, mhs, states[i - 1], actions[i - 1], states[i]);
    }
  }

  // ---------- What every run does ----------

  /** In every reachable state: a write to a buffer does not touch what the consumer is reading; what is stored is the
      first of the batches to be had; and when the call has returned, it returned success exactly if all are stored. */
  lemma BatchesAreStoredInOrder(n: nat, mhs: seq<Multihash>, states: seq<State>, actions: seq<Action>, i: nat)
    requires n > 0 && IsRun(n, mhs, states, actions) && i < |states|
    ensures Apart(states[i])
    ensures states[i].stored <= Chunks(Valid(mhs), n)
    ensures states[i].producer.Returned? ==>
      && (states[i].producer.ok <==> states[i].stored == Chunks(Valid(mhs), n))
      && (states[i].consumer.Finished? || states[i].consumer.Failed?)
  {
    RunKeepsInv(n, mhs, states, actions, i);
    var s := states[i];
    if !s.consumer.Failed? {
      HandedAreFirst(n, mhs, s, s.stored + InFlight(s), Pending(s));
    }
  }

  function Enabled(n: nat, mhs: seq<Multihash>, s: State): Action
    requires n > 0 && Inv(n, mhs, s) && !s.producer.Returned?
  {
    match s.producer
    case Filling => if s.next < |mhs| then Scan else EndScan
    case Offering(last) => if s.consumer.Waiting? then Send else if s.consumer.Storing? then Store else TakeError
    case Closing =>
      if s.consumer.Storing? then Store else if s.consumer.Waiting? then Stop else Return
  }

  /** The state after an action that can happen. */
  function After(n: nat, mhs: seq<Multihash>, s: State, action: Action): State
    requires WellFormed(n, mhs, s)
    requires action.Scan? ==> s.producer.Filling? && s.next < |mhs|
    requires action.Send? ==> s.producer.Offering?
    requires action.Store? ==> s.consumer.Storing?
  {
    match action
    case Scan => ScanEntry(n, mhs, s)
    case EndScan => s.(producer := if s.filled != 0 then Offering(true) else Closing)
    case Send =>
      if s.producer.last then s.(consumer := Storing(s.cur, s.filled), producer := Closing)
      else s.(consumer := Storing(s.cur, s.filled), cur := 1 - s.cur, filled := 0, producer := Filling)
    case Store => s.(stored := s.stored + [s.buffers[s.consumer.buf][..s.consumer.len]], consumer := Waiting)
    case StoreFails => s.(consumer := Failed)
    case TakeError => s.(producer := Returned(false))
    case Stop => s.(consumer := Finished)
    case Return => s.(producer := Returned(s.consumer.Finished?))
  }

  /** Neither side is ever stuck: until the call returns, some step can be taken. */
  lemma NoDeadlock(n: nat, mhs: seq<Multihash>, s: State)
    requires n > 0 && Inv(n, mhs, s) && !s.producer.Returned?
    ensures exists action, t :: Next(n, mhs, s, action, t)
  {
    var action := Enabled(n, mhs, s);
    assert Next(n, mhs, s, action, After(n, mhs, s, action));
  }

  /** How many steps can still follow, at most. */
  function Work(mhs: seq<Multihash>, s: State): nat
    requires s.next <= |mhs|
  {
    var producer := match s.producer
      case Filling => 4
      case Offering(last) => if last then 3 else 6
      case Closing => 1
      case Returned(ok) => 0;
    var consumer := match s.consumer
      case Storing(buf, len) => 2
      case Waiting => 1
      case _ => 0;
    3 * (|mhs| - s.next) + producer + consumer
  }

  /** Every step uses up work, so every run ends, and by `NoDeadlock` it ends with the call returning. */
  lemma StepsUseUpWork(n: nat, mhs: seq<Multihash>, s: State, action: Action, t: State)
    requires Next(n, mhs, s, action, t)
    ensures t.next <= |mhs| && Work(mhs, t) < Work(mhs, s)
  {
  }

  lemma {:induction false} RunsEnd(n: nat, mhs: seq<Multihash>, states: seq<State>, actions: seq<Action>, i: nat)
    requires n > 0 && IsRun(n, mhs, states, actions) && i < |states|
    ensures states[i].next <= |mhs| && i + Work(mhs, states[i]) <= 3 * |mhs| + 5
  {
    if i > 0 {
      RunsEnd(n, mhs, states, actions, i - 1);
      StepsUseUpWork(n, mhs, states[i - 1], actions[i - 1], states[i]);
    }
  }

  // ---------- What it amounts to ----------

  /** One call of the indexer: put all of a batch, or remove all of it. */
  function StoreBatch(index: set<Multihash>, isRm: bool, batch: seq<Multihash>): set<Multihash> {
    var mhs := set mh | mh in batch;
    if isRm then index - mhs else index + mhs
  }

  function StoreBatches(index: set<Multihash>, isRm: bool, batches: seq<seq<Multihash>>): set<Multihash>
    decreases |batches|
  {
    if batches == [] then index else StoreBatches(StoreBatch(index, isRm, batches[0]), isRm, batches[1..])
  }

  /** Batching makes no difference to the index. */
  lemma {:induction false} BatchesAmountToOneCall(index: set<Multihash>, isRm: bool, batches: seq<seq<Multihash>>)
    ensures StoreBatches(index, isRm, batches) == StoreBatch(index, isRm, Flatten(batches))
    decreases |batches|
  {
    if batches != [] {
      var first, rest := batches[0], Flatten(batches[1..]);
      BatchesAmountToOneCall(StoreBatch(index, isRm, first), isRm, batches[1..]);
      assert forall mh :: mh in first + rest <==> mh in first || mh in rest;
    }
  }

  ghost predicate InSome(batches: seq<seq<Multihash>>, mh: Multihash) {
    exists k :: 0 <= k < |batches| && mh in batches[k]
  }

  lemma {:induction false} InFlattened(batches: seq<seq<Multihash>>, mh: Multihash)
    ensures mh in Flatten(batches) <==> InSome(batches, mh)
  {
    if batches != [] {
      InFlattened(batches[1..], mh);
      if InSome(batches[1..], mh) {
        var k :| 0 <= k < |batches[1..]| && mh in batches[1..][k];
        assert mh in batches[k + 1];
      }
      if InSome(batches, mh) && mh !in batches[0] {
        var k :| 0 <= k < |batches| && mh in batches[k];
        assert mh in batches[1..][k - 1];
      }
    }
  }

  /** What is in the index after some batches: they are added, or taken away. */
  lemma StoredIff(index: set<Multihash>, isRm: bool, batches: seq<seq<Multihash>>, mh: Multihash)
    ensures mh in StoreBatches(index, isRm, batches) <==>
            if isRm then mh in index && !InSome(batches, mh) else mh in index || InSome(batches, mh)
  {
    BatchesAmountToOneCall(index, isRm, batches);
    InFlattened(batches, mh);
  }

  lemma {:induction false} ValidIff(mhs: seq<Multihash>, mh: Multihash)
    ensures mh in Valid(mhs) <==> mh in mhs && mh.decodes
  {
    if mhs != [] {
      ValidIff(mhs[1..], mh);
    }
  }

  /** What a call that has returned leaves in the index: on success every given multihash that decodes is put, or
      removed; on failure each of them is either that or as it was; and all others are as they were. */
  lemma CallChangesIndex(n: nat, mhs: seq<Multihash>, states: seq<State>, actions: seq<Action>,
                         index: set<Multihash>, isRm: bool, mh: Multihash)
    requires n > 0 && IsRun(n, mhs, states, actions) && states[|actions|].producer.Returned?
    ensures var s := states[|actions|];
            var after := StoreBatches(index, isRm, s.stored);
            && (mh in mhs && mh.decodes && s.producer.ok ==> (mh in after <==> !isRm))
            && (mh in mhs && mh.decodes && !s.producer.ok ==>
                  (mh in after <==> !isRm) || (mh in after <==> mh in index))
            && (!(mh in mhs && mh.decodes) ==> (mh in after <==> mh in index))
  {
    var s := states[|actions|];
    BatchesAreStoredInOrder(n, mhs, states, actions, |actions|);
    ChunksPartition(Valid(mhs), n);
    var c := Chunks(Valid(mhs), n);
    StoredIff(index, isRm, s.stored, mh);
    InFlattened(c, mh);
    ValidIff(mhs, mh);
    if InSome(s.stored, mh) {
      var k :| 0 <= k < |s.stored| && mh in s.stored[k];
      assert s.stored[k] == c[k];
    }
  }

  /** The batches that one call of the above stores and whether it returns success, when the consumer fails at batch
      `fault` or does not fail. */
  function Indexed(mhs: seq<Multihash>, n: nat, fault: Option<nat>): (r: (seq<seq<Multihash>>, bool))
    requires n > 0
  {
    var c := Chunks(Valid(mhs), n);
    if fault.Some? && fault.value < |c| then (c[..fault.value], false) else (c, true)
  }

  /** Every run that has returned did what `Indexed` says, for some fault. */
  lemma RunsAreIndexed(n: nat, mhs: seq<Multihash>, states: seq<State>, actions: seq<Action>)
    requires n > 0 && IsRun(n, mhs, states, actions) && states[|actions|].producer.Returned?
    ensures var s := states[|actions|];
            exists fault :: Indexed(mhs, n, fault) == (s.stored, s.producer.ok)
  {
    BatchesAreStoredInOrder(n, mhs, states, actions, |actions|);
    var s := states[|actions|];
    var c := Chunks(Valid(mhs), n);
    assert s.stored == c[..|s.stored|];
    var fault := if s.producer.ok then None else Some(|s.stored|);
    assert Indexed(mhs, n, fault) == (s.stored, s.producer.ok);
  }

  /** The consumer has not got past the batch that it is to fail at, and fails at no other. */
  predicate OnCourse(s: State, fault: Option<nat>) {
    && (fault.Some? ==> |s.stored| <= fault.value)
    && (s.consumer.Failed? ==> fault == Some(|s.stored|))
  }

  lemma StepOn(n: nat, mhs: seq<Multihash>, s: State, fault: Option<nat>) returns (action: Action, t: State)
    requires n > 0 && Inv(n, mhs, s) && OnCourse(s, fault) && !s.producer.Returned?
    ensures Next(n, mhs, s, action, t) && Inv(n, mhs, t) && OnCourse(t, fault)
    ensures Work(mhs, t) < Work(mhs, s)
  {
    action := Enabled(n, mhs, s);
    if action.Store? && fault == Some(|s.stored|) {
      action := StoreFails;
    }
    t := After(n, mhs, s, action);
    NextKeepsInv(n, mhs, s, action, t);
    StepsUseUpWork(n, mhs, s, action, t);
  }

  lemma OneStepMore(n: nat, mhs: seq<Multihash>, s: State, action: Action, states: seq<State>, actions: seq<Action>)
    requires Steps(n, mhs, states, actions) && Next(n, mhs, s, action, states[0])
    ensures Steps(n, mhs, [s] + states, [action] + actions)
  {
    var ss, aa := [s] + states, [action] + actions;
    forall i | 0 <= i < |aa| ensures Next(n, mhs, ss[i], aa[i], ss[i + 1]) {
      var t, u := ss[i], ss[i + 1];
      if i > 0 {
        var k := i - 1;
        assert t == states[k] && aa[i] == actions[k] && u == states[k + 1];
      }
    }
  }

  /** Go on until the call returns. */
  lemma {:induction false} RunOn(n: nat, mhs: seq<Multihash>, s: State, fault: Option<nat>)
    returns (states: seq<State>, actions: seq<Action>)
    requires n > 0 && Inv(n, mhs, s) && OnCourse(s, fault)
    ensures Steps(n, mhs, states, actions) && states[0] == s
    ensures states[|actions|].producer.Returned? && OnCourse(states[|actions|], fault)
    decreases Work(mhs, s)
  {
    if s.producer.Returned? {
      return [s], [];
    }
    var action, t := StepOn(n, mhs, s, fault);
    var rest, more := RunOn(n, mhs, t, fault);
    OneStepMore(n, mhs, s, action, rest, more);
    states, actions := [s] + rest, [action] + more;
  }

  /** And whatever `Indexed` says is what some run does. */
  lemma IndexedIsReached(n: nat, mhs: seq<Multihash>, fault: Option<nat>)
    returns (states: seq<State>, actions: seq<Action>)
    requires n > 0
    ensures IsRun(n, mhs, states, actions) && states[|actions|].producer.Returned?
    ensures Indexed(mhs, n, fault) == (states[|actions|].stored, states[|actions|].producer.ok)
  {
    var buffer := seq(n, k => Multihash(0, false));
    var s := State(0, [buffer, buffer], 0, 0, Filling, Waiting, []);
    InitialInv(n, mhs, s);
    states, actions := RunOn(n, mhs, s, fault);
    BatchesAreStoredInOrder(n, mhs, states, actions, |actions|);
    RunKeepsInv(n, mhs, states, actions, |actions|);
    var stored := states[|actions|].stored;
    assert stored == Chunks(Valid(mhs), n)[..|stored|];
  }

  lemma IndexedIsPrefix(mhs: seq<Multihash>, n: nat, fault: Option<nat>)
    requires n > 0
    ensures var (stored, ok) := Indexed(mhs, n, fault);
            && Flatten(stored) <= Valid(mhs)
            && (ok <==> Flatten(stored) == Valid(mhs))
            && (forall i :: 0 <= i < |stored| ==> 0 < |stored[i]| <= n)
  {
    var c := Chunks(Valid(mhs), n);
    ChunksPartition(Valid(mhs), n);
    if fault.Some? && fault.value < |c| {
      var k := fault.value;
      assert c == c[..k] + c[k..];
      FlattenAppend(c[..k], c[k..]);
      assert |Flatten(c[k..])| >= |c[k]|;
    }
  }

  /** The valid part of a collection, as one batch if it is not empty. */
  function BatchOf(mhs: seq<Multihash>): seq<seq<Multihash>> {
    if Valid(mhs) == [] then [] else [Valid(mhs)]
  }

  /** The batches of a HAMT: the valid parts of consecutive collections of n keys, of which the last may be smaller. */
  function HamtBatches(collections: seq<seq<Multihash>>): seq<seq<Multihash>> {
    if collections == [] then [] else BatchOf(collections[0]) + HamtBatches(collections[1..])
  }

  lemma {:induction false} HamtBatchesAppend(a: seq<seq<Multihash>>, b: seq<seq<Multihash>>)
    ensures HamtBatches(a + b) == HamtBatches(a) + HamtBatches(b)
  {
    if a == [] {
      assert a + b == b;
    } else {
      HamtBatchesAppend(a[1..], b);
      assert (a + b)[1..] == a[1..] + b && (a + b)[0] == a[0];
      Assoc(BatchOf(a[0]), HamtBatches(a[1..]), HamtBatches(b));
    }
  }

  /** They hold the valid keys in order. */
  lemma {:induction false} HamtBatchesHoldValidKeys(collections: seq<seq<Multihash>>)
    ensures Flatten(HamtBatches(collections)) == Valid(Flatten(collections))
  {
    if collections != [] {
      var first, rest := collections[0], collections[1..];
      HamtBatchesHoldValidKeys(rest);
      FlattenAppend(BatchOf(first), HamtBatches(rest));
      ValidAppend(first, Flatten(rest));
      assert [Valid(first)][1..] == [];
    }
  }

  lemma {:induction false} ValidIsShorter(mhs: seq<Multihash>)
    ensures |Valid(mhs)| <= |mhs|
  {
    if mhs != [] {
      ValidIsShorter(mhs[1..]);
    }
  }

  /** Indexing one collection stores its batch, or nothing if that fails. */
  lemma CollectionIsOneBatch(mhs: seq<Multihash>, n: nat, fault: Option<nat>)
    requires n > 0 && |mhs| <= n
    ensures var (stored, ok) := Indexed(mhs, n, fault);
            if ok then stored == BatchOf(mhs) else stored == [] && BatchOf(mhs) != []
  {
    ValidIsShorter(mhs);
  }

  /** A collection of n keys more. */
  lemma {:induction false} ChunksGrow(full: seq<seq<Multihash>>, last: seq<Multihash>, rest: seq<Multihash>, n: nat)
    requires n > 0 && AllFull(full, n) && 0 < |last| <= n && (rest != [] ==> |last| == n)
    ensures full + [last] <= Chunks(Flatten(full) + last + rest, n)
    ensures rest == [] ==> full + [last] == Chunks(Flatten(full) + last + rest, n)
  {
    FlattenAppend(full, [last]);
    assert [last][1..] == [] && Flatten([last]) == last;
    if rest == [] {
      assert Flatten(full) + last + rest == Flatten(full + [last]);
      PartitionIsChunks(full + [last], n);
    } else {
      FullPrefix(full + [last], rest, n);
    }
  }

  lemma HamtBatchesStart(full: seq<seq<Multihash>>, more: seq<Multihash>, all: seq<seq<Multihash>>)
    requires full + [more] <= all
    ensures HamtBatches(full) + BatchOf(more) <= HamtBatches(all)
  {
    var tail := all[|full| + 1..];
    assert all == full + [more] + tail;
    HamtBatchesAppend(full + [more], tail);
    HamtBatchesAppend(full, [more]);
    assert [more][1..] == [] && HamtBatches([more]) == BatchOf(more) + [];
  }

  /** The keys of a HAMT are collected n at a time, and each collection is indexed by a call of its own, the j-th of
      which fails as `faults(j)` says. What is stored are the first of the batches, and all of them exactly if no call
      failed. */
  method IndexHamt(keys: seq<Multihash>, n: nat, faults: nat -> Option<nat>)
    returns (stored: seq<seq<Multihash>>, ok: bool)
    requires n > 0
    ensures stored <= HamtBatches(Chunks(keys, n))
    ensures ok <==> stored == HamtBatches(Chunks(keys, n))
  {
    stored := [];
    var mhs: seq<Multihash> := [];
    var calls := 0;
    ghost var full: seq<seq<Multihash>> := [];
    for i := 0 to |keys|
      invariant 0 <= calls && |mhs| < n && Collected(full, mhs, keys, n, i) && stored == HamtBatches(full)
    {
      CollectOne(full, mhs, keys, n, i);
      mhs := mhs + [keys[i]];
      if |mhs| >= n {
        stored, ok := IndexCollected(stored, mhs, n, faults(calls), keys, full, i + 1);
        if !ok {
          return;
        }
        calls := calls + 1;
        FullGrows(full, mhs, keys, n, i + 1);
        full := full + [mhs];
        mhs := [];
      }
    }
    if |mhs| > 0 {
      stored, ok := IndexCollected(stored, mhs, n, faults(calls), keys, full, |keys|);
      return;
    }
    AllCollected(full, keys, n);
    return stored, true;
  }

  /** The first i keys are those of full collections and what is collected now. */
  ghost predicate Collected(full: seq<seq<Multihash>>, mhs: seq<Multihash>, keys: seq<Multihash>, n: nat, i: nat) {
    i <= |keys| && AllFull(full, n) && Flatten(full) + mhs == keys[..i]
  }

  lemma CollectOne(full: seq<seq<Multihash>>, mhs: seq<Multihash>, keys: seq<Multihash>, n: nat, i: nat)
    requires Collected(full, mhs, keys, n, i) && i < |keys|
    ensures Collected(full, mhs + [keys[i]], keys, n, i + 1)
  {
    Assoc(Flatten(full), mhs, [keys[i]]);
  }

  lemma FullGrows(full: seq<seq<Multihash>>, mhs: seq<Multihash>, keys: seq<Multihash>, n: nat, i: nat)
    requires Collected(full, mhs, keys, n, i) && |mhs| == n
    ensures Collected(full + [mhs], [], keys, n, i)
  {
    FlattenAppend(full, [mhs]);
    assert [mhs][1..] == [] && Flatten([mhs]) == mhs;
    assert Flatten(full + [mhs]) + [] == Flatten(full) + mhs;
  }

  lemma AllCollected(full: seq<seq<Multihash>>, keys: seq<Multihash>, n: nat)
    requires n > 0 && Collected(full, [], keys, n, |keys|)
    ensures full == Chunks(keys, n)
  {
    assert Flatten(full) + [] == Flatten(full) && keys[..|keys|] == keys;
    PartitionIsChunks(full, n);
  }

  /** Index what was collected last from the first i keys. */
  method IndexCollected(before: seq<seq<Multihash>>, mhs: seq<Multihash>, n: nat, fault: Option<nat>,
                        ghost keys: seq<Multihash>, ghost full: seq<seq<Multihash>>, ghost i: nat)
    returns (stored: seq<seq<Multihash>>, ok: bool)
    requires n > 0 && Collected(full, mhs, keys, n, i) && before == HamtBatches(full)
    requires 0 < |mhs| <= n && (i < |keys| ==> |mhs| == n)
    ensures ok ==> stored == HamtBatches(full + [mhs])
    ensures !ok ==> stored < HamtBatches(Chunks(keys, n))
    ensures ok && i == |keys| ==> stored == HamtBatches(Chunks(keys, n))
  {
    var (batches, success) := Indexed(mhs, n, fault);
    CollectionIsOneBatch(mhs, n, fault);
    assert keys == keys[..i] + keys[i..];
    ChunksGrow(full, mhs, keys[i..], n);
    HamtBatchesStart(full, mhs, Chunks(keys, n));
    HamtBatchesAppend(full, [mhs]);
    assert [mhs][1..] == [] && HamtBatches([mhs]) == BatchOf(mhs) + [];
    return before + batches, success;
  }
}
