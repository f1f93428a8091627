/** Stagers, workers and announcers sharing the staging cells, the provider locks and the token channel.
    Each step is one atomic action of one thread; a run interleaves the steps of any number of threads. */
module Staging {
  import opened Types

  /** The advertisements staged for a provider, newest first, by their position on the provider's chain. */
  type Batch = seq<nat>
  type Tid = int
  datatype Group = Group(provider: PeerID, batch: Batch)

  datatype Thread =
    | Idle
    | Staging(todo: seq<Group>)                            // about to look up the lock and cell of todo[0]
    | Swapping(p: PeerID, batch: Batch, todo: seq<Group>)  // about to swap batch into the cell
    | Sending(p: PeerID, todo: seq<Group>)                 // blocked on sending a token
    | Waking(p: PeerID)                                    // received a token, about to take the lock
    | Locked(p: PeerID)                                    // holds the lock, about to drain the cell
    | Working(p: PeerID, batch: Batch)                     // processing what it drained
    | Announcing(p: PeerID)                                // about to take the pending announce
    | Releasing(p: PeerID)                                 // handling an announce, about to release the lock
    | Knocking(p: PeerID, announce: nat)                   // about to try the lock for a direct announce

  /** `locks[p]` says whether p's lock channel, of capacity 1, is full. A thread that is not mentioned is idle. */
  datatype State = State(locks: map<PeerID, bool>, cells: map<PeerID, Cell<Batch>>, threads: map<Tid, Thread>,
                         pending: map<PeerID, nat>)

  function At(s: State, t: Tid): Thread {
    if t in s.threads then s.threads[t] else Idle
  }

  function Goto(s: State, t: Tid, th: Thread): State {
    s.(threads := s.threads[t := th])
  }

  predicate HasAssignment(s: State, p: PeerID) {
    p in s.cells && s.cells[p].Staged?
  }

  datatype Label =
    | Begin(t: Tid, groups: seq<Group>) | Ensure(t: Tid) | Swap(t: Tid) | Send(t: Tid, w: Tid) | EndStep(t: Tid)
    | Lock(w: Tid) | Drain(w: Tid) | Finish(w: Tid) | TakePending(w: Tid) | Unlock(w: Tid)
    | Announce(t: Tid, p: PeerID, announce: nat) | Knock(t: Tid) | GiveUp(t: Tid)

  predicate NonEmpty(groups: seq<Group>) {
    forall i :: 0 <= i < |groups| ==> groups[i].batch != []
  }

  /** A label that can happen in a state. A lock or cell that the program dereferences is not asked to exist
      here: `NeverStuckOnNil` proves that it does. */
  predicate Enabled(s: State, l: Label) {
    match l
    case Begin(t, groups) => At(s, t).Idle? && NonEmpty(groups)
    case Ensure(t) => At(s, t).Staging? && At(s, t).todo != []
    case EndStep(t) => At(s, t) == Staging([])
    case Swap(t) => At(s, t).Swapping?
    case Send(t, w) => At(s, t).Sending? && At(s, w).Idle? && t != w
    case Lock(w) => At(s, w).Waking? && Free(s, At(s, w).p)
    case Drain(w) => At(s, w).Locked?
    case Finish(w) => At(s, w).Working?
    case TakePending(w) => At(s, w).Announcing?
    case Unlock(w) => At(s, w).Releasing?
    case Announce(t, _, _) => At(s, t).Idle?
    case Knock(t) => At(s, t).Knocking?
    case GiveUp(t) => At(s, t).Knocking?
  }

  predicate Free(s: State, p: PeerID) {
    p in s.locks && !s.locks[p]
  }

  function WithLock(s: State, p: PeerID): State {
    if p in s.locks then s else s.(locks := s.locks[p := false])
  }

  function WithCell(s: State, p: PeerID): State {
    if p in s.cells then s else s.(cells := s.cells[p := Unset])
  }

  function Next(s: State, l: Label): State
    requires Enabled(s, l)
  {
    match l
    case Begin(t, groups) => Goto(s, t, Staging(groups))
    case Ensure(t) =>
      var todo := At(s, t).todo;
      Goto(WithCell(WithLock(s, todo[0].provider), todo[0].provider), t,
           Swapping(todo[0].provider, todo[0].batch, todo[1..]))
    case EndStep(t) => Goto(s, t, Idle)
    case Swap(t) =>
      var th := At(s, t);
      Goto(s.(cells := s.cells[th.p := Staged(th.batch)]), t,
           if HasAssignment(s, th.p) then Staging(th.todo) else Sending(th.p, th.todo))
    case Send(t, w) => Goto(Goto(s, t, Staging(At(s, t).todo)), w, Waking(At(s, t).p))
    case Lock(w) => Goto(s.(locks := s.locks[At(s, w).p := true]), w, Locked(At(s, w).p))
    case Drain(w) =>
      var p := At(s, w).p;
      Goto(s.(cells := s.cells[p := NoAssignment]), w,
           if HasAssignment(s, p) then Working(p, s.cells[p].content) else Announcing(p))
    case Finish(w) => Goto(s, w, Announcing(At(s, w).p))
    case TakePending(w) => Goto(s.(pending := s.pending - {At(s, w).p}), w, Releasing(At(s, w).p))
    case Unlock(w) => Goto(s.(locks := s.locks[At(s, w).p := false]), w, Idle)
    case Announce(t, p, c) => Goto(WithLock(s, p), t, Knocking(p, c))
    case Knock(t) =>
      var th := At(s, t);
      if Free(s, th.p) then Goto(s.(locks := s.locks[th.p := true]), t, Releasing(th.p))
      else Goto(s.(pending := s.pending[th.p := th.announce]), t, Idle)
    case GiveUp(t) => Goto(s, t, Idle)
  }

  // ---------- The invariant ----------

  /** A token is waiting to be sent, or is held by a worker that has not yet drained. */
  predicate HoldsToken(th: Thread, p: PeerID) {
    (th.Sending? || th.Waking? || th.Locked?) && th.p == p
  }

  predicate HoldsLock(th: Thread, p: PeerID) {
    (th.Locked? || th.Working? || th.Announcing? || th.Releasing?) && th.p == p
  }

  datatype Resource = Token | LockOf

  predicate Holds(s: State, r: Resource, t: Tid, p: PeerID) {
    if r.Token? then HoldsToken(At(s, t), p) else HoldsLock(At(s, t), p)
  }

  /** The cell of p holds an assignment; the lock channel of p is full. */
  predicate Taken(s: State, r: Resource, p: PeerID) {
    if r.Token? then HasAssignment(s, p) else p in s.locks && s.locks[p]
  }

  /** For every provider, at most one thread holds the resource, and one does exactly when it is taken. */
  ghost predicate Exclusive(s: State, r: Resource) {
    && (forall t, p :: Holds(s, r, t, p) ==> Taken(s, r, p))
    && (forall p :: Taken(s, r, p) ==> exists t :: Holds(s, r, t, p))
    && (forall t, u, p :: Holds(s, r, t, p) && Holds(s, r, u, p) ==> t == u)
  }

  /** For this provider nothing changes, or the thread takes what was free, or it gives up its own. */
  predicate Moves(s: State, s': State, r: Resource, t: Tid, p: PeerID) {
    || (Holds(s', r, t, p) == Holds(s, r, t, p) && Taken(s', r, p) == Taken(s, r, p))
    || (!Taken(s, r, p) && Taken(s', r, p) && Holds(s', r, t, p))
    || (Holds(s, r, t, p) && !Taken(s', r, p) && !Holds(s', r, t, p))
  }

  /** One thread moves. */
  lemma ExclusiveStep(s: State, s': State, r: Resource, t: Tid)
    requires Exclusive(s, r)
    requires forall u, p :: u != t ==> Holds(s', r, u, p) == Holds(s, r, u, p)
    requires forall p :: Moves(s, s', r, t, p)
    ensures Exclusive(s', r)
  {
    forall u, p | Holds(s', r, u, p) ensures Taken(s', r, p) && (Holds(s', r, t, p) ==> u == t) {
      assert Moves(s, s', r, t, p);
    }
    forall p | Taken(s', r, p) ensures exists u :: Holds(s', r, u, p) {
      assert Moves(s, s', r, t, p);
      if Taken(s, r, p) && !Holds(s', r, t, p) {
        var u :| Holds(s, r, u, p);
        assert Holds(s', r, u, p);
      }
    }
  }

  /** One thread hands what it holds to another that holds nothing. */
  lemma ExclusiveHandover(s: State, s': State, r: Resource, t: Tid, w: Tid)
    requires Exclusive(s, r) && t != w
    requires forall u, p :: u != t && u != w ==> Holds(s', r, u, p) == Holds(s, r, u, p)
    requires forall p :: !Holds(s, r, w, p) && !Holds(s', r, t, p) && Holds(s', r, w, p) == Holds(s, r, t, p)
    requires forall p :: Taken(s', r, p) == Taken(s, r, p)
    ensures Exclusive(s', r)
  {
    forall p | Taken(s', r, p) ensures exists u :: Holds(s', r, u, p) {
      var u :| Holds(s, r, u, p);
      assert Holds(s', r, if u == t then w else u, p);
    }
  }

  /** What a thread knows about the provider it is dealing with. */
  predicate Prepared(s: State, th: Thread) {
    match th
    case Idle => true
    case Staging(todo) => NonEmpty(todo)
    case Swapping(p, batch, todo) => p in s.locks && p in s.cells && batch != [] && NonEmpty(todo)
    case Sending(p, todo) => p in s.locks && NonEmpty(todo)
    case Waking(p) => p in s.locks
    case Locked(p) => p in s.locks
    case Working(p, batch) => batch != []
    case Announcing(_) => true
    case Releasing(_) => true
    case Knocking(p, _) => p in s.locks
  }

  ghost predicate PreparedInv(s: State) {
    && (forall t :: Prepared(s, At(s, t)))
    && (forall p :: HasAssignment(s, p) ==> s.cells[p].content != [])
  }

  ghost predicate Inv(s: State) {
    Exclusive(s, Token) && Exclusive(s, LockOf) && PreparedInv(s)
  }

  const Initial := State(map[], map[], map[], map[])

  lemma InitialInv()
    ensures Inv(Initial)
  {
  }

  function Mover(l: Label): Tid {
    match l
    case Begin(t, _) => t case Ensure(t) => t case Swap(t) => t case Send(t, _) => t case EndStep(t) => t
    case Lock(w) => w case Drain(w) => w case Finish(w) => w case TakePending(w) => w case Unlock(w) => w
    case Announce(t, _, _) => t case Knock(t) => t case GiveUp(t) => t
  }

  lemma SendKeepsExclusive(s: State, l: Label, r: Resource)
    requires Inv(s) && Enabled(s, l) && l.Send?
    ensures Exclusive(Next(s, l), r)
  {
    ExclusiveHandover(s, Next(s, l), r, l.t, l.w);
  }

  lemma OnlyMoverMoves(s: State, l: Label, t: Tid)
    requires Enabled(s, l) && t != Mover(l) && !(l.Send? && t == l.w)
    ensures At(Next(s, l), t) == At(s, t)
  {
  }

  predicate IsStager(l: Label) {
    l.Begin? || l.Ensure? || l.Swap? || l.EndStep?
  }

  lemma StagerMoves(s: State, l: Label, r: Resource, p: PeerID)
    requires Enabled(s, l) && IsStager(l)
    ensures Moves(s, Next(s, l), r, Mover(l), p)
  {
  }

  lemma WorkerMovesToken(s: State, l: Label, p: PeerID)
    requires Inv(s) && Enabled(s, l) && !IsStager(l) && !l.Send?
    ensures Moves(s, Next(s, l), Token, Mover(l), p)
  {
    assert Holds(s, Token, Mover(l), p) ==> Taken(s, Token, p);
  }

  lemma WorkerMovesLock(s: State, l: Label, p: PeerID)
    requires Inv(s) && Enabled(s, l) && !IsStager(l) && !l.Send?
    ensures Moves(s, Next(s, l), LockOf, Mover(l), p)
  {
    assert Holds(s, LockOf, Mover(l), p) ==> Taken(s, LockOf, p);
  }

  lemma NextKeepsTokens(s: State, l: Label)
    requires Inv(s) && Enabled(s, l) && !l.Send?
    ensures Exclusive(Next(s, l), Token)
  {
    var s' := Next(s, l);
    forall t, p | t != Mover(l) ensures Holds(s', Token, t, p) == Holds(s, Token, t, p) {
      OnlyMoverMoves(s, l, t);
    }
    forall p ensures Moves(s, s', Token, Mover(l), p) {
      if IsStager(l) {
        StagerMoves(s, l, Token, p);
      } else {
        WorkerMovesToken(s, l, p);
      }
    }
    ExclusiveStep(s, s', Token, Mover(l));
  }

  lemma NextKeepsLocks(s: State, l: Label)
    requires Inv(s) && Enabled(s, l) && !l.Send?
    ensures Exclusive(Next(s, l), LockOf)
  {
    var s' := Next(s, l);
    forall t, p | t != Mover(l) ensures Holds(s', LockOf, t, p) == Holds(s, LockOf, t, p) {
      OnlyMoverMoves(s, l, t);
    }
    forall p ensures Moves(s, s', LockOf, Mover(l), p) {
      if IsStager(l) {
        StagerMoves(s, l, LockOf, p);
      } else {
        WorkerMovesLock(s, l, p);
      }
    }
    ExclusiveStep(s, s', LockOf, Mover(l));
  }

  lemma PreparedStays(s: State, s': State, th: Thread)
    requires Prepared(s, th) && s.locks.Keys <= s'.locks.Keys && s.cells.Keys <= s'.cells.Keys
    ensures Prepared(s', th)
  {
  }

  lemma StagerIsPrepared(s: State, l: Label)
    requires Inv(s) && Enabled(s, l) && (IsStager(l) || l.Send?)
    ensures Prepared(Next(s, l), At(Next(s, l), Mover(l)))
    ensures l.Send? ==> Prepared(Next(s, l), At(Next(s, l), l.w))
  {
    assert Prepared(s, At(s, Mover(l)));
  }

  lemma WorkerIsPrepared(s: State, l: Label)
    requires Inv(s) && Enabled(s, l) && !IsStager(l) && !l.Send?
    ensures Prepared(Next(s, l), At(Next(s, l), Mover(l)))
  {
    assert Prepared(s, At(s, Mover(l)));
  }

  lemma KeysGrow(s: State, l: Label)
    requires Enabled(s, l)
    ensures s.locks.Keys <= Next(s, l).locks.Keys && s.cells.Keys <= Next(s, l).cells.Keys
  {
  }

  lemma NextKeepsThread(s: State, l: Label, t: Tid)
    requires Inv(s) && Enabled(s, l)
    ensures Prepared(Next(s, l), At(Next(s, l), t))
  {
    if t == Mover(l) || (l.Send? && t == l.w) {
      if IsStager(l) || l.Send? {
        StagerIsPrepared(s, l);
      } else {
        WorkerIsPrepared(s, l);
      }
    } else {
      OnlyMoverMoves(s, l, t);
      KeysGrow(s, l);
      assert Prepared(s, At(s, t));
      PreparedStays(s, Next(s, l), At(s, t));
    }
  }

  lemma NextKeepsThreads(s: State, l: Label)
    requires Inv(s) && Enabled(s, l)
    ensures forall t :: Prepared(Next(s, l), At(Next(s, l), t))
  {
    forall t ensures Prepared(Next(s, l), At(Next(s, l), t)) {
      NextKeepsThread(s, l, t);
    }
  }

  lemma NextKeepsCells(s: State, l: Label)
    requires Inv(s) && Enabled(s, l)
    ensures forall p :: HasAssignment(Next(s, l), p) ==> Next(s, l).cells[p].content != []
  {
    assert Prepared(s, At(s, Mover(l)));
  }

  lemma NextKeepsInv(s: State, l: Label)
    requires Inv(s) && Enabled(s, l)
    ensures Inv(Next(s, l))
  {
    if l.Send? {
      SendKeepsExclusive(s, l, Token);
      SendKeepsExclusive(s, l, LockOf);
    } else {
      NextKeepsTokens(s, l);
      NextKeepsLocks(s, l);
    }
    NextKeepsThreads(s, l);
    NextKeepsCells(s, l);
  }

  /** Every run, whatever its interleaving, starts in the initial state and takes enabled steps. */
  ghost predicate IsRun(run: seq<State>, labels: seq<Label>) {
    && |run| == |labels| + 1 && run[0] == Initial
    && forall i :: 0 <= i < |labels| ==> Enabled(run[i], labels[i]) && run[i + 1] == Next(run[i], labels[i])
  }

  lemma {:induction false} RunKeepsInv(run: seq<State>, labels: seq<Label>, i: nat)
    requires IsRun(run, labels) && i < |run|
    ensures forall j | 0 <= j <= i :: Inv(run[j])
  {
    if i == 0 {
      InitialInv();
    } else {
      RunKeepsInv(run, labels, i - 1);
      NextKeepsInv(run[i - 1], labels[i - 1]);
    }
  }

  // ---------- What the invariant means ----------

  ghost function Holders(s: State, r: Resource, p: PeerID): set<Tid> {
    set t | t in s.threads && Holds(s, r, t, p)
  }

  lemma CountHolders(s: State, r: Resource, p: PeerID)
    requires Exclusive(s, r)
    ensures |Holders(s, r, p)| == if Taken(s, r, p) then 1 else 0
  {
    if Taken(s, r, p) {
      var t :| Holds(s, r, t, p);
      assert Holders(s, r, p) == {t};
    } else {
      assert Holders(s, r, p) == {};
    }
  }

  /** No wakeup is lost or duplicated, and critical sections exclude each other: in every state of every run, the
      outstanding tokens for a provider number one if its cell holds an assignment and zero otherwise, and the
      threads that hold its lock number one if the channel is full and zero otherwise. */
  lemma TokensMatchAssignments(run: seq<State>, labels: seq<Label>, i: nat, p: PeerID)
    requires IsRun(run, labels) && i < |run|
    ensures |Holders(run[i], Token, p)| == if HasAssignment(run[i], p) then 1 else 0
    ensures |Holders(run[i], LockOf, p)| == if p in run[i].locks && run[i].locks[p] then 1 else 0
  {
    RunKeepsInv(run, labels, i);
    CountHolders(run[i], Token, p);
    CountHolders(run[i], LockOf, p);
  }

  /** A worker that drains finds a nonempty assignment, and no step dereferences a lock or cell that does not
      exist. */
  lemma NeverStuckOnNil(run: seq<State>, labels: seq<Label>, i: nat)
    requires IsRun(run, labels) && i < |labels|
    ensures labels[i].Drain? ==>
              var p := At(run[i], labels[i].w).p;
              HasAssignment(run[i], p) && run[i].cells[p].content != []
    ensures labels[i].Swap? ==> At(run[i], labels[i].t).p in run[i].cells
    ensures labels[i].Knock? ==> At(run[i], labels[i].t).p in run[i].locks
    ensures forall w :: At(run[i], w).Waking? ==> At(run[i], w).p in run[i].locks
  {
    RunKeepsInv(run, labels, i);
    var s := run[i];
    if labels[i].Drain? {
      assert Holds(s, Token, labels[i].w, At(s, labels[i].w).p);
    }
    assert forall t :: Prepared(s, At(s, t));
  }

  /** When every thread is idle, no assignment is left in a cell and every lock is free. */
  lemma IdleMeansDrained(s: State, p: PeerID)
    requires Inv(s) && forall t :: At(s, t).Idle?
    ensures !HasAssignment(s, p) && (p in s.locks ==> Free(s, p))
  {
    assert !Taken(s, Token, p) && !Taken(s, LockOf, p);
  }

  // ---------- Deferred announces ----------

  /** Step k finds the lock of p taken, and defers announce c. */
  predicate Defers(run: seq<State>, labels: seq<Label>, k: int, p: PeerID, c: nat) {
    && 0 <= k < |labels| < |run| && labels[k].Knock? && At(run[k], labels[k].t) == Knocking(p, c)
    && p in run[k].locks && run[k].locks[p]
  }

  /** Step k takes what is pending for p. */
  predicate Takes(run: seq<State>, labels: seq<Label>, k: int, p: PeerID) {
    0 <= k < |labels| < |run| && labels[k].TakePending? && At(run[k], labels[k].w) == Announcing(p)
  }

  ghost predicate Quiet(run: seq<State>, labels: seq<Label>, k: int, p: PeerID) {
    !Takes(run, labels, k, p) && forall c :: !Defers(run, labels, k, p, c)
  }

  /** Step k defers announce c of p, and until state i nothing else is deferred for p and nothing taken. */
  ghost predicate LastDeferred(run: seq<State>, labels: seq<Label>, k: int, i: int, p: PeerID, c: nat) {
    k < i && Defers(run, labels, k, p, c) && forall m | k < m < i :: Quiet(run, labels, m, p)
  }

  /** A step that neither defers an announce of p nor takes one leaves what is pending for p. */
  lemma PendingStep(run: seq<State>, labels: seq<Label>, i: nat, p: PeerID)
    requires IsRun(run, labels) && i < |labels|
    ensures var s, t := run[i], run[i + 1];
            && (forall c | Defers(run, labels, i, p, c) :: p in t.pending && t.pending[p] == c)
            && (Takes(run, labels, i, p) ==> p !in t.pending)
            && (Quiet(run, labels, i, p) ==>
                  && (p in t.pending <==> p in s.pending)
                  && (p in s.pending ==> t.pending[p] == s.pending[p]))
  {
    var s, l := run[i], labels[i];
    if l.Knock? {
      RunKeepsInv(run, labels, i);
      var th := At(s, l.t);
      assert Prepared(s, th);
      assert Defers(run, labels, i, th.p, th.announce) <==> !Free(s, th.p);
    } else if l.TakePending? {
      assert Takes(run, labels, i, At(s, l.w).p);
    }
  }

  lemma PendingStepIff(run: seq<State>, labels: seq<Label>, i: nat, p: PeerID, c: nat)
    requires IsRun(run, labels) && i < |labels|
    ensures var s, t := run[i], run[i + 1];
            p in t.pending && t.pending[p] == c <==>
              || Defers(run, labels, i, p, c)
              || (Quiet(run, labels, i, p) && p in s.pending && s.pending[p] == c)
  {
    PendingStep(run, labels, i, p);
  }

  lemma LastDeferredStepIff(run: seq<State>, labels: seq<Label>, i: nat, next: nat, p: PeerID, c: nat)
    requires IsRun(run, labels) && i < |labels| && next == i + 1
    ensures (exists k :: LastDeferred(run, labels, k, next, p, c)) <==>
            || Defers(run, labels, i, p, c)
            || (Quiet(run, labels, i, p) && exists k :: LastDeferred(run, labels, k, i, p, c))
  {
    if k :| LastDeferred(run, labels, k, next, p, c) {
      if k < i {
        assert LastDeferred(run, labels, k, i, p, c);
      }
    }
    if Defers(run, labels, i, p, c) {
      assert LastDeferred(run, labels, i, next, p, c);
    } else if Quiet(run, labels, i, p) {
      if k :| LastDeferred(run, labels, k, i, p, c) {
        assert LastDeferred(run, labels, k, next, p, c);
      }
    }
  }

  /** In every run, what is pending for a provider is the announce that was last deferred for it, unless a worker has
      taken it since. */
  lemma {:induction false} PendingIsLastDeferred(run: seq<State>, labels: seq<Label>, i: nat, p: PeerID, c: nat)
    requires IsRun(run, labels) && i < |run|
    ensures p in run[i].pending && run[i].pending[p] == c <==> exists k :: LastDeferred(run, labels, k, i, p, c)
  {
    if i > 0 {
      PendingIsLastDeferred(run, labels, i - 1, p, c);
      PendingStepIff(run, labels, i - 1, p, c);
      LastDeferredStepIff(run, labels, i - 1, i, p, c);
    }
  }

  lemma KnockStep(s: State, l: Label, t: Tid, p: PeerID, c: nat)
    requires Enabled(s, l) && At(Next(s, l), t) == Knocking(p, c)
    ensures At(s, t) == Knocking(p, c) || l == Announce(t, p, c)
  {
  }

  /** An announce with which a thread is about to try the lock is one that this thread began with. */
  lemma {:induction false} KnockIsAnnounced(run: seq<State>, labels: seq<Label>, i: nat, t: Tid, p: PeerID, c: nat)
    returns (j: nat)
    requires IsRun(run, labels) && i < |run| && At(run[i], t) == Knocking(p, c)
    ensures j < i && labels[j] == Announce(t, p, c)
  {
    j := i - 1;
    KnockStep(run[j], labels[j], t, p, c);
    if labels[j] != Announce(t, p, c) {
      j := KnockIsAnnounced(run, labels, i - 1, t, p, c);
    }
  }
}
