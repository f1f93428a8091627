/** A fixed pool of workers: staging and announcing begin outside of it, and only its workers receive tokens. Whatever
    has begun then goes on until every thread is idle. */
module Pool {
  import opened Types
  import opened Staging

  predicate InPool(l: Label, pool: set<Tid>) {
    match l
    case Begin(t, _) => t !in pool
    case Announce(t, _, _) => t !in pool
    case Send(_, w) => w in pool
    case _ => true
  }

  /** Only these steps bring something new to do. */
  predicate FromOutside(l: Label) {
    l.Begin? || l.Announce?
  }

  /** A step that goes on with what has begun. */
  predicate GoesOn(s: State, l: Label, pool: set<Tid>) {
    Enabled(s, l) && InPool(l, pool) && !FromOutside(l)
  }

  ghost predicate CanGoOn(s: State, pool: set<Tid>) {
    exists l :: GoesOn(s, l, pool)
  }

  ghost predicate IsPoolRun(run: seq<State>, labels: seq<Label>, pool: set<Tid>) {
    IsRun(run, labels) && forall i :: 0 <= i < |labels| ==> InPool(labels[i], pool)
  }

  // ---------- Some step can be taken ----------

  predicate IsWorker(th: Thread) {
    th.Idle? || th.Waking? || th.Locked? || th.Working? || th.Announcing? || th.Releasing?
  }

  ghost predicate PoolInv(s: State, pool: set<Tid>) {
    forall w | w in pool :: IsWorker(At(s, w))
  }

  lemma NextKeepsPool(s: State, l: Label, pool: set<Tid>)
    requires PoolInv(s, pool) && Enabled(s, l) && InPool(l, pool)
    ensures PoolInv(Next(s, l), pool)
  {
    forall w | w in pool ensures IsWorker(At(Next(s, l), w)) {
      assert IsWorker(At(s, w));
      if w != Mover(l) && !(l.Send? && w == l.w) {
        OnlyMoverMoves(s, l, w);
      }
    }
  }

  lemma {:induction false} RunKeepsPool(run: seq<State>, labels: seq<Label>, pool: set<Tid>, i: nat)
    requires IsPoolRun(run, labels, pool) && i < |run|
    ensures forall j | 0 <= j <= i :: PoolInv(run[j], pool)
  {
    if i > 0 {
      RunKeepsPool(run, labels, pool, i - 1);
      NextKeepsPool(run[i - 1], labels[i - 1], pool);
    }
  }

  /** A thread that waits neither for a worker nor for a lock. */
  lemma FreeThreadGoesOn(s: State, t: Tid, pool: set<Tid>)
    requires !At(s, t).Idle? && !At(s, t).Sending? && !At(s, t).Waking?
    ensures CanGoOn(s, pool)
  {
    var l := match At(s, t)
             case Staging(todo) => if todo == [] then EndStep(t) else Ensure(t)
             case Swapping(_, _, _) => Swap(t)
             case Locked(_) => Drain(t)
             case Working(_, _) => Finish(t)
             case Announcing(_) => TakePending(t)
             case Releasing(_) => Unlock(t)
             case Knocking(_, _) => Knock(t);
    assert GoesOn(s, l, pool);
  }

  /** Whoever waits for a lock can take it, or its holder goes on. */
  lemma WakingGoesOn(s: State, t: Tid, pool: set<Tid>)
    requires Inv(s) && At(s, t).Waking?
    ensures CanGoOn(s, pool)
  {
    var p := At(s, t).p;
    assert Prepared(s, At(s, t));
    if Free(s, p) {
      assert GoesOn(s, Lock(t), pool);
    } else {
      assert Taken(s, LockOf, p);
      var u :| Holds(s, LockOf, u, p);
      FreeThreadGoesOn(s, u, pool);
    }
  }

  lemma NonIdleGoesOn(s: State, t: Tid, pool: set<Tid>, w: Tid)
    requires Inv(s) && PoolInv(s, pool) && w in pool && !At(s, t).Idle?
    ensures CanGoOn(s, pool)
  {
    if At(s, t).Waking? {
      WakingGoesOn(s, t, pool);
    } else if !At(s, t).Sending? {
      FreeThreadGoesOn(s, t, pool);
    } else {
      if At(s, w).Idle? {
        assert GoesOn(s, Send(t, w), pool);
      } else if At(s, w).Waking? {
        WakingGoesOn(s, w, pool);
      } else {
        FreeThreadGoesOn(s, w, pool);
      }
    }
  }

  /** No deadlock: in every state of every run with at least one worker, if some thread is not idle, then a step can be
      taken that goes on with what has begun. */
  lemma NoDeadlock(run: seq<State>, labels: seq<Label>, pool: set<Tid>, w: Tid, i: nat, t: Tid)
    requires IsPoolRun(run, labels, pool) && w in pool && i < |run| && !At(run[i], t).Idle?
    ensures CanGoOn(run[i], pool)
  {
    RunKeepsInv(run, labels, i);
    RunKeepsPool(run, labels, pool, i);
    NonIdleGoesOn(run[i], t, pool, w);
  }

  // ---------- The steps run out ----------

  /** How many steps a thread can take, with those of the workers that it wakes. */
  function Rank(th: Thread): nat {
    match th
    case Idle => 0
    case Staging(todo) => 1 + 8 * |todo|
    case Swapping(_, _, todo) => 8 + 8 * |todo|
    case Sending(_, todo) => 7 + 8 * |todo|
    case Waking(_) => 5
    case Locked(_) => 4
    case Working(_, _) => 3
    case Announcing(_) => 2
    case Releasing(_) => 1
    case Knocking(_, _) => 2
  }

  function Work(s: State, tids: seq<Tid>): nat {
    if tids == [] then 0 else Rank(At(s, tids[0])) + Work(s, tids[1..])
  }

  ghost predicate Distinct(tids: seq<Tid>) {
    forall j, k | 0 <= j < k < |tids| :: tids[j] != tids[k]
  }

  /** These are all the workers, and all the threads that have something to do. */
  ghost predicate Covers(s: State, tids: seq<Tid>, pool: set<Tid>) {
    && (forall t :: !At(s, t).Idle? ==> t in tids)
    && (forall w | w in pool :: w in tids)
  }

  lemma {:induction false} SameWork(s: State, s': State, tids: seq<Tid>)
    requires forall t | t in tids :: At(s', t) == At(s, t)
    ensures Work(s', tids) == Work(s, tids)
  {
    if tids != [] {
      SameWork(s, s', tids[1..]);
    }
  }

  lemma {:induction false} WorkOfOne(s: State, s': State, tids: seq<Tid>, t: Tid)
    requires Distinct(tids) && t in tids && forall u | u in tids && u != t :: At(s', u) == At(s, u)
    ensures Work(s', tids) + Rank(At(s, t)) == Work(s, tids) + Rank(At(s', t))
  {
    if tids[0] == t {
      SameWork(s, s', tids[1..]);
    } else {
      WorkOfOne(s, s', tids[1..], t);
    }
  }

  lemma RankDrops(s: State, l: Label)
    requires Enabled(s, l) && !FromOutside(l) && !l.Send?
    ensures Rank(At(Next(s, l), Mover(l))) < Rank(At(s, Mover(l)))
  {
  }

  lemma SendDropsRanks(s: State, l: Label, tids: seq<Tid>)
    requires Enabled(s, l) && l.Send? && Distinct(tids) && l.t in tids && l.w in tids
    ensures Work(Next(s, l), tids) < Work(s, tids)
  {
    var mid := Goto(s, l.t, Staging(At(s, l.t).todo));
    WorkOfOne(s, mid, tids, l.t);
    WorkOfOne(mid, Next(s, l), tids, l.w);
  }

  lemma StepUsesUpWork(s: State, l: Label, tids: seq<Tid>, pool: set<Tid>)
    requires GoesOn(s, l, pool) && Distinct(tids) && Covers(s, tids, pool)
    ensures Work(Next(s, l), tids) < Work(s, tids)
  {
    assert !At(s, Mover(l)).Idle?;
    if l.Send? {
      SendDropsRanks(s, l, tids);
    } else {
      RankDrops(s, l);
      forall u | u in tids && u != Mover(l) ensures At(Next(s, l), u) == At(s, u) {
        OnlyMoverMoves(s, l, u);
      }
      WorkOfOne(s, Next(s, l), tids, Mover(l));
    }
  }

  lemma StillCovers(s: State, l: Label, tids: seq<Tid>, pool: set<Tid>)
    requires GoesOn(s, l, pool) && Covers(s, tids, pool)
    ensures Covers(Next(s, l), tids, pool)
  {
    assert !At(s, Mover(l)).Idle?;
    forall t | !At(Next(s, l), t).Idle? ensures t in tids {
      if t != Mover(l) && !(l.Send? && t == l.w) {
        OnlyMoverMoves(s, l, t);
      }
    }
  }

  /** From any state, with nothing new from outside, no more steps can be taken than the work at hand. */
  lemma {:induction false} StepsRunOut(run: seq<State>, labels: seq<Label>, tids: seq<Tid>, pool: set<Tid>)
    requires |run| == |labels| + 1 && Distinct(tids) && Covers(run[0], tids, pool)
    requires forall i :: 0 <= i < |labels| ==>
               GoesOn(run[i], labels[i], pool) && run[i + 1] == Next(run[i], labels[i])
    ensures |labels| <= Work(run[0], tids)
    decreases |labels|
  {
    if labels != [] {
      StepUsesUpWork(run[0], labels[0], tids, pool);
      StillCovers(run[0], labels[0], tids, pool);
      StepsRunOut(run[1..], labels[1..], tids, pool);
    }
  }

  /** When they have run out, no assignment is left in a cell and every lock is free. */
  lemma AtRestMeansDrained(run: seq<State>, labels: seq<Label>, pool: set<Tid>, w: Tid, i: nat,
                           p: PeerID)
    requires IsPoolRun(run, labels, pool) && w in pool && i < |run|
    requires !CanGoOn(run[i], pool)
    ensures !HasAssignment(run[i], p) && (p in run[i].locks ==> Free(run[i], p))
  {
    forall t ensures At(run[i], t).Idle? {
      if !At(run[i], t).Idle? {
        NoDeadlock(run, labels, pool, w, i, t);
      }
    }
    RunKeepsInv(run, labels, i);
    IdleMeansDrained(run[i], p);
  }
}
