/** The steps of gap-free ingestion. The advertisements of one provider form a chain, named here by position from the
    oldest, 0. Syncs, the stager (thread 0, the ingester loop), the workers, the announcers and the removal of the
    publisher take steps in any order; each step of module Staging is one of them, refined by what the scan of a sync
    event and the work of a worker do to the datastore. Other providers are staged and worked on at the same time. */
module ChainSteps {
  import opened Wrappers
  import opened Types
  import S = Staging

  /** A finished sync: it listed the chain from `head` down to but excluding `stop`, which was the latest-sync key
      when the sync began. */
  datatype SyncEvent = SyncEvent(head: nat, stop: Option<nat>)

  /** The oldest position listed. A traversal that does not meet its stop goes on to the start of the chain. */
  function Floor(e: SyncEvent): nat {
    if e.stop.Some? && e.stop.value <= e.head then e.stop.value + 1 else 0
  }

  /** The stager looks at position `next - 1` next: first whether it is processed, then (`checked`) it loads it. */
  datatype Scan = NoScan | Scan(head: nat, floor: nat, next: nat, found: S.Batch, checked: bool)

  /** Where a worker is in its batch: looking for the newest processed advertisement, with i advertisements to go,
      or between the three writes that mark advertisement i - 1. */
  datatype Phase = Examining(i: nat) | Todo(i: nat) | Marked(i: nat) | Deleted(i: nat) | Stopped
  datatype Work = NoWork | Busy(w: S.Tid, phase: Phase)

  /** `marks` is the history of positions marked processed, `head` the head of the last finished sync, and `failed`
      says that a worker stopped at an error since then. `forgotten` says that the latest-sync key was deleted, with its
      publisher, and not written since. */
  datatype State = State(
    st: S.State, p: PeerID, processed: set<nat>, latest: Option<nat>,
    syncs: map<nat, Option<nat>>, events: seq<SyncEvent>, scan: Scan, work: Work,
    marks: seq<nat>, head: Option<nat>, failed: bool, forgotten: bool)

  datatype Label =
    | StartSync(id: nat) | EndSync(id: nat, head: nat)
    | TakeEvent | Check | Load(ok: bool) | Stage
    | Move(l: S.Label)
    | Examine | PutProcessed | DeleteBlock | PutLatest | Fail
    | RemovePublisher

  predicate NoneFor(groups: seq<S.Group>, p: PeerID) {
    forall i :: 0 <= i < |groups| ==> groups[i].provider != p
  }

  /** The batch of the worker that is busy with this provider. */
  function Batch(c: State): S.Batch {
    if c.work.Busy? && S.At(c.st, c.work.w).Working? then S.At(c.st, c.work.w).batch else []
  }

  predicate WorksOn(th: S.Thread, p: PeerID) {
    th.Working? && th.p == p
  }

  predicate Enabled(c: State, l: Label) {
    match l
    case StartSync(id) => true
    case EndSync(id, head) => id in c.syncs
    case TakeEvent => c.scan.NoScan? && c.events != [] && S.At(c.st, 0).Idle?
    case Check => c.scan.Scan? && !c.scan.checked && c.scan.next > c.scan.floor
    // The block of an advertisement is deleted after it is marked, so only a processed one can fail to load.
    case Load(ok) => c.scan.Scan? && c.scan.checked && c.scan.next > 0 && (ok || c.scan.next - 1 in c.processed)
    case Stage => c.scan.Scan? && !c.scan.checked && c.scan.next <= c.scan.floor && S.At(c.st, 0).Idle?
    case Move(m) =>
      && S.Enabled(c.st, m)
      && (c.scan.Scan? ==> S.Mover(m) != 0 && !(m.Send? && m.w == 0))
      && (m.Begin? ==> NoneFor(m.groups, c.p))
      && (m.Finish? && WorksOn(S.At(c.st, m.w), c.p) ==>
            c.work.Busy? && (c.work.phase == Todo(0) || c.work.phase == Stopped))
    case Examine => c.work.Busy? && c.work.phase.Examining?
    case PutProcessed => c.work.Busy? && c.work.phase.Todo? && 0 < c.work.phase.i <= |Batch(c)|
    case DeleteBlock => c.work.Busy? && c.work.phase.Marked?
    case PutLatest => c.work.Busy? && c.work.phase.Deleted? && 0 < c.work.phase.i <= |Batch(c)|
    case Fail => c.work.Busy? && c.work.phase.Todo? && c.work.phase.i > 0
    case RemovePublisher => true
  }

  function Next(c: State, l: Label): State
    requires Enabled(c, l)
  {
    match l
    case StartSync(id) => c.(syncs := c.syncs[id := c.latest])
    case EndSync(id, head) =>
      c.(events := c.events + [SyncEvent(head, c.syncs[id])], syncs := c.syncs - {id},
         head := Some(head), failed := false)
    case TakeEvent =>
      var e := c.events[0];
      c.(scan := Scan(e.head, Floor(e), e.head + 1, [], false), events := c.events[1..])
    case Check =>
      if c.scan.next - 1 in c.processed then c.(scan := c.scan.(floor := c.scan.next))
      else c.(scan := c.scan.(checked := true))
    case Load(ok) =>
      var x := c.scan.next - 1;
      c.(scan := c.scan.(next := x, found := if ok then c.scan.found + [x] else c.scan.found, checked := false))
    case Stage =>
      if c.scan.found == [] then c.(scan := NoScan)
      else c.(scan := NoScan, st := S.Next(c.st, S.Begin(0, [S.Group(c.p, c.scan.found)])))
    case Move(m) =>
      c.(st := S.Next(c.st, m),
         work := if m.Drain? && S.At(c.st, m.w).p == c.p && S.HasAssignment(c.st, c.p) then Busy(m.w, Examining(0))
                 else if m.Finish? && S.At(c.st, m.w).p == c.p then NoWork
                 else c.work)
    case Examine =>
      var i := c.work.phase.i;
      c.(work := c.work.(phase := if i < |Batch(c)| && Batch(c)[i] !in c.processed then Examining(i + 1) else Todo(i)))
    case PutProcessed =>
      var i := c.work.phase.i;
      c.(processed := c.processed + {Batch(c)[i - 1]}, marks := c.marks + [Batch(c)[i - 1]],
         work := c.work.(phase := Marked(i)))
    case DeleteBlock => c.(work := c.work.(phase := Deleted(c.work.phase.i)))
    case PutLatest =>
      var i := c.work.phase.i;
      c.(latest := Some(Batch(c)[i - 1]), forgotten := false, work := c.work.(phase := Todo(i - 1)))
    case Fail => c.(work := c.work.(phase := Stopped), failed := true)
    case RemovePublisher => c.(latest := None, forgotten := true)
  }

  // ---------- The invariant ----------

  /** A contiguous stretch of the chain, newest first, with no gap between it and the first m advertisements. */
  ghost predicate Joins(b: S.Batch, m: nat) {
    && b != []
    && (forall i :: 0 <= i < |b| ==> b[i] == b[0] - i)
    && b[|b| - 1] <= m
  }

  /** The processed advertisements are exactly the oldest ones, marked once each, oldest first. */
  ghost predicate MarksInv(c: State) {
    && (forall i :: 0 <= i < |c.marks| ==> c.marks[i] == i)
    && (forall x :: x in c.processed <==> 0 <= x < |c.marks|)
  }

  function NewestOf(m: nat): Option<nat> {
    if m == 0 then None else Some(m - 1)
  }

  /** Latest-sync names the newest processed advertisement, except between the first and the last write of a mark,
      when it still names the one before, and except while it is forgotten. */
  ghost predicate LatestInv(c: State) {
    c.latest == if c.forgotten then None
                else if c.work.Busy? && (c.work.phase.Marked? || c.work.phase.Deleted?) && |c.marks| > 0
                then NewestOf(|c.marks| - 1) else NewestOf(|c.marks|)
  }

  ghost predicate SyncsInv(c: State) {
    && (forall id :: id in c.syncs && c.syncs[id].Some? ==> c.syncs[id].value < |c.marks|)
    && (forall i :: 0 <= i < |c.events| && c.events[i].stop.Some? ==> c.events[i].stop.value < |c.marks|)
  }

  ghost predicate ScanInv(c: State) {
    c.scan.Scan? ==>
      var m, Scan(head, floor, next, found, checked) := |c.marks|, c.scan;
      && S.At(c.st, 0).Idle?
      && floor <= m && floor <= next <= head + 1
      && (found == [] ==> next == head + 1 || head < m)
      && (found != [] ==>
            && (forall i :: 0 <= i < |found| ==> found[i] == found[0] - i)
            && (found[|found| - 1] == next || (found[|found| - 1] <= m && next <= m))
            && (found[0] == head || head < m))
      && (checked ==> next > floor && (if found == [] then next == head + 1 else found[|found| - 1] == next))
  }

  /** Only thread 0 stages this provider, one group at a time, and all that is staged joins what is processed. */
  ghost predicate ThreadOk(c: State, t: S.Tid, th: S.Thread) {
    match th
    case Staging(todo) =>
      NoneFor(todo, c.p) || (t == 0 && |todo| == 1 && todo[0].provider == c.p && Joins(todo[0].batch, |c.marks|))
    case Swapping(q, batch, todo) => NoneFor(todo, c.p) && (q == c.p ==> t == 0 && Joins(batch, |c.marks|))
    case Sending(_, todo) => NoneFor(todo, c.p)
    case Working(q, batch) => q == c.p ==> Joins(batch, |c.marks|) && c.work.Busy? && c.work.w == t
    case _ => true
  }

  ghost predicate ThreadsInv(c: State) {
    && (forall t :: ThreadOk(c, t, S.At(c.st, t)))
    && (S.HasAssignment(c.st, c.p) ==> Joins(c.st.cells[c.p].content, |c.marks|))
  }

  ghost predicate WorkInv(c: State) {
    c.work.Busy? ==>
      var m, b := |c.marks|, Batch(c);
      && WorksOn(S.At(c.st, c.work.w), c.p)
      && Joins(b, m)
      && match c.work.phase
         case Examining(i) => i <= |b| && forall j :: 0 <= j < i ==> b[j] >= m
         case Todo(i) => i <= |b| && if i > 0 then b[i - 1] == m else b[0] < m
         case Marked(i) => 0 < i <= |b| && b[i - 1] == m - 1
         case Deleted(i) => 0 < i <= |b| && b[i - 1] == m - 1
         case Stopped => true
  }

  /** The batch that the stager is about to swap into the provider's cell. */
  function AboutToStage(c: State): S.Batch {
    match S.At(c.st, 0)
    case Staging(todo) => if |todo| == 1 && todo[0].provider == c.p then todo[0].batch else []
    case Swapping(q, batch, _) => if q == c.p then batch else []
    case _ => []
  }

  /** The last synced head is processed, or the newest work that has not been dropped leads up to it. */
  predicate Covered(c: State) {
    c.head.None? ||
    var h := c.head.value;
    || h < |c.marks|
    || (if c.events != [] then c.events[|c.events| - 1].head == h
        else if c.scan.Scan? then c.scan.head == h
        else if AboutToStage(c) != [] then AboutToStage(c)[0] == h
        else if S.HasAssignment(c.st, c.p) then c.st.cells[c.p].content != [] && c.st.cells[c.p].content[0] == h
        else c.work.Busy? && c.work.phase != Stopped && Batch(c) != [] && Batch(c)[0] == h)
  }

  /** All of the invariant except that of module Staging. */
  ghost predicate ChainInv(c: State) {
    && MarksInv(c) && LatestInv(c) && SyncsInv(c) && ScanInv(c) && ThreadsInv(c) && WorkInv(c)
    && (c.failed || Covered(c))
  }

  ghost predicate Inv(c: State) {
    S.Inv(c.st) && ChainInv(c)
  }

  function Initial(p: PeerID): State {
    State(S.Initial, p, {}, None, map[], [], NoScan, NoWork, [], None, false, false)
  }

  lemma InitialInv(p: PeerID)
    ensures Inv(Initial(p))
  {
    S.InitialInv();
  }

  lemma RemovalKeepsMarks(c: State, l: Label)
    requires MarksInv(c) && SyncsInv(c) && ScanInv(c) && WorkInv(c) && l.RemovePublisher?
    ensures var c' := Next(c, l);
            MarksInv(c') && LatestInv(c') && SyncsInv(c') && ScanInv(c') && WorkInv(c')
  {
  }

  lemma RemovalKeepsCover(c: State, l: Label)
    requires (c.failed || Covered(c)) && l.RemovePublisher?
    ensures Next(c, l).failed || Covered(Next(c, l))
  {
  }

  lemma RemovalKeepsInv(c: State, l: Label)
    requires ChainInv(c) && l.RemovePublisher?
    ensures ChainInv(Next(c, l))
  {
    RemovalKeepsMarks(c, l);
    RemovalKeepsCover(c, l);
    ThreadsStay(c, Next(c, l));
  }

  // ---------- Syncs and the scan of their events ----------

  /** Apart from the syncs and the scan, nothing has changed. */
  predicate OnlySyncsChange(c: State, c': State) {
    && c'.st == c.st && c'.p == c.p && c'.processed == c.processed && c'.latest == c.latest
    && c'.forgotten == c.forgotten
    && c'.work == c.work && c'.marks == c.marks
  }

  lemma RestStays(c: State, c': State)
    requires ChainInv(c) && OnlySyncsChange(c, c') && SyncsInv(c') && ScanInv(c') && (c'.failed || Covered(c'))
    ensures ChainInv(c')
  {
    ThreadsStay(c, c');
  }

  lemma SyncKeepsSyncs(c: State, l: Label)
    requires ChainInv(c) && Enabled(c, l) && (l.StartSync? || l.EndSync?)
    ensures OnlySyncsChange(c, Next(c, l)) && SyncsInv(Next(c, l)) && ScanInv(Next(c, l))
  {
  }

  lemma SyncKeepsCover(c: State, l: Label)
    requires c.failed || Covered(c)
    requires Enabled(c, l) && (l.StartSync? || l.EndSync?)
    ensures Next(c, l).failed || Covered(Next(c, l))
  {
  }

  lemma SyncKeepsInv(c: State, l: Label)
    requires ChainInv(c) && Enabled(c, l) && (l.StartSync? || l.EndSync?)
    ensures ChainInv(Next(c, l))
  {
    SyncKeepsSyncs(c, l);
    SyncKeepsCover(c, l);
    RestStays(c, Next(c, l));
  }

  /** Whatever joins what is processed still does when more is processed. */
  lemma ThreadsStay(c: State, c': State)
    requires ThreadsInv(c) && c'.st == c.st && c'.p == c.p && |c.marks| <= |c'.marks|
    requires c.work.Busy? ==> c'.work.Busy? && c'.work.w == c.work.w
    ensures ThreadsInv(c')
  {
    forall t ensures ThreadOk(c', t, S.At(c'.st, t)) {
      assert ThreadOk(c, t, S.At(c.st, t));
    }
  }

  lemma ScanKeepsScanInv(c: State, l: Label)
    requires MarksInv(c) && SyncsInv(c) && ScanInv(c) && Enabled(c, l) && (l.TakeEvent? || l.Check? || l.Load?)
    ensures ScanInv(Next(c, l)) && SyncsInv(Next(c, l))
  {
  }

  lemma ScanKeepsCover(c: State, l: Label)
    requires c.failed || Covered(c)
    requires Enabled(c, l) && (l.TakeEvent? || l.Check? || l.Load?)
    ensures OnlySyncsChange(c, Next(c, l)) && (Next(c, l).failed || Covered(Next(c, l)))
  {
  }

  lemma ScanKeepsInv(c: State, l: Label)
    requires ChainInv(c) && Enabled(c, l) && (l.TakeEvent? || l.Check? || l.Load?)
    ensures ChainInv(Next(c, l))
  {
    ScanKeepsScanInv(c, l);
    ScanKeepsCover(c, l);
    RestStays(c, Next(c, l));
  }

  /** The group that a finished scan stages joins what is processed. */
  lemma StageKeepsThreads(c: State, l: Label)
    requires ScanInv(c) && ThreadsInv(c) && Enabled(c, l) && l.Stage?
    ensures ThreadsInv(Next(c, l))
  {
    var c' := Next(c, l);
    forall t ensures ThreadOk(c', t, S.At(c'.st, t)) {
      assert ThreadOk(c, t, S.At(c.st, t));
    }
  }

  lemma StageKeepsCover(c: State, l: Label)
    requires ScanInv(c) && Covered(c) && Enabled(c, l) && l.Stage?
    ensures Covered(Next(c, l))
  {
  }

  lemma StageKeepsWork(c: State, l: Label)
    requires WorkInv(c) && LatestInv(c) && Enabled(c, l) && l.Stage?
    ensures WorkInv(Next(c, l)) && LatestInv(Next(c, l))
  {
    assert c.work.Busy? ==> S.At(Next(c, l).st, c.work.w) == S.At(c.st, c.work.w);
  }

  lemma StageKeepsMarks(c: State, l: Label)
    requires MarksInv(c) && SyncsInv(c) && Enabled(c, l) && l.Stage?
    ensures MarksInv(Next(c, l)) && SyncsInv(Next(c, l)) && ScanInv(Next(c, l)) && Next(c, l).failed == c.failed
  {
  }

  lemma StageKeepsInv(c: State, l: Label)
    requires ChainInv(c) && Enabled(c, l) && l.Stage?
    ensures ChainInv(Next(c, l))
  {
    StageKeepsMarks(c, l);
    StageKeepsThreads(c, l);
    StageKeepsWork(c, l);
    if !c.failed {
      StageKeepsCover(c, l);
    }
  }

  // ---------- The work of a worker ----------

  lemma WorkKeepsMarks(c: State, l: Label)
    requires MarksInv(c) && LatestInv(c) && WorkInv(c)
    requires Enabled(c, l) && (l.Examine? || l.PutProcessed? || l.DeleteBlock? || l.PutLatest? || l.Fail?)
    ensures MarksInv(Next(c, l)) && LatestInv(Next(c, l))
  {
  }

  lemma WorkKeepsWork(c: State, l: Label)
    requires MarksInv(c) && LatestInv(c) && WorkInv(c)
    requires Enabled(c, l) && (l.Examine? || l.PutProcessed? || l.DeleteBlock? || l.PutLatest? || l.Fail?)
    ensures WorkInv(Next(c, l))
  {
  }

  predicate WorkStep(l: Label) {
    l.Examine? || l.PutProcessed? || l.DeleteBlock? || l.PutLatest? || l.Fail?
  }

  lemma WorkKeepsSyncs(c: State, l: Label)
    requires SyncsInv(c) && ScanInv(c) && Enabled(c, l) && WorkStep(l)
    ensures SyncsInv(Next(c, l)) && ScanInv(Next(c, l))
  {
  }

  lemma WorkKeepsThreads(c: State, l: Label)
    requires ThreadsInv(c) && Enabled(c, l) && WorkStep(l)
    ensures ThreadsInv(Next(c, l))
  {
    ThreadsStay(c, Next(c, l));
  }

  lemma WorkKeepsCover(c: State, l: Label)
    requires c.failed || Covered(c)
    requires Enabled(c, l) && WorkStep(l)
    ensures Next(c, l).failed || Covered(Next(c, l))
  {
  }

  lemma WorkKeepsInv(c: State, l: Label)
    requires ChainInv(c)
    requires Enabled(c, l) && (l.Examine? || l.PutProcessed? || l.DeleteBlock? || l.PutLatest? || l.Fail?)
    ensures ChainInv(Next(c, l))
  {
    WorkKeepsMarks(c, l);
    WorkKeepsWork(c, l);
    WorkKeepsSyncs(c, l);
    WorkKeepsThreads(c, l);
    WorkKeepsCover(c, l);
  }

  // ---------- The steps of module Staging ----------

  predicate Drains(c: State, l: Label) {
    l.Move? && l.l.Drain? && S.At(c.st, l.l.w).Locked? && S.At(c.st, l.l.w).p == c.p && S.HasAssignment(c.st, c.p)
  }

  predicate Finishes(c: State, l: Label) {
    l.Move? && l.l.Finish? && WorksOn(S.At(c.st, l.l.w), c.p)
  }

  lemma WorkAfterMove(c: State, l: Label)
    requires Enabled(c, l) && l.Move?
    ensures Next(c, l).work == if Drains(c, l) then Busy(l.l.w, Examining(0))
                               else if Finishes(c, l) then NoWork else c.work
  {
  }

  /** A thread can drain or finish only while it holds the lock, so no other thread is at work then. */
  lemma OneWorker(c: State, l: Label, t: S.Tid)
    requires S.Exclusive(c.st, S.LockOf) && Enabled(c, l) && (Drains(c, l) || Finishes(c, l))
    requires WorksOn(S.At(c.st, t), c.p)
    ensures t == l.l.w && Finishes(c, l)
  {
    assert S.Holds(c.st, S.LockOf, t, c.p) && S.Holds(c.st, S.LockOf, l.l.w, c.p);
  }

  lemma OtherThreadsStay(c: State, l: Label, t: S.Tid)
    requires S.Exclusive(c.st, S.LockOf) && ThreadsInv(c) && Enabled(c, l) && l.Move?
    requires t != S.Mover(l.l) && !(l.l.Send? && t == l.l.w)
    ensures ThreadOk(Next(c, l), t, S.At(c.st, t))
  {
    assert ThreadOk(c, t, S.At(c.st, t));
    WorkAfterMove(c, l);
    if WorksOn(S.At(c.st, t), c.p) && (Drains(c, l) || Finishes(c, l)) {
      OneWorker(c, l, t);
    }
  }

  predicate StagerMoves(l: S.Label) {
    l.Begin? || l.Ensure? || l.Swap? || l.Send? || l.EndStep?
  }

  lemma StagerStaysOk(c: State, l: Label)
    requires ThreadsInv(c) && Enabled(c, l) && l.Move? && StagerMoves(l.l)
    ensures ThreadOk(Next(c, l), S.Mover(l.l), S.At(Next(c, l).st, S.Mover(l.l)))
    ensures l.l.Send? ==> ThreadOk(Next(c, l), l.l.w, S.At(Next(c, l).st, l.l.w))
  {
    assert ThreadOk(c, S.Mover(l.l), S.At(c.st, S.Mover(l.l)));
  }

  lemma DrainerStaysOk(c: State, l: Label)
    requires ThreadsInv(c) && Enabled(c, l) && l.Move? && l.l.Drain?
    ensures ThreadOk(Next(c, l), l.l.w, S.At(Next(c, l).st, l.l.w))
  {
  }

  lemma WorkerStaysOk(c: State, l: Label)
    requires Enabled(c, l) && l.Move? && !StagerMoves(l.l) && !l.l.Drain?
    ensures ThreadOk(Next(c, l), S.Mover(l.l), S.At(Next(c, l).st, S.Mover(l.l)))
  {
  }

  lemma MoverStaysOk(c: State, l: Label)
    requires ThreadsInv(c) && Enabled(c, l) && l.Move?
    ensures ThreadOk(Next(c, l), S.Mover(l.l), S.At(Next(c, l).st, S.Mover(l.l)))
    ensures l.l.Send? ==> ThreadOk(Next(c, l), l.l.w, S.At(Next(c, l).st, l.l.w))
  {
    if StagerMoves(l.l) {
      StagerStaysOk(c, l);
    } else if l.l.Drain? {
      DrainerStaysOk(c, l);
    } else {
      WorkerStaysOk(c, l);
    }
  }

  lemma CellStaysOk(c: State, l: Label)
    requires ThreadsInv(c) && Enabled(c, l) && l.Move?
    ensures var c' := Next(c, l);
            S.HasAssignment(c'.st, c.p) ==> Joins(c'.st.cells[c.p].content, |c.marks|)
  {
    assert ThreadOk(c, S.Mover(l.l), S.At(c.st, S.Mover(l.l)));
  }

  lemma MoveKeepsThreads(c: State, l: Label)
    requires S.Exclusive(c.st, S.LockOf) && ThreadsInv(c) && Enabled(c, l) && l.Move?
    ensures ThreadsInv(Next(c, l))
  {
    var c' := Next(c, l);
    forall t ensures ThreadOk(c', t, S.At(c'.st, t)) {
      if t == S.Mover(l.l) || (l.l.Send? && t == l.l.w) {
        MoverStaysOk(c, l);
      } else {
        S.OnlyMoverMoves(c.st, l.l, t);
        OtherThreadsStay(c, l, t);
      }
    }
    CellStaysOk(c, l);
  }

  /** The busy worker can only finish. */
  lemma BusyWorkerStays(c: State, l: Label)
    requires WorkInv(c) && c.work.Busy? && Enabled(c, l) && l.Move? && !Finishes(c, l)
    ensures S.At(Next(c, l).st, c.work.w) == S.At(c.st, c.work.w)
  {
    if c.work.w != S.Mover(l.l) && !(l.l.Send? && c.work.w == l.l.w) {
      S.OnlyMoverMoves(c.st, l.l, c.work.w);
    }
  }

  lemma DrainStartsWork(c: State, l: Label)
    requires ThreadsInv(c) && Enabled(c, l) && Drains(c, l)
    ensures Next(c, l).work == Busy(l.l.w, Examining(0)) && Batch(Next(c, l)) == c.st.cells[c.p].content
    ensures WorkInv(Next(c, l))
  {
  }

  lemma MoveKeepsWork(c: State, l: Label)
    requires S.Exclusive(c.st, S.LockOf) && ThreadsInv(c) && LatestInv(c) && WorkInv(c) && Enabled(c, l) && l.Move?
    ensures WorkInv(Next(c, l)) && LatestInv(Next(c, l))
  {
    WorkAfterMove(c, l);
    if Drains(c, l) || Finishes(c, l) {
      if c.work.Busy? {
        OneWorker(c, l, c.work.w);
      }
      if Drains(c, l) {
        DrainStartsWork(c, l);
      }
    } else if c.work.Busy? {
      BusyWorkerStays(c, l);
    }
  }

  lemma MoveKeepsScan(c: State, l: Label)
    requires ScanInv(c) && Enabled(c, l) && l.Move?
    ensures ScanInv(Next(c, l))
  {
    if c.scan.Scan? {
      S.OnlyMoverMoves(c.st, l.l, 0);
    }
  }

  /** The stager's step that swaps this provider's batch into its cell. */
  predicate Stages(c: State, l: Label) {
    l.Move? && l.l == S.Swap(0) && S.At(c.st, 0).Swapping? && S.At(c.st, 0).p == c.p
  }

  lemma CellAfterStage(c: State, l: Label)
    requires ThreadsInv(c) && Enabled(c, l) && Stages(c, l)
    ensures AboutToStage(c) != [] && AboutToStage(Next(c, l)) == []
    ensures S.HasAssignment(Next(c, l).st, c.p) && Next(c, l).st.cells[c.p].content == AboutToStage(c)
  {
    assert ThreadOk(c, 0, S.At(c.st, 0));
  }

  /** The provider's cell is as it was. */
  predicate CellStays(c: State, c': State) {
    && S.HasAssignment(c'.st, c.p) == S.HasAssignment(c.st, c.p)
    && (S.HasAssignment(c.st, c.p) ==> c'.st.cells[c.p] == c.st.cells[c.p])
  }

  lemma CellAfterStagerMove(c: State, l: Label)
    requires ThreadsInv(c) && Enabled(c, l) && l.Move? && StagerMoves(l.l) && !Stages(c, l)
    ensures CellStays(c, Next(c, l))
  {
    assert ThreadOk(c, S.Mover(l.l), S.At(c.st, S.Mover(l.l)));
  }

  lemma CellAfterWorkerMove(c: State, l: Label)
    requires Enabled(c, l) && l.Move? && !StagerMoves(l.l)
    ensures Drains(c, l) ==> !S.HasAssignment(Next(c, l).st, c.p)
    ensures !Drains(c, l) ==> CellStays(c, Next(c, l))
  {
  }

  lemma CellAfterMove(c: State, l: Label)
    requires ThreadsInv(c) && Enabled(c, l) && l.Move? && !Stages(c, l)
    ensures Drains(c, l) ==> !S.HasAssignment(Next(c, l).st, c.p)
    ensures !Drains(c, l) ==> CellStays(c, Next(c, l))
  {
    if StagerMoves(l.l) {
      CellAfterStagerMove(c, l);
    } else {
      CellAfterWorkerMove(c, l);
    }
  }

  lemma StagerAfterOwnMove(c: State, l: Label)
    requires ThreadsInv(c) && Enabled(c, l) && l.Move? && StagerMoves(l.l) && S.Mover(l.l) == 0 && !Stages(c, l)
    ensures AboutToStage(Next(c, l)) == AboutToStage(c)
  {
    assert ThreadOk(c, 0, S.At(c.st, 0));
  }

  /** While thread 0 does something else it is not about to stage anything. */
  lemma StagerAtWork(c: State, l: Label)
    requires Enabled(c, l) && l.Move? && !StagerMoves(l.l) && S.Mover(l.l) == 0
    ensures AboutToStage(c) == [] && AboutToStage(Next(c, l)) == []
  {
  }

  lemma StagerWakes(c: State, l: Label)
    requires Enabled(c, l) && l.Move? && l.l.Send? && l.l.w == 0
    ensures AboutToStage(c) == [] && AboutToStage(Next(c, l)) == []
  {
  }

  lemma StagerAfterMove(c: State, l: Label)
    requires ThreadsInv(c) && Enabled(c, l) && l.Move? && !Stages(c, l)
    ensures AboutToStage(Next(c, l)) == AboutToStage(c)
  {
    if l.l.Send? && l.l.w == 0 {
      StagerWakes(c, l);
    } else if S.Mover(l.l) != 0 {
      S.OnlyMoverMoves(c.st, l.l, 0);
    } else if StagerMoves(l.l) {
      StagerAfterOwnMove(c, l);
    } else {
      StagerAtWork(c, l);
    }
  }

  lemma BatchAfterMove(c: State, l: Label)
    requires S.Exclusive(c.st, S.LockOf) && ThreadsInv(c) && WorkInv(c) && Enabled(c, l) && l.Move?
    ensures Drains(c, l) ==> Batch(Next(c, l)) == c.st.cells[c.p].content && Next(c, l).work.phase == Examining(0)
    ensures Finishes(c, l) ==> c.work.Busy? && Batch(c) != [] && (c.work.phase == Stopped || Batch(c)[0] < |c.marks|)
    ensures !Drains(c, l) && !Finishes(c, l) ==> Next(c, l).work == c.work && Batch(Next(c, l)) == Batch(c)
  {
    WorkAfterMove(c, l);
    if Drains(c, l) {
      DrainStartsWork(c, l);
    } else if !Finishes(c, l) && c.work.Busy? {
      BusyWorkerStays(c, l);
    }
  }

  lemma MoveKeepsCover(c: State, l: Label)
    requires S.Exclusive(c.st, S.LockOf) && ThreadsInv(c) && WorkInv(c) && Covered(c) && Enabled(c, l) && l.Move?
    ensures Covered(Next(c, l))
  {
    BatchAfterMove(c, l);
    if Stages(c, l) {
      CellAfterStage(c, l);
    } else {
      CellAfterMove(c, l);
      StagerAfterMove(c, l);
    }
  }

  lemma MoveKeepsInv(c: State, l: Label)
    requires Inv(c) && Enabled(c, l) && l.Move?
    ensures ChainInv(Next(c, l))
  {
    assert ThreadsInv(Next(c, l)) by { MoveKeepsThreads(c, l); }
    assert WorkInv(Next(c, l)) && LatestInv(Next(c, l)) by { MoveKeepsWork(c, l); }
    assert ScanInv(Next(c, l)) by { MoveKeepsScan(c, l); }
    if !c.failed {
      MoveKeepsCover(c, l);
    }
  }

  // ---------- Every step ----------

  lemma NextKeepsInv(c: State, l: Label)
    requires Inv(c) && Enabled(c, l)
    ensures Inv(Next(c, l))
  {
    match l
    case StartSync(_) => SyncKeepsInv(c, l);
    case EndSync(_, _) => SyncKeepsInv(c, l);
    case TakeEvent => ScanKeepsInv(c, l);
    case Check => ScanKeepsInv(c, l);
    case Load(_) => ScanKeepsInv(c, l);
    case RemovePublisher => RemovalKeepsInv(c, l);
    case Stage =>
      StageKeepsInv(c, l);
      if c.scan.found != [] {
        S.NextKeepsInv(c.st, S.Begin(0, [S.Group(c.p, c.scan.found)]));
      }
    case Move(m) =>
      MoveKeepsInv(c, l);
      S.NextKeepsInv(c.st, m);
    case _ => WorkKeepsInv(c, l);
  }
}
