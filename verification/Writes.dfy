/** The datastore writes of a worker in a run of module Chain are those of the turn as a function of module Worker,
    whatever other threads do in between. */
module Writes {
  import opened Types
  import opened Advertisements
  import opened Chain
  import opened ChainSteps
  import S = Staging
  import W = Worker

  /** The assignment lists the advertisements of the batch. */
  predicate Lists(a: Assignment, b: S.Batch) {
    |a.adInfos| == |b| && forall j :: 0 <= j < |b| ==> a.adInfos[j].cid == Cid(b[j])
  }

  /** What a step writes to the datastore. */
  function WritesOf(c: State, l: Label, publisher: PeerID): seq<Write>
    requires Enabled(c, l)
  {
    if !(l.PutProcessed? || l.DeleteBlock? || l.PutLatest?) || !(0 < c.work.phase.i <= |Batch(c)|) then [] else
    var cid := Cid(Batch(c)[c.work.phase.i - 1]);
    if l.PutProcessed? then [Write.PutProcessed(cid, true)]
    else if l.DeleteBlock? then [Write.DeleteBlock(cid)]
    else [PutSync(publisher, cid)]
  }

  /** How many writes a worker has made that started with hi advertisements to go. */
  function WritesMade(phase: Phase, hi: nat): int
    requires !phase.Stopped?
  {
    match phase
    case Examining(i) => 0
    case Todo(i) => 3 * (hi - i)
    case Marked(i) => 3 * (hi - i) + 1
    case Deleted(i) => 3 * (hi - i) + 2
  }

  predicate Marking(phase: Phase, hi: nat) {
    (phase.Todo? || phase.Marked? || phase.Deleted?) && phase.i <= hi && (!phase.Todo? ==> phase.i > 0)
  }

  lemma {:induction false} MarksAt(a: Assignment, hi: nat, i: nat)
    requires 0 < i <= hi <= |a.adInfos|
    ensures var ws, k := W.MarksDown(a, hi, 0), 3 * (hi - i);
            && k + 3 <= |ws|
            && ws[k..k + 3] == W.MarkWrites(a.publisher, a.adInfos[i - 1].cid)
    decreases hi
  {
    if i < hi {
      MarksAt(a, hi - 1, i);
      var k := 3 * (hi - 1 - i);
      assert W.MarksDown(a, hi, 0)[k + 3..k + 6] == W.MarksDown(a, hi - 1, 0)[k..k + 3];
    }
  }

  lemma StepCountsWrites(c: State, l: Label, publisher: PeerID, hi: nat)
    requires Enabled(c, l) && c.work.Busy? && !Finishes(c, l) && !Drains(c, l) && !l.Fail?
    requires hi <= |Batch(c)| && Marking(c.work.phase, hi)
    ensures Next(c, l).work.Busy? && Marking(Next(c, l).work.phase, hi)
    ensures WritesMade(Next(c, l).work.phase, hi)
         == WritesMade(c.work.phase, hi) + |WritesOf(c, l, publisher)|
  {
    if l.Move? {
      WorkAfterMove(c, l);
    }
  }

  lemma WriteComesNext(c: State, l: Label, a: Assignment, hi: nat)
    requires Enabled(c, l) && c.work.Busy? && (l.PutProcessed? || l.DeleteBlock? || l.PutLatest?)
    requires Lists(a, Batch(c)) && hi <= |Batch(c)| && Marking(c.work.phase, hi)
    ensures var k := WritesMade(c.work.phase, hi);
            0 <= k < 3 * hi && WritesOf(c, l, a.publisher) == [W.MarksDown(a, hi, 0)[k]]
  {
    var i := c.work.phase.i;
    MarksAt(a, hi, i);
    var k := 3 * (hi - i);
    var all := W.MarksDown(a, hi, 0);
    assert all[k..k + 3][0] == all[k] && all[k..k + 3][1] == all[k + 1] && all[k..k + 3][2] == all[k + 2];
  }

  /** One step while a worker is busy: it makes the write that comes next, or none. */
  lemma StepMakesNextWrite(c: State, l: Label, a: Assignment, hi: nat)
    requires Enabled(c, l) && c.work.Busy? && !Finishes(c, l) && !Drains(c, l) && !l.Fail?
    requires Lists(a, Batch(c)) && hi <= |Batch(c)| && Marking(c.work.phase, hi)
    ensures var k, ws := WritesMade(c.work.phase, hi), WritesOf(c, l, a.publisher);
            0 <= k && k + |ws| <= 3 * hi && W.MarksDown(a, hi, 0)[..k] + ws == W.MarksDown(a, hi, 0)[..k + |ws|]
  {
    var k, all := WritesMade(c.work.phase, hi), W.MarksDown(a, hi, 0);
    if l.PutProcessed? || l.DeleteBlock? || l.PutLatest? {
      WriteComesNext(c, l, a, hi);
      assert all[..k + 1] == all[..k] + [all[k]];
    } else {
      assert all[..k] + [] == all[..k];
    }
  }

  lemma BatchStays(c: State, l: Label)
    requires WorkInv(c) && Enabled(c, l) && c.work.Busy? && !Finishes(c, l) && !Drains(c, l)
    ensures Next(c, l).work.Busy? && Next(c, l).work.w == c.work.w && Batch(Next(c, l)) == Batch(c)
  {
    if l.Move? {
      WorkAfterMove(c, l);
      BusyWorkerStays(c, l);
    } else if l.Stage? {
      assert S.At(Next(c, l).st, c.work.w) == S.At(c.st, c.work.w);
    }
  }

  /** The writes of a run from step i on, before step j. */
  function Written(run: seq<State>, labels: seq<Label>, publisher: PeerID, i: nat, j: nat): seq<Write>
    requires i <= j <= |labels| < |run| && forall k :: i <= k < j ==> Enabled(run[k], labels[k])
    decreases j
  {
    if i == j then []
    else Written(run, labels, publisher, i, j - 1) + WritesOf(run[j - 1], labels[j - 1], publisher)
  }

  /** From step i to step j the worker neither finishes nor fails. */
  predicate StaysBusy(run: seq<State>, labels: seq<Label>, i: nat, j: nat)
    requires i <= j <= |labels| < |run|
  {
    forall k :: i <= k < j ==> !Finishes(run[k], labels[k]) && !Drains(run[k], labels[k]) && !labels[k].Fail?
  }

  /** The worker that started with hi advertisements of this batch to go has made the first of the turn's writes. */
  ghost predicate Progress(c: State, batch: S.Batch, a: Assignment, hi: nat, written: seq<Write>)
    requires hi <= |a.adInfos|
  {
    && c.work.Busy? && Batch(c) == batch && Marking(c.work.phase, hi)
    && var k := WritesMade(c.work.phase, hi);
       0 <= k <= 3 * hi && written == W.MarksDown(a, hi, 0)[..k]
  }

  lemma ProgressStep(c: State, l: Label, next: State, batch: S.Batch, a: Assignment, hi: nat, written: seq<Write>)
    requires Lists(a, batch) && hi <= |batch| && Progress(c, batch, a, hi, written)
    requires WorkInv(c) && Enabled(c, l) && !Finishes(c, l) && !Drains(c, l) && !l.Fail? && next == Next(c, l)
    ensures Progress(next, batch, a, hi, written + WritesOf(c, l, a.publisher))
  {
    StepCountsWrites(c, l, a.publisher, hi);
    StepMakesNextWrite(c, l, a, hi);
    BatchStays(c, l);
  }

  lemma StepInRun(run: seq<State>, labels: seq<Label>, p: PeerID, i: nat)
    requires IsRun(run, labels, p) && i < |labels|
    ensures WorkInv(run[i]) && Enabled(run[i], labels[i]) && run[i + 1] == Next(run[i], labels[i])
  {
    RunKeepsInv(run, labels, p, i);
  }

  lemma NothingWritten(run: seq<State>, labels: seq<Label>, i: nat, a: Assignment, hi: nat)
    requires i <= |labels| < |run| && run[i].work.Busy? && run[i].work.phase == Todo(hi) && hi <= |Batch(run[i])|
    requires Lists(a, Batch(run[i]))
    ensures Progress(run[i], Batch(run[i]), a, hi, Written(run, labels, a.publisher, i, i))
  {
    assert W.MarksDown(a, hi, 0)[..0] == [];
  }

  lemma WritesGoOn(run: seq<State>, labels: seq<Label>, p: PeerID, i: nat, j: nat, a: Assignment, hi: nat)
    requires IsRun(run, labels, p) && i < j <= |labels| && StaysBusy(run, labels, i, j)
    requires hi <= |Batch(run[i])| && Lists(a, Batch(run[i]))
    requires Progress(run[j - 1], Batch(run[i]), a, hi, Written(run, labels, a.publisher, i, j - 1))
    ensures Progress(run[j], Batch(run[i]), a, hi, Written(run, labels, a.publisher, i, j))
  {
    StepInRun(run, labels, p, j - 1);
    var written := Written(run, labels, a.publisher, i, j - 1);
    ProgressStep(run[j - 1], labels[j - 1], run[j], Batch(run[i]), a, hi, written);
  }

  /** In every run, whatever comes in between, a worker that begins to mark with hi advertisements to go makes the
      writes of marking these, in that order, as far as it has come. */
  lemma {:induction false} WorkerWritesAsTurn(run: seq<State>, labels: seq<Label>, p: PeerID, i: nat, j: nat,
                                              a: Assignment, hi: nat)
    requires IsRun(run, labels, p) && i <= j <= |labels| && StaysBusy(run, labels, i, j)
    requires run[i].work.Busy? && run[i].work.phase == Todo(hi) && hi <= |Batch(run[i])| && Lists(a, Batch(run[i]))
    ensures Progress(run[j], Batch(run[i]), a, hi, Written(run, labels, a.publisher, i, j))
    decreases j
  {
    if i == j {
      NothingWritten(run, labels, i, a, hi);
    } else {
      WorkerWritesAsTurn(run, labels, p, i, j - 1, a, hi);
      WritesGoOn(run, labels, p, i, j, a, hi);
    }
  }

  /** The datastore records as processed what is processed here. */
  ghost predicate Records(ds: Datastore, c: State) {
    forall x: nat :: Done(ds, Cid(x)) <==> x in c.processed
  }

  /** A worker begins to mark where the turn as a function does. */
  lemma BeginsAtSplit(c: State, a: Assignment, ds: Datastore, hi: nat)
    requires MarksInv(c) && WorkInv(c) && c.work.Busy? && c.work.phase == Todo(hi)
    requires Lists(a, Batch(c)) && Records(ds, c)
    ensures hi == W.SplitAt(a.adInfos, ds)
  {
    forall i | 0 <= i < |a.adInfos| ensures Done(ds, a.adInfos[i].cid) <==> hi <= i {
      assert a.adInfos[i].cid == Cid(Batch(c)[i]) && Batch(c)[i] == Batch(c)[0] - i;
    }
    W.SplitIsFrontier(a.adInfos, ds, hi);
  }

  lemma {:induction false} MarksDownStart(a: Assignment, hi: nat, lo: nat)
    requires lo <= hi <= |a.adInfos|
    ensures W.MarksDown(a, hi, lo) == W.MarksDown(a, hi, 0)[..3 * (hi - lo)]
    decreases hi
  {
    if lo < hi {
      MarksDownStart(a, hi - 1, lo);
    }
  }

  lemma RunBeginsAtSplit(run: seq<State>, labels: seq<Label>, p: PeerID, i: nat, a: Assignment, ds: Datastore, hi: nat)
    requires IsRun(run, labels, p) && i < |run| && run[i].work.Busy? && run[i].work.phase == Todo(hi)
    requires Lists(a, Batch(run[i])) && Records(ds, run[i])
    ensures hi == W.SplitAt(a.adInfos, ds)
  {
    RunKeepsInv(run, labels, p, i);
    BeginsAtSplit(run[i], a, ds, hi);
  }

  lemma ProgressAtTodo(c: State, batch: S.Batch, a: Assignment, hi: nat, written: seq<Write>, lo: nat)
    requires hi <= |a.adInfos| && Progress(c, batch, a, hi, written) && c.work.phase == Todo(lo)
    ensures lo <= hi && written == W.MarksDown(a, hi, lo)
  {
    MarksDownStart(a, hi, lo);
  }

  /** The worker stops at an error, or has marked everything. */
  predicate Ends(c: State, l: Label) {
    l.Fail? || (Finishes(c, l) && c.work.Busy? && c.work.phase == Todo(0))
  }

  lemma EndWritesNothing(run: seq<State>, labels: seq<Label>, p: PeerID, publisher: PeerID, i: nat, j: nat)
    requires IsRun(run, labels, p) && i <= j < |labels| && Ends(run[j], labels[j])
    ensures Written(run, labels, publisher, i, j + 1) == Written(run, labels, publisher, i, j)
  {
    assert WritesOf(run[j], labels[j], publisher) == [];
  }

  /** A worker that ends, at an error or not, with as many advertisements left as some turn as a function over the same
      assignment, has made exactly the writes of that turn, whatever came in between. */
  lemma WorkerTurnInRun(run: seq<State>, labels: seq<Label>, p: PeerID, i: nat, j: nat, a: Assignment, hi: nat,
                        env: seq<Attempt>, ds: Datastore, values: ValueStore)
    requires IsRun(run, labels, p) && i <= j < |labels| && StaysBusy(run, labels, i, j) && Ends(run[j], labels[j])
    requires run[i].work.Busy? && run[i].work.phase == Todo(hi) && Lists(a, Batch(run[i])) && Records(ds, run[i])
    requires |a.adInfos| <= |env| && hi <= |a.adInfos|
    requires run[j].work.Busy? && run[j].work.phase == Todo(W.WorkerTurn(a, env, ds, values).left)
    ensures hi == W.SplitAt(a.adInfos, ds)
    ensures Written(run, labels, a.publisher, i, j + 1) == W.WorkerTurn(a, env, ds, values).writes
  {
    RunBeginsAtSplit(run, labels, p, i, a, ds, hi);
    WorkerWritesAsTurn(run, labels, p, i, j, a, hi);
    W.TurnTrace(a, hi, env, values);
    ProgressAtTodo(run[j], Batch(run[i]), a, hi, Written(run, labels, a.publisher, i, j),
                   W.WorkerTurn(a, env, ds, values).left);
    EndWritesNothing(run, labels, p, a.publisher, i, j);
  }

  // ---------- Every turn is possible ----------

  /** These steps can be taken from c, make these writes, and lead to d. */
  predicate Leads(c: State, labels: seq<Label>, publisher: PeerID, ws: seq<Write>, d: State)
    decreases |labels|
  {
    if labels == [] then c == d && ws == []
    else
      && Enabled(c, labels[0])
      && WritesOf(c, labels[0], publisher) <= ws
      && Leads(Next(c, labels[0]), labels[1..], publisher, ws[|WritesOf(c, labels[0], publisher)|..], d)
  }

  /** The step writes just this. */
  predicate StepWrites(c: State, l: Label, publisher: PeerID, w: Write, next: State) {
    Enabled(c, l) && WritesOf(c, l, publisher) == [w] && next == Next(c, l)
  }

  lemma LeadsFrom(c: State, l: Label, publisher: PeerID, w: Write, next: State, labels: seq<Label>, ws: seq<Write>,
                  d: State)
    requires StepWrites(c, l, publisher, w, next) && Leads(next, labels, publisher, ws, d)
    ensures Leads(c, [l] + labels, publisher, [w] + ws, d)
  {
    assert ([l] + labels)[1..] == labels && ([w] + ws)[1..] == ws;
  }

  lemma LeadsThree(c: State, c1: State, c2: State, c3: State, publisher: PeerID, three: seq<Label>, writes: seq<Write>,
                   labels: seq<Label>, ws: seq<Write>, d: State)
    requires |three| == |writes| == 3 && Leads(c3, labels, publisher, ws, d)
    requires StepWrites(c, three[0], publisher, writes[0], c1)
    requires StepWrites(c1, three[1], publisher, writes[1], c2)
    requires StepWrites(c2, three[2], publisher, writes[2], c3)
    ensures Leads(c, three + labels, publisher, writes + ws, d)
  {
    LeadsFrom(c2, three[2], publisher, writes[2], c3, labels, ws, d);
    LeadsFrom(c1, three[1], publisher, writes[1], c2, [three[2]] + labels, [writes[2]] + ws, d);
    LeadsFrom(c, three[0], publisher, writes[0], c1, [three[1]] + ([three[2]] + labels),
              [writes[1]] + ([writes[2]] + ws), d);
    assert [three[0]] + ([three[1]] + ([three[2]] + labels)) == three + labels;
    assert [writes[0]] + ([writes[1]] + ([writes[2]] + ws)) == writes + ws;
  }

  /** The worker is about to mark advertisement i - 1 of this batch. */
  predicate AtTodo(c: State, w: S.Tid, batch: S.Batch, i: nat) {
    c.work == Busy(w, Todo(i)) && S.At(c.st, w).Working? && S.At(c.st, w).batch == batch && i <= |batch|
  }

  /** The state after the three steps that mark the next advertisement. */
  function AfterMark(c: State, w: S.Tid, batch: S.Batch, i: nat): (d: State)
    requires AtTodo(c, w, batch, i) && i > 0
    ensures AtTodo(d, w, batch, i - 1) && d.st == c.st && d.scan == c.scan
  {
    Next(Next(Next(c, Label.PutProcessed), Label.DeleteBlock), PutLatest)
  }

  /** The three steps that mark an advertisement. */
  function MarkSteps(): seq<Label> {
    [Label.PutProcessed, Label.DeleteBlock, PutLatest]
  }

  lemma MarkStepsWrite(c: State, w: S.Tid, batch: S.Batch, i: nat, a: Assignment) returns (c1: State, c2: State)
    requires AtTodo(c, w, batch, i) && i > 0 && Lists(a, batch)
    ensures var writes := W.MarkWrites(a.publisher, a.adInfos[i - 1].cid);
            && StepWrites(c, MarkSteps()[0], a.publisher, writes[0], c1)
            && StepWrites(c1, MarkSteps()[1], a.publisher, writes[1], c2)
            && StepWrites(c2, MarkSteps()[2], a.publisher, writes[2], AfterMark(c, w, batch, i))
  {
    c1 := Next(c, Label.PutProcessed);
    c2 := Next(c1, Label.DeleteBlock);
  }

  /** The other way around: whatever turn a worker is about to make, there are steps that make its writes, and then it
      can stop at an error if advertisements are left, or else finish. */
  lemma {:induction false} TurnIsPossible(c: State, w: S.Tid, batch: S.Batch, hi: nat, lo: nat, a: Assignment)
    returns (labels: seq<Label>, d: State)
    requires AtTodo(c, w, batch, hi) && lo <= hi && Lists(a, batch)
    ensures Leads(c, labels, a.publisher, W.MarksDown(a, hi, lo), d)
    ensures AtTodo(d, w, batch, lo) && d.st == c.st && d.scan == c.scan
    ensures lo > 0 ==> Enabled(d, Fail)
    ensures lo == 0 && (c.scan.Scan? ==> w != 0) ==> Enabled(d, Move(S.Finish(w)))
    decreases hi
  {
    if lo == hi {
      return [], c;
    }
    var rest;
    rest, d := TurnIsPossible(AfterMark(c, w, batch, hi), w, batch, hi - 1, lo, a);
    var c1, c2 := MarkStepsWrite(c, w, batch, hi, a);
    LeadsThree(c, c1, c2, AfterMark(c, w, batch, hi), a.publisher, MarkSteps(),
               W.MarkWrites(a.publisher, a.adInfos[hi - 1].cid), rest, W.MarksDown(a, hi - 1, lo), d);
    labels := MarkSteps() + rest;
  }
}
