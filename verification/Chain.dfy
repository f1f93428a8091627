/** Gap-free ingestion: what the steps of module ChainSteps come to in every run. */
module Chain {
  import opened Wrappers
  import opened Types
  import opened ChainSteps
  import S = Staging

  ghost predicate IsRun(run: seq<State>, labels: seq<Label>, p: PeerID) {
    && |run| == |labels| + 1 && run[0] == Initial(p)
    && forall i :: 0 <= i < |labels| ==> Enabled(run[i], labels[i]) && run[i + 1] == Next(run[i], labels[i])
  }

  lemma {:induction false} RunKeepsInv(run: seq<State>, labels: seq<Label>, p: PeerID, i: nat)
    requires IsRun(run, labels, p) && i < |run|
    ensures forall j | 0 <= j <= i :: Inv(run[j])
  {
    if i == 0 {
      InitialInv(p);
    } else {
      RunKeepsInv(run, labels, p, i - 1);
      NextKeepsInv(run[i - 1], labels[i - 1]);
    }
  }

  /** In every state of every run the processed advertisements are a prefix of the chain, each was marked exactly
      once and in chain order, and latest-sync names the newest of them, or the one before it between the writes of
      one mark, or nothing from the removal of the publisher to the next mark. */
  lemma GapFreeExactlyOnce(run: seq<State>, labels: seq<Label>, p: PeerID, i: nat)
    requires IsRun(run, labels, p) && i < |run|
    ensures var c := run[i]; var m := |c.marks|;
            && (forall k :: 0 <= k < m ==> c.marks[k] == k)
            && (forall x :: x in c.processed <==> 0 <= x < m)
            && (if c.forgotten then c.latest == None
                else c.latest == NewestOf(m) || (m > 0 && c.latest == NewestOf(m - 1)))
            && (c.work.NoWork? && !c.forgotten ==> c.latest == NewestOf(m))
  {
    RunKeepsInv(run, labels, p, i);
  }

  ghost predicate Quiescent(c: State) {
    c.events == [] && c.scan.NoScan? && forall t :: S.At(c.st, t).Idle?
  }

  /** When nothing is left to do and no worker stopped at an error since the last sync finished, the head of that
      sync is processed, and with it every older advertisement. */
  lemma QuiescenceMeansProcessed(run: seq<State>, labels: seq<Label>, p: PeerID, i: nat, x: nat)
    requires IsRun(run, labels, p) && i < |run| && Quiescent(run[i]) && !run[i].failed
    requires run[i].head.Some? && x <= run[i].head.value
    ensures x in run[i].processed
  {
    RunKeepsInv(run, labels, p, i);
    S.IdleMeansDrained(run[i].st, p);
    SameProvider(run, labels, p, i);
  }

  lemma {:induction false} SameProvider(run: seq<State>, labels: seq<Label>, p: PeerID, i: nat)
    requires IsRun(run, labels, p) && i < |run|
    ensures run[i].p == p
  {
    if i > 0 {
      SameProvider(run, labels, p, i - 1);
    }
  }
}
