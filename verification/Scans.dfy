/** The scan of a finished sync in a run of module Chain comes to what the ingester groups for the provider, when no
    worker marks anything in between. */
module Scans {
  import opened Wrappers
  import opened Types
  import opened Advertisements
  import opened Ingester
  import opened Chain
  import opened ChainSteps
  import S = Staging

  /** What a finished sync lists: the chain from its head down to but excluding what it stopped at. */
  function Listing(e: SyncEvent): (cids: seq<Cid>)
    ensures |cids| == e.head + 1 - Floor(e)
  {
    seq(e.head + 1 - Floor(e), k requires 0 <= k < e.head + 1 - Floor(e) => Cid(e.head - k))
  }

  /** In positions: the listing ends behind the stop, if it is not newer than the head. */
  lemma ListingIs(e: SyncEvent, x: nat)
    ensures Cid(x) in Listing(e) <==> x <= e.head && (e.stop.Some? && e.stop.value <= e.head ==> e.stop.value < x)
    ensures Floor(e) <= x <= e.head ==> Listing(e)[e.head - x] == Cid(x)
  {
    if Floor(e) <= x <= e.head {
      assert Listing(e)[e.head - x] == Cid(x);
    }
  }

  ghost predicate Loads(ds: Datastore, c: Cid, p: PeerID) {
    exists ad :: BlockHolds(ds, c, ad, p)
  }

  /** The datastore records as processed what is processed here, and has the blocks of all other advertisements, which
      are of this provider. */
  ghost predicate Records(ds: Datastore, c: State) {
    forall x: nat ::
      && (Done(ds, Cid(x)) <==> x in c.processed)
      && (x !in c.processed ==> Loads(ds, Cid(x), c.p))
  }

  /** All positions from the head of the sync down to where the scan has come are found, and none is processed. */
  ghost predicate Scanning(c: State, e: SyncEvent) {
    && c.scan.Scan? && c.scan.head == e.head && Floor(e) <= c.scan.next <= e.head + 1
    && |c.scan.found| == e.head + 1 - c.scan.next
    && (forall k | 0 <= k < |c.scan.found| :: c.scan.found[k] == e.head - k && c.scan.found[k] !in c.processed)
    && (c.scan.checked ==> c.scan.next > c.scan.floor && c.scan.next - 1 !in c.processed)
    && (c.scan.floor == Floor(e) || (c.scan.floor == c.scan.next > Floor(e) && c.scan.next - 1 in c.processed))
  }

  lemma ScanStarts(c: State, next: State)
    requires Enabled(c, TakeEvent) && next == Next(c, TakeEvent)
    ensures Scanning(next, c.events[0])
  {
  }

  lemma ScanGoesOn(c: State, l: Label, next: State, e: SyncEvent)
    requires Enabled(c, l) && next == Next(c, l)
    requires Scanning(c, e) && !l.Stage? && next.processed == c.processed
    ensures Scanning(next, e)
  {
  }

  /** From when a sync event is taken until its scan stages, nothing is marked. */
  ghost predicate Undisturbed(run: seq<State>, labels: seq<Label>, i: nat, j: nat)
    requires i < j <= |labels| < |run|
  {
    && labels[i].TakeEvent? && run[i].events != []
    && (forall k | i < k < j :: !labels[k].Stage?)
    && (forall k | i < k <= j :: run[k].processed == run[i].processed)
  }

  lemma {:induction false} ScanInRun(run: seq<State>, labels: seq<Label>, p: PeerID, i: nat, j: nat)
    requires IsRun(run, labels, p) && i < j <= |labels| && Undisturbed(run, labels, i, j)
    ensures Scanning(run[j], run[i].events[0])
    decreases j
  {
    if j == i + 1 {
      ScanStarts(run[i], run[j]);
    } else {
      ScanInRun(run, labels, p, i, j - 1);
      var k := j - 1;
      assert Enabled(run[k], labels[k]) && run[k + 1] == Next(run[k], labels[k]) && !labels[k].Stage?;
      ScanGoesOn(run[k], labels[k], run[j], run[i].events[0]);
    }
  }

  lemma {:induction false} GroupOfLoaded(ds: Datastore, cids: seq<Cid>, n: nat, p: PeerID)
    requires n <= |cids| && forall k | 0 <= k < n :: Loads(ds, cids[k], p)
    ensures var g := GroupOf(ds, cids, n, p);
            |g| == n && forall k | 0 <= k < n :: g[k].cid == cids[k]
  {
    if n > 0 {
      GroupOfLoaded(ds, cids, n - 1, p);
      assert Loads(ds, cids[n - 1], p);
    }
  }

  lemma ScannedIsUnprocessed(c: State, e: SyncEvent, ds: Datastore)
    requires Scanning(c, e) && Records(ds, c) && Enabled(c, Stage)
    ensures Unprocessed(ds, Listing(e)) == |c.scan.found|
  {
    var cids, n := Listing(e), |c.scan.found|;
    forall k | 0 <= k < n ensures !Done(ds, cids[k]) {
      assert cids[k] == Cid(c.scan.found[k]);
    }
    if n < |cids| {
      assert cids[n] == Cid(c.scan.next - 1);
    }
  }

  /** Then what is staged are the advertisements that the ingester groups for this provider from the same list, as
      `Ingester.Ingester.GroupByProvider` does it in one call. */
  lemma ScanFindsGroup(run: seq<State>, labels: seq<Label>, p: PeerID, i: nat, j: nat, ds: Datastore)
    requires IsRun(run, labels, p) && i < j < |labels| && Undisturbed(run, labels, i, j) && labels[j].Stage?
    requires Records(ds, run[j])
    ensures var cids, found := Listing(run[i].events[0]), run[j].scan.found;
            var g := GroupOf(ds, cids, Unprocessed(ds, cids), p);
            |g| == |found| && forall k | 0 <= k < |found| :: g[k].cid == Cid(found[k])
  {
    var c, e := run[j], run[i].events[0];
    ScanInRun(run, labels, p, i, j);
    SameProvider(run, labels, p, j);
    ScannedIsUnprocessed(c, e, ds);
    var cids := Listing(e);
    forall k | 0 <= k < |c.scan.found| ensures Loads(ds, cids[k], p) {
      assert cids[k] == Cid(c.scan.found[k]);
    }
    GroupOfLoaded(ds, cids, |c.scan.found|, p);
  }
}
