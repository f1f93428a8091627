/** Who is notified of processed advertisements: channels are handed out per publisher, removed when their reader
    cancels, and sent each event of their publisher in between. */
module Listeners {
  import opened Wrappers
  import opened Types
  import opened Worker

  type Chan = int
  type Lists = map<PeerID, seq<Chan>>

  function ListOf(lists: Lists, p: PeerID): seq<Chan> {
    if p in lists then lists[p] else []
  }

  ghost predicate Distinct(list: seq<Chan>) {
    forall j, k | 0 <= j < k < |list| :: list[j] != list[k]
  }

  /** No list is empty, no channel is listed twice, and none that is listed is closed, so nothing is ever sent on a
      closed channel. */
  ghost predicate ListsOk(lists: Lists, closed: set<Chan>, next: Chan) {
    && (forall p | p in lists :: lists[p] != [] && Distinct(lists[p]))
    && (forall p, ch: Chan :: ch in ListOf(lists, p) ==> 0 <= ch < next)
    && (forall p, ch: Chan :: ch in ListOf(lists, p) ==> ch !in closed)
    && (forall p, q, ch: Chan :: ch in ListOf(lists, p) && ch in ListOf(lists, q) ==> p == q)
    && (forall ch | ch in closed :: ch < next)
  }

  lemma AddKeepsLists(lists: Lists, closed: set<Chan>, next: Chan, p: PeerID)
    requires ListsOk(lists, closed, next) && 0 <= next
    ensures ListsOk(lists[p := ListOf(lists, p) + [next]], closed, next + 1)
  {
    var list := ListOf(lists, p);
    var more := lists[p := list + [next]];
    assert forall q, ch: Chan :: ch in ListOf(more, q) <==> ch in ListOf(lists, q) || (q == p && ch == next);
    var longer := list + [next];
    forall j, k | 0 <= j < k < |longer| ensures longer[j] != longer[k] {
      assert longer[j] == list[j] && list[j] in ListOf(lists, p);
      assert list[j] < next;
      assert longer[k] == if k < |list| then list[k] else next;
      assert Distinct(list);
    }
    assert Distinct(longer);
  }

  /** One channel is off its publisher's list, which is gone if that was the only one. */
  lemma RemoveKeepsLists(lists: Lists, closed: set<Chan>, next: Chan, p: PeerID, ch: Chan, less: Lists)
    requires ListsOk(lists, closed, next) && ch in ListOf(lists, p)
    requires less == lists - {p} || (exists list: seq<Chan> :: less == lists[p := list] && list != [] && Distinct(list))
    requires forall c: Chan :: c in ListOf(less, p) <==> c in ListOf(lists, p) && c != ch
    ensures ListsOk(less, closed, next) && ListsOk(less, closed + {ch}, next)
    ensures forall q, c: Chan :: c in ListOf(less, q) <==> c in ListOf(lists, q) && !(q == p && c == ch)
  {
    forall q, c: Chan ensures c in ListOf(less, q) <==> c in ListOf(lists, q) && !(q == p && c == ch) {
      if q != p {
        assert ListOf(less, q) == ListOf(lists, q);
      }
    }
  }

  /** The last channel moves to the place of the one that is removed. */
  function SwapOut(list: seq<Chan>, i: nat): seq<Chan>
    requires i < |list|
  {
    list[i := list[|list| - 1]][..|list| - 1]
  }

  lemma SwapOutRemoves(list: seq<Chan>, i: nat)
    requires i < |list| && Distinct(list)
    ensures forall c: Chan :: c in SwapOut(list, i) <==> c in list && c != list[i]
    ensures Distinct(SwapOut(list, i)) && (|list| > 1 ==> SwapOut(list, i) != [])
  {
    var out, last := SwapOut(list, i), |list| - 1;
    forall c: Chan | c in list && c != list[i] ensures c in out {
      var j :| 0 <= j < |list| && list[j] == c;
      assert out[if j == last then i else j] == c;
    }
  }

  /** The lists without the i-th channel of p. */
  function Removed(lists: Lists, p: PeerID, i: nat): Lists
    requires p in lists && i < |lists[p]|
  {
    if |lists[p]| == 1 then lists - {p} else lists[p := SwapOut(lists[p], i)]
  }

  lemma RemovedKeepsLists(lists: Lists, closed: set<Chan>, next: Chan, p: PeerID, i: nat)
    requires ListsOk(lists, closed, next) && p in lists && i < |lists[p]|
    ensures var ch := lists[p][i];
            && ListsOk(Removed(lists, p, i), closed + {ch}, next) && ListsOk(Removed(lists, p, i), closed, next)
            && forall q, c: Chan ::
                 c in ListOf(Removed(lists, p, i), q) <==> c in ListOf(lists, q) && !(q == p && c == ch)
  {
    if |lists[p]| > 1 {
      SwapOutRemoves(lists[p], i);
    }
    RemoveKeepsLists(lists, closed, next, p, lists[p][i], Removed(lists, p, i));
  }

  class EventHub {
    /** None stands for the nil map. */
    var outEventsChans: Option<Lists>
    var closed: set<Chan>
    var next: Chan
    /** The events sent on each channel. */
    var sent: map<Chan, seq<Event>>

    ghost function Lists(): Lists
      reads this
    {
      if outEventsChans.Some? then outEventsChans.value else map[]
    }

    ghost predicate Valid()
      reads this
    {
      && ListsOk(Lists(), closed, next)
      && 0 <= next && (forall ch: Chan :: ch in sent <==> 0 <= ch < next)
    }

    constructor ()
      ensures Valid() && Lists() == map[]
    {
      outEventsChans, closed, next, sent := None, {}, 0, map[];
    }

    /** A new channel at the end of the publisher's list. */
    method OnAdProcessed(p: PeerID) returns (ch: Chan)
      requires Valid()
      modifies this
      ensures Valid() && ch == old(next) && next == ch + 1 && closed == old(closed)
      ensures Lists() == old(Lists())[p := ListOf(old(Lists()), p) + [ch]]
      ensures sent == old(sent)[ch := []]
      ensures Changes(Listen(p), old(Lists()), old(next), Lists(), next)
    {
      AddKeepsLists(Lists(), closed, next, p);
      ch, next := next, next + 1;
      sent := sent[ch := []];
      if outEventsChans.None? {
        outEventsChans := Some(map[]);
      }
      var chans := if p in outEventsChans.value then outEventsChans.value[p] else [];
      outEventsChans := Some(outEventsChans.value[p := chans + [ch]]);
    }

    /** Cancelling takes the channel off its publisher's list and leaves the other listeners; a second cancel does
        nothing. The channel is closed exactly if its publisher has other listeners, although closing it is
        promised always. */
    method Cancel(p: PeerID, ch: Chan)
      requires Valid()
      modifies this`outEventsChans, this`closed
      ensures Valid()
      ensures forall q, c: Chan :: c in ListOf(Lists(), q) <==> c in ListOf(old(Lists()), q) && !(q == p && c == ch)
      ensures closed == if ch in ListOf(old(Lists()), p) && |ListOf(old(Lists()), p)| > 1 then old(closed) + {ch}
                        else old(closed)
      ensures if ch in ListOf(old(Lists()), p) then CancelChanges(p, ch, old(Lists()), Lists(), next)
              else Lists() == old(Lists())
    {
      if outEventsChans.None? || p !in outEventsChans.value {
        return;
      }
      var chans := outEventsChans.value[p];
      var i := 0;
      while i < |chans| && chans[i] != ch
        invariant i <= |chans| && ch !in chans[..i]
      {
        i := i + 1;
      }
      if i < |chans| {
        RemoveAt(p, i);
      } else {
        assert chans[..i] == chans;
      }
    }

    method RemoveAt(p: PeerID, i: nat)
      requires Valid() && p in Lists() && i < |Lists()[p]|
      modifies this`outEventsChans, this`closed
      ensures Valid() && Lists() == Removed(old(Lists()), p, i)
      ensures var ch := old(Lists())[p][i];
              && (forall q, c: Chan ::
                    c in ListOf(Lists(), q) <==> c in ListOf(old(Lists()), q) && !(q == p && c == ch))
              && closed == if |old(Lists())[p]| > 1 then old(closed) + {ch} else old(closed)
    {
      var chans := outEventsChans.value[p];
      RemovedKeepsLists(Lists(), closed, next, p, i);
      if |chans| == 1 {
        if |outEventsChans.value| == 1 {
          OnlyKey(outEventsChans.value, p);
          assert outEventsChans.value - {p} == map[];
          outEventsChans := None;
        } else {
          outEventsChans := Some(outEventsChans.value - {p});
        }
      } else {
        closed := closed + {chans[i]};
        outEventsChans := Some(outEventsChans.value[p := SwapOut(chans, i)]);
      }
    }

    /** An event is sent once to every listener of its publisher, and to nobody else. */
    method Distribute(event: Event)
      requires Valid()
      modifies this`sent
      ensures Valid()
      ensures forall ch | ch in sent ::
        sent[ch] == old(sent)[ch] + if ch in ListOf(Lists(), event.publisher) then [event] else []
    {
      if outEventsChans.None? || event.publisher !in outEventsChans.value {
        return;
      }
      var chans := outEventsChans.value[event.publisher];
      for i := 0 to |chans|
        invariant sent.Keys == old(sent).Keys
        invariant forall ch | ch in sent :: sent[ch] == old(sent)[ch] + if ch in chans[..i] then [event] else []
      {
        var ch := chans[i];
        assert ch in ListOf(Lists(), event.publisher);
        sent := sent[ch := sent[ch] + [event]];
      }
      assert chans[..|chans|] == chans;
    }

    /** The loop over the events. A channel gets those of its publisher, in order. */
    method DistributeEvents(events: seq<Event>)
      requires Valid()
      modifies this`sent
      ensures Valid()
      ensures forall ch | ch in sent :: sent[ch] == old(sent)[ch] + Heard(events, Lists(), ch)
    {
      ghost var before := sent;
      for k := 0 to |events|
        invariant Valid()
        invariant forall ch | ch in sent :: sent[ch] == before[ch] + Heard(events[..k], Lists(), ch)
      {
        ghost var now := sent;
        Distribute(events[k]);
        forall ch | ch in sent ensures sent[ch] == before[ch] + Heard(events[..k + 1], Lists(), ch) {
          HeardNext(events, Lists(), ch, k);
          Assoc(before[ch], Heard(events[..k], Lists(), ch), Heard([events[k]], Lists(), ch));
        }
      }
      assert events[..|events|] == events;
    }
  }

  /** The events of the publishers that list this channel. */
  function Heard(events: seq<Event>, lists: Lists, ch: Chan): seq<Event> {
    if events == [] then [] else
    var last := |events| - 1;
    Heard(events[..last], lists, ch) + if ch in ListOf(lists, events[last].publisher) then [events[last]] else []
  }

  lemma HeardNext(events: seq<Event>, lists: Lists, ch: Chan, k: nat)
    requires k < |events|
    ensures Heard([events[k]], lists, ch) == if ch in ListOf(lists, events[k].publisher) then [events[k]] else []
    ensures Heard(events[..k + 1], lists, ch) == Heard(events[..k], lists, ch) + Heard([events[k]], lists, ch)
  {
    assert events[..k + 1][..k] == events[..k] && [events[k]][..0] == [];
    assert Heard([events[k]][..0], lists, ch) == [];
  }

  /** Whoever is the only listener and cancels is left with an open channel, on which nothing will be sent. */
  method LastListenerStaysOpen(p: PeerID) returns (hub: EventHub, ch: Chan)
    ensures fresh(hub) && hub.Valid()
    ensures ch in hub.sent && ch !in hub.closed && forall q :: ch !in ListOf(hub.Lists(), q)
  {
    hub := new EventHub();
    ch := hub.OnAdProcessed(p);
    hub.Cancel(p, ch);
  }

  lemma OnlyKey(lists: Lists, p: PeerID)
    requires p in lists && |lists| == 1
    ensures lists.Keys == {p}
  {
    var others := lists.Keys - {p};
    assert lists.Keys == others + {p};
    assert |others| == 0;
  }

  // ---------- Blocking ----------

  /** The listeners and the distributor, which holds the one mutex while it delivers an event, and blocks on a channel
      that is full. `toDeliver` lists the channels that still have to get the event being delivered; `toCome` lists the
      publishers of the events that come after it. A channel has room for one event. A reader that has stopped reading
      is about to cancel, which needs the mutex. */
  datatype State = State(lists: Lists, next: Chan, full: set<Chan>, reading: set<Chan>,
                         toDeliver: Option<seq<Chan>>, toCome: seq<PeerID>)

  datatype Step =
    | TakeMutex | Deliver | ReleaseMutex
    | Read(ch: Chan) | StopReading(ch: Chan) | CancelAt(p: PeerID, i: nat) | Listen(p: PeerID)

  predicate Enabled(s: State, step: Step) {
    match step
    case TakeMutex => s.toDeliver.None? && s.toCome != []
    case Deliver => s.toDeliver.Some? && s.toDeliver.value != [] && s.toDeliver.value[0] !in s.full
    case ReleaseMutex => s.toDeliver == Some([])
    case Read(ch) => ch in s.reading && ch in s.full
    case StopReading(ch) => ch in s.reading
    case CancelAt(p, i) => s.toDeliver.None? && p in s.lists && i < |s.lists[p]| && s.lists[p][i] !in s.reading
    case Listen(p) => s.toDeliver.None?
  }

  function After(s: State, step: Step): State
    requires Enabled(s, step)
  {
    match step
    case TakeMutex => s.(toDeliver := Some(ListOf(s.lists, s.toCome[0])), toCome := s.toCome[1..])
    case Deliver => s.(full := s.full + {s.toDeliver.value[0]}, toDeliver := Some(s.toDeliver.value[1..]))
    case ReleaseMutex => s.(toDeliver := None)
    case Read(ch) => s.(full := s.full - {ch})
    case StopReading(ch) => s.(reading := s.reading - {ch})
    case CancelAt(p, i) => s.(lists := Removed(s.lists, p, i))
    case Listen(p) =>
      s.(lists := s.lists[p := ListOf(s.lists, p) + [s.next]], next := s.next + 1, reading := s.reading + {s.next})
  }

  /** The methods of the class take these steps: as far as the lists go, the step changes them like this. */
  ghost predicate Changes(step: Step, lists: Lists, next: Chan, lists': Lists, next': Chan) {
    forall s: State | s.lists == lists && s.next == next && Enabled(s, step) ::
      After(s, step).lists == lists' && After(s, step).next == next'
  }

  ghost predicate CancelChanges(p: PeerID, ch: Chan, lists: Lists, lists': Lists, next: Chan) {
    exists i: nat :: i < |ListOf(lists, p)| && ListOf(lists, p)[i] == ch
                     && Changes(CancelAt(p, i), lists, next, lists', next)
  }

  ghost predicate Listed(lists: Lists, ch: Chan) {
    exists p :: ch in ListOf(lists, p)
  }

  /** What holds of every state that the class and the steps lead to. */
  ghost predicate Ok(s: State) {
    && ListsOk(s.lists, {}, s.next) && 0 <= s.next
    && (forall ch | ch in s.full :: ch < s.next)
    && (forall ch | ch in s.reading :: ch < s.next)
    && (s.toDeliver.Some? ==>
          && Distinct(s.toDeliver.value)
          && (forall ch: Chan | ch in s.toDeliver.value :: Listed(s.lists, ch)))
  }

  /** These steps can be taken from s and lead to t. */
  predicate Leads(s: State, steps: seq<Step>, t: State)
    decreases |steps|
  {
    if steps == [] then s == t else Enabled(s, steps[0]) && Leads(After(s, steps[0]), steps[1..], t)
  }

  lemma {:induction false} LeadsOn(s: State, a: seq<Step>, t: State, b: seq<Step>, u: State)
    requires Leads(s, a, t) && Leads(t, b, u)
    ensures Leads(s, a + b, u)
    decreases |a|
  {
    if a == [] {
      assert a + b == b;
    } else {
      assert (a + b)[1..] == a[1..] + b && (a + b)[0] == a[0];
      LeadsOn(After(s, a[0]), a[1..], t, b, u);
    }
  }

  lemma LeadsOne(s: State, step: Step)
    requires Enabled(s, step)
    ensures Leads(s, [step], After(s, step))
  {
    assert [step][1..] == [];
  }

  lemma StepKeepsOk(s: State, step: Step)
    requires Ok(s) && Enabled(s, step)
    ensures Ok(After(s, step))
  {
    match step
    case TakeMutex =>
      forall ch: Chan | ch in ListOf(s.lists, s.toCome[0]) ensures Listed(s.lists, ch) {}
    case Deliver =>
      TailIsDistinct(s.toDeliver.value);
      assert Listed(s.lists, s.toDeliver.value[0]);
    case CancelAt(p, i) => RemovedKeepsLists(s.lists, {}, s.next, p, i);
    case Listen(p) => AddKeepsLists(s.lists, {}, s.next, p);
    case _ =>
  }

  lemma TailIsDistinct(q: seq<Chan>)
    requires q != [] && Distinct(q)
    ensures Distinct(q[1..]) && forall ch: Chan :: ch in q[1..] <==> ch in q && ch != q[0]
  {
    forall j, k | 0 <= j < k < |q[1..]| ensures q[1..][j] != q[1..][k] {
      assert q[j + 1] != q[k + 1];
    }
    assert q == [q[0]] + q[1..];
    forall ch: Chan | ch in q[1..] ensures ch != q[0] {
      var j :| 0 <= j < |q[1..]| && q[1..][j] == ch;
      assert q[0] != q[j + 1];
    }
  }

  // ---------- Delivery with room ----------

  /** The event has gone to all of these channels. */
  function Delivered(s: State, chans: seq<Chan>): State {
    s.(full := s.full + (set ch | ch in chans), toDeliver := Some([]))
  }

  lemma {:induction false} DeliverAll(s: State) returns (steps: seq<Step>)
    requires s.toDeliver.Some? && Distinct(s.toDeliver.value)
    requires forall ch: Chan | ch in s.toDeliver.value :: ch !in s.full
    ensures Leads(s, steps, Delivered(s, s.toDeliver.value))
    decreases |s.toDeliver.value|
  {
    var chans := s.toDeliver.value;
    if chans == [] {
      steps := [];
      assert Delivered(s, chans) == s;
    } else {
      assert chans[0] in chans;
      TailIsDistinct(chans);
      var next := After(s, Deliver);
      var rest := DeliverAll(next);
      assert {chans[0]} + (set ch | ch in chans[1..]) == (set ch | ch in chans);
      assert Delivered(next, chans[1..]) == Delivered(s, chans);
      steps := [Deliver] + rest;
      LeadsOne(s, Deliver);
      LeadsOn(s, [Deliver], next, rest, Delivered(s, chans));
    }
  }

  /** If no listener of the next event's publisher has a full channel, then the distributor gets through with it alone:
      it is sent to each of them, and to nobody else, as `Distribute` does it in one call. */
  lemma DistributesWithRoom(s: State) returns (steps: seq<Step>)
    requires Ok(s) && s.toDeliver.None? && s.toCome != []
    requires forall ch: Chan | ch in ListOf(s.lists, s.toCome[0]) :: ch !in s.full
    ensures Leads(s, steps, Delivered(s, ListOf(s.lists, s.toCome[0])).(toDeliver := None, toCome := s.toCome[1..]))
  {
    var u := After(s, TakeMutex);
    StepKeepsOk(s, TakeMutex);
    LeadsOne(s, TakeMutex);
    var rest := DeliverAll(u);
    var v := Delivered(u, u.toDeliver.value);
    LeadsOn(s, [TakeMutex], u, rest, v);
    LeadsOne(v, ReleaseMutex);
    LeadsOn(s, [TakeMutex] + rest, v, [ReleaseMutex], After(v, ReleaseMutex));
    steps := [TakeMutex] + rest + [ReleaseMutex];
  }

  // ---------- Whether a cancel can still go through ----------

  /** The event being delivered is still to go to a full channel that nobody reads. */
  ghost predicate Doomed(s: State) {
    s.toDeliver.Some? && exists ch: Chan :: ch in s.toDeliver.value && ch in s.full && ch !in s.reading
  }

  /** The reader of this channel has stopped reading and can have the mutex. */
  ghost predicate MayCancel(s: State, ch: Chan) {
    s.toDeliver.None? && ch !in s.reading && Listed(s.lists, ch)
  }

  ghost predicate CanCancel(s: State, ch: Chan) {
    exists steps, t :: Leads(s, steps, t) && MayCancel(t, ch)
  }

  lemma DoomedStays(s: State, step: Step)
    requires Ok(s) && Doomed(s) && Enabled(s, step)
    ensures Doomed(After(s, step))
  {
    var ch: Chan :| ch in s.toDeliver.value && ch in s.full && ch !in s.reading;
    if step.Deliver? {
      TailIsDistinct(s.toDeliver.value);
    }
    var t := After(s, step);
    assert ch in t.toDeliver.value && ch in t.full && ch !in t.reading;
  }

  lemma {:induction false} DoomedForever(s: State, steps: seq<Step>, t: State)
    requires Ok(s) && Doomed(s) && Leads(s, steps, t)
    ensures Doomed(t)
    decreases |steps|
  {
    if steps != [] {
      DoomedStays(s, steps[0]);
      StepKeepsOk(s, steps[0]);
      DoomedForever(After(s, steps[0]), steps[1..], t);
    }
  }

  /** The next channel gets the event, after its reader has made room if it had to. */
  lemma DeliverNext(s: State) returns (steps: seq<Step>, t: State)
    requires Ok(s) && !Doomed(s) && s.toDeliver.Some? && s.toDeliver.value != []
    ensures Leads(s, steps, t) && Ok(t) && !Doomed(t)
    ensures var q := s.toDeliver.value;
            t == s.(full := s.full + {q[0]}, toDeliver := Some(q[1..]))
  {
    var q := s.toDeliver.value;
    TailIsDistinct(q);
    if q[0] in s.full {
      var u := After(s, Read(q[0]));
      t := After(u, Deliver);
      StepKeepsOk(s, Read(q[0]));
      StepKeepsOk(u, Deliver);
      LeadsOne(s, Read(q[0]));
      LeadsOne(u, Deliver);
      steps := [Read(q[0])] + [Deliver];
      LeadsOn(s, [Read(q[0])], u, [Deliver], t);
      assert u.full + {q[0]} == s.full + {q[0]};
    } else {
      steps, t := [Deliver], After(s, Deliver);
      StepKeepsOk(s, Deliver);
      LeadsOne(s, Deliver);
    }
  }

  /** The distributor can finish the event that it is delivering. */
  lemma {:induction false} FinishDelivery(s: State) returns (steps: seq<Step>, t: State)
    requires Ok(s) && !Doomed(s) && s.toDeliver.Some?
    ensures Leads(s, steps, t) && Ok(t) && t == s.(full := t.full, toDeliver := None)
    decreases |s.toDeliver.value|
  {
    if s.toDeliver.value == [] {
      steps, t := [ReleaseMutex], After(s, ReleaseMutex);
      StepKeepsOk(s, ReleaseMutex);
      LeadsOne(s, ReleaseMutex);
    } else {
      var first, u := DeliverNext(s);
      var rest;
      rest, t := FinishDelivery(u);
      LeadsOn(s, first, u, rest, t);
      steps := first + rest;
    }
  }

  /** A reader that has stopped reading can still cancel exactly if no full channel that nobody reads, its own or
      another one, is still to get the event being delivered. */
  lemma CancelGoesThroughIff(s: State, ch: Chan)
    requires Ok(s) && Listed(s.lists, ch) && ch !in s.reading
    ensures CanCancel(s, ch) <==> !Doomed(s)
  {
    if Doomed(s) {
      forall steps, t | Leads(s, steps, t) ensures !MayCancel(t, ch) {
        DoomedForever(s, steps, t);
      }
    } else if s.toDeliver.Some? {
      var steps, t := FinishDelivery(s);
      assert MayCancel(t, ch);
    } else {
      assert Leads(s, [], s) && MayCancel(s, ch);
    }
  }

  // ---------- Whether a cancel can get stuck ----------

  function Count(ps: seq<PeerID>, p: PeerID): nat {
    if ps == [] then 0 else (if ps[0] == p then 1 else 0) + Count(ps[1..], p)
  }

  /** The events that p's channel holds, is about to get, and will get. */
  function Load(s: State, p: PeerID, ch: Chan): nat {
    (if ch in s.full then 1 else 0)
    + (if s.toDeliver.Some? && ch in s.toDeliver.value then 1 else 0)
    + Count(s.toCome, p)
  }

  /** Some channel is loaded with more events than it has room for, or would be if somebody began to listen now. */
  ghost predicate Overloaded(s: State) {
    || (exists p, ch: Chan :: ch in ListOf(s.lists, p) && Load(s, p, ch) >= 2)
    || (exists p :: Count(s.toCome, p) >= 2)
  }

  lemma StepKeepsLoad(s: State, step: Step, p: PeerID, ch: Chan)
    requires Ok(s) && Enabled(s, step) && ch in ListOf(After(s, step).lists, p)
    ensures if step.Listen? && ch == s.next then Load(After(s, step), p, ch) == Count(s.toCome, p)
            else ch in ListOf(s.lists, p) && Load(After(s, step), p, ch) <= Load(s, p, ch)
  {
    match step
    case Deliver => TailIsDistinct(s.toDeliver.value);
    case CancelAt(q, i) => RemovedKeepsLists(s.lists, {}, s.next, q, i);
    case _ =>
  }

  lemma StepKeepsRoom(s: State, step: Step)
    requires Ok(s) && Enabled(s, step) && !Overloaded(s)
    ensures !Overloaded(After(s, step))
  {
    var t := After(s, step);
    forall p, ch: Chan | ch in ListOf(t.lists, p) ensures Load(t, p, ch) < 2 {
      StepKeepsLoad(s, step, p, ch);
    }
    forall p ensures Count(t.toCome, p) < 2 {
      assert Count(s.toCome, p) < 2;
    }
  }

  lemma {:induction false} RoomStays(s: State, steps: seq<Step>, t: State)
    requires Ok(s) && !Overloaded(s) && Leads(s, steps, t)
    ensures Ok(t) && !Overloaded(t)
    decreases |steps|
  {
    if steps != [] {
      StepKeepsOk(s, steps[0]);
      StepKeepsRoom(s, steps[0]);
      RoomStays(After(s, steps[0]), steps[1..], t);
    }
  }

  lemma DoomedIsOverloaded(s: State)
    requires Ok(s) && Doomed(s)
    ensures Overloaded(s)
  {
    var ch: Chan :| ch in s.toDeliver.value && ch in s.full && ch !in s.reading;
    assert Listed(s.lists, ch);
    var p :| ch in ListOf(s.lists, p);
    assert Load(s, p, ch) >= 2;
  }

  lemma RoomMeansCancel(s: State, ch: Chan)
    requires Ok(s) && !Overloaded(s) && Listed(s.lists, ch) && ch !in s.reading
    ensures CanCancel(s, ch)
  {
    CancelGoesThroughIff(s, ch);
    if Doomed(s) {
      DoomedIsOverloaded(s);
    }
  }

  /** A channel that nobody reads and that is to get more events than it has room for blocks the distributor. */
  lemma {:induction false} ReachDoomed(s: State, p: PeerID, ch: Chan) returns (steps: seq<Step>, t: State)
    requires Ok(s) && ch in ListOf(s.lists, p) && ch !in s.reading && Load(s, p, ch) >= 2
    ensures Leads(s, steps, t) && Ok(t) && Doomed(t) && t.lists == s.lists && t.reading == s.reading
    decreases |s.toCome|, if s.toDeliver.Some? then 1 + |s.toDeliver.value| else 0
  {
    if Doomed(s) {
      return [], s;
    }
    var first, u;
    if s.toDeliver.Some? && s.toDeliver.value != [] {
      first, u := DeliverNext(s);
      TailIsDistinct(s.toDeliver.value);
    } else {
      var step := if s.toDeliver.None? then TakeMutex else ReleaseMutex;
      first, u := [step], After(s, step);
      StepKeepsOk(s, step);
      LeadsOne(s, step);
    }
    var rest;
    rest, t := ReachDoomed(u, p, ch);
    LeadsOn(s, first, u, rest, t);
    steps := first + rest;
  }

  /** This reader waits for ever: it has stopped reading, and whatever steps are taken, it cannot cancel. */
  ghost predicate Stuck(s: State, ch: Chan) {
    Listed(s.lists, ch) && ch !in s.reading && !CanCancel(s, ch)
  }

  ghost predicate CanGetStuck(s: State, ch: Chan) {
    exists steps, t :: Leads(s, steps, t) && Stuck(t, ch)
  }

  lemma OverloadedChannelGetsStuck(s: State, ch: Chan, p: PeerID, other: Chan)
    requires Ok(s) && Listed(s.lists, ch) && ch !in s.reading
    requires other in ListOf(s.lists, p) && Load(s, p, other) >= 2
    ensures CanGetStuck(s, ch)
  {
    var first, u := [], s;
    if other in s.reading {
      first, u := [StopReading(other)], After(s, StopReading(other));
      StepKeepsOk(s, StopReading(other));
      LeadsOne(s, StopReading(other));
    }
    var rest, t := ReachDoomed(u, p, other);
    LeadsOn(s, first, u, rest, t);
    CancelGoesThroughIff(t, ch);
    assert Stuck(t, ch);
  }

  /** Someone who begins to listen before two events come can stop reading, too. */
  lemma NewListenerGetsStuck(s: State, ch: Chan, p: PeerID)
    requires Ok(s) && Listed(s.lists, ch) && ch !in s.reading && s.toDeliver.None? && Count(s.toCome, p) >= 2
    ensures CanGetStuck(s, ch)
  {
    var u := After(s, Listen(p));
    StepKeepsOk(s, Listen(p));
    LeadsOne(s, Listen(p));
    StillListed(s, p, ch);
    OverloadedChannelGetsStuck(u, ch, p, s.next);
    var steps, t :| Leads(u, steps, t) && Stuck(t, ch);
    LeadsOn(s, [Listen(p)], u, steps, t);
  }

  lemma StillListed(s: State, p: PeerID, ch: Chan)
    requires Ok(s) && Listed(s.lists, ch) && Enabled(s, Listen(p))
    ensures Listed(After(s, Listen(p)).lists, ch) && ch < s.next
    ensures s.next in ListOf(After(s, Listen(p)).lists, p)
  {
    var q :| ch in ListOf(s.lists, q);
    assert ch in ListOf(After(s, Listen(p)).lists, q);
  }

  /** A reader that has stopped reading and wants to cancel can get stuck, in some run of all listeners and the
      distributor, exactly if some channel holds, is getting and will get more than one event, or some publisher has
      more than one event to come. Otherwise it can cancel whatever the others do. */
  lemma CancelCanGetStuckIff(s: State, ch: Chan)
    requires Ok(s) && Listed(s.lists, ch) && ch !in s.reading
    ensures CanGetStuck(s, ch) <==> Overloaded(s)
  {
    if !Overloaded(s) {
      forall steps, t | Leads(s, steps, t) ensures !Stuck(t, ch) {
        RoomStays(s, steps, t);
        if Listed(t.lists, ch) && ch !in t.reading {
          RoomMeansCancel(t, ch);
        }
      }
    } else if exists p, other: Chan :: other in ListOf(s.lists, p) && Load(s, p, other) >= 2 {
      var p, other: Chan :| other in ListOf(s.lists, p) && Load(s, p, other) >= 2;
      OverloadedChannelGetsStuck(s, ch, p, other);
    } else {
      var p :| Count(s.toCome, p) >= 2;
      ManyToComeGetsStuck(s, ch, p);
    }
  }

  lemma ManyToComeGetsStuck(s: State, ch: Chan, p: PeerID)
    requires Ok(s) && Listed(s.lists, ch) && ch !in s.reading && Count(s.toCome, p) >= 2
    ensures CanGetStuck(s, ch)
  {
    if Doomed(s) {
      CancelGoesThroughIff(s, ch);
      assert Leads(s, [], s) && Stuck(s, ch);
    } else if s.toDeliver.Some? {
      var first, u := FinishDelivery(s);
      NewListenerGetsStuck(u, ch, p);
      var steps, t :| Leads(u, steps, t) && Stuck(t, ch);
      LeadsOn(s, first, u, steps, t);
    } else {
      NewListenerGetsStuck(s, ch, p);
    }
  }

  lemma {:induction false} CountAll(ps: seq<PeerID>, p: PeerID)
    requires forall i | 0 <= i < |ps| :: ps[i] == p
    ensures Count(ps, p) == |ps| && forall q | q != p :: Count(ps, q) == 0
  {
    if ps != [] {
      CountAll(ps[1..], p);
    }
  }

  /** With one listener and one publisher: exactly if the event it holds, the one it is getting and those to come are
      more than one. */
  lemma OnlyListenerCanGetStuckIff(s: State, p: PeerID, ch: Chan)
    requires Ok(s) && s.lists == map[p := [ch]] && ch !in s.reading
    requires forall i | 0 <= i < |s.toCome| :: s.toCome[i] == p
    ensures CanGetStuck(s, ch)
       <==> (if ch in s.full then 1 else 0) + (if s.toDeliver.Some? && ch in s.toDeliver.value then 1 else 0)
            + |s.toCome| >= 2
  {
    assert ch in ListOf(s.lists, p);
    CancelCanGetStuckIff(s, ch);
    CountAll(s.toCome, p);
    assert forall q, c: Chan :: c in ListOf(s.lists, q) ==> q == p && c == ch;
  }

  /** Two listeners of different publishers, before two events of the second publisher. */
  function TwoListeners(p: PeerID, q: PeerID): State {
    State(map[p := [0], q := [1]], 2, {}, {0, 1}, None, [q, q])
  }

  /** After the last of the steps below. */
  function SecondBlocks(p: PeerID, q: PeerID): State {
    State(map[p := [0], q := [1]], 2, {1}, {}, Some([1]), [])
  }

  function BothStopReading(): seq<Step> {
    [StopReading(0), StopReading(1), TakeMutex, Deliver, ReleaseMutex, TakeMutex]
  }

  lemma StepsToBlock(p: PeerID, q: PeerID)
    requires p != q
    ensures Leads(TwoListeners(p, q), BothStopReading(), SecondBlocks(p, q))
  {
    var s, steps := TwoListeners(p, q), BothStopReading();
    var s1 := s.(reading := {1});
    var s2 := s.(reading := {});
    var s3 := s2.(toDeliver := Some([1]), toCome := [q]);
    var s4 := s3.(toDeliver := Some([]), full := {1});
    var s5 := s4.(toDeliver := None);
    assert {0, 1} - {0} == {1} && {1} - {1} == {} && {} + {1} == {1};
    assert [q, q][1..] == [q] && [q][1..] == [] && [1][1..] == [];
    assert steps[5..][1..] == [] && Leads(s5, steps[5..], SecondBlocks(p, q));
    assert steps[4..][1..] == steps[5..] && Leads(s4, steps[4..], SecondBlocks(p, q));
    assert steps[3..][1..] == steps[4..] && Leads(s3, steps[3..], SecondBlocks(p, q));
    assert steps[2..][1..] == steps[3..] && Leads(s2, steps[2..], SecondBlocks(p, q));
    assert steps[1..][1..] == steps[2..] && Leads(s1, steps[1..], SecondBlocks(p, q));
  }

  /** Both stop reading, the two events come, and the first listener is stuck although nothing was sent to it. */
  lemma OtherListenerGetsStuck(p: PeerID, q: PeerID)
    requires p != q
    ensures Ok(TwoListeners(p, q)) && Leads(TwoListeners(p, q), BothStopReading(), SecondBlocks(p, q))
    ensures Stuck(SecondBlocks(p, q), 0)
  {
    var t := SecondBlocks(p, q);
    StepsToBlock(p, q);
    TwoListenersOk(TwoListeners(p, q), p, q);
    TwoListenersOk(t, p, q);
    assert 1 in t.toDeliver.value && 1 in t.full && 1 !in t.reading;
    assert 0 in ListOf(t.lists, p);
    CancelGoesThroughIff(t, 0);
  }

  lemma TwoListenersOk(s: State, p: PeerID, q: PeerID)
    requires p != q && s.lists == map[p := [0], q := [1]] && s.next == 2 && s.full <= {0, 1} && s.reading <= {0, 1}
    requires s.toDeliver.Some? ==> s.toDeliver.value == [1]
    ensures Ok(s)
  {
    assert 1 in ListOf(s.lists, q);
  }
}
