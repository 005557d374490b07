/** The bounded, age-ordered request queue of the wire pacer, and the data-class arbiter. */
module PacerQueue {

  const CAPACITY: nat := 32

  /** A waiting flow; one that is not ready keeps its age but cannot hold the head. */
  datatype Entry = Entry(flow: nat, ready: bool)

  type Queue = seq<Entry>

  /** At most 32 entries, no flow twice, and never flow 0. */
  ghost predicate QueueOk(q: Queue) {
    && |q| <= CAPACITY
    && (forall i :: 0 <= i < |q| ==> q[i].flow != 0)
    && (forall i, j :: 0 <= i < j < |q| ==> q[i].flow != q[j].flow)
  }

  /** The position of a flow, or the length when it is absent. */
  function Find(q: Queue, flow: nat): (k: nat)
    ensures k <= |q|
    ensures k < |q| ==> q[k].flow == flow
    ensures forall i :: 0 <= i < k ==> q[i].flow != flow
  {
    if q == [] then 0 else if q[0].flow == flow then 0 else Find(q[1..], flow) + 1
  }

  /** The oldest ready entry, or the length when none is ready. */
  function FirstReady(q: Queue): (k: nat)
    ensures k <= |q|
    ensures k < |q| ==> q[k].ready
    ensures forall i :: 0 <= i < k ==> !q[i].ready
  {
    if q == [] then 0 else if q[0].ready then 0 else FirstReady(q[1..]) + 1
  }

  function Remove(q: Queue, k: nat): Queue
    requires k < |q|
  {
    q[..k] + q[k + 1..]
  }

  predicate CanAsk(q: Queue, flow: nat) {
    flow == 0 || Find(q, flow) < |q| || |q| < CAPACITY
  }

  /** A request makes a known flow ready in place, or joins at the end if there is room. */
  function Asked(q: Queue, flow: nat): Queue {
    if flow == 0 then q
    else if Find(q, flow) < |q| then q[Find(q, flow) := Entry(flow, true)]
    else if |q| < CAPACITY then q + [Entry(flow, true)]
    else q
  }

  function Suspended(q: Queue, flow: nat): Queue {
    if flow != 0 && Find(q, flow) < |q| then q[Find(q, flow) := Entry(flow, false)] else q
  }

  function Forgotten(q: Queue, flow: nat): Queue {
    if flow != 0 && Find(q, flow) < |q| then Remove(q, Find(q, flow)) else q
  }

  /** Whether `flow` may be served now: flow 0 always, any other only at the ready head. */
  predicate AtHead(q: Queue, flow: nat) {
    flow == 0 || (FirstReady(q) < |q| && q[FirstReady(q)].flow == flow)
  }

  function Served(q: Queue, flow: nat): Queue
    requires AtHead(q, flow)
  {
    if flow == 0 then q else Remove(q, FirstReady(q))
  }

  lemma AskedOk(q: Queue, flow: nat)
    requires QueueOk(q)
    ensures QueueOk(Asked(q, flow)) && QueueOk(Suspended(q, flow))
  {}

  lemma ForgottenOk(q: Queue, flow: nat)
    requires QueueOk(q)
    ensures QueueOk(Forgotten(q, flow)) && (AtHead(q, flow) ==> QueueOk(Served(q, flow)))
  {
    if Find(q, flow) < |q| {
      RemoveOk(q, Find(q, flow));
    }
    if FirstReady(q) < |q| {
      RemoveOk(q, FirstReady(q));
    }
  }

  /** Asking twice is asking once. */
  lemma AskedTwice(q: Queue, flow: nat)
    requires QueueOk(q) && CanAsk(q, flow)
    ensures CanAsk(Asked(q, flow), flow) && Asked(Asked(q, flow), flow) == Asked(q, flow)
  {
    var a := Asked(q, flow);
    AskedOk(q, flow);
    if flow != 0 {
      var k := Find(q, flow);
      assert a[k] == Entry(flow, true);
      FindIs(a, k);
      assert a[k := Entry(flow, true)] == a;
    }
  }

  lemma FindIs(q: Queue, k: nat)
    requires QueueOk(q) && k < |q|
    ensures Find(q, q[k].flow) == k
  {}

  // ---- Bounded bypass

  datatype Event =
    | Ask(flow: nat)       // an eligibility query or a refused reservation
    | Sleep(flow: nat)
    | Drop(flow: nat)
    | Grant(flow: nat)     // a successful reservation: request, then serve

  predicate Enabled(q: Queue, e: Event) {
    e.Grant? ==> CanAsk(q, e.flow) && AtHead(Asked(q, e.flow), e.flow)
  }

  function After(q: Queue, e: Event): Queue
    requires Enabled(q, e)
  {
    match e
    case Ask(flow) => Asked(q, flow)
    case Sleep(flow) => Suspended(q, flow)
    case Drop(flow) => Forgotten(q, flow)
    case Grant(flow) => Served(Asked(q, flow), flow)
  }

  /** Flow `f` waits, ready, at position `k`. */
  ghost predicate WaitsAt(q: Queue, f: nat, k: nat) {
    k < |q| && q[k] == Entry(f, true)
  }

  /** The run is possible, and `f` stays queued and ready from its first state to its last. */
  ghost predicate StaysReady(q: Queue, events: seq<Event>, f: nat)
    decreases |events|
  {
    && (exists k: nat :: WaitsAt(q, f, k))
    && (events == [] || (Enabled(q, events[0]) && StaysReady(After(q, events[0]), events[1..], f)))
  }

  /** How many reservations other non-zero flows obtain. */
  function Overtakes(events: seq<Event>, f: nat): nat {
    if events == [] then 0
    else (if events[0].Grant? && events[0].flow != 0 && events[0].flow != f then 1 else 0) + Overtakes(events[1..], f)
  }

  /** The events are possible one after another from `q`, and end in `r`. */
  ghost predicate Leads(q: Queue, events: seq<Event>, r: Queue)
    decreases |events|
  {
    if events == [] then r == q
    else Enabled(q, events[0]) && Leads(After(q, events[0]), events[1..], r)
  }

  lemma LeadsNowhere(q: Queue)
    ensures Leads(q, [], q)
  {}

  lemma {:induction false} LeadsOn(q: Queue, events: seq<Event>, r: Queue, e: Event)
    requires Leads(q, events, r) && Enabled(r, e)
    ensures Leads(q, events + [e], After(r, e))
    decreases |events|
  {
    hide Enabled, After;
    var more := events + [e];
    if events == [] {
      assert more[1..] == [];
    } else {
      LeadsOn(After(q, events[0]), events[1..], r, e);
      assert more[1..] == events[1..] + [e];
    }
  }

  lemma {:induction false} OvertakesMore(events: seq<Event>, e: Event, f: nat)
    ensures Overtakes(events + [e], f) == Overtakes(events, f) + if e.Grant? && e.flow != 0 && e.flow != f then 1 else 0
  {
    var more := events + [e];
    if events == [] {
      assert more[1..] == [];
    } else {
      OvertakesMore(events[1..], e, f);
      assert more[1..] == events[1..] + [e];
    }
  }

  lemma RemoveOk(q: Queue, r: nat)
    requires QueueOk(q) && r < |q|
    ensures QueueOk(Remove(q, r))
    ensures forall i :: 0 <= i < |Remove(q, r)| ==> Remove(q, r)[i] == q[if i < r then i else i + 1]
  {}

  lemma RemoveForward(q: Queue, r: nat, f: nat, k: nat, k': nat)
    requires QueueOk(q) && r < |q| && k < |q| && q[k].flow == f && WaitsAt(Remove(q, r), f, k')
    ensures k' <= k && (r < k ==> k' < k)
  {
    RemoveOk(q, r);
  }

  lemma GrantForward(q: Queue, flow: nat, f: nat, k: nat, k': nat)
    requires QueueOk(q) && f != 0 && WaitsAt(q, f, k) && Enabled(q, Grant(flow)) && flow != 0
    requires WaitsAt(After(q, Grant(flow)), f, k')
    ensures k' <= k && (flow != f ==> k' < k)
  {
    var a := Asked(q, flow);
    AskedOk(q, flow);
    assert a[k].flow == f && (flow != f ==> a[k] == q[k]);
    RemoveForward(a, FirstReady(a), f, k, k');
  }

  /** No step moves a waiting flow back, and a foreign grant moves it forward. */
  lemma StepForward(q: Queue, e: Event, f: nat, k: nat, k': nat)
    requires QueueOk(q) && f != 0 && WaitsAt(q, f, k) && Enabled(q, e)
    requires QueueOk(After(q, e)) && WaitsAt(After(q, e), f, k')
    ensures k' <= k && (e.Grant? && e.flow != 0 && e.flow != f ==> k' < k)
  {
    match e
    case Ask(flow) =>
    case Sleep(flow) =>
    case Drop(flow) =>
      if flow != 0 && Find(q, flow) < |q| {
        RemoveForward(q, Find(q, flow), f, k, k');
      }
    case Grant(flow) =>
      if flow != 0 {
        GrantForward(q, flow, f, k, k');
      }
  }

  lemma StepOk(q: Queue, e: Event)
    requires QueueOk(q) && Enabled(q, e)
    ensures QueueOk(After(q, e))
  {
    AskedOk(q, e.flow);
    ForgottenOk(q, e.flow);
    ForgottenOk(Asked(q, e.flow), e.flow);
  }

  /** A flow that stays ready is overtaken at most once per entry ahead of it. */
  lemma {:induction false} BoundedBypass(q: Queue, events: seq<Event>, f: nat, k: nat)
    requires QueueOk(q) && f != 0 && WaitsAt(q, f, k) && StaysReady(q, events, f)
    ensures Overtakes(events, f) <= k
    decreases |events|
  {
    hide After, Enabled, QueueOk;
    if events != [] {
      var q' := After(q, events[0]);
      StepOk(q, events[0]);
      var k': nat :| WaitsAt(q', f, k');
      StepForward(q, events[0], f, k, k');
      BoundedBypass(q', events[1..], f, k');
    }
  }

  // ---- The 7:1 arbiter

  const QUANTUM: nat := 7

  datatype DataClass = Nothing | Legacy | Structural | Protected | Retained

  function SelectDataClass(structural: bool, protectedData: bool, retained: bool, protectedReady: bool,
                           retainedReady: bool, protectedPackets: nat): DataClass {
    if structural then Structural
    else if retained && retainedReady && (!protectedData || protectedPackets >= QUANTUM) then Retained
    else if protectedData && protectedReady then Protected
    else if retained && retainedReady then Retained
    else Nothing
  }

  function CommitDataClass(protectedPackets: nat, class_: DataClass, positive: bool): nat {
    if !positive then protectedPackets
    else if class_ == Retained then 0
    else if class_ == Protected && protectedPackets < QUANTUM then protectedPackets + 1
    else protectedPackets
  }

  /** One service opportunity while retained data is pending and ready and nothing structural is. */
  datatype Round = Round(protectedData: bool, protectedReady: bool, positive: bool)

  function Choice(r: Round, packets: nat): DataClass {
    SelectDataClass(false, r.protectedData, true, r.protectedReady, true, packets)
  }

  function PacketsAfter(r: Round, packets: nat): nat {
    CommitDataClass(packets, Choice(r, packets), r.positive)
  }

  predicate Sends(r: Round, packets: nat, class_: DataClass) {
    r.positive && Choice(r, packets) == class_
  }

  function Sent(rounds: seq<Round>, packets: nat, class_: DataClass): nat {
    if rounds == [] then 0
    else
      (if Sends(rounds[0], packets, class_) then 1 else 0)
      + Sent(rounds[1..], PacketsAfter(rounds[0], packets), class_)
  }

  /** Without a retained send, at most what is left of the quantum goes to protected data. */
  lemma {:induction false} ProtectedBurst(rounds: seq<Round>, packets: nat)
    requires packets <= QUANTUM && Sent(rounds, packets, Retained) == 0
    ensures packets + Sent(rounds, packets, Protected) <= QUANTUM
  {
    if rounds != [] {
      ProtectedBurst(rounds[1..], PacketsAfter(rounds[0], packets));
    }
  }

  /** Over any run, protected sends are within seven per retained send, plus one unfinished quantum. */
  lemma {:induction false} SevenToOne(rounds: seq<Round>, packets: nat)
    requires packets <= QUANTUM
    ensures packets + Sent(rounds, packets, Protected) <= QUANTUM * (Sent(rounds, packets, Retained) + 1)
  {
    if rounds != [] {
      SevenToOne(rounds[1..], PacketsAfter(rounds[0], packets));
    }
  }

  /** When protected data is always pending and ready too, every eighth send is retained, exactly. */
  lemma {:induction false} ExactShare(rounds: seq<Round>, packets: nat)
    requires packets <= QUANTUM
    requires forall i :: 0 <= i < |rounds| ==> rounds[i].protectedData && rounds[i].protectedReady && rounds[i].positive
    ensures Sent(rounds, packets, Retained) == (|rounds| + packets) / (QUANTUM + 1)
    ensures Sent(rounds, packets, Protected) == |rounds| - (|rounds| + packets) / (QUANTUM + 1)
  {
    if rounds != [] {
      ExactShare(rounds[1..], PacketsAfter(rounds[0], packets));
    }
  }
}
