/** The saturating token bucket that paces ordinary wire data, with its permits and request queue. */
module WirePacer {
  import opened Arithmetic
  import opened Options
  import opened PacerQueue

  const MICROSECONDS: nat := 1_000_000
  const HEADER_BYTES: nat := 48
  const WORD_MAX: nat := 0xFFFF_FFFF_FFFF_FFFF
  const TIME_MAX: int := 0x7FFF_FFFF_FFFF_FFFF

  /** std::uint64_t and std::int64_t; every value stored in one is proved to fit. */
  type Word = x: int | 0 <= x <= WORD_MAX
  type Time = x: int | -TIME_MAX - 1 <= x <= TIME_MAX

  predicate ValidBudget(rate: Word, maximum: Word) {
    rate > 0 && maximum > 0 && maximum <= WORD_MAX / MICROSECONDS - HEADER_BYTES
  }

  /** The bucket in plain arithmetic: what `elapsed` microseconds add, up to the cap. */
  function Filled(cap: nat, rate: nat, credit: nat, elapsed: nat): nat {
    if credit + elapsed * rate >= cap then cap else credit + elapsed * rate
  }

  /** Credit as seen at `now`; stale stamps add nothing and the first stamp only starts the clock. */
  function CreditAt(cap: nat, rate: nat, credit: nat, last: int, now: int): nat
    requires credit <= cap
  {
    if now <= last || last == 0 then credit else Filled(cap, rate, credit, now - last)
  }

  function Later(a: int, b: int): int {
    if a < b then b else a
  }

  /** From `now` on, the bucket is full exactly from `r`; a `r` at the end of time stands for later times too. */
  ghost predicate FullExactlyFrom(cap: nat, rate: nat, credit: nat, last: int, now: int, r: int)
    requires credit <= cap
  {
    forall t: int :: now <= t < TIME_MAX || (t == TIME_MAX && r < TIME_MAX) ==>
      (CreditAt(cap, rate, credit, last, t) == cap <==> t >= r)
  }

  lemma LongerToFill(part: nat, whole: nat, rate: nat)
    requires part <= whole && rate > 0
    ensures CeilDiv(part, rate) <= CeilDiv(whole, rate)
  {
    CeilDivReaches(whole, rate, CeilDiv(whole, rate));
    CeilDivReaches(part, rate, CeilDiv(whole, rate));
  }

  /** The conservation law: everything ever granted is retained, reserved, in the bucket, or forfeited. */
  ghost predicate Conserved(cap: nat, rate: nat, retained: nat, reserved: nat, credit: nat, forfeited: nat, span: int) {
    MICROSECONDS * retained + cap * reserved + credit + forfeited == cap + rate * span
  }

  lemma GrowSpan(rate: nat, span: int, elapsed: int)
    ensures rate * (span + elapsed) == rate * span + rate * elapsed && elapsed * rate == rate * elapsed
  {}

  lemma OneMore(cap: nat, n: nat)
    ensures cap * (n + 1) == cap * n + cap
  {}

  /** A finished packet keeps its native bytes and headers of the reservation and refunds the rest. */
  lemma KeepAndRefund(native: nat, maxNative: nat)
    requires native <= maxNative
    ensures MICROSECONDS * (native + HEADER_BYTES) + (maxNative - native) * MICROSECONDS
            == (maxNative + HEADER_BYTES) * MICROSECONDS
  {}

  function Zip(flows: seq<nat>, ready: seq<bool>): (q: Queue)
    requires |flows| == |ready|
    ensures |q| == |flows| && forall i :: 0 <= i < |q| ==> q[i] == Entry(flows[i], ready[i])
  {
    seq(|flows|, i requires 0 <= i < |flows| == |ready| => Entry(flows[i], ready[i]))
  }

  class Permit {
    var owner: Pacer?

    constructor ()
      ensures owner == null
    {
      owner := null;
    }

    /** Takes a whole maximum packet of credit for `flow`, if the bucket is full and it is the flow's turn. */
    method Reserve(budget: Pacer, now: Time, flow: nat) returns (ok: bool)
      requires budget.Valid()
      modifies this, budget, budget.flows, budget.ready
      ensures budget.Valid()
      ensures ok <==> old(owner) == null && old(budget.WouldReserve(now, flow))
      ensures ok ==> owner == budget && budget.permits == old(budget.permits) + {this} && this !in old(budget.permits)
      ensures ok ==> CanAsk(old(budget.Q()), flow) && AtHead(Asked(old(budget.Q()), flow), flow)
                     && budget.Q() == Served(Asked(old(budget.Q()), flow), flow)
      ensures !ok ==> owner == old(owner) && budget.permits == old(budget.permits)
      ensures !ok ==> budget.Q() == if old(owner) == null && now > 0 then Asked(old(budget.Q()), flow)
              else old(budget.Q())
      ensures budget.retained == old(budget.retained)
      ensures var turn := old(owner) == null && now > 0 && CanAsk(old(budget.Q()), flow)
                          && AtHead(Asked(old(budget.Q()), flow), flow);
              && budget.credit == (if ok then 0 else if turn then budget.CreditThen(old(budget.credit),
                                                                                     old(budget.lastRefill), now)
                                   else old(budget.credit))
              && budget.lastRefill == if turn then Later(now, old(budget.lastRefill)) else old(budget.lastRefill)
    {
      if owner != null || now <= 0 {
        return false;
      }
      hide QueueOk, Conserved, Asked, CanAsk, Served, AtHead, CreditAt;
      ok := budget.Admit(now, flow);
      if ok {
        budget.Spend(this);
        owner := budget;
      }
    }

    /** Settles the reservation: a data packet keeps what it used, anything else gives it all back. */
    method Complete(native: int, hasData: bool) returns (ok: bool)
      requires owner != null ==> owner.Valid() && this in owner.permits
      modifies this, owner
      ensures owner == null
      ensures ok <==> old(owner) == null || !hasData || native <= old(owner).maxNative
      ensures old(owner) != null ==>
                && old(owner).Valid() && old(owner).permits == old(owner.permits) - {this}
                && old(owner).retained == old(owner.retained) + Kept(old(owner), native, hasData)
                && old(owner).credit == Filled(old(owner).cap, MICROSECONDS, old(owner.credit),
                                               Returned(old(owner), native, hasData))
                && old(owner).flowCount == old(owner.flowCount) && old(owner).lastRefill == old(owner.lastRefill)
    {
      if owner == null {
        return true;
      }
      var budget := owner;
      owner := null;
      budget.Settle(this, Kept(budget, native, hasData));
      if !hasData || native <= 0 {
        budget.Refund(budget.maxWire);
        return true;
      }
      if native > budget.maxNative {
        return false;
      }
      KeepAndRefund(native, budget.maxNative);
      budget.Refund(budget.maxNative - native);
      return true;
    }

    /** Gives the whole reservation back; a second call finds no owner. */
    method Cancel()
      requires owner != null ==> owner.Valid() && this in owner.permits
      modifies this, owner
      ensures owner == null
      ensures old(owner) != null ==>
                && old(owner).Valid() && old(owner).permits == old(owner.permits) - {this}
                && old(owner).retained == old(owner.retained)
                && old(owner).credit == Filled(old(owner).cap, MICROSECONDS, old(owner.credit), old(owner).maxWire)
                && old(owner).flowCount == old(owner.flowCount) && old(owner).lastRefill == old(owner.lastRefill)
    {
      if owner == null {
        return;
      }
      var budget := owner;
      owner := null;
      budget.Settle(this, 0);
      budget.Refund(budget.maxWire);
    }
  }

  /** The wire bytes a settled permit keeps: native bytes and headers, or all of it for an oversized packet. */
  function Kept(budget: Pacer, native: int, hasData: bool): nat {
    if !hasData || native <= 0 then 0
    else if native <= budget.maxNative then native + HEADER_BYTES else budget.maxWire
  }

  /** The wire bytes that it gives back; kept and returned bytes make up the whole reservation. */
  function Returned(budget: Pacer, native: int, hasData: bool): (n: nat)
    requires budget.maxWire == budget.maxNative + HEADER_BYTES
    ensures n + Kept(budget, native, hasData) == budget.maxWire
  {
    if !hasData || native <= 0 then budget.maxWire
    else if native <= budget.maxNative then budget.maxNative - native else 0
  }

  class Pacer {
    const rate: Word
    const maxNative: Word
    const maxWire: Word
    const cap: Word
    const flows: array<nat>
    const ready: array<bool>
    var credit: Word
    var lastRefill: Time
    var flowCount: nat
    ghost var permits: set<Permit>     // outstanding reservations
    ghost var firstRefill: int         // first stamp, 0 before it
    ghost var retained: nat            // wire bytes kept by finished packets
    ghost var forfeited: nat           // credit lost to the cap

    ghost predicate Shape()
      reads this
    {
      flows.Length == CAPACITY && ready.Length == CAPACITY && flowCount <= CAPACITY
    }

    ghost function Q(): Queue
      requires Shape()
      reads this, flows, ready
    {
      Zip(flows[..flowCount], ready[..flowCount])
    }

    ghost predicate Budget()
      reads this
    {
      && rate > 0 && maxNative > 0 && maxWire == maxNative + HEADER_BYTES && cap == maxWire * MICROSECONDS
      && credit <= cap && 0 <= firstRefill <= lastRefill && (lastRefill == 0 <==> firstRefill == 0)
      && Conserved(cap, rate, retained, |permits|, credit, forfeited, lastRefill - firstRefill)
    }

    ghost predicate Valid()
      reads this, flows, ready, permits
    {
      Shape() && Budget() && QueueOk(Q()) && forall p :: p in permits ==> p.owner == this
    }

    constructor (wireRate: Word, maximum: Word)
      requires ValidBudget(wireRate, maximum)
      ensures Valid() && permits == {} && credit == cap && lastRefill == 0 && rate == wireRate && maxNative == maximum
      ensures fresh(flows) && fresh(ready)
    {
      rate, maxNative, maxWire := wireRate, maximum, maximum + HEADER_BYTES;
      cap := (maximum + HEADER_BYTES) * MICROSECONDS;
      credit := (maximum + HEADER_BYTES) * MICROSECONDS;
      lastRefill, flowCount := 0, 0;
      flows := new nat[CAPACITY](_ => 0);
      ready := new bool[CAPACITY](_ => false);
      permits, firstRefill, retained, forfeited := {}, 0, 0, 0;
    }

    /** Adds what has accrued since the last stamp. The full-bucket shortcut is exact, and no product wraps. */
    method Refill(now: Time)
      requires Budget()
      modifies this`credit, this`lastRefill, this`firstRefill, this`forfeited
      ensures Budget()
      ensures credit == CreditAt(cap, rate, old(credit), old(lastRefill), now)
      ensures lastRefill == Later(now, old(lastRefill))
    {
      if now <= lastRefill {
        return;
      }
      if lastRefill == 0 {
        lastRefill := now;
        firstRefill := now;
        return;
      }
      var elapsed: Word := now - lastRefill;
      var missing: Word := cap - credit;
      var fillTime := CeilDiv(missing, rate);
      CeilDivReaches(missing, rate, elapsed);
      GrowSpan(rate, lastRefill - firstRefill, elapsed);
      assert now - firstRefill == lastRefill - firstRefill + elapsed;
      if elapsed >= fillTime {
        forfeited := forfeited + (credit + elapsed * rate - cap);
        credit := cap;
      } else {
        var gain: Word := elapsed * rate;
        credit := credit + gain;
      }
      lastRefill := now;
    }

    /** Returns unused credit, up to the cap. */
    method Refund(wireBytes: Word)
      requires wireBytes <= maxWire && cap == maxWire * MICROSECONDS && credit <= cap
      modifies this`credit, this`forfeited
      ensures credit == Filled(cap, MICROSECONDS, old(credit), wireBytes)
      ensures credit + forfeited == old(credit) + old(forfeited) + wireBytes * MICROSECONDS
              && forfeited >= old(forfeited)
    {
      var refund: Word := wireBytes * MICROSECONDS;
      var kept := if refund < cap - credit then refund else cap - credit;
      forfeited := forfeited + (refund - kept);
      credit := credit + kept;
    }

    /** Whether a fresh permit's reservation at `now` would succeed in this state. */
    ghost predicate WouldReserve(now: int, flow: nat)
      requires Shape()
      reads this, flows, ready
    {
      && now > 0 && CanAsk(Q(), flow) && AtHead(Asked(Q(), flow), flow)
      && credit <= cap && CreditAt(cap, rate, credit, lastRefill, now) == cap
    }

    /** The checks of a reservation: the flow's turn, then a full bucket; the served request leaves the queue. */
    method Admit(now: Time, flow: nat) returns (ok: bool)
      requires Shape() && Budget() && QueueOk(Q()) && now > 0
      modifies this`credit, this`lastRefill, this`firstRefill, this`forfeited, this`flowCount, flows, ready
      ensures Shape() && Budget() && QueueOk(Q())
      ensures ok <==> old(WouldReserve(now, flow))
      ensures ok ==> credit == cap && CanAsk(old(Q()), flow) && AtHead(Asked(old(Q()), flow), flow)
                     && Q() == Served(Asked(old(Q()), flow), flow)
      ensures !ok ==> Q() == Asked(old(Q()), flow)
      ensures var turn := CanAsk(old(Q()), flow) && AtHead(Asked(old(Q()), flow), flow);
              && credit == (if turn then CreditThen(old(credit), old(lastRefill), now) else old(credit))
              && lastRefill == if turn then Later(now, old(lastRefill)) else old(lastRefill)
    {
      hide QueueOk, Conserved, Asked, CanAsk, Served, AtHead, CreditAt;
      AskedOk(Q(), flow);
      ForgottenOk(Asked(Q(), flow), flow);
      var _, mine := TakeTurn(flow);
      if !mine {
        return false;
      }
      Refill(now);
      if credit != cap {
        return false;
      }
      ServeHead(flow);
      return true;
    }

    /** Moves the full bucket into a new reservation. */
    method Spend(permit: Permit)
      requires Budget() && credit == cap && permit !in permits
      modifies this`credit, this`permits
      ensures Budget() && credit == 0 && permits == old(permits) + {permit}
      ensures lastRefill == old(lastRefill)
    {
      OneMore(cap, |permits|);
      credit := 0;
      permits := permits + {permit};
    }

    /** Ends a reservation that keeps `kept` wire bytes; the rest is still owed as a refund. */
    ghost method Settle(permit: Permit, kept: nat)
      requires permit in permits && Budget()
      modifies this`permits, this`retained
      ensures permits == old(permits) - {permit} && retained == old(retained) + kept
      ensures MICROSECONDS * retained + cap * |permits| + credit + forfeited + cap
              == cap + rate * (lastRefill - firstRefill) + MICROSECONDS * kept
    {
      OneMore(cap, |permits| - 1);
      permits := permits - {permit};
      retained := retained + kept;
    }

    /** The credit that a call at `now` finds. */
    function CreditThen(had: nat, stamp: int, now: int): (c: nat)
      requires had <= cap
      ensures c <= cap
    {
      CreditAt(cap, rate, had, stamp, now)
    }

    /** When a reservation for `flow` can next succeed, asked at `now`. Asking only brings the bucket up to date. A flow
        behind another is told when a bucket emptied by then would be full again. */
    method EligibleAt(now: Time, flow: nat) returns (r: Time)
      requires Valid()
      modifies this, flows, ready
      ensures Valid() && permits == old(permits) && retained == old(retained)
      ensures Q() == if now > 0 then Asked(old(Q()), flow) else old(Q())
      ensures now <= 0 || !CanAsk(old(Q()), flow) ==> r == TIME_MAX
      ensures now > 0 && CanAsk(Q(), flow) && AtHead(Q(), flow) ==>
                forall t: int :: now <= t < TIME_MAX || (t == TIME_MAX && r < TIME_MAX) ==>
                  (WouldReserve(t, flow) <==> t >= r)
      ensures now > 0 && !AtHead(Q(), flow) ==> forall t: int :: !WouldReserve(t, flow)
      ensures var past := now > 0 && CanAsk(old(Q()), flow);
              && credit == (if past then CreditThen(old(credit), old(lastRefill), now) else old(credit))
              && lastRefill == if past then Later(now, old(lastRefill)) else old(lastRefill)
      ensures now > 0 && CanAsk(old(Q()), flow) ==>
                var mine := AtHead(Asked(old(Q()), flow), flow);
                FullExactlyFrom(cap, rate, if mine then CreditThen(old(credit), old(lastRefill), now) else 0,
                                Later(now, old(lastRefill)), now, r)
    {
      hide QueueOk, Conserved, Asked, CanAsk, AtHead, CreditAt;
      if now <= 0 {
        return TIME_MAX;
      }
      ghost var q := Q();
      AskedOk(q, flow);
      var room, mine := TakeTurn(flow);
      if !room {
        NoRoomNoTurn(q, flow);
        return TIME_MAX;
      }
      AskedTwice(q, flow);
      Refill(now);
      r := FullAt(now, mine);
    }

    /** The next time the bucket is full, or a whole packet's time for a flow that is not at the head. */
    method FullAt(now: Time, mine: bool) returns (r: Time)
      requires Budget() && lastRefill >= now > 0
      ensures FullExactlyFrom(cap, rate, if mine then credit else 0, lastRefill, now, r)
    {
      hide Conserved, CreditAt;
      var missing: Word := cap - credit;
      FullFrom(cap, rate, credit, lastRefill, now);
      FullFrom(cap, rate, 0, lastRefill, now);
      if missing == 0 && mine {
        return now;
      }
      var wait := CeilDiv(missing, rate);
      if !mine {
        var whole := CeilDiv(maxWire * MICROSECONDS, rate);
        LongerToFill(missing, cap, rate);
        wait := if wait < whole then whole else wait;
      }
      var base := if now < lastRefill then lastRefill else now;
      if wait > TIME_MAX - base {
        return TIME_MAX;
      }
      return base + wait;
    }

    /** Requests, then reports whether the flow is known (`room`) and whether it may be served (`mine`). */
    method TakeTurn(flow: nat) returns (room: bool, mine: bool)
      requires Shape()
      modifies this`flowCount, flows, ready
      ensures Shape() && Q() == Asked(old(Q()), flow) && room == CanAsk(old(Q()), flow)
      ensures mine <==> room && AtHead(Q(), flow)
    {
      hide Asked, CanAsk;
      room := Request(flow);
      if !room {
        return false, false;
      }
      var head := FirstReadyIndex();
      mine := flow == 0 || (head < flowCount && flows[head] == flow);
    }

    method ServeHead(flow: nat)
      requires Shape() && AtHead(Q(), flow)
      modifies this`flowCount, flows, ready
      ensures Shape() && Q() == Served(old(Q()), flow)
    {
      if flow != 0 {
        var head := FirstReadyIndex();
        RemoveAt(head);
      }
    }

    // ---- The request queue, on its two arrays

    method FindFlow(flow: nat) returns (k: nat)
      requires Shape()
      ensures k == Find(Q(), flow)
    {
      k := 0;
      while k < flowCount
        invariant k <= flowCount && forall i :: 0 <= i < k ==> flows[i] != flow
      {
        if flows[k] == flow {
          break;
        }
        k := k + 1;
      }
      FindUnique(Q(), flow, k);
    }

    method FirstReadyIndex() returns (k: nat)
      requires Shape()
      ensures k == FirstReady(Q())
    {
      k := 0;
      while k < flowCount
        invariant k <= flowCount && forall i :: 0 <= i < k ==> !ready[i]
      {
        if ready[k] {
          break;
        }
        k := k + 1;
      }
      ReadyUnique(Q(), k);
    }

    method Request(flow: nat) returns (ok: bool)
      requires Shape()
      modifies this`flowCount, flows, ready
      ensures Shape() && Q() == Asked(old(Q()), flow) && ok == CanAsk(old(Q()), flow)
    {
      if flow == 0 {
        return true;
      }
      var k := FindFlow(flow);
      if k < flowCount {
        ready[k] := true;
        return true;
      }
      if flowCount == CAPACITY {
        return false;
      }
      flows[flowCount] := flow;
      ready[flowCount] := true;
      flowCount := flowCount + 1;
      return true;
    }

    method Suspend(flow: nat)
      requires Shape()
      modifies ready
      ensures Q() == Suspended(old(Q()), flow)
    {
      if flow == 0 {
        return;
      }
      var k := FindFlow(flow);
      if k < flowCount {
        ready[k] := false;
      }
    }

    method Forget(flow: nat)
      requires Shape()
      modifies this`flowCount, flows, ready
      ensures Shape() && Q() == Forgotten(old(Q()), flow)
    {
      if flow == 0 {
        return;
      }
      var k := FindFlow(flow);
      if k < flowCount {
        RemoveAt(k);
      }
    }

    /** Closes the gap at `k` and clears the freed last place. */
    method RemoveAt(k: nat)
      requires Shape() && k < flowCount
      modifies this`flowCount, flows, ready
      ensures Shape() && Q() == Remove(old(Q()), k)
    {
      ghost var q := Q();
      ShiftDown(k);
      flowCount := flowCount - 1;
      flows[flowCount] := 0;
      ready[flowCount] := false;
      forall i | 0 <= i < flowCount ensures Q()[i] == Remove(q, k)[i] {}
    }

    /** Shifts every later entry down one place. */
    method ShiftDown(k: nat)
      requires Shape() && k < flowCount
      modifies flows, ready
      ensures forall i :: 0 <= i < k ==> flows[i] == old(flows[i]) && ready[i] == old(ready[i])
      ensures forall i :: k <= i < flowCount - 1 ==> flows[i] == old(flows[i + 1]) && ready[i] == old(ready[i + 1])
    {
      for next := k + 1 to flowCount
        invariant forall i :: 0 <= i < k || next - 1 <= i < flowCount ==> flows[i] == old(flows[i])
        invariant forall i :: 0 <= i < k || next - 1 <= i < flowCount ==> ready[i] == old(ready[i])
        invariant forall i :: k <= i < next - 1 ==> flows[i] == old(flows[i + 1]) && ready[i] == old(ready[i + 1])
      {
        flows[next - 1] := flows[next];
        ready[next - 1] := ready[next];
      }
    }
  }

  /** Construction refuses a zero rate, a zero packet size, and sizes whose credit would not fit a word. */
  method CreatePacer(rate: Word, maximum: Word) returns (p: Pacer?)
    ensures p == null <==> !ValidBudget(rate, maximum)
    ensures p != null ==> fresh(p) && p.Valid() && p.permits == {}
                          && p.credit == p.cap == (maximum + HEADER_BYTES) * MICROSECONDS
  {
    if rate == 0 || maximum == 0 || maximum > WORD_MAX / MICROSECONDS - HEADER_BYTES {
      return null;
    }
    p := new Pacer(rate, maximum);
  }

  /** One call on a shared pacer; permits are named by their index. */
  datatype Call =
    | Query(now: Time, flow: nat)
    | Take(permit: nat, now: Time, flow: nat)
    | Finish(permit: nat, native: int, hasData: bool)
    | GiveBack(permit: nat)
    | Pause(flow: nat)
    | Leave(flow: nat)

  /** Every permit is free or holds one of the budget's reservations. */
  ghost predicate Matched(budget: Pacer, permits: seq<Permit>)
    reads budget, permits
  {
    forall p :: p in permits ==> p.owner == null || (p.owner == budget && p in budget.permits)
  }

  /** How many of the calls were reservations granted to flows other than 0 and `f`. */
  function Overtaken(calls: seq<Call>, granted: seq<bool>, f: nat): nat
    requires |granted| <= |calls|
  {
    var n := |granted|;
    if n == 0 then 0
    else Overtaken(calls, granted[..n - 1], f)
         + if granted[n - 1] && calls[n - 1].Take? && calls[n - 1].flow != 0 && calls[n - 1].flow != f then 1 else 0
  }

  /** What can be seen of a pacer between two calls. */
  datatype View = View(q: Queue, credit: nat, last: int, held: set<Permit>)

  ghost function See(budget: Pacer): View
    requires budget.Shape()
    reads budget, budget.flows, budget.ready
  {
    View(budget.Q(), budget.credit, budget.lastRefill, budget.permits)
  }

  /** The wire bytes that a finished packet of a reservation does not use. */
  function Unused(budget: Pacer, native: int, hasData: bool): nat {
    if !hasData || native <= 0 then budget.maxWire
    else if native <= budget.maxNative then budget.maxNative - native else 0
  }

  /** `t` is what the call makes of `s`; `granted` tells whether it was granted a reservation. */
  ghost predicate Follows(budget: Pacer, permits: seq<Permit>, call: Call, s: View, granted: bool, t: View) {
    && s.credit <= budget.cap
    && match call
       case Query(now, flow) =>
         var past := now > 0 && CanAsk(s.q, flow);
         && !granted
         && t == s.(q := if now > 0 then Asked(s.q, flow) else s.q,
                    credit := if past then CreditAt(budget.cap, budget.rate, s.credit, s.last, now) else s.credit,
                    last := if past then Later(now, s.last) else s.last)
       case Take(i, now, flow) =>
         if i >= |permits| || permits[i] in s.held || now <= 0 then t == s && !granted
         else
           var turn := CanAsk(s.q, flow) && AtHead(Asked(s.q, flow), flow);
           var filled := CreditAt(budget.cap, budget.rate, s.credit, s.last, now);
           && granted == (turn && filled == budget.cap)
           && t == View(if granted then Served(Asked(s.q, flow), flow) else Asked(s.q, flow),
                        if granted then 0 else if turn then filled else s.credit,
                        if turn then Later(now, s.last) else s.last,
                        if granted then s.held + {permits[i]} else s.held)
       case Finish(i, native, hasData) => !granted && Settles(budget, permits, i, Unused(budget, native, hasData), s, t)
       case GiveBack(i) => !granted && Settles(budget, permits, i, budget.maxWire, s, t)
       case Pause(flow) => !granted && t == s.(q := Suspended(s.q, flow))
       case Leave(flow) => !granted && t == s.(q := Forgotten(s.q, flow))
  }

  /** A reservation ends and gives `wireBytes` back; a permit without one changes nothing. */
  ghost predicate Settles(budget: Pacer, permits: seq<Permit>, i: nat, wireBytes: nat, s: View, t: View) {
    if i >= |permits| || permits[i] !in s.held then t == s
    else t == s.(credit := Filled(budget.cap, MICROSECONDS, s.credit, wireBytes), held := s.held - {permits[i]})
  }

  /** Any run of calls with arbitrary time stamps goes call by call as `Follows` says, and never grants more than one
      bucket plus the refill rate. The request queue goes through `events`, and a flow that stays ready in it is
      overtaken at most once per entry ahead of it. */
  method Run(budget: Pacer, permits: seq<Permit>, calls: seq<Call>)
    returns (granted: seq<bool>, ghost events: seq<Event>, ghost states: seq<View>)
    requires budget.Valid() && Matched(budget, permits)
    modifies budget, budget.flows, budget.ready, permits
    ensures budget.Valid() && Matched(budget, permits)
    ensures MICROSECONDS * budget.retained + budget.cap * |budget.permits| + budget.credit
            <= budget.cap + budget.rate * (budget.lastRefill - budget.firstRefill)
    ensures |granted| == |calls| == |events| && Leads(old(budget.Q()), events, budget.Q())
    ensures |states| == |calls| + 1 && states[0] == old(See(budget)) && states[|calls|] == See(budget)
    ensures forall k: nat :: k < |calls| ==> Follows(budget, permits, calls[k], states[k], granted[k], states[k + 1])
    ensures forall f: nat, k: nat :: f != 0 && WaitsAt(old(budget.Q()), f, k)
                                     && StaysReady(old(budget.Q()), events, f) ==>
              Overtaken(calls, granted, f) <= k
  {
    hide QueueOk, Conserved, Leads, After, Enabled, Follows;
    granted, events, states := [], [], [See(budget)];
    ghost var q := budget.Q();
    LeadsNowhere(q);
    for k: nat := 0 to |calls|
      invariant budget.Valid() && Matched(budget, permits)
      invariant |granted| == k == |events| && Leads(q, events, budget.Q())
      invariant |states| == k + 1 && states[0] == old(See(budget)) && states[k] == See(budget)
      invariant forall i: nat :: i < k ==> Follows(budget, permits, calls[i], states[i], granted[i], states[i + 1])
      invariant forall f: nat :: Overtakes(events, f) == Overtaken(calls, granted, f)
    {
      ghost var before := budget.Q();
      ghost var e;
      var ok := false;
      if calls[k].Query? || calls[k].Pause? || calls[k].Leave? {
        e := ApplyQueue(budget, permits, calls[k]);
      } else {
        ok, e := ApplyPermit(budget, permits, calls[k]);
      }
      LeadsOn(q, events, before, e);
      forall f: nat ensures Overtakes(events + [e], f) == Overtaken(calls, granted + [ok], f) {
        OvertakesMore(events, e, f);
        assert (granted + [ok])[..k] == granted;
      }
      granted, events, states := granted + [ok], events + [e], states + [See(budget)];
    }
    NeverOverGranted(budget.cap, budget.rate, budget.retained, |budget.permits|, budget.credit, budget.forfeited,
                     budget.lastRefill - budget.firstRefill);
    forall f: nat, k: nat | f != 0 && WaitsAt(q, f, k) && StaysReady(q, events, f)
      ensures Overtaken(calls, granted, f) <= k {
      BoundedBypass(q, events, f, k);
    }
  }

  method ApplyQueue(budget: Pacer, permits: seq<Permit>, call: Call) returns (ghost e: Event)
    requires budget.Valid() && Matched(budget, permits) && (call.Query? || call.Pause? || call.Leave?)
    modifies budget, budget.flows, budget.ready
    ensures budget.Valid() && Matched(budget, permits)
    ensures !e.Grant? && Enabled(old(budget.Q()), e) && budget.Q() == After(old(budget.Q()), e)
    ensures Follows(budget, permits, call, old(See(budget)), false, See(budget))
  {
    hide QueueOk, Conserved, Asked, CanAsk, AtHead, CreditAt, Suspended, Forgotten, FullExactlyFrom;
    match call {
      case Query(now, flow) =>
        AskedNobody(budget.Q());
        e := Ask(if now > 0 then flow else 0);
        var _ := budget.EligibleAt(now, flow);
      case Pause(flow) =>
        AskedOk(budget.Q(), flow);
        e := Sleep(flow);
        budget.Suspend(flow);
      case Leave(flow) =>
        ForgottenOk(budget.Q(), flow);
        e := Drop(flow);
        budget.Forget(flow);
    }
  }

  method ApplyPermit(budget: Pacer, permits: seq<Permit>, call: Call) returns (granted: bool, ghost e: Event)
    requires budget.Valid() && Matched(budget, permits) && (call.Take? || call.Finish? || call.GiveBack?)
    modifies budget, budget.flows, budget.ready, permits
    ensures budget.Valid() && Matched(budget, permits)
    ensures Enabled(old(budget.Q()), e) && budget.Q() == After(old(budget.Q()), e)
    ensures (e.Grant? <==> granted) && (granted ==> call.Take? && e.flow == call.flow)
    ensures Follows(budget, permits, call, old(See(budget)), granted, See(budget))
  {
    hide QueueOk, Conserved, Asked, CanAsk, Served, AtHead, CreditAt, Kept, Returned;
    AskedNobody(budget.Q());
    granted, e := false, Ask(0);
    match call {
      case Take(i, now, flow) =>
        if i < |permits| {
          granted, e := TakeOne(budget, permits, i, now, flow);
        }
      case Finish(i, native, hasData) =>
        if i < |permits| {
          UnusedIsReturned(budget, native, hasData);
          Release(budget, permits, i, Some((native, hasData)));
        }
      case GiveBack(i) =>
        if i < |permits| {
          Release(budget, permits, i, None);
        }
    }
  }

  method TakeOne(budget: Pacer, permits: seq<Permit>, i: nat, now: Time, flow: nat)
    returns (granted: bool, ghost e: Event)
    requires budget.Valid() && Matched(budget, permits) && i < |permits|
    modifies budget, budget.flows, budget.ready, permits
    ensures budget.Valid() && Matched(budget, permits)
    ensures Enabled(old(budget.Q()), e) && budget.Q() == After(old(budget.Q()), e)
    ensures (e.Grant? <==> granted) && (granted ==> e.flow == flow)
    ensures Follows(budget, permits, Take(i, now, flow), old(See(budget)), granted, See(budget))
  {
    hide QueueOk, Conserved, Asked, CanAsk, Served, AtHead, CreditAt;
    AskedNobody(budget.Q());
    assert permits[i] in permits;
    e := Ask(if permits[i].owner == null && now > 0 then flow else 0);
    granted := permits[i].Reserve(budget, now, flow);
    e := if granted then Grant(flow) else e;
  }

  lemma UnusedIsReturned(budget: Pacer, native: int, hasData: bool)
    requires budget.maxWire == budget.maxNative + HEADER_BYTES
    ensures Unused(budget, native, hasData) == Returned(budget, native, hasData)
  {}

  lemma AskedNobody(q: Queue)
    ensures Asked(q, 0) == q
  {}

  method Release(budget: Pacer, permits: seq<Permit>, i: nat, packet: Option<(int, bool)>)
    requires budget.Valid() && Matched(budget, permits) && i < |permits|
    modifies budget, permits
    ensures budget.Valid() && Matched(budget, permits) && budget.Q() == old(budget.Q())
    ensures Settles(budget, permits, i,
                    if packet.None? then budget.maxWire else Returned(budget, packet.value.0, packet.value.1),
                    old(See(budget)), See(budget))
  {
    hide QueueOk, Conserved, Kept, Returned;
    var permit := permits[i];
    assert permit in permits;
    match packet {
      case None => permit.Cancel();
      case Some(p) => var _ := permit.Complete(p.0, p.1);
    }
  }

  lemma NeverOverGranted(cap: nat, rate: nat, retained: nat, reserved: nat, credit: nat, forfeited: nat, span: int)
    requires Conserved(cap, rate, retained, reserved, credit, forfeited, span)
    ensures MICROSECONDS * retained + cap * reserved + credit <= cap + rate * span
  {}

  lemma NoRoomNoTurn(q: Queue, flow: nat)
    requires !CanAsk(q, flow)
    ensures Asked(q, flow) == q && !AtHead(q, flow)
  {}

  /** A bucket that is not full becomes full exactly `CeilDiv(cap - credit, rate)` after its last stamp. */
  lemma FullFrom(cap: nat, rate: nat, credit: nat, last: int, now: int)
    requires credit <= cap && rate > 0 && last >= now > 0
    ensures credit < cap ==>
              forall t: int :: CreditAt(cap, rate, credit, last, t) == cap <==> t >= last + CeilDiv(cap - credit, rate)
    ensures credit == cap ==> forall t: int :: CreditAt(cap, rate, credit, last, t) == cap
  {
    if credit < cap {
      forall t: int ensures CreditAt(cap, rate, credit, last, t) == cap <==> t >= last + CeilDiv(cap - credit, rate) {
        CeilDivReaches(cap - credit, rate, 0);
        if t > last {
          CeilDivReaches(cap - credit, rate, t - last);
        }
      }
    } else {
      forall t: int ensures CreditAt(cap, rate, credit, last, t) == cap {
        assert t > last ==> (t - last) * rate >= 0;
      }
    }
  }

  lemma FindUnique(q: Queue, flow: nat, k: nat)
    requires k <= |q| && (k < |q| ==> q[k].flow == flow) && forall i :: 0 <= i < k ==> q[i].flow != flow
    ensures k == Find(q, flow)
  {}

  lemma ReadyUnique(q: Queue, k: nat)
    requires k <= |q| && (k < |q| ==> q[k].ready) && forall i :: 0 <= i < k ==> !q[i].ready
    ensures k == FirstReady(q)
  {}
}
