/** Deadline bookkeeping over reliable messages: one intrusive doubly linked list per origin. */
module OrdinaryService {

  const DEADLINE: nat := 50_000
  const ORIGINS: nat := 7

  function Later(a: int, b: int): int {
    if b > a then b else a
  }

  class Message {
    var owner: Service?
    var previous: Message?
    var next: Message?
    var acceptedAt: nat
    var remaining: nat
    var origin: nat

    constructor ()
      ensures owner == null && previous == null && next == null
    {
      owner, previous, next := null, null, null;
      acceptedAt, remaining, origin := 0, 0, 0;
    }
  }

  class Service {
    const heads: array<Message?>
    const tails: array<Message?>
    const lastAccepted: array<nat>
    var everFailed: bool
    var activeDeadlineFailed: bool
    var evidenceInvalid: bool
    var maximumLatency: nat
    ghost var lists: seq<seq<Message>>   // the enrolled messages of each origin, oldest first
    ghost var enrolled: set<Message>

    /** The message at place `i` of its origin's list is linked to its two neighbours. */
    ghost predicate Node(o: nat, l: seq<Message>, i: nat)
      requires i < |l|
      reads l`owner, l`origin, l`previous, l`next
    {
      && l[i].owner == this && l[i].origin == o
      && l[i].previous == (if i == 0 then null else l[i - 1])
      && l[i].next == (if i + 1 == |l| then null else l[i + 1])
    }

    ghost predicate Nodes(o: nat, l: seq<Message>)
      reads l`owner, l`origin, l`previous, l`next
    {
      && (forall i: nat :: i < |l| ==> Node(o, l, i))
      && (forall i: nat, j: nat :: i < j < |l| ==> l[i] != l[j])
    }

    /** Acceptance times never fall along a list, and the origin remembers its latest one. */
    ghost predicate Ordered(l: seq<Message>, last: nat)
      reads l`acceptedAt
    {
      && (forall i: nat, j: nat :: i <= j < |l| ==> l[i].acceptedAt <= l[j].acceptedAt)
      && (forall i: nat :: i < |l| ==> l[i].acceptedAt <= last)
    }

    ghost predicate Ends(l: seq<Message>, head: Message?, tail: Message?) {
      && head == (if l == [] then null else l[0])
      && tail == (if l == [] then null else l[|l| - 1])
    }

    ghost predicate ListOk(o: nat, l: seq<Message>, head: Message?, tail: Message?, last: nat)
      reads l`owner, l`origin, l`previous, l`next, l`acceptedAt
    {
      Nodes(o, l) && Ordered(l, last) && Ends(l, head, tail)
    }

    ghost predicate Shape()
      reads this`lists
    {
      && heads.Length == ORIGINS && tails.Length == ORIGINS && lastAccepted.Length == ORIGINS
      && heads != tails && |lists| == ORIGINS
    }

    /** `es` is exactly what the lists `ls` hold. */
    static ghost predicate Members(ls: seq<seq<Message>>, es: set<Message>) {
      && |ls| == ORIGINS
      && (forall o: nat, m :: o < ORIGINS && m in ls[o] ==> m in es)
      && (forall m :: m in es ==> exists o: nat :: o < ORIGINS && m in ls[o])
    }

    ghost predicate Valid()
      reads this`lists, this`enrolled, heads, tails, lastAccepted
      reads enrolled`owner, enrolled`origin, enrolled`previous, enrolled`next, enrolled`acceptedAt
    {
      && Shape() && Members(lists, enrolled)
      && (forall o: nat :: o < ORIGINS ==> ListOk(o, lists[o], heads[o], tails[o], lastAccepted[o]))
    }

    constructor ()
      ensures Valid() && enrolled == {} && lists == seq(ORIGINS, _ => [])
      ensures fresh(heads) && fresh(tails) && fresh(lastAccepted)
    {
      heads := new Message?[ORIGINS](_ => null);
      tails := new Message?[ORIGINS](_ => null);
      lastAccepted := new nat[ORIGINS](_ => 0);
      everFailed, activeDeadlineFailed, evidenceInvalid, maximumLatency := false, false, false, 0;
      lists, enrolled := seq(ORIGINS, _ => []), {};
    }

    lemma ValidShape()
      requires Valid()
      ensures Shape()
    {}

    /** Some enrolled message, anywhere in any list, has waited longer than the deadline. */
    ghost predicate Late(through: nat)
      reads this`enrolled, enrolled
    {
      exists m :: m in enrolled && through > m.acceptedAt + DEADLINE
    }

    /** Every message of origin `o`, which has some, was accepted after `through`. */
    ghost predicate AllAhead(o: nat, through: nat)
      requires Shape() && o < ORIGINS
      reads this`lists, lists[o]
    {
      lists[o] != [] && forall i: nat :: i < |lists[o]| ==> through < lists[o][i].acceptedAt
    }

    /** Looks at the seven heads only, and misses no late message. */
    method Observe(through: nat)
      requires Valid()
      modifies this`activeDeadlineFailed, this`everFailed, this`evidenceInvalid
      ensures Valid()
      ensures activeDeadlineFailed <==> Late(through)
      ensures everFailed <==> old(everFailed) || Late(through)
      ensures evidenceInvalid <==> old(evidenceInvalid) || exists o: nat :: o < ORIGINS && EarlyHead(o, through)
    {
      hide LateHead, EarlyHead, Late, Valid, SomeLate, SomeEarly;
      ValidShape();
      ObserveHeads(through);
      HeadsSuffice(through);
      SomeMeansExists(ORIGINS, through);
    }

    method ObserveHeads(through: nat)
      requires Valid() && Shape()
      modifies this`activeDeadlineFailed, this`everFailed, this`evidenceInvalid
      ensures Valid()
      ensures activeDeadlineFailed <==> SomeLate(ORIGINS, through)
      ensures everFailed <==> old(everFailed) || SomeLate(ORIGINS, through)
      ensures evidenceInvalid <==> old(evidenceInvalid) || SomeEarly(ORIGINS, through)
    {
      hide LateHead, EarlyHead, Valid;
      activeDeadlineFailed := false;
      for o := 0 to ORIGINS
        invariant Valid() && Shape()
        invariant activeDeadlineFailed <==> SomeLate(o, through)
        invariant everFailed <==> old(everFailed) || activeDeadlineFailed
        invariant evidenceInvalid <==> old(evidenceInvalid) || SomeEarly(o, through)
      {
        var late, ahead := ObserveHead(o, through);
        if ahead {
          evidenceInvalid := true;
        }
        if late {
          activeDeadlineFailed, everFailed := true, true;
        }
      }
    }

    method ObserveHead(o: nat, through: nat) returns (late: bool, ahead: bool)
      requires Valid() && o < ORIGINS
      ensures late <==> LateHead(o, through)
      ensures ahead <==> EarlyHead(o, through)
    {
      var head := heads[o];
      if head == null {
        return false, false;
      }
      if through < head.acceptedAt {
        return false, true;
      }
      return through - head.acceptedAt > DEADLINE, false;
    }

    ghost predicate SomeLate(n: nat, through: nat)
      requires Shape() && n <= ORIGINS
      reads this`lists, heads, heads[..]
    {
      n > 0 && (LateHead(n - 1, through) || SomeLate(n - 1, through))
    }

    ghost predicate SomeEarly(n: nat, through: nat)
      requires Shape() && n <= ORIGINS
      reads this`lists, heads, heads[..]
    {
      n > 0 && (EarlyHead(n - 1, through) || SomeEarly(n - 1, through))
    }

    ghost predicate EarlyHead(o: nat, through: nat)
      requires Shape() && o < ORIGINS
      reads this`lists, heads, heads[..]
    {
      heads[o] != null && through < heads[o].acceptedAt
    }

    lemma {:induction false} SomeMeansExists(n: nat, through: nat)
      requires Shape() && n <= ORIGINS
      ensures SomeLate(n, through) <==> exists k: nat :: k < n && LateHead(k, through)
      ensures SomeEarly(n, through) <==> exists k: nat :: k < n && EarlyHead(k, through)
    {
      if n > 0 {
        SomeMeansExists(n - 1, through);
      }
    }

    ghost predicate LateHead(o: nat, through: nat)
      requires Shape() && o < ORIGINS
      reads this`lists, heads, heads[..]
    {
      heads[o] != null && through > heads[o].acceptedAt + DEADLINE
    }

    /** A head accepted after `through` means that its whole origin was. */
    lemma HeadIsOldest(o: nat, through: nat)
      requires Valid() && o < ORIGINS
      ensures EarlyHead(o, through) <==> AllAhead(o, through)
    {
      assert ListOk(o, lists[o], heads[o], tails[o], lastAccepted[o]);
    }

    lemma HeadsSuffice(through: nat)
      requires Valid()
      ensures Late(through) <==> exists k: nat :: k < ORIGINS && LateHead(k, through)
    {
      if m :| m in enrolled && through > m.acceptedAt + DEADLINE {
        var o: nat :| o < ORIGINS && m in lists[o];
        assert ListOk(o, lists[o], heads[o], tails[o], lastAccepted[o]);
        var i: nat :| i < |lists[o]| && lists[o][i] == m;
        assert lists[o][0].acceptedAt <= lists[o][i].acceptedAt;
        assert LateHead(o, through);
      }
      if k: nat :| k < ORIGINS && LateHead(k, through) {
        assert ListOk(k, lists[k], heads[k], tails[k], lastAccepted[k]);
        assert lists[k][0] in lists[k];
      }
    }

    /** Points the neighbours of `value`, or the list ends, past it. */
    method Relink(value: Message)
      requires Shape() && value.origin < ORIGINS && value.previous != value && value.next != value
      requires value.previous == null || value.previous != value.next
      modifies value, value.previous, value.next, heads, tails
      ensures value.owner == null && value.previous == null && value.next == null
      ensures value.acceptedAt == old(value.acceptedAt) && value.origin == old(value.origin)
              && value.remaining == old(value.remaining)
      ensures heads[value.origin] == if old(value.previous) == null then old(value.next) else old(heads[value.origin])
      ensures tails[value.origin] == if old(value.next) == null then old(value.previous) else old(tails[value.origin])
      ensures forall o: nat :: o < ORIGINS && o != value.origin ==>
              heads[o] == old(heads[o]) && tails[o] == old(tails[o])
      ensures var p := old(value.previous); p != null ==>
                p.next == old(value.next) && p.previous == old(value.previous.previous) && SameData(p)
      ensures var n := old(value.next); n != null ==>
                n.previous == old(value.previous) && n.next == old(value.next.next) && SameData(n)
    {
      var origin := value.origin;
      if value.previous != null {
        value.previous.next := value.next;
      } else {
        heads[origin] := value.next;
      }
      if value.next != null {
        value.next.previous := value.previous;
      } else {
        tails[origin] := value.previous;
      }
      value.owner, value.previous, value.next := null, null, null;
    }

    twostate predicate SameData(m: Message)
      reads m
    {
      && m.owner == old(m.owner) && m.acceptedAt == old(m.acceptedAt)
      && m.origin == old(m.origin) && m.remaining == old(m.remaining)
    }

    /** Takes the message at place `k` out of its list by relinking its neighbours. */
    method Unlink(value: Message, ghost l: seq<Message>, ghost k: nat)
      requires Shape() && value.origin < ORIGINS && k < |l| && l[k] == value
      requires Nodes(value.origin, l) && Ends(l, heads[value.origin], tails[value.origin])
      modifies l, heads, tails
      ensures value.origin == old(value.origin) && Nodes(value.origin, l[..k] + l[k + 1..])
      ensures Ends(l[..k] + l[k + 1..], heads[value.origin], tails[value.origin])
      ensures value.owner == null && value.previous == null && value.next == null
      ensures forall o: nat :: o < ORIGINS && o != value.origin ==>
              heads[o] == old(heads[o]) && tails[o] == old(tails[o])
      ensures forall m :: m in l ==> m.acceptedAt == old(m.acceptedAt) && m.origin == old(m.origin)
                                     && m.remaining == old(m.remaining)
    {
      ghost var rest := l[..k] + l[k + 1..];
      ghost var origin := value.origin;
      assert Node(origin, l, k);
      assert k > 0 ==> Node(origin, l, k - 1);
      assert k + 1 < |l| ==> Node(origin, l, k + 1);
      Relink(value);
      forall i: nat | i < |rest| ensures Node(origin, rest, i) {
        assert old(Node(origin, l, if i < k then i else i + 1));
      }
    }

    lemma OriginOf(o: nat, l: seq<Message>)
      requires Nodes(o, l)
      ensures forall m :: m in l ==> m.origin == o && m.owner == this
    {
      forall m | m in l ensures m.origin == o && m.owner == this {
        var i: nat :| i < |l| && l[i] == m;
        assert Node(o, l, i);
      }
    }

    /** The list of another origin shares no message with `l`. */
    ghost predicate Apart(o: nat, l: seq<Message>)
      requires Shape()
      reads this`lists
    {
      forall p: nat, m :: p < ORIGINS && p != o && m in l ==> m !in lists[p]
    }

    lemma ListsApart(o: nat, l: seq<Message>)
      requires Valid() && Nodes(o, l)
      ensures Apart(o, l)
    {
      hide Ordered, Ends;
      forall p: nat, m | p < ORIGINS && p != o && m in l ensures m !in lists[p] {
        OriginOf(o, l);
        OriginOf(p, lists[p]);
      }
    }

    /** Removes a message from this service; one that belongs elsewhere is left alone. */
    method Forget(value: Message)
      requires Valid() && (value.owner == this ==> value in enrolled)
      modifies this`lists, this`enrolled, heads, tails, enrolled, value
      ensures Valid()
      ensures old(value.owner) != this ==>
              enrolled == old(enrolled) && lists == old(lists) && value.owner == old(value.owner)
      ensures old(value.owner) == this ==> value.owner == null && enrolled == old(enrolled) - {value}
      ensures forall p: nat :: p < ORIGINS && p != old(value.origin) ==> lists[p] == old(lists)[p]
      ensures forall m :: m in old(enrolled) ==> m.acceptedAt == old(m.acceptedAt) && m.remaining == old(m.remaining)
    {
      if value.owner != this {
        return;
      }
      ghost var o, k := Locate(value);
      hide Valid, Shape;
      ForgetAt(value, o, k);
    }

    method ForgetAt(value: Message, ghost o: nat, ghost k: nat)
      requires Valid() && o < ORIGINS && value.origin == o && k < |lists[o]| && lists[o][k] == value
      modifies this`lists, this`enrolled, heads, tails, lists[o]
      ensures Valid() && value.owner == null && enrolled == old(enrolled) - {value}
      ensures forall p: nat :: p < ORIGINS && p != o ==> lists[p] == old(lists)[p]
      ensures forall m :: m in old(lists[o]) ==> m.acceptedAt == old(m.acceptedAt) && m.remaining == old(m.remaining)
    {
      ghost var rest := lists[o := lists[o][..k] + lists[o][k + 1..]];
      MembersRest(o, k);
      hide ListOk, Members;
      UnlinkOwned(value, o, k);
      lists := rest;
      enrolled := enrolled - {value};
    }

    /** Unlinks a located message; the other lists are untouched. */
    method UnlinkOwned(value: Message, ghost o: nat, ghost k: nat)
      requires Valid() && o < ORIGINS && value.origin == o && k < |lists[o]| && lists[o][k] == value
      modifies heads, tails, lists[o]
      ensures ListOk(o, lists[o][..k] + lists[o][k + 1..], heads[o], tails[o], lastAccepted[o])
      ensures forall p: nat :: p < ORIGINS && p != o ==> ListOk(p, lists[p], heads[p], tails[p], lastAccepted[p])
      ensures value.owner == null
      ensures forall m :: m in lists[o] ==> m.acceptedAt == old(m.acceptedAt) && m.remaining == old(m.remaining)
    {
      ghost var l := lists[o];
      assert ListOk(o, l, heads[o], tails[o], lastAccepted[o]);
      ListsApart(o, l);
      OrderedRest(l, k, lastAccepted[o]);
      hide Nodes, Ordered, Ends, Members;
      Unlink(value, l, k);
      forall p: nat | p < ORIGINS && p != o ensures ListOk(p, lists[p], heads[p], tails[p], lastAccepted[p]) {
        assert old(ListOk(p, lists[p], heads[p], tails[p], lastAccepted[p]));
        forall m | m in lists[p] ensures SameLinks(m) {
          assert m !in l;
        }
        ListKept(p);
      }
    }

    twostate lemma ListKept(o: nat)
      requires old(Shape()) && Shape() && o < ORIGINS && lists[o] == old(lists[o])
      requires old(ListOk(o, lists[o], heads[o], tails[o], lastAccepted[o]))
      requires heads[o] == old(heads[o]) && tails[o] == old(tails[o]) && lastAccepted[o] == old(lastAccepted[o])
      requires forall m :: m in lists[o] ==> SameLinks(m)
      ensures ListOk(o, lists[o], heads[o], tails[o], lastAccepted[o])
    {
      assert forall i: nat :: i < |lists[o]| ==> lists[o][i] in lists[o];
      forall i: nat | i < |lists[o]| ensures Node(o, lists[o], i) {
        assert SameLinks(lists[o][i]) && old(Node(o, lists[o], i));
      }
    }

    twostate predicate SameLinks(m: Message)
      reads m
    {
      && m.owner == old(m.owner) && m.origin == old(m.origin) && m.acceptedAt == old(m.acceptedAt)
      && m.previous == old(m.previous) && m.next == old(m.next)
    }

    lemma OrderedRest(l: seq<Message>, k: nat, last: nat)
      requires Ordered(l, last) && k < |l|
      ensures Ordered(l[..k] + l[k + 1..], last)
    {}

    lemma MembersRest(o: nat, k: nat)
      requires Valid() && o < ORIGINS && k < |lists[o]|
      ensures Members(lists[o := lists[o][..k] + lists[o][k + 1..]], enrolled - {lists[o][k]})
    {
      assert ListOk(o, lists[o], heads[o], tails[o], lastAccepted[o]);
      ListsApart(o, lists[o]);
      hide Ordered, Ends, Node;
      var gone, rest := lists[o][k], lists[o := lists[o][..k] + lists[o][k + 1..]];
      forall m ensures m in rest[o] <==> m in lists[o] && m != gone {
        if m in lists[o] && m != gone {
          var i :| 0 <= i < |lists[o]| && lists[o][i] == m;
          assert rest[o][if i < k then i else i - 1] == m;
        }
      }
      assert gone in lists[o];
      forall m | m in enrolled && m != gone ensures exists p: nat :: p < ORIGINS && m in rest[p] {
        var p: nat :| p < ORIGINS && m in lists[p];
        assert m in rest[p];
      }
    }

    lemma Locate(value: Message) returns (o: nat, k: nat)
      requires Valid() && value in enrolled
      ensures o < ORIGINS && value.origin == o && k < |lists[o]| && lists[o][k] == value
    {
      o :| o < ORIGINS && value in lists[o];
      OriginOf(o, lists[o]);
      k :| k < |lists[o]| && lists[o][k] == value;
    }

    /** Links `value`, which is in no list, behind the tail of origin `o`. */
    method Append(value: Message, o: nat, ghost l: seq<Message>, ghost last: nat)
      requires Shape() && o < ORIGINS && value !in l && value.owner == this && value.origin == o
      requires Nodes(o, l) && Ends(l, heads[o], tails[o]) && Ordered(l + [value], last)
      modifies value`previous, value`next, l, heads, tails
      ensures Nodes(o, l + [value]) && Ends(l + [value], heads[o], tails[o]) && Ordered(l + [value], last)
      ensures forall p: nat :: p < ORIGINS && p != o ==> heads[p] == old(heads[p]) && tails[p] == old(tails[p])
      ensures forall m :: m in l ==> m.acceptedAt == old(m.acceptedAt) && m.remaining == old(m.remaining)
    {
      hide Ordered;
      ghost var all := l + [value];
      assert |l| > 0 ==> Node(o, l, |l| - 1);
      value.previous, value.next := tails[o], null;
      if tails[o] != null {
        tails[o].next := value;
      } else {
        heads[o] := value;
      }
      tails[o] := value;
      forall i: nat | i < |all| ensures Node(o, all, i) {
        assert i < |l| ==> old(Node(o, l, i));
      }
    }

    lemma OrderedAppend(l: seq<Message>, value: Message, last: nat, now: nat)
      requires Ordered(l, last) && last <= now && value.acceptedAt == now
      ensures Ordered(l + [value], now)
    {}

    lemma FreeIsUnlisted(value: Message)
      requires Valid() && value.owner != this
      ensures value !in enrolled && forall o: nat :: o < ORIGINS ==> value !in lists[o]
    {
      hide Ordered, Ends;
      forall o: nat | o < ORIGINS ensures value !in lists[o] {
        OriginOf(o, lists[o]);
      }
    }

    /** Takes a message into its origin's list; unsupported metadata only spoils the evidence. */
    method Enroll(value: Message, origin: nat, acceptedAt: nat, bodyBytes: nat) returns (ok: bool)
      requires Valid()
      modifies this`lists, this`enrolled, this`evidenceInvalid, heads, tails, lastAccepted, value, enrolled
      ensures Valid()
      ensures ok <==> old(value.owner) == null && origin < ORIGINS && acceptedAt != 0 && bodyBytes != 0
                      && acceptedAt >= old(lastAccepted[origin])
      ensures ok ==> enrolled == old(enrolled) + {value} && lists == old(lists)[origin := old(lists)[origin] + [value]]
      ensures ok ==> value.owner == this && value.acceptedAt == acceptedAt && value.remaining == bodyBytes
                     && value.origin == origin
      ensures ok ==> lastAccepted[origin] == acceptedAt && evidenceInvalid == old(evidenceInvalid)
      ensures !ok ==> evidenceInvalid && lists == old(lists) && enrolled == old(enrolled)
                      && value.owner == old(value.owner)
      ensures forall p: nat :: p < ORIGINS && (!ok || p != origin) ==> lastAccepted[p] == old(lastAccepted[p])
      ensures forall m :: m in old(enrolled) && (!ok || m != value) ==>
                m.acceptedAt == old(m.acceptedAt) && m.remaining == old(m.remaining)
    {
      if value.owner != null || origin >= ORIGINS || acceptedAt == 0 || bodyBytes == 0
        || acceptedAt < lastAccepted[origin] {
        evidenceInvalid := true;
        return false;
      }
      hide ListOk, Members;
      FreeIsUnlisted(value);
      Accept(value, origin, acceptedAt, bodyBytes);
      return true;
    }

    method Accept(value: Message, origin: nat, acceptedAt: nat, bodyBytes: nat)
      requires Valid() && origin < ORIGINS && acceptedAt >= lastAccepted[origin]
      requires value !in enrolled && forall o: nat :: o < ORIGINS ==> value !in lists[o]
      modifies this`lists, this`enrolled, heads, tails, lastAccepted, value, enrolled
      ensures Valid() && lastAccepted[origin] == acceptedAt
      ensures forall p: nat :: p < ORIGINS && p != origin ==> lastAccepted[p] == old(lastAccepted[p])
      ensures enrolled == old(enrolled) + {value} && lists == old(lists)[origin := old(lists)[origin] + [value]]
      ensures value.owner == this && value.acceptedAt == acceptedAt && value.remaining == bodyBytes
              && value.origin == origin
      ensures forall m :: m in old(enrolled) ==> m.acceptedAt == old(m.acceptedAt) && m.remaining == old(m.remaining)
    {
      hide ListOk;
      MembersMore(value, origin);
      ghost var more := lists[origin := lists[origin] + [value]];
      MembersListed(origin);
      hide Members;
      AppendOwned(value, origin, acceptedAt, bodyBytes);
      lists := more;
      enrolled := enrolled + {value};
    }

    lemma MembersListed(o: nat)
      requires Members(lists, enrolled) && o < ORIGINS
      ensures forall m :: m in lists[o] ==> m in enrolled
    {}

    lemma MembersMore(value: Message, o: nat)
      requires Members(lists, enrolled) && o < ORIGINS
      ensures Members(lists[o := lists[o] + [value]], enrolled + {value})
    {
      var more := lists[o := lists[o] + [value]];
      assert more[o][|lists[o]|] == value;
      forall m | m in enrolled ensures exists p: nat :: p < ORIGINS && m in more[p] {
        var p: nat :| p < ORIGINS && m in lists[p];
        assert m in more[p];
      }
    }

    method FillIn(value: Message, o: nat, acceptedAt: nat, bodyBytes: nat, ghost l: seq<Message>)
      requires Shape() && o < ORIGINS && acceptedAt >= lastAccepted[o] && value !in l
      requires ListOk(o, l, heads[o], tails[o], lastAccepted[o])
      modifies value, heads, tails, lastAccepted, l
      ensures ListOk(o, l + [value], heads[o], tails[o], lastAccepted[o]) && lastAccepted[o] == acceptedAt
      ensures value.owner == this && value.acceptedAt == acceptedAt && value.remaining == bodyBytes && value.origin == o
      ensures forall p: nat :: p < ORIGINS && p != o ==>
                heads[p] == old(heads[p]) && tails[p] == old(tails[p]) && lastAccepted[p] == old(lastAccepted[p])
      ensures forall m :: m in l ==> m.acceptedAt == old(m.acceptedAt) && m.remaining == old(m.remaining)
    {
      hide Nodes, Ordered, Ends;
      value.owner, value.origin, value.acceptedAt, value.remaining := this, o, acceptedAt, bodyBytes;
      OrderedAppend(l, value, lastAccepted[o], acceptedAt);
      Append(value, o, l, acceptedAt);
      lastAccepted[o] := acceptedAt;
    }

    /** Fills in and links a new message; the other lists are untouched. */
    method AppendOwned(value: Message, o: nat, acceptedAt: nat, bodyBytes: nat)
      requires Valid() && o < ORIGINS && acceptedAt >= lastAccepted[o]
      requires forall p: nat :: p < ORIGINS ==> value !in lists[p]
      modifies value, heads, tails, lastAccepted, lists[o]
      ensures ListOk(o, lists[o] + [value], heads[o], tails[o], lastAccepted[o]) && lastAccepted[o] == acceptedAt
      ensures forall p: nat :: p < ORIGINS && p != o ==> ListOk(p, lists[p], heads[p], tails[p], lastAccepted[p])
      ensures value.owner == this && value.acceptedAt == acceptedAt && value.remaining == bodyBytes && value.origin == o
      ensures forall m :: m in lists[o] ==> m.acceptedAt == old(m.acceptedAt) && m.remaining == old(m.remaining)
      ensures forall p: nat :: p < ORIGINS && p != o ==> lastAccepted[p] == old(lastAccepted[p])
    {
      ghost var l := lists[o];
      assert ListOk(o, l, heads[o], tails[o], lastAccepted[o]);
      ListsApart(o, l);
      hide Nodes, Ordered, Ends, Members;
      FillIn(value, o, acceptedAt, bodyBytes, l);
      forall p: nat | p < ORIGINS && p != o ensures ListOk(p, lists[p], heads[p], tails[p], lastAccepted[p]) {
        assert old(ListOk(p, lists[p], heads[p], tails[p], lastAccepted[p]));
        forall m | m in lists[p] ensures SameLinks(m) {
          assert m !in l && m != value;
        }
        ListKept(p);
      }
    }

    /** Counts body bytes of a first send; the last of them completes the obligation. */
    method FirstSend(value: Message, bodyBytes: nat, completedAt: nat)
      requires Valid() && (value.owner == this ==> value in enrolled)
      modifies this, heads, tails, enrolled, value
      ensures Valid()
      ensures var known := old(value.owner) == this;
              var supported := known && completedAt != 0 && completedAt >= old(value.acceptedAt)
                               && bodyBytes <= old(value.remaining);
              && (evidenceInvalid <==> old(evidenceInvalid) || (old(value.owner) != null && !supported))
              && (everFailed <==> old(everFailed)
                                  || (supported && bodyBytes != 0 && completedAt > old(value.acceptedAt) + DEADLINE))
              && enrolled == (if supported && bodyBytes != 0 && bodyBytes == old(value.remaining)
                              then old(enrolled) - {value} else old(enrolled))
              && value.remaining == (if supported then old(value.remaining) - bodyBytes else old(value.remaining))
              && maximumLatency == (if supported && bodyBytes != 0 && bodyBytes == old(value.remaining)
                                    then Later(old(maximumLatency), completedAt - old(value.acceptedAt))
                                    else old(maximumLatency))
      ensures value.owner == if old(value.owner) == this && value !in enrolled then null else old(value.owner)
      ensures forall m :: m in old(enrolled) ==> m.acceptedAt == old(m.acceptedAt)
      ensures forall m :: m in old(enrolled) && m != value ==> m.remaining == old(m.remaining)
      ensures activeDeadlineFailed == old(activeDeadlineFailed)
    {
      hide Valid;
      if value.owner == null {
        return;
      }
      if value.owner != this || completedAt == 0 || completedAt < value.acceptedAt || bodyBytes > value.remaining {
        evidenceInvalid := true;
        return;
      }
      if bodyBytes == 0 {
        return;
      }
      value.remaining := value.remaining - bodyBytes;
      var latency := completedAt - value.acceptedAt;
      if latency > DEADLINE {
        everFailed := true;
      }
      if value.remaining == 0 {
        if latency > maximumLatency {
          maximumLatency := latency;
        }
        Forget(value);
      }
    }

    /** A message destroyed while still enrolled spoils the evidence but leaves no dangling link. */
    method Released(value: Message)
      requires Valid() && (value.owner == this ==> value in enrolled)
      modifies this`evidenceInvalid, this`lists, this`enrolled, heads, tails, enrolled, value
      ensures Valid() && evidenceInvalid && value.owner == if old(value.owner) == this then null else old(value.owner)
      ensures enrolled == if old(value.owner) == this then old(enrolled) - {value} else old(enrolled)
      ensures forall m :: m in old(enrolled) ==> m.acceptedAt == old(m.acceptedAt) && m.remaining == old(m.remaining)
    {
      hide Valid;
      evidenceInvalid := true;
      Forget(value);
    }

    /** Empties every list. */
    method Purge()
      requires Valid()
      modifies this`activeDeadlineFailed, this`lists, this`enrolled, heads, tails, enrolled
      ensures Valid() && enrolled == {} && !activeDeadlineFailed
      ensures forall m :: m in old(enrolled) ==> m.owner == null
    {
      hide Valid;
      ValidShape();
      for o := 0 to ORIGINS
        invariant Valid() && Shape() && enrolled <= old(enrolled)
        invariant forall p: nat :: p < o ==> lists[p] == []
        invariant forall m :: m in old(enrolled) && m !in enrolled ==> m.owner == null
      {
        PurgeOrigin(o);
      }
      AllEmpty();
      activeDeadlineFailed := false;
    }

    method PurgeOrigin(o: nat)
      requires Valid() && Shape() && o < ORIGINS
      modifies this`lists, this`enrolled, heads, tails, enrolled
      ensures Valid() && Shape() && enrolled <= old(enrolled) && lists[o] == []
      ensures forall m :: m in old(enrolled) && m !in enrolled ==> m.owner == null
      ensures forall p: nat :: p < ORIGINS && p != o ==> lists[p] == old(lists)[p]
    {
      hide Valid;
      while heads[o] != null
        invariant Valid() && Shape() && enrolled <= old(enrolled)
        invariant forall p: nat :: p < ORIGINS && p != o ==> lists[p] == old(lists)[p]
        invariant forall m :: m in old(enrolled) && m !in enrolled ==> m.owner == null
        decreases |enrolled|
      {
        HeadEnrolled(o);
        Forget(heads[o]);
        ValidShape();
      }
      NoHeadNoList(o);
    }

    lemma NoHeadNoList(o: nat)
      requires Valid() && o < ORIGINS && heads[o] == null
      ensures lists[o] == []
    {
      assert ListOk(o, lists[o], heads[o], tails[o], lastAccepted[o]);
    }

    lemma EnrolledAreOwned()
      requires Valid()
      ensures forall m :: m in enrolled ==> m.owner == this
    {
      hide Ordered, Ends;
      forall m | m in enrolled ensures m.owner == this {
        var o: nat :| o < ORIGINS && m in lists[o];
        OriginOf(o, lists[o]);
      }
    }

    lemma AllEmpty()
      requires Valid() && forall o: nat :: o < ORIGINS ==> lists[o] == []
      ensures enrolled == {}
    {}

    lemma HeadEnrolled(o: nat)
      requires Valid() && o < ORIGINS && heads[o] != null
      ensures heads[o] in enrolled && heads[o].owner == this && heads[o].origin == o
    {
      assert ListOk(o, lists[o], heads[o], tails[o], lastAccepted[o]);
      assert lists[o][0] in lists[o];
      OriginOf(o, lists[o]);
    }
  }

  datatype Event =
    | Enrol(message: nat, origin: nat, acceptedAt: nat, bodyBytes: nat)
    | Send(message: nat, bodyBytes: nat, completedAt: nat)
    | Abandon(message: nat)
    | Look(through: nat)
    | Clear

  /** Every message is free or enrolled here. */
  ghost predicate Known(service: Service, messages: seq<Message>)
    reads service`enrolled, messages`owner
  {
    forall m :: m in messages ==> (m.owner == null && m !in service.enrolled)
                                  || (m.owner == service && m in service.enrolled)
  }

  /** Any run of calls keeps all seven lists well formed and in order of acceptance. */
  method Run(service: Service, messages: seq<Message>, events: seq<Event>)
    requires service.Valid() && Known(service, messages)
    requires service.enrolled <= set m | m in messages
    modifies service, service.heads, service.tails, service.lastAccepted, messages
    ensures service.Valid() && Known(service, messages)
  {
    hide Service.Valid;
    for k := 0 to |events|
      invariant service.Valid() && Known(service, messages)
      invariant service.enrolled <= set m | m in messages
    {
      Apply(service, messages, events[k]);
    }
  }

  method Apply(service: Service, messages: seq<Message>, event: Event)
    requires service.Valid() && Known(service, messages)
    requires service.enrolled <= set m | m in messages
    modifies service, service.heads, service.tails, service.lastAccepted, messages
    ensures service.Valid() && Known(service, messages)
    ensures service.enrolled <= set m | m in messages
  {
    hide Service.Valid;
    match event {
      case Enrol(i, origin, acceptedAt, bodyBytes) =>
        if i < |messages| {
          service.ValidShape();
          var _ := service.Enroll(messages[i], origin, acceptedAt, bodyBytes);
        }
      case Send(i, bodyBytes, completedAt) =>
        if i < |messages| {
          service.FirstSend(messages[i], bodyBytes, completedAt);
        }
      case Abandon(i) =>
        if i < |messages| {
          service.Released(messages[i]);
        }
      case Look(through) => service.Observe(through);
      case Clear => service.Purge();
    }
    service.EnrolledAreOwned();
  }
}
