/** The packet layer as it is built: packets linked into queues, and a waiting list cut through pointers to links. */
module NetLists {
  import opened NetSpec
  import opened Lists

  class Node {
    var next: Node?
    var p: Packet

    constructor (packet: Packet)
      ensures next == null && p == packet
    {
      next, p := null, packet;
    }
  }

  /** The list from `head` runs through `s` to its end. */
  ghost predicate Linked(head: Node?, s: seq<Node>)
    reads s`next
  {
    && head == (if |s| > 0 then s[0] else null)
    && forall i :: 0 <= i < |s| ==> s[i].next == After(s, i, null)
  }

  ghost predicate Shows(s: seq<Node>, ps: seq<Packet>)
    reads s`p
  {
    |s| == |ps| && forall i :: 0 <= i < |s| ==> ps[i] == s[i].p
  }

  lemma LinkedAt(head: Node?, s: seq<Node>, k: nat)
    requires Linked(head, s)
    ensures head == (if |s| > 0 then s[0] else null)
    ensures k < |s| ==> s[k].next == After(s, k, null)
  {
  }

  lemma LinkedAll(head: Node?, s: seq<Node>)
    requires Linked(head, s)
    ensures head == (if |s| > 0 then s[0] else null)
    ensures forall i :: 0 <= i < |s| ==> s[i].next == After(s, i, null)
  {
  }

  lemma LinkedTail(head: Node?, s: seq<Node>)
    requires Linked(head, s) && s != []
    ensures head == s[0] && Linked(s[0].next, s[1..])
  {
    var t := s[1..];
    assert s[0].next == After(s, 0, null);
    forall i | 0 <= i < |t| ensures t[i].next == After(t, i, null) {
      assert s[i + 1].next == After(s, i + 1, null);
    }
  }

  lemma LinkedCons(b: Node, s: seq<Node>)
    requires Linked(b.next, s)
    ensures Linked(b, [b] + s)
  {
    var t := [b] + s;
    forall i | 0 <= i < |t| ensures t[i].next == After(t, i, null) {
      if i > 0 { assert t[i] == s[i - 1] && s[i - 1].next == After(s, i - 1, null); }
    }
  }

  lemma LinkedSnoc(head: Node?, s: seq<Node>, b: Node)
    requires b.next == null && head == (if |s| > 0 then s[0] else b)
    requires forall i :: 0 <= i < |s| - 1 ==> s[i].next == After(s, i, null)
    requires s != [] ==> s[|s| - 1].next == b
    ensures Linked(head, s + [b])
  {
    var t := s + [b];
    forall i | 0 <= i < |t| ensures t[i].next == After(t, i, null) {
      if i < |s| - 1 { assert s[i].next == After(s, i, null); }
    }
  }

  lemma DroppedLinked(head: Node?, s: seq<Node>, k: nat)
    requires k < |s|
    requires forall i :: 0 <= i < |s| && i != k && i + 1 != k ==> s[i].next == After(s, i, null)
    requires k > 0 ==> s[k - 1].next == After(s, k, null) && head == s[0]
    requires k == 0 ==> head == After(s, 0, null)
    ensures Linked(head, Dropped(s, k))
  {
    var t := Dropped(s, k);
    forall i | 0 <= i < |t| ensures t[i].next == After(t, i, null) {
      if i + 1 < k {
        assert s[i].next == After(s, i, null);
      } else if i >= k {
        assert s[i + 1].next == After(s, i + 1, null);
      }
    }
  }

  lemma DroppedShows(s: seq<Node>, ps: seq<Packet>, k: nat)
    requires Shows(s, ps) && k < |s|
    ensures Shows(Dropped(s, k), Dropped(ps, k))
  {
  }

  lemma ShowsAt(s: seq<Node>, ps: seq<Packet>, k: nat)
    requires Shows(s, ps)
    ensures |s| == |ps| && (k < |s| ==> ps[k] == s[k].p)
  {
  }

  lemma ConsShows(b: Node, s: seq<Node>, ps: seq<Packet>)
    requires Shows(s, ps)
    ensures Shows([b] + s, [b.p] + ps) && Shows(s + [b], ps + [b.p])
  {
  }

  lemma TailShows(s: seq<Node>, ps: seq<Packet>)
    requires Shows(s, ps) && s != []
    ensures ps != [] && ps[0] == s[0].p && Shows(s[1..], ps[1..])
  {
  }

  /** `packet_queue_t` */
  class PacketQueue {
    var head: Node?
    var tail: Node?
    ghost var q: seq<Node>

    ghost predicate Valid()
      reads this, q`next
    {
      Linked(head, q) && NoDup(q) && tail == (if q == [] then null else q[|q| - 1])
    }

    constructor ()
      ensures Valid() && q == []
    {
      head, tail, q := null, null, [];
    }

    /** `packet_queue_addtail` */
    method AddTail(p: Node)
      requires Valid() && p !in q
      modifies `head, `tail, `q, q`next, p`next
      ensures Valid() && q == old(q) + [p]
    {
      hide Linked, NoDup;
      LinkedAll(head, q);
      LastDistinct(q);
      NoDupCons(p, q);
      if p.next != null {
        p.next := null;
      }
      if tail != null {
        tail.next := p;
        tail := p;
      } else {
        head := p;
        tail := p;
      }
      LinkedSnoc(head, q, p);
      q := q + [p];
    }

    /** `packet_queue_pophead` */
    method PopHead() returns (p: Node?)
      requires Valid()
      modifies `head, `tail, `q, q`next
      ensures Valid()
      ensures old(q) == [] ==> p == null && q == []
      ensures old(q) != [] ==> p == old(q)[0] && p.next == null && q == old(q)[1..] && p !in q
    {
      hide Linked, NoDup;
      LinkedAt(head, q, 0);
      if head == null {
        return null;
      }
      LinkedTail(head, q);
      NoDupTail(q);
      p := head;
      head := p.next;
      LinkedAt(head, q[1..], 0);
      if head == null {
        tail := null;
      }
      p.next := null;
      q := q[1..];
    }
  }

  lemma LastDistinct(s: seq<Node>)
    requires NoDup(s)
    ensures forall i :: 0 <= i < |s| - 1 ==> s[i] != s[|s| - 1]
  {
  }

  lemma {:induction false} FindEntryIs(s: seq<Entry>, ip: nat, k: nat)
    requires k <= |s| && (k < |s| ==> s[k].ip == ip) && forall j :: 0 <= j < k ==> s[j].ip != ip
    ensures FindEntry(s, ip) == k
  {
  }

  /** The transmit side of net.c with the address cache of arp.c. */
  class Stack {
    const tx: PacketQueue
    const interval: nat
    /** `net_arp_lookup_list_head` */
    var waiting: Node?
    var cache: seq<Entry>
    var alive: int
    var nextId: nat
    ghost var ws: seq<Node>
    /** What all this stands for; the places this class does not touch stay as they are. */
    ghost var model: Net

    /** `net_init` */
    constructor (queryInterval: nat)
      ensures Valid() && model == Net([], [], [], [], [], [], [], 0, 0) && fresh(tx)
    {
      tx := new PacketQueue();
      interval, waiting, cache, alive, nextId := queryInterval, null, [], 0, 0;
      ws, model := [], Net([], [], [], [], [], [], [], 0, 0);
    }

    ghost predicate Valid()
      reads this, tx, tx.q, ws
    {
      && tx.Valid() && Linked(waiting, ws) && NoDup(ws) && Separate(ws, tx.q)
      && Shows(ws, model.waiting) && Shows(tx.q, model.tx)
      && cache == model.cache && alive == model.alive && nextId == model.nextId
    }

    lemma ValidFacts()
      requires Valid()
      ensures tx.Valid() && Linked(waiting, ws) && NoDup(ws) && Separate(ws, tx.q)
      ensures Shows(ws, model.waiting) && Shows(tx.q, model.tx)
      ensures cache == model.cache && alive == model.alive && nextId == model.nextId
      ensures |ws| == |model.waiting|
      ensures forall i :: 0 <= i < |ws| ==> ws[i] !in tx.q
      ensures forall i :: 0 <= i < |tx.q| ==> tx.q[i] !in ws
    {
    }

    lemma ValidAgain()
      requires tx.Valid() && Linked(waiting, ws) && NoDup(ws) && Separate(ws, tx.q)
      requires Shows(ws, model.waiting) && Shows(tx.q, model.tx)
      requires cache == model.cache && alive == model.alive && nextId == model.nextId
      ensures Valid()
    {
    }

    /** The cache search of `net_arp_resolve`. */
    method FindAddress(ip: nat) returns (i: nat)
      ensures i == FindEntry(cache, ip) && i <= |cache|
    {
      i := 0;
      while i < |cache| && cache[i].ip != ip
        invariant i <= |cache| && forall j :: 0 <= j < i ==> cache[j].ip != ip
      {
        i := i + 1;
      }
      FindEntryIs(cache, ip, i);
    }

    /** The direct part of `net_tx`: the card takes the packet, or the transmit queue does. */
    method SendNode(b: Node, accepted: bool)
      requires Valid() && b !in ws && b !in tx.q && b.next == null
      modifies `alive, `model, tx, tx.q`next, b`next
      ensures Valid() && model == Send(old(model), b.p, accepted)
      ensures forall x :: x in tx.q ==> x in old(tx.q) || x == b
    {
      hide Valid, Linked, NoDup, Shows;
      ValidFacts();
      if accepted {
        alive := alive - 1;
        model := Send(model, b.p, accepted);
      } else {
        ConsShows(b, tx.q, model.tx);
        QueueNodes(tx.q, b);
        tx.AddTail(b);
        model := Send(model, b.p, accepted);
      }
      ValidAgain();
    }

    /** `arp_transmit_query`, a re-entry into `net_tx`. */
    method AskQuery(accepted: bool)
      requires Valid()
      modifies `alive, `nextId, `model, tx, tx.q`next
      ensures Valid() && model == Ask(old(model), accepted)
      ensures forall x :: x in tx.q ==> x in old(tx.q) || fresh(x)
    {
      hide Valid, Linked, NoDup, Shows;
      ValidFacts();
      var b := new Node(Packet(nextId, true, false, 0, true, Keys(false, true, 0x806, false, 0, 0, 0, false, 0, 0)));
      alive := alive + 1;
      nextId := nextId + 1;
      model := model.(alive := model.alive + 1, nextId := model.nextId + 1);
      ValidAgain();
      SendNode(b, accepted);
    }

    /** `net_arp_resolve`; `answer` is what the card says to a query. */
    method ResolveAddress(p: Packet, now: nat, answer: bool) returns (r: Result, asks: bool)
      requires Valid()
      modifies `cache, `alive, `nextId, `model, tx, tx.q`next
      ensures Valid()
      ensures var d := Resolve(old(cache), p, now, interval);
        && r == d.result && asks == d.asks
        && model == if asks then Ask(old(model).(cache := d.cache), answer) else old(model).(cache := d.cache)
      ensures forall x :: x in tx.q ==> x in old(tx.q) || fresh(x)
    {
      hide Valid, Linked, NoDup, Shows;
      ValidFacts();
      if p.toAll {
        return Okay, false;
      }
      var i := FindAddress(p.nexthop);
      if i == |cache| {
        cache := [Entry(p.nexthop, false, 1, now + interval)] + cache;
        model := model.(cache := cache);
        ValidAgain();
        AskQuery(answer);
        return Wait, true;
      }
      var e := cache[i];
      if e.valid {
        return Okay, false;
      }
      if e.nextEvent <= now {
        if e.attempts >= MAX_RESOLVE_ATTEMPTS {
          return Fail, false;
        }
        cache := cache[i := e.(attempts := e.attempts + 1, nextEvent := now + interval)];
        model := model.(cache := cache);
        ValidAgain();
        AskQuery(answer);
        return Wait, true;
      }
      return Wait, false;
    }

    /** `packet`, at place `i` behind `prev`, leaves the waiting list: the link that led to it leads past it. */
    method Unlink(prev: Node?, packet: Node, ghost i: nat)
      requires Linked(waiting, ws) && NoDup(ws) && i < |ws|
      requires packet == ws[i] && prev == (if i > 0 then ws[i - 1] else null)
      modifies `waiting, `ws, ws`next
      ensures Linked(waiting, ws) && ws == Dropped(old(ws), i) && packet.next == null
    {
      hide Dropped, Linked;
      LinkedAll(waiting, ws);
      if prev != null {
        prev.next := packet.next;
      } else {
        waiting := packet.next;
      }
      packet.next := null;
      DroppedLinked(waiting, ws, i);
      ws := Dropped(ws, i);
    }

    /** `packet`, at place `i` behind `prev`, is taken off the waiting list and is nowhere for the moment. */
    method TakeOut(prev: Node?, packet: Node, ghost i: nat)
      requires Valid() && i < |ws| && packet == ws[i] && prev == (if i > 0 then ws[i - 1] else null)
      modifies `waiting, `ws, `model, ws`next
      ensures Valid() && ws == Dropped(old(ws), i) && i < |old(model).waiting|
      ensures packet.next == null && packet !in ws && packet !in tx.q && packet.p == old(model).waiting[i]
      ensures model == old(model).(waiting := Dropped(old(model).waiting, i))
    {
      hide Valid, Linked, NoDup, Shows, Dropped;
      ValidFacts();
      ShowsAt(ws, model.waiting, i);
      DroppedFacts(ws, i);
      DroppedShows(ws, model.waiting, i);
      assert packet in ws;
      Unlink(prev, packet, i);
      model := model.(waiting := Dropped(model.waiting, i));
      ValidAgain();
    }

    /** `packet_set_destination_mac` for a packet that is on no list. */
    method SetMac(b: Node)
      requires Valid() && b !in ws && b !in tx.q
      modifies b`p
      ensures Valid() && b.p == old(b.p).(mac := true)
    {
      hide Valid, Linked, NoDup, Shows;
      ValidFacts();
      b.p := b.p.(mac := true);
      ValidAgain();
    }

    /** `net_arp_resolver_pump` */
    method ResolverPump(now: nat, answers: seq<bool>)
      requires Valid()
      modifies `waiting, `ws, `cache, `alive, `nextId, `model, ws, tx, tx.q`next
      ensures Valid() && model == Pump(old(model), 0, now, interval, answers)
    {
      hide Valid, Linked, NoDup, Shows, Dropped, Pump;
      ghost var i: nat := 0;
      var prev: Node? := null;
      var packet := waiting;
      var left := answers;
      ValidFacts();
      LinkedAt(waiting, ws, 0);
      while packet != null
        invariant Valid() && i <= |ws| && packet == (if i < |ws| then ws[i] else null)
        invariant prev == (if i > 0 then ws[i - 1] else null)
        invariant forall k :: 0 <= k < |ws| ==> ws[k] in old(ws)
        invariant forall k :: 0 <= k < |tx.q| ==> tx.q[k] in old(tx.q) || tx.q[k] in old(ws) || fresh(tx.q[k])
        invariant Pump(model, i, now, interval, left) == Pump(old(model), 0, now, interval, answers)
        decreases |ws| - i
      {
        prev, packet, left, i := PumpOne(prev, packet, i, now, left);
      }
      ValidFacts();
      PumpUnfold(model, i, now, interval, left);
    }

    /** One turn of the pump's loop: the packet is settled or passed over, and the two pointers move on. */
    method PumpOne(prev: Node?, packet: Node, ghost i: nat, now: nat, answers: seq<bool>)
      returns (prev': Node?, packet': Node?, left: seq<bool>, ghost i': nat)
      requires Valid() && i < |ws| && packet == ws[i] && prev == (if i > 0 then ws[i - 1] else null)
      modifies `waiting, `ws, `cache, `alive, `nextId, `model, ws, tx, tx.q`next
      ensures Valid() && i' <= |ws| && |ws| - i' < |old(ws)| - i
      ensures packet' == (if i' < |ws| then ws[i'] else null) && prev' == (if i' > 0 then ws[i' - 1] else null)
      ensures Pump(model, i', now, interval, left) == Pump(old(model), i, now, interval, answers)
      ensures forall k :: 0 <= k < |ws| ==> ws[k] in old(ws)
      ensures forall k :: 0 <= k < |tx.q| ==> tx.q[k] in old(tx.q) || tx.q[k] in old(ws) || fresh(tx.q[k])
    {
      hide Valid, Linked, NoDup, Shows, Dropped, Pump;
      DroppedNodes(ws, i);
      var r;
      r, left := Round(prev, packet, i, now, answers);
      ValidFacts();
      if r == Wait {
        LinkedAt(waiting, ws, i);
        prev' := packet;
        packet' := packet.next;
        i' := i + 1;
      } else {
        LinkedAt(waiting, ws, if i > 0 then i - 1 else 0);
        prev' := prev;
        packet' := if prev != null then prev.next else waiting;
        i' := i;
      }
    }

    /** What the pump does to one waiting packet. */
    method Round(prev: Node?, packet: Node, ghost i: nat, now: nat, answers: seq<bool>) returns (r: Result, left: seq<bool>)
      requires Valid() && i < |ws| && packet == ws[i] && prev == (if i > 0 then ws[i - 1] else null)
      modifies `waiting, `ws, `cache, `alive, `nextId, `model, ws`next, packet`p, tx, tx.q`next
      ensures Valid() && ws == (if r == Wait then old(ws) else Dropped(old(ws), i))
      ensures Pump(model, if r == Wait then i + 1 else i, now, interval, left) == Pump(old(model), i, now, interval, answers)
      ensures forall k :: 0 <= k < |tx.q| ==> tx.q[k] in old(tx.q) || tx.q[k] == packet || fresh(tx.q[k])
    {
      hide Valid, Linked, NoDup, Shows, Dropped, Resolve, Pump, Ask;
      ValidFacts();
      ShowsAt(ws, model.waiting, i);
      PumpUnfold(model, i, now, interval, answers);
      var asks;
      r, asks := ResolveAddress(packet.p, now, answers != [] && answers[0]);
      left := if asks && answers != [] then answers[1..] else answers;
      assert forall k :: 0 <= k < |tx.q| ==> tx.q[k] in tx.q && (tx.q[k] in old(tx.q) || fresh(tx.q[k]));
      if r != Wait {
        FinishWaiting(prev, packet, i, r);
      }
    }

    /** A waiting packet is settled: to the transmit queue, or freed. */
    method FinishWaiting(prev: Node?, packet: Node, ghost i: nat, r: Result)
      requires Valid() && i < |ws| && packet == ws[i] && prev == (if i > 0 then ws[i - 1] else null) && r != Wait
      modifies `waiting, `ws, `alive, `model, ws`next, packet`p, tx, tx.q`next
      ensures Valid() && ws == Dropped(old(ws), i) && i < |old(model).waiting|
      ensures var n, p := old(model).(waiting := Dropped(old(model).waiting, i)), old(model).waiting[i];
        model == if r == Okay then n.(tx := n.tx + [p.(mac := true)]) else n.(alive := n.alive - 1)
      ensures forall k :: 0 <= k < |tx.q| ==> tx.q[k] in old(tx.q) || tx.q[k] == packet
    {
      hide Valid, Linked, NoDup, Shows, Dropped;
      TakeOut(prev, packet, i);
      if r == Okay {
        SetMac(packet);
        SendNode(packet, false);
      } else {
        ValidFacts();
        alive := alive - 1;
        model := model.(alive := model.alive - 1);
        ValidAgain();
      }
    }

    /** `net_tx` */
    method Tx(b: Node, now: nat, asked: bool, accepted: bool)
      requires Valid() && b !in ws && b !in tx.q && b.next == null
      modifies `waiting, `ws, `cache, `alive, `nextId, `model, b, tx, tx.q`next
      ensures Valid() && model == Transmit(old(model), old(b.p), now, interval, asked, accepted)
    {
      hide Valid, Linked, NoDup, Shows, Resolve, Ask;
      ValidFacts();
      if !b.p.allowed {
        alive := alive - 1;
        model := model.(alive := model.alive - 1);
        ValidAgain();
        return;
      }
      if b.p.mac {
        SendNode(b, accepted);
        return;
      }
      var r, asks := ResolveAddress(b.p, now, asked);
      assert forall k :: 0 <= k < |tx.q| ==> tx.q[k] in tx.q && (tx.q[k] in old(tx.q) || fresh(tx.q[k]));
      if r == Okay {
        SetMac(b);
        SendNode(b, accepted);
      } else {
        JoinWaiting(b);
      }
    }

    /** A packet joins the waiting list at its head. */
    method JoinWaiting(b: Node)
      requires Valid() && b !in ws && b !in tx.q
      modifies `waiting, `ws, `model, b`next
      ensures Valid() && model == old(model).(waiting := [b.p] + old(model).waiting)
    {
      hide Valid, Linked, NoDup, Shows;
      ValidFacts();
      b.next := waiting;
      waiting := b;
      LinkedCons(b, ws);
      NoDupCons(b, ws);
      ConsShows(b, ws, model.waiting);
      ws := [b] + ws;
      model := model.(waiting := [b.p] + model.waiting);
      ValidAgain();
    }

    /** `net_eth_pull` */
    method Pull() returns (b: Node?)
      requires Valid()
      modifies `model, tx, tx.q`next
      ensures Valid() && (b == null <==> old(model).tx == [])
      ensures b != null ==> b.next == null && b.p == old(model).tx[0] && model == old(model).(tx := old(model).tx[1..])
      ensures b == null ==> model == old(model)
    {
      hide Valid, Linked, NoDup, Shows;
      ValidFacts();
      ShowsAt(tx.q, model.tx, 0);
      if tx.q != [] { TailShows(tx.q, model.tx); }
      b := tx.PopHead();
      if b != null {
        model := model.(tx := model.tx[1..]);
      }
      ValidAgain();
    }
  }

  lemma DroppedNodes(s: seq<Node>, i: nat)
    requires i < |s|
    ensures |Dropped(s, i)| == |s| - 1
    ensures After(s, i, null) == (if i < |s| - 1 then Dropped(s, i)[i] else null)
    ensures i > 0 ==> Dropped(s, i)[i - 1] == s[i - 1]
    ensures forall k :: 0 <= k < |s| - 1 ==> Dropped(s, i)[k] in s
  {
  }

  lemma PumpUnfold(n: Net, i: nat, now: nat, interval: nat, answers: seq<bool>)
    ensures i >= |n.waiting| ==> Pump(n, i, now, interval, answers) == n
    ensures i < |n.waiting| ==>
      var p := n.waiting[i];
      var r := Resolve(n.cache, p, now, interval);
      var n1 := n.(cache := r.cache);
      var n2 := if r.asks then Ask(n1, answers != [] && answers[0]) else n1;
      var rest := if r.asks && answers != [] then answers[1..] else answers;
      n2.waiting == n.waiting &&
      Pump(n, i, now, interval, answers) ==
      match r.result
      case Wait => Pump(n2, i + 1, now, interval, rest)
      case Okay => Pump(n2.(waiting := Dropped(n2.waiting, i), tx := n2.tx + [p.(mac := true)]), i, now, interval, rest)
      case Fail => Pump(n2.(waiting := Dropped(n2.waiting, i), alive := n2.alive - 1), i, now, interval, rest)
  {
    hide Resolve, Dropped;
  }

  lemma QueueNodes(q: seq<Node>, b: Node)
    ensures forall x :: x in q + [b] <==> x in q || x == b
  {
  }
}
