/** The packet layer on values: queues, the list of packets waiting for an address, sinks, and who owns a packet. */
module NetSpec {
  import opened Lists

  const MAX_RESOLVE_ATTEMPTS := 10

  /** What a received packet is matched by; `ip` and `ports` say which headers it has. */
  datatype Keys = Keys(forUs: bool, sumsGood: bool, ethertype: nat, ip: bool, protocol: nat, dstIp: nat, srcIp: nat,
                       ports: bool, dstPort: nat, srcPort: nat)

  /**
   * A packet. `allowed` is false for IPv4 packets without a source address that are not DHCP; `toAll` marks
   * broadcasts, `nexthop` is the routed address, `mac` says that the destination MAC address is set.
   */
  datatype Packet = Packet(id: nat, allowed: bool, toAll: bool, nexthop: nat, mac: bool, keys: Keys)

  datatype Sink = Sink(localIp: nat, ifLocal: bool, remoteIp: nat, localPort: nat, remotePort: nat, ethertype: nat,
                       protocol: nat, queue: seq<Packet>)

  datatype Entry = Entry(ip: nat, valid: bool, attempts: nat, nextEvent: nat)

  /**
   * `hands` are the packets a running callback or the driver holds, `kept` those in a transfer's own queue, `loose` the
   * sinks that are not on the list.
   */
  datatype Net = Net(tx: seq<Packet>, waiting: seq<Packet>, sinks: seq<Sink>, loose: seq<Sink>, hands: seq<Packet>,
                     kept: seq<Packet>, cache: seq<Entry>, alive: int, nextId: nat)

  // ----- owners

  function Ids(s: seq<Packet>): multiset<nat> {
    if s == [] then multiset{} else multiset{s[0].id} + Ids(s[1..])
  }

  function QueueIds(s: seq<Sink>): multiset<nat> {
    if s == [] then multiset{} else Ids(s[0].queue) + QueueIds(s[1..])
  }

  /** The packets of every place, each counted where it is. */
  function Owned(n: Net): multiset<nat> {
    Ids(n.tx) + Ids(n.waiting) + QueueIds(n.sinks) + QueueIds(n.loose) + Ids(n.hands) + Ids(n.kept)
  }

  /** `owned` counts every packet once, and `alive` counts the packets. */
  ghost predicate Fits(owned: multiset<nat>, alive: int, nextId: nat) {
    && alive == |owned|
    && forall id: nat :: owned[id] <= (if id < nextId then 1 else 0)
  }

  /** Every live packet is in exactly one place, and the live count is right. */
  ghost predicate Sound(n: Net) { Fits(Owned(n), n.alive, n.nextId) }

  /** The same while a function has packet `id` in its own variables. */
  ghost predicate SoundWith(n: Net, id: nat) { Fits(Owned(n) + multiset{id}, n.alive, n.nextId) }

  lemma FitsNew(owned: multiset<nat>, alive: int, nextId: nat)
    requires Fits(owned, alive, nextId)
    ensures Fits(owned + multiset{nextId}, alive + 1, nextId + 1)
  {
    var more := owned + multiset{nextId};
    assert |more| == |owned| + |multiset{nextId}| == |owned| + 1;
    forall id: nat ensures more[id] <= (if id < nextId + 1 then 1 else 0) {
      assert more[id] == owned[id] + (if id == nextId then 1 else 0);
    }
  }

  lemma FitsLess(owned: multiset<nat>, x: multiset<nat>, alive: int, nextId: nat)
    requires Fits(owned + x, alive, nextId)
    ensures Fits(owned, alive - |x|, nextId)
  {
    forall id: nat ensures owned[id] <= (if id < nextId then 1 else 0) {
      assert (owned + x)[id] == owned[id] + x[id];
    }
  }

  lemma {:induction false} IdsAdd(a: seq<Packet>, b: seq<Packet>)
    ensures Ids(a + b) == Ids(a) + Ids(b)
  {
    if a == [] {
      assert a + b == b;
    } else {
      assert (a + b)[1..] == a[1..] + b;
      IdsAdd(a[1..], b);
    }
  }

  lemma IdsCons(p: Packet, s: seq<Packet>)
    ensures Ids([p] + s) == multiset{p.id} + Ids(s)
  {
    assert ([p] + s)[1..] == s;
  }

  lemma IdsOne(p: Packet)
    ensures Ids([p]) == multiset{p.id}
  {
  }

  lemma IdsRemove(s: seq<Packet>, i: nat)
    requires i < |s|
    ensures Ids(s) == Ids(Dropped(s, i)) + multiset{s[i].id}
  {
    hide Ids, Dropped;
    var a, b := s[..i], s[i + 1..];
    DroppedSplit(s, i);
    IdsAdd(a, [s[i]] + b);
    IdsCons(s[i], b);
    IdsAdd(a, b);
  }

  lemma {:induction false} QueueIdsAdd(a: seq<Sink>, b: seq<Sink>)
    ensures QueueIds(a + b) == QueueIds(a) + QueueIds(b)
  {
    if a == [] {
      assert a + b == b;
    } else {
      assert (a + b)[1..] == a[1..] + b;
      QueueIdsAdd(a[1..], b);
    }
  }

  lemma QueueIdsCons(k: Sink, s: seq<Sink>)
    ensures QueueIds([k] + s) == Ids(k.queue) + QueueIds(s)
  {
    assert ([k] + s)[1..] == s;
  }

  lemma QueueIdsRemove(s: seq<Sink>, i: nat)
    requires i < |s|
    ensures QueueIds(s) == QueueIds(Dropped(s, i)) + Ids(s[i].queue)
  {
    hide QueueIds, Ids, Dropped;
    var a, b := s[..i], s[i + 1..];
    DroppedSplit(s, i);
    QueueIdsAdd(a, [s[i]] + b);
    QueueIdsCons(s[i], b);
    QueueIdsAdd(a, b);
  }

  lemma QueueIdsUpdate(s: seq<Sink>, i: nat, k: Sink)
    requires i < |s|
    ensures QueueIds(s[i := k]) + Ids(s[i].queue) == QueueIds(s) + Ids(k.queue)
  {
    hide QueueIds, Ids;
    QueueIdsRemove(s, i);
    QueueIdsRemove(s[i := k], i);
    assert Dropped(s[i := k], i) == Dropped(s, i);
  }

  // ----- address resolution

  datatype Result = Okay | Wait | Fail

  function FindEntry(cache: seq<Entry>, ip: nat): (i: nat)
    ensures i <= |cache| && (i < |cache| ==> cache[i].ip == ip) && forall j :: 0 <= j < i ==> cache[j].ip != ip
  {
    if cache == [] || cache[0].ip == ip then 0 else 1 + FindEntry(cache[1..], ip)
  }

  /** A resolution: the new cache, the verdict, and whether a query goes out. */
  datatype Resolved = Resolved(cache: seq<Entry>, result: Result, asks: bool)

  /** `net_arp_resolve` at time `now`, where a query is repeated after `interval`. */
  function Resolve(cache: seq<Entry>, p: Packet, now: nat, interval: nat): Resolved {
    if p.toAll then Resolved(cache, Okay, false)
    else
      var i := FindEntry(cache, p.nexthop);
      if i == |cache| then Resolved([Entry(p.nexthop, false, 1, now + interval)] + cache, Wait, true)
      else if cache[i].valid then Resolved(cache, Okay, false)
      else if cache[i].nextEvent > now then Resolved(cache, Wait, false)
      else if cache[i].attempts >= MAX_RESOLVE_ATTEMPTS then Resolved(cache, Fail, false)
      else
        Resolved(cache[i := cache[i].(attempts := cache[i].attempts + 1, nextEvent := now + interval)], Wait, true)
  }

  /** `update_arp_cache`: what a packet from `ip` says is valid up to time `until`; without an entry it is noted only if
      `add` is set. */
  function Updated(cache: seq<Entry>, ip: nat, add: bool, until: nat): seq<Entry> {
    var i := FindEntry(cache, ip);
    if i < |cache| then cache[i := Entry(ip, true, 0, until)]
    else if add then [Entry(ip, true, 0, until)] + cache
    else cache
  }

  predicate Dead(e: Entry, now: nat) {
    if e.valid then e.nextEvent <= now else e.attempts >= MAX_RESOLVE_ATTEMPTS
  }

  /** `arp_cache_flush` */
  function Unexpired(cache: seq<Entry>, now: nat): (r: seq<Entry>) {
    if cache == [] then []
    else if Dead(cache[0], now) then Unexpired(cache[1..], now)
    else [cache[0]] + Unexpired(cache[1..], now)
  }

  // ----- transmitting

  /** A packet whose MAC address is known is taken by the card or queued. */
  function Send(n: Net, p: Packet, accepted: bool): Net {
    if accepted then n.(alive := n.alive - 1) else n.(tx := n.tx + [p])
  }

  function Query(n: Net): Packet {
    Packet(n.nextId, true, false, 0, true, Keys(false, true, 0x806, false, 0, 0, 0, false, 0, 0))
  }

  /** `arp_transmit_query`: a new packet, its MAC address set, goes through `net_tx`. */
  function Ask(n: Net, accepted: bool): Net {
    Send(n.(alive := n.alive + 1, nextId := n.nextId + 1), Query(n), accepted)
  }

  /** `net_tx` of a packet in nobody's hands any more; `asked` and `accepted` are the card's answers to the query and
      to the packet. */
  function Transmit(n: Net, p: Packet, now: nat, interval: nat, asked: bool, accepted: bool): Net {
    if !p.allowed then n.(alive := n.alive - 1)
    else if p.mac then Send(n, p, accepted)
    else
      var r := Resolve(n.cache, p, now, interval);
      var n1 := n.(cache := r.cache);
      var n2 := if r.asks then Ask(n1, asked) else n1;
      if r.result.Okay? then Send(n2, p.(mac := true), accepted) else n2.(waiting := [p] + n2.waiting)
  }

  /** The queries that `net_arp_resolve` sends re-enter `net_tx`, but never reach its waiting list. */
  lemma QueryLeavesWaiting(n: Net, now: nat, interval: nat, asked: bool, accepted: bool)
    ensures var q := Query(n);
      && Transmit(n, q, now, interval, asked, accepted) == Send(n, q, accepted)
      && Transmit(n, q, now, interval, asked, accepted).waiting == n.waiting
      && Transmit(n, q, now, interval, asked, accepted).cache == n.cache
  {
  }

  /** `net_arp_resolver_pump` from place `i` of the waiting list on; `answers` are the card's answers to queries. */
  function Pump(n: Net, i: nat, now: nat, interval: nat, answers: seq<bool>): Net
    decreases |n.waiting| - i
  {
    if i >= |n.waiting| then n
    else
      var p := n.waiting[i];
      var r := Resolve(n.cache, p, now, interval);
      var n1 := n.(cache := r.cache);
      var n2 := if r.asks then Ask(n1, answers != [] && answers[0]) else n1;
      var rest := if r.asks && answers != [] then answers[1..] else answers;
      match r.result
      case Wait => Pump(n2, i + 1, now, interval, rest)
      case Okay => Pump(n2.(waiting := Dropped(n2.waiting, i), tx := n2.tx + [p.(mac := true)]), i, now, interval, rest)
      case Fail => Pump(n2.(waiting := Dropped(n2.waiting, i), alive := n2.alive - 1), i, now, interval, rest)
  }

  // ----- sinks

  function One(b: bool): nat { if b then 1 else 0 }

  /** `score_sink` */
  function Score(k: Sink): nat {
    One(k.localIp != 0 || k.ifLocal) + One(k.remoteIp != 0) + One(k.localPort != 0) + One(k.remotePort != 0) +
    One(k.ethertype != 0) + One(k.protocol != 0)
  }

  /** The test of `net_eth_push`; `own` is the interface's address. */
  predicate Matches(k: Sink, p: Keys, own: nat) {
    && (k.ethertype == 0 || k.ethertype == p.ethertype)
    && (k.protocol == 0 || (p.ip && k.protocol == p.protocol))
    && (k.localIp == 0 || (p.ip && k.localIp == p.dstIp))
    && (!k.ifLocal || (p.ip && own != 0 && own == p.dstIp))
    && (k.remoteIp == 0 || (p.ip && k.remoteIp == p.srcIp))
    && (k.localPort == 0 || (p.ports && k.localPort == p.dstPort))
    && (k.remotePort == 0 || (p.ports && k.remotePort == p.srcPort))
  }

  /** The most specific sinks come first. */
  ghost predicate Sorted(s: seq<Sink>) { forall i, j :: 0 <= i < j < |s| ==> Score(s[i]) >= Score(s[j]) }

  /** Where `net_add_packet_sink` inserts. */
  function Place(s: seq<Sink>, score: nat): (i: nat)
    ensures i <= |s| && (forall j :: 0 <= j < i ==> Score(s[j]) > score) && (i < |s| ==> Score(s[i]) <= score)
  {
    if s == [] || Score(s[0]) <= score then 0 else 1 + Place(s[1..], score)
  }

  function AddSink(s: seq<Sink>, k: Sink): (t: seq<Sink>) {
    var i := Place(s, Score(k));
    s[..i] + [k] + s[i..]
  }

  lemma AddSinkSorted(s: seq<Sink>, k: Sink)
    requires Sorted(s)
    ensures Sorted(AddSink(s, k)) && |AddSink(s, k)| == |s| + 1
    ensures QueueIds(AddSink(s, k)) == QueueIds(s) + Ids(k.queue)
  {
    hide QueueIds, Ids, Score;
    var i, t := Place(s, Score(k)), AddSink(s, k);
    forall a, b | 0 <= a < b < |t| ensures Score(t[a]) >= Score(t[b]) {
      assert a != i ==> t[a] == s[if a < i then a else a - 1];
      assert b != i ==> t[b] == s[if b < i then b else b - 1];
    }
    assert Dropped(t, i) == s && t[i] == k;
    QueueIdsRemove(t, i);
  }

  lemma RemoveSinkSorted(s: seq<Sink>, i: nat)
    requires Sorted(s) && i < |s|
    ensures Sorted(Dropped(s, i))
  {
    hide Score;
    var t := Dropped(s, i);
    forall a, b | 0 <= a < b < |t| ensures Score(t[a]) >= Score(t[b]) {
      assert t[a] == s[if a < i then a else a + 1] && t[b] == s[if b < i then b else b + 1];
    }
  }

  function FirstMatch(s: seq<Sink>, p: Keys, own: nat): (i: nat)
    ensures i <= |s| && (i < |s| ==> Matches(s[i], p, own)) && forall j :: 0 <= j < i ==> !Matches(s[j], p, own)
  {
    if s == [] || Matches(s[0], p, own) then 0 else 1 + FirstMatch(s[1..], p, own)
  }

  /** A received packet goes to a matching sink that no matching sink surpasses. */
  lemma BestMatch(s: seq<Sink>, p: Keys, own: nat, j: nat)
    requires Sorted(s) && j < |s| && Matches(s[j], p, own)
    ensures var i := FirstMatch(s, p, own);
      i < |s| && Matches(s[i], p, own) && Score(s[i]) >= Score(s[j])
  {
    hide Score;
  }

  // ----- events

  /** `net_eth_push`: the packet goes to a sink or is freed. */
  function Push(n: Net, p: Packet, own: nat): Net {
    var i := FirstMatch(n.sinks, p.keys, own);
    if p.keys.forUs && p.keys.sumsGood && i < |n.sinks| then
      n.(sinks := n.sinks[i := n.sinks[i].(queue := n.sinks[i].queue + [p])])
    else n.(alive := n.alive - 1)
  }

  datatype Event =
    | Alloc(p: Packet)
    | Free(i: nat)
    | Tx(i: nat, now: nat, asked: bool, accepted: bool)
    | Receive(p: Packet)
    | Pull
    | PumpEvent(now: nat, answers: seq<bool>)
    | Deliver(k: nat)
    | Keep(i: nat)
    | Release
    | Attach(k: nat)
    | Detach(k: nat)
    | NewSink(sink: Sink)
    | FreeSink(k: nat)
    | Retarget(k: nat, sink: Sink)
    | Learn(ip: nat, add: bool, until: nat)
    | FlushCache(now: nat)

  predicate Enabled(n: Net, e: Event) {
    match e
    case Free(i) => i < |n.hands|
    case Tx(i, now, asked, accepted) => i < |n.hands|
    case Pull => n.tx != []
    case Deliver(k) => k < |n.sinks| && n.sinks[k].queue != []
    case Keep(i) => i < |n.hands|
    case Release => n.kept != []
    case Attach(k) => k < |n.loose|
    case Detach(k) => k < |n.sinks|
    case NewSink(sink) => sink.queue == []
    case FreeSink(k) => k < |n.loose|
    case Retarget(k, sink) => k < |n.loose|
    case _ => true
  }

  function Next(n: Net, e: Event, interval: nat, own: nat): Net
    requires Enabled(n, e)
  {
    match e
    case Alloc(p) =>
      n.(alive := n.alive + 1, nextId := n.nextId + 1, hands := n.hands + [p.(id := n.nextId)])
    case Free(i) => n.(alive := n.alive - 1, hands := Dropped(n.hands, i))
    case Tx(i, now, asked, accepted) =>
      Transmit(n.(hands := Dropped(n.hands, i)), n.hands[i], now, interval, asked, accepted)
    case Receive(p) => Push(n.(alive := n.alive + 1, nextId := n.nextId + 1), p.(id := n.nextId), own)
    case Pull => n.(tx := n.tx[1..], hands := n.hands + [n.tx[0]])
    case PumpEvent(now, answers) => Pump(n, 0, now, interval, answers)
    case Deliver(k) =>
      var q := n.sinks[k].queue;
      n.(sinks := n.sinks[k := n.sinks[k].(queue := q[1..])], hands := n.hands + [q[0]])
    case Keep(i) => n.(hands := Dropped(n.hands, i), kept := n.kept + [n.hands[i]])
    case Release => n.(kept := n.kept[1..], hands := n.hands + [n.kept[0]])
    case Attach(k) => n.(loose := Dropped(n.loose, k), sinks := AddSink(n.sinks, n.loose[k]))
    case Detach(k) => n.(sinks := Dropped(n.sinks, k), loose := n.loose + [n.sinks[k]])
    case NewSink(sink) => n.(loose := n.loose + [sink])
    case FreeSink(k) => n.(loose := Dropped(n.loose, k), alive := n.alive - |n.loose[k].queue|)
    case Retarget(k, sink) => n.(loose := n.loose[k := sink.(queue := n.loose[k].queue)])
    case Learn(ip, add, until) => n.(cache := Updated(n.cache, ip, add, until))
    case FlushCache(now) => n.(cache := Unexpired(n.cache, now))
  }

  // ----- every step keeps the owners straight

  lemma OwnedTx(n: Net, p: Packet)
    ensures Owned(n.(tx := n.tx + [p])) == Owned(n) + multiset{p.id}
  {
    hide Ids, QueueIds;
    IdsAdd(n.tx, [p]);
    IdsOne(p);
  }

  lemma OwnedWaiting(n: Net, p: Packet)
    ensures Owned(n.(waiting := [p] + n.waiting)) == Owned(n) + multiset{p.id}
  {
    hide Ids, QueueIds;
    IdsCons(p, n.waiting);
  }

  lemma OwnedHands(n: Net, p: Packet)
    ensures Owned(n.(hands := n.hands + [p])) == Owned(n) + multiset{p.id}
  {
    hide Ids, QueueIds;
    IdsAdd(n.hands, [p]);
    IdsOne(p);
  }

  lemma OwnedKept(n: Net, p: Packet)
    ensures Owned(n.(kept := n.kept + [p])) == Owned(n) + multiset{p.id}
  {
    hide Ids, QueueIds;
    IdsAdd(n.kept, [p]);
    IdsOne(p);
  }

  lemma OwnedDrop(n: Net, i: nat)
    ensures i < |n.hands| ==> Owned(n) == Owned(n.(hands := Dropped(n.hands, i))) + multiset{n.hands[i].id}
    ensures i < |n.waiting| ==> Owned(n) == Owned(n.(waiting := Dropped(n.waiting, i))) + multiset{n.waiting[i].id}
  {
    hide Ids, QueueIds;
    if i < |n.hands| { IdsRemove(n.hands, i); }
    if i < |n.waiting| { IdsRemove(n.waiting, i); }
  }

  lemma SendKeeps(n: Net, p: Packet, accepted: bool)
    requires SoundWith(n, p.id)
    ensures Sound(Send(n, p, accepted))
  {
    hide Owned, Fits;
    if accepted {
      FitsLess(Owned(n), multiset{p.id}, n.alive, n.nextId);
      SameOwners(n, n.(alive := n.alive - 1));
    } else {
      OwnedTx(n, p);
    }
  }

  lemma SameOwners(n: Net, m: Net)
    requires m == n.(alive := m.alive, nextId := m.nextId, cache := m.cache)
    ensures Owned(m) == Owned(n)
  {
  }

  lemma AskKeeps(n: Net, p: Packet, accepted: bool)
    ensures Sound(n) ==> Sound(Ask(n, accepted))
    ensures SoundWith(n, p.id) ==> SoundWith(Ask(n, accepted), p.id)
  {
    hide Owned, Fits;
    var m := n.(alive := n.alive + 1, nextId := n.nextId + 1);
    SameOwners(n, m);
    SameOwners(m, m.(alive := m.alive - 1));
    OwnedTx(m, Query(n));
    if Sound(n) {
      FitsNew(Owned(n), n.alive, n.nextId);
      FitsLess(Owned(n), multiset{n.nextId}, n.alive + 1, n.nextId + 1);
    }
    if SoundWith(n, p.id) {
      var o := Owned(n) + multiset{p.id};
      FitsNew(o, n.alive, n.nextId);
      assert Owned(n) + multiset{n.nextId} + multiset{p.id} == o + multiset{n.nextId};
      FitsLess(o, multiset{n.nextId}, n.alive + 1, n.nextId + 1);
    }
  }

  lemma TransmitKeeps(n: Net, p: Packet, now: nat, interval: nat, asked: bool, accepted: bool)
    requires SoundWith(n, p.id)
    ensures Sound(Transmit(n, p, now, interval, asked, accepted))
  {
    hide Owned, Fits, Send, Ask, Resolve;
    if !p.allowed {
      FitsLess(Owned(n), multiset{p.id}, n.alive, n.nextId);
      SameOwners(n, n.(alive := n.alive - 1));
    } else if p.mac {
      SendKeeps(n, p, accepted);
    } else {
      var r := Resolve(n.cache, p, now, interval);
      var n1 := n.(cache := r.cache);
      SameOwners(n, n1);
      var n2 := if r.asks then Ask(n1, asked) else n1;
      if r.asks { AskKeeps(n1, p, asked); }
      if r.result.Okay? {
        SendKeeps(n2, p.(mac := true), accepted);
      } else {
        OwnedWaiting(n2, p);
      }
    }
  }

  lemma {:induction false} PumpKeeps(n: Net, i: nat, now: nat, interval: nat, answers: seq<bool>)
    requires Sound(n)
    ensures Sound(Pump(n, i, now, interval, answers))
    decreases |n.waiting| - i
  {
    hide Owned, Fits, Ask, Resolve, Dropped;
    if i < |n.waiting| {
      var p := n.waiting[i];
      var r := Resolve(n.cache, p, now, interval);
      var n1 := n.(cache := r.cache);
      SameOwners(n, n1);
      var a := answers != [] && answers[0];
      AskWaiting(n1, a);
      AskKeeps(n1, p, a);
      var n2 := if r.asks then Ask(n1, a) else n1;
      var rest := if r.asks && answers != [] then answers[1..] else answers;
      RemoveLength(n2.waiting, i);
      OwnedDrop(n2, i);
      var cut := n2.(waiting := Dropped(n2.waiting, i));
      match r.result
      case Wait => PumpKeeps(n2, i + 1, now, interval, rest);
      case Okay =>
        OwnedTx(cut, p.(mac := true));
        PumpKeeps(n2.(waiting := Dropped(n2.waiting, i), tx := n2.tx + [p.(mac := true)]), i, now, interval, rest);
      case Fail =>
        FitsLess(Owned(cut), multiset{p.id}, n2.alive, n2.nextId);
        SameOwners(cut, cut.(alive := n2.alive - 1));
        PumpKeeps(n2.(waiting := Dropped(n2.waiting, i), alive := n2.alive - 1), i, now, interval, rest);
    }
  }

  lemma AskWaiting(n: Net, accepted: bool)
    ensures Ask(n, accepted).waiting == n.waiting && Ask(n, accepted).cache == n.cache
  {
  }

  lemma RemoveLength<T>(s: seq<T>, i: nat)
    ensures i < |s| ==> |Dropped(s, i)| == |s| - 1
  {
  }

  lemma PushKeeps(n: Net, p: Packet, own: nat)
    requires SoundWith(n, p.id)
    ensures Sound(Push(n, p, own)) && (Sorted(n.sinks) ==> Sorted(Push(n, p, own).sinks))
  {
    hide Owned, Fits, Ids, QueueIds, Score;
    var i := FirstMatch(n.sinks, p.keys, own);
    if p.keys.forUs && p.keys.sumsGood && i < |n.sinks| {
      var k := n.sinks[i].(queue := n.sinks[i].queue + [p]);
      OwnedSinkUpdate(n, i, k);
      IdsAdd(n.sinks[i].queue, [p]);
      IdsOne(p);
      MoveIds(Owned(Push(n, p, own)), Ids(n.sinks[i].queue), Owned(n), multiset{p.id});
      SameScore(n.sinks, i, k);
    } else {
      FitsLess(Owned(n), multiset{p.id}, n.alive, n.nextId);
      SameOwners(n, n.(alive := n.alive - 1));
    }
  }

  lemma MoveIds(a: multiset<nat>, q: multiset<nat>, b: multiset<nat>, x: multiset<nat>)
    requires a + q == b + (q + x)
    ensures a == b + x
  {
    forall id: nat ensures a[id] == (b + x)[id] {
      assert (a + q)[id] == a[id] + q[id] && (b + (q + x))[id] == b[id] + q[id] + x[id];
    }
  }

  lemma OwnedSinkUpdate(n: Net, i: nat, k: Sink)
    requires i < |n.sinks|
    ensures Owned(n.(sinks := n.sinks[i := k])) + Ids(n.sinks[i].queue) == Owned(n) + Ids(k.queue)
  {
    hide Ids, QueueIds;
    QueueIdsUpdate(n.sinks, i, k);
    Exchange(Ids(n.tx) + Ids(n.waiting), QueueIds(n.sinks[i := k]), QueueIds(n.sinks), QueueIds(n.loose), Ids(n.hands),
             Ids(n.kept), Ids(n.sinks[i].queue), Ids(k.queue));
  }

  lemma Exchange(a: multiset<nat>, s: multiset<nat>, t: multiset<nat>, b: multiset<nat>, c: multiset<nat>, d: multiset<nat>,
      q: multiset<nat>, r: multiset<nat>)
    requires s + q == t + r
    ensures a + s + b + c + d + q == a + t + b + c + d + r
  {
    forall id: nat ensures (a + s + b + c + d + q)[id] == (a + t + b + c + d + r)[id] {
      assert (s + q)[id] == s[id] + q[id] && (t + r)[id] == t[id] + r[id];
    }
  }

  lemma SameScore(s: seq<Sink>, i: nat, k: Sink)
    requires i < |s| && k == s[i].(queue := k.queue)
    ensures Sorted(s) ==> Sorted(s[i := k])
  {
    hide Score;
    assert Score(k) == Score(s[i]) by { ScoreIgnoresQueue(s[i], k); }
  }

  lemma ScoreIgnoresQueue(a: Sink, b: Sink)
    requires b == a.(queue := b.queue)
    ensures Score(a) == Score(b)
  {
  }

  lemma PopTx(n: Net)
    requires n.tx != []
    ensures Owned(n.(tx := n.tx[1..], hands := n.hands + [n.tx[0]])) == Owned(n)
  {
    hide Ids, QueueIds;
    assert n.tx == [n.tx[0]] + n.tx[1..];
    IdsCons(n.tx[0], n.tx[1..]);
    OwnedHands(n.(tx := n.tx[1..]), n.tx[0]);
  }

  lemma PopKept(n: Net)
    requires n.kept != []
    ensures Owned(n.(kept := n.kept[1..], hands := n.hands + [n.kept[0]])) == Owned(n)
  {
    hide Ids, QueueIds;
    assert n.kept == [n.kept[0]] + n.kept[1..];
    IdsCons(n.kept[0], n.kept[1..]);
    OwnedHands(n.(kept := n.kept[1..]), n.kept[0]);
  }

  lemma PopSink(n: Net, i: nat)
    requires i < |n.sinks| && n.sinks[i].queue != []
    ensures var q := n.sinks[i].queue;
      Owned(n.(sinks := n.sinks[i := n.sinks[i].(queue := q[1..])], hands := n.hands + [q[0]])) == Owned(n)
  {
    hide Ids, QueueIds, Owned;
    var q := n.sinks[i].queue;
    var k := n.sinks[i].(queue := q[1..]);
    assert q == [q[0]] + q[1..];
    IdsCons(q[0], q[1..]);
    OwnedSinkUpdate(n, i, k);
    var m := n.(sinks := n.sinks[i := k]);
    OwnedHands(m, q[0]);
    MoveBack(Owned(m), Ids(q[1..]), Owned(n), multiset{q[0].id});
  }

  lemma MoveBack(a: multiset<nat>, r: multiset<nat>, b: multiset<nat>, x: multiset<nat>)
    requires a + (x + r) == b + r
    ensures a + x == b
  {
    forall id: nat ensures (a + x)[id] == b[id] {
      assert (a + (x + r))[id] == a[id] + x[id] + r[id] && (b + r)[id] == b[id] + r[id];
    }
  }

  lemma MoveSink(n: Net, k: nat)
    ensures k < |n.loose| ==>
      Owned(n.(loose := Dropped(n.loose, k), sinks := AddSink(n.sinks, n.loose[k]))) == Owned(n)
    ensures k < |n.sinks| ==>
      Owned(n.(sinks := Dropped(n.sinks, k), loose := n.loose + [n.sinks[k]])) == Owned(n)
    ensures k < |n.loose| ==> Owned(n.(loose := Dropped(n.loose, k))) + Ids(n.loose[k].queue) == Owned(n)
  {
    hide Ids, QueueIds, AddSink;
    if k < |n.loose| {
      QueueIdsRemove(n.loose, k);
      AddSinkIds(n.sinks, n.loose[k]);
    }
    if k < |n.sinks| {
      QueueIdsRemove(n.sinks, k);
      QueueIdsAdd(n.loose, [n.sinks[k]]);
      QueueIdsOne(n.sinks[k]);
    }
  }

  lemma QueueIdsOne(k: Sink)
    ensures QueueIds([k]) == Ids(k.queue)
  {
  }

  lemma AddSinkIds(s: seq<Sink>, k: Sink)
    ensures QueueIds(AddSink(s, k)) == QueueIds(s) + Ids(k.queue)
  {
    hide QueueIds, Ids, Score;
    var i, t := Place(s, Score(k)), AddSink(s, k);
    assert Dropped(t, i) == s && t[i] == k;
    QueueIdsRemove(t, i);
  }

  lemma {:induction false} IdsCount(s: seq<Packet>)
    ensures |Ids(s)| == |s|
  {
    if s != [] { IdsCount(s[1..]); }
  }

  /** The invariant over all runs: ownership, and the sinks in order. */
  ghost predicate Inv(n: Net) { Sound(n) && Sorted(n.sinks) }

  lemma StepSound(n: Net, e: Event, interval: nat, own: nat)
    requires Sound(n) && Enabled(n, e)
    ensures Sound(Next(n, e, interval, own))
  {
    hide Owned, Fits, Transmit, Pump, Push, Ids, Dropped, AddSink;
    match e
    case Alloc(p) =>
      FitsNew(Owned(n), n.alive, n.nextId);
      var m := n.(alive := n.alive + 1, nextId := n.nextId + 1);
      SameOwners(n, m);
      OwnedHands(m, p.(id := n.nextId));
    case Free(i) =>
      OwnedDrop(n, i);
      var m := n.(hands := Dropped(n.hands, i));
      FitsLess(Owned(m), multiset{n.hands[i].id}, n.alive, n.nextId);
      SameOwners(m, m.(alive := n.alive - 1));
    case Tx(i, now, asked, accepted) =>
      OwnedDrop(n, i);
      TransmitKeeps(n.(hands := Dropped(n.hands, i)), n.hands[i], now, interval, asked, accepted);
    case Receive(p) =>
      FitsNew(Owned(n), n.alive, n.nextId);
      var m := n.(alive := n.alive + 1, nextId := n.nextId + 1);
      SameOwners(n, m);
      PushKeeps(m, p.(id := n.nextId), own);
    case Pull => PopTx(n);
    case PumpEvent(now, answers) => PumpKeeps(n, 0, now, interval, answers);
    case Deliver(k) => PopSink(n, k);
    case Keep(i) =>
      OwnedDrop(n, i);
      OwnedKept(n.(hands := Dropped(n.hands, i)), n.hands[i]);
    case Release => PopKept(n);
    case Attach(k) => MoveSink(n, k);
    case Detach(k) => MoveSink(n, k);
    case NewSink(sink) => NewSinkOwns(n, sink);
    case FreeSink(k) =>
      MoveSink(n, k);
      var m := n.(loose := Dropped(n.loose, k));
      FitsLess(Owned(m), Ids(n.loose[k].queue), n.alive, n.nextId);
      IdsCount(n.loose[k].queue);
      SameOwners(m, m.(alive := n.alive - |n.loose[k].queue|));
    case Retarget(k, sink) => RetargetOwns(n, k, sink.(queue := n.loose[k].queue));
    case Learn(ip, add, until) => SameOwners(n, n.(cache := Updated(n.cache, ip, add, until)));
    case FlushCache(now) => SameOwners(n, n.(cache := Unexpired(n.cache, now)));
  }

  /** A detached sink may change what it matches; it keeps its packets. */
  lemma RetargetOwns(n: Net, k: nat, sink: Sink)
    requires k < |n.loose| && sink.queue == n.loose[k].queue
    ensures Owned(n.(loose := n.loose[k := sink])) == Owned(n)
  {
    hide Ids, QueueIds;
    var q := Ids(sink.queue);
    QueueIdsUpdate(n.loose, k, sink);
    MoveBack(QueueIds(n.loose[k := sink]), q, QueueIds(n.loose), multiset{});
  }

  lemma NewSinkOwns(n: Net, k: Sink)
    requires k.queue == []
    ensures Owned(n.(loose := n.loose + [k])) == Owned(n)
  {
    QueueIdsAdd(n.loose, [k]);
    QueueIdsOne(k);
    assert QueueIds(n.loose + [k]) == QueueIds(n.loose) + multiset{} == QueueIds(n.loose);
  }

  lemma {:induction false} PumpSinks(n: Net, i: nat, now: nat, interval: nat, answers: seq<bool>)
    ensures Pump(n, i, now, interval, answers).sinks == n.sinks
    decreases |n.waiting| - i
  {
    if i < |n.waiting| {
      var p := n.waiting[i];
      var r := Resolve(n.cache, p, now, interval);
      var n1 := n.(cache := r.cache);
      var n2 := if r.asks then Ask(n1, answers != [] && answers[0]) else n1;
      var rest := if r.asks && answers != [] then answers[1..] else answers;
      match r.result
      case Wait => PumpSinks(n2, i + 1, now, interval, rest);
      case Okay => PumpSinks(n2.(waiting := Dropped(n2.waiting, i), tx := n2.tx + [p.(mac := true)]), i, now, interval, rest);
      case Fail => PumpSinks(n2.(waiting := Dropped(n2.waiting, i), alive := n2.alive - 1), i, now, interval, rest);
    }
  }

  lemma StepSorted(n: Net, e: Event, interval: nat, own: nat)
    requires Sorted(n.sinks) && Enabled(n, e)
    ensures Sorted(Next(n, e, interval, own).sinks)
  {
    hide Score, Pump;
    match e
    case Receive(p) =>
      var i := FirstMatch(n.sinks, p.keys, own);
      if i < |n.sinks| {
        SameScore(n.sinks, i, n.sinks[i].(queue := n.sinks[i].queue + [p.(id := n.nextId)]));
      }
    case Deliver(k) => SameScore(n.sinks, k, n.sinks[k].(queue := n.sinks[k].queue[1..]));
    case PumpEvent(now, answers) => PumpSinks(n, 0, now, interval, answers);
    case Attach(k) => AddSinkSorted(n.sinks, n.loose[k]);
    case Detach(k) => RemoveSinkSorted(n.sinks, k);
    case _ =>
  }

  ghost predicate Possible(n: Net, events: seq<Event>, interval: nat, own: nat)
    decreases |events|
  {
    events != [] ==> Enabled(n, events[0]) && Possible(Next(n, events[0], interval, own), events[1..], interval, own)
  }

  function Run(n: Net, events: seq<Event>, interval: nat, own: nat): Net
    requires Possible(n, events, interval, own)
    decreases |events|
  {
    if events == [] then n else Run(Next(n, events[0], interval, own), events[1..], interval, own)
  }

  /**
   * Over every run of transmissions, receptions, pumping, callbacks and changes to the sinks, each live packet is in
   * exactly one place and `alive` is their number; the sinks stay in order of their scores.
   */
  lemma {:induction false} RunKeeps(n: Net, events: seq<Event>, interval: nat, own: nat)
    requires Inv(n) && Possible(n, events, interval, own)
    ensures Inv(Run(n, events, interval, own))
    decreases |events|
  {
    hide Sound, Sorted, Next, Enabled;
    if events != [] {
      StepSound(n, events[0], interval, own);
      StepSorted(n, events[0], interval, own);
      RunKeeps(Next(n, events[0], interval, own), events[1..], interval, own);
    }
  }

  /** A packet for another station, with a bad checksum or that no sink matches changes nothing; it is freed at once. */
  lemma RefusedChangesNothing(n: Net, p: Packet, interval: nat, own: nat)
    requires !p.keys.forUs || !p.keys.sumsGood || forall j :: 0 <= j < |n.sinks| ==> !Matches(n.sinks[j], p.keys, own)
    ensures Next(n, Receive(p), interval, own) == n.(nextId := n.nextId + 1)
  {
    hide Matches;
  }

  /** In every run a received packet that some sink matches goes to the tail of a best one. */
  lemma ReceivedByBest(n: Net, events: seq<Event>, interval: nat, own: nat, p: Packet, j: nat)
    requires Inv(n) && Possible(n, events, interval, own)
    requires var m := Run(n, events, interval, own);
      p.keys.forUs && p.keys.sumsGood && j < |m.sinks| && Matches(m.sinks[j], p.keys, own)
    ensures var m := Run(n, events, interval, own);
      var i, m' := FirstMatch(m.sinks, p.keys, own), Next(m, Receive(p), interval, own);
      && i < |m.sinks| == |m'.sinks| && Matches(m.sinks[i], p.keys, own) && Score(m.sinks[i]) >= Score(m.sinks[j])
      && m'.sinks[i].queue == m.sinks[i].queue + [p.(id := m.nextId)]
      && m'.alive == m.alive + 1
      && m' == m.(sinks := m'.sinks, alive := m'.alive, nextId := m'.nextId)
      && forall k :: 0 <= k < |m.sinks| && k != i ==> m'.sinks[k] == m.sinks[k]
  {
    hide Score, Matches, Sound;
    RunKeeps(n, events, interval, own);
    BestMatch(Run(n, events, interval, own).sinks, p.keys, own, j);
  }
}
