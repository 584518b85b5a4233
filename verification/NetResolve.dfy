/** Address resolution over whole runs: when a packet leaves, when it waits and when it is given up. */
module NetResolve {
  import opened Lists
  import opened NetSpec

  // ----- what becomes of a packet

  /** Some entry says where `ip` is. */
  ghost predicate Known(cache: seq<Entry>, ip: nat) {
    exists i :: 0 <= i < |cache| && cache[i].ip == ip && cache[i].valid
  }

  /** The cache has one entry per address. */
  ghost predicate Distinct(cache: seq<Entry>) {
    forall i, j :: 0 <= i < j < |cache| ==> cache[i].ip != cache[j].ip
  }

  /** The verdict on a packet with nothing sent: broadcasts and known addresses are fine, an address asked for too often
      without an answer is given up. */
  function Verdict(cache: seq<Entry>, p: Packet, now: nat): Result {
    if p.toAll then Okay
    else
      var i := FindEntry(cache, p.nexthop);
      if i == |cache| then Wait
      else if cache[i].valid then Okay
      else if cache[i].nextEvent <= now && cache[i].attempts >= MAX_RESOLVE_ATTEMPTS then Fail
      else Wait
  }

  lemma VerdictIs(cache: seq<Entry>, p: Packet, now: nat, interval: nat)
    requires Distinct(cache)
    ensures Resolve(cache, p, now, interval).result == Verdict(cache, p, now)
    ensures Verdict(cache, p, now).Okay? <==> p.toAll || Known(cache, p.nexthop)
  {
    var i := FindEntry(cache, p.nexthop);
    if Known(cache, p.nexthop) {
      var j :| 0 <= j < |cache| && cache[j].ip == p.nexthop && cache[j].valid;
      assert i == j;
    }
  }

  lemma {:induction false} FindEntryIs(s: seq<Entry>, ip: nat, k: nat)
    requires k <= |s| && (k < |s| ==> s[k].ip == ip) && forall j :: 0 <= j < k ==> s[j].ip != ip
    ensures FindEntry(s, ip) == k
  {
  }

  /** Resolving one packet does not change the verdict on another at the same time. */
  lemma VerdictStays(cache: seq<Entry>, q: Packet, p: Packet, now: nat, interval: nat)
    requires interval > 0
    ensures Verdict(Resolve(cache, q, now, interval).cache, p, now) == Verdict(cache, p, now)
  {
    var i, c := FindEntry(cache, p.nexthop), Resolve(cache, q, now, interval).cache;
    if |c| == |cache| {
      FindEntryIs(c, p.nexthop, i);
    } else {
      assert forall j :: 0 <= j < |cache| ==> c[j + 1] == cache[j];
      FindEntryIs(c, p.nexthop, if q.nexthop == p.nexthop then 0 else i + 1);
    }
  }

  /** The packets that go on waiting. */
  function Waiting(s: seq<Packet>, cache: seq<Entry>, now: nat): seq<Packet> {
    if s == [] then []
    else if Verdict(cache, s[0], now).Wait? then [s[0]] + Waiting(s[1..], cache, now)
    else Waiting(s[1..], cache, now)
  }

  lemma WaitingNext(s: seq<Packet>, i: nat, cache: seq<Entry>, now: nat)
    requires i < |s|
    ensures Waiting(s[i..], cache, now) ==
      (if Verdict(cache, s[i], now).Wait? then [s[i]] else []) + Waiting(s[i + 1..], cache, now)
  {
    assert s[i..][0] == s[i] && s[i..][1..] == s[i + 1..];
  }

  lemma {:induction false} WaitingSame(s: seq<Packet>, c: seq<Entry>, c': seq<Entry>, now: nat)
    requires forall p :: p in s ==> Verdict(c', p, now) == Verdict(c, p, now)
    ensures Waiting(s, c', now) == Waiting(s, c, now)
  {
    hide Verdict;
    if s != [] {
      WaitingSame(s[1..], c, c', now);
    }
  }

  /** A query, addressed to everyone, with its MAC address set. */
  predicate AsQuery(x: Packet) { x.mac && x.keys.ethertype == 0x806 }

  /** `x` leaves as `p` with its MAC address set. */
  ghost predicate LeavesAs(s: seq<Packet>, cache: seq<Entry>, now: nat, x: Packet) {
    exists p :: p in s && Verdict(cache, p, now).Okay? && x == p.(mac := true)
  }

  /** What the resolver makes of the packets from place `i` on. */
  ghost predicate Fated(n: Net, m: Net, i: nat, now: nat)
    requires i <= |n.waiting|
  {
    && m.waiting == n.waiting[..i] + Waiting(n.waiting[i..], n.cache, now)
    && (forall x :: x in n.tx ==> x in m.tx)
    && (forall p :: p in n.waiting[i..] && Verdict(n.cache, p, now).Okay? ==> p.(mac := true) in m.tx)
    && (forall x :: x in m.tx ==> x in n.tx || AsQuery(x) || LeavesAs(n.waiting[i..], n.cache, now, x))
  }

  /** One round of the pump, up to the next packet looked at. */
  function Round(n: Net, i: nat, now: nat, interval: nat, answers: seq<bool>): Net
    requires i < |n.waiting|
  {
    var p := n.waiting[i];
    var r := Resolve(n.cache, p, now, interval);
    var n1 := n.(cache := r.cache);
    var n2 := if r.asks then Ask(n1, answers != [] && answers[0]) else n1;
    match r.result
    case Wait => n2
    case Okay => n2.(waiting := Dropped(n2.waiting, i), tx := n2.tx + [p.(mac := true)])
    case Fail => n2.(waiting := Dropped(n2.waiting, i), alive := n2.alive - 1)
  }

  lemma PumpRound(n: Net, i: nat, now: nat, interval: nat, answers: seq<bool>)
    requires i < |n.waiting|
    ensures var r := Resolve(n.cache, n.waiting[i], now, interval);
      Pump(n, i, now, interval, answers) ==
      Pump(Round(n, i, now, interval, answers), if r.result.Wait? then i + 1 else i, now, interval,
           if r.asks && answers != [] then answers[1..] else answers)
  {
    hide Resolve, Ask;
  }

  /** What one round does to the lists. */
  lemma RoundIs(n: Net, i: nat, now: nat, interval: nat, answers: seq<bool>)
    requires i < |n.waiting| && interval > 0 && Distinct(n.cache)
    ensures var p, m := n.waiting[i], Round(n, i, now, interval, answers);
      && m.waiting == (if Verdict(n.cache, p, now).Wait? then n.waiting else Dropped(n.waiting, i))
      && (forall x :: x in n.tx ==> x in m.tx)
      && (Verdict(n.cache, p, now).Okay? ==> p.(mac := true) in m.tx)
      && (forall x :: x in m.tx ==> x in n.tx || AsQuery(x) || (Verdict(n.cache, p, now).Okay? && x == p.(mac := true)))
      && m.cache == Resolve(n.cache, p, now, interval).cache && Distinct(m.cache)
  {
    hide Verdict, Dropped;
    VerdictIs(n.cache, n.waiting[i], now, interval);
    ResolveDistinct(n.cache, n.waiting[i], now, interval);
  }

  lemma ResolveDistinct(cache: seq<Entry>, p: Packet, now: nat, interval: nat)
    requires Distinct(cache)
    ensures Distinct(Resolve(cache, p, now, interval).cache)
  {
  }

  /**
   * The resolver pump: the packets whose address is still being asked for go on waiting, in their order; those for
   * everyone or for a known address are queued with the address set; those given up are in neither place. Nothing else
   * is queued but queries.
   */
  lemma {:induction false} PumpFate(n: Net, i: nat, now: nat, interval: nat, answers: seq<bool>)
    requires interval > 0 && Distinct(n.cache) && i <= |n.waiting|
    ensures Fated(n, Pump(n, i, now, interval, answers), i, now)
    decreases |n.waiting| - i
  {
    hide Verdict, Resolve, Dropped, Round, Waiting, AsQuery, LeavesAs, Ask, Distinct;
    if i == |n.waiting| {
      NoneWaiting(n.cache, now);
      assert n.waiting[i..] == [] && n.waiting[..i] == n.waiting;
    } else {
      var p := n.waiting[i];
      var r := Resolve(n.cache, p, now, interval);
      var rest := if r.asks && answers != [] then answers[1..] else answers;
      var m := Round(n, i, now, interval, answers);
      PumpRound(n, i, now, interval, answers);
      RoundIs(n, i, now, interval, answers);
      VerdictIs(n.cache, p, now, interval);
      DroppedSplit(n.waiting, i);
      PumpFate(m, if r.result.Wait? then i + 1 else i, now, interval, rest);
      FateOn(n, m, Pump(n, i, now, interval, answers), i, now, interval);
    }
  }

  lemma NoneWaiting(cache: seq<Entry>, now: nat)
    ensures Waiting([], cache, now) == []
  {
  }

  /** What `RoundIs` says of a round. */
  ghost predicate Rounded(n: Net, m: Net, i: nat, now: nat, interval: nat)
    requires i < |n.waiting|
  {
    var p := n.waiting[i];
    && m.waiting == (if Verdict(n.cache, p, now).Wait? then n.waiting else Dropped(n.waiting, i))
    && (forall x :: x in n.tx ==> x in m.tx)
    && (Verdict(n.cache, p, now).Okay? ==> p.(mac := true) in m.tx)
    && (forall x :: x in m.tx ==> x in n.tx || AsQuery(x) || (Verdict(n.cache, p, now).Okay? && x == p.(mac := true)))
    && m.cache == Resolve(n.cache, p, now, interval).cache
  }

  lemma FateOn(n: Net, m: Net, t: Net, i: nat, now: nat, interval: nat)
    requires interval > 0 && i < |n.waiting| && Rounded(n, m, i, now, interval)
    requires var k := if Verdict(n.cache, n.waiting[i], now).Wait? then i + 1 else i;
      k <= |m.waiting| && Fated(m, t, k, now)
    ensures Fated(n, t, i, now)
  {
    hide Verdict, Resolve, Waiting, AsQuery, Dropped, LeavesAs;
    var p, after := n.waiting[i], n.waiting[i + 1..];
    var k := if Verdict(n.cache, p, now).Wait? then i + 1 else i;
    FateRest(n, m, i, now, interval);
    WaitingSame(after, n.cache, m.cache, now);
    WaitingNext(n.waiting, i, n.cache, now);
    assert t.waiting == m.waiting[..k] + Waiting(after, m.cache, now);
    FateLeaves(n, m, t, i, now, interval);
  }

  /** What is left to look at, and that the round has not changed the verdicts. */
  lemma FateRest(n: Net, m: Net, i: nat, now: nat, interval: nat)
    requires interval > 0 && i < |n.waiting| && Rounded(n, m, i, now, interval)
    ensures var p, k := n.waiting[i], if Verdict(n.cache, n.waiting[i], now).Wait? then i + 1 else i;
      && k <= |m.waiting| && m.waiting[k..] == n.waiting[i + 1..]
      && m.waiting[..k] == n.waiting[..i] + (if Verdict(n.cache, p, now).Wait? then [p] else [])
      && n.waiting[i..] == [p] + n.waiting[i + 1..]
    ensures forall q :: Verdict(m.cache, q, now) == Verdict(n.cache, q, now)
  {
    hide Verdict, Resolve, AsQuery, Dropped;
    DroppedSplit(n.waiting, i);
    forall q ensures Verdict(m.cache, q, now) == Verdict(n.cache, q, now) {
      VerdictStays(n.cache, n.waiting[i], q, now, interval);
    }
  }

  lemma FateLeaves(n: Net, m: Net, t: Net, i: nat, now: nat, interval: nat)
    requires interval > 0 && i < |n.waiting| && Rounded(n, m, i, now, interval)
    requires var k := if Verdict(n.cache, n.waiting[i], now).Wait? then i + 1 else i;
      k <= |m.waiting| && Fated(m, t, k, now)
    ensures forall p :: p in n.waiting[i..] && Verdict(n.cache, p, now).Okay? ==> p.(mac := true) in t.tx
    ensures forall x :: x in t.tx ==> x in n.tx || AsQuery(x) || LeavesAs(n.waiting[i..], n.cache, now, x)
  {
    hide Verdict, Resolve, Waiting, AsQuery, Dropped;
    FateRest(n, m, i, now, interval);
    var p, after := n.waiting[i], n.waiting[i + 1..];
    forall x | x in t.tx
      ensures x in n.tx || AsQuery(x) || LeavesAs(n.waiting[i..], n.cache, now, x)
    {
      if x !in m.tx && !AsQuery(x) {
        assert LeavesAs(after, m.cache, now, x);
        var q :| q in after && Verdict(m.cache, q, now).Okay? && x == q.(mac := true);
        assert q in n.waiting[i..];
      } else if x in m.tx && x !in n.tx && !AsQuery(x) {
        assert p in n.waiting[i..];
      }
    }
  }

  /**
   * `net_tx`: a packet that may not be sent is freed; one whose address is set or known, or that is for everyone, goes to
   * the card or, with the address set, to the end of the transmit queue; any other waits. Nothing else is queued but a
   * query.
   */
  lemma TransmitFate(n: Net, p: Packet, now: nat, interval: nat, asked: bool, accepted: bool)
    requires Distinct(n.cache)
    ensures var m := Transmit(n, p, now, interval, asked, accepted);
      && (!p.allowed ==> m == n.(alive := n.alive - 1))
      && (p.allowed ==>
          if p.mac || p.toAll || Known(n.cache, p.nexthop) then
            m == if accepted then n.(alive := n.alive - 1) else n.(tx := n.tx + [p.(mac := true)])
          else
            && m.waiting == [p] + n.waiting
            && (m.tx == n.tx || exists q :: AsQuery(q) && m.tx == n.tx + [q]))
  {
    VerdictIs(n.cache, p, now, interval);
    if p.allowed && !p.mac {
      var n1 := n.(cache := Resolve(n.cache, p, now, interval).cache);
      assert AsQuery(Query(n1));
    }
  }

  // ----- the queries of a run

  /** A query for an address, and when it was sent. */
  datatype Asked = Asked(ip: nat, at: nat)

  function AskOf(cache: seq<Entry>, p: Packet, now: nat, interval: nat): seq<Asked> {
    if Resolve(cache, p, now, interval).asks then [Asked(p.nexthop, now)] else []
  }

  function PumpAsks(n: Net, i: nat, now: nat, interval: nat, answers: seq<bool>): seq<Asked>
    decreases |n.waiting| - i
  {
    if i >= |n.waiting| then []
    else
      var r := Resolve(n.cache, n.waiting[i], now, interval);
      RoundShrinks(n, i, now, interval, answers);
      AskOf(n.cache, n.waiting[i], now, interval) +
      PumpAsks(Round(n, i, now, interval, answers), if r.result.Wait? then i + 1 else i, now, interval,
               if r.asks && answers != [] then answers[1..] else answers)
  }

  lemma RoundShrinks(n: Net, i: nat, now: nat, interval: nat, answers: seq<bool>)
    requires i < |n.waiting|
    ensures |Round(n, i, now, interval, answers).waiting| ==
      if Resolve(n.cache, n.waiting[i], now, interval).result.Wait? then |n.waiting| else |n.waiting| - 1
  {
    hide Resolve;
  }

  /** The queries that an event sends. */
  function Asks(n: Net, e: Event, interval: nat): seq<Asked>
    requires Enabled(n, e)
  {
    match e
    case Tx(i, now, _, _) =>
      if n.hands[i].allowed && !n.hands[i].mac then AskOf(n.cache, n.hands[i], now, interval) else []
    case PumpEvent(now, answers) => PumpAsks(n, 0, now, interval, answers)
    case _ => []
  }

  /** When `ip` was asked for. */
  function Times(log: seq<Asked>, ip: nat): seq<nat> {
    if log == [] then []
    else Times(log[..|log| - 1], ip) + if log[|log| - 1].ip == ip then [log[|log| - 1].at] else []
  }

  lemma TimesOne(log: seq<Asked>, a: Asked, ip: nat)
    ensures Times(log + [a], ip) == Times(log, ip) + if a.ip == ip then [a.at] else []
  {
    assert (log + [a])[..|log|] == log;
  }

  /** The last `k` of the times are an interval or more apart, and the next may follow at `next`. */
  ghost predicate Spaced(t: seq<nat>, k: nat, interval: nat, next: nat) {
    && 1 <= k <= |t| && t[|t| - 1] + interval == next
    && forall j {:trigger t[j]} :: |t| - k < j < |t| ==> t[j - 1] + interval <= t[j]
  }

  lemma SpacedMore(t: seq<nat>, k: nat, interval: nat, next: nat, at: nat)
    requires Spaced(t, k, interval, next) && next <= at
    ensures Spaced(t + [at], k + 1, interval, at + interval)
  {
    var u := t + [at];
    forall j {:trigger u[j]} | |u| - (k + 1) < j < |u| ensures u[j - 1] + interval <= u[j] {
      if j < |t| { assert u[j] == t[j] && u[j - 1] == t[j - 1]; }
    }
  }

  /** Every entry without an answer has as many queries in the log as it counts, at most ten, an interval or more apart. */
  ghost predicate Logged(cache: seq<Entry>, log: seq<Asked>, interval: nat) {
    && Distinct(cache)
    && forall i :: 0 <= i < |cache| && !cache[i].valid ==>
         cache[i].attempts <= MAX_RESOLVE_ATTEMPTS && Spaced(Times(log, cache[i].ip), cache[i].attempts, interval, cache[i].nextEvent)
  }

  lemma ResolveLogged(cache: seq<Entry>, log: seq<Asked>, p: Packet, now: nat, interval: nat)
    requires Logged(cache, log, interval)
    ensures Logged(Resolve(cache, p, now, interval).cache, log + AskOf(cache, p, now, interval), interval)
  {
    hide Spaced, Times;
    var r, i := Resolve(cache, p, now, interval), FindEntry(cache, p.nexthop);
    var a := Asked(p.nexthop, now);
    ResolveDistinct(cache, p, now, interval);
    if r.asks {
      var log' := log + [a];
      forall k | 0 <= k < |r.cache| && !r.cache[k].valid
        ensures r.cache[k].attempts <= MAX_RESOLVE_ATTEMPTS
        ensures Spaced(Times(log', r.cache[k].ip), r.cache[k].attempts, interval, r.cache[k].nextEvent)
      {
        TimesOne(log, a, r.cache[k].ip);
        if r.cache[k].ip == p.nexthop {
          if i == |cache| {
            assert k == 0;
            SpacedFirst(Times(log, p.nexthop), now, interval);
          } else {
            assert k == i;
            SpacedMore(Times(log, p.nexthop), cache[i].attempts, interval, cache[i].nextEvent, now);
          }
        } else if i == |cache| {
          assert r.cache[k] == cache[k - 1];
          assert Times(log', r.cache[k].ip) == Times(log, r.cache[k].ip);
        } else {
          assert r.cache[k] == cache[k];
          assert Times(log', r.cache[k].ip) == Times(log, r.cache[k].ip);
        }
      }
    } else {
      assert log + [] == log;
    }
  }

  lemma SpacedFirst(t: seq<nat>, at: nat, interval: nat)
    ensures Spaced(t + [at], 1, interval, at + interval)
  {
  }

  lemma LearnLogged(cache: seq<Entry>, log: seq<Asked>, ip: nat, add: bool, until: nat, interval: nat)
    requires Logged(cache, log, interval)
    ensures Logged(Updated(cache, ip, add, until), log, interval)
  {
    hide Spaced, Times;
    var i, c := FindEntry(cache, ip), Updated(cache, ip, add, until);
    if i == |cache| && add {
      assert forall k :: 0 <= k < |cache| ==> c[k + 1] == cache[k];
      forall k | 0 < k < |c| ensures c[k] == cache[k - 1] {}
    }
  }

  lemma {:induction false} UnexpiredIn(cache: seq<Entry>, now: nat)
    ensures forall e :: e in Unexpired(cache, now) <==> e in cache && !Dead(e, now)
    ensures Distinct(cache) ==> Distinct(Unexpired(cache, now))
  {
    hide Dead;
    if cache != [] {
      UnexpiredIn(cache[1..], now);
      assert cache == [cache[0]] + cache[1..];
      var u := Unexpired(cache[1..], now);
      if Distinct(cache) {
        forall e | e in u ensures e.ip != cache[0].ip {
          assert e in cache[1..];
        }
        DistinctCons(cache[0], u);
        DistinctTail(cache);
      }
    }
  }

  lemma DistinctTail(cache: seq<Entry>)
    requires Distinct(cache) && cache != []
    ensures Distinct(cache[1..])
  {
  }

  lemma DistinctCons(e: Entry, u: seq<Entry>)
    requires forall x :: x in u ==> x.ip != e.ip
    ensures Distinct(u) ==> Distinct([e] + u)
  {
  }

  lemma FlushLogged(cache: seq<Entry>, log: seq<Asked>, now: nat, interval: nat)
    requires Logged(cache, log, interval)
    ensures Logged(Unexpired(cache, now), log, interval)
  {
    hide Spaced, Times, Dead;
    UnexpiredIn(cache, now);
    var c := Unexpired(cache, now);
    forall k | 0 <= k < |c| && !c[k].valid
      ensures c[k].attempts <= MAX_RESOLVE_ATTEMPTS && Spaced(Times(log, c[k].ip), c[k].attempts, interval, c[k].nextEvent)
    {
      assert c[k] in cache;
    }
  }

  lemma {:induction false} PumpLogged(n: Net, log: seq<Asked>, i: nat, now: nat, interval: nat, answers: seq<bool>)
    requires Logged(n.cache, log, interval)
    ensures Logged(Pump(n, i, now, interval, answers).cache, log + PumpAsks(n, i, now, interval, answers), interval)
    decreases |n.waiting| - i
  {
    hide Logged, Resolve, Round, AskOf, Pump;
    if i < |n.waiting| {
      var p := n.waiting[i];
      var r := Resolve(n.cache, p, now, interval);
      var rest := if r.asks && answers != [] then answers[1..] else answers;
      var k, m := if r.result.Wait? then i + 1 else i, Round(n, i, now, interval, answers);
      RoundShrinks(n, i, now, interval, answers);
      RoundCache(n, i, now, interval, answers);
      ResolveLogged(n.cache, log, p, now, interval);
      var a := AskOf(n.cache, p, now, interval);
      PumpLogged(m, log + a, k, now, interval, rest);
      PumpRound(n, i, now, interval, answers);
      assert log + (a + PumpAsks(m, k, now, interval, rest)) == log + a + PumpAsks(m, k, now, interval, rest);
    } else {
      PumpNothing(n, i, now, interval, answers);
      assert log + [] == log;
    }
  }

  lemma PumpNothing(n: Net, i: nat, now: nat, interval: nat, answers: seq<bool>)
    requires i >= |n.waiting|
    ensures Pump(n, i, now, interval, answers) == n
  {
  }

  lemma RoundCache(n: Net, i: nat, now: nat, interval: nat, answers: seq<bool>)
    requires i < |n.waiting|
    ensures Round(n, i, now, interval, answers).cache == Resolve(n.cache, n.waiting[i], now, interval).cache
  {
    hide Resolve;
  }

  lemma StepLogged(n: Net, log: seq<Asked>, e: Event, interval: nat, own: nat)
    requires Logged(n.cache, log, interval) && Enabled(n, e)
    ensures Logged(Next(n, e, interval, own).cache, log + Asks(n, e, interval), interval)
  {
    hide Logged, Resolve, Pump, PumpAsks, AskOf, Updated, Unexpired;
    assert log + [] == log;
    match e
    case Tx(i, now, asked, accepted) => ResolveLogged(n.cache, log, n.hands[i], now, interval);
    case PumpEvent(now, answers) => PumpLogged(n, log, 0, now, interval, answers);
    case Learn(ip, add, until) => LearnLogged(n.cache, log, ip, add, until, interval);
    case FlushCache(now) => FlushLogged(n.cache, log, now, interval);
    case _ =>
  }

  /** All queries of a run. */
  function LogOf(n: Net, events: seq<Event>, interval: nat, own: nat): seq<Asked>
    requires Possible(n, events, interval, own)
    decreases |events|
  {
    if events == [] then []
    else Asks(n, events[0], interval) + LogOf(Next(n, events[0], interval, own), events[1..], interval, own)
  }

  lemma {:induction false} RunLogged(n: Net, log: seq<Asked>, events: seq<Event>, interval: nat, own: nat)
    requires Logged(n.cache, log, interval) && Possible(n, events, interval, own)
    ensures Logged(Run(n, events, interval, own).cache, log + LogOf(n, events, interval, own), interval)
    decreases |events|
  {
    hide Logged, Next, Enabled, Asks;
    if events == [] {
      assert log + [] == log;
    } else {
      var a, m := Asks(n, events[0], interval), Next(n, events[0], interval, own);
      StepLogged(n, log, events[0], interval, own);
      RunLogged(m, log + a, events[1..], interval, own);
      var more := LogOf(m, events[1..], interval, own);
      assert log + (a + more) == log + a + more;
    }
  }

  /**
   * In every run from an empty cache the verdict on a packet is as follows. It leaves only if it is for everyone or its
   * address is known. It is given up only when its address is not known after ten queries for it, each an interval or
   * more after the one before and the last an interval or more ago.
   */
  lemma VerdictsOfRun(n: Net, events: seq<Event>, interval: nat, own: nat, p: Packet, now: nat)
    requires n.cache == [] && Possible(n, events, interval, own)
    ensures var m, t := Run(n, events, interval, own), Times(LogOf(n, events, interval, own), p.nexthop);
      var verdict := Resolve(m.cache, p, now, interval).result;
      && Distinct(m.cache)
      && (verdict.Okay? <==> p.toAll || Known(m.cache, p.nexthop))
      && (verdict.Fail? ==>
          && !p.toAll && !Known(m.cache, p.nexthop) && |t| >= 10 && t[|t| - 1] + interval <= now
          && forall j :: |t| - 10 < j < |t| ==> t[j - 1] + interval <= t[j])
  {
    hide Times, Logged, Resolve, Next, Enabled, Asks, Run, LogOf, Possible, Known;
    NothingLogged(interval);
    RunLogged(n, [], events, interval, own);
    var m, log := Run(n, events, interval, own), LogOf(n, events, interval, own);
    assert [] + log == log;
    VerdictLogged(m.cache, log, p, now, interval);
  }

  lemma NothingLogged(interval: nat)
    ensures Logged([], [], interval)
  {
  }

  lemma VerdictLogged(cache: seq<Entry>, log: seq<Asked>, p: Packet, now: nat, interval: nat)
    requires Logged(cache, log, interval)
    ensures var verdict, t := Resolve(cache, p, now, interval).result, Times(log, p.nexthop);
      && Distinct(cache)
      && (verdict.Okay? <==> p.toAll || Known(cache, p.nexthop))
      && (verdict.Fail? ==>
          && !p.toAll && !Known(cache, p.nexthop) && |t| >= 10 && t[|t| - 1] + interval <= now
          && forall j :: |t| - 10 < j < |t| ==> t[j - 1] + interval <= t[j])
  {
    hide Times, Known, Resolve;
    VerdictIs(cache, p, now, interval);
  }
}
