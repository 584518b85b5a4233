/** Receiving a file over TFTP: the client, and the client between a server and a lossy network. */
module TftpGet {
  import opened Words
  import opened TftpBlocks

  /** What becomes of one `f_write`: it stores what the disk has room for, or fails after at most `n` bytes. */
  datatype Outcome = Stored | Failed(n: nat)

  datatype Client = Client(
    blockSize: nat, window: nat, rollover: nat,
    started: bool, lastBlock: nat, lastAck: nat,
    queue: seq<seq<byte>>, disk: seq<byte>, room: nat, transferred: nat,
    completed: bool, success: bool, timeouts: nat, retransmits: nat)
  {
    predicate Valid() { blockSize > 0 && 1 <= window <= 0xffff && rollover <= 1 && lastBlock < WRAP && lastAck < WRAP }
  }

  // ----- what the callbacks do, on values

  function First(io: seq<Outcome>): Outcome { if io == [] then Stored else io[0] }

  function Rest(io: seq<Outcome>): (r: seq<Outcome>) { if io == [] then [] else io[1..] }

  /** As much of `p` as fits into `room` bytes. */
  function Fit(p: seq<byte>, room: nat): (s: seq<byte>)
    ensures |s| == if |p| <= room then |p| else room
  {
    if |p| <= room then p else p[..room]
  }

  /** The bytes of `p` that reach a disk with `room` bytes free. */
  function Kept(p: seq<byte>, o: Outcome, room: nat): (s: seq<byte>)
    ensures |s| <= |p| && |s| <= room
  {
    if o.Stored? || o.n >= room then Fit(p, room) else Fit(p, o.n)
  }

  /** One buffered payload is written out. */
  function WriteOne(c: Client, p: seq<byte>, o: Outcome): Client {
    if p == [] then c
    else c.(disk := c.disk + Kept(p, o, c.room), room := c.room - |Kept(p, o, c.room)|,
            transferred := c.transferred + |p|, completed := c.completed || o.Failed?,
            success := c.success && !o.Failed?)
  }

  /** The loop that empties the queue; `io` says how the writes turn out. */
  function WriteQueue(c: Client, io: seq<Outcome>): (c': Client)
    decreases |c.queue|
  {
    if c.queue == [] then c
    else WriteQueue(WriteOne(c.(queue := c.queue[1..]), c.queue[0], First(io)), Rest(io))
  }

  /** `tftp_create_ack` */
  function Acked(c: Client): Client { c.(lastAck := c.lastBlock) }

  /** `tftp_get_flush_data_and_ack` */
  function Flush(c: Client, io: seq<Outcome>): Client { WriteQueue(Acked(c), io) }

  /** The first half of `tftp_get_process_data`: the block in turn is queued. */
  function Accept(c: Client, number: nat, payload: seq<byte>): Client {
    c.(lastBlock := number, retransmits := 0, queue := c.queue + [payload])
  }

  predicate InTurn(c: Client, number: nat)
    requires c.Valid()
  {
    number == ExpectedBlock(c.lastBlock, c.rollover, 1)
  }

  predicate EndsFile(c: Client, number: nat, payload: seq<byte>)
    requires c.Valid()
  {
    InTurn(c, number) && !c.completed && |payload| < c.blockSize
  }

  predicate WindowFull(c: Client) { c.lastBlock == (c.lastAck + c.window) % WRAP }

  function AfterTurn(c: Client, number: nat, payload: seq<byte>): Client
    requires c.Valid()
  {
    var c1 := if InTurn(c, number) then Accept(c, number, payload) else c;
    if EndsFile(c, number, payload) then c1.(completed := true, success := true) else c1
  }

  /** Does handling this block empty the queue? */
  predicate Flushes(c: Client, number: nat, payload: seq<byte>)
    requires c.Valid()
  {
    EndsFile(c, number, payload) || WindowFull(AfterTurn(c, number, payload))
  }

  /** `tftp_get_process_data` */
  function ProcessData(c: Client, number: nat, payload: seq<byte>, io: seq<Outcome>): Client
    requires c.Valid()
  {
    var c1 := AfterTurn(c, number, payload);
    var c2 := if EndsFile(c, number, payload) then Flush(c1, io) else c1;
    if WindowFull(c2) then Flush(c2, io) else c2
  }

  /** `tftp_client_timer_expired` */
  function TimerExpired(c: Client, io: seq<Outcome>): Client {
    if c.retransmits > 20 then c.(completed := true, success := false)
    else if c.completed then c
    else
      var c1 := if c.started then Flush(c, io) else c;
      c1.(timeouts := c1.timeouts + 1, retransmits := c1.retransmits + 1)
  }

  predicate TimerFlushes(c: Client) { c.retransmits <= 20 && !c.completed && c.started }

  // ----- the client as it is built

  class GetClient {
    var blockSize: nat
    var window: nat
    var rollover: nat
    var started: bool
    var lastBlock: nat
    var lastAck: nat
    var queue: seq<seq<byte>>
    var disk: seq<byte>
    /** Bytes the disk still has room for. */
    var room: nat
    var transferred: nat
    var completed: bool
    var success: bool
    var timeouts: nat
    var retransmits: nat
    /** Acknowledgements handed to the network, by block number. */
    var sent: seq<nat>

    function State(): Client
      reads this
    {
      Client(blockSize, window, rollover, started, lastBlock, lastAck, queue, disk, room, transferred, completed,
             success, timeouts, retransmits)
    }

    method SendAck()
      modifies `lastAck, `sent
      ensures State() == Acked(old(State())) && sent == old(sent) + [old(lastBlock)]
    {
      lastAck := lastBlock;
      sent := sent + [lastBlock];
    }

    /** The first buffered payload leaves the queue for the disk. */
    method WriteFirst(o: Outcome)
      requires queue != []
      modifies `queue, `disk, `room, `transferred, `completed, `success
      ensures State() == WriteOne(old(State()).(queue := old(queue)[1..]), old(queue)[0], o)
      ensures |queue| < |old(queue)|
    {
      hide Kept, Fit;
      var packet := queue[0];
      queue := queue[1..];
      var size := |packet|;
      if size > 0 {
        var kept := Kept(packet, o, room);
        disk := disk + kept;
        room := room - |kept|;
        transferred := transferred + size;
        if o.Failed? {
          completed := true;
          success := false;
        }
      }
    }

    method FlushDataAndAck(outcomes: seq<Outcome>)
      modifies `lastAck, `sent, `queue, `disk, `room, `transferred, `completed, `success
      ensures State() == Flush(old(State()), outcomes) && sent == old(sent) + [old(lastBlock)]
      ensures lastBlock == lastAck == old(lastBlock)
    {
      hide WriteOne;
      SendAck();
      var io := outcomes;
      while queue != []
        invariant WriteQueue(State(), io) == Flush(old(State()), outcomes)
        invariant sent == old(sent) + [old(lastBlock)] && lastBlock == lastAck == old(lastBlock)
        decreases |queue|
      {
        WriteFirst(First(io));
        io := Rest(io);
      }
    }

    method ProcessDataPacket(number: nat, payload: seq<byte>, io: seq<Outcome>)
      requires State().Valid()
      modifies `lastBlock, `retransmits, `lastAck, `sent, `queue, `disk, `room, `transferred, `completed, `success
      ensures State() == ProcessData(old(State()), number, payload, io)
      ensures sent == if Flushes(old(State()), number, payload) then old(sent) + [lastBlock] else old(sent)
    {
      hide WriteQueue, WriteOne, Accept, Flush, EndsFile, AfterTurn;
      var ended := QueuePacket(number, payload);
      if ended {
        FlushDataAndAck(io);
      }
      FlushFullWindow(io);
    }

    /** The block in turn joins the queue; a short one ends the transfer. */
    method QueuePacket(number: nat, payload: seq<byte>) returns (ended: bool)
      requires State().Valid()
      modifies `lastBlock, `retransmits, `queue, `completed, `success
      ensures State() == AfterTurn(old(State()), number, payload) && ended == EndsFile(old(State()), number, payload)
    {
      ended := false;
      if number == ExpectedBlock(lastBlock, rollover, 1) {
        lastBlock := number;
        retransmits := 0;
        queue := queue + [payload];
        if !completed && |payload| < blockSize {
          completed := true;
          success := true;
          ended := true;
        }
      }
    }

    /** The test that ends `tftp_get_process_data`. */
    method FlushFullWindow(io: seq<Outcome>)
      modifies `lastAck, `sent, `queue, `disk, `room, `transferred, `completed, `success
      ensures State() == if WindowFull(old(State())) then Flush(old(State()), io) else old(State())
      ensures sent == if WindowFull(old(State())) then old(sent) + [lastBlock] else old(sent)
    {
      if lastBlock == (lastAck + window) % WRAP {
        FlushDataAndAck(io);
      }
    }

    method Timer(io: seq<Outcome>)
      modifies `retransmits, `timeouts, `lastAck, `sent, `queue, `disk, `room, `transferred, `completed, `success
      ensures State() == TimerExpired(old(State()), io)
      ensures sent == if TimerFlushes(old(State())) then old(sent) + [lastBlock] else old(sent)
    {
      if retransmits > 20 {
        completed := true;
        success := false;
        return;
      }
      if completed {
        return;
      }
      if started {
        FlushDataAndAck(io);
      }
      timeouts := timeouts + 1;
      retransmits := retransmits + 1;
    }
  }

  // ----- client, server and network together

  /**
   * `got` and `acked` are the blocks accepted and acknowledged, as absolute numbers; `sent` and `acks` are all DATA
   * and ACK packets that may still be delivered, any number of times and in any order; `heard` is the highest
   * acknowledgement the server has seen. `failed` records a write that failed. `held` counts the blocks acknowledged by
   * options since the queue was last emptied: such an acknowledgement moves `acked` and leaves the queue alone.
   */
  datatype System = System(c: Client, file: seq<byte>, got: nat, acked: nat, sent: set<nat>, acks: set<nat>, heard: nat,
                           failed: bool, held: int)

  datatype Event =
    | ServerSends(k: nat)
    | ServerHears(k: nat)
    | ClientHears(k: nat, io: seq<Outcome>)
    | ClientHearsOptions
    | ClientHearsError
    | TimerFires(io: seq<Outcome>)

  predicate AnyFailed(q: seq<seq<byte>>, io: seq<Outcome>)
    decreases |q|
  {
    q != [] && ((First(io).Failed? && q[0] != []) || AnyFailed(q[1..], Rest(io)))
  }

  function Blocks(s: System): nat
    requires s.c.Valid()
  {
    BlockCount(|s.file|, s.c.blockSize)
  }

  /** The DATA packet of block `k` is in the network, and not stale by a whole turn of the block counter. */
  predicate Deliverable(s: System, k: nat) {
    k in s.sent && s.got + 1 < k + 0xffff
  }

  ghost predicate Enabled(s: System, e: Event)
    requires s.c.Valid()
  {
    match e
    case ServerSends(k) => 1 <= k <= Blocks(s) && k <= s.heard + s.c.window
    case ServerHears(k) => k in s.acks
    case ClientHears(k, io) => Deliverable(s, k) && 1 <= k <= Blocks(s)
    case _ => true
  }

  function Queued(s: System, k: nat): (c: Client)
    requires s.c.Valid() && 1 <= k <= Blocks(s)
  {
    AfterTurn(s.c, Wire(k, s.c.rollover), Slice(s.file, s.c.blockSize, k - 1))
  }

  /** Bookkeeping after the queue `q` has been flushed. */
  function Flushed(s: System, q: seq<seq<byte>>, io: seq<Outcome>): System {
    s.(acked := s.got, acks := s.acks + {s.got}, held := 0, failed := s.failed || AnyFailed(q, io))
  }

  function Next(s: System, e: Event): System
    requires s.c.Valid() && Enabled(s, e)
  {
    match e
    case ServerSends(k) => s.(sent := s.sent + {k})
    case ServerHears(k) => s.(heard := if k > s.heard then k else s.heard)
    case ClientHears(k, io) =>
      var number, payload := Wire(k, s.c.rollover), Slice(s.file, s.c.blockSize, k - 1);
      var s1 := s.(c := ProcessData(s.c, number, payload, io), got := if InTurn(s.c, number) then s.got + 1 else s.got);
      if Flushes(s.c, number, payload) then Flushed(s1, Queued(s, k).queue, io) else s1
    case ClientHearsOptions =>
      s.(c := Acked(s.c), acked := s.got, acks := s.acks + {s.got}, held := s.held + (s.got - s.acked))
    case ClientHearsError => s.(c := s.c.(completed := true, success := false))
    case TimerFires(io) =>
      var s1 := s.(c := TimerExpired(s.c, io));
      if TimerFlushes(s.c) then Flushed(s1, s.c.queue, io) else s1
  }

  function Concat(q: seq<seq<byte>>): seq<byte> {
    if q == [] then [] else q[0] + Concat(q[1..])
  }

  // ----- the write loop

  lemma {:induction false} WriteQueueFlags(c: Client, io: seq<Outcome>)
    ensures var c' := WriteQueue(c, io);
      c' == c.(queue := [], disk := c'.disk, room := c'.room, transferred := c'.transferred,
      completed := c.completed || AnyFailed(c.queue, io), success := c.success && !AnyFailed(c.queue, io))
    decreases |c.queue|
  {
    if c.queue != [] {
      WriteQueueFlags(WriteOne(c.(queue := c.queue[1..]), c.queue[0], First(io)), Rest(io));
    }
  }

  /** The queued bytes reach the disk in order, as far as it has room; disk and room make up its size. */
  lemma {:induction false} WriteQueueBytes(c: Client, io: seq<Outcome>)
    ensures var c' := WriteQueue(c, io);
      && c'.transferred == c.transferred + |Concat(c.queue)|
      && |c'.disk| + c'.room == |c.disk| + c.room
      && (!AnyFailed(c.queue, io) ==> c'.disk == c.disk + Fit(Concat(c.queue), c.room))
    decreases |c.queue|
  {
    hide WriteOne, Kept, Fit;
    if c.queue == [] {
      FitNothing(c.disk, c.room);
    } else {
      var p, q := c.queue[0], c.queue[1..];
      var c1 := WriteOne(c.(queue := q), p, First(io));
      WriteOneBytes(c.(queue := q), p, First(io));
      WriteQueueBytes(c1, Rest(io));
      FitJoin(p, Concat(q), c.room);
      assert c.disk + (Fit(p, c.room) + Fit(Concat(q), c1.room)) == c.disk + Fit(p, c.room) + Fit(Concat(q), c1.room);
    }
  }

  lemma WriteOneBytes(c: Client, p: seq<byte>, o: Outcome)
    ensures var c' := WriteOne(c, p, o);
      && c'.queue == c.queue
      && c'.transferred == c.transferred + |p|
      && |c'.disk| + c'.room == |c.disk| + c.room
      && (!(o.Failed? && p != []) ==> c'.disk == c.disk + Fit(p, c.room) && c'.room == c.room - |Fit(p, c.room)|)
  {
    assert c.disk + [] == c.disk;
  }

  lemma FitNothing(disk: seq<byte>, room: nat)
    ensures disk + Fit([], room) == disk
  {
  }

  /** What fits of two pieces: the first as far as it goes, the second into what that leaves. */
  lemma FitJoin(p: seq<byte>, q: seq<byte>, room: nat)
    ensures |Fit(p, room)| <= room
    ensures Fit(p + q, room) == Fit(p, room) + Fit(q, room - |Fit(p, room)|)
  {
    if |p| > room {
      assert (p + q)[..room] == p[..room];
    } else if |p| + |q| > room {
      assert (p + q)[..room] == p + q[..room - |p|];
    }
  }

  lemma {:induction false} ConcatAdd(q: seq<seq<byte>>, p: seq<byte>)
    ensures Concat(q + [p]) == Concat(q) + p
  {
    if q == [] {
      assert [p][1..] == [];
    } else {
      ConcatAdd(q[1..], p);
      assert (q + [p])[1..] == q[1..] + [p];
      assert q[0] + (Concat(q[1..]) + p) == q[0] + Concat(q[1..]) + p;
    }
  }

  // ----- what holds in every run

  /**
   * Of `head`, the first `transferred` bytes have been written and the queue holds the rest. A disk of `size` bytes
   * holds what was written, as far as it has room, unless a write failed.
   */
  ghost predicate Contents(disk: seq<byte>, queue: seq<seq<byte>>, transferred: nat, size: nat, failed: bool,
      head: seq<byte>)
  {
    && transferred <= |head| && head[transferred..] == Concat(queue)
    && (!failed ==> disk == Fit(head[..transferred], size))
  }

  lemma ContentsAccept(disk: seq<byte>, queue: seq<seq<byte>>, transferred: nat, size: nat, failed: bool,
      head: seq<byte>, p: seq<byte>)
    requires Contents(disk, queue, transferred, size, failed, head)
    ensures Contents(disk, queue + [p], transferred, size, failed, head + p)
  {
    ConcatAdd(queue, p);
    assert (head + p)[transferred..] == head[transferred..] + p;
    assert (head + p)[..transferred] == head[..transferred];
  }

  lemma ContentsFlush(c: Client, io: seq<Outcome>, failed: bool, head: seq<byte>)
    requires Contents(c.disk, c.queue, c.transferred, |c.disk| + c.room, failed, head)
    ensures var c' := WriteQueue(c, io);
      && |c'.disk| + c'.room == |c.disk| + c.room
      && Contents(c'.disk, [], c'.transferred, |c'.disk| + c'.room, failed || AnyFailed(c.queue, io), head)
  {
    hide AnyFailed, WriteQueue, Fit;
    WriteQueueBytes(c, io);
    var c' := WriteQueue(c, io);
    var written, size := head[..c.transferred], |c.disk| + c.room;
    assert head[..c'.transferred] == written + Concat(c.queue);
    assert head[c'.transferred..] == Concat([]);
    if !failed && !AnyFailed(c.queue, io) {
      FitJoin(written, Concat(c.queue), size);
    }
  }

  ghost predicate Numbered(s: System)
    requires s.c.Valid()
  {
    && s.got <= Blocks(s) && s.acked <= s.got && s.heard <= s.got
    && s.c.lastBlock == Wire(s.got, s.c.rollover) && s.c.lastAck == Wire(s.acked, s.c.rollover)
    && (forall k :: k in s.sent ==> 1 <= k <= Blocks(s) && k <= s.got + s.c.window)
    && (forall k :: k in s.acks ==> k <= s.got)
  }

  ghost predicate Holds(s: System)
    requires s.c.Valid() && s.got <= Blocks(s)
  {
    Contents(s.c.disk, s.c.queue, s.c.transferred, |s.c.disk| + s.c.room, s.failed, Head(s.file, s.c.blockSize, s.got))
  }

  ghost predicate Ended(s: System)
    requires s.c.Valid()
  {
    && (s.failed ==> s.c.completed && !s.c.success)
    && (s.c.success ==> s.c.completed && s.got == Blocks(s))
  }

  /** The invariant; `settled` is false between queueing a block and the flush it may cause. */
  ghost predicate Inv(s: System, settled: bool) {
    && s.c.Valid() && s.c.started && Numbered(s) && Holds(s) && Ended(s)
    && |s.c.queue| == s.held + (s.got - s.acked) && s.held >= 0
    && (s.c.rollover == 0 && s.c.window == 1 ==> s.held == 0)
    && (s.c.rollover == 0 ==> s.got - s.acked <= s.c.window)
    && (settled ==> (s.c.rollover == 0 ==> s.got - s.acked < s.c.window) && (s.c.success ==> s.c.queue == []))
  }

  /** The system once the block `k` has been looked at and before any flush. */
  function Turned(s: System, k: nat): System
    requires s.c.Valid() && 1 <= k <= Blocks(s)
  {
    s.(c := Queued(s, k), got := if InTurn(s.c, Wire(k, s.c.rollover)) then s.got + 1 else s.got)
  }

  function FlushAll(s: System, io: seq<Outcome>): System {
    Flushed(s.(c := Flush(s.c, io)), s.c.queue, io)
  }

  /** A block is flushed once at most. */
  lemma ProcessIs(c: Client, number: nat, payload: seq<byte>, io: seq<Outcome>)
    requires c.Valid() && number < WRAP
    ensures var c1 := AfterTurn(c, number, payload);
      ProcessData(c, number, payload, io) == if Flushes(c, number, payload) then Flush(c1, io) else c1
  {
    hide AnyFailed;
    var c1 := AfterTurn(c, number, payload);
    WriteQueueFlags(Acked(c1), io);
  }

  lemma FlushKeeps(s: System, io: seq<Outcome>)
    requires Inv(s, false)
    ensures Inv(FlushAll(s, io), true)
  {
    hide AnyFailed, Contents, Wire, Head, WriteQueue;
    var c1 := Acked(s.c);
    WriteQueueFlags(c1, io);
    ContentsFlush(c1, io, s.failed, Head(s.file, s.c.blockSize, s.got));
  }

  lemma HearIs(s: System, k: nat, io: seq<Outcome>)
    requires s.c.Valid() && Enabled(s, ClientHears(k, io))
    ensures Next(s, ClientHears(k, io)) ==
      if Flushes(s.c, Wire(k, s.c.rollover), Slice(s.file, s.c.blockSize, k - 1)) then FlushAll(Turned(s, k), io)
      else Turned(s, k)
  {
    hide Flush, ProcessData, Flushes, AfterTurn, Slice, InTurn, AnyFailed;
    ProcessIs(s.c, Wire(k, s.c.rollover), Slice(s.file, s.c.blockSize, k - 1), io);
  }

  /** The block in turn is recognised by its number: no other block of the network can be taken for it. */
  lemma InTurnIsNext(s: System, k: nat)
    requires s.c.Valid() && Numbered(s) && Deliverable(s, k)
    ensures 1 <= k <= Blocks(s)
    ensures InTurn(s.c, Wire(k, s.c.rollover)) <==> k == s.got + 1
  {
    hide Wire;
    ExpectedIsWire(s.got, s.c.rollover, 1);
    if Wire(k, s.c.rollover) == Wire(s.got + 1, s.c.rollover) {
      WireUnique(k, s.got + 1, s.c.rollover);
    }
  }

  lemma TurnKeeps(s: System, k: nat)
    requires Inv(s, true) && Deliverable(s, k)
    ensures 1 <= k <= Blocks(s) && Inv(Turned(s, k), false)
  {
    hide Contents, Wire, Slice, InTurn, BlockCount;
    InTurnIsNext(s, k);
    var p := Slice(s.file, s.c.blockSize, k - 1);
    if k == s.got + 1 {
      ContentsAccept(s.c.disk, s.c.queue, s.c.transferred, |s.c.disk| + s.c.room, s.failed,
                     Head(s.file, s.c.blockSize, s.got), p);
      ShortIsLast(s.file, s.c.blockSize, k - 1);
    }
  }

  /** A window that is not full is not taken for full, nor a full one for anything else. */
  lemma WindowFullIs(s: System)
    requires s.c.Valid() && s.c.rollover == 0 && s.acked <= s.got <= s.acked + s.c.window
    requires s.c.lastBlock == Wire(s.got, 0) && s.c.lastAck == Wire(s.acked, 0)
    ensures WindowFull(s.c) <==> s.got == s.acked + s.c.window
  {
    hide Wire;
    WireSum(s.acked, s.c.window);
    if Wire(s.got, 0) == Wire(s.acked + s.c.window, 0) {
      WireUnique(s.got, s.acked + s.c.window, 0);
    }
  }

  lemma WireSum(k: nat, w: nat)
    requires w < WRAP
    ensures (Wire(k, 0) + w) % WRAP == Wire(k + w, 0)
  {
    ModStep(k, w, WRAP);
  }

  lemma HearKeeps(s: System, k: nat, io: seq<Outcome>)
    requires Inv(s, true) && Enabled(s, ClientHears(k, io))
    ensures Inv(Next(s, ClientHears(k, io)), true)
  {
    hide Contents, Wire, Slice, BlockCount, Holds, Numbered, Next, ProcessData, InTurn, FlushAll;
    TurnKeeps(s, k);
    HearIs(s, k, io);
    var t, p := Turned(s, k), Slice(s.file, s.c.blockSize, k - 1);
    if Flushes(s.c, Wire(k, s.c.rollover), p) {
      FlushKeeps(t, io);
    } else {
      NumbersOf(t);
      NumbersOf(s);
      if s.c.rollover == 0 {
        WindowFullIs(t);
      }
      QuietTurn(s, k, p);
    }
  }

  lemma NumbersOf(s: System)
    requires s.c.Valid() && Numbered(s)
    ensures s.acked <= s.got && s.c.lastBlock == Wire(s.got, s.c.rollover) && s.c.lastAck == Wire(s.acked, s.c.rollover)
    ensures s.got <= Blocks(s)
  {
  }

  /** After success nothing more is queued. */
  lemma QuietTurn(s: System, k: nat, p: seq<byte>)
    requires Inv(s, true) && Deliverable(s, k) && 1 <= k <= Blocks(s) && p == Slice(s.file, s.c.blockSize, k - 1)
    requires !EndsFile(s.c, Wire(k, s.c.rollover), p)
    ensures Turned(s, k).c.success ==> Turned(s, k).c.queue == []
  {
    hide Contents, Wire, Slice, BlockCount, Holds, InTurn;
    InTurnIsNext(s, k);
  }

  lemma StepKeeps(s: System, e: Event)
    requires Inv(s, true) && Enabled(s, e)
    ensures Inv(Next(s, e), true)
  {
    hide Contents, Wire, BlockCount, Flush;
    match e
    case ClientHears(k, io) => HearKeeps(s, k, io);
    case TimerFires(io) =>
      if TimerFlushes(s.c) {
        FlushKeeps(s, io);
      }
    case _ =>
  }

  /** A client that has agreed on options and acknowledged block 0, and a server that has sent nothing yet. */
  ghost predicate Start(s: System) {
    && s.c.Valid() && s.c.started && s.c.lastBlock == 0 && s.c.lastAck == 0
    && s.c.queue == [] && s.c.disk == [] && s.c.transferred == 0 && !s.c.completed && !s.c.success
    && s.got == 0 && s.acked == 0 && s.sent == {} && s.acks == {0} && s.heard == 0
    && !s.failed && s.held == 0
  }

  lemma StartHolds(s: System)
    requires Start(s)
    ensures Inv(s, true)
  {
  }

  /** A run: every event is possible when it happens. */
  ghost predicate Possible(s: System, events: seq<Event>)
    requires s.c.Valid()
    decreases |events|
  {
    events != [] ==>
      && Enabled(s, events[0])
      && Next(s, events[0]).c.Valid()
      && Possible(Next(s, events[0]), events[1..])
  }

  function Run(s: System, events: seq<Event>): (t: System)
    requires s.c.Valid() && Possible(s, events)
    ensures t.c.Valid()
    decreases |events|
  {
    if events == [] then s else Run(Next(s, events[0]), events[1..])
  }

  lemma {:induction false} RunKeeps(s: System, events: seq<Event>)
    requires Inv(s, true) && Possible(s, events)
    ensures Inv(Run(s, events), true)
    decreases |events|
  {
    if events != [] {
      StepKeeps(s, events[0]);
      RunKeeps(Next(s, events[0]), events[1..]);
    }
  }

  /** The bytes stored and the bytes still free. */
  function DiskSize(s: System): nat { |s.c.disk| + s.c.room }

  lemma {:induction false} RunFixed(s: System, events: seq<Event>)
    requires Inv(s, true) && Possible(s, events)
    ensures Run(s, events).c.rollover == s.c.rollover && Run(s, events).c.window == s.c.window
    ensures Run(s, events).file == s.file && Run(s, events).c.blockSize == s.c.blockSize
    ensures DiskSize(Run(s, events)) == DiskSize(s)
    decreases |events|
  {
    if events != [] {
      StepKeeps(s, events[0]);
      StepFixed(s, events[0]);
      RunFixed(Next(s, events[0]), events[1..]);
    }
  }

  lemma StepFixed(s: System, e: Event)
    requires s.c.Valid() && Enabled(s, e)
    ensures var t := Next(s, e);
      && t.c.rollover == s.c.rollover && t.c.window == s.c.window && t.file == s.file && t.c.blockSize == s.c.blockSize
      && DiskSize(t) == DiskSize(s)
  {
    hide AnyFailed, Concat, WriteQueue;
    match e
    case ClientHears(k, io) =>
      HearIs(s, k, io);
      WriteQueueFlags(Acked(Turned(s, k).c), io);
      WriteQueueBytes(Acked(Turned(s, k).c), io);
    case TimerFires(io) =>
      WriteQueueFlags(Acked(s.c), io);
      WriteQueueBytes(Acked(s.c), io);
    case _ =>
  }

  // ----- what a run promises

  /**
   * In every run, whatever the network loses, repeats or reorders: what is written and what is queued are the first
   * blocks of the server's file, and unless a write failed the disk holds what was written as far as it had room.
   */
  lemma DiskIsPrefix(s: System, events: seq<Event>)
    requires Start(s) && Possible(s, events)
    ensures var t := Run(s, events);
      && t.got <= Blocks(t)
      && var head := Head(t.file, t.c.blockSize, t.got);
      && t.c.transferred <= |head| && head[t.c.transferred..] == Concat(t.c.queue)
      && (!t.failed ==> t.c.disk == Fit(head[..t.c.transferred], s.c.room))
      && (!t.failed && t.c.transferred <= s.c.room ==> t.c.disk + Concat(t.c.queue) == head)
  {
    hide WriteQueue, Wire, Next, Enabled, BlockCount, Slice;
    StartHolds(s);
    RunKeeps(s, events);
    RunFixed(s, events);
    var t := Run(s, events);
    var head := Head(t.file, t.c.blockSize, t.got);
    assert head[..t.c.transferred] + head[t.c.transferred..] == head;
  }

  /** A transfer that reports success has the whole file on disk if and only if the disk had room for it. */
  lemma SuccessIsWhole(s: System, events: seq<Event>)
    requires Start(s) && Possible(s, events) && Run(s, events).c.success
    ensures var t := Run(s, events);
      && t.file == s.file && !t.failed && t.c.queue == [] && t.c.disk == Fit(s.file, s.c.room)
      && (t.c.disk == s.file <==> |s.file| <= s.c.room)
  {
    hide WriteQueue, Wire, Next, Enabled, BlockCount, Slice;
    StartHolds(s);
    RunKeeps(s, events);
    RunFixed(s, events);
    var t := Run(s, events);
    HeadIs(t.file, t.c.blockSize, t.got);
    assert t.file[..|t.file|] == t.file;
  }

  // ----- what the client does with a block and with silence

  /** The next block is taken: it joins the queue, and the last one of the file or of a window empties the queue and is
      acknowledged. The last one ends the transfer, well unless a write failed. */
  lemma NextBlockTaken(s: System, k: nat, io: seq<Outcome>)
    requires Inv(s, true) && !s.c.completed && s.c.rollover == 0 && k == s.got + 1 <= Blocks(s) && Deliverable(s, k)
    ensures Enabled(s, ClientHears(k, io))
    ensures var t := Next(s, ClientHears(k, io));
      && t.got == k && t.c.retransmits == 0
      && (k == Blocks(s) ==> t.c.completed && (t.c.success <==> !t.failed))
      && if k == Blocks(s) || k == s.acked + s.c.window then k in t.acks && t.acked == k && t.c.queue == []
         else t.acks == s.acks && t.acked == s.acked && t.c.queue == s.c.queue + [Slice(s.file, s.c.blockSize, k - 1)]
  {
    hide Contents, Wire, Slice, BlockCount, Holds, Numbered, WriteQueue;
    NumbersOf(s);
    InTurnIsNext(s, k);
    ShortIsLast(s.file, s.c.blockSize, k - 1);
    HearIs(s, k, io);
    WindowFullIs(Turned(s, k));
    WriteQueueFlags(Acked(Turned(s, k).c), io);
  }

  /** Any other block changes nothing. */
  lemma OtherBlockIgnored(s: System, k: nat, io: seq<Outcome>)
    requires Inv(s, true) && s.c.rollover == 0 && k != s.got + 1 && Deliverable(s, k)
    ensures Enabled(s, ClientHears(k, io)) && Next(s, ClientHears(k, io)) == s
  {
    hide Contents, Wire, Slice, BlockCount, Holds, Numbered, WriteQueue;
    NumbersOf(s);
    InTurnIsNext(s, k);
    HearIs(s, k, io);
    WindowFullIs(s);
  }

  /** The count of timers starts anew with every block taken, and nothing else lowers it. */
  lemma RetransmitsCount(s: System, e: Event)
    requires Inv(s, true) && Enabled(s, e)
    ensures Next(s, e).c.retransmits ==
      if e.ClientHears? && e.k == s.got + 1 then 0
      else if e.TimerFires? && !s.c.completed && s.c.retransmits <= 20 then s.c.retransmits + 1
      else s.c.retransmits
  {
    hide Contents, Wire, Slice, BlockCount, Holds, Numbered, WriteQueue;
    match e
    case ClientHears(k, io) =>
      InTurnIsNext(s, k);
      HearIs(s, k, io);
      WriteQueueFlags(Acked(Turned(s, k).c), io);
    case TimerFires(io) => WriteQueueFlags(Acked(s.c), io);
    case _ =>
  }

  /** A timer of a transfer under way acknowledges again what has come and empties the queue, or gives up. */
  lemma TimerStep(s: System, io: seq<Outcome>)
    requires Inv(s, true) && !s.c.completed
    ensures var t := Next(s, TimerFires(io));
      && Inv(t, true) && t.got == s.got
      && if s.c.retransmits <= 20 then
           t.c.retransmits == s.c.retransmits + 1 && s.got in t.acks && t.acked == s.got && t.c.queue == []
           && (t.c.completed <==> AnyFailed(s.c.queue, io))
         else t.c.completed && !t.c.success
  {
    hide Contents, Wire, Slice, BlockCount, Holds, Numbered, WriteQueue, AnyFailed;
    StepKeeps(s, TimerFires(io));
    WriteQueueFlags(Acked(s.c), io);
  }

  /** `n` timers one after the other, no write failing. */
  function Timers(n: nat): seq<Event> { if n == 0 then [] else [TimerFires([])] + Timers(n - 1) }

  lemma {:induction false} NothingFails(q: seq<seq<byte>>)
    ensures !AnyFailed(q, [])
    decreases |q|
  {
    if q != [] { NothingFails(q[1..]); }
  }

  lemma ValidOf(s: System)
    requires Inv(s, true)
    ensures s.c.Valid() && Enabled(s, TimerFires([]))
  {
  }

  /** A server that falls silent ends the transfer after a fixed number of timers: 21 acknowledge again, and the next one
      gives up. */
  lemma {:induction false} SilentServer(s: System, n: nat)
    requires Inv(s, true) && !s.c.completed && s.c.retransmits + n <= 22
    ensures Possible(s, Timers(n))
    ensures var t := Run(s, Timers(n));
      && t.got == s.got
      && (s.c.retransmits + n <= 21 ==> !t.c.completed && t.c.retransmits == s.c.retransmits + n)
      && (s.c.retransmits + n == 22 && n > 0 ==> t.c.completed && !t.c.success)
    decreases n
  {
    hide Next, Enabled, Inv, AnyFailed;
    ValidOf(s);
    if n > 0 {
      TimerStep(s, []);
      NothingFails(s.c.queue);
      assert Timers(n)[1..] == Timers(n - 1);
      var t := Next(s, TimerFires([]));
      ValidOf(t);
      if s.c.retransmits <= 20 {
        SilentServer(t, n - 1);
      } else {
        assert Timers(0) == [];
      }
    }
  }

  /** No options acknowledgement of the run is delivered while blocks are queued. */
  ghost predicate OptionsWhileEmpty(s: System, events: seq<Event>)
    requires s.c.Valid() && Possible(s, events)
    decreases |events|
  {
    events != [] ==>
      && (events[0].ClientHearsOptions? ==> s.c.queue == [])
      && OptionsWhileEmpty(Next(s, events[0]), events[1..])
  }

  lemma {:induction false} NothingHeld(s: System, events: seq<Event>)
    requires Inv(s, true) && Possible(s, events) && s.held == 0 && OptionsWhileEmpty(s, events)
    ensures Run(s, events).held == 0
    decreases |events|
  {
    hide Contents, Wire, BlockCount, Slice;
    if events != [] {
      StepKeeps(s, events[0]);
      NothingHeld(Next(s, events[0]), events[1..]);
    }
  }

  /**
   * At rollover 0 the queue holds the blocks accepted and not acknowledged, always fewer than a window, and those
   * that an options acknowledgement has acknowledged over the queue. It stays below a window when there are none of
   * the second kind, as for a window of one block and when options are acknowledged over an empty queue only.
   */
  lemma QueueIs(s: System, events: seq<Event>)
    requires Start(s) && Possible(s, events) && s.c.rollover == 0
    ensures var t := Run(s, events);
      && t.c.window == s.c.window && t.held >= 0 && t.acked <= t.got
      && |t.c.queue| == t.held + (t.got - t.acked) && t.got - t.acked < s.c.window
      && (|t.c.queue| <= s.c.window <==> t.held + (t.got - t.acked) <= s.c.window)
      && (s.c.window == 1 ==> t.c.queue == [])
      && (OptionsWhileEmpty(s, events) ==> t.held == 0 && |t.c.queue| < s.c.window)
  {
    hide Contents, Wire, Next, Enabled, BlockCount, Slice, Holds;
    StartHolds(s);
    RunKeeps(s, events);
    RunFixed(s, events);
    if OptionsWhileEmpty(s, events) {
      NothingHeld(s, events);
    }
  }

  /** Under rollover 1 the window test takes a full window for full only while its numbers do not wrap, and past the
      turn of the counter a window that lacks one block. */
  lemma WindowFullUnderRollover1(s: System)
    requires s.c.Valid() && s.c.rollover == 1 && s.acked <= s.got <= s.acked + s.c.window
    requires s.c.lastBlock == Wire(s.got, 1) && s.c.lastAck == Wire(s.acked, 1)
    ensures WindowFull(s.c) <==>
      || (s.c.lastAck + s.c.window <= 0xffff && s.got == s.acked + s.c.window)
      || (s.c.lastAck + s.c.window > 0x1_0000 && s.got + 1 == s.acked + s.c.window)
  {
    hide Wire;
    var last := s.acked + s.c.window;
    ExpectedIsWire(s.acked, 1, s.c.window);
    ExpectedIsWire(s.acked, 1, s.c.window - 1);
    WireZero(s.got);
    WireZero(s.acked);
    if s.got != s.acked && s.c.lastAck + s.c.window <= 0xffff && Wire(s.got, 1) == Wire(last, 1) {
      WireUnique(s.got, last, 1);
    }
    if s.got != s.acked && s.c.lastAck + s.c.window > 0x1_0000 && Wire(s.got, 1) == Wire(last - 1, 1) {
      WireUnique(s.got, last - 1, 1);
    }
  }

  /** Under rollover 1 no block after the start is numbered 0. */
  lemma WireZero(k: nat)
    ensures Wire(k, 1) == 0 <==> k == 0
  {
  }
}
