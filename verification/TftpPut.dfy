/** Sending a file over TFTP: the client, and the client between a server and a lossy network. */
module TftpPut {
  import opened Words
  import opened TftpBlocks

  datatype Data = Data(number: nat, payload: seq<byte>)

  datatype Client = Client(
    blockSize: nat, window: nat, rollover: nat, totalSize: nat,
    started: bool, lastBlock: nat, transferred: nat,
    completed: bool, success: bool, timeouts: nat, retransmits: nat)
  {
    predicate Valid() { blockSize > 0 && 1 <= window <= 0xffff && rollover <= 1 && lastBlock < WRAP }

    /** The number of the block `n` places after the last one acknowledged. */
    function Number(n: nat): nat
      requires Valid()
    {
      ExpectedBlock(lastBlock, rollover, n)
    }
  }

  // ----- what the callbacks do, on values

  /** `f_read` of at most `bs` bytes at `pos` */
  function ReadAt(file: seq<byte>, pos: nat, bs: nat): (s: seq<byte>)
    requires pos <= |file|
    ensures |s| <= bs && pos + |s| <= |file|
  {
    if pos + bs <= |file| then file[pos..pos + bs] else file[pos..]
  }

  /** The packets the loop of `tftp_put_send_data` sends from round `n` on, reading at `pos`. */
  function Packets(c: Client, file: seq<byte>, n: nat, count: nat, pos: nat): (d: seq<Data>)
    requires c.Valid() && pos <= |file|
    decreases count - n
  {
    if n >= count then []
    else
      var p := ReadAt(file, pos, c.blockSize);
      [Data(c.Number(n + 1), p)] + (if |p| < c.blockSize then [] else Packets(c, file, n + 1, count, pos + |p|))
  }

  lemma PacketsEnd(c: Client, file: seq<byte>, count: nat)
    requires c.Valid()
    ensures forall pos :: 0 <= pos <= |file| ==> Packets(c, file, count, count, pos) == []
  {
  }

  lemma SeekBound(file: seq<byte>, pos: nat)
    ensures SeekTo(file, pos) <= |file|
  {
  }

  lemma PacketsUnfold(c: Client, file: seq<byte>, n: nat, count: nat, pos: nat)
    requires c.Valid() && pos <= |file| && n < count
    ensures var p := ReadAt(file, pos, c.blockSize);
      Packets(c, file, n, count, pos) == [Data(c.Number(n + 1), p)] +
      (if |p| < c.blockSize then [] else Packets(c, file, n + 1, count, pos + |p|))
  {
    hide ReadAt;
  }

  lemma PacketsStep(sent: seq<Data>, c: Client, file: seq<byte>, n: nat, count: nat, pos: nat)
    requires c.Valid() && pos <= |file| && n < count
    ensures var p := ReadAt(file, pos, c.blockSize);
      sent + Packets(c, file, n, count, pos) ==
      sent + [Data(c.Number(n + 1), p)] +
      (if |p| < c.blockSize then [] else Packets(c, file, n + 1, count, pos + |p|))
  {
    hide ReadAt, Packets, ExpectedBlock;
    PacketsUnfold(c, file, n, count, pos);
    var p := ReadAt(file, pos, c.blockSize);
    Regroup(sent, [Data(c.Number(n + 1), p)],
            if |p| < c.blockSize then [] else Packets(c, file, n + 1, count, pos + |p|));
  }

  lemma Regroup<T>(a: seq<T>, b: seq<T>, c: seq<T>)
    ensures a + (b + c) == a + b + c
  {
  }

  /** `f_lseek` in a file open for reading stops at its end. */
  function SeekTo(file: seq<byte>, pos: nat): (at: nat)
    ensures at <= |file|
  {
    if pos <= |file| then pos else |file|
  }

  /** `tftp_put_send_data` */
  function SendData(c: Client, file: seq<byte>, count: nat): seq<Data>
    requires c.Valid()
  {
    Packets(c, file, 0, count, SeekTo(file, c.transferred))
  }

  /** The search of `tftp_put_process_ack`: the largest number of blocks, at most `n`, that `block` acknowledges. */
  function Search(c: Client, block: nat, n: int): (m: int)
    requires c.Valid() && n >= -1
    ensures -1 <= m <= n && (m >= 0 ==> block == c.Number(m))
    ensures forall i :: m < i <= n ==> block != c.Number(i)
    decreases n
  {
    if n < 0 then -1 else if block == c.Number(n) then n else Search(c, block, n - 1)
  }

  function Advance(c: Client, block: nat, m: nat): Client {
    var total := c.transferred + Times(c.blockSize, m);
    var c1 := c.(retransmits := if m > 0 then 0 else c.retransmits, lastBlock := block, transferred := total);
    if total > c.totalSize then c1.(completed := true, success := true) else c1
  }

  /** `tftp_put_process_ack` */
  function ProcessAck(c: Client, file: seq<byte>, block: nat): (Client, seq<Data>)
    requires c.Valid() && block < WRAP
  {
    var m := Search(c, block, c.window);
    if m < 0 then (c, [])
    else
      var c1 := Advance(c, block, m);
      if c1.transferred > c1.totalSize then (c1, [])
      else (c1, SendData(c1, file, if m == c.window then c.window else 1))
  }

  /** `tftp_client_timer_expired` once the server has answered */
  function TimerExpired(c: Client, file: seq<byte>): (Client, seq<Data>)
    requires c.Valid()
  {
    if c.retransmits > 20 then (c.(completed := true, success := false), [])
    else if c.completed then (c, [])
    else
      (c.(timeouts := c.timeouts + 1, retransmits := c.retransmits + 1), if c.started then SendData(c, file, 1) else [])
  }

  // ----- the client as it is built

  class PutClient {
    var blockSize: nat
    var window: nat
    var rollover: nat
    var totalSize: nat
    var started: bool
    var lastBlock: nat
    var transferred: nat
    var completed: bool
    var success: bool
    var timeouts: nat
    var retransmits: nat
    /** The open file and its read position. */
    var file: seq<byte>
    var pos: nat
    /** DATA packets handed to the network. */
    var sent: seq<Data>

    function State(): Client
      reads this
    {
      Client(blockSize, window, rollover, totalSize, started, lastBlock, transferred, completed, success, timeouts,
             retransmits)
    }

    method Read() returns (p: seq<byte>)
      requires pos <= |file|
      modifies `pos
      ensures p == ReadAt(file, old(pos), blockSize) && pos == old(pos) + |p|
    {
      p := if pos + blockSize <= |file| then file[pos..pos + blockSize] else file[pos..];
      pos := pos + |p|;
    }

    method SendDataPackets(count: nat)
      requires State().Valid()
      modifies `pos, `sent
      ensures sent == old(sent) + SendData(State(), file, count)
    {
      hide Packets, ReadAt, SeekTo;
      SeekBound(file, transferred);
      PacketsEnd(State(), file, count);
      pos := SeekTo(file, transferred);
      var last, n := false, 0;
      while !last && n < count
        invariant n <= count && pos <= |file|
        invariant sent + (if last then [] else Packets(State(), file, n, count, pos)) ==
                  old(sent) + SendData(State(), file, count)
      {
        var p := Read();
        if |p| < blockSize {
          last := true;
        }
        PacketsStep(sent, State(), file, n, count, pos - |p|);
        sent := sent + [Data(State().Number(n + 1), p)];
        n := n + 1;
      }
    }

    method ProcessAckPacket(block: nat)
      requires State().Valid() && block < WRAP
      modifies `lastBlock, `transferred, `completed, `success, `retransmits, `pos, `sent
      ensures var (c, d) := ProcessAck(old(State()), file, block);
        State() == c && sent == old(sent) + d
    {
      var blocks: int := window;
      while blocks >= 0
        invariant -1 <= blocks <= window
        invariant Search(State(), block, window) == Search(State(), block, blocks)
      {
        if block == ExpectedBlock(lastBlock, rollover, blocks) {
          break;
        }
        blocks := blocks - 1;
      }
      if blocks < 0 {
        return;
      }
      if blocks > 0 {
        retransmits := 0;
      }
      lastBlock := block;
      transferred := transferred + Times(blockSize, blocks);
      if transferred > totalSize {
        completed := true;
        success := true;
      } else {
        SendDataPackets(if blocks == window then window else 1);
      }
    }

    method Timer()
      requires State().Valid()
      modifies `completed, `success, `timeouts, `retransmits, `pos, `sent
      ensures var (c, d) := TimerExpired(old(State()), file);
        State() == c && sent == old(sent) + d
    {
      if retransmits > 20 {
        completed := true;
        success := false;
        return;
      }
      if completed {
        return;
      }
      if started {
        SendDataPackets(1);
      }
      timeouts := timeouts + 1;
      retransmits := retransmits + 1;
    }
  }

  // ----- client, server and network together

  /**
   * `acked` and `got` are the blocks the client knows delivered and the blocks the server has stored in `copy`. `sent`
   * holds every DATA packet that may still be delivered, as the client made it and beside it the place in the file it was
   * made for, which no rule below looks at; `acks` holds every ACK.
   */
  datatype System = System(c: Client, file: seq<byte>, acked: nat, got: nat, copy: seq<byte>,
                           sent: set<(nat, Data)>, acks: set<nat>)

  datatype Event =
    | ServerSends
    | ServerHears(k: nat, d: Data)
    | ClientHears(k: nat)
    | ClientHearsOptions
    | ClientHearsError
    | TimerFires

  function Blocks(s: System): nat
    requires s.c.Valid()
  {
    BlockCount(|s.file|, s.c.blockSize)
  }

  /** Nothing is delivered that is stale by nearly a turn of the block counter. */
  ghost predicate Enabled(s: System, e: Event)
    requires s.c.Valid()
  {
    match e
    case ServerHears(k, d) => (k, d) in s.sent && s.got + 1 < k + 0xffff
    case ClientHears(k) => k in s.acks && s.acked + s.c.window < k + 0xffff
    case _ => true
  }

  /** The packets `d` enter the network as the blocks after `acked`. */
  function Send(s: System, d: seq<Data>): System {
    s.(sent := s.sent + set i | 0 <= i < |d| :: (s.acked + 1 + i, d[i]))
  }

  /** The server takes the block in turn, by the number on the packet, until it has had the short one. */
  predicate ServerTakes(s: System, d: Data)
    requires s.c.Valid()
  {
    s.got < Blocks(s) && d.number == ExpectedBlock(Wire(s.got, s.c.rollover), s.c.rollover, 1)
  }

  function Next(s: System, e: Event): System
    requires s.c.Valid() && Enabled(s, e)
  {
    match e
    case ServerSends => s.(acks := s.acks + {s.got})
    case ServerHears(_, d) => if ServerTakes(s, d) then s.(got := s.got + 1, copy := s.copy + d.payload) else s
    case ClientHears(k) =>
      var number := Wire(k, s.c.rollover);
      var m := Search(s.c, number, s.c.window);
      var (c, d) := ProcessAck(s.c, s.file, number);
      Send(s.(c := c, acked := if m < 0 then s.acked else s.acked + m), d)
    case ClientHearsOptions => Send(s, SendData(s.c, s.file, s.c.window))
    case ClientHearsError => s.(c := s.c.(completed := true, success := false))
    case TimerFires =>
      var (c, d) := TimerExpired(s.c, s.file);
      Send(s.(c := c), d)
  }

  // ----- what is sent

  /** A packet of the transfer: block `k` with its own number and slice, or the empty block past the end. */
  ghost predicate Honest(s: System, k: nat, d: Data)
    requires s.c.Valid()
  {
    && 1 <= k <= s.acked + s.c.window
    && d.number == Wire(k, s.c.rollover)
    && (k <= Blocks(s) ==> d.payload == Slice(s.file, s.c.blockSize, k - 1))
    && (k > Blocks(s) ==> k == Blocks(s) + 1 && s.acked == Blocks(s) && d.payload == [])
  }

  /** `d` are the blocks of the file that follow block `from`, each with its number and its slice. */
  ghost predicate InOrder(d: seq<Data>, file: seq<byte>, bs: nat, rollover: nat, from: nat)
    requires bs > 0 && rollover <= 1
  {
    && from + |d| <= BlockCount(|file|, bs)
    && forall i :: 0 <= i < |d| ==> d[i] == Data(Wire(from + i + 1, rollover), Slice(file, bs, from + i))
  }

  lemma InOrderCons(d: seq<Data>, file: seq<byte>, bs: nat, rollover: nat, from: nat)
    requires bs > 0 && rollover <= 1 && from < BlockCount(|file|, bs) && InOrder(d, file, bs, rollover, from + 1)
    ensures InOrder([Data(Wire(from + 1, rollover), Slice(file, bs, from))] + d, file, bs, rollover, from)
  {
    hide BlockCount, Wire, Slice;
    var e := [Data(Wire(from + 1, rollover), Slice(file, bs, from))] + d;
    forall i | 0 <= i < |e| ensures e[i] == Data(Wire(from + i + 1, rollover), Slice(file, bs, from + i)) {
      if i > 0 { assert e[i] == d[i - 1]; }
    }
  }

  lemma InOrderNil(file: seq<byte>, bs: nat, rollover: nat, from: nat)
    requires bs > 0 && rollover <= 1 && from <= BlockCount(|file|, bs)
    ensures InOrder([], file, bs, rollover, from)
  {
  }

  function Least(a: nat, b: nat): nat { if a < b then a else b }

  /** The packets are as many as were asked for, or as the file still has blocks for, each with its number and slice. */
  lemma {:induction false} PacketsAre(c: Client, file: seq<byte>, acked: nat, n: nat, count: nat, pos: nat)
    requires c.Valid() && pos <= |file| && c.lastBlock == Wire(acked, c.rollover) && count <= 0xffff
    requires n <= count && acked + n < BlockCount(|file|, c.blockSize) && pos == Times(c.blockSize, acked + n)
    ensures var d := Packets(c, file, n, count, pos);
      && |d| == Least(count - n, BlockCount(|file|, c.blockSize) - (acked + n))
      && InOrder(d, file, c.blockSize, c.rollover, acked + n)
    decreases count - n
  {
    hide BlockCount, Wire, ExpectedBlock, Packets, ReadAt, InOrder, Slice;
    if n == count {
      PacketsEnd(c, file, count);
      InOrderNil(file, c.blockSize, c.rollover, acked + n);
    } else {
      var p := ReadAt(file, pos, c.blockSize);
      PacketsUnfold(c, file, n, count, pos);
      ReadIsSlice(file, c.blockSize, acked + n);
      ExpectedIsWire(acked, c.rollover, n + 1);
      ShortIsLast(file, c.blockSize, acked + n);
      if |p| < c.blockSize {
        InOrderNil(file, c.blockSize, c.rollover, acked + n + 1);
        InOrderCons([], file, c.blockSize, c.rollover, acked + n);
      } else {
        var d := Packets(c, file, n + 1, count, pos + |p|);
        NextPos(file, c.blockSize, acked + n);
        PacketsAre(c, file, acked, n + 1, count, pos + |p|);
        InOrderCons(d, file, c.blockSize, c.rollover, acked + n);
      }
    }
  }

  lemma NextPos(file: seq<byte>, bs: nat, k: nat)
    requires bs > 0 && k < BlockCount(|file|, bs) && |Slice(file, bs, k)| == bs
    ensures k + 1 < BlockCount(|file|, bs) && Times(bs, k + 1) == Times(bs, k) + bs <= |file|
  {
    ShortIsLast(file, bs, k);
    BlockCountBounds(|file|, bs, k + 1);
  }

  lemma ReadIsSlice(file: seq<byte>, bs: nat, k: nat)
    requires bs > 0 && k < BlockCount(|file|, bs)
    ensures Times(bs, k) <= |file| && ReadAt(file, Times(bs, k), bs) == Slice(file, bs, k)
  {
    BlockCountBounds(|file|, bs, k);
  }

  // ----- what holds in every run

  ghost predicate Inv(s: System) {
    && s.c.Valid() && s.c.started && s.c.totalSize == |s.file|
    && s.c.lastBlock == Wire(s.acked, s.c.rollover) && s.c.transferred == Times(s.c.blockSize, s.acked)
    && s.acked <= s.got <= Blocks(s) && s.got <= s.acked + s.c.window
    && s.copy == Head(s.file, s.c.blockSize, s.got)
    && (forall k, d :: (k, d) in s.sent ==> Honest(s, k, d))
    && (forall k :: k in s.acks ==> k <= s.got)
    && (s.c.success ==> s.acked == Blocks(s))
    && (s.acked == Blocks(s) ==> s.c.completed)
  }

  lemma SendDataIs(s: System, count: nat)
    requires s.c.Valid() && s.acked <= Blocks(s) && count <= s.c.window
    requires s.c.lastBlock == Wire(s.acked, s.c.rollover) && s.c.transferred == Times(s.c.blockSize, s.acked)
    ensures var d := SendData(s.c, s.file, count);
      && |d| <= count
      && (s.acked < Blocks(s) ==> |d| == Least(count, Blocks(s) - s.acked))
      && (s.acked < Blocks(s) ==> InOrder(d, s.file, s.c.blockSize, s.c.rollover, s.acked))
      && (s.acked == Blocks(s) ==> |d| <= 1 && forall i :: 0 <= i < |d| ==> d[i] == Data(Wire(s.acked + 1, s.c.rollover), []))
  {
    hide InOrder, Wire, BlockCount, ExpectedBlock;
    BlockCountBounds(|s.file|, s.c.blockSize, s.acked);
    if s.acked < Blocks(s) {
      PacketsAre(s.c, s.file, s.acked, 0, count, s.c.transferred);
    } else {
      ExpectedIsWire(s.acked, s.c.rollover, 1);
    }
  }

  /** Whatever is sent for the blocks after `acked` is honest. */
  lemma SendKeeps(s: System, d: seq<Data>, count: nat)
    requires Inv(s) && count <= s.c.window && (d == SendData(s.c, s.file, count) || d == [])
    ensures Inv(Send(s, d))
  {
    hide Wire, BlockCount, SendData, Slice, Head;
    SendDataIs(s, count);
    var t := Send(s, d);
    forall k, e | (k, e) in t.sent ensures Honest(t, k, e) {
      if (k, e) in s.sent {
        assert Honest(s, k, e);
      } else {
        var i :| 0 <= i < |d| && (k, e) == (s.acked + 1 + i, d[i]);
      }
    }
  }

  /** An acknowledgement in the window says how many blocks it covers; one from before the window says nothing. */
  lemma SearchIs(s: System, k: nat)
    requires s.c.Valid() && s.c.lastBlock == Wire(s.acked, s.c.rollover)
    requires k <= s.acked + s.c.window < k + 0xffff
    ensures Search(s.c, Wire(k, s.c.rollover), s.c.window) == if k < s.acked then -1 else k - s.acked
  {
    hide Wire, ExpectedBlock;
    var m := Search(s.c, Wire(k, s.c.rollover), s.c.window);
    if k >= s.acked {
      ExpectedIsWire(s.acked, s.c.rollover, k - s.acked);
      assert Wire(k, s.c.rollover) == s.c.Number(k - s.acked);
    }
    if m >= 0 {
      ExpectedIsWire(s.acked, s.c.rollover, m);
      WireUnique(k, s.acked + m, s.c.rollover);
    }
  }

  lemma AckFacts(s: System, k: nat)
    requires Inv(s) && Enabled(s, ClientHears(k))
    ensures k <= s.got <= Blocks(s) && k <= s.acked + s.c.window
    ensures Search(s.c, Wire(k, s.c.rollover), s.c.window) == if k < s.acked then -1 else k - s.acked
    ensures k >= s.acked ==>
      s.c.transferred + Times(s.c.blockSize, k - s.acked) == Times(s.c.blockSize, k)
    ensures Times(s.c.blockSize, k) > s.c.totalSize <==> k == Blocks(s)
  {
    hide Wire, Search, Head, Slice, BlockCount, Times;
    SearchIs(s, k);
    if k >= s.acked { TimesSum(s.c.blockSize, s.acked, k - s.acked); }
    BlockCountBounds(|s.file|, s.c.blockSize, k);
  }

  /** The state after a usable acknowledgement, before anything is sent. */
  function AfterAck(s: System, k: nat): System
    requires s.c.Valid() && k >= s.acked
  {
    s.(c := Advance(s.c, Wire(k, s.c.rollover), k - s.acked), acked := k)
  }

  lemma AckKeeps(s: System, k: nat)
    requires Inv(s) && Enabled(s, ClientHears(k)) && k >= s.acked
    ensures Inv(AfterAck(s, k))
    ensures AfterAck(s, k).c.success <==> s.c.success || k == Blocks(s)
  {
    hide Wire, Head, Slice, BlockCount, Times, Search;
    AckFacts(s, k);
    var t := AfterAck(s, k);
    forall j, p | (j, p) in t.sent ensures Honest(t, j, p) { assert Honest(s, j, p); }
  }

  lemma HearAckIs(s: System, k: nat)
    requires Inv(s) && Enabled(s, ClientHears(k))
    ensures k < s.acked ==> Next(s, ClientHears(k)) == Send(s, [])
    ensures k >= s.acked ==>
      var t := AfterAck(s, k);
      Next(s, ClientHears(k)) ==
      Send(t, if k == Blocks(s) then [] else SendData(t.c, t.file, if k - s.acked == s.c.window then s.c.window else 1))
  {
    hide Wire, Head, Slice, BlockCount, Times, Search, SendData;
    AckFacts(s, k);
  }

  lemma HearAckKeeps(s: System, k: nat)
    requires Inv(s) && Enabled(s, ClientHears(k))
    ensures var t := Next(s, ClientHears(k));
      Inv(t) && if k < s.acked then t.c == s.c else t.acked == k && (t.c.success <==> s.c.success || k == Blocks(t))
  {
    hide Wire, Head, Slice, BlockCount, Times, Search, SendData, Inv, Next;
    HearAckIs(s, k);
    if k < s.acked {
      SendKeeps(s, [], 0);
    } else {
      SuccessOnlyAtEnd(s);
      AckKeeps(s, k);
      SuccessOnlyAtEnd(AfterAck(s, k));
      var count := if k - s.acked == s.c.window then s.c.window else 1;
      SendKeeps(AfterAck(s, k), if k == Blocks(s) then [] else SendData(AfterAck(s, k).c, s.file, count), count);
    }
  }

  lemma SuccessOnlyAtEnd(s: System)
    requires Inv(s)
    ensures s.c.Valid() && (s.c.success ==> s.acked == Blocks(s))
  {
  }

  lemma ServerKeeps(s: System, k: nat, d: Data)
    requires Inv(s) && Enabled(s, ServerHears(k, d))
    ensures Inv(Next(s, ServerHears(k, d)))
  {
    hide Wire, Slice, BlockCount, Times;
    assert Honest(s, k, d);
    if ServerTakes(s, d) {
      ExpectedIsWire(s.got, s.c.rollover, 1);
      WireUnique(k, s.got + 1, s.c.rollover);
      var t := Next(s, ServerHears(k, d));
      forall j, q | (j, q) in t.sent ensures Honest(t, j, q) { assert Honest(s, j, q); }
    }
  }

  lemma TimerKeeps(s: System)
    requires Inv(s)
    ensures Inv(Next(s, TimerFires))
  {
    hide Wire, Slice, BlockCount, Times, SendData, Head;
    var (c, d) := TimerExpired(s.c, s.file);
    var t := s.(c := c);
    forall j, q | (j, q) in t.sent ensures Honest(t, j, q) { assert Honest(s, j, q); }
    SameData(s.c, c, s.file);
    SendKeeps(t, d, 1);
  }

  /** What is sent depends on the block numbers, not on the counters. */
  lemma SameData(c: Client, c': Client, file: seq<byte>)
    requires c.Valid() && c' == c.(timeouts := c'.timeouts, retransmits := c'.retransmits, completed := c'.completed,
      success := c'.success)
    ensures c'.Valid() && SendData(c, file, 1) == SendData(c', file, 1)
  {
    PacketsSame(c, c', file, 0, 1, SeekTo(file, c.transferred));
  }

  lemma {:induction false} PacketsSame(c: Client, c': Client, file: seq<byte>, n: nat, count: nat, pos: nat)
    requires c.Valid() && c' == c.(timeouts := c'.timeouts, retransmits := c'.retransmits, completed := c'.completed,
      success := c'.success)
    requires pos <= |file|
    ensures c'.Valid() && Packets(c, file, n, count, pos) == Packets(c', file, n, count, pos)
    decreases count - n
  {
    if n < count {
      var p := ReadAt(file, pos, c.blockSize);
      if |p| == c.blockSize { PacketsSame(c, c', file, n + 1, count, pos + |p|); }
    }
  }

  lemma StepKeeps(s: System, e: Event)
    requires Inv(s) && Enabled(s, e)
    ensures Inv(Next(s, e))
  {
    hide Wire, Slice, BlockCount, Times, SendData, Head, Packets;
    match e
    case ServerHears(k, d) => ServerKeeps(s, k, d);
    case ClientHears(k) => HearAckKeeps(s, k);
    case ClientHearsOptions => SendKeeps(s, SendData(s.c, s.file, s.c.window), s.c.window);
    case TimerFires => TimerKeeps(s);
    case _ =>
      var t := Next(s, e);
      forall j, q | (j, q) in t.sent ensures Honest(t, j, q) { assert Honest(s, j, q); }
  }

  /** The server has answered and nothing is transferred yet. */
  ghost predicate Start(s: System) {
    && s.c.Valid() && s.c.started && s.c.totalSize == |s.file| && s.c.lastBlock == 0 && s.c.transferred == 0
    && !s.c.completed && !s.c.success
    && s.acked == 0 && s.got == 0 && s.copy == [] && s.sent == {} && s.acks == {}
  }

  lemma StartHolds(s: System)
    requires Start(s)
    ensures Inv(s)
  {
  }

  ghost predicate Possible(s: System, events: seq<Event>)
    requires s.c.Valid()
    decreases |events|
  {
    events != [] ==>
      && Enabled(s, events[0])
      && Next(s, events[0]).c.Valid()
      && Possible(Next(s, events[0]), events[1..])
  }

  function Run(s: System, events: seq<Event>): System
    requires s.c.Valid() && Possible(s, events)
    decreases |events|
  {
    if events == [] then s else Run(Next(s, events[0]), events[1..])
  }

  lemma {:induction false} RunKeeps(s: System, events: seq<Event>)
    requires Inv(s) && Possible(s, events)
    ensures Inv(Run(s, events))
    decreases |events|
  {
    if events != [] {
      StepKeeps(s, events[0]);
      RunKeeps(Next(s, events[0]), events[1..]);
    }
  }

  // ----- what a run promises

  /**
   * In every run: the count of bytes transferred is the block size times the blocks acknowledged, every DATA packet
   * made for a block of the file carries the 16-bit number of that block and the slice it names, and the server's copy
   * is a prefix of the file.
   */
  lemma EveryPacketHonest(s: System, events: seq<Event>, k: nat, d: Data)
    requires Start(s) && Possible(s, events)
    ensures var t := Run(s, events);
      && t.c.Valid() && t.c.transferred == Times(t.c.blockSize, t.acked) && t.acked <= t.got <= Blocks(t)
      && t.copy == Head(t.file, t.c.blockSize, t.got)
      && ((k, d) in t.sent ==>
          && 1 <= k <= Blocks(t) + 1 && d.number == Wire(k, t.c.rollover)
          && (k <= Blocks(t) ==> d.payload == Slice(t.file, t.c.blockSize, k - 1))
          && (k > Blocks(t) ==> t.acked == Blocks(t) && d.payload == []))
  {
    hide Slice, Head, Wire, BlockCount, Times;
    StartHolds(s);
    RunKeeps(s, events);
    var t := Run(s, events);
    assert (k, d) in t.sent ==> Honest(t, k, d);
  }

  /** Block `k` of the file is in the network, with its number and its slice. */
  ghost predicate Carries(s: System, k: nat)
    requires s.c.Valid()
  {
    1 <= k <= Blocks(s) && (k, Data(Wire(k, s.c.rollover), Slice(s.file, s.c.blockSize, k - 1))) in s.sent
  }

  lemma SendCarries(s: System, count: nat, k: nat)
    requires Inv(s) && s.acked < Blocks(s) && count <= s.c.window
    requires s.acked < k <= s.acked + Least(count, Blocks(s) - s.acked)
    ensures Carries(Send(s, SendData(s.c, s.file, count)), k)
  {
    hide Wire, BlockCount, SendData, Slice, Head;
    SendDataIs(s, count);
    var d, t := SendData(s.c, s.file, count), Send(s, SendData(s.c, s.file, count));
    var i := k - s.acked - 1;
    assert d[i] == Data(Wire(s.acked + i + 1, s.c.rollover), Slice(s.file, s.c.blockSize, s.acked + i));
    assert (s.acked + 1 + i, d[i]) in t.sent;
  }

  /** While the transfer is under way the timer sends the first block not acknowledged, again if need be. */
  lemma TimerSendsNext(s: System)
    requires Inv(s) && !s.c.completed && s.c.retransmits <= 20
    ensures var t := Next(s, TimerFires);
      t.c.Valid() && t.c.retransmits == s.c.retransmits + 1 && !t.c.completed && Carries(t, s.acked + 1)
  {
    hide Wire, BlockCount, SendData, Slice, Head;
    var (c, d) := TimerExpired(s.c, s.file);
    SameData(s.c, c, s.file);
    SendCarries(s, 1, s.acked + 1);
    SentSame(s, s.(c := c), d, s.acked + 1);
  }

  lemma SentSame(s: System, t: System, d: seq<Data>, k: nat)
    requires s.c.Valid() && t == s.(c := t.c) && t.c.Valid() && t.c.rollover == s.c.rollover && t.c.blockSize == s.c.blockSize
    requires Carries(Send(s, d), k)
    ensures Carries(Send(t, d), k)
  {
    hide Wire, BlockCount, Slice;
  }

  /** Agreeing on options sends a window of blocks, as far as the file has them. */
  lemma OptionsSendWindow(s: System, k: nat)
    requires Inv(s) && s.acked < k <= s.acked + s.c.window && k <= Blocks(s)
    ensures var t := Next(s, ClientHearsOptions); t.c.Valid() && Carries(t, k)
  {
    hide Wire, BlockCount, SendData, Slice, Head;
    SendCarries(s, s.c.window, k);
  }

  /** An acknowledgement of a whole window is answered with the next window, one of fewer blocks with the next block. */
  lemma AckSendsOn(s: System, a: nat, k: nat)
    requires Inv(s) && Enabled(s, ClientHears(a)) && s.acked <= a < k <= Blocks(s)
    requires k <= a + if a == s.acked + s.c.window then s.c.window else 1
    ensures var t := Next(s, ClientHears(a)); t.c.Valid() && t.acked == a && Carries(t, k)
  {
    hide Wire, BlockCount, SendData, Slice, Head, Inv, Next;
    SuccessOnlyAtEnd(s);
    HearAckIs(s, a);
    AckKeeps(s, a);
    SuccessOnlyAtEnd(AfterAck(s, a));
    SendCarries(AfterAck(s, a), if a - s.acked == s.c.window then s.c.window else 1, k);
  }

  lemma TimerStep(s: System)
    requires Inv(s) && !s.c.completed
    ensures var t := Next(s, TimerFires);
      && Inv(t) && t.acked == s.acked && t.file == s.file
      && if s.c.retransmits <= 20 then !t.c.completed && t.c.retransmits == s.c.retransmits + 1
         else t.c.completed && !t.c.success
  {
    hide Wire, BlockCount, SendData, Slice, Head, Honest;
    TimerKeeps(s);
  }

  /** A usable acknowledgement of at least one block starts the count of timers anew, nothing else lowers it. */
  lemma RetransmitsCount(s: System, e: Event)
    requires Inv(s) && Enabled(s, e)
    ensures Next(s, e).c.retransmits ==
      if e.ClientHears? && e.k > s.acked then 0
      else if e.TimerFires? && !s.c.completed && s.c.retransmits <= 20 then s.c.retransmits + 1
      else s.c.retransmits
  {
    hide Wire, BlockCount, SendData, Slice, Head, Honest;
    if e.ClientHears? {
      HearAckIs(s, e.k);
    }
  }

  /** `n` timers one after the other. */
  function Timers(n: nat): seq<Event> { if n == 0 then [] else [TimerFires] + Timers(n - 1) }

  /** A server that falls silent ends the transfer after a fixed number of timers: 21 are answered by sending again, and
      the next one gives up. */
  lemma {:induction false} SilentServer(s: System, n: nat)
    requires Inv(s) && !s.c.completed && s.c.retransmits + n <= 22
    ensures Possible(s, Timers(n))
    ensures var t := Run(s, Timers(n));
      && t.c.Valid() && t.acked == s.acked
      && (s.c.retransmits + n <= 21 ==> !t.c.completed && t.c.retransmits == s.c.retransmits + n)
      && (s.c.retransmits + n == 22 && n > 0 ==> t.c.completed && !t.c.success)
    decreases n
  {
    hide Next, Enabled, Inv;
    ValidOf(s);
    if n > 0 {
      TimerEnabled(s);
      TimerStep(s);
      assert Timers(n)[1..] == Timers(n - 1);
      var t := Next(s, TimerFires);
      ValidOf(t);
      if s.c.retransmits <= 20 {
        SilentServer(t, n - 1);
      } else {
        assert Timers(0) == [];
      }
    }
  }

  lemma ValidOf(s: System)
    requires Inv(s)
    ensures s.c.Valid()
  {
  }

  lemma TimerEnabled(s: System)
    requires s.c.Valid()
    ensures Enabled(s, TimerFires)
  {
  }

  /** A transfer that reports success has delivered the whole file. */
  lemma SuccessIsDelivered(s: System, events: seq<Event>)
    requires Start(s) && Possible(s, events) && Run(s, events).c.success
    ensures var t := Run(s, events);
      t.c.Valid() && t.acked == t.got == Blocks(t) && t.copy == t.file
  {
    StartHolds(s);
    RunKeeps(s, events);
    var t := Run(s, events);
    HeadIs(t.file, t.c.blockSize, t.got);
  }

  /** The transfer ends well exactly when the short block, the last one, is acknowledged. */
  lemma CompletesAtLastAck(s: System, events: seq<Event>, k: nat)
    requires Start(s) && Possible(s, events) && Run(s, events).c.Valid() && Enabled(Run(s, events), ClientHears(k))
    requires !Run(s, events).c.success
    ensures var t := Run(s, events);
      Next(t, ClientHears(k)).c.success <==> k == Blocks(t)
  {
    hide Slice, Head, Wire, Times, Search, SendData;
    StartHolds(s);
    RunKeeps(s, events);
    var t := Run(s, events);
    HearAckKeeps(t, k);
    AckFacts(t, k);
  }
}
