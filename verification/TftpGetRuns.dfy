/** Runs of a download that lead to the places where the client falls short of its window or of the disk. */
module TftpGetRuns {
  import opened Words
  import opened TftpBlocks
  import opened TftpGet

  lemma {:induction false} RunAppend(s: System, a: seq<Event>, b: seq<Event>)
    requires s.c.Valid() && Possible(s, a) && Possible(Run(s, a), b)
    ensures Possible(s, a + b) && Run(s, a + b) == Run(Run(s, a), b)
    decreases |a|
  {
    hide Next, Enabled;
    if a == [] {
      assert a + b == b;
    } else {
      RunAppend(Next(s, a[0]), a[1..], b);
      assert (a + b)[1..] == a[1..] + b;
    }
  }

  lemma RunNone(s: System)
    requires s.c.Valid()
    ensures Possible(s, []) && Run(s, []) == s
  {
  }

  lemma RunOne(s: System, e: Event)
    requires s.c.Valid() && Enabled(s, e) && Next(s, e).c.Valid()
    ensures Possible(s, [e]) && Run(s, [e]) == Next(s, e)
  {
    hide Next, Enabled;
    var t := Next(s, e);
    assert [e][1..] == [];
    assert Possible(t, []) && Run(t, []) == t;
  }

  /** The transfer is under way with `n` blocks accepted. */
  ghost predicate Going(s: System, n: nat) {
    Inv(s, true) && !s.c.completed && s.acked in s.acks && s.got == n
  }

  ghost predicate SameTransfer(s: System, t: System) {
    t.c.rollover == s.c.rollover && t.c.window == s.c.window && t.file == s.file && t.c.blockSize == s.c.blockSize
  }

  /** The window looks full once block `n` has come. */
  predicate FullAt(s: System, n: nat)
    requires s.c.Valid()
  {
    WindowFull(s.c.(lastBlock := Wire(n, s.c.rollover)))
  }

  /** The server hears the last acknowledgement and sends block `n`, which the client hears. */
  function Exchange(acked: nat, n: nat): seq<Event> {
    [ServerHears(acked)] + [ServerSends(n)] + [ClientHears(n, [])]
  }

  lemma Accepts(s: System, n: nat)
    requires n > 0 && Going(s, n - 1) && n < Blocks(s) && Deliverable(s, n)
    ensures Enabled(s, ClientHears(n, []))
    ensures var t := Next(s, ClientHears(n, []));
      && Going(t, n) && SameTransfer(s, t)
      && t.acked == (if FullAt(s, n) then n else s.acked) && t.held == (if FullAt(s, n) then 0 else s.held)
  {
    hide Contents, Wire, Slice, BlockCount, Holds, Ended, Numbered, WriteQueue;
    NumbersOf(s);
    InTurnIsNext(s, n);
    ShortIsLast(s.file, s.c.blockSize, n - 1);
    StepKeeps(s, ClientHears(n, []));
    StepFixed(s, ClientHears(n, []));
    HearIs(s, n, []);
    var c := Turned(s, n).c;
    WriteQueueFlags(Acked(c), []);
    NothingFails(c.queue);
  }

  lemma ExchangeIs(s: System, n: nat)
    requires n > 0 && Going(s, n - 1) && n < Blocks(s) && n <= s.acked + s.c.window
    ensures Possible(s, Exchange(s.acked, n))
    ensures var t := Run(s, Exchange(s.acked, n));
      && Going(t, n) && SameTransfer(s, t)
      && t.acked == (if FullAt(s, n) then n else s.acked) && t.held == (if FullAt(s, n) then 0 else s.held)
  {
    hide Contents, Wire, Slice, BlockCount, Holds, Ended, Numbered, Possible, Run;
    var e1, e2, e3 := ServerHears(s.acked), ServerSends(n), ClientHears(n, []);
    StepKeeps(s, e1);
    RunOne(s, e1);
    var s1 := Next(s, e1);
    StepKeeps(s1, e2);
    RunOne(s1, e2);
    RunAppend(s, [e1], [e2]);
    var s2 := Next(s1, e2);
    Accepts(s2, n);
    RunOne(s2, e3);
    RunAppend(s, [e1] + [e2], [e3]);
  }

  lemma StartGoes(s: System)
    requires Start(s)
    ensures Going(s, 0) && s.held == 0
  {
    StartHolds(s);
  }

  // ----- a full disk

  /** A one-byte file and a full disk: the transfer still ends in success. */
  lemma ShortWriteUnnoticed(s: System)
    requires Start(s) && s.file == [5] && s.c.blockSize == 512 && s.c.room == 0
    ensures var events := [ServerSends(1)] + [ClientHears(1, [])];
      Possible(s, events) && Run(s, events).c.success && Run(s, events).c.disk == []
  {
    hide Contents, Wire, Slice, Holds, Ended, Numbered, Possible, Run;
    StartHolds(s);
    var e1, e2 := ServerSends(1), ClientHears(1, []);
    StepKeeps(s, e1);
    RunOne(s, e1);
    var t := Next(s, e1);
    LastBlockEnds(t, 1);
    StepKeeps(t, e2);
    RunOne(t, e2);
    RunAppend(s, [e1], [e2]);
    SuccessIsWhole(s, [e1] + [e2]);
  }

  lemma LastBlockEnds(s: System, n: nat)
    requires Inv(s, true) && !s.c.completed && n == s.got + 1 == Blocks(s) && Deliverable(s, n)
    ensures Enabled(s, ClientHears(n, [])) && Next(s, ClientHears(n, [])).c.success
  {
    hide Contents, Wire, Slice, BlockCount, Holds, Ended, Numbered, WriteQueue;
    NumbersOf(s);
    InTurnIsNext(s, n);
    ShortIsLast(s.file, s.c.blockSize, n - 1);
    HearIs(s, n, []);
    var c := Turned(s, n).c;
    WriteQueueFlags(Acked(c), []);
    NothingFails(c.queue);
  }

  // ----- options acknowledged over a queue

  /** The first `n` blocks in order, the options acknowledged anew after each of them. */
  function OptionsEachTime(n: nat): seq<Event> {
    if n == 0 then [] else OptionsEachTime(n - 1) + (Exchange(n - 1, n) + [ClientHearsOptions])
  }

  lemma OptionsAfterBlock(s: System, n: nat)
    requires n > 0 && Going(s, n - 1) && s.acked == s.held == n - 1
    requires s.c.rollover == 0 && s.c.window >= 2 && n < Blocks(s)
    ensures var e := Exchange(n - 1, n) + [ClientHearsOptions];
      Possible(s, e) &&
      var t := Run(s, e);
      Going(t, n) && SameTransfer(s, t) && t.acked == t.held == n
  {
    hide Contents, Wire, Slice, BlockCount, Holds, Ended, Numbered, Possible, Run, Exchange;
    ExchangeIs(s, n);
    var t := Run(s, Exchange(n - 1, n));
    NumbersOf(s);
    WindowFullIs(s.(got := n, c := s.c.(lastBlock := Wire(n, 0))));
    StepKeeps(t, ClientHearsOptions);
    RunOne(t, ClientHearsOptions);
    RunAppend(s, Exchange(n - 1, n), [ClientHearsOptions]);
  }

  lemma {:induction false} OptionsEachTimeIs(s: System, n: nat)
    requires Start(s) && s.c.rollover == 0 && s.c.window >= 2 && n < Blocks(s)
    ensures Possible(s, OptionsEachTime(n))
    ensures var t := Run(s, OptionsEachTime(n)); Going(t, n) && SameTransfer(s, t) && t.acked == t.held == n
  {
    hide Contents, Wire, Slice, BlockCount, Holds, Ended, Numbered, Possible, Exchange;
    if n == 0 {
      StartGoes(s);
      RunNone(s);
    } else {
      OptionsEachTimeIs(s, n - 1);
      var t := Run(s, OptionsEachTime(n - 1));
      OptionsAfterBlock(t, n);
      RunAppend(s, OptionsEachTime(n - 1), Exchange(n - 1, n) + [ClientHearsOptions]);
    }
  }

  /** With a window of two blocks or more, repeated options acknowledgements let the queue grow to any number of blocks
      short of the whole file, whatever the window. */
  lemma LateOptionsOverfill(s: System, n: nat)
    requires Start(s) && s.c.rollover == 0 && s.c.window >= 2 && n < Blocks(s)
    ensures Possible(s, OptionsEachTime(n)) && |Run(s, OptionsEachTime(n)).c.queue| == n
  {
    hide Contents, Wire, Slice, BlockCount, Holds, Ended, Numbered, Possible, Run;
    OptionsEachTimeIs(s, n);
  }

  /** Window 2 and a file of three full blocks: the third block makes the queue longer than the window. */
  lemma QueueOverWindow(s: System)
    requires Start(s) && s.c.rollover == 0 && s.c.window == 2 && s.c.blockSize == 512 && |s.file| == 1536
    ensures Possible(s, OptionsEachTime(3)) && |Run(s, OptionsEachTime(3)).c.queue| > s.c.window
  {
    LateOptionsOverfill(s, 3);
  }

  // ----- the window test under rollover 1

  /** The last block before or at `n` that fills a window of `w` blocks. */
  function LastFull(n: nat, w: nat): nat
    requires w > 0
  {
    n - n % w
  }

  /** The first `n` blocks, in order and none lost, every acknowledgement heard. */
  function InOrder(n: nat, w: nat): seq<Event>
    requires w > 0
  {
    if n == 0 then [] else InOrder(n - 1, w) + Exchange(LastFull(n - 1, w), n)
  }

  /** Up to the turn of the counter every full window is noticed. */
  lemma {:induction false} InOrderIs(s: System, n: nat)
    requires Start(s) && s.c.rollover == 1 && n < Blocks(s) && n <= 0xffff && (s.c.window == 3 || s.c.window == 8)
    ensures var w := s.c.window;
      Possible(s, InOrder(n, w)) &&
      var t := Run(s, InOrder(n, w));
      Going(t, n) && SameTransfer(s, t) && t.acked == LastFull(n, w) && t.held == 0
  {
    hide Contents, Wire, Slice, BlockCount, Holds, Ended, Numbered, Possible, Exchange, LastFull;
    var w := s.c.window;
    if n == 0 {
      StartGoes(s);
      RunNone(s);
      NoneFull(w);
    } else {
      InOrderIs(s, n - 1);
      InOrderStep(Run(s, InOrder(n - 1, w)), n);
      RunAppend(s, InOrder(n - 1, w), Exchange(LastFull(n - 1, w), n));
    }
  }

  lemma InOrderStep(s: System, n: nat)
    requires n > 0 && Going(s, n - 1) && s.c.rollover == 1 && (s.c.window == 3 || s.c.window == 8)
    requires n < Blocks(s) && n <= 0xffff && s.acked == LastFull(n - 1, s.c.window) && s.held == 0
    ensures Possible(s, Exchange(s.acked, n))
    ensures var t := Run(s, Exchange(s.acked, n));
      Going(t, n) && SameTransfer(s, t) && t.acked == LastFull(n, s.c.window) && t.held == 0
  {
    hide Contents, Wire, Slice, BlockCount, Holds, Ended, Numbered, Possible, Run, Exchange, LastFull;
    LastFullStep(n, s.c.window);
    ExchangeIs(s, n);
    NumbersOf(s);
    WindowFullUnderRollover1(s.(got := n, c := s.c.(lastBlock := Wire(n, 1))));
    WireBeforeTurn(s.acked);
  }

  lemma NoneFull(w: nat)
    requires w > 0
    ensures LastFull(0, w) == 0
  {
  }

  lemma LastFullStep(n: nat, w: nat)
    requires n > 0 && (w == 3 || w == 8)
    ensures LastFull(n - 1, w) < n <= LastFull(n - 1, w) + w
    ensures LastFull(n, w) == if n == LastFull(n - 1, w) + w then n else LastFull(n - 1, w)
  {
    if w == 3 {
    } else {
    }
  }

  lemma WireBeforeTurn(k: nat)
    requires k <= 0xffff
    ensures Wire(k, 1) == k
  {
  }

  /** Window 8: block 65536, numbered 1, fills the window that block 65528 began, and is not acknowledged. */
  lemma FullWindowMissed(s: System)
    requires Start(s) && s.c.rollover == 1 && s.c.window == 8 && Blocks(s) > 0x1_0000
    ensures var events := InOrder(0xffff, 8) + Exchange(0xfff8, 0x1_0000);
      Possible(s, events) &&
      var t := Run(s, events);
      t.got == 0x1_0000 && t.acked == 0xfff8 && |t.c.queue| == s.c.window
  {
    hide Contents, Wire, Slice, BlockCount, Holds, Ended, Numbered, Possible, Run, Exchange, InOrder;
    InOrderIs(s, 0xffff);
    var t := Run(s, InOrder(0xffff, 8));
    OnePastTurn(t, 0x1_0000);
    RunAppend(s, InOrder(0xffff, 8), Exchange(0xfff8, 0x1_0000));
  }

  /** Window 3: of the window that begins after block 65535 only two blocks have come when it is acknowledged. */
  lemma WindowFlushedEarly(s: System)
    requires Start(s) && s.c.rollover == 1 && s.c.window == 3 && Blocks(s) > 0x1_0001
    ensures var before := InOrder(0xffff, 3) + Exchange(0xffff, 0x1_0000);
      Possible(s, before) && Possible(s, before + Exchange(0xffff, 0x1_0001)) &&
      var t := Run(s, before + Exchange(0xffff, 0x1_0001));
      Run(s, before).acked == 0xffff && t.got == t.acked == 0x1_0001 && t.c.queue == []
  {
    hide Contents, Wire, Slice, BlockCount, Holds, Ended, Numbered, Possible, Run, Exchange, InOrder;
    InOrderIs(s, 0xffff);
    var t := Run(s, InOrder(0xffff, 3));
    OnePastTurn(t, 0x1_0000);
    RunAppend(s, InOrder(0xffff, 3), Exchange(0xffff, 0x1_0000));
    var before := InOrder(0xffff, 3) + Exchange(0xffff, 0x1_0000);
    OnePastTurn(Run(s, before), 0x1_0001);
    RunAppend(s, before, Exchange(0xffff, 0x1_0001));
  }

  /** The block after the turn of the counter, or the one after that. */
  lemma OnePastTurn(s: System, n: nat)
    requires (n == 0x1_0000 || n == 0x1_0001) && Going(s, n - 1) && s.c.rollover == 1 && n < Blocks(s)
    requires s.acked <= 0xffff && n <= s.acked + s.c.window
    ensures Possible(s, Exchange(s.acked, n))
    ensures var t := Run(s, Exchange(s.acked, n));
      && Going(t, n) && SameTransfer(s, t)
      && var full := n - 0xffff == (s.acked + s.c.window) % WRAP;
      t.acked == (if full then n else s.acked) && t.held == (if full then 0 else s.held)
  {
    hide Contents, Wire, Slice, BlockCount, Holds, Ended, Numbered, Possible, Run, Exchange;
    ExchangeIs(s, n);
    NumbersOf(s);
    WireBeforeTurn(s.acked);
    WirePastTurn();
  }

  lemma WirePastTurn()
    ensures Wire(0x1_0000, 1) == 1 && Wire(0x1_0001, 1) == 2
  {
  }
}
