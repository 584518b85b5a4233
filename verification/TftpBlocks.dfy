/** TFTP block numbers and the division of a file into blocks (RFC 1350 sections 2 and 6, RFC 7440 section 3). */
module TftpBlocks {
  import opened Words

  const WRAP := 0x1_0000

  /** `expected_block_number`: `count` blocks on from `last`. */
  function ExpectedBlock(last: nat, rollover: nat, count: nat): (b: nat)
    requires last < WRAP
  {
    var b := last + count;
    if b > 0xffff then
      if b - WRAP <= count && rollover == 1 then b - WRAP + 1 else b - WRAP
    else b
  }

  /** The block number after `b`: 65535 is followed by the rollover value. */
  function Successor(b: nat, rollover: nat): nat {
    if b == 0xffff then rollover else b + 1
  }

  function Steps(b: nat, rollover: nat, n: nat): nat {
    if n == 0 then b else Successor(Steps(b, rollover, n - 1), rollover)
  }

  /** The number that block `k` of a transfer carries; block 0 is the one before the first. */
  function Wire(k: nat, rollover: nat): (b: nat)
    requires rollover <= 1
    ensures b < WRAP
  {
    if k == 0 then 0
    else if rollover == 0 then k % WRAP
    else (k - 1) % 0xffff + 1
  }

  /** `expected_block_number` counts on by as many successors as it is asked to. */
  lemma {:induction false} ExpectedIsSteps(last: nat, rollover: nat, count: nat)
    requires last < WRAP && rollover <= 1 && count <= 0xffff
    ensures ExpectedBlock(last, rollover, count) == Steps(last, rollover, count)
  {
    if count > 0 {
      ExpectedIsSteps(last, rollover, count - 1);
    }
  }

  /** Past one turn of the counter it no longer does. */
  lemma ExpectedIsStepsOnce()
    ensures ExpectedBlock(0xffff, 0, 0x1_0001) != Steps(0xffff, 0, 0x1_0001)
  {
    StepsBounded(0xffff, 0, 0x1_0001);
  }

  lemma {:induction false} StepsBounded(b: nat, rollover: nat, n: nat)
    requires b < WRAP && rollover <= 1
    ensures Steps(b, rollover, n) < WRAP
  {
    if n > 0 { StepsBounded(b, rollover, n - 1); }
  }

  lemma WireNext(k: nat, rollover: nat)
    requires rollover <= 1
    ensures Wire(k + 1, rollover) == Successor(Wire(k, rollover), rollover)
  {
    if rollover == 0 {
      ModStep(k, 1, WRAP);
    } else if k > 0 {
      ModStep(k - 1, 1, 0xffff);
    }
  }

  lemma {:induction false} WireIsSteps(k: nat, rollover: nat)
    requires rollover <= 1
    ensures Wire(k, rollover) == Steps(0, rollover, k)
  {
    if k > 0 {
      WireIsSteps(k - 1, rollover);
      WireNext(k - 1, rollover);
    }
  }

  lemma ExpectedIsWire(k: nat, rollover: nat, count: nat)
    requires rollover <= 1 && count <= 0xffff
    ensures ExpectedBlock(Wire(k, rollover), rollover, count) == Wire(k + count, rollover)
  {
    if rollover == 0 {
      ModStep(k, count, WRAP);
    } else if k > 0 {
      ModStep(k - 1, count, 0xffff);
    }
  }

  lemma ModStep(x: nat, c: nat, m: nat)
    requires (m == WRAP || m == 0xffff) && c <= m
    ensures x % m + c < m ==> (x + c) % m == x % m + c
    ensures m <= x % m + c < 2 * m ==> (x + c) % m == x % m + c - m
  {
    if m == WRAP {
      WrapStep(x, c);
    } else {
      TurnStep(x, c);
    }
  }

  lemma WrapStep(x: nat, c: nat)
    requires c <= WRAP
    ensures (x + c) % WRAP == if x % WRAP + c < WRAP then x % WRAP + c else x % WRAP + c - WRAP
  {
    var q := x / WRAP;
    assert x == WRAP * q + x % WRAP;
  }

  lemma TurnStep(x: nat, c: nat)
    requires c <= 0xffff
    ensures (x + c) % 0xffff == if x % 0xffff + c < 0xffff then x % 0xffff + c else x % 0xffff + c - 0xffff
  {
    var q := x / 0xffff;
    assert x == 0xffff * q + x % 0xffff;
  }

  /** Blocks closer than a turn of the counter are told apart by their numbers. */
  lemma WireUnique(a: nat, b: nat, rollover: nat)
    requires rollover <= 1 && Wire(a, rollover) == Wire(b, rollover)
    requires a < b + 0xffff && b < a + 0xffff
    ensures a == b
  {
  }

  /** The number of blocks a file makes: the last one is short, perhaps empty. */
  function BlockCount(size: nat, bs: nat): nat
    requires bs > 0
  {
    size / bs + 1
  }

  lemma BlockCountBounds(size: nat, bs: nat, k: nat)
    requires bs > 0
    ensures Times(bs, k) <= size <==> k < BlockCount(size, bs)
  {
    TimesIsProduct(bs, size / bs);
    TimesIsProduct(bs, size / bs + 1);
    assert size == bs * (size / bs) + size % bs;
    assert bs * (size / bs + 1) == bs * (size / bs) + bs;
    if k < size / bs { TimesStep(bs, k, size / bs); }
    if k > size / bs + 1 { TimesStep(bs, size / bs + 1, k); }
  }

  /** The bytes of `file` from block `k` (counted from 0) on, at most `bs` of them. */
  function Slice(file: seq<byte>, bs: nat, k: nat): (s: seq<byte>)
    requires bs > 0 && k < BlockCount(|file|, bs)
    ensures |s| <= bs
  {
    BlockCountBounds(|file|, bs, k);
    var at := Times(bs, k);
    if at + bs <= |file| then file[at..at + bs] else file[at..]
  }

  /** The first `k` blocks of a file. */
  function Head(file: seq<byte>, bs: nat, k: nat): (s: seq<byte>)
    requires bs > 0 && k <= BlockCount(|file|, bs)
  {
    if k == 0 then [] else Head(file, bs, k - 1) + Slice(file, bs, k - 1)
  }

  /** A prefix of the file, all of it exactly when every block is there. */
  lemma {:induction false} HeadIs(file: seq<byte>, bs: nat, k: nat)
    requires bs > 0 && k <= BlockCount(|file|, bs)
    ensures k < BlockCount(|file|, bs) ==> Times(bs, k) <= |file|
    ensures Head(file, bs, k) == if k < BlockCount(|file|, bs) then file[..Times(bs, k)] else file
  {
    hide BlockCount, Slice;
    BlockCountBounds(|file|, bs, k);
    if k > 0 {
      BlockCountBounds(|file|, bs, k - 1);
      HeadIs(file, bs, k - 1);
      HeadGrows(file, bs, k - 1);
    }
  }

  lemma HeadGrows(file: seq<byte>, bs: nat, k: nat)
    requires bs > 0 && k < BlockCount(|file|, bs)
    ensures Times(bs, k) <= |file| && (k + 1 < BlockCount(|file|, bs) ==> Times(bs, k + 1) <= |file|)
    ensures file[..Times(bs, k)] + Slice(file, bs, k) ==
      if k + 1 < BlockCount(|file|, bs) then file[..Times(bs, k + 1)] else file
  {
    hide BlockCount;
    BlockCountBounds(|file|, bs, k);
    BlockCountBounds(|file|, bs, k + 1);
    var at := Times(bs, k);
    assert Times(bs, k + 1) == at + bs;
    if k + 1 < BlockCount(|file|, bs) {
      assert file[..at] + file[at..at + bs] == file[..at + bs];
    } else {
      assert file[..at] + file[at..] == file;
    }
  }

  /** Only the last block is short. */
  lemma ShortIsLast(file: seq<byte>, bs: nat, k: nat)
    requires bs > 0 && k < BlockCount(|file|, bs)
    ensures |Slice(file, bs, k)| < bs <==> k + 1 == BlockCount(|file|, bs)
  {
    BlockCountBounds(|file|, bs, k);
    BlockCountBounds(|file|, bs, k + 1);
    assert Times(bs, k + 1) == Times(bs, k) + bs;
  }
}
