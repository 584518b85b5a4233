/** Directory tables as sequences of 32-byte entries on a volume: reading, finding, reserving and registering. */
module Directories {
  import opened Words
  import opened Layout
  import opened Drive
  import opened Chains
  import opened Allocator
  import opened AllocatorProofs
  import opened FileView
  import opened FileObjects
  import opened LongNames
  import opened DirTables
  import FileRuns
  import Mount
  import Volumes

  const DDEM := 0xE5
  const DOT := 0x2E
  const NONE := 0xFFFF_FFFF
  /** `MAX_DIR` in entries. */
  const MAX_SLOTS := 0x1_0000

  ghost predicate Table(slots: seq<seq<byte>>) { forall i :: 0 <= i < |slots| ==> |slots[i]| == SLOT }

  /** `sum_sfn` in byte arithmetic: rotate right, add. */
  function SumFrom(d: seq<byte>, n: nat, sum: nat): (r: nat)
    requires |d| >= 11 && n <= 11 && sum < 0x100
    ensures r < 0x100
    decreases 11 - n
  {
    if n == 11 then sum else SumFrom(d, n + 1, (sum / 2 + sum % 2 * 0x80 + d[n] as int) % 0x100)
  }

  function SumSfn(d: seq<byte>): (r: nat)
    requires |d| == SLOT
    ensures r < 0x100
  {
    SumFrom(d, 0, 0)
  }

  function Attr(d: seq<byte>): nat
    requires |d| == SLOT
  {
    d[11] as int % 0x40
  }

  /** A volume label, archived or not. */
  predicate Label(attr: nat) { attr % 0x20 == 8 }

  /** An entry the reader stops at: neither deleted, nor a dot entry, a volume label or a part of a long name. */
  predicate Stops(d: seq<byte>)
    requires |d| == SLOT
  {
    d[0] as int != DDEM && d[0] as int != DOT && !Label(Attr(d)) && Attr(d) != AM_LFN
  }

  // ----- dir_read

  /** The reader's variables: expected order, checksum, name buffer, offset of the name's first entry. */
  datatype Reader = Reader(ord: nat, sum: nat, buf: seq<nat>, blk: nat)
  {
    predicate Valid() { ord < 0x100 && sum < 0x100 && |buf| == FF_MAX_LFN + 1 }
  }

  /** The order and checksum after a part of a long name is seen to start, or not, a new sequence. */
  function Begun(r: Reader, d: seq<byte>, at: nat): (r': Reader)
    requires r.Valid() && |d| == SLOT
    ensures r'.Valid()
  {
    if IsLast(d) then r.(ord := Order(d), sum := d[SUM_AT] as int, blk := at) else r
  }

  /** The entry's own order, the start flag taken off if it is set. */
  function OwnOrder(d: seq<byte>): (o: nat)
    requires |d| == SLOT
    ensures o < 0x100
  {
    if IsLast(d) then Order(d) else d[0] as int
  }

  function Taken(r: Reader, d: seq<byte>, at: nat): (r': Reader)
    requires r.Valid() && |d| == SLOT
    ensures r'.Valid()
  {
    var r1 := Begun(r, d, at);
    if OwnOrder(d) == r1.ord && r1.sum == d[SUM_AT] as int then
      var p := Pick(r1.buf, d);
      r1.(ord := if p.Picked? then (r1.ord + 0xFF) % 0x100 else 0xFF, buf := p.buf)
    else r1.(ord := 0xFF)
  }

  /** What one entry does to the reader. */
  function Seen(r: Reader, d: seq<byte>, at: nat): (r': Reader)
    requires r.Valid() && |d| == SLOT
    ensures r'.Valid()
  {
    if d[0] as int == DDEM || d[0] as int == DOT || Label(Attr(d)) then r.(ord := 0xFF)
    else if Attr(d) == AM_LFN then Taken(r, d, at)
    else if r.ord != 0 || r.sum != SumSfn(d) then r.(blk := NONE)
    else r
  }

  /** Where a read ends: at an entry, with the reader's last state, or at the end of the table. */
  datatype Found = At(i: nat, r: Reader) | NoFile

  /** `dir_read` from entry `i` on */
  function ReadFrom(slots: seq<seq<byte>>, i: nat, r: Reader): (f: Found)
    requires r.Valid() && forall k :: 0 <= k < |slots| ==> |slots[k]| == SLOT
    ensures f.At? ==> i <= f.i < |slots| && Stops(slots[f.i]) && f.r.Valid()
    decreases |slots| - i
  {
    if i >= |slots| || i >= MAX_SLOTS || slots[i][0] == 0 then NoFile
    else if Stops(slots[i]) then At(i, Seen(r, slots[i], i))
    else ReadFrom(slots, i + 1, Seen(r, slots[i], i))
  }

  // ----- a name and its entries

  /** A short entry that the reader stops at. */
  predicate ShortEntry(d: seq<byte>) { |d| == SLOT && d[0] != 0 && Stops(d) }

  /** Entries `at` to `at + Parts(name)`: the parts of `name`, last part first, then the short entry they belong to. */
  ghost predicate Entries(slots: seq<seq<byte>>, at: nat, name: seq<nat>) {
    var n := Parts(name);
    && at + n < |slots| && at + n < MAX_SLOTS
    && ShortEntry(slots[at + n])
    && forall i :: at <= i < at + n ==> Part(slots[i], name, at + n - i, SumSfn(slots[at + n]))
  }

  /** The reader has taken the first `k` parts of a name. */
  ghost predicate Underway(r: Reader, name: seq<nat>, k: nat, sum: nat, at: nat) {
    && r.Valid() && k <= Parts(name) && |name| <= FF_MAX_LFN
    && (k > 0 ==>
      && r.ord == Parts(name) - k && r.sum == sum && r.blk == at
      && forall j :: 13 * (Parts(name) - k) <= j <= |name| ==> r.buf[j] == Unit(name, j))
  }

  /** One part of a name, in its place, is taken. */
  lemma PartTaken(r: Reader, d: seq<byte>, name: seq<nat>, k: nat, sum: byte, at: nat)
    requires LongName(name) && Underway(r, name, k, sum as int, at) && k < Parts(name)
    requires Part(d, name, Parts(name) - k, sum)
    ensures d[0] != 0 && !Stops(d)
    ensures Underway(Seen(r, d, at + k), name, k + 1, sum as int, at)
  {
    hide Pick, LdWord;
    var ord := Parts(name) - k;
    OrderIs(d, name, ord, sum);
    PickWhole(r.buf, d, name, ord, sum);
  }

  lemma {:induction false} ReadParts(slots: seq<seq<byte>>, at: nat, name: seq<nat>, k: nat, r: Reader)
    requires Table(slots) && LongName(name) && Entries(slots, at, name) && k <= Parts(name)
    requires Underway(r, name, k, SumSfn(slots[at + Parts(name)]), at)
    ensures var f := ReadFrom(slots, at + k, r);
      f.At? && f.i == at + Parts(name) && f.r.blk == at && Holds(f.r.buf, name)
    decreases Parts(name) - k
  {
    hide SumSfn, Seen, Stops, Part;
    var n := Parts(name);
    var sum := SumSfn(slots[at + n]);
    if k == n {
      NameComplete(r, name, sum, at, slots[at + n]);
    } else {
      PartTaken(r, slots[at + k], name, k, sum, at);
      ReadParts(slots, at, name, k + 1, Seen(r, slots[at + k], at + k));
    }
  }

  lemma NameComplete(r: Reader, name: seq<nat>, sum: nat, at: nat, d: seq<byte>)
    requires LongName(name) && Underway(r, name, Parts(name), sum, at) && ShortEntry(d) && sum == SumSfn(d)
    ensures d[0] != 0 && Stops(d)
    ensures var r' := Seen(r, d, at + Parts(name)); r'.blk == at && Holds(r'.buf, name)
  {
    forall j | 0 <= j <= |name| ensures r.buf[j] == Unit(name, j) {}
  }

  /** From `i` on nothing stops the reader before `at`. */
  predicate Clear(slots: seq<seq<byte>>, i: nat, at: nat)
    requires forall k :: 0 <= k < |slots| ==> |slots[k]| == SLOT
  {
    i <= at <= |slots| && forall k :: i <= k < at ==> slots[k][0] != 0 && !Stops(slots[k])
  }

  /**
   * A reader that comes to the entries of a long name, in whatever state and over whatever leftovers, reads that
   * name, whole, and knows where its entries start.
   */
  lemma {:induction false} ReadName(slots: seq<seq<byte>>, i: nat, at: nat, name: seq<nat>, r: Reader)
    requires Table(slots) && LongName(name) && Entries(slots, at, name) && r.Valid() && Clear(slots, i, at)
    ensures var f := ReadFrom(slots, i, r);
      f.At? && f.i == at + Parts(name) && f.r.blk == at && Holds(f.r.buf, name)
    decreases at - i
  {
    hide Seen, Stops, Part, SumSfn;
    if i < at {
      ReadName(slots, i + 1, at, name, Seen(r, slots[i], i));
    } else {
      ReadParts(slots, at, name, 0, r);
    }
  }

  // ----- what dir_read shows

  /** An entry that a listing shows: not deleted, no dot entry, no volume label and no part of a long name. */
  predicate Listed(d: seq<byte>)
    requires |d| == SLOT
  {
    d[0] as int != 0xE5 && d[0] as int != 0x2E && d[11] as int % 0x20 != 0x08 && d[11] as int % 0x40 != 0x0F
  }

  lemma ListedStops(d: seq<byte>)
    requires |d| == SLOT
    ensures Listed(d) <==> Stops(d)
  {
  }

  /** A part of a long name that stands `n` entries in front of its short entry; the first of them is flagged. */
  predicate Piece(d: seq<byte>, n: int, first: bool, sum: nat)
    requires |d| == SLOT
  {
    && 1 <= n <= 20 && d[11] as int % 0x40 == 0x0F && d[0] as int == n + (if first then 0x40 else 0)
    && d[13] as int == sum
  }

  /** Its characters, terminator and filler are in order. */
  predicate Sound(d: seq<byte>)
    requires |d| == SLOT
  {
    Pick(seq(FF_MAX_LFN + 1, i => 0), d).Picked?
  }

  /** Entries `at` to `k - 1` are parts of one long name, `left` more are to come. */
  ghost predicate Pieces(slots: seq<seq<byte>>, at: nat, k: nat, left: nat, sum: nat)
    requires Table(slots)
  {
    && at < k <= |slots|
    && forall m {:trigger slots[m]} :: at <= m < k ==> Piece(slots[m], left + (k - m), m == at, sum) && Sound(slots[m])
  }

  /** All parts of a long name with the checksum of entry `i` stand in front of it, from entry `at` on. */
  ghost predicate LongRun(slots: seq<seq<byte>>, at: nat, i: nat)
    requires Table(slots)
  {
    i < |slots| && Pieces(slots, at, i, 0, SumSfn(slots[i]))
  }

  lemma {:induction false} PickAnyFrom(buf: seq<nat>, buf': seq<nat>, d: seq<byte>, i: nat, s: nat, wc: nat)
    requires |d| == SLOT && |buf| == |buf'| == FF_MAX_LFN + 1 && s <= 13
    ensures var p, q := PickFrom(buf, d, i, s, wc), PickFrom(buf', d, i, s, wc);
      (p.Picked? <==> q.Picked?) && (p.Picked? && q.Picked? ==> p.i == q.i && p.wc == q.wc)
    decreases 13 - s
  {
    hide LdWord;
    if s < 13 {
      var uc := LdWord(d, Ofs(s));
      if wc != 0 {
        if i < FF_MAX_LFN + 1 { PickAnyFrom(buf[i := uc], buf'[i := uc], d, i + 1, s + 1, uc); }
      } else if uc == 0xFFFF {
        PickAnyFrom(buf, buf', d, i, s + 1, wc);
      }
    }
  }

  /** Whether an entry is taken does not depend on what is in the name buffer, and only the orders 1 to 20 are. */
  lemma PickAny(buf: seq<nat>, d: seq<byte>)
    requires |d| == SLOT && |buf| == FF_MAX_LFN + 1
    ensures Pick(buf, d).Picked? <==> Sound(d)
    ensures Sound(d) ==> 1 <= Order(d) <= 20
  {
    hide LdWord;
    PickAnyFrom(buf, seq(FF_MAX_LFN + 1, i => 0), d, Base(Order(d)), 0, 1);
  }

  /** The reader is in the middle of a long name exactly when the entries before `k` say so. */
  ghost predicate Following(slots: seq<seq<byte>>, i: nat, k: nat, r: Reader)
    requires Table(slots)
  {
    && r.Valid() && i <= k <= |slots|
    && (r.ord == 0xFF || (i <= r.blk && Pieces(slots, r.blk, k, r.ord, r.sum)))
    && forall at: nat, n: nat, sum: nat :: i <= at && Pieces(slots, at, k, n, sum) ==> r.ord == n && r.blk == at && r.sum == sum
  }

  lemma FollowStart(slots: seq<seq<byte>>, i: nat, r: Reader)
    requires Table(slots) && r.Valid() && r.ord == 0xFF && i <= |slots|
    ensures Following(slots, i, i, r)
  {
  }

  /** The last of the pieces is the entry before `k`, the others stand in front of it. */
  lemma PiecesSplit(slots: seq<seq<byte>>, at: nat, k: nat, n: nat, sum: nat)
    requires Table(slots) && k < |slots|
    ensures Pieces(slots, at, k + 1, n, sum) <==>
      && at <= k && Piece(slots[k], n + 1, at == k, sum) && Sound(slots[k])
      && (at < k ==> Pieces(slots, at, k, n + 1, sum))
  {
    hide Piece, Sound;
  }

  lemma PiecesBounds(slots: seq<seq<byte>>, at: nat, k: nat, n: nat, sum: nat)
    requires Table(slots) && Pieces(slots, at, k, n, sum)
    ensures at < k <= |slots|
  {
  }

  /** What one entry makes of the middle of a long name. */
  lemma FollowHere(slots: seq<seq<byte>>, i: nat, k: nat, r: Reader)
    requires Table(slots) && Following(slots, i, k, r) && k < |slots| && slots[k][0] != 0 && !Stops(slots[k])
    ensures var r' := Seen(r, slots[k], k);
      r'.Valid() && (r'.ord == 0xFF || (i <= r'.blk && Pieces(slots, r'.blk, k + 1, r'.ord, r'.sum)))
  {
    hide Pieces, Sound, Pick, SumSfn;
    var d, r' := slots[k], Seen(r, slots[k], k);
    PickAny(Begun(r, d, k).buf, d);
    if r'.ord != 0xFF {
      var o := OwnOrder(d);
      assert Attr(d) == AM_LFN && Sound(d) && o == Order(d) && r'.ord == o - 1;
      PiecesSplit(slots, r'.blk, k, r'.ord, r'.sum);
      if !IsLast(d) {
        PiecesBounds(slots, r.blk, k, r.ord, r.sum);
      }
    }
  }

  lemma FollowOnly(slots: seq<seq<byte>>, i: nat, k: nat, r: Reader, at: nat, n: nat, sum: nat)
    requires Table(slots) && Following(slots, i, k, r) && k < |slots| && slots[k][0] != 0 && !Stops(slots[k])
    requires i <= at && Pieces(slots, at, k + 1, n, sum)
    ensures var r' := Seen(r, slots[k], k); r'.ord == n && r'.blk == at && r'.sum == sum
  {
    hide Pieces, Sound, Pick, SumSfn;
    PickAny(Begun(r, slots[k], k).buf, slots[k]);
    PiecesSplit(slots, at, k, n, sum);
  }

  lemma FollowOn(slots: seq<seq<byte>>, i: nat, k: nat, r: Reader)
    requires Table(slots) && Following(slots, i, k, r) && k < |slots| && slots[k][0] != 0 && !Stops(slots[k])
    ensures Following(slots, i, k + 1, Seen(r, slots[k], k))
  {
    hide Pieces, Seen, Stops;
    var next, r' := k + 1, Seen(r, slots[k], k);
    FollowHere(slots, i, k, r);
    forall at: nat, n: nat, sum: nat | i <= at && Pieces(slots, at, next, n, sum)
      ensures r'.ord == n && r'.blk == at && r'.sum == sum
    {
      FollowOnly(slots, i, k, r, at, n, sum);
    }
  }

  /** Entry `i` is the first of a listing from `from` on, with no end of the table before it; `blk` is where its long name
      begins, if a complete one stands in front of it. */
  ghost predicate FirstListed(slots: seq<seq<byte>>, from: nat, i: nat, blk: nat)
    requires Table(slots)
  {
    && from <= i < |slots| && i < MAX_SLOTS && Listed(slots[i]) && slots[i][0] != 0
    && (forall j :: from <= j < i ==> !Listed(slots[j]) && slots[j][0] != 0)
    && (blk == NONE || (from <= blk && LongRun(slots, blk, i)))
    && (forall at: nat :: from <= at && LongRun(slots, at, i) ==> blk == at)
  }

  /** From `from` on the table ends before anything that a listing shows. */
  ghost predicate NoneListed(slots: seq<seq<byte>>, from: nat)
    requires Table(slots)
  {
    forall j :: from <= j < |slots| && j < MAX_SLOTS && Listed(slots[j]) ==> exists m :: from <= m <= j && slots[m][0] == 0
  }

  /**
   * `dir_read` stops at the first entry of a listing, if no end of the table comes before it, and knows the start of its
   * long name exactly when one stands complete in front of it.
   */
  lemma {:induction false} ReadIs(slots: seq<seq<byte>>, i: nat, k: nat, r: Reader)
    requires Table(slots) && Following(slots, i, k, r)
    ensures var f := ReadFrom(slots, k, r);
      && (f.At? ==>
          && k <= f.i < |slots| && f.i < MAX_SLOTS && Listed(slots[f.i]) && slots[f.i][0] != 0
          && (forall j :: k <= j < f.i ==> !Listed(slots[j]) && slots[j][0] != 0)
          && (f.r.blk == NONE || (i <= f.r.blk && LongRun(slots, f.r.blk, f.i)))
          && (forall at: nat :: i <= at && LongRun(slots, at, f.i) ==> f.r.blk == at))
      && (f.NoFile? ==>
          forall j :: k <= j < |slots| && j < MAX_SLOTS && Listed(slots[j]) ==> exists m :: k <= m <= j && slots[m][0] == 0)
    decreases |slots| - k
  {
    hide Pieces, SumSfn, Following, Seen, Stops, Listed, LongRun;
    FollowValid(slots, i, k, r);
    if k < |slots| && k < MAX_SLOTS && slots[k][0] != 0 {
      ListedStops(slots[k]);
      if Stops(slots[k]) {
        FollowEnd(slots, i, k, r);
      } else {
        FollowOn(slots, i, k, r);
        ReadIs(slots, i, k + 1, Seen(r, slots[k], k));
      }
    }
  }

  lemma ReadShows(slots: seq<seq<byte>>, i: nat, r: Reader)
    requires Table(slots) && r.Valid() && r.ord == 0xFF && i <= |slots|
    ensures var f := ReadFrom(slots, i, r);
      if f.At? then FirstListed(slots, i, f.i, f.r.blk) else NoneListed(slots, i)
  {
    hide Pieces, SumSfn, Following, ReadFrom, Listed, LongRun;
    FollowStart(slots, i, r);
    ReadIs(slots, i, i, r);
  }

  lemma FollowValid(slots: seq<seq<byte>>, i: nat, k: nat, r: Reader)
    requires Table(slots) && Following(slots, i, k, r)
    ensures r.Valid()
  {
  }

  lemma FollowEnd(slots: seq<seq<byte>>, i: nat, k: nat, r: Reader)
    requires Table(slots) && Following(slots, i, k, r) && k < |slots| && k < MAX_SLOTS && Stops(slots[k])
    ensures var b := Seen(r, slots[k], k).blk;
      && (b == NONE || (i <= b && LongRun(slots, b, k)))
      && (forall at: nat :: i <= at && LongRun(slots, at, k) ==> b == at)
  {
    hide Pieces, SumSfn;
  }

  // ----- dir_find

  /** What is looked for: a long name in the buffer, a short name, and whether each may decide. */
  datatype Target = Target(buf: seq<nat>, fn: seq<byte>, noLong: bool, loss: bool)
  {
    predicate Valid() { |buf| == FF_MAX_LFN + 1 && |fn| == 11 }
  }

  datatype Finder = Finder(ord: nat, sum: nat, blk: nat)

  predicate Volume(attr: nat) { attr / 8 % 2 == 1 }

  function Compares(up: nat -> nat, t: Target, s: Finder, d: seq<byte>, at: nat): (s': Finder)
    requires t.Valid() && |d| == SLOT
  {
    var s1 := if IsLast(d) then Finder(Order(d), d[SUM_AT] as int, at) else s;
    if OwnOrder(d) == s1.ord && s1.sum == d[SUM_AT] as int && Cmp(up, t.buf, d) then
      s1.(ord := (s1.ord + 0xFF) % 0x100)
    else s1.(ord := 0xFF)
  }

  predicate IsShort(d: seq<byte>)
    requires |d| == SLOT
  {
    d[0] as int != DDEM && !(Volume(Attr(d)) && Attr(d) != AM_LFN) && Attr(d) != AM_LFN
  }

  /** Is this the entry looked for? */
  predicate Matches(t: Target, s: Finder, d: seq<byte>)
    requires t.Valid() && |d| == SLOT
  {
    IsShort(d) && ((s.ord == 0 && s.sum == SumSfn(d)) || (!t.loss && d[..11] == t.fn))
  }

  function Searched(up: nat -> nat, t: Target, s: Finder, d: seq<byte>, at: nat): (s': Finder)
    requires t.Valid() && |d| == SLOT
  {
    if d[0] as int == DDEM || (Volume(Attr(d)) && Attr(d) != AM_LFN) then s.(ord := 0xFF, blk := NONE)
    else if Attr(d) == AM_LFN then if t.noLong then s else Compares(up, t, s, d, at)
    else s.(ord := 0xFF, blk := NONE)
  }

  datatype Hit = Hit(i: nat, blk: nat) | Miss

  /** `dir_find` from entry `i` on */
  function FindFrom(up: nat -> nat, slots: seq<seq<byte>>, i: nat, t: Target, s: Finder): (h: Hit)
    requires t.Valid() && forall k :: 0 <= k < |slots| ==> |slots[k]| == SLOT
    ensures h.Hit? ==> i <= h.i < |slots|
    decreases |slots| - i
  {
    if i >= |slots| || i >= MAX_SLOTS || slots[i][0] == 0 then Miss
    else if Matches(t, s, slots[i]) then Hit(i, s.blk)
    else FindFrom(up, slots, i + 1, t, Searched(up, t, s, slots[i], i))
  }

  /** An entry from `i` on, in front of the end of the table, has the short name `fn`. */
  ghost predicate ShortTaken(slots: seq<seq<byte>>, i: nat, fn: seq<byte>)
    requires forall k :: 0 <= k < |slots| ==> |slots[k]| == SLOT
  {
    exists k :: i <= k < |slots| && k < MAX_SLOTS && NoEnd(slots, i, k) && IsShort(slots[k]) && slots[k][..11] == fn
  }

  /** Entries `i` to `k` do not end the table. */
  predicate NoEnd(slots: seq<seq<byte>>, i: nat, k: nat)
    requires forall j :: 0 <= j < |slots| ==> |slots[j]| == SLOT
  {
    forall j :: i <= j <= k && j < |slots| ==> slots[j][0] != 0
  }

  /** A search for a short name alone finds it exactly when some entry has it. */
  lemma {:induction false} FindByShort(up: nat -> nat, slots: seq<seq<byte>>, i: nat, t: Target, s: Finder)
    requires t.Valid() && (forall k :: 0 <= k < |slots| ==> |slots[k]| == SLOT) && t.noLong && !t.loss && s.ord == 0xFF
    ensures FindFrom(up, slots, i, t, s).Hit? <==> ShortTaken(slots, i, t.fn)
    decreases |slots| - i
  {
    hide SumSfn, Compares;
    if i < |slots| && i < MAX_SLOTS && slots[i][0] != 0 && !Matches(t, s, slots[i]) {
      FindByShort(up, slots, i + 1, t, Searched(up, t, s, slots[i], i));
      if ShortTaken(slots, i + 1, t.fn) {
        var k :| i + 1 <= k < |slots| && k < MAX_SLOTS && NoEnd(slots, i + 1, k) && IsShort(slots[k]) && slots[k][..11] == t.fn;
        assert NoEnd(slots, i, k);
      }
      if ShortTaken(slots, i, t.fn) {
        var k :| i <= k < |slots| && k < MAX_SLOTS && NoEnd(slots, i, k) && IsShort(slots[k]) && slots[k][..11] == t.fn;
        assert NoEnd(slots, i + 1, k);
      }
    } else if i < |slots| && i < MAX_SLOTS && slots[i][0] != 0 {
      assert NoEnd(slots, i, i);
    }
  }

  // ----- what dir_find finds

  /** An entry of a file or directory. */
  predicate Plain(d: seq<byte>)
    requires |d| == SLOT
  {
    d[0] as int != 0xE5 && d[11] as int / 8 % 2 == 0
  }

  lemma PlainShort(d: seq<byte>)
    requires |d| == SLOT
    ensures Plain(d) <==> IsShort(d)
  {
    AttributeBit(d[11] as int);
  }

  /** The volume bit is inside the attribute mask, and set in the attribute of a long name. */
  lemma AttributeBit(b: nat)
    requires b < 0x100
    ensures b % 0x40 / 8 % 2 == b / 8 % 2 && (b % 0x40 == 0x0F ==> b / 8 % 2 == 1)
  {
    var q, r := b / 0x40, b % 0x40;
    assert b == 0x40 * q + r && b / 8 == 8 * q + r / 8;
  }

  /** As `Pieces`, of a name that equals the one looked for as far as it goes. */
  ghost predicate Fitting(up: nat -> nat, buf: seq<nat>, slots: seq<seq<byte>>, at: nat, k: nat, left: nat, sum: nat)
    requires Table(slots) && |buf| == FF_MAX_LFN + 1
  {
    && at < k <= |slots|
    && forall m {:trigger slots[m]} :: at <= m < k ==> Piece(slots[m], left + (k - m), m == at, sum) && Cmp(up, buf, slots[m])
  }

  /** The long name in front of entry `i`, from entry `at` on, has its checksum and is the one looked for. */
  ghost predicate FittingRun(up: nat -> nat, buf: seq<nat>, slots: seq<seq<byte>>, at: nat, i: nat)
    requires Table(slots) && |buf| == FF_MAX_LFN + 1
  {
    i < |slots| && Fitting(up, buf, slots, at, i, 0, SumSfn(slots[i]))
  }

  /** Entry `i` has the long name looked for, if that may decide, or the short one, if that may. */
  ghost predicate Wanted(up: nat -> nat, slots: seq<seq<byte>>, t: Target, i: nat)
    requires Table(slots) && t.Valid()
  {
    && i < |slots| && Plain(slots[i])
    && ((!t.noLong && exists at: nat :: FittingRun(up, t.buf, slots, at, i)) || (!t.loss && slots[i][..11] == t.fn))
  }

  lemma CmpAny(up: nat -> nat, buf: seq<nat>, d: seq<byte>)
    requires |d| == SLOT && |buf| == FF_MAX_LFN + 1 && Cmp(up, buf, d)
    ensures 1 <= d[0] as int % 0x40 <= 20
  {
    hide LdWord;
  }

  /** The search is in the middle of the name looked for exactly when the entries before `k` say so; an order with the
      highest bit set leads nowhere. */
  ghost predicate Tracking(up: nat -> nat, buf: seq<nat>, slots: seq<seq<byte>>, k: nat, s: Finder)
    requires Table(slots) && |buf| == FF_MAX_LFN + 1
  {
    && k <= |slots| && s.ord < 0x100
    && (s.ord >= 0x80 || Fitting(up, buf, slots, s.blk, k, s.ord, s.sum))
    && (forall at: nat, n: nat, sum: nat :: Fitting(up, buf, slots, at, k, n, sum) ==> s.ord == n && s.blk == at && s.sum == sum)
  }

  lemma FittingSplit(up: nat -> nat, buf: seq<nat>, slots: seq<seq<byte>>, at: nat, k: nat, n: nat, sum: nat)
    requires Table(slots) && |buf| == FF_MAX_LFN + 1 && k < |slots|
    ensures Fitting(up, buf, slots, at, k + 1, n, sum) <==>
      && at <= k && Piece(slots[k], n + 1, at == k, sum) && Cmp(up, buf, slots[k])
      && (at < k ==> Fitting(up, buf, slots, at, k, n + 1, sum))
  {
    hide Piece, Cmp;
  }

  lemma FittingBounds(up: nat -> nat, buf: seq<nat>, slots: seq<seq<byte>>, at: nat, k: nat, n: nat, sum: nat)
    requires Table(slots) && |buf| == FF_MAX_LFN + 1 && Fitting(up, buf, slots, at, k, n, sum)
    ensures at < k <= |slots|
  {
  }

  lemma TrackHere(up: nat -> nat, slots: seq<seq<byte>>, k: nat, t: Target, s: Finder)
    requires Table(slots) && t.Valid() && !t.noLong && Tracking(up, t.buf, slots, k, s)
    requires k < |slots| && slots[k][0] != 0 && !Matches(t, s, slots[k])
    ensures var s' := Searched(up, t, s, slots[k], k);
      s'.ord < 0x100 && (s'.ord >= 0x80 || Fitting(up, t.buf, slots, s'.blk, k + 1, s'.ord, s'.sum))
  {
    hide Fitting, Cmp, SumSfn;
    var d, s' := slots[k], Searched(up, t, s, slots[k], k);
    if s'.ord < 0x80 {
      assert Attr(d) == AM_LFN && Cmp(up, t.buf, d);
      CmpAny(up, t.buf, d);
      FittingSplit(up, t.buf, slots, s'.blk, k, s'.ord, s'.sum);
      if !IsLast(d) && s.ord < 0x80 {
        FittingBounds(up, t.buf, slots, s.blk, k, s.ord, s.sum);
      }
    }
  }

  lemma TrackOnly(up: nat -> nat, slots: seq<seq<byte>>, k: nat, t: Target, s: Finder, at: nat, n: nat, sum: nat)
    requires Table(slots) && t.Valid() && !t.noLong && Tracking(up, t.buf, slots, k, s)
    requires k < |slots| && slots[k][0] != 0 && Fitting(up, t.buf, slots, at, k + 1, n, sum)
    ensures var s' := Searched(up, t, s, slots[k], k); s'.ord == n && s'.blk == at && s'.sum == sum
  {
    hide Fitting, Cmp, SumSfn;
    FittingSplit(up, t.buf, slots, at, k, n, sum);
  }

  lemma TrackOn(up: nat -> nat, slots: seq<seq<byte>>, k: nat, t: Target, s: Finder)
    requires Table(slots) && t.Valid() && !t.noLong && Tracking(up, t.buf, slots, k, s)
    requires k < |slots| && slots[k][0] != 0 && !Matches(t, s, slots[k])
    ensures Tracking(up, t.buf, slots, k + 1, Searched(up, t, s, slots[k], k))
  {
    hide Fitting, Searched, Matches;
    var next, s' := k + 1, Searched(up, t, s, slots[k], k);
    TrackHere(up, slots, k, t, s);
    forall at: nat, n: nat, sum: nat | Fitting(up, t.buf, slots, at, next, n, sum)
      ensures s'.ord == n && s'.blk == at && s'.sum == sum
    {
      TrackOnly(up, slots, k, t, s, at, n, sum);
    }
  }

  /** The search stands at the first entry wanted exactly if it takes it. */
  lemma TrackEnd(up: nat -> nat, slots: seq<seq<byte>>, k: nat, t: Target, s: Finder)
    requires Table(slots) && t.Valid() && k < |slots|
    requires if t.noLong then s.ord == 0xFF else Tracking(up, t.buf, slots, k, s)
    ensures Matches(t, s, slots[k]) <==> Wanted(up, slots, t, k)
    ensures !t.noLong ==> forall at: nat :: FittingRun(up, t.buf, slots, at, k) ==> s.blk == at
  {
    hide Fitting, Cmp, SumSfn;
    PlainShort(slots[k]);
    if !t.noLong && s.ord == 0 && s.sum == SumSfn(slots[k]) {
      assert FittingRun(up, t.buf, slots, s.blk, k);
    }
  }

  /**
   * `dir_find` stops at the first entry wanted, if no end of the table comes before it, and knows where its long name
   * begins if it was found by that; it finds nothing exactly if there is no such entry.
   */
  lemma {:induction false} FindIs(up: nat -> nat, slots: seq<seq<byte>>, k: nat, t: Target, s: Finder)
    requires Table(slots) && t.Valid()
    requires if t.noLong then s.ord == 0xFF else Tracking(up, t.buf, slots, k, s)
    ensures var h := FindFrom(up, slots, k, t, s);
      && (h.Hit? ==>
          && k <= h.i < |slots| && h.i < MAX_SLOTS && Wanted(up, slots, t, h.i) && slots[h.i][0] != 0
          && (forall j :: k <= j < h.i ==> !Wanted(up, slots, t, j) && slots[j][0] != 0)
          && (!t.noLong ==> forall at: nat :: FittingRun(up, t.buf, slots, at, h.i) ==> h.blk == at))
      && (h.Miss? ==>
          forall j :: k <= j < |slots| && j < MAX_SLOTS && Wanted(up, slots, t, j) ==> exists m :: k <= m <= j && slots[m][0] == 0)
    decreases |slots| - k
  {
    hide Fitting, Cmp, SumSfn, Searched, Matches, Wanted, Tracking, FittingRun;
    if k < |slots| && k < MAX_SLOTS && slots[k][0] != 0 {
      TrackEnd(up, slots, k, t, s);
      if !Matches(t, s, slots[k]) {
        if t.noLong {
          StaysOut(up, t, s, slots[k], k);
        } else {
          TrackOn(up, slots, k, t, s);
        }
        FindIs(up, slots, k + 1, t, Searched(up, t, s, slots[k], k));
      }
    }
  }

  /** Entry `i` is the first one wanted, with no end of the table before it; `blk` is where its long name begins if it is
      wanted for that. */
  ghost predicate FirstWanted(up: nat -> nat, slots: seq<seq<byte>>, t: Target, i: nat, blk: nat)
    requires Table(slots) && t.Valid()
  {
    && i < |slots| && i < MAX_SLOTS && Wanted(up, slots, t, i) && slots[i][0] != 0
    && (forall j :: 0 <= j < i ==> !Wanted(up, slots, t, j) && slots[j][0] != 0)
    && (!t.noLong ==> forall at: nat :: FittingRun(up, t.buf, slots, at, i) ==> blk == at)
  }

  ghost predicate NoneWanted(up: nat -> nat, slots: seq<seq<byte>>, t: Target)
    requires Table(slots) && t.Valid()
  {
    forall j :: 0 <= j < |slots| && j < MAX_SLOTS && Wanted(up, slots, t, j) ==> exists m :: 0 <= m <= j && slots[m][0] == 0
  }

  lemma FindShows(up: nat -> nat, slots: seq<seq<byte>>, t: Target)
    requires Table(slots) && t.Valid()
    ensures var h := FindFrom(up, slots, 0, t, Finder(0xFF, 0xFF, NONE));
      if h.Hit? then FirstWanted(up, slots, t, h.i, h.blk) else NoneWanted(up, slots, t)
  {
    hide FindFrom, Tracking, Wanted, FittingRun;
    TrackStart(up, t.buf, slots);
    FindIs(up, slots, 0, t, Finder(0xFF, 0xFF, NONE));
  }

  lemma StaysOut(up: nat -> nat, t: Target, s: Finder, d: seq<byte>, at: nat)
    requires t.Valid() && |d| == SLOT && t.noLong && s.ord == 0xFF
    ensures Searched(up, t, s, d, at).ord == 0xFF
  {
  }

  lemma TrackStart(up: nat -> nat, buf: seq<nat>, slots: seq<seq<byte>>)
    requires Table(slots) && |buf| == FF_MAX_LFN + 1
    ensures Tracking(up, buf, slots, 0, Finder(0xFF, 0xFF, NONE))
  {
  }

  /** Equal up to case. */
  ghost predicate SameName(up: nat -> nat, name: seq<nat>, want: seq<nat>) {
    |name| == |want| && forall i :: 0 <= i < |name| ==> up(name[i]) == up(want[i])
  }

  /** The last `k` parts of the name compare equal. */
  ghost predicate TailAlike(up: nat -> nat, buf: seq<nat>, name: seq<nat>, k: nat) {
    && k <= Parts(name)
    && Alike(up, buf, name, 13 * (Parts(name) - k), 13 * Parts(name))
    && (k > 0 && |name| == 13 * Parts(name) ==> |name| < |buf| && buf[|name|] == 0)
  }

  lemma TailAlikeOne(up: nat -> nat, buf: seq<nat>, name: seq<nat>, k: nat)
    requires LongName(name) && k < Parts(name) && |buf| == FF_MAX_LFN + 1
    ensures var ord := Parts(name) - k;
      TailAlike(up, buf, name, k + 1) <==>
        && TailAlike(up, buf, name, k) && Alike(up, buf, name, 13 * (ord - 1), 13 * ord)
        && (|name| == 13 * ord ==> buf[|name|] == 0)
  {
    hide AlikeAt;
  }

  lemma AllAlike(up: nat -> nat, buf: seq<nat>, name: seq<nat>, want: seq<nat>)
    requires LongName(name) && Holds(buf, want) && Folding(up) && forall i :: 0 <= i < |want| ==> want[i] != 0
    ensures TailAlike(up, buf, name, Parts(name)) <==> SameName(up, name, want)
  {
    var n := Parts(name);
    if TailAlike(up, buf, name, n) {
      forall j | 0 <= j < 13 * n ensures AlikeAt(up, buf, name, j) {}
      assert |want| <= |name| ==> AlikeAt(up, buf, name, |want|);
      assert |name| < 13 * n ==> AlikeAt(up, buf, name, |name|);
      forall i | 0 <= i < |name| ensures |want| == |name| && up(name[i]) == up(want[i]) {
        assert AlikeAt(up, buf, name, i);
      }
      assert |name| > 0;
    }
    if SameName(up, name, want) {
      forall j | 0 <= j < 13 * n ensures AlikeAt(up, buf, name, j) {}
    }
  }

  /** The search has compared the first `k` parts of a name. */
  ghost predicate Halfway(up: nat -> nat, t: Target, s: Finder, name: seq<nat>, k: nat, sum: nat, at: nat)
    requires t.Valid()
  {
    k <= Parts(name) && (k > 0 ==>
      s.blk == at && s.sum == sum && s.ord == if TailAlike(up, t.buf, name, k) then Parts(name) - k else 0xFF)
  }

  lemma PartCompared(up: nat -> nat, t: Target, s: Finder, d: seq<byte>, name: seq<nat>, k: nat, sum: byte, at: nat)
    requires LongName(name) && t.Valid() && !t.noLong && k < Parts(name) && Halfway(up, t, s, name, k, sum as int, at)
    requires Part(d, name, Parts(name) - k, sum)
    ensures d[0] != 0 && !IsShort(d)
    ensures Halfway(up, t, Searched(up, t, s, d, at + k), name, k + 1, sum as int, at)
  {
    hide Cmp, LdWord, TailAlike, Alike;
    var ord := Parts(name) - k;
    OrderIs(d, name, ord, sum);
    CmpWhole(up, t.buf, d, name, ord, sum);
    TailAlikeOne(up, t.buf, name, k);
    NothingCompared(up, t.buf, name);
  }

  lemma NothingCompared(up: nat -> nat, buf: seq<nat>, name: seq<nat>)
    ensures TailAlike(up, buf, name, 0)
  {
  }

  /** The search's state after the entries `i` to `j - 1`. */
  function Walk(up: nat -> nat, slots: seq<seq<byte>>, i: nat, j: nat, t: Target, s: Finder): Finder
    requires t.Valid() && Table(slots) && i <= j <= |slots|
    decreases j - i
  {
    if i == j then s else Walk(up, slots, i + 1, j, t, Searched(up, t, s, slots[i], i))
  }

  /** The search passes the entries `i` to `j - 1` without finding anything. */
  ghost predicate Passes(up: nat -> nat, slots: seq<seq<byte>>, i: nat, j: nat, t: Target, s: Finder)
    requires t.Valid() && Table(slots)
    decreases j - i
  {
    && i <= j <= |slots| && j <= MAX_SLOTS
    && (i < j ==> slots[i][0] != 0 && !Matches(t, s, slots[i]))
    && (i < j ==> Passes(up, slots, i + 1, j, t, Searched(up, t, s, slots[i], i)))
  }

  lemma {:induction false} PassesOn(up: nat -> nat, slots: seq<seq<byte>>, i: nat, j: nat, t: Target, s: Finder)
    requires t.Valid() && Table(slots) && Passes(up, slots, i, j, t, s)
    ensures i <= j <= |slots| && FindFrom(up, slots, i, t, s) == FindFrom(up, slots, j, t, Walk(up, slots, i, j, t, s))
    decreases j - i
  {
    if i < j { PassesOn(up, slots, i + 1, j, t, Searched(up, t, s, slots[i], i)); }
  }

  lemma {:induction false} FindParts(up: nat -> nat, slots: seq<seq<byte>>, at: nat, name: seq<nat>, k: nat, t: Target,
      s: Finder)
    requires Table(slots) && LongName(name) && Entries(slots, at, name) && k <= Parts(name)
    requires t.Valid() && !t.noLong && Halfway(up, t, s, name, k, SumSfn(slots[at + Parts(name)]), at)
    ensures var n := Parts(name);
      && Halfway(up, t, Walk(up, slots, at + k, at + n, t, s), name, n, SumSfn(slots[at + n]), at)
      && Passes(up, slots, at + k, at + n, t, s)
    decreases Parts(name) - k
  {
    hide SumSfn, Searched, IsShort, Part;
    var n := Parts(name);
    if k < n {
      PartCompared(up, t, s, slots[at + k], name, k, SumSfn(slots[at + n]), at);
      FindParts(up, slots, at, name, k + 1, t, Searched(up, t, s, slots[at + k], at + k));
    }
  }

  /**
   * A search that comes to the entries of a long name, in whatever state, finds them exactly if the names are equal up
   * to case or the short names match; found, the match knows where the entries start.
   */
  lemma FindName(up: nat -> nat, slots: seq<seq<byte>>, i: nat, at: nat, name: seq<nat>, want: seq<nat>, t: Target,
      s: Finder)
    requires Table(slots) && LongName(name) && Entries(slots, at, name) && Folding(up)
    requires t.Valid() && !t.noLong && Holds(t.buf, want) && forall j :: 0 <= j < |want| ==> want[j] != 0
    requires Passes(up, slots, i, at, t, s) && IsShort(slots[at + Parts(name)])
    ensures var d, h := slots[at + Parts(name)], FindFrom(up, slots, i, t, s);
      && (SameName(up, name, want) || (!t.loss && d[..11] == t.fn) ==> h == Hit(at + Parts(name), at))
      && (!SameName(up, name, want) && (t.loss || d[..11] != t.fn) ==>
          h == FindFrom(up, slots, at + Parts(name) + 1, t, Finder(0xFF, SumSfn(d), NONE)))
  {
    hide Halfway, IsShort, SumSfn, Part, SameName, Holds, Folding, FindFrom, Passes, Walk;
    var n, d := Parts(name), slots[at + Parts(name)];
    PassesOn(up, slots, i, at, t, s);
    var s1 := Walk(up, slots, i, at, t, s);
    HalfwayNone(up, t, s1, name, SumSfn(d), at);
    FindParts(up, slots, at, name, 0, t, s1);
    PassesOn(up, slots, at, at + n, t, s1);
    var e := Walk(up, slots, at, at + n, t, s1);
    AllAlike(up, t.buf, name, want);
    HalfwayAll(up, t, e, name, SumSfn(d), at);
    FindShort(up, slots, at + n, t, e);
  }

  lemma HalfwayNone(up: nat -> nat, t: Target, s: Finder, name: seq<nat>, sum: nat, at: nat)
    requires t.Valid()
    ensures Halfway(up, t, s, name, 0, sum, at)
  {
  }

  lemma HalfwayAll(up: nat -> nat, t: Target, s: Finder, name: seq<nat>, sum: nat, at: nat)
    requires t.Valid() && Halfway(up, t, s, name, Parts(name), sum, at) && name != []
    ensures s.blk == at && s.sum == sum && (s.ord == 0 <==> TailAlike(up, t.buf, name, Parts(name)))
    ensures s.ord == 0 || s.ord == 0xFF
  {
  }

  lemma FindShort(up: nat -> nat, slots: seq<seq<byte>>, i: nat, t: Target, s: Finder)
    requires Table(slots) && t.Valid() && i < |slots| && i < MAX_SLOTS && slots[i][0] != 0 && IsShort(slots[i]) && s.sum == SumSfn(slots[i])
    ensures FindFrom(up, slots, i, t, s) ==
      if s.ord == 0 || (!t.loss && slots[i][..11] == t.fn) then Hit(i, s.blk)
      else FindFrom(up, slots, i + 1, t, s.(ord := 0xFF, blk := NONE))
  {
  }

  // ----- reserving and registering

  predicate Free(d: seq<byte>)
    requires |d| == SLOT
  {
    d[0] as int == DDEM || d[0] == 0
  }

  /** Behind the first entry that starts with zero, everything is zero. */
  ghost predicate ZeroTail(slots: seq<seq<byte>>)
    requires Table(slots)
  {
    forall i, j :: 0 <= i <= j < |slots| && slots[i][0] == 0 ==> Zero(slots[j])
  }

  /** `t` is `s`, perhaps grown by zero entries. */
  ghost predicate Extended(s: seq<seq<byte>>, t: seq<seq<byte>>) {
    && Table(t) && |s| <= |t|
    && (forall i :: 0 <= i < |s| ==> t[i] == s[i])
    && (forall i :: |s| <= i < |t| ==> Zero(t[i]))
  }

  lemma ExtendedOn(s: seq<seq<byte>>, t: seq<seq<byte>>, u: seq<seq<byte>>)
    requires Extended(s, t) && Extended(t, u)
    ensures Extended(s, u)
  {
  }

  lemma ExtendedZeroTail(s: seq<seq<byte>>, t: seq<seq<byte>>)
    requires Table(s) && ZeroTail(s) && Extended(s, t)
    ensures ZeroTail(t)
  {
  }

  /** The short entry that `dir_register` writes. */
  function ShortSlot(fn: seq<byte>, flags: byte): (d: seq<byte>)
    requires |fn| == 11
    ensures |d| == SLOT
  {
    fn + [0] + [flags] + seq(19, i => 0)
  }

  predicate GoodShort(fn: seq<byte>) {
    |fn| == 11 && fn[0] != 0 && fn[0] as int != DDEM && fn[0] as int != DOT
  }

  lemma ShortSlotIs(fn: seq<byte>, flags: byte)
    requires GoodShort(fn)
    ensures var d := ShortSlot(fn, flags);
      ShortEntry(d) && IsShort(d) && d[..11] == fn && !Free(d)
  {
  }

  lemma {:induction false} SumShort(fn: seq<byte>, flags: byte, n: nat, sum: nat)
    requires |fn| == 11 && n <= 11 && sum < 0x100
    ensures SumFrom(ShortSlot(fn, flags), n, sum) == SumFrom(fn, n, sum)
    decreases 11 - n
  {
    if n < 11 { SumShort(fn, flags, n + 1, (sum / 2 + sum % 2 * 0x80 + fn[n] as int) % 0x100); }
  }

  lemma {:induction false} SumPrefix(d: seq<byte>, n: nat, sum: nat)
    requires |d| == SLOT && n <= 11 && sum < 0x100
    ensures SumFrom(d[..11], n, sum) == SumFrom(d, n, sum)
    decreases 11 - n
  {
    if n < 11 { SumPrefix(d, n + 1, (sum / 2 + sum % 2 * 0x80 + d[n] as int) % 0x100); }
  }

  lemma SeenIs(r: Reader, d: seq<byte>, at: nat)
    requires r.Valid() && |d| == SLOT
    ensures Seen(r, d, at) ==
      if d[0] as int == DDEM || d[0] as int == DOT || Label(Attr(d)) then r.(ord := 0xFF)
      else if Attr(d) == AM_LFN then Taken(r, d, at)
      else if r.ord != 0 || r.sum != SumSfn(d) then r.(blk := NONE)
      else r
    ensures Stops(d) <==>
      d[0] as int != DDEM && d[0] as int != DOT && !Label(Attr(d)) && Attr(d) != AM_LFN
  {
    hide Taken, SumSfn;
  }

  lemma SearchedIs(up: nat -> nat, t: Target, s: Finder, d: seq<byte>, at: nat)
    requires t.Valid() && |d| == SLOT
    ensures Searched(up, t, s, d, at) ==
      if d[0] as int == DDEM || (Volume(Attr(d)) && Attr(d) != AM_LFN) then s.(ord := 0xFF, blk := NONE)
      else if Attr(d) == AM_LFN then if t.noLong then s else Compares(up, t, s, d, at)
      else s.(ord := 0xFF, blk := NONE)
    ensures Matches(t, s, d) <==>
      && d[0] as int != DDEM && !(Volume(Attr(d)) && Attr(d) != AM_LFN) && Attr(d) != AM_LFN
      && ((s.ord == 0 && s.sum == SumSfn(d)) || (!t.loss && d[..11] == t.fn))
  {
    hide Compares, SumSfn;
  }

  /** The checksum in the long-name entries of a file whose short name is README.TXT. */
  lemma SumOfReadme()
    ensures SumFrom([0x52, 0x45, 0x41, 0x44, 0x4D, 0x45, 0x20, 0x20, 0x54, 0x58, 0x54], 0, 0) == 0x73
  {
    hide SumFrom;
    var d: seq<byte> := [0x52, 0x45, 0x41, 0x44, 0x4D, 0x45, 0x20, 0x20, 0x54, 0x58, 0x54];
    SumStep(d, 0, 0x00);
    SumStep(d, 1, 0x52);
    SumStep(d, 2, 0x6E);
    SumStep(d, 3, 0x78);
    SumStep(d, 4, 0x80);
    SumStep(d, 5, 0x8D);
    SumStep(d, 6, 0x0B);
    SumStep(d, 7, 0xA5);
    SumStep(d, 8, 0xF2);
    SumStep(d, 9, 0xCD);
    SumStep(d, 10, 0x3E);
    SumEnd(d, 0x73);
  }

  lemma SumStep(d: seq<byte>, n: nat, sum: nat)
    requires |d| >= 11 && n < 11 && sum < 0x100
    ensures SumFrom(d, n, sum) == SumFrom(d, n + 1, (sum / 2 + sum % 2 * 0x80 + d[n] as int) % 0x100)
  {
  }

  lemma SumEnd(d: seq<byte>, sum: nat)
    requires |d| >= 11 && sum < 0x100
    ensures SumFrom(d, 11, sum) == sum
  {
  }

  lemma SumShortSlot(fn: seq<byte>, flags: byte)
    requires |fn| == 11
    ensures SumSfn(ShortSlot(fn, flags)) == SumFrom(fn, 0, 0)
  {
    SumShort(fn, flags, 0, 0);
  }

  /** `sum_sfn` */
  method SumOf(fn: seq<byte>) returns (sum: byte)
    requires |fn| == 11
    ensures sum as int == SumFrom(fn, 0, 0)
  {
    var r: nat, n: nat := 0, 0;
    while n < 11
      invariant n <= 11 && r < 0x100 && SumFrom(fn, n, r) == SumFrom(fn, 0, 0)
    {
      r := (r / 2 + r % 2 * 0x80 + fn[n] as int) % 0x100;
      n := n + 1;
    }
    sum := r;
  }

  datatype Result = Ok | NoEntry | Denied | IntErr

  /** Entries `lo` to `hi - 1` are free. */
  ghost predicate FreeStretch(slots: seq<seq<byte>>, lo: int, hi: int)
    requires Table(slots)
  {
    0 <= lo <= hi <= |slots| && forall i :: lo <= i < hi ==> Free(slots[i])
  }

  /** `n` free entries from `i` on. */
  ghost predicate RunAt(slots: seq<seq<byte>>, i: int, n: nat)
    requires Table(slots)
  {
    FreeStretch(slots, i, i + n)
  }

  /** No stretch of `m` free entries ends before `at`. */
  ghost predicate NoRunBefore(slots: seq<seq<byte>>, at: nat, m: nat)
    requires Table(slots)
  {
    forall i :: 0 <= i <= at - m ==> !RunAt(slots, i, m)
  }

  /** The `count` entries before `at` are free, the one before them is not, and no stretch of `n` ends before `at`. */
  ghost predicate Counted(slots: seq<seq<byte>>, at: nat, count: nat, n: nat)
    requires Table(slots)
  {
    && count <= at <= |slots| && count < n
    && FreeStretch(slots, at - count, at)
    && (count < at ==> !Free(slots[at - count - 1]))
    && NoRunBefore(slots, at, n)
  }

  lemma CountedNone(slots: seq<seq<byte>>, n: nat)
    requires Table(slots) && n > 0
    ensures Counted(slots, 0, 0, n)
  {
  }

  lemma CountedFull(slots: seq<seq<byte>>, at: nat, n: nat)
    requires Table(slots) && n > 0 && at < |slots| && Counted(slots, at, n - 1, n) && Free(slots[at])
    ensures n <= at + 1 && FreeStretch(slots, at + 1 - n, at + 1) && NoRunBefore(slots, at, n)
  {
  }

  lemma ExtendedNot(slots: seq<seq<byte>>)
    requires Table(slots)
    ensures Extended(slots, slots)
  {
  }

  /** The scan has looked at entry `at` too. */
  lemma CountedOn(slots: seq<seq<byte>>, at: nat, count: nat, n: nat)
    requires Table(slots) && at < |slots| && count < n
    requires if Free(slots[at]) then count > 0 && Counted(slots, at, count - 1, n) else count == 0 && exists c: nat :: Counted(slots, at, c, n)
    ensures Counted(slots, at + 1, count, n)
  {
    forall i | 0 <= i && i + n <= at + 1 ensures !RunAt(slots, i, n) {
      if i + n == at + 1 {
        assert i <= at - count && !Free(slots[at - count]);
      }
    }
  }

  lemma CountedKept(s: seq<seq<byte>>, t: seq<seq<byte>>, at: nat, count: nat, n: nat)
    requires Table(s) && Extended(s, t) && Counted(s, at, count, n)
    ensures Counted(t, at, count, n)
  {
    forall i | 0 <= i && i + n <= at ensures !RunAt(t, i, n) {
      assert !RunAt(s, i, n);
      var j :| i <= j < i + n && !Free(s[j]);
      assert t[j] == s[j];
    }
  }

  lemma RunBounds(slots: seq<seq<byte>>, lo: int, hi: int)
    requires Table(slots) && FreeStretch(slots, lo, hi)
    ensures 0 <= lo <= hi <= |slots|
  {
  }

  /**
   * `t` is the table `s` after an entry was registered whose short entry is at `last`: the entries are in place, they
   * took the place of free ones, and nothing else has changed but zero entries added behind the end.
   */
  ghost predicate Registered(s: seq<seq<byte>>, t: seq<seq<byte>>, last: nat, name: seq<nat>, fn: seq<byte>, flags: byte,
      long: bool)
  {
    var n := if long then Parts(name) else 0;
    && Table(s) && Table(t) && |s| <= |t| && n <= last < |t| && last < MAX_SLOTS && |fn| == 11
    && t[last] == ShortSlot(fn, flags)
    && (long ==> Entries(t, last - n, name))
    && (forall i :: last - n <= i <= last && i < |s| ==> Free(s[i]))
    && (forall i :: 0 <= i < |s| && !(last - n <= i <= last) ==> t[i] == s[i])
    && (forall i :: |s| <= i < |t| && !(last - n <= i <= last) ==> Zero(t[i]))
    && (ZeroTail(s) ==> ZeroTail(t))
  }

  lemma ZeroTailKept(g: seq<seq<byte>>, t: seq<seq<byte>>, last: nat, n: nat)
    requires Table(g) && Table(t) && |t| == |g| && n <= last < |t| && ZeroTail(g)
    requires forall i :: 0 <= i < |g| && !(last - n <= i <= last) ==> t[i] == g[i]
    requires forall i :: last - n <= i <= last ==> t[i][0] != 0
    requires NoRunBefore(g, last, n + 1)
    ensures ZeroTail(t)
  {
    NoZeroBefore(g, last, n + 1);
  }

  /** In front of the first stretch of free entries nothing starts with zero. */
  lemma NoZeroBefore(g: seq<seq<byte>>, last: nat, m: nat)
    requires Table(g) && ZeroTail(g) && m > 0 && last < |g| && NoRunBefore(g, last, m)
    ensures forall i :: 0 <= i <= last - m ==> g[i][0] != 0
  {
    forall i | 0 <= i <= last - m ensures g[i][0] != 0 {
      assert !RunAt(g, i, m);
      var k :| i <= k < i + m && !Free(g[k]);
      assert !Zero(g[k]);
    }
  }

  lemma RegisteredIs(s: seq<seq<byte>>, g: seq<seq<byte>>, t: seq<seq<byte>>, last: nat, name: seq<nat>, fn: seq<byte>,
      flags: byte, n: nat, long: bool)
    requires Table(s) && Extended(s, g) && Table(t) && |t| == |g| && n <= last < |t| && last < MAX_SLOTS && GoodShort(fn)
    requires n == (if long then Parts(name) else 0)
    requires FreeStretch(g, last - n, last + 1)
    requires NoRunBefore(g, last, n + 1)
    requires forall i :: 0 <= i < |g| && !(last - n <= i <= last) ==> t[i] == g[i]
    requires t[last] == ShortSlot(fn, flags)
    requires forall i :: last - n <= i < last ==> Part(t[i], name, last - i, SumSfn(ShortSlot(fn, flags)))
    ensures Registered(s, t, last, name, fn, flags, long)
  {
    hide RunAt, ShortSlot, SumSfn, Stops;
    ShortSlotIs(fn, flags);
    forall i | last - n <= i <= last ensures t[i][0] != 0 {}
    if ZeroTail(s) {
      ExtendedZeroTail(s, g);
      ZeroTailKept(g, t, last, n);
    }
  }

  /** The walk starts in front of the first cluster. */
  lemma WalkStart(g: Geometry, ch: seq<nat>, i: nat)
    requires ch != []
    ensures i == Times(PER_SECTOR * g.csize, 0) + i
  {
  }

  /** One cluster further along the chain, or behind its end and with it behind the table. */
  lemma WalkStep(fat: seq<nat>, g: Geometry, ch: seq<nat>, k: nat, rest: nat, i: nat)
    requires IsChain(fat, ch) && |fat| == g.nFatent && k < |ch|
    requires i == Times(PER_SECTOR * g.csize, k) + rest && rest >= PER_SECTOR * g.csize
    ensures 2 <= ch[k] < g.nFatent
    ensures i == Times(PER_SECTOR * g.csize, k + 1) + (rest - PER_SECTOR * g.csize)
    ensures if 2 <= fat[ch[k]] < g.nFatent then k + 1 < |ch| && fat[ch[k]] == ch[k + 1]
            else i >= PER_SECTOR * TableSectors(g, ch)
  {
    LinkOf(fat, g, ch, k);
    if k + 1 == |ch| {
      PastChain(g, ch, i);
    }
  }

  /** What the FAT says about element `k` of a chain. */
  lemma LinkOf(fat: seq<nat>, g: Geometry, ch: seq<nat>, k: nat)
    requires IsChain(fat, ch) && |fat| == g.nFatent
    ensures k < |ch| ==>
      && 2 <= ch[k] < |fat|
      && if k + 1 < |ch| then fat[ch[k]] == ch[k + 1] && 2 <= ch[k + 1] < |fat| else fat[ch[k]] >= |fat|
  {
    if k < |ch| {
      ChainLink(fat, ch, k);
      if k + 1 < |ch| {
        assert fat[ch[k]] == ch[k + 1];
      }
    }
  }

  lemma EndsChain(fat: seq<nat>, ch: seq<nat>)
    requires IsChain(fat, ch)
    ensures !Settled(fat, ch[|ch| - 1])
  {
  }

  lemma NoChain(g: Geometry, ch: seq<nat>)
    requires HasTable(g, ch) && (ch == [] || ch[0] == 0)
    ensures ch == []
  {
  }

  lemma FixedPlace(d: Disk, g: Geometry, i: nat)
    requires DiskOk(d, g)
    ensures !g.fatType.Fat32? ==> g.dirbase != 0
    ensures g.nRootdir % PER_SECTOR == 0 ==> (i < g.nRootdir <==> i < PER_SECTOR * TableSectors(g, []))
    ensures i < g.nRootdir && g.nRootdir % PER_SECTOR == 0 ==> i / PER_SECTOR < TableSectors(g, [])
  {
  }

  lemma ClusterSector(d: Disk, g: Geometry, clst: nat)
    requires DiskOk(d, g) && g.InCluster(clst)
    ensures clst < TWO32 && 2 <= g.nFatent <= 0x1000_0000 && g.Clst2Sect(clst) == g.ClusterBase(clst) > 0
  {
    DataPositive(g, |d|);
  }

  lemma CsizeSmall(g: Geometry)
    requires Mount.PowerOfTwo(g.csize)
    ensures 0 < g.csize <= 64 || g.csize == 128
  {
  }

  lemma ExtendedByZeros(s: seq<seq<byte>>, n: nat)
    requires Table(s)
    ensures Extended(s, s + seq(n, i => ZeroSlot()))
  {
  }

  /** The first sector of the cluster added to the table. */
  lemma FirstOfNew(g: Geometry, ch: seq<nat>, ncl: nat, j: nat)
    requires HasTable(g, ch) && ch != [] && HasTable(g, ch + [ncl]) && g.InCluster(ncl)
    requires j + 1 == TableSectors(g, ch) && Rem(j + 1, g.csize) == 0
    ensures j + 1 < TableSectors(g, ch + [ncl]) && TableSectors(g, ch + [ncl]) == TableSectors(g, ch) + g.csize
    ensures TableSector(g, ch + [ncl], j + 1) == g.ClusterBase(ncl) && TableCluster(g, ch + [ncl], j + 1) == ncl
  {
    hide Geometry.ClusterBase, Quot, Rem, SectorOf;
    var ch' := ch + [ncl];
    assert ch'[|ch|] == ncl;
    QuotRemUnique(j + 1, g.csize, |ch|, 0);
    SectorAtStart(g, ch', j + 1);
  }

  lemma SectorAtStart(g: Geometry, ch: seq<nat>, j: nat)
    requires ChainIn(g, ch) && j < Sectors(g, ch) && Rem(j, g.csize) == 0
    ensures Quot(j, g.csize) < |ch| && SectorOf(g, ch, j) == g.ClusterBase(ch[Quot(j, g.csize)])
  {
    hide Geometry.ClusterBase, Quot, Rem;
    QuotInside(j, g.csize, |ch|);
  }

  /** The fixed root directory is the table without a cluster. */
  lemma ChainStarts(g: Geometry, ch: seq<nat>, j: nat)
    requires HasTable(g, ch) && j < TableSectors(g, ch)
    ensures TableCluster(g, ch, j) == 0 <==> ch == []
    ensures ch == [] ==> (j + 1 < TableSectors(g, ch) <==> PER_SECTOR * (j + 1) < g.nRootdir)
  {
    if ch != [] {
      QuotInside(j, g.csize, |ch|);
    }
  }

  /** `DIR`. `ch` is the cluster chain the FAT holds for the table, none for the root directory of FAT12 and FAT16. */
  class Directory {
    const fs: Volumes.Volume
    const sclust: nat     // first cluster of the table, 0 for the root directory
    const lfnbuf: array<nat>
    var dptr: nat         // current entry
    var clust: nat        // its cluster, 0 in the fixed root directory
    var sect: nat         // its sector, 0 once the end was reached
    var dir: nat          // its place in the window
    var blkOfs: nat
    ghost var ch: seq<nat>

    /** The cluster the table starts with; 0 stands for the root directory, which has a chain on FAT32. */
    function Start(): nat {
      if sclust == 0 && fs.g.fatType.Fat32? then fs.g.dirbase else sclust
    }

    /** A table not yet positioned, with first cluster `sclust` and the name buffer of the volume. */
    constructor (fs: Volumes.Volume, sclust: nat, lfnbuf: array<nat>, ghost ch: seq<nat>)
      requires fs.Valid() && Mount.PowerOfTwo(fs.g.csize) && lfnbuf.Length == FF_MAX_LFN + 1
      requires HasTable(fs.g, ch) && (ch != [] ==> IsChain(fs.Fat(), ch))
      requires (if sclust == 0 && fs.g.fatType.Fat32? then fs.g.dirbase else sclust) == (if ch == [] then 0 else ch[0])
      ensures Valid() && this.fs == fs && this.lfnbuf == lfnbuf && this.ch == ch && sect == 0
    {
      this.fs, this.sclust, this.lfnbuf, this.ch := fs, sclust, lfnbuf, ch;
      this.dptr, this.clust, this.sect, this.dir, this.blkOfs := 0, 0, 0, 0, 0;
    }

    ghost predicate Valid()
      reads this, fs, fs.win
    {
      && fs.Valid() && Mount.PowerOfTwo(fs.g.csize) && lfnbuf.Length == FF_MAX_LFN + 1
      && HasTable(fs.g, ch) && Start() == (if ch == [] then 0 else ch[0])
      && (ch != [] ==> IsChain(fs.Fat(), ch))
    }

    /** The entries of the table. */
    ghost function Rows(): (s: seq<seq<byte>>)
      requires Valid()
      reads this, fs, fs.win
      ensures Table(s) && |s| == PER_SECTOR * TableSectors(fs.g, ch)
    {
      Slots(fs.Abs(), fs.g, ch)
    }

    /** Cluster, sector and place in the window are those of entry `dptr`. */
    ghost predicate Placed()
      requires Valid()
      reads this, fs, fs.win
    {
      && sect != 0 && dptr < |Rows()| && dptr < MAX_SLOTS
      && sect == TableSector(fs.g, ch, dptr / PER_SECTOR)
      && clust == TableCluster(fs.g, ch, dptr / PER_SECTOR)
      && dir == SLOT * (dptr % PER_SECTOR)
    }

    /** Nothing but the table changed. */
    twostate predicate Tidy()
      requires old(fs.Valid()) && fs.Valid()
      reads this, fs, fs.win
    {
      Tended(old(fs.Abs()), old(fs.Fat()), old(ch), fs.Abs(), fs.Fat(), ch, fs.g)
    }

    /** The walk of `dir_sdi` along the chain to the cluster of entry `i`. */
    method Walk(i: nat) returns (ok: bool, clst: nat, rest: nat)
      requires Valid() && ch != []
      modifies fs, fs.win
      ensures Valid() && fs.Abs() == old(fs.Abs())
      ensures ok <==> i < |Rows()|
      ensures ok ==>
        && i / PER_SECTOR < TableSectors(fs.g, ch) && i % PER_SECTOR == rest % PER_SECTOR
        && clst == TableCluster(fs.g, ch, i / PER_SECTOR) && fs.g.InCluster(clst)
        && TableSector(fs.g, ch, i / PER_SECTOR) == fs.g.ClusterBase(clst) + rest / PER_SECTOR
    {
      hide Volumes.Volume.Abs, Volumes.TableOf, DiskOk, Geometry.Valid, Geometry.ClusterBase, IsChain, Slots, SectorOf, Sectors,
           Quot, Times;
      ghost var fat := fs.Fat();
      ghost var k: nat := 0;
      clst, rest := Start(), i;
      var csz := PER_SECTOR * fs.g.csize;
      WalkStart(fs.g, ch, i);
      while rest >= csz
        invariant Valid() && fs.Abs() == old(fs.Abs()) && fs.Fat() == fat
        invariant k < |ch| && clst == ch[k] && i == Times(csz, k) + rest
      {
        WalkStep(fat, fs.g, ch, k, rest, i);
        clst := fs.GetFat(clst);
        if clst < 2 || clst >= fs.g.nFatent {
          return false, clst, rest;
        }
        rest, k := rest - csz, k + 1;
      }
      PlaceInCluster(fs.g, ch, k, rest, i);
      ok := true;
    }

    /** `dir_sdi` */
    method Sdi(i: nat) returns (res: Result)
      requires Valid()
      modifies `dptr, `clust, `sect, `dir, fs, fs.win
      ensures Valid() && fs.Abs() == old(fs.Abs()) && Rows() == old(Rows())
      ensures (res.Ok? <==> i < |Rows()| && i < MAX_SLOTS) && (res.Ok? ==> Placed() && dptr == i)
      ensures !res.Ok? ==> res.IntErr?
    {
      hide Volumes.Volume.Abs, Volumes.TableOf, DiskOk, Geometry.Valid, Geometry.ClusterBase, IsChain, Slots, SectorOf, Sectors, Quot;
      if i >= MAX_SLOTS {
        return IntErr;
      }
      dptr := i;
      var clst, rest: nat := Start(), i;
      if clst == 0 {
        NoChain(fs.g, ch);
        if i >= fs.g.nRootdir {
          return IntErr;
        }
        sect := fs.g.dirbase;
        FixedPlace(fs.Abs(), fs.g, i);
      } else {
        var ok;
        ok, clst, rest := Walk(i);
        if !ok {
          return IntErr;
        }
        ClusterSector(fs.Abs(), fs.g, clst);
        sect := fs.g.Clst2Sect(clst);
      }
      clust := clst;
      if sect == 0 {
        return IntErr;
      }
      sect := sect + rest / PER_SECTOR;
      dir := SLOT * (rest % PER_SECTOR);
      res := Ok;
    }

    /** The part of `dir_next` that adds a cluster of zero entries to the table. */
    method Stretch() returns (res: Result, clst: nat)
      requires Valid() && ch != [] && clust == ch[|ch| - 1]
      modifies `ch, fs, fs.win
      ensures Valid() && Tidy()
      ensures res.Ok? ==>
        && fs.g.InCluster(clst) && ch == old(ch) + [clst]
        && Rows() == old(Rows()) + seq(PER_SECTOR * fs.g.csize, i => ZeroSlot())
      ensures !res.Ok? ==> fs.Abs() == old(fs.Abs()) && ch == old(ch) && (res.Denied? || res.IntErr?)
      ensures res.Denied? ==> DiskFull(fs.freeClst, fs.Fat())
      ensures res.IntErr? ==> !NoError(fs.Fat())
    {
      hide Volumes.Volume.Abs, Volumes.TableOf, DiskOk, Geometry.Valid, Geometry.ClusterBase, Geometry.EntryMod, Geometry.Eoc,
           IsChain, Slots, Tended, Linked, NoError, NoneFree, Chosen, FatOnly, Mirrored, ChainIn, WriteRun, ZeroSectors;
      GeometryFacts(fs.Abs(), fs.g);
      TendedNot(fs.Abs(), fs.Fat(), ch, fs.g);
      ghost var d: Disk, fat, last := fs.Abs(), fs.Fat(), fs.lastClst;
      EndsChain(fat, ch);
      clst := CreateChain(fs, clust);
      if clst == 0 {
        return Result.Denied, clst;
      }
      if clst == 1 {
        return IntErr, clst;
      }
      ghost var d1: Disk := fs.Abs();
      ChosenIsFree(fat, last, clust, clst);
      GrowTended(d, fat, d1, fs.Fat(), fs.g, ch, clst);
      ClusterSector(d1, fs.g, clst);
      CsizeSmall(fs.g);
      fs.DirClear(fs.g.Clst2Sect(clst));
      ch := ch + [clst];
      res := Ok;
    }

    /** The part of `dir_next` for an entry that begins a cluster. */
    method NextCluster(stretch: bool) returns (res: Result)
      requires Valid() && ch != [] && dptr / PER_SECTOR < TableSectors(fs.g, ch)
      requires clust == TableCluster(fs.g, ch, dptr / PER_SECTOR)
      requires dptr % PER_SECTOR == PER_SECTOR - 1 && Rem(dptr / PER_SECTOR + 1, fs.g.csize) == 0
      modifies `clust, `sect, `ch, fs, fs.win
      ensures Valid() && Tidy() && Extended(old(Rows()), Rows())
      ensures res.Ok? ==>
        && dptr + 1 < |Rows()|
        && sect == TableSector(fs.g, ch, dptr / PER_SECTOR + 1) && sect != 0
        && clust == TableCluster(fs.g, ch, dptr / PER_SECTOR + 1)
      ensures !res.Ok? ==> fs.Abs() == old(fs.Abs()) && ch == old(ch)
      ensures old(dptr) + 1 < |old(Rows())| || !stretch ==> fs.Abs() == old(fs.Abs()) && ch == old(ch)
      ensures old(dptr) + 1 < |old(Rows())| ==> res.Ok?
      ensures res.Ok? && ch != old(ch) ==> dptr + 1 == |old(Rows())| && |Rows()| == |old(Rows())| + PER_SECTOR * fs.g.csize
      ensures res.Denied? ==> stretch && dptr + 1 == |old(Rows())| && DiskFull(fs.freeClst, fs.Fat())
      ensures res.IntErr? ==> stretch && !NoError(fs.Fat())
      ensures res.NoEntry? ==> sect == 0 && !stretch
    {
      hide Volumes.Volume.Abs, Volumes.TableOf, DiskOk, Geometry.Valid, Geometry.ClusterBase, IsChain, Slots, SectorOf, Sectors,
           Quot, Rem, Tended, NoError, DiskFull, Extended, ChainIn;
      ExtendedNot(Rows());
      TendedNot(fs.Abs(), fs.Fat(), ch, fs.g);
      ghost var rows, q := Rows(), Quot(dptr / PER_SECTOR, fs.g.csize);
      NextSector(fs.g, ch, dptr / PER_SECTOR);
      LinkOf(fs.Fat(), fs.g, ch, q);
      var clst := fs.GetFat(clust);
      if clst <= 1 {
        return IntErr;
      }
      if clst >= fs.g.nFatent {
        if !stretch {
          sect := 0;
          return NoEntry;
        }
        res, clst := Stretch();
        if !res.Ok? {
          return;
        }
        ExtendedByZeros(rows, PER_SECTOR * fs.g.csize);
        FirstOfNew(fs.g, old(ch), clst, dptr / PER_SECTOR);
      }
      ClusterSector(fs.Abs(), fs.g, clst);
      clust := clst;
      sect := fs.g.Clst2Sect(clst);
      res := Ok;
    }

    /** The part of `dir_next` for an entry that begins a sector. */
    method NextSectorOf(stretch: bool) returns (res: Result)
      requires Valid() && Placed() && dptr % PER_SECTOR == PER_SECTOR - 1
      modifies `clust, `sect, `ch, fs, fs.win
      ensures Valid() && Tidy() && Extended(old(Rows()), Rows())
      ensures res.Ok? ==>
        && dptr + 1 < |Rows()| && sect != 0
        && sect == TableSector(fs.g, ch, dptr / PER_SECTOR + 1) && clust == TableCluster(fs.g, ch, dptr / PER_SECTOR + 1)
      ensures !res.Ok? ==> fs.Abs() == old(fs.Abs()) && ch == old(ch)
      ensures dptr + 1 < |old(Rows())| || !stretch ==> fs.Abs() == old(fs.Abs()) && ch == old(ch)
      ensures dptr + 1 < |old(Rows())| ==> res.Ok?
      ensures res.Ok? && ch != old(ch) ==> dptr + 1 == |old(Rows())| && |Rows()| == |old(Rows())| + PER_SECTOR * fs.g.csize
      ensures res.Denied? ==> stretch && ch != [] && dptr + 1 == |Rows()| && DiskFull(fs.freeClst, fs.Fat())
      ensures res.IntErr? ==> stretch && !NoError(fs.Fat())
      ensures res.NoEntry? ==> sect == 0
    {
      hide Volumes.Volume.Abs, Volumes.TableOf, DiskOk, Geometry.Valid, IsChain, Slots, SectorOf, Sectors,
           Quot, Rem, Tended, NoError, DiskFull, Extended, ChainIn;
      ExtendedNot(Rows());
      TendedNot(fs.Abs(), fs.Fat(), ch, fs.g);
      NextSector(fs.g, ch, dptr / PER_SECTOR);
      ChainStarts(fs.g, ch, dptr / PER_SECTOR);
      var ofs := dptr + 1;
      res := Ok;
      sect := sect + 1;
      if clust == 0 {
        if ofs >= fs.g.nRootdir {
          sect := 0;
          res := NoEntry;
        }
      } else if Rem(ofs / PER_SECTOR, fs.g.csize) == 0 {
        res := NextCluster(stretch);
      }
    }

    /** `dir_next` */
    method Next(stretch: bool) returns (res: Result)
      requires Valid() && (sect == 0 || Placed())
      modifies `dptr, `clust, `sect, `dir, `ch, fs, fs.win
      ensures Valid() && Tidy() && Extended(old(Rows()), Rows())
      ensures res.Ok? ==> old(sect) != 0 && Placed() && dptr == old(dptr) + 1
      ensures !res.Ok? ==> dptr == old(dptr) && Rows() == old(Rows())
      ensures old(sect) != 0 && old(dptr) + 1 < |old(Rows())| && old(dptr) + 1 < MAX_SLOTS ==> res.Ok?
      ensures !stretch ==> fs.Abs() == old(fs.Abs()) && ch == old(ch) && (res.Ok? || res.NoEntry?)
      ensures res.Ok? && ch != old(ch) ==> dptr == |old(Rows())| && |Rows()| == |old(Rows())| + PER_SECTOR * fs.g.csize
      ensures res.Denied? ==> stretch && ch != [] && dptr + 1 == |Rows()| && DiskFull(fs.freeClst, fs.Fat())
      ensures res.IntErr? ==> stretch && !NoError(fs.Fat())
      ensures res.NoEntry? ==> sect == 0
    {
      hide Volumes.Volume.Abs, Volumes.TableOf, DiskOk, Geometry.Valid, IsChain, Slots, TableSector, TableSectors, TableCluster,
           HasTable, Tended, NoError, DiskFull, Extended;
      ExtendedNot(Rows());
      TendedNot(fs.Abs(), fs.Fat(), ch, fs.g);
      var ofs := dptr + 1;
      if ofs >= MAX_SLOTS {
        sect := 0;
      }
      if sect == 0 {
        return NoEntry;
      }
      if ofs % PER_SECTOR == 0 {
        res := NextSectorOf(stretch);
        if !res.Ok? {
          return;
        }
      }
      dptr := ofs;
      dir := SLOT * (ofs % PER_SECTOR);
      res := Ok;
    }

    /** Brings the sector of the current entry into the window. */
    method Load() returns (d: seq<byte>)
      requires Valid() && Placed()
      modifies fs, fs.win
      ensures Valid() && Placed() && fs.Abs() == old(fs.Abs()) && Rows() == old(Rows())
      ensures fs.winsect == sect && d == Rows()[dptr]
    {
      hide Volumes.TableOf, DiskOk, Geometry.Valid, IsChain, TableSector, TableSectors, TableCluster;
      TableSectorInside(fs.Abs(), fs.g, ch, dptr / PER_SECTOR);
      fs.MoveWindow(sect);
      d := fs.win[dir..dir + SLOT];
      assert d == fs.win[..][dir..dir + SLOT];
    }

    /** Stores the current entry, whose sector is in the window. */
    method Store(e: seq<byte>)
      requires Valid() && Placed() && fs.winsect == sect && |e| == SLOT
      modifies fs`wflag, fs.win
      ensures Valid() && Placed() && Tidy() && Rows() == old(Rows())[dptr := e]
    {
      hide Volumes.TableOf, Volumes.Volume.Abs, DiskOk, Geometry.Valid, IsChain, TableSector, TableSectors, TableCluster, Slots, Tended,
           Patch, Mirrored, ChainIn;
      SlotsStored(fs.Abs(), fs.g, ch, dptr, e);
      StoreTended(fs.Abs(), fs.Fat(), fs.g, ch, dptr / PER_SECTOR, Patch(fs.Abs()[sect], dir, e));
      fs.StoreInWindow(dir, e);
    }

    /** `dir_alloc`: the first stretch of `n` free entries, the table growing if it must; `dptr` is left at its last. */
    method Alloc(n: nat) returns (res: Result)
      requires Valid() && n > 0
      modifies `dptr, `clust, `sect, `dir, `ch, fs, fs.win
      ensures Valid() && Tidy() && Extended(old(Rows()), Rows())
      ensures res.Ok? ==> Placed() && n <= dptr + 1 && FreeStretch(Rows(), dptr + 1 - n, dptr + 1)
      ensures res.Ok? ==> NoRunBefore(Rows(), dptr, n)
      ensures !res.Ok? ==> (res.Denied? || res.IntErr?)
    {
      hide Volumes.Volume.Abs, Volumes.TableOf, DiskOk, Geometry.Valid, IsChain, Slots, Tended, TableSector, TableSectors,
           TableCluster, HasTable, NoError, DiskFull, Extended, Counted, FreeStretch, NoRunBefore;
      TendedNot(fs.Abs(), fs.Fat(), ch, fs.g);
      ExtendedNot(Rows());
      res := Sdi(0);
      if !res.Ok? {
        return;
      }
      var count: nat := 0;
      CountedNone(Rows(), n);
      while true
        invariant Valid() && Placed() && Tidy() && Extended(old(Rows()), Rows()) && res.Ok?
        invariant Counted(Rows(), dptr, count, n) && count < n
        decreases MAX_SLOTS - dptr
      {
        ghost var d: Disk, fat, c, s, at := fs.Abs(), fs.Fat(), ch, Rows(), dptr;
        var entry := Load();
        if Free(entry) {
          count := count + 1;
          if count == n {
            CountedFull(s, dptr, n);
            break;
          }
        } else {
          count := 0;
        }
        CountedOn(s, at, count, n);
        res := Next(true);
        ExtendedOn(old(Rows()), s, Rows());
        TendedOn(old(fs.Abs()), old(fs.Fat()), old(ch), d, fat, c, fs.Abs(), fs.Fat(), ch, fs.g);
        if !res.Ok? {
          break;
        }
        CountedKept(s, Rows(), at + 1, count, n);
      }
      if res.NoEntry? {
        res := Result.Denied;
      }
    }

    /** The length of the name in the buffer. */
    method NameLength(ghost name: seq<nat>) returns (len: nat)
      requires LongName(name) && Holds(lfnbuf[..], name)
      ensures len == |name|
    {
      len := 0;
      while lfnbuf[len] != 0
        invariant len <= |name|
        decreases |name| - len
      {
        assert lfnbuf[..][len] == lfnbuf[len];
        len := len + 1;
      }
      assert lfnbuf[..][len] == lfnbuf[len];
    }

    /** Part `ord` of the name goes into the current entry. */
    method PutPart(ghost name: seq<nat>, ord: nat, sum: byte)
      requires Valid() && Placed() && LongName(name) && Holds(lfnbuf[..], name) && 1 <= ord <= Parts(name)
      modifies fs, fs.win
      ensures Valid() && Placed() && Tidy() && |Rows()| == |old(Rows())| && Part(Rows()[dptr], name, ord, sum)
      ensures forall i :: 0 <= i < |Rows()| && i != dptr ==> Rows()[i] == old(Rows())[i]
    {
      hide Volumes.Volume.Abs, Volumes.TableOf, DiskOk, Geometry.Valid, IsChain, Slots, Tended, TableSector, TableSectors,
           TableCluster, HasTable, Part, LongName, Holds;
      ghost var d: Disk, fat := fs.Abs(), fs.Fat();
      var entry := Load();
      var slot := new byte[SLOT](i requires 0 <= i < SLOT && |entry| == SLOT => entry[i]);
      PutLfn(lfnbuf[..], slot, ord, sum, name);
      Store(slot[..]);
    }

    /** The loop of `dir_register`: all parts of the name, last part first, into the entries from `dptr` on. */
    method PutParts(ghost name: seq<nat>, n: nat, sum: byte) returns (res: Result)
      requires Valid() && Placed() && LongName(name) && Holds(lfnbuf[..], name) && n == Parts(name)
      requires dptr + n < |Rows()| && dptr + n < MAX_SLOTS
      modifies `dptr, `clust, `sect, `dir, `ch, fs, fs.win
      ensures Valid() && Placed() && Tidy() && res.Ok? && dptr == old(dptr) + n && |Rows()| == |old(Rows())|
      ensures forall i :: 0 <= i < |Rows()| && !(old(dptr) <= i < dptr) ==> Rows()[i] == old(Rows())[i]
      ensures forall i :: old(dptr) <= i < dptr ==> Part(Rows()[i], name, dptr - i, sum)
    {
      hide Volumes.Volume.Abs, Volumes.TableOf, DiskOk, Geometry.Valid, IsChain, Slots, Tended, TableSector, TableSectors,
           TableCluster, HasTable, NoError, DiskFull, Extended, Part, LongName, Holds;
      var left: nat := n;
      ghost var at: nat := dptr;
      res := Ok;
      TendedNot(fs.Abs(), fs.Fat(), ch, fs.g);
      while left > 0
        invariant Valid() && Placed() && Tidy() && res.Ok? && left <= n && dptr == at + (n - left) && |Rows()| == |old(Rows())|
        invariant forall i :: 0 <= i < |Rows()| && !(at <= i < dptr) ==> Rows()[i] == old(Rows())[i]
        invariant forall i :: at <= i < dptr ==> Part(Rows()[i], name, at + n - i, sum)
      {
        ghost var d: Disk, fat, c := fs.Abs(), fs.Fat(), ch;
        PutPart(name, left, sum);
        TendedOn(old(fs.Abs()), old(fs.Fat()), old(ch), d, fat, c, fs.Abs(), fs.Fat(), ch, fs.g);
        res := Next(false);
        left := left - 1;
      }
    }

    /** The short entry goes into the current entry. */
    method PutShort(fn: seq<byte>, flags: byte)
      requires Valid() && Placed() && |fn| == 11
      modifies fs, fs.win
      ensures Valid() && Placed() && Tidy() && Rows() == old(Rows())[dptr := ShortSlot(fn, flags)]
    {
      hide Volumes.Volume.Abs, Volumes.TableOf, DiskOk, Geometry.Valid, IsChain, Slots, Tended, TableSector, TableSectors,
           TableCluster, HasTable, ShortSlot;
      var entry := Load();
      Store(ShortSlot(fn, flags));
    }

    /**
     * `dir_register` once the short name is settled. The long name needs its parts in front of the short entry if
     * `long` is set.
     */
    method Register(ghost name: seq<nat>, fn: seq<byte>, flags: byte, long: bool) returns (res: Result)
      requires Valid() && GoodShort(fn) && LongName(name) && Holds(lfnbuf[..], name)
      modifies `dptr, `clust, `sect, `dir, `ch, fs, fs.win
      ensures Valid() && Tidy()
      ensures res.Ok? ==> Placed() && Registered(old(Rows()), Rows(), dptr, name, fn, flags, long)
      ensures !res.Ok? ==> Extended(old(Rows()), Rows())
    {
      hide Volumes.Volume.Abs, Volumes.TableOf, DiskOk, Geometry.Valid, IsChain, Slots, Tended, TableSector, TableSectors,
           TableCluster, HasTable, NoError, DiskFull, LongName, Holds, Part,
           Extended, FreeStretch, ShortSlot, NoRunBefore, Registered, Entries, SumSfn;
      var len := NameLength(name);
      var n: nat := if long then (len + 12) / 13 else 0;
      res := Alloc(n + 1);
      if !res.Ok? {
        return;
      }
      ghost var d: Disk, fat, c, grown, last := fs.Abs(), fs.Fat(), ch, Rows(), dptr;
      RunBounds(grown, dptr - n, dptr + 1);
      Fill(name, fn, flags, n);
      TendedOn(old(fs.Abs()), old(fs.Fat()), old(ch), d, fat, c, fs.Abs(), fs.Fat(), ch, fs.g);
      RegisteredIs(old(Rows()), grown, Rows(), last, name, fn, flags, n, long);
    }

    /** The `n` parts of the name, if any, and the short entry go into the entries that end at `dptr`. */
    method Fill(ghost name: seq<nat>, fn: seq<byte>, flags: byte, n: nat)
      requires Valid() && Placed() && |fn| == 11 && LongName(name) && Holds(lfnbuf[..], name)
      requires n <= dptr && (n == 0 || n == Parts(name))
      modifies `dptr, `clust, `sect, `dir, `ch, fs, fs.win
      ensures Valid() && Placed() && Tidy() && dptr == old(dptr) && |Rows()| == |old(Rows())|
      ensures Rows()[dptr] == ShortSlot(fn, flags)
      ensures forall i :: 0 <= i < |Rows()| && !(dptr - n <= i <= dptr) ==> Rows()[i] == old(Rows())[i]
      ensures forall i :: dptr - n <= i < dptr ==> Part(Rows()[i], name, dptr - i, SumSfn(ShortSlot(fn, flags)))
    {
      hide Volumes.Volume.Abs, Volumes.TableOf, DiskOk, Geometry.Valid, IsChain, Slots, Tended, TableSector, TableSectors,
           TableCluster, HasTable, LongName, Holds, Part, ShortSlot, Extended,
           SumFrom, SumSfn;
      TendedNot(fs.Abs(), fs.Fat(), ch, fs.g);
      if n > 0 {
        var sum := SumOf(fn);
        SumShortSlot(fn, flags);
        var res := Sdi(dptr - n);
        res := PutParts(name, n, sum);
      }
      ghost var d: Disk, fat, c := fs.Abs(), fs.Fat(), ch;
      PutShort(fn, flags);
      TendedOn(old(fs.Abs()), old(fs.Fat()), old(ch), d, fat, c, fs.Abs(), fs.Fat(), ch, fs.g);
    }

    /** The reader's state in the middle of `dir_read`. */
    function State(ord: nat, sum: nat): Reader
      reads this, lfnbuf
    {
      Reader(ord, sum, lfnbuf[..], blkOfs)
    }

    /** The body of `dir_read` for a part of a long name. */
    method TakePart(d: seq<byte>, ord0: nat, sum0: nat) returns (ord: nat, sum: nat)
      requires lfnbuf.Length == FF_MAX_LFN + 1 && |d| == SLOT && ord0 < 0x100 && sum0 < 0x100
      modifies `blkOfs, lfnbuf
      ensures State(ord, sum) == Taken(old(State(ord0, sum0)), d, dptr)
    {
      hide Pick;
      ord, sum := ord0, sum0;
      var b: nat := d[0] as int;
      if IsLast(d) {
        sum := d[SUM_AT] as int;
        b := b - LLEF;
        ord := b;
        blkOfs := dptr;
      }
      var good := false;
      if b == ord && sum == d[SUM_AT] as int {
        good := PickLfn(lfnbuf, d);
      }
      ord := if good then (ord + 0xFF) % 0x100 else 0xFF;
    }

    /** What `dir_read` does with an entry, and whether it stops there. */
    method See(d: seq<byte>, ord0: nat, sum0: nat) returns (stop: bool, ord: nat, sum: nat)
      requires lfnbuf.Length == FF_MAX_LFN + 1 && |d| == SLOT && ord0 < 0x100 && sum0 < 0x100
      modifies `blkOfs, lfnbuf
      ensures stop == Stops(d) && State(ord, sum) == Seen(old(State(ord0, sum0)), d, dptr)
    {
      hide Seen, Taken, Stops, SumSfn;
      ord, sum, stop := ord0, sum0, false;
      SeenIs(State(ord, sum), d, dptr);
      if d[0] as int == DDEM || d[0] as int == DOT || Label(Attr(d)) {
        ord := 0xFF;
      } else if Attr(d) == AM_LFN {
        ord, sum := TakePart(d, ord, sum);
      } else {
        var own := ShortSum(d);
        if ord != 0 || sum != own {
          blkOfs := NONE;
        }
        stop := true;
      }
    }

    /** `dir_read` */
    method Read() returns (res: Result)
      requires Valid() && (sect == 0 || Placed())
      modifies `dptr, `clust, `sect, `dir, `blkOfs, lfnbuf, `ch, fs, fs.win
      ensures Valid() && (res.Ok? || res.NoEntry?) && fs.Abs() == old(fs.Abs()) && ch == old(ch)
      ensures old(sect) == 0 ==> res.NoEntry?
      ensures old(sect) != 0 ==>
        if res.Ok? then FirstListed(Rows(), old(dptr), dptr, blkOfs) else NoneListed(Rows(), old(dptr))
      ensures old(sect) != 0 ==>
        var f := ReadFrom(Rows(), old(dptr), old(State(0xFF, 0xFF)));
        if res.Ok? then Placed() && f.At? && f.i == dptr && f.r.buf == lfnbuf[..] && f.r.blk == blkOfs else f.NoFile? && sect == 0
    {
      hide Volumes.Volume.Abs, Volumes.TableOf, DiskOk, Geometry.Valid, IsChain, Slots, Tended, TableSector, TableSectors,
           TableCluster, HasTable, NoError, DiskFull, Extended, Seen, Taken,
           Stops, SumSfn, FirstListed, NoneListed;
      if sect == 0 {
        return NoEntry;
      }
      var ord: nat, sum: nat := 0xFF, 0xFF;
      ghost var rows := Rows();
      ReadShows(rows, dptr, State(ord, sum));
      while true
        invariant Valid() && Placed() && State(ord, sum).Valid()
        invariant fs.Abs() == old(fs.Abs()) && ch == old(ch) && Rows() == rows
        invariant ReadFrom(rows, dptr, State(ord, sum)) == ReadFrom(rows, old(dptr), old(State(0xFF, 0xFF)))
        decreases MAX_SLOTS - dptr
      {
        var d := Load();
        if d[0] == 0 {
          res := NoEntry;
          break;
        }
        var stop;
        stop, ord, sum := See(d, ord, sum);
        if stop {
          return Ok;
        }
        res := Next(false);
        if !res.Ok? {
          break;
        }
      }
      sect := 0;
    }

    method ShortSum(d: seq<byte>) returns (sum: nat)
      requires |d| == SLOT
      ensures sum == SumSfn(d)
    {
      var s := SumOf(d[..11]);
      SumPrefix(d, 0, 0);
      sum := s as int;
    }
 
    /** What `dir_find` does with an entry, and whether it is the one looked for. */
    method Examine(up: nat -> nat, t: Target, d: seq<byte>, ord0: nat, sum0: nat) returns (hit: bool, ord: nat, sum: nat)
      requires lfnbuf.Length == FF_MAX_LFN + 1 && t.Valid() && t.buf == lfnbuf[..] && |d| == SLOT
      modifies `blkOfs
      ensures hit == Matches(t, Finder(ord0, sum0, old(blkOfs)), d)
      ensures if hit then blkOfs == old(blkOfs)
              else Finder(ord, sum, blkOfs) == Searched(up, t, Finder(ord0, sum0, old(blkOfs)), d, dptr)
    {
      hide Searched, Compares, Matches, SumSfn;
      ord, sum, hit := ord0, sum0, false;
      SearchedIs(up, t, Finder(ord, sum, blkOfs), d, dptr);
      if d[0] as int == DDEM || (Volume(Attr(d)) && Attr(d) != AM_LFN) {
        ord, blkOfs := 0xFF, NONE;
      } else if Attr(d) == AM_LFN {
        if !t.noLong {
          ord, sum := ComparePart(up, t, d, ord, sum);
        }
      } else {
        var own := ShortSum(d);
        if ord == 0 && sum == own {
          return true, ord, sum;
        }
        if !t.loss && d[..11] == t.fn {
          return true, ord, sum;
        }
        ord, blkOfs := 0xFF, NONE;
      }
    }

    /** `dir_find` */
    method Find(up: nat -> nat, t: Target) returns (res: Result)
      requires Valid() && t.Valid() && t.buf == lfnbuf[..]
      modifies `dptr, `clust, `sect, `dir, `blkOfs, `ch, fs, fs.win
      ensures Valid() && fs.Abs() == old(fs.Abs()) && ch == old(ch)
      ensures var h := FindFrom(up, Rows(), 0, t, Finder(0xFF, 0xFF, NONE));
        if res.Ok? then Placed() && h == Hit(dptr, blkOfs) else res.NoEntry? && h.Miss?
      ensures if res.Ok? then FirstWanted(up, Rows(), t, dptr, blkOfs) else NoneWanted(up, Rows(), t)
    {
      hide Volumes.Volume.Abs, Volumes.TableOf, DiskOk, Geometry.Valid, IsChain, Slots, Tended, TableSector, TableSectors,
           TableCluster, HasTable, NoError, DiskFull, Extended, Searched,
           Compares, Matches, SumSfn, FirstWanted, NoneWanted;
      RowsThere(this);
      res := Sdi(0);
      var ord: nat, sum: nat := 0xFF, 0xFF;
      blkOfs := NONE;
      ghost var rows := Rows();
      FindShows(up, rows, t);
      while true
        invariant Valid() && Placed() && fs.Abs() == old(fs.Abs()) && ch == old(ch) && Rows() == rows && res.Ok?
        invariant FindFrom(up, rows, dptr, t, Finder(ord, sum, blkOfs)) ==
                  FindFrom(up, rows, 0, t, Finder(0xFF, 0xFF, NONE))
        decreases MAX_SLOTS - dptr
      {
        var d := Load();
        if d[0] == 0 {
          return NoEntry;
        }
        var hit;
        hit, ord, sum := Examine(up, t, d, ord, sum);
        if hit {
          return Ok;
        }
        res := Next(false);
        if !res.Ok? {
          return;
        }
      }
    }

    /** The loop of `dir_register` over numbered short names: the first of `names` that no entry has. */
    method SettleShort(up: nat -> nat, names: nat -> seq<byte>) returns (res: Result, fn: seq<byte>, ghost n: nat)
      requires Valid() && forall k :: 1 <= k < 100 ==> |names(k)| == 11
      modifies `dptr, `clust, `sect, `dir, `blkOfs, `ch, fs, fs.win
      ensures Valid() && fs.Abs() == old(fs.Abs()) && ch == old(ch) && (res.Ok? || res.Denied?)
      ensures 1 <= n <= 100 && forall k :: 1 <= k < n ==> ShortTaken(Rows(), 0, names(k))
      ensures if res.Ok? then n < 100 && fn == names(n) && !ShortTaken(Rows(), 0, fn) else n == 100
    {
      hide Volumes.Volume.Abs, Volumes.TableOf, DiskOk, Geometry.Valid, IsChain, Slots, TableSector, TableSectors, TableCluster,
           HasTable, FindFrom, ShortTaken;
      ghost var rows := Rows();
      var i: nat := 1;
      n, fn, res := 1, names(1), Result.Denied;
      while i < 100
        invariant Valid() && fs.Abs() == old(fs.Abs()) && ch == old(ch) && Rows() == rows
        invariant 1 <= i <= 100 && n == i && res.Denied?
        invariant forall k :: 1 <= k < i ==> ShortTaken(rows, 0, names(k))
      {
        fn := names(i);
        var t := Target(lfnbuf[..], fn, true, false);
        FindByShort(up, rows, 0, t, Finder(0xFF, 0xFF, NONE));
        var found := Find(up, t);
        if !found.Ok? {
          res := Ok;
          return;
        }
        i := i + 1;
        n := i;
      }
    }

    /** `dir_register` of a name that has to have a numbered short one; `names` are those that `gen_numname` makes. */
    method RegisterNumbered(up: nat -> nat, ghost name: seq<nat>, names: nat -> seq<byte>, flags: byte, long: bool)
      returns (res: Result, fn: seq<byte>)
      requires Valid() && LongName(name) && Holds(lfnbuf[..], name)
      requires forall k :: 1 <= k < 100 ==> GoodShort(names(k))
      modifies `dptr, `clust, `sect, `dir, `blkOfs, `ch, fs, fs.win
      ensures Valid() && Tidy()
      ensures res.Ok? ==>
        && Placed() && Registered(old(Rows()), Rows(), dptr, name, fn, flags, long)
        && !ShortTaken(old(Rows()), 0, fn)
        && exists n :: 1 <= n < 100 && fn == names(n) && forall k :: 1 <= k < n ==> ShortTaken(old(Rows()), 0, names(k))
      ensures !res.Ok? ==> Extended(old(Rows()), Rows())
      ensures (forall k :: 1 <= k < 100 ==> ShortTaken(old(Rows()), 0, names(k))) ==> res.Denied? && fs.Abs() == old(fs.Abs())
    {
      hide Volumes.Volume.Abs, Volumes.TableOf, DiskOk, Geometry.Valid, IsChain, Slots, Tended, TableSector, TableSectors,
           TableCluster, HasTable, ShortTaken, LongName, Holds, Registered, Extended;
      TendedNot(fs.Abs(), fs.Fat(), ch, fs.g);
      ExtendedNot(Rows());
      ghost var n;
      res, fn, n := SettleShort(up, names);
      if res.Ok? {
        res := Register(name, fn, flags, long);
      }
    }

    /** The body of `dir_find` for a part of a long name. */
    method ComparePart(up: nat -> nat, t: Target, d: seq<byte>, ord0: nat, sum0: nat) returns (ord: nat, sum: nat)
      requires lfnbuf.Length == FF_MAX_LFN + 1 && t.Valid() && t.buf == lfnbuf[..] && |d| == SLOT
      modifies `blkOfs
      ensures Finder(ord, sum, blkOfs) == Compares(up, t, Finder(ord0, sum0, old(blkOfs)), d, dptr)
    {
      hide Cmp;
      ord, sum := ord0, sum0;
      var c: nat := d[0] as int;
      if IsLast(d) {
        sum := d[SUM_AT] as int;
        c := c - LLEF;
        ord := c;
        blkOfs := dptr;
      }
      var same := false;
      if c == ord && sum == d[SUM_AT] as int {
        same := CmpLfn(up, lfnbuf, d);
      }
      ord := if same then (ord + 0xFF) % 0x100 else 0xFF;
    }
  }

  /** What leaves everything but a table alone leaves every chain disjoint from it alone, with its data. */
  lemma TendedUntouched(d: Disk, fat: seq<nat>, ch: seq<nat>, d': Disk, fat': seq<nat>, ch': seq<nat>, g: Geometry)
    requires DiskOk(d, g) && DiskOk(d', g) && |fat| == g.nFatent && Tended(d, fat, ch, d', fat', ch', g)
    ensures FileRuns.OthersUntouched(d, fat, ch, d', fat', ch', g)
  {
    hide Geometry.ClusterBase, OutsideChain, DiskOk, MirrorKept;
    if ch != [] {
      FileRuns.ConfinedUntouched(d, fat, ch, d', fat', ch', g, ch');
    } else {
      forall o: seq<nat> | IsChain(fat, o) && Disjoint(o, ch)
        ensures IsChain(fat', o) && Disjoint(o, ch') && FileRuns.ClustersSame(d, d', g, o)
      {
        forall i, s | 0 <= i < |o| && o[i] >= 2 && g.ClusterBase(o[i]) <= s < g.ClusterBase(o[i]) + g.csize && s < |d|
          ensures d'[s] == d[s]
        {
          DataSector(d, g, o[i], s);
        }
      }
    }
  }

  lemma DataSector(d: Disk, g: Geometry, c: nat, s: nat)
    requires DiskOk(d, g) && g.InCluster(c) && g.ClusterBase(c) <= s < g.ClusterBase(c) + g.csize
    ensures g.database <= s && !g.InFats(s)
  {
    ClusterSectorInData(g, |d|, c, s - g.ClusterBase(c));
  }

  /** A table has at least one sector of entries. */
  lemma RowsThere(dp: Directory)
    requires dp.Valid()
    ensures |dp.Rows()| > 0
  {
    hide TableSectors;
    NotEmpty(dp.fs.g, dp.ch);
  }

  // ----- what registering does to the other entries

  /**
   * Every name that was in the table is still there after another was registered, nothing in front of it has turned
   * into an end mark, and the table still ends in zeros: readers and searches that came to it still do.
   */
  lemma OthersStay(s: seq<seq<byte>>, t: seq<seq<byte>>, last: nat, name: seq<nat>, fn: seq<byte>, flags: byte, long: bool,
      at: nat, other: seq<nat>)
    requires Registered(s, t, last, name, fn, flags, long) && GoodShort(fn) && LongName(other) && LongName(name)
    requires Entries(s, at, other)
    ensures Entries(t, at, other)
    ensures forall i :: 0 <= i < |s| && s[i][0] != 0 ==> t[i][0] != 0
    ensures forall i :: 0 <= i < |s| && !Free(s[i]) ==> t[i] == s[i]
  {
    hide SumSfn, ShortSlot, LdWord;
    var n := Parts(other);
    ShortSlotIs(fn, flags);
    assert t[at + n] == s[at + n];
    forall i | at <= i < at + n ensures t[i] == s[i] {
      var p := Part(s[i], other, at + n - i, SumSfn(s[at + n]));
      assert !Free(s[i]);
    }
    forall i | 0 <= i < |s| && s[i][0] != 0 ensures t[i][0] != 0 {}
  }

  /** The name just registered is read back, whole, by any reader that comes to it. */
  lemma RegisteredIsRead(s: seq<seq<byte>>, t: seq<seq<byte>>, last: nat, name: seq<nat>, fn: seq<byte>, flags: byte,
      i: nat, r: Reader)
    requires Registered(s, t, last, name, fn, flags, true) && LongName(name) && GoodShort(fn) && r.Valid()
    requires Clear(t, i, last - Parts(name))
    ensures var f := ReadFrom(t, i, r);
      f.At? && f.i == last && f.r.blk == last - Parts(name) && Holds(f.r.buf, name)
  {
    ReadName(t, i, last - Parts(name), name, r);
  }

  /** The name just registered is found, under any case, by a search that comes to it. */
  lemma RegisteredIsFound(up: nat -> nat, s: seq<seq<byte>>, t: seq<seq<byte>>, last: nat, name: seq<nat>, fn: seq<byte>,
      flags: byte, want: seq<nat>, i: nat, k: Target, f: Finder)
    requires Registered(s, t, last, name, fn, flags, true) && LongName(name) && GoodShort(fn) && Folding(up)
    requires k.Valid() && !k.noLong && Holds(k.buf, want) && SameName(up, name, want)
    requires Passes(up, t, i, last - Parts(name), k, f)
    ensures FindFrom(up, t, i, k, f) == Hit(last, last - Parts(name))
  {
    hide ShortSlot, Part, Passes, FindFrom;
    ShortSlotIs(fn, flags);
    forall j | 0 <= j < |want| ensures want[j] != 0 {
      assert up(name[j]) == up(want[j]) && 0 < name[j];
    }
    FindName(up, t, i, last - Parts(name), name, want, k, f);
  }
}
