/** tinyalloc as it is built: three linked lists of descriptors, relinked in place. */
module Heaps {
  import opened HeapSpec
  import opened Lists
  import opened Words

  class Block {
    var addr: nat
    var next: Block?
    var size: nat

    constructor ()
      ensures next == null
    {
      addr, next, size := 0, null, 0;
    }
  }

  // ----- linked lists

  /** The list starting at `head` runs through `s` and ends with `last`. */
  ghost predicate Linked(head: Block?, s: seq<Block>, last: Block?)
    reads s`next
  {
    && head == (if |s| > 0 then s[0] else last)
    && forall i :: 0 <= i < |s| ==> s[i].next == After(s, i, last)
  }

  ghost predicate Within(s: seq<Block>, d: set<Block>) {
    forall b :: b in s ==> b in d
  }

  /** The descriptors of `s` hold the ranges `rs`. */
  ghost predicate Shows(s: seq<Block>, rs: seq<Range>)
    reads s`addr, s`size
  {
    && |s| == |rs|
    && forall i :: 0 <= i < |s| ==> rs[i] == Range(s[i].addr, s[i].size)
  }

  lemma {:induction false} InsertPosIs(s: seq<Range>, r: Range, k: nat)
    requires k <= |s| && (forall i :: 0 <= i < k ==> s[i].addr < r.addr) && (k < |s| ==> r.addr <= s[k].addr)
    ensures InsertPos(s, r) == k
  {
  }

  /** A descriptor linked in between two neighbours. */
  lemma PlacedLinked(head: Block?, s: seq<Block>, k: nat, b: Block, last: Block?)
    requires k <= |s|
    requires forall i :: 0 <= i < |s| && i != k - 1 ==> s[i].next == After(s, i, last)
    requires k > 0 ==> s[k - 1].next == b && head == s[0]
    requires k == 0 ==> head == b
    requires b.next == (if k < |s| then s[k] else last)
    ensures Linked(head, Placed(s, k, b), last)
  {
    var t := Placed(s, k, b);
    forall i | 0 <= i < |t| ensures t[i].next == After(t, i, last) {
      if i < k - 1 { assert s[i].next == After(s, i, last); }
      if i > k { assert s[i - 1].next == After(s, i - 1, last); }
    }
  }

  lemma PlacedShows(s: seq<Block>, rs: seq<Range>, b: Block)
    requires Shows(s, rs)
    ensures Shows(Placed(s, InsertPos(rs, Range(b.addr, b.size)), b), Insert(rs, Range(b.addr, b.size)))
  {
  }

  lemma ShowsLength(s: seq<Block>, rs: seq<Range>)
    requires Shows(s, rs)
    ensures |s| == |rs|
  {
  }

  // ----- compaction of the ranges, place by place

  function CompactFrom(s: seq<Range>, k: nat): (t: seq<Range>)
    requires k <= |s|
  {
    s[..k] + Compact(s[k..])
  }

  /** Blocks `k` to `m` of `s` made into one. */
  function Merged(s: seq<Range>, k: nat, m: nat): (t: seq<Range>)
    requires k <= m < |s| && s[k].addr <= s[m].addr
    ensures |t| == |s| - (m - k) && t[k] == Range(s[k].addr, s[m].addr - s[k].addr + s[m].size)
    ensures forall i :: 0 <= i < k ==> t[i] == s[i]
    ensures forall i :: k < i < |t| ==> t[i] == s[i + (m - k)]
  {
    s[..k] + [Range(s[k].addr, s[m].addr - s[k].addr + s[m].size)] + s[m + 1..]
  }

  lemma MergedOne(s: seq<Range>, k: nat)
    requires k < |s|
    ensures Merged(s, k, k) == s
  {
  }

  lemma InsertLength(s: seq<Range>, r: Range)
    ensures |Insert(s, r)| == |s| + 1
  {
  }

  lemma MergedFacts(s: seq<Range>, k: nat, m: nat)
    requires k <= m < |s| && s[k].addr <= s[m].addr
    ensures |Merged(s, k, m)| == |s| - (m - k) && Merged(s, k, m)[k].End() == s[m].End()
    ensures k + 1 < |s| - (m - k) ==> m + 1 < |s| && Merged(s, k, m)[k + 1] == s[m + 1]
  {
  }

  lemma MergeMore(s: seq<Range>, k: nat, m: nat)
    requires k <= m && m + 1 < |s| && s[k].addr <= s[m].addr && s[m].End() == s[m + 1].addr
    ensures CompactFrom(Merged(s, k, m), k) == CompactFrom(Merged(s, k, m + 1), k)
  {
    hide Compact;
    var t, u := Merged(s, k, m), Merged(s, k, m + 1);
    var v := t[k..];
    assert t[..k] == u[..k];
    assert v[0] == t[k] && v[1] == s[m + 1] && v[2..] == s[m + 2..];
    CompactTouching(v);
    assert u[k] == Range(v[0].addr, v[0].size + v[1].size);
    assert u[k..] == [u[k]] + s[m + 2..];
  }

  lemma CompactTouching(s: seq<Range>)
    requires |s| >= 2 && s[0].End() == s[1].addr
    ensures Compact(s) == Compact([Range(s[0].addr, s[0].size + s[1].size)] + s[2..])
  {
  }

  lemma SkipOne(s: seq<Range>, k: nat)
    requires k < |s| && (k + 1 < |s| ==> s[k].End() != s[k + 1].addr)
    ensures CompactFrom(s, k) == CompactFrom(s, k + 1)
  {
    assert s[k..][1..] == s[k + 1..];
    assert s[..k + 1] == s[..k] + [s[k]];
    if k + 1 < |s| {
      assert s[k..][1] == s[k + 1];
    } else {
      assert s[k + 1..] == [];
      assert s[k..] == [s[k]];
    }
  }

  lemma CompactFromEnds(s: seq<Range>)
    ensures CompactFrom(s, 0) == Compact(s) && CompactFrom(s, |s|) == s
  {
    assert s[0..] == s && s[|s|..] == [];
  }

  // ----- pushing and dropping

  lemma LinkedTail(head: Block?, s: seq<Block>, last: Block?)
    requires Linked(head, s, last) && s != []
    ensures head == s[0] && Linked(s[0].next, s[1..], last)
  {
    var t := s[1..];
    assert s[0].next == After(s, 0, last);
    forall i | 0 <= i < |t| ensures t[i].next == After(t, i, last) {
      assert s[i + 1].next == After(s, i + 1, last);
    }
  }

  lemma LinkedCons(b: Block, s: seq<Block>, last: Block?)
    requires Linked(b.next, s, last)
    ensures Linked(b, [b] + s, last)
  {
    var t := [b] + s;
    forall i | 0 <= i < |t| ensures t[i].next == After(t, i, last) {
      if i > 0 { assert t[i] == s[i - 1] && s[i - 1].next == After(s, i - 1, last); }
    }
  }

  lemma LinkedAt(head: Block?, s: seq<Block>, last: Block?, k: nat)
    requires Linked(head, s, last)
    ensures head == (if |s| > 0 then s[0] else last)
    ensures k < |s| ==> s[k].next == After(s, k, last)
  {
  }

  lemma ShowsAt(s: seq<Block>, rs: seq<Range>, k: nat)
    requires Shows(s, rs)
    ensures |s| == |rs| && (k < |s| ==> rs[k] == Range(s[k].addr, s[k].size))
  {
  }

  lemma LinkedStart(head: Block?, s: seq<Block>, last: Block?)
    requires Linked(head, s, last) && (last != null ==> last !in s)
    ensures s == [] <==> head == last
  {
  }

  // ----- cutting a stretch out of a list

  function CutOut(s: seq<Block>, k: nat, m: nat): (t: seq<Block>)
    requires k < m < |s|
    ensures |t| == |s| - (m - k)
    ensures forall i :: 0 <= i <= k ==> t[i] == s[i]
    ensures forall i :: k < i < |t| ==> t[i] == s[i + (m - k)]
  {
    s[..k + 1] + s[m + 1..]
  }

  lemma LinkedAll(head: Block?, s: seq<Block>)
    requires Linked(head, s, null)
    ensures forall i :: 0 <= i < |s| ==> s[i].next == After(s, i, null)
  {
  }

  lemma ListFacts(head: Block?, s: seq<Block>, rs: seq<Range>)
    requires Linked(head, s, null) && Shows(s, rs)
    ensures |s| == |rs|
    ensures forall i :: 0 <= i < |s| ==> rs[i] == Range(s[i].addr, s[i].size)
    ensures forall i :: 0 <= i < |s| ==> s[i].next == After(s, i, null)
  {
  }

  lemma StretchFacts(head: Block?, s: seq<Block>, k: nat, m: nat)
    requires Linked(head, s, null) && NoDup(s) && k < m < |s|
    ensures Linked(s[k].next, s[k + 1..m + 1], s[m].next) && NoDup(s[k + 1..m + 1])
    ensures s[m].next == After(s, m, null) && (s[m].next != null ==> s[m].next !in s[k + 1..m + 1])
  {
    var seg := s[k + 1..m + 1];
    assert s[k].next == After(s, k, null) && s[m].next == After(s, m, null);
    forall i | 0 <= i < |seg| ensures seg[i].next == After(seg, i, s[m].next) {
      assert seg[i] == s[k + 1 + i];
      assert s[k + 1 + i].next == After(s, k + 1 + i, null);
    }
  }

  lemma CutFacts(s: seq<Block>, k: nat, m: nat)
    requires NoDup(s) && k < m < |s|
    ensures NoDup(CutOut(s, k, m)) && Separate(CutOut(s, k, m), s[k + 1..m + 1])
    ensures forall b :: b in s <==> b in CutOut(s, k, m) || b in s[k + 1..m + 1]
  {
    assert s == s[..k + 1] + s[k + 1..m + 1] + s[m + 1..];
  }

  lemma SameBlock(s: seq<Block>, k: nat, m: nat)
    requires NoDup(s) && k <= m < |s|
    ensures s[k] == s[m] <==> k == m
  {
  }

  lemma Outside(s: seq<Block>, k: nat, m: nat)
    requires NoDup(s) && k < m < |s|
    ensures forall i :: 0 <= i < |s| && (i <= k || m < i) ==> s[i] !in s[k + 1..m + 1]
    ensures forall i :: 0 <= i < |s| && i != k ==> s[i] != s[k]
  {
  }

  /** Everything but the stretch after `k` is as it was, and `k` has swallowed the stretch up to `m`. */
  ghost predicate CutReady(s: seq<Block>, rs: seq<Range>, k: nat, m: nat)
    requires k < m < |s|
    reads s
  {
    && |s| == |rs| && rs[k].addr <= rs[m].addr
    && (forall i :: 0 <= i < |s| && (i < k || m < i) ==> s[i].next == After(s, i, null))
    && (forall i :: 0 <= i < |s| && (i < k || m < i) ==> rs[i] == Range(s[i].addr, s[i].size))
    && s[k].next == After(s, m, null)
    && s[k].addr == rs[k].addr && s[k].size == rs[m].addr - rs[k].addr + rs[m].size
  }

  lemma CutDone(head: Block?, s: seq<Block>, rs: seq<Range>, k: nat, m: nat)
    requires k < m < |s| && head == s[0] && CutReady(s, rs, k, m)
    ensures Linked(head, CutOut(s, k, m), null)
    ensures Shows(CutOut(s, k, m), Merged(rs, k, m))
  {
    var t := CutOut(s, k, m);
    forall i | 0 <= i < |t| ensures t[i].next == After(t, i, null) {
      if i < k {
        assert s[i].next == After(s, i, null);
      } else if i > k {
        assert s[i + (m - k)].next == After(s, i + (m - k), null);
      }
    }
  }

  // ----- taking one descriptor out of a list

  lemma DroppedLinked(head: Block?, s: seq<Block>, k: nat)
    requires k < |s|
    requires forall i :: 0 <= i < |s| && i != k && i + 1 != k ==> s[i].next == After(s, i, null)
    requires k > 0 ==> s[k - 1].next == After(s, k, null) && head == s[0]
    requires k == 0 ==> head == After(s, 0, null)
    ensures Linked(head, Dropped(s, k), null)
  {
    var t := Dropped(s, k);
    forall i | 0 <= i < |t| ensures t[i].next == After(t, i, null) {
      if i + 1 < k {
        assert s[i].next == After(s, i, null);
      } else if i >= k {
        assert s[i + 1].next == After(s, i + 1, null);
      }
    }
  }

  lemma DroppedShows(s: seq<Block>, rs: seq<Range>, k: nat)
    requires Shows(s, rs) && k < |s|
    ensures Shows(Dropped(s, k), Dropped(rs, k))
  {
  }

  lemma ConsShows(b: Block, s: seq<Block>, rs: seq<Range>)
    requires Shows(s, rs)
    ensures Shows([b] + s, [Range(b.addr, b.size)] + rs)
  {
  }

  lemma HeadShows(s: seq<Block>, rs: seq<Range>)
    requires Shows(s, rs) && s != []
    ensures rs != [] && rs[0] == Range(s[0].addr, s[0].size) && Shows(s[1..], rs[1..])
  {
  }

  lemma RenewShows(s: seq<Block>, rs: seq<Range>, r: Range)
    requires s != [] && rs != [] && Shows(s[1..], rs[1..]) && r == Range(s[0].addr, s[0].size)
    ensures Shows(s, [r] + rs[1..])
  {
    forall i | 0 < i < |s| ensures rs[i] == Range(s[i].addr, s[i].size) {
      assert s[1..][i - 1] == s[i] && rs[1..][i - 1] == rs[i];
    }
  }

  lemma {:induction false} FindUsedIs(s: seq<Range>, addr: nat, k: nat)
    requires k <= |s| && (k < |s| ==> s[k].addr == addr) && forall i :: 0 <= i < k ==> s[i].addr != addr
    ensures FindUsed(s, addr) == k
  {
  }

  lemma {:induction false} FirstFitIs(s: seq<Range>, num: nat, top: nat, limit: nat, k: nat)
    requires k <= |s| && (k < |s| ==> AtTop(s[k], num, top, limit) || s[k].size >= num)
    requires forall i :: 0 <= i < k ==> !AtTop(s[i], num, top, limit) && s[i].size < num
    ensures FirstFit(s, num, top, limit) == k
  {
  }

  lemma FindUsedBound(s: seq<Range>, addr: nat)
    ensures FindUsed(s, addr) <= |s|
    ensures FindUsed(s, addr) < |s| ==> s[FindUsed(s, addr)].addr == addr
  {
  }

  lemma LinkedNothing()
    ensures Linked(null, [], null)
  {
  }

  method NewDescriptors(n: nat) returns (s: seq<Block>)
    ensures |s| == n && NoDup(s)
    ensures forall i :: 0 <= i < n ==> fresh(s[i])
  {
    s := [];
    while |s| < n
      invariant |s| <= n && NoDup(s)
      invariant forall i :: 0 <= i < |s| ==> fresh(s[i])
    {
      var b := new Block();
      s := s + [b];
    }
  }

  method LinkUp(s: seq<Block>)
    requires s != [] && NoDup(s)
    modifies s
    ensures Linked(s[0], s, null)
  {
    var k := 0;
    while k < |s| - 1
      invariant k < |s|
      invariant forall i :: 0 <= i < k ==> s[i].next == After(s, i, null)
    {
      s[k].next := s[k + 1];
      k := k + 1;
    }
    s[k].next := null;
  }

  class Heap {
    var free: Block?
    var used: Block?
    var blank: Block?
    var top: nat
    const cfg: Config
    const mem: array<byte>

    ghost var fs: seq<Block>
    ghost var us: seq<Block>
    ghost var bs: seq<Block>
    /** All descriptors of this heap. */
    ghost const descriptors: set<Block>

    /** The loop of `insert_block`: the last free descriptor below `addr`, and the one after it. */
    method FindPlace(addr: nat, ghost rs: seq<Range>) returns (prev: Block?, ptr: Block?, ghost k: nat)
      requires Linked(free, fs, null) && Shows(fs, rs)
      ensures k <= |fs| && (forall i :: 0 <= i < k ==> rs[i].addr < addr) && (k < |fs| ==> addr <= rs[k].addr)
      ensures ptr == (if k < |fs| then fs[k] else null) && prev == (if k > 0 then fs[k - 1] else null)
    {
      hide Linked, Shows;
      ptr, prev, k := free, null, 0;
      LinkedAt(free, fs, null, 0);
      ShowsLength(fs, rs);
      while ptr != null
        invariant k <= |fs| == |rs|
        invariant ptr == (if k < |fs| then fs[k] else null)
        invariant prev == (if k > 0 then fs[k - 1] else null)
        invariant forall i :: 0 <= i < k ==> rs[i].addr < addr
        decreases |fs| - k
      {
        LinkedAt(free, fs, null, k);
        ShowsAt(fs, rs, k);
        if addr <= ptr.addr {
          break;
        }
        prev := ptr;
        ptr := ptr.next;
        k := k + 1;
      }
    }

    /** Puts `block` between `prev` and `ptr`, the neighbours at place `k`. */
    method LinkIn(prev: Block?, ptr: Block?, block: Block, ghost k: nat)
      requires Linked(free, fs, null) && NoDup(fs) && block !in fs && k <= |fs|
      requires ptr == (if k < |fs| then fs[k] else null) && prev == (if k > 0 then fs[k - 1] else null)
      modifies `free, `fs, fs`next, block`next
      ensures fs == Placed(old(fs), k, block) && Linked(free, fs, null)
    {
      hide Placed;
      if prev != null {
        prev.next := block;
      } else {
        free := block;
      }
      block.next := ptr;
      PlacedLinked(free, fs, k, block, null);
      fs := Placed(fs, k, block);
    }

    /** `insert_block` */
    method InsertBlock(block: Block, ghost rs: seq<Range>)
      requires Linked(free, fs, null) && NoDup(fs) && block !in fs && Shows(fs, rs)
      modifies `free, `fs, fs`next, block`next
      ensures Linked(free, fs, null) && NoDup(fs) && Shows(fs, Insert(rs, Range(block.addr, block.size)))
      ensures forall b :: b in fs <==> b in old(fs) || b == block
    {
      hide Placed, InsertPos, Insert, Linked;
      ghost var k: nat;
      var prev, ptr;
      ShowsLength(fs, rs);
      prev, ptr, k := FindPlace(block.addr, rs);
      InsertPosIs(rs, Range(block.addr, block.size), k);
      PlacedNoDup(fs, k, block);
      PlacedHas(fs, k, block);
      PlacedShows(fs, rs, block);
      LinkIn(prev, ptr, block, k);
    }
 
    /** One turn of the loop in `release_blocks`: `b` becomes the first blank descriptor. */
    method ReleaseOne(b: Block)
      requires Linked(blank, bs, null) && NoDup(bs) && b !in bs
      modifies `blank, `bs, b
      ensures Linked(blank, bs, null) && NoDup(bs) && bs == [b] + old(bs)
    {
      b.next := blank;
      blank := b;
      b.addr := 0;
      b.size := 0;
      LinkedCons(b, bs, null);
      NoDupCons(b, bs);
      bs := [b] + bs;
    }

    /** `release_blocks`, where the list from `scan` runs through `seg` to `to` */
    method ReleaseBlocks(first: Block?, to: Block?, ghost seg: seq<Block>)
      requires Linked(first, seg, to) && NoDup(seg) && (to != null ==> to !in seg)
      requires Linked(blank, bs, null) && NoDup(bs) && Separate(seg, bs)
      modifies `blank, `bs, seg
      ensures Linked(blank, bs, null) && NoDup(bs) && |bs| == old(|bs|) + |seg|
      ensures forall b :: b in bs <==> b in old(bs) || b in seg
    {
      hide Linked, NoDup;
      var scan := first;
      ghost var left := seg;
      ghost var bs0 := bs;
      while scan != to
        invariant Linked(scan, left, to) && NoDup(left) && (to != null ==> to !in left)
        invariant Linked(blank, bs, null) && NoDup(bs) && Separate(left, bs)
        invariant |bs| + |left| == |bs0| + |seg|
        invariant forall b :: b in left ==> b in seg
        invariant forall b :: b in bs || b in left <==> b in bs0 || b in seg
        decreases |left|
      {
        LinkedStart(scan, left, to);
        LinkedTail(scan, left, to);
        NoDupTail(left);
        var next := scan.next;
        ReleaseOne(scan);
        left := left[1..];
        scan := next;
      }
      LinkedStart(scan, left, to);
    }
 
    /** The inner loop of `compact`: the last block of the run of touching blocks that starts at place `k`. */
    method ScanRun(ptr: Block, ghost k: nat, ghost rs: seq<Range>) returns (prev: Block, ghost m: nat)
      requires Linked(free, fs, null) && Shows(fs, rs) && k < |fs| && ptr == fs[k]
      ensures k <= m < |fs| == |rs| && prev == fs[m] && rs[k].addr <= rs[m].addr
      ensures m + 1 < |fs| ==> rs[m].End() != rs[m + 1].addr
      ensures CompactFrom(Merged(rs, k, m), k) == CompactFrom(rs, k)
    {
      hide Linked, Shows, CompactFrom, Merged;
      prev, m := ptr, k;
      ShowsAt(fs, rs, k);
      LinkedAt(free, fs, null, k);
      MergedOne(rs, k);
      var scan := ptr.next;
      while scan != null && prev.addr + prev.size == scan.addr
        invariant k <= m < |fs| == |rs| && prev == fs[m] && rs[k].addr <= rs[m].addr
        invariant scan == After(fs, m, null)
        invariant CompactFrom(Merged(rs, k, m), k) == CompactFrom(rs, k)
        decreases |fs| - m
      {
        ShowsAt(fs, rs, m);
        ShowsAt(fs, rs, m + 1);
        LinkedAt(free, fs, null, m + 1);
        MergeMore(rs, k, m);
        prev := scan;
        scan := scan.next;
        m := m + 1;
      }
      ShowsAt(fs, rs, m);
      ShowsAt(fs, rs, m + 1);
    }

    /** Block `k` grows over blocks `k + 1` to `m`, whose descriptors go blank. */
    method Absorb(ptr: Block, prev: Block, ghost k: nat, ghost m: nat, ghost rs: seq<Range>)
      requires Linked(free, fs, null) && NoDup(fs) && Shows(fs, rs)
      requires Linked(blank, bs, null) && NoDup(bs) && Separate(fs, bs)
      requires k < m < |fs| == |rs| && ptr == fs[k] && prev == fs[m] && rs[k].addr <= rs[m].addr
      modifies `blank, `bs, fs
      ensures CutReady(fs, rs, k, m)
      ensures Linked(blank, bs, null) && NoDup(bs) && |bs| == old(|bs|) + (m - k)
      ensures forall b :: b in bs <==> b in old(bs) || b in fs[k + 1..m + 1]
    {
      hide Linked, Shows, NoDup, After;
      StretchFacts(free, fs, k, m);
      ListFacts(free, fs, rs);
      Outside(fs, k, m);
      ptr.size := prev.addr - ptr.addr + prev.size;
      var next := prev.next;
      ReleaseBlocks(ptr.next, next, fs[k + 1..m + 1]);
      ptr.next := next;
    }

    /** The run from place `k` to place `m` becomes one block. */
    method MergeRun(ptr: Block, prev: Block, ghost k: nat, ghost m: nat, ghost rs: seq<Range>)
      requires Linked(free, fs, null) && NoDup(fs) && Shows(fs, rs)
      requires Linked(blank, bs, null) && NoDup(bs) && Separate(fs, bs)
      requires k < m < |fs| == |rs| && ptr == fs[k] && prev == fs[m] && rs[k].addr <= rs[m].addr
      modifies `blank, `bs, `fs, fs
      ensures Linked(free, fs, null) && NoDup(fs) && Shows(fs, Merged(rs, k, m))
      ensures Linked(blank, bs, null) && NoDup(bs) && Separate(fs, bs)
      ensures |fs| + |bs| == old(|fs| + |bs|)
      ensures k < |fs| && ptr == fs[k]
      ensures forall b :: b in fs ==> b in old(fs)
      ensures forall b :: b in fs || b in bs <==> b in old(fs) || b in old(bs)
    {
      hide Linked, Shows, NoDup, Merged, After, CutReady;
      CutFacts(fs, k, m);
      LinkedStart(free, fs, null);
      LinkedAt(free, fs, null, 0);
      Absorb(ptr, prev, k, m, rs);
      CutDone(free, fs, rs, k, m);
      fs := CutOut(fs, k, m);
    }
 
    /** `compact` */
    method CompactFree(ghost rs0: seq<Range>)
      requires Linked(free, fs, null) && NoDup(fs) && Shows(fs, rs0)
      requires Linked(blank, bs, null) && NoDup(bs) && Separate(fs, bs)
      modifies `blank, `bs, `fs, fs
      ensures Linked(free, fs, null) && NoDup(fs) && Shows(fs, Compact(rs0))
      ensures Linked(blank, bs, null) && NoDup(bs) && Separate(fs, bs)
      ensures |fs| + |bs| == old(|fs| + |bs|)
      ensures forall b :: b in fs || b in bs <==> b in old(fs) || b in old(bs)
    {
      hide Linked, Shows, NoDup, Merged, Compact, CompactFrom;
      ghost var k: nat, rs := 0, rs0;
      var ptr := free;
      LinkedAt(free, fs, null, 0);
      ShowsLength(fs, rs);
      CompactFromEnds(rs);
      while ptr != null
        invariant k <= |fs| == |rs| && ptr == (if k < |fs| then fs[k] else null)
        invariant Linked(free, fs, null) && NoDup(fs) && Shows(fs, rs)
        invariant Linked(blank, bs, null) && NoDup(bs) && Separate(fs, bs)
        invariant |fs| + |bs| == old(|fs| + |bs|)
        invariant forall b :: b in fs || b in bs <==> b in old(fs) || b in old(bs)
        invariant forall b :: b in fs ==> b in old(fs)
        invariant CompactFrom(rs, k) == Compact(rs0)
        decreases |fs| - k
      {
        var prev;
        ghost var m: nat;
        prev, m := ScanRun(ptr, k, rs);
        MergedFacts(rs, k, m);
        if prev != ptr {
          SameBlock(fs, k, m);
          assert forall i :: 0 <= i < |fs| ==> fs[i] in fs && fs[i] in old(fs);
          MergeRun(ptr, prev, k, m, rs);
          rs := Merged(rs, k, m);
          ShowsLength(fs, rs);
        } else {
          SameBlock(fs, k, m);
          MergedOne(rs, k);
        }
        SkipOne(rs, k);
        LinkedAt(free, fs, null, k);
        ptr := ptr.next;
        k := k + 1;
      }
      CompactFromEnds(rs);
    }
 
    // ----- the heap as a whole

    ghost var model: State

    ghost predicate Valid()
      reads this, fs, us, bs
    {
      && Linked(free, fs, null) && Linked(used, us, null) && Linked(blank, bs, null)
      && NoDup(fs) && NoDup(us) && NoDup(bs)
      && Separate(fs, us) && Separate(fs, bs) && Separate(us, bs)
      && Shows(fs, model.free) && Shows(us, model.used) && |bs| == model.blank && top == model.top
      && Within(fs, descriptors) && Within(us, descriptors) && Within(bs, descriptors)
    }

    lemma ValidFacts()
      requires Valid()
      ensures Linked(free, fs, null) && Linked(used, us, null) && Linked(blank, bs, null)
      ensures NoDup(fs) && NoDup(us) && NoDup(bs)
      ensures Separate(fs, us) && Separate(fs, bs) && Separate(us, bs)
      ensures Shows(fs, model.free) && Shows(us, model.used) && |bs| == model.blank && top == model.top
      ensures |fs| == |model.free| && |us| == |model.used|
      ensures Within(fs, descriptors) && Within(us, descriptors) && Within(bs, descriptors)
      ensures forall i :: 0 <= i < |fs| ==> fs[i] in descriptors
      ensures forall i :: 0 <= i < |us| ==> us[i] in descriptors
      ensures forall i :: 0 <= i < |bs| ==> bs[i] in descriptors
      ensures forall i :: 0 <= i < |fs| ==> fs[i] !in us && fs[i] !in bs
      ensures forall i :: 0 <= i < |us| ==> us[i] !in fs && us[i] !in bs
      ensures forall i :: 0 <= i < |bs| ==> bs[i] !in fs && bs[i] !in us
    {
    }

    lemma ValidAgain()
      requires Linked(free, fs, null) && Linked(used, us, null) && Linked(blank, bs, null)
      requires NoDup(fs) && NoDup(us) && NoDup(bs)
      requires Separate(fs, us) && Separate(fs, bs) && Separate(us, bs)
      requires Shows(fs, model.free) && Shows(us, model.used) && |bs| == model.blank && top == model.top
      requires Within(fs, descriptors) && Within(us, descriptors) && Within(bs, descriptors)
      ensures Valid()
    {
    }

    /** `block`, at place `k` after `prev`, leaves the used list. */
    method UnlinkUsed(prev: Block?, block: Block, ghost k: nat)
      requires Linked(used, us, null) && NoDup(us) && k < |us|
      requires block == us[k] && prev == (if k > 0 then us[k - 1] else null)
      modifies `used, `us, us`next
      ensures Linked(used, us, null) && us == Dropped(old(us), k)
    {
      hide Dropped, Linked;
      LinkedStart(used, us, null);
      LinkedAt(used, us, null, 0);
      LinkedAll(used, us);
      if prev != null {
        prev.next := block.next;
      } else {
        used := block.next;
      }
      DroppedLinked(used, us, k);
      us := Dropped(us, k);
    }

    /** The search of `ta_free` and `ta_getsize`. */
    method FindBlock(addr: nat) returns (prev: Block?, block: Block?, ghost k: nat)
      requires Linked(used, us, null) && Shows(us, model.used)
      ensures k == FindUsed(model.used, addr) <= |us| == |model.used|
      ensures block == (if k < |us| then us[k] else null) && prev == (if k > 0 then us[k - 1] else null)
    {
      hide Linked, Shows;
      block, prev, k := used, null, 0;
      LinkedAt(used, us, null, 0);
      ShowsLength(us, model.used);
      while block != null
        invariant k <= |us| == |model.used|
        invariant block == (if k < |us| then us[k] else null) && prev == (if k > 0 then us[k - 1] else null)
        invariant forall i :: 0 <= i < k ==> model.used[i].addr != addr
        decreases |us| - k
      {
        LinkedAt(used, us, null, k);
        ShowsAt(us, model.used, k);
        if addr == block.addr {
          break;
        }
        prev := block;
        block := block.next;
        k := k + 1;
      }
      FindUsedIs(model.used, addr, k);
    }

    /** A block that is on no list goes to its place in the free list, which is then compacted. */
    method GiveBackBlock(block: Block, ghost rs: seq<Range>)
      requires Linked(free, fs, null) && NoDup(fs) && Shows(fs, rs) && block !in fs && block !in bs
      requires Linked(blank, bs, null) && NoDup(bs) && Separate(fs, bs)
      modifies `free, `blank, `bs, `fs, fs, block
      ensures Linked(free, fs, null) && NoDup(fs) && Shows(fs, Compact(Insert(rs, old(Range(block.addr, block.size)))))
      ensures Linked(blank, bs, null) && NoDup(bs) && Separate(fs, bs)
      ensures |fs| + |bs| == old(|fs| + |bs|) + 1
      ensures forall b :: b in fs || b in bs <==> b in old(fs) || b in old(bs) || b == block
    {
      hide Linked, Shows, NoDup, Compact, Insert;
      assert forall i :: 0 <= i < |bs| ==> bs[i] in bs && bs[i] !in fs && bs[i] != block;
      ShowsLength(fs, rs);
      InsertLength(rs, Range(block.addr, block.size));
      InsertBlock(block, rs);
      ShowsLength(fs, Insert(rs, Range(block.addr, block.size)));
      assert forall i :: 0 <= i < |fs| ==> fs[i] in fs && (fs[i] in old(fs) || fs[i] == block);
      CompactFree(Insert(rs, Range(block.addr, block.size)));
    }
 
    /** `ta_free` */
    method TaFree(addr: nat) returns (ok: bool)
      requires Valid()
      modifies `free, `used, `blank, `fs, `us, `bs, `model, descriptors
      ensures Valid() && (model, ok) == Free(old(model), addr)
    {
      hide Valid, Linked, NoDup, Shows, Compact, Insert, FindUsed, Dropped;
      ValidFacts();
      ghost var k: nat;
      var prev, block;
      prev, block, k := FindBlock(addr);
      if block == null {
        return false;
      }
      FreeUsed(prev, block, k);
      ok := true;
    }

    /** `block`, at place `k` after `prev`, goes from the used list to the free list. */
    method FreeUsed(prev: Block?, block: Block, ghost k: nat)
      requires Valid() && k < |us| == |model.used| && block == us[k] && prev == (if k > 0 then us[k - 1] else null)
      modifies `free, `used, `blank, `fs, `us, `bs, `model, descriptors
      ensures Valid()
      ensures var free' := Compact(Insert(old(model.free), old(model.used[k])));
        model == old(model).(free := free', used := Dropped(old(model.used), k),
        blank := old(model.blank) + (|old(model.free)| + 1 - |free'|))
    {
      hide Valid, Linked, NoDup, Shows, Compact, Insert, Dropped;
      ValidFacts();
      TakeUsed(prev, block, k);
      ReturnBlock(block);
    }

    /** `block`, at place `k` after `prev`, leaves the used list and is on none for the moment. */
    method TakeUsed(prev: Block?, block: Block, ghost k: nat)
      requires Valid() && k < |us| == |model.used| && block == us[k] && prev == (if k > 0 then us[k - 1] else null)
      modifies `used, `us, `model, us`next
      ensures Valid() && model == old(model).(used := Dropped(old(model.used), k))
      ensures block in descriptors && block !in fs && block !in us && block !in bs
      ensures Range(block.addr, block.size) == old(model.used)[k]
    {
      hide Valid, Linked, NoDup, Shows, Dropped;
      ValidFacts();
      ShowsAt(us, model.used, k);
      DroppedFacts(us, k);
      DroppedShows(us, model.used, k);
      UnlinkUsed(prev, block, k);
      model := model.(used := Dropped(model.used, k));
      ValidAgain();
    }

    /** A block on no list is given back. */
    method ReturnBlock(block: Block)
      requires Valid() && block in descriptors && block !in fs && block !in us && block !in bs
      modifies `free, `blank, `fs, `bs, `model, descriptors
      ensures Valid()
      ensures forall i :: 0 <= i < |us| ==> us[i].addr == old(us[i].addr) && us[i].size == old(us[i].size)
      ensures var free' := Compact(Insert(old(model.free), old(Range(block.addr, block.size))));
        model == old(model).(free := free', blank := old(model.blank) + (|old(model.free)| + 1 - |free'|))
    {
      hide Valid, Linked, NoDup, Shows, Compact, Insert;
      ValidFacts();
      ghost var r := Range(block.addr, block.size);
      ghost var free' := Compact(Insert(model.free, r));
      GiveBackBlock(block, model.free);
      ShowsLength(fs, free');
      model := model.(free := free', blank := model.blank + (|model.free| + 1 - |free'|));
      ValidAgain();
    }

    /** The search of `alloc_block`. */
    method FindFit(num: nat) returns (prev: Block?, ptr: Block?, isTop: bool, ghost k: nat)
      requires Linked(free, fs, null) && Shows(fs, model.free)
      ensures k == FirstFit(model.free, num, top, cfg.limit) <= |fs| == |model.free|
      ensures ptr == (if k < |fs| then fs[k] else null) && prev == (if k > 0 then fs[k - 1] else null)
      ensures k < |fs| ==> isTop == AtTop(model.free[k], num, top, cfg.limit)
    {
      hide Linked, Shows;
      ptr, prev, k, isTop := free, null, 0, false;
      LinkedAt(free, fs, null, 0);
      ShowsLength(fs, model.free);
      while ptr != null
        invariant k <= |fs| == |model.free|
        invariant ptr == (if k < |fs| then fs[k] else null) && prev == (if k > 0 then fs[k - 1] else null)
        invariant forall i :: 0 <= i < k ==> !AtTop(model.free[i], num, top, cfg.limit) && model.free[i].size < num
        decreases |fs| - k
      {
        LinkedAt(free, fs, null, k);
        ShowsAt(fs, model.free, k);
        isTop := ptr.addr + ptr.size >= top && ptr.addr + num <= cfg.limit;
        if isTop || ptr.size >= num {
          break;
        }
        prev := ptr;
        ptr := ptr.next;
        k := k + 1;
      }
      FirstFitIs(model.free, num, top, cfg.limit, k);
    }

    /** `ptr`, at place `k` after `prev`, leaves the free list. */
    method UnlinkFree(prev: Block?, ptr: Block, ghost k: nat)
      requires Linked(free, fs, null) && NoDup(fs) && k < |fs|
      requires ptr == fs[k] && prev == (if k > 0 then fs[k - 1] else null)
      modifies `free, `fs, fs`next
      ensures Linked(free, fs, null) && fs == Dropped(old(fs), k)
    {
      hide Dropped, Linked;
      LinkedStart(free, fs, null);
      LinkedAt(free, fs, null, 0);
      LinkedAll(free, fs);
      if prev != null {
        prev.next := ptr.next;
      } else {
        free := ptr.next;
      }
      DroppedLinked(free, fs, k);
      fs := Dropped(fs, k);
    }

    method PushUsed(ptr: Block)
      requires Linked(used, us, null) && NoDup(us) && ptr !in us
      modifies `used, `us, ptr`next
      ensures Linked(used, us, null) && NoDup(us) && us == [ptr] + old(us)
    {
      hide Linked, NoDup;
      ptr.next := used;
      used := ptr;
      LinkedCons(ptr, us, null);
      NoDupCons(ptr, us);
      us := [ptr] + us;
    }

    /** The first blank descriptor leaves its list. */
    method TakeBlank() returns (b: Block)
      requires Linked(blank, bs, null) && NoDup(bs) && bs != []
      modifies `blank, `bs
      ensures Linked(blank, bs, null) && NoDup(bs) && old(bs) == [b] + bs && b !in bs
    {
      hide Linked, NoDup;
      LinkedTail(blank, bs, null);
      NoDupTail(bs);
      b := blank;
      blank := b.next;
      bs := bs[1..];
    }

    /** A free block that serves the request goes to the used list as it is. */
    method TakeFree(prev: Block?, ptr: Block, ghost k: nat)
      requires Valid() && k < |fs| == |model.free| && ptr == fs[k] && prev == (if k > 0 then fs[k - 1] else null)
      modifies `free, `used, `fs, `us, `model, fs`next
      ensures Valid() && us != [] && us[0] == ptr
      ensures model == old(State(Dropped(model.free, k), [model.free[k]] + model.used, model.blank, model.top))
    {
      hide Valid, Linked, NoDup, Shows, Dropped;
      ValidFacts();
      DroppedFacts(fs, k);
      DroppedShows(fs, model.free, k);
      ConsShows(ptr, us, model.used);
      ShowsAt(fs, model.free, k);
      UnlinkFree(prev, ptr, k);
      PushUsed(ptr);
      model := State(Dropped(model.free, k), [model.free[k]] + model.used, model.blank, model.top);
      ValidAgain();
    }
 
    /** The block just taken is cut or stretched to `num` bytes and `top` set behind it. */
    method ResizeTop(ptr: Block, num: nat)
      requires Valid() && us != [] && us[0] == ptr && model.used != []
      modifies `top, `model, ptr`size
      ensures Valid()
      ensures model == old(model).(used := [Range(ptr.addr, num)] + old(model.used)[1..], top := ptr.addr + num)
    {
      hide Valid, Linked, NoDup, Shows;
      ValidFacts();
      HeadShows(us, model.used);
      ptr.size := num;
      top := ptr.addr + num;
      RenewShows(us, model.used, Range(ptr.addr, num));
      model := model.(used := [Range(ptr.addr, num)] + model.used[1..], top := ptr.addr + num);
      ValidAgain();
    }

    /** The first blank descriptor, off its list, describes `size` bytes at `addr`. */
    method TakeBlankFor(addr: nat, size: nat) returns (b: Block)
      requires Valid() && bs != []
      modifies `blank, `bs, `model, bs
      ensures Valid() && old(model.blank) > 0 && model == old(model).(blank := old(model.blank) - 1)
      ensures b.addr == addr && b.size == size && b in descriptors && b !in fs && b !in us && b !in bs
    {
      hide Valid, Linked, NoDup, Shows;
      ValidFacts();
      b := TakeBlank();
      b.addr := addr;
      b.size := size;
      model := model.(blank := model.blank - 1);
      ValidAgain();
    }

    lemma HeadBlock()
      requires Valid() && us != []
      ensures model.used != [] && Range(us[0].addr, us[0].size) == model.used[0] && us[0] in descriptors
    {
    }

    /** The block just taken keeps `num` bytes. */
    method Shorten(ptr: Block, num: nat) returns (excess: nat)
      requires Valid() && us != [] && us[0] == ptr && model.used != [] && num <= model.used[0].size
      modifies `model, ptr`size
      ensures Valid() && excess == old(model.used)[0].size - num && ptr.addr == old(model.used)[0].addr
      ensures model == old(model).(used := [Range(ptr.addr, num)] + old(model.used)[1..])
    {
      hide Valid, Linked, NoDup, Shows;
      ValidFacts();
      HeadShows(us, model.used);
      excess := ptr.size - num;
      ptr.size := num;
      RenewShows(us, model.used, Range(ptr.addr, num));
      model := model.(used := [Range(ptr.addr, num)] + model.used[1..]);
      ValidAgain();
    }

    /** The block just taken keeps `num` bytes; the rest of it becomes a free block. */
    method SplitBlock(ptr: Block, num: nat)
      requires Valid() && us != [] && us[0] == ptr && model.used != [] && num <= model.used[0].size && bs != []
      modifies `free, `blank, `fs, `bs, `model, descriptors
      ensures Valid() && ptr.addr == old(ptr.addr)
      ensures var x := old(model.used)[0];
        var free' := Compact(Insert(old(model.free), Range(x.addr + num, x.size - num)));
        model == State(free', [Range(x.addr, num)] + old(model.used)[1..],
        old(model.blank) - 1 + (|old(model.free)| + 1 - |free'|), old(model.top))
    {
      hide Valid, Linked, NoDup, Shows, Compact, Insert;
      HeadBlock();
      var excess := Shorten(ptr, num);
      ValidFacts();
      var split := TakeBlankFor(ptr.addr + num, excess);
      ReturnBlock(split);
    }

    /** A new used block on top of everything. */
    method NewTop(num: nat) returns (ptr: Block)
      requires Valid() && bs != []
      modifies `used, `blank, `top, `us, `bs, `model, descriptors
      ensures Valid()
      ensures us != [] && us[0] == ptr && ptr.addr == old(top)
      ensures model == old(State(model.free, [Range(model.top, num)] + model.used, model.blank - 1, model.top + num))
    {
      hide Valid, Linked, NoDup, Shows;
      ValidFacts();
      ptr := TakeBlank();
      ptr.addr := top;
      PushUsed(ptr);
      ptr.size := num;
      top := top + num;
      ConsShows(ptr, us[1..], model.used);
      model := State(model.free, [Range(model.top, num)] + model.used, model.blank - 1, model.top + num);
      ValidAgain();
    }

    /** `alloc_block` with the request already rounded up */
    method AllocRounded(num: nat) returns (block: Block?)
      requires Valid()
      modifies `free, `used, `blank, `top, `fs, `us, `bs, `model, descriptors
      ensures Valid()
      ensures model == HeapSpec.Alloc(cfg, old(model), num).0
      ensures HeapSpec.Alloc(cfg, old(model), num).1 == (if block == null then Null else HeapSpec.Block(block.addr))
    {
      hide Valid, Linked, NoDup, Shows, Compact, Insert, FirstFit, Dropped;
      ValidFacts();
      var prev, ptr, isTop;
      ghost var k: nat;
      prev, ptr, isTop, k := FindFit(num);
      if ptr != null {
        ShowsAt(fs, model.free, k);
        TakeFree(prev, ptr, k);
        if isTop {
          ResizeTop(ptr, num);
        } else if blank != null {
          var excess := ptr.size - num;
          if excess >= cfg.splitThresh {
            SplitBlock(ptr, num);
          }
        }
        return ptr;
      }
      if blank != null && top + num <= cfg.limit {
        block := NewTop(num);
      } else {
        block := null;
      }
    }
 
    /** `ta_init` */
    constructor (c: Config, memory: array<byte>)
      requires c.Valid()
      ensures Valid() && model == Init(c) && cfg == c && mem == memory && fresh(descriptors)
    {
      hide Linked;
      var s := NewDescriptors(c.maxBlocks);
      LinkUp(s);
      LinkedNothing();
      cfg, mem := c, memory;
      free, used, blank, top := null, null, s[0], c.base;
      fs, us, bs, descriptors := [], [], s, set b | b in s;
      model := Init(c);
    }

    /** `ta_alloc` */
    method Alloc(num: nat) returns (r: Answer)
      requires Valid() && cfg.Valid()
      modifies `free, `used, `blank, `top, `fs, `us, `bs, `model, descriptors
      ensures Valid() && (model, r) == TaAlloc(cfg, old(model), num)
    {
      hide Valid, HeapSpec.Alloc;
      var block := AllocRounded(cfg.Rounded(num));
      r := if block == null then Null else HeapSpec.Block(block.addr);
    }

    /** The copying loop of `ta_realloc`. */
    method Copy(from: nat, to: nat, n: nat)
      requires from + n <= mem.Length && to + n <= mem.Length
      requires n > 0 ==> Apart(Range(from, n), Range(to, n))
      modifies mem
      ensures mem[..] == Copied(old(mem[..]), from, to, n)
    {
      var i := 0;
      while i < n
        invariant i <= n
        invariant forall a :: 0 <= a < mem.Length ==>
          mem[a] == if to <= a < to + i then old(mem[from + (a - to)]) else old(mem[a])
      {
        mem[to + i] := mem[from + i];
        i := i + 1;
      }
    }

    /** `ta_getsize` */
    method GetSize(addr: nat) returns (size: nat)
      requires Linked(used, us, null) && Shows(us, model.used)
      ensures var k := FindUsed(model.used, addr);
        size == if k < |model.used| then model.used[k].size else 0
    {
      hide Linked, Shows;
      ghost var k: nat;
      var prev, block;
      prev, block, k := FindBlock(addr);
      ShowsAt(us, model.used, k);
      size := if block == null then 0 else block.size;
    }

    /**
     * `ta_realloc`: the new block starts with the bytes of the old one, as many as both hold, and no other byte of
     * memory changes.
     */
    method Realloc(addr: nat, num: nat) returns (r: Answer)
      requires Valid() && Ok(cfg, model) && cfg.limit <= mem.Length && num > 0
      modifies `free, `used, `blank, `top, `fs, `us, `bs, `model, descriptors, mem
      ensures Valid() && (model, r) == TaRealloc(cfg, old(model), addr, num)
      ensures mem[..] == MemoryAfter(cfg, old(model), addr, num, old(mem[..]))
    {
      hide Valid, TaAlloc, HeapSpec.Free, Ok, Copied, FindUsed;
      ValidFacts();
      OkValid(cfg, model);
      ghost var k, s0 := FindUsed(model.used, addr), model;
      FindUsedBound(model.used, addr);
      if k < |model.used| { UsedNotEmpty(cfg, model, k); }
      var size := GetSize(addr);
      if size == 0 {
        return Null;
      }
      r := Alloc(num);
      if r.Null? {
        return;
      }
      if size > num {
        size := num;
      }
      CopyFacts(cfg, s0, num, k);
      Copy(addr, r.addr, size);
      var done := TaFree(addr);
    }
 
    /** `count_blocks` */
    method CountBlocks(head: Block?, ghost s: seq<Block>) returns (n: nat)
      requires Linked(head, s, null)
      ensures n == |s|
    {
      hide Linked;
      var ptr := head;
      n := 0;
      LinkedAt(head, s, null, 0);
      while ptr != null
        invariant n <= |s| && ptr == (if n < |s| then s[n] else null)
        decreases |s| - n
      {
        LinkedAt(head, s, null, n);
        n := n + 1;
        ptr := ptr.next;
      }
    }

    /** `ta_check` */
    method Check() returns (ok: bool)
      requires Valid()
      ensures ok == (cfg.maxBlocks == |model.free| + |model.used| + model.blank)
      ensures Ok(cfg, model) ==> ok
    {
      hide Valid, Linked;
      ValidFacts();
      var numFree := CountBlocks(free, fs);
      var numUsed := CountBlocks(used, us);
      var numBlank := CountBlocks(blank, bs);
      ok := cfg.maxBlocks == numFree + numUsed + numBlank;
    }
  }
}
