/** tinyalloc on values: free and used blocks as address ranges. */
module HeapSpec {
  import opened Lists
  import opened Words

  datatype Range = Range(addr: nat, size: nat)
  {
    function End(): nat { addr + size }
  }

  /** Settings of `ta_init`. */
  datatype Config = Config(base: nat, limit: nat, splitThresh: nat, alignment: nat, maxBlocks: nat)
  {
    predicate Valid() { splitThresh > 0 && alignment > 0 && maxBlocks > 0 }

    /** `(num + alignment - 1) & -alignment` for a power of two `alignment`. */
    function Rounded(num: nat): nat
      requires alignment > 0
    {
      num + alignment - 1 - (num + alignment - 1) % alignment
    }
  }

  lemma RoundedUp(c: Config, num: nat)
    requires c.Valid()
    ensures num <= c.Rounded(num) < num + c.alignment
    ensures num > 0 ==> c.Rounded(num) > 0
  {
  }

  /** The free list in address order, the used list, the number of blank descriptors and the end of the tiled area. */
  datatype State = State(free: seq<Range>, used: seq<Range>, blank: nat, top: nat)

  // ----- list operations

  function InsertPos(s: seq<Range>, r: Range): (k: nat)
    ensures k <= |s| && (forall i :: 0 <= i < k ==> s[i].addr < r.addr) && (k < |s| ==> r.addr <= s[k].addr)
  {
    if s == [] || r.addr <= s[0].addr then 0 else 1 + InsertPos(s[1..], r)
  }

  /** `insert_block` */
  function Insert(s: seq<Range>, r: Range): (t: seq<Range>)
    ensures |t| == |s| + 1
  {
    var k := InsertPos(s, r);
    s[..k] + [r] + s[k..]
  }

  /** `compact` */
  function Compact(s: seq<Range>): (t: seq<Range>)
    ensures |t| <= |s| && (s != [] ==> t != [] && t[0].addr == s[0].addr)
    decreases |s|
  {
    if |s| < 2 then s
    else if s[0].End() == s[1].addr then Compact([Range(s[0].addr, s[0].size + s[1].size)] + s[2..])
    else [s[0]] + Compact(s[1..])
  }

  /** Is `r` the last block below `top`, with room to become `num` bytes long? */
  predicate AtTop(r: Range, num: nat, top: nat, limit: nat) { r.End() >= top && r.addr + num <= limit }

  /** The first free block that serves the request. */
  function FirstFit(s: seq<Range>, num: nat, top: nat, limit: nat): (k: nat)
    ensures k <= |s|
    ensures k < |s| ==> AtTop(s[k], num, top, limit) || s[k].size >= num
    ensures forall i :: 0 <= i < k ==> !AtTop(s[i], num, top, limit) && s[i].size < num
  {
    if s == [] || AtTop(s[0], num, top, limit) || s[0].size >= num then 0
    else 1 + FirstFit(s[1..], num, top, limit)
  }

  /** The used block with address `addr`. */
  function FindUsed(s: seq<Range>, addr: nat): (k: nat)
    ensures k <= |s| && (k < |s| ==> s[k].addr == addr) && (forall i :: 0 <= i < k ==> s[i].addr != addr)
  {
    if s == [] || s[0].addr == addr then 0 else 1 + FindUsed(s[1..], addr)
  }

  // ----- the operations

  datatype Answer = Null | Block(addr: nat)

  function Init(c: Config): State { State([], [], c.maxBlocks, c.base) }

  /** `alloc_block`, `num` already rounded. */
  function Alloc(c: Config, s: State, num: nat): (State, Answer) {
    var k := FirstFit(s.free, num, s.top, c.limit);
    if k < |s.free| then
      var x, rest := s.free[k], Dropped(s.free, k);
      if AtTop(x, num, s.top, c.limit) then
        (State(rest, [Range(x.addr, num)] + s.used, s.blank, x.addr + num), Block(x.addr))
      else if s.blank > 0 && x.size - num >= c.splitThresh then
        var free' := Compact(Insert(rest, Range(x.addr + num, x.size - num)));
        (State(free', [Range(x.addr, num)] + s.used, s.blank - 1 + (|rest| + 1 - |free'|), s.top), Block(x.addr))
      else
        (State(rest, [x] + s.used, s.blank, s.top), Block(x.addr))
    else if s.blank > 0 && s.top + num <= c.limit then
      (State(s.free, [Range(s.top, num)] + s.used, s.blank - 1, s.top + num), Block(s.top))
    else (s, Null)
  }

  /** `ta_free` */
  function Free(s: State, addr: nat): (State, bool) {
    var k := FindUsed(s.used, addr);
    if k < |s.used| then
      var free' := Compact(Insert(s.free, s.used[k]));
      (State(free', Dropped(s.used, k), s.blank + (|s.free| + 1 - |free'|), s.top), true)
    else (s, false)
  }

  // ----- the invariant

  predicate Apart(a: Range, b: Range) { a.End() <= b.addr || b.End() <= a.addr }

  /** In address order, with a gap between neighbours: no two free blocks could be merged. */
  ghost predicate Gapped(s: seq<Range>) {
    forall i, j :: 0 <= i < j < |s| ==> s[i].End() < s[j].addr
  }

  /** In address order without overlap. */
  ghost predicate Ordered(s: seq<Range>) {
    forall i, j :: 0 <= i < j < |s| ==> s[i].End() <= s[j].addr
  }

  ghost predicate AllApart(s: seq<Range>) {
    forall i, j :: 0 <= i < j < |s| ==> Apart(s[i], s[j])
  }

  ghost predicate Inside(s: seq<Range>, lo: nat, hi: nat) {
    forall i :: 0 <= i < |s| ==> s[i].size > 0 && lo <= s[i].addr && s[i].End() <= hi
  }

  predicate In(r: Range, a: nat) { r.addr <= a < r.End() }

  ghost predicate Has(s: seq<Range>, a: nat) {
    exists i :: 0 <= i < |s| && In(s[i], a)
  }

  /** Every address of [lo, hi) lies in exactly one block, free or used. */
  ghost predicate Tiled(free: seq<Range>, used: seq<Range>, lo: nat, hi: nat) {
    && Inside(free, lo, hi) && Inside(used, lo, hi)
    && AllApart(used)
    && forall a :: lo <= a < hi ==> (Has(free, a) <==> !Has(used, a))
  }

  ghost predicate Ok(c: Config, s: State) {
    && c.Valid() && c.base <= s.top
    && Gapped(s.free)
    && Tiled(s.free, s.used, c.base, s.top)
    && (s.top > c.base ==> s.top <= c.limit)
    && |s.free| + |s.used| + s.blank == c.maxBlocks
  }

  // ----- list lemmas

  lemma InsertHas(s: seq<Range>, r: Range, a: nat)
    ensures Has(Insert(s, r), a) <==> Has(s, a) || In(r, a)
  {
    var k, t := InsertPos(s, r), Insert(s, r);
    forall i | 0 <= i < |s| ensures s[i] == t[if i < k then i else i + 1] {}
    assert t[k] == r;
  }

  lemma InsertInside(s: seq<Range>, r: Range, lo: nat, hi: nat)
    requires Inside(s, lo, hi) && Inside([r], lo, hi)
    ensures Inside(Insert(s, r), lo, hi)
  {
    assert [r][0] == r;
  }

  lemma Meet(a: Range, b: Range)
    requires a.size > 0 && b.size > 0
    ensures Apart(a, b) <==> forall x :: !(In(a, x) && In(b, x))
  {
    var x := if a.addr < b.addr then b.addr else a.addr;
    if !Apart(a, b) { assert In(a, x) && In(b, x); }
  }

  lemma HasAt(s: seq<Range>, i: nat, a: nat)
    requires i < |s| && In(s[i], a)
    ensures Has(s, a)
  {
  }

  /** A block sharing no address with an ordered list goes into it in order. */
  lemma InsertOrdered(s: seq<Range>, r: Range, lo: nat, hi: nat)
    requires Ordered(s) && Inside(s, lo, hi) && r.size > 0
    requires forall a :: In(r, a) ==> !Has(s, a)
    ensures Ordered(Insert(s, r))
  {
    var k, t := InsertPos(s, r), Insert(s, r);
    forall i | 0 <= i < |s|
      ensures if i < k then s[i].End() <= r.addr else r.End() <= s[i].addr
    {
      Meet(s[i], r);
      forall x ensures !(In(s[i], x) && In(r, x)) {
        if In(s[i], x) { HasAt(s, i, x); }
      }
      if i >= k && i > k { assert s[k].End() <= s[i].addr; }
    }
    forall i, j | 0 <= i < j < |t| ensures t[i].End() <= t[j].addr {
      assert i != k ==> t[i] == s[if i < k then i else i - 1];
      assert j != k ==> t[j] == s[if j < k then j else j - 1];
    }
  }

  lemma WithoutAt(s: seq<Range>, k: nat, i: nat)
    requires k < |s| && i < |s| - 1
    ensures Dropped(s, k)[i] == s[if i < k then i else i + 1]
  {
  }

  /** Taking one of several non-overlapping blocks out takes exactly its addresses. */
  lemma WithoutHas(s: seq<Range>, k: nat, a: nat)
    requires k < |s| && AllApart(s)
    ensures Has(Dropped(s, k), a) <==> Has(s, a) && !In(s[k], a)
  {
    HasLess(s, k, a);
    var t := Dropped(s, k);
    if Has(s, a) && !In(s[k], a) {
      var i :| 0 <= i < |s| && In(s[i], a);
      assert t[if i < k then i else i - 1] == s[i];
    }
  }

  lemma HasLess(s: seq<Range>, k: nat, a: nat)
    requires k < |s| && AllApart(s)
    ensures Has(Dropped(s, k), a) ==> Has(s, a) && !In(s[k], a)
  {
    var t := Dropped(s, k);
    if Has(t, a) {
      var i :| 0 <= i < |t| && In(t[i], a);
      WithoutAt(s, k, i);
      var j := if i < k then i else i + 1;
      HasAt(s, j, a);
      assert Apart(s[if j < k then j else k], s[if j < k then k else j]);
    }
  }

  lemma WithoutKeeps(s: seq<Range>, k: nat, lo: nat, hi: nat)
    requires k < |s| && Inside(s, lo, hi)
    ensures Inside(Dropped(s, k), lo, hi)
    ensures AllApart(s) ==> AllApart(Dropped(s, k))
    ensures Gapped(s) ==> Gapped(Dropped(s, k))
  {
  }

  lemma GappedApart(s: seq<Range>)
    ensures Gapped(s) ==> Ordered(s)
    ensures Ordered(s) ==> AllApart(s)
  {
  }

  lemma ConsHas(r: Range, s: seq<Range>, a: nat)
    ensures Has([r] + s, a) <==> In(r, a) || Has(s, a)
  {
    var t := [r] + s;
    assert t[0] == r;
    forall i | 0 <= i < |s| ensures s[i] == t[i + 1] {}
  }

  lemma ConsAt(r: Range, s: seq<Range>, i: nat)
    requires i <= |s|
    ensures ([r] + s)[i] == if i == 0 then r else s[i - 1]
  {
  }

  lemma ConsOrdered(r: Range, s: seq<Range>)
    ensures Ordered([r] + s) <==> Ordered(s) && forall i :: 0 <= i < |s| ==> r.End() <= s[i].addr
  {
    var t := [r] + s;
    if Ordered(t) {
      forall i | 0 <= i < |s| ensures r.End() <= s[i].addr { ConsAt(r, s, 0); ConsAt(r, s, i + 1); }
      forall i, j | 0 <= i < j < |s| ensures s[i].End() <= s[j].addr { ConsAt(r, s, i + 1); ConsAt(r, s, j + 1); }
    }
    if Ordered(s) && forall i :: 0 <= i < |s| ==> r.End() <= s[i].addr {
      forall i, j | 0 <= i < j < |t| ensures t[i].End() <= t[j].addr { ConsAt(r, s, i); ConsAt(r, s, j); }
    }
  }

  lemma ConsGapped(r: Range, s: seq<Range>)
    requires Gapped(s) && forall i :: 0 <= i < |s| ==> r.End() < s[i].addr
    ensures Gapped([r] + s)
  {
    var t := [r] + s;
    forall i, j | 0 <= i < j < |t| ensures t[i].End() < t[j].addr { ConsAt(r, s, i); ConsAt(r, s, j); }
  }

  lemma ConsApart(r: Range, s: seq<Range>)
    requires AllApart(s) && forall i :: 0 <= i < |s| ==> Apart(r, s[i])
    ensures AllApart([r] + s)
  {
    var t := [r] + s;
    forall i, j | 0 <= i < j < |t| ensures Apart(t[i], t[j]) { ConsAt(r, s, i); ConsAt(r, s, j); }
  }

  lemma ConsInside(r: Range, s: seq<Range>, lo: nat, hi: nat)
    ensures Inside([r] + s, lo, hi) <==> Inside(s, lo, hi) && r.size > 0 && lo <= r.addr && r.End() <= hi
  {
    var t := [r] + s;
    if Inside(t, lo, hi) {
      ConsAt(r, s, 0);
      forall i | 0 <= i < |s| ensures s[i].size > 0 && lo <= s[i].addr && s[i].End() <= hi { ConsAt(r, s, i + 1); }
    } else if r.size > 0 && lo <= r.addr && r.End() <= hi {
      var i :| 0 <= i < |t| && !(t[i].size > 0 && lo <= t[i].addr && t[i].End() <= hi);
      ConsAt(r, s, i);
    }
  }

  /** `compact` merges every pair of touching neighbours and keeps the covered addresses. */
  lemma {:induction false} CompactKeeps(s: seq<Range>, lo: nat, hi: nat)
    requires Ordered(s) && Inside(s, lo, hi)
    ensures Gapped(Compact(s)) && Inside(Compact(s), lo, hi)
    ensures forall a :: Has(Compact(s), a) <==> Has(s, a)
    decreases |s|
  {
    hide Has, Ordered, Inside, Gapped;
    if |s| < 2 {
      ShortGapped(s);
    } else {
      var m := Range(s[0].addr, s[0].size + s[1].size);
      var rest := s[2..];
      assert s[1..] == [s[1]] + rest && s == [s[0]] + s[1..];
      if s[0].End() == s[1].addr {
        MergeKeeps(s[0], s[1], rest, lo, hi);
        CompactKeeps([m] + rest, lo, hi);
      } else {
        SkipKeeps(s[0], s[1..], lo, hi);
        CompactKeeps(s[1..], lo, hi);
        SkipGapped(s[0], s[1..], Compact(s[1..]), lo, hi);
      }
    }
  }

  lemma ShortGapped(s: seq<Range>)
    requires |s| < 2
    ensures Gapped(s)
  {
  }

  lemma MergeKeeps(x: Range, y: Range, rest: seq<Range>, lo: nat, hi: nat)
    requires x.End() == y.addr
    requires Ordered([x] + ([y] + rest)) && Inside([x] + ([y] + rest), lo, hi)
    ensures Ordered([Range(x.addr, x.size + y.size)] + rest) && Inside([Range(x.addr, x.size + y.size)] + rest, lo, hi)
    ensures forall a :: Has([Range(x.addr, x.size + y.size)] + rest, a) <==> Has([x] + ([y] + rest), a)
  {
    hide Ordered, Inside, Has;
    var m := Range(x.addr, x.size + y.size);
    ConsOrdered(x, [y] + rest); ConsOrdered(y, rest); ConsOrdered(m, rest);
    ConsInside(x, [y] + rest, lo, hi); ConsInside(y, rest, lo, hi); ConsInside(m, rest, lo, hi);
    forall a ensures Has([m] + rest, a) <==> Has([x] + ([y] + rest), a) {
      ConsHas(x, [y] + rest, a); ConsHas(y, rest, a); ConsHas(m, rest, a);
    }
  }

  lemma SkipKeeps(x: Range, s: seq<Range>, lo: nat, hi: nat)
    requires Ordered([x] + s) && Inside([x] + s, lo, hi)
    ensures Ordered(s) && Inside(s, lo, hi)
  {
    ConsOrdered(x, s); ConsInside(x, s, lo, hi);
  }

  /** A block not touching its neighbour stays as it is, whatever the rest is compacted to. */
  lemma SkipGapped(x: Range, s: seq<Range>, t: seq<Range>, lo: nat, hi: nat)
    requires Ordered([x] + s) && Inside([x] + s, lo, hi) && s != [] && x.End() != s[0].addr
    requires Gapped(t) && Inside(t, lo, hi) && t != [] && t[0].addr == s[0].addr
    requires forall a :: Has(t, a) <==> Has(s, a)
    ensures Gapped([x] + t) && Inside([x] + t, lo, hi)
    ensures forall a :: Has([x] + t, a) <==> Has([x] + s, a)
  {
    hide Has, Ordered, Inside;
    ConsOrdered(x, s); ConsInside(x, s, lo, hi); ConsInside(x, t, lo, hi);
    forall i | 0 <= i < |t| ensures x.End() < t[i].addr { if i > 0 { assert t[0].End() < t[i].addr; } }
    ConsGapped(x, t);
    forall a ensures Has([x] + t, a) <==> Has([x] + s, a) { ConsHas(x, t, a); ConsHas(x, s, a); }
  }

  // ----- the tiling through each operation

  lemma ApartFromAll(r: Range, s: seq<Range>, lo: nat, hi: nat)
    requires Inside(s, lo, hi) && r.size > 0
    ensures (forall a :: In(r, a) ==> !Has(s, a)) <==> forall i :: 0 <= i < |s| ==> Apart(r, s[i])
  {
    forall i | 0 <= i < |s| ensures Apart(r, s[i]) <==> forall a :: !(In(r, a) && In(s[i], a)) { Meet(r, s[i]); }
    if forall a :: In(r, a) ==> !Has(s, a) {
      forall i | 0 <= i < |s| ensures Apart(r, s[i]) {
        forall a ensures !(In(r, a) && In(s[i], a)) { if In(s[i], a) { HasAt(s, i, a); } }
      }
    }
  }

  lemma InsideHas(s: seq<Range>, lo: nat, hi: nat, a: nat)
    requires Inside(s, lo, hi) && Has(s, a)
    ensures lo <= a < hi
  {
  }

  /** A block goes from the free list to the used list unchanged. */
  lemma TakeKeeps(free: seq<Range>, used: seq<Range>, k: nat, lo: nat, hi: nat)
    requires Tiled(free, used, lo, hi) && Gapped(free) && k < |free|
    ensures Tiled(Dropped(free, k), [free[k]] + used, lo, hi) && Gapped(Dropped(free, k))
  {
    hide Has, Gapped, Inside, AllApart, Ordered;
    var x, rest := free[k], Dropped(free, k);
    BlockFacts(free, used, k, lo, hi);
    GappedApart(free);
    WithoutKeeps(free, k, lo, hi);
    ConsInside(x, used, lo, hi);
    ApartFromAll(x, used, lo, hi);
    ConsApart(x, used);
    forall a: nat | lo <= a < hi ensures Has(rest, a) <==> !Has([x] + used, a) {
      WithoutHas(free, k, a);
      ConsHas(x, used, a);
    }
  }

  lemma BlockFacts(free: seq<Range>, used: seq<Range>, k: nat, lo: nat, hi: nat)
    requires Tiled(free, used, lo, hi) && k < |free|
    ensures free[k].size > 0 && lo <= free[k].addr && free[k].End() <= hi
    ensures forall a :: In(free[k], a) ==> Has(free, a) && !Has(used, a)
  {
  }

  /** The head of a used block is kept, its tail given back to the free list. */
  lemma SplitKeeps(rest: seq<Range>, used: seq<Range>, x: Range, num: nat, lo: nat, hi: nat)
    requires Gapped(rest) && Tiled(rest, [x] + used, lo, hi) && 0 < num < x.size
    ensures var free' := Compact(Insert(rest, Range(x.addr + num, x.size - num)));
      Gapped(free') && Tiled(free', [Range(x.addr, num)] + used, lo, hi)
  {
    hide Has, Gapped, Inside, AllApart, Ordered;
    var head, tail := Range(x.addr, num), Range(x.addr + num, x.size - num);
    HeadFacts(rest, used, x, lo, hi);
    ConsInside(x, used, lo, hi);
    ConsInside(head, used, lo, hi);
    ApartShrinks(x, head, used);
    ConsApart(head, used);
    GiveBack(rest, tail, lo, hi);
    forall a: nat | lo <= a < hi
      ensures Has(Compact(Insert(rest, tail)), a) <==> !Has([head] + used, a)
    {
      ConsHas(x, used, a);
      ConsHas(head, used, a);
    }
  }

  lemma HeadFacts(rest: seq<Range>, used: seq<Range>, x: Range, lo: nat, hi: nat)
    requires Tiled(rest, [x] + used, lo, hi)
    ensures AllApart(used) && (forall i :: 0 <= i < |used| ==> Apart(x, used[i]))
    ensures forall a: nat :: In(x, a) ==> lo <= a < hi && !Has(rest, a) && !Has(used, a)
  {
    ConsInside(x, used, lo, hi);
    forall i | 0 <= i < |used| ensures Apart(x, used[i]) { ConsAt(x, used, 0); ConsAt(x, used, i + 1); }
    forall i, j | 0 <= i < j < |used| ensures Apart(used[i], used[j]) { ConsAt(x, used, i + 1); ConsAt(x, used, j + 1); }
    ApartFromAll(x, used, lo, hi);
    forall a: nat | In(x, a) ensures lo <= a < hi && !Has(rest, a) { ConsHas(x, used, a); }
  }

  lemma ApartShrinks(x: Range, y: Range, s: seq<Range>)
    requires x.addr <= y.addr && y.End() <= x.End()
    requires forall i :: 0 <= i < |s| ==> Apart(x, s[i])
    ensures forall i :: 0 <= i < |s| ==> Apart(y, s[i])
  {
  }

  /** What `insert_block` followed by `compact` does to the free list. */
  lemma GiveBack(free: seq<Range>, r: Range, lo: nat, hi: nat)
    requires Gapped(free) && Inside(free, lo, hi) && r.size > 0 && lo <= r.addr && r.End() <= hi
    requires forall a :: In(r, a) ==> !Has(free, a)
    ensures var free' := Compact(Insert(free, r));
      Gapped(free') && Inside(free', lo, hi) && forall a :: Has(free', a) <==> Has(free, a) || In(r, a)
  {
    hide Has, Gapped, Inside, AllApart, Ordered;
    GappedApart(free);
    InsertOrdered(free, r, lo, hi);
    ConsInside(r, [], lo, hi);
    assert [r] == [r] + [];
    NothingInside(lo, hi);
    InsertInside(free, r, lo, hi);
    CompactKeeps(Insert(free, r), lo, hi);
    forall a ensures Has(Insert(free, r), a) <==> Has(free, a) || In(r, a) { InsertHas(free, r, a); }
  }

  lemma NothingInside(lo: nat, hi: nat)
    ensures Inside([], lo, hi)
  {
  }

  lemma HasNothing(a: nat)
    ensures !Has([], a)
  {
  }

  /** The last block is cut or stretched to `num` bytes, and `top` follows. */
  lemma ResizeKeeps(rest: seq<Range>, used: seq<Range>, x: Range, num: nat, lo: nat, hi: nat)
    requires Gapped(rest) && Tiled(rest, [x] + used, lo, hi) && x.End() == hi && num > 0
    ensures Tiled(rest, [Range(x.addr, num)] + used, lo, x.addr + num)
  {
    hide Has, Gapped, Inside, AllApart, Ordered;
    var y := Range(x.addr, num);
    HeadFacts(rest, used, x, lo, hi);
    ConsInside(x, used, lo, hi);
    BelowLast(rest, x, lo, hi);
    BelowLast(used, x, lo, hi);
    InsideStretches(rest, lo, x.addr, x.addr + num);
    InsideStretches(used, lo, x.addr, x.addr + num);
    ConsInside(y, used, lo, x.addr + num);
    BelowApart(used, y, lo, x.addr);
    ConsApart(y, used);
    forall a: nat | lo <= a < x.addr + num ensures Has(rest, a) <==> !Has([y] + used, a) {
      ConsHas(x, used, a);
      ConsHas(y, used, a);
      if Has(rest, a) { InsideHas(rest, lo, x.addr, a); }
    }
  }

  lemma BelowLast(s: seq<Range>, x: Range, lo: nat, hi: nat)
    requires Inside(s, lo, hi) && x.size > 0 && lo <= x.addr && x.End() == hi
    requires forall a :: In(x, a) ==> !Has(s, a)
    ensures Inside(s, lo, x.addr)
  {
    ApartFromAll(x, s, lo, hi);
  }

  lemma InsideStretches(s: seq<Range>, lo: nat, hi: nat, hi': nat)
    requires Inside(s, lo, hi) && hi <= hi'
    ensures Inside(s, lo, hi')
  {
  }

  lemma BelowApart(s: seq<Range>, y: Range, lo: nat, hi: nat)
    requires Inside(s, lo, hi) && hi <= y.addr
    ensures forall i :: 0 <= i < |s| ==> Apart(y, s[i])
  {
  }

  /** A new block on top of the tiled area. */
  lemma ExtendKeeps(free: seq<Range>, used: seq<Range>, num: nat, lo: nat, hi: nat)
    requires Tiled(free, used, lo, hi) && lo <= hi && num > 0
    ensures Tiled(free, [Range(hi, num)] + used, lo, hi + num)
  {
    hide Has, Gapped, Inside, AllApart, Ordered;
    var y := Range(hi, num);
    InsideStretches(free, lo, hi, hi + num);
    InsideStretches(used, lo, hi, hi + num);
    ConsInside(y, used, lo, hi + num);
    BelowApart(used, y, lo, hi);
    ConsApart(y, used);
    forall a: nat | lo <= a < hi + num ensures Has(free, a) <==> !Has([y] + used, a) {
      ConsHas(y, used, a);
      if Has(free, a) { InsideHas(free, lo, hi, a); }
    }
  }

  lemma UsedFacts(free: seq<Range>, used: seq<Range>, k: nat, lo: nat, hi: nat)
    requires Tiled(free, used, lo, hi) && k < |used|
    ensures used[k].size > 0 && lo <= used[k].addr && used[k].End() <= hi
    ensures forall a :: In(used[k], a) ==> !Has(free, a)
  {
  }

  lemma FreeKeeps(free: seq<Range>, used: seq<Range>, k: nat, lo: nat, hi: nat)
    requires Gapped(free) && Tiled(free, used, lo, hi) && k < |used|
    ensures var free' := Compact(Insert(free, used[k]));
      Gapped(free') && Tiled(free', Dropped(used, k), lo, hi)
  {
    hide Has, Gapped, Inside, AllApart, Ordered;
    UsedFacts(free, used, k, lo, hi);
    GiveBack(free, used[k], lo, hi);
    WithoutKeeps(used, k, lo, hi);
    forall a: nat | lo <= a < hi ensures Has(Compact(Insert(free, used[k])), a) <==> !Has(Dropped(used, k), a) {
      WithoutHas(used, k, a);
    }
  }

  // ----- whole runs

  datatype HeapCall = AllocCall(num: nat) | FreeCall(addr: nat) | ReallocCall(addr: nat, num: nat)

  /** `ta_alloc` */
  function TaAlloc(c: Config, s: State, num: nat): (State, Answer)
    requires c.Valid()
  {
    Alloc(c, s, c.Rounded(num))
  }

  /** `ta_realloc` without the copying. */
  function TaRealloc(c: Config, s: State, addr: nat, num: nat): (State, Answer)
    requires c.Valid()
  {
    var k := FindUsed(s.used, addr);
    if k < |s.used| && s.used[k].size > 0 then
      var (s', r) := TaAlloc(c, s, num);
      if r.Null? then (s', Null) else (Free(s', addr).0, r)
    else (s, Null)
  }

  function Step(c: Config, s: State, call: HeapCall): State
    requires c.Valid()
  {
    match call
    case AllocCall(num) => TaAlloc(c, s, num).0
    case FreeCall(addr) => Free(s, addr).0
    case ReallocCall(addr, num) => TaRealloc(c, s, addr, num).0
  }

  function Run(c: Config, s: State, calls: seq<HeapCall>): State
    requires c.Valid()
    decreases |calls|
  {
    if calls == [] then s else Run(c, Step(c, s, calls[0]), calls[1..])
  }

  /** Requests for no bytes at all are the caller's mistake. */
  predicate Sensible(call: HeapCall) { call.FreeCall? || call.num > 0 }

  lemma InitOk(c: Config)
    requires c.Valid()
    ensures Ok(c, Init(c))
  {
  }

  /**
   * A request answered with a block: the block is new to the used list, large enough, apart from every block in
   * use, and every block in use stays in use at its address and size. A request answered with nothing: nothing
   * changed, no free block would do, and no new block could be placed on top.
   */
  lemma AllocKeeps(c: Config, s: State, num: nat)
    requires Ok(c, s) && num > 0
    ensures var (s', r) := Alloc(c, s, num);
      && Ok(c, s')
      && (r.Block? ==>
          && s'.used != [] && s'.used[0].addr == r.addr && s'.used[0].size >= num && s'.used[1..] == s.used
          && forall i :: 0 <= i < |s.used| ==> Apart(s'.used[0], s.used[i]))
      && (r.Null? ==>
          && s' == s
          && (forall i :: 0 <= i < |s.free| ==> s.free[i].size < num)
          && (s.blank == 0 || s.top + num > c.limit))
  {
    hide Has, Gapped, Inside, AllApart, Ordered, Tiled, Insert, Compact, Dropped;
    var k := FirstFit(s.free, num, s.top, c.limit);
    if k < |s.free| {
      var x, rest := s.free[k], Dropped(s.free, k);
      FreeFacts(s.free, s.used, k, c.base, s.top);
      TakeKeeps(s.free, s.used, k, c.base, s.top);
      if AtTop(x, num, s.top, c.limit) {
        ResizeKeeps(rest, s.used, x, num, c.base, s.top);
        HeadApart(rest, s.used, Range(x.addr, num), c.base, x.addr + num);
      } else if s.blank > 0 && x.size - num >= c.splitThresh {
        SplitKeeps(rest, s.used, x, num, c.base, s.top);
        HeadApart(Compact(Insert(rest, Range(x.addr + num, x.size - num))), s.used, Range(x.addr, num), c.base, s.top);
      } else {
        HeadApart(rest, s.used, x, c.base, s.top);
      }
    } else if s.blank > 0 && s.top + num <= c.limit {
      ExtendKeeps(s.free, s.used, num, c.base, s.top);
      HeadApart(s.free, s.used, Range(s.top, num), c.base, s.top + num);
    }
  }

  lemma FreeFacts(free: seq<Range>, used: seq<Range>, k: nat, lo: nat, hi: nat)
    requires Tiled(free, used, lo, hi) && k < |free|
    ensures free[k].size > 0 && lo <= free[k].addr && free[k].End() <= hi
  {
  }

  lemma HeadApart(free: seq<Range>, used: seq<Range>, y: Range, lo: nat, hi: nat)
    requires Tiled(free, [y] + used, lo, hi)
    ensures forall i :: 0 <= i < |used| ==> Apart(y, used[i])
  {
    forall i | 0 <= i < |used| ensures Apart(y, used[i]) { ConsAt(y, used, 0); ConsAt(y, used, i + 1); }
  }

  /** Used blocks have different addresses, so `ta_free` finds the right one. */
  lemma UsedDistinct(c: Config, s: State, i: nat, j: nat)
    requires Ok(c, s) && i < j < |s.used|
    ensures s.used[i].addr != s.used[j].addr
  {
    assert Apart(s.used[i], s.used[j]);
  }

  lemma FreeKeepsOk(c: Config, s: State, addr: nat)
    requires Ok(c, s)
    ensures Ok(c, Free(s, addr).0)
  {
    hide Has, Gapped, Inside, AllApart, Ordered, Tiled, Insert, Compact, Dropped;
    var k := FindUsed(s.used, addr);
    if k < |s.used| {
      FreeKeeps(s.free, s.used, k, c.base, s.top);
    }
  }

  lemma StepKeepsOk(c: Config, s: State, call: HeapCall)
    requires Ok(c, s) && Sensible(call)
    ensures Ok(c, Step(c, s, call))
  {
    hide Ok, Free, Alloc;
    OkValid(c, s);
    match call
    case AllocCall(num) =>
      RoundedUp(c, num);
      AllocKeeps(c, s, c.Rounded(num));
    case FreeCall(addr) =>
      FreeKeepsOk(c, s, addr);
    case ReallocCall(addr, num) =>
      RoundedUp(c, num);
      AllocKeeps(c, s, c.Rounded(num));
      FreeKeepsOk(c, TaAlloc(c, s, num).0, addr);
  }

  lemma OkValid(c: Config, s: State)
    ensures Ok(c, s) ==> c.Valid()
  {
  }

  /** Every reachable heap: any calls, in any order, from `ta_init`. */
  lemma {:induction false} RunKeepsOk(c: Config, s: State, calls: seq<HeapCall>)
    requires Ok(c, s) && forall i :: 0 <= i < |calls| ==> Sensible(calls[i])
    ensures Ok(c, Run(c, s, calls))
    decreases |calls|
  {
    if calls != [] {
      StepKeepsOk(c, s, calls[0]);
      RunKeepsOk(c, Step(c, s, calls[0]), calls[1..]);
    }
  }

  /** `ta_check` answers true in every reachable heap. */
  lemma ReachableIsOk(c: Config, calls: seq<HeapCall>)
    requires c.Valid() && forall i :: 0 <= i < |calls| ==> Sensible(calls[i])
    ensures var s := Run(c, Init(c), calls);
      Ok(c, s) && |s.free| + |s.used| + s.blank == c.maxBlocks
  {
    InitOk(c);
    RunKeepsOk(c, Init(c), calls);
  }

  // ----- which block is handed out

  /** A free block answers a request that it is large enough for, or when it can be resized at the top of the area. */
  predicate Answers(x: Range, num: nat, top: nat, limit: nat) {
    x.size >= num || (x.End() == top && x.addr + num <= limit)
  }

  /** Free block `k` is the lowest that answers the request. */
  ghost predicate Lowest(s: State, k: nat, num: nat, limit: nat)
    requires k < |s.free|
  {
    && Answers(s.free[k], num, s.top, limit)
    && forall i :: 0 <= i < |s.free| && s.free[i].addr < s.free[k].addr ==> !Answers(s.free[i], num, s.top, limit)
  }

  /** The first used block of `s'` was free block `k`: resized at the top, split, or taken whole. */
  ghost predicate Took(c: Config, s: State, k: nat, num: nat, s': State)
    requires k < |s.free|
  {
    var x := s.free[k];
    && s'.used != [] && s'.used[0].addr == x.addr
    && if x.End() == s.top && x.addr + num <= c.limit then s'.used[0].size == num && s'.top == x.addr + num
       else s'.top == s.top && s'.used[0].size == (if s.blank > 0 && x.size - num >= c.splitThresh then num else x.size)
  }

  lemma GappedOrder(s: seq<Range>, k: nat)
    requires Gapped(s) && k < |s|
    ensures forall i :: 0 <= i < |s| && s[i].addr < s[k].addr ==> i < k
  {
  }

  lemma FitAnswers(c: Config, s: State, num: nat, k: nat)
    requires Ok(c, s) && k < |s.free|
    ensures AtTop(s.free[k], num, s.top, c.limit) <==> s.free[k].End() == s.top && s.free[k].addr + num <= c.limit
    ensures s.free[k].End() <= s.top
  {
  }

  /**
   * The block handed out is the lowest free one that answers the request, or a new one at the top if none does. It has
   * exactly the size asked for, unless it lay below the top and the rest was too small for the threshold or there was no
   * blank descriptor for it.
   */
  lemma AllocExact(c: Config, s: State, num: nat)
    requires Ok(c, s) && num > 0
    ensures var (s', r) := Alloc(c, s, num);
      && (r.Block? ==>
          && s'.used != [] && r.addr == s'.used[0].addr
          && if exists i :: 0 <= i < |s.free| && Answers(s.free[i], num, s.top, c.limit) then
               exists k :: 0 <= k < |s.free| && Lowest(s, k, num, c.limit) && Took(c, s, k, num, s')
             else s.blank > 0 && r.addr == s.top && s'.used[0].size == num && s'.top == s.top + num <= c.limit)
      && (r.Null? <==>
          && (forall i :: 0 <= i < |s.free| ==> !Answers(s.free[i], num, s.top, c.limit))
          && (s.blank == 0 || s.top + num > c.limit))
  {
    hide Has, Inside, AllApart, Ordered, Insert, Compact, Dropped;
    var k := FirstFit(s.free, num, s.top, c.limit);
    forall i | 0 <= i < |s.free|
      ensures AtTop(s.free[i], num, s.top, c.limit) <==> s.free[i].End() == s.top && s.free[i].addr + num <= c.limit
    {
      FitAnswers(c, s, num, i);
    }
    if k < |s.free| {
      assert Answers(s.free[k], num, s.top, c.limit);
      GappedOrder(s.free, k);
      assert Lowest(s, k, num, c.limit);
      assert Took(c, s, k, num, Alloc(c, s, num).0);
    }
  }

  /** What is handed out leaves the free addresses, and nothing else does but what lies above a lowered top: the bytes
      between the request and the end of the block it was cut from are free, or above the new top. */
  lemma AllocFrees(c: Config, s: State, num: nat, a: nat)
    requires Ok(c, s) && num > 0 && Alloc(c, s, num).1.Block?
    ensures var (s', r) := Alloc(c, s, num);
      s'.used != [] && (Has(s'.free, a) <==> Has(s.free, a) && !In(s'.used[0], a) && a < s'.top)
  {
    hide Alloc, Gapped, AllApart;
    AllocKeeps(c, s, num);
    AllocExact(c, s, num);
    var (s', r) := Alloc(c, s, num);
    var y := s'.used[0];
    assert s'.used == [y] + s.used;
    HasCons(y, s.used, a);
    HasBelow(c, s, a);
    HasBelow(c, s', a);
    if exists i :: 0 <= i < |s.free| && Answers(s.free[i], num, s.top, c.limit) {
      assert s'.top <= s.top || (s'.top == y.End() && y.addr <= s.top);
    }
  }

  lemma HasCons(y: Range, s: seq<Range>, a: nat)
    ensures Has([y] + s, a) <==> In(y, a) || Has(s, a)
  {
    var t := [y] + s;
    if In(y, a) { assert In(t[0], a); }
    if Has(s, a) {
      var i :| 0 <= i < |s| && In(s[i], a);
      assert t[i + 1] == s[i];
    }
  }

  lemma HasBelow(c: Config, s: State, a: nat)
    requires Ok(c, s)
    ensures Has(s.free, a) || Has(s.used, a) ==> c.base <= a < s.top
    ensures c.base <= a < s.top ==> (Has(s.free, a) <==> !Has(s.used, a))
    ensures forall i :: 0 <= i < |s.free| ==> s.free[i].addr >= c.base && s.free[i].size > 0
  {
  }

  /** Used block `k` was given back: its bytes are free, and all else is as it was. */
  ghost predicate Returned(s: State, k: nat, s': State)
    requires k < |s.used|
  {
    && s'.used == Dropped(s.used, k) && s'.top == s.top
    && forall a: nat :: Has(s'.free, a) <==> Has(s.free, a) || In(s.used[k], a)
  }

  /** `ta_free` takes the block at the address out of use and makes its bytes free, and no others; it answers false,
      and does nothing, exactly when no block in use has that address. */
  lemma FreeExact(c: Config, s: State, addr: nat)
    requires Ok(c, s)
    ensures var (s', ok) := Free(s, addr);
      && (ok <==> exists k :: 0 <= k < |s.used| && s.used[k].addr == addr)
      && (!ok ==> s' == s)
      && (ok ==> exists k :: 0 <= k < |s.used| && s.used[k].addr == addr && Returned(s, k, s'))
  {
    hide Gapped, Inside, AllApart, Ordered, Has, Insert, Compact, Dropped;
    var k := FindUsed(s.used, addr);
    if k < |s.used| {
      UsedFacts(s.free, s.used, k, c.base, s.top);
      GiveBack(s.free, s.used[k], c.base, s.top);
    }
  }

  /** `ta_realloc` succeeds exactly when the address is that of a block in use and the request is answered; the old block
      is then freed. A failure changes nothing. */
  lemma ReallocExact(c: Config, s: State, addr: nat, num: nat)
    requires Ok(c, s) && num > 0
    ensures var (s', r) := TaRealloc(c, s, addr, num);
      && (r.Block? <==> (exists k :: 0 <= k < |s.used| && s.used[k].addr == addr) && TaAlloc(c, s, num).1.Block?)
      && (r.Null? ==> s' == s)
      && (r.Block? ==>
          && r == TaAlloc(c, s, num).1 && r.addr != addr
          && s'.used != [] && s'.used[0].addr == r.addr && s'.used[0].size >= num
          && exists k :: 0 <= k < |s.used| && s.used[k].addr == addr && s'.used[1..] == Dropped(s.used, k))
  {
    hide Alloc, Gapped, Inside, AllApart, Ordered, Has, Insert, Compact;
    RoundedUp(c, num);
    AllocKeeps(c, s, c.Rounded(num));
    var k := FindUsed(s.used, addr);
    if k < |s.used| {
      UsedFacts(s.free, s.used, k, c.base, s.top);
      var (s1, r) := TaAlloc(c, s, num);
      if r.Block? {
        var y := s1.used[0];
        UsedFacts(s1.free, s1.used, 0, c.base, s1.top);
        assert s1.used == [y] + s.used;
        assert Apart(y, s.used[k]);
        assert FindUsed(s1.used, addr) == k + 1;
        assert Dropped(s1.used, k + 1) == [y] + Dropped(s.used, k);
      }
    }
  }

  /** The address after the first of several free blocks is not free. */
  lemma GappedHole(s: seq<Range>, lo: nat, hi: nat)
    requires Gapped(s) && Inside(s, lo, hi)
    ensures |s| > 1 ==> s[0].End() < hi && !Has(s, s[0].End())
  {
    if |s| > 1 {
      assert s[0].End() < s[1].addr < s[1].End() <= hi;
      forall i | 0 <= i < |s| ensures !In(s[i], s[0].End()) { if i > 0 { assert s[0].End() < s[i].addr; } }
    }
  }

  /** Nothing in use below the top: the free list is a single block. */
  lemma AllFreeBelowTop(c: Config, s: State)
    requires Ok(c, s) && s.used == [] && s.top > c.base
    ensures s.free == [Range(c.base, s.top - c.base)]
  {
    HasNothing(c.base);
    HasNothing(s.top - 1);
    assert Has(s.free, c.base) && Has(s.free, s.top - 1);
    GappedHole(s.free, c.base, s.top);
    if |s.free| > 1 { HasNothing(s.free[0].End()); }
  }

  /** The call is a request that is answered with a block. */
  predicate Serves(c: Config, s: State, call: HeapCall)
    requires c.Valid()
  {
    call.AllocCall? && TaAlloc(c, s, call.num).1.Block?
  }

  /** Some request of the run is answered with a block. */
  predicate Served(c: Config, s: State, calls: seq<HeapCall>)
    requires c.Valid()
    decreases |calls|
  {
    calls != [] && (Serves(c, s, calls[0]) || Served(c, Step(c, s, calls[0]), calls[1..]))
  }

  lemma UsedBelowTop(c: Config, s: State)
    requires Ok(c, s) && s.used != []
    ensures s.top > c.base
  {
    var r := s.used[0];
    assert r.addr < r.End();
    assert In(r, r.addr) && Has(s.used, r.addr);
  }

  /** The top is above the base from the first block handed out on; before that nothing happens to the heap. */
  lemma StepRaisesTop(c: Config, s: State, call: HeapCall)
    requires Ok(c, s) && Sensible(call)
    ensures Serves(c, s, call) || s.top > c.base ==> Step(c, s, call).top > c.base
    ensures !Serves(c, s, call) && s == Init(c) ==> Step(c, s, call) == s
  {
    hide Ok, Alloc;
    OkValid(c, s);
    match call
    case AllocCall(num) => AllocRaisesTop(c, s, num);
    case FreeCall(addr) =>
    case ReallocCall(addr, num) => AllocRaisesTop(c, s, num);
  }

  lemma AllocRaisesTop(c: Config, s: State, num: nat)
    requires Ok(c, s) && num > 0
    ensures var (s', r) := TaAlloc(c, s, num);
      if r.Block? then s'.top > c.base else s' == s
  {
    hide Alloc, Gapped, Tiled;
    RoundedUp(c, num);
    AllocKeeps(c, s, c.Rounded(num));
    if TaAlloc(c, s, num).1.Block? {
      UsedBelowTop(c, TaAlloc(c, s, num).0);
    }
  }

  lemma {:induction false} RunRaisesTop(c: Config, s: State, calls: seq<HeapCall>)
    requires Ok(c, s) && forall i :: 0 <= i < |calls| ==> Sensible(calls[i])
    ensures Served(c, s, calls) || s.top > c.base ==> Run(c, s, calls).top > c.base
    ensures !Served(c, s, calls) && s == Init(c) ==> Run(c, s, calls) == s
    decreases |calls|
  {
    hide Ok, Step, Serves;
    OkValid(c, s);
    if calls != [] {
      StepKeepsOk(c, s, calls[0]);
      StepRaisesTop(c, s, calls[0]);
      RunRaisesTop(c, Step(c, s, calls[0]), calls[1..]);
    }
  }

  /** In every run that leaves nothing in use the heap is one single free block, from the first address to the top,
      once a request has been answered; without one it is as it was at the start. */
  lemma AllFreeIsOneBlock(c: Config, calls: seq<HeapCall>)
    requires c.Valid() && forall i :: 0 <= i < |calls| ==> Sensible(calls[i])
    requires Run(c, Init(c), calls).used == []
    ensures var s := Run(c, Init(c), calls);
      if Served(c, Init(c), calls) then s.top > c.base && s.free == [Range(c.base, s.top - c.base)] else s == Init(c)
  {
    hide Ok, Step, Serves;
    InitOk(c);
    RunKeepsOk(c, Init(c), calls);
    RunRaisesTop(c, Init(c), calls);
    if Served(c, Init(c), calls) {
      AllFreeBelowTop(c, Run(c, Init(c), calls));
    }
  }

  // ----- the bytes under reallocation

  function Least(a: nat, b: nat): nat { if a < b then a else b }

  /** `n` bytes copied within the memory. */
  function Copied(m: seq<byte>, from: nat, to: nat, n: nat): (t: seq<byte>)
    requires from + n <= |m| && to + n <= |m|
    ensures |t| == |m|
  {
    m[..to] + m[from..from + n] + m[to + n..]
  }

  /** The memory after `ta_realloc`. */
  function MemoryAfter(c: Config, s: State, addr: nat, num: nat, m: seq<byte>): (t: seq<byte>)
    requires Ok(c, s) && num > 0 && c.limit <= |m|
  {
    var k, r := FindUsed(s.used, addr), TaAlloc(c, s, num).1;
    if k < |s.used| && r.Block? then
      CopyFacts(c, s, num, k);
      Copied(m, addr, r.addr, Least(s.used[k].size, num))
    else m
  }

  /** The block allocated for a reallocation lies apart from the one it replaces, inside the memory. */
  lemma CopyFacts(c: Config, s: State, num: nat, k: nat)
    requires Ok(c, s) && num > 0 && k < |s.used| && TaAlloc(c, s, num).1.Block?
    ensures var r, n := TaAlloc(c, s, num).1, Least(s.used[k].size, num);
      && s.used[k].size > 0
      && s.used[k].addr + n <= c.limit && r.addr + n <= c.limit
      && Apart(Range(s.used[k].addr, n), Range(r.addr, n))
  {
    hide Alloc;
    RoundedUp(c, num);
    AllocKeeps(c, s, c.Rounded(num));
    var s' := TaAlloc(c, s, num).0;
    assert s.used[k].size > 0;
    assert Apart(s'.used[0], s.used[k]);
    assert s'.used[0].End() <= s'.top && s.used[k].End() <= s.top;
  }

  /** What one used block sees of a successful allocation. */
  lemma AllocFacts(c: Config, s: State, num: nat, i: nat)
    requires Ok(c, s) && num > 0 && i < |s.used| && TaAlloc(c, s, num).1.Block?
    ensures var (s', r) := TaAlloc(c, s, num);
      && Ok(c, s') && |s'.used| == |s.used| + 1
      && s'.used[0].addr == r.addr && s'.used[0].size >= num && s'.used[i + 1] == s.used[i]
      && Apart(s'.used[0], s.used[i])
      && s.used[i].size > 0 && s.used[i].End() <= c.limit && s'.used[0].End() <= c.limit
  {
    hide Alloc, Has;
    RoundedUp(c, num);
    AllocKeeps(c, s, c.Rounded(num));
    var s' := TaAlloc(c, s, num).0;
    assert s'.used[1..][i] == s.used[i];
  }

  lemma UsedNotEmpty(c: Config, s: State, k: nat)
    requires Ok(c, s) && k < |s.used|
    ensures s.used[k].size > 0
  {
  }

  /** A successful `ta_realloc`: the new block begins with the old bytes, as many as both blocks hold. */
  lemma ReallocMovesBytes(c: Config, s: State, addr: nat, num: nat, m: seq<byte>)
    requires Ok(c, s) && num > 0 && c.limit <= |m| && TaRealloc(c, s, addr, num).1.Block?
    ensures var k, r, m' := FindUsed(s.used, addr), TaRealloc(c, s, addr, num).1, MemoryAfter(c, s, addr, num, m);
      && k < |s.used| && |m'| == |m|
      && var n := Least(s.used[k].size, num);
      addr + n <= |m| && r.addr + n <= |m| && m'[r.addr..r.addr + n] == m[addr..addr + n]
  {
    hide TaAlloc, Ok, Free, Copied;
    OkValid(c, s);
    var k := FindUsed(s.used, addr);
    var r := TaAlloc(c, s, num).1;
    CopyFacts(c, s, num, k);
    CopiedInto(m, addr, r.addr, Least(s.used[k].size, num));
  }

  /** A successful `ta_realloc` leaves every other block in use with its place and its bytes. */
  lemma ReallocKeepsOthers(c: Config, s: State, addr: nat, num: nat, m: seq<byte>, i: nat)
    requires Ok(c, s) && num > 0 && c.limit <= |m| && TaRealloc(c, s, addr, num).1.Block?
    requires i < |s.used| && s.used[i].addr != addr
    ensures var m' := MemoryAfter(c, s, addr, num, m);
      && s.used[i] in TaRealloc(c, s, addr, num).0.used
      && |m'| == |m| && s.used[i].End() <= |m|
      && m'[s.used[i].addr..s.used[i].End()] == m[s.used[i].addr..s.used[i].End()]
  {
    hide TaAlloc, Ok, Free, Copied;
    OkValid(c, s);
    var k := FindUsed(s.used, addr);
    var (s1, r) := TaAlloc(c, s, num);
    AllocFacts(c, s, num, i);
    CopyFacts(c, s, num, k);
    CopiedElsewhere(m, addr, r.addr, Least(s.used[k].size, num), s.used[i].addr, s.used[i].End());
    FreeOther(c, s1, addr, i + 1);
  }

  lemma CopiedInto(m: seq<byte>, from: nat, to: nat, n: nat)
    requires from + n <= |m| && to + n <= |m|
    ensures |Copied(m, from, to, n)| == |m|
    ensures Copied(m, from, to, n)[to..to + n] == m[from..from + n]
  {
  }

  lemma CopiedElsewhere(m: seq<byte>, from: nat, to: nat, n: nat, lo: nat, hi: nat)
    requires from + n <= |m| && to + n <= |m| && lo <= hi <= |m| && (hi <= to || to + n <= lo)
    ensures |Copied(m, from, to, n)| == |m|
    ensures Copied(m, from, to, n)[lo..hi] == m[lo..hi]
  {
  }

  /** `ta_free` leaves the other used blocks in use. */
  lemma FreeOther(c: Config, s: State, addr: nat, j: nat)
    requires Ok(c, s) && j < |s.used| && s.used[j].addr != addr
    ensures s.used[j] in Free(s, addr).0.used
  {
    hide Compact, Insert;
    var k := FindUsed(s.used, addr);
    if k < |s.used| {
      assert Dropped(s.used, k)[if j < k then j else j - 1] == s.used[j];
    }
  }

  // ----- alignment

  ghost predicate Multiple(x: nat, m: nat) {
    exists q: nat :: x == Times(m, q)
  }

  lemma MultipleSum(x: nat, y: nat, m: nat)
    requires Multiple(x, m) && Multiple(y, m)
    ensures Multiple(x + y, m) && (x >= y ==> Multiple(x - y, m))
  {
    var p: nat :| x == Times(m, p);
    var q: nat :| y == Times(m, q);
    TimesSum(m, p, q);
    if p < q { TimesStep(m, p, q); } else { TimesSum(m, q, p - q); }
    if x >= y { assert x - y == Times(m, if p < q then 0 else p - q); }
  }

  lemma RoundedMultiple(c: Config, num: nat)
    requires c.Valid()
    ensures Multiple(c.Rounded(num), c.alignment)
  {
    var x, m: nat := num + c.alignment - 1, c.alignment;
    TimesIsProduct(m, x / m);
    assert c.Rounded(num) == Times(m, x / m);
  }

  ghost predicate AllMultiples(s: seq<Range>, m: nat) {
    forall i :: 0 <= i < |s| ==> Multiple(s[i].addr, m) && Multiple(s[i].size, m)
  }

  /** Blocks start and end on multiples of the alignment. */
  ghost predicate Aligned(c: Config, s: State) {
    AllMultiples(s.free, c.alignment) && AllMultiples(s.used, c.alignment) && Multiple(s.top, c.alignment)
  }

  lemma {:induction false} CompactMultiples(s: seq<Range>, m: nat)
    requires AllMultiples(s, m)
    ensures AllMultiples(Compact(s), m)
    decreases |s|
  {
    if |s| >= 2 {
      if s[0].End() == s[1].addr {
        MultipleSum(s[0].size, s[1].size, m);
        CompactMultiples([Range(s[0].addr, s[0].size + s[1].size)] + s[2..], m);
      } else {
        CompactMultiples(s[1..], m);
      }
    }
  }

  lemma ListMultiples(s: seq<Range>, r: Range, k: nat, m: nat)
    requires AllMultiples(s, m) && Multiple(r.addr, m) && Multiple(r.size, m)
    ensures AllMultiples(Insert(s, r), m) && AllMultiples([r] + s, m)
    ensures k < |s| ==> AllMultiples(Dropped(s, k), m)
  {
    hide Multiple, InsertPos;
    var i := InsertPos(s, r);
  }

  /** If the heap starts aligned, every block handed out is aligned. */
  lemma AllocAligned(c: Config, s: State, num: nat)
    requires c.Valid() && Aligned(c, s)
    ensures var (s', r) := TaAlloc(c, s, num);
      Aligned(c, s') && (r.Block? ==> Multiple(r.addr, c.alignment))
  {
    hide Multiple, Compact, Insert, Dropped, AllMultiples;
    var n, m := c.Rounded(num), c.alignment;
    RoundedMultiple(c, num);
    var k := FirstFit(s.free, n, s.top, c.limit);
    if k < |s.free| {
      var x, rest := s.free[k], Dropped(s.free, k);
      MultipleAt(s.free, k, m);
      MultipleSum(x.addr, n, m);
      MultipleSum(x.size, n, m);
      ListMultiples(s.free, x, k, m);
      ListMultiples(s.used, x, 0, m);
      ListMultiples(s.used, Range(x.addr, n), 0, m);
      if !AtTop(x, n, s.top, c.limit) && s.blank > 0 && x.size - n >= c.splitThresh {
        var tail := Range(x.addr + n, x.size - n);
        ListMultiples(rest, tail, 0, m);
        CompactMultiples(Insert(rest, tail), m);
      }
    } else {
      MultipleSum(s.top, n, m);
      ListMultiples(s.used, Range(s.top, n), 0, m);
    }
  }

  lemma MultipleAt(s: seq<Range>, k: nat, m: nat)
    requires AllMultiples(s, m) && k < |s|
    ensures Multiple(s[k].addr, m) && Multiple(s[k].size, m)
  {
  }

  lemma FreeAligned(c: Config, s: State, addr: nat)
    requires Aligned(c, s)
    ensures Aligned(c, Free(s, addr).0)
  {
    hide Multiple, Compact;
    var k := FindUsed(s.used, addr);
    if k < |s.used| { CompactMultiples(Insert(s.free, s.used[k]), c.alignment); }
  }

  lemma StepAligned(c: Config, s: State, call: HeapCall)
    requires c.Valid() && Aligned(c, s)
    ensures Aligned(c, Step(c, s, call))
  {
    hide Aligned, TaAlloc, Free;
    match call
    case AllocCall(num) => AllocAligned(c, s, num);
    case FreeCall(addr) => FreeAligned(c, s, addr);
    case ReallocCall(addr, num) =>
      AllocAligned(c, s, num);
      FreeAligned(c, TaAlloc(c, s, num).0, addr);
  }

  lemma {:induction false} RunAligned(c: Config, s: State, calls: seq<HeapCall>)
    requires c.Valid() && Aligned(c, s)
    ensures Aligned(c, Run(c, s, calls))
    decreases |calls|
  {
    if calls != [] {
      StepAligned(c, s, calls[0]);
      RunAligned(c, Step(c, s, calls[0]), calls[1..]);
    }
  }
}
