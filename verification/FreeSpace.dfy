/** The FAT scan of `f_getfree`. */
module FreeSpace {
  import opened Words
  import opened Layout
  import opened FatTable
  import opened Drive
  import opened Volumes
  import opened Chains
  import opened Allocator

  /** `f_getfree` on a mounted volume. FAT12 is read entry by entry; on FAT16 and FAT32 the sectors of
      the FAT are walked, so there entries 0 and 1 are counted as well. */
  method GetFree(fs: Volume) returns (res: Result, nclst: nat)
    requires fs.Valid()
    modifies fs, fs.win
    ensures fs.Valid() && fs.Abs() == old(fs.Abs()) && fs.lastClst == old(fs.lastClst)
    ensures old(fs.freeClst) <= fs.g.nFatent - 2 ==> res == Ok && nclst == old(fs.freeClst) == fs.freeClst
    ensures old(fs.freeClst) > fs.g.nFatent - 2 && !(fs.g.fatType.Fat12? && !NoError(fs.Fat())) ==>
      res == Ok && fs.freeClst == nclst
      && nclst == (if fs.g.fatType.Fat12? then FreeCount(fs.Fat()) else Zeros(fs.Fat()))
    ensures old(fs.freeClst) > fs.g.nFatent - 2 && fs.g.fatType.Fat12? && !NoError(fs.Fat()) ==>
      res == IntErr && fs.freeClst == old(fs.freeClst)
  {
    nclst := 0;
    if fs.freeClst <= fs.g.nFatent - 2 {
      return Ok, fs.freeClst;
    }
    if fs.g.fatType.Fat12? {
      res, nclst := Count12(fs);
    } else {
      nclst := CountWords(fs);
      res := Ok;
    }
    if res == Ok {
      ZerosBound(fs.Fat());
      ZerosBound(fs.Fat()[2..]);
      SetFree(fs, nclst);
    }
  }

  method SetFree(fs: Volume, nfree: nat)
    requires fs.Valid() && nfree < TWO32
    modifies fs`freeClst
    ensures fs.Valid() && fs.freeClst == nfree
  {
    fs.freeClst := nfree;
  }

  method Count12(fs: Volume) returns (res: Result, nfree: nat)
    requires fs.Valid()
    modifies fs, fs.win
    ensures fs.Valid() && fs.Abs() == old(fs.Abs()) && fs.Fat() == old(fs.Fat())
    ensures fs.lastClst == old(fs.lastClst) && fs.freeClst == old(fs.freeClst)
    ensures res == if NoError(fs.Fat()) then Ok else IntErr
    ensures res == Ok ==> nfree == FreeCount(fs.Fat())
  {
    hide Volume.Abs, TableOf, Geometry.Valid, DiskOk, Geometry.EntryMod, NoError, NoErrorBelow, ZerosFrom, Zeros;
    ghost var fat := fs.Fat();
    GeometryFacts(fs.disk, fs.g);
    ZerosFromIsZeros(fat, 2, |fat|);
    ZerosFromNext(fat, 2, 2);
    assert fat[2..|fat|] == fat[2..];
    NoErrorBelowStart(fat);
    nfree := 0;
    var clst: nat := 2;
    while clst < fs.g.nFatent
      invariant 2 <= clst <= |fat|
      invariant fs.Valid() && fs.Abs() == old(fs.Abs()) && fs.Fat() == fat
      invariant fs.lastClst == old(fs.lastClst) && fs.freeClst == old(fs.freeClst)
      invariant nfree == ZerosFrom(fat, 2, clst)
      invariant NoErrorBelow(fat, clst)
    {
      var stat := fs.GetFat(clst);
      NoErrorBelowNext(fat, clst);
      if stat == 1 { return IntErr, nfree; }
      ZerosFromNext(fat, 2, clst);
      if stat == 0 { nfree := nfree + 1; }
      clst := clst + 1;
    }
    NoErrorBelowEnd(fat);
    res := Ok;
  }

  ghost predicate NoErrorBelow(fat: seq<nat>, k: nat) {
    forall c :: 2 <= c < k && c < |fat| ==> fat[c] != 1
  }

  /** Free entries among `lo` .. `hi - 1`. */
  ghost function ZerosFrom(t: seq<nat>, lo: nat, hi: nat): nat
    requires hi <= |t|
  {
    if hi <= lo then 0 else ZerosFrom(t, lo, hi - 1) + if t[hi - 1] == 0 then 1 else 0
  }

  lemma ZerosFromNext(t: seq<nat>, lo: nat, k: nat)
    requires lo <= k <= |t|
    ensures ZerosFrom(t, lo, lo) == 0
    ensures k < |t| ==> ZerosFrom(t, lo, k + 1) == ZerosFrom(t, lo, k) + if t[k] == 0 then 1 else 0
  {
  }

  lemma {:induction false} ZerosFromIsZeros(t: seq<nat>, lo: nat, hi: nat)
    requires lo <= hi <= |t|
    ensures ZerosFrom(t, lo, hi) == Zeros(t[lo..hi])
    decreases hi
  {
    if lo < hi {
      ZerosFromIsZeros(t, lo, hi - 1);
      assert t[lo..hi][..hi - lo - 1] == t[lo..hi - 1];
    }
  }

  lemma NoErrorBelowStart(fat: seq<nat>)
    ensures NoErrorBelow(fat, 2)
  {
  }

  lemma NoErrorBelowNext(fat: seq<nat>, k: nat)
    requires 2 <= k < |fat| && NoErrorBelow(fat, k)
    ensures if fat[k] == 1 then !NoError(fat) else NoErrorBelow(fat, k + 1)
  {
  }

  lemma NoErrorBelowEnd(fat: seq<nat>)
    requires NoErrorBelow(fat, |fat|)
    ensures NoError(fat)
  {
  }

  lemma ZerosNext(t: seq<nat>, k: nat)
    requires k < |t|
    ensures Zeros(t[..k + 1]) == Zeros(t[..k]) + if t[k] == 0 then 1 else 0
  {
    assert t[..k + 1][..k] == t[..k];
  }

  /** The scan over all entries of a FAT16 or FAT32 volume. */
  method CountWords(fs: Volume) returns (nfree: nat)
    requires fs.Valid() && !fs.g.fatType.Fat12?
    modifies fs, fs.win
    ensures fs.Valid() && fs.Abs() == old(fs.Abs()) && fs.Fat() == old(fs.Fat())
    ensures fs.lastClst == old(fs.lastClst) && fs.freeClst == old(fs.freeClst)
    ensures nfree == Zeros(fs.Fat())
  {
    hide Volume.Abs, TableOf, DiskOk, Geometry.Valid, Geometry.EntryMod, Position, ZerosFrom, Zeros;
    ghost var fat := fs.Fat();
    ghost var e: nat := 0;
    ZerosFromIsZeros(fat, 0, |fat|);
    ZerosFromNext(fat, 0, 0);
    assert fat[0..|fat|] == fat;
    var w := if fs.g.fatType.Fat16? then 2 else 4;
    nfree := 0;
    var clst: nat := fs.g.nFatent;
    var sect: nat := fs.g.fatbase;
    var i: nat := 0;
    PositionStart(fs.g, w);
    while clst > 0
      invariant clst + e == |fat|
      invariant fs.Valid() && fs.Abs() == old(fs.Abs()) && fs.Fat() == fat
      invariant fs.lastClst == old(fs.lastClst) && fs.freeClst == old(fs.freeClst)
      invariant Position(fs.g, e, w, sect, i) && (i != 0 ==> fs.winsect == sect - 1)
      invariant nfree == ZerosFrom(fat, 0, e)
    {
      var zero;
      sect, i, zero := ScanEntry(fs, e, w, sect, i);
      ZerosFromNext(fat, 0, e);
      if zero { nfree := nfree + 1; }
      clst, e := clst - 1, e + 1;
    }
  }

  /** One round of the scan: loads the next sector when `i` wrapped and tests the entry. */
  method ScanEntry(fs: Volume, ghost e: nat, w: nat, sect0: nat, i0: nat) returns (sect: nat, i: nat, zero: bool)
    requires fs.Valid() && !fs.g.fatType.Fat12? && w == (if fs.g.fatType.Fat16? then 2 else 4)
    requires e < fs.g.nFatent && Position(fs.g, e, w, sect0, i0) && (i0 != 0 ==> fs.winsect == sect0 - 1)
    modifies fs, fs.win
    ensures fs.Valid() && fs.Abs() == old(fs.Abs()) && fs.Fat() == old(fs.Fat())
    ensures fs.lastClst == old(fs.lastClst) && fs.freeClst == old(fs.freeClst)
    ensures zero == (fs.Fat()[e] == 0)
    ensures sect > 0 && fs.winsect == sect - 1 && Position(fs.g, e + 1, w, sect, i)
  {
    hide Volume.Abs, TableOf, Geometry.Valid, DiskOk, Position;
    GeometryFacts(fs.disk, fs.g);
    PositionInside(fs.g, |fs.disk|, e, w, sect0, i0);
    sect := sect0;
    if i0 == 0 {
      fs.MoveWindow(sect);
      sect := sect + 1;
    }
    zero := EntryIsZero(fs, e, w, i0);
    i := (i0 + w) % SS;
  }

  /** Before entry `e` is read, `i` is its offset in sector `sect - 1`, or 0 if its sector `sect` is still to be loaded. */
  ghost predicate Position(g: Geometry, e: nat, w: nat, sect: nat, i: nat) {
    && (w == 2 || w == 4) && i % w == 0 && i < SS
    && (if i == 0 then sect >= g.fatbase && w * e == SS * (sect - g.fatbase)
        else sect > g.fatbase && w * e == SS * (sect - 1 - g.fatbase) + i)
  }

  lemma PositionStart(g: Geometry, w: nat)
    requires w == 2 || w == 4
    ensures Position(g, 0, w, g.fatbase, 0)
  {
  }

  lemma PositionInside(g: Geometry, total: nat, e: nat, w: nat, sect: nat, i: nat)
    requires g.Valid(total) && !g.fatType.Fat12? && w == (if g.fatType.Fat16? then 2 else 4)
    requires e < g.nFatent && Position(g, e, w, sect, i)
    ensures i == 0 ==> g.InFirstFat(sect) && sect < total
    ensures (var s := if i == 0 then sect else sect - 1; s >= g.fatbase && w * e == SS * (s - g.fatbase) + i)
    ensures i + w <= SS
    ensures Position(g, e + 1, w, if i == 0 then sect + 1 else sect, (i + w) % SS)
  {
    EntryInside(g, total, e);
  }

  /** Tests the entry at offset `i` of the window. */
  method EntryIsZero(fs: Volume, ghost e: nat, w: nat, i: nat) returns (zero: bool)
    requires fs.Valid() && !fs.g.fatType.Fat12? && w == (if fs.g.fatType.Fat16? then 2 else 4)
    requires e < fs.g.nFatent && i + w <= SS
    requires fs.winsect >= fs.g.fatbase && w * e == SS * (fs.winsect - fs.g.fatbase) + i
    ensures zero == (fs.Fat()[e] == 0)
  {
    WindowShowsEntry(fs, e, w, i);
    hide Volume.Abs, Volume.Fat;
    if w == 2 {
      zero := LdWord(fs.win[..], i) == 0;
    } else {
      zero := LdDword(fs.win[..], i) % 0x1000_0000 == 0;
    }
  }

  lemma WindowShowsEntry(fs: Volume, e: nat, w: nat, i: nat)
    requires fs.Valid() && !fs.g.fatType.Fat12? && w == (if fs.g.fatType.Fat16? then 2 else 4)
    requires e < fs.g.nFatent && i + w <= SS
    requires fs.winsect >= fs.g.fatbase && w * e == SS * (fs.winsect - fs.g.fatbase) + i
    ensures fs.Fat()[e] == if w == 2 then LdWord(fs.win[..], i) else LdDword(fs.win[..], i) % 0x1000_0000
  {
    hide Volume.Abs, FatBytes, DiskOk, LdDword, LdWord, Geometry.Valid;
    EntryBytesInside(fs.disk, fs.g, e);
    var f: seq<byte> := FatBytes(fs.Abs(), fs.g);
    forall j | i <= j < i + w
      ensures w * e + (j - i) < |f| && fs.win[..][j] == f[w * e + (j - i)]
    {
      WindowShowsByte(fs, w * e + (j - i), j);
    }
    if w == 4 {
      assert f[4 * e] == fs.win[..][i] && f[4 * e + 1] == fs.win[..][i + 1];
      assert f[4 * e + 2] == fs.win[..][i + 2] && f[4 * e + 3] == fs.win[..][i + 3];
      SameDword(fs.win[..], i, f, 4 * e);
    } else {
      assert f[2 * e] == fs.win[..][i] && f[2 * e + 1] == fs.win[..][i + 1];
      SameWord(fs.win[..], i, f, 2 * e);
    }
  }

  lemma WindowShowsByte(fs: Volume, k: nat, o: nat)
    requires fs.Valid() && o < SS && k < fs.g.fsize * SS
    requires fs.winsect >= fs.g.fatbase && k == SS * (fs.winsect - fs.g.fatbase) + o
    ensures fs.win[..][o] == FatBytes(fs.Abs(), fs.g)[k]
  {
    assert k / SS == fs.winsect - fs.g.fatbase && k % SS == o;
  }

  lemma SameWord(s: seq<byte>, i: nat, t: seq<byte>, j: nat)
    requires i + 2 <= |s| && j + 2 <= |t| && s[i] == t[j] && s[i + 1] == t[j + 1]
    ensures LdWord(s, i) == LdWord(t, j)
  {
  }

  /** The count is right exactly when the two entries that belong to no cluster are nonzero. */
  lemma ScanExact(fat: seq<nat>)
    requires |fat| > 2
    ensures Zeros(fat) == FreeCount(fat) <==> fat[0] != 0 && fat[1] != 0
  {
    ZerosConcat(fat[..2], fat[2..]);
    assert fat == fat[..2] + fat[2..];
    ZerosNext(fat, 0);
    ZerosNext(fat, 1);
  }

  lemma {:induction false} ZerosConcat(a: seq<nat>, b: seq<nat>)
    ensures Zeros(a + b) == Zeros(a) + Zeros(b)
    decreases |b|
  {
    if b == [] {
      assert a + b == a;
    } else {
      var m := |b| - 1;
      assert (a + b)[..|a + b| - 1] == a + b[..m];
      ZerosConcat(a, b[..m]);
    }
  }
}
