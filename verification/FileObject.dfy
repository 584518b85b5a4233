/** An open file: position, current cluster, and a private one-sector buffer. */
module FileObjects {
  import opened Words
  import opened Layout
  import opened Drive
  import opened Volumes
  import opened Chains
  import opened Allocator
  import opened AllocatorProofs
  import opened FileView

  datatype FileResult = FileOk | Denied

  /** `s` lies in no cluster of the chain. */
  ghost predicate OutsideChain(g: Geometry, ch: seq<nat>, s: nat) {
    forall i :: 0 <= i < |ch| && ch[i] >= 2 ==> !(g.ClusterBase(ch[i]) <= s < g.ClusterBase(ch[i]) + g.csize)
  }

  /** Nothing but FAT sectors and sectors of the chain differ. */
  ghost predicate FileOnly(d: Disk, d': Disk, g: Geometry, ch: seq<nat>) {
    |d| == |d'| && forall s :: 0 <= s < |d| && !g.InFats(s) && OutsideChain(g, ch, s) ==> d'[s] == d[s]
  }

  /** Chains disjoint from the file stay chains and stay disjoint from it. */
  ghost predicate OthersKept(fat: seq<nat>, ch: seq<nat>, fat': seq<nat>, ch': seq<nat>) {
    forall o: seq<nat> :: IsChain(fat, o) && Disjoint(o, ch) ==> IsChain(fat', o) && Disjoint(o, ch')
  }

  /** No cluster is free, as far as the allocator looks. */
  ghost predicate DiskFull(free: nat, fat: seq<nat>) {
    free == 0 || NoneFree(fat)
  }

  ghost predicate ChainOrNone(fat: seq<nat>, ch: seq<nat>) {
    ch != [] ==> IsChain(fat, ch)
  }

  lemma ChainIsIn(fat: seq<nat>, g: Geometry, ch: seq<nat>)
    requires ChainOrNone(fat, ch) && |fat| == g.nFatent && g.csize > 0
    ensures ChainIn(g, ch)
  {
  }

  lemma SectorOfInChain(g: Geometry, ch: seq<nat>, j: nat, s: nat)
    requires ChainIn(g, ch) && j < Sectors(g, ch) && OutsideChain(g, ch, s)
    ensures SectorOf(g, ch, j) != s
  {
    hide Geometry.ClusterBase, Quot, Rem;
    QuotInside(j, g.csize, |ch|);
    QuotRem(j, g.csize);
  }

  lemma FatOutsideChain(g: Geometry, total: nat, ch: seq<nat>, s: nat)
    requires g.Valid(total) && ChainIn(g, ch) && g.InFirstFat(s)
    ensures OutsideChain(g, ch, s)
  {
  }

  lemma FileOnlyTrans(a: Disk, b: Disk, c: Disk, g: Geometry, ch: seq<nat>, ch': seq<nat>)
    requires FileOnly(a, b, g, ch) && FileOnly(b, c, g, ch') && ch <= ch'
    ensures FileOnly(a, c, g, ch')
  {
    forall s | 0 <= s < |a| && OutsideChain(g, ch', s)
      ensures OutsideChain(g, ch, s)
    {
      OutsidePrefix(g, ch, ch', s);
    }
  }

  lemma OutsidePrefix(g: Geometry, ch: seq<nat>, ch': seq<nat>, s: nat)
    requires OutsideChain(g, ch', s) && ch <= ch'
    ensures OutsideChain(g, ch, s)
  {
    hide Geometry.ClusterBase;
    forall i | 0 <= i < |ch| && ch[i] >= 2
      ensures !(g.ClusterBase(ch[i]) <= s < g.ClusterBase(ch[i]) + g.csize)
    {
      assert ch'[i] == ch[i];
    }
  }

  lemma OthersKeptTrans(a: seq<nat>, cha: seq<nat>, b: seq<nat>, chb: seq<nat>, c: seq<nat>, chc: seq<nat>)
    requires OthersKept(a, cha, b, chb) && OthersKept(b, chb, c, chc)
    ensures OthersKept(a, cha, c, chc)
  {
  }

  /** `s` is a sector of the file. */
  ghost predicate InFile(g: Geometry, ch: seq<nat>, s: nat) {
    ChainIn(g, ch) && exists j :: 0 <= j < Sectors(g, ch) && s == SectorOf(g, ch, j)
  }

  /** The bookkeeping of the volume, and the number of the buffered sector. */
  datatype Marks = Marks(fat: seq<nat>, free: nat, window: nat, sect: nat)

  /**
   * A right count of free clusters stays right, the window stays or goes to a FAT sector, and the buffer stays or goes
   * to a sector of the file.
   */
  ghost predicate Steady(a: Marks, b: Marks, g: Geometry, ch: seq<nat>) {
    && |a.fat| == |b.fat| == g.nFatent >= 2
    && (CountTrusted(a.free, a.fat) ==> CountTrusted(b.free, b.fat))
    && (b.window == a.window || g.InFirstFat(b.window))
    && (b.sect == a.sect || InFile(g, ch, b.sect))
  }

  lemma SteadyNot(a: Marks, g: Geometry, ch: seq<nat>)
    requires |a.fat| == g.nFatent >= 2
    ensures Steady(a, a, g, ch)
  {
  }

  /** Another sector of the file comes into the buffer. */
  lemma SteadyLoad(a: Marks, g: Geometry, ch: seq<nat>, j: nat)
    requires Steady(a, a, g, ch) && ChainIn(g, ch) && j < Sectors(g, ch)
    ensures Steady(a, a.(sect := SectorOf(g, ch, j)), g, ch)
  {
  }

  lemma SteadyOn(a: Marks, b: Marks, c: Marks, g: Geometry, ch: seq<nat>, ch': seq<nat>)
    requires Steady(a, b, g, ch) && Steady(b, c, g, ch') && ch <= ch' && ChainIn(g, ch')
    ensures Steady(a, c, g, ch')
  {
    hide CountTrusted;
    if b.sect != a.sect {
      InFileGrows(g, ch, ch', b.sect);
    }
  }

  lemma InFileGrows(g: Geometry, ch: seq<nat>, ch': seq<nat>, s: nat)
    requires InFile(g, ch, s) && ch <= ch' && ChainIn(g, ch')
    ensures InFile(g, ch', s)
  {
    hide SectorOf, Sectors;
    var j :| 0 <= j < Sectors(g, ch) && s == SectorOf(g, ch, j);
    SectorOfPrefix(g, ch, ch', j);
  }

  /** The buffer holds a sector of the medium, or newer data of a sector of the file. */
  ghost predicate BufferOk(d: Disk, g: Geometry, ch: seq<nat>, winsect: nat, sect: nat, dirty: bool, buf: seq<byte>)
    requires DiskOk(d, g) && ChainIn(g, ch)
  {
    && |buf| == SS && sect < |d|
    && OutsideChain(g, ch, winsect)
    && (sect != 0 ==> OutsideFats(g, sect, 1) && winsect != sect)
    && (!dirty && sect != 0 ==> buf == d[sect])
    && (dirty ==> exists j :: 0 <= j < Sectors(g, ch) && sect == SectorOf(g, ch, j))
  }

  /** `FIL`. `ch` is the cluster chain the FAT holds for the file. */
  class File {
    const fs: Volume
    const buf: array<byte>
    const canRead: bool
    const canWrite: bool
    var fptr: nat        // read/write position
    var objsize: nat     // file size
    var sclust: nat      // first cluster, 0 when there is none
    var clust: nat       // current cluster
    var sect: nat        // sector in the buffer, 0 when there is none
    var dirty: bool      // buffer is to be written back
    var modified: bool   // directory entry is to be updated
    ghost var ch: seq<nat>

    /** The object `f_open` leaves behind for an existing file with first cluster `sclust` and size `objsize`. */
    constructor Open(fs: Volume, sclust: nat, objsize: nat, canRead: bool, canWrite: bool, ghost ch: seq<nat>)
      requires fs.Valid() && fs.g.csize > 0 && NoError(fs.Fat()) && ChainOrNone(fs.Fat(), ch) && ChainIn(fs.g, ch)
      requires (sclust == 0 <==> ch == []) && (ch != [] ==> ch[0] == sclust)
      requires objsize <= SS * Sectors(fs.g, ch) && objsize < TWO32
      requires OutsideChain(fs.g, ch, fs.winsect)
      ensures this.fs == fs && this.ch == ch && fresh(buf)
      ensures this.canRead == canRead && this.canWrite == canWrite && this.objsize == objsize && fptr == 0
      ensures Ok()
    {
      this.fs, this.canRead, this.canWrite := fs, canRead, canWrite;
      this.buf := new byte[SS](i => 0);
      this.fptr, this.objsize, this.sclust, this.clust, this.sect := 0, objsize, sclust, 0, 0;
      this.dirty, this.modified := false, false;
      this.ch := ch;
      new;
      assert |fs.disk| > 0;
    }

    /** Drive, chain and buffer fit together. */
    ghost predicate Core()
      reads this, buf, fs, fs.win
    {
      && fs.Valid() && buf != fs.win && buf.Length == SS && fs.g.csize > 0
      && NoError(fs.Fat())
      && ChainOrNone(fs.Fat(), ch) && ChainIn(fs.g, ch)
      && BufferOk(fs.Abs(), fs.g, ch, fs.winsect, sect, dirty, buf[..])
    }

    ghost predicate Start()
      reads this
    {
      (sclust == 0 <==> ch == []) && (ch != [] ==> ch[0] == sclust)
    }

    ghost predicate Sized()
      reads this, fs
    {
      objsize <= SS * Sectors(fs.g, ch) && objsize < TWO32 && fptr <= objsize
    }

    /** `clust` and `sect` belong to the position. */
    ghost predicate Placed()
      requires ChainIn(fs.g, ch)
      reads this, fs
    {
      && (fptr > 0 ==> Quot((fptr - 1) / SS, fs.g.csize) < |ch| && clust == ch[Quot((fptr - 1) / SS, fs.g.csize)])
      && (fptr % SS != 0 ==> fptr / SS < Sectors(fs.g, ch) && sect == SectorOf(fs.g, ch, fptr / SS))
    }

    ghost predicate Ok()
      reads this, buf, fs, fs.win
    {
      Core() && Start() && Sized() && Placed()
    }

    ghost function Book(): Marks
      requires fs.WindowOk()
      reads this, fs, fs.win
    {
      Marks(fs.Fat(), fs.freeClst, fs.winsect, sect)
    }

    /** The sectors of the file. */
    ghost function Vw(): (v: seq<seq<byte>>)
      requires Core()
      reads this, buf, fs, fs.win
      ensures |v| == Sectors(fs.g, ch) && AllSectors(v)
    {
      View(fs.Abs(), fs.g, ch, sect, buf[..])
    }

    /** The file as a byte sequence. */
    ghost function Content(): (s: seq<byte>)
      requires Core() && Sized()
      reads this, buf, fs, fs.win
      ensures |s| == objsize
    {
      Flat(Vw())[..objsize]
    }

    // ----- the buffer

    /** Writes the dirty buffer back. */
    method Flush()
      requires Core()
      modifies this`dirty, fs`disk
      ensures Core() && !dirty
      ensures Vw() == old(Vw())
      ensures fs.Fat() == old(fs.Fat()) && FileOnly(old(fs.Abs()), fs.Abs(), fs.g, ch)
      ensures Mirrored(old(fs.Abs()), fs.g) ==> Mirrored(fs.Abs(), fs.g)
    {
      hide Volume.Abs, Volume.Fat, DiskOk, Geometry.Valid, View, NoError, ChainOrNone, ChainIn, OutsideChain, Mirrored;
      ghost var d: Disk := fs.Abs();
      FlushFacts(d, fs.g, ch, fs.winsect, sect, dirty, buf[..]);
      if dirty {
        fs.DiskWrite(sect, [buf[..]]);
        dirty := false;
        assert fs.Abs() == d[sect := buf[..]];
      }
    }

    /** Fills the clean buffer with another sector of the file. */
    method Load(s: nat, ghost j: nat)
      requires Core() && !dirty
      requires j < Sectors(fs.g, ch) && s == SectorOf(fs.g, ch, j)
      modifies this`sect, buf
      ensures Core() && sect == s && Vw() == old(Vw())
    {
      hide Volume.Abs, Volume.Fat, DiskOk, Geometry.Valid, View, NoError, ChainOrNone, ChainIn, OutsideChain, SectorOf, Sectors;
      LoadFacts(fs.Abs(), fs.g, ch, fs.winsect, sect, buf[..], s, j);
      var w := fs.DiskRead(s, 1);
      forall i | 0 <= i < SS { buf[i] := w[0][i]; }
      assert buf[..] == w[0];
      sect := s;
    }

    /** Makes `s` the buffered sector and copies `data` into the buffer at offset `o`. On the growing
        edge of the file the buffer still holds another, clean sector. */
    method Store(s: nat, o: nat, data: seq<byte>, ghost j: nat)
      requires Core() && o + |data| <= SS
      requires j < Sectors(fs.g, ch) && s == SectorOf(fs.g, ch, j)
      requires sect == s || !dirty
      modifies this`sect, this`dirty, buf
      ensures Core() && sect == s && dirty
      ensures Vw() == old(Vw())[j := Splice(old(buf[..]), o, data)]
      ensures old(sect) == s ==> old(buf[..]) == old(Vw())[j]
    {
      hide Volume.Abs, Volume.Fat, DiskOk, Geometry.Valid, View, NoError, ChainOrNone, ChainIn, OutsideChain, SectorOf, Sectors, Quot, Rem;
      ghost var was := buf[..];
      sect := s;
      forall i | 0 <= i < |data| { buf[o + i] := data[i]; }
      dirty := true;
      assert buf[..] == Splice(was, o, data);
      StoreFacts(fs.Abs(), fs.g, ch, fs.winsect, old(sect), old(dirty), was, s, j, buf[..]);
    }

    /** Writes whole sectors past the buffer and refreshes the buffer if it holds one of them. */
    method WriteDirect(s: nat, w: seq<seq<byte>>, ghost j: nat)
      requires Core() && !dirty && AllSectors(w) && |w| > 0
      requires j < Sectors(fs.g, ch) && s == SectorOf(fs.g, ch, j) && Rem(j, fs.g.csize) + |w| <= fs.g.csize
      modifies this`dirty, buf, fs`disk
      ensures Core() && !dirty
      ensures j + |w| <= |old(Vw())| && Vw() == Overwrite(old(Vw()), j, w)
      ensures fs.Fat() == old(fs.Fat()) && FileOnly(old(fs.Abs()), fs.Abs(), fs.g, ch)
      ensures Mirrored(old(fs.Abs()), fs.g) ==> Mirrored(fs.Abs(), fs.g)
    {
      hide Volume.Abs, Volume.Fat, DiskOk, Geometry.Valid, View, NoError, ChainOrNone, ChainIn, OutsideChain, SectorOf, Sectors, Quot, Rem, Mirrored, WriteRun;
      ghost var d: Disk := fs.Abs();
      GeometryFacts(d, fs.g);
      DirectFacts(d, fs.g, ch, fs.winsect, sect, buf[..], s, j, w);
      fs.DiskWrite(s, w);
      if WrapLess(sect, s, |w|) {
        var c := w[sect - s];
        forall i | 0 <= i < SS { buf[i] := c[i]; }
        assert buf[..] == c;
        dirty := false;
      }
    }

    /** Reads whole sectors past the buffer; a dirty buffered sector replaces what the medium holds. */
    method ReadDirect(s: nat, c: nat, ghost j: nat) returns (w: seq<seq<byte>>)
      requires Core() && c > 0
      requires j < Sectors(fs.g, ch) && s == SectorOf(fs.g, ch, j) && Rem(j, fs.g.csize) + c <= fs.g.csize
      ensures j + c <= |Vw()| && w == Vw()[j..j + c]
    {
      hide Volume.Abs, Volume.Fat, DiskOk, Geometry.Valid, View, NoError, ChainOrNone, ChainIn, OutsideChain, SectorOf, Sectors, Quot, Rem, Mirrored;
      GeometryFacts(fs.Abs(), fs.g);
      RunFacts(fs.Abs(), fs.g, ch, fs.winsect, s, j, c);
      w := fs.DiskRead(s, c);
      if dirty && WrapLess(sect, s, c) {
        w := w[sect - s := buf[..]];
      }
      ViewRead(fs.Abs(), fs.g, ch, sect, buf[..], j, c, w);
    }

    // ----- the chain

    /** `create_chain` behind element `i` of the chain, or for an empty file when `clst0` is 0:
        follows the chain or appends one free cluster to it. */
    method Grow(clst0: nat, ghost i: nat) returns (res: nat)
      requires Core() && if clst0 == 0 then ch == [] else i < |ch| && clst0 == ch[i]
      modifies this`ch, fs, fs.win
      ensures Core() && old(ch) <= ch && old(Vw()) <= Vw()
      ensures Steady(old(Book()), Book(), fs.g, ch)
      ensures OthersKept(old(fs.Fat()), old(ch), fs.Fat(), ch)
      ensures FileOnly(old(fs.Abs()), fs.Abs(), fs.g, ch)
      ensures Mirrored(old(fs.Abs()), fs.g) ==> Mirrored(fs.Abs(), fs.g)
      ensures res == 0 ==> ch == old(ch) && DiskFull(fs.freeClst, fs.Fat()) && fs.Fat() == old(fs.Fat())
                           && (clst0 != 0 ==> i == |ch| - 1)
      ensures res != 0 ==>
        var k := if clst0 == 0 then 0 else i + 1;
        k < |ch| && res == ch[k] && 2 <= res < fs.g.nFatent && (k < |old(ch)| ==> ch == old(ch))
    {
      hide Volume.Abs, TableOf, DiskOk, Geometry.Valid, Geometry.EntryMod, View, BufferOk, Mirrored, FileOnly, Chosen,
           NoError, IsChain, OthersKept, ChainIn, SectorOf, Sectors, SameOutsideFats, Steady, CountTrusted, Linked;
      GeometryFacts(fs.Abs(), fs.g);
      ghost var d: Disk, fat, c0, w0, free, book := fs.Abs(), fs.Fat(), ch, fs.winsect, fs.freeClst, Book();
      GrowSettled(fat, ch, clst0, i);
      res := CreateChain(fs, clst0);
      if res >= 2 && !Settled(fat, clst0) {
        ch := ch + [res];
        ChosenIsFree(fat, old(fs.lastClst), clst0, res);
        GrowChain(fat, c0, clst0, res, fs.g.Eoc());
        ChainIsIn(fs.Fat(), fs.g, ch);
      } else {
        OthersKeptRefl(fat, ch);
      }
      GrowSteady(book, Book(), fs.g, ch, clst0, res, !Settled(fat, clst0) && res >= 2);
      GrowFacts(d, fs.Abs(), fs.g, c0, ch, w0, fs.winsect, sect, dirty, buf[..]);
    }
  }

  /** The unsigned 32-bit comparison `a - b < c`. */
  function WrapLess(a: nat, b: nat, c: nat): (r: bool)
    requires a < TWO32 && b + c <= TWO32
    ensures r == (b <= a < b + c)
  {
    (a - b) % TWO32 < c
  }

  lemma FlushFacts(d: Disk, g: Geometry, ch: seq<nat>, winsect: nat, sect: nat, dirty: bool, buf: seq<byte>)
    requires DiskOk(d, g) && ChainIn(g, ch) && BufferOk(d, g, ch, winsect, sect, dirty, buf)
    ensures FileOnly(d, d, g, ch)
    ensures dirty ==>
      && sect != 0 && OutsideFats(g, sect, 1) && WriteRun(d, sect, [buf]) == d[sect := buf]
      && DiskOk(d[sect := buf], g)
      && View(d[sect := buf], g, ch, sect, buf) == View(d, g, ch, sect, buf)
      && FileOnly(d, d[sect := buf], g, ch)
  {
    hide View, SectorOf, Sectors, ChainIn;
    if dirty {
      var j :| 0 <= j < Sectors(g, ch) && sect == SectorOf(g, ch, j);
      SectorOfInData(g, |d|, ch, j);
      ViewFlush(d, g, ch, sect, buf);
      forall s | 0 <= s < |d| && OutsideChain(g, ch, s)
        ensures s != sect
      {
        SectorOfInChain(g, ch, j, s);
      }
    }
  }

  lemma LoadFacts(d: Disk, g: Geometry, ch: seq<nat>, winsect: nat, sect: nat, buf: seq<byte>, s: nat, j: nat)
    requires DiskOk(d, g) && ChainIn(g, ch) && BufferOk(d, g, ch, winsect, sect, false, buf)
    requires j < Sectors(g, ch) && s == SectorOf(g, ch, j)
    ensures s + 1 <= |d| && OutsideFats(g, s, 1) && winsect != s && |d[s]| == SS
    ensures BufferOk(d, g, ch, winsect, s, false, d[s])
    ensures View(d, g, ch, s, d[s]) == View(d, g, ch, sect, buf)
  {
    hide View, SectorOf, Sectors, ChainIn;
    SectorOfInData(g, |d|, ch, j);
    SectorOfInChain(g, ch, j, winsect);
    ViewLoad(d, g, ch, sect, buf, s);
  }

  lemma StoreFacts(d: Disk, g: Geometry, ch: seq<nat>, winsect: nat, sect: nat, dirty: bool, buf: seq<byte>,
                   s: nat, j: nat, buf': seq<byte>)
    requires DiskOk(d, g) && ChainIn(g, ch) && BufferOk(d, g, ch, winsect, sect, dirty, buf) && |buf'| == SS
    requires j < Sectors(g, ch) && s == SectorOf(g, ch, j) && (sect == s || !dirty)
    ensures BufferOk(d, g, ch, winsect, s, true, buf')
    ensures View(d, g, ch, s, buf') == View(d, g, ch, sect, buf)[j := buf']
    ensures sect == s ==> buf == View(d, g, ch, sect, buf)[j]
  {
    hide View, SectorOf, Sectors, ChainIn;
    SectorOfInData(g, |d|, ch, j);
    SectorOfInChain(g, ch, j, winsect);
    if sect != s {
      ViewLoad(d, g, ch, sect, buf, s);
      ViewPoke(d, g, ch, s, d[s], buf', j);
    } else {
      ViewPoke(d, g, ch, s, buf, buf', j);
    }
  }

  /** A run of sectors in one cluster of the file avoids the FATs and the window. */
  lemma RunFacts(d: Disk, g: Geometry, ch: seq<nat>, winsect: nat, s: nat, j: nat, c: nat)
    requires DiskOk(d, g) && ChainIn(g, ch) && OutsideChain(g, ch, winsect) && c > 0
    requires j < Sectors(g, ch) && s == SectorOf(g, ch, j) && Rem(j, g.csize) + c <= g.csize
    ensures 0 < s && s + c <= |d| && OutsideFats(g, s, c) && !(s <= winsect < s + c)
    ensures forall t :: s <= t < s + c ==> !OutsideChain(g, ch, t)
  {
    hide SectorOf, Sectors, ChainIn, Rem, OutsideChain;
    SectorOfRun(g, ch, j, c - 1);
    SectorOfInData(g, |d|, ch, j);
    SectorOfInData(g, |d|, ch, j + (c - 1));
    forall t | s <= t < s + c
      ensures !OutsideChain(g, ch, t)
    {
      SectorOfRun(g, ch, j, t - s);
      if OutsideChain(g, ch, t) {
        SectorOfInChain(g, ch, j + (t - s), t);
      }
    }
  }

  lemma DirectFacts(d: Disk, g: Geometry, ch: seq<nat>, winsect: nat, sect: nat, buf: seq<byte>,
                    s: nat, j: nat, w: seq<seq<byte>>)
    requires DiskOk(d, g) && ChainIn(g, ch) && BufferOk(d, g, ch, winsect, sect, false, buf)
    requires AllSectors(w) && |w| > 0
    requires j < Sectors(g, ch) && s == SectorOf(g, ch, j) && Rem(j, g.csize) + |w| <= g.csize
    ensures s + |w| <= |d| && OutsideFats(g, s, |w|) && !(s <= winsect < s + |w|)
    ensures DiskOk(WriteRun(d, s, w), g) && j + |w| <= Sectors(g, ch)
    ensures var buf' := if s <= sect < s + |w| then w[sect - s] else buf;
      && BufferOk(WriteRun(d, s, w), g, ch, winsect, sect, false, buf')
      && View(WriteRun(d, s, w), g, ch, sect, buf') == Overwrite(View(d, g, ch, sect, buf), j, w)
    ensures FileOnly(d, WriteRun(d, s, w), g, ch)
  {
    hide View, SectorOf, Sectors, ChainIn, Rem, OutsideChain;
    RunFacts(d, g, ch, winsect, s, j, |w|);
    ViewDirect(d, g, ch, sect, buf, if s <= sect < s + |w| then w[sect - s] else buf, j, w);
  }

  lemma OthersKeptRefl(fat: seq<nat>, ch: seq<nat>)
    ensures OthersKept(fat, ch, fat, ch)
  {
  }

  lemma ChosenIsFree(fat: seq<nat>, last: nat, clst: nat, ncl: nat)
    requires |fat| > 2 && Chosen(fat, last, clst, ncl)
    ensures 2 <= ncl < |fat| && fat[ncl] == 0
  {
  }

  /** Inside a chain `create_chain` returns the next element, at its end it looks for a cluster. */
  lemma GrowSettled(fat: seq<nat>, ch: seq<nat>, clst0: nat, i: nat)
    requires NoError(fat) && ChainOrNone(fat, ch)
    requires if clst0 == 0 then ch == [] else i < |ch| && clst0 == ch[i]
    ensures clst0 != 0 ==> 2 <= clst0 < |fat| && (Settled(fat, clst0) <==> i < |ch| - 1)
    ensures Settled(fat, clst0) ==> i + 1 < |ch| && SettledResult(fat, clst0) == ch[i + 1] >= 2
  {
    if clst0 != 0 && i < |ch| - 1 {
      assert fat[ch[i]] == ch[i + 1];
    }
  }

  lemma GrowChain(fat: seq<nat>, ch: seq<nat>, clst0: nat, ncl: nat, eoc: nat)
    requires 2 <= ncl < |fat| < eoc && fat[ncl] == 0 && NoError(fat) && ChainOrNone(fat, ch)
    requires if clst0 == 0 then ch == [] else |ch| > 0 && clst0 == ch[|ch| - 1] && clst0 < |fat|
    ensures IsChain(Linked(fat, clst0, ncl, eoc), ch + [ncl])
    ensures NoError(Linked(fat, clst0, ncl, eoc))
    ensures OthersKept(fat, ch, Linked(fat, clst0, ncl, eoc), ch + [ncl])
  {
    hide IsChain, NoError;
    var fat' := Linked(fat, clst0, ncl, eoc);
    GrowIsChain(fat, ch, clst0, ncl, eoc);
    forall o: seq<nat> | IsChain(fat, o) && Disjoint(o, ch)
      ensures IsChain(fat', o) && Disjoint(o, ch + [ncl])
    {
      NotInChain(fat, o, ncl);
      assert clst0 != 0 ==> clst0 in ch;
      ChainKeptHere(fat, fat', o, clst0, ncl);
    }
  }

  lemma ChainKeptHere(fat: seq<nat>, fat': seq<nat>, o: seq<nat>, clst0: nat, ncl: nat)
    requires IsChain(fat, o) && |fat'| == |fat| && ncl !in o && (clst0 == 0 || clst0 !in o)
    requires forall c :: 0 <= c < |fat| && c != clst0 && c != ncl ==> fat'[c] == fat[c]
    ensures IsChain(fat', o)
  {
    forall c | c in o && c < |fat|
      ensures fat'[c] == fat[c]
    {
    }
    ChainKept(fat, fat', o);
  }

  lemma GrowIsChain(fat: seq<nat>, ch: seq<nat>, clst0: nat, ncl: nat, eoc: nat)
    requires 2 <= ncl < |fat| < eoc && fat[ncl] == 0 && NoError(fat) && ChainOrNone(fat, ch)
    requires if clst0 == 0 then ch == [] else |ch| > 0 && clst0 == ch[|ch| - 1] && clst0 < |fat|
    ensures IsChain(Linked(fat, clst0, ncl, eoc), ch + [ncl])
    ensures NoError(Linked(fat, clst0, ncl, eoc))
  {
    if clst0 == 0 {
    } else {
      NotInChain(fat, ch, ncl);
      StretchedIsChain(fat, ch, ncl, eoc);
    }
  }

  lemma GrowSteady(a: Marks, b: Marks, g: Geometry, ch: seq<nat>, clst0: nat, ncl: nat, taken: bool)
    requires |a.fat| == g.nFatent && 3 <= g.nFatent < g.Eoc() && b.sect == a.sect
    requires b.window == a.window || g.InFirstFat(b.window)
    requires if taken then
               && 2 <= ncl < |a.fat| && a.fat[ncl] == 0 && a.free != 0
               && (clst0 == 0 || (2 <= clst0 < |a.fat| && a.fat[clst0] != 0))
               && b.fat == Linked(a.fat, clst0, ncl, g.Eoc())
               && b.free == (if a.free <= |a.fat| - 2 then a.free - 1 else a.free)
             else b.fat == a.fat && b.free == a.free
    ensures Steady(a, b, g, ch)
  {
    hide Linked;
    if taken && CountTrusted(a.free, a.fat) {
      CreateKeepsCount(a.fat, clst0, ncl, g.Eoc(), a.free);
    }
  }

  /** Buffer and contents after the FAT changed and the chain grew. */
  lemma GrowFacts(d: Disk, d': Disk, g: Geometry, ch: seq<nat>, ch': seq<nat>, winsect: nat, winsect': nat,
                  sect: nat, dirty: bool, buf: seq<byte>)
    requires DiskOk(d, g) && DiskOk(d', g) && FatOnly(d, d', g)
    requires ChainIn(g, ch) && ChainIn(g, ch') && ch <= ch'
    requires BufferOk(d, g, ch, winsect, sect, dirty, buf)
    requires g.InFirstFat(winsect') || (winsect' == winsect && ch' == ch)
    ensures BufferOk(d', g, ch', winsect', sect, dirty, buf)
    ensures View(d, g, ch, sect, buf) <= View(d', g, ch', sect, buf)
    ensures FileOnly(d, d', g, ch')
    ensures Mirrored(d, g) ==> Mirrored(d', g)
  {
    hide View, SectorOf, Sectors, ChainIn, OutsideChain, Mirrored;
    ViewGrow(d, d', g, ch, ch', sect, buf);
    if g.InFirstFat(winsect') {
      FatOutsideChain(g, |d|, ch', winsect');
    }
    if dirty {
      var j :| 0 <= j < Sectors(g, ch) && sect == SectorOf(g, ch, j);
      SectorOfPrefix(g, ch, ch', j);
    }
  }
}
