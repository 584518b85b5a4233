/** `f_read`, `f_write`, `f_lseek` and `f_truncate`. */
module FileOps {
  import opened Words
  import opened Layout
  import opened Drive
  import opened Volumes
  import opened Chains
  import opened Allocator
  import opened AllocatorProofs
  import opened FileView
  import opened FileObjects

  /** The chain of the file may have grown; nothing outside the file and the FATs changed. */
  twostate predicate Confined(fp: File)
    requires old(fp.fs.Valid()) && fp.fs.Valid()
    reads fp, fp.fs, fp.fs.win
  {
    && old(fp.ch) <= fp.ch
    && OthersKept(old(fp.fs.Fat()), old(fp.ch), fp.fs.Fat(), fp.ch)
    && FileOnly(old(fp.fs.Abs()), fp.fs.Abs(), fp.fs.g, fp.ch)
    && (Mirrored(old(fp.fs.Abs()), fp.fs.g) ==> Mirrored(fp.fs.Abs(), fp.fs.g))
    && Steady(old(fp.Book()), fp.Book(), fp.fs.g, fp.ch)
  }

  /** `clust` is the cluster of file sector `j`. */
  ghost predicate AtSector(fp: File, j: nat)
    requires fp.fs.g.csize > 0
    reads fp
  {
    Quot(j, fp.fs.g.csize) < |fp.ch| && fp.clust == fp.ch[Quot(j, fp.fs.g.csize)]
  }

  /** The first part of a round of `f_write` on a cluster boundary: follow or stretch the chain. */
  method NextCluster(fp: File) returns (full: bool)
    requires fp.Ok() && fp.fptr % SS == 0 && Rem(fp.fptr / SS, fp.fs.g.csize) == 0
    modifies fp`ch, fp`clust, fp`sclust, fp.fs, fp.fs.win
    ensures fp.Core() && fp.Start() && fp.Sized() && Confined(fp)
    ensures old(fp.Vw()) <= fp.Vw()
    ensures full ==> fp.Ok() && fp.ch == old(fp.ch) && DiskFull(fp.fs.freeClst, fp.fs.Fat())
                     && fp.fs.Fat() == old(fp.fs.Fat()) && fp.fptr == SS * Sectors(fp.fs.g, fp.ch)
    ensures !full ==> AtSector(fp, fp.fptr / SS)
  {
    hide Volume.Abs, TableOf, Steady, DiskOk, Geometry.Valid, View, BufferOk, Mirrored, FileOnly, NoError, ChainOrNone,
         OthersKept, ChainIn, SectorOf, Sectors, Quot, Rem, DiskFull;
    ghost var j := fp.fptr / SS;
    ghost var q := Quot(j, fp.fs.g.csize);
    BoundaryPlace(fp, j);
    NothingChanged(fp.fs.Abs(), fp.fs.g, fp.fs.Fat(), fp.ch);
    BookSame(fp);
    var c;
    if fp.fptr == 0 {
      c := fp.sclust;
      if c == 0 {
        c := fp.Grow(0, 0);
      }
    } else {
      c := fp.Grow(fp.clust, q - 1);
    }
    SectorsGrow(fp.fs.g, old(fp.ch), fp.ch);
    full := c == 0;
    if full {
      return;
    }
    fp.clust := c;
    if fp.sclust == 0 {
      fp.sclust := c;
    }
  }

  lemma NothingChanged(d: Disk, g: Geometry, fat: seq<nat>, ch: seq<nat>)
    ensures FileOnly(d, d, g, ch) && OthersKept(fat, ch, fat, ch)
  {
  }

  lemma BookOf(fp: File)
    requires fp.fs.Valid()
    ensures Steady(fp.Book(), fp.Book(), fp.fs.g, [])
  {
    hide Volume.Abs, TableOf, DiskOk, CountTrusted;
    GeometryFacts(fp.fs.Abs(), fp.fs.g);
  }

  lemma BookSame(fp: File)
    requires fp.fs.Valid()
    ensures Steady(fp.Book(), fp.Book(), fp.fs.g, fp.ch)
  {
    hide Volume.Abs, TableOf, DiskOk, CountTrusted;
    GeometryFacts(fp.fs.Abs(), fp.fs.g);
  }

  /** What the position says about the chain on a cluster boundary. */
  lemma BoundaryPlace(fp: File, j: nat)
    requires fp.Ok() && fp.fptr == SS * j && Rem(j, fp.fs.g.csize) == 0
    ensures var q := Quot(j, fp.fs.g.csize);
      && (fp.fptr == 0 ==> q == 0)
      && (fp.fptr > 0 ==> 0 < q <= |fp.ch| && fp.clust == fp.ch[q - 1] >= 2)
      && (q == |fp.ch| ==> fp.fptr == SS * Sectors(fp.fs.g, fp.ch))
      && (fp.ch == [] ==> fp.fptr == 0)
  {
    hide Volume.Abs, Volume.Fat, Steady, DiskOk, Geometry.Valid, View, BufferOk, NoError, ChainOrNone, SectorOf, Quot, Rem;
    QuotRem(j, fp.fs.g.csize);
    if j > 0 {
      QuotRemPred(j, fp.fs.g.csize);
      assert (fp.fptr - 1) / SS == j - 1;
    }
  }

  /** Moves the position behind `n` transferred bytes. */
  method Advance(fp: File, n: nat)
    requires fp.Core() && fp.Start()
    modifies fp`fptr, fp`objsize
    ensures fp.Core() && fp.Start() && fp.Vw() == old(fp.Vw())
    ensures fp.fptr == old(fp.fptr) + n && fp.objsize == Max(old(fp.objsize), fp.fptr)
  {
    hide Volume.Abs, Volume.Fat, Steady, BufferOk, NoError, ChainOrNone, ChainIn, View;
    fp.fptr := fp.fptr + n;
    fp.objsize := if fp.fptr > fp.objsize then fp.fptr else fp.objsize;
  }

  /** The part of a round of `f_write` that goes through the buffer. */
  method PutBuffered(fp: File, s: nat, ghost j: nat, o: nat, data: seq<byte>)
    requires fp.Core() && fp.Start() && fp.Sized()
    requires fp.fptr == SS * j + o && o < SS && AtSector(fp, j)
    requires j < Sectors(fp.fs.g, fp.ch) && s == SectorOf(fp.fs.g, fp.ch, j)
    requires 0 < |data| <= SS - o && fp.fptr + |data| < TWO32
    requires if o == 0 then !fp.dirty else fp.sect == s
    modifies fp`sect, fp`dirty, fp`fptr, fp`objsize, fp.buf
    ensures fp.Ok() && (fp.sect == old(fp.sect) || fp.sect == s)
    ensures fp.fptr == old(fp.fptr) + |data| && fp.objsize == Max(old(fp.objsize), fp.fptr)
    ensures fp.Content() == Splice(old(fp.Content()), old(fp.fptr), data)
  {
    hide Volume.Abs, Volume.Fat, Steady, DiskOk, Geometry.Valid, View, BufferOk, NoError, ChainOrNone, ChainIn, SectorOf, Sectors,
         Quot, Rem, Flat, Splice;
    if o == 0 && fp.sect != s && fp.fptr < fp.objsize {
      fp.Load(s, j);
    }
    ghost var v, was, z := fp.Vw(), fp.buf[..], fp.objsize;
    fp.Store(s, o, data, j);
    ContentPoke(v, j, o, data, was, z);
    PlaceInSector(fp.fs.g, j, o, |data|);
    Advance(fp, |data|);
  }

  lemma PlaceInSector(g: Geometry, j: nat, o: nat, n: nat)
    requires g.csize > 0 && 0 < n && o + n <= SS
    ensures var p := SS * j + o + n;
      Quot((p - 1) / SS, g.csize) == Quot(j, g.csize) && (p % SS != 0 ==> p / SS == j)
  {
    var p := SS * j + o + n;
    assert (p - 1) / SS == j;
  }

  /** The part of a round of `f_write` that bypasses the buffer. */
  method PutDirect(fp: File, s: nat, ghost j: nat, data: seq<byte>)
    requires fp.Core() && fp.Start() && fp.Sized() && !fp.dirty
    requires fp.fptr == SS * j && AtSector(fp, j)
    requires j < Sectors(fp.fs.g, fp.ch) && s == SectorOf(fp.fs.g, fp.ch, j)
    requires |data| > 0 && |data| % SS == 0 && Rem(j, fp.fs.g.csize) + |data| / SS <= fp.fs.g.csize
    requires fp.fptr + |data| < TWO32
    modifies fp`dirty, fp`fptr, fp`objsize, fp.buf, fp.fs`disk
    ensures fp.Ok() && fp.fs.Fat() == old(fp.fs.Fat())
    ensures FileOnly(old(fp.fs.Abs()), fp.fs.Abs(), fp.fs.g, fp.ch)
    ensures Mirrored(old(fp.fs.Abs()), fp.fs.g) ==> Mirrored(fp.fs.Abs(), fp.fs.g)
    ensures fp.fptr == old(fp.fptr) + |data| && fp.objsize == Max(old(fp.objsize), fp.fptr)
    ensures fp.Content() == Splice(old(fp.Content()), old(fp.fptr), data)
  {
    hide Volume.Abs, Volume.Fat, Steady, DiskOk, Geometry.Valid, View, BufferOk, NoError, ChainOrNone, ChainIn, SectorOf, Sectors,
         Quot, Rem, Flat, Splice, Mirrored, FileOnly, Overwrite;
    ghost var v, z := fp.Vw(), fp.objsize;
    ChunksCount(data);
    fp.WriteDirect(s, Cut512(data), j);
    ContentOverwrite(v, j, data, z);
    PlaceAfterRun(fp.fs.g, j, |data|);
    Advance(fp, |data|);
  }

  /** The sectors handed to `disk_write`. */
  function Cut512(data: seq<byte>): (v: seq<seq<byte>>)
    requires |data| % SS == 0
    ensures v == Chunks(data)
  {
    seq(|data| / SS, i requires 0 <= i < |data| / SS => data[SS * i..SS * i + SS])
  }

  lemma ChunksCount(data: seq<byte>)
    requires |data| > 0 && |data| % SS == 0
    ensures |Chunks(data)| == |data| / SS > 0
  {
  }

  lemma PlaceAfterRun(g: Geometry, j: nat, n: nat)
    requires g.csize > 0 && n > 0 && n % SS == 0 && Rem(j, g.csize) + n / SS <= g.csize
    ensures var p := SS * j + n;
      Quot((p - 1) / SS, g.csize) == Quot(j, g.csize) && p % SS == 0
  {
    hide Quot, Rem;
    assert n == SS * (n / SS);
    PlaceAfter(g.csize, j, 0, n);
  }

  /** One round of the loop of `f_write`; 0 bytes when the volume is full. */
  method WriteStep(fp: File, rest: seq<byte>) returns (wcnt: nat)
    requires fp.Ok() && |rest| > 0 && fp.fptr + |rest| < TWO32
    modifies fp`ch, fp`clust, fp`sclust, fp`sect, fp`dirty, fp`fptr, fp`objsize, fp.buf, fp.fs, fp.fs.win
    ensures fp.Ok() && Confined(fp) && wcnt <= |rest|
    ensures fp.fptr == old(fp.fptr) + wcnt && fp.objsize == Max(old(fp.objsize), fp.fptr)
    ensures fp.Content() == Splice(old(fp.Content()), old(fp.fptr), rest[..wcnt])
    ensures wcnt == 0 ==> DiskFull(fp.fs.freeClst, fp.fs.Fat())
                          && fp.fs.Fat() == old(fp.fs.Fat()) && fp.fptr == SS * Sectors(fp.fs.g, fp.ch)
  {
    hide Volume.Abs, TableOf, Steady, DiskOk, Geometry.Valid, View, BufferOk, NoError, ChainOrNone, ChainIn, SectorOf, Sectors,
         Quot, Rem, Flat, Splice, Mirrored, FileOnly, OthersKept, DiskFull;
    NothingChanged(fp.fs.Abs(), fp.fs.g, fp.fs.Fat(), fp.ch);
    BookSame(fp);
    if fp.fptr % SS == 0 {
      wcnt := WriteAtBoundary(fp, rest);
    } else {
      ghost var j := fp.fptr / SS;
      MiddlePlace(fp, j);
      wcnt := SS - fp.fptr % SS;
      if wcnt > |rest| { wcnt := |rest|; }
      PutBuffered(fp, fp.sect, j, fp.fptr % SS, rest[..wcnt]);
    }
  }

  /** A position inside a sector is in the current cluster. */
  lemma MiddlePlace(fp: File, j: nat)
    requires fp.Ok() && fp.fptr % SS != 0 && j == fp.fptr / SS
    ensures AtSector(fp, j) && (fp.fptr - 1) / SS == j
  {
    hide Rem, Quot, Volume.Abs, Volume.Fat, BufferOk, ChainOrNone, ChainIn, NoError, SectorOf, Sectors, View;
    assert (fp.fptr - 1) / SS == j;
  }

  /** The place of a sector boundary once the chain reaches it. */
  lemma BoundaryReached(fp: File, total: nat, j: nat)
    requires fp.fs.g.Valid(total) && ChainIn(fp.fs.g, fp.ch) && AtSector(fp, j)
    ensures j < Sectors(fp.fs.g, fp.ch)
    ensures fp.fs.g.Clst2Sect(fp.clust) != 0 && fp.clust < TWO32
    ensures SectorOf(fp.fs.g, fp.ch, j) == fp.fs.g.Clst2Sect(fp.clust) + Rem(j, fp.fs.g.csize)
    ensures Rem(j, fp.fs.g.csize) < fp.fs.g.csize
  {
    hide Quot, Rem, Geometry.ClusterBase;
    QuotCovers(j, fp.fs.g.csize, |fp.ch|);
    QuotRem(j, fp.fs.g.csize);
    ClusterSectorInData(fp.fs.g, total, fp.clust, 0);
    DataPositive(fp.fs.g, total);
  }

  /** A sector boundary inside a cluster is in the current cluster. */
  lemma InnerBoundary(fp: File, j: nat)
    requires fp.Ok() && fp.fptr == SS * j && Rem(j, fp.fs.g.csize) != 0
    ensures AtSector(fp, j)
  {
    hide Rem, Quot, Volume.Abs, Volume.Fat, BufferOk, ChainOrNone, ChainIn, NoError, SectorOf, View;
    if j > 0 {
      QuotRemPred(j, fp.fs.g.csize);
      assert (fp.fptr - 1) / SS == j - 1;
    } else {
      QuotRemUnique(0, fp.fs.g.csize, 0, 0);
    }
  }

  /** A round that starts on a sector boundary. */
  method WriteAtBoundary(fp: File, rest: seq<byte>) returns (wcnt: nat)
    requires fp.Ok() && fp.fptr % SS == 0 && |rest| > 0 && fp.fptr + |rest| < TWO32
    modifies fp`ch, fp`clust, fp`sclust, fp`sect, fp`dirty, fp`fptr, fp`objsize, fp.buf, fp.fs, fp.fs.win
    ensures fp.Ok() && Confined(fp) && wcnt <= |rest|
    ensures fp.fptr == old(fp.fptr) + wcnt && fp.objsize == Max(old(fp.objsize), fp.fptr)
    ensures fp.Content() == Splice(old(fp.Content()), old(fp.fptr), rest[..wcnt])
    ensures wcnt == 0 ==> DiskFull(fp.fs.freeClst, fp.fs.Fat())
                          && fp.fs.Fat() == old(fp.fs.Fat()) && fp.fptr == SS * Sectors(fp.fs.g, fp.ch)
  {
    hide Volume.Abs, TableOf, Steady, DiskOk, Geometry.Valid, View, BufferOk, NoError, ChainOrNone, ChainIn, SectorOf, Sectors,
         Quot, Rem, Flat, Splice, Mirrored, FileOnly, OthersKept, DiskFull, IsChain;
    NothingChanged(fp.fs.Abs(), fp.fs.g, fp.fs.Fat(), fp.ch);
    BookSame(fp);
    SpliceNothing(fp.Content(), fp.fptr);
    ghost var v0, z, j := fp.Vw(), fp.objsize, fp.fptr / SS;
    var csect := Rem(fp.fptr / SS, fp.fs.g.csize);
    if csect == 0 {
      var full := NextCluster(fp);
      ContentGrow(v0, fp.Vw(), z);
      if full {
        assert rest[..0] == [];
        return 0;
      }
    } else {
      InnerBoundary(fp, j);
    }
    ghost var d: Disk, book := fp.fs.Abs(), fp.Book();
    wcnt := WriteSectors(fp, rest, csect);
    FileOnlyTrans(old(fp.fs.Abs()), d, fp.fs.Abs(), fp.fs.g, fp.ch, fp.ch);
    SteadyOn(old(fp.Book()), book, fp.Book(), fp.fs.g, fp.ch, fp.ch);
  }

  /** The round after the chain reaches the position. */
  method WriteSectors(fp: File, rest: seq<byte>, csect: nat) returns (wcnt: nat)
    requires fp.Core() && fp.Start() && fp.Sized() && fp.fptr % SS == 0 && |rest| > 0 && fp.fptr + |rest| < TWO32
    requires AtSector(fp, fp.fptr / SS) && csect == Rem(fp.fptr / SS, fp.fs.g.csize)
    modifies fp`sect, fp`dirty, fp`fptr, fp`objsize, fp.buf, fp.fs`disk
    ensures fp.Ok() && 0 < wcnt <= |rest| && Steady(old(fp.Book()), fp.Book(), fp.fs.g, fp.ch)
    ensures fp.fs.Fat() == old(fp.fs.Fat()) && FileOnly(old(fp.fs.Abs()), fp.fs.Abs(), fp.fs.g, fp.ch)
    ensures Mirrored(old(fp.fs.Abs()), fp.fs.g) ==> Mirrored(fp.fs.Abs(), fp.fs.g)
    ensures fp.fptr == old(fp.fptr) + wcnt && fp.objsize == Max(old(fp.objsize), fp.fptr)
    ensures fp.Content() == Splice(old(fp.Content()), old(fp.fptr), rest[..wcnt])
  {
    hide Volume.Abs, TableOf, Steady, DiskOk, Geometry.Valid, View, BufferOk, NoError, ChainOrNone, ChainIn, SectorOf, Sectors,
         Quot, Rem, Flat, Splice, Mirrored, FileOnly, Geometry.Clst2Sect;
    ghost var j := fp.fptr / SS;
    fp.Flush();
    GeometryFacts(fp.fs.Abs(), fp.fs.g);
    BoundaryReached(fp, |fp.fs.Abs()|, j);
    BookSame(fp);
    SteadyLoad(fp.Book(), fp.fs.g, fp.ch, j);
    var s := fp.fs.g.Clst2Sect(fp.clust);
    assert s != 0;   // FR_INT_ERR cannot happen
    s := s + csect;
    var cc := |rest| / SS;
    ghost var d: Disk := fp.fs.Abs();
    if cc > 0 {
      if csect + cc > fp.fs.g.csize {
        cc := fp.fs.g.csize - csect;
      }
      wcnt := SS * cc;
      PutDirect(fp, s, j, rest[..wcnt]);
    } else {
      wcnt := |rest|;
      PutBuffered(fp, s, j, 0, rest[..wcnt]);
    }
    FileOnlyTrans(old(fp.fs.Abs()), d, fp.fs.Abs(), fp.fs.g, fp.ch, fp.ch);
  }

  lemma ConfinedTrans(a: Disk, b: Disk, c: Disk, g: Geometry, fa: seq<nat>, fb: seq<nat>, fc: seq<nat>,
                      cha: seq<nat>, chb: seq<nat>, chc: seq<nat>)
    requires FileOnly(a, b, g, chb) && FileOnly(b, c, g, chc) && chb <= chc
    requires OthersKept(fa, cha, fb, chb) && OthersKept(fb, chb, fc, chc)
    ensures FileOnly(a, c, g, chc) && OthersKept(fa, cha, fc, chc)
  {
    hide FileOnly, OthersKept;
    FileOnlyTrans(a, b, c, g, chb, chc);
    OthersKeptTrans(fa, cha, fb, chb, fc, chc);
  }

  /** The number of bytes `f_write` tries to write: a file cannot reach 4 GiB. */
  function Clip(fptr: nat, btw: nat): (n: nat)
    requires fptr < TWO32 && btw < TWO32
    ensures n <= btw && fptr + n < TWO32
    ensures fptr + btw < TWO32 ==> n == btw
    ensures fptr + btw >= TWO32 ==> fptr + n == TWO32 - 1
  {
    if (fptr + btw) % TWO32 < fptr then TWO32 - 1 - fptr else btw
  }

  /** `f_write`: replaces or extends exactly the written range. Fewer bytes than asked for are
      written only when the chain is used up and no cluster is free. */
  method Write(fp: File, data: seq<byte>) returns (res: FileResult, bw: nat)
    requires fp.Ok() && |data| < TWO32
    modifies fp, fp.buf, fp.fs, fp.fs.win
    ensures fp.Ok() && Confined(fp)
    ensures res == if fp.canWrite then FileOk else Denied
    ensures res == Denied ==> bw == 0 && fp.Content() == old(fp.Content()) && fp.fptr == old(fp.fptr) && fp.ch == old(fp.ch)
    ensures res == FileOk ==>
      && bw <= Clip(old(fp.fptr), |data|)
      && fp.fptr == old(fp.fptr) + bw
      && fp.Content() == Splice(old(fp.Content()), old(fp.fptr), data[..bw])
      && fp.modified
    ensures res == FileOk && bw < Clip(old(fp.fptr), |data|) ==>
      fp.fptr == SS * Sectors(fp.fs.g, fp.ch) && DiskFull(fp.fs.freeClst, fp.fs.Fat())
  {
    hide Volume.Abs, TableOf, Steady, DiskOk, Geometry.Valid, View, BufferOk, NoError, ChainOrNone, ChainIn, SectorOf, Sectors,
         Quot, Rem, Flat, Splice, Mirrored, FileOnly, OthersKept, DiskFull;
    bw := 0;
    NothingChanged(fp.fs.Abs(), fp.fs.g, fp.fs.Fat(), fp.ch);
    BookSame(fp);
    if !fp.canWrite {
      return Denied, 0;
    }
    var btw := Clip(fp.fptr, |data|);
    ghost var c0, f0 := fp.Content(), fp.fptr;
    SpliceNothing(c0, f0);
    assert data[..0] == [];
    while bw < btw
      invariant bw <= btw && fp.Ok() && Confined(fp)
      invariant fp.fptr == f0 + bw && fp.Content() == Splice(c0, f0, data[..bw])
      decreases btw - bw
    {
      ghost var d: Disk, fat, ch, book := fp.fs.Abs(), fp.fs.Fat(), fp.ch, fp.Book();
      var wcnt := WriteStep(fp, data[bw..btw]);
      ConfinedTrans(old(fp.fs.Abs()), d, fp.fs.Abs(), fp.fs.g, old(fp.fs.Fat()), fat, fp.fs.Fat(), old(fp.ch), ch, fp.ch);
      SteadyOn(old(fp.Book()), book, fp.Book(), fp.fs.g, ch, fp.ch);
      WrittenOn(c0, f0, data, bw, btw, wcnt);
      if wcnt == 0 { break; }
      bw := bw + wcnt;
    }
    SetModified(fp);
    res := FileOk;
  }

  /** One round's bytes behind those of the rounds before. */
  lemma WrittenOn(c0: seq<byte>, f0: nat, data: seq<byte>, bw: nat, btw: nat, wcnt: nat)
    requires bw + wcnt <= btw <= |data| && f0 <= |c0|
    ensures f0 + bw <= |Splice(c0, f0, data[..bw])|
    ensures Splice(Splice(c0, f0, data[..bw]), f0 + bw, data[bw..btw][..wcnt]) == Splice(c0, f0, data[..bw + wcnt])
  {
    hide Splice;
    SpliceTwice(c0, f0, data[..bw], data[bw..btw][..wcnt]);
    assert data[..bw] + data[bw..btw][..wcnt] == data[..bw + wcnt];
  }

  method SetModified(fp: File)
    requires fp.Ok()
    modifies fp`modified
    ensures fp.Ok() && fp.modified && fp.Content() == old(fp.Content())
  {
    hide Volume.Abs, Volume.Fat, Steady, DiskOk, Geometry.Valid, View, BufferOk, NoError, ChainOrNone, ChainIn, SectorOf, Sectors, Quot, Rem, Flat;
    fp.modified := true;
  }

  // ----- reading

  /** The first part of a round of `f_read` on a cluster boundary: follow the chain. */
  method FollowCluster(fp: File)
    requires fp.Ok() && fp.fptr % SS == 0 && Rem(fp.fptr / SS, fp.fs.g.csize) == 0 && fp.fptr < fp.objsize
    modifies fp`clust, fp.fs, fp.fs.win
    ensures fp.Core() && fp.Start() && fp.Sized() && fp.Vw() == old(fp.Vw())
    ensures fp.fs.Fat() == old(fp.fs.Fat()) && fp.fs.Abs() == old(fp.fs.Abs())
    ensures AtSector(fp, fp.fptr / SS) && Steady(old(fp.Book()), fp.Book(), fp.fs.g, fp.ch)
  {
    hide Volume.Abs, TableOf, Steady, DiskOk, Geometry.Valid, View, BufferOk, Mirrored, NoError, ChainOrNone,
         ChainIn, SectorOf, Sectors, Quot, Rem;
    ghost var j := fp.fptr / SS;
    ghost var q := Quot(j, fp.fs.g.csize);
    ghost var w0, book := fp.fs.winsect, fp.Book();
    BookSame(fp);
    BoundaryPlace(fp, j);
    BoundaryInside(fp, j);
    var clst;
    if fp.fptr == 0 {
      clst := fp.sclust;
    } else {
      ChainNext(fp.fs.Fat(), fp.ch, q);
      clst := fp.fs.GetFat(fp.clust);
      WindowMoved(fp.fs.Abs(), fp.fs.g, fp.ch, w0, fp.fs.winsect, fp.sect, fp.dirty, fp.buf[..]);
      SteadyLooked(book, fp.fs.winsect, fp.fs.g, fp.ch);
    }
    assert clst >= 2;   // FR_INT_ERR cannot happen
    fp.clust := clst;
  }

  lemma ChainNext(fat: seq<nat>, ch: seq<nat>, q: nat)
    requires ChainOrNone(fat, ch) && 0 < q < |ch|
    ensures 2 <= ch[q - 1] < |fat| && fat[ch[q - 1]] == ch[q] >= 2
  {
    assert fat[ch[q - 1]] == ch[q - 1 + 1];
  }

  /** The chain covers every position before the end of the file. */
  lemma BoundaryInside(fp: File, j: nat)
    requires fp.Ok() && fp.fptr == SS * j && fp.fptr < fp.objsize
    ensures j < Sectors(fp.fs.g, fp.ch) && Quot(j, fp.fs.g.csize) < |fp.ch|
    ensures fp.ch != [] && fp.ch[0] >= 2
  {
    hide Volume.Abs, Volume.Fat, Steady, View, BufferOk, NoError, ChainOrNone, Quot;
    QuotInside(j, fp.fs.g.csize, |fp.ch|);
  }

  /** An entry of the FAT was looked up. */
  lemma SteadyLooked(a: Marks, window: nat, g: Geometry, ch: seq<nat>)
    requires Steady(a, a, g, ch) && (window == a.window || g.InFirstFat(window))
    ensures Steady(a, a.(window := window), g, ch)
  {
  }

  lemma WindowMoved(d: Disk, g: Geometry, ch: seq<nat>, winsect: nat, winsect': nat, sect: nat, dirty: bool, buf: seq<byte>)
    requires DiskOk(d, g) && ChainIn(g, ch) && BufferOk(d, g, ch, winsect, sect, dirty, buf)
    requires g.InFirstFat(winsect') || winsect' == winsect
    ensures BufferOk(d, g, ch, winsect', sect, dirty, buf)
  {
    FatOnlyRefl(d, g);
    GrowFacts(d, d, g, ch, ch, winsect, winsect', sect, dirty, buf);
  }

  /** One round of the loop of `f_read`. */
  method ReadStep(fp: File, btr: nat) returns (out: seq<byte>)
    requires fp.Ok() && 0 < btr && fp.fptr + btr <= fp.objsize
    modifies fp`clust, fp`sect, fp`dirty, fp`fptr, fp.buf, fp.fs, fp.fs.win
    ensures fp.Ok() && fp.fs.Fat() == old(fp.fs.Fat()) && FileOnly(old(fp.fs.Abs()), fp.fs.Abs(), fp.fs.g, fp.ch)
    ensures Mirrored(old(fp.fs.Abs()), fp.fs.g) ==> Mirrored(fp.fs.Abs(), fp.fs.g)
    ensures fp.Content() == old(fp.Content()) && Steady(old(fp.Book()), fp.Book(), fp.fs.g, fp.ch)
    ensures 0 < |out| <= btr && fp.fptr == old(fp.fptr) + |out|
    ensures out == fp.Content()[old(fp.fptr)..fp.fptr]
  {
    hide Volume.Abs, TableOf, Steady, DiskOk, Geometry.Valid, View, BufferOk, NoError, ChainOrNone, ChainIn, SectorOf, Sectors,
         Quot, Rem, Flat, Mirrored, FileOnly;
    NothingChanged(fp.fs.Abs(), fp.fs.g, fp.fs.Fat(), fp.ch);
    BookSame(fp);
    ghost var j := fp.fptr / SS;
    if fp.fptr % SS == 0 {
      var csect := Rem(fp.fptr / SS, fp.fs.g.csize);
      if csect == 0 {
        FollowCluster(fp);
      } else {
        InnerBoundary(fp, j);
      }
      ghost var book := fp.Book();
      out := ReadSectors(fp, btr, csect);
      SteadyOn(old(fp.Book()), book, fp.Book(), fp.fs.g, fp.ch, fp.ch);
    } else {
      MiddlePlace(fp, j);
      out := TakeBuffered(fp, j, fp.fptr % SS, btr);
    }
  }

  /** The part of a round of `f_read` that copies out of the buffer. */
  method TakeBuffered(fp: File, ghost j: nat, o: nat, btr: nat) returns (out: seq<byte>)
    requires fp.Core() && fp.Start() && fp.Sized()
    requires fp.fptr == SS * j + o && o < SS && AtSector(fp, j)
    requires j < Sectors(fp.fs.g, fp.ch) && fp.sect == SectorOf(fp.fs.g, fp.ch, j)
    requires 0 < btr && fp.fptr + btr <= fp.objsize
    modifies fp`fptr
    ensures fp.Ok() && fp.Content() == old(fp.Content()) && 0 < |out| <= btr && fp.fptr == old(fp.fptr) + |out|
    ensures out == fp.Content()[old(fp.fptr)..fp.fptr]
  {
    hide Volume.Abs, Volume.Fat, Steady, DiskOk, Geometry.Valid, View, BufferOk, NoError, ChainOrNone, ChainIn, SectorOf, Sectors,
         Quot, Rem, Flat;
    var rcnt := SS - o;
    if rcnt > btr { rcnt := btr; }
    out := fp.buf[o..o + rcnt];
    BufferedSector(fp, j);
    FlatPiece(fp.Vw(), j, o, rcnt);
    assert fp.buf[..][o..o + rcnt] == out;
    SliceOfPrefix(Flat(fp.Vw()), fp.objsize, fp.fptr, fp.fptr + rcnt);
    PlaceInSector(fp.fs.g, j, o, rcnt);
    SkipTo(fp, rcnt);
  }

  lemma SliceOfPrefix(f: seq<byte>, z: nat, a: nat, b: nat)
    requires a <= b <= z <= |f|
    ensures f[..z][a..b] == f[a..b]
  {
  }

  lemma BufferedSector(fp: File, j: nat)
    requires fp.Core() && j < Sectors(fp.fs.g, fp.ch) && fp.sect == SectorOf(fp.fs.g, fp.ch, j)
    ensures fp.Vw()[j] == fp.buf[..]
  {
    hide SectorOf, Sectors, Volume.Fat, Volume.Abs;
    ViewPoke(fp.fs.Abs(), fp.fs.g, fp.ch, fp.sect, fp.buf[..], fp.buf[..], j);
  }

  /** Moves the position by `n` bytes inside the file. */
  method SkipTo(fp: File, n: nat)
    requires fp.Core() && fp.Start()
    modifies fp`fptr
    ensures fp.Core() && fp.Start() && fp.Vw() == old(fp.Vw()) && fp.fptr == old(fp.fptr) + n
  {
    hide Volume.Abs, Volume.Fat, Steady, BufferOk, NoError, ChainOrNone, ChainIn, View;
    fp.fptr := fp.fptr + n;
  }

  /** The round after the chain was followed. */
  method ReadSectors(fp: File, btr: nat, csect: nat) returns (out: seq<byte>)
    requires fp.Core() && fp.Start() && fp.Sized() && fp.fptr % SS == 0 && 0 < btr && fp.fptr + btr <= fp.objsize
    requires AtSector(fp, fp.fptr / SS) && csect == Rem(fp.fptr / SS, fp.fs.g.csize)
    modifies fp`sect, fp`dirty, fp`fptr, fp.buf, fp.fs`disk
    ensures fp.Ok() && fp.fs.Fat() == old(fp.fs.Fat()) && FileOnly(old(fp.fs.Abs()), fp.fs.Abs(), fp.fs.g, fp.ch)
    ensures Mirrored(old(fp.fs.Abs()), fp.fs.g) ==> Mirrored(fp.fs.Abs(), fp.fs.g)
    ensures fp.Content() == old(fp.Content()) && Steady(old(fp.Book()), fp.Book(), fp.fs.g, fp.ch)
    ensures 0 < |out| <= btr && fp.fptr == old(fp.fptr) + |out|
    ensures out == fp.Content()[old(fp.fptr)..fp.fptr]
  {
    hide Volume.Abs, TableOf, Steady, DiskOk, Geometry.Valid, View, BufferOk, NoError, ChainOrNone, ChainIn, SectorOf, Sectors,
         Quot, Rem, Flat, Mirrored, FileOnly, Geometry.Clst2Sect;
    ghost var j := fp.fptr / SS;
    GeometryFacts(fp.fs.Abs(), fp.fs.g);
    BoundaryReached(fp, |fp.fs.Abs()|, j);
    NothingChanged(fp.fs.Abs(), fp.fs.g, fp.fs.Fat(), fp.ch);
    BookSame(fp);
    var s := fp.fs.g.Clst2Sect(fp.clust);
    assert s != 0;   // FR_INT_ERR cannot happen
    s := s + csect;
    var cc := btr / SS;
    if cc > 0 {
      if csect + cc > fp.fs.g.csize {
        cc := fp.fs.g.csize - csect;
      }
      out := TakeDirect(fp, s, j, cc);
    } else {
      if fp.sect != s {
        SteadyLoad(fp.Book(), fp.fs.g, fp.ch, j);
        fp.Flush();
        fp.Load(s, j);
      }
      out := TakeBuffered(fp, j, 0, btr);
    }
  }

  /** The part of a round of `f_read` that bypasses the buffer. */
  method TakeDirect(fp: File, s: nat, ghost j: nat, cc: nat) returns (out: seq<byte>)
    requires fp.Core() && fp.Start() && fp.Sized()
    requires fp.fptr == SS * j && AtSector(fp, j)
    requires j < Sectors(fp.fs.g, fp.ch) && s == SectorOf(fp.fs.g, fp.ch, j)
    requires 0 < cc && Rem(j, fp.fs.g.csize) + cc <= fp.fs.g.csize && fp.fptr + SS * cc <= fp.objsize
    modifies fp`fptr
    ensures fp.Ok() && fp.Content() == old(fp.Content()) && |out| == SS * cc && fp.fptr == old(fp.fptr) + |out|
    ensures out == fp.Content()[old(fp.fptr)..fp.fptr]
  {
    hide Volume.Abs, Volume.Fat, Steady, DiskOk, Geometry.Valid, View, BufferOk, NoError, ChainOrNone, ChainIn, SectorOf, Sectors,
         Quot, Rem, Flat;
    var w := fp.ReadDirect(s, cc, j);
    FlatRun(fp.Vw(), j, cc);
    SliceOfPrefix(Flat(fp.Vw()), fp.objsize, fp.fptr, fp.fptr + SS * cc);
    out := Joined(w);
    PlaceAfterRun(fp.fs.g, j, SS * cc);
    SkipTo(fp, SS * cc);
  }

  /** The bytes `disk_read` delivers. */
  function Joined(w: seq<seq<byte>>): (r: seq<byte>)
    requires AllSectors(w)
    ensures r == Flat(w)
  {
    seq(SS * |w|, k requires 0 <= k < SS * |w| && |w[k / SS]| == SS => w[k / SS][k % SS])
  }

  /** `f_read`: the bytes from the position on, as many as the file still has. */
  method Read(fp: File, btr0: nat) returns (res: FileResult, out: seq<byte>)
    requires fp.Ok()
    modifies fp, fp.buf, fp.fs, fp.fs.win
    ensures fp.Ok() && Confined(fp) && fp.ch == old(fp.ch) && fp.fs.Fat() == old(fp.fs.Fat())
    ensures fp.Content() == old(fp.Content())
    ensures res == if fp.canRead then FileOk else Denied
    ensures res == Denied ==> out == [] && fp.fptr == old(fp.fptr)
    ensures res == FileOk ==>
      && fp.fptr == (if old(fp.fptr) + btr0 < fp.objsize then old(fp.fptr) + btr0 else fp.objsize)
      && out == fp.Content()[old(fp.fptr)..fp.fptr]
  {
    hide Volume.Abs, TableOf, Steady, DiskOk, Geometry.Valid, View, BufferOk, NoError, ChainOrNone, ChainIn, SectorOf, Sectors,
         Quot, Rem, Flat, Mirrored, FileOnly, OthersKept;
    out := [];
    NothingChanged(fp.fs.Abs(), fp.fs.g, fp.fs.Fat(), fp.ch);
    BookSame(fp);
    if !fp.canRead {
      return Denied, [];
    }
    var btr: nat := btr0;
    var remain := fp.objsize - fp.fptr;
    if btr > remain { btr := remain; }
    ghost var c0, f0 := fp.Content(), fp.fptr;
    ghost var total := fp.fptr + btr;
    while btr > 0
      invariant fp.Ok() && Confined(fp) && fp.ch == old(fp.ch) && fp.fs.Fat() == old(fp.fs.Fat())
      invariant fp.objsize == old(fp.objsize)
      invariant fp.Content() == c0 && fp.fptr + btr == total && f0 <= fp.fptr && total <= fp.objsize
      invariant out == c0[f0..fp.fptr]
      decreases btr
    {
      ghost var d: Disk, book := fp.fs.Abs(), fp.Book();
      ghost var f := fp.fptr;
      var part := ReadStep(fp, btr);
      FileOnlyTrans(old(fp.fs.Abs()), d, fp.fs.Abs(), fp.fs.g, fp.ch, fp.ch);
      SteadyOn(old(fp.Book()), book, fp.Book(), fp.fs.g, fp.ch, fp.ch);
      assert c0[f0..f] + c0[f..fp.fptr] == c0[f0..fp.fptr];
      out := out + part;
      btr := btr - |part|;
    }
    res := FileOk;
  }

  // ----- seeking

  /** `clust` belongs to the position. */
  ghost predicate ClustPlaced(fp: File)
    requires fp.fs.g.csize > 0
    reads fp, fp.fs
  {
    fp.fptr > 0 ==> Quot((fp.fptr - 1) / SS, fp.fs.g.csize) < |fp.ch|
                    && fp.clust == fp.ch[Quot((fp.fptr - 1) / SS, fp.fs.g.csize)]
  }

  /** One step of the walk of `f_lseek`: the cluster behind element `i`, 0 when the volume is full. */
  method WalkOn(fp: File, clst: nat, ghost i: nat) returns (next: nat)
    requires fp.Core() && fp.Start() && i < |fp.ch| && clst == fp.ch[i] && clst >= 2
    requires fp.canWrite || i + 1 < |fp.ch|
    modifies fp`ch, fp.fs, fp.fs.win
    ensures fp.Core() && fp.Start() && Confined(fp) && old(fp.Vw()) <= fp.Vw()
    ensures !fp.canWrite ==> fp.ch == old(fp.ch)
    ensures next == 0 ==> fp.ch == old(fp.ch) && i == |fp.ch| - 1 && DiskFull(fp.fs.freeClst, fp.fs.Fat())
    ensures next != 0 ==> i + 1 < |fp.ch| && next == fp.ch[i + 1] && next >= 2
  {
    hide Volume.Abs, TableOf, Steady, DiskOk, Geometry.Valid, View, BufferOk, NoError, ChainOrNone, ChainIn, SectorOf, Sectors,
         Quot, Rem, Mirrored, FileOnly, OthersKept, DiskFull;
    NothingChanged(fp.fs.Abs(), fp.fs.g, fp.fs.Fat(), fp.ch);
    BookSame(fp);
    if fp.canWrite {
      next := fp.Grow(clst, i);
    } else {
      ghost var w0, book := fp.fs.winsect, fp.Book();
      ChainNext(fp.fs.Fat(), fp.ch, i + 1);
      next := fp.fs.GetFat(clst);
      WindowMoved(fp.fs.Abs(), fp.fs.g, fp.ch, w0, fp.fs.winsect, fp.sect, fp.dirty, fp.buf[..]);
      SteadyLooked(book, fp.fs.winsect, fp.fs.g, fp.ch);
    }
  }

  /** The loop of `f_lseek` from the start of cluster `i0` to byte `ofs0` behind it. */
  method Walk(fp: File, clst0: nat, ofs0: nat, ghost i0: nat) returns (clst: nat, ofs: nat)
    requires fp.Core() && fp.Start() && i0 < |fp.ch| && clst0 == fp.ch[i0] == fp.clust
    requires fp.fptr == SS * Times(fp.fs.g.csize, i0) && ofs0 > 0
    requires fp.canWrite || fp.fptr + ofs0 <= SS * Sectors(fp.fs.g, fp.ch)
    modifies fp`ch, fp`fptr, fp`clust, fp.fs, fp.fs.win
    ensures fp.Core() && fp.Start() && Confined(fp) && old(fp.Vw()) <= fp.Vw()
    ensures !fp.canWrite ==> fp.ch == old(fp.ch)
    ensures clst == 0 ==> ofs == 0 && fp.fptr == SS * Sectors(fp.fs.g, fp.ch) && DiskFull(fp.fs.freeClst, fp.fs.Fat())
                          && fp.fptr < old(fp.fptr) + ofs0 && fp.ch != [] && fp.clust == fp.ch[|fp.ch| - 1]
    ensures clst != 0 ==> 0 < ofs <= SS * fp.fs.g.csize && fp.fptr + ofs == old(fp.fptr) + ofs0 && clst == fp.clust
    ensures clst != 0 ==> exists i :: 0 <= i < |fp.ch| && clst == fp.ch[i] && fp.fptr == SS * Times(fp.fs.g.csize, i)
  {
    hide Volume.Abs, TableOf, Steady, DiskOk, Geometry.Valid, View, BufferOk, NoError, ChainOrNone, SectorOf, Quot, Rem,
         Mirrored, FileOnly, OthersKept, DiskFull, Times;
    NothingChanged(fp.fs.Abs(), fp.fs.g, fp.fs.Fat(), fp.ch);
    BookSame(fp);
    clst, ofs := clst0, ofs0;
    ghost var i: nat := i0;
    var bcs := fp.fs.g.csize * SS;
    while ofs > bcs
      invariant fp.Core() && fp.Start() && Confined(fp) && old(fp.Vw()) <= fp.Vw()
      invariant i < |fp.ch| && clst == fp.ch[i] == fp.clust && clst >= 2
      invariant fp.fptr == SS * Times(fp.fs.g.csize, i) && ofs > 0 && fp.fptr + ofs == old(fp.fptr) + ofs0
      invariant fp.canWrite || fp.ch == old(fp.ch)
      decreases ofs
    {
      ghost var d: Disk, fat, ch, book := fp.fs.Abs(), fp.fs.Fat(), fp.ch, fp.Book();
      TimesNext(fp.fs.g.csize, i, |fp.ch|);
      ofs := ofs - bcs;
      SkipTo(fp, bcs);
      clst := WalkOn(fp, clst, i);
      ConfinedTrans(old(fp.fs.Abs()), d, fp.fs.Abs(), fp.fs.g, old(fp.fs.Fat()), fat, fp.fs.Fat(), old(fp.ch), ch, fp.ch);
      SteadyOn(old(fp.Book()), book, fp.Book(), fp.fs.g, ch, fp.ch);
      if clst == 0 {
        ofs := 0;
        return;
      }
      SetClust(fp, clst);
      i := i + 1;
    }
  }

  lemma TimesNext(m: nat, i: nat, n: nat)
    requires i < n
    ensures Times(m, i + 1) == Times(m, i) + m
    ensures i + 1 < n ==> Times(m, i + 1) < Times(m, n) || m == 0
    ensures i + 1 == n ==> Times(m, n) == Times(m, i) + m
    ensures Times(m, i) + m <= Times(m, n)
  {
    TimesStep(m, i, n);
    if i + 1 < n {
      TimesStep(m, i + 1, n);
    }
  }

  method SetClust(fp: File, clst: nat)
    requires fp.Core() && fp.Start()
    modifies fp`clust
    ensures fp.Core() && fp.Start() && fp.Vw() == old(fp.Vw()) && fp.clust == clst
  {
    hide Volume.Abs, Volume.Fat, Steady, BufferOk, NoError, ChainOrNone, ChainIn, View;
    fp.clust := clst;
  }

  /** The part of `f_lseek` that finds the cluster of a nonzero target. */
  method SeekCluster(fp: File, target: nat) returns (nsect: nat)
    requires fp.Ok() && 0 < target && (fp.canWrite || target <= fp.objsize)
    modifies fp`ch, fp`fptr, fp`clust, fp`sclust, fp.fs, fp.fs.win
    ensures fp.Core() && fp.Start() && Confined(fp) && old(fp.Vw()) <= fp.Vw()
    ensures ClustPlaced(fp) && fp.fptr <= target && fp.fptr <= SS * Sectors(fp.fs.g, fp.ch)
    ensures fp.fptr % SS != 0 ==> fp.fptr / SS < Sectors(fp.fs.g, fp.ch) && nsect == SectorOf(fp.fs.g, fp.ch, fp.fptr / SS)
    ensures fp.fptr < target ==> fp.fptr == SS * Sectors(fp.fs.g, fp.ch) && DiskFull(fp.fs.freeClst, fp.fs.Fat())
    ensures !fp.canWrite ==> fp.ch == old(fp.ch) && fp.fptr == target
  {
    hide Volume.Abs, TableOf, Steady, DiskOk, Geometry.Valid, View, BufferOk, NoError, ChainOrNone, SectorOf, Sectors, Quot, Rem,
         Mirrored, FileOnly, OthersKept, DiskFull, Times, RoundDown, Geometry.Clst2Sect;
    NothingChanged(fp.fs.Abs(), fp.fs.g, fp.fs.Fat(), fp.ch);
    BookSame(fp);
    EmptyChain(fp);
    nsect := 0;
    ghost var i: nat;
    var clst: nat, ofs: nat;
    clst, ofs, i := SeekOrigin(fp, target);
    if clst != 0 {
      ghost var d: Disk, fat, ch, book := fp.fs.Abs(), fp.fs.Fat(), fp.ch, fp.Book();
      clst, ofs := Walk(fp, clst, ofs, i);
      ConfinedTrans(old(fp.fs.Abs()), d, fp.fs.Abs(), fp.fs.g, old(fp.fs.Fat()), fat, fp.fs.Fat(), old(fp.ch), ch, fp.ch);
      SteadyOn(old(fp.Book()), book, fp.Book(), fp.fs.g, ch, fp.ch);
      if clst == 0 {
        ChainEndPlace(fp);
      } else {
        GeometryFacts(fp.fs.Abs(), fp.fs.g);
        WalkedPlace(fp, |fp.fs.Abs()|, clst, ofs);
        SkipTo(fp, ofs);
        if ofs % SS != 0 {
          nsect := fp.fs.g.Clst2Sect(clst);
          assert nsect != 0;   // FR_INT_ERR cannot happen
          nsect := nsect + ofs / SS;
        }
      }
    }
  }

  /** Where the walk of `f_lseek` begins: the current cluster when the target is not before it,
      otherwise the first cluster, which is allocated for an empty file. */
  method SeekOrigin(fp: File, target: nat) returns (clst: nat, ofs: nat, ghost i: nat)
    requires fp.Ok() && 0 < target && (fp.canWrite || target <= fp.objsize)
    modifies fp`ch, fp`fptr, fp`clust, fp`sclust, fp.fs, fp.fs.win
    ensures fp.Core() && fp.Start() && Confined(fp) && old(fp.Vw()) <= fp.Vw()
    ensures !fp.canWrite ==> clst != 0 && fp.ch == old(fp.ch)
    ensures clst == 0 ==> fp.ch == [] && fp.fptr == 0 && DiskFull(fp.fs.freeClst, fp.fs.Fat())
    ensures clst != 0 ==> i < |fp.ch| && clst == fp.ch[i] == fp.clust && ofs > 0
                          && fp.fptr == SS * Times(fp.fs.g.csize, i) && fp.fptr + ofs == target
    ensures !fp.canWrite ==> target <= SS * Sectors(fp.fs.g, fp.ch)
  {
    hide Volume.Abs, TableOf, Steady, DiskOk, Geometry.Valid, View, BufferOk, NoError, ChainOrNone, ChainIn, SectorOf, Sectors, Times, Quot, Rem,
         Mirrored, FileOnly, OthersKept, DiskFull, RoundDown;
    NothingChanged(fp.fs.Abs(), fp.fs.g, fp.fs.Fat(), fp.ch);
    BookSame(fp);
    EmptyChain(fp);
    var bcs := fp.fs.g.csize * SS;
    var ifptr := fp.fptr;
    ofs := target;
    fp.fptr := 0;
    if ifptr > 0 {
      QuotScale(ifptr - 1, fp.fs.g.csize);
      QuotScale(target - 1, fp.fs.g.csize);
    }
    if ifptr > 0 && Quot(target - 1, bcs) >= Quot(ifptr - 1, bcs) {
      i := Quot((ifptr - 1) / SS, fp.fs.g.csize);
      RoundDownOrder(ifptr - 1, target - 1, fp.fs.g.csize);
      fp.fptr := RoundDown(ifptr - 1, bcs);
      ofs := ofs - fp.fptr;
      clst := fp.clust;
    } else {
      i := 0;
      clst := fp.sclust;
      if clst == 0 {
        clst := fp.Grow(0, 0);
        fp.sclust := clst;
      }
      fp.clust := clst;
    }
  }

  /** An empty chain holds an empty file; otherwise chain elements are cluster numbers. */
  lemma EmptyChain(fp: File)
    requires fp.Ok()
    ensures Sectors(fp.fs.g, []) == 0 && Times(fp.fs.g.csize, 0) == 0
    ensures fp.ch == [] ==> fp.objsize == 0
    ensures fp.sclust != 0 ==> fp.ch != []
    ensures fp.fptr > 0 ==> fp.clust != 0
  {
    hide Volume.Abs, Volume.Fat, Steady, View, BufferOk, NoError, ChainOrNone, Quot;
  }

  lemma RoundDownOrder(x: nat, y: nat, m: nat)
    requires m > 0 && Quot(y, SS * m) >= Quot(x, SS * m)
    ensures RoundDown(x, SS * m) <= y
  {
    hide Quot, RoundDown;
    QuotScale(x, m);
    QuotScale(y, m);
    var a, b := Quot(x / SS, m), Quot(y / SS, m);
    if a < b {
      TimesStep(m, a, b);
    }
  }

  /** At the end of the chain the position is just behind the last cluster. */
  lemma ChainEndPlace(fp: File)
    requires fp.fs.g.csize > 0 && fp.fptr == SS * Sectors(fp.fs.g, fp.ch)
    requires fp.ch != [] && fp.clust == fp.ch[|fp.ch| - 1]
    ensures ClustPlaced(fp) && fp.fptr % SS == 0
  {
    hide Quot, Rem;
    var i := |fp.ch| - 1;
    assert Times(fp.fs.g.csize, i + 1) == fp.fs.g.csize + Times(fp.fs.g.csize, i);
    LastByteCluster(fp.fs.g.csize, i, SS * fp.fs.g.csize);
  }

  /** The place `ofs` bytes behind the start of the cluster the walk ended in. */
  lemma WalkedPlace(fp: File, total: nat, clst: nat, ofs: nat)
    requires fp.fs.g.Valid(total) && ChainIn(fp.fs.g, fp.ch) && 0 < ofs <= SS * fp.fs.g.csize
    requires exists i :: 0 <= i < |fp.ch| && clst == fp.ch[i] && fp.fptr == SS * Times(fp.fs.g.csize, i)
    ensures var p := fp.fptr + ofs;
      && Quot((p - 1) / SS, fp.fs.g.csize) < |fp.ch| && clst == fp.ch[Quot((p - 1) / SS, fp.fs.g.csize)]
      && p <= SS * Sectors(fp.fs.g, fp.ch)
      && clst < TWO32 && fp.fs.g.Clst2Sect(clst) != 0
      && (p % SS != 0 <==> ofs % SS != 0)
      && (p % SS != 0 ==> p / SS < Sectors(fp.fs.g, fp.ch)
                          && SectorOf(fp.fs.g, fp.ch, p / SS) == fp.fs.g.Clst2Sect(clst) + ofs / SS)
  {
    hide Quot, Rem, Geometry.ClusterBase;
    var i :| 0 <= i < |fp.ch| && clst == fp.ch[i] && fp.fptr == SS * Times(fp.fs.g.csize, i);
    var p := fp.fptr + ofs;
    LastByteCluster(fp.fs.g.csize, i, ofs);
    TimesNext(fp.fs.g.csize, i, |fp.ch|);
    ClusterSectorInData(fp.fs.g, total, clst, 0);
    DataPositive(fp.fs.g, total);
    if ofs % SS != 0 {
      QuotCovers(p / SS, fp.fs.g.csize, |fp.ch|);
    }
  }

  /** `f_lseek`: keeps what the file held and extends it when the target lies behind its end; what the
      gap holds is not specified. The target is missed only when the chain is used up and no cluster is free. */
  method Seek(fp: File, ofs: nat)
    requires fp.Ok() && ofs < TWO32
    modifies fp, fp.buf, fp.fs, fp.fs.win
    ensures fp.Ok() && Confined(fp)
    ensures fp.objsize == Max(old(fp.objsize), fp.fptr)
    ensures fp.Content()[..old(fp.objsize)] == old(fp.Content())
    ensures fp.canWrite ==> fp.fptr <= ofs
    ensures fp.canWrite && fp.fptr < ofs ==>
      fp.fptr == SS * Sectors(fp.fs.g, fp.ch) && DiskFull(fp.fs.freeClst, fp.fs.Fat())
    ensures !fp.canWrite ==> fp.ch == old(fp.ch) && fp.fptr == if ofs <= old(fp.objsize) then ofs else old(fp.objsize)
  {
    hide Volume.Abs, TableOf, Steady, DiskOk, Geometry.Valid, View, BufferOk, NoError, ChainOrNone, ChainIn, SectorOf, Sectors,
         Quot, Rem, Flat, Mirrored, FileOnly, OthersKept, DiskFull;
    NothingChanged(fp.fs.Abs(), fp.fs.g, fp.fs.Fat(), fp.ch);
    BookSame(fp);
    EmptyChain(fp);
    ghost var v0, z := fp.Vw(), fp.objsize;
    var target: nat := if ofs > fp.objsize && !fp.canWrite then fp.objsize else ofs;
    var nsect: nat := 0;
    if target > 0 {
      nsect := SeekCluster(fp, target);
    } else {
      fp.fptr := 0;
    }
    ContentGrow(v0, fp.Vw(), z);
    ghost var d: Disk, book := fp.fs.Abs(), fp.Book();
    Arrive(fp, nsect, v0, z);
    FileOnlyTrans(old(fp.fs.Abs()), d, fp.fs.Abs(), fp.fs.g, fp.ch, fp.ch);
    SteadyOn(old(fp.Book()), book, fp.Book(), fp.fs.g, fp.ch, fp.ch);
  }

  /** The end of `f_lseek`, the position found. */
  method Arrive(fp: File, nsect: nat, ghost v0: seq<seq<byte>>, ghost z: nat)
    requires fp.Core() && fp.Start() && ClustPlaced(fp) && fp.objsize == z < TWO32 && fp.fptr < TWO32
    requires fp.fptr <= SS * Sectors(fp.fs.g, fp.ch) && AllSectors(v0) && v0 <= fp.Vw() && z <= SS * |v0|
    requires fp.fptr % SS != 0 ==> fp.fptr / SS < Sectors(fp.fs.g, fp.ch) && nsect == SectorOf(fp.fs.g, fp.ch, fp.fptr / SS)
    modifies fp`objsize, fp`modified, fp`sect, fp`dirty, fp.buf, fp.fs`disk
    ensures fp.Ok() && fp.fs.Fat() == old(fp.fs.Fat()) && fp.objsize == Max(z, fp.fptr)
    ensures fp.Content()[..z] == Flat(v0)[..z] && Steady(old(fp.Book()), fp.Book(), fp.fs.g, fp.ch)
    ensures FileOnly(old(fp.fs.Abs()), fp.fs.Abs(), fp.fs.g, fp.ch)
    ensures Mirrored(old(fp.fs.Abs()), fp.fs.g) ==> Mirrored(fp.fs.Abs(), fp.fs.g)
  {
    hide Volume.Abs, Volume.Fat, Steady, DiskOk, Geometry.Valid, View, BufferOk, NoError, ChainOrNone, ChainIn, SectorOf,
         Quot, Rem, Flat, Mirrored, FileOnly;
    Extend(fp);
    FillBuffer(fp, nsect);
    SeekResult(fp, v0, z);
  }

  /** Brings the sector of a position inside a sector into the buffer. */
  method FillBuffer(fp: File, nsect: nat)
    requires fp.Core() && fp.Start() && fp.Sized() && ClustPlaced(fp)
    requires fp.fptr % SS != 0 ==> fp.fptr / SS < Sectors(fp.fs.g, fp.ch) && nsect == SectorOf(fp.fs.g, fp.ch, fp.fptr / SS)
    modifies fp`sect, fp`dirty, fp.buf, fp.fs`disk
    ensures fp.Ok() && fp.Vw() == old(fp.Vw()) && fp.fs.Fat() == old(fp.fs.Fat())
    ensures Steady(old(fp.Book()), fp.Book(), fp.fs.g, fp.ch)
    ensures FileOnly(old(fp.fs.Abs()), fp.fs.Abs(), fp.fs.g, fp.ch)
    ensures Mirrored(old(fp.fs.Abs()), fp.fs.g) ==> Mirrored(fp.fs.Abs(), fp.fs.g)
  {
    hide Volume.Abs, Volume.Fat, Steady, DiskOk, Geometry.Valid, View, BufferOk, NoError, ChainOrNone, ChainIn, SectorOf, Sectors,
         Quot, Rem, Mirrored, FileOnly;
    NothingChanged(fp.fs.Abs(), fp.fs.g, fp.fs.Fat(), fp.ch);
    BookSame(fp);
    if fp.fptr % SS != 0 && nsect != fp.sect {
      SteadyLoad(fp.Book(), fp.fs.g, fp.ch, fp.fptr / SS);
      fp.Flush();
      fp.Load(nsect, fp.fptr / SS);
    }
  }

  lemma SeekResult(fp: File, v0: seq<seq<byte>>, z: nat)
    requires fp.Core() && fp.Sized() && AllSectors(v0) && v0 <= fp.Vw() && z <= SS * |v0| && z <= fp.objsize
    ensures fp.Content()[..z] == Flat(v0)[..z]
  {
    hide Volume.Abs, Volume.Fat, Steady, View, BufferOk, NoError, ChainOrNone, ChainIn, Sectors, Flat;
    ContentGrow(v0, fp.Vw(), z);
  }

  /** The size follows a position behind the end. */
  method Extend(fp: File)
    requires fp.Core() && fp.Start()
    modifies fp`objsize, fp`modified
    ensures fp.Core() && fp.Start() && fp.Vw() == old(fp.Vw()) && fp.objsize == Max(old(fp.objsize), fp.fptr)
  {
    hide Volume.Abs, Volume.Fat, Steady, BufferOk, NoError, ChainOrNone, ChainIn, View;
    if fp.fptr > fp.objsize {
      fp.objsize := fp.fptr;
      fp.modified := true;
    }
  }

  // ----- truncating

  /** Clusters a file of `fptr` bytes keeps. */
  ghost function Kept(g: Geometry, fptr: nat): nat
    requires g.csize > 0
  {
    if fptr == 0 then 0 else Quot((fptr - 1) / SS, g.csize) + 1
  }

  /** Cuts the chain behind the cluster of the position. */
  method CutAtPosition(fp: File)
    requires fp.Ok() && fp.fptr < fp.objsize
    modifies fp`sclust, fp.fs, fp.fs.win
    ensures fp.fs.Valid() && fp.fs.g.csize > 0
    ensures FatOnly(old(fp.fs.Abs()), fp.fs.Abs(), fp.fs.g) && (fp.fs.g.InFirstFat(fp.fs.winsect))
    ensures Kept(fp.fs.g, fp.fptr) <= |fp.ch| && fp.sclust == if fp.fptr == 0 then 0 else old(fp.sclust)
    ensures fp.fs.Fat() == CutTo(old(fp.fs.Fat()), fp.ch, Kept(fp.fs.g, fp.fptr), fp.fs.g.Eoc())
    ensures Steady(old(fp.Book()), fp.Book(), fp.fs.g, [])
  {
    hide Volume.Abs, TableOf, Steady, CountTrusted, DiskOk, Geometry.Valid, Geometry.EntryMod, Geometry.Eoc, View, BufferOk, NoError, ChainOrNone, ChainIn, IsChain,
         SectorOf, Sectors, Quot, Rem, FatOnly, FreeRun, CutTo, TailMarked, CountFollows;
    GeometryFacts(fp.fs.Abs(), fp.fs.g);
    ghost var d: Disk, fat, book := fp.fs.Abs(), fp.fs.Fat(), fp.Book();
    SteadyNot(book, fp.fs.g, []);
    TruncatePlace(fp);
    FatOnlyRefl(fp.fs.Abs(), fp.fs.g);
    ghost var k := Kept(fp.fs.g, fp.fptr);
    CutByRemoval(fat, fp.ch, k, fp.fs.g.Eoc());
    if fp.fptr == 0 {
      var clst := fp.sclust;
      var res := RemoveChain(fp.fs, clst, 0);
      assert res == Result.Ok;
      SteadyRemoved(book, fp.Book(), fp.fs.g, 0, clst);
      fp.sclust := 0;
    } else {
      var ncl := fp.fs.GetFat(fp.clust);
      SteadyLooked(book, fp.fs.winsect, fp.fs.g, []);
      if ncl < fp.fs.g.nFatent {
        var res := RemoveChain(fp.fs, ncl, fp.clust);
        assert res == Result.Ok;
        SteadyRemoved(book, fp.Book(), fp.fs.g, fp.clust, ncl);
        FatOnlyTrans(old(fp.fs.Abs()), d, fp.fs.Abs(), fp.fs.g);
      }
    }
  }

  lemma SteadyRemoved(a: Marks, b: Marks, g: Geometry, pclst: nat, clst: nat)
    requires |a.fat| == g.nFatent && 3 <= g.nFatent < g.Eoc() && 2 <= clst < |a.fat|
    requires pclst == 0 || (2 <= pclst < |a.fat| && a.fat[pclst] != 0)
    requires b.fat == FreeRun(TailMarked(a.fat, pclst, g.Eoc()), clst).0
    requires CountFollows(a.free, TailMarked(a.fat, pclst, g.Eoc()), b.free, b.fat)
    requires b.sect == a.sect && g.InFirstFat(b.window)
    ensures Steady(a, b, g, [])
  {
    hide FreeRun, CountTrusted, CountFollows;
    if CountTrusted(a.free, a.fat) {
      RemoveKeepsCount(a.fat, pclst, clst, g.Eoc(), a.free, b.free);
    }
  }

  /** The FAT after a chain was cut to its first `k` clusters. */
  ghost function CutTo(fat: seq<nat>, ch: seq<nat>, k: nat, eoc: nat): (r: seq<nat>)
    requires ChainOrNone(fat, ch) && k <= |ch|
    ensures |r| == |fat|
  {
    if k < |ch| then Cut(fat, ch, k, eoc) else fat
  }

  lemma TruncatePlace(fp: File)
    requires fp.Ok() && fp.fptr < fp.objsize
    ensures var k := Kept(fp.fs.g, fp.fptr);
      && k <= |fp.ch| && |fp.ch| > 0 && fp.ch[0] == fp.sclust
      && (fp.fptr == 0 <==> k == 0)
      && (k > 0 ==> fp.clust == fp.ch[k - 1])
  {
    EmptyChain(fp);
  }

  lemma CutByRemoval(fat: seq<nat>, ch: seq<nat>, k: nat, eoc: nat)
    requires ChainOrNone(fat, ch) && k <= |ch| && |ch| > 0 && |fat| < eoc
    ensures 2 <= ch[0] < |fat|
    ensures k > 0 ==> 2 <= ch[k - 1] < |fat| && (fat[ch[k - 1]] < |fat| <==> k < |ch|)
    ensures k > 0 && k < |ch| ==> fat[ch[k - 1]] == ch[k] >= 2
    ensures k < |ch| ==>
      var p := if k == 0 then 0 else ch[k - 1];
      2 <= ch[k] < |fat| && FreeRun(TailMarked(fat, p, eoc), ch[k]) == (CutTo(fat, ch, k, eoc), true)
    ensures k == |ch| ==> CutTo(fat, ch, k, eoc) == fat
  {
    if k > 0 {
      ChainLink(fat, ch, k - 1);
    }
    if 0 < k < |ch| {
      assert fat[ch[k - 1]] == ch[k - 1 + 1];
    }
    if k < |ch| {
      RemoveIsCut(fat, ch, k, eoc);
    }
  }

  /** Writes a dirty buffer back although its sector may have been freed. */
  method FlushFreed(fp: File)
    requires fp.fs.Valid() && fp.buf.Length == SS && fp.buf != fp.fs.win
    requires fp.dirty ==> fp.sect < |fp.fs.disk| && OutsideFats(fp.fs.g, fp.sect, 1) && fp.fs.winsect != fp.sect
    modifies fp`dirty, fp.fs`disk
    ensures fp.fs.Valid() && !fp.dirty && fp.fs.Fat() == old(fp.fs.Fat()) && fp.buf[..] == old(fp.buf[..])
    ensures fp.fs.Abs() == if old(fp.dirty) then old(fp.fs.Abs())[fp.sect := fp.buf[..]] else old(fp.fs.Abs())
    ensures Mirrored(old(fp.fs.Abs()), fp.fs.g) ==> Mirrored(fp.fs.Abs(), fp.fs.g)
  {
    hide Volume.Abs, Volume.Fat, Steady, DiskOk, Geometry.Valid, Mirrored;
    if fp.dirty {
      fp.fs.DiskWrite(fp.sect, [fp.buf[..]]);
      assert WriteRun(old(fp.fs.Abs()), fp.sect, [fp.buf[..]]) == old(fp.fs.Abs())[fp.sect := fp.buf[..]];
      fp.dirty := false;
    }
  }

  /** The file after its chain was cut and the buffer flushed. */
  lemma TruncFacts(d: Disk, d1: Disk, d2: Disk, g: Geometry, ch: seq<nat>, k: nat, winsect: nat, winsect': nat,
                   sect: nat, dirty: bool, buf: seq<byte>)
    requires DiskOk(d, g) && DiskOk(d1, g) && DiskOk(d2, g) && ChainIn(g, ch) && k <= |ch|
    requires BufferOk(d, g, ch, winsect, sect, dirty, buf) && FatOnly(d, d1, g)
    requires d2 == if dirty then d1[sect := buf] else d1
    requires g.InFirstFat(winsect')
    ensures ChainIn(g, ch[..k]) && Sectors(g, ch[..k]) <= Sectors(g, ch)
    ensures BufferOk(d2, g, ch[..k], winsect', sect, false, buf)
    ensures View(d2, g, ch[..k], sect, buf) == View(d, g, ch, sect, buf)[..Sectors(g, ch[..k])]
    ensures FileOnly(d, d2, g, ch)
  {
    hide SectorOf, Sectors, OutsideChain, Mirrored, Geometry.Valid;
    SectorsGrow(g, ch[..k], ch);
    FatOutsideChain(g, |d|, ch[..k], winsect');
    if dirty {
      var j :| 0 <= j < Sectors(g, ch) && sect == SectorOf(g, ch, j);
      forall s | 0 <= s < |d| && OutsideChain(g, ch, s)
        ensures s != sect
      {
        SectorOfInChain(g, ch, j, s);
      }
    }
    var a, b := View(d2, g, ch[..k], sect, buf), View(d, g, ch, sect, buf);
    forall j | 0 <= j < Sectors(g, ch[..k])
      ensures a[j] == b[j]
    {
      SectorOfPrefix(g, ch[..k], ch, j);
      SectorOfInData(g, |d|, ch, j);
    }
  }

  /** The chain after the cut. */
  lemma CutFacts(fat: seq<nat>, g: Geometry, ch: seq<nat>, k: nat)
    requires ChainOrNone(fat, ch) && NoError(fat) && k <= |ch| && |fat| == g.nFatent < g.Eoc()
    ensures ChainOrNone(CutTo(fat, ch, k, g.Eoc()), ch[..k]) && NoError(CutTo(fat, ch, k, g.Eoc()))
    ensures OthersKept(fat, ch, CutTo(fat, ch, k, g.Eoc()), ch[..k])
  {
    var fat' := CutTo(fat, ch, k, g.Eoc());
    if k < |ch| {
      if k > 0 {
        PrefixIsChain(fat, ch, k, g.Eoc());
      }
      forall o: seq<nat> | IsChain(fat, o) && Disjoint(o, ch)
        ensures IsChain(fat', o) && Disjoint(o, ch[..k])
      {
        CutElsewhere(fat, ch, k, g.Eoc(), o);
      }
    } else {
      assert ch[..k] == ch;
    }
  }

  /** `f_truncate`: keeps the bytes before the position and frees the clusters behind them. */
  method Truncate(fp: File) returns (res: FileResult)
    requires fp.Ok()
    modifies fp, fp.buf, fp.fs, fp.fs.win
    ensures fp.Ok() && fp.ch <= old(fp.ch) && fp.fptr == old(fp.fptr)
    ensures Steady(old(fp.Book()), fp.Book(), fp.fs.g, []) && fp.sect == old(fp.sect)
    ensures OthersKept(old(fp.fs.Fat()), old(fp.ch), fp.fs.Fat(), fp.ch)
    ensures FileOnly(old(fp.fs.Abs()), fp.fs.Abs(), fp.fs.g, old(fp.ch))
    ensures Mirrored(old(fp.fs.Abs()), fp.fs.g) ==> Mirrored(fp.fs.Abs(), fp.fs.g)
    ensures res == if fp.canWrite then FileOk else Denied
    ensures res == Denied ==> fp.Content() == old(fp.Content()) && fp.ch == old(fp.ch)
    ensures res == FileOk ==> fp.Content() == old(fp.Content())[..fp.fptr]
    ensures res == FileOk && fp.fptr == old(fp.objsize) ==> fp.ch == old(fp.ch)
    ensures res == FileOk && fp.fptr < old(fp.objsize) ==>
      Kept(fp.fs.g, fp.fptr) <= |old(fp.ch)| && fp.ch == old(fp.ch)[..Kept(fp.fs.g, fp.fptr)] && !fp.dirty
  {
    hide Volume.Abs, TableOf, Steady, DiskOk, Geometry.Valid, View, BufferOk, NoError, ChainOrNone, ChainIn, SectorOf, Sectors,
         Quot, Rem, Flat, Mirrored, FileOnly, OthersKept, Kept;
    NothingChanged(fp.fs.Abs(), fp.fs.g, fp.fs.Fat(), fp.ch);
    BookOf(fp);
    if !fp.canWrite {
      return Denied;
    }
    if fp.fptr < fp.objsize {
      TruncateHere(fp);
    }
    res := FileOk;
  }

  /** `f_truncate` when the position is before the end. */
  method TruncateHere(fp: File)
    requires fp.Ok() && fp.fptr < fp.objsize
    modifies fp`objsize, fp`modified, fp`sclust, fp`dirty, fp`ch, fp.fs, fp.fs.win
    ensures fp.Ok() && !fp.dirty && Steady(old(fp.Book()), fp.Book(), fp.fs.g, [])
    ensures Kept(fp.fs.g, fp.fptr) <= |old(fp.ch)| && fp.ch == old(fp.ch)[..Kept(fp.fs.g, fp.fptr)]
    ensures OthersKept(old(fp.fs.Fat()), old(fp.ch), fp.fs.Fat(), fp.ch)
    ensures FileOnly(old(fp.fs.Abs()), fp.fs.Abs(), fp.fs.g, old(fp.ch))
    ensures Mirrored(old(fp.fs.Abs()), fp.fs.g) ==> Mirrored(fp.fs.Abs(), fp.fs.g)
    ensures fp.Content() == old(fp.Content())[..fp.fptr]
  {
    hide Volume.Abs, TableOf, Steady, DiskOk, Geometry.Valid, Geometry.Eoc, View, BufferOk, NoError, ChainOrNone, ChainIn, SectorOf, Sectors,
         Quot, Rem, Flat, Mirrored, FileOnly, OthersKept, Kept, CutTo;
    TruncatePlaced(fp);
    EocFacts(fp.fs.Abs(), fp.fs.g);
    ghost var fat, ch, v0 := fp.fs.Fat(), fp.ch, fp.Vw();
    ghost var k := Kept(fp.fs.g, fp.fptr);
    CutAndFlush(fp);
    CutFacts(fat, fp.fs.g, ch, k);
    fp.objsize := fp.fptr;
    fp.modified := true;
    fp.ch := ch[..k];
    TruncContent(v0, Sectors(fp.fs.g, ch[..k]), fp.fptr, old(fp.objsize));
  }

  lemma EocFacts(d: Disk, g: Geometry)
    requires DiskOk(d, g)
    ensures g.nFatent < g.Eoc() && g.csize > 0
  {
    GeometryFacts(d, g);
  }

  /** The drive and the buffer after the cut, the chain still to be recorded. */
  method CutAndFlush(fp: File)
    requires fp.Ok() && fp.fptr < fp.objsize
    modifies fp`sclust, fp`dirty, fp.fs, fp.fs.win
    ensures fp.fs.Valid() && fp.fs.g.csize > 0 && !fp.dirty && fp.buf[..] == old(fp.buf[..])
    ensures Kept(fp.fs.g, fp.fptr) <= |fp.ch| && fp.sclust == if fp.fptr == 0 then 0 else old(fp.sclust)
    ensures fp.fs.Fat() == CutTo(old(fp.fs.Fat()), fp.ch, Kept(fp.fs.g, fp.fptr), fp.fs.g.Eoc())
    ensures Mirrored(old(fp.fs.Abs()), fp.fs.g) ==> Mirrored(fp.fs.Abs(), fp.fs.g)
    ensures FileOnly(old(fp.fs.Abs()), fp.fs.Abs(), fp.fs.g, fp.ch)
    ensures Steady(old(fp.Book()), fp.Book(), fp.fs.g, [])
    ensures var ch := fp.ch[..Kept(fp.fs.g, fp.fptr)];
      && ChainIn(fp.fs.g, ch) && Sectors(fp.fs.g, ch) <= Sectors(fp.fs.g, fp.ch)
      && BufferOk(fp.fs.Abs(), fp.fs.g, ch, fp.fs.winsect, fp.sect, false, fp.buf[..])
      && View(fp.fs.Abs(), fp.fs.g, ch, fp.sect, fp.buf[..]) == old(fp.Vw())[..Sectors(fp.fs.g, ch)]
  {
    hide Volume.Abs, TableOf, Steady, DiskOk, Geometry.Valid, Geometry.Eoc, View, BufferOk, NoError, ChainOrNone, ChainIn, SectorOf, Sectors,
         Quot, Rem, Flat, Mirrored, FileOnly, OthersKept, Kept, CutTo, FatOnly;
    ghost var d: Disk, w0, dirty := fp.fs.Abs(), fp.fs.winsect, fp.dirty;
    CutAtPosition(fp);
    ghost var d1: Disk := fp.fs.Abs();
    BufferPlace(d, d1, fp.fs.g, fp.ch, w0, fp.fs.winsect, fp.sect, dirty, fp.buf[..]);
    FlushFreed(fp);
    TruncFacts(d, d1, fp.fs.Abs(), fp.fs.g, fp.ch, Kept(fp.fs.g, fp.fptr), w0, fp.fs.winsect, fp.sect, dirty, fp.buf[..]);
  }

  /** The position after the cut. */
  lemma TruncatePlaced(fp: File)
    requires fp.Ok() && fp.fptr < fp.objsize
    ensures var k := Kept(fp.fs.g, fp.fptr);
      && k <= |fp.ch| && ChainIn(fp.fs.g, fp.ch[..k])
      && (fp.ch[..k] == [] <==> fp.fptr == 0) && (fp.fptr > 0 ==> fp.ch[..k][0] == fp.sclust != 0)
      && fp.fptr <= SS * Sectors(fp.fs.g, fp.ch[..k])
      && (fp.fptr > 0 ==>
            (Quot((fp.fptr - 1) / SS, fp.fs.g.csize) < |fp.ch[..k]|
             && fp.clust == fp.ch[..k][Quot((fp.fptr - 1) / SS, fp.fs.g.csize)]))
      && (fp.fptr % SS != 0 ==>
            (fp.fptr / SS < Sectors(fp.fs.g, fp.ch[..k]) && fp.sect == SectorOf(fp.fs.g, fp.ch[..k], fp.fptr / SS)))
  {
    hide Volume.Abs, Volume.Fat, Steady, View, BufferOk, NoError, ChainOrNone, Quot, Rem;
    EmptyChain(fp);
    var k := Kept(fp.fs.g, fp.fptr);
    if fp.fptr > 0 {
      QuotCovers((fp.fptr - 1) / SS, fp.fs.g.csize, k);
      KeptSector(fp.fs.g, fp.ch, k, fp.fptr);
    }
  }

  lemma KeptSector(g: Geometry, ch: seq<nat>, k: nat, fptr: nat)
    requires ChainIn(g, ch) && k <= |ch| && fptr > 0 && (fptr - 1) / SS < Times(g.csize, k)
    ensures ChainIn(g, ch[..k]) && fptr <= SS * Sectors(g, ch[..k])
    ensures fptr % SS != 0 && fptr / SS < Sectors(g, ch) ==>
      fptr / SS < Sectors(g, ch[..k]) && SectorOf(g, ch[..k], fptr / SS) == SectorOf(g, ch, fptr / SS)
  {
    hide SectorOf, Quot, Rem, Times;
    assert |ch[..k]| == k;
    if fptr % SS != 0 && fptr / SS < Sectors(g, ch) {
      assert fptr / SS == (fptr - 1) / SS;
      SectorOfPrefix(g, ch[..k], ch, fptr / SS);
    }
  }

  lemma BufferPlace(d: Disk, d1: Disk, g: Geometry, ch: seq<nat>, winsect: nat, winsect': nat,
                    sect: nat, dirty: bool, buf: seq<byte>)
    requires DiskOk(d, g) && DiskOk(d1, g) && ChainIn(g, ch) && FatOnly(d, d1, g)
    requires BufferOk(d, g, ch, winsect, sect, dirty, buf) && g.InFirstFat(winsect')
    ensures dirty ==> sect < |d1| && OutsideFats(g, sect, 1) && winsect' != sect
    ensures Mirrored(d, g) ==> Mirrored(d1, g)
  {
    hide SectorOf, Sectors, OutsideChain, Mirrored, Geometry.Valid, ChainIn;
    if dirty {
      var j :| 0 <= j < Sectors(g, ch) && sect == SectorOf(g, ch, j);
      SectorOfInData(g, |d|, ch, j);
    }
  }

  lemma TruncContent(v: seq<seq<byte>>, n: nat, fptr: nat, z: nat)
    requires AllSectors(v) && n <= |v| && fptr <= SS * n && fptr <= z <= SS * |v|
    ensures Flat(v[..n])[..fptr] == Flat(v)[..z][..fptr]
  {
    FlatPrefix(v[..n], v);
  }
}
