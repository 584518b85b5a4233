/** Two open files of one volume: interleaved calls behave like operations on two byte sequences. */
module TwoFiles {
  import opened Words
  import opened Layout
  import opened Drive
  import opened Volumes
  import opened Chains
  import opened Allocator
  import opened FileView
  import opened FileObjects
  import opened FileOps
  import opened FileRuns

  /** The buffered sector, if there is one, belongs to the file. */
  ghost predicate Home(fp: File)
    reads fp
  {
    fp.sect == 0 || InFile(fp.fs.g, fp.ch, fp.sect)
  }

  /** Two files of a volume that share no cluster and no buffer. */
  ghost predicate Pair(fp: File, gp: File)
    reads fp, fp.buf, fp.fs, fp.fs.win, gp, gp.buf, gp.fs, gp.fs.win
  {
    && fp != gp && fp.buf != gp.buf && fp.fs == gp.fs
    && fp.Ok() && gp.Ok() && Home(fp) && Home(gp) && Disjoint(fp.ch, gp.ch)
  }

  lemma PairSwap(fp: File, gp: File)
    requires Pair(fp, gp)
    ensures Pair(gp, fp)
  {
    hide File.Ok, Home;
  }

  lemma DisjointSwap(a: seq<nat>, b: seq<nat>)
    requires Disjoint(a, b)
    ensures Disjoint(b, a)
  {
  }

  /** A sector of a chain whose clusters hold the same data. */
  lemma SectorSame(d: Disk, d': Disk, g: Geometry, o: seq<nat>, j: nat)
    requires DiskOk(d, g) && ChainIn(g, o) && j < Sectors(g, o) && ClustersSame(d, d', g, o)
    ensures SectorOf(g, o, j) < |d| == |d'| && d'[SectorOf(g, o, j)] == d[SectorOf(g, o, j)]
  {
    hide Geometry.ClusterBase, Quot, Rem, DiskOk;
    SectorThere(d, g, o, j);
    QuotInside(j, g.csize, |o|);
    QuotRem(j, g.csize);
    var q := Quot(j, g.csize);
    assert g.ClusterBase(o[q]) <= SectorOf(g, o, j) < g.ClusterBase(o[q]) + g.csize;
  }

  lemma SectorThere(d: Disk, g: Geometry, o: seq<nat>, j: nat)
    requires DiskOk(d, g) && ChainIn(g, o) && j < Sectors(g, o)
    ensures SectorOf(g, o, j) < |d|
  {
    SectorOfInData(g, |d|, o, j);
  }

  /** What a call on a file leaves of another one: its chain, the rules of its buffer, and its sectors. */
  lemma OtherFile(d: Disk, fat: seq<nat>, ch: seq<nat>, d': Disk, fat': seq<nat>, ch': seq<nat>, g: Geometry,
                  o: seq<nat>, window: nat, window': nat, sect: nat, dirty: bool, buf: seq<byte>)
    requires DiskOk(d, g) && DiskOk(d', g) && |d'| == |d| && ChainIn(g, o) && ChainOrNone(fat, o) && Disjoint(ch, o)
    requires OthersUntouched(d, fat, ch, d', fat', ch', g)
    requires BufferOk(d, g, o, window, sect, dirty, buf) && (sect == 0 || InFile(g, o, sect))
    requires window' == window || g.InFirstFat(window')
    ensures ChainOrNone(fat', o) && Disjoint(ch', o)
    ensures BufferOk(d', g, o, window', sect, dirty, buf)
    ensures View(d', g, o, sect, buf) == View(d, g, o, sect, buf)
  {
    hide SectorOf, Sectors, OutsideChain, ClustersSame, IsChain, DiskOk, ChainIn;
    DisjointSwap(ch, o);
    if window' != window {
      FatOutside(d, g, o, window');
    }
    if o == [] {
      NoSectors(g);
    } else {
      DisjointSwap(o, ch');
      if sect != 0 {
        var j :| 0 <= j < Sectors(g, o) && sect == SectorOf(g, o, j);
        SectorSame(d, d', g, o, j);
      }
      var a, b := View(d', g, o, sect, buf), View(d, g, o, sect, buf);
      forall j | 0 <= j < Sectors(g, o)
        ensures a[j] == b[j]
      {
        SectorSame(d, d', g, o, j);
      }
    }
  }

  lemma FatOutside(d: Disk, g: Geometry, o: seq<nat>, s: nat)
    requires DiskOk(d, g) && ChainIn(g, o) && g.InFirstFat(s)
    ensures OutsideChain(g, o, s)
  {
    FatOutsideChain(g, |d|, o, s);
  }

  lemma NoSectors(g: Geometry)
    ensures Sectors(g, []) == 0
  {
  }

  /** The position of a truncation leaves the buffered sector in the file. */
  ghost predicate Smooth(s: ByteFile, canWrite: bool) {
    s.pos % SS != 0 || s.pos == |s.bytes| || !canWrite
  }

  lemma HomeKept(g: Geometry, ch: seq<nat>, ch': seq<nat>, a: Marks, b: Marks)
    requires Steady(a, b, g, ch') && ch <= ch' && ChainIn(g, ch') && (a.sect == 0 || InFile(g, ch, a.sect))
    ensures b.sect == 0 || InFile(g, ch', b.sect)
  {
    if b.sect == a.sect && a.sect != 0 {
      InFileGrows(g, ch, ch', a.sect);
    }
  }

  lemma HomePlaced(fp: File)
    requires fp.Ok() && fp.fptr % SS != 0
    ensures Home(fp)
  {
    hide Volume.Abs, Volume.Fat, View, BufferOk, NoError, ChainOrNone, SectorOf, Quot;
  }

  /** Every chain disjoint from two files is still there, still disjoint from them, and its clusters hold the same data. */
  ghost predicate RestUntouched(d: Disk, fat: seq<nat>, ch: seq<nat>, oh: seq<nat>, d': Disk, fat': seq<nat>, ch': seq<nat>,
      oh': seq<nat>, g: Geometry)
  {
    forall o: seq<nat> :: IsChain(fat, o) && Disjoint(o, ch) && Disjoint(o, oh) ==>
      IsChain(fat', o) && Disjoint(o, ch') && Disjoint(o, oh') && ClustersSame(d, d', g, o)
  }

  lemma RestOn(a: Disk, fa: seq<nat>, cha: seq<nat>, oha: seq<nat>, b: Disk, fb: seq<nat>, chb: seq<nat>, ohb: seq<nat>,
               c: Disk, fc: seq<nat>, chc: seq<nat>, ohc: seq<nat>, g: Geometry)
    requires RestUntouched(a, fa, cha, oha, b, fb, chb, ohb, g) && RestUntouched(b, fb, chb, ohb, c, fc, chc, ohc, g)
    ensures RestUntouched(a, fa, cha, oha, c, fc, chc, ohc, g)
  {
    hide IsChain, Disjoint;
    forall o: seq<nat> | IsChain(fa, o) && Disjoint(o, cha) && Disjoint(o, oha)
      ensures IsChain(fc, o) && Disjoint(o, chc) && Disjoint(o, ohc) && ClustersSame(a, c, g, o)
    {
    }
  }

  lemma RestNot(d: Disk, fat: seq<nat>, ch: seq<nat>, oh: seq<nat>, g: Geometry)
    ensures RestUntouched(d, fat, ch, oh, d, fat, ch, oh, g)
  {
  }

  lemma RestSwap(d: Disk, fat: seq<nat>, ch: seq<nat>, oh: seq<nat>, d': Disk, fat': seq<nat>, ch': seq<nat>, oh': seq<nat>,
                 g: Geometry)
    requires RestUntouched(d, fat, ch, oh, d', fat', ch', oh', g)
    ensures RestUntouched(d, fat, oh, ch, d', fat', oh', ch', g)
  {
    hide IsChain, Disjoint, ClustersSame;
  }

  lemma RestByOthers(d: Disk, fat: seq<nat>, ch: seq<nat>, oh: seq<nat>, d': Disk, fat': seq<nat>, ch': seq<nat>, g: Geometry)
    requires OthersUntouched(d, fat, ch, d', fat', ch', g)
    ensures RestUntouched(d, fat, ch, oh, d', fat', ch', oh, g)
  {
    hide IsChain, Disjoint, ClustersSame;
  }

  /** One call on a file, with another file open on the same volume: the other file is as it was. */
  method PerformBeside(fp: File, gp: File, c: Call) returns (out: seq<byte>)
    requires Pair(fp, gp) && CallFits(c) && (c.TruncateCall? ==> Smooth(BytesOf(fp), fp.canWrite))
    modifies fp, fp.buf, fp.fs, fp.fs.win
    ensures Pair(fp, gp) && gp.ch == old(gp.ch) && BytesOf(gp) == old(BytesOf(gp))
    ensures ByteStep(old(BytesOf(fp)), c, out, BytesOf(fp), fp.canRead, fp.canWrite, Full(fp.fs))
    ensures RestUntouched(old(fp.fs.Abs()), old(fp.fs.Fat()), old(fp.ch), old(gp.ch), fp.fs.Abs(), fp.fs.Fat(), fp.ch, gp.ch, fp.fs.g)
    ensures MirrorKept(old(fp.fs.Abs()), fp.fs.Abs(), fp.fs.g)
    ensures Trusted(old(SpaceOf(fp.fs))) ==>
      Trusted(SpaceOf(fp.fs)) && (DiskFull(fp.fs.freeClst, fp.fs.Fat()) <==> NoneFree(fp.fs.Fat()))
  {
    hide Volume.Abs, TableOf, DiskOk, Geometry.Valid, View, BufferOk, NoError, ChainOrNone, ChainIn, SectorOf, Sectors,
         Quot, Rem, Flat, Mirrored, MirrorKept, OthersUntouched, RestUntouched, Steady, ByteStep, InFile, Disjoint, DiskFull, Trusted,
         NoneFree;
    ghost var d: Disk, fat, ch, book := fp.fs.Abs(), fp.fs.Fat(), fp.ch, fp.Book();
    out := Perform(fp, c);
    WindowOf(book, fp.Book(), fp.fs.g, if c.TruncateCall? then [] else fp.ch);
    OtherFile(d, fat, ch, fp.fs.Abs(), fp.fs.Fat(), fp.ch, fp.fs.g, gp.ch, book.window, fp.fs.winsect, gp.sect, gp.dirty, gp.buf[..]);
    RestByOthers(d, fat, ch, gp.ch, fp.fs.Abs(), fp.fs.Fat(), fp.ch, fp.fs.g);
    TrustKept(book, fp.Book(), fp.fs.g, if c.TruncateCall? then [] else fp.ch);
    if !c.TruncateCall? {
      HomeKept(fp.fs.g, ch, fp.ch, book, fp.Book());
    } else if fp.fptr % SS != 0 {
      HomePlaced(fp);
    }
  }

  lemma WindowOf(a: Marks, b: Marks, g: Geometry, ch: seq<nat>)
    requires Steady(a, b, g, ch)
    ensures b.window == a.window || g.InFirstFat(b.window)
  {
  }

  // ----- runs

  /** A call on the first or the second file. */
  datatype Move = Move(first: bool, call: Call)

  /** Who may do what with the two files. */
  datatype Modes = Modes(fr: bool, fw: bool, gr: bool, gw: bool)

  ghost function ModesOf(fp: File, gp: File): Modes { Modes(fp.canRead, fp.canWrite, gp.canRead, gp.canWrite) }

  /** One move on two byte sequences: its own file takes the step, the other one none. */
  ghost predicate BothStep(m: Move, f: ByteFile, g: ByteFile, out: seq<byte>, f': ByteFile, g': ByteFile, at: Space, w: Modes) {
    if m.first then ByteStep(f, m.call, out, f', w.fr, w.fw, DiskFull(at.free, at.fat)) && g' == g
    else ByteStep(g, m.call, out, g', w.gr, w.gw, DiskFull(at.free, at.fat)) && f' == f
  }

  /** A truncation of a file on a sector boundary before its end: the buffer may keep a sector that is then free. */
  ghost predicate Rough(m: Move, f: ByteFile, g: ByteFile, w: Modes) {
    m.call.TruncateCall? && if m.first then !Smooth(f, w.fw) else !Smooth(g, w.gw)
  }

  /** One move, if it is not a rough one. */
  method MoveBoth(fp: File, gp: File, m: Move) returns (done: bool, out: seq<byte>)
    requires Pair(fp, gp) && CallFits(m.call)
    modifies fp, fp.buf, gp, gp.buf, fp.fs, fp.fs.win
    ensures Pair(fp, gp) && done == !Rough(m, old(BytesOf(fp)), old(BytesOf(gp)), ModesOf(fp, gp))
    ensures !done ==> BytesOf(fp) == old(BytesOf(fp)) && BytesOf(gp) == old(BytesOf(gp))
    ensures done ==>
      BothStep(m, old(BytesOf(fp)), old(BytesOf(gp)), out, BytesOf(fp), BytesOf(gp), SpaceOf(fp.fs), ModesOf(fp, gp))
    ensures RestUntouched(old(fp.fs.Abs()), old(fp.fs.Fat()), old(fp.ch), old(gp.ch), fp.fs.Abs(), fp.fs.Fat(), fp.ch, gp.ch, fp.fs.g)
    ensures MirrorKept(old(fp.fs.Abs()), fp.fs.Abs(), fp.fs.g)
    ensures Trusted(old(SpaceOf(fp.fs))) ==> Trusted(SpaceOf(fp.fs))
    ensures done && Trusted(old(SpaceOf(fp.fs))) ==> (DiskFull(fp.fs.freeClst, fp.fs.Fat()) <==> NoneFree(fp.fs.Fat()))
  {
    hide Volume.Abs, TableOf, DiskOk, Geometry.Valid, File.Content, Home, Disjoint, MirrorKept, RestUntouched, ByteStep,
         DiskFull, Trusted, NoneFree, View, BufferOk, NoError, ChainOrNone, ChainIn, File.Sized, File.Placed, File.Start;
    MirrorKeptRefl(fp.fs.Abs(), fp.fs.g);
    RestNot(fp.fs.Abs(), fp.fs.Fat(), fp.ch, gp.ch, fp.fs.g);
    done, out := true, [];
    if m.first {
      done := !m.call.TruncateCall? || fp.fptr % SS != 0 || fp.fptr == fp.objsize || !fp.canWrite;
      SizeOf(fp);
      if done {
        out := PerformBeside(fp, gp, m.call);
      }
    } else {
      done := !m.call.TruncateCall? || gp.fptr % SS != 0 || gp.fptr == gp.objsize || !gp.canWrite;
      SizeOf(gp);
      if done {
        ghost var d: Disk, fat, ch, oh := fp.fs.Abs(), fp.fs.Fat(), fp.ch, gp.ch;
        PairSwap(fp, gp);
        out := PerformBeside(gp, fp, m.call);
        PairSwap(gp, fp);
        RestSwap(d, fat, oh, ch, fp.fs.Abs(), fp.fs.Fat(), gp.ch, fp.ch, fp.fs.g);
      }
    }
  }

  lemma SizeOf(fp: File)
    requires fp.Ok()
    ensures |BytesOf(fp).bytes| == fp.objsize && BytesOf(fp).pos == fp.fptr
  {
    hide File.Placed, Volume.Abs, Volume.Fat;
  }

  /**
   * Performs calls on two files in any order, up to a rough truncation if there is one. The ghost states show that the
   * run is one of two byte files that do not see each other; chains disjoint from both files keep their data, and with
   * a right or unknown count of free clusters a call stops short only where no cluster is free.
   */
  method PerformBoth(fp: File, gp: File, moves: seq<Move>)
    returns (n: nat, outs: seq<seq<byte>>, ghost first: seq<ByteFile>, ghost second: seq<ByteFile>, ghost spaces: seq<Space>)
    requires Pair(fp, gp) && forall i :: 0 <= i < |moves| ==> CallFits(moves[i].call)
    modifies fp, fp.buf, gp, gp.buf, fp.fs, fp.fs.win
    ensures Pair(fp, gp) && n <= |moves| && |outs| == |spaces| == n && |first| == |second| == n + 1
    ensures n < |moves| ==> Rough(moves[n], first[n], second[n], ModesOf(fp, gp))
    ensures first[0] == old(BytesOf(fp)) && second[0] == old(BytesOf(gp))
    ensures first[n] == BytesOf(fp) && second[n] == BytesOf(gp)
    ensures forall i :: 0 <= i < n ==>
      BothStep(moves[i], first[i], second[i], outs[i], first[i + 1], second[i + 1], spaces[i], ModesOf(fp, gp))
    ensures RestUntouched(old(fp.fs.Abs()), old(fp.fs.Fat()), old(fp.ch), old(gp.ch), fp.fs.Abs(), fp.fs.Fat(), fp.ch, gp.ch, fp.fs.g)
    ensures MirrorKept(old(fp.fs.Abs()), fp.fs.Abs(), fp.fs.g)
    ensures Trusted(old(SpaceOf(fp.fs))) ==>
      forall i :: 0 <= i < n ==> (DiskFull(spaces[i].free, spaces[i].fat) <==> NoneFree(spaces[i].fat))
  {
    hide Volume.Abs, TableOf, DiskOk, Geometry.Valid, File.Content, Home, Disjoint, MirrorKept, RestUntouched, BothStep,
         DiskFull, Trusted, NoneFree, Rough, View, BufferOk, NoError, ChainOrNone, ChainIn, File.Sized, File.Placed, File.Start;
    MirrorKeptRefl(fp.fs.Abs(), fp.fs.g);
    RestNot(fp.fs.Abs(), fp.fs.Fat(), fp.ch, gp.ch, fp.fs.g);
    outs, first, second, spaces := [], [BytesOf(fp)], [BytesOf(gp)], [];
    n := 0;
    while n < |moves|
      invariant Pair(fp, gp) && n <= |moves| && |outs| == |spaces| == n && |first| == |second| == n + 1
      invariant first[0] == old(BytesOf(fp)) && second[0] == old(BytesOf(gp))
      invariant first[n] == BytesOf(fp) && second[n] == BytesOf(gp)
      invariant forall i :: 0 <= i < n ==>
        BothStep(moves[i], first[i], second[i], outs[i], first[i + 1], second[i + 1], spaces[i], ModesOf(fp, gp))
      invariant RestUntouched(old(fp.fs.Abs()), old(fp.fs.Fat()), old(fp.ch), old(gp.ch), fp.fs.Abs(), fp.fs.Fat(), fp.ch, gp.ch,
                              fp.fs.g)
      invariant MirrorKept(old(fp.fs.Abs()), fp.fs.Abs(), fp.fs.g)
      invariant Trusted(old(SpaceOf(fp.fs))) ==> Trusted(SpaceOf(fp.fs))
      invariant Trusted(old(SpaceOf(fp.fs))) ==>
        forall i :: 0 <= i < n ==> (DiskFull(spaces[i].free, spaces[i].fat) <==> NoneFree(spaces[i].fat))
    {
      ghost var d: Disk, fat, ch, oh := fp.fs.Abs(), fp.fs.Fat(), fp.ch, gp.ch;
      var done, out := MoveBoth(fp, gp, moves[n]);
      RestOn(old(fp.fs.Abs()), old(fp.fs.Fat()), old(fp.ch), old(gp.ch), d, fat, ch, oh,
             fp.fs.Abs(), fp.fs.Fat(), fp.ch, gp.ch, fp.fs.g);
      MirrorKeptTrans(old(fp.fs.Abs()), d, fp.fs.Abs(), fp.fs.g);
      if !done { break; }
      outs, first, second, spaces := outs + [out], first + [BytesOf(fp)], second + [BytesOf(gp)], spaces + [SpaceOf(fp.fs)];
      n := n + 1;
    }
  }
}
