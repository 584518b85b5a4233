/** Any sequence of calls on an open file behaves like operations on a byte sequence. */
module FileRuns {
  import opened Words
  import opened Layout
  import opened Drive
  import opened Volumes
  import opened Chains
  import opened Allocator
  import opened AllocatorProofs
  import opened FileView
  import opened FileObjects
  import opened FileOps

  /** A file as its user sees it. */
  datatype ByteFile = ByteFile(bytes: seq<byte>, pos: nat)

  datatype Call = ReadCall(n: nat) | WriteCall(data: seq<byte>) | SeekCall(ofs: nat) | TruncateCall

  /** The meaning of one call. Writes and seeks stop short only on a full volume, and a write at the size limit; a seek
      behind the end appends bytes of any value. */
  ghost predicate ByteStep(s: ByteFile, c: Call, out: seq<byte>, s': ByteFile, canRead: bool, canWrite: bool, full: bool) {
    && s.pos <= |s.bytes|
    && match c
       case ReadCall(n) =>
         && s'.bytes == s.bytes
         && s'.pos == (if !canRead then s.pos else if s.pos + n < |s.bytes| then s.pos + n else |s.bytes|)
         && out == s.bytes[s.pos..s'.pos]
       case WriteCall(data) =>
         && out == []
         && s.pos <= s'.pos <= s.pos + |data| && (!canWrite ==> s'.pos == s.pos)
         && (canWrite && !full && |data| < TWO32 && s.pos < TWO32 ==> s'.pos == if s.pos + |data| < TWO32 then s.pos + |data| else TWO32 - 1)
         && s'.bytes == Splice(s.bytes, s.pos, data[..s'.pos - s.pos])
       case SeekCall(ofs) =>
         && out == []
         && (canWrite ==> s'.pos <= ofs && (!full ==> s'.pos == ofs))
         && (!canWrite ==> s'.pos == if ofs <= |s.bytes| then ofs else |s.bytes|)
         && |s'.bytes| == Max(|s.bytes|, s'.pos)
         && s.bytes == s'.bytes[..|s.bytes|]
       case TruncateCall =>
         && out == [] && s'.pos == s.pos
         && s'.bytes == if canWrite then s.bytes[..s.pos] else s.bytes
  }

  ghost predicate CallFits(c: Call) {
    match c
    case ReadCall(n) => true
    case WriteCall(data) => |data| < TWO32
    case SeekCall(ofs) => ofs < TWO32
    case TruncateCall => true
  }

  ghost function BytesOf(fp: File): (s: ByteFile)
    requires fp.Ok()
    reads fp, fp.buf, fp.fs, fp.fs.win
  {
    ByteFile(fp.Content(), fp.fptr)
  }

  // ----- other files

  ghost predicate ClustersSame(d: Disk, d': Disk, g: Geometry, o: seq<nat>) {
    |d| == |d'| && forall i, s ::
      (0 <= i < |o| && o[i] >= 2 && g.ClusterBase(o[i]) <= s < g.ClusterBase(o[i]) + g.csize && s < |d|) ==> d'[s] == d[s]
  }

  /** Every chain disjoint from the file is still there, still disjoint, and its clusters hold the same data. */
  ghost predicate OthersUntouched(d: Disk, fat: seq<nat>, ch: seq<nat>, d': Disk, fat': seq<nat>, ch': seq<nat>, g: Geometry) {
    forall o: seq<nat> :: IsChain(fat, o) && Disjoint(o, ch) ==>
      IsChain(fat', o) && Disjoint(o, ch') && ClustersSame(d, d', g, o)
  }

  lemma UntouchedTrans(a: Disk, fa: seq<nat>, cha: seq<nat>, b: Disk, fb: seq<nat>, chb: seq<nat>,
                       c: Disk, fc: seq<nat>, chc: seq<nat>, g: Geometry)
    requires OthersUntouched(a, fa, cha, b, fb, chb, g) && OthersUntouched(b, fb, chb, c, fc, chc, g)
    ensures OthersUntouched(a, fa, cha, c, fc, chc, g)
  {
    hide IsChain, Disjoint;
    forall o: seq<nat> | IsChain(fa, o) && Disjoint(o, cha)
      ensures IsChain(fc, o) && Disjoint(o, chc) && ClustersSame(a, c, g, o)
    {
    }
  }

  lemma UntouchedRefl(d: Disk, fat: seq<nat>, ch: seq<nat>, g: Geometry)
    ensures OthersUntouched(d, fat, ch, d, fat, ch, g)
  {
  }

  /** Clusters of disjoint chains share no sector. */
  lemma DisjointSectors(g: Geometry, o: seq<nat>, ch: seq<nat>, i: nat, s: nat)
    requires g.csize > 0 && Disjoint(o, ch) && i < |o| && o[i] >= 2
    requires g.ClusterBase(o[i]) <= s < g.ClusterBase(o[i]) + g.csize
    ensures OutsideChain(g, ch, s)
  {
    hide Geometry.ClusterBase;
    forall k | 0 <= k < |ch| && ch[k] >= 2
      ensures !(g.ClusterBase(ch[k]) <= s < g.ClusterBase(ch[k]) + g.csize)
    {
      assert o[i] in o && ch[k] in ch;
      if g.ClusterBase(ch[k]) <= s < g.ClusterBase(ch[k]) + g.csize {
        ClusterSectorsDistinct(g, o[i], s - g.ClusterBase(o[i]), ch[k], s - g.ClusterBase(ch[k]));
      }
    }
  }

  /** An operation confined to the clusters `x` leaves chains disjoint from them alone. */
  lemma ConfinedUntouched(d: Disk, fat: seq<nat>, ch: seq<nat>, d': Disk, fat': seq<nat>, ch': seq<nat>, g: Geometry, x: seq<nat>)
    requires DiskOk(d, g) && |fat| == g.nFatent && FileOnly(d, d', g, x) && OthersKept(fat, ch, fat', ch') && (x == ch || x == ch')
    ensures |d'| == |d| && OthersUntouched(d, fat, ch, d', fat', ch', g)
  {
    hide Geometry.ClusterBase, OutsideChain, DiskOk, Geometry.Valid;
    GeometryFacts(d, g);
    forall o: seq<nat> | IsChain(fat, o) && Disjoint(o, ch)
      ensures IsChain(fat', o) && Disjoint(o, ch') && ClustersSame(d, d', g, o)
    {
      forall i, s | 0 <= i < |o| && o[i] >= 2 && g.ClusterBase(o[i]) <= s < g.ClusterBase(o[i]) + g.csize && s < |d|
        ensures d'[s] == d[s]
      {
        CsizePositive(g, |d|);
        DisjointSectors(g, o, x, i, s);
        ClusterSectorInData(g, |d|, o[i], s - g.ClusterBase(o[i]));
      }
    }
  }

  lemma CsizePositive(g: Geometry, total: nat)
    requires g.Valid(total)
    ensures g.csize > 0
  {
  }

  lemma MirrorKeptRefl(d: Disk, g: Geometry)
    requires DiskOk(d, g)
    ensures MirrorKept(d, d, g)
  {
  }

  lemma MirrorKeptTrans(a: Disk, b: Disk, c: Disk, g: Geometry)
    requires DiskOk(a, g) && DiskOk(b, g) && DiskOk(c, g) && MirrorKept(a, b, g) && MirrorKept(b, c, g)
    ensures MirrorKept(a, c, g)
  {
  }

  // ----- runs

  /** No cluster is free. */
  ghost predicate Full(fs: Volume)
    requires fs.WindowOk()
    reads fs, fs.win
  {
    DiskFull(fs.freeClst, fs.Fat())
  }

  /** With a right or unknown count the allocator takes a volume for full exactly when no cluster is free. */
  lemma FullIsNoneFree(free: nat, fat: seq<nat>)
    requires |fat| > 2 && CountTrusted(free, fat)
    ensures DiskFull(free, fat) <==> NoneFree(fat)
  {
    if free == 0 {
      DiskFullIsFull(fat, free);
    }
  }

  /** A trusted count is kept, and with it a full volume is one without a free cluster. */
  lemma SteadyTrusted(a: Marks, b: Marks, g: Geometry, ch: seq<nat>)
    requires Steady(a, b, g, ch) && g.nFatent > 2
    ensures CountTrusted(a.free, a.fat) ==> CountTrusted(b.free, b.fat) && (DiskFull(b.free, b.fat) <==> NoneFree(b.fat))
  {
    hide CountTrusted, DiskFull, NoneFree;
    if CountTrusted(a.free, a.fat) {
      FullIsNoneFree(b.free, b.fat);
    }
  }

  /** Performs one call. */
  method Perform(fp: File, c: Call) returns (out: seq<byte>)
    requires fp.Ok() && CallFits(c)
    modifies fp, fp.buf, fp.fs, fp.fs.win
    ensures fp.Ok()
    ensures ByteStep(old(BytesOf(fp)), c, out, BytesOf(fp), fp.canRead, fp.canWrite, Full(fp.fs))
    ensures OthersUntouched(old(fp.fs.Abs()), old(fp.fs.Fat()), old(fp.ch), fp.fs.Abs(), fp.fs.Fat(), fp.ch, fp.fs.g)
    ensures MirrorKept(old(fp.fs.Abs()), fp.fs.Abs(), fp.fs.g) && |fp.fs.Abs()| == |old(fp.fs.Abs())|
    ensures Steady(old(fp.Book()), fp.Book(), fp.fs.g, if c.TruncateCall? then [] else fp.ch)
    ensures c.TruncateCall? && (!fp.canWrite || fp.fptr == old(fp.objsize)) ==> fp.ch == old(fp.ch)
    ensures if c.TruncateCall? then fp.ch <= old(fp.ch) && fp.sect == old(fp.sect) && fp.fptr == old(fp.fptr) else old(fp.ch) <= fp.ch
  {
    hide Volume.Abs, TableOf, DiskOk, Geometry.Valid, View, BufferOk, NoError, ChainOrNone, ChainIn, SectorOf, Sectors,
         Quot, Rem, Flat, Mirrored, FileOnly, OthersKept, DiskFull, OthersUntouched, File.Placed, Kept, Steady, Clip, Splice, File.Start;
    ghost var d: Disk, fat, ch := fp.fs.Abs(), fp.fs.Fat(), fp.ch;
    ghost var x: seq<nat>;
    out := [];
    match c {
      case ReadCall(n) =>
        var res;
        res, out := Read(fp, n);
        x := fp.ch;
      case WriteCall(data) =>
        SpliceNothing(fp.Content(), fp.fptr);
        assert data[..0] == [];
        var res, bw := Write(fp, data);
        x := fp.ch;
      case SeekCall(ofs) =>
        Seek(fp, ofs);
        x := fp.ch;
      case TruncateCall =>
        var res := Truncate(fp);
        x := ch;
    }
    ConfinedUntouched(d, fat, ch, fp.fs.Abs(), fp.fs.Fat(), fp.ch, fp.fs.g, x);
  }

  /** The free count and the FAT, as they decide whether a volume is full. */
  datatype Space = Space(free: nat, fat: seq<nat>)

  lemma TrustKept(a: Marks, b: Marks, g: Geometry, ch: seq<nat>)
    requires Steady(a, b, g, ch)
    ensures Trusted(Space(a.free, a.fat)) ==>
      Trusted(Space(b.free, b.fat)) && (DiskFull(b.free, b.fat) <==> NoneFree(b.fat))
  {
    hide CountTrusted, DiskFull, NoneFree;
    if Trusted(Space(a.free, a.fat)) {
      SteadyTrusted(a, b, g, ch);
    }
  }

  ghost function SpaceOf(fs: Volume): Space
    requires fs.WindowOk()
    reads fs, fs.win
  {
    Space(fs.freeClst, fs.Fat())
  }

  /** A right or unknown count on a FAT with clusters. */
  ghost predicate Trusted(s: Space) { |s.fat| > 2 && CountTrusted(s.free, s.fat) }

  /** Performs a sequence of calls. The ghost states show that the whole run is one of the byte file; `spaces` is the
      volume after each call. If the count of free clusters is right or unknown at the start, writes and seeks stop
      short only where no cluster is free. */
  method PerformAll(fp: File, calls: seq<Call>)
    returns (outs: seq<seq<byte>>, ghost states: seq<ByteFile>, ghost spaces: seq<Space>)
    requires fp.Ok() && forall i :: 0 <= i < |calls| ==> CallFits(calls[i])
    modifies fp, fp.buf, fp.fs, fp.fs.win
    ensures fp.Ok()
    ensures |outs| == |calls| == |spaces| && |states| == |calls| + 1
    ensures calls != [] ==> spaces[|calls| - 1] == SpaceOf(fp.fs)
    ensures Trusted(old(SpaceOf(fp.fs))) ==>
      forall i :: 0 <= i < |calls| ==> Trusted(spaces[i]) && (DiskFull(spaces[i].free, spaces[i].fat) <==> NoneFree(spaces[i].fat))
    ensures states[0] == old(BytesOf(fp)) && states[|calls|] == BytesOf(fp)
    ensures forall i :: 0 <= i < |calls| ==> ByteStep(states[i], calls[i], outs[i], states[i + 1], fp.canRead, fp.canWrite,
                                                      DiskFull(spaces[i].free, spaces[i].fat))
    ensures OthersUntouched(old(fp.fs.Abs()), old(fp.fs.Fat()), old(fp.ch), fp.fs.Abs(), fp.fs.Fat(), fp.ch, fp.fs.g)
    ensures MirrorKept(old(fp.fs.Abs()), fp.fs.Abs(), fp.fs.g)
  {
    hide Volume.Abs, TableOf, MirrorKept, OthersUntouched, ByteStep, DiskFull, File.Content, DiskOk, Geometry.Valid, View, BufferOk,
         NoError, ChainOrNone, ChainIn, File.Sized, File.Placed, File.Start, Steady, NoneFree, Trusted;
    MirrorKeptRefl(fp.fs.Abs(), fp.fs.g);
    outs, states, spaces := [], [BytesOf(fp)], [];
    UntouchedRefl(fp.fs.Abs(), fp.fs.Fat(), fp.ch, fp.fs.g);
    for k := 0 to |calls|
      invariant fp.Ok() && |outs| == k == |spaces| && |states| == k + 1
      invariant k > 0 ==> spaces[k - 1] == SpaceOf(fp.fs)
      invariant Trusted(old(SpaceOf(fp.fs))) ==> Trusted(SpaceOf(fp.fs))
      invariant Trusted(old(SpaceOf(fp.fs))) ==> forall i :: 0 <= i < k ==>
        Trusted(spaces[i]) && (DiskFull(spaces[i].free, spaces[i].fat) <==> NoneFree(spaces[i].fat))
      invariant states[0] == old(BytesOf(fp)) && states[k] == BytesOf(fp)
      invariant forall i :: 0 <= i < k ==> ByteStep(states[i], calls[i], outs[i], states[i + 1], fp.canRead, fp.canWrite,
                                                    DiskFull(spaces[i].free, spaces[i].fat))
      invariant OthersUntouched(old(fp.fs.Abs()), old(fp.fs.Fat()), old(fp.ch), fp.fs.Abs(), fp.fs.Fat(), fp.ch, fp.fs.g)
      invariant MirrorKept(old(fp.fs.Abs()), fp.fs.Abs(), fp.fs.g)
    {
      ghost var d: Disk, fat, ch, book := fp.fs.Abs(), fp.fs.Fat(), fp.ch, fp.Book();
      var out := Perform(fp, calls[k]);
      TrustKept(book, fp.Book(), fp.fs.g, if calls[k].TruncateCall? then [] else fp.ch);
      UntouchedTrans(old(fp.fs.Abs()), old(fp.fs.Fat()), old(fp.ch), d, fat, ch, fp.fs.Abs(), fp.fs.Fat(), fp.ch, fp.fs.g);
      MirrorKeptTrans(old(fp.fs.Abs()), d, fp.fs.Abs(), fp.fs.g);
      outs, states, spaces := outs + [out], states + [BytesOf(fp)], spaces + [SpaceOf(fp.fs)];
    }
  }
}
