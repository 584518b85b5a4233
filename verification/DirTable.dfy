/** A directory table on a volume: the 32-byte pieces of the sectors of its chain, or of the fixed root directory. */
module DirTables {
  import opened Words
  import opened Layout
  import opened Drive
  import opened Chains
  import opened FileView
  import opened FileObjects
  import opened LongNames

  /** Entries in a sector. */
  const PER_SECTOR := 16

  predicate Zero(d: seq<byte>) { |d| == SLOT && forall k :: 0 <= k < SLOT ==> d[k] == 0 }

  function ZeroSlot(): (d: seq<byte>)
    ensures Zero(d)
  {
    seq(SLOT, i => 0)
  }

  // ----- where the entries lie

  /** The clusters of a table are those of its chain; the root directory of a FAT12 or FAT16 volume has none. */
  ghost predicate HasTable(g: Geometry, ch: seq<nat>) {
    && ChainIn(g, ch)
    && (ch == [] ==> !g.fatType.Fat32? && g.nRootdir > 0 && g.nRootdir % PER_SECTOR == 0)
  }

  ghost function TableSectors(g: Geometry, ch: seq<nat>): nat {
    if ch == [] then g.nRootdir / PER_SECTOR else Sectors(g, ch)
  }

  /** The drive sector of sector `j` of the table. */
  ghost function TableSector(g: Geometry, ch: seq<nat>, j: nat): nat
    requires ChainIn(g, ch) && j < TableSectors(g, ch)
  {
    if ch == [] then g.dirbase + j else SectorOf(g, ch, j)
  }

  /** The cluster of sector `j`, 0 in the fixed root directory. */
  ghost function TableCluster(g: Geometry, ch: seq<nat>, j: nat): nat
    requires ChainIn(g, ch) && j < TableSectors(g, ch)
  {
    if ch == [] then 0
    else
      QuotInside(j, g.csize, |ch|);
      ch[Quot(j, g.csize)]
  }

  lemma TableSectorInside(d: Disk, g: Geometry, ch: seq<nat>, j: nat)
    requires DiskOk(d, g) && HasTable(g, ch) && j < TableSectors(g, ch)
    ensures g.FatEnd() <= TableSector(g, ch, j) < |d| && TableSector(g, ch, j) > 0
    ensures !g.InFats(TableSector(g, ch, j))
  {
    if ch != [] {
      SectorOfInData(g, |d|, ch, j);
    }
  }

  lemma TableSectorDistinct(g: Geometry, ch: seq<nat>, i: nat, j: nat)
    requires ChainIn(g, ch) && i < TableSectors(g, ch) && j < TableSectors(g, ch)
    requires TableSector(g, ch, i) == TableSector(g, ch, j)
    ensures i == j
  {
    if ch != [] {
      SectorOfDistinct(g, ch, i, j);
    }
  }

  ghost function SlotAt(d: Disk, g: Geometry, ch: seq<nat>, i: nat): (e: seq<byte>)
    requires DiskOk(d, g) && HasTable(g, ch) && i < PER_SECTOR * TableSectors(g, ch)
    ensures |e| == SLOT
  {
    TableSectorInside(d, g, ch, i / PER_SECTOR);
    d[TableSector(g, ch, i / PER_SECTOR)][SLOT * (i % PER_SECTOR)..SLOT * (i % PER_SECTOR) + SLOT]
  }

  /** The entries of the table as the volume holds them. */
  ghost function Slots(d: Disk, g: Geometry, ch: seq<nat>): (s: seq<seq<byte>>)
    requires DiskOk(d, g) && HasTable(g, ch)
    ensures |s| == PER_SECTOR * TableSectors(g, ch) && forall i :: 0 <= i < |s| ==> |s[i]| == SLOT
  {
    seq(PER_SECTOR * TableSectors(g, ch), i requires 0 <= i < PER_SECTOR * TableSectors(g, ch) => SlotAt(d, g, ch, i))
  }

  lemma NotEmpty(g: Geometry, ch: seq<nat>)
    requires HasTable(g, ch)
    ensures TableSectors(g, ch) > 0
  {
    if ch != [] {
      TimesStep(g.csize, 0, |ch|);
    }
  }

  // ----- what stores and growth do to the entries

  lemma SlotsSame(d: Disk, d': Disk, g: Geometry, ch: seq<nat>)
    requires DiskOk(d, g) && DiskOk(d', g) && HasTable(g, ch)
    requires SameOutsideFats(d, d', g)
    ensures Slots(d', g, ch) == Slots(d, g, ch)
  {
    hide TableSector, TableSectors, DiskOk;
    forall i | 0 <= i < PER_SECTOR * TableSectors(g, ch)
      ensures SlotAt(d', g, ch, i) == SlotAt(d, g, ch, i)
    {
      TableSectorInside(d, g, ch, i / PER_SECTOR);
    }
  }

  /** Storing 32 bytes at the place of entry `i` replaces that entry and no other. */
  lemma SlotsStored(d: Disk, g: Geometry, ch: seq<nat>, i: nat, e: seq<byte>)
    requires DiskOk(d, g) && HasTable(g, ch) && i < PER_SECTOR * TableSectors(g, ch) && |e| == SLOT
    ensures var s := TableSector(g, ch, i / PER_SECTOR);
      && s < |d| && |d[s]| == SS && !g.InFats(s)
      && var d' := d[s := Patch(d[s], SLOT * (i % PER_SECTOR), e)];
      DiskOk(d', g) && Slots(d', g, ch) == Slots(d, g, ch)[i := e]
  {
    hide TableSector, TableSectors, Geometry.Valid, Patch;
    TableSectorInside(d, g, ch, i / PER_SECTOR);
    var s := TableSector(g, ch, i / PER_SECTOR);
    var d' := d[s := Patch(d[s], SLOT * (i % PER_SECTOR), e)];
    forall k | 0 <= k < PER_SECTOR * TableSectors(g, ch)
      ensures SlotAt(d', g, ch, k) == if k == i then e else SlotAt(d, g, ch, k)
    {
      TableSectorInside(d, g, ch, k / PER_SECTOR);
      PatchPiece(d[s], SLOT * (i % PER_SECTOR), e, SLOT * (k % PER_SECTOR));
      if TableSector(g, ch, k / PER_SECTOR) == s {
        TableSectorDistinct(g, ch, k / PER_SECTOR, i / PER_SECTOR);
      }
    }
  }

  lemma PatchPiece(s: seq<byte>, o: nat, e: seq<byte>, p: nat)
    requires o + SLOT <= |s| && |e| == SLOT && p + SLOT <= |s|
    ensures p == o ==> Patch(s, o, e)[p..p + SLOT] == e
    ensures p + SLOT <= o || o + SLOT <= p ==> Patch(s, o, e)[p..p + SLOT] == s[p..p + SLOT]
  {
  }

  /** A cluster put at the end of the chain and cleared adds zero entries behind those that are there. */
  lemma SlotsGrown(d: Disk, d1: Disk, g: Geometry, ch: seq<nat>, ncl: nat)
    requires DiskOk(d, g) && DiskOk(d1, g) && HasTable(g, ch) && ch != [] && ChainIn(g, ch + [ncl])
    requires SameOutsideFats(d, d1, g) && g.InCluster(ncl) && g.ClusterBase(ncl) + g.csize <= |d1|
    ensures var d2 := WriteRun(d1, g.ClusterBase(ncl), ZeroSectors(g.csize));
      DiskOk(d2, g) ==>
        && HasTable(g, ch + [ncl])
        && Slots(d2, g, ch + [ncl]) == Slots(d, g, ch) + seq(PER_SECTOR * g.csize, i => ZeroSlot())
  {
    hide DiskOk, SectorOf, Geometry.ClusterBase, WriteRun, ZeroSectors;
    var d2, ch' := WriteRun(d1, g.ClusterBase(ncl), ZeroSectors(g.csize)), ch + [ncl];
    if DiskOk(d2, g) {
      var a, b := Slots(d2, g, ch'), Slots(d, g, ch) + seq(PER_SECTOR * g.csize, i => ZeroSlot());
      assert Sectors(g, ch') == Sectors(g, ch) + g.csize;
      forall i | 0 <= i < |a|
        ensures a[i] == b[i]
      {
        SlotGrown(d, d1, g, ch, ncl, i);
      }
    }
  }

  lemma SlotGrown(d: Disk, d1: Disk, g: Geometry, ch: seq<nat>, ncl: nat, i: nat)
    requires DiskOk(d, g) && DiskOk(d1, g) && HasTable(g, ch) && ch != [] && ChainIn(g, ch + [ncl])
    requires SameOutsideFats(d, d1, g) && g.InCluster(ncl) && g.ClusterBase(ncl) + g.csize <= |d1|
    requires DiskOk(WriteRun(d1, g.ClusterBase(ncl), ZeroSectors(g.csize)), g)
    requires i < PER_SECTOR * Sectors(g, ch + [ncl])
    ensures SlotAt(WriteRun(d1, g.ClusterBase(ncl), ZeroSectors(g.csize)), g, ch + [ncl], i) ==
      if i < PER_SECTOR * Sectors(g, ch) then SlotAt(d, g, ch, i) else ZeroSlot()
  {
    hide DiskOk, SectorOf, Geometry.ClusterBase, Sectors;
    var j, ch' := i / PER_SECTOR, ch + [ncl];
    if i < PER_SECTOR * Sectors(g, ch) {
      SectorOfPrefix(g, ch, ch', j);
      TableSectorInside(d, g, ch, j);
      SectorApart(g, ch, ncl, j);
    } else {
      LastCluster(g, ch, ncl, j);
    }
  }

  /** Sectors of the old chain lie outside the new cluster. */
  lemma SectorApart(g: Geometry, ch: seq<nat>, ncl: nat, j: nat)
    requires ChainIn(g, ch + [ncl]) && ChainIn(g, ch) && g.InCluster(ncl) && j < Sectors(g, ch)
    ensures !(g.ClusterBase(ncl) <= SectorOf(g, ch, j) < g.ClusterBase(ncl) + g.csize)
  {
    hide Geometry.ClusterBase, Quot, Rem;
    var ch' := ch + [ncl];
    QuotInside(j, g.csize, |ch|);
    QuotRem(j, g.csize);
    var c, s := ch[Quot(j, g.csize)], SectorOf(g, ch, j);
    assert ch'[Quot(j, g.csize)] == c && ch'[|ch|] == ncl;
    if g.ClusterBase(ncl) <= s < g.ClusterBase(ncl) + g.csize {
      ClusterSectorsDistinct(g, c, Rem(j, g.csize), ncl, s - g.ClusterBase(ncl));
    }
  }

  lemma LastCluster(g: Geometry, ch: seq<nat>, ncl: nat, j: nat)
    requires ChainIn(g, ch + [ncl]) && g.InCluster(ncl) && Sectors(g, ch) <= j < Sectors(g, ch + [ncl])
    ensures g.ClusterBase(ncl) <= SectorOf(g, ch + [ncl], j) < g.ClusterBase(ncl) + g.csize
  {
    hide Geometry.ClusterBase, Quot, Rem;
    QuotRemUnique(j, g.csize, |ch|, j - Sectors(g, ch));
  }

  // ----- the place of an entry

  lemma {:induction false} TimesOfSixteen(c: nat, k: nat)
    ensures Times(PER_SECTOR * c, k) == PER_SECTOR * Times(c, k)
  {
    if k > 0 { TimesOfSixteen(c, k - 1); }
  }

  /** `k` clusters of entries in front, then `rest` entries of cluster `k`. */
  lemma PlaceInCluster(g: Geometry, ch: seq<nat>, k: nat, rest: nat, i: nat)
    requires ChainIn(g, ch) && k < |ch|
    requires i == Times(PER_SECTOR * g.csize, k) + rest && rest < PER_SECTOR * g.csize
    ensures i < PER_SECTOR * Sectors(g, ch) && i / PER_SECTOR < Sectors(g, ch) && i % PER_SECTOR == rest % PER_SECTOR
    ensures SectorOf(g, ch, i / PER_SECTOR) == g.ClusterBase(ch[k]) + rest / PER_SECTOR
    ensures Quot(i / PER_SECTOR, g.csize) == k
  {
    hide Times, Geometry.ClusterBase, Quot, Rem;
    TimesOfSixteen(g.csize, k);
    var j := i / PER_SECTOR;
    assert j == Times(g.csize, k) + rest / PER_SECTOR;
    QuotRemUnique(j, g.csize, k, rest / PER_SECTOR);
    QuotCovers(j, g.csize, |ch|);
  }

  /** Behind the last cluster of the chain there is no entry. */
  lemma PastChain(g: Geometry, ch: seq<nat>, i: nat)
    requires ch != [] && i >= Times(PER_SECTOR * g.csize, |ch|)
    ensures i >= PER_SECTOR * TableSectors(g, ch)
  {
    TimesOfSixteen(g.csize, |ch|);
  }

  /** From the last entry of a sector to the first of the next. */
  lemma NextSector(g: Geometry, ch: seq<nat>, j: nat)
    requires HasTable(g, ch) && j < TableSectors(g, ch)
    ensures ch == [] && j + 1 < TableSectors(g, ch) ==> TableSector(g, ch, j + 1) == TableSector(g, ch, j) + 1
    ensures ch != [] && Rem(j + 1, g.csize) != 0 ==>
      && j + 1 < TableSectors(g, ch)
      && TableSector(g, ch, j + 1) == TableSector(g, ch, j) + 1
      && TableCluster(g, ch, j + 1) == TableCluster(g, ch, j)
    ensures ch != [] && Rem(j + 1, g.csize) == 0 ==>
      var q := Quot(j, g.csize);
      && q < |ch| && TableCluster(g, ch, j) == ch[q]
      && (q + 1 < |ch| ==> j + 1 < TableSectors(g, ch) && TableCluster(g, ch, j + 1) == ch[q + 1]
                           && TableSector(g, ch, j + 1) == g.ClusterBase(ch[q + 1]))
      && (q + 1 == |ch| ==> j + 1 == TableSectors(g, ch))
  {
    hide Times, Geometry.ClusterBase, Quot, Rem;
    if ch != [] {
      var q := Quot(j, g.csize);
      QuotInside(j, g.csize, |ch|);
      QuotRem(j, g.csize);
      QuotRem(j + 1, g.csize);
      QuotRemPred(j + 1, g.csize);
      if Rem(j + 1, g.csize) != 0 {
        SectorOfRun(g, ch, j, 1);
      } else if q + 1 < |ch| {
        QuotCovers(j + 1, g.csize, |ch|);
      }
    }
  }

  // ----- what operations on a table leave alone

  ghost predicate OutsideTable(g: Geometry, ch: seq<nat>, s: nat) {
    if ch == [] then !(g.dirbase <= s < g.database) else OutsideChain(g, ch, s)
  }

  /** Nothing but FAT sectors and sectors of the table differ. */
  ghost predicate TableOnly(d: Disk, d': Disk, g: Geometry, ch: seq<nat>) {
    |d| == |d'| && forall s :: 0 <= s < |d| && !g.InFats(s) && OutsideTable(g, ch, s) ==> d'[s] == d[s]
  }

  /** The chain of the table may have grown; every other chain, every sector outside the table and the FATs, and the
      mirror of the FAT are as before. */
  ghost predicate Tended(d: Disk, fat: seq<nat>, ch: seq<nat>, d': Disk, fat': seq<nat>, ch': seq<nat>, g: Geometry)
    requires DiskOk(d, g) && DiskOk(d', g)
  {
    && ch <= ch' && (ch == [] <==> ch' == [])
    && OthersKept(fat, ch, fat', ch') && TableOnly(d, d', g, ch') && MirrorKept(d, d', g)
  }

  lemma TendedNot(d: Disk, fat: seq<nat>, ch: seq<nat>, g: Geometry)
    requires DiskOk(d, g)
    ensures Tended(d, fat, ch, d, fat, ch, g)
  {
    OthersKeptRefl(fat, ch);
  }

  lemma TendedOn(a: Disk, fa: seq<nat>, cha: seq<nat>, b: Disk, fb: seq<nat>, chb: seq<nat>,
                 c: Disk, fc: seq<nat>, chc: seq<nat>, g: Geometry)
    requires DiskOk(a, g) && DiskOk(b, g) && DiskOk(c, g)
    requires Tended(a, fa, cha, b, fb, chb, g) && Tended(b, fb, chb, c, fc, chc, g)
    ensures Tended(a, fa, cha, c, fc, chc, g)
  {
    hide OthersKept, MirrorKept, OutsideChain;
    OthersKeptTrans(fa, cha, fb, chb, fc, chc);
    MirrorTrans(a, b, c, g);
    forall s | 0 <= s < |a| && OutsideTable(g, chc, s)
      ensures OutsideTable(g, chb, s)
    {
      if chc != [] { OutsidePrefix(g, chb, chc, s); }
    }
  }

  lemma MirrorTrans(a: Disk, b: Disk, c: Disk, g: Geometry)
    requires DiskOk(a, g) && DiskOk(b, g) && DiskOk(c, g) && MirrorKept(a, b, g) && MirrorKept(b, c, g)
    ensures MirrorKept(a, c, g)
  {
  }

  /** Storing into a sector of the table. */
  lemma StoreTended(d: Disk, fat: seq<nat>, g: Geometry, ch: seq<nat>, j: nat, content: seq<byte>)
    requires DiskOk(d, g) && HasTable(g, ch) && j < TableSectors(g, ch) && |content| == SS
    ensures var s := TableSector(g, ch, j);
      && s < |d|
      && var d' := d[s := content];
      DiskOk(d', g) && Tended(d, fat, ch, d', fat, ch, g)
  {
    hide DiskOk, SectorOf, Sectors, OutsideChain, Mirrored;
    TableSectorInside(d, g, ch, j);
    var s := TableSector(g, ch, j);
    PatchFat(d, g, s, content);
    OthersKeptRefl(fat, ch);
    forall t | 0 <= t < |d| && OutsideTable(g, ch, t)
      ensures t != s
    {
      if ch != [] {
        SectorOfInChain(g, ch, j, t);
      } else {
        FixedEnd(d, g, j);
      }
    }
  }

  lemma FixedEnd(d: Disk, g: Geometry, j: nat)
    requires DiskOk(d, g) && !g.fatType.Fat32? && j < g.nRootdir / PER_SECTOR
    ensures g.dirbase <= g.dirbase + j < g.database
  {
  }

  /** A cluster taken for the table and cleared. */
  lemma GrowTended(d: Disk, fat: seq<nat>, d1: Disk, fat1: seq<nat>, g: Geometry, ch: seq<nat>, ncl: nat)
    requires DiskOk(d, g) && DiskOk(d1, g) && FatOnly(d, d1, g) && HasTable(g, ch) && ch != []
    requires IsChain(fat, ch) && g.InCluster(ncl) && |fat| == g.nFatent < g.Eoc() && fat[ncl] == 0
    requires fat1 == Linked(fat, ch[|ch| - 1], ncl, g.Eoc())
    ensures IsChain(fat1, ch + [ncl]) && HasTable(g, ch + [ncl])
    ensures 0 < g.ClusterBase(ncl) && g.ClusterBase(ncl) + g.csize <= |d1| && OutsideFats(g, g.ClusterBase(ncl), g.csize)
    ensures var d2 := WriteRun(d1, g.ClusterBase(ncl), ZeroSectors(g.csize));
      && DiskOk(d2, g) && Tended(d, fat, ch, d2, fat1, ch + [ncl], g)
      && Slots(d2, g, ch + [ncl]) == Slots(d, g, ch) + seq(PER_SECTOR * g.csize, i => ZeroSlot())
  {
    hide DiskOk, Slots, IsChain, OutsideChain, OthersKept, Mirrored, Geometry.ClusterBase, ChainIn, WriteRun, ZeroSectors;
    NewClusterPlace(d, g, ncl);
    NotInChain(fat, ch, ncl);
    StretchedIsChain(fat, ch, ncl, g.Eoc());
    ChainsAreIn(fat1, g, ch + [ncl]);
    OthersKeptByLink(fat, ch, ncl, g.Eoc());
    WriteRunFat(d1, g, g.ClusterBase(ncl), ZeroSectors(g.csize));
    SlotsGrown(d, d1, g, ch, ncl);
    GrowOnly(d, d1, g, ch, ncl);
  }

  lemma ChainsAreIn(fat: seq<nat>, g: Geometry, ch: seq<nat>)
    requires IsChain(fat, ch) && |fat| == g.nFatent && g.csize > 0
    ensures ChainIn(g, ch)
  {
  }

  lemma NewClusterPlace(d: Disk, g: Geometry, ncl: nat)
    requires DiskOk(d, g) && g.InCluster(ncl)
    ensures 0 < g.csize && 0 < g.ClusterBase(ncl) && g.ClusterBase(ncl) + g.csize <= |d|
    ensures OutsideFats(g, g.ClusterBase(ncl), g.csize)
  {
    TimesStep(g.csize, ncl - 2, g.nFatent - 2);
  }

  lemma OthersKeptByLink(fat: seq<nat>, ch: seq<nat>, ncl: nat, eoc: nat)
    requires IsChain(fat, ch) && 2 <= ncl < |fat| < eoc && fat[ncl] == 0
    ensures OthersKept(fat, ch, Linked(fat, ch[|ch| - 1], ncl, eoc), ch + [ncl])
  {
    var fat' := Linked(fat, ch[|ch| - 1], ncl, eoc);
    forall o: seq<nat> | IsChain(fat, o) && Disjoint(o, ch)
      ensures IsChain(fat', o) && Disjoint(o, ch + [ncl])
    {
      NotInChain(fat, o, ncl);
      assert ch[|ch| - 1] in ch;
      ChainKeptHere(fat, fat', o, ch[|ch| - 1], ncl);
    }
  }

  lemma GrowOnly(d: Disk, d1: Disk, g: Geometry, ch: seq<nat>, ncl: nat)
    requires SameOutsideFats(d, d1, g) && ch != [] && g.InCluster(ncl) && g.ClusterBase(ncl) + g.csize <= |d1|
    ensures TableOnly(d, WriteRun(d1, g.ClusterBase(ncl), ZeroSectors(g.csize)), g, ch + [ncl])
  {
    hide Geometry.ClusterBase, ZeroSectors;
    var ch' := ch + [ncl];
    assert ch'[|ch|] == ncl;
  }
}
