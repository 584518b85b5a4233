/** Where the FATs, the root directory and the data area of a mounted volume lie. */
module Layout {
  import opened Words

  const SS: nat := 512

  datatype FatType = Fat12 | Fat16 | Fat32

  /** The fields of `FATFS` that `mount_volume` computes and nothing changes afterwards. */
  datatype Geometry = Geometry(
    fatType: FatType,
    nFats: nat,      // number of FAT copies
    fsize: nat,      // sectors per FAT
    csize: nat,      // sectors per cluster
    nRootdir: nat,   // entries in the fixed root directory, 0 on FAT32
    nFatent: nat,    // number of clusters + 2
    volbase: nat,
    fatbase: nat,
    dirbase: nat,    // root directory: a sector, or a cluster number on FAT32
    database: nat    // first data sector
  )
  {
    /** Sector after the last FAT copy. */
    function FatEnd(): nat { fatbase + (if nFats == 2 then fsize + fsize else fsize) }

    /** First byte of entry `c` inside a FAT. */
    function EntryOffset(c: nat): nat {
      match fatType
      case Fat12 => c + c / 2
      case Fat16 => 2 * c
      case Fat32 => 4 * c
    }

    /** Number of bytes a FAT entry touches. */
    function EntryBytes(): nat { if fatType.Fat32? then 4 else 2 }

    /** FAT entries hold values below this bound. */
    function EntryMod(): nat {
      match fatType
      case Fat12 => 0x1000
      case Fat16 => 0x1_0000
      case Fat32 => 0x1000_0000
    }

    /** What is left of the 32-bit end mark 0xFFFFFFFF after it is stored in an entry. */
    function Eoc(): nat { EntryMod() - 1 }

    /** Everything the other layers rely on; `total` is the number of sectors on the drive. */
    ghost predicate Valid(total: nat) {
      && (nFats == 1 || nFats == 2)
      && fsize > 0
      && 0 < csize <= 128
      && 3 <= nFatent < Eoc()
      && EntryOffset(nFatent - 1) + EntryBytes() <= fsize * SS
      && volbase < fatbase
      && FatEnd() <= database
      && (!fatType.Fat32? ==> FatEnd() == dirbase && dirbase + nRootdir / 16 == database)
      && database + Times(csize, nFatent - 2) <= total <= TWO32
    }

    predicate InFirstFat(s: nat) { fatbase <= s < fatbase + fsize }
    predicate InFats(s: nat) { fatbase <= s < FatEnd() }
    predicate InCluster(c: nat) { 2 <= c < nFatent }

    /** First sector of cluster `c`. */
    function ClusterBase(c: nat): nat
      requires c >= 2
    {
      database + Times(csize, c - 2)
    }

    /** `clst2sect`: 0 on an invalid cluster number. The source first subtracts 2 in 32 bits. */
    function Clst2Sect(clst: nat): (s: nat)
      requires clst < TWO32 && 2 <= nFatent <= 0x1000_0000
      ensures s == if InCluster(clst) then ClusterBase(clst) else 0
    {
      var c := (clst - 2) % TWO32;
      assert clst < 2 ==> c == clst - 2 + TWO32;
      if c >= nFatent - 2 then 0 else database + Times(csize, c)
    }
  }

  /** Two sectors of clusters coincide only when cluster and offset do. */
  lemma ClusterSectorsDistinct(g: Geometry, c: nat, i: nat, c': nat, i': nat)
    requires c >= 2 && c' >= 2 && i < g.csize && i' < g.csize
    requires g.ClusterBase(c) + i == g.ClusterBase(c') + i'
    ensures c == c' && i == i'
  {
    TimesUnique(g.csize, c - 2, i, c' - 2, i');
  }

  /** A sector of a valid cluster is a data sector inside the volume. */
  lemma ClusterSectorInData(g: Geometry, total: nat, c: nat, i: nat)
    requires g.Valid(total) && g.InCluster(c) && i < g.csize
    ensures g.database <= g.ClusterBase(c) + i < total
    ensures !g.InFats(g.ClusterBase(c) + i)
  {
    TimesStep(g.csize, c - 2, g.nFatent - 2);
  }

  /** Storing 0xFFFFFFFF leaves the end mark, which is no cluster number; storing a cluster number keeps it. */
  lemma EndMark(g: Geometry, total: nat)
    requires g.Valid(total)
    ensures (TWO32 - 1) % g.EntryMod() == g.Eoc() && !g.InCluster(g.Eoc()) && g.nFatent < g.Eoc()
    ensures forall c :: 0 <= c < g.nFatent ==> c % g.EntryMod() == c
  {
    match g.fatType
    case Fat12 =>
    case Fat16 =>
    case Fat32 =>
  }

  /** Every entry of a valid volume lies in the first FAT. */
  lemma EntryInside(g: Geometry, total: nat, c: nat)
    requires g.Valid(total) && c < g.nFatent
    ensures g.EntryOffset(c) + g.EntryBytes() <= g.fsize * SS
  {
  }
}
