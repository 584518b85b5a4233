/** `mount_volume`: from the BIOS parameter block to the layout of the volume. */
module Mount {
  import opened Words
  import opened Layout

  /** The fields of the boot sector that decide the layout. */
  datatype Bpb = Bpb(
    bytsPerSec: nat, secPerClus: nat, rsvdSecCnt: nat, numFats: nat, rootEntCnt: nat,
    totSec16: nat, fatSz16: nat, totSec32: nat, fatSz32: nat, fsVer: nat, rootClus: nat)
  {
    predicate InRange() {
      && bytsPerSec < 0x1_0000 && secPerClus < 0x100 && rsvdSecCnt < 0x1_0000 && numFats < 0x100
      && rootEntCnt < 0x1_0000 && totSec16 < 0x1_0000 && fatSz16 < 0x1_0000
      && totSec32 < TWO32 && fatSz32 < TWO32 && fsVer < 0x1_0000 && rootClus < TWO32
    }

    function FatSize(): nat { if fatSz16 == 0 then fatSz32 else fatSz16 }
    function TotalSectors(): nat { if totSec16 == 0 then totSec32 else totSec16 }

    /** Sectors in front of the data area. */
    function SystemSectors(): nat {
      rsvdSecCnt + (if numFats == 2 then FatSize() + FatSize() else FatSize()) + rootEntCnt / 16
    }
  }

  /** The fields as they lie in the boot sector. */
  function ParseBpb(win: seq<byte>): (b: Bpb)
    requires |win| == SS
    ensures b.InRange()
  {
    Bpb(LdWord(win, 11), win[13], LdWord(win, 14), win[16], LdWord(win, 17),
        LdWord(win, 19), LdWord(win, 22), LdDword(win, 32), LdDword(win, 36), LdWord(win, 42), LdDword(win, 44))
  }

  /** Two bytes, low byte first. */
  function Two(w: nat): seq<byte> { [w % 0x100, w / 0x100 % 0x100] }

  /** Four bytes, low byte first. */
  function Four(w: nat): seq<byte> { Two(w % 0x1_0000) + Two(w / 0x1_0000) }

  /** A boot sector is parsed into the fields it was put together from (FAT32 File System Specification, section "Boot
      Sector and BPB"). */
  lemma ParsesFields(b: Bpb, jump: seq<byte>, media: byte, heads: seq<byte>, flags: seq<byte>, code: seq<byte>)
    requires b.InRange() && |jump| == 11 && |heads| == 8 && |flags| == 2 && |code| == 464
    ensures var front := jump + Two(b.bytsPerSec) + [b.secPerClus] + Two(b.rsvdSecCnt) + [b.numFats] + Two(b.rootEntCnt)
                         + Two(b.totSec16) + [media] + Two(b.fatSz16) + heads + Four(b.totSec32);
      var back := Four(b.fatSz32) + flags + Two(b.fsVer) + Four(b.rootClus) + code;
      |front| == 36 && |back| == 476 && ParseBpb(front + back) == b
  {
    hide Two, Four, LdWord, LdDword;
    TwoReads(b.bytsPerSec); TwoReads(b.rsvdSecCnt); TwoReads(b.rootEntCnt); TwoReads(b.totSec16); TwoReads(b.fatSz16);
    TwoReads(b.fsVer); FourReads(b.totSec32); FourReads(b.fatSz32); FourReads(b.rootClus);
    var front := jump + Two(b.bytsPerSec) + [b.secPerClus] + Two(b.rsvdSecCnt) + [b.numFats] + Two(b.rootEntCnt)
                 + Two(b.totSec16) + [media] + Two(b.fatSz16) + heads + Four(b.totSec32);
    var back := Four(b.fatSz32) + flags + Two(b.fsVer) + Four(b.rootClus) + code;
    var win := front + back;
    WordMoved(win, 11, Two(b.bytsPerSec));
    WordMoved(win, 14, Two(b.rsvdSecCnt));
    WordMoved(win, 17, Two(b.rootEntCnt));
    WordMoved(win, 19, Two(b.totSec16));
    WordMoved(win, 22, Two(b.fatSz16));
    WordMoved(win, 42, Two(b.fsVer));
    DwordMoved(win, 32, Four(b.totSec32));
    DwordMoved(win, 36, Four(b.fatSz32));
    DwordMoved(win, 44, Four(b.rootClus));
  }

  lemma TwoReads(w: nat)
    ensures |Two(w)| == 2 && (w < 0x1_0000 ==> LdWord(Two(w), 0) == w)
  {
  }

  lemma FourReads(w: nat)
    ensures |Four(w)| == 4 && (w < TWO32 ==> LdDword(Four(w), 0) == w)
  {
  }

  lemma WordMoved(s: seq<byte>, i: nat, t: seq<byte>)
    requires i + 2 <= |s| && |t| == 2 && s[i] == t[0] && s[i + 1] == t[1]
    ensures LdWord(s, i) == LdWord(t, 0)
  {
  }

  lemma DwordMoved(s: seq<byte>, i: nat, t: seq<byte>)
    requires i + 4 <= |s| && |t| == 4 && s[i] == t[0] && s[i + 1] == t[1] && s[i + 2] == t[2] && s[i + 3] == t[3]
    ensures LdDword(s, i) == LdDword(t, 0)
  {
  }

  datatype MountResult = NoFilesystem | Mounted(g: Geometry)

  const MAX_FAT12: nat := 0xFF5
  const MAX_FAT16: nat := 0xFFF5
  const MAX_FAT32: nat := 0x0FFFFFF5

  /** A sum as 32-bit arithmetic leaves it. */
  function Wrap32(x: nat): nat { x % TWO32 }

  lemma NoWrap32(x: nat)
    ensures Wrap32(x) == x <==> x < TWO32
    ensures Wrap32(x) < TWO32
  {
  }

  predicate PowerOfTwo(c: nat) {
    c == 1 || c == 2 || c == 4 || c == 8 || c == 16 || c == 32 || c == 64 || c == 128
  }

  /** The sector behind the last of `nclst` clusters, added up without wrapping. */
  function DataEnd(b: Bpb, bsect: nat, nclst: nat): nat {
    bsect + b.SystemSectors() + Times(b.secPerClus, nclst)
  }

  /** No sum of sector counts on the way to the last data sector leaves 32 bits. */
  predicate SumsFit(b: Bpb, bsect: nat, nclst: nat) {
    DataEnd(b, bsect, nclst) <= TWO32
  }

  /** Some drive has room for the layout. */
  ghost predicate LaidOut(g: Geometry) {
    exists total: nat :: g.Valid(total)
  }

  /** The part of `mount_volume` that interprets the boot sector of the volume at sector `bsect`.
      All sums are 32-bit. An accepted volume is laid out properly exactly when no sum wraps, and then ends before
      the sectors that the boot sector gives to it do. */
  method MountVolume(b: Bpb, bsect: nat) returns (r: MountResult)
    requires b.InRange() && bsect < TWO32
    ensures r.Mounted? ==>
      && r.g.nFatent > 2 && r.g.volbase == bsect && PowerOfTwo(r.g.csize) && r.g.csize == b.secPerClus && r.g.fsize == b.FatSize()
      && Computed(b, bsect, r.g)
      && (r.g.fatType.Fat12? <==> r.g.nFatent - 2 <= 4085) && (r.g.fatType.Fat32? <==> r.g.nFatent - 2 > 65525)
      && (LaidOut(r.g) <==> SumsFit(b, bsect, r.g.nFatent - 2))
      && (SumsFit(b, bsect, r.g.nFatent - 2) ==>
          r.g.Valid(DataEnd(b, bsect, r.g.nFatent - 2)) && DataEnd(b, bsect, r.g.nFatent - 2) <= bsect + b.TotalSectors())
    ensures r.NoFilesystem? <==> Rejected(b)
  {
    hide Times, Geometry.Valid, LaidOut, SumsFit, DataEnd, ClusterCount, FatBytesNeeded, Computed, Wrap32, PowerOfTwo, SizesRejected;
    var ok, fasize, sysect, tsect := SystemArea(b);
    if !ok { return NoFilesystem; }
    var csize := b.secPerClus;
    var nclst := ClusterCount(tsect - sysect, csize);
    if nclst == 0 { return NoFilesystem; }
    var fmt := SubType(nclst);
    if fmt.None? { return NoFilesystem; }
    var g := Geometry(fmt.t, b.numFats, b.FatSize(), csize, b.rootEntCnt, nclst + 2, bsect, Wrap32(bsect + b.rsvdSecCnt), 0,
                      Wrap32(bsect + sysect));
    var szbfat: nat;
    if fmt.t.Fat32? {
      if b.fsVer != 0 || b.rootEntCnt != 0 { return NoFilesystem; }
      g := g.(dirbase := b.rootClus);
      szbfat := g.nFatent * 4;
    } else {
      if b.rootEntCnt == 0 { return NoFilesystem; }
      g := g.(dirbase := Wrap32(g.fatbase + fasize));
      szbfat := if fmt.t.Fat16? then g.nFatent * 2 else g.nFatent * 3 / 2 + g.nFatent % 2;
    }
    NeededBytes(nclst, szbfat, g.fsize);
    if g.fsize < (szbfat + (SS - 1)) / SS { return NoFilesystem; }
    EntriesFit(g, szbfat);
    ComputedHolds(b, bsect, g, fasize, sysect);
    LayoutIff(b, bsect, g);
    r := Mounted(g);
  }

  /** The first checks: sizes of the FATs, of clusters and of the area in front of the data. */
  method SystemArea(b: Bpb) returns (ok: bool, fasize: nat, sysect: nat, tsect: nat)
    requires b.InRange()
    ensures ok <==> !SizesRejected(b)
    ensures ok ==> fasize == FatArea(b) && sysect == SystemSum(b) && tsect == b.TotalSectors()
    ensures ok ==> 0 < b.secPerClus && sysect <= tsect && (b.numFats == 1 || b.numFats == 2) && b.rsvdSecCnt > 0
                   && PowerOfTwo(b.secPerClus)
  {
    hide Wrap32;
    ok, fasize, sysect, tsect := false, 0, 0, 0;
    if b.bytsPerSec != SS { return; }
    fasize := b.fatSz16;
    if fasize == 0 { fasize := b.fatSz32; }
    if b.numFats != 1 && b.numFats != 2 { return; }
    fasize := Wrap32(if b.numFats == 2 then fasize + fasize else fasize);
    if !PowerOfTwo(b.secPerClus) { return; }
    if b.rootEntCnt % 16 != 0 { return; }
    tsect := b.totSec16;
    if tsect == 0 { tsect := b.totSec32; }
    if b.rsvdSecCnt == 0 { return; }
    sysect := Wrap32(b.rsvdSecCnt + fasize + b.rootEntCnt / 16);
    if tsect < sysect { return; }
    ok := true;
  }

  /** Sectors of all FATs, as computed. */
  function FatArea(b: Bpb): nat {
    Wrap32(if b.numFats == 2 then b.FatSize() + b.FatSize() else b.FatSize())
  }

  /** Sectors in front of the data area, as computed. */
  function SystemSum(b: Bpb): nat {
    Wrap32(b.rsvdSecCnt + FatArea(b) + b.rootEntCnt / 16)
  }

  predicate SizesRejected(b: Bpb) {
    || b.bytsPerSec != SS || (b.numFats != 1 && b.numFats != 2) || !PowerOfTwo(b.secPerClus)
    || b.rootEntCnt % 16 != 0 || b.rsvdSecCnt == 0 || b.TotalSectors() < SystemSum(b)
  }

  lemma NeededBytes(nclst: nat, szbfat: nat, fsize: nat)
    requires szbfat == match SubType(nclst)
                       case Some(Fat12) => (nclst + 2) * 3 / 2 + (nclst + 2) % 2
                       case Some(Fat16) => (nclst + 2) * 2
                       case _ => (nclst + 2) * 4
    ensures fsize * SS < FatBytesNeeded(nclst) <==> fsize < (szbfat + (SS - 1)) / SS
  {
  }

  lemma ComputedHolds(b: Bpb, bsect: nat, g: Geometry, fasize: nat, sysect: nat)
    requires fasize == FatArea(b) && sysect == SystemSum(b)
    requires (g.nFats == 1 || g.nFats == 2) && g.nFats == b.numFats && g.fsize == b.FatSize() && PowerOfTwo(g.csize)
    requires g.nRootdir == b.rootEntCnt && g.csize == b.secPerClus
    requires b.rsvdSecCnt > 0 && sysect <= b.TotalSectors()
    requires g.nFatent > 2 && g.nFatent - 2 == ClusterCount(b.TotalSectors() - sysect, g.csize)
    requires SubType(g.nFatent - 2) == Some(g.fatType)
    requires g.volbase == bsect && g.fatbase == Wrap32(bsect + b.rsvdSecCnt) && g.database == Wrap32(bsect + sysect)
    requires !g.fatType.Fat32? ==> g.dirbase == Wrap32(g.fatbase + fasize)
    requires g.fatType.Fat32? ==> b.rootEntCnt == 0 && g.dirbase == b.rootClus
    requires g.EntryOffset(g.nFatent - 1) + g.EntryBytes() <= g.fsize * SS
    ensures Computed(b, bsect, g)
  {
  }

  datatype Option<T> = None | Some(t: T)

  /** The sub-type follows from the number of clusters alone. */
  function SubType(nclst: nat): (r: Option<FatType>)
  {
    if nclst <= MAX_FAT12 then Some(Fat12) else if nclst <= MAX_FAT16 then Some(Fat16)
    else if nclst <= MAX_FAT32 then Some(Fat32) else None
  }

  function ClusterCount(sectors: nat, csize: nat): (n: nat)
    requires csize > 0
    ensures Times(csize, n) <= sectors < Times(csize, n) + csize
  {
    TimesIsProduct(csize, sectors / csize);
    sectors / csize
  }

  /** Sizes of the FAT are checked against the rounded byte count of all entries. */
  lemma EntriesFit(g: Geometry, szbfat: nat)
    requires g.nFatent > 2
    requires szbfat == match g.fatType
                       case Fat32 => g.nFatent * 4
                       case Fat16 => g.nFatent * 2
                       case Fat12 => g.nFatent * 3 / 2 + g.nFatent % 2
    requires g.fsize >= (szbfat + (SS - 1)) / SS
    ensures g.EntryOffset(g.nFatent - 1) + g.EntryBytes() <= szbfat <= g.fsize * SS
  {
  }

  /** The boot sectors `mount_volume` refuses. */
  predicate Rejected(b: Bpb) {
    || SizesRejected(b)
    || (var nclst := ClusterCount(b.TotalSectors() - SystemSum(b), b.secPerClus);
        || nclst == 0 || nclst > MAX_FAT32
        || (nclst > MAX_FAT16 && (b.fsVer != 0 || b.rootEntCnt != 0))
        || (nclst <= MAX_FAT16 && b.rootEntCnt == 0)
        || b.FatSize() * SS < FatBytesNeeded(nclst))
  }

  /** Bytes of a FAT for `nclst` clusters and the two entries before them. */
  function FatBytesNeeded(nclst: nat): nat {
    var n := nclst + 2;
    if nclst <= MAX_FAT12 then n * 3 / 2 + n % 2 else if nclst <= MAX_FAT16 then n * 2 else n * 4
  }

  /** What an accepted boot sector and the fields computed from it look like. */
  ghost predicate Computed(b: Bpb, bsect: nat, g: Geometry) {
    var fasize, sysect := FatArea(b), SystemSum(b);
    && (g.nFats == 1 || g.nFats == 2) && g.nFats == b.numFats && g.fsize == b.FatSize() && PowerOfTwo(g.csize)
    && g.nRootdir == b.rootEntCnt && b.rsvdSecCnt > 0 && g.csize == b.secPerClus
    && sysect <= b.TotalSectors()
    && g.nFatent > 2 && g.nFatent - 2 == ClusterCount(b.TotalSectors() - sysect, g.csize)
    && Times(g.csize, g.nFatent - 2) <= b.TotalSectors() - sysect
    && SubType(g.nFatent - 2) == Some(g.fatType)
    && g.volbase == bsect && g.fatbase == Wrap32(bsect + b.rsvdSecCnt) && g.database == Wrap32(bsect + sysect)
    && (!g.fatType.Fat32? ==> g.dirbase == Wrap32(g.fatbase + fasize))
    && (g.fatType.Fat32? ==> b.rootEntCnt == 0 && g.dirbase == b.rootClus)
    && g.EntryOffset(g.nFatent - 1) + g.EntryBytes() <= g.fsize * SS
  }

  /** Any valid layout of an accepted boot sector has the sums as they are without wrapping, and those sums make the
      layout valid. */
  lemma LayoutIff(b: Bpb, bsect: nat, g: Geometry)
    requires b.InRange() && bsect < TWO32 && Computed(b, bsect, g)
    ensures g.nFatent > 2 && (LaidOut(g) <==> SumsFit(b, bsect, g.nFatent - 2))
    ensures SumsFit(b, bsect, g.nFatent - 2) ==>
      g.Valid(DataEnd(b, bsect, g.nFatent - 2)) && DataEnd(b, bsect, g.nFatent - 2) <= bsect + b.TotalSectors()
  {
    hide Times, Geometry.Valid, SumsFit, DataEnd, Wrap32, FatArea, SystemSum;
    if SumsFit(b, bsect, g.nFatent - 2) {
      SumsFitValid(b, bsect, g);
    }
    if LaidOut(g) {
      var total: nat :| g.Valid(total);
      ValidSumsFit(b, bsect, g, total);
    }
  }

  lemma SumsFitValid(b: Bpb, bsect: nat, g: Geometry)
    requires b.InRange() && bsect < TWO32 && Computed(b, bsect, g) && SumsFit(b, bsect, g.nFatent - 2)
    ensures g.Valid(DataEnd(b, bsect, g.nFatent - 2)) && DataEnd(b, bsect, g.nFatent - 2) <= bsect + b.TotalSectors()
  {
    hide Times, Bpb.SystemSectors, Bpb.FatSize, Bpb.TotalSectors, Wrap32;
    NoWrap(b, bsect, g);
  }

  lemma NoWrap(b: Bpb, bsect: nat, g: Geometry)
    requires b.InRange() && bsect < TWO32 && Computed(b, bsect, g) && SumsFit(b, bsect, g.nFatent - 2)
    ensures g.fatbase == bsect + b.rsvdSecCnt && g.database == bsect + b.SystemSectors()
    ensures g.FatEnd() + b.rootEntCnt / 16 == g.database
    ensures !g.fatType.Fat32? ==> g.dirbase == g.FatEnd()
    ensures g.database + Times(g.csize, g.nFatent - 2) == DataEnd(b, bsect, g.nFatent - 2) <= bsect + b.TotalSectors()
  {
    hide Times, Wrap32;
    TimesPositive(g.csize, g.nFatent - 2);
    var fats := if b.numFats == 2 then b.FatSize() + b.FatSize() else b.FatSize();
    NoWrap32(fats);
    NoWrap32(b.SystemSectors());
    NoWrap32(bsect + b.rsvdSecCnt);
    NoWrap32(bsect + b.SystemSectors());
    NoWrap32(bsect + b.rsvdSecCnt + fats);
  }

  lemma TimesPositive(m: nat, n: nat)
    requires m > 0 && n > 0
    ensures Times(m, n) > 0
  {
  }

  lemma ValidSumsFit(b: Bpb, bsect: nat, g: Geometry, total: nat)
    requires b.InRange() && bsect < TWO32 && Computed(b, bsect, g) && g.Valid(total)
    ensures SumsFit(b, bsect, g.nFatent - 2)
  {
    hide Times;
    TimesPositive(g.csize, g.nFatent - 2);
  }

  /** A volume that is accepted although the size of its FATs wraps: two FATs of 2^31 sectors each. */
  lemma WrappedVolumeIsAccepted()
    ensures var b := Bpb(512, 1, 1, 2, 16, 0, 0, 100, 0x8000_0000, 0, 0);
      b.InRange() && !Rejected(b) && !SumsFit(b, 0, ClusterCount(b.TotalSectors() - SystemSum(b), b.secPerClus))
  {
    hide Times, ClusterCount;
    var b := Bpb(512, 1, 1, 2, 16, 0, 0, 100, 0x8000_0000, 0, 0);
    CountOne(98);
    assert b.FatSize() == 0x8000_0000 && SystemSum(b) == 2;
    assert b.SystemSectors() > TWO32;
  }

  lemma CountOne(n: nat)
    ensures ClusterCount(n, 1) == n
  {
  }
}
