/** A mounted FAT volume: the one-sector write-back window and the FAT entries behind it. */
module Volumes {
  import opened Words
  import opened Layout
  import opened FatTable
  import opened Drive

  datatype Result = Ok | IntErr | DiskErr

  /** `FATFS`. Disk transfers always succeed. */
  class Volume {
    const g: Geometry
    const win: array<byte>   // disk access window
    var disk: Disk           // the medium
    var winsect: nat         // sector in the window
    var wflag: bool          // window is dirty
    var lastClst: nat        // last allocated cluster
    var freeClst: nat        // number of free clusters, above nFatent - 2 when unknown

    constructor (g: Geometry, disk: Disk, sect: nat)
      requires DiskOk(disk, g) && sect < |disk|
      ensures Valid() && fresh(win)
      ensures this.g == g && this.disk == disk && Abs() == disk && winsect == sect
      ensures !wflag && lastClst == freeClst == TWO32 - 1
    {
      this.g := g;
      this.disk := disk;
      this.win := new byte[SS](i requires 0 <= i < SS && sect < |disk| && |disk[sect]| == SS => disk[sect][i]);
      this.winsect := sect;
      this.wflag := false;
      this.lastClst, this.freeClst := TWO32 - 1, TWO32 - 1;
      new;
      assert win[..] == disk[sect];
    }

    /** The window shows its sector, unless it is dirty. */
    ghost predicate WindowOk()
      reads `disk, `winsect, `wflag, win
    {
      && win.Length == SS
      && DiskOk(disk, g)
      && winsect < |disk|
      && (!wflag ==> win[..] == disk[winsect])
    }

    ghost predicate Valid()
      reads this, win
    {
      WindowOk() && lastClst < TWO32 && freeClst < TWO32
    }

    /** The abstract disk: the medium overlaid with the dirty window. */
    ghost function Abs(): (d: Disk)
      requires WindowOk()
      reads `disk, `winsect, `wflag, win
      ensures DiskOk(d, g) && |d| == |disk| && d[winsect] == win[..]
    {
      if wflag then WithSector(disk, g, winsect, win[..]) else disk
    }

    /** The FAT as a sequence of entries. */
    ghost function Fat(): (t: seq<nat>)
      requires WindowOk()
      reads `disk, `winsect, `wflag, win
      ensures |t| == g.nFatent
    {
      TableOf(Abs(), g)
    }

    /** `sync_window` */
    method SyncWindow()
      requires Valid()
      modifies `disk, `wflag
      ensures Valid() && !wflag
      ensures Abs() == old(Abs()) && disk == Abs()
    {
      if wflag {
        var content := win[..];
        disk := disk[winsect := content];
        wflag := false;
        if (winsect - g.fatbase) % TWO32 < g.fsize {
          if g.nFats == 2 {
            disk := disk[winsect + g.fsize := content];
          }
        }
      }
    }

    /** `move_window` */
    method MoveWindow(sect: nat)
      requires Valid() && sect < |disk|
      modifies this, win
      ensures Valid() && winsect == sect
      ensures Abs() == old(Abs())
      ensures lastClst == old(lastClst) && freeClst == old(freeClst)
    {
      if sect != winsect {
        SyncWindow();
        forall i | 0 <= i < SS { win[i] := disk[sect][i]; }
        assert win[..] == disk[sect];
        winsect := sect;
      }
    }

    /** A store into the window followed by `wflag = 1`. */
    method Poke(o: nat, b: byte)
      requires Valid() && o < SS && g.InFirstFat(winsect)
      modifies this`wflag, win
      ensures Valid() && wflag
      ensures FatOnly(old(Abs()), Abs(), g)
      ensures FatBytes(Abs(), g) == FatBytes(old(Abs()), g)[(winsect - g.fatbase) * SS + o := b]
    {
      ghost var d: Disk := Abs();
      win[o] := b;
      wflag := true;
      assert win[..] == d[winsect][o := b];
      assert Abs() == WithSector(d, g, winsect, d[winsect][o := b]);
      WithFatByte(d, g, winsect, o, b);
    }

    /** `disk_read` of `c` sectors past the window. */
    method DiskRead(s: nat, c: nat) returns (w: seq<seq<byte>>)
      requires Valid() && s + c <= |disk| && OutsideFats(g, s, c) && !(s <= winsect < s + c)
      ensures w == Abs()[s..s + c] && AllSectors(w)
    {
      w := disk[s..s + c];
    }

    /** `disk_write` of whole sectors past the window. */
    method DiskWrite(s: nat, w: seq<seq<byte>>)
      requires Valid() && AllSectors(w) && s + |w| <= |disk| && OutsideFats(g, s, |w|) && !(s <= winsect < s + |w|)
      modifies `disk
      ensures Valid() && Abs() == WriteRun(old(Abs()), s, w) && Fat() == old(Fat())
      ensures Mirrored(old(Abs()), g) ==> Mirrored(Abs(), g)
    {
      hide DiskOk, Geometry.Valid, FatBytes, Mirrored, WithSector;
      ghost var d: Disk := Abs();
      WriteRunOverlay(disk, g, winsect, win[..], s, w);
      WriteRunFat(d, g, s, w);
      WriteRunFat(disk, g, s, w);
      disk := WriteRun(disk, s, w);
    }

    /** Stores into the window over a sector outside the FATs, followed by `wflag = 1`. */
    method StoreInWindow(o: nat, data: seq<byte>)
      requires Valid() && o + |data| <= SS && !g.InFats(winsect)
      modifies this`wflag, win
      ensures Valid() && wflag && Fat() == old(Fat())
      ensures Abs() == old(Abs())[winsect := Patch(old(Abs()[winsect]), o, data)]
      ensures Mirrored(old(Abs()), g) ==> Mirrored(Abs(), g)
    {
      hide FatBytes, Mirrored;
      ghost var d: Disk, was := Abs(), win[..];
      forall i | 0 <= i < |data| { win[o + i] := data[i]; }
      wflag := true;
      assert win[..] == Patch(was, o, data);
      assert Abs() == d[winsect := win[..]];
      PatchFat(d, g, winsect, win[..]);
    }

    /** `dir_clear` of the cluster at `sect`; the buffer it gets holds 64 sectors or the whole cluster. */
    method DirClear(sect: nat)
      requires Valid() && (0 < g.csize <= 64 || g.csize == 128)
      requires sect + g.csize <= |disk| && OutsideFats(g, sect, g.csize)
      modifies `disk, `wflag, `winsect, win
      ensures Valid() && winsect == sect && Fat() == old(Fat())
      ensures Abs() == WriteRun(old(Abs()), sect, ZeroSectors(g.csize))
      ensures Mirrored(old(Abs()), g) ==> Mirrored(Abs(), g)
    {
      hide FatBytes, Mirrored, WithSector, DiskOk, Geometry.Valid, WriteRun, ZeroSectors, Table;
      SyncWindow();
      ghost var d: Disk := disk;
      winsect := sect;
      forall i | 0 <= i < SS { win[i] := 0; }
      var step: nat := if g.csize > 64 then 64 else g.csize;
      var n: nat := 0;
      ZeroRunStart(d, sect, g.csize);
      while n < g.csize
        invariant n == 0 || n == step || n == g.csize
        invariant winsect == sect && forall i :: 0 <= i < SS ==> win[i] == 0
        invariant !wflag && disk == WriteRun(d, sect, ZeroSectors(n))
      {
        ZeroRuns(d, sect, n, step);
        disk := WriteRun(disk, sect + n, ZeroSectors(step));
        n := n + step;
      }
      WriteRunFat(d, g, sect, ZeroSectors(g.csize));
      assert win[..] == disk[sect];
    }

    /** `get_fat`: 1 on an invalid cluster number. */
    method GetFat(clst: nat) returns (val: nat)
      requires Valid()
      modifies this, win
      ensures Valid() && Abs() == old(Abs()) && Fat() == old(Fat())
      ensures val == if 2 <= clst < g.nFatent then Fat()[clst] else 1
      ensures if 2 <= clst < g.nFatent then g.InFirstFat(winsect) else winsect == old(winsect)
      ensures lastClst == old(lastClst) && freeClst == old(freeClst)
    {
      if !g.InCluster(clst) {
        return 1;
      }
      EntryInside(g, |disk|, clst);
      match g.fatType
      case Fat12 => val := GetFat12(clst);
      case Fat16 => val := GetFat16(clst);
      case Fat32 => val := GetFat32(clst);
    }

    method GetFat12(clst: nat) returns (val: nat)
      requires Valid() && g.InCluster(clst) && g.fatType.Fat12?
      modifies this, win
      ensures Valid() && Abs() == old(Abs()) && val == Entry(FatBytes(Abs(), g), g, clst) && g.InFirstFat(winsect)
      ensures lastClst == old(lastClst) && freeClst == old(freeClst)
    {
      hide Abs, FatBytes, Entry, LdWord, DiskOk, Geometry.Valid;
      EntryBytesInside(disk, g, clst);
      ghost var f: seq<byte> := FatBytes(Abs(), g);
      var bc := clst + clst / 2;
      MoveToFatByte(bc, bc / SS, bc % SS);
      var lo := win[bc % SS];
      bc := bc + 1;
      MoveToFatByte(bc, bc / SS, bc % SS);
      var wc := lo as int + win[bc % SS] as int * 0x100;
      val := if clst % 2 == 1 then wc / 16 else wc % 0x1000;
      Entry12(f, g, clst, wc);
    }

    method GetFat16(clst: nat) returns (val: nat)
      requires Valid() && g.InCluster(clst) && g.fatType.Fat16?
      modifies this, win
      ensures Valid() && Abs() == old(Abs()) && val == Entry(FatBytes(Abs(), g), g, clst) && g.InFirstFat(winsect)
      ensures lastClst == old(lastClst) && freeClst == old(freeClst)
    {
      hide Abs, FatBytes, DiskOk, Geometry.Valid;
      EntryBytesInside(disk, g, clst);
      EntryPlace2(clst);
      var o := clst * 2 % SS;
      MoveToFatByte(2 * clst, clst / (SS / 2), o);
      val := LdWord(win[..], o);
    }

    method GetFat32(clst: nat) returns (val: nat)
      requires Valid() && g.InCluster(clst) && g.fatType.Fat32?
      modifies this, win
      ensures Valid() && Abs() == old(Abs()) && val == Entry(FatBytes(Abs(), g), g, clst) && g.InFirstFat(winsect)
      ensures lastClst == old(lastClst) && freeClst == old(freeClst)
    {
      hide Abs, FatBytes, LdDword, DiskOk, Geometry.Valid;
      EntryBytesInside(disk, g, clst);
      EntryPlace4(clst);
      var o := clst * 4 % SS;
      LoadFatDword(4 * clst, clst / (SS / 4), o);
      val := LdDword(win[..], o) % 0x1000_0000;
    }

    /** Brings the sector of FAT byte `k` into the window, where it is byte `o`. */
    method MoveToFatByte(k: nat, sect: nat, o: nat)
      requires Valid() && k < g.fsize * SS && k == SS * sect + o && o < SS
      modifies this, win
      ensures Valid() && Abs() == old(Abs()) && winsect == g.fatbase + sect && sect < g.fsize
      ensures forall i :: 0 <= i < SS ==> win[i] == FatBytes(Abs(), g)[SS * sect + i]
      ensures lastClst == old(lastClst) && freeClst == old(freeClst)
    {
      MoveWindow(g.fatbase + sect);
      assert win[..] == Abs()[winsect];
      forall i | 0 <= i < SS
        ensures win[i] == FatBytes(Abs(), g)[SS * sect + i]
      {
        assert win[i] == win[..][i];
        assert (SS * sect + i) / SS == sect && (SS * sect + i) % SS == i;
      }
    }

    method LoadFatDword(k: nat, sect: nat, o: nat)
      requires Valid() && k + 4 <= g.fsize * SS && k == SS * sect + o && o + 4 <= SS
      modifies this, win
      ensures Valid() && Abs() == old(Abs()) && winsect == g.fatbase + sect && sect < g.fsize
      ensures LdDword(win[..], o) == LdDword(FatBytes(Abs(), g), k)
      ensures lastClst == old(lastClst) && freeClst == old(freeClst)
    {
      hide Abs, FatBytes, LdDword;
      MoveToFatByte(k, sect, o);
      ghost var f: seq<byte> := FatBytes(Abs(), g);
      assert win[o] == f[SS * sect + o] && win[o + 1] == f[SS * sect + (o + 1)];
      assert win[o + 2] == f[SS * sect + (o + 2)] && win[o + 3] == f[SS * sect + (o + 3)];
      SameDword(win[..], o, f, k);
    }

    /** `put_fat` */
    method PutFat(clst: nat, val: nat) returns (res: Result)
      requires Valid()
      modifies this, win
      ensures Valid()
      ensures res == if g.InCluster(clst) then Ok else IntErr
      ensures !g.InCluster(clst) ==> Abs() == old(Abs()) && winsect == old(winsect)
      ensures g.InCluster(clst) ==>
        && FatBytes(Abs(), g) == Put(old(FatBytes(Abs(), g)), g, clst, val)
        && Fat() == old(Fat())[clst := val % g.EntryMod()]
        && g.InFirstFat(winsect)
      ensures FatOnly(old(Abs()), Abs(), g)
      ensures lastClst == old(lastClst) && freeClst == old(freeClst)
    {
      if !g.InCluster(clst) {
        return IntErr;
      }
      ghost var f: seq<byte> := FatBytes(Abs(), g);
      EntryInside(g, |disk|, clst);
      match g.fatType {
        case Fat12 => PutFat12(clst, val);
        case Fat16 => PutFat16(clst, val);
        case Fat32 => PutFat32(clst, val);
      }
      PutUpdatesTable(f, g, clst, val);
      res := Ok;
    }

    method PutFat12(clst: nat, val: nat)
      requires Valid() && g.InCluster(clst) && g.fatType.Fat12?
      modifies this, win
      ensures Valid() && g.InFirstFat(winsect)
      ensures FatBytes(Abs(), g) == Put(old(FatBytes(Abs(), g)), g, clst, val)
      ensures FatOnly(old(Abs()), Abs(), g)
      ensures lastClst == old(lastClst) && freeClst == old(freeClst)
    {
      hide Abs, FatBytes, FirstNibbles, SecondNibbles, DiskOk, Geometry.Valid;
      EntryBytesInside(disk, g, clst);
      ghost var f: seq<byte> := FatBytes(Abs(), g);
      var bc := clst + clst / 2;
      UpdateFatByte(bc, clst, val, false);
      ghost var f1: seq<byte> := f[bc := FirstNibbles(f[bc], clst, val)];
      UpdateFatByte(bc + 1, clst, val, true);
      assert FatBytes(Abs(), g) == f1[bc + 1 := SecondNibbles(f1[bc + 1], clst, val)];
    }

    /** Read-modify-write of one byte of a FAT12 entry. */
    method UpdateFatByte(bc: nat, clst: nat, val: nat, second: bool)
      requires Valid() && bc < g.fsize * SS
      modifies this, win
      ensures Valid() && g.InFirstFat(winsect)
      ensures var f: seq<byte> := old(FatBytes(Abs(), g));
        FatBytes(Abs(), g) == f[bc := if second then SecondNibbles(f[bc], clst, val) else FirstNibbles(f[bc], clst, val)]
      ensures FatOnly(old(Abs()), Abs(), g)
      ensures lastClst == old(lastClst) && freeClst == old(freeClst)
    {
      hide Abs, FatBytes, FirstNibbles, SecondNibbles, DiskOk, Geometry.Valid;
      var sect, o := bc / SS, bc % SS;
      MoveToFatByte(bc, sect, o);
      var p := win[o];
      Poke(o, if second then SecondNibbles(p, clst, val) else FirstNibbles(p, clst, val));
    }

    method PutFat16(clst: nat, val: nat)
      requires Valid() && g.InCluster(clst) && g.fatType.Fat16?
      modifies this, win
      ensures Valid() && g.InFirstFat(winsect)
      ensures FatBytes(Abs(), g) == Put(old(FatBytes(Abs(), g)), g, clst, val)
      ensures FatOnly(old(Abs()), Abs(), g)
      ensures lastClst == old(lastClst) && freeClst == old(freeClst)
    {
      hide Abs, FatBytes, DiskOk, Geometry.Valid;
      EntryBytesInside(disk, g, clst);
      EntryPlace2(clst);
      var o := clst * 2 % SS;
      MoveToFatByte(2 * clst, clst / (SS / 2), o);
      Poke(o, val % 0x100);
      Poke(o + 1, val / 0x100 % 0x100);
    }

    method PutFat32(clst: nat, val: nat)
      requires Valid() && g.InCluster(clst) && g.fatType.Fat32?
      modifies this, win
      ensures Valid() && g.InFirstFat(winsect)
      ensures FatBytes(Abs(), g) == Put(old(FatBytes(Abs(), g)), g, clst, val)
      ensures FatOnly(old(Abs()), Abs(), g)
      ensures lastClst == old(lastClst) && freeClst == old(freeClst)
    {
      hide Abs, FatBytes, LdDword, PutDword, MergeReserved, DiskOk, Geometry.Valid;
      EntryBytesInside(disk, g, clst);
      EntryPlace4(clst);
      var o := clst * 4 % SS;
      LoadFatDword(4 * clst, clst / (SS / 4), o);
      StoreDword(4 * clst, o, MergeReserved(LdDword(win[..], o), val));
    }

    /** `st_dword` into the window at the place of FAT byte `k`. */
    method StoreDword(k: nat, o: nat, v: nat)
      requires Valid() && g.InFirstFat(winsect) && k == (winsect - g.fatbase) * SS + o && o + 4 <= SS
      modifies this`wflag, win
      ensures Valid()
      ensures k + 4 <= g.fsize * SS && FatBytes(Abs(), g) == PutDword(old(FatBytes(Abs(), g)), k, v)
      ensures FatOnly(old(Abs()), Abs(), g)
    {
      hide Abs, FatBytes, FatOnly, DiskOk, Geometry.Valid, WithSector;
      ghost var d0: Disk := Abs();
      Poke(o, v % 0x100);
      ghost var d1: Disk := Abs();
      Poke(o + 1, v / 0x100 % 0x100);
      ghost var d2: Disk := Abs();
      FatOnlyTrans(d0, d1, d2, g);
      Poke(o + 2, v / 0x100 / 0x100 % 0x100);
      ghost var d3: Disk := Abs();
      FatOnlyTrans(d0, d2, d3, g);
      Poke(o + 3, v / 0x100 / 0x100 / 0x100 % 0x100);
      FatOnlyTrans(d0, d3, Abs(), g);
    }
  }

  lemma Entry12(f: seq<byte>, g: Geometry, c: nat, wc: nat)
    requires Covers(f, g) && c < g.nFatent && g.fatType.Fat12?
    requires c + c / 2 + 1 < |f| && wc == f[c + c / 2] as int + f[c + c / 2 + 1] as int * 0x100
    ensures Entry(f, g, c) == if c % 2 == 1 then wc / 16 else wc % 0x1000
  {
  }

  lemma SameDword(s: seq<byte>, i: nat, t: seq<byte>, j: nat)
    requires i + 4 <= |s| && j + 4 <= |t|
    requires s[i] == t[j] && s[i + 1] == t[j + 1] && s[i + 2] == t[j + 2] && s[i + 3] == t[j + 3]
    ensures LdDword(s, i) == LdDword(t, j)
  {
  }

  lemma EntryBytesInside(d: Disk, g: Geometry, c: nat)
    requires DiskOk(d, g) && c < g.nFatent
    ensures g.EntryOffset(c) + g.EntryBytes() <= g.fsize * SS
    ensures Covers(FatBytes(d, g), g)
  {
    EntryInside(g, |d|, c);
  }

  /** A 2-byte entry never straddles a sector boundary, nor does a 4-byte one. */
  lemma EntryPlace2(c: nat)
    ensures 2 * c == SS * (c / (SS / 2)) + c * 2 % SS && c * 2 % SS + 2 <= SS
  {
    assert c == 256 * (c / 256) + c % 256;
    assert c * 2 == SS * (c / 256) + 2 * (c % 256);
  }

  lemma EntryPlace4(c: nat)
    ensures 4 * c == SS * (c / (SS / 4)) + c * 4 % SS && c * 4 % SS + 4 <= SS
  {
    assert c == 128 * (c / 128) + c % 128;
    assert c * 4 == SS * (c / 128) + 4 * (c % 128);
  }

  /** The entries of the FAT stored on `d`. */
  ghost function TableOf(d: Disk, g: Geometry): (t: seq<nat>)
    requires DiskOk(d, g)
    ensures |t| == g.nFatent
  {
    Table(FatBytes(d, g), g)
  }
}
