/** The drive as an array of sectors, and the bytes of the first FAT on it. */
module Drive {
  import opened Words
  import opened Layout

  type Disk = seq<seq<byte>>

  ghost predicate DiskOk(d: Disk, g: Geometry) {
    && g.Valid(|d|)
    && forall s :: 0 <= s < |d| ==> |d[s]| == SS
  }

  /** The disk after sector `s` gets `content`, with the reflection that `sync_window`
      makes into the second FAT. */
  function WithSector(d: Disk, g: Geometry, s: nat, content: seq<byte>): (r: Disk)
    requires s < |d| && (g.nFats == 2 && g.InFirstFat(s) ==> s + g.fsize < |d|)
    ensures |r| == |d|
  {
    if g.nFats == 2 && g.InFirstFat(s) then d[s := content][s + g.fsize := content] else d[s := content]
  }

  /** Both FAT copies hold the same sectors. */
  ghost predicate Mirrored(d: Disk, g: Geometry)
    requires g.FatEnd() <= |d|
  {
    g.nFats == 2 ==> forall s :: g.fatbase <= s < g.fatbase + g.fsize ==> d[s] == d[s + g.fsize]
  }

  ghost predicate MirrorKept(d: Disk, d': Disk, g: Geometry)
    requires DiskOk(d, g) && DiskOk(d', g)
  {
    Mirrored(d, g) ==> Mirrored(d', g)
  }

  /** Only sectors of the FATs differ. */
  ghost predicate SameOutsideFats(d: Disk, d': Disk, g: Geometry) {
    |d| == |d'| && forall s :: 0 <= s < |d| && !g.InFats(s) ==> d'[s] == d[s]
  }

  /** What operations on the FAT leave alone: every sector outside the FATs, and the mirror. */
  ghost predicate FatOnly(d: Disk, d': Disk, g: Geometry)
    requires DiskOk(d, g) && DiskOk(d', g)
  {
    SameOutsideFats(d, d', g) && (Mirrored(d, g) ==> Mirrored(d', g))
  }

  lemma FatOnlyRefl(d: Disk, g: Geometry)
    requires DiskOk(d, g)
    ensures FatOnly(d, d, g)
  {
  }

  lemma FatOnlyTrans(a: Disk, b: Disk, c: Disk, g: Geometry)
    requires DiskOk(a, g) && DiskOk(b, g) && DiskOk(c, g)
    requires FatOnly(a, b, g) && FatOnly(b, c, g)
    ensures FatOnly(a, c, g)
  {
  }

  ghost predicate AllSectors(v: seq<seq<byte>>) {
    forall i :: 0 <= i < |v| ==> |v[i]| == SS
  }

  /** The drive after a multi-sector write from sector `s`. */
  function WriteRun(d: Disk, s: nat, w: seq<seq<byte>>): (r: Disk)
    requires s + |w| <= |d|
    ensures |r| == |d|
  {
    d[..s] + w + d[s + |w|..]
  }

  ghost predicate OutsideFats(g: Geometry, s: nat, c: nat) {
    s + c <= g.fatbase || g.FatEnd() <= s
  }

  /** `s` with the bytes from `o` on replaced by `data`. */
  function Patch(s: seq<byte>, o: nat, data: seq<byte>): (r: seq<byte>)
    requires o + |data| <= |s|
    ensures |r| == |s|
  {
    s[..o] + data + s[o + |data|..]
  }

  function ZeroSectors(n: nat): (w: seq<seq<byte>>)
    ensures |w| == n && AllSectors(w)
  {
    seq(n, i => seq(SS, k => 0 as byte))
  }

  /** A sector outside the FATs is replaced. */
  lemma PatchFat(d: Disk, g: Geometry, s: nat, content: seq<byte>)
    requires DiskOk(d, g) && s < |d| && !g.InFats(s) && |content| == SS
    ensures DiskOk(d[s := content], g) && FatBytes(d[s := content], g) == FatBytes(d, g)
    ensures Mirrored(d, g) ==> Mirrored(d[s := content], g)
  {
    FatBytesSame(d, d[s := content], g);
  }

  lemma ZeroRunStart(d: Disk, s: nat, n: nat)
    requires s + n <= |d|
    ensures WriteRun(d, s, ZeroSectors(0)) == d
    ensures n > 0 ==> var w := WriteRun(d, s, ZeroSectors(n)); |w[s]| == SS && forall k :: 0 <= k < SS ==> w[s][k] == 0
  {
  }

  /** Two adjacent multi-sector writes of zeros are one. */
  lemma ZeroRuns(d: Disk, s: nat, m: nat, n: nat)
    requires s + m + n <= |d|
    ensures WriteRun(WriteRun(d, s, ZeroSectors(m)), s + m, ZeroSectors(n)) == WriteRun(d, s, ZeroSectors(m + n))
  {
  }

  /** Writes outside the FATs do not disturb the overlaid window or the FAT. */
  lemma WriteRunOverlay(d: Disk, g: Geometry, t: nat, content: seq<byte>, s: nat, w: seq<seq<byte>>)
    requires DiskOk(d, g) && AllSectors(w) && s + |w| <= |d| && OutsideFats(g, s, |w|)
    requires t < |d| && |content| == SS && !(s <= t < s + |w|)
    ensures DiskOk(WriteRun(d, s, w), g)
    ensures WithSector(WriteRun(d, s, w), g, t, content) == WriteRun(WithSector(d, g, t, content), s, w)
  {
  }

  lemma WriteRunFat(d: Disk, g: Geometry, s: nat, w: seq<seq<byte>>)
    requires DiskOk(d, g) && AllSectors(w) && s + |w| <= |d| && OutsideFats(g, s, |w|)
    ensures DiskOk(WriteRun(d, s, w), g) && FatBytes(WriteRun(d, s, w), g) == FatBytes(d, g)
    ensures Mirrored(d, g) ==> Mirrored(WriteRun(d, s, w), g)
  {
    FatBytesSame(d, WriteRun(d, s, w), g);
  }

  /** The bytes of the first FAT. */
  ghost function FatBytes(d: Disk, g: Geometry): (f: seq<byte>)
    requires DiskOk(d, g)
    ensures |f| == g.fsize * SS
  {
    seq(g.fsize * SS, k requires 0 <= k < g.fsize * SS => d[g.fatbase + k / SS][k % SS])
  }

  /** Changing one byte of a FAT sector changes that byte of the FAT, in both copies. */
  lemma WithFatByte(d: Disk, g: Geometry, s: nat, o: nat, b: byte)
    requires DiskOk(d, g) && g.InFirstFat(s) && o < SS
    ensures var d' := WithSector(d, g, s, d[s][o := b]);
      && DiskOk(d', g) && SameOutsideFats(d, d', g)
      && (Mirrored(d, g) ==> Mirrored(d', g))
      && FatBytes(d', g) == FatBytes(d, g)[(s - g.fatbase) * SS + o := b]
  {
    var d' := WithSector(d, g, s, d[s][o := b]);
    forall k | 0 <= k < g.fsize * SS
      ensures FatBytes(d', g)[k] == FatBytes(d, g)[(s - g.fatbase) * SS + o := b][k]
    {
      assert k == SS * (k / SS) + k % SS;
    }
  }

  /** The facts about the geometry of a drive that the methods need while its definition is hidden. */
  lemma GeometryFacts(d: Disk, g: Geometry)
    requires DiskOk(d, g)
    ensures g.Valid(|d|) && 3 <= g.nFatent < g.Eoc() && g.Eoc() < TWO32 && |d| <= TWO32
    ensures (TWO32 - 1) % g.EntryMod() == g.Eoc() && 0 % g.EntryMod() == 0
    ensures forall c :: 0 <= c < g.nFatent ==> c % g.EntryMod() == c
  {
    EndMark(g, |d|);
  }

  /** Only the sectors of the FATs determine the FAT bytes. */
  lemma FatBytesSame(d: Disk, d': Disk, g: Geometry)
    requires DiskOk(d, g) && DiskOk(d', g)
    requires forall s :: g.fatbase <= s < g.fatbase + g.fsize ==> d'[s] == d[s]
    ensures FatBytes(d', g) == FatBytes(d, g)
  {
  }
}
