/** A file as a sequence of sectors behind a cluster chain and a one-sector buffer. */
module FileView {
  import opened Words
  import opened Layout
  import opened Drive

  // ----- clusters and sectors of a file

  function Quot(x: nat, m: nat): nat
    requires m > 0
  {
    x / m
  }

  function Rem(x: nat, m: nat): nat
    requires m > 0
  {
    x % m
  }

  lemma QuotRem(x: nat, m: nat)
    requires m > 0
    ensures x == Times(m, Quot(x, m)) + Rem(x, m) && Rem(x, m) < m
  {
    TimesIsProduct(m, Quot(x, m));
  }

  lemma QuotRemUnique(x: nat, m: nat, q: nat, r: nat)
    requires x == Times(m, q) + r && r < m
    ensures Quot(x, m) == q && Rem(x, m) == r
  {
    QuotRem(x, m);
    TimesUnique(m, q, r, Quot(x, m), Rem(x, m));
  }

  lemma QuotInside(x: nat, m: nat, n: nat)
    requires m > 0 && x < Times(m, n)
    ensures Quot(x, m) < n
  {
    QuotRem(x, m);
    if Quot(x, m) > n {
      TimesStep(m, n, Quot(x, m));
    }
  }

  lemma QuotCovers(x: nat, m: nat, n: nat)
    requires m > 0 && Quot(x, m) < n
    ensures x < Times(m, n)
  {
    QuotRem(x, m);
    TimesStep(m, Quot(x, m), n);
  }

  /** `d` sectors further in the same cluster. */
  lemma QuotRemAdd(x: nat, m: nat, d: nat)
    requires m > 0 && Rem(x, m) + d < m
    ensures Quot(x + d, m) == Quot(x, m) && Rem(x + d, m) == Rem(x, m) + d
  {
    QuotRem(x, m);
    QuotRemUnique(x + d, m, Quot(x, m), Rem(x, m) + d);
  }

  /** The first sector of a cluster follows the last one of the cluster before. */
  lemma QuotRemPred(x: nat, m: nat)
    requires m > 0 && x > 0
    ensures if Rem(x, m) == 0 then Quot(x, m) > 0 && Quot(x - 1, m) == Quot(x, m) - 1
            else Quot(x - 1, m) == Quot(x, m) && Rem(x - 1, m) == Rem(x, m) - 1
  {
    QuotRem(x, m);
    var q, r := Quot(x, m), Rem(x, m);
    if r == 0 {
      QuotRemUnique(x - 1, m, q - 1, m - 1);
    } else {
      QuotRemUnique(x - 1, m, q, r - 1);
    }
  }

  ghost predicate ChainIn(g: Geometry, ch: seq<nat>) {
    && g.csize > 0
    && (forall i :: 0 <= i < |ch| ==> g.InCluster(ch[i]))
    && (forall i, j :: 0 <= i < j < |ch| ==> ch[i] != ch[j])
  }

  /** Number of sectors of a chain. */
  ghost function Sectors(g: Geometry, ch: seq<nat>): nat { Times(g.csize, |ch|) }

  /** The drive sector of sector `j` of the file. */
  ghost function SectorOf(g: Geometry, ch: seq<nat>, j: nat): nat
    requires ChainIn(g, ch) && j < Sectors(g, ch)
  {
    QuotInside(j, g.csize, |ch|);
    g.ClusterBase(ch[Quot(j, g.csize)]) + Rem(j, g.csize)
  }

  lemma SectorOfDistinct(g: Geometry, ch: seq<nat>, i: nat, j: nat)
    requires ChainIn(g, ch) && i < Sectors(g, ch) && j < Sectors(g, ch)
    requires SectorOf(g, ch, i) == SectorOf(g, ch, j)
    ensures i == j
  {
    hide Quot, Rem, Geometry.ClusterBase;
    QuotInside(i, g.csize, |ch|);
    QuotInside(j, g.csize, |ch|);
    QuotRem(i, g.csize);
    QuotRem(j, g.csize);
    ClusterSectorsDistinct(g, ch[Quot(i, g.csize)], Rem(i, g.csize), ch[Quot(j, g.csize)], Rem(j, g.csize));
  }

  lemma SectorOfInData(g: Geometry, total: nat, ch: seq<nat>, j: nat)
    requires g.Valid(total) && ChainIn(g, ch) && j < Sectors(g, ch)
    ensures g.database <= SectorOf(g, ch, j) < total && !g.InFats(SectorOf(g, ch, j)) && SectorOf(g, ch, j) > 0
  {
    hide Quot, Rem, Geometry.ClusterBase, Geometry.Valid;
    QuotInside(j, g.csize, |ch|);
    QuotRem(j, g.csize);
    ClusterSectorInData(g, total, ch[Quot(j, g.csize)], Rem(j, g.csize));
    DataPositive(g, total);
  }

  lemma DataPositive(g: Geometry, total: nat)
    requires g.Valid(total)
    ensures g.database > 0
  {
  }

  /** Sectors inside one cluster are adjacent on the drive. */
  lemma SectorOfRun(g: Geometry, ch: seq<nat>, j: nat, d: nat)
    requires ChainIn(g, ch) && j < Sectors(g, ch) && Rem(j, g.csize) + d < g.csize
    ensures j + d < Sectors(g, ch) && SectorOf(g, ch, j + d) == SectorOf(g, ch, j) + d
  {
    hide Quot, Rem, Geometry.ClusterBase;
    QuotInside(j, g.csize, |ch|);
    QuotRemAdd(j, g.csize, d);
    QuotCovers(j + d, g.csize, |ch|);
  }

  /** A longer chain keeps the sectors of its prefix. */
  lemma SectorOfPrefix(g: Geometry, ch: seq<nat>, ch': seq<nat>, j: nat)
    requires ChainIn(g, ch) && ChainIn(g, ch') && ch <= ch' && j < Sectors(g, ch)
    ensures j < Sectors(g, ch') && SectorOf(g, ch', j) == SectorOf(g, ch, j)
  {
    hide Quot, Rem, Geometry.ClusterBase;
    QuotInside(j, g.csize, |ch|);
    QuotCovers(j, g.csize, |ch'|);
  }

  // ----- contents

  /** Sector `j` of the file: the buffer if it holds that sector, otherwise the drive. */
  ghost function SectorData(d: Disk, g: Geometry, ch: seq<nat>, sect: nat, buf: seq<byte>, j: nat): (r: seq<byte>)
    requires DiskOk(d, g) && ChainIn(g, ch) && j < Sectors(g, ch) && |buf| == SS
    ensures |r| == SS
  {
    SectorOfInData(g, |d|, ch, j);
    if sect == SectorOf(g, ch, j) then buf else d[SectorOf(g, ch, j)]
  }

  /** All sectors of the chain. */
  ghost function View(d: Disk, g: Geometry, ch: seq<nat>, sect: nat, buf: seq<byte>): (v: seq<seq<byte>>)
    requires DiskOk(d, g) && ChainIn(g, ch) && |buf| == SS
    ensures |v| == Sectors(g, ch) && AllSectors(v)
  {
    seq(Sectors(g, ch), j requires 0 <= j < Sectors(g, ch) => SectorData(d, g, ch, sect, buf, j))
  }

  /** The bytes of a sequence of sectors. */
  ghost function Flat(v: seq<seq<byte>>): (f: seq<byte>)
    requires AllSectors(v)
    ensures |f| == SS * |v|
  {
    seq(SS * |v|, k requires 0 <= k < SS * |v| => v[k / SS][k % SS])
  }

  /** `s` with `data` put at position `at`, which extends `s` when it does not fit. */
  ghost function Splice(s: seq<byte>, at: nat, data: seq<byte>): (r: seq<byte>)
    requires at <= |s|
    ensures |r| == if at + |data| > |s| then at + |data| else |s|
  {
    s[..at] + data + if at + |data| < |s| then s[at + |data|..] else []
  }

  lemma FlatAt(v: seq<seq<byte>>, j: nat, o: nat)
    requires AllSectors(v) && j < |v| && o < SS
    ensures SS * j + o < |Flat(v)| && Flat(v)[SS * j + o] == v[j][o]
  {
    assert (SS * j + o) / SS == j && (SS * j + o) % SS == o;
  }

  /** A piece of one sector. */
  lemma FlatPiece(v: seq<seq<byte>>, j: nat, o: nat, r: nat)
    requires AllSectors(v) && j < |v| && o + r <= SS
    ensures SS * j + o + r <= |Flat(v)| && Flat(v)[SS * j + o..SS * j + o + r] == v[j][o..o + r]
  {
    hide Flat;
    assert SS * j + o + r <= SS * |v|;
    var a, b := Flat(v)[SS * j + o..SS * j + o + r], v[j][o..o + r];
    forall i | 0 <= i < r
      ensures a[i] == b[i]
    {
      FlatAt(v, j, o + i);
    }
  }

  /** A run of whole sectors. */
  lemma FlatRun(v: seq<seq<byte>>, j: nat, c: nat)
    requires AllSectors(v) && j + c <= |v|
    ensures AllSectors(v[j..j + c]) && Flat(v)[SS * j..SS * (j + c)] == Flat(v[j..j + c])
  {
    hide Flat;
    var a, b := Flat(v)[SS * j..SS * (j + c)], Flat(v[j..j + c]);
    forall k | 0 <= k < SS * c
      ensures a[k] == b[k]
    {
      var q, o := k / SS, k % SS;
      FlatAt(v, j + q, o);
      FlatAt(v[j..j + c], q, o);
    }
  }

  /** Replacing part of a sector replaces those bytes. */
  lemma FlatUpdate(v: seq<seq<byte>>, j: nat, o: nat, data: seq<byte>)
    requires AllSectors(v) && j < |v| && o + |data| <= SS
    ensures var v' := v[j := Splice(v[j], o, data)];
      AllSectors(v') && Flat(v') == Splice(Flat(v), SS * j + o, data)
  {
    var v' := v[j := Splice(v[j], o, data)];
    assert AllSectors(v');
    forall k | 0 <= k < SS * |v|
      ensures Flat(v')[k] == Splice(Flat(v), SS * j + o, data)[k]
    {
      assert k == SS * (k / SS) + k % SS;
    }
  }

  /** `v` with the sectors from `j` on replaced by those of `w`. */
  ghost function Overwrite(v: seq<seq<byte>>, j: nat, w: seq<seq<byte>>): (r: seq<seq<byte>>)
    requires j + |w| <= |v|
    ensures |r| == |v|
  {
    v[..j] + w + v[j + |w|..]
  }

  lemma FlatOverwrite(v: seq<seq<byte>>, j: nat, w: seq<seq<byte>>)
    requires AllSectors(v) && AllSectors(w) && j + |w| <= |v|
    ensures AllSectors(Overwrite(v, j, w)) && Flat(Overwrite(v, j, w)) == Splice(Flat(v), SS * j, Flat(w))
  {
    var v' := Overwrite(v, j, w);
    assert AllSectors(v');
    forall k | 0 <= k < SS * |v|
      ensures Flat(v')[k] == Splice(Flat(v), SS * j, Flat(w))[k]
    {
      assert k == SS * (k / SS) + k % SS;
    }
  }

  /** The sectors of a run of bytes. */
  ghost function Chunks(data: seq<byte>): (v: seq<seq<byte>>)
    requires |data| % SS == 0
    ensures |v| == |data| / SS && AllSectors(v)
  {
    seq(|data| / SS, i requires 0 <= i < |data| / SS => data[SS * i..SS * i + SS])
  }

  lemma FlatChunks(data: seq<byte>)
    requires |data| % SS == 0
    ensures Flat(Chunks(data)) == data
  {
    forall k | 0 <= k < |data|
      ensures Flat(Chunks(data))[k] == data[k]
    {
      assert k == SS * (k / SS) + k % SS;
    }
  }

  lemma FlatPrefix(v: seq<seq<byte>>, v': seq<seq<byte>>)
    requires AllSectors(v) && AllSectors(v') && v <= v'
    ensures Flat(v) <= Flat(v')
  {
    forall k | 0 <= k < SS * |v|
      ensures Flat(v)[k] == Flat(v')[k]
    {
      assert v[k / SS] == v'[k / SS];
    }
  }

  // ----- how the steps of the file layer change the view

  /** Writing the buffer back does not change the file. */
  lemma ViewFlush(d: Disk, g: Geometry, ch: seq<nat>, sect: nat, buf: seq<byte>)
    requires DiskOk(d, g) && ChainIn(g, ch) && |buf| == SS && sect < |d|
    ensures DiskOk(d[sect := buf], g)
    ensures View(d[sect := buf], g, ch, sect, buf) == View(d, g, ch, sect, buf)
  {
    hide SectorOf, Sectors, Geometry.Valid;
    var a, b := View(d[sect := buf], g, ch, sect, buf), View(d, g, ch, sect, buf);
    forall j | 0 <= j < Sectors(g, ch)
      ensures a[j] == b[j]
    {
      SectorOfInData(g, |d|, ch, j);
    }
  }

  /** A clean buffer can be given another sector. */
  lemma ViewLoad(d: Disk, g: Geometry, ch: seq<nat>, sect: nat, buf: seq<byte>, sect': nat)
    requires DiskOk(d, g) && ChainIn(g, ch) && |buf| == SS && sect' < |d|
    requires sect != 0 ==> sect < |d| && buf == d[sect]
    ensures View(d, g, ch, sect', d[sect']) == View(d, g, ch, sect, buf)
  {
    hide SectorOf, Sectors, Geometry.Valid;
    var a, b := View(d, g, ch, sect', d[sect']), View(d, g, ch, sect, buf);
    forall j | 0 <= j < Sectors(g, ch)
      ensures a[j] == b[j]
    {
      SectorOfInData(g, |d|, ch, j);
    }
  }

  /** Changing the buffered sector changes that sector of the file. */
  lemma ViewPoke(d: Disk, g: Geometry, ch: seq<nat>, sect: nat, buf: seq<byte>, buf': seq<byte>, j: nat)
    requires DiskOk(d, g) && ChainIn(g, ch) && |buf| == |buf'| == SS
    requires j < Sectors(g, ch) && sect == SectorOf(g, ch, j)
    ensures View(d, g, ch, sect, buf') == View(d, g, ch, sect, buf)[j := buf']
    ensures View(d, g, ch, sect, buf)[j] == buf
  {
    forall i | 0 <= i < Sectors(g, ch) && i != j
      ensures SectorData(d, g, ch, sect, buf', i) == SectorData(d, g, ch, sect, buf, i)
    {
      if SectorOf(g, ch, i) == sect {
        SectorOfDistinct(g, ch, i, j);
      }
    }
  }

  /** A direct write of whole sectors inside one cluster, with the buffer refilled when it holds one of them. */
  lemma ViewDirect(d: Disk, g: Geometry, ch: seq<nat>, sect: nat, buf: seq<byte>, buf': seq<byte>, j: nat, w: seq<seq<byte>>)
    requires DiskOk(d, g) && ChainIn(g, ch) && |buf| == |buf'| == SS && AllSectors(w)
    requires |w| > 0 && j < Sectors(g, ch) && Rem(j, g.csize) + |w| <= g.csize
    requires SectorOf(g, ch, j) + |w| <= |d|
    requires buf' == if SectorOf(g, ch, j) <= sect < SectorOf(g, ch, j) + |w| then w[sect - SectorOf(g, ch, j)] else buf
    ensures DiskOk(WriteRun(d, SectorOf(g, ch, j), w), g)
    ensures j + |w| <= Sectors(g, ch)
    ensures View(WriteRun(d, SectorOf(g, ch, j), w), g, ch, sect, buf') == Overwrite(View(d, g, ch, sect, buf), j, w)
  {
    hide SectorOf, Sectors, Geometry.Valid;
    SectorOfRun(g, ch, j, |w| - 1);
    var s := SectorOf(g, ch, j);
    var d' := WriteRun(d, s, w);
    forall i | 0 <= i < Sectors(g, ch)
      ensures SectorData(d', g, ch, sect, buf', i) == Overwrite(View(d, g, ch, sect, buf), j, w)[i]
    {
      SectorOfInData(g, |d|, ch, i);
      WhichInRun(g, ch, j, |w|, i);
    }
  }

  /** A sector of the file lies in the drive run of `c` sectors that starts with sector `j` exactly
      when it is one of the `c` sectors from `j` on. */
  lemma WhichInRun(g: Geometry, ch: seq<nat>, j: nat, c: nat, i: nat)
    requires ChainIn(g, ch) && j < Sectors(g, ch) && Rem(j, g.csize) + c <= g.csize
    requires i < Sectors(g, ch)
    ensures var s := SectorOf(g, ch, j);
      if j <= i < j + c then SectorOf(g, ch, i) == s + (i - j) else !(s <= SectorOf(g, ch, i) < s + c)
  {
    hide SectorOf, Sectors;
    var s := SectorOf(g, ch, j);
    if j <= i < j + c {
      SectorOfRun(g, ch, j, i - j);
    } else if s <= SectorOf(g, ch, i) < s + c {
      SectorOfRun(g, ch, j, SectorOf(g, ch, i) - s);
      SectorOfDistinct(g, ch, i, j + (SectorOf(g, ch, i) - s));
    }
  }

  /** A direct read of whole sectors inside one cluster, patched with the buffer when it holds one of them. */
  lemma ViewRead(d: Disk, g: Geometry, ch: seq<nat>, sect: nat, buf: seq<byte>, j: nat, c: nat, w: seq<seq<byte>>)
    requires DiskOk(d, g) && ChainIn(g, ch) && |buf| == SS
    requires c > 0 && j < Sectors(g, ch) && Rem(j, g.csize) + c <= g.csize && |w| == c
    requires SectorOf(g, ch, j) + c <= |d|
    requires forall i :: 0 <= i < c ==>
      w[i] == if SectorOf(g, ch, j) + i == sect then buf else d[SectorOf(g, ch, j) + i]
    ensures j + c <= Sectors(g, ch)
    ensures View(d, g, ch, sect, buf)[j..j + c] == w
  {
    hide SectorOf, Sectors, Geometry.Valid;
    SectorOfRun(g, ch, j, c - 1);
    forall i | 0 <= i < c
      ensures View(d, g, ch, sect, buf)[j + i] == w[i]
    {
      SectorOfRun(g, ch, j, i);
    }
  }

  /** Neither FAT updates nor a longer chain change the sectors the file already had. */
  lemma ViewGrow(d: Disk, d': Disk, g: Geometry, ch: seq<nat>, ch': seq<nat>, sect: nat, buf: seq<byte>)
    requires DiskOk(d, g) && DiskOk(d', g) && SameOutsideFats(d, d', g)
    requires ChainIn(g, ch) && ChainIn(g, ch') && ch <= ch' && |buf| == SS
    ensures View(d, g, ch, sect, buf) <= View(d', g, ch', sect, buf)
  {
    hide SectorOf, Sectors, Geometry.Valid;
    SectorsGrow(g, ch, ch');
    forall j | 0 <= j < Sectors(g, ch)
      ensures SectorData(d', g, ch', sect, buf, j) == SectorData(d, g, ch, sect, buf, j)
    {
      SectorOfPrefix(g, ch, ch', j);
      SectorOfInData(g, |d|, ch, j);
    }
  }

  lemma SectorsGrow(g: Geometry, ch: seq<nat>, ch': seq<nat>)
    requires |ch| <= |ch'|
    ensures Sectors(g, ch) <= Sectors(g, ch')
  {
    if |ch| < |ch'| {
      TimesStep(g.csize, |ch|, |ch'|);
    }
  }

  // ----- contents cut at the file size

  function Max(a: nat, b: nat): nat { if a < b then b else a }

  lemma SpliceTake(f: seq<byte>, at: nat, data: seq<byte>, z: nat)
    requires at <= z <= |f| && at + |data| <= |f|
    ensures Splice(f, at, data)[..Max(z, at + |data|)] == Splice(f[..z], at, data)
  {
  }

  lemma SpliceTwice(f: seq<byte>, at: nat, a: seq<byte>, b: seq<byte>)
    requires at <= |f|
    ensures Splice(Splice(f, at, a), at + |a|, b) == Splice(f, at, a + b)
  {
  }

  lemma SpliceNothing(f: seq<byte>, at: nat)
    requires at <= |f|
    ensures Splice(f, at, []) == f
  {
  }

  /** Writing into the buffered sector; on the growing edge (`fresh`) what the sector held before does not matter. */
  lemma ContentPoke(v: seq<seq<byte>>, j: nat, o: nat, data: seq<byte>, was: seq<byte>, z: nat)
    requires AllSectors(v) && j < |v| && o + |data| <= SS && |was| == SS
    requires SS * j + o <= z <= SS * |v|
    requires was == v[j] || (o == 0 && z == SS * j)
    ensures var v' := v[j := Splice(was, o, data)];
      AllSectors(v') && Max(z, SS * j + o + |data|) <= SS * |v|
      && Flat(v')[..Max(z, SS * j + o + |data|)] == Splice(Flat(v)[..z], SS * j + o, data)
  {
    hide Flat, Splice;
    var v1 := v[j := was];
    assert AllSectors(v1);
    assert v1[j := Splice(was, o, data)] == v[j := Splice(was, o, data)];
    FlatUpdate(v1, j, o, data);
    SpliceTake(Flat(v1), SS * j + o, data, z);
    if was == v[j] {
      assert v1 == v;
    } else {
      FlatPrefixOf(v, v1, j);
    }
  }

  /** The bytes before a sector depend on the sectors before it only. */
  lemma FlatPrefixOf(v: seq<seq<byte>>, v': seq<seq<byte>>, j: nat)
    requires AllSectors(v) && AllSectors(v') && j <= |v| && j <= |v'| && v[..j] == v'[..j]
    ensures Flat(v)[..SS * j] == Flat(v')[..SS * j]
  {
    forall k | 0 <= k < SS * j
      ensures Flat(v)[k] == Flat(v')[k]
    {
      assert v[k / SS] == v[..j][k / SS] == v'[..j][k / SS] == v'[k / SS];
    }
  }

  lemma ContentOverwrite(v: seq<seq<byte>>, j: nat, data: seq<byte>, z: nat)
    requires AllSectors(v) && |data| % SS == 0 && j + |data| / SS <= |v|
    requires SS * j <= z <= SS * |v|
    ensures var v' := Overwrite(v, j, Chunks(data));
      AllSectors(v') && Max(z, SS * j + |data|) <= SS * |v|
      && Flat(v')[..Max(z, SS * j + |data|)] == Splice(Flat(v)[..z], SS * j, data)
  {
    hide Flat, Splice, Chunks;
    FlatChunks(data);
    FlatOverwrite(v, j, Chunks(data));
    SpliceTake(Flat(v), SS * j, data, z);
  }

  lemma ContentGrow(v: seq<seq<byte>>, v': seq<seq<byte>>, z: nat)
    requires AllSectors(v) && AllSectors(v') && v <= v' && z <= SS * |v|
    ensures Flat(v')[..z] == Flat(v)[..z]
  {
    FlatPrefix(v, v');
  }

  // ----- the position after `n` bytes were transferred inside one cluster

  lemma PlaceAfter(m: nat, j: nat, o: nat, n: nat)
    requires m > 0 && n > 0 && o + n <= SS * (m - Rem(j, m)) && Rem(j, m) < m
    ensures var p := SS * j + o + n;
      Quot((p - 1) / SS, m) == Quot(j, m)
  {
    hide Quot, Rem;
    var d := (o + n - 1) / SS;
    assert (SS * j + o + n - 1) / SS == j + d;
    QuotRemAdd(j, m, d);
  }

  /** `x & ~(m - 1)` for a power of two `m`. */
  function RoundDown(x: nat, m: nat): nat
    requires m > 0
  {
    x - x % m
  }

  lemma TimesScale(m: nat, q: nat)
    ensures Times(SS * m, q) == SS * Times(m, q)
  {
    TimesIsProduct(m, q);
    TimesIsProduct(SS * m, q);
    MulAssoc(m, q);
  }

  lemma MulAssoc(m: nat, q: nat)
    ensures SS * m * q == SS * (m * q)
  {
  }

  /** Clusters counted in bytes and in sectors. */
  lemma QuotScale(x: nat, m: nat)
    requires m > 0
    ensures Quot(x, SS * m) == Quot(x / SS, m)
    ensures RoundDown(x, SS * m) == SS * Times(m, Quot(x / SS, m)) <= x
    ensures x - RoundDown(x, SS * m) < SS * m
  {
    hide Quot, Rem, RoundDown;
    var q := Quot(x / SS, m);
    QuotRem(x / SS, m);
    TimesScale(m, q);
    QuotRemUnique(x, SS * m, q, SS * Rem(x / SS, m) + x % SS);
    RoundDownIs(x, SS * m);
  }

  lemma RoundDownIs(x: nat, m: nat)
    requires m > 0
    ensures RoundDown(x, m) == x - Rem(x, m)
  {
  }

  /** The cluster of the last of `n` bytes from the start of cluster `i`. */
  lemma LastByteCluster(m: nat, i: nat, n: nat)
    requires m > 0 && 0 < n <= SS * m
    ensures var p := SS * Times(m, i) + n;
      && Quot((p - 1) / SS, m) == i
      && (n % SS != 0 ==> p / SS == Times(m, i) + n / SS && n / SS < m && p % SS != 0
                          && Quot(p / SS, m) == i && Rem(p / SS, m) == n / SS)
      && (n % SS == 0 ==> p % SS == 0)
  {
    hide Quot, Rem, Times;
    var p := SS * Times(m, i) + n;
    assert (p - 1) / SS == Times(m, i) + (n - 1) / SS;
    QuotRemUnique((p - 1) / SS, m, i, (n - 1) / SS);
    if n % SS != 0 {
      assert p / SS == Times(m, i) + n / SS;
      QuotRemUnique(p / SS, m, i, n / SS);
    }
  }
}
