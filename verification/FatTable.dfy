/** The FAT as a packed array of 12-, 16- or 28-bit entries in a run of bytes. */
module FatTable {
  import opened Words
  import opened Layout

  /** `f` holds the bytes of one FAT. */
  ghost predicate Covers(f: seq<byte>, g: Geometry) {
    g.nFatent > 0 && g.EntryOffset(g.nFatent - 1) + g.EntryBytes() <= |f|
  }

  /** The value of entry `c`. */
  function Entry(f: seq<byte>, g: Geometry, c: nat): (v: nat)
    requires Covers(f, g) && c < g.nFatent
    ensures v < g.EntryMod()
  {
    var k := g.EntryOffset(c);
    match g.fatType
    case Fat12 => if c % 2 == 1 then LdWord(f, k) / 16 else LdWord(f, k) % 0x1000
    case Fat16 => LdWord(f, k)
    case Fat32 => LdDword(f, k) % 0x1000_0000
  }

  /** FAT12 packs two entries into three bytes: as one little-endian number, the even entry is its low half. */
  lemma TwelveBitPairs(f: seq<byte>, g: Geometry, c: nat)
    requires Covers(f, g) && g.fatType.Fat12? && c % 2 == 0 && c + 1 < g.nFatent
    ensures var k := c / 2 * 3;
      k + 3 <= |f| && Entry(f, g, c) + 0x1000 * Entry(f, g, c + 1) == f[k] as int + 0x100 * f[k + 1] as int + 0x1_0000 * f[k + 2] as int
  {
    var k := c / 2 * 3;
    assert g.EntryOffset(c) == k && g.EntryOffset(c + 1) == k + 1;
    Halves(f[k] as int, f[k + 1] as int, f[k + 2] as int);
  }

  lemma Halves(x: nat, y: nat, z: nat)
    requires x < 0x100 && y < 0x100 && z < 0x100
    ensures (x + 0x100 * y) % 0x1000 + 0x1000 * ((y + 0x100 * z) / 16) == x + 0x100 * y + 0x1_0000 * z
  {
    var hi, lo := y / 16, y % 16;
    assert y == 16 * hi + lo;
    assert x + 0x100 * y == x + 0x100 * lo + 0x1000 * hi;
    assert (y + 0x100 * z) / 16 == hi + 16 * z;
  }

  /** The whole table as a sequence. */
  ghost function Table(f: seq<byte>, g: Geometry): (t: seq<nat>)
    requires Covers(f, g)
    ensures |t| == g.nFatent
  {
    seq(g.nFatent, c requires 0 <= c < g.nFatent => Entry(f, g, c))
  }

  /** The top four bits of a FAT32 entry, which are not part of its value. */
  function Reserved(f: seq<byte>, g: Geometry, c: nat): nat
    requires Covers(f, g) && c < g.nFatent && g.fatType.Fat32?
  {
    f[4 * c + 3] as int / 16
  }

  /** First byte of a FAT12 entry: an odd entry keeps the low nibble of its neighbour. */
  function FirstNibbles(was: byte, c: nat, val: nat): byte {
    if c % 2 == 1 then was as int % 16 + val % 16 * 16 else val % 0x100
  }

  /** Second byte of a FAT12 entry: an even entry keeps the high nibble of its neighbour. */
  function SecondNibbles(was: byte, c: nat, val: nat): byte {
    if c % 2 == 1 then val / 16 % 0x100 else was as int / 16 * 16 + val / 0x100 % 16
  }

  /** The 32 bits `put_fat` stores on FAT32: 28 bits of the value under the old top four. */
  function MergeReserved(was: nat, val: nat): nat {
    val % 0x1000_0000 + was / 0x1000_0000 * 0x1000_0000
  }

  /** The bytes `put_fat` leaves in the FAT. */
  function Put(f: seq<byte>, g: Geometry, c: nat, val: nat): seq<byte>
    requires Covers(f, g) && c < g.nFatent
  {
    var k := g.EntryOffset(c);
    match g.fatType
    case Fat12 => f[k := FirstNibbles(f[k], c, val)][k + 1 := SecondNibbles(f[k + 1], c, val)]
    case Fat16 => f[k := val % 0x100][k + 1 := val / 0x100 % 0x100]
    case Fat32 => PutDword(f, k, MergeReserved(LdDword(f, k), val))
  }

  /** `st_dword`: four bytes, low byte first, shifting the value down in between. */
  function PutDword(f: seq<byte>, k: nat, v: nat): seq<byte>
    requires k + 4 <= |f|
  {
    f[k := v % 0x100][k + 1 := v / 0x100 % 0x100][k + 2 := v / 0x100 / 0x100 % 0x100][k + 3 := v / 0x100 / 0x100 / 0x100 % 0x100]
  }

  lemma DwordReads(f: seq<byte>, k: nat, v: nat)
    requires k + 4 <= |f| && v < TWO32
    ensures LdDword(PutDword(f, k, v), k) == v
  {
    var a := v / 0x100;
    var b := a / 0x100;
    assert v == 0x100 * a + v % 0x100 && a == 0x100 * b + a % 0x100 && b == 0x100 * (b / 0x100) + b % 0x100;
    assert b / 0x100 < 0x100;
  }

  lemma MergedParts(was: nat, val: nat)
    requires was < TWO32
    ensures var v := MergeReserved(was, val);
      v < TWO32 && v % 0x1000_0000 == val % 0x1000_0000 && v / 0x1000_0000 == was / 0x1000_0000
  {
  }

  lemma TopNibble(f: seq<byte>, k: nat)
    requires k + 4 <= |f|
    ensures LdDword(f, k) / 0x1000_0000 == f[k + 3] as int / 16
  {
    var t := f[k + 3] as int / 16;
    var low := LdDword(f, k) - t * 0x1000_0000;
    assert 0 <= low < 0x1000_0000;
  }

  /** The entry written reads back as the value cut to the width of an entry. */
  lemma PutReads(f: seq<byte>, g: Geometry, c: nat, val: nat)
    requires Covers(f, g) && c < g.nFatent
    ensures |Put(f, g, c, val)| == |f| && Entry(Put(f, g, c, val), g, c) == val % g.EntryMod()
    ensures g.fatType.Fat32? ==> Reserved(Put(f, g, c, val), g, c) == Reserved(f, g, c)
  {
    hide LdDword, MergeReserved;
    var k := g.EntryOffset(c);
    match g.fatType
    case Fat12 => NibblesRead(f[k], f[k + 1], c, val);
    case Fat16 => assert val % 0x1_0000 == val % 0x100 + val / 0x100 % 0x100 * 0x100;
    case Fat32 => {
      var v := MergeReserved(LdDword(f, k), val);
      MergedParts(LdDword(f, k), val);
      DwordReads(f, k, v);
      TopNibble(f, k);
      TopNibble(Put(f, g, c, val), k);
    }
  }

  lemma NibblesRead(b0: byte, b1: byte, c: nat, val: nat)
    ensures var w := FirstNibbles(b0, c, val) as int + 0x100 * SecondNibbles(b1, c, val) as int;
      (if c % 2 == 1 then w / 16 else w % 0x1000) == val % 0x1000
  {
    var w := FirstNibbles(b0, c, val) as int + 0x100 * SecondNibbles(b1, c, val) as int;
    if c % 2 == 1 {
      LowTwelve(val, 16, 0x100);
      assert w == b0 as int % 16 + 16 * (val % 0x1000);
    } else {
      LowTwelve(val, 0x100, 16);
      assert w == val % 0x1000 + 0x1000 * (b1 as int / 16);
    }
  }

  lemma LowTwelve(val: nat, m: nat, n: nat)
    requires (m == 16 && n == 0x100) || (m == 0x100 && n == 16)
    ensures val % 0x1000 == val % m + val / m % n * m
  {
    var q := val / m;
    assert val == m * (n * (q / n) + q % n) + val % m;
  }

  /** No other entry changes, also not one that shares a byte with entry `c`. */
  lemma PutOther(f: seq<byte>, g: Geometry, c: nat, val: nat, c': nat)
    requires Covers(f, g) && c < g.nFatent && c' < g.nFatent && c' != c
    ensures |Put(f, g, c, val)| == |f| && Entry(Put(f, g, c, val), g, c') == Entry(f, g, c')
    ensures g.fatType.Fat32? ==> Reserved(Put(f, g, c, val), g, c') == Reserved(f, g, c')
  {
    hide FirstNibbles, SecondNibbles, MergeReserved;
    if g.fatType.Fat12? && (c' == c + 1 || c == c' + 1) {
      PutNeighbour(f, g, c, val, c');
    } else {
      var k, k' := g.EntryOffset(c), g.EntryOffset(c');
      assert k + g.EntryBytes() <= k' || k' + g.EntryBytes() <= k;
    }
  }

  /** FAT12 neighbours may share a byte, each keeping its own nibble. */
  lemma PutNeighbour(f: seq<byte>, g: Geometry, c: nat, val: nat, c': nat)
    requires Covers(f, g) && g.fatType.Fat12? && c < g.nFatent && c' < g.nFatent
    requires c' == c + 1 || c == c' + 1
    ensures |Put(f, g, c, val)| == |f| && Entry(Put(f, g, c, val), g, c') == Entry(f, g, c')
  {
    var k := g.EntryOffset(c);
    if c' == c + 1 && c % 2 == 0 {
      SecondKeepsHigh(f[k + 1], f[k + 2], c, val);
    } else if c == c' + 1 && c % 2 == 1 {
      FirstKeepsLow(f[k - 1], f[k], c, val);
    }
  }

  lemma SecondKeepsHigh(b: byte, b': byte, c: nat, val: nat)
    requires c % 2 == 0
    ensures (SecondNibbles(b, c, val) as int + 0x100 * b' as int) / 16 == (b as int + 0x100 * b' as int) / 16
  {
    var w := b as int / 16 + 16 * b' as int;
    assert b as int + 0x100 * b' as int == 16 * w + b as int % 16;
    assert SecondNibbles(b, c, val) as int + 0x100 * b' as int == 16 * w + val / 0x100 % 16;
  }

  lemma FirstKeepsLow(b: byte, b': byte, c: nat, val: nat)
    requires c % 2 == 1
    ensures (b as int + 0x100 * FirstNibbles(b', c, val) as int) % 0x1000 == (b as int + 0x100 * b' as int) % 0x1000
  {
    var w := b as int + 0x100 * (b' as int % 16);
    assert b as int + 0x100 * b' as int == w + 0x1000 * (b' as int / 16);
    assert b as int + 0x100 * FirstNibbles(b', c, val) as int == w + 0x1000 * (val % 16);
  }

  /** `put_fat` is the update of one element of an array of entries. */
  lemma PutUpdatesTable(f: seq<byte>, g: Geometry, c: nat, val: nat)
    requires Covers(f, g) && c < g.nFatent
    ensures |Put(f, g, c, val)| == |f|
    ensures Table(Put(f, g, c, val), g) == Table(f, g)[c := val % g.EntryMod()]
    ensures g.fatType.Fat32? ==>
      forall c' :: 0 <= c' < g.nFatent ==> Reserved(Put(f, g, c, val), g, c') == Reserved(f, g, c')
  {
    hide Put, Entry, Reserved;
    PutReads(f, g, c, val);
    forall c' | 0 <= c' < g.nFatent && c' != c
      ensures Entry(Put(f, g, c, val), g, c') == Entry(f, g, c')
      ensures g.fatType.Fat32? ==> Reserved(Put(f, g, c, val), g, c') == Reserved(f, g, c')
    {
      PutOther(f, g, c, val, c');
    }
    var t := Table(Put(f, g, c, val), g);
    assert forall c' :: 0 <= c' < g.nFatent ==> t[c'] == Table(f, g)[c := val % g.EntryMod()][c'];
  }
}
