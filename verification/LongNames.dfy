/** Long file names in 13-character directory entries (FAT32 File System Specification, "FAT Long Directory Entries"). */
module LongNames {
  import opened Words

  const FF_MAX_LFN := 255
  const SLOT := 32
  const AM_LFN := 0x0F
  const LLEF := 0x40
  const SUM_AT := 13
  const CLUST_AT := 26

  /** `LfnOfs`: where character `s` of an entry is stored. */
  function Ofs(s: nat): (o: nat)
    requires s < 13
    ensures o <= 30
  {
    if s < 5 then 1 + 2 * s else if s < 11 then 4 + 2 * s else 6 + 2 * s
  }

  /** The characters stand in three fields: five from byte 1, six from byte 14 and two from byte 28. */
  lemma FieldsAre(s: nat)
    requires s < 13
    ensures s < 5 ==> Ofs(s) == 1 + 2 * s
    ensures 5 <= s < 11 ==> Ofs(s) == 14 + 2 * (s - 5)
    ensures 11 <= s ==> Ofs(s) == 28 + 2 * (s - 11)
  {
  }

  /** A name of 1 to 255 UTF-16 units other than 0x0000 and 0xFFFF. */
  predicate LongName(name: seq<nat>) {
    1 <= |name| <= FF_MAX_LFN && forall i :: 0 <= i < |name| ==> 0 < name[i] < 0xFFFF
  }

  /** The working buffer holds `name` and its terminator; what follows is left over from earlier names. */
  predicate Holds(lfn: seq<nat>, name: seq<nat>) {
    |lfn| == FF_MAX_LFN + 1 && |name| <= FF_MAX_LFN && lfn[|name|] == 0 && forall i :: 0 <= i < |name| ==> lfn[i] == name[i]
  }

  /** The character stored for place `i` of a name: the name, its terminator, then filler. */
  function Unit(name: seq<nat>, i: nat): nat {
    if i < |name| then name[i] else if i == |name| then 0 else 0xFFFF
  }

  /** The number of entries a name needs. */
  function Parts(name: seq<nat>): nat { (|name| + 12) / 13 }

  /** `d` is entry `ord` of `name`. */
  predicate Part(d: seq<byte>, name: seq<nat>, ord: nat, sum: byte) {
    && |d| == SLOT && 1 <= ord <= Parts(name)
    && d[0] as int == (if ord == Parts(name) then ord + LLEF else ord)
    && d[11] as int == AM_LFN && d[12] == 0 && d[SUM_AT] == sum && LdWord(d, CLUST_AT) == 0
    && forall s :: 0 <= s < 13 ==> LdWord(d, Ofs(s)) == Unit(name, 13 * (ord - 1) + s)
  }

  /** `st_word` */
  method StWord(d: array<byte>, i: nat, w: nat)
    requires i + 2 <= d.Length && w < 0x1_0000
    modifies d
    ensures LdWord(d[..], i) == w
    ensures forall k :: 0 <= k < d.Length && k != i && k != i + 1 ==> d[k] == old(d[k])
  {
    d[i] := w % 0x100;
    d[i + 1] := w / 0x100;
  }

  lemma OfsApart(s: nat, t: nat)
    requires s < 13 && t < 13 && s != t
    ensures Ofs(s) + 2 <= Ofs(t) || Ofs(t) + 2 <= Ofs(s)
  {
  }

  lemma OfsClear(s: nat)
    requires s < 13
    ensures 0 < Ofs(s) && (Ofs(s) + 2 <= 11 || 14 <= Ofs(s)) && (Ofs(s) + 2 <= CLUST_AT || CLUST_AT + 2 <= Ofs(s))
  {
  }

  /** The first `n` characters of an entry are in place, and its fixed fields. */
  ghost predicate Filled(d: seq<byte>, name: seq<nat>, base: nat, n: nat, sum: byte) {
    && |d| == SLOT && n <= 13
    && d[11] as int == AM_LFN && d[12] == 0 && d[SUM_AT] == sum && LdWord(d, CLUST_AT) == 0
    && forall s :: 0 <= s < n ==> LdWord(d, Ofs(s)) == Unit(name, base + s)
  }

  lemma FilledMore(d: seq<byte>, e: seq<byte>, name: seq<nat>, base: nat, n: nat, sum: byte)
    requires Filled(d, name, base, n, sum) && n < 13 && |e| == SLOT
    requires forall k :: 0 <= k < SLOT && k != Ofs(n) && k != Ofs(n) + 1 ==> e[k] == d[k]
    requires LdWord(e, Ofs(n)) == Unit(name, base + n)
    ensures Filled(e, name, base, n + 1, sum)
  {
    OfsClear(n);
    forall s | 0 <= s < n + 1 ensures LdWord(e, Ofs(s)) == Unit(name, base + s) {
      if s < n {
        OfsApart(s, n);
        assert LdWord(d, Ofs(s)) == Unit(name, base + s);
      }
    }
  }

  /** `put_lfn` */
  method PutLfn(lfn: seq<nat>, dir: array<byte>, ord: nat, sum: byte, ghost name: seq<nat>)
    requires dir.Length == SLOT && LongName(name) && Holds(lfn, name) && 1 <= ord <= Parts(name)
    modifies dir
    ensures Part(dir[..], name, ord, sum)
  {
    hide Filled, LdWord, Part;
    PutFixed(dir, name, 13 * (ord - 1), sum);
    var i: nat, s: nat, wc: nat := (ord - 1) * 13, 0, 0;
    ghost var base: nat := i;
    while s < 13
      invariant s <= 13 && base < |name|
      invariant i == (if base + s <= |name| then base + s else |name| + 1)
      invariant wc == 0xFFFF <==> base + s > |name|
      invariant wc < 0x1_0000
      invariant Filled(dir[..], name, base, s, sum)
    {
      if wc != 0xFFFF {
        wc := lfn[i];
        i := i + 1;
      }
      ghost var d := dir[..];
      StWord(dir, Ofs(s), wc);
      FilledMore(d, dir[..], name, base, s, sum);
      if wc == 0 {
        wc := 0xFFFF;
      }
      s := s + 1;
    }
    ghost var d := dir[..];
    if wc == 0xFFFF || lfn[i] == 0 {
      dir[0] := ord + LLEF;
    } else {
      dir[0] := ord;
    }
    PartDone(d, dir[..], name, ord, sum);
  }

  method PutFixed(dir: array<byte>, ghost name: seq<nat>, ghost base: nat, sum: byte)
    requires dir.Length == SLOT
    modifies dir
    ensures Filled(dir[..], name, base, 0, sum)
  {
    dir[SUM_AT] := sum;
    dir[11] := AM_LFN;
    dir[12] := 0;
    StWord(dir, CLUST_AT, 0);
  }

  lemma PartDone(d: seq<byte>, e: seq<byte>, name: seq<nat>, ord: nat, sum: byte)
    requires 1 <= ord <= Parts(name) && Filled(d, name, 13 * (ord - 1), 13, sum)
    requires |e| == SLOT && (forall k :: 0 < k < SLOT ==> e[k] == d[k])
    requires e[0] as int == if ord == Parts(name) then ord + LLEF else ord
    ensures Part(e, name, ord, sum)
  {
    forall s | 0 <= s < 13 ensures LdWord(e, Ofs(s)) == Unit(name, 13 * (ord - 1) + s) {
      assert LdWord(d, Ofs(s)) == Unit(name, 13 * (ord - 1) + s);
    }
  }

  // ----- reading an entry back

  /** Where entry `o` puts its first character; order 0 wraps around and lies outside the buffer. */
  function Base(o: nat): nat { if o == 0 then TWO32 - 13 else 13 * (o - 1) }

  /** `dir[LDIR_Ord] & ~LLEF` */
  function Order(d: seq<byte>): (o: nat)
    requires |d| == SLOT
  {
    if d[0] as int / LLEF % 2 == 1 then d[0] as int - LLEF else d[0] as int
  }

  predicate IsLast(d: seq<byte>)
    requires |d| == SLOT
  {
    d[0] as int / LLEF % 2 == 1
  }

  /** The working buffer after the characters from `s` on are picked, the next place in it and the last character; or
      the buffer as a rejected entry leaves it. */
  datatype Picked = Picked(buf: seq<nat>, i: nat, wc: nat) | Bad(buf: seq<nat>)

  function PickFrom(buf: seq<nat>, d: seq<byte>, i: nat, s: nat, wc: nat): (p: Picked)
    requires |d| == SLOT && |buf| == FF_MAX_LFN + 1 && s <= 13
    ensures |p.buf| == |buf|
    decreases 13 - s
  {
    if s == 13 then Picked(buf, i, wc)
    else
      var uc := LdWord(d, Ofs(s));
      if wc != 0 then
        if i >= FF_MAX_LFN + 1 then Bad(buf) else PickFrom(buf[i := uc], d, i + 1, s + 1, uc)
      else if uc != 0xFFFF then Bad(buf)
      else PickFrom(buf, d, i, s + 1, wc)
  }

  /** `pick_lfn`; `Bad` when it returns 0, with the characters stored up to then. */
  function Pick(buf: seq<nat>, d: seq<byte>): (p: Picked)
    requires |d| == SLOT && |buf| == FF_MAX_LFN + 1
    ensures |p.buf| == |buf|
  {
    if LdWord(d, CLUST_AT) != 0 then Bad(buf)
    else
      var p := PickFrom(buf, d, Base(Order(d)), 0, 1);
      if p.Bad? then p
      else if IsLast(d) && p.wc != 0 then
        if p.i >= FF_MAX_LFN + 1 then Bad(p.buf) else p.(buf := p.buf[p.i := 0])
      else p
  }

  /** `pick_lfn` on the working buffer */
  method PickLfn(lfn: array<nat>, d: seq<byte>) returns (ok: bool)
    requires |d| == SLOT && lfn.Length == FF_MAX_LFN + 1
    modifies lfn
    ensures ok == Pick(old(lfn[..]), d).Picked?
    ensures lfn[..] == Pick(old(lfn[..]), d).buf
  {
    hide LdWord, PickFrom;
    if LdWord(d, CLUST_AT) != 0 {
      return false;
    }
    ghost var goal := PickFrom(lfn[..], d, Base(Order(d)), 0, 1);
    var i: nat, s: nat, wc: nat := Base(Order(d)), 0, 1;
    while s < 13
      invariant s <= 13
      invariant PickFrom(lfn[..], d, i, s, wc) == goal
    {
      PickUnfold(lfn[..], d, i, s, wc);
      var uc := LdWord(d, Ofs(s));
      if wc != 0 {
        if i >= FF_MAX_LFN + 1 {
          return false;
        }
        Store(lfn, i, uc);
        i := i + 1;
        wc := uc;
      } else if uc != 0xFFFF {
        return false;
      }
      s := s + 1;
    }
    PickUnfold(lfn[..], d, i, s, wc);
    if IsLast(d) && wc != 0 {
      if i >= FF_MAX_LFN + 1 {
        return false;
      }
      Store(lfn, i, 0);
    }
    ok := true;
  }

  lemma PickUnfold(buf: seq<nat>, d: seq<byte>, i: nat, s: nat, wc: nat)
    requires |d| == SLOT && |buf| == FF_MAX_LFN + 1 && s <= 13
    ensures PickFrom(buf, d, i, s, wc) ==
      if s == 13 then Picked(buf, i, wc)
      else if wc != 0 then
        if i >= FF_MAX_LFN + 1 then Bad(buf)
        else PickFrom(buf[i := LdWord(d, Ofs(s))], d, i + 1, s + 1, LdWord(d, Ofs(s)))
      else if LdWord(d, Ofs(s)) != 0xFFFF then Bad(buf)
      else PickFrom(buf, d, i, s + 1, wc)
  {
    hide LdWord;
  }

  method Store(lfn: array<nat>, i: nat, u: nat)
    requires i < lfn.Length
    modifies lfn
    ensures lfn[..] == old(lfn[..])[i := u]
  {
    lfn[i] := u;
  }

  /** Place of character `s` of an entry in the buffer, which stops behind the terminator. */
  function PlaceAt(name: seq<nat>, base: nat, s: nat): nat {
    if base + s <= |name| then base + s else |name| + 1
  }

  /** The character before it; the scan starts with any that is not zero. */
  function Before(name: seq<nat>, base: nat, s: nat): nat {
    if s == 0 then 1 else if base + s <= |name| then Unit(name, base + s - 1) else 0
  }

  /** `p` is `buf` with the characters `from` to 12 of an entry put where they belong. */
  ghost predicate PutInPlace(p: Picked, buf: seq<nat>, name: seq<nat>, base: nat, from: nat) {
    && p.Picked? && |p.buf| == |buf| == FF_MAX_LFN + 1
    && p.i == PlaceAt(name, base, 13) && (p.wc != 0 <==> base + 13 <= |name|)
    && (forall j :: base + from <= j < base + 13 && j <= |name| && j < |buf| ==> p.buf[j] == Unit(name, j))
    && (forall j :: 0 <= j < |buf| && (j < base + from || base + 13 <= j || j > |name|) ==> p.buf[j] == buf[j])
  }

  lemma PutInPlaceOne(p: Picked, buf: seq<nat>, name: seq<nat>, base: nat, s: nat)
    requires s < 13 && |buf| == FF_MAX_LFN + 1
    requires base + s <= |name| ==> base + s < |buf| && PutInPlace(p, buf[base + s := Unit(name, base + s)], name, base, s + 1)
    requires base + s > |name| ==> PutInPlace(p, buf, name, base, s + 1)
    ensures PutInPlace(p, buf, name, base, s)
  {
    if base + s <= |name| {
      var b := buf[base + s := Unit(name, base + s)];
      assert p.buf[base + s] == b[base + s];
    }
  }

  lemma {:induction false} PickPart(buf: seq<nat>, d: seq<byte>, name: seq<nat>, ord: nat, sum: byte, s: nat)
    requires Part(d, name, ord, sum) && LongName(name) && |buf| == FF_MAX_LFN + 1 && s <= 13
    ensures var base := 13 * (ord - 1);
      PutInPlace(PickFrom(buf, d, PlaceAt(name, base, s), s, Before(name, base, s)), buf, name, base, s)
    decreases 13 - s
  {
    hide LdWord, PutInPlace;
    var base := 13 * (ord - 1);
    if s == 13 {
      PutInPlaceAll(buf, name, base);
    } else {
      UnitAt(d, name, ord, sum, s);
      if base + s <= |name| {
        PickPart(buf[base + s := Unit(name, base + s)], d, name, ord, sum, s + 1);
      } else {
        PickPart(buf, d, name, ord, sum, s + 1);
      }
      PutInPlaceOne(PickFrom(buf, d, PlaceAt(name, base, s), s, Before(name, base, s)), buf, name, base, s);
    }
  }

  lemma PutInPlaceAll(buf: seq<nat>, name: seq<nat>, base: nat)
    requires LongName(name) && |buf| == FF_MAX_LFN + 1
    ensures PutInPlace(Picked(buf, PlaceAt(name, base, 13), Before(name, base, 13)), buf, name, base, 13)
  {
  }

  lemma UnitAt(d: seq<byte>, name: seq<nat>, ord: nat, sum: byte, s: nat)
    requires Part(d, name, ord, sum) && s < 13
    ensures LdWord(d, Ofs(s)) == Unit(name, 13 * (ord - 1) + s)
  {
  }

  /** Picking an entry puts its characters, and behind the last of them the terminator, where they belong. */
  lemma PickWhole(buf: seq<nat>, d: seq<byte>, name: seq<nat>, ord: nat, sum: byte)
    requires Part(d, name, ord, sum) && LongName(name) && |buf| == FF_MAX_LFN + 1
    ensures var p, lo := Pick(buf, d), 13 * (ord - 1);
      var hi := if ord == Parts(name) then |name| + 1 else lo + 13;
      && p.Picked? && |p.buf| == |buf|
      && (forall j :: lo <= j < hi ==> p.buf[j] == Unit(name, j))
      && (forall j :: 0 <= j < |buf| && !(lo <= j < hi) ==> p.buf[j] == buf[j])
  {
    hide LdWord, PickFrom;
    PickPart(buf, d, name, ord, sum, 0);
    OrderIs(d, name, ord, sum);
  }

  lemma OrderIs(d: seq<byte>, name: seq<nat>, ord: nat, sum: byte)
    requires Part(d, name, ord, sum) && LongName(name)
    ensures Order(d) == ord && (IsLast(d) <==> ord == Parts(name)) && d[0] as int % 0x40 == ord
    ensures ord <= 20 && LdWord(d, CLUST_AT) == 0
  {
  }

  // ----- comparing an entry with a name

  /** Case folding keeps the terminator apart from every character. */
  ghost predicate Folding(up: nat -> nat) {
    forall u :: up(u) == up(0) ==> u == 0
  }

  datatype Compared = Same(i: nat, wc: nat) | Differs

  function CmpFrom(up: nat -> nat, buf: seq<nat>, d: seq<byte>, i: nat, s: nat, wc: nat): Compared
    requires |d| == SLOT && |buf| == FF_MAX_LFN + 1 && s <= 13
    decreases 13 - s
  {
    if s == 13 then Same(i, wc)
    else
      var uc := LdWord(d, Ofs(s));
      if wc != 0 then
        if i >= FF_MAX_LFN + 1 || up(uc) != up(buf[i]) then Differs else CmpFrom(up, buf, d, i + 1, s + 1, uc)
      else if uc != 0xFFFF then Differs
      else CmpFrom(up, buf, d, i, s + 1, wc)
  }

  /** A scan that ends without a terminator has compared every character of the entry inside the buffer. */
  lemma {:induction false} CmpEnd(up: nat -> nat, buf: seq<nat>, d: seq<byte>, i: nat, s: nat, wc: nat)
    requires |d| == SLOT && |buf| == FF_MAX_LFN + 1 && s <= 13
    ensures var c := CmpFrom(up, buf, d, i, s, wc);
      c.Same? && c.wc != 0 ==> wc != 0 && c.i == i + (13 - s) && (s < 13 ==> c.i <= FF_MAX_LFN + 1)
    decreases 13 - s
  {
    if s < 13 {
      CmpEnd(up, buf, d, i + 1, s + 1, LdWord(d, Ofs(s)));
      CmpEnd(up, buf, d, i, s + 1, wc);
    }
  }

  /** Whole entries before the end of the buffer leave room for at least one character more. */
  lemma BaseInside(n: nat)
    requires n < 0x40 && Base(n) + 13 <= FF_MAX_LFN + 1
    ensures Base(n) + 13 <= 247
  {
  }

  /** Where the scan of an entry stops, the test of the last entry reads inside the buffer. */
  lemma CmpInside(up: nat -> nat, buf: seq<nat>, d: seq<byte>)
    requires |d| == SLOT && |buf| == FF_MAX_LFN + 1
    ensures var c := CmpFrom(up, buf, d, Base(d[0] as int % 0x40), 0, 1);
      c.Same? && c.wc != 0 ==> c.i <= 247
  {
    CmpEnd(up, buf, d, Base(d[0] as int % 0x40), 0, 1);
    if Base(d[0] as int % 0x40) + 13 <= FF_MAX_LFN + 1 {
      BaseInside(d[0] as int % 0x40);
    }
  }

  /** `cmp_lfn` */
  function Cmp(up: nat -> nat, buf: seq<nat>, d: seq<byte>): bool
    requires |d| == SLOT && |buf| == FF_MAX_LFN + 1
  {
    if LdWord(d, CLUST_AT) != 0 then false
    else
      var c := CmpFrom(up, buf, d, Base(d[0] as int % 0x40), 0, 1);
      CmpInside(up, buf, d);
      c.Same? && (IsLast(d) && c.wc != 0 ==> buf[c.i] == 0)
  }

  method CmpLfn(up: nat -> nat, buf: array<nat>, d: seq<byte>) returns (same: bool)
    requires |d| == SLOT && buf.Length == FF_MAX_LFN + 1
    ensures same == Cmp(up, buf[..], d)
  {
    hide LdWord;
    if LdWord(d, CLUST_AT) != 0 {
      return false;
    }
    var i: nat, s: nat, wc: nat := Base(d[0] as int % 0x40), 0, 1;
    while s < 13
      invariant s <= 13
      invariant CmpFrom(up, buf[..], d, i, s, wc) == CmpFrom(up, buf[..], d, Base(d[0] as int % 0x40), 0, 1)
    {
      var uc := LdWord(d, Ofs(s));
      if wc != 0 {
        if i >= FF_MAX_LFN + 1 || up(uc) != up(buf[i]) {
          return false;
        }
        i := i + 1;
        wc := uc;
      } else if uc != 0xFFFF {
        return false;
      }
      s := s + 1;
    }
    CmpInside(up, buf[..], d);
    if IsLast(d) && wc != 0 && buf[i] != 0 {
      return false;
    }
    same := true;
  }

  /** Places `lo` to `hi - 1` of the stored name and of the buffer are the same up to case. */
  ghost predicate Alike(up: nat -> nat, buf: seq<nat>, name: seq<nat>, lo: nat, hi: nat) {
    forall j :: lo <= j < hi ==> AlikeAt(up, buf, name, j)
  }

  predicate AlikeAt(up: nat -> nat, buf: seq<nat>, name: seq<nat>, j: nat) {
    j <= |name| ==> j < |buf| && up(Unit(name, j)) == up(buf[j])
  }

  lemma {:induction false} CmpPart(up: nat -> nat, buf: seq<nat>, d: seq<byte>, name: seq<nat>, ord: nat, sum: byte, s: nat)
    requires Part(d, name, ord, sum) && LongName(name) && |buf| == FF_MAX_LFN + 1 && s <= 13
    ensures var base := 13 * (ord - 1);
      CmpFrom(up, buf, d, PlaceAt(name, base, s), s, Before(name, base, s)) ==
      if Alike(up, buf, name, base + s, base + 13) then Same(PlaceAt(name, base, 13), Before(name, base, 13)) else Differs
    decreases 13 - s
  {
    hide LdWord, Part, Alike;
    PartSize(d, name, ord, sum);
    var base: nat := 13 * (ord - 1);
    AlikeNone(up, buf, name, base + 13);
    if s < 13 {
      UnitAt(d, name, ord, sum, s);
      CmpPart(up, buf, d, name, ord, sum, s + 1);
      AlikeOne(up, buf, name, base, s);
    }
  }

  lemma PartSize(d: seq<byte>, name: seq<nat>, ord: nat, sum: byte)
    requires Part(d, name, ord, sum) && name != []
    ensures |d| == SLOT && 1 <= ord <= Parts(name) && 13 * (ord - 1) < |name|
  {
  }

  lemma AlikeNone(up: nat -> nat, buf: seq<nat>, name: seq<nat>, hi: nat)
    ensures Alike(up, buf, name, hi, hi)
  {
  }

  lemma AlikeOne(up: nat -> nat, buf: seq<nat>, name: seq<nat>, base: nat, s: nat)
    requires s < 13
    ensures Alike(up, buf, name, base + s, base + 13) <==>
      AlikeAt(up, buf, name, base + s) && Alike(up, buf, name, base + (s + 1), base + 13)
  {
    hide AlikeAt;
  }

  /** One entry compares equal exactly when its characters do, and the lengths if it is the last. */
  lemma CmpWhole(up: nat -> nat, buf: seq<nat>, d: seq<byte>, name: seq<nat>, ord: nat, sum: byte)
    requires Part(d, name, ord, sum) && LongName(name) && |buf| == FF_MAX_LFN + 1
    ensures Cmp(up, buf, d) <==>
      && Alike(up, buf, name, 13 * (ord - 1), 13 * ord)
      && (|name| == 13 * ord ==> buf[|name|] == 0)
  {
    hide LdWord, CmpFrom, Alike, Part, LongName;
    LengthOf(name);
    PartSize(d, name, ord, sum);
    OrderIs(d, name, ord, sum);
    var base: nat := 13 * (ord - 1);
    CmpPart(up, buf, d, name, ord, sum, 0);
    CmpIs(up, buf, d, base);
    BeforeEnd(name, base);
    assert base + 13 == 13 * ord;
  }

  lemma LengthOf(name: seq<nat>)
    requires LongName(name)
    ensures 1 <= |name| <= FF_MAX_LFN
  {
  }

  lemma BeforeEnd(name: seq<nat>, base: nat)
    requires LongName(name)
    ensures Before(name, base, 13) != 0 <==> base + 13 <= |name|
  {
  }

  lemma CmpIs(up: nat -> nat, buf: seq<nat>, d: seq<byte>, base: nat)
    requires |d| == SLOT && |buf| == FF_MAX_LFN + 1 && LdWord(d, CLUST_AT) == 0 && base == Base(d[0] as int % 0x40)
    ensures var c := CmpFrom(up, buf, d, base, 0, 1);
      (c.Same? && c.wc != 0 ==> c.i <= 247) && (Cmp(up, buf, d) <==> c.Same? && (IsLast(d) && c.wc != 0 ==> buf[c.i] == 0))
  {
    hide CmpFrom;
    CmpInside(up, buf, d);
  }
}
