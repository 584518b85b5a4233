/**
 * UTF-8 in and out of the file name buffer (RFC 3629 section 3). Shifts and masks are written as divisions and
 * remainders by powers of two, and joining disjoint bits as addition.
 */
module Utf8 {
  import opened Words

  predicate IsSurrogate(c: int) { 0xD800 <= c <= 0xDFFF }
  predicate IsSurrogateH(c: int) { 0xD800 <= c <= 0xDBFF }
  predicate IsSurrogateL(c: int) { 0xDC00 <= c <= 0xDFFF }

  /** A character as FatFs passes it: one UTF-16 unit, or a surrogate pair packed into 32 bits. */
  predicate Scalar(chr: nat) {
    if chr < 0x1_0000 then !IsSurrogate(chr)
    else chr < TWO32 && IsSurrogateH(chr / 0x1_0000) && IsSurrogateL(chr % 0x1_0000)
  }

  /** The room a character takes. */
  function Size(chr: nat): nat {
    if chr < 0x80 then 1 else if chr < 0x800 then 2 else if chr < 0x1_0000 then 3 else 4
  }

  /** The low six bits of `x` as a trailing byte. */
  function Trail(x: nat): byte { 0x80 + x % 0x40 }

  /** The code point behind a packed pair; 32-bit wrap-around makes a wrong pair large. */
  function HighBits(chr: nat): (hc: nat)
    requires chr < TWO32
  {
    (chr - chr % 0x1_0000 + TWO32 - 0xD800_0000) % TWO32 / 0x40
  }

  function LowBits(chr: nat): (lo: nat) {
    (chr % 0x1_0000 + TWO32 - 0xDC00) % TWO32
  }

  /** `put_utf` into `szb` bytes; nothing when the character does not fit or is no scalar value. */
  function PutUtf(chr: nat, szb: nat): (s: seq<byte>)
    requires chr < TWO32
  {
    if chr < 0x80 then
      if szb < 1 then [] else [chr]
    else if chr < 0x800 then
      if szb < 2 then [] else [0xC0 + chr / 0x40 % 0x20, Trail(chr)]
    else if chr < 0x1_0000 then
      if szb < 3 || IsSurrogate(chr) then [] else [0xE0 + chr / 0x1000 % 0x10, Trail(chr / 0x40), Trail(chr)]
    else if szb < 4 || HighBits(chr) >= 0x10_0000 || LowBits(chr) >= 0x400 then []
    else
      var u := HighBits(chr) + LowBits(chr) + 0x1_0000;
      [0xF0 + u / 0x4_0000 % 8, Trail(u / 0x1000), Trail(u / 0x40), Trail(u)]
  }

  /** A string ends with a zero byte. */
  function At(s: seq<byte>, i: nat): byte { if i < |s| then s[i] else 0 }

  /** A decoded character and the number of bytes it took, or an error. */
  datatype Decoded = Char(uc: nat, used: nat) | Wrong

  /** The `nf` trailing bytes from `i` on. */
  function Trailing(s: seq<byte>, i: nat, uc: nat, nf: nat): (d: Decoded)
    ensures d.Char? ==> d.used == i + nf
    decreases nf
  {
    if nf == 0 then Char(uc, i)
    else if !(0x80 <= At(s, i) < 0xC0) then Wrong
    else Trailing(s, i + 1, uc * 0x40 + At(s, i) as int % 0x40, nf - 1)
  }

  /** The checks on a multi-byte code, and the packing of a supplementary character. */
  function Finish(d: Decoded): Decoded {
    if d.Wrong? || d.uc < 0x80 || IsSurrogate(d.uc) || d.uc >= 0x11_0000 then Wrong
    else if d.uc >= 0x1_0000 then
      Char(0xD800_DC00 + (d.uc - 0x1_0000) / 0x400 * 0x1_0000 + d.uc % 0x400, d.used)
    else d
  }

  /** `tchar2uni` at the start of `s` */
  function Tchar2Uni(s: seq<byte>): (d: Decoded) {
    var b := At(s, 0) as int;
    if b < 0x80 then Char(b, 1)
    else if 0xC0 <= b < 0xE0 then Finish(Trailing(s, 1, b % 0x20, 1))
    else if 0xE0 <= b < 0xF0 then Finish(Trailing(s, 1, b % 0x10, 2))
    else if 0xF0 <= b < 0xF8 then Finish(Trailing(s, 1, b % 8, 3))
    else Wrong
  }

  lemma PairBits(chr: nat)
    requires 0x1_0000 <= chr < TWO32
    ensures Scalar(chr) <==> HighBits(chr) < 0x10_0000 && LowBits(chr) < 0x400
    ensures Scalar(chr) ==> HighBits(chr) == (chr / 0x1_0000 - 0xD800) * 0x400 && LowBits(chr) == chr % 0x1_0000 - 0xDC00
  {
    var hi, lo := chr / 0x1_0000, chr % 0x1_0000;
    assert chr == hi * 0x1_0000 + lo;
    if hi >= 0xD800 {
      assert (chr - lo + TWO32 - 0xD800_0000) % TWO32 == (hi - 0xD800) * 0x1_0000;
      assert (hi - 0xD800) * 0x1_0000 / 0x40 == (hi - 0xD800) * 0x400;
    } else {
      assert (chr - lo + TWO32 - 0xD800_0000) % TWO32 == (hi + 0x1_0000 - 0xD800) * 0x1_0000;
      assert (hi + 0x1_0000 - 0xD800) * 0x1_0000 / 0x40 == (hi + 0x1_0000 - 0xD800) * 0x400;
    }
  }

  /** `put_utf` writes exactly the scalar values that fit. */
  lemma PutUtfWrites(chr: nat, szb: nat)
    requires chr < TWO32
    ensures PutUtf(chr, szb) != [] <==> Scalar(chr) && Size(chr) <= szb
    ensures PutUtf(chr, szb) != [] ==> |PutUtf(chr, szb)| == Size(chr)
  {
    if chr >= 0x1_0000 {
      hide HighBits, LowBits, Scalar;
      PairBits(chr);
    }
  }

  /** The code point of a scalar value: a surrogate pair stands for one above the first plane (RFC 2781 section 2.2). */
  function CodePoint(chr: nat): nat
    requires Scalar(chr)
  {
    if chr < 0x1_0000 then chr
    else 0x1_0000 + 0x400 * (chr / 0x1_0000 - 0xD800) + (chr % 0x1_0000 - 0xDC00)
  }

  /** The byte sequences of RFC 3629 section 3, the bits of a code point spread over them. */
  predicate Sequence(u: nat, s: seq<byte>) {
    && (forall i :: 1 <= i < |s| ==> 0x80 <= s[i] < 0xC0)
    && match |s|
       case 1 => u < 0x80 && s[0] as int == u
       case 2 => 0x80 <= u < 0x800 && 0xC0 <= s[0] < 0xE0 && u == 0x40 * (s[0] as int - 0xC0) + (s[1] as int - 0x80)
       case 3 => 0x800 <= u < 0x1_0000 && 0xE0 <= s[0] < 0xF0
                 && u == 0x1000 * (s[0] as int - 0xE0) + 0x40 * (s[1] as int - 0x80) + (s[2] as int - 0x80)
       case 4 => 0x1_0000 <= u < 0x11_0000 && 0xF0 <= s[0] < 0xF8
                 && u == 0x4_0000 * (s[0] as int - 0xF0) + 0x1000 * (s[1] as int - 0x80) + 0x40 * (s[2] as int - 0x80)
                         + (s[3] as int - 0x80)
       case _ => false
  }

  /** What `put_utf` writes is the UTF-8 form of the code point. */
  lemma PutUtfIsUtf8(chr: nat, szb: nat)
    requires chr < TWO32 && PutUtf(chr, szb) != []
    ensures Scalar(chr) && Sequence(CodePoint(chr), PutUtf(chr, szb))
  {
    hide HighBits, LowBits, Scalar, Trail, Sequence;
    PutUtfWrites(chr, szb);
    if chr < 0x80 {
      OneByte(chr);
    } else if chr < 0x800 {
      TwoBytes(chr);
    } else if chr < 0x1_0000 {
      ThreeBytes(chr);
    } else {
      PairBits(chr);
      PairRange(chr);
      FourBytes(CodePoint(chr));
    }
  }

  lemma OneByte(u: nat)
    requires u < 0x80
    ensures Sequence(u, [u])
  {
  }

  lemma TwoBytes(u: nat)
    requires 0x80 <= u < 0x800
    ensures Sequence(u, [0xC0 + u / 0x40 % 0x20, Trail(u)])
  {
    assert u / 0x40 % 0x20 == u / 0x40;
  }

  lemma ThreeBytes(u: nat)
    requires 0x800 <= u < 0x1_0000
    ensures Sequence(u, [0xE0 + u / 0x1000 % 0x10, Trail(u / 0x40), Trail(u)])
  {
    Digits(u);
    assert u / 0x1000 % 0x10 == u / 0x1000;
  }

  lemma FourBytes(u: nat)
    requires 0x1_0000 <= u < 0x11_0000
    ensures Sequence(u, [0xF0 + u / 0x4_0000 % 8, Trail(u / 0x1000), Trail(u / 0x40), Trail(u)])
  {
    Digits(u);
    Digits(u / 0x40);
    assert u / 0x4_0000 % 8 == u / 0x4_0000;
  }

  lemma PairRange(chr: nat)
    requires 0x1_0000 <= chr < TWO32 && Scalar(chr)
    ensures 0x1_0000 <= CodePoint(chr) < 0x11_0000
  {
  }

  /** Decoding undoes encoding, whatever follows in the string. */
  lemma DecodeUndoesEncode(chr: nat, szb: nat, rest: seq<byte>)
    requires chr < TWO32 && PutUtf(chr, szb) != []
    ensures Tchar2Uni(PutUtf(chr, szb) + rest) == Char(chr, |PutUtf(chr, szb)|)
  {
    hide Tchar2Uni, Scalar, Finish, Trail, HighBits, LowBits;
    PutUtfWrites(chr, szb);
    if chr < 0x80 {
      Decode1(chr, rest);
    } else if chr < 0x800 {
      Decode2(chr, rest);
    } else if chr < 0x1_0000 {
      Decode3(chr, rest);
    } else {
      Decode4(chr, rest);
    }
  }

  lemma Decode1(chr: nat, rest: seq<byte>)
    requires chr < 0x80
    ensures Tchar2Uni([chr] + rest) == Char(chr, 1)
  {
    assert At([chr] + rest, 0) as int == chr;
  }

  lemma Decode2(chr: nat, rest: seq<byte>)
    requires 0x80 <= chr < 0x800
    ensures Tchar2Uni([0xC0 + chr / 0x40 % 0x20, Trail(chr)] + rest) == Char(chr, 2)
  {
    hide Finish;
    var s := [0xC0 + chr / 0x40 % 0x20, Trail(chr)] + rest;
    assert s[0] as int == 0xC0 + chr / 0x40 && s[1] == Trail(chr);
    Two(s);
    Low(chr, 2);
  }

  lemma Decode3(chr: nat, rest: seq<byte>)
    requires 0x800 <= chr < 0x1_0000 && !IsSurrogate(chr)
    ensures Tchar2Uni([0xE0 + chr / 0x1000 % 0x10, Trail(chr / 0x40), Trail(chr)] + rest) == Char(chr, 3)
  {
    hide Finish, Tchar2Uni;
    var s := [0xE0 + chr / 0x1000 % 0x10, Trail(chr / 0x40), Trail(chr)] + rest;
    assert s[0] as int == 0xE0 + chr / 0x1000 && s[1] == Trail(chr / 0x40) && s[2] == Trail(chr);
    Three(s);
    Digits(chr);
    Low(chr, 3);
  }

  lemma Decode4(chr: nat, rest: seq<byte>)
    requires 0x1_0000 <= chr < TWO32 && Scalar(chr)
    ensures var u := HighBits(chr) + LowBits(chr) + 0x1_0000;
      Tchar2Uni([0xF0 + u / 0x4_0000 % 8, Trail(u / 0x1000), Trail(u / 0x40), Trail(u)] + rest) == Char(chr, 4)
  {
    hide Finish, HighBits, LowBits;
    PairBits(chr);
    var u := HighBits(chr) + LowBits(chr) + 0x1_0000;
    Supplementary(u, rest);
    assert chr == chr / 0x1_0000 * 0x1_0000 + chr % 0x1_0000;
    High(u, chr / 0x1_0000 - 0xD800, chr % 0x1_0000 - 0xDC00);
  }

  lemma Supplementary(u: nat, rest: seq<byte>)
    requires 0x1_0000 <= u < 0x11_0000
    ensures Tchar2Uni([0xF0 + u / 0x4_0000 % 8, Trail(u / 0x1000), Trail(u / 0x40), Trail(u)] + rest) ==
            Finish(Char(u, 4))
  {
    hide Finish, Tchar2Uni;
    var s := [0xF0 + u / 0x4_0000 % 8, Trail(u / 0x1000), Trail(u / 0x40), Trail(u)] + rest;
    assert s[0] as int == 0xF0 + u / 0x4_0000 && s[1] == Trail(u / 0x1000) && s[2] == Trail(u / 0x40) && s[3] == Trail(u);
    Four(s);
    Digits(u);
    Digits(u / 0x40);
  }

  lemma Digits(u: nat)
    ensures u == u / 0x1000 * 0x1000 + u / 0x40 % 0x40 * 0x40 + u % 0x40
    ensures u / 0x40 / 0x1000 == u / 0x4_0000 && u / 0x40 / 0x40 == u / 0x1000
  {
    assert u / 0x40 / 0x40 == u / 0x1000;
  }

  lemma Low(chr: nat, n: nat)
    requires 0x80 <= chr < 0x1_0000 && !IsSurrogate(chr)
    ensures Finish(Char(chr, n)) == Char(chr, n)
  {
  }

  lemma High(u: nat, hi: nat, lo: nat)
    requires hi < 0x400 && lo < 0x400 && u == hi * 0x400 + lo + 0x1_0000
    ensures Finish(Char(u, 4)) == Char((hi + 0xD800) * 0x1_0000 + lo + 0xDC00, 4)
  {
  }

  lemma Two(s: seq<byte>)
    requires |s| >= 2 && 0xC0 <= s[0] as int < 0xE0 && 0x80 <= s[1] as int < 0xC0
    ensures Tchar2Uni(s) == Finish(Char((s[0] as int - 0xC0) * 0x40 + (s[1] as int - 0x80), 2))
  {
    hide Finish;
  }

  lemma Three(s: seq<byte>)
    requires |s| >= 3 && 0xE0 <= s[0] as int < 0xF0 && 0x80 <= s[1] as int < 0xC0 && 0x80 <= s[2] as int < 0xC0
    ensures Tchar2Uni(s) ==
      Finish(Char((s[0] as int - 0xE0) * 0x1000 + (s[1] as int - 0x80) * 0x40 + (s[2] as int - 0x80), 3))
  {
    hide Finish;
    var uc := (s[0] as int - 0xE0) * 0x40 + (s[1] as int - 0x80);
    assert Trailing(s, 2, uc, 1) == Trailing(s, 3, uc * 0x40 + (s[2] as int - 0x80), 0);
  }

  lemma Four(s: seq<byte>)
    requires |s| >= 4 && 0xF0 <= s[0] as int < 0xF8
    requires 0x80 <= s[1] as int < 0xC0 && 0x80 <= s[2] as int < 0xC0 && 0x80 <= s[3] as int < 0xC0
    ensures Tchar2Uni(s) ==
      Finish(Char((s[0] as int - 0xF0) * 0x4_0000 + (s[1] as int - 0x80) * 0x1000 + (s[2] as int - 0x80) * 0x40 +
                  (s[3] as int - 0x80), 4))
  {
    hide Finish;
    var uc := (s[0] as int - 0xF0) * 0x40 + (s[1] as int - 0x80);
    var uc' := uc * 0x40 + (s[2] as int - 0x80);
    assert Trailing(s, 2, uc, 2) == Trailing(s, 3, uc', 1);
    assert Trailing(s, 3, uc', 1) == Trailing(s, 4, uc' * 0x40 + (s[3] as int - 0x80), 0);
  }

  // ----- whole names

  /** The UTF-16 units of a character. */
  function Units(chr: nat): seq<nat> {
    if chr < 0x1_0000 then [chr] else [chr / 0x1_0000, chr % 0x1_0000]
  }

  function AllUnits(chars: seq<nat>): seq<nat> {
    if chars == [] then [] else Units(chars[0]) + AllUnits(chars[1..])
  }

  predicate Proper(chars: seq<nat>) { forall i :: 0 <= i < |chars| ==> chars[i] > 0 && Scalar(chars[i]) }

  function TotalSize(chars: seq<nat>): nat {
    if chars == [] then 0 else Size(chars[0]) + TotalSize(chars[1..])
  }

  /** The bytes of a name of scalar values. */
  function Encoded(chars: seq<nat>): (s: seq<byte>)
    requires Proper(chars)
  {
    if chars == [] then [] else PutUtf(chars[0], 4) + Encoded(chars[1..])
  }

  /** What decoding a string to its terminator gives, as UTF-16 units; `None` when an ill-formed code is met. */
  datatype Name = Name(units: seq<nat>) | None

  function DecodedUnits(s: seq<byte>): Name
    decreases |s|
  {
    var d := Tchar2Uni(s);
    if d.Wrong? then None
    else if d.uc == 0 || d.used > |s| || d.used == 0 then Name([])
    else
      var rest := DecodedUnits(s[d.used..]);
      if rest.None? then None else Name(Units(d.uc) + rest.units)
  }

  /** Every name of scalar values, written with `put_utf` and read back with `tchar2uni`, is the same UTF-16 name. */
  lemma {:induction false} NameRoundTrip(chars: seq<nat>)
    requires Proper(chars)
    ensures DecodedUnits(Encoded(chars) + [0]) == Name(AllUnits(chars))
    decreases |chars|
  {
    hide PutUtf, Tchar2Uni, Scalar, Units;
    if chars == [] {
      Terminated();
      assert [] + [0] == [0];
    } else {
      ScalarWritten(chars[0]);
      var c, p := chars[0], PutUtf(chars[0], 4);
      var rest := Encoded(chars[1..]) + [0];
      assert Encoded(chars) + [0] == p + rest;
      DecodeUndoesEncode(c, 4, rest);
      assert (p + rest)[|p|..] == rest;
      NameRoundTrip(chars[1..]);
    }
  }

  lemma Terminated()
    ensures Tchar2Uni([0]) == Char(0, 1)
  {
  }

  lemma ScalarWritten(c: nat)
    requires Scalar(c)
    ensures c < TWO32 && PutUtf(c, 4) != []
  {
    PutUtfWrites(c, 4);
  }

  // ----- handing a long name to the caller

  predicate UnitsOk(units: seq<nat>) { forall i :: 0 <= i < |units| ==> 0 < units[i] < 0x1_0000 }

  /** The character that starts `units`; a high and a low half alone are wrong characters. */
  function FirstChar(units: seq<nat>): (c: nat)
    requires units != [] && UnitsOk(units) && (IsSurrogate(units[0]) ==> |units| >= 2)
    ensures c < TWO32
  {
    if IsSurrogate(units[0]) then units[0] * 0x1_0000 + units[1] else units[0]
  }

  /** The UTF-8 form of `units` in `room` bytes, `None` when it does not fit or the units are ill-formed. */
  datatype Text = Text(bytes: seq<byte>) | Invalid

  function Output(units: seq<nat>, room: nat): Text
    requires UnitsOk(units)
    decreases |units|
  {
    if units == [] then Text([])
    else if IsSurrogate(units[0]) && |units| < 2 then Invalid
    else
      var p := PutUtf(FirstChar(units), room);
      if p == [] || |p| > room then Invalid
      else
        var rest := Output(units[if IsSurrogate(units[0]) then 2 else 1..], room - |p|);
        if rest.Invalid? then Invalid else Text(p + rest.bytes)
  }

  function Follow(name: seq<byte>, t: Text): Text {
    if t.Invalid? then Invalid else Text(name + t.bytes)
  }

  /** The output of what starts at unit `i`. */
  function OutputFrom(units: seq<nat>, i: nat, room: nat): Text
    requires UnitsOk(units) && i <= |units|
  {
    Output(units[i..], room)
  }

  lemma OutputEnds(units: seq<nat>, i: nat, room: nat)
    requires UnitsOk(units) && i <= |units|
    ensures i == |units| ==> OutputFrom(units, i, room) == Text([])
    ensures i + 1 == |units| && IsSurrogate(units[i]) ==> OutputFrom(units, i, room) == Invalid
    ensures i == 0 ==> OutputFrom(units, i, room) == Output(units, room)
  {
    assert i == 0 ==> units[i..] == units;
  }

  lemma FollowTwice(name: seq<byte>, p: seq<byte>, t: Text)
    ensures Follow(name, Follow(p, t)) == Follow(name + p, t)
    ensures Follow([], t) == t && Follow(name, Text([])) == Text(name) && Follow(name, Invalid) == Invalid
  {
    assert name + [] == name;
    if t.Text? { assert name + (p + t.bytes) == name + p + t.bytes && [] + t.bytes == t.bytes; }
  }

  lemma OutputStep(units: seq<nat>, i: nat, room: nat)
    requires UnitsOk(units) && i < |units| && (IsSurrogate(units[i]) ==> i + 1 < |units|)
    ensures var n, c := if IsSurrogate(units[i]) then 2 else 1,
        if IsSurrogate(units[i]) then units[i] * 0x1_0000 + units[i + 1] else units[i];
      c < TWO32 &&
      var p := PutUtf(c, room);
      OutputFrom(units, i, room) ==
      if p == [] || |p| > room then Invalid else Follow(p, OutputFrom(units, i + n, room - |p|))
  {
    hide PutUtf;
    var u := units[i..];
    assert u[1..] == units[i + 1..];
    if |u| > 1 { assert u[2..] == units[i + 2..]; }
  }

  lemma UnitAt(units: seq<nat>, i: nat)
    requires UnitsOk(units) && i < |units|
    ensures 0 < units[i] < 0x1_0000
  {
  }

  /** The loop of `get_fileinfo` over the name buffer; an invalid name comes out empty. */
  method FileName(units: seq<nat>, room: nat) returns (name: seq<byte>)
    requires UnitsOk(units)
    ensures name == if Output(units, room).Invalid? then [] else Output(units, room).bytes
  {
    hide PutUtf, Output, OutputFrom, Follow, UnitsOk, IsSurrogate;
    name := [];
    var si: nat, hs: nat := 0, 0;
    OutputEnds(units, 0, room);
    FollowTwice([], [], OutputFrom(units, 0, room));
    while si < |units|
      invariant si <= |units| && |name| <= room && hs < 0x1_0000
      invariant hs != 0 ==> IsSurrogate(hs) && 0 < si && units[si - 1] == hs
      invariant Output(units, room) == Follow(name, OutputFrom(units, if hs != 0 then si - 1 else si, room - |name|))
      decreases |units| - si
    {
      UnitAt(units, si);
      var wc := units[si];
      si := si + 1;
      if hs == 0 && IsSurrogate(wc) {
        hs := wc;
      } else {
        OutputStep(units, if hs != 0 then si - 2 else si - 1, room - |name|);
        var p := PutUtf(hs * 0x1_0000 + wc, room - |name|);
        if p == [] || |p| > room - |name| {
          FollowTwice(name, [], Invalid);
          return [];
        }
        FollowTwice(name, p, OutputFrom(units, si, room - |name| - |p|));
        name := name + p;
        hs := 0;
      }
    }
    FollowTwice(name, [], Text([]));
    if hs != 0 {
      OutputEnds(units, si - 1, room - |name|);
      name := [];
    } else {
      OutputEnds(units, si, room - |name|);
    }
  }

  lemma OutputCons(c: nat, rest: seq<nat>, room: nat)
    requires Scalar(c) && c > 0 && UnitsOk(rest)
    ensures c < TWO32 && UnitsOk(Units(c) + rest)
    ensures var p := PutUtf(c, room);
      Output(Units(c) + rest, room) == if p == [] || |p| > room then Invalid else Follow(p, Output(rest, room - |p|))
  {
    hide PutUtf;
    var u := Units(c);
    ScalarUnits(c);
    ScalarWritten(c);
    assert (u + rest)[|u|..] == rest;
    assert FirstChar(u + rest) == c;
  }

  lemma {:induction false} OutputIs(chars: seq<nat>, room: nat)
    requires Proper(chars)
    ensures UnitsOk(AllUnits(chars))
    ensures Output(AllUnits(chars), room) == if TotalSize(chars) <= room then Text(Encoded(chars)) else Invalid
    decreases |chars|
  {
    hide PutUtf, Size, Units, Scalar, UnitsOk, Output;
    if chars == [] {
      NothingOut(room);
    } else {
      var c := chars[0];
      ScalarWritten(c);
      PutUtfWrites(c, 4);
      PutUtfWrites(c, room);
      if PutUtf(c, room) != [] {
        SameWritten(c, room);
        OutputIs(chars[1..], room - |PutUtf(c, room)|);
      } else {
        OutputIs(chars[1..], room);
      }
      OutputCons(c, AllUnits(chars[1..]), room);
    }
  }

  lemma NothingOut(room: nat)
    ensures UnitsOk([]) && Output([], room) == Text([])
  {
  }

  lemma ScalarUnits(c: nat)
    requires Scalar(c) && c > 0
    ensures var u := Units(c);
      && UnitsOk(u) && (IsSurrogate(u[0]) <==> |u| == 2)
      && c == if |u| == 2 then u[0] * 0x1_0000 + u[1] else u[0]
  {
  }

  lemma SameWritten(c: nat, room: nat)
    requires c < TWO32 && PutUtf(c, room) != []
    ensures PutUtf(c, room) == PutUtf(c, 4)
  {
  }

  /**
   * The name FatFs hands out for a long name, taken back by the path parser, is the long name, whenever it fits; and
   * the caller sees no partial name.
   */
  lemma FileNameRoundTrip(chars: seq<nat>, room: nat)
    requires Proper(chars)
    ensures UnitsOk(AllUnits(chars))
    ensures var t := Output(AllUnits(chars), room);
      && (t.Text? <==> TotalSize(chars) <= room)
      && (t.Text? ==> DecodedUnits(t.bytes + [0]) == Name(AllUnits(chars)))
  {
    OutputIs(chars, room);
    NameRoundTrip(chars);
  }
}
