/** Loading executables, with a bounce buffer for what would overwrite the running program. */
module Loader {
  import opened Words

  const PT_LOAD := 1
  const PT_DYNAMIC := 2
  const PT_INTERP := 3
  const PT_SHLIB := 5

  datatype Header = Header(kind: nat, paddr: nat, offset: nat, filesz: nat, memsz: nat)

  function Up4(n: nat): (r: nat)
    ensures n <= r < n + 4 && r % 4 == 0
  {
    (n + 3) / 4 * 4
  }

  predicate Quad(n: int) { n % 4 == 0 }

  lemma Up4Facts(n: nat)
    ensures n <= Up4(n) < n + 4 && Quad(Up4(n))
    ensures Up4(n) == 0 <==> n == 0
  {
  }

  lemma Up4Sum(p: nat, n: nat)
    ensures p / 4 * 4 <= p < p / 4 * 4 + 4 && Quad(p / 4 * 4)
    ensures p / 4 * 4 + Up4(n + p % 4) == Up4(p + n)
  {
  }

  lemma Up4Ends(t: nat, e: nat)
    requires Quad(t)
    ensures t + Up4(Excess(e, t)) == if e > t then Up4(e) else t
  {
  }

  /** Nothing between a number and the multiple of four above it is one. */
  lemma Up4Fits(e: nat, b: nat)
    requires Quad(b) && e <= b
    ensures Up4(e) <= b
  {
  }

  lemma QuadSum(a: int, b: int)
    requires Quad(a) && Quad(b)
    ensures Quad(a + b) && Quad(a - b)
  {
  }

  lemma ExpandFacts(target: nat, size: nat, paddr: nat, n: nat, limit: nat)
    requires Quad(target) && Quad(size) && Quad(limit) && target + size <= limit && paddr + n <= limit
    ensures var below, above := Up4(Excess(target, paddr)), Up4(Excess(paddr + n, target + size));
      && below <= target && Quad(target - below) && Quad(size + below + above)
      && (below > 0 <==> paddr < target) && target - below <= paddr
      && target + size + above == (if paddr + n > target + size then Up4(paddr + n) else target + size)
      && paddr + n <= target + size + above <= limit
  {
    hide Up4, Quad;
    var below, above := Up4(Excess(target, paddr)), Up4(Excess(paddr + n, target + size));
    Up4Facts(Excess(target, paddr));
    Up4Facts(Excess(paddr + n, target + size));
    Up4Fits(Excess(target, paddr), target);
    QuadSum(target, size);
    Up4Ends(target + size, paddr + n);
    Up4Fits(paddr + n, limit);
    Up4Facts(paddr + n);
    QuadSum(target, below);
    QuadSum(size, below);
    QuadSum(size + below, above);
  }

  function Min(a: nat, b: nat): nat { if a < b then a else b }

  function Excess(a: nat, b: nat): nat { if a > b then a - b else 0 }

  /** Byte `i` of a segment: from the file while the file has it, then zero. */
  function ByteOf(file: seq<byte>, offset: nat, filesz: nat, i: nat): byte {
    if i < filesz && offset + i < |file| then file[offset + i] else 0
  }

  /** `n` bytes of a file copied into an array; false when the file is too short for them. */
  method ReadInto(a: array<byte>, at: nat, file: seq<byte>, offset: nat, n: nat) returns (ok: bool)
    requires at + n <= a.Length
    modifies a
    ensures ok <==> n == 0 || offset + n <= |file|
    ensures forall i :: 0 <= i < a.Length && !(at <= i < at + n) ==> a[i] == old(a[i])
    ensures ok ==> forall i :: at <= i < at + n ==> offset + (i - at) < |file| && a[i] == file[offset + (i - at)]
  {
    var start := Min(offset, |file|);
    var count := Min(n, |file| - start);
    var i: nat := 0;
    while i < count
      invariant i <= count
      invariant forall j :: 0 <= j < a.Length && !(at <= j < at + n) ==> a[j] == old(a[j])
      invariant forall j :: at <= j < at + i ==> a[j] == file[start + (j - at)]
    {
      a[at + i] := file[start + i];
      i := i + 1;
    }
    ok := count == n;
  }

  method Clear(a: array<byte>, at: nat, n: nat)
    requires at + n <= a.Length
    modifies a
    ensures forall i :: 0 <= i < a.Length ==> a[i] == if at <= i < at + n then 0 else old(a[i])
  {
    var i: nat := 0;
    while i < n
      invariant i <= n
      invariant forall j :: 0 <= j < a.Length ==> a[j] == if at <= j < at + i then 0 else old(a[j])
    {
      a[at + i] := 0;
      i := i + 1;
    }
  }

  predicate Readable(file: seq<byte>, offset: nat, n: nat) { n == 0 || offset + n <= |file| }

  /** `n` bytes of a segment put into an array: what the file has, then zeros. */
  method Place(a: array<byte>, at: nat, n: nat, file: seq<byte>, offset: nat, filesz: nat) returns (ok: bool)
    requires at + n <= a.Length
    modifies a
    ensures ok <==> Readable(file, offset, Min(n, filesz))
    ensures forall i :: 0 <= i < a.Length && !(at <= i < at + n) ==> a[i] == old(a[i])
    ensures ok ==> forall i :: at <= i < at + n ==> a[i] == ByteOf(file, offset, filesz, i - at)
  {
    var load := Min(n, filesz);
    ok := true;
    if load > 0 {
      ok := ReadInto(a, at, file, offset, load);
      if !ok {
        return;
      }
    }
    if n > load {
      Clear(a, at + load, n - load);
    }
  }

  /** The segments to be loaded come in address order and do not overlap. */
  ghost predicate Ascending(headers: seq<Header>) {
    forall i, j :: 0 <= i < j < |headers| && headers[i].kind == PT_LOAD && headers[j].kind == PT_LOAD ==>
      headers[i].paddr + headers[i].memsz <= headers[j].paddr
  }

  /** Segment addresses, moved up by `off`, stay within 32 bits. */
  ghost predicate NoWrap(headers: seq<Header>, off: nat) {
    forall i :: 0 <= i < |headers| && headers[i].kind == PT_LOAD ==> off + headers[i].paddr + headers[i].memsz < TWO32
  }

  predicate Unsupported(kind: nat) { kind == PT_SHLIB || kind == PT_DYNAMIC || kind == PT_INTERP }

  /** The first pass of `load_elf_executable`: nothing unsupported, and the addresses the segments span. */
  method Scan(headers: seq<Header>) returns (ok: bool, lo: nat, hi: nat)
    requires NoWrap(headers, 0)
    ensures ok <==> forall i :: 0 <= i < |headers| ==> !Unsupported(headers[i].kind)
    ensures lo < TWO32 && hi < TWO32
    ensures ok ==> forall i :: 0 <= i < |headers| && headers[i].kind == PT_LOAD ==>
      lo <= headers[i].paddr && headers[i].paddr + headers[i].memsz <= hi
    ensures (lo == TWO32 - 1 && hi == 0) || exists i, j ::
      0 <= i < |headers| && 0 <= j < |headers| && headers[i].kind == PT_LOAD && headers[j].kind == PT_LOAD &&
      lo == headers[i].paddr && hi == headers[j].paddr + headers[j].memsz
  {
    ok, lo, hi := true, TWO32 - 1, 0;
    var k: nat := 0;
    while ok && k < |headers|
      invariant k <= |headers| && lo < TWO32 && hi < TWO32
      invariant ok <==> forall i :: 0 <= i < k ==> !Unsupported(headers[i].kind)
      invariant ok ==> forall i :: 0 <= i < k && headers[i].kind == PT_LOAD ==>
        lo <= headers[i].paddr && headers[i].paddr + headers[i].memsz <= hi
      invariant (lo == TWO32 - 1 && hi == 0) || exists i, j ::
        0 <= i < |headers| && 0 <= j < |headers| && headers[i].kind == PT_LOAD && headers[j].kind == PT_LOAD &&
        lo == headers[i].paddr && hi == headers[j].paddr + headers[j].memsz
    {
      var h := headers[k];
      if Unsupported(h.kind) {
        ok := false;
      } else if h.kind == PT_LOAD {
        if h.paddr < lo {
          lo := h.paddr;
        }
        if h.paddr + h.memsz > hi {
          hi := h.paddr + h.memsz;
        }
      }
      k := k + 1;
    }
  }

  /** The 16-bit loop counter copies the whole buffer exactly if the buffer is below 256 KiB. */
  lemma CopiedLength(size: nat)
    requires Quad(size)
    ensures 4 * (size / 4 % 0x1_0000) <= size
    ensures 4 * (size / 4 % 0x1_0000) == size <==> size < 0x4_0000
  {
  }

  /** A buffer of `n` bytes after `bounce_expand` has moved it to make room for `below` bytes in front. */
  function MovedDown(a: seq<byte>, below: nat, n: nat): seq<byte>
    requires below + n <= |a|
  {
    a[below..below + n] + a[n..]
  }

  /**
   * Growing the buffer by `below` bytes in front should leave byte `i` of `kept`, the old buffer, at place `below + i`.
   * Instead that place holds the byte `2 * below` further on in the old buffer, or one of the `unset` bytes behind it.
   */
  lemma GrownDownIsWrong(kept: seq<byte>, unset: seq<byte>, below: nat, i: nat)
    requires 0 < below <= |unset| && i < |kept|
    ensures var a := MovedDown(kept + unset, below, |kept|);
      && |a| == |kept| + |unset|
      && a[below + i] ==
         if 2 * below + i < |kept| then kept[2 * below + i]
         else if below + i < |kept| then unset[2 * below + i - |kept|]
         else unset[below + i - |kept|]
  {
  }

  class Loader {
    /** RAM below the heap. */
    const mem: array<byte>
    const romBelow: nat
    const bounceBelow: nat
    var data: array?<byte>
    var size: nat
    var target: nat

    /** The buffer is whole longwords and lies below the memory that is loaded directly. */
    ghost predicate Valid()
      reads `data, `size, `target
    {
      && Quad(bounceBelow) && bounceBelow <= mem.Length && romBelow < TWO32
      && (data == null ==> size == 0)
      && (data != null ==>
        && data != mem && data.Length == size && Quad(size) && Quad(target) && target + size <= bounceBelow)
    }

    /** The memory once the bounce buffer is copied into place. */
    ghost function Image(a: nat): byte
      requires Valid() && a < mem.Length
      reads this, mem, data
    {
      if data != null && target <= a < target + size then data[a - target] else mem[a]
    }

    ghost predicate Buffered(a: nat)
      reads `data, `size, `target
    {
      data != null && target <= a < target + size
    }

    /** Bytes that something was loaded to, or may be loaded to directly: all but the unused low memory. */
    ghost predicate Settled(a: nat)
      reads `data, `size, `target
    {
      a >= bounceBelow || Buffered(a)
    }

    /** `check_writable_range` when bouncing is allowed; the sum wraps at 32 bits. */
    predicate Writable(base: nat, length: nat) {
      (base + length) % TWO32 <= mem.Length && romBelow <= base
    }

    /** `realloc` of the bounce buffer; new bytes hold anything. */
    method Resize(n: nat) returns (a: array<byte>)
      requires data != null
      ensures fresh(a) && a.Length == n
      ensures forall i :: 0 <= i < Min(n, data.Length) ==> a[i] == data[i]
    {
      a := new byte[n];
      var i: nat := 0;
      while i < Min(n, data.Length)
        invariant i <= Min(n, data.Length)
        invariant forall j :: 0 <= j < i ==> a[j] == data[j]
      {
        a[i] := data[i];
        i := i + 1;
      }
    }

    /** `memmove` of `n` bytes from `below` to the start of the buffer, as `bounce_expand` calls it. */
    method MoveDown(a: array<byte>, below: nat, n: nat)
      requires below + n <= a.Length
      modifies a
      ensures a[..] == MovedDown(old(a[..]), below, n)
      ensures forall i :: 0 <= i < n ==> a[i] == old(a[below + i])
      ensures forall i :: n <= i < a.Length ==> a[i] == old(a[i])
    {
      var i: nat := 0;
      while i < n
        invariant i <= n
        invariant forall j :: 0 <= j < i ==> a[j] == old(a[below + j])
        invariant forall j :: i <= j < a.Length ==> a[j] == old(a[j])
      {
        a[i] := a[below + i];
        i := i + 1;
      }
    }

    /**
     * `bounce_expand`. A buffer that grows upwards keeps its bytes. One that grows downwards does not: the move takes
     * them further down instead of up, as `GrownDownIsWrong` shows.
     */
    method Expand(paddr: nat, n: nat)
      requires Valid() && n > 0 && paddr + n <= bounceBelow
      modifies `data, `size, `target
      ensures Valid() && data != null && (data == old(data) || fresh(data))
      ensures target <= paddr && paddr + n <= target + size
      ensures old(data) == null ==> target + 4 > paddr && target + size == Up4(paddr + n)
      ensures old(data) != null && paddr >= old(target) ==>
        && target == old(target)
        && target + size == (if paddr + n > target + old(size) then Up4(paddr + n) else target + old(size))
        && forall i :: 0 <= i < old(size) ==> data[i] == old(data[i])
      ensures old(data) != null && paddr < old(target) ==>
        var below := Up4(old(target) - paddr);
        && target == old(target) - below && old(size) + below <= size
        && forall i :: 0 <= i && i + below < old(size) ==> data[i] == old(data[i + below])
    {
      hide Up4, Quad;
      Up4Fits(paddr + n, bounceBelow);
      if data != null {
        var below, above := Up4(Excess(target, paddr)), Up4(Excess(paddr + n, target + size));
        ExpandFacts(target, size, paddr, n, bounceBelow);
        if below > 0 || above > 0 {
          Grow(below, above);
        }
      } else {
        Begin(paddr, n);
      }
    }

    /** The first buffer. */
    method Begin(paddr: nat, n: nat)
      requires n > 0
      modifies `data, `size, `target
      ensures data != null && fresh(data) && data.Length == size && Quad(size) && Quad(target)
      ensures target <= paddr < target + 4 && target + size == Up4(paddr + n) && paddr + n <= target + size
    {
      Up4Sum(paddr, n);
      target := paddr / 4 * 4;
      size := Up4(n + paddr % 4);
      data := new byte[size];
    }

    /** The buffer grows by `below` and `above` bytes. */
    method Grow(below: nat, above: nat)
      requires data != null && data.Length == size && below <= target
      modifies `data, `size, `target
      ensures data != null && fresh(data) && data.Length == size == old(size) + below + above
      ensures target == old(target) - below
      ensures below == 0 ==> forall i :: 0 <= i < old(size) ==> data[i] == old(data[i])
      ensures below > 0 ==> forall i :: 0 <= i && i + below < old(size) ==> data[i] == old(data[i + below])
    {
      var newsize := size + below + above;
      var grown := Resize(newsize);
      if below > 0 {
        MoveDown(grown, below, size);
        target := target - below;
      }
      data := grown;
      size := newsize;
    }

    /**
     * `load_data`. After success the memory image holds the segment, its file bytes first and zeros behind them. What
     * the image held elsewhere it still holds, provided the segment does not start below the buffer.
     */
    method LoadData(file: seq<byte>, paddr: nat, offset: nat, filesz: nat, memsz: nat) returns (ok: bool)
      requires Valid() && paddr + memsz < TWO32
      modifies `data, `size, `target, data, mem
      ensures Valid() && (data == old(data) || fresh(data))
      ensures ok <==> Writable(paddr, memsz) && Readable(file, offset, Min(filesz, memsz))
      ensures ok ==> forall i :: paddr <= i < paddr + memsz ==>
        Image(i) == ByteOf(file, offset, filesz, i - paddr) && Settled(i)
      ensures old(data) == null || paddr >= old(target) ==>
        forall a :: 0 <= a < mem.Length && !(paddr <= a < paddr + memsz) && old(Settled(a)) ==>
          Settled(a) && Image(a) == old(Image(a))
      ensures old(data) != null && paddr >= old(target) ==> data != null && target == old(target)
      ensures old(data) == null && data != null ==> target <= paddr < target + 4
      ensures old(data) == null && ok && memsz > 0 && paddr + memsz <= bounceBelow ==>
        data != null && target + size == Up4(paddr + memsz)
      ensures old(data) != null && paddr < old(target) && ok && memsz > 0 ==>
        var below := Up4(old(target) - paddr);
        forall a :: old(target) <= a && a + 2 * below < old(target) + old(size) && !(paddr <= a < paddr + memsz) ==>
          Image(a) == old(Image(a + 2 * below))
    {
      hide Up4, Quad;
      if !Writable(paddr, memsz) {
        return false;
      }
      var bounce: nat := if paddr < bounceBelow then Min(bounceBelow - paddr, memsz) else 0;
      var left := filesz;
      if bounce > 0 {
        ok := LoadBounced(file, paddr, bounce, offset, left);
        if !ok {
          return;
        }
        left := left - Min(bounce, left);
      }
      ok := true;
      if memsz > bounce {
        label bounced:
        ok := Place(mem, paddr + bounce, memsz - bounce, file, offset + bounce, left);
        forall i | paddr + bounce <= i < paddr + memsz && ok
          ensures Image(i) == ByteOf(file, offset, filesz, i - paddr) && Settled(i)
        {
          assert mem[i] == ByteOf(file, offset + bounce, left, i - (paddr + bounce));
        }
        forall i | paddr <= i < paddr + bounce && ok
          ensures Image(i) == old@bounced(Image(i)) && Settled(i) {}
      }
    }

    /** The part of a segment that goes to the bounce buffer. */
    method LoadBounced(file: seq<byte>, paddr: nat, n: nat, offset: nat, filesz: nat) returns (ok: bool)
      requires Valid() && n > 0 && paddr + n <= bounceBelow
      modifies `data, `size, `target, data
      ensures Valid() && (data == old(data) || fresh(data)) && data != null
      ensures ok <==> Readable(file, offset, Min(n, filesz))
      ensures target <= paddr && paddr + n <= target + size
      ensures old(data) == null ==> paddr < target + 4 && target + size == Up4(paddr + n)
      ensures ok ==> forall a :: paddr <= a < paddr + n ==> Buffered(a) && Image(a) == ByteOf(file, offset, filesz, a - paddr)
      ensures old(data) != null && paddr >= old(target) ==>
        && target == old(target)
        && forall a :: 0 <= a < mem.Length && old(Buffered(a)) && !(paddr <= a < paddr + n) ==>
          Buffered(a) && Image(a) == old(Image(a))
      ensures old(data) != null && paddr < old(target) ==>
        var below := Up4(old(target) - paddr);
        forall a :: old(target) <= a && a + 2 * below < old(target) + old(size) && !(paddr <= a < paddr + n) ==>
          Buffered(a) && Image(a) == old(Image(a + 2 * below))
    {
      hide Up4, Quad, Readable;
      Expand(paddr, n);
      ok := Place(data, paddr - target, n, file, offset, filesz);
    }

    /** Two segments in descending order, the first of twelve bytes: where its first byte belongs the image holds the
        ninth one. */
    method LoadDescending(file: seq<byte>) returns (ok: bool)
      requires Valid() && data == null && romBelow <= 4 && 20 <= bounceBelow && |file| == 16
      modifies `data, `size, `target, data, mem
      ensures Valid() && ok && Image(8) == file[8]
    {
      ok := LoadData(file, 8, 0, 12, 12);
      assert Image(16) == ByteOf(file, 0, 12, 8);
      assert target == 8 && size == 12;
      ok := LoadData(file, 4, 12, 4, 4);
      assert Up4(4) == 4;
    }

    /** Segment `h`, moved up by `off`, is in the memory image. */
    ghost predicate Present(h: Header, off: nat, file: seq<byte>)
      requires Valid()
      reads this, mem, data
    {
      && off + h.paddr + h.memsz <= mem.Length
      && forall a :: off + h.paddr <= a < off + h.paddr + h.memsz ==>
        Settled(a) && Image(a) == ByteOf(file, h.offset, h.filesz, a - (off + h.paddr))
    }

    /** The segment lies in writable memory and the file has all its bytes. */
    predicate Loadable(h: Header, off: nat, file: seq<byte>) {
      Writable(off + h.paddr, h.memsz) && Readable(file, h.offset, Min(h.filesz, h.memsz))
    }

    /** The second pass of `load_elf_executable`. */
    method LoadSegments(headers: seq<Header>, off: nat, file: seq<byte>) returns (ok: bool)
      requires Valid() && data == null && Ascending(headers) && NoWrap(headers, off)
      modifies `data, `size, `target, mem
      ensures Valid() && (data == null || fresh(data))
      ensures ok <==> forall i :: 0 <= i < |headers| && headers[i].kind == PT_LOAD ==> Loadable(headers[i], off, file)
      ensures ok ==> forall i :: 0 <= i < |headers| && headers[i].kind == PT_LOAD ==> Present(headers[i], off, file)
    {
      hide Image, Settled;
      var k: nat := 0;
      ghost var low: nat := 0;
      ok := true;
      while k < |headers|
        invariant k <= |headers| && Valid() && ok && (data == null || fresh(data))
        invariant data != null ==> target <= low
        invariant forall j :: k <= j < |headers| && headers[j].kind == PT_LOAD ==> low <= off + headers[j].paddr
        invariant forall i :: 0 <= i < k && headers[i].kind == PT_LOAD ==> Loadable(headers[i], off, file)
        invariant forall i :: 0 <= i < k && headers[i].kind == PT_LOAD ==> Present(headers[i], off, file)
      {
        if headers[k].kind == PT_LOAD {
          ok := LoadSegment(headers, k, off, file);
          if !ok {
            return;
          }
          low := off + headers[k].paddr;
        }
        k := k + 1;
      }
    }

    /** One segment, above all loaded before it. */
    method LoadSegment(headers: seq<Header>, k: nat, off: nat, file: seq<byte>) returns (ok: bool)
      requires Valid() && k < |headers| && headers[k].kind == PT_LOAD && Ascending(headers) && NoWrap(headers, off)
      requires data != null ==> target <= off + headers[k].paddr
      requires forall i :: 0 <= i < k && headers[i].kind == PT_LOAD ==> Present(headers[i], off, file)
      modifies `data, `size, `target, data, mem
      ensures Valid() && (data == old(data) || fresh(data))
      ensures ok <==> Loadable(headers[k], off, file)
      ensures data != null ==> target <= off + headers[k].paddr
      ensures ok ==> forall i :: 0 <= i <= k && headers[i].kind == PT_LOAD ==> Present(headers[i], off, file)
    {
      hide Image, Settled;
      var h := headers[k];
      ok := LoadData(file, off + h.paddr, h.offset, h.filesz, h.memsz);
    }

    /** The copying routine of `machine_execute`: its loop counter has 16 bits. */
    method CopyBounce()
      requires Valid()
      modifies mem
      ensures forall a :: 0 <= a < mem.Length ==>
        mem[a] == if data != null && target <= a < target + 4 * (size / 4 % 0x1_0000) then data[a - target] else old(mem[a])
      ensures size < 0x4_0000 ==> forall a :: 0 <= a < mem.Length ==> mem[a] == old(Image(a))
    {
      if size == 0 {
        return;
      }
      var words := (size + 3) / 4 % 0x1_0000;
      var i: nat := 0;
      while i < words
        invariant i <= words
        invariant forall a :: 0 <= a < mem.Length ==>
          mem[a] == if target <= a < target + 4 * i then data[a - target] else old(mem[a])
      {
        var at, from := target + 4 * i, 4 * i;
        mem[at], mem[at + 1], mem[at + 2], mem[at + 3] := data[from], data[from + 1], data[from + 2], data[from + 3];
        i := i + 1;
      }
    }

    /** Some segment is linked to addresses below the RAM that may be written. */
    ghost predicate BelowRam(headers: seq<Header>) {
      exists i :: 0 <= i < |headers| && headers[i].kind == PT_LOAD && headers[i].paddr < romBelow
    }

    /** All segments lie in RAM at `off`, the file has their bytes, and nothing asks for a dynamic linker. */
    ghost predicate CanLoad(headers: seq<Header>, off: nat, file: seq<byte>) {
      forall i :: 0 <= i < |headers| ==>
        && headers[i].kind != PT_DYNAMIC && headers[i].kind != PT_INTERP && headers[i].kind != PT_SHLIB
        && (headers[i].kind == PT_LOAD ==> InRam(headers[i], off) && HasBytes(headers[i], file))
    }

    predicate InRam(h: Header, off: nat) { romBelow <= off + h.paddr && off + h.paddr + h.memsz <= mem.Length }

    predicate HasBytes(h: Header, file: seq<byte>) {
      h.filesz == 0 || h.memsz == 0 || h.offset + (if h.filesz < h.memsz then h.filesz else h.memsz) <= |file|
    }

    lemma LoadableIs(h: Header, off: nat, file: seq<byte>)
      requires off + h.paddr + h.memsz < TWO32
      ensures Loadable(h, off, file) <==> InRam(h, off) && HasBytes(h, file)
    {
    }

    /** The test of the whole span is that of every segment. */
    lemma SpanIs(headers: seq<Header>, lo: nat, hi: nat, off: nat)
      requires NoWrap(headers, off) && lo < TWO32 && hi < TWO32 && romBelow < TWO32 && (off == 0 || lo < TWO32 - 1)
      requires forall i :: 0 <= i < |headers| && headers[i].kind == PT_LOAD ==>
        lo <= headers[i].paddr && headers[i].paddr + headers[i].memsz <= hi
      requires (lo == TWO32 - 1 && hi == 0) || exists i, j ::
        0 <= i < |headers| && 0 <= j < |headers| && headers[i].kind == PT_LOAD && headers[j].kind == PT_LOAD &&
        lo == headers[i].paddr && hi == headers[j].paddr + headers[j].memsz
      ensures Writable((off + lo) % TWO32, (hi - lo) % TWO32) <==>
        forall i :: 0 <= i < |headers| && headers[i].kind == PT_LOAD ==> InRam(headers[i], off)
    {
    }

    /** `load_elf_executable` up to the start of the program; `moved` is the target's EXECUTABLE_LOAD_ADDRESS. */
    method LoadElf(headers: seq<Header>, file: seq<byte>, moved: nat) returns (ok: bool, off: nat)
      requires Valid() && data == null && Ascending(headers) && NoWrap(headers, 0) && NoWrap(headers, moved)
      modifies `data, `size, `target, mem
      ensures Valid() && (data == null || fresh(data)) && (off == 0 || off == moved)
      ensures ok <==> CanLoad(headers, if BelowRam(headers) then moved else 0, file)
      ensures ok ==> off == if BelowRam(headers) then moved else 0
      ensures ok ==> forall i :: 0 <= i < |headers| && headers[i].kind == PT_LOAD ==> Present(headers[i], off, file)
    {
      hide Image, Settled, InRam, HasBytes, Readable, Writable, Loadable;
      off := 0;
      var lo, hi;
      ok, lo, hi := Scan(headers);
      if !ok {
        return;
      }
      if lo < romBelow {
        off := moved;
      }
      ok := Writable((off + lo) % TWO32, (hi - lo) % TWO32);
      SpanIs(headers, lo, hi, off);
      forall i | 0 <= i < |headers| && headers[i].kind == PT_LOAD
        ensures Loadable(headers[i], off, file) <==> InRam(headers[i], off) && HasBytes(headers[i], file)
      {
        LoadableIs(headers[i], off, file);
      }
      if ok {
        ok := LoadSegments(headers, off, file);
      }
    }

    /** Segment `h`, moved up by `off`, is in memory. */
    ghost predicate InMemory(h: Header, off: nat, file: seq<byte>)
      reads mem
    {
      && off + h.paddr + h.memsz <= mem.Length
      && forall a :: off + h.paddr <= a < off + h.paddr + h.memsz ==>
        mem[a] == ByteOf(file, h.offset, h.filesz, a - (off + h.paddr))
    }

    /**
     * Loading and the final copy together: if the load succeeds and the bounce buffer is below 256 KiB, memory holds
     * every segment when the program starts, both what was loaded directly and what went through the buffer.
     */
    method LoadAndCopy(headers: seq<Header>, file: seq<byte>, moved: nat) returns (ok: bool, off: nat)
      requires Valid() && data == null && Ascending(headers) && NoWrap(headers, 0) && NoWrap(headers, moved)
      modifies `data, `size, `target, mem
      ensures Valid() && (off == 0 || off == moved)
      ensures ok <==> CanLoad(headers, if BelowRam(headers) then moved else 0, file)
      ensures ok ==> off == if BelowRam(headers) then moved else 0
      ensures ok && size < 0x4_0000 ==>
        forall i :: 0 <= i < |headers| && headers[i].kind == PT_LOAD ==> InMemory(headers[i], off, file)
    {
      ok, off := LoadElf(headers, file, moved);
      if ok {
        FinishLoad(headers, off, file);
      }
    }

    method FinishLoad(headers: seq<Header>, off: nat, file: seq<byte>)
      requires Valid()
      requires forall i :: 0 <= i < |headers| && headers[i].kind == PT_LOAD ==> Present(headers[i], off, file)
      modifies mem
      ensures Valid() && (size < 0x4_0000 ==>
        forall i :: 0 <= i < |headers| && headers[i].kind == PT_LOAD ==> InMemory(headers[i], off, file))
    {
      hide Image, Settled;
      CopyBounce();
    }
  }
}
