/** The Internet checksum (RFC 1071) as computed and verified for IPv4, ICMP and UDP. Words are big-endian. */
module Checksum {
  import opened Words

  /** The big-endian word at `i`. */
  function Word(s: seq<byte>, i: nat): (w: nat)
    requires i + 2 <= |s|
    ensures w < 0x1_0000
  {
    0x100 * s[i] as int + s[i + 1] as int
  }

  /** The sum of the words of `n` bytes at `at`; a last odd byte is a word's high half. */
  function SumOf(s: seq<byte>, at: nat, n: nat): (r: nat)
    requires at + n <= |s|
    decreases n
  {
    if n == 0 then 0
    else if n == 1 then 0x100 * s[at] as int
    else Word(s, at) + SumOf(s, at + 2, n - 2)
  }

  lemma SumUnfold(s: seq<byte>, at: nat, n: nat)
    requires at + n <= |s|
    ensures SumOf(s, at, n) == if n == 0 then 0 else if n == 1 then 0x100 * s[at] as int else Word(s, at) + SumOf(s, at + 2, n - 2)
  {
  }

  /** The most that `n` bytes can add up to. */
  function Most(n: nat): nat { 0xffff * ((n + 1) / 2) }

  lemma {:induction false} SumMost(s: seq<byte>, at: nat, n: nat)
    requires at + n <= |s|
    ensures SumOf(s, at, n) <= Most(n)
    decreases n
  {
    if n >= 2 { SumMost(s, at + 2, n - 2); }
  }

  /** The 16-bit one's-complement value of a sum: its residue modulo 65535, with 65535 for zero unless nothing was added. */
  function Fold(sum: nat): (r: nat)
    ensures r <= 0xffff && (r == 0 <==> sum == 0)
  {
    if sum == 0 then 0 else (sum - 1) % 0xffff + 1
  }

  lemma FoldStep(sum: nat)
    ensures Fold(sum % 0x1_0000 + sum / 0x1_0000) == Fold(sum)
  {
    var hi, lo := sum / 0x1_0000, sum % 0x1_0000;
    assert sum == 0x1_0000 * hi + lo;
    if sum > 0 { SameResidue(hi + lo - 1, hi); }
  }

  lemma SameResidue(x: nat, k: nat)
    ensures (x + 0xffff * k) % 0xffff == x % 0xffff
  {
  }

  /** Adding the complement of a sum's fold makes it fold to all ones. */
  lemma FoldComplement(sum: nat)
    ensures Fold(sum + (0xffff - Fold(sum))) == 0xffff
    ensures Fold(sum) == 0xffff ==> Fold(sum + 0xffff) == 0xffff
  {
    if sum > 0 {
      var q, r := (sum - 1) / 0xffff, (sum - 1) % 0xffff;
      assert sum + (0xffff - Fold(sum)) - 1 == 0xfffe + 0xffff * q;
      SameResidue(0xfffe, q);
      SameResidue(sum - 1, 1);
    }
  }

  /** Replacing the word at an even place of the summed bytes. */
  lemma {:induction false} SumReplace(s: seq<byte>, t: seq<byte>, at: nat, n: nat, f: nat)
    requires |s| == |t| && at + n <= |s| && f % 2 == 0 && f + 2 <= n
    requires forall i :: 0 <= i < |s| && i != at + f && i != at + f + 1 ==> s[i] == t[i]
    ensures SumOf(t, at, n) + Word(s, at + f) == SumOf(s, at, n) + Word(t, at + f)
    decreases n
  {
    if f == 0 {
      SumSame(s, t, at + 2, n - 2);
    } else {
      SumReplace(s, t, at + 2, n - 2, f - 2);
    }
  }

  lemma {:induction false} SumSame(s: seq<byte>, t: seq<byte>, at: nat, n: nat)
    requires |s| == |t| && at + n <= |s| && forall i :: at <= i < at + n ==> s[i] == t[i]
    ensures SumOf(t, at, n) == SumOf(s, at, n)
    decreases n
  {
    if n >= 2 { SumSame(s, t, at + 2, n - 2); }
  }

  /** An even number of bytes and what follows them are summed apart. */
  lemma {:induction false} SumSplit(s: seq<byte>, at: nat, m: nat, n: nat)
    requires at + m + n <= |s| && m % 2 == 0
    ensures SumOf(s, at, m + n) == SumOf(s, at, m) + SumOf(s, at + m, n)
    decreases m
  {
    if m >= 2 { SumSplit(s, at + 2, m - 2, n); }
  }

  /** The same bytes have the same sum, wherever they lie. */
  lemma {:induction false} SumMoved(s: seq<byte>, at: nat, t: seq<byte>, to: nat, n: nat)
    requires at + n <= |s| && to + n <= |t| && s[at..at + n] == t[to..to + n]
    ensures SumOf(t, to, n) == SumOf(s, at, n)
    decreases n
  {
    var u := s[at..at + n];
    if n >= 1 { assert s[at] == u[0] == t[to]; }
    if n >= 2 {
      assert s[at + 1] == u[1] == t[to + 1];
      assert s[at + 2..at + n] == u[2..] == t[to + 2..to + n];
      SumMoved(s, at + 2, t, to + 2, n - 2);
    }
  }

  /** The bytes read as one big-endian number. */
  function Number(s: seq<byte>): nat {
    if s == [] then 0 else 0x100 * Number(s[..|s| - 1]) + s[|s| - 1] as int
  }

  /** The sum is the number that the bytes make up, modulo 65535; an odd byte is padded with zero (RFC 1071 section 1). */
  lemma {:induction false} SumIsNumber(s: seq<byte>)
    ensures SumOf(s, 0, |s|) % 0xffff == Number(if |s| % 2 == 0 then s else s + [0]) % 0xffff
    decreases |s| + 2 * (|s| % 2)
  {
    hide Number, SumOf, Word;
    if |s| % 2 == 1 {
      LastByte(s);
      SumIsNumber(s + [0]);
    } else if s != [] {
      var n := |s| - 2;
      LastWord(s);
      SumIsNumber(s[..n]);
      CarryAround(Number(s[..n]), SumOf(s[..n], 0, n), Word(s, n));
    } else {
      assert Number(s) == SumOf(s, 0, 0) by { NumberOfNone(s); }
    }
  }

  lemma NumberOfNone(s: seq<byte>)
    requires s == []
    ensures Number(s) == SumOf(s, 0, 0) == 0
  {
  }

  lemma LastWord(s: seq<byte>)
    requires |s| >= 2 && |s| % 2 == 0
    ensures var n := |s| - 2;
      SumOf(s, 0, n + 2) == SumOf(s[..n], 0, n) + Word(s, n) && Number(s) == 0x1_0000 * Number(s[..n]) + Word(s, n)
  {
    var n := |s| - 2;
    assert s[..n + 1][..n] == s[..n];
    SumSplit(s, 0, n, 2);
    SumMoved(s, 0, s[..n], 0, n);
  }

  lemma LastByte(s: seq<byte>)
    requires |s| % 2 == 1
    ensures SumOf(s, 0, |s|) == SumOf(s + [0], 0, |s| + 1)
  {
    var t := s + [0];
    var n := |s| - 1;
    SumSplit(s, 0, n, 1);
    SumSplit(t, 0, n, 2);
    SumMoved(s, 0, t, 0, n);
  }

  lemma CarryAround(x: nat, y: nat, w: nat)
    requires x % 0xffff == y % 0xffff
    ensures (0x1_0000 * x + w) % 0xffff == (y + w) % 0xffff
  {
    SameResidue(x + w, x);
    SameResidue(x % 0xffff + w, x / 0xffff);
    SameResidue(y % 0xffff + w, y / 0xffff);
  }

  /** `checksum_update`, in 32-bit arithmetic that cannot overflow. */
  method Update(sum0: nat, a: array<byte>, at: nat, count: nat) returns (sum: nat)
    requires at + count <= a.Length && sum0 + Most(count) < TWO32
    ensures sum == sum0 + SumOf(a[..], at, count) && sum <= sum0 + Most(count)
  {
    hide SumOf;
    sum := sum0;
    var i: nat, left: nat := at, count;
    while left >= 2
      invariant i + left == at + count && sum + Most(left) <= sum0 + Most(count)
      invariant sum + SumOf(a[..], i, left) == sum0 + SumOf(a[..], at, count)
    {
      SumUnfold(a[..], i, left);
      sum := (sum + (0x100 * a[i] as int + a[i + 1] as int)) % TWO32;
      i := i + 2;
      left := left - 2;
    }
    SumUnfold(a[..], i, left);
    if left > 0 {
      sum := (sum + 0x100 * a[i] as int) % TWO32;
    }
  }

  /** `checksum_complete` */
  method Complete(sum0: nat) returns (r: nat)
    requires sum0 < TWO32
    ensures r == 0xffff - Fold(sum0)
  {
    var sum: nat := sum0;
    while sum / 0x1_0000 != 0
      invariant Fold(sum) == Fold(sum0) && sum < TWO32
      decreases sum
    {
      FoldStep(sum);
      sum := sum % 0x1_0000 + sum / 0x1_0000;
    }
    r := 0xffff - sum;
  }

  const IP_SIZE := 20
  const TCP := 6
  const UDP := 17
  const ICMP := 1

  // ----- packets: `ip` is where the IPv4 header starts, the next header follows it. What is summed is memory: a length
  // field may lead the verify functions behind the end of the packet.

  predicate HasIpv4(s: seq<byte>, ip: nat) { ip + IP_SIZE <= |s| }

  function Ipv4Sum(s: seq<byte>, ip: nat): nat
    requires HasIpv4(s, ip)
  {
    SumOf(s, ip, IP_SIZE)
  }

  /** There is memory for what the IPv4 length leaves after the header. */
  predicate IcmpReadable(s: seq<byte>, ip: nat) {
    HasIpv4(s, ip) && IP_SIZE <= Word(s, ip + 2) && ip + Word(s, ip + 2) <= |s|
  }

  /** And it is an ICMP message, with a checksum in it. */
  predicate HasIcmp(s: seq<byte>, ip: nat) {
    IcmpReadable(s, ip) && IP_SIZE + 4 <= Word(s, ip + 2)
  }

  function IcmpSum(s: seq<byte>, ip: nat): nat
    requires IcmpReadable(s, ip)
  {
    SumOf(s, ip + IP_SIZE, Word(s, ip + 2) - IP_SIZE)
  }

  /** There is memory for a UDP header and for as many bytes as its length says, be it less than the header itself. */
  predicate UdpReadable(s: seq<byte>, ip: nat) {
    ip + IP_SIZE + 8 <= |s| && ip + IP_SIZE + Word(s, ip + IP_SIZE + 4) <= |s|
  }

  /** The UDP length counts the UDP header of 8 bytes and the data. */
  predicate HasUdp(s: seq<byte>, ip: nat) {
    UdpReadable(s, ip) && 8 <= Word(s, ip + IP_SIZE + 4)
  }

  /** Source and destination address, protocol, UDP length, then the UDP header and data (RFC 768). */
  function UdpSum(s: seq<byte>, ip: nat): nat
    requires UdpReadable(s, ip)
  {
    var length := Word(s, ip + IP_SIZE + 4);
    SumOf(s, ip + 12, 8) + s[ip + 9] as int + length + SumOf(s, ip + IP_SIZE, length)
  }

  /** The 12 bytes of RFC 768: source address, destination address, zero, protocol, UDP length. */
  function PseudoHeader(source: seq<byte>, destination: seq<byte>, protocol: byte, length: nat): (r: seq<byte>)
    requires |source| == 4 && |destination| == 4 && length < 0x1_0000
    ensures |r| == 12
  {
    source + destination + [0, protocol] + [length / 0x100, length % 0x100]
  }

  /** The sum is that of the pseudo-header and the datagram behind it, for any packet in memory. */
  lemma UdpSumIs(s: seq<byte>, ip: nat)
    requires UdpReadable(s, ip)
    ensures var length := Word(s, ip + 24);
      var summed := PseudoHeader(s[ip + 12..ip + 16], s[ip + 16..ip + 20], s[ip + 9], length) + s[ip + 20..ip + 20 + length];
      UdpSum(s, ip) == SumOf(summed, 0, |summed|)
  {
    hide SumOf, PseudoHeader;
    var length := Word(s, ip + 24);
    var header := PseudoHeader(s[ip + 12..ip + 16], s[ip + 16..ip + 20], s[ip + 9], length);
    var summed := header + s[ip + 20..ip + 20 + length];
    HeaderSum(s, ip, summed);
    SumMoved(s, ip + 20, summed, 12, length);
    SumSplit(summed, 0, 12, length);
  }

  lemma HeaderSum(s: seq<byte>, ip: nat, summed: seq<byte>)
    requires ip + 26 <= |s| && |summed| >= 12
    requires summed[..12] == PseudoHeader(s[ip + 12..ip + 16], s[ip + 16..ip + 20], s[ip + 9], Word(s, ip + 24))
    ensures SumOf(summed, 0, 12) == SumOf(s, ip + 12, 8) + s[ip + 9] as int + Word(s, ip + 24)
  {
    hide SumOf;
    var header := summed[..12];
    assert header[..8] == s[ip + 12..ip + 20];
    assert summed[..8] == header[..8];
    SumMoved(s, ip + 12, summed, 0, 8);
    SumSplit(summed, 0, 8, 4);
    assert summed[8..12] == header[8..12] == [0, s[ip + 9], s[ip + 24], s[ip + 25]];
    TwoWords(summed, 8, [0, s[ip + 9], s[ip + 24], s[ip + 25]]);
  }

  lemma TwoWords(s: seq<byte>, at: nat, t: seq<byte>)
    requires at + 4 <= |s| && |t| == 4 && s[at..at + 4] == t
    ensures SumOf(s, at, 4) == 0x100 * t[0] as int + t[1] as int + 0x100 * t[2] as int + t[3] as int
  {
    assert s[at] == t[0] && s[at + 1] == t[1] && s[at + 2] == t[2] && s[at + 3] == t[3];
    SumUnfold(s, at + 2, 2);
  }

  // what the verify functions accept
  predicate Ipv4Good(s: seq<byte>, ip: nat)
    requires HasIpv4(s, ip)
  {
    Fold(Ipv4Sum(s, ip)) == 0xffff
  }

  predicate IcmpGood(s: seq<byte>, ip: nat)
    requires IcmpReadable(s, ip)
  {
    Fold(IcmpSum(s, ip)) == 0xffff
  }

  predicate UdpGood(s: seq<byte>, ip: nat)
    requires UdpReadable(s, ip)
  {
    Word(s, ip + IP_SIZE + 6) == 0 || Fold(UdpSum(s, ip)) == 0xffff
  }

  /** `s` and `t` differ in the word at `f` only. */
  ghost predicate OnlyWord(s: seq<byte>, t: seq<byte>, f: nat) {
    |s| == |t| && f + 2 <= |s| && forall i :: 0 <= i < |s| && i != f && i != f + 1 ==> s[i] == t[i]
  }

  method PutWord(a: array<byte>, f: nat, w: nat)
    requires f + 2 <= a.Length && w < 0x1_0000
    modifies a
    ensures OnlyWord(old(a[..]), a[..], f) && Word(a[..], f) == w
  {
    a[f] := w / 0x100;
    a[f + 1] := w % 0x100;
  }

  /** `net_compute_ipv4_checksum` */
  method ComputeIpv4(a: array<byte>, ip: nat)
    requires HasIpv4(a[..], ip)
    modifies a
    ensures OnlyWord(old(a[..]), a[..], ip + 10) && Ipv4Good(a[..], ip)
  {
    hide SumOf, Fold, Word;
    PutWord(a, ip + 10, 0);
    ghost var s := a[..];
    var sum := Update(0, a, ip, IP_SIZE);
    var cs := Complete(sum);
    PutWord(a, ip + 10, cs);
    SumReplace(s, a[..], ip, IP_SIZE, 10);
    FoldComplement(sum);
  }

  /** `net_verify_ipv4_checksum` */
  method VerifyIpv4(a: array<byte>, ip: nat) returns (ok: bool)
    requires HasIpv4(a[..], ip)
    ensures ok == Ipv4Good(a[..], ip)
  {
    var sum := Update(0, a, ip, IP_SIZE);
    var cs := Complete(sum);
    ok := cs == 0;
  }

  /** `net_compute_icmp_checksum` */
  method ComputeIcmp(a: array<byte>, ip: nat)
    requires HasIcmp(a[..], ip)
    modifies a
    ensures OnlyWord(old(a[..]), a[..], ip + 22) && HasIcmp(a[..], ip) && IcmpGood(a[..], ip)
  {
    hide SumOf, Fold, Word;
    ghost var s0 := a[..];
    PutWord(a, ip + 22, 0);
    SameWord(s0, a[..], ip + 22, ip + 2);
    ghost var s := a[..];
    var length := Length(a, ip + 2);
    var n: nat := length - IP_SIZE;
    var sum := Update(0, a, ip + IP_SIZE, n);
    var cs := Complete(sum);
    PutWord(a, ip + 22, cs);
    SameWord(s, a[..], ip + 22, ip + 2);
    SumReplace(s, a[..], ip + IP_SIZE, n, 2);
    FoldComplement(sum);
  }

  lemma SameWord(s: seq<byte>, t: seq<byte>, f: nat, g: nat)
    requires OnlyWord(s, t, f) && g + 2 <= |s| && (g + 2 <= f || f + 2 <= g)
    ensures Word(t, g) == Word(s, g)
  {
  }

  /** A length field. */
  method Length(a: array<byte>, at: nat) returns (n: nat)
    requires at + 2 <= a.Length
    ensures n == Word(a[..], at) < 0x1_0000
  {
    n := 0x100 * a[at] as int + a[at + 1] as int;
  }

  /** `net_verify_icmp_checksum` */
  method VerifyIcmp(a: array<byte>, ip: nat) returns (ok: bool)
    requires IcmpReadable(a[..], ip)
    ensures ok == IcmpGood(a[..], ip)
  {
    hide SumOf, Fold, Word;
    var n := Length(a, ip + 2);
    var sum := Update(0, a, ip + IP_SIZE, n - IP_SIZE);
    var cs := Complete(sum);
    ok := cs == 0;
  }

  /** `udp_checksum_pseudoheader` */
  method UdpChecksum(a: array<byte>, ip: nat) returns (cs: nat)
    requires UdpReadable(a[..], ip)
    ensures cs == 0xffff - Fold(UdpSum(a[..], ip))
  {
    hide SumOf, Fold, Word;
    var sum := Update(0, a, ip + 12, 8);
    var length := Length(a, ip + IP_SIZE + 4);
    sum := (sum + a[ip + 9] as int) % TWO32;
    sum := (sum + length) % TWO32;
    sum := Update(sum, a, ip + IP_SIZE, length);
    cs := Complete(sum);
  }

  /** `net_verify_udp_checksum` */
  method VerifyUdp(a: array<byte>, ip: nat) returns (ok: bool)
    requires UdpReadable(a[..], ip)
    ensures ok == UdpGood(a[..], ip)
  {
    hide SumOf, Fold, Word;
    var stored := Length(a, ip + IP_SIZE + 6);
    if stored == 0 {
      return true;
    }
    var cs := UdpChecksum(a, ip);
    ok := cs == 0;
  }

  /** `net_compute_udp_checksum`: the stored checksum is never the zero that means "none". */
  method ComputeUdp(a: array<byte>, ip: nat)
    requires HasUdp(a[..], ip)
    modifies a
    ensures OnlyWord(old(a[..]), a[..], ip + 26) && HasUdp(a[..], ip)
    ensures Word(a[..], ip + 26) != 0 && Fold(UdpSum(a[..], ip)) == 0xffff
  {
    hide SumOf, Fold, Word;
    ghost var s0 := a[..];
    PutWord(a, ip + 26, 0);
    SameWord(s0, a[..], ip + 26, ip + 24);
    ghost var s := a[..];
    var cs := UdpChecksum(a, ip);
    if cs == 0 {
      cs := 0xffff;
    }
    PutWord(a, ip + 26, cs);
    UdpReplace(s, a[..], ip);
    FoldComplement(UdpSum(s, ip));
  }

  lemma UdpReplace(s: seq<byte>, t: seq<byte>, ip: nat)
    requires HasUdp(s, ip) && OnlyWord(s, t, ip + 26)
    ensures HasUdp(t, ip) && UdpSum(t, ip) + Word(s, ip + 26) == UdpSum(s, ip) + Word(t, ip + 26)
  {
    hide SumOf, Word;
    SameWord(s, t, ip + 26, ip + 24);
    SumSame(s, t, ip + 12, 8);
    SumReplace(s, t, ip + IP_SIZE, Word(s, ip + 24), 6);
  }

  // ----- transmit and receive

  /** A packet whose lengths stay inside it, as the transmit path builds it. */
  predicate Framed(s: seq<byte>, ip: nat) {
    && HasIpv4(s, ip)
    && (s[ip + 9] as int == UDP ==> HasUdp(s, ip))
    && (s[ip + 9] as int == ICMP ==> HasIcmp(s, ip))
  }

  /** Memory that the checks of `net_eth_push` can read. */
  predicate Readable(s: seq<byte>, ip: nat) {
    && HasIpv4(s, ip)
    && (s[ip + 9] as int == UDP ==> UdpReadable(s, ip))
    && (s[ip + 9] as int == ICMP ==> IcmpReadable(s, ip))
  }

  /** The checks of `net_eth_push`. */
  predicate Accepted(s: seq<byte>, ip: nat)
    requires Readable(s, ip)
  {
    && Ipv4Good(s, ip)
    && (s[ip + 9] as int == UDP ==> UdpGood(s, ip))
    && (s[ip + 9] as int == ICMP ==> IcmpGood(s, ip))
  }

  /** Does byte `i` belong to a checksum that the packet's protocol has? */
  predicate ChecksumField(s: seq<byte>, ip: nat, i: nat)
    requires HasIpv4(s, ip)
  {
    || ip + 10 <= i <= ip + 11
    || (s[ip + 9] as int == UDP && ip + 26 <= i <= ip + 27)
    || (s[ip + 9] as int == ICMP && ip + 22 <= i <= ip + 23)
  }

  /** The checksum section of `net_tx`: what it sends, `net_eth_push` accepts. TCP packets keep their checksum. */
  method Seal(a: array<byte>, ip: nat)
    requires Framed(a[..], ip)
    modifies a
    ensures Framed(a[..], ip) && Accepted(a[..], ip)
    ensures forall i :: 0 <= i < a.Length && !ChecksumField(old(a[..]), ip, i) ==> a[i] == old(a[i])
  {
    hide SumOf, Fold, Word;
    ghost var s0 := a[..];
    ComputeIpv4(a, ip);
    ghost var s := a[..];
    SealFrame(s0, s, ip);
    var protocol := a[ip + 9] as int;
    if protocol == UDP {
      ComputeUdp(a, ip);
      Ipv4Kept(s, a[..], ip, ip + 26);
    } else if protocol == ICMP {
      ComputeIcmp(a, ip);
      Ipv4Kept(s, a[..], ip, ip + 22);
    }
  }

  lemma SealFrame(s: seq<byte>, t: seq<byte>, ip: nat)
    requires Framed(s, ip) && OnlyWord(s, t, ip + 10)
    ensures Framed(t, ip) && t[ip + 9] == s[ip + 9]
  {
    hide Word;
    SameWord(s, t, ip + 10, ip + 2);
    if ip + 26 <= |s| { SameWord(s, t, ip + 10, ip + 24); }
  }

  lemma Ipv4Kept(s: seq<byte>, t: seq<byte>, ip: nat, f: nat)
    requires HasIpv4(s, ip) && OnlyWord(s, t, f) && f >= ip + IP_SIZE
    ensures HasIpv4(t, ip) && (Ipv4Good(s, ip) ==> Ipv4Good(t, ip)) && t[ip + 9] == s[ip + 9]
  {
    SumSame(s, t, ip, IP_SIZE);
  }
}
