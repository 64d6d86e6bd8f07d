/**
 Checksums set in place in IPv4 and IPv6 packets, on a little-endian host.
 */
module PacketChecksum {
  import opened Wrappers
  import opened Bytes
  import opened Arithmetic
  import opened InternetChecksum

  const IP_SIZE: nat := 20
  const TCP_SIZE: nat := 20
  const UDP_SIZE: nat := 8
  const ICMP_SIZE: nat := 28
  const IP_SUM: nat := 10
  const TCP_SUM: nat := 16
  const UDP_SUM: nat := 6
  const ICMP_SUM: nat := 2
  const PROTO_ICMP: nat := 1
  const PROTO_TCP: nat := 6
  const PROTO_UDP: nat := 17

  // ------------------------------------------------------------ header fields

  /** Storing a 16-bit value into a header field, as the little-endian host does. */
  function Put16(s: seq<Byte>, off: nat, v: nat): (r: seq<Byte>)
    requires off + 2 <= |s| && v <= ONES
    ensures |r| == |s|
  {
    s[off := v % 0x100][off + 1 := v / 0x100]
  }

  /** A 16-bit field in network byte order. */
  function Big16(s: seq<Byte>, off: nat): nat
    requires off + 2 <= |s|
  {
    0x100 * s[off] as int + s[off + 1] as int
  }

  function Little16(s: seq<Byte>, off: nat): nat
    requires off + 2 <= |s|
  {
    s[off] as int + 0x100 * s[off + 1] as int
  }

  lemma {:induction false} Sum16Put(s: seq<Byte>, off: nat, v: nat)
    requires off + 2 <= |s| && off % 2 == 0 && v <= ONES
    ensures Sum16(Put16(s, off, v)) == Sum16(s) - Little16(s, off) + v
    decreases off
  {
    var r := Put16(s, off, v);
    if off == 0 {
      assert r[2..] == s[2..];
    } else {
      Sum16Put(s[2..], off - 2, v);
      assert r[2..] == Put16(s[2..], off - 2, v);
    }
  }

  /** A segment with its checksum field cleared and then filled in over `base`. */
  function Cleared(seg: seq<Byte>, off: nat): (r: seq<Byte>)
    requires off + 2 <= |seg|
    ensures |r| == |seg|
  {
    Put16(seg, off, 0)
  }

  function Sealed(base: nat, seg: seq<Byte>, off: nat): (r: seq<Byte>)
    requires off + 2 <= |seg|
    ensures |r| == |seg|
  {
    Put16(Cleared(seg, off), off, ONES - Canon(base + Sum32(Cleared(seg, off))))
  }

  lemma {:induction false} Sum32Concat(a: seq<Byte>, b: seq<Byte>)
    requires |a| % 4 == 0
    ensures Sum32(a + b) == Sum32(a) + Sum32(b)
    decreases |a|
  {
    if a == [] {
      assert a + b == b;
    } else {
      Sum32Concat(a[4..], b);
      assert (a + b)[4..] == a[4..] + b;
    }
  }

  lemma ClearedZero(seg: seq<Byte>, off: nat)
    requires off + 2 <= |seg|
    ensures Little16(Cleared(seg, off), off) == 0
  {
  }

  lemma BigOfPut(s: seq<Byte>, off: nat, v: nat)
    requires off + 2 <= |s| && v <= ONES
    ensures Big16(Put16(s, off, v), off) == Swap(v)
  {
  }

  /** Sealing adds the complement of the sum to the cleared segment. */
  lemma SealedSum(base: nat, seg: seq<Byte>, off: nat)
    requires off % 2 == 0 && off + 2 <= |seg|
    ensures Sum16(Sealed(base, seg, off))
         == Sum16(Cleared(seg, off)) + (ONES - Canon(base + Sum32(Cleared(seg, off))))
  {
    hide Canon, Sum16, Sum32, Put16, Little16, Cleared;
    ClearedZero(seg, off);
    Sum16Put(Cleared(seg, off), off, ONES - Canon(base + Sum32(Cleared(seg, off))));
  }

  lemma WholeSum(pseudo: seq<Byte>, z: seq<Byte>)
    requires |pseudo| % 4 == 0
    ensures Canon(Sum32(pseudo) + Sum32(z)) == Canon(Sum16(pseudo + z))
  {
    hide Canon, Sum16, Sum32;
    Sum32Concat(pseudo, z);
    Sum32Canon(0, pseudo + z);
    assert 0 + Sum32(pseudo + z) == Sum32(pseudo) + Sum32(z);
    assert 0 + Sum16(pseudo + z) == Sum16(pseudo + z);
  }

  lemma EvenOfFour(n: nat)
    requires n % 4 == 0
    ensures n % 2 == 0
  {
    Quotient(n, 2, 2 * (n / 4), 0);
  }

  lemma SealedTotal(pseudo: seq<Byte>, seg: seq<Byte>, off: nat)
    requires |pseudo| % 4 == 0 && off % 2 == 0 && off + 2 <= |seg|
    ensures Sum16(pseudo + Sealed(Sum32(pseudo), seg, off))
         == Sum16(pseudo + Cleared(seg, off)) + (ONES - Canon(Sum32(pseudo) + Sum32(Cleared(seg, off))))
  {
    hide Canon, Sum16, Sum32, Sealed, Cleared;
    EvenOfFour(|pseudo|);
    SealedSum(Sum32(pseudo), seg, off);
    Sum16Concat(pseudo, Cleared(seg, off));
    Sum16Concat(pseudo, Sealed(Sum32(pseudo), seg, off));
  }

  lemma SealedCanon(pseudo: seq<Byte>, seg: seq<Byte>, off: nat)
    requires |pseudo| % 4 == 0 && off % 2 == 0 && off + 2 <= |seg|
    ensures Canon(Sum32(pseudo) + Sum32(Cleared(seg, off))) == Canon(Sum16(pseudo + Cleared(seg, off)))
    ensures Canon(Sum16(pseudo + Sealed(Sum32(pseudo), seg, off))) == ONES
  {
    hide Canon, Sum16, Sum32, Sealed, Cleared;
    WholeSum(pseudo, Cleared(seg, off));
    SealedTotal(pseudo, seg, off);
    CanonComplement(Sum16(pseudo + Cleared(seg, off)));
  }

  /**
   A sealed segment verifies: with its pseudo-header it sums to all ones; and the bytes
   stored are those of the complement of the big-endian sum.
   */
  lemma SealVerifies(pseudo: seq<Byte>, seg: seq<Byte>, off: nat)
    requires |pseudo| % 4 == 0 && off % 2 == 0 && off + 2 <= |seg|
    ensures OnesSum(0, pseudo + Sealed(Sum32(pseudo), seg, off)) == ONES
    ensures Big16(Sealed(Sum32(pseudo), seg, off), off) == ONES - OnesSum(0, pseudo + Cleared(seg, off))
  {
    hide Canon, Sum16, Sum32, OnesSum, Swap, Put16, Big16, Cleared;
    SealedCanon(pseudo, seg, off);
    LittleIsSwapped(pseudo + Sealed(Sum32(pseudo), seg, off));
    LittleIsSwapped(pseudo + Cleared(seg, off));
    var c := Canon(Sum16(pseudo + Cleared(seg, off)));
    SwapSwap(c);
    SwapSwap(0);
    SwapZero();
    BigOfPut(Cleared(seg, off), off, ONES - c);
  }

  lemma SwapZero()
    ensures Swap(0) == 0
  {
  }

  // ---------------------------------------------------------------- pseudo-headers

  function Big32(v: nat): seq<Byte>
    requires v < TWO_POW_32
  {
    [v / 0x100_0000, v / 0x1_0000 % 0x100, v / 0x100 % 0x100, v % 0x100]
  }

  /** Section 3.1 of RFC 793: addresses, zero, protocol, TCP length. */
  function Pseudo4(ip: seq<Byte>, tcpLen: nat): (r: seq<Byte>)
    requires |ip| >= IP_SIZE && tcpLen <= ONES
    ensures |r| == 12
  {
    ip[12..20] + [0, PROTO_TCP, tcpLen / 0x100, tcpLen % 0x100]
  }

  /** Section 8.1 of RFC 8200: addresses, upper-layer length, zeros, next header. */
  function Pseudo6(ip: seq<Byte>, len: nat, next: nat): (r: seq<Byte>)
    requires |ip| >= 40 && len < TWO_POW_32 && next < 256
    ensures |r| == 40
  {
    ip[8..40] + Big32(len) + [0, 0, 0, next]
  }

  // ---------------------------------------------------------------- TCP over IPv4

  /**
   ComputeAndSetChecksum for TCP over IPv4, the IP header at offset 0 of the buffer: the
   length is cut to 16 bits as htons does.
   */
  method SetTcp4(packet: array<Byte>, tcpOff: nat, tcpLen: nat) returns (ret: bool)
    requires IP_SIZE <= packet.Length && tcpOff + tcpLen <= packet.Length && tcpLen < TWO_POW_32
    modifies packet
    ensures ret <==> tcpLen >= TCP_SIZE
    ensures !ret ==> packet[..] == old(packet[..])
    ensures ret ==>
      var s := old(packet[..]);
      packet[..] == s[..tcpOff] + Sealed(Sum32(Pseudo4(s, tcpLen % 0x1_0000)), s[tcpOff..tcpOff + tcpLen], TCP_SUM)
                    + s[tcpOff + tcpLen..]
  {
    if tcpLen < TCP_SIZE {
      return false;
    }
    hide Canon, Sum32;
    ghost var s := packet[..];
    var len16 := tcpLen % 0x1_0000;
    var sum := LittleWord(packet[12..16], 0) + LittleWord(packet[16..20], 0);
    var tmp := [0, PROTO_TCP, len16 / 0x100, len16 % 0x100];
    sum := sum + LittleWord(tmp, 0);
    Sum32Of3(packet[12..16], packet[16..20], tmp);
    assert Pseudo4(s, len16) == packet[12..16] + packet[16..20] + tmp;
    Seal(packet, tcpOff, tcpLen, TCP_SUM, sum);
    return true;
  }

  lemma Sum32Of1(a: seq<Byte>)
    requires |a| == 4
    ensures Sum32(a) == LittleWord(a, 0)
  {
    assert a[4..] == [];
    assert Sum32([]) == 0;
  }

  lemma Sum32Of3(a: seq<Byte>, b: seq<Byte>, c: seq<Byte>)
    requires |a| == |b| == |c| == 4
    ensures Sum32(a + b + c) == LittleWord(a, 0) + LittleWord(b, 0) + LittleWord(c, 0)
  {
    Sum32Concat(a + b, c);
    Sum32Concat(a, b);
    Sum32Of1(a);
    Sum32Of1(b);
    Sum32Of1(c);
  }

  /** Clearing a checksum field, summing the segment over `base`, and storing the complement. */
  method Seal(packet: array<Byte>, off: nat, len: nat, field: nat, base: nat)
    requires off + len <= packet.Length && field + 2 <= len < TWO_POW_32 && base < 0x1_0000 * TWO_POW_32
    modifies packet
    ensures packet[..]
         == old(packet[..off]) + Sealed(base, old(packet[off..off + len]), field) + old(packet[off + len..])
  {
    hide Canon, Sum32;
    ghost var s := packet[..];
    ghost var seg := s[off..off + len];
    packet[off + field], packet[off + field + 1] := 0, 0;
    assert packet[off..off + len] == Cleared(seg, field);
    Sum32Bound(Cleared(seg, field));
    var sum := AddChecksum(base, packet[off..off + len]);
    var c := FinishChecksum16(sum);
    var v := ONES - c;
    packet[off + field], packet[off + field + 1] := v % 0x100, v / 0x100;
    assert packet[off..off + len] == Sealed(base, seg, field);
    assert packet[..] == packet[..off] + packet[off..off + len] + packet[off + len..];
    assert packet[..off] == s[..off] && packet[off + len..] == s[off + len..];
  }

  /** TCP over IPv4 verifies against the pseudo-header of RFC 793. */
  lemma Tcp4Verifies(ip: seq<Byte>, seg: seq<Byte>)
    requires |ip| >= IP_SIZE && TCP_SIZE <= |seg| <= ONES
    ensures var p := Pseudo4(ip, |seg|);
      && OnesSum(0, p + Sealed(Sum32(p), seg, TCP_SUM)) == ONES
      && Big16(Sealed(Sum32(p), seg, TCP_SUM), TCP_SUM) == ONES - OnesSum(0, p + Cleared(seg, TCP_SUM))
  {
    SealVerifies(Pseudo4(ip, |seg|), seg, TCP_SUM);
  }

  // ---------------------------------------------------------------- IPv6

  /** htonl on a little-endian host: the word whose bytes are the big-endian ones. */
  function Htonl(v: nat): nat
    requires v < TWO_POW_32
  {
    LittleWord(Big32(v), 0)
  }

  /** Adding four address words. */
  method AddAddress(sum0: nat, addr: seq<Byte>) returns (sum: nat)
    requires |addr| == 16 && sum0 < 0x1000 * TWO_POW_32
    ensures sum == sum0 + Sum32(addr) < sum0 + 4 * TWO_POW_32
  {
    sum := sum0;
    assert addr[0..] == addr;
    for i := 0 to 4
      invariant sum + Sum32(addr[4 * i..]) == sum0 + Sum32(addr)
      invariant sum <= sum0 + i * (TWO_POW_32 - 1)
    {
      assert addr[4 * i..][4..] == addr[4 * (i + 1)..];
      sum := sum + LittleWord(addr[4 * i..], 0);
    }
    assert addr[16..] == [];
  }

  /**
   ComputeAndSetChecksum for TCP or UDP over IPv6: the same code with different header
   size, protocol number and field offset. The IP header is at offset `ip` of the memory,
   the segment at offset `off`, wherever that is.
   */
  method SetOverIp6(mem: array<Byte>, ip: nat, off: nat, len: nat, minSize: nat, next: nat, field: nat)
    returns (ret: bool)
    requires ip + 40 <= mem.Length && off + len <= mem.Length && len < TWO_POW_32
    requires || (minSize, next, field) == (TCP_SIZE, PROTO_TCP, TCP_SUM)
             || (minSize, next, field) == (UDP_SIZE, PROTO_UDP, UDP_SUM)
    modifies mem
    ensures ret <==> len >= minSize
    ensures !ret ==> mem[..] == old(mem[..])
    ensures ret ==>
      var s := old(mem[..]);
      mem[..] == s[..off] + Sealed(Sum32(Pseudo6(s[ip..ip + 40], len, next)), s[off..off + len], field) + s[off + len..]
  {
    if len < minSize {
      return false;
    }
    hide Canon, Sum32, LittleWord, Sealed;
    var sum := PseudoSum6(mem, ip, len, next);
    Seal(mem, off, len, field, sum);
    return true;
  }

  /** The sum of the pseudo-header: addresses, length and next header. */
  method PseudoSum6(mem: array<Byte>, ip: nat, len: nat, next: nat) returns (sum: nat)
    requires ip + 40 <= mem.Length && len < TWO_POW_32 && next < 256
    ensures sum == Sum32(Pseudo6(mem[ip..ip + 40], len, next)) < 0x1_0000 * TWO_POW_32
  {
    hide Sum32, LittleWord;
    sum := AddAddress(0, mem[ip + 8..ip + 24]);
    sum := AddAddress(sum, mem[ip + 24..ip + 40]);
    HtonlBound(len);
    HtonlBound(next);
    sum := sum + Htonl(len);
    sum := sum + Htonl(next);
    ghost var h := mem[ip..ip + 40];
    assert h[8..24] == mem[ip + 8..ip + 24] && h[24..40] == mem[ip + 24..ip + 40];
    Pseudo6Sum(h, len, next);
  }

  lemma HtonlBound(v: nat)
    requires v < TWO_POW_32
    ensures Htonl(v) < TWO_POW_32
  {
  }

  lemma Pseudo6Sum(ip: seq<Byte>, len: nat, next: nat)
    requires |ip| >= 40 && len < TWO_POW_32 && next < 256
    ensures Sum32(Pseudo6(ip, len, next)) == Sum32(ip[8..24]) + Sum32(ip[24..40]) + Htonl(len) + Htonl(next)
  {
    hide Sum32;
    var a, b, l, n := ip[8..24], ip[24..40], Big32(len), [0, 0, 0, next];
    assert ip[8..40] == a + b;
    Sum32Concat(a + b + l, n);
    Sum32Concat(a + b, l);
    Sum32Concat(a, b);
    Sum32Of1(l);
    Sum32Of1(n);
    assert n == Big32(next);
  }

  /** TCP and UDP over IPv6 verify against the pseudo-header of RFC 8200. */
  lemma Ip6Verifies(ip: seq<Byte>, seg: seq<Byte>, next: nat, field: nat)
    requires |ip| >= 40 && |seg| < TWO_POW_32 && next < 256
    requires (field == TCP_SUM && |seg| >= TCP_SIZE) || (field == UDP_SUM && |seg| >= UDP_SIZE)
    ensures var p := Pseudo6(ip, |seg|, next);
      && OnesSum(0, p + Sealed(Sum32(p), seg, field)) == ONES
      && Big16(Sealed(Sum32(p), seg, field), field) == ONES - OnesSum(0, p + Cleared(seg, field))
  {
    SealVerifies(Pseudo6(ip, |seg|, next), seg, field);
  }

  /**
   Section 8.1 of RFC 8200 wants a computed UDP checksum of zero sent as FFFF. The code
   stores it as it is, so the field is zero exactly when the segment with its
   pseudo-header already sums to all ones.
   */
  lemma UdpZeroIff(ip: seq<Byte>, seg: seq<Byte>)
    requires |ip| >= 40 && UDP_SIZE <= |seg| < TWO_POW_32
    ensures var p := Pseudo6(ip, |seg|, PROTO_UDP);
      Big16(Sealed(Sum32(p), seg, UDP_SUM), UDP_SUM) == 0 <==> OnesSum(0, p + Cleared(seg, UDP_SUM)) == ONES
  {
    Ip6Verifies(ip, seg, PROTO_UDP, UDP_SUM);
  }

  // ---------------------------------------------------------------- IPv4 packets

  predicate WellSized(s: seq<Byte>, packetLen: nat)
    requires |s| >= packetLen
  {
    packetLen >= IP_SIZE && packetLen >= HeaderLen(s) && packetLen == Big16(s, 2)
  }

  /** ip_hl, the low nibble of the first byte, in words of four bytes. */
  function HeaderLen(s: seq<Byte>): (r: nat)
    requires |s| > 0
    ensures r % 4 == 0 && r <= 60
  {
    s[0] % 16 * 4
  }

  /** The packet after its header checksum is set. */
  function HeaderSealed(s: seq<Byte>): (r: seq<Byte>)
    requires |s| >= IP_SIZE && HeaderLen(s) <= |s|
    ensures |r| == |s|
  {
    var z := Put16(s, IP_SUM, 0);
    Put16(z, IP_SUM, ONES - Canon(Sum32(z[..HeaderLen(s)])))
  }

  /** The packet after its ICMP checksum is set, summed over the whole packet. */
  function IcmpSealed(s: seq<Byte>): (r: seq<Byte>)
    requires |s| >= IP_SIZE && HeaderLen(s) + ICMP_SIZE <= |s|
    ensures |r| == |s|
  {
    var z := Put16(s, HeaderLen(s) + ICMP_SUM, 0);
    Put16(z, HeaderLen(s) + ICMP_SUM, ONES - Canon(Sum32(z)))
  }

  function TcpSealed(s: seq<Byte>): (r: seq<Byte>)
    requires |s| <= ONES && |s| >= IP_SIZE && HeaderLen(s) + TCP_SIZE <= |s|
    ensures |r| == |s|
  {
    var h := HeaderLen(s);
    s[..h] + Sealed(Sum32(Pseudo4(s, |s| - h)), s[h..], TCP_SUM)
  }

  /** A header of at least five words verifies after its checksum is set. */
  lemma HeaderVerifies(s: seq<Byte>)
    requires |s| >= IP_SIZE && IP_SIZE <= HeaderLen(s) <= |s|
    ensures OnesSum(0, HeaderSealed(s)[..HeaderLen(s)]) == ONES
    ensures Sum16(HeaderSealed(s)[..HeaderLen(s)]) > 0
    ensures Canon(Sum16(HeaderSealed(s)[..HeaderLen(s)])) == ONES
  {
    var h := HeaderLen(s);
    var seg := s[..h];
    assert Put16(s, IP_SUM, 0)[..h] == Cleared(seg, IP_SUM);
    assert Sum32([]) == 0;
    assert HeaderSealed(s)[..h] == Sealed(0, seg, IP_SUM);
    SealVerifies([], seg, IP_SUM);
    SealedCanon([], seg, IP_SUM);
    assert [] + Sealed(0, seg, IP_SUM) == Sealed(0, seg, IP_SUM);
  }

  predicate AllZero(s: seq<Byte>) { forall i | 0 <= i < |s| :: s[i] == 0 }

  lemma {:induction false} Sum16Zero(s: seq<Byte>)
    ensures Sum16(s) == 0 <==> AllZero(s)
    decreases |s|
  {
    if |s| > 1 {
      Sum16Zero(s[2..]);
      assert AllZero(s) ==> AllZero(s[2..]);
      assert AllZero(s[2..]) ==> forall i | 2 <= i < |s| :: s[i] == s[2..][i - 2] == 0;
    }
  }

  /**
   The header in front, just sealed, is a multiple of 65535, so summing the whole packet
   and summing the message alone differ only for a message that sums to zero.
   */
  lemma IcmpSealedIff(s: seq<Byte>)
    requires |s| >= IP_SIZE && IP_SIZE <= HeaderLen(s) && HeaderLen(s) + ICMP_SIZE <= |s|
    ensures var h := HeaderLen(s);
      var t := HeaderSealed(s);
      && HeaderLen(t) == h
      && IcmpSealed(t)[..h] == t[..h]
      && (IcmpSealed(t)[h..] == Sealed(0, s[h..], ICMP_SUM) <==> !AllZero(Cleared(s[h..], ICMP_SUM)))
      && (AllZero(Cleared(s[h..], ICMP_SUM)) ==> IcmpSealed(t)[h..] == Put16(s[h..], ICMP_SUM, 0))
  {
    hide Canon, Sum16, Sum32, OnesSum;
    var h := HeaderLen(s);
    var t := HeaderSealed(s);
    assert t[h..] == s[h..] && t[0] == s[0];
    var z := Put16(t, h + ICMP_SUM, 0);
    var m := Cleared(s[h..], ICMP_SUM);
    assert z[..h] == t[..h] && z[h..] == m && z == z[..h] + z[h..];
    HeaderVerifies(s);
    WholeCanon(t[..h], m);
    Sum16Zero(m);
    assert IcmpSealed(t)[h..] == Put16(m, ICMP_SUM, ONES - Canon(Sum32(z)));
    Sum32Canon(0, m);
    Put16Injective(m, ICMP_SUM, ONES - Canon(Sum32(z)), ONES - Canon(Sum32(m)));
    assert Put16(m, ICMP_SUM, 0) == m;
  }

  lemma WholeCanon(head: seq<Byte>, m: seq<Byte>)
    requires |head| % 4 == 0 && Canon(Sum16(head)) == ONES
    ensures Canon(Sum32(head + m)) == if Sum16(m) == 0 then ONES else Canon(Sum16(m))
    ensures Sum16(m) == 0 ==> Canon(Sum16(m)) == 0
  {
    hide Canon, Sum16, Sum32;
    Sum32Canon(0, head + m);
    EvenOfFour(|head|);
    Sum16Concat(head, m);
    var k := CanonMultiple(Sum16(head));
    if Sum16(m) > 0 {
      CanonExcess(Sum16(m), k + 1);
    }
  }

  lemma Put16Injective(s: seq<Byte>, off: nat, v: nat, w: nat)
    requires off + 2 <= |s| && v <= ONES && w <= ONES
    ensures Put16(s, off, v) == Put16(s, off, w) <==> v == w
  {
    var a, b := Put16(s, off, v), Put16(s, off, w);
    assert a[off] == v % 0x100 && a[off + 1] == v / 0x100;
    assert b[off] == w % 0x100 && b[off + 1] == w / 0x100;
  }

  /** What the protocol switch makes of a packet whose header is done. */
  function BodySummed(t: seq<Byte>): (r: (seq<Byte>, bool))
    requires IP_SIZE <= |t| <= ONES && HeaderLen(t) <= |t|
    ensures |r.0| == |t|
  {
    var rest := |t| - HeaderLen(t);
    if t[9] == PROTO_ICMP then
      if rest >= ICMP_SIZE then (IcmpSealed(t), true) else (t, false)
    else if t[9] == PROTO_UDP then
      if rest >= UDP_SIZE then (Put16(t, HeaderLen(t) + UDP_SUM, 0), true) else (t, false)
    else if t[9] == PROTO_TCP then
      if rest >= TCP_SIZE then (TcpSealed(t), true) else (t, false)
    else (t, false)
  }

  /** What ComputeAndSetChecksum makes of an IPv4 packet, and whether it reports success. */
  function Summed(s: seq<Byte>): (r: (seq<Byte>, bool))
    ensures |r.0| == |s|
  {
    if WellSized(s, |s|) then BodySummed(HeaderSealed(s)) else (s, false)
  }

  /** ComputeAndSetChecksum for a whole IPv4 packet. */
  method SetIp4(packet: array<Byte>) returns (ret: bool)
    modifies packet
    ensures (packet[..], ret) == Summed(old(packet[..]))
  {
    hide BodySummed;
    ghost var s := packet[..];
    var packetLen := packet.Length;
    if packetLen < IP_SIZE {
      return false;
    }
    var ipHeaderLen := packet[0] % 16 * 4;
    var ipPacketLen := 0x100 * packet[2] as int + packet[3] as int;
    if packetLen < ipHeaderLen || packetLen != ipPacketLen {
      return false;
    }
    SealHeader(packet, ipHeaderLen);
    assert packet[..][0] == s[0];
    ret := SetBody(packet, ipHeaderLen);
  }

  method SetBody(packet: array<Byte>, h: nat) returns (ret: bool)
    requires IP_SIZE <= packet.Length <= ONES && h == HeaderLen(packet[..]) <= packet.Length
    modifies packet
    ensures (packet[..], ret) == BodySummed(old(packet[..]))
  {
    hide Canon, Sum32, Sealed, IcmpSealed, TcpSealed;
    ghost var t := packet[..];
    var packetLen := packet.Length;
    if packet[9] == PROTO_ICMP {
      if packetLen >= h + ICMP_SIZE {
        SealIcmp(packet, h);
        return true;
      }
      return false;
    } else if packet[9] == PROTO_UDP {
      if packetLen >= h + UDP_SIZE {
        packet[h + UDP_SUM], packet[h + UDP_SUM + 1] := 0, 0;
        assert packet[..] == Put16(t, h + UDP_SUM, 0);
        return true;
      }
      return false;
    } else if packet[9] == PROTO_TCP {
      ret := SetTcpBody(packet, h);
      return;
    }
    return false;
  }

  method SetTcpBody(packet: array<Byte>, h: nat) returns (ret: bool)
    requires IP_SIZE <= packet.Length <= ONES && h == HeaderLen(packet[..]) <= packet.Length
    modifies packet
    ensures ret == (packet.Length - h >= TCP_SIZE)
    ensures packet[..] == if ret then TcpSealed(old(packet[..])) else old(packet[..])
  {
    hide Canon, Sum32, Sealed, IcmpSealed;
    ghost var t := packet[..];
    var n := packet.Length - h;
    assert n % 0x1_0000 == n;
    assert t[h..h + n] == t[h..] && t[h + n..] == [];
    hide HeaderLen, Pseudo4;
    ret := SetTcp4(packet, h, n);
  }

  method SealHeader(packet: array<Byte>, h: nat)
    requires IP_SIZE <= packet.Length <= ONES && h == HeaderLen(packet[..]) <= packet.Length
    modifies packet
    ensures packet[..] == HeaderSealed(old(packet[..]))
  {
    hide Canon, Sum32;
    ghost var s := packet[..];
    packet[IP_SUM], packet[IP_SUM + 1] := 0, 0;
    ghost var z := Put16(s, IP_SUM, 0);
    assert packet[..] == z && packet[..h] == z[..h];
    Sum32Bound(z[..h]);
    var sum := AddChecksum(0, packet[..h]);
    var c := FinishChecksum16(sum);
    packet[IP_SUM], packet[IP_SUM + 1] := (ONES - c) % 0x100, (ONES - c) / 0x100;
  }

  method SealIcmp(packet: array<Byte>, h: nat)
    requires IP_SIZE <= packet.Length <= ONES && h == HeaderLen(packet[..]) && h + ICMP_SIZE <= packet.Length
    modifies packet
    ensures packet[..] == IcmpSealed(old(packet[..]))
  {
    hide Canon, Sum32;
    ghost var s := packet[..];
    packet[h + ICMP_SUM], packet[h + ICMP_SUM + 1] := 0, 0;
    ghost var z := Put16(s, h + ICMP_SUM, 0);
    assert packet[..] == z;
    Sum32Bound(z);
    var sum := AddChecksum(0, packet[..]);
    var c := FinishChecksum16(sum);
    packet[h + ICMP_SUM], packet[h + ICMP_SUM + 1] := (ONES - c) % 0x100, (ONES - c) / 0x100;
  }

  /**
   A TCP packet with a full header leaves with both its checksums right, and is reported
   as done.
   */
  lemma TcpPacketVerifies(s: seq<Byte>)
    requires WellSized(s, |s|) && IP_SIZE <= HeaderLen(s) && HeaderLen(s) + TCP_SIZE <= |s|
    requires s[9] == PROTO_TCP
    ensures var (r, ok) := Summed(s);
      var h := HeaderLen(s);
      && ok
      && OnesSum(0, r[..h]) == ONES
      && OnesSum(0, Pseudo4(r, |s| - h) + r[h..]) == ONES
  {
    var t := HeaderSealed(s);
    var h := HeaderLen(s);
    HeaderVerifies(s);
    Tcp4Verifies(t, t[h..]);
    hide OnesSum, Canon, Sum32, Sum16, Sealed;
    var r := TcpSealed(t);
    assert Summed(s) == (r, true);
    assert r[..h] == t[..h] && r[h..] == Sealed(Sum32(Pseudo4(t, |s| - h)), t[h..], TCP_SUM);
    assert r[12..20] == r[..h][12..20] == t[..h][12..20] == t[12..20];
  }

  /** A packet as long as it says, and long enough for the header length it gives. */
  predicate Consistent(s: seq<Byte>) {
    |s| >= 20 && s[0] % 16 * 4 <= |s| && |s| == 0x100 * s[2] as int + s[3] as int
  }

  /** Where the protocol's checksum lies behind a header of h bytes, if the packet holds its header. */
  function BodyField(s: seq<Byte>, h: nat): (r: Option<nat>)
    requires |s| >= 20
    ensures r.Some? ==> r.value + 2 <= |s|
  {
    if s[9] == 1 && h + 28 <= |s| then Some(h + 2)
    else if s[9] == 17 && h + 8 <= |s| then Some(h + 6)
    else if s[9] == 6 && h + 20 <= |s| then Some(h + 16)
    else None
  }

  /** Outside the two bytes at `at`, and those at 10, r is s. */
  ghost predicate SameBut(s: seq<Byte>, r: seq<Byte>, at: Option<nat>) {
    && |r| == |s|
    && forall i | 0 <= i < |s| && i != 10 && i != 11 && (at.Some? ==> i != at.value && i != at.value + 1) ::
         r[i] == s[i]
  }

  lemma HeaderSame(s: seq<Byte>)
    requires |s| >= 20 && HeaderLen(s) <= |s|
    ensures SameBut(s, HeaderSealed(s), None) && HeaderLen(HeaderSealed(s)) == HeaderLen(s)
  {
    hide Canon, Sum32;
  }

  lemma BodySame(t: seq<Byte>)
    requires 20 <= |t| <= ONES && HeaderLen(t) <= |t|
    ensures var (r, ok) := BodySummed(t);
      var field := BodyField(t, HeaderLen(t));
      && (ok <==> field.Some?) && |r| == |t|
      && (forall i | 0 <= i < |t| && (field.Some? ==> i != field.value && i != field.value + 1) :: r[i] == t[i])
      && (t[9] == 17 && ok ==> r[field.value] == 0 && r[field.value + 1] == 0)
  {
    hide Canon, Sum32;
  }

  /**
   Every packet: an inconsistent one is refused as it is; any other gets its header checksum,
   and is reported as done exactly when it holds a whole ICMP, UDP or TCP header, whose
   checksum field, cleared for UDP, is then the only other thing that changes.
   */
  lemma EveryPacket(s: seq<Byte>)
    ensures var (r, ok) := Summed(s);
      if !Consistent(s) then r == s && !ok
      else
        var h := s[0] as int % 16 * 4;
        var field := BodyField(s, h);
        && (ok <==> field.Some?) && SameBut(s, r, field)
        && (h >= 20 ==> OnesSum(0, r[..h]) == ONES)
        && (s[9] == 17 && ok ==> r[h + 6] == 0 && r[h + 7] == 0)
  {
    if Consistent(s) {
      var t, h := HeaderSealed(s), HeaderLen(s);
      HeaderSame(s);
      BodySame(t);
      if h >= 20 { HeaderVerifies(s); }
      hide BodySummed, HeaderSealed, OnesSum, Sum16, Canon;
      assert Summed(s) == BodySummed(t);
      if h >= 20 { assert BodySummed(t).0[..h] == t[..h]; }
    }
  }

  /**
   An ICMP packet with a full header leaves with its header checksum right, and with the
   ICMP checksum of RFC 792, which covers the message alone, exactly when the message is
   not all zero; then the field is 0 where RFC 792 has FFFF.
   */
  lemma IcmpOverWholePacket(s: seq<Byte>)
    requires WellSized(s, |s|) && IP_SIZE <= HeaderLen(s) && HeaderLen(s) + ICMP_SIZE <= |s|
    requires s[9] == PROTO_ICMP
    ensures var (r, ok) := Summed(s);
      var h := HeaderLen(s);
      var m := Cleared(s[h..], ICMP_SUM);
      && ok && OnesSum(0, r[..h]) == ONES
      && Big16(Sealed(0, s[h..], ICMP_SUM), ICMP_SUM) == ONES - OnesSum(0, m)
      && (r[h..] == Sealed(0, s[h..], ICMP_SUM) <==> !AllZero(m))
      && (AllZero(m) ==> Big16(r[h..], ICMP_SUM) == 0 && OnesSum(0, m) == 0)
  {
    var t := HeaderSealed(s);
    var h := HeaderLen(s);
    var m := Cleared(s[h..], ICMP_SUM);
    assert Summed(s) == (IcmpSealed(t), true);
    HeaderVerifies(s);
    IcmpSealedIff(s);
    MessageAlone(s[h..]);
    hide OnesSum, Canon, Sum32, Sum16, Sealed, IcmpSealed;
    if AllZero(m) {
      BigOfPut(s[h..], ICMP_SUM, 0);
      ZeroSum(m);
    }
  }

  lemma MessageAlone(m: seq<Byte>)
    requires |m| >= ICMP_SIZE
    ensures Big16(Sealed(0, m, ICMP_SUM), ICMP_SUM) == ONES - OnesSum(0, Cleared(m, ICMP_SUM))
  {
    assert Sum32([]) == Sum16([]) == 0;
    hide OnesSum, Canon, Sum16, Sealed, Big16, Cleared;
    SealVerifies([], m, ICMP_SUM);
    assert [] + Cleared(m, ICMP_SUM) == Cleared(m, ICMP_SUM);
  }

  lemma ZeroSum(m: seq<Byte>)
    requires AllZero(m)
    ensures OnesSum(0, m) == 0
  {
    hide OnesSum, Sum16, Canon, Swap;
    Sum16Zero(m);
    LittleIsSwapped(m);
    SwapZero();
    CanonUnique(0, 0, 0);
  }

  /** An echo reply of zeros, 48 bytes with its header, for which the stored checksum is not that of RFC 792. */
  lemma IcmpZeroExample()
    ensures var s: seq<Byte> := [0x45, 0, 0, 48, 0, 0, 0, 0, 0, PROTO_ICMP] + seq(38, _ => 0);
      WellSized(s, |s|) && Summed(s).1 && Summed(s).0[20..] != Sealed(0, s[20..], ICMP_SUM)
  {
    hide OnesSum, Sealed, Summed, IcmpSealed;
    var s: seq<Byte> := [0x45, 0, 0, 48, 0, 0, 0, 0, 0, PROTO_ICMP] + seq(38, _ => 0);
    assert HeaderLen(s) == 20 && AllZero(s[20..]) && AllZero(Cleared(s[20..], ICMP_SUM));
    IcmpOverWholePacket(s);
  }

  /** An all-zero UDP address pair with port FFE6 hex: the computed checksum is zero and is stored so. */
  lemma UdpZeroExample()
    ensures var ip: seq<Byte> := seq(40, _ => 0);
      var seg: seq<Byte> := [0xFF, 0xE6, 0, 0, 0, 0, 0, 0];
      Big16(Sealed(Sum32(Pseudo6(ip, 8, PROTO_UDP)), seg, UDP_SUM), UDP_SUM) == 0
  {
    hide Sum32, Sum16, Canon;
    var ip: seq<Byte> := seq(40, _ => 0);
    var seg: seq<Byte> := [0xFF, 0xE6, 0, 0, 0, 0, 0, 0];
    assert Cleared(seg, UDP_SUM) == seg;
    ExamplePseudo(ip);
    SmallSum32(seg);
    assert LittleWord(seg, 0) == 0xE6FF && LittleWord(seg[4..], 0) == 0;
    hide Pseudo6, LittleWord;
    CanonUnique(0x1900_0000 + 0xE6FF, 0x1900, ONES);
  }

  /** A pseudo-header with zero addresses, length 8 and next header 17. */
  lemma ExamplePseudo(ip: seq<Byte>)
    requires |ip| == 40 && AllZero(ip)
    ensures Sum32(Pseudo6(ip, 8, PROTO_UDP)) == 0x1900_0000
  {
    hide Sum32, Sum16;
    var zeros, tail: seq<Byte> := ip[8..40], [0, 0, 0, 8, 0, 0, 0, 17];
    assert Pseudo6(ip, 8, PROTO_UDP) == zeros + tail;
    Sum32Concat(zeros, tail);
    Sum16Zero(zeros);
    var k := Sum32Excess(zeros);
    SmallSum32(tail);
    assert LittleWord(tail, 0) == 0x0800_0000 && LittleWord(tail[4..], 0) == 0x1100_0000;
  }

  lemma SmallSum32(s: seq<Byte>)
    requires |s| == 8
    ensures Sum32(s) == LittleWord(s, 0) + LittleWord(s[4..], 0)
  {
    assert s == s[..4] + s[4..];
    Sum32Concat(s[..4], s[4..]);
    Sum32Of1(s[..4]);
    Sum32Of1(s[4..]);
  }
}
