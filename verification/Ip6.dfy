/**
 The four walks over IPv6 extension headers, against one definition of where a packet's
 transport header is and against the chains of headers that packets are built from.
 */
module Ip6 {
  import opened Wrappers
  import opened Bytes

  const TCP: Byte := 6
  const UDP: Byte := 17
  const HOPOPTS: Byte := 0
  const ROUTING: Byte := 43
  const DSTOPTS: Byte := 60
  const AH: Byte := 51

  const IP6_HEADER := 40
  const NEXT_HEADER := 6
  const TCP_HEADER := 20
  const UDP_HEADER := 8

  predicate IsExtension(proto: Byte) { proto == HOPOPTS || proto == ROUTING || proto == DSTOPTS || proto == AH }

  /** The bytes of an extension header: in 8-byte units after the first, for AH in 4-byte units after the first two. */
  function ExtensionLength(proto: Byte, len: Byte): nat {
    if proto == AH then len as int * 4 + 8 else len as int * 8 + 8
  }

  datatype Upper = Upper(proto: Byte, pos: nat)

  /** Where the headers from pos on, the first of them of kind `next`, lead. */
  function Walk(b: seq<Byte>, next: Byte, pos: nat): (r: Option<Upper>)
    requires pos <= |b|
    ensures r.Some? ==> pos <= r.value.pos <= |b| && !IsExtension(r.value.proto)
    decreases |b| - pos
  {
    if !IsExtension(next) then Some(Upper(next, pos))
    else if |b| - pos <= 8 then None
    else
      var n := ExtensionLength(next, b[pos + 1]);
      if |b| - pos <= n then None else Walk(b, b[pos], pos + n)
  }

  /** The upper-layer header of a packet. */
  function UpperLayer(b: seq<Byte>): Option<Upper> {
    if |b| <= IP6_HEADER then None else Walk(b, b[NEXT_HEADER], IP6_HEADER)
  }

  /** The header of the given protocol, if that is the packet's and it is whole. */
  function Located(b: seq<Byte>, proto: Byte, size: nat): Option<nat> {
    var u := UpperLayer(b);
    if u.Some? && u.value.proto == proto && |b| - u.value.pos >= size then Some(u.value.pos) else None
  }

  /** A 16-bit field as it lies in memory. */
  function Field16(b: seq<Byte>, pos: nat): nat
    requires pos + 2 <= |b|
  {
    b[pos] as int + 256 * b[pos + 1] as int
  }

  /** The 16-bit field at `offset` in the TCP or UDP header, 0 if there is neither. */
  function Port(b: seq<Byte>, offset: nat): nat
    requires offset <= 6
  {
    var tcp, udp := Located(b, TCP, TCP_HEADER), Located(b, UDP, UDP_HEADER);
    if tcp.Some? then Field16(b, tcp.value + offset)
    else if udp.Some? then Field16(b, udp.value + offset)
    else 0
  }

  // -------------------------------------------------------------------- the walkers

  method GetSourcePort(b: seq<Byte>) returns (port: nat)
    ensures port == Port(b, 0)
  {
    if |b| <= IP6_HEADER { return 0; }
    var len := |b| - IP6_HEADER;
    var base := IP6_HEADER;
    var next := b[NEXT_HEADER];
    while true
      invariant base + len == |b| && len > 0 && Walk(b, next, base) == UpperLayer(b)
      decreases len
    {
      if next == TCP {
        if len >= TCP_HEADER { return Field16(b, base); }
        return 0;
      } else if next == UDP {
        if len >= UDP_HEADER { return Field16(b, base); }
        return 0;
      } else if next == HOPOPTS || next == ROUTING || next == DSTOPTS {
        if len > 8 {
          var n := b[base + 1] as int * 8 + 8;
          if len > n {
            next, base, len := b[base], base + n, len - n;
            continue;
          }
        }
        return 0;
      } else if next == AH {
        if len > 8 {
          var n := b[base + 1] as int * 4 + 8;
          if len > n {
            next, base, len := b[base], base + n, len - n;
            continue;
          }
        }
        return 0;
      } else {
        return 0;
      }
    }
  }

  method GetDestinationPort(b: seq<Byte>) returns (port: nat)
    ensures port == Port(b, 2)
  {
    if |b| <= IP6_HEADER { return 0; }
    var len := |b| - IP6_HEADER;
    var base := IP6_HEADER;
    var next := b[NEXT_HEADER];
    while true
      invariant base + len == |b| && len > 0 && Walk(b, next, base) == UpperLayer(b)
      decreases len
    {
      if next == TCP {
        if len >= TCP_HEADER { return Field16(b, base + 2); }
        return 0;
      } else if next == UDP {
        if len >= UDP_HEADER { return Field16(b, base + 2); }
        return 0;
      } else if next == HOPOPTS || next == ROUTING || next == DSTOPTS {
        if len > 8 {
          var n := b[base + 1] as int * 8 + 8;
          if len > n {
            next, base, len := b[base], base + n, len - n;
            continue;
          }
        }
        return 0;
      } else if next == AH {
        if len > 8 {
          var n := b[base + 1] as int * 4 + 8;
          if len > n {
            next, base, len := b[base], base + n, len - n;
            continue;
          }
        }
        return 0;
      } else {
        return 0;
      }
    }
  }

  /** The header's position and the length from there on. */
  datatype Packet = Packet(header: Option<nat>, length: nat)

  method LocateTcpHeader(b: seq<Byte>) returns (p: Packet)
    ensures p.header == Located(b, TCP, TCP_HEADER)
    ensures p.length == if p.header.Some? then |b| - p.header.value else 0
  {
    p := Packet(None, 0);
    if |b| <= IP6_HEADER { return; }
    var len := |b| - IP6_HEADER;
    var base := IP6_HEADER;
    var next := b[NEXT_HEADER];
    while true
      invariant base + len == |b| && len > 0 && Walk(b, next, base) == UpperLayer(b)
      invariant p == Packet(None, 0)
      decreases len
    {
      if next == TCP {
        if len >= TCP_HEADER { p := Packet(Some(base), len); }
        return;
      } else if next == HOPOPTS || next == ROUTING || next == DSTOPTS {
        if len > 8 {
          var n := b[base + 1] as int * 8 + 8;
          if len > n {
            next, base, len := b[base], base + n, len - n;
            continue;
          }
        }
        return;
      } else if next == AH {
        if len > 8 {
          var n := b[base + 1] as int * 4 + 8;
          if len > n {
            next, base, len := b[base], base + n, len - n;
            continue;
          }
        }
        return;
      } else {
        return;
      }
    }
  }

  method LocateUdpHeader(b: seq<Byte>) returns (p: Packet)
    ensures p.header == Located(b, UDP, UDP_HEADER)
    ensures p.length == if p.header.Some? then |b| - p.header.value else 0
  {
    p := Packet(None, 0);
    if |b| <= IP6_HEADER { return; }
    var len := |b| - IP6_HEADER;
    var base := IP6_HEADER;
    var next := b[NEXT_HEADER];
    while true
      invariant base + len == |b| && len > 0 && Walk(b, next, base) == UpperLayer(b)
      invariant p == Packet(None, 0)
      decreases len
    {
      if next == UDP {
        if len >= UDP_HEADER { p := Packet(Some(base), len); }
        return;
      } else if next == HOPOPTS || next == ROUTING || next == DSTOPTS {
        if len > 8 {
          var n := b[base + 1] as int * 8 + 8;
          if len > n {
            next, base, len := b[base], base + n, len - n;
            continue;
          }
        }
        return;
      } else if next == AH {
        if len > 8 {
          var n := b[base + 1] as int * 4 + 8;
          if len > n {
            next, base, len := b[base], base + n, len - n;
            continue;
          }
        }
        return;
      } else {
        return;
      }
    }
  }

  // --------------------------------------------------------------------- the chains

  /**
   The extension headers of sections 4.3, 4.4 and 4.6 of RFC 8200 and section 2 of RFC 4302:
   the length field, and what follows the first two bytes.
   */
  datatype Extension =
    | HopByHop(len: Byte, rest: seq<Byte>)
    | Routing(len: Byte, rest: seq<Byte>)
    | Destination(len: Byte, rest: seq<Byte>)
    | Authentication(len: Byte, rest: seq<Byte>)

  function Kind(e: Extension): Byte {
    match e
    case HopByHop(_, _) => 0
    case Routing(_, _) => 43
    case Destination(_, _) => 60
    case Authentication(_, _) => 51
  }

  /** Lengths are in 8-byte units not counting the first; for authentication in 4-byte units not counting two. */
  predicate ValidExtension(e: Extension) {
    |e.rest| + 2 == if e.Authentication? then 4 * (e.len as int + 2) else 8 * (e.len as int + 1)
  }

  ghost predicate ValidChain(exts: seq<Extension>) { forall e | e in exts :: ValidExtension(e) }

  /** A protocol that is none of the extension headers. */
  predicate IsUpper(proto: Byte) { proto != 0 && proto != 43 && proto != 60 && proto != 51 }

  /** The Next Header value that announces a chain before a header of protocol `upper`. */
  function First(exts: seq<Extension>, upper: Byte): Byte { if exts == [] then upper else Kind(exts[0]) }

  function Serialize(exts: seq<Extension>, upper: Byte): seq<Byte> {
    if exts == [] then []
    else [First(exts[1..], upper), exts[0].len] + exts[0].rest + Serialize(exts[1..], upper)
  }

  ghost predicate At(b: seq<Byte>, pos: nat, t: seq<Byte>): (r: bool)
    ensures r ==> pos + |t| <= |b|
  {
    pos + |t| <= |b| && b[pos..pos + |t|] == t
  }

  lemma AtHead(b: seq<Byte>, pos: nat, exts: seq<Extension>, upper: Byte)
    requires exts != [] && ValidExtension(exts[0]) && At(b, pos, Serialize(exts, upper))
    ensures var n := ExtensionLength(Kind(exts[0]), exts[0].len);
      && |Serialize(exts, upper)| == n + |Serialize(exts[1..], upper)|
      && pos + 8 <= |b| && b[pos] == First(exts[1..], upper) && b[pos + 1] == exts[0].len
      && At(b, pos + n, Serialize(exts[1..], upper))
  {
    var all, n, rest := Serialize(exts, upper), |exts[0].rest| + 2, Serialize(exts[1..], upper);
    assert |all| == n + |rest|;
    assert all[n..] == rest;
    assert all[0] == First(exts[1..], upper) && all[1] == exts[0].len;
    hide Serialize, First;
    var end := pos + |all|;
    assert b[pos] == b[pos..end][0] && b[pos + 1] == b[pos..end][1];
    assert b[pos + n..end] == b[pos..end][n..];
  }

  /** Over one extension header, if something lies behind it. */
  lemma WalkOver(b: seq<Byte>, e: Extension, pos: nat)
    requires pos + 8 <= |b| && b[pos + 1] == e.len
    ensures var n := ExtensionLength(Kind(e), e.len);
      Walk(b, Kind(e), pos) == if pos + n < |b| then Walk(b, b[pos], pos + n) else None
  {
  }

  /** A chain is walked from its first header to the rest of the chain. */
  lemma WalkHead(b: seq<Byte>, exts: seq<Extension>, upper: Byte, pos: nat)
    requires exts != [] && ValidExtension(exts[0]) && At(b, pos, Serialize(exts, upper))
    ensures var n := ExtensionLength(Kind(exts[0]), exts[0].len);
      && n >= 8 && |Serialize(exts, upper)| == n + |Serialize(exts[1..], upper)|
      && At(b, pos + n, Serialize(exts[1..], upper))
      && Walk(b, First(exts, upper), pos) == if pos + n < |b| then Walk(b, First(exts[1..], upper), pos + n) else None
  {
    hide Serialize, At, Walk;
    AtHead(b, pos, exts, upper);
    WalkOver(b, exts[0], pos);
  }

  lemma {:induction false} WalkChain(b: seq<Byte>, exts: seq<Extension>, upper: Byte, pos: nat)
    requires ValidChain(exts) && IsUpper(upper)
    requires At(b, pos, Serialize(exts, upper)) && pos + |Serialize(exts, upper)| < |b|
    ensures Walk(b, First(exts, upper), pos) == Some(Upper(upper, pos + |Serialize(exts, upper)|))
    decreases |exts|
  {
    if exts != [] {
      var rest := exts[1..];
      assert ValidExtension(exts[0]) && ValidChain(rest);
      hide Serialize, At, ValidChain, ValidExtension, Walk, First, ExtensionLength, IsUpper, Kind;
      WalkHead(b, exts, upper, pos);
      WalkChain(b, rest, upper, pos + ExtensionLength(Kind(exts[0]), exts[0].len));
    }
  }

  /** A chain with nothing behind it leads nowhere. */
  lemma {:induction false} WalkToEnd(b: seq<Byte>, exts: seq<Extension>, upper: Byte, pos: nat)
    requires ValidChain(exts) && exts != []
    requires At(b, pos, Serialize(exts, upper)) && pos + |Serialize(exts, upper)| == |b|
    ensures Walk(b, First(exts, upper), pos) == None
    decreases |exts|
  {
    var rest := exts[1..];
    assert ValidExtension(exts[0]) && ValidChain(rest);
    assert rest == [] ==> Serialize(rest, upper) == [];
    hide Serialize, At, ValidChain, ValidExtension, Walk, First, ExtensionLength, Kind;
    WalkHead(b, exts, upper, pos);
    if rest != [] {
      WalkToEnd(b, rest, upper, pos + ExtensionLength(Kind(exts[0]), exts[0].len));
    }
  }

  function OfKind(kind: Byte, len: Byte, rest: seq<Byte>): (e: Extension)
    requires IsExtension(kind)
    ensures Kind(e) == kind && e.len == len && e.rest == rest
  {
    if kind == HOPOPTS then HopByHop(len, rest)
    else if kind == ROUTING then Routing(len, rest)
    else if kind == DSTOPTS then Destination(len, rest)
    else Authentication(len, rest)
  }

  lemma Sliced(b: seq<Byte>, pos: nat, n: nat, end: nat)
    requires 2 <= n && pos + n <= end <= |b|
    ensures b[pos..end] == [b[pos], b[pos + 1]] + b[pos + 2..pos + n] + b[pos + n..end]
  {
  }

  lemma {:induction false} ChainOfWalk(b: seq<Byte>, next: Byte, pos: nat) returns (exts: seq<Extension>)
    requires pos < |b| && Walk(b, next, pos).Some?
    ensures var u := Walk(b, next, pos).value;
      ValidChain(exts) && First(exts, u.proto) == next && u.pos < |b| && b[pos..u.pos] == Serialize(exts, u.proto)
    decreases |b| - pos
  {
    if !IsExtension(next) {
      exts := [];
    } else {
      var n := ExtensionLength(next, b[pos + 1]);
      var rest := ChainOfWalk(b, b[pos], pos + n);
      var u := Walk(b, next, pos).value;
      var e := OfKind(next, b[pos + 1], b[pos + 2..pos + n]);
      exts := [e] + rest;
      assert exts[1..] == rest;
      Sliced(b, pos, n, u.pos);
    }
  }

  /**
   The walk ends at `pos` with protocol `upper` exactly when the bytes after the fixed header
   are a chain of extension headers announcing it, with something behind them.
   */
  lemma UpperLayerIff(b: seq<Byte>, upper: Byte, pos: nat)
    requires IP6_HEADER <= pos
    ensures UpperLayer(b) == Some(Upper(upper, pos)) <==>
            pos < |b| && IsUpper(upper)
            && exists exts :: ValidChain(exts) && First(exts, upper) == b[NEXT_HEADER]
                              && Serialize(exts, upper) == b[IP6_HEADER..pos]
  {
    if UpperLayer(b) == Some(Upper(upper, pos)) {
      var exts := ChainOfWalk(b, b[NEXT_HEADER], IP6_HEADER);
    }
    if pos < |b| && IsUpper(upper) {
      forall exts | ValidChain(exts) && First(exts, upper) == b[NEXT_HEADER]
                    && Serialize(exts, upper) == b[IP6_HEADER..pos]
        ensures UpperLayer(b) == Some(Upper(upper, pos))
      {
        WalkChain(b, exts, upper, IP6_HEADER);
      }
    }
  }

  /** A packet built from a fixed header, a chain and a transport header with its data. */
  function Build(fixed: seq<Byte>, exts: seq<Extension>, upper: Byte, payload: seq<Byte>): seq<Byte>
    requires |fixed| == 40
  {
    fixed[6 := First(exts, upper)] + Serialize(exts, upper) + payload
  }

  /** On every packet so built the four walkers find exactly the transport header, its length and its ports. */
  lemma BuiltLocated(fixed: seq<Byte>, exts: seq<Extension>, upper: Byte, payload: seq<Byte>)
    requires |fixed| == 40 && ValidChain(exts) && IsUpper(upper)
    ensures var b, pos := Build(fixed, exts, upper, payload), 40 + |Serialize(exts, upper)|;
      && Located(b, TCP, TCP_HEADER) == (if upper == 6 && |payload| >= 20 then Some(pos) else None)
      && Located(b, UDP, UDP_HEADER) == (if upper == 17 && |payload| >= 8 then Some(pos) else None)
      && |b| - pos == |payload| && b[pos..] == payload
      && var whole := (upper == 6 && |payload| >= 20) || (upper == 17 && |payload| >= 8);
        && Port(b, 0) == (if whole then payload[0] as int + 256 * payload[1] as int else 0)
        && Port(b, 2) == (if whole then payload[2] as int + 256 * payload[3] as int else 0)
  {
    BuiltLayout(fixed, exts, upper, payload);
    BuiltUpper(fixed, exts, upper, payload);
    hide UpperLayer, Build, Serialize;
  }

  lemma BuiltLayout(fixed: seq<Byte>, exts: seq<Extension>, upper: Byte, payload: seq<Byte>)
    requires |fixed| == 40
    ensures var b, chain := Build(fixed, exts, upper, payload), Serialize(exts, upper);
      && |b| == 40 + |chain| + |payload| && b[6] == First(exts, upper) && At(b, 40, chain)
      && b[40 + |chain|..] == payload
      && forall i | 0 <= i < |payload| :: b[40 + |chain| + i] == payload[i]
  {
    hide Serialize;
    var b, chain := Build(fixed, exts, upper, payload), Serialize(exts, upper);
    assert b[40..40 + |chain|] == chain;
  }

  lemma BuiltUpper(fixed: seq<Byte>, exts: seq<Extension>, upper: Byte, payload: seq<Byte>)
    requires |fixed| == 40 && ValidChain(exts) && IsUpper(upper)
    ensures UpperLayer(Build(fixed, exts, upper, payload))
         == if payload == [] then None else Some(Upper(upper, 40 + |Serialize(exts, upper)|))
  {
    BuiltLayout(fixed, exts, upper, payload);
    var b := Build(fixed, exts, upper, payload);
    assert exts == [] ==> Serialize(exts, upper) == [];
    hide Build, Walk, Serialize, At, ValidChain;
    if payload != [] {
      WalkChain(b, exts, upper, 40);
    } else if exts != [] {
      WalkToEnd(b, exts, upper, 40);
    }
  }

  /** Only one transport header can be found, and the ports are read from it. */
  lemma PortsAgree(b: seq<Byte>)
    ensures !(Located(b, TCP, TCP_HEADER).Some? && Located(b, UDP, UDP_HEADER).Some?)
    ensures Located(b, TCP, TCP_HEADER).Some? ==>
              var p := Located(b, TCP, TCP_HEADER).value;
              p + TCP_HEADER <= |b| && Port(b, 0) == Field16(b, p) && Port(b, 2) == Field16(b, p + 2)
    ensures Located(b, UDP, UDP_HEADER).Some? ==>
              var p := Located(b, UDP, UDP_HEADER).value;
              p + UDP_HEADER <= |b| && Port(b, 0) == Field16(b, p) && Port(b, 2) == Field16(b, p + 2)
    ensures Located(b, TCP, TCP_HEADER).None? && Located(b, UDP, UDP_HEADER).None? ==>
              Port(b, 0) == 0 && Port(b, 2) == 0
  {
  }
}
