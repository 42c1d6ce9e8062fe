/** The packet and connect hooks that consult the verdict tables. */
module Datapath {
  import opened Base
  import opened Kernel

  datatype Config = Config(enabled: Byte, dryRun: Byte)

  /** The state the hooks read: runtime config (absent when the lookup fails) and the tables. */
  datatype Machine = Machine(cfg: Option<Config>, table: Table)

  /** A packet: all its bytes, of which a prefix is linear, and the sending cgroup. */
  datatype Packet = Packet(cgroup: U64, bytes: seq<Byte>, linear: nat)

  type Skb = p: Packet | p.linear <= |p.bytes| witness Packet(0, [], 0)

  datatype EventKind = Connect | Dns

  datatype Event = Event(kind: EventKind, action: Byte)

  /** A hook's verdict (0 drops) and the connection and DNS events it submits. */
  datatype Outcome = Outcome(code: nat, events: seq<Event>)

  const Tcp: Byte := 6
  const Udp: Byte := 17

  const Pass := Outcome(1, [])

  predicate Enabled(m: Machine) {
    m.cfg.Some? && m.cfg.value.enabled != 0
  }

  function DryRun(m: Machine): Byte {
    if Enabled(m) then m.cfg.value.dryRun else 0
  }

  function VerdictPass(action: Byte, dry: Byte): nat {
    if action == ActionDeny && dry == 0 then 0 else 1
  }

  function Be32(b: Bytes, off: nat): U32
    requires off + 4 <= |b|
  {
    (Be16(b, off) as int) * 0x1_0000 + Be16(b, off + 2)
  }

  predicate Bit(b: Byte, k: nat)
    requires k < 8
  {
    Shr(b, k) % 2 == 1
  }

  /** What the IP header says: family, transport protocol, transport offset, IPv4 destination. */
  datatype Layer3 = Layer3(v4: bool, proto: Byte, l4: nat, daddr: U32)

  /** Parses the IP header from the linear part; `None` lets the packet through unparsed. */
  function ParseL3(p: Skb): Option<Layer3> {
    if p.linear < 1 then None
    else if p.bytes[0] / 16 == 4 then
      if p.linear < 20 || p.bytes[0] % 16 * 4 < 20 || p.bytes[0] % 16 * 4 > p.linear then None
      else Some(Layer3(true, p.bytes[9], p.bytes[0] % 16 * 4, Be32(p.bytes, 16)))
    else if p.bytes[0] / 16 == 6 then
      if p.linear < 40 then None else Some(Layer3(false, p.bytes[6], 40, 0))
    else None
  }

  ghost function TcpOutcome(m: Machine, p: Skb, h: Layer3): Outcome {
    if h.l4 + 20 > p.linear then Pass
    else
      var port := Be16(p.bytes, h.l4 + 2);
      var act := if h.v4 && Enabled(m) then VerdictFor(m.table, Dest(p.cgroup, h.daddr, port)) else ActionAllow;
      var flags := p.bytes[h.l4 + 13];
      var syn := if Bit(flags, 1) && !Bit(flags, 4) then [Event(Connect, act)] else [];
      Outcome(VerdictPass(act, if h.v4 then DryRun(m) else 0), syn)
  }

  ghost function UdpOutcome(m: Machine, p: Skb, h: Layer3): Outcome {
    if h.l4 + 8 > p.linear then Pass
    else
      var port := Be16(p.bytes, h.l4 + 2);
      if port == 53 then Outcome(1, [Event(Dns, ActionAllow)])
      else if h.v4 && Enabled(m) then
        Outcome(VerdictPass(VerdictFor(m.table, Dest(p.cgroup, h.daddr, port)), DryRun(m)), [])
      else Pass
  }

  /** The egress hook. */
  ghost function Egress(m: Machine, p: Skb): Outcome {
    var h := ParseL3(p);
    if h.None? then Pass
    else if h.value.proto == Udp then UdpOutcome(m, p, h.value)
    else if h.value.proto == Tcp then TcpOutcome(m, p, h.value)
    else Pass
  }

  /** The connect hook: 0 fails the connect. */
  ghost function Connect4(m: Machine, protocol: Byte, d: Dest): Outcome {
    if protocol != Tcp || !Enabled(m) || VerdictFor(m.table, d) != ActionDeny then Pass
    else Outcome(if DryRun(m) == 0 then 0 else 1, [Event(Connect, ActionDeny)])
  }

  // ---- Well-formed packets ----

  /** `p` is an IPv4 packet whose whole headers are readable, carrying `proto` to (addr, port). */
  predicate WellFormedV4(p: Skb, proto: Byte, addr: U32, port: U16) {
    && p.linear >= 20 && p.bytes[0] / 16 == 4
    && var l4 := p.bytes[0] % 16 * 4;
       && l4 >= 20 && l4 + (if proto == Tcp then 20 else 8) <= p.linear
       && p.bytes[9] == proto && Be32(p.bytes, 16) == addr && Be16(p.bytes, l4 + 2) == port
  }

  /** `p` is an IPv6 packet without extension headers, carrying `proto` to a port. */
  predicate WellFormedV6(p: Skb, proto: Byte, port: U16) {
    && 40 + (if proto == Tcp then 20 else 8) <= p.linear
    && p.bytes[0] / 16 == 6 && p.bytes[6] == proto && Be16(p.bytes, 42) == port
  }

  function AddrBytes(a: U32): (b: Bytes)
    ensures |b| == 4 && Be32(b, 0) == a
  {
    [a / 0x100_0000, a / 0x1_0000 % 0x100, a / 0x100 % 0x100, a % 0x100]
  }

  function PortBytes(p: U16): (b: Bytes)
    ensures |b| == 2 && Be16(b, 0) == p
  {
    [p / 0x100, p % 0x100]
  }

  /** The parts of an IPv4 packet besides protocol, destination and port: the header fields around
      the protocol and before the destination, the options, the source port, and everything behind
      the destination port. */
  datatype Parts = Parts(top: Bytes, middle: Bytes, options: Bytes, source: Bytes, rest: Bytes)

  predicate PartsValid(h: Parts) {
    |h.top| == 8 && |h.middle| == 6 && |h.source| == 2 && |h.options| <= 40 && |h.options| % 4 == 0
  }

  /** Section 3.1 of RFC 791, followed by the first fields shared by TCP and UDP. */
  function V4Bytes(h: Parts, proto: Byte, addr: U32, port: U16): Bytes
    requires PartsValid(h)
  {
    [0x45 + |h.options| / 4] + h.top + [proto] + h.middle + AddrBytes(addr) + h.options + h.source + PortBytes(port) + h.rest
  }

  /** `p` is laid out from `h`, with the whole transport header in its linear part. */
  predicate LaidOut(p: Skb, h: Parts, proto: Byte, addr: U32, port: U16) {
    && PartsValid(h) && p.bytes == V4Bytes(h, proto, addr, port)
    && 20 + |h.options| + (if proto == Tcp then 20 else 8) <= p.linear
  }

  lemma Be32Injective(a: Bytes, b: Bytes)
    requires |a| == 4 && |b| == 4 && Be32(a, 0) == Be32(b, 0)
    ensures a == b
  {
    assert a[0] == b[0] && a[1] == b[1] && a[2] == b[2] && a[3] == b[3];
  }

  lemma LaidOutReads(p: Skb, h: Parts, proto: Byte, addr: U32, port: U16)
    requires LaidOut(p, h, proto, addr, port)
    ensures WellFormedV4(p, proto, addr, port)
  {
    var b, l4 := p.bytes, 20 + |h.options|;
    assert b[0] == 0x45 + |h.options| / 4 && b[9] == proto;
    assert b[16..20] == AddrBytes(addr) && b[l4 + 2..l4 + 4] == PortBytes(port);
    assert Be32(b, 16) == Be32(b[16..20], 0) && Be16(b, l4 + 2) == Be16(b[l4 + 2..l4 + 4], 0);
  }

  lemma V4Pieces(b: Bytes, l4: nat)
    requires 20 <= l4 && l4 + 4 <= |b|
    ensures b == [b[0]] + b[1..9] + [b[9]] + b[10..16] + b[16..20] + b[20..l4] + b[l4..l4 + 2] + b[l4 + 2..l4 + 4] + b[l4 + 4..]
  {
  }

  lemma VersionByte(b: Byte, options: nat)
    requires b / 16 == 4 && b % 16 * 4 == 20 + options
    ensures options % 4 == 0 && options <= 40 && b == 0x45 + options / 4
  {
    assert options == 4 * (b % 16 - 5);
  }

  lemma DestBytes(b: Bytes, l4: nat)
    requires 20 <= l4 && l4 + 4 <= |b|
    ensures AddrBytes(Be32(b, 16)) == b[16..20] && PortBytes(Be16(b, l4 + 2)) == b[l4 + 2..l4 + 4]
  {
    assert Be32(b, 16) == Be32(b[16..20], 0);
    Be32Injective(b[16..20], AddrBytes(Be32(b, 16)));
  }

  lemma WellFormedLaidOut(p: Skb, proto: Byte, addr: U32, port: U16) returns (h: Parts)
    requires WellFormedV4(p, proto, addr, port)
    ensures LaidOut(p, h, proto, addr, port)
  {
    var b, l4 := p.bytes, p.bytes[0] % 16 * 4;
    VersionByte(b[0], l4 - 20);
    DestBytes(b, l4);
    V4Pieces(b, l4);
    h := Parts(b[1..9], b[10..16], b[20..l4], b[l4..l4 + 2], b[l4 + 4..]);
  }

  /** The packets the hook reads as well-formed are exactly those laid out as IPv4 prescribes. */
  lemma WellFormedExactly(p: Skb, proto: Byte, addr: U32, port: U16)
    ensures WellFormedV4(p, proto, addr, port) <==> exists h :: LaidOut(p, h, proto, addr, port)
  {
    if WellFormedV4(p, proto, addr, port) {
      var h := WellFormedLaidOut(p, proto, addr, port);
    }
    if h :| LaidOut(p, h, proto, addr, port) {
      LaidOutReads(p, h, proto, addr, port);
    }
  }

  // ---- Which packets are dropped ----

  /** The datapath refuses destination `d`: the configuration is there, on and not dry, and the
      tables deny. */
  ghost predicate Refuses(m: Machine, d: Dest) {
    m.cfg.Some? && m.cfg.value.enabled != 0 && m.cfg.value.dryRun == 0 && VerdictFor(m.table, d) == 0
  }

  /** A packet is dropped exactly when it is well-formed IPv4 TCP, or UDP other than DNS, to a
      refused destination. */
  lemma DropExactly(m: Machine, p: Skb)
    ensures Egress(m, p).code <= 1
    ensures Egress(m, p).code == 0 <==>
            exists proto: Byte, addr: U32, port: U16 ::
              && WellFormedV4(p, proto, addr, port)
              && (proto == 6 || (proto == 17 && port != 53))
              && Refuses(m, Dest(p.cgroup, addr, port))
  {
    var h := ParseL3(p);
    if h.Some? && h.value.v4 {
      var Layer3(_, proto, l4, addr) := h.value;
      if l4 + (if proto == Tcp then 20 else 8) <= p.linear {
        assert WellFormedV4(p, proto, addr, Be16(p.bytes, l4 + 2));
      }
    }
  }

  /** A TCP packet with bare headers to a destination. */
  function TcpPacket(d: Dest): (p: Skb)
    ensures WellFormedV4(p, Tcp, d.addr, d.port) && p.cgroup == d.cgroup
  {
    var zeros := (n: nat) => seq(n, _ => 0 as Byte);
    var h := Parts(zeros(8), zeros(6), [], zeros(2), zeros(16));
    var p := Packet(d.cgroup, V4Bytes(h, Tcp, d.addr, d.port), 40);
    LaidOutReads(p, h, Tcp, d.addr, d.port);
    p
  }

  // ---- The connect hook ----

  /** Connect fails exactly TCP connects to refused destinations, and reports exactly the TCP
      connects the tables deny while enforcement is on, dry or not; no other protocol is touched. */
  lemma ConnectExactly(m: Machine, protocol: Byte, d: Dest)
    ensures Connect4(m, protocol, d).code == if protocol == 6 && Refuses(m, d) then 0 else 1
    ensures Connect4(m, protocol, d).events ==
            if protocol == 6 && m.cfg.Some? && m.cfg.value.enabled != 0 && VerdictFor(m.table, d) == 0
            then [Event(Connect, 0)] else []
  {
  }

  /** Connect refuses a destination exactly when the protocol is TCP and egress drops every
      well-formed TCP packet of that cgroup to it. */
  lemma ConnectAgreesWithEgress(m: Machine, protocol: Byte, d: Dest)
    ensures Connect4(m, protocol, d).code == 0 <==>
            protocol == Tcp &&
            forall p: Skb :: WellFormedV4(p, Tcp, d.addr, d.port) && p.cgroup == d.cgroup ==> Egress(m, p).code == 0
  {
    forall p: Skb | WellFormedV4(p, Tcp, d.addr, d.port) && p.cgroup == d.cgroup
      ensures Egress(m, p).code == 0 <==> Refuses(m, d)
    {
      WellFormedTcpDropped(m, p, d);
    }
    var p := TcpPacket(d);
  }

  lemma WellFormedTcpDropped(m: Machine, p: Skb, d: Dest)
    requires WellFormedV4(p, Tcp, d.addr, d.port) && p.cgroup == d.cgroup
    ensures Egress(m, p).code == 0 <==> Refuses(m, d)
  {
  }

  // ---- What is reported ----

  /** A DNS query, over either version of IP. */
  ghost predicate DnsQuery(p: Skb) {
    (exists addr: U32 :: WellFormedV4(p, Udp, addr, 53)) || WellFormedV6(p, Udp, 53)
  }

  /** SYN is set and ACK is not, in the flags byte of section 3.1 of RFC 9293. */
  predicate SynFlags(flags: Byte) {
    flags / 2 % 2 == 1 && flags / 16 % 2 == 0
  }

  predicate ConnectionAttempt(p: Skb, d: Dest) {
    && WellFormedV4(p, Tcp, d.addr, d.port) && p.cgroup == d.cgroup
    && SynFlags(p.bytes[p.bytes[0] % 16 * 4 + 13])
  }

  ghost predicate ConnectionAttemptV6(p: Skb) {
    (exists port: U16 :: WellFormedV6(p, Tcp, port)) && SynFlags(p.bytes[53])
  }

  lemma FlagBits(flags: Byte)
    ensures Bit(flags, 1) && !Bit(flags, 4) <==> SynFlags(flags)
  {
    var a := flags / 2;
    var b := a / 2;
    var c := b / 2;
    assert Shr(flags, 1) == Shr(a, 0) == a;
    assert Shr(flags, 4) == Shr(a, 3) == Shr(b, 2) == Shr(c, 1) == Shr(c / 2, 0) == c / 2;
    assert c / 2 == flags / 16;
  }

  /** DNS queries pass and are reported, whatever is programmed. */
  lemma DnsAlwaysPasses(m: Machine, p: Skb)
    requires DnsQuery(p)
    ensures Egress(m, p) == Outcome(1, [Event(Dns, 1)])
  {
  }

  /** A connection attempt is reported once, before any drop, stamped with the verdict of its
      destination while enforcement is on and Allow while it is off. */
  lemma AttemptReported(m: Machine, p: Skb, d: Dest)
    requires ConnectionAttempt(p, d)
    ensures Egress(m, p).events ==
            [Event(Connect, if m.cfg.Some? && m.cfg.value.enabled != 0 then VerdictFor(m.table, d) else ActionAllow)]
    ensures Egress(m, p).code == 0 ==> Egress(m, p).events == [Event(Connect, ActionDeny)]
  {
    WellFormedTcpDropped(m, p, d);
    FlagBits(p.bytes[p.bytes[0] % 16 * 4 + 13]);
  }

  /** Over IPv6 attempts are reported as allowed and pass. */
  lemma AttemptReportedV6(m: Machine, p: Skb)
    requires ConnectionAttemptV6(p)
    ensures Egress(m, p) == Outcome(1, [Event(Connect, ActionAllow)])
  {
    FlagBits(p.bytes[53]);
  }

  /** Nothing else is reported. */
  lemma OthersUnreported(m: Machine, p: Skb)
    requires !DnsQuery(p) && !ConnectionAttemptV6(p) && forall d :: !ConnectionAttempt(p, d)
    ensures Egress(m, p).events == []
  {
    var l3 := ParseL3(p);
    if l3.Some? {
      var h := l3.value;
      if h.l4 + (if h.proto == Tcp then 20 else 8) <= p.linear && (h.proto == Tcp || h.proto == Udp) {
        var port := Be16(p.bytes, h.l4 + 2);
        if h.v4 {
          assert WellFormedV4(p, h.proto, h.daddr, port);
          assert !ConnectionAttempt(p, Dest(p.cgroup, h.daddr, port));
        } else {
          assert WellFormedV6(p, h.proto, port);
        }
        if h.proto == Tcp {
          FlagBits(p.bytes[h.l4 + 13]);
        }
      }
    }
  }
}
