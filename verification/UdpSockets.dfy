/**
 UDP datagrams: how the kernel writes a frame, what it tests on a received one,
 and the queues in which frames wait for their reader.
 */
module UdpSockets {
  import opened Common
  import opened InetChecksum

  const ETH_LEN := 14
  const IP_LEN := 20
  const UDP_LEN := 8
  const MBUF_MAX := 2048
  const MAX_PORTS := 1024
  const ETHERTYPE_IP := 0x0800
  const PROTO_UDP := 17

  /** What a reader gets: the payload, and who sent it. */
  datatype Datagram = Datagram(payload: seq<byte>, port: nat, addr: nat)

  // --------------------------------------------------------------------- fields

  /** A 16-bit value in network order, as htons leaves it in memory. */
  function Be16(v: nat): (s: seq<byte>)
    requires v <= ONES
    ensures |s| == 2
  {
    [v / 256, v % 256]
  }

  /** A 16-bit value as the processor stores it. */
  function Le16(v: nat): (s: seq<byte>)
    requires v <= ONES
    ensures |s| == 2
  {
    [v % 256, v / 256]
  }

  function Be32(v: nat): (s: seq<byte>)
    requires v < U32
    ensures |s| == 4
  {
    Be16(v / 65536) + Be16(v % 65536)
  }

  function Le32(v: nat): (s: seq<byte>)
    requires v < U32
    ensures |s| == 4
  {
    Le16(v % 65536) + Le16(v / 65536)
  }

  function ReadBe16(s: seq<byte>, i: nat): nat
    requires i + 1 < |s|
  {
    Word(s[i], s[i + 1])
  }

  function ReadLe16(s: seq<byte>, i: nat): nat
    requires i + 1 < |s|
  {
    Word(s[i + 1], s[i])
  }

  function ReadBe32(s: seq<byte>, i: nat): (v: nat)
    requires i + 3 < |s|
    ensures v < U32
  {
    65536 * Word(s[i], s[i + 1]) + Word(s[i + 2], s[i + 3])
  }

  // -------------------------------------------------------------------- headers

  function EthHeader(dst: seq<byte>, src: seq<byte>): seq<byte> { dst + src + Be16(ETHERTYPE_IP) }

  function IpHeader(len: nat, src: nat, dst: nat, sum: nat): (h: seq<byte>)
    requires len <= ONES && src < U32 && dst < U32 && sum <= ONES
    ensures |h| == IP_LEN
  {
    [0x45, 0] + Be16(len) + [0, 0] + Be16(0x4000) + [64, PROTO_UDP] + Le16(sum) + Be32(src) + Be32(dst)
  }

  function UdpHeader(sport: nat, dport: nat, len: nat, sum: nat): (h: seq<byte>)
    requires sport <= ONES && dport <= ONES && len <= ONES && sum <= ONES
    ensures |h| == UDP_LEN
  {
    Be16(sport) + Be16(dport) + Be16(len) + Le16(sum)
  }

  /** The pseudo header, with its fields in the order in which the kernel lays them out. */
  function Pseudo(src: nat, dst: nat, len: nat): (h: seq<byte>)
    requires src < U32 && dst < U32 && len <= ONES
    ensures |h| == 12
  {
    Le32(src) + Le32(dst) + [0, PROTO_UDP] + Le16(len)
  }

  /** The UDP checksum; zero, which means none, is sent as its other form. */
  function UdpSum(src: nat, dst: nat, uh: seq<byte>, payload: seq<byte>): (c: nat)
    requires src < U32 && dst < U32 && |uh| == UDP_LEN
    ensures 0 < c <= ONES
  {
    var c := Cksum(Pseudo(src, dst, ReadBe16(uh, 4)) + uh[..6] + [0, 0] + payload);
    if c == 0 then ONES else c
  }

  /** The kernel adds the three parts one after the other. */
  method UdpChecksum(src: nat, dst: nat, uh: seq<byte>, payload: seq<byte>) returns (c: nat)
    requires src < U32 && dst < U32 && |uh| == UDP_LEN
    ensures c == UdpSum(src, dst, uh, payload)
  {
    hide Sum16, Fold, Pseudo;
    var ph := Pseudo(src, dst, ReadBe16(uh, 4));
    var local := uh[..6] + [0, 0];
    var sum := AddBuf(0, ph);
    sum := AddBuf(sum, local);
    sum := AddBuf(sum, payload);
    PiecewiseSum(0, ph, local);
    PiecewiseSum(0, ph + local, payload);
    assert ph + local + payload == ph + uh[..6] + [0, 0] + payload;
    var r := Reduce(sum);
    c := if ONES - r == 0 then ONES else ONES - r;
  }

  // -------------------------------------------------------------------- sending

  datatype Route = Route(srcMac: seq<byte>, dstMac: seq<byte>, src: nat, dst: nat) {
    predicate Ok() { |srcMac| == 6 && |dstMac| == 6 && src < U32 && dst < U32 }
  }

  function IpPart(r: Route, n: nat): seq<byte>
    requires r.Ok()
  {
    var len := (IP_LEN + UDP_LEN + n) % 65536;
    IpHeader(len, r.src, r.dst, Cksum(IpHeader(len, r.src, r.dst, 0)))
  }

  function UdpPart(r: Route, sport: nat, dport: nat, payload: seq<byte>): seq<byte>
    requires r.Ok() && sport <= ONES && dport <= ONES && |payload| + UDP_LEN <= ONES
  {
    var len := UDP_LEN + |payload|;
    UdpHeader(sport, dport, len, UdpSum(r.src, r.dst, UdpHeader(sport, dport, len, 0), payload))
  }

  /** The frame of a datagram. */
  function Frame(r: Route, sport: nat, dport: nat, payload: seq<byte>): seq<byte>
    requires r.Ok() && sport <= ONES && dport <= ONES && |payload| + UDP_LEN <= ONES
  {
    EthHeader(r.dstMac, r.srcMac) + IpPart(r, |payload|) + UdpPart(r, sport, dport, payload) + payload
  }

  // ---------------------------------------------------------- filling the buffer

  /** memcpy into a buffer. */
  method CopyIn(buffer: array<byte>, at: nat, v: seq<byte>)
    requires at + |v| <= buffer.Length
    modifies buffer
    ensures buffer[at..at + |v|] == v
    ensures forall i :: 0 <= i < buffer.Length && !(at <= i < at + |v|) ==> buffer[i] == old(buffer[i])
  {
    for k := 0 to |v|
      invariant forall i :: 0 <= i < k ==> buffer[at + i] == v[i]
      invariant forall i :: 0 <= i < buffer.Length && !(at <= i < at + k) ==> buffer[i] == old(buffer[i])
    {
      buffer[at + k] := v[k];
    }
  }

  method WriteEth(buffer: array<byte>, r: Route)
    requires r.Ok() && buffer.Length >= ETH_LEN
    modifies buffer
    ensures buffer[..ETH_LEN] == EthHeader(r.dstMac, r.srcMac)
    ensures forall i :: ETH_LEN <= i < buffer.Length ==> buffer[i] == old(buffer[i])
  {
    CopyIn(buffer, 6, r.srcMac);
    CopyIn(buffer, 0, r.dstMac);
    CopyIn(buffer, 12, Be16(ETHERTYPE_IP));
    assert buffer[0..12] == buffer[0..6] + buffer[6..12];
    assert buffer[..ETH_LEN] == buffer[0..12] + buffer[12..14];
  }

  /** The fields of the IP header into a buffer of zeros, all but the checksum. */
  method WriteIpFields(buffer: array<byte>, r: Route, len: nat)
    requires r.Ok() && len <= ONES && buffer.Length >= 34 && forall i :: 14 <= i < 34 ==> buffer[i] == 0
    modifies buffer
    ensures buffer[14..34] == IpHeader(len, r.src, r.dst, 0)
    ensures forall i :: 0 <= i < buffer.Length && !(14 <= i < 34) ==> buffer[i] == old(buffer[i])
  {
    hide Be16, Be32;
    CopyIn(buffer, 14, [0x45, 0]);
    CopyIn(buffer, 16, Be16(len));
    CopyIn(buffer, 20, Be16(0x4000));
    CopyIn(buffer, 22, [64, PROTO_UDP]);
    assert buffer[14..24] == [0x45, 0] + Be16(len) + [0, 0] + Be16(0x4000) + [64, PROTO_UDP] by {
      assert buffer[14..18] == buffer[14..16] + buffer[16..18];
      assert buffer[14..20] == buffer[14..18] + buffer[18..20];
      assert buffer[14..22] == buffer[14..20] + buffer[20..22];
      assert buffer[14..24] == buffer[14..22] + buffer[22..24];
    }
    ghost var front := buffer[14..24];
    CopyIn(buffer, 26, Be32(r.src));
    CopyIn(buffer, 30, Be32(r.dst));
    assert buffer[14..26] == buffer[14..24] + buffer[24..26];
    assert buffer[14..30] == buffer[14..26] + buffer[26..30];
    assert buffer[14..34] == buffer[14..30] + buffer[30..34];
    assert buffer[14..24] == front && buffer[24..26] == [0, 0] == Le16(0);
  }

  /** The IP header, its checksum last. */
  method WriteIp(buffer: array<byte>, r: Route, n: nat)
    requires r.Ok() && buffer.Length >= 34 && forall i :: 14 <= i < 34 ==> buffer[i] == 0
    modifies buffer
    ensures buffer[14..34] == IpPart(r, n)
    ensures forall i :: 0 <= i < buffer.Length && !(14 <= i < 34) ==> buffer[i] == old(buffer[i])
  {
    hide Cksum, IpHeader;
    var len := (IP_LEN + UDP_LEN + n) % 65536;
    WriteIpFields(buffer, r, len);
    ghost var zero := buffer[14..34];
    var c := InCksum(buffer[14..34]);
    CopyIn(buffer, 24, Le16(c));
    SumFilledIn(len, r.src, r.dst, c);
    assert buffer[14..24] == zero[..10] && buffer[26..34] == zero[12..];
    assert buffer[14..26] == buffer[14..24] + buffer[24..26];
    assert buffer[14..34] == buffer[14..26] + buffer[26..34];
  }

  lemma SumFilledIn(len: nat, src: nat, dst: nat, c: nat)
    requires len <= ONES && src < U32 && dst < U32 && c <= ONES
    ensures IpHeader(len, src, dst, c) == IpHeader(len, src, dst, 0)[..10] + Le16(c) + IpHeader(len, src, dst, 0)[12..]
  {
  }

  /** The ports, the length and the payload. */
  method WriteUdpFields(buffer: array<byte>, sport: nat, dport: nat, payload: seq<byte>)
    requires sport <= ONES && dport <= ONES && |payload| + UDP_LEN <= ONES
    requires buffer.Length == 42 + |payload| && forall i :: 34 <= i < 42 ==> buffer[i] == 0
    modifies buffer
    ensures buffer[34..42] == UdpHeader(sport, dport, UDP_LEN + |payload|, 0) && buffer[42..] == payload
    ensures forall i :: 0 <= i < 34 ==> buffer[i] == old(buffer[i])
  {
    hide Be16;
    var len := UDP_LEN + |payload|;
    CopyIn(buffer, 34, Be16(sport));
    CopyIn(buffer, 36, Be16(dport));
    CopyIn(buffer, 38, Be16(len));
    assert buffer[34..40] == Be16(sport) + Be16(dport) + Be16(len) by {
      assert buffer[34..38] == buffer[34..36] + buffer[36..38];
      assert buffer[34..40] == buffer[34..38] + buffer[38..40];
    }
    ghost var front := buffer[34..40];
    CopyIn(buffer, 42, payload);
    assert buffer[34..40] == front && buffer[40..42] == [0, 0] == Le16(0);
    assert buffer[34..42] == buffer[34..40] + buffer[40..42];
  }

  /** The UDP header and the payload, the checksum last. */
  method WriteUdp(buffer: array<byte>, r: Route, sport: nat, dport: nat, payload: seq<byte>)
    requires r.Ok() && sport <= ONES && dport <= ONES && |payload| + UDP_LEN <= ONES
    requires buffer.Length == 42 + |payload| && forall i :: 34 <= i < 42 ==> buffer[i] == 0
    modifies buffer
    ensures buffer[34..42] == UdpPart(r, sport, dport, payload) && buffer[42..] == payload
    ensures forall i :: 0 <= i < 34 ==> buffer[i] == old(buffer[i])
  {
    hide Cksum, UdpSum, Be16, UdpHeader;
    WriteUdpFields(buffer, sport, dport, payload);
    ghost var zero := buffer[34..42];
    var c := UdpChecksum(r.src, r.dst, buffer[34..42], buffer[42..]);
    CopyIn(buffer, 40, Le16(c));
    UdpSumFilledIn(sport, dport, UDP_LEN + |payload|, c);
    assert buffer[34..40] == zero[..6] && buffer[42..] == payload;
    assert buffer[34..42] == buffer[34..40] + buffer[40..42];
  }

  lemma UdpSumFilledIn(sport: nat, dport: nat, len: nat, c: nat)
    requires sport <= ONES && dport <= ONES && len <= ONES && c <= ONES
    ensures UdpHeader(sport, dport, len, c) == UdpHeader(sport, dport, len, 0)[..6] + Le16(c)
  {
  }

  /** Fills a zeroed buffer with the frame of a datagram. */
  method BuildFrame(r: Route, sport: nat, dport: nat, payload: seq<byte>) returns (buffer: array<byte>)
    requires r.Ok() && sport <= ONES && dport <= ONES && |payload| + UDP_LEN <= ONES
    ensures fresh(buffer) && buffer[..] == Frame(r, sport, dport, payload)
  {
    hide IpPart, UdpPart, EthHeader;
    buffer := new byte[42 + |payload|](_ => 0);
    WriteEth(buffer, r);
    ghost var eth := buffer[..14];
    WriteIp(buffer, r, |payload|);
    ghost var ip := buffer[14..34];
    WriteUdp(buffer, r, sport, dport, payload);
    assert buffer[..14] == eth && buffer[14..34] == ip;
    assert buffer[..34] == buffer[..14] + buffer[14..34];
    assert buffer[..42] == buffer[..34] + buffer[34..42];
    assert buffer[..] == buffer[..42] + buffer[42..];
  }

  // ------------------------------------------------------------------- receiving

  /** The header with its checksum field cleared; only its first 20 bytes are summed. */
  function Cleared(ip: seq<byte>): seq<byte>
    requires |ip| >= IP_LEN
  {
    ip[..10] + [0, 0] + ip[12..IP_LEN]
  }

  function HeaderLen(frame: seq<byte>): nat
    requires |frame| > ETH_LEN
  {
    4 * (frame[ETH_LEN] % 16)
  }

  /** The tests that a frame with an IP header must pass. */
  predicate GoodIp(frame: seq<byte>) {
    && |frame| >= ETH_LEN + IP_LEN && ReadBe16(frame, 12) == ETHERTYPE_IP
    && IP_LEN <= HeaderLen(frame) && ETH_LEN + HeaderLen(frame) <= |frame|
    && Cksum(Cleared(frame[ETH_LEN..])) == ReadLe16(frame, ETH_LEN + 10)
  }

  /** The port whose socket gets the frame. */
  function Deliver(frame: seq<byte>): Option<nat> {
    if !GoodIp(frame) || frame[ETH_LEN + 9] != PROTO_UDP || |frame| < ETH_LEN + HeaderLen(frame) + UDP_LEN then None
    else
      var port := ReadBe16(frame, ETH_LEN + HeaderLen(frame) + 2);
      if port == 0 || port >= MAX_PORTS then None else Some(port)
  }

  /** The datagram in a queued frame, if all tests pass. */
  function Decode(frame: seq<byte>): Option<Datagram> {
    if |frame| < ETH_LEN + IP_LEN + UDP_LEN || !GoodIp(frame) || |frame| < ETH_LEN + HeaderLen(frame) + UDP_LEN then None
    else
      var at := ETH_LEN + HeaderLen(frame);
      var len := ReadBe16(frame, at + 4);
      if len < UDP_LEN || at + len > |frame| then None
      else
        var src, dst := ReadBe32(frame, ETH_LEN + 12), ReadBe32(frame, ETH_LEN + 16);
        var payload, sum := frame[at + UDP_LEN..at + len], ReadLe16(frame, at + 6);
        if sum != 0 && UdpSum(src, dst, frame[at..at + UDP_LEN], payload) != sum then None
        else Some(Datagram(payload, ReadBe16(frame, at), src))
  }

  // ------------------------------------------------------------------- round trip

  lemma FrameParts(r: Route, sport: nat, dport: nat, payload: seq<byte>)
    requires r.Ok() && sport <= ONES && dport <= ONES && |payload| + UDP_LEN <= ONES
    ensures var f := Frame(r, sport, dport, payload);
            && |f| == 42 + |payload| && f[14..34] == IpPart(r, |payload|) && f[34..42] == UdpPart(r, sport, dport, payload)
            && f[42..] == payload && ReadBe16(f, 12) == ETHERTYPE_IP
  {
    hide IpHeader, UdpHeader, UdpSum, Cksum;
  }

  lemma IpFields(r: Route, n: nat)
    requires r.Ok()
    ensures var ip := IpPart(r, n);
            && ip[0] == 0x45 && ip[9] == PROTO_UDP && ReadBe32(ip, 12) == r.src && ReadBe32(ip, 16) == r.dst
            && Cksum(Cleared(ip)) == ReadLe16(ip, 10)
  {
    hide Cksum;
    var len := (IP_LEN + UDP_LEN + n) % 65536;
    var zero, c := IpHeader(len, r.src, r.dst, 0), Cksum(IpHeader(len, r.src, r.dst, 0));
    var ip := IpHeader(len, r.src, r.dst, c);
    assert Cleared(ip) == zero;
  }

  lemma UdpFields(r: Route, sport: nat, dport: nat, payload: seq<byte>)
    requires r.Ok() && sport <= ONES && dport <= ONES && |payload| + UDP_LEN <= ONES
    ensures var uh := UdpPart(r, sport, dport, payload);
            && ReadBe16(uh, 0) == sport && ReadBe16(uh, 2) == dport && ReadBe16(uh, 4) == UDP_LEN + |payload|
            && ReadLe16(uh, 6) == UdpSum(r.src, r.dst, uh, payload)
  {
    hide Cksum, Pseudo;
    var len := UDP_LEN + |payload|;
    var zero := UdpHeader(sport, dport, len, 0);
    var c := UdpSum(r.src, r.dst, zero, payload);
    var uh := UdpHeader(sport, dport, len, c);
    assert uh[..6] == zero[..6] && ReadBe16(uh, 4) == ReadBe16(zero, 4);
    assert ReadLe16(uh, 6) == c;
  }

  /** Where everything lies in the sent frame: section 3.1 of RFC 791 and the format of RFC 768, but for the checksums' byte order. */
  lemma WireLayout(r: Route, sport: nat, dport: nat, payload: seq<byte>)
    requires r.Ok() && sport <= ONES && dport <= ONES && |payload| + UDP_LEN <= ONES
    ensures var f := Frame(r, sport, dport, payload);
            && |f| == 42 + |payload| && f[0..6] == r.dstMac && f[6..12] == r.srcMac && f[12] == 8 && f[13] == 0
            && f[14] == 0x45 && f[15] == 0 && ReadBe16(f, 16) == (28 + |payload|) % 65536 && f[18] == 0 && f[19] == 0
            && f[20] == 0x40 && f[21] == 0 && f[22] == 64 && f[23] == 17
            && ReadBe32(f, 26) == r.src && ReadBe32(f, 30) == r.dst
            && ReadBe16(f, 34) == sport && ReadBe16(f, 36) == dport && ReadBe16(f, 38) == 8 + |payload| && f[42..] == payload
  {
    hide Cksum, UdpSum, Cleared, UdpPart;
    FrameParts(r, sport, dport, payload);
    UdpFields(r, sport, dport, payload);
    var f := Frame(r, sport, dport, payload);
    var ip, uh := IpPart(r, |payload|), UdpPart(r, sport, dport, payload);
    assert forall i :: 0 <= i < 20 ==> f[14 + i] == ip[i];
    assert forall i :: 0 <= i < 8 ==> f[34 + i] == uh[i];
  }

  /** What is sent passes every test of the receiver, reaches the addressed port, and decodes to what was sent. */
  lemma RoundTrip(r: Route, sport: nat, dport: nat, payload: seq<byte>)
    requires r.Ok() && sport <= ONES && 0 < dport < MAX_PORTS && |payload| + UDP_LEN <= ONES
    ensures Deliver(Frame(r, sport, dport, payload)) == Some(dport)
    ensures Decode(Frame(r, sport, dport, payload)) == Some(Datagram(payload, sport, r.src))
  {
    hide Cksum, UdpSum, Frame, IpPart, UdpPart, Cleared;
    var f := Frame(r, sport, dport, payload);
    var ip, uh := IpPart(r, |payload|), UdpPart(r, sport, dport, payload);
    FrameParts(r, sport, dport, payload);
    IpFields(r, |payload|);
    UdpFields(r, sport, dport, payload);
    assert forall i :: 0 <= i < 20 ==> f[14 + i] == ip[i];
    assert forall i :: 0 <= i < 8 ==> f[34 + i] == uh[i];
    ClearedPrefix(f, ip);
    assert f[42..42 + |payload|] == payload;
  }

  lemma ClearedPrefix(f: seq<byte>, ip: seq<byte>)
    requires |f| >= 34 && f[14..34] == ip
    ensures Cleared(f[14..]) == Cleared(ip)
  {
    assert f[14..][..IP_LEN] == ip;
    assert f[14..][..10] == ip[..10];
    assert f[14..][12..IP_LEN] == f[14..][..IP_LEN][12..];
    assert ip[12..IP_LEN] == ip[12..];
  }

  /** On the wire the header passes the test of RFC 1071 exactly when the two bytes of its checksum are the same. */
  lemma HeaderOnTheWire(r: Route, n: nat)
    requires r.Ok()
    ensures Cksum(IpPart(r, n)) == 0 <==> ReadLe16(IpPart(r, n), 10) == ReadBe16(IpPart(r, n), 10)
  {
    hide Cksum;
    var len := (IP_LEN + UDP_LEN + n) % 65536;
    var zero := IpHeader(len, r.src, r.dst, 0);
    var c := Cksum(zero);
    FieldInHostOrder(zero, 10);
    SwapFits(c);
    HostOrder(len, r.src, r.dst, c);
  }

  /** The words of the header that do not depend on route and length. */
  const FIXED_WORDS := 0x4500 + 0x4000 + 0x4011

  function WordsOf(v: nat): nat { v / 65536 + v % 65536 }

  lemma FourBytes(v: nat)
    requires v < U32
    ensures Sum16(Be32(v)) == WordsOf(v)
    ensures Sum16(Le32(v)) == Swap16(v / 65536) + Swap16(v % 65536)
  {
    hide Sum16, Be16, Le16, Swap16;
    Sum16Concat(Be16(v / 65536), Be16(v % 65536));
    Sum16Concat(Le16(v % 65536), Le16(v / 65536));
    TwoBytes(v / 65536);
    TwoBytes(v % 65536);
  }

  lemma TwoBytes(v: nat)
    requires v <= ONES
    ensures Sum16(Be16(v)) == v && Sum16(Le16(v)) == Swap16(v)
  {
    hide Sum16;
    OneWord(v / 256, v % 256);
    OneWord(v % 256, v / 256);
  }

  lemma HeaderSum(len: nat, src: nat, dst: nat)
    requires len <= ONES && src < U32 && dst < U32
    ensures Sum16(IpHeader(len, src, dst, 0)) == FIXED_WORDS + len + WordsOf(src) + WordsOf(dst)
  {
    hide Sum16, WordsOf, Be16, Be32, Le16;
    var a, b, c := [0x45, 0], Be16(len), [0, 0];
    var d, e, f := Be16(0x4000), [64, PROTO_UDP], Le16(0);
    Sum16Concat(a + b + c + d + e + f + Be32(src), Be32(dst));
    Sum16Concat(a + b + c + d + e + f, Be32(src));
    Sum16Concat(a + b + c + d + e, f);
    Sum16Concat(a + b + c + d, e);
    Sum16Concat(a + b + c, d);
    Sum16Concat(a + b, c);
    Sum16Concat(a, b);
    FourBytes(src);
    FourBytes(dst);
    TwoBytes(len);
    TwoBytes(0x4000);
    TwoBytes(0);
    Pairs();
  }

  lemma Pairs()
    ensures Sum16([0x45, 0]) == 0x4500 && Sum16([0, 0]) == 0 && Sum16([64, PROTO_UDP]) == 0x4011 && Swap16(0) == 0
    ensures Sum16([0, PROTO_UDP]) == PROTO_UDP
  {
    hide Sum16;
    OneWord(0x45, 0);
    OneWord(0, 0);
    OneWord(64, PROTO_UDP);
    OneWord(0, PROTO_UDP);
  }

  /** So a header passes exactly if its words, the checksum aside, add up to a multiple of 257. */
  lemma HeaderPasses(r: Route, n: nat)
    requires r.Ok()
    ensures Cksum(IpPart(r, n)) == 0 <==>
            (FIXED_WORDS + (IP_LEN + UDP_LEN + n) % 65536 + WordsOf(r.src) + WordsOf(r.dst)) % 257 == 0
  {
    hide Cksum, IpHeader, WordsOf, Sum16, Fold, Swap16;
    var len := (IP_LEN + UDP_LEN + n) % 65536;
    var zero := IpHeader(len, r.src, r.dst, 0);
    var c := Cksum(zero);
    HeaderOnTheWire(r, n);
    SwapFits(c);
    HostOrder(len, r.src, r.dst, c);
    HeaderSum(len, r.src, r.dst);
    NoWrap(zero);
    var q := FoldKeeps(Sum16(zero));
    SameBytes(c);
    Complement257(Fold(Sum16(zero)));
  }

  lemma Complement257(f: nat)
    requires f <= ONES
    ensures (ONES - f) % 257 == 0 <==> f % 257 == 0
  {
  }

  /** One that does not: a byte from 10.0.0.1 to 10.0.0.2. */
  lemma HeaderThatFails()
    ensures var r := Route([0, 0, 0, 0, 0, 1], [0, 0, 0, 0, 0, 2], 0x0A00_0001, 0x0A00_0002);
            r.Ok() && Cksum(IpPart(r, 1)) != 0
  {
    hide Cksum, IpPart;
    HeaderPasses(Route([0, 0, 0, 0, 0, 1], [0, 0, 0, 0, 0, 2], 0x0A00_0001, 0x0A00_0002), 1);
  }

  // ------------------------------------------------- the UDP checksum on the wire

  /** The pseudo header of RFC 768. */
  function WirePseudo(src: nat, dst: nat, len: nat): seq<byte>
    requires src < U32 && dst < U32 && len <= ONES
  {
    Be32(src) + Be32(dst) + [0, PROTO_UDP] + Be16(len)
  }

  function Addressed(src: nat, dst: nat, len: nat): nat { WordsOf(src) + WordsOf(dst) + len }

  /** The kernel's pseudo header has the bytes of its words swapped, all but the protocol's. */
  lemma PseudoSums(src: nat, dst: nat, len: nat) returns (m: nat)
    requires src < U32 && dst < U32 && len <= ONES
    ensures Sum16(WirePseudo(src, dst, len)) == Addressed(src, dst, len) + PROTO_UDP
    ensures Sum16(Pseudo(src, dst, len)) == 256 * Addressed(src, dst, len) - ONES * m + PROTO_UDP
  {
    hide Sum16, Be16, Be32, Le16, Le32, Swap16, WordsOf;
    var p := [0, PROTO_UDP];
    Sum16Concat(Be32(src) + Be32(dst) + p, Be16(len));
    Sum16Concat(Be32(src) + Be32(dst), p);
    Sum16Concat(Be32(src), Be32(dst));
    Sum16Concat(Le32(src) + Le32(dst) + p, Le16(len));
    Sum16Concat(Le32(src) + Le32(dst), p);
    Sum16Concat(Le32(src), Le32(dst));
    FourBytes(src);
    FourBytes(dst);
    TwoBytes(len);
    Pairs();
    var a := SwappedWords(src);
    var b := SwappedWords(dst);
    SwapIsTimes(len);
    m := a + b + len / 256;
  }

  lemma SwappedWords(v: nat) returns (m: nat)
    requires v < U32
    ensures Swap16(v / 65536) + Swap16(v % 65536) == 256 * WordsOf(v) - ONES * m
  {
    hide Swap16;
    SwapIsTimes(v / 65536);
    SwapIsTimes(v % 65536);
    m := v / 65536 / 256 + v % 65536 / 256;
  }

  /** The words of the UDP header, the protocol number and the payload. */
  function UdpWords(sport: nat, dport: nat, payload: seq<byte>): nat {
    PROTO_UDP + sport + dport + UDP_LEN + |payload| + Sum16(payload)
  }

  lemma UdpHeaderSum(sport: nat, dport: nat, len: nat, c: nat)
    requires sport <= ONES && dport <= ONES && len <= ONES && c <= ONES
    ensures Sum16(UdpHeader(sport, dport, len, c)) == sport + dport + len + Swap16(c)
  {
    hide Sum16, Be16, Le16, Swap16;
    Sum16Concat(Be16(sport) + Be16(dport) + Be16(len), Le16(c));
    Sum16Concat(Be16(sport) + Be16(dport), Be16(len));
    Sum16Concat(Be16(sport), Be16(dport));
    TwoBytes(sport);
    TwoBytes(dport);
    TwoBytes(len);
    TwoBytes(c);
  }

  /** The checksum the kernel puts in, up to multiples of 65535. */
  lemma UdpSumIs(r: Route, sport: nat, dport: nat, payload: seq<byte>) returns (c: nat, z: int)
    requires r.Ok() && sport <= ONES && dport <= ONES && |payload| + UDP_LEN <= ONES
    ensures c <= ONES && UdpPart(r, sport, dport, payload) == UdpHeader(sport, dport, UDP_LEN + |payload|, c)
    ensures c == ONES * z - 256 * Addressed(r.src, r.dst, UDP_LEN + |payload|) - UdpWords(sport, dport, payload)
  {
    hide Sum16, Pseudo, UdpHeader, Fold, Addressed, Cksum;
    var len := UDP_LEN + |payload|;
    var zero := UdpHeader(sport, dport, len, 0);
    ZeroField(sport, dport, len);
    var ph := Pseudo(r.src, r.dst, len);
    var m := PseudoSums(r.src, r.dst, len);
    UdpHeaderSum(sport, dport, len, 0);
    Sum16Concat(ph, zero + payload);
    Sum16Concat(zero, payload);
    var all := ph + zero[..6] + [0, 0] + payload;
    assert all == ph + (zero + payload);
    NoWrap(all);
    var q := FoldKeeps(Sum16(all));
    c := UdpSum(r.src, r.dst, zero, payload);
    Pairs();
    z := if Cksum(all) == 0 then 2 + q + m else 1 + q + m;
  }

  lemma ZeroField(sport: nat, dport: nat, len: nat)
    requires sport <= ONES && dport <= ONES && len <= ONES
    ensures var h := UdpHeader(sport, dport, len, 0); h[..6] + [0, 0] == h && ReadBe16(h, 4) == len
  {
  }

  lemma Divides(t: nat, x: nat, w: int)
    requires t == ONES * w - 255 * x
    ensures t % ONES == 0 <==> x % 257 == 0
  {
    if t % ONES == 0 {
      assert x == 257 * (w - t / ONES);
    }
    if x % 257 == 0 {
      assert t == ONES * (w - x / 257);
    }
  }

  /**
   A receiver that follows RFC 768 accepts the datagram exactly if the words of
   the UDP header, the protocol number and the payload add up to a multiple of
   257. The addresses do not matter: their two mistakes cancel.
   */
  lemma UdpOnTheWire(r: Route, sport: nat, dport: nat, payload: seq<byte>)
    requires r.Ok() && sport <= ONES && dport <= ONES && |payload| + UDP_LEN <= ONES
    ensures Cksum(WirePseudo(r.src, r.dst, UDP_LEN + |payload|) + UdpPart(r, sport, dport, payload) + payload) == 0 <==>
            UdpWords(sport, dport, payload) % 257 == 0
  {
    hide Sum16, WirePseudo, UdpPart, UdpHeader, Fold, Addressed, Swap16, UdpSum, Cksum;
    var len := UDP_LEN + |payload|;
    var c, z := UdpSumIs(r, sport, dport, payload);
    var m := PseudoSums(r.src, r.dst, len);
    var ph, uh := WirePseudo(r.src, r.dst, len), UdpPart(r, sport, dport, payload);
    UdpHeaderSum(sport, dport, len, c);
    WireLength(r.src, r.dst, len);
    Sum16Concat(ph, uh);
    Sum16Concat(ph + uh, payload);
    NoWrap(ph + uh + payload);
    SwapIsTimes(c);
    var a, x, t := Addressed(r.src, r.dst, len), UdpWords(sport, dport, payload), Sum16(ph + uh + payload);
    assert t == a + x + Swap16(c);
    Divides(t, x, 256 * z - a - c / 256);
    FoldOnes(t, 0);
  }

  /** One that is not accepted: a zero byte from port 1 to port 1. */
  lemma DatagramThatFails(r: Route)
    requires r.Ok()
    ensures Cksum(WirePseudo(r.src, r.dst, UDP_LEN + 1) + UdpPart(r, 1, 1, [0]) + [0]) != 0
  {
    hide Cksum, WirePseudo, UdpPart;
    UdpOnTheWire(r, 1, 1, [0]);
  }

  lemma WireLength(src: nat, dst: nat, len: nat)
    requires src < U32 && dst < U32 && len <= ONES
    ensures |WirePseudo(src, dst, len)| == 12
  {
  }

  lemma HostOrder(len: nat, src: nat, dst: nat, c: nat)
    requires len <= ONES && src < U32 && dst < U32 && c <= ONES && Swap16(c) <= ONES
    ensures IpHeader(len, src, dst, c) == PutWord(IpHeader(len, src, dst, 0), 10, Swap16(c))
    ensures ReadLe16(IpHeader(len, src, dst, c), 10) == c && ReadBe16(IpHeader(len, src, dst, c), 10) == Swap16(c)
  {
    hide IpHeader;
    SumFilledIn(len, src, dst, c);
    assert Le16(c) == [Swap16(c) / 256, Swap16(c) % 256];
  }

  // ---------------------------------------------------------------------- queues

  /** A datagram on its way to a port. */
  datatype Sent = Sent(route: Route, port: nat, payload: seq<byte>) {
    predicate Ok() { route.Ok() && port <= ONES && |payload| + UDP_LEN <= ONES }
  }

  function Frames(ds: seq<Sent>, dport: nat): (fs: seq<seq<byte>>)
    requires dport <= ONES && forall j :: 0 <= j < |ds| ==> ds[j].Ok()
    ensures |fs| == |ds|
  {
    seq(|ds|, i requires 0 <= i < |ds| && ds[i].Ok() => Frame(ds[i].route, ds[i].port, dport, ds[i].payload))
  }

  // ----------------------------------------------------------- first in, first out

  /** What happens to the sockets: a frame comes in, or a port is read. */
  datatype Event = Arrive(frame: seq<byte>) | Read(port: nat, n: nat)

  /** The frame that the event adds to p's queue, if any. */
  function Joins(p: nat, ev: Event): seq<seq<byte>> {
    if ev.Arrive? && 0 < |ev.frame| <= MBUF_MAX && Deliver(ev.frame) == Some(p) then [ev.frame] else []
  }

  /** The event takes the oldest frame from p's queue. */
  predicate Takes(q: seq<seq<byte>>, p: nat, ev: Event) {
    ev.Read? && ev.port == p && ev.n > 0 && q != []
  }

  function QueueAfter(q: seq<seq<byte>>, p: nat, ev: Event): seq<seq<byte>> {
    if Takes(q, p, ev) then q[1..] else q + Joins(p, ev)
  }

  /** The queue of p after a run of events. */
  function Queue(q: seq<seq<byte>>, p: nat, evs: seq<Event>): seq<seq<byte>> {
    if evs == [] then q else QueueAfter(Queue(q, p, evs[..|evs| - 1]), p, evs[|evs| - 1])
  }

  /** The frames that joined p's queue, in order of arrival. */
  function Arrived(p: nat, evs: seq<Event>): seq<seq<byte>> {
    if evs == [] then []
    else Arrived(p, evs[..|evs| - 1]) + Joins(p, evs[|evs| - 1])
  }

  /** What the event returns to its reader, and how much that one asked for. */
  function Reply(q: seq<seq<byte>>, p: nat, ev: Event): seq<(Option<Datagram>, nat)> {
    if Takes(q, p, ev) then [(Prefix(Decode(q[0]), ev.n), ev.n)] else []
  }

  /** What the reads of p that found something returned. */
  function Got(q: seq<seq<byte>>, p: nat, evs: seq<Event>): seq<(Option<Datagram>, nat)> {
    if evs == [] then []
    else Got(q, p, evs[..|evs| - 1]) + Reply(Queue(q, p, evs[..|evs| - 1]), p, evs[|evs| - 1])
  }

  /** The k-th of the replies `got` is the k-th of the frames `all`, up to its limit, and the frames `left` are the rest. */
  ghost predicate InOrder(all: seq<seq<byte>>, got: seq<(Option<Datagram>, nat)>, left: seq<seq<byte>>) {
    && |got| <= |all| && left == all[|got|..]
    && forall k :: 0 <= k < |got| ==> got[k].0 == Prefix(Decode(all[k]), got[k].1)
  }

  /**
   In every run of arrivals and reads, whatever happens on other ports, the
   reads that find something return the frames of their port in order of
   arrival, and what is left in the queue is the rest.
   */
  lemma {:induction false} FirstInFirstOut(q: seq<seq<byte>>, p: nat, evs: seq<Event>)
    ensures InOrder(q + Arrived(p, evs), Got(q, p, evs), Queue(q, p, evs))
  {
    hide Joins, QueueAfter, Reply, InOrder;
    if evs == [] {
      NothingYet(q);
    } else {
      var init, ev := evs[..|evs| - 1], evs[|evs| - 1];
      FirstInFirstOut(q, p, init);
      OneEvent(q + Arrived(p, init), Got(q, p, init), Queue(q, p, init), p, ev);
      assert q + (Arrived(p, init) + Joins(p, ev)) == q + Arrived(p, init) + Joins(p, ev);
    }
  }

  lemma NothingYet(q: seq<seq<byte>>)
    ensures InOrder(q + [], [], q)
  {
    assert q + [] == q && q[0..] == q;
  }

  lemma OneEvent(all: seq<seq<byte>>, got: seq<(Option<Datagram>, nat)>, left: seq<seq<byte>>, p: nat, ev: Event)
    requires InOrder(all, got, left)
    ensures InOrder(all + Joins(p, ev), got + Reply(left, p, ev), QueueAfter(left, p, ev))
  {
    hide Deliver, Decode, Prefix;
    if Takes(left, p, ev) {
      assert left[0] == all[|got|];
      assert all + [] == all && left[1..] == all[|got| + 1..];
    }
  }

  /** So datagrams sent to a port that starts empty are read in the order in which their frames came in. */
  lemma DatagramsInOrder(p: nat, evs: seq<Event>, ds: seq<Sent>, k: nat)
    requires 0 < p < MAX_PORTS && (forall j :: 0 <= j < |ds| ==> ds[j].Ok()) && Arrived(p, evs) == Frames(ds, p)
    requires k < |Got([], p, evs)|
    ensures k < |ds|
    ensures Got([], p, evs)[k].0 == Prefix(Some(Datagram(ds[k].payload, ds[k].port, ds[k].route.src)), Got([], p, evs)[k].1)
  {
    hide Frame, Decode, Queue, Got, Arrived;
    FirstInFirstOut([], p, evs);
    assert [] + Arrived(p, evs) == Arrived(p, evs);
    RoundTrip(ds[k].route, ds[k].port, p, ds[k].payload);
  }

  class UdpNet {
    /** For every bound port, the frames that wait to be read. */
    var queues: map<nat, seq<seq<byte>>>

    constructor ()
      ensures queues == map[]
    {
      queues := map[];
    }

    method Bind(port: nat) returns (ok: bool)
      modifies this
      ensures ok <==> 0 < port < MAX_PORTS && port !in old(queues)
      ensures queues == if ok then old(queues)[port := []] else old(queues)
    {
      if port == 0 || port >= MAX_PORTS || port in queues {
        return false;
      }
      queues := queues[port := []];
      return true;
    }

    /** Sends a datagram: its frame, or none for an empty or oversized payload or a port out of range. */
    method SendTo(r: Route, sport: nat, dport: nat, payload: seq<byte>) returns (frame: Option<seq<byte>>)
      requires r.Ok() && sport <= ONES && dport <= ONES
      ensures frame == if payload == [] || |payload| > ONES - UDP_LEN || r.dst == 0 || dport == 0 || dport >= MAX_PORTS then None
                       else Some(Frame(r, sport, dport, payload))
    {
      hide Frame;
      if |payload| == 0 || |payload| > ONES - UDP_LEN || r.dst == 0 || dport == 0 || dport >= MAX_PORTS {
        return None;
      }
      var buffer := BuildFrame(r, sport, dport, payload);
      return Some(buffer[..]);
    }

    /** A frame comes in: it joins the queue of its port, if it passes the tests and the port is bound. */
    method Ingress(frame: seq<byte>) returns (ok: bool)
      modifies this
      ensures ok <==> 0 < |frame| <= MBUF_MAX
      ensures queues == if ok && Deliver(frame).Some? && Deliver(frame).value in old(queues)
                        then old(queues)[Deliver(frame).value := old(queues)[Deliver(frame).value] + [frame]] else old(queues)
    {
      hide Cksum, Cleared;
      if |frame| == 0 || |frame| > MBUF_MAX {
        return false;
      }
      ok := true;
      if |frame| < ETH_LEN + IP_LEN || ReadBe16(frame, 12) != ETHERTYPE_IP {
        return;
      }
      var ihl := 4 * (frame[ETH_LEN] % 16);
      if ihl < IP_LEN || |frame| < ETH_LEN + ihl {
        return;
      }
      var sum := InCksum(Cleared(frame[ETH_LEN..]));
      if sum != ReadLe16(frame, ETH_LEN + 10) || frame[ETH_LEN + 9] != PROTO_UDP || |frame| < ETH_LEN + ihl + UDP_LEN {
        return;
      }
      var port := ReadBe16(frame, ETH_LEN + ihl + 2);
      if port == 0 || port >= MAX_PORTS {
        return;
      }
      if port in queues {
        queues := queues[port := queues[port] + [frame]];
      }
    }

    /** Takes the oldest frame of a port and reads up to n bytes of it; a bad frame is dropped. */
    method Receive(port: nat, n: nat) returns (d: Option<Datagram>)
      requires port in queues
      modifies this
      ensures n == 0 || old(queues)[port] == [] ==> d == None && queues == old(queues)
      ensures n > 0 && old(queues)[port] != [] ==>
                && queues == old(queues)[port := old(queues)[port][1..]]
                && d == Prefix(Decode(old(queues)[port][0]), n)
    {
      hide Cksum, Cleared, UdpSum;
      if n == 0 || queues[port] == [] {
        return None;
      }
      var frame := queues[port][0];
      queues := queues[port := queues[port][1..]];
      if |frame| < ETH_LEN + IP_LEN + UDP_LEN || ReadBe16(frame, 12) != ETHERTYPE_IP {
        return None;
      }
      var ihl := 4 * (frame[ETH_LEN] % 16);
      if ihl < IP_LEN || |frame| < ETH_LEN + ihl + UDP_LEN {
        return None;
      }
      var sum := InCksum(Cleared(frame[ETH_LEN..]));
      if sum != ReadLe16(frame, ETH_LEN + 10) {
        return None;
      }
      var at := ETH_LEN + ihl;
      var len := ReadBe16(frame, at + 4);
      if len < UDP_LEN || at + len > |frame| {
        return None;
      }
      var payload := frame[at + UDP_LEN..at + len];
      var src := ReadBe32(frame, ETH_LEN + 12);
      if ReadLe16(frame, at + 6) != 0 {
        var c := UdpChecksum(src, ReadBe32(frame, ETH_LEN + 16), frame[at..at + UDP_LEN], payload);
        if c != ReadLe16(frame, at + 6) {
          return None;
        }
      }
      return Some(Datagram(if |payload| < n then payload else payload[..n], ReadBe16(frame, at), src));
    }

    /** One event, on whatever port. */
    method Handle(ev: Event) returns (d: Option<Datagram>)
      requires ev.Read? ==> ev.port in queues
      modifies this
      ensures queues.Keys == old(queues).Keys
      ensures forall b :: b in queues ==> queues[b] == QueueAfter(old(queues)[b], b, ev)
      ensures ev.Read? && Takes(old(queues)[ev.port], ev.port, ev) ==> d == Prefix(Decode(old(queues)[ev.port][0]), ev.n)
    {
      hide Decode, Deliver, Prefix;
      match ev {
        case Arrive(frame) =>
          var _ := Ingress(frame);
          d := None;
        case Read(port, n) =>
          d := Receive(port, n);
      }
    }

    /** Carries out a run of events: every queue and every answer is as the run says. */
    method Play(evs: seq<Event>, p: nat) returns (got: seq<(Option<Datagram>, nat)>)
      requires p in queues && forall i :: 0 <= i < |evs| && evs[i].Read? ==> evs[i].port in queues
      modifies this
      ensures queues.Keys == old(queues).Keys
      ensures forall b :: b in queues ==> queues[b] == Queue(old(queues)[b], b, evs)
      ensures got == Got(old(queues)[p], p, evs)
      ensures InOrder(old(queues)[p] + Arrived(p, evs), got, queues[p])
    {
      hide Decode, QueueAfter, Prefix, Joins, InOrder;
      got := [];
      assert evs[..0] == [];
      for i := 0 to |evs|
        invariant queues.Keys == old(queues).Keys
        invariant forall b :: b in queues ==> queues[b] == Queue(old(queues)[b], b, evs[..i])
        invariant got == Got(old(queues)[p], p, evs[..i])
      {
        assert evs[..i + 1][..i] == evs[..i] && evs[..i + 1][i] == evs[i];
        var taken := Takes(queues[p], p, evs[i]);
        var d := Handle(evs[i]);
        if taken {
          got := got + [(d, evs[i].n)];
        }
      }
      assert evs[..|evs|] == evs;
      FirstInFirstOut(old(queues)[p], p, evs);
    }

    /** From one socket to another on the same machine: once what was in line before is read, what was sent is read. */
    method SendAndReceive(r: Route, sport: nat, dport: nat, payload: seq<byte>, n: nat) returns (d: Option<Datagram>)
      requires r.Ok() && r.dst != 0 && sport <= ONES && 0 < dport < MAX_PORTS && 0 < |payload| <= MBUF_MAX - 42 && n > 0
      requires dport in queues
      modifies this
      ensures d == Some(Datagram(if |payload| < n then payload else payload[..n], sport, r.src))
      ensures queues == old(queues)[dport := []]
    {
      hide Frame, Decode, Deliver;
      RoundTrip(r, sport, dport, payload);
      FrameParts(r, sport, dport, payload);
      var f := SendTo(r, sport, dport, payload);
      var before := |queues[dport]|;
      var _ := Ingress(f.value);
      ghost var line := queues[dport];
      for i := 0 to before
        invariant dport in queues && queues == old(queues)[dport := line[i..]]
      {
        var _ := Receive(dport, n);
      }
      d := Receive(dport, n);
    }
  }

  /** As much of a datagram as the reader's buffer holds. */
  function Prefix(d: Option<Datagram>, n: nat): Option<Datagram> {
    if d.None? || |d.value.payload| < n then d else Some(d.value.(payload := d.value.payload[..n]))
  }
}
