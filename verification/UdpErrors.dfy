/**
 What the receiver makes of a frame in which one byte was changed on the way.
 The tests find every such change, but for the stations, which they do not look
 at, some lengths, and a checksum that became zero: those are told exactly.
 */
module UdpErrors {
  import opened Common
  import opened InetChecksum
  import opened UdpSockets

  // ----------------------------------------------------------- one byte in a sum

  /** A byte counts 256 times in even places and once in odd ones. */
  function Weight(i: nat): nat { if i % 2 == 0 then 256 else 1 }

  lemma {:induction false} SumOfChanged(s: seq<byte>, i: nat, b: byte)
    requires i < |s|
    ensures Sum16(s[i := b]) == Sum16(s) + (b as int - s[i] as int) * Weight(i)
  {
    var t := s[i := b];
    if i >= 2 {
      SumOfChanged(s[2..], i - 2, b);
      assert t[2..] == s[2..][i - 2 := b];
      assert |s| > 1 && t[0] == s[0] && t[1] == s[1];
    } else if |s| > 1 {
      assert t[2..] == s[2..];
    }
  }

  /** Sums that differ by a multiple of 65535 have the same checksum. */
  ghost predicate Same(a: int, b: int) { exists k: int :: a == Plus(b, k) }

  function Plus(b: int, k: int): int { b + k * ONES }

  lemma SameAsItself(a: int)
    ensures Same(a, a)
  {
    assert a == Plus(a, 0);
  }

  /** So one changed byte is never missed. */
  lemma SumChanges(s: seq<byte>, i: nat, b: byte)
    requires i < |s| && b != s[i]
    ensures !Same(Sum16(s[i := b]), Sum16(s))
  {
    hide Sum16;
    SumOfChanged(s, i, b);
  }

  lemma ChecksumsDiffer(s: seq<byte>, t: seq<byte>)
    requires |s| < 0x1_FFFF && |t| < 0x1_FFFF && !Same(Sum16(t), Sum16(s))
    ensures Cksum(s) != Cksum(t)
  {
    hide Sum16, Fold, Cksum;
    NoWrap(s);
    NoWrap(t);
    var p: int := FoldKeeps(Sum16(s));
    var q: int := FoldKeeps(Sum16(t));
    assert Fold(Sum16(s)) == Fold(Sum16(t)) ==> Sum16(t) == Plus(Sum16(s), q - p);
  }

  // -------------------------------------------------------------- the IP header

  /** What is tested of a header depends on the first 34 bytes only. */
  lemma SameHeader(f: seq<byte>, f': seq<byte>)
    requires |f'| == |f| >= 42 && f'[..34] == f[..34]
    ensures HeaderLen(f') == HeaderLen(f) && GoodIp(f') == GoodIp(f)
    ensures ReadBe32(f', 26) == ReadBe32(f, 26) && ReadBe32(f', 30) == ReadBe32(f, 30)
  {
    hide Cksum, Cleared;
    assert forall i :: 0 <= i < 34 ==> f'[..34][i] == f[..34][i];
    assert f[14..34] == f[..34][14..] && f'[14..34] == f'[..34][14..];
    ClearedPrefix(f, f[14..34]);
    ClearedPrefix(f', f[14..34]);
  }

  /** A changed header byte is found, be it in the checksum itself. */
  lemma HeaderChanged(f: seq<byte>, i: nat, b: byte)
    requires |f| >= 42 && GoodIp(f) && 14 <= i < 34 && b != f[i]
    ensures !GoodIp(f[i := b])
  {
    hide Cksum, Sum16;
    var f': seq<byte> := f[i := b];
    var ip, ip' := Cleared(f[14..]), Cleared(f'[14..]);
    if i == 24 || i == 25 {
      assert f[14..][..10] == f'[14..][..10] && f[14..][12..20] == f'[14..][12..20];
      assert ip' == ip;
      StoredChanged(f, 24, i, b);
    } else {
      assert ip' == ip[i - 14 := b] && ip[i - 14] == f[i];
      SumChanges(ip, i - 14, b);
      ChecksumsDiffer(ip, ip');
    }
  }

  lemma StoredChanged(f: seq<byte>, k: nat, i: nat, b: byte)
    requires k + 1 < |f| && k <= i <= k + 1 && b != f[i]
    ensures ReadLe16(f[i := b], k) != ReadLe16(f, k) && ReadBe16(f[i := b], k) != ReadBe16(f, k)
  {
  }

  // -------------------------------------------------------------- the UDP part

  /** What the UDP checksum is taken over. */
  function Summed(src: nat, dst: nat, uh: seq<byte>, payload: seq<byte>): seq<byte>
    requires src < U32 && dst < U32 && |uh| == UDP_LEN
  {
    Pseudo(src, dst, ReadBe16(uh, 4)) + uh[..6] + [0, 0] + payload
  }

  /** UDP checksums are equal exactly if the sums are the same. */
  lemma UdpSumsAgree(src: nat, dst: nat, uh: seq<byte>, p: seq<byte>, uh': seq<byte>, p': seq<byte>)
    requires src < U32 && dst < U32 && |uh| == |uh'| == UDP_LEN && |p| <= ONES && |p'| <= ONES
    ensures UdpSum(src, dst, uh, p) == UdpSum(src, dst, uh', p') <==>
            Same(Sum16(Summed(src, dst, uh', p')), Sum16(Summed(src, dst, uh, p)))
  {
    hide Sum16, Pseudo, Fold, Cksum;
    var s, s' := Summed(src, dst, uh, p), Summed(src, dst, uh', p');
    NoWrap(s);
    NoWrap(s');
    var q: int := FoldKeeps(Sum16(s));
    var q': int := FoldKeeps(Sum16(s'));
    var k, k' := if Cksum(s) == 0 then q + 2 else q + 1, if Cksum(s') == 0 then q' + 2 else q' + 1;
    if UdpSum(src, dst, uh, p) == UdpSum(src, dst, uh', p') {
      assert Sum16(s') == Plus(Sum16(s), k' - k);
    }
  }

  /** The sum in terms of the fields: a constant of the route and the ports, 257 times the length, and the payload. */
  lemma SummedWords(src: nat, dst: nat, uh: seq<byte>, payload: seq<byte>) returns (m: nat)
    requires src < U32 && dst < U32 && |uh| == UDP_LEN
    ensures Sum16(Summed(src, dst, uh, payload)) ==
            256 * (WordsOf(src) + WordsOf(dst)) + PROTO_UDP + ReadBe16(uh, 0) + ReadBe16(uh, 2) + 257 * ReadBe16(uh, 4)
            + Sum16(payload) - ONES * m
  {
    hide Sum16, Pseudo, WordsOf;
    var len := ReadBe16(uh, 4);
    m := PseudoSums(src, dst, len);
    var ph, h := Pseudo(src, dst, len), uh[..6] + [0, 0];
    HeaderWords(uh);
    Sum16Concat(ph, h);
    Sum16Concat(ph + h, payload);
    assert ph + h + payload == ph + uh[..6] + [0, 0] + payload;
  }

  lemma HeaderWords(uh: seq<byte>)
    requires |uh| == UDP_LEN
    ensures Sum16(uh[..6] + [0, 0]) == ReadBe16(uh, 0) + ReadBe16(uh, 2) + ReadBe16(uh, 4)
  {
    hide Sum16;
    var h := uh[..6] + [0, 0];
    assert h == [uh[0], uh[1]] + [uh[2], uh[3]] + [uh[4], uh[5]] + [0, 0];
    Sum16Concat([uh[0], uh[1]] + [uh[2], uh[3]] + [uh[4], uh[5]], [0, 0]);
    Sum16Concat([uh[0], uh[1]] + [uh[2], uh[3]], [uh[4], uh[5]]);
    Sum16Concat([uh[0], uh[1]], [uh[2], uh[3]]);
    OneWord(uh[0], uh[1]);
    OneWord(uh[2], uh[3]);
    OneWord(uh[4], uh[5]);
    OneWord(0, 0);
  }

  /** A frame whose IP header is good and has no options. */
  predicate PlainIp(f: seq<byte>) { |f| >= 42 && GoodIp(f) && HeaderLen(f) == IP_LEN }

  /** How such a frame is read, byte by byte. */
  lemma PlainDecode(f: seq<byte>)
    requires PlainIp(f)
    ensures var len, sum := ReadBe16(f, 38), ReadLe16(f, 40);
            Decode(f) == if len < UDP_LEN || 34 + len > |f| then None
                         else if sum != 0 && UdpSum(ReadBe32(f, 26), ReadBe32(f, 30), f[34..42], f[42..34 + len]) != sum then None
                         else Some(Datagram(f[42..34 + len], ReadBe16(f, 34), ReadBe32(f, 26)))
  {
    hide UdpSum, GoodIp;
  }

  /** A frame as it is sent: what is known of its bytes. */
  lemma SentBytes(r: Route, sport: nat, dport: nat, payload: seq<byte>)
    requires r.Ok() && sport <= ONES && dport <= ONES && |payload| + UDP_LEN <= ONES
    ensures var f := Frame(r, sport, dport, payload);
            && PlainIp(f) && |f| == 42 + |payload| && f[42..] == payload && ReadBe16(f, 12) == ETHERTYPE_IP
            && ReadBe32(f, 26) == r.src && ReadBe32(f, 30) == r.dst && f[23] == PROTO_UDP
            && ReadBe16(f, 34) == sport && ReadBe16(f, 36) == dport && ReadBe16(f, 38) == UDP_LEN + |payload|
            && ReadLe16(f, 40) == UdpSum(r.src, r.dst, f[34..42], payload)
  {
    hide Cksum, UdpSum, Frame, IpPart, UdpPart, Cleared;
    var f := Frame(r, sport, dport, payload);
    var ip, uh := IpPart(r, |payload|), UdpPart(r, sport, dport, payload);
    FrameParts(r, sport, dport, payload);
    IpFields(r, |payload|);
    UdpFields(r, sport, dport, payload);
    assert forall i :: 0 <= i < 20 ==> f[14 + i] == ip[i];
    assert forall i :: 0 <= i < 8 ==> f[34 + i] == uh[i];
    ClearedPrefix(f, ip);
  }

  /** Such a byte of a frame is a byte of what the checksum is taken over. */
  lemma SummedChanged(src: nat, dst: nat, f: seq<byte>, i: nat, b: byte)
    requires src < U32 && dst < U32 && |f| >= 42 && (34 <= i < 38 || 42 <= i < |f|)
    ensures var s, f' := Summed(src, dst, f[34..42], f[42..]), f[i := b];
            i - 22 < |s| && s[i - 22] == f[i] && Summed(src, dst, f'[34..42], f'[42..]) == s[i - 22 := b]
  {
    hide Pseudo;
    var f': seq<byte> := f[i := b];
    assert ReadBe16(f'[34..42], 4) == ReadBe16(f[34..42], 4);
    assert f'[34..42][..6] + [0, 0] + f'[42..] == (f[34..42][..6] + [0, 0] + f[42..])[i - 34 := b];
  }

  /** Ports and payload: a changed byte is a changed byte of what the checksum is taken over. */
  lemma ContentChanged(r: Route, sport: nat, dport: nat, payload: seq<byte>, i: nat, b: byte)
    requires r.Ok() && sport <= ONES && dport <= ONES && |payload| + UDP_LEN <= ONES
    requires 34 <= i < 38 || 42 <= i < 42 + |payload|
    requires |Frame(r, sport, dport, payload)| == 42 + |payload| && b != Frame(r, sport, dport, payload)[i]
    ensures Decode(Frame(r, sport, dport, payload)[i := b]) == None
  {
    hide Cksum, UdpSum, Frame, Sum16, GoodIp, Decode, Summed;
    var f := Frame(r, sport, dport, payload);
    SentBytes(r, sport, dport, payload);
    var f': seq<byte> := f[i := b];
    assert f'[..34] == f[..34];
    SameHeader(f, f');
    PlainDecode(f');
    var uh: seq<byte>, uh': seq<byte>, p': seq<byte> := f[34..42], f'[34..42], f'[42..];
    assert f'[42..34 + ReadBe16(f', 38)] == p';
    var s := Summed(r.src, r.dst, uh, payload);
    SummedChanged(r.src, r.dst, f, i, b);
    SumChanges(s, i - 22, b);
    UdpSumsAgree(r.src, r.dst, uh, payload, uh', p');
  }

  /** The checksum itself: a changed one is found, unless it says that there is none. */
  lemma ChecksumChanged(r: Route, sport: nat, dport: nat, payload: seq<byte>, i: nat, b: byte)
    requires r.Ok() && sport <= ONES && dport <= ONES && |payload| + UDP_LEN <= ONES && 40 <= i < 42
    requires |Frame(r, sport, dport, payload)| == 42 + |payload| && b != Frame(r, sport, dport, payload)[i]
    ensures var f' := Frame(r, sport, dport, payload)[i := b];
            Decode(f') == if f'[40] == 0 && f'[41] == 0 then Some(Datagram(payload, sport, r.src)) else None
  {
    hide Cksum, UdpSum, Frame, Sum16, GoodIp, Decode, Pseudo;
    var f := Frame(r, sport, dport, payload);
    SentBytes(r, sport, dport, payload);
    var f': seq<byte> := f[i := b];
    assert f'[..34] == f[..34];
    SameHeader(f, f');
    PlainDecode(f');
    assert f'[42..34 + ReadBe16(f', 38)] == f'[42..] == payload;
    var uh: seq<byte>, uh': seq<byte> := f[34..42], f'[34..42];
    assert uh'[..6] == uh[..6];
    assert Summed(r.src, r.dst, uh', payload) == Summed(r.src, r.dst, uh, payload);
    UdpSumsAgree(r.src, r.dst, uh, payload, uh', payload);
    SameAsItself(Sum16(Summed(r.src, r.dst, uh, payload)));
    StoredChanged(f, 40, i, b);
  }

  /** A shorter length passes when what it cuts off and the two places where it is added make up for each other. */
  ghost predicate LengthPasses(payload: seq<byte>, n: nat) {
    && UDP_LEN <= n <= UDP_LEN + |payload|
    && Same(257 * n + Sum16(payload[..n - UDP_LEN]), 257 * (UDP_LEN + |payload|) + Sum16(payload))
  }

  lemma LengthChanged(r: Route, sport: nat, dport: nat, payload: seq<byte>, i: nat, b: byte)
    requires r.Ok() && sport <= ONES && dport <= ONES && |payload| + UDP_LEN <= ONES && 38 <= i < 40
    requires |Frame(r, sport, dport, payload)| == 42 + |payload| && b != Frame(r, sport, dport, payload)[i]
    ensures var f' := Frame(r, sport, dport, payload)[i := b];
            var n := ReadBe16(f', 38);
            Decode(f') == if LengthPasses(payload, n) then Some(Datagram(payload[..n - UDP_LEN], sport, r.src)) else None
  {
    hide Cksum, UdpSum, Frame, Sum16, GoodIp, Decode, Pseudo, Summed, Same;
    var f := Frame(r, sport, dport, payload);
    SentBytes(r, sport, dport, payload);
    var f': seq<byte> := f[i := b];
    assert f'[..34] == f[..34];
    SameHeader(f, f');
    PlainDecode(f');
    var n := ReadBe16(f', 38);
    if UDP_LEN <= n <= UDP_LEN + |payload| {
      var uh: seq<byte>, uh': seq<byte>, p': seq<byte> := f[34..42], f'[34..42], payload[..n - UDP_LEN];
      assert f'[42..34 + n] == p' by {
        assert f'[42..] == payload;
        assert f'[42..34 + n] == f'[42..][..n - UDP_LEN];
      }
      SumsOfLengths(r.src, r.dst, uh, payload, uh', p');
      UdpSumsAgree(r.src, r.dst, uh, payload, uh', p');
    }
  }

  lemma SumsOfLengths(src: nat, dst: nat, uh: seq<byte>, p: seq<byte>, uh': seq<byte>, p': seq<byte>)
    requires src < U32 && dst < U32 && |uh| == |uh'| == UDP_LEN && uh'[..4] == uh[..4]
    ensures Same(Sum16(Summed(src, dst, uh', p')), Sum16(Summed(src, dst, uh, p))) <==>
            Same(257 * ReadBe16(uh', 4) + Sum16(p'), 257 * ReadBe16(uh, 4) + Sum16(p))
  {
    hide Sum16, Summed, WordsOf;
    var m := SummedWords(src, dst, uh, p);
    var m' := SummedWords(src, dst, uh', p');
    assert forall k :: 0 <= k < 4 ==> uh'[..4][k] == uh[..4][k];
    SameParts(256 * (WordsOf(src) + WordsOf(dst)) + PROTO_UDP + ReadBe16(uh, 0) + ReadBe16(uh, 2),
              257 * ReadBe16(uh, 4) + Sum16(p), m, 257 * ReadBe16(uh', 4) + Sum16(p'), m');
  }

  lemma SameParts(c: int, x: int, m: int, y: int, n: int)
    ensures Same(c + y - ONES * n, c + x - ONES * m) <==> Same(y, x)
  {
    if Same(y, x) {
      var k :| y == Plus(x, k);
      assert c + y - ONES * n == Plus(c + x - ONES * m, k + m - n);
    }
    if Same(c + y - ONES * n, c + x - ONES * m) {
      var k :| c + y - ONES * n == Plus(c + x - ONES * m, k);
      assert y == Plus(x, k + n - m);
    }
  }

  // ------------------------------------------------------------------- the results

  /** All frames as they are sent, and every place where one byte is changed. */
  lemma OneByteChanged(r: Route, sport: nat, dport: nat, payload: seq<byte>, i: nat, b: byte)
    requires r.Ok() && sport <= ONES && dport <= ONES && |payload| + UDP_LEN <= ONES
    requires i < |Frame(r, sport, dport, payload)| && b != Frame(r, sport, dport, payload)[i]
    ensures var f := Frame(r, sport, dport, payload);
            var f': seq<byte> := f[i := b];
            var n := ReadBe16(f', 38);
            && |f| == 42 + |payload|
            && (i < 12 ==> Deliver(f') == Deliver(f) && Decode(f') == Some(Datagram(payload, sport, r.src)))
            && (12 <= i < 34 ==> Deliver(f') == None && Decode(f') == None)
            && (34 <= i < 38 || 42 <= i ==> Decode(f') == None)
            && (38 <= i < 40 ==> Decode(f') == if LengthPasses(payload, n) then Some(Datagram(payload[..n - 8], sport, r.src)) else None)
            && (40 <= i < 42 ==> Decode(f') == if f'[40] == 0 && f'[41] == 0 then Some(Datagram(payload, sport, r.src)) else None)
            && (34 <= i && i != 36 && i != 37 ==> Deliver(f') == Deliver(f))
  {
    hide Cksum, UdpSum, Frame, Sum16, GoodIp, Decode, LengthPasses, Deliver;
    var f := Frame(r, sport, dport, payload);
    SentBytes(r, sport, dport, payload);
    if i < 12 {
      StationChanged(r, sport, dport, payload, i, b);
      SameDelivery(f, i, b);
    } else if i < 34 {
      HeaderFound(f, i, b);
    } else {
      if 38 <= i < 40 {
        LengthChanged(r, sport, dport, payload, i, b);
      } else if 40 <= i < 42 {
        ChecksumChanged(r, sport, dport, payload, i, b);
      } else {
        ContentChanged(r, sport, dport, payload, i, b);
      }
      if i != 36 && i != 37 {
        SamePort(f, i, b);
      }
    }
  }

  lemma StationChanged(r: Route, sport: nat, dport: nat, payload: seq<byte>, i: nat, b: byte)
    requires r.Ok() && sport <= ONES && dport <= ONES && |payload| + UDP_LEN <= ONES && i < 12
    requires |Frame(r, sport, dport, payload)| == 42 + |payload|
    ensures Decode(Frame(r, sport, dport, payload)[i := b]) == Some(Datagram(payload, sport, r.src))
  {
    hide Cksum, UdpSum, Frame, GoodIp, Decode;
    var f := Frame(r, sport, dport, payload);
    SentBytes(r, sport, dport, payload);
    var f': seq<byte> := f[i := b];
    SameIp(f, i, b);
    PlainDecode(f');
    assert f'[34..42] == f[34..42];
    assert f'[42..34 + ReadBe16(f', 38)] == f'[42..] == payload;
  }

  lemma SameDelivery(f: seq<byte>, i: nat, b: byte)
    requires |f| >= 42 && i < 12
    ensures Deliver(f[i := b]) == Deliver(f)
  {
    hide GoodIp;
    SameIp(f, i, b);
  }

  lemma SameIp(f: seq<byte>, i: nat, b: byte)
    requires |f| >= 42 && i < 12
    ensures GoodIp(f[i := b]) == GoodIp(f)
  {
    hide Cksum, Cleared;
    assert f[i := b][14..] == f[14..];
  }

  lemma HeaderFound(f: seq<byte>, i: nat, b: byte)
    requires |f| >= 42 && GoodIp(f) && 12 <= i < 34 && b != f[i]
    ensures Deliver(f[i := b]) == None && Decode(f[i := b]) == None
  {
    hide Cksum, UdpSum, Cleared;
    if i < 14 {
      StoredChanged(f, 12, i, b);
    } else {
      HeaderChanged(f, i, b);
    }
  }

  lemma SamePort(f: seq<byte>, i: nat, b: byte)
    requires PlainIp(f) && 34 <= i < |f| && i != 36 && i != 37
    ensures Deliver(f[i := b]) == Deliver(f)
  {
    hide Cksum, GoodIp;
    var f': seq<byte> := f[i := b];
    assert f'[..34] == f[..34];
    SameHeader(f, f');
  }

  /** Nothing but UDP over IP reaches a socket, and only the one of the port that the frame names. */
  lemma OnlyUdpIsDelivered(f: seq<byte>, p: nat)
    requires Deliver(f) == Some(p)
    ensures |f| >= 42 && f[12] == 8 && f[13] == 0 && f[23] == 17 && 5 <= f[14] % 16
    ensures var at := 14 + 4 * (f[14] % 16) as int;
            at + 8 <= |f| && 256 * f[at + 2] as int + f[at + 3] as int == p && 0 < p < 1024
  {
    hide Cksum;
  }

  /** A length that is off and goes unseen: the datagram is read as an empty one. */
  lemma LengthThatPasses(r: Route, sport: nat, dport: nat)
    requires r.Ok() && sport <= ONES && dport <= ONES
    ensures var f := Frame(r, sport, dport, [0xFD, 0xFD]);
            |f| == 44 && f[39] == 10 && Decode(f[39 := 8]) == Some(Datagram([], sport, r.src))
  {
    hide Cksum, UdpSum, Frame, GoodIp, Decode;
    var payload: seq<byte> := [0xFD, 0xFD];
    var f := Frame(r, sport, dport, payload);
    SentBytes(r, sport, dport, payload);
    assert f[38] == 0 && f[39] == 10;
    OneWord(0xFD, 0xFD);
    LengthChanged(r, sport, dport, payload, 39, 8);
    assert ReadBe16(f[39 := 8], 38) == 8;
    assert payload[..0] == [];
    assert 257 * 8 + Sum16(payload[..0]) == Plus(257 * 10 + Sum16(payload), -1);
    assert LengthPasses(payload, 8);
  }
}
