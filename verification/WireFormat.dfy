/** The octets on the wire, as BEP 3 and BEP 6 lay them out, stated without the program's own reader. */
module WireFormat {
  import opened Options
  import opened Bytes
  import opened Wire
  import opened Messages

  /** The number that octets denote in network order: each octet weighs 256 times the next one. */
  function Number(s: seq<Octet>): int {
    if s == [] then 0 else Number(s[..|s| - 1]) * 256 + s[|s| - 1] as int
  }

  lemma NumberOfFour(a: Octet, b: Octet, c: Octet, d: Octet)
    ensures Number([a, b, c, d]) == a as int * 0x100_0000 + b as int * 0x1_0000 + c as int * 0x100 + d as int
  {
    assert [a, b, c, d][..3] == [a, b, c] && [a, b, c][..2] == [a, b] && [a, b][..1] == [a] && [a][..0] == [];
    assert Number([a]) == a as int;
    assert Number([a, b]) == a as int * 256 + b as int;
    assert Number([a, b, c]) == (a as int * 256 + b as int) * 256 + c as int;
  }

  /** htonl and ntohl: the four octets denote the number. */
  lemma NetworkOrder(x: U32, s: seq<Octet>)
    requires |s| == 4
    ensures Number(Be32(x)) == x && FromBe32(s) == Number(s)
  {
    var o := Be32(x);
    NumberOfFour(o[0], o[1], o[2], o[3]);
    assert o == [o[0], o[1], o[2], o[3]];
    Be32RoundTrip(x);
    NumberOfFour(s[0], s[1], s[2], s[3]);
    assert s == [s[0], s[1], s[2], s[3]];
  }

  /** A number below 256 is its last octet. */
  lemma SmallNumber(x: Octet)
    ensures Be32(x) == [0, 0, 0, x]
  {}

  /** Length prefix, id and three numbers. */
  ghost predicate ThreeNumbers(e: seq<Octet>, id: Octet, i: U32, b: U32, l: U32) {
    |e| == 17 && e[..5] == [0, 0, 0, 13, id] && Number(e[5..9]) == i && Number(e[9..13]) == b && Number(e[13..17]) == l
  }

  lemma ThreeFieldsFormat(id: Octet, i: U32, b: U32, l: U32)
    ensures var body := [id] + Be32(i) + Be32(b) + Be32(l); |body| == 13 && ThreeNumbers(Be32(13) + body, id, i, b, l)
  {
    hide Be32, Number;
    SmallNumber(13);
    NetworkOrder(i, Be32(i)); NetworkOrder(b, Be32(b)); NetworkOrder(l, Be32(l));
    var e := Be32(13) + ([id] + Be32(i) + Be32(b) + Be32(l));
    assert e[5..9] == Be32(i) && e[9..13] == Be32(b) && e[13..17] == Be32(l);
    assert e[..5] == [0, 0, 0, 13, id];
  }

  /** Every message, octet by octet: length prefix, id, and fields in network order. */
  ghost predicate Formatted(m: Message, e: seq<Octet>) {
    match m
    case KeepAlive => e == [0, 0, 0, 0]
    case Choke => e == [0, 0, 0, 1, 0]
    case Unchoke => e == [0, 0, 0, 1, 1]
    case Interested => e == [0, 0, 0, 1, 2]
    case HaveAll => e == [0, 0, 0, 1, 14]
    case HaveNone => e == [0, 0, 0, 1, 15]
    case Have(i) => |e| == 9 && e[..5] == [0, 0, 0, 5, 4] && Number(e[5..9]) == i
    case Bitfield(bits) => |e| == 5 + |bits| && Number(e[..4]) == 1 + |bits| && e[4] == 5 && e[5..] == bits
    case Request(i, b, l) => ThreeNumbers(e, 6, i, b, l)
    case Piece(i, b, block) =>
      && |e| == 13 + |block| && Number(e[..4]) == 9 + |block| && e[4] == 7
      && Number(e[5..9]) == i && Number(e[9..13]) == b && e[13..] == block
    case Cancel(i, b, l) => ThreeNumbers(e, 8, i, b, l)
    case Reject(i, b, l) => ThreeNumbers(e, 16, i, b, l)
  }

  lemma HaveFormat(i: U32)
    ensures Formatted(Have(i), Be32(5) + ([4] + Be32(i)))
  {
    hide Be32, Number;
    var e := Be32(5) + ([4] + Be32(i));
    SmallNumber(5);
    NetworkOrder(i, Be32(i));
    assert e[..5] == [0, 0, 0, 5, 4] && e[5..9] == Be32(i);
  }

  lemma BitfieldFormat(bits: seq<Octet>, n: U32)
    requires n == 1 + |bits|
    ensures Formatted(Bitfield(bits), Be32(n) + ([5] + bits))
  {
    hide Be32, Number;
    var e := Be32(n) + ([5] + bits);
    NetworkOrder(n, Be32(0));
    assert e[..4] == Be32(n) && e[5..] == bits;
  }

  lemma PieceFormat(i: U32, b: U32, block: seq<Octet>, n: U32)
    requires n == 9 + |block|
    ensures Formatted(Piece(i, b, block), Be32(n) + ([7] + Be32(i) + Be32(b) + block))
  {
    hide Be32, Number;
    var e := Be32(n) + ([7] + Be32(i) + Be32(b) + block);
    NetworkOrder(n, Be32(0)); NetworkOrder(i, Be32(i)); NetworkOrder(b, Be32(b));
    assert e[..4] == Be32(n) && e[5..9] == Be32(i) && e[9..13] == Be32(b) && e[13..] == block;
  }

  lemma EncodeFormat(m: Message)
    requires WithinLimit(m)
    ensures Formatted(m, Encode(m))
  {
    hide Be32, Number, ThreeNumbers;
    match m {
      case Have(i) => HaveFormat(i);
      case Bitfield(bits) => BitfieldFormat(bits, |Body(m)|);
      case Piece(i, b, block) => PieceFormat(i, b, block, |Body(m)|);
      case Request(i, b, l) => ThreeFieldsFormat(6, i, b, l);
      case Cancel(i, b, l) => ThreeFieldsFormat(8, i, b, l);
      case Reject(i, b, l) => ThreeFieldsFormat(16, i, b, l);
      case _ => SmallNumber(0); SmallNumber(1);
    }
  }

  const PSTR := "BitTorrent protocol"

  /** The handshake that the program sends: 19, the protocol string, reserved octets with the fast bit, info hash, peer id. */
  lemma HandshakeFormat(infoHash: InfoHash, id: Messages.PeerId)
    ensures var e := HandshakeBytes(FAST_RESERVED, infoHash, id);
      && |e| == 68 && e[0] == 19 && (forall i :: 0 <= i < 19 ==> e[1 + i] == PSTR[i] as int)
      && e[20..28] == [0, 0, 0, 0, 0, 0, 0, 4] && e[28..48] == infoHash && e[48..68] == id
  {
    var e := HandshakeBytes(FAST_RESERVED, infoHash, id);
    ProtocolString();
    assert e[20..28] == FAST_RESERVED && e[28..48] == infoHash && e[48..68] == id;
    forall i | 0 <= i < 19 ensures e[1 + i] == PSTR[i] as int {
      assert e[1 + i] == PROTOCOL[i];
    }
  }

  lemma ProtocolString()
    ensures |PSTR| == |PROTOCOL| == 19 && forall i :: 0 <= i < 19 ==> PROTOCOL[i] == PSTR[i] as int
  {}

  /** A length prefix above 16 MB kills the peer, and no smaller one does. */
  lemma LengthLimit(s: Rx, prefix: seq<Octet>, rest: seq<Octet>, infoHash: InfoHash)
    requires WellFormed(s) && Idle(s) && |prefix| == 4
    ensures Entry(s, prefix + rest, infoHash).2 == if Number(prefix) > 0xFFFFFF then [Kill] else []
  {
    hide Number;
    NetworkOrder(0, prefix);
    assert (prefix + rest)[..4] == prefix && [] + prefix == prefix;
  }

  /** What is left out of the messages received is exactly the keep-alives: without any, all arrive in order. */
  lemma {:induction false} OnlyKeepAlivesGo(ms: seq<Message>)
    ensures Some(KeepAlive) !in WithoutKeepAlives(ms)
    ensures KeepAlive !in ms ==>
      |WithoutKeepAlives(ms)| == |ms| && forall i :: 0 <= i < |ms| ==> WithoutKeepAlives(ms)[i] == Some(ms[i])
    decreases |ms|
  {
    if ms != [] { OnlyKeepAlivesGo(ms[1..]); }
  }

  lemma {:induction false} KeepAliveGoes(a: seq<Message>, b: seq<Message>)
    ensures WithoutKeepAlives(a + [KeepAlive] + b) == WithoutKeepAlives(a + b)
    decreases |a|
  {
    if a == [] {
      assert (a + [KeepAlive] + b)[1..] == b && a + b == b;
    } else {
      assert (a + [KeepAlive] + b)[1..] == a[1..] + [KeepAlive] + b && (a + b)[1..] == a[1..] + b;
      KeepAliveGoes(a[1..], b);
    }
  }
}
