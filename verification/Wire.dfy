/** The peer wire protocol: the resumable receiver of network_handle_peer_response and the message encoders. */
module Wire {
  import opened Sequences
  import opened Bytes

  const MAX_MESSAGE_LEN := 0xFFFFFF
  const PROTOCOL: seq<Octet> := [66, 105, 116, 84, 111, 114, 114, 101, 110, 116, 32, 112, 114, 111, 116, 111, 99, 111, 108]

  /** What the receiver hands on: a finished handshake, a whole message, or its own decision to kill the peer. */
  datatype Event =
    | Handshake(fast: bool, peerId: seq<Octet>)
    | Dispatch(id: Octet, body: seq<Octet>)
    | Kill

  /** The framing part of `struct peer`; `msg` is the filled part of the receive buffer. */
  datatype Rx = Rx(handshake1: bool, handshake2: bool, gotLen: bool, pending: nat, msgLen: nat, msg: seq<Octet>)

  type InfoHash = s: seq<Octet> | |s| == 20 witness seq(20, _ => 0)

  const FRESH := Rx(true, false, false, 0, 0, [])

  /** What every entry of the receiver keeps. */
  ghost predicate WellFormed(s: Rx) {
    && !(s.handshake1 && s.handshake2)
    && (s.pending > 0 ==> s.pending + |s.msg| == s.msgLen)
    && (s.handshake1 && s.pending > 0 ==> s.msgLen == 20)
    && (s.handshake2 ==> s.pending > 0 && s.msgLen == 48)
    && (!s.handshake1 && !s.handshake2 && s.pending > 0 ==> if s.gotLen then s.msgLen > 0 else s.msgLen == 4)
  }

  /** Between messages of an established connection. */
  ghost predicate Idle(s: Rx) { !s.handshake1 && !s.handshake2 && s.pending == 0 }

  /** Start of an entry: nothing pending means a new handshake or a new length field. */
  function Begin(s: Rx): (r: Rx)
    requires WellFormed(s)
    ensures WellFormed(r) && r.pending > 0
  {
    if s.pending > 0 then s
    else if s.handshake1 then s.(msg := [], msgLen := 20, pending := 20)
    else s.(gotLen := false, msg := [], msgLen := 4, pending := 4)
  }

  /** Everything asked for has arrived: act on it. */
  function Complete(s: Rx, infoHash: InfoHash): (r: (Rx, seq<Event>))
    requires s.pending == 0 && |s.msg| == s.msgLen
    requires !(s.handshake1 && s.handshake2)
    requires s.handshake1 ==> s.msgLen == 20
    requires s.handshake2 ==> s.msgLen == 48
    requires !s.handshake1 && !s.handshake2 ==> if s.gotLen then s.msgLen > 0 else s.msgLen == 4
    ensures WellFormed(r.0)
  {
    if s.handshake1 then
      if s.msg[0] == 19 && s.msg[1..] == PROTOCOL then
        (s.(handshake1 := false, handshake2 := true, msg := [], msgLen := 48, pending := 48), [])
      else
        (s.(handshake1 := false, handshake2 := false, gotLen := false), [Kill])
    else if s.handshake2 then
      if s.msg[8..28] != infoHash then
        (s.(handshake2 := false, gotLen := false), [Kill])
      else
        (s.(handshake2 := false, msg := []), [Handshake(s.msg[27] / 4 % 2 == 1, s.msg[28..48])])
    else if !s.gotLen then
      var len := FromBe32(s.msg);
      if len > MAX_MESSAGE_LEN then
        (s.(msgLen := len), [Kill])
      else if len == 0 then
        (s.(gotLen := true, msgLen := 0, msg := []), [])
      else
        (s.(gotLen := true, msgLen := len, msg := [], pending := len), [])
    else
      (s.(msg := []), [Dispatch(s.msg[0], s.msg)])
  }

  /** One entry of the receiver on the buffered input: new state, input left, events. */
  function Entry(s: Rx, buf: seq<Octet>, infoHash: InfoHash): (r: (Rx, seq<Octet>, seq<Event>))
    requires WellFormed(s)
    ensures WellFormed(r.0)
    ensures buf != [] ==> |r.1| < |buf|
  {
    var b := Begin(s);
    var n := if b.pending < |buf| then b.pending else |buf|;
    var read := b.(msg := b.msg + buf[..n], pending := b.pending - n);
    if read.pending > 0 then (read, buf[n..], [])
    else
      var (done, events) := Complete(read, infoHash);
      (done, buf[n..], events)
  }

  /** The receiver calls itself again while input is buffered: every entry takes at least one octet. */
  function Drive(s: Rx, buf: seq<Octet>, infoHash: InfoHash): (r: (Rx, seq<Event>))
    requires WellFormed(s)
    ensures WellFormed(r.0)
    decreases |buf|
  {
    if buf == [] then (s, [])
    else
      var (s1, rest, events) := Entry(s, buf, infoHash);
      var (s2, more) := Drive(s1, rest, infoHash);
      (s2, events + more)
  }

  /** One read event for each chunk. */
  function DriveChunks(s: Rx, chunks: seq<seq<Octet>>, infoHash: InfoHash): (r: (Rx, seq<Event>))
    requires WellFormed(s)
    ensures WellFormed(r.0)
    decreases |chunks|
  {
    if chunks == [] then (s, [])
    else
      var (s1, events) := Drive(s, chunks[0], infoHash);
      var (s2, more) := DriveChunks(s1, chunks[1..], infoHash);
      (s2, events + more)
  }

  /** A read that ends short of what is pending, followed by another, is one longer read. */
  lemma EntryResumes(s: Rx, a: seq<Octet>, b: seq<Octet>, infoHash: InfoHash)
    requires WellFormed(s) && |a| < Begin(s).pending
    ensures Entry(s, a, infoHash).1 == [] && Entry(s, a, infoHash).2 == []
    ensures b != [] ==> Entry(Entry(s, a, infoHash).0, b, infoHash) == Entry(s, a + b, infoHash)
  {
    hide Complete;
    var p := Begin(s);
    var s1 := Entry(s, a, infoHash).0;
    assert a[..|a|] == a;
    assert s1 == p.(msg := p.msg + a, pending := p.pending - |a|);
    if b != [] {
      var n := if s1.pending < |b| then s1.pending else |b|;
      assert (a + b)[..|a| + n] == a + b[..n] && (a + b)[|a| + n..] == b[n..];
      assert s1.msg + b[..n] == p.msg + (a + b[..n]);
    }
  }

  /** A read that brings everything pending does not depend on what follows. */
  lemma EntryIgnoresRest(s: Rx, a: seq<Octet>, b: seq<Octet>, infoHash: InfoHash)
    requires WellFormed(s) && Begin(s).pending <= |a|
    ensures var e, f := Entry(s, a, infoHash), Entry(s, a + b, infoHash);
      f.0 == e.0 && f.1 == e.1 + b && f.2 == e.2
  {
    hide Complete;
    var n := Begin(s).pending;
    assert (a + b)[..n] == a[..n] && (a + b)[n..] == a[n..] + b;
  }

  /** Splitting the input anywhere changes neither the events nor the state reached. */
  lemma {:induction false} DriveAppend(s: Rx, a: seq<Octet>, b: seq<Octet>, infoHash: InfoHash)
    requires WellFormed(s)
    ensures Drive(s, a + b, infoHash).0 == Drive(Drive(s, a, infoHash).0, b, infoHash).0
    ensures Drive(s, a + b, infoHash).1 == Drive(s, a, infoHash).1 + Drive(Drive(s, a, infoHash).0, b, infoHash).1
    decreases |a|
  {
    hide Entry;
    if a == [] {
      assert a + b == b;
    } else if b == [] {
      assert a + b == a;
    } else if Begin(s).pending <= |a| {
      EntryIgnoresRest(s, a, b, infoHash);
      var (s1, rest, events) := Entry(s, a, infoHash);
      DriveAppend(s1, rest, b, infoHash);
    } else {
      EntryResumes(s, a, b, infoHash);
      var s1 := Entry(s, a, infoHash).0;
      assert Drive(s, a, infoHash) == (s1, []);
    }
  }

  /** For every way of cutting a byte stream into reads, the receiver does what it does on the whole stream. */
  lemma {:induction false} SplitInvariance(s: Rx, chunks: seq<seq<Octet>>, infoHash: InfoHash)
    requires WellFormed(s)
    ensures DriveChunks(s, chunks, infoHash) == Drive(s, Concat(chunks), infoHash)
    decreases |chunks|
  {
    if chunks != [] {
      DriveAppend(s, chunks[0], Concat(chunks[1..]), infoHash);
      SplitInvariance(Drive(s, chunks[0], infoHash).0, chunks[1..], infoHash);
    }
  }

  /** A connection's receive state, updated in place by network_handle_peer_response. */
  class Connection {
    const infoHash: InfoHash
    var handshake1: bool
    var handshake2: bool
    var gotLen: bool
    var rxPending: nat
    var rxMsgLen: nat
    var rxMsg: seq<Octet>

    ghost function View(): Rx
      reads this
    {
      Rx(handshake1, handshake2, gotLen, rxPending, rxMsgLen, rxMsg)
    }

    constructor (infoHash: InfoHash)
      ensures View() == FRESH && this.infoHash == infoHash
    {
      this.infoHash := infoHash;
      handshake1, handshake2, gotLen := true, false, false;
      rxPending, rxMsgLen, rxMsg := 0, 0, [];
    }

    /** Act on a completely received handshake part, length field or message. */
    method Finish() returns (events: seq<Event>)
      requires rxPending == 0 && |rxMsg| == rxMsgLen
      requires !(handshake1 && handshake2)
      requires handshake1 ==> rxMsgLen == 20
      requires handshake2 ==> rxMsgLen == 48
      requires !handshake1 && !handshake2 ==> if gotLen then rxMsgLen > 0 else rxMsgLen == 4
      modifies this
      ensures (View(), events) == Complete(old(View()), infoHash)
    {
      events := [];
      if handshake1 {
        if rxMsg[0] == 19 && rxMsg[1..] == PROTOCOL {
          rxPending, rxMsgLen, rxMsg := 48, 48, [];
          handshake1, handshake2 := false, true;
        } else {
          handshake1, handshake2, gotLen := false, false, false;
          events := [Kill];
        }
        return;
      }
      if handshake2 {
        var fast := rxMsg[27] / 4 % 2 == 1;
        if rxMsg[8..28] != infoHash {
          handshake2, gotLen := false, false;
          events := [Kill];
          return;
        }
        events := [Handshake(fast, rxMsg[28..48])];
        rxMsg, handshake2, rxPending := [], false, 0;
        return;
      }
      if !gotLen {
        rxMsgLen := FromBe32(rxMsg);
        if rxMsgLen > MAX_MESSAGE_LEN {
          events := [Kill];
          return;
        }
        rxMsg, gotLen := [], true;
        if rxMsgLen == 0 { return; }
        rxPending := rxMsgLen;
        return;
      }
      events := [Dispatch(rxMsg[0], rxMsg)];
      rxMsg := [];
    }

    /** One entry: take what is pending, or what there is, and act when nothing is pending any more. */
    method ReadOnce(buf: seq<Octet>) returns (rest: seq<Octet>, events: seq<Event>)
      requires WellFormed(View())
      modifies this
      ensures (View(), rest, events) == Entry(old(View()), buf, infoHash)
    {
      hide Complete;
      if rxPending == 0 {
        if handshake1 {
          rxMsg, rxMsgLen, rxPending := [], 20, 20;
        } else {
          gotLen := false;
          rxMsg, rxMsgLen, rxPending := [], 4, 4;
        }
      }
      assert View() == Begin(old(View()));
      var n := if rxPending < |buf| then rxPending else |buf|;
      rxMsg, rxPending, rest := rxMsg + buf[..n], rxPending - n, buf[n..];
      events := [];
      if rxPending == 0 {
        events := Finish();
      }
    }

    /** The read callback: it runs again for as long as input is buffered. */
    method HandleResponse(input: seq<Octet>) returns (events: seq<Event>)
      requires WellFormed(View())
      modifies this
      ensures WellFormed(View())
      ensures (View(), events) == Drive(old(View()), input, infoHash)
    {
      hide Entry;
      events := [];
      var buf := input;
      while buf != []
        invariant WellFormed(View())
        invariant Drive(old(View()), input, infoHash).0 == Drive(View(), buf, infoHash).0
        invariant Drive(old(View()), input, infoHash).1 == events + Drive(View(), buf, infoHash).1
        decreases |buf|
      {
        var done;
        buf, done := ReadOnce(buf);
        events := events + done;
      }
      assert Drive(View(), buf, infoHash) == (View(), []) && events + [] == events;
    }
  }
}

/** The messages of the protocol: how the program writes them and how it reads their fields. */
module Messages {
  import opened Sequences
  import opened Options
  import opened Bytes
  import opened Wire

  /** The messages the program writes (BEP 3 "peer messages" and BEP 6). */
  datatype Message =
    | KeepAlive | Choke | Unchoke | Interested | HaveAll | HaveNone
    | Have(index: U32)
    | Bitfield(bits: seq<Octet>)
    | Request(index: U32, begin: U32, length: U32)
    | Cancel(index: U32, begin: U32, length: U32)
    | Reject(index: U32, begin: U32, length: U32)
    | Piece(index: U32, begin: U32, block: seq<Octet>)

  /** Id and payload, without the length prefix; a keep-alive has neither. */
  function Body(m: Message): seq<Octet> {
    match m
    case KeepAlive => []
    case Choke => [0x00]
    case Unchoke => [0x01]
    case Interested => [0x02]
    case Have(i) => [0x04] + Be32(i)
    case Bitfield(bits) => [0x05] + bits
    case Request(i, b, l) => [0x06] + Be32(i) + Be32(b) + Be32(l)
    case Piece(i, b, block) => [0x07] + Be32(i) + Be32(b) + block
    case Cancel(i, b, l) => [0x08] + Be32(i) + Be32(b) + Be32(l)
    case Reject(i, b, l) => [0x10] + Be32(i) + Be32(b) + Be32(l)
    case HaveAll => [0x0E]
    case HaveNone => [0x0F]
  }

  /** Short enough for the receiver to accept. */
  predicate WithinLimit(m: Message) { |Body(m)| <= MAX_MESSAGE_LEN }

  /** What the encoders of network.c put on the wire. */
  function Encode(m: Message): seq<Octet>
    requires WithinLimit(m)
  {
    Be32(|Body(m)|) + Body(m)
  }

  function EncodeAll(ms: seq<Message>): seq<Octet>
    requires forall m <- ms :: WithinLimit(m)
  {
    if ms == [] then [] else Encode(ms[0]) + EncodeAll(ms[1..])
  }

  /** The fields that network_peer_process_message takes out of a dispatched body; None when the id is one
      that the program does not write, or the body is too short for the fields that are read from it. */
  function Decode(id: Octet, body: seq<Octet>): Option<Message> {
    if id == 0x00 then Some(Choke)
    else if id == 0x01 then Some(Unchoke)
    else if id == 0x02 then Some(Interested)
    else if id == 0x0E then Some(HaveAll)
    else if id == 0x0F then Some(HaveNone)
    else if id == 0x05 && |body| >= 1 then Some(Bitfield(body[1..]))
    else if |body| < 5 then None
    else if id == 0x04 then Some(Have(FromBe32(body[1..5])))
    else if |body| < 9 then None
    else if id == 0x07 then Some(Piece(FromBe32(body[1..5]), FromBe32(body[5..9]), body[9..]))
    else if |body| < 13 then None
    else
      var (i, b, l) := (FromBe32(body[1..5]), FromBe32(body[5..9]), FromBe32(body[9..13]));
      if id == 0x06 then Some(Request(i, b, l))
      else if id == 0x08 then Some(Cancel(i, b, l))
      else if id == 0x10 then Some(Reject(i, b, l))
      else None
  }

  /** Reading the fields of a written message gives back the message. */
  lemma DecodeBody(m: Message)
    requires m != KeepAlive
    ensures Body(m) != [] && Decode(Body(m)[0], Body(m)) == Some(m)
  {
    hide Be32, FromBe32;
    var body := Body(m);
    match m {
      case Have(i) =>
        Be32RoundTrip(i);
        assert body[1..5] == Be32(i);
      case Piece(i, b, block) =>
        Be32RoundTrip(i);
        Be32RoundTrip(b);
        assert body[1..5] == Be32(i) && body[5..9] == Be32(b) && body[9..] == block;
      case Request(i, b, l) => ThreeFields(0x06, i, b, l);
      case Cancel(i, b, l) => ThreeFields(0x08, i, b, l);
      case Reject(i, b, l) => ThreeFields(0x10, i, b, l);
      case _ =>
    }
  }

  lemma ThreeFields(id: Octet, i: U32, b: U32, l: U32)
    ensures var body := [id] + Be32(i) + Be32(b) + Be32(l);
      |body| == 13 && FromBe32(body[1..5]) == i && FromBe32(body[5..9]) == b && FromBe32(body[9..13]) == l
  {
    hide Be32, FromBe32;
    var body := [id] + Be32(i) + Be32(b) + Be32(l);
    Be32RoundTrip(i);
    Be32RoundTrip(b);
    Be32RoundTrip(l);
    assert body[1..5] == Be32(i) && body[5..9] == Be32(b) && body[9..13] == Be32(l);
  }

  /** What is dispatched for a message list: everything but the keep-alives. */
  function Dispatched(ms: seq<Message>): seq<Event> {
    if ms == [] then []
    else if Body(ms[0]) == [] then Dispatched(ms[1..])
    else [Dispatch(Body(ms[0])[0], Body(ms[0]))] + Dispatched(ms[1..])
  }

  /** The messages that a list of events carries, as the message handler decodes them. */
  function Received(events: seq<Event>): seq<Option<Message>> {
    if events == [] then []
    else if events[0].Dispatch? then [Decode(events[0].id, events[0].body)] + Received(events[1..])
    else Received(events[1..])
  }

  function WithoutKeepAlives(ms: seq<Message>): seq<Option<Message>> {
    if ms == [] then []
    else if ms[0] == KeepAlive then WithoutKeepAlives(ms[1..])
    else [Some(ms[0])] + WithoutKeepAlives(ms[1..])
  }

  /** An idle receiver reads a length field in one entry. */
  lemma ReadLength(s: Rx, len: U32, rest: seq<Octet>, infoHash: InfoHash)
    requires WellFormed(s) && Idle(s) && len <= MAX_MESSAGE_LEN
    ensures var e := Entry(s, Be32(len) + rest, infoHash);
      && e.1 == rest && e.2 == []
      && e.0 == s.(gotLen := true, msgLen := len, msg := [], pending := len)
  {
    hide Be32, FromBe32;
    Be32RoundTrip(len);
    var buf := Be32(len) + rest;
    assert buf[..4] == Be32(len) && buf[4..] == rest;
    assert [] + buf[..4] == Be32(len);
  }

  /** A receiver that has a length field reads the body in one entry. */
  lemma ReadBody(s: Rx, body: seq<Octet>, rest: seq<Octet>, infoHash: InfoHash)
    requires WellFormed(s) && !s.handshake1 && !s.handshake2
    requires s.gotLen && s.msg == [] && s.pending == s.msgLen == |body| > 0
    ensures var e := Entry(s, body + rest, infoHash);
      && e.1 == rest && e.2 == [Dispatch(body[0], body)]
      && e.0 == s.(pending := 0)
  {
    var buf := body + rest;
    assert buf[..|body|] == body && buf[|body|..] == rest;
    assert [] + body == body;
  }

  /** One written message at the head of the input leaves the receiver idle and is dispatched once. */
  lemma DriveMessage(s: Rx, m: Message, rest: seq<Octet>, infoHash: InfoHash) returns (s': Rx)
    requires WellFormed(s) && Idle(s) && WithinLimit(m)
    ensures WellFormed(s') && Idle(s')
    ensures Drive(s, Encode(m) + rest, infoHash).0 == Drive(s', rest, infoHash).0
    ensures Drive(s, Encode(m) + rest, infoHash).1 == Dispatched([m]) + Drive(s', rest, infoHash).1
  {
    hide Entry, Be32, FromBe32;
    var body := Body(m);
    var buf := Encode(m) + rest;
    assert buf == Be32(|body|) + (body + rest);
    ReadLength(s, |body|, body + rest, infoHash);
    var s1 := Entry(s, buf, infoHash).0;
    assert Drive(s, buf, infoHash).0 == Drive(s1, body + rest, infoHash).0;
    assert Drive(s, buf, infoHash).1 == Drive(s1, body + rest, infoHash).1;
    s' := s1.(pending := 0);
    if body == [] {
      assert body + rest == rest;
    } else {
      ReadBody(s1, body, rest, infoHash);
    }
  }

  lemma {:induction false} DriveMessages(s: Rx, ms: seq<Message>, infoHash: InfoHash)
    requires WellFormed(s) && Idle(s)
    requires forall m <- ms :: WithinLimit(m)
    ensures Idle(Drive(s, EncodeAll(ms), infoHash).0)
    ensures Drive(s, EncodeAll(ms), infoHash).1 == Dispatched(ms)
    decreases |ms|
  {
    if ms != [] {
      var s' := DriveMessage(s, ms[0], EncodeAll(ms[1..]), infoHash);
      DriveMessages(s', ms[1..], infoHash);
    }
  }

  lemma {:induction false} ReceivedAreSent(ms: seq<Message>)
    ensures Received(Dispatched(ms)) == WithoutKeepAlives(ms)
    decreases |ms|
  {
    if ms != [] {
      ReceivedAreSent(ms[1..]);
      if ms[0] != KeepAlive {
        DecodeBody(ms[0]);
      }
    }
  }

  /** Messages written one after another and delivered in any chunks arrive unchanged and in order. */
  lemma MessagesArrive(s: Rx, ms: seq<Message>, chunks: seq<seq<Octet>>, infoHash: InfoHash)
    requires WellFormed(s) && Idle(s)
    requires forall m <- ms :: WithinLimit(m)
    requires Concat(chunks) == EncodeAll(ms)
    ensures Idle(DriveChunks(s, chunks, infoHash).0)
    ensures Received(DriveChunks(s, chunks, infoHash).1) == WithoutKeepAlives(ms)
  {
    SplitInvariance(s, chunks, infoHash);
    DriveMessages(s, ms, infoHash);
    ReceivedAreSent(ms);
  }

  type PeerId = s: seq<Octet> | |s| == 20 witness seq(20, _ => 0)
  type Reserved = s: seq<Octet> | |s| == 8 witness seq(8, _ => 0)

  /** The reserved octets that network_peer_handshake sends: the fast-extension bit of the last one. */
  const FAST_RESERVED: Reserved := [0, 0, 0, 0, 0, 0, 0, 4]

  function HandshakeBytes(reserved: Reserved, infoHash: InfoHash, id: PeerId): seq<Octet> {
    [19] + PROTOCOL + reserved + infoHash + id
  }

  /** The fast-extension flag that the receiver records: it looks at octet 27 of the second handshake part,
      which lies in the info hash and not in the reserved octets. */
  predicate FastBit(infoHash: InfoHash) { infoHash[19] / 4 % 2 == 1 }

  /** A whole handshake for our torrent leaves the receiver idle. Whatever the reserved octets say, the
      fast-extension flag it records is a bit of the info hash. */
  lemma DriveHandshake(reserved: Reserved, infoHash: InfoHash, id: PeerId, rest: seq<Octet>) returns (s': Rx)
    ensures WellFormed(s') && Idle(s')
    ensures var r := Drive(FRESH, HandshakeBytes(reserved, infoHash, id) + rest, infoHash);
      && r.0 == Drive(s', rest, infoHash).0
      && r.1 == [Handshake(FastBit(infoHash), id)] + Drive(s', rest, infoHash).1
  {
    hide Entry;
    var second := reserved + infoHash + id;
    FirstPart(reserved, infoHash, id, rest, infoHash);
    s' := SecondPart(reserved, infoHash, id, rest);
    assert Drive(AWAITING_ID, second + rest, infoHash).1
        == [Handshake(FastBit(infoHash), id)] + Drive(s', rest, infoHash).1;
  }

  /** After the protocol string, the receiver waits for the rest of the handshake. */
  const AWAITING_ID := Rx(false, true, false, 48, 48, [])

  lemma FirstPart(reserved: Reserved, theirs: InfoHash, id: PeerId, rest: seq<Octet>, infoHash: InfoHash)
    ensures var buf := HandshakeBytes(reserved, theirs, id) + rest;
      buf != [] && Entry(FRESH, buf, infoHash) == (AWAITING_ID, reserved + theirs + id + rest, [])
  {
    var first, second := [19] + PROTOCOL, reserved + theirs + id;
    var buf := HandshakeBytes(reserved, theirs, id) + rest;
    assert buf[..20] == first && buf[20..] == second + rest;
    assert [] + first == first && first[1..] == PROTOCOL;
  }

  lemma SecondPart(reserved: Reserved, infoHash: InfoHash, id: PeerId, rest: seq<Octet>) returns (s': Rx)
    ensures WellFormed(s') && Idle(s')
    ensures Entry(AWAITING_ID, reserved + infoHash + id + rest, infoHash)
         == (s', rest, [Handshake(FastBit(infoHash), id)])
  {
    var second := reserved + infoHash + id;
    assert (second + rest)[..48] == second && (second + rest)[48..] == rest && [] + second == second;
    assert second[8..28] == infoHash && second[28..48] == id && second[27] == infoHash[19];
    s' := Rx(false, false, false, 0, 48, []);
  }

  /** A whole conversation, handshake and messages, delivered to a fresh connection in any chunks. */
  lemma ConversationArrives(reserved: Reserved, id: PeerId, ms: seq<Message>, chunks: seq<seq<Octet>>, infoHash: InfoHash)
    requires forall m <- ms :: WithinLimit(m)
    requires Concat(chunks) == HandshakeBytes(reserved, infoHash, id) + EncodeAll(ms)
    ensures Idle(DriveChunks(FRESH, chunks, infoHash).0)
    ensures DriveChunks(FRESH, chunks, infoHash).1 == [Handshake(FastBit(infoHash), id)] + Dispatched(ms)
    ensures Received(Dispatched(ms)) == WithoutKeepAlives(ms)
  {
    SplitInvariance(FRESH, chunks, infoHash);
    var s' := DriveHandshake(reserved, infoHash, id, EncodeAll(ms));
    DriveMessages(s', ms, infoHash);
    ReceivedAreSent(ms);
  }

  /** The bit with which a peer announces the fast extension (BEP 6). */
  predicate AnnouncesFast(reserved: Reserved) { reserved[7] / 4 % 2 == 1 }

  /** Bit 2 of an octet: the flag is 0x04. */
  lemma FastBitIs(infoHash: InfoHash, reserved: Reserved)
    ensures FastBit(infoHash) <==> infoHash[19] % 8 >= 4
    ensures AnnouncesFast(reserved) <==> reserved[7] % 8 >= 4
  {}

  /** The flag recorded at the end of a handshake is the one the peer announced exactly when its bit happens to equal that
      of the torrent's info hash. */
  lemma FastFlagRightIff(reserved: Reserved, infoHash: InfoHash, id: PeerId)
    ensures var events := Drive(FRESH, HandshakeBytes(reserved, infoHash, id), infoHash).1;
      && |events| == 1 && events[0].Handshake?
      && (events[0].fast == AnnouncesFast(reserved) <==> AnnouncesFast(reserved) == FastBit(infoHash))
  {
    var buf := HandshakeBytes(reserved, infoHash, id);
    var s' := DriveHandshake(reserved, infoHash, id, []);
    assert buf + [] == buf;
  }

  /** Two copies of the program meeting over a torrent whose info hash is all zero do not find each other's flag. */
  lemma FastFlagLost(id: PeerId)
    ensures var zero: InfoHash := seq(20, _ => 0);
      AnnouncesFast(FAST_RESERVED) && Drive(FRESH, HandshakeBytes(FAST_RESERVED, zero, id), zero).1 == [Handshake(false, id)]
  {
    var zero: InfoHash := seq(20, _ => 0);
    var buf := HandshakeBytes(FAST_RESERVED, zero, id);
    var s' := DriveHandshake(FAST_RESERVED, zero, id, []);
    assert buf + [] == buf;
  }

  /** A first part that is not the protocol string kills the connection. */
  lemma WrongProtocolKills(first: seq<Octet>, rest: seq<Octet>, infoHash: InfoHash)
    requires |first| == 20 && first != [19] + PROTOCOL
    ensures var r := Drive(FRESH, first + rest, infoHash);
      r.1 != [] && r.1[0] == Kill
  {
    assert (first + rest)[..20] == first && [] + first == first;
    assert first == [first[0]] + first[1..];
    assert Entry(FRESH, first + rest, infoHash).2 == [Kill];
  }

  /** A stranger's info hash kills the connection. */
  lemma WrongHandshakeKills(reserved: Reserved, theirs: InfoHash, id: PeerId, infoHash: InfoHash, rest: seq<Octet>)
    requires theirs != infoHash
    ensures var r := Drive(FRESH, HandshakeBytes(reserved, theirs, id) + rest, infoHash);
      r.1 != [] && r.1[0] == Kill
  {
    FirstPart(reserved, theirs, id, rest, infoHash);
    var second, s1 := reserved + theirs + id, AWAITING_ID;
    assert (second + rest)[..48] == second && [] + second == second;
    assert second[8..28] == theirs;
    assert Entry(s1, second + rest, infoHash).2 == [Kill];
    assert Drive(s1, second + rest, infoHash).1[0] == Kill;
  }
}
