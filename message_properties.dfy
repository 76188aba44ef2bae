/** What the wire codec guarantees, and where its defects show. */
module MessageProperties {
  import opened Wrappers
  import opened Octets
  import opened Messages

  /** The messages whose encoding decodes back to themselves: the
      handshake with 20-byte fields, and Interested, Have, BitField,
      Request, Cancel and Port with fields that fit struct's `>I`. */
  predicate RoundTrips(m: Message)
  {
    match m
    case Handshake(peerId, infoHash) => |peerId| == 20 && |infoHash| == 20
    case Interested => true
    case Have(i) => IsU32(i)
    case BitField(b) => IsU32(1 + |b|)
    case Request(i, b, l) => IsU32(i) && IsU32(b) && IsU32(l)
    case Cancel(i, b, l) => IsU32(i) && IsU32(b) && IsU32(l)
    case Port(p) => IsU32(p)
    case _ => false
  }

  /** The class of which m is an instance. */
  function ClassOf(m: Message): MessageClass
  {
    match m
    case Handshake(_, _) => HandshakeClass
    case KeepAlive => KeepAliveClass
    case Choke => ChokeClass
    case UnChoke => UnChokeClass
    case Interested => InterestedClass
    case NotInterested => NotInterestedClass
    case Have(_) => HaveClass
    case BitField(_) => BitFieldClass
    case Request(_, _, _) => RequestClass
    case Cancel(_, _, _) => CancelClass
    case Port(_) => PortClass
  }

  // ---------------------------------------------------------------------
  // The handshake

  /** The handshake is 68 bytes: 19, "BitTorrent protocol", eight zero
      bytes, the info hash and the peer id, each as a 20-byte field. */
  lemma HandshakeLayout(peerId: Bytes, infoHash: Bytes)
    ensures var w := HandshakeWrite(peerId, infoHash);
      && |w| == 68 && w[0] == 19 && w[1..20] == HANDSHAKE_PSTR && w[20..28] == Zeros(8)
      && w[28..48] == PadTo(infoHash, 20) && w[48..68] == PadTo(peerId, 20)
  {
    var w := HandshakeWrite(peerId, infoHash);
    var pre := [HANDSHAKE_PSTRLEN as byte] + HANDSHAKE_PSTR + HANDSHAKE_RESERVED;
    assert w == pre + PadTo(infoHash, 20) + PadTo(peerId, 20);
    assert |pre| == 28;
    assert w[..28] == pre;
    assert w[1..20] == pre[1..20] == HANDSHAKE_PSTR;
    assert w[20..28] == pre[20..28] == HANDSHAKE_RESERVED;
  }

  /** What a handshake parse accepts: at least 68 bytes that start with 19
      and the protocol string; the info hash and peer id are the 20-byte
      fields at offsets 28 and 48. */
  lemma HandshakeReadAccepts(p: Bytes)
    ensures HandshakeRead(p).Ok? <==> |p| >= 68 && p[0] == 19 && p[1..20] == HANDSHAKE_PSTR
    ensures HandshakeRead(p).Ok? ==> HandshakeRead(p) == Ok(Handshake(p[48..68], p[28..48]))
  {
    if |p| >= 1 {
      var n := p[0] as nat;
      assert Slice(p, 0, 1) == [p[0]];
      if |p| >= 49 + n {
        var buf := Slice(p, 1, 49 + n);
        assert buf == p[1..49 + n];
        assert buf[..n] == p[1..1 + n];
        if n == 19 {
          assert buf[n + 8..n + 28] == p[28..48];
          assert buf[n + 28..n + 48] == p[48..68];
        } else {
          assert |buf[..n]| != |HANDSHAKE_PSTR|;
        }
      } else if n == 19 {
        assert |p| < 68;
      }
    }
  }

  /** For 20-byte fields, reading a written handshake gives back the same
      info hash and peer id; other lengths come back truncated or padded. */
  lemma HandshakeRoundTrip(peerId: Bytes, infoHash: Bytes)
    ensures HandshakeRead(HandshakeWrite(peerId, infoHash)) == Ok(Handshake(PadTo(peerId, 20), PadTo(infoHash, 20)))
    ensures |peerId| == 20 && |infoHash| == 20 ==>
      HandshakeRead(HandshakeWrite(peerId, infoHash)) == Ok(Handshake(peerId, infoHash))
  {
    HandshakeLayout(peerId, infoHash);
    HandshakeReadAccepts(HandshakeWrite(peerId, infoHash));
    if |peerId| == 20 && |infoHash| == 20 {
      assert PadTo(peerId, 20) == peerId[..20] == peerId;
      assert PadTo(infoHash, 20) == infoHash[..20] == infoHash;
    }
  }

  /** A complete preamble whose protocol string is not "BitTorrent
      protocol" raises WrongMessageException. */
  lemma HandshakeWrongProtocol(p: Bytes)
    requires |p| >= 1 && |p| >= 49 + p[0] as int
    requires p[1..1 + p[0] as int] != HANDSHAKE_PSTR
    ensures HandshakeRead(p) == Err(WrongMessage("Wrong Handshake protocol!"))
  {
    var n := p[0] as nat;
    assert Slice(p, 0, 1) == [p[0]];
    assert Slice(p, 1, 49 + n)[..n] == p[1..1 + n];
  }

  // ---------------------------------------------------------------------
  // Framed messages

  /** Interested encodes as 00 00 00 01 02 and decodes back. */
  lemma InterestedWire()
    ensures WriteMessage(Interested) == Ok([0, 0, 0, 1, 2])
    ensures InterestedRead([0, 0, 0, 1, 2]) == Ok(Interested)
  {
    Pow256Four();
    assert ToBE(1, 4) == [0, 0, 0, 1] by {
      assert ToBE(0, 3) == [0, 0, 0] by {
        assert ToBE(0, 1) == [0];
        assert ToBE(0, 2) == [0, 0];
      }
    }
    assert U32(1) == [0, 0, 0, 1];
    assert Frame(1, 2, []) == [0, 0, 0, 1, 2];
    U32RoundTrip(1);
    assert Slice([0, 0, 0, 1, 2], 0, 5)[..4] == U32(1);
  }

  /** The fields of a `>IB` frame read back from its bytes. */
  lemma FrameFields(msgLen: nat, msgId: byte, payload: Bytes)
    requires IsU32(msgLen)
    ensures var w := Frame(msgLen, msgId, payload);
      |w| == 5 + |payload| && FromBE(w[..4]) == msgLen && w[4] == msgId && w[5..] == payload
  {
    var w := Frame(msgLen, msgId, payload);
    assert w[..4] == U32(msgLen);
    U32RoundTrip(msgLen);
  }

  /** The three `>I` fields of a Request or Cancel payload read back. */
  lemma TripleFields(i: nat, b: nat, l: nat)
    requires IsU32(i) && IsU32(b) && IsU32(l)
    ensures var t := U32(i) + U32(b) + U32(l);
      |t| == 12 && FromBE(t[..4]) == i && FromBE(t[4..8]) == b && FromBE(t[8..12]) == l
  {
    var t := U32(i) + U32(b) + U32(l);
    assert t[..4] == U32(i) && t[4..8] == U32(b) && t[8..12] == U32(l);
    U32RoundTrip(i); U32RoundTrip(b); U32RoundTrip(l);
  }

  /** A `>IBI` frame: 9 bytes carrying its length, id and one field. */
  lemma OneFieldFrame(msgLen: nat, msgId: byte, x: nat)
    requires IsU32(msgLen) && IsU32(x)
    ensures var w := Frame(msgLen, msgId, U32(x));
      |w| == 9 && FromBE(w[..4]) == msgLen && w[4] == msgId && FromBE(w[5..9]) == x
  {
    var w := Frame(msgLen, msgId, U32(x));
    FrameFields(msgLen, msgId, U32(x));
    U32RoundTrip(x);
    assert w[5..9] == w[5..];
  }

  /** A `>IBIII` frame: 17 bytes carrying its length, id and three fields. */
  lemma ThreeFieldFrame(msgLen: nat, msgId: byte, i: nat, b: nat, l: nat)
    requires IsU32(msgLen) && IsU32(i) && IsU32(b) && IsU32(l)
    ensures var w := Frame(msgLen, msgId, U32(i) + U32(b) + U32(l));
      && |w| == 17 && FromBE(w[..4]) == msgLen && w[4] == msgId
      && FromBE(w[5..9]) == i && FromBE(w[9..13]) == b && FromBE(w[13..17]) == l
  {
    var w := Frame(msgLen, msgId, U32(i) + U32(b) + U32(l));
    FrameFields(msgLen, msgId, U32(i) + U32(b) + U32(l));
    TripleFields(i, b, l);
    assert w[5..9] == w[5..][..4] && w[9..13] == w[5..][4..8] && w[13..17] == w[5..][8..12];
  }

  /** Have, Request and Cancel frames: 9, 17 and 17 bytes with length
      prefixes 5, 13 and 13 and ids 4, 6 and 8; a BitField of n bytes has
      prefix 1 + n and id 5; Port has prefix 3 and id 9 in 9 bytes. */
  lemma FrameLayout(m: Message)
    requires RoundTrips(m) && !m.Handshake?
    ensures var w := WriteMessage(m).value;
      && WriteMessage(m).Ok? && |w| >= 5
      && (m.Interested? ==> |w| == 5 && FromBE(w[..4]) == 1 && w[4] == 2)
      && (m.Have? ==> |w| == 9 && FromBE(w[..4]) == 5 && w[4] == 4 && FromBE(w[5..9]) == m.pieceIdx)
      && (m.BitField? ==> |w| == 5 + |m.bitfield| && FromBE(w[..4]) == 1 + |m.bitfield| && w[4] == 5
                          && w[5..] == m.bitfield)
      && (m.Request? ==> |w| == 17 && FromBE(w[..4]) == 13 && w[4] == 6
                         && FromBE(w[5..9]) == m.idx && FromBE(w[9..13]) == m.begin && FromBE(w[13..17]) == m.length)
      && (m.Cancel? ==> |w| == 17 && FromBE(w[..4]) == 13 && w[4] == 8
                        && FromBE(w[5..9]) == m.idx && FromBE(w[9..13]) == m.begin && FromBE(w[13..17]) == m.length)
      && (m.Port? ==> |w| == 9 && FromBE(w[..4]) == 3 && w[4] == 9 && FromBE(w[5..9]) == m.port)
  {
    match m
    case Interested =>
      FrameFields(1, 2, []);
    case Have(i) =>
      OneFieldFrame(5, 4, i);
    case BitField(b) =>
      FrameFields(1 + |b|, 5, b);
    case Request(i, b, l) =>
      ThreeFieldFrame(13, 6, i, b, l);
    case Cancel(i, b, l) =>
      ThreeFieldFrame(13, 8, i, b, l);
    case Port(p) =>
      OneFieldFrame(3, 9, p);
  }

  /** The length prefix counts the bytes after it for every framed message
      the code can write, except Port, whose prefix says 3 for the 5 bytes
      that follow it. */
  lemma PrefixCountsPayload(m: Message)
    requires WriteMessage(m).Ok? && !m.Handshake?
    ensures var w := WriteMessage(m).value;
      |w| >= 4 && (if m.Port? then |w| == 4 + FromBE(w[..4]) + 2 else |w| == 4 + FromBE(w[..4]))
  {
    var w := WriteMessage(m).value;
    if m.NotInterested? {
      U32RoundTrip(1);
      assert w[..4] == U32(1);
    } else {
      FrameLayout(m);
    }
  }

  /** Every message in RoundTrips decodes, through its own class's
      readMessage, to itself. */
  lemma RoundTrip(m: Message)
    requires RoundTrips(m)
    ensures WriteMessage(m).Ok? && ReadMessage(ClassOf(m), WriteMessage(m).value) == Ok(m)
  {
    match m
    case Handshake(peerId, infoHash) => HandshakeRoundTrip(peerId, infoHash);
    case Interested => FixedRoundTrip(m);
    case Have(_) => FixedRoundTrip(m);
    case Port(_) => FixedRoundTrip(m);
    case Request(_, _, _) => FixedRoundTrip(m);
    case Cancel(_, _, _) => FixedRoundTrip(m);
    case BitField(b) =>
      FrameLayout(m);
      var w := WriteMessage(m).value;
      assert Slice(w, 0, 5)[..4] == w[..4];
      assert Slice(w, 5, 5 + |b|) == b;
  }

  /** The fixed-length frames read back through their class's reader. */
  lemma FixedRoundTrip(m: Message)
    requires RoundTrips(m) && FixedAttrs(ClassOf(m)).Some?
    ensures WriteMessage(m).Ok? && ReadMessage(ClassOf(m), WriteMessage(m).value) == Ok(m)
  {
    FrameLayout(m);
    var w := WriteMessage(m).value;
    assert |w| == FixedAttrs(ClassOf(m)).value.totalBytes;
    assert Slice(w, 0, |w|) == w;
  }

  /** determineMessage decodes the frame of every such message, other than
      the handshake, which has no id, to an equal message. */
  lemma DetermineRoundTrip(m: Message)
    requires RoundTrips(m) && !m.Handshake?
    ensures WriteMessage(m).Ok? && DetermineMessage(WriteMessage(m).value) == Some(Ok(m))
  {
    FrameLayout(m);
    RoundTrip(m);
    var w := WriteMessage(m).value;
    assert Slice(w, 0, 5) == w[..5];
  }

  /** determineMessage answers None, without raising, exactly for payloads
      shorter than 5 bytes. */
  lemma DetermineShortPayload(p: Bytes)
    ensures DetermineMessage(p).None? <==> |p| < 5
  {
  }

  /** For a full header, determineMessage raises WrongMessageException for
      an id outside 0..9 and otherwise delegates to that id's class. */
  lemma DetermineDispatch(p: Bytes)
    requires |p| >= 5
    ensures p[4] > 9 ==> DetermineMessage(p) == Some(Err(WrongMessage("Message Type not supported!")))
    ensures p[4] <= 9 ==>
      (TranslateId(p[4]).Some? && DetermineMessage(p) == Some(ReadMessage(TranslateId(p[4]).value, p)))
  {
    assert Slice(p, 0, 5)[4] == p[4];
  }

  /** Only Interested, Have, BitField, Request, Cancel and Port frames can
      be decoded by determineMessage: the Choke, UnChoke and NotInterested
      readers always fail, the Piece reader raises, and KeepAlive is not in
      the table. */
  lemma OnlySomeMessagesDecode(p: Bytes, m: Message)
    requires DetermineMessage(p) == Some(Ok(m))
    ensures m.Interested? || m.Have? || m.BitField? || m.Request? || m.Cancel? || m.Port?
  {
  }

  /** Each readMessage that succeeds returns an instance of its own class. */
  lemma ReadersReturnOwnClass(c: MessageClass, p: Bytes)
    requires ReadMessage(c, p).Ok?
    ensures ClassOf(ReadMessage(c, p).value) == c
  {
    match c
    case HandshakeClass =>
    case KeepAliveClass =>
    case InterestedClass =>
    case HaveClass =>
    case BitFieldClass =>
    case RequestClass =>
    case CancelClass =>
    case PortClass =>
  }

  /** A message determineMessage decodes is what its own class's
      readMessage makes of the payload. */
  lemma ClassOfDecoded(p: Bytes, m: Message)
    requires DetermineMessage(p) == Some(Ok(m))
    ensures ReadMessage(ClassOf(m), p) == Ok(m)
  {
    DetermineDispatch(p);
    ReadersReturnOwnClass(TranslateId(p[4]).value, p);
  }

  /** A decoded frame is canonical: re-encoding the message gives back the
      bytes it was read from (the frame's prefix of the payload). */
  lemma DecodedIsCanonical(p: Bytes, m: Message)
    requires DetermineMessage(p) == Some(Ok(m))
    ensures WriteMessage(m).Ok?
    ensures |WriteMessage(m).value| <= |p| && p[..|WriteMessage(m).value|] == WriteMessage(m).value
  {
    OnlySomeMessagesDecode(p, m);
    ClassOfDecoded(p, m);
    match m
    case Interested => InterestedCanonical(p);
    case BitField(_) => BitFieldCanonical(p);
    case Have(_) => ShortFrameCanonical(p, HaveClass);
    case Port(_) => ShortFrameCanonical(p, PortClass);
    case Request(_, _, _) => LongFrameCanonical(p, RequestClass);
    case Cancel(_, _, _) => LongFrameCanonical(p, CancelClass);
  }

  lemma InterestedCanonical(p: Bytes)
    requires InterestedRead(p).Ok?
    ensures WriteMessage(Interested) == Ok(p[..5])
  {
    assert Slice(p, 0, 5) == p[..5];
    assert p[..5][..4] == p[..4];
    U32OfDecoded(p[..4]);
    assert p[..4] == U32(1);
    assert p[..5] == p[..4] + [p[4]] + [];
  }

  lemma BitFieldCanonical(p: Bytes)
    requires BitFieldRead(p).Ok?
    ensures var m := BitFieldRead(p).value;
      WriteMessage(m).Ok? && |WriteMessage(m).value| <= |p| && WriteMessage(m).value == p[..|WriteMessage(m).value|]
  {
    var len := FromBE(p[..4]);
    BitFieldReadSpec(p);
    U32OfDecoded(p[..4]);
    assert p[..4 + len] == p[..4] + [p[4]] + p[5..4 + len];
  }

  /** A 9-byte buffer is the `>IBI` packing of its own unpacked fields. */
  lemma ShortFrameBytes(q: Bytes)
    requires |q| == 9
    ensures q == U32(FromBE(q[..4])) + [q[4]] + U32(FromBE(q[5..9]))
  {
    U32OfDecoded(q[..4]);
    U32OfDecoded(q[5..9]);
    assert q == q[..4] + [q[4]] + q[5..9];
  }

  /** Have and Port: a 9-byte `>IBI` frame. */
  lemma ShortFrameCanonical(p: Bytes, c: MessageClass)
    requires c == HaveClass || c == PortClass
    requires ReadMessage(c, p).Ok?
    ensures WriteMessage(ReadMessage(c, p).value) == Ok(p[..9])
  {
    var q := p[..9];
    assert Slice(p, 0, 9) == q;
    ShortFrameBytes(q);
    if c == HaveClass {
      assert HaveRead(p) == Ok(Have(FromBE(q[5..9])));
    } else {
      assert PortRead(p) == Ok(Port(FromBE(q[5..9])));
    }
  }

  /** A 17-byte buffer is the `>IBIII` packing of its own unpacked fields. */
  lemma LongFrameBytes(q: Bytes)
    requires |q| == 17
    ensures IsU32(FromBE(q[5..9])) && IsU32(FromBE(q[9..13])) && IsU32(FromBE(q[13..17]))
    ensures q == U32(FromBE(q[..4])) + [q[4]]
                 + (U32(FromBE(q[5..9])) + U32(FromBE(q[9..13])) + U32(FromBE(q[13..17])))
  {
    U32OfDecoded(q[..4]);
    U32OfDecoded(q[5..9]);
    U32OfDecoded(q[9..13]);
    U32OfDecoded(q[13..17]);
    assert q == q[..4] + [q[4]] + (q[5..9] + q[9..13] + q[13..17]);
  }

  /** Request and Cancel: a 17-byte `>IBIII` frame. */
  lemma LongFrameCanonical(p: Bytes, c: MessageClass)
    requires c == RequestClass || c == CancelClass
    requires ReadMessage(c, p).Ok?
    ensures WriteMessage(ReadMessage(c, p).value) == Ok(p[..17])
  {
    var q := p[..17];
    assert Slice(p, 0, 17) == q;
    LongFrameBytes(q);
    var i, b, l := FromBE(q[5..9]), FromBE(q[9..13]), FromBE(q[13..17]);
    if c == RequestClass {
      assert RequestRead(p) == Ok(Request(i, b, l));
      assert FromBE(q[..4]) == 13 && q[4] == 6;
      assert WriteMessage(Request(i, b, l)) == Ok(Frame(13, 6, U32(i) + U32(b) + U32(l)));
    } else {
      assert CancelRead(p) == Ok(Cancel(i, b, l));
      assert FromBE(q[..4]) == 13 && q[4] == 8;
      assert WriteMessage(Cancel(i, b, l)) == Ok(Frame(13, 8, U32(i) + U32(b) + U32(l)));
    }
  }

  /** The class constants of the fixed-length readers that can succeed. */
  function FixedAttrs(c: MessageClass): Option<Attrs>
  {
    match c
    case InterestedClass => Some(INTERESTED)
    case HaveClass => Some(HAVE)
    case RequestClass => Some(REQUEST)
    case CancelClass => Some(CANCEL)
    case PortClass => Some(PORT)
    case _ => None
  }

  /** A fixed-length reader given its total_bytes accepts exactly when the
      declared length and the id equal the class constants, and raises
      WrongMessageException otherwise; given fewer bytes it raises
      struct.error. */
  lemma FixedReadersCheckHeader(c: MessageClass, p: Bytes)
    requires FixedAttrs(c).Some?
    ensures var a := FixedAttrs(c).value;
      if |p| < a.totalBytes then ReadMessage(c, p) == Err(StructError)
      else
        && (ReadMessage(c, p).Ok? <==> FromBE(p[..4]) == a.msgLen && p[4] == a.msgId)
        && (!ReadMessage(c, p).Ok? ==> ReadMessage(c, p).error.WrongMessage?)
  {
    var a := FixedAttrs(c).value;
    if |p| >= a.totalBytes {
      assert Slice(p, 0, a.totalBytes) == p[..a.totalBytes];
      assert p[..a.totalBytes][..4] == p[..4];
    }
  }

  /** BitField.readMessage on a full header: it accepts exactly a declared
      length of at least 1 whose bitfield bytes are all present and id 5,
      returns those bytes, and raises WrongMessageException for another id
      once the bytes are present. */
  lemma BitFieldReadSpec(p: Bytes)
    requires |p| >= 5
    ensures var len := FromBE(p[..4]);
      && (BitFieldRead(p).Ok? <==> len >= 1 && |p| >= 4 + len && p[4] == BITFIELD_ID)
      && (BitFieldRead(p).Ok? ==> BitFieldRead(p) == Ok(BitField(p[5..4 + len])))
      && (len >= 1 && |p| >= 4 + len && p[4] != BITFIELD_ID ==>
            BitFieldRead(p) == Err(WrongMessage("Not a BitField message!")))
  {
    assert Slice(p, 0, 5)[..4] == p[..4];
  }

  /** The writers of KeepAlive, Choke and UnChoke raise NameError, as does
      constructing a Piece message. */
  lemma UnwritableMessages(idx: int, begin: int, block: Bytes, blockLength: int)
    ensures WriteMessage(KeepAlive) == Err(NameError)
    ensures WriteMessage(Choke) == Err(NameError)
    ensures WriteMessage(UnChoke) == Err(NameError)
    ensures NewPiece(idx, begin, block, blockLength) == Err(NameError)
  {
  }

  /** Choke, UnChoke and NotInterested can never be read; Piece raises
      NameError. */
  lemma UnreadableMessages(p: Bytes)
    ensures ChokeRead(p) == Err(StructError)
    ensures UnChokeRead(p) == Err(StructError)
    ensures NotInterestedRead(p) == Err(StructError)
    ensures PieceRead(p) == Err(NameError)
  {
  }

  /** The BEP 3 frames of Choke, UnChoke and NotInterested make
      determineMessage raise struct.error, and the 4-byte keep-alive frame
      gives None. */
  lemma StandardFramesRejected()
    ensures DetermineMessage([0, 0, 0, 1, 0]) == Some(Err(StructError))
    ensures DetermineMessage([0, 0, 0, 1, 1]) == Some(Err(StructError))
    ensures DetermineMessage([0, 0, 0, 1, 3]) == Some(Err(StructError))
    ensures DetermineMessage([0, 0, 0, 0]) == None
  {
    assert Slice([0, 0, 0, 1, 0], 0, 5)[4] == 0;
    assert Slice([0, 0, 0, 1, 1], 0, 5)[4] == 1;
    assert Slice([0, 0, 0, 1, 3], 0, 5)[4] == 3;
  }

  /** KeepAlive.readMessage, reachable only by calling it directly, accepts
      a zero length prefix. */
  lemma KeepAliveReadSpec(p: Bytes)
    ensures KeepAliveRead(p).Ok? <==> |p| >= 4 && FromBE(p[..4]) == 0
  {
    if |p| >= 4 { assert Slice(p, 0, 4) == p[..4]; }
  }
}
