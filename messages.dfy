/** The peer wire messages of BitTorrent (BEP 3, section "peer messages"):
    every frame is a 4-byte big-endian length prefix, a 1-byte id and a
    fixed payload; the handshake is a fixed 68-byte preamble.  Each message
    class's `writeMessage` is `WriteMessage`, each class's `readMessage` is
    one of the `...Read` functions, and `Message.determineMessage` is
    `DetermineMessage`.  Defects of the code (names that are not defined,
    a slice too short for its format) are modelled as the exceptions they
    raise. */
module Messages {
  import opened Wrappers
  import opened Octets

  /** The exceptions a reader or a writer can raise. */
  datatype Failure =
    | WrongMessage(reason: string)  // WrongMessageException
    | StructError                   // struct.error from pack or unpack
    | NameError                     // a name that is defined nowhere

  /** "BitTorrent protocol" in ASCII. */
  const HANDSHAKE_PSTR: Bytes :=
    [0x42, 0x69, 0x74, 0x54, 0x6f, 0x72, 0x72, 0x65, 0x6e, 0x74,
     0x20, 0x70, 0x72, 0x6f, 0x74, 0x6f, 0x63, 0x6f, 0x6c]
  const HANDSHAKE_PSTRLEN: nat := |HANDSHAKE_PSTR|
  const HANDSHAKE_RESERVED: Bytes := Zeros(8)

  /** The class attributes msg_len, msg_id and total_bytes. */
  datatype Attrs = Attrs(msgLen: nat, msgId: byte, totalBytes: nat)

  const KEEP_ALIVE_MSG_LEN: nat := 0
  const KEEP_ALIVE_TOTAL_BYTES: nat := 4
  const CHOKE := Attrs(1, 0, 5)
  const UNCHOKE := Attrs(1, 1, 5)
  const INTERESTED := Attrs(1, 2, 5)
  // NotInterested declares total_bytes 4, one short of its '>IB' format.
  const NOT_INTERESTED := Attrs(1, 3, 4)
  const HAVE := Attrs(5, 4, 9)
  const BITFIELD_ID: byte := 5
  const REQUEST := Attrs(13, 6, 17)
  const CANCEL := Attrs(13, 8, 17)
  // Port declares msg_len 3 but its payload is a 4-byte '>I'.
  const PORT := Attrs(3, 9, 9)

  /** A message object that the code can construct.  There is no Piece
      variant: constructing a Piece message always raises (`NewPiece`). */
  datatype Message =
    | Handshake(peerId: Bytes, infoHash: Bytes)
    | KeepAlive
    | Choke
    | UnChoke
    | Interested
    | NotInterested
    | Have(pieceIdx: int)
    | BitField(bitfield: Bytes)
    | Request(idx: int, begin: int, length: int)
    | Cancel(idx: int, begin: int, length: int)
    | Port(port: int)

  /** The message classes, whose class method `readMessage` decodes. */
  datatype MessageClass =
    | HandshakeClass | KeepAliveClass | ChokeClass | UnChokeClass
    | InterestedClass | NotInterestedClass | HaveClass | BitFieldClass
    | RequestClass | PieceClass | CancelClass | PortClass

  /** The argument of the Handshake constructor: a `str` peer id is
      encoded to bytes, a `bytes` one is kept. */
  datatype PeerIdArg = Text(s: string) | Raw(b: Bytes)

  function NewHandshake(peerId: PeerIdArg, infoHash: Bytes): (m: Message)
    ensures m.Handshake? && m.infoHash == infoHash
    ensures peerId.Raw? ==> m.peerId == peerId.b
    ensures peerId.Text? ==> m.peerId == Utf8(peerId.s)
  {
    match peerId
    case Text(s) => Handshake(Utf8(s), infoHash)
    case Raw(b) => Handshake(b, infoHash)
  }

  /** The Piece message constructor: `self.total_bytes = 4 + msg_len`
      names a `msg_len` that is not defined, so it always raises. */
  function NewPiece(idx: int, begin: int, block: Bytes, blockLength: int): Result<Message, Failure>
  {
    Err(NameError)
  }

  // ---------------------------------------------------------------------
  // struct.pack and struct.unpack with the formats the classes use.
  // unpack raises unless the buffer is exactly as long as the format.

  predicate IsU32(n: int) { 0 <= n < U32_LIMIT }

  /** struct.unpack('>B', buf) */
  function UnpackB(buf: Bytes): Result<byte, Failure>
  {
    if |buf| != 1 then Err(StructError) else Ok(buf[0])
  }

  /** struct.unpack('>I', buf) */
  function UnpackI(buf: Bytes): Result<nat, Failure>
  {
    if |buf| != 4 then Err(StructError) else Ok(FromBE(buf))
  }

  /** struct.unpack('>IB', buf) */
  function UnpackIB(buf: Bytes): Result<(nat, byte), Failure>
  {
    if |buf| != 5 then Err(StructError) else Ok((FromBE(buf[..4]), buf[4]))
  }

  /** struct.unpack('>IBI', buf) */
  function UnpackIBI(buf: Bytes): Result<(nat, byte, nat), Failure>
  {
    if |buf| != 9 then Err(StructError) else Ok((FromBE(buf[..4]), buf[4], FromBE(buf[5..9])))
  }

  /** struct.unpack('>IBIII', buf) */
  function UnpackIBIII(buf: Bytes): Result<(nat, byte, nat, nat, nat), Failure>
  {
    if |buf| != 17 then Err(StructError)
    else Ok((FromBE(buf[..4]), buf[4], FromBE(buf[5..9]), FromBE(buf[9..13]), FromBE(buf[13..17])))
  }

  /** struct.unpack(f'>{n}s', buf); a negative n is not a valid format. */
  function UnpackS(n: int, buf: Bytes): Result<Bytes, Failure>
  {
    if n < 0 || |buf| != n then Err(StructError) else Ok(buf)
  }

  /** struct.unpack(f'>{n}s8s20s20s', buf) */
  function UnpackHandshakeBody(n: nat, buf: Bytes): Result<(Bytes, Bytes, Bytes, Bytes), Failure>
  {
    if |buf| != n + 48 then Err(StructError)
    else Ok((buf[..n], buf[n..n + 8], buf[n + 8..n + 28], buf[n + 28..n + 48]))
  }

  /** The frame `>IB` followed by the given fields. */
  function Frame(msgLen: nat, msgId: byte, payload: Bytes): Bytes
    requires IsU32(msgLen)
  {
    U32(msgLen) + [msgId] + payload
  }

  // ---------------------------------------------------------------------
  // writeMessage

  /** Handshake.writeMessage: pstrlen, pstr, 8 reserved bytes, then the
      info hash and the peer id as 20-byte `s` fields (truncated or
      zero-padded). */
  function HandshakeWrite(peerId: Bytes, infoHash: Bytes): Bytes
  {
    [HANDSHAKE_PSTRLEN as byte] + HANDSHAKE_PSTR + HANDSHAKE_RESERVED
      + PadTo(infoHash, 20) + PadTo(peerId, 20)
  }

  function WriteMessage(m: Message): Result<Bytes, Failure>
  {
    match m
    case Handshake(peerId, infoHash) => Ok(HandshakeWrite(peerId, infoHash))
    // KeepAlive, Choke and UnChoke pack a bare `msg_len`, which is undefined.
    case KeepAlive => Err(NameError)
    case Choke => Err(NameError)
    case UnChoke => Err(NameError)
    case Interested => Ok(Frame(INTERESTED.msgLen, INTERESTED.msgId, []))
    case NotInterested => Ok(Frame(NOT_INTERESTED.msgLen, NOT_INTERESTED.msgId, []))
    case Have(i) =>
      if IsU32(i) then Ok(Frame(HAVE.msgLen, HAVE.msgId, U32(i))) else Err(StructError)
    case BitField(b) =>
      if IsU32(1 + |b|) then Ok(Frame(1 + |b|, BITFIELD_ID, b)) else Err(StructError)
    case Request(i, b, l) =>
      if IsU32(i) && IsU32(b) && IsU32(l)
      then Ok(Frame(REQUEST.msgLen, REQUEST.msgId, U32(i) + U32(b) + U32(l)))
      else Err(StructError)
    case Cancel(i, b, l) =>
      if IsU32(i) && IsU32(b) && IsU32(l)
      then Ok(Frame(CANCEL.msgLen, CANCEL.msgId, U32(i) + U32(b) + U32(l)))
      else Err(StructError)
    case Port(p) =>
      if IsU32(p) then Ok(Frame(PORT.msgLen, PORT.msgId, U32(p))) else Err(StructError)
  }

  // ---------------------------------------------------------------------
  // readMessage, one per class

  function HandshakeRead(p: Bytes): Result<Message, Failure>
  {
    match UnpackB(Slice(p, 0, 1))
    case Err(e) => Err(e)
    case Ok(pstrlen) =>
      match UnpackHandshakeBody(pstrlen as nat, Slice(p, 1, 49 + pstrlen as nat))
      case Err(e) => Err(e)
      case Ok((pstr, _, infoHash, peerId)) =>
        if pstr != HANDSHAKE_PSTR then Err(WrongMessage("Wrong Handshake protocol!"))
        else Ok(Handshake(peerId, infoHash))
  }

  function KeepAliveRead(p: Bytes): Result<Message, Failure>
  {
    match UnpackI(Slice(p, 0, KEEP_ALIVE_TOTAL_BYTES))
    case Err(e) => Err(e)
    case Ok(len) =>
      if len != KEEP_ALIVE_MSG_LEN then Err(WrongMessage("Not a keep-alive messsage!"))
      else Ok(KeepAlive)
  }

  /** Choke.readMessage slices `payload[:msg_len]`, one byte, for a
      five-byte format. */
  function ChokeRead(p: Bytes): Result<Message, Failure>
  {
    match UnpackIB(Slice(p, 0, CHOKE.msgLen))
    case Err(e) => Err(e)
    case Ok((len, id)) =>
      if len != CHOKE.msgLen || id != CHOKE.msgId then Err(WrongMessage("Not a Choke message!"))
      else Ok(Choke)
  }

  /** UnChoke.readMessage has the same one-byte slice as Choke. */
  function UnChokeRead(p: Bytes): Result<Message, Failure>
  {
    match UnpackIB(Slice(p, 0, UNCHOKE.msgLen))
    case Err(e) => Err(e)
    case Ok((len, id)) =>
      if len != UNCHOKE.msgLen || id != UNCHOKE.msgId then Err(WrongMessage("Not an UnChoke message!"))
      else Ok(UnChoke)
  }

  function InterestedRead(p: Bytes): Result<Message, Failure>
  {
    match UnpackIB(Slice(p, 0, INTERESTED.totalBytes))
    case Err(e) => Err(e)
    case Ok((len, id)) =>
      if len != INTERESTED.msgLen || id != INTERESTED.msgId then Err(WrongMessage("Not an Interested message!"))
      else Ok(Interested)
  }

  /** NotInterested.readMessage slices its total_bytes, 4, for a five-byte
      format. */
  function NotInterestedRead(p: Bytes): Result<Message, Failure>
  {
    match UnpackIB(Slice(p, 0, NOT_INTERESTED.totalBytes))
    case Err(e) => Err(e)
    case Ok((len, id)) =>
      if len != NOT_INTERESTED.msgLen || id != NOT_INTERESTED.msgId then Err(WrongMessage("Not an NotInterested message!"))
      else Ok(NotInterested)
  }

  function HaveRead(p: Bytes): Result<Message, Failure>
  {
    match UnpackIBI(Slice(p, 0, HAVE.totalBytes))
    case Err(e) => Err(e)
    case Ok((len, id, idx)) =>
      if len != HAVE.msgLen || id != HAVE.msgId then Err(WrongMessage("Not a Have message!"))
      else Ok(Have(idx))
  }

  /** BitField.readMessage unpacks the bitfield before it checks the id. */
  function BitFieldRead(p: Bytes): Result<Message, Failure>
  {
    match UnpackIB(Slice(p, 0, 5))
    case Err(e) => Err(e)
    case Ok((len, id)) =>
      match UnpackS(len - 1, Slice(p, 5, 4 + len))
      case Err(e) => Err(e)
      case Ok(raw) =>
        if id != BITFIELD_ID then Err(WrongMessage("Not a BitField message!"))
        else Ok(BitField(raw))
  }

  function RequestRead(p: Bytes): Result<Message, Failure>
  {
    match UnpackIBIII(Slice(p, 0, REQUEST.totalBytes))
    case Err(e) => Err(e)
    case Ok((len, id, idx, begin, length)) =>
      if len != REQUEST.msgLen || id != REQUEST.msgId then Err(WrongMessage("Not a Request message!"))
      else Ok(Request(idx, begin, length))
  }

  /** Piece.readMessage slices `payload[:13 + block_length]` with a
      `block_length` that is not defined, so it always raises. */
  function PieceRead(p: Bytes): Result<Message, Failure>
  {
    Err(NameError)
  }

  function CancelRead(p: Bytes): Result<Message, Failure>
  {
    match UnpackIBIII(Slice(p, 0, CANCEL.totalBytes))
    case Err(e) => Err(e)
    case Ok((len, id, idx, begin, length)) =>
      if len != CANCEL.msgLen || id != CANCEL.msgId then Err(WrongMessage("Not a Cancel message!"))
      else Ok(Cancel(idx, begin, length))
  }

  function PortRead(p: Bytes): Result<Message, Failure>
  {
    match UnpackIBI(Slice(p, 0, PORT.totalBytes))
    case Err(e) => Err(e)
    case Ok((len, id, port)) =>
      if len != PORT.msgLen || id != PORT.msgId then Err(WrongMessage("Not a Port message!"))
      else Ok(Port(port))
  }

  /** `cls.readMessage(payload)` for the class c. */
  function ReadMessage(c: MessageClass, p: Bytes): Result<Message, Failure>
  {
    match c
    case HandshakeClass => HandshakeRead(p)
    case KeepAliveClass => KeepAliveRead(p)
    case ChokeClass => ChokeRead(p)
    case UnChokeClass => UnChokeRead(p)
    case InterestedClass => InterestedRead(p)
    case NotInterestedClass => NotInterestedRead(p)
    case HaveClass => HaveRead(p)
    case BitFieldClass => BitFieldRead(p)
    case RequestClass => RequestRead(p)
    case PieceClass => PieceRead(p)
    case CancelClass => CancelRead(p)
    case PortClass => PortRead(p)
  }

  /** The dispatch table of determineMessage; KeepAlive is not in it. */
  function TranslateId(id: byte): Option<MessageClass>
  {
    match id
    case 0 => Some(ChokeClass)
    case 1 => Some(UnChokeClass)
    case 2 => Some(InterestedClass)
    case 3 => Some(NotInterestedClass)
    case 4 => Some(HaveClass)
    case 5 => Some(BitFieldClass)
    case 6 => Some(RequestClass)
    case 7 => Some(PieceClass)
    case 8 => Some(CancelClass)
    case 9 => Some(PortClass)
    case _ => None
  }

  /** Message.determineMessage: None when the `>IB` header cannot be
      unpacked (the exception is caught), an error for an id outside the
      table, otherwise what that class's readMessage gives. */
  function DetermineMessage(p: Bytes): Option<Result<Message, Failure>>
  {
    match UnpackIB(Slice(p, 0, 5))
    case Err(_) => None
    case Ok((_, id)) =>
      match TranslateId(id)
      case None => Some(Err(WrongMessage("Message Type not supported!")))
      case Some(c) => Some(ReadMessage(c, p))
  }
}
