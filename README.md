# BitTorrent client core: a Dafny model

A model of the sequential core of a small Python BitTorrent client, with proofs:

- **Peer wire codec** (`messages.py`). These are the frames of the BitTorrent peer protocol (BEP 3, "peer messages"): a 4-byte big-endian length prefix, a 1-byte id and a payload, plus the 68-byte handshake.
  - `writeMessage` is modelled as an encoder to bytes. `readMessage` is a decoder returning `Result<Message, Failure>`. `Failure` is `WrongMessage` (for `WrongMessageException`), `StructError` (for `struct.error`) or `NameError`.
  - `Message.determineMessage` is a dispatcher returning `Option<Result<…>>`. None means the 5-byte header could not be unpacked.
  - The codec's defects are modelled as the outcomes they produce, not repaired:
    - The `KeepAlive`, `Choke` and `UnChoke` writers name undefined globals, so they raise `NameError`.
    - The `Choke` and `UnChoke` readers unpack one byte as `>IB`. The `NotInterested` reader unpacks four. All three always raise `struct.error`.
    - `Piece` cannot be constructed or read: both raise `NameError`. For this reason there is no `Piece` message value.
    - `Port` declares length 3 for a 5-byte body.
    - `KeepAlive` is missing from the dispatch table.
- **Download state of a piece** (`block.py`, `piece.py`).
  - `Block` is a class, and `flush` updates it in place.
  - `Piece` is a class owning a sequence of distinct `Block` objects. Its methods are each proved equal to a step function on a value view of the piece (`GetEmptyBlockStep`, `IsCompleteStep`, `FlushAll`, `InitialBlocks`), and the lemmas of `PieceProperties` are proved about those functions.
  - `isComplete` returns `False`, `True`, or nothing at all on the call that latches. This is `Option<bool>`, with `None` for the call that latches.
- **Torrent metadata** (`torrent.py`).
  - The getters are modelled over an abstract metainfo record: file mode, total size, piece count, hash slices and the announce list.
  - The file-list builder is a loop in a `Torrent` class.
- **Tracker logic** (`tracker.py`): the peer id's shape, announce-URL normalisation, and the retry counter of `requestPeers`. The retry counter is a recursive method on a `Tracker` class. How each request ends is a parameter.

Modules:

- `Wrappers`: Option, Result
- `Octets`: bytes, big-endian integers, Python slices, UTF-8
- `Messages` and `MessageProperties`
- `Blocks`
- `Pieces` and `PieceProperties`
- `Torrents`
- `Trackers`

Where code and documentation disagree, the code is followed. In particular:

- BEP 3 gives the Choke, UnChoke and NotInterested frames as prefix 1 plus an id. The code cannot read them.
- BEP 3 gives Port a 2-byte port with prefix 3. The code packs 4 bytes.

SHA-1 and bencoding are function parameters (`sha1`, `bencode`). `time.time()` is the parameter `now`. The thirteen random choices of `PEER_ID` are the parameter `draws`.

## Model

| member | source | states |
|---|---|---|
| Messages.NewHandshake | messages.py:46-50 | a text peer id is UTF-8 encoded and raw bytes are kept; the info hash is kept |
| Messages.NewPiece | messages.py:211-217 | Piece.__init__ reads an undefined `msg_len`; always NameError, as UnwritableMessages proves |
| Messages.HandshakeWrite | messages.py:52-59 | the `>B19s8s20s20s` pack; its byte layout is stated by HandshakeLayout and its inverse by HandshakeRoundTrip |
| Messages.WriteMessage | messages.py:52-260 | every class's writeMessage, with struct.error outside 32 bits and NameError for the bare names; pinned down by FrameLayout, PrefixCountsPayload, RoundTrip and UnwritableMessages |
| Messages.HandshakeRead | messages.py:61-67 | Handshake.readMessage; its acceptance condition and result are HandshakeReadAccepts, its error HandshakeWrongProtocol |
| Messages.KeepAliveRead | messages.py:77-82 | KeepAlive.readMessage; pinned down by KeepAliveReadSpec |
| Messages.ChokeRead | messages.py:93-98 | Choke.readMessage unpacks `payload[:msg_len]`, one byte, as `>IB`; always struct.error by UnreadableMessages |
| Messages.UnChokeRead | messages.py:109-114 | UnChoke.readMessage unpacks `payload[:msg_len]`, one byte, as `>IB`; always struct.error by UnreadableMessages |
| Messages.InterestedRead | messages.py:125-130 | Interested.readMessage; pinned down by FixedReadersCheckHeader and InterestedWire |
| Messages.NotInterestedRead | messages.py:141-146 | NotInterested.readMessage with total_bytes 4; always struct.error by UnreadableMessages |
| Messages.HaveRead | messages.py:160-165 | Have.readMessage; pinned down by FixedReadersCheckHeader and ShortFrameCanonical |
| Messages.BitFieldRead | messages.py:178-185 | BitField.readMessage; pinned down by BitFieldReadSpec and BitFieldCanonical |
| Messages.RequestRead | messages.py:201-206 | Request.readMessage; pinned down by FixedReadersCheckHeader and LongFrameCanonical |
| Messages.PieceRead | messages.py:222-228 | Piece.readMessage reads an undefined `block_length`; always NameError by UnreadableMessages |
| Messages.CancelRead | messages.py:243-248 | Cancel.readMessage; pinned down by FixedReadersCheckHeader and LongFrameCanonical |
| Messages.PortRead | messages.py:262-267 | Port.readMessage; pinned down by FixedReadersCheckHeader and ShortFrameCanonical |
| Messages.ReadMessage | messages.py:61-267 | the readMessage of a given class; RoundTrip inverts WriteMessage through it |
| Messages.TranslateId | messages.py:27-38 | the id table 0..9; DetermineDispatch states that ids above 9 are missing and the rest delegate |
| Messages.DetermineMessage | messages.py:19-42 | determineMessage; DetermineShortPayload, DetermineDispatch, DetermineRoundTrip, OnlySomeMessagesDecode and DecodedIsCanonical pin it down |
| MessageProperties.HandshakeLayout | messages.py:4-59 | the handshake is 68 bytes: 19, "BitTorrent protocol", 8 zero bytes, the info hash and then the peer id, each truncated or zero-padded to 20 bytes |
| MessageProperties.HandshakeReadAccepts | messages.py:61-67 | readMessage succeeds iff there are at least 68 bytes, the first is 19 and the next 19 are the protocol string; it then returns peer id bytes 48..68 and info hash bytes 28..48 |
| MessageProperties.HandshakeRoundTrip | messages.py:52-67 | reading a written handshake returns the padded fields, so 20-byte info hash and peer id come back unchanged |
| MessageProperties.HandshakeWrongProtocol | messages.py:63-66 | a complete handshake whose protocol string differs raises WrongMessageException("Wrong Handshake protocol!") |
| MessageProperties.InterestedWire | messages.py:116-130 | Interested encodes to 00 00 00 01 02 and those bytes decode to Interested |
| MessageProperties.FrameFields | messages.py:116-267 | a `>IB…` frame has length, id and payload at bytes 0..4, 4 and 5.. |
| MessageProperties.TripleFields | messages.py:187-248 | the three `>I` fields of a Request/Cancel payload read back from bytes 0..4, 4..8, 8..12 |
| MessageProperties.FrameLayout | messages.py:116-267 | Interested/Have/BitField/Request/Cancel/Port encodings have sizes 5/9/5+n/17/17/9, prefixes 1/5/1+n/13/13/3, ids 2/4/5/6/8/9, and carry their fields |
| MessageProperties.PrefixCountsPayload | messages.py:249-260 | every writable framed message's prefix counts the bytes after it, except Port, whose prefix is 2 short |
| MessageProperties.RoundTrip | messages.py:44-267 | Interested, Have, BitField, Request, Cancel and Port with 32-bit fields, and a handshake with 20-byte fields, decode through their own class to themselves |
| MessageProperties.DetermineRoundTrip | messages.py:19-42 | determineMessage applied to the encoding of such a framed message returns that message |
| MessageProperties.DetermineShortPayload | messages.py:21-25 | determineMessage returns None exactly for payloads shorter than 5 bytes |
| MessageProperties.DetermineDispatch | messages.py:27-42 | an id above 9 raises WrongMessageException("Message Type not supported!"); ids 0..9 are answered by that id's readMessage |
| MessageProperties.OnlySomeMessagesDecode | messages.py:19-228 | determineMessage can only ever produce Interested, Have, BitField, Request, Cancel or Port |
| MessageProperties.DecodedIsCanonical | messages.py:19-267 | whatever determineMessage decodes re-encodes to exactly the prefix of the payload it was read from |
| MessageProperties.InterestedCanonical | messages.py:122-130 | a payload Interested accepts starts with Interested's encoding |
| MessageProperties.BitFieldCanonical | messages.py:175-185 | a payload BitField accepts starts with the decoded message's encoding |
| MessageProperties.ShortFrameCanonical | messages.py:148-267 | a payload Have or Port accepts starts with the decoded message's 9-byte encoding |
| MessageProperties.LongFrameCanonical | messages.py:187-248 | a payload Request or Cancel accepts starts with the decoded message's 17-byte encoding |
| MessageProperties.FixedReadersCheckHeader | messages.py:116-267 | given total_bytes bytes, the Interested/Have/Request/Cancel/Port readers accept iff the declared length and id equal the class constants, and otherwise raise WrongMessageException; given fewer they raise struct.error |
| MessageProperties.BitFieldReadSpec | messages.py:179-185 | BitField.readMessage accepts iff the length is at least 1, the bitfield bytes are all there and the id is 5; it returns those bytes, and another id raises WrongMessageException |
| MessageProperties.UnwritableMessages | messages.py:69-217 | writing KeepAlive, Choke or UnChoke and constructing a Piece raise NameError |
| MessageProperties.UnreadableMessages | messages.py:84-228 | the Choke, UnChoke and NotInterested readers always raise struct.error, and the Piece reader raises NameError |
| MessageProperties.StandardFramesRejected | messages.py:19-146 | the BEP 3 Choke, UnChoke and NotInterested frames make determineMessage raise struct.error, and the 4-byte keep-alive gives None |
| MessageProperties.KeepAliveReadSpec | messages.py:77-82 | KeepAlive.readMessage accepts exactly a zero length prefix |
| Blocks.Block.Default | block.py:2-14 | a block built without a size is FREE, last seen 0, empty, of size 16384 |
| Blocks.Block.constructor | block.py:10-14 | a new block is FREE, last seen 0, empty, of the given size |
| Blocks.Block.Flush | block.py:16-18 | flush empties data and sets FREE, keeping size and last seen |
| Blocks.FlushIdempotent | block.py:16-18 | flushing twice is flushing once |
| Blocks.NewView | block.py:10-14 | a new block's fields; both constructors are proved to produce it |
| Blocks.Flushed | block.py:16-18 | a block after flush; Block.Flush is proved to produce it and FlushIdempotent states it is idempotent |
| Pieces.NumBlocksIsCeiling | piece.py:12 | num_blocks is the least number of 16384-byte blocks covering the piece |
| Pieces.NumBlocks | piece.py:12 | num_blocks as exact ceiling division; NumBlocksIsCeiling proves it is the least covering count |
| Pieces.InitialBlocks | piece.py:17-20 | the blocks initialize_blocks builds; InitialBlocksShape and BlockSizesCover state their count and sizes |
| Pieces.InitialBlocksShape | piece.py:17-20 | a new piece has num_blocks FREE empty blocks (one for size 0); all but the last have size 16384, and the last has piece_size mod 16384 |
| Pieces.BlockSizesCover | piece.py:17-20 | block sizes add up to piece_size, except when it is a positive multiple of 16384, where they add up to one block less |
| Pieces.FirstFree | piece.py:30-31 | returns the lowest FREE index, or None exactly when no block is FREE |
| Pieces.GetEmptyBlockStep | piece.py:26-35 | one getEmptyBlock call on the piece's view; GetEmptyBlockSpec states it in full, AllocationsDistinct over repeated calls |
| Pieces.FlushAll | piece.py:22-24 | flush of every block; FlushAllIdempotent |
| Pieces.Concat | piece.py:42 | `b''.join` of the block data; the data LatchIsSticky and WellFormed refer to |
| Pieces.IsCompleteStep | piece.py:37-51 | one isComplete call; NotReadyUnchanged, HashMismatchResets, LatchIsSticky and LatchOnce cover its branches |
| Pieces.Piece.constructor | piece.py:8-15 | a new piece keeps index, hash and size, is incomplete, has no data, and has the initial blocks as fresh objects |
| Pieces.Piece.InitializeBlocks | piece.py:17-20 | builds num_blocks - 1 default blocks and then one of piece_size mod 16384, as fresh distinct objects |
| Pieces.Piece.Flush | piece.py:22-24 | every block is flushed in place |
| Pieces.Piece.GetEmptyBlock | piece.py:26-35 | the result and the new state are those of one getEmptyBlock step |
| Pieces.Piece.IsComplete | piece.py:37-51 | the result and the new state are those of one isComplete step, with the block objects kept |
| Pieces.Piece.WritePieceData | piece.py:53-54 | an empty method, as the source's `pass` |
| PieceProperties.GetEmptyBlockSpec | piece.py:26-35 | None iff complete or no block FREE, and then nothing changes; otherwise the lowest FREE block becomes PENDING with last seen = now, the result is (piece_index, idx*16384, its size), and every other block is unchanged |
| PieceProperties.AllocationsDistinct | piece.py:26-35 | repeated calls with no flush in between never hand out the same offset twice, and each offset is that of a block FREE at the start |
| PieceProperties.StepsPreserveWellFormed | piece.py:26-51 | both operations keep "data exists iff complete, and then equals the join of COMPLETE blocks", and keep the block sizes |
| PieceProperties.InitialIsWellFormed | piece.py:8-20 | a new piece satisfies that invariant |
| PieceProperties.NotReadyUnchanged | piece.py:38-41 | while a block is FREE or PENDING, isComplete returns False and changes nothing |
| PieceProperties.HashMismatchResets | piece.py:22-45 | all blocks COMPLETE with a wrong hash: returns False, stays incomplete, every block is FREE and empty with its size, and the next getEmptyBlock asks for block 0 again |
| PieceProperties.LatchIsSticky | piece.py:26-51 | on a hash match complete is set, data is the join and nothing is returned; afterwards isComplete returns True whatever the hash, and getEmptyBlock returns None, neither changing anything |
| PieceProperties.LatchOnce | piece.py:46-51 | the call after the one that latches returns True |
| PieceProperties.FlushAllIdempotent | piece.py:22-24 | flushing all blocks is idempotent and keeps sizes and last-seen times |
| Torrents.Size | torrent.py:49-59 | the length entry in single-file mode (KeyError if absent), otherwise the sum of the file lengths |
| Torrents.IsSingleFile | torrent.py:58-59 | "files" absent from info; Size, GetAnnounceList and the Torrent constructor are stated in terms of it |
| Torrents.NumPieces | torrent.py:41-44 | getNumPieces; NumPiecesSpec |
| Torrents.PieceSize | torrent.py:51-52 | the piece length entry; NumPiecesSpec relates it to the piece count |
| Torrents.FilesFitInSize | torrent.py:49-50 | each file, placed after the ones before it, lies within the total size |
| Torrents.NumPiecesSpec | torrent.py:41-52 | the piece count is the least count of piece-length pieces covering the size; it is 0 iff the size is 0, and it fails iff a single-file info has no length (KeyError) or the piece length is 0 (ZeroDivisionError) |
| Torrents.CeilDivBounds | torrent.py:44 | integer ceiling division bounds |
| Torrents.HashPiece | torrent.py:47-48 | bytes [20 idx, 20 idx + 20) of pieces, clamped; exactly 20 bytes when 20 (idx + 1) ≤ its length |
| Torrents.JoinHashesIsPrefix | torrent.py:47-48 | the first n hash slices joined give the first 20 n bytes of pieces |
| Torrents.FileList | torrent.py:60-68 | the list getFiles builds; Torrent.GetFiles is proved to return it |
| Torrents.GetAnnounceList | torrent.py:20-21 | [announce] in single-file mode, otherwise the announce-list entry, possibly absent |
| Torrents.Torrent.constructor | torrent.py:9-15 | file mode is "no files key", the file list is that of getFiles, and the info hash is SHA-1 of the bencoded info |
| Torrents.Torrent.GetFiles | torrent.py:60-68 | [[name]] in single-file mode, otherwise one entry per file, its path, in declared order |
| Trackers.PeerId | tracker.py:11-14 | 20 ASCII characters: "SISTER-" and 13 from [a-z0-9] |
| Trackers.PeerIdFitsHandshake | tracker.py:11-14 | the peer id fills the 20-byte handshake field, and a handshake built from it reads back unchanged |
| Trackers.ContainsAt | tracker.py:36 | an occurrence at some offset makes `in` true |
| Trackers.ContainsHasOffset | tracker.py:36 | `in` being true gives the offset of an occurrence |
| Trackers.NormalizeSpec | tracker.py:35-40 | fails only on the empty URL; otherwise the URL is a prefix of the result, the result contains "announce", a URL already containing it is unchanged, and normalising is idempotent |
| Trackers.Normalize | tracker.py:35-40 | the URL rewriting of Tracker.__init__; NormalizeSpec |
| Trackers.Tracker.constructor | tracker.py:34-43 | the stored URL is the normalised one and tries starts at 0 |
| Trackers.Tracker.RequestPeers | tracker.py:52-73 | result and final counter are those of the retry outcome for the given request outcomes |
| Trackers.RetryOutcome | tracker.py:52-73 | result and counter of requestPeers; RetryResult, RetryExhaustion and SuccessfulRetryIsDropped |
| Trackers.RetryResult | tracker.py:16-73 | only an answered first request yields peers, and then the counter is unchanged; the counter stays within MAX_RETRY = 2 |
| Trackers.RetryExhaustion | tracker.py:62-69 | the counter reaches MAX_RETRY iff every request made failed with an exception other than TypeError |
| Trackers.SuccessfulRetryIsDropped | tracker.py:66-73 | failing once and then getting an answer still returns None |
| Trackers.NormalizeAll | tracker.py:22-40 | normalising a list of URLs keeps its length |
| Trackers.NormalizeAllSpec | tracker.py:22-40 | it fails iff some URL is empty; otherwise each result extends its URL and contains "announce" |
| Trackers.TrackerUrls | tracker.py:21-22 | the URL each tracker is built from, `url[0]` of each entry as written; SingleFileUrlTruncated |
| Trackers.SingleFileUrlTruncated | tracker.py:21-22 | as written, every single-file torrent's one tracker gets the first character c of the announce URL, normalised to c + "/announce" (or "/announce" when c is '/') |
| Trackers.SingleFileUrlExample | tracker.py:21-22 | "http://tracker.example/announce" gives the tracker URL "h/announce" |
| Trackers.TrackerUrlsIntended | tracker.py:19-24 | the corrected choice: the announce URL whole in single-file mode, the first URL of each tier otherwise; ManagerUrlsSpec |
| Trackers.ManagerUrls | tracker.py:19-24 | the normalised URLs of the manager's trackers under the corrected choice; ManagerUrlsSpec |
| Trackers.ManagerUrlsSpec | tracker.py:19-24 | with the corrected choice, a single-file torrent gets one tracker whose URL extends the announce URL and contains "announce"; multi-file torrents are unaffected |

## Left out

- I/O and concurrency are not modelled: reading and bdecoding the .torrent file, aiohttp requests, `urlencode`, `asyncio.sleep`/`as_completed`, `TrackerManager.getPeers` and `Tracker.getPeers`. The outcome of each announce request is a parameter.
- `getTrackerParams` (tracker.py:75-86) only builds a dictionary for `urlencode`, and is not modelled.
- SHA-1 and bencode are function parameters with no properties assumed. `time.time()` is a parameter.
- `Piece.writePieceData` is an empty method and is modelled as one.
- The `bitstring` library is not modelled: bitfields are raw bytes, and `downloaded_blocks` is unused.
- Floating point is not modelled: `math.ceil(float(a) / b)` is exact integer ceiling division, which differs only for values past 2^53.
- `block.py` uses `Enum` without importing it. The model treats `State` as the intended three-valued enumeration.
- Messages.NewHandshake: UTF-8 encoding is exact for scalar values. Python's error on surrogate code points is not modelled.
- Torrents.Info: the keys `announce`, `info.name`, `info.piece length`, `info.pieces` and each file's `length` and `path` are fields that are always present, so the KeyErrors that torrent.py:19, 42-43, 48, 50, 52, 62 and 67 raise when one is missing are not modelled. Only `length` and `files`, whose presence depends on the file mode, are optional.
- Torrents.HashPiece: indices are natural numbers. Python's behaviour for negative indices is not modelled.
- Trackers.Tracker.RequestPeers: requires tries < MAX_RETRY. A further call after exhaustion would count past 2, never equal MAX_RETRY again, and retry for as long as requests failed.
- Trackers.Tracker.RequestPeers: a TypeError raised before `response_data` is bound would turn into UnboundLocalError. The model treats TypeError as coming from bdecode.
- Trackers.Tracker.constructor: requires a non-empty URL. The empty URL's IndexError is the error case of `Trackers.Normalize`.
- `print`, `dump` and the `__main__` blocks are not modelled.
- `getCreationDate`, `getCreator`, `getComment`, `getTorrentInfo`, `getInfoHash`, `getRoot` and the shadowed `getFiles` at torrent.py:39-40 are plain lookups, or formatting of lookups, and are not modelled separately.

## Findings

| source | as written | input that shows it | evidently intended | confidence | as-written member | corrected member |
|---|---|---|---|---|---|---|
| tracker.py:22 with torrent.py:21 | each tracker is built from `url[0]` of an announce-list entry; in single-file mode the entries are URL strings, so this is their first character | a single-file torrent with announce "http://tracker.example/announce" gets one tracker with URL "h/announce" | `url[0]` is meant for announce-list tiers; a plain announce URL should be used whole | high (not executed) | Trackers.SingleFileUrlTruncated | Trackers.ManagerUrlsSpec |
