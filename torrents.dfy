/** The metadata a client derives from a decoded .torrent file: the file
    mode, the total size, the piece count, the per-piece SHA-1 hashes, the
    file list and the announce list. The metainfo dictionary is an abstract
    record; reading and bdecoding the file are not modelled. */
module Torrents {
  import opened Wrappers
  import opened Octets

  /** Lookup and arithmetic errors the getters can raise. */
  datatype TorrentError = KeyError | ZeroDivisionError

  /** One entry of the info dictionary's `files` list. */
  datatype FileInfo = FileInfo(length: nat, path: seq<string>)

  /** The info dictionary: `length` is present in single-file torrents and
      `files` in multi-file ones; presence of `files` decides the mode. */
  datatype Info = Info(name: string, pieceLength: nat, pieces: Bytes,
                       length: Option<nat>, files: Option<seq<FileInfo>>)

  datatype Metainfo = Metainfo(announce: string,
                               announceList: Option<seq<seq<string>>>,
                               info: Info)

  /** What getAnnounceList returns: a list of URL strings in single-file
      mode, otherwise the (possibly absent) list of tiers. */
  datatype AnnounceList = Urls(urls: seq<string>) | Tiers(tiers: Option<seq<seq<string>>>)

  predicate IsSingleFile(info: Info)
  {
    info.files.None?
  }

  function SumLengths(fs: seq<FileInfo>): nat
  {
    if fs == [] then 0 else SumLengths(fs[..|fs| - 1]) + fs[|fs| - 1].length
  }

  /** getSize: the `length` entry in single-file mode, the sum of the file
      lengths otherwise; a single-file info without `length` is a KeyError. */
  function Size(info: Info): (r: Result<nat, TorrentError>)
    ensures IsSingleFile(info) ==> (r.Ok? <==> info.length.Some?)
    ensures IsSingleFile(info) && r.Ok? ==> r.value == info.length.value
    ensures !IsSingleFile(info) ==> r == Ok(SumLengths(info.files.value))
  {
    match info.files
    case None => if info.length.Some? then Ok(info.length.value) else Err(KeyError)
    case Some(fs) => Ok(SumLengths(fs))
  }

  /** Every file fits inside the sum of the lengths, and the files are
      laid out back to back: file i starts at the sum of the lengths before
      it. */
  lemma {:induction false} FilesFitInSize(fs: seq<FileInfo>, i: nat)
    requires i < |fs|
    ensures SumLengths(fs[..i]) + fs[i].length <= SumLengths(fs)
  {
    if i < |fs| - 1 {
      FilesFitInSize(fs[..|fs| - 1], i);
      assert fs[..|fs| - 1][..i] == fs[..i];
    } else {
      assert fs[..i] == fs[..|fs| - 1];
    }
  }

  /** Ceiling division on naturals, for math.ceil(total / piece_size). */
  function CeilDiv(a: nat, b: nat): nat
    requires b > 0
  {
    (a + b - 1) / b
  }

  /** The number of pieces, ceil(total / piece length), using the same total
      as getSize; a zero piece length divides by zero. */
  function NumPieces(info: Info): Result<nat, TorrentError>
  {
    match Size(info)
    case Err(e) => Err(e)
    case Ok(total) =>
      if info.pieceLength == 0 then Err(ZeroDivisionError) else Ok(CeilDiv(total, info.pieceLength))
  }

  function PieceSize(info: Info): nat
  {
    info.pieceLength
  }

  /** The piece count is the least number of pieces of the piece size that
      covers the total size, and it fails exactly when a single-file info has
      no length or the piece size is zero. */
  lemma NumPiecesSpec(info: Info)
    ensures NumPieces(info).Ok? <==> Size(info).Ok? && PieceSize(info) > 0
    ensures NumPieces(info).Ok? ==>
      var n, total, p := NumPieces(info).value, Size(info).value, PieceSize(info);
      && total <= n * p
      && (n > 0 ==> (n - 1) * p < total)
      && (n == 0 <==> total == 0)
  {
    if NumPieces(info).Ok? {
      var n, total, p := NumPieces(info).value, Size(info).value, PieceSize(info);
      CeilDivBounds(total, p);
    }
  }

  lemma CeilDivBounds(a: nat, b: nat)
    requires b > 0
    ensures a <= CeilDiv(a, b) * b
    ensures CeilDiv(a, b) > 0 ==> (CeilDiv(a, b) - 1) * b < a
    ensures CeilDiv(a, b) == 0 <==> a == 0
  {
    var q, r := (a + b - 1) / b, (a + b - 1) % b;
    assert a + b - 1 == q * b + r;
    assert 0 <= r < b;
    if q > 0 {
      assert (q - 1) * b == q * b - b;
    }
  }

  /** getHashPiece(idx): bytes [20 idx, 20 idx + 20) of `pieces`, clamped to
      its length as a Python slice is. */
  function HashPiece(info: Info, idx: nat): (r: Bytes)
    ensures |r| == Max(0, Min(20, |info.pieces| - 20 * idx))
    ensures 20 * (idx + 1) <= |info.pieces| ==> r == info.pieces[20 * idx..20 * idx + 20]
  {
    Slice(info.pieces, idx * 20, idx * 20 + 20)
  }

  /** The first n hash pieces joined back together. */
  function JoinHashes(info: Info, n: nat): Bytes
  {
    if n == 0 then [] else JoinHashes(info, n - 1) + HashPiece(info, n - 1)
  }

  /** Joining the hash pieces 0 .. n-1 gives back the first 20 n bytes of
      `pieces`, so the hashes are disjoint, consecutive and complete. */
  lemma {:induction false} JoinHashesIsPrefix(info: Info, n: nat)
    requires 20 * n <= |info.pieces|
    ensures JoinHashes(info, n) == info.pieces[..20 * n]
  {
    if n > 0 {
      JoinHashesIsPrefix(info, n - 1);
      assert info.pieces[..20 * n] == info.pieces[..20 * (n - 1)] + info.pieces[20 * (n - 1)..20 * n];
    }
  }

  /** getFiles as the file list it is meant to build: [[name]] in
      single-file mode, otherwise each file's path in declared order. */
  function FileList(info: Info): seq<seq<string>>
  {
    if IsSingleFile(info) then [[info.name]]
    else seq(|info.files.value|, i requires 0 <= i < |info.files.value| => info.files.value[i].path)
  }

  /** getAnnounceList: [announce] in single-file mode, otherwise the
      `announce-list` entry, which may be absent. */
  function GetAnnounceList(m: Metainfo): (r: AnnounceList)
    ensures IsSingleFile(m.info) <==> r.Urls?
    ensures r.Urls? ==> r.urls == [m.announce]
    ensures r.Tiers? ==> r.tiers == m.announceList
  {
    if IsSingleFile(m.info) then Urls([m.announce]) else Tiers(m.announceList)
  }

  /** A loaded torrent. The constructor assigns the file mode, then the
      file list, then the info hash, the SHA-1 of the bencoded info
      dictionary; SHA-1 and bencoding are parameters. */
  class Torrent {
    const metainfo: Metainfo
    var fileMode: bool
    var files: seq<seq<string>>
    var infoHash: Bytes

    constructor (metainfo: Metainfo, bencode: Info -> Bytes, sha1: Bytes -> Bytes)
      ensures this.metainfo == metainfo
      ensures fileMode == IsSingleFile(metainfo.info)
      ensures files == FileList(metainfo.info)
      ensures infoHash == sha1(bencode(metainfo.info))
    {
      this.metainfo := metainfo;
      fileMode := IsSingleFile(metainfo.info);
      new;
      files := GetFiles();
      infoHash := sha1(bencode(metainfo.info));
    }

    /** The getFiles defined last in the class (the earlier one, which
        returns the stored list, is shadowed): it appends [name] in
        single-file mode, or each file's path in turn. */
    method GetFiles() returns (r: seq<seq<string>>)
      requires fileMode == IsSingleFile(metainfo.info)
      ensures fileMode ==> r == [[metainfo.info.name]]
      ensures !fileMode ==> |r| == |metainfo.info.files.value|
      ensures !fileMode ==> forall i | 0 <= i < |r| :: r[i] == metainfo.info.files.value[i].path
      ensures r == FileList(metainfo.info)
    {
      r := [];
      var root := metainfo.info.name;
      if fileMode {
        r := r + [[root]];
      } else {
        var fs := metainfo.info.files.value;
        var k := 0;
        while k < |fs|
          invariant 0 <= k <= |fs|
          invariant |r| == k
          invariant forall i | 0 <= i < k :: r[i] == fs[i].path
        {
          r := r + [fs[k].path];
          k := k + 1;
        }
      }
    }
  }
}
