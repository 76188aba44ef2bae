/** Tracker-side logic that does not touch the network: the client's peer
    id, the normalisation of an announce URL, the retry counter around the
    announce request, and how the tracker manager picks one URL per
    announce-list entry. */
module Trackers {
  import opened Wrappers
  import opened Octets
  import opened Messages
  import opened MessageProperties
  import opened Torrents

  datatype TrackerError = IndexError | TypeError

  const MAX_RETRY: nat := 2
  const PEER_ID_PREFIX: string := "SISTER-"

  /** Membership in string.ascii_lowercase + string.digits. */
  predicate InPeerIdAlphabet(ch: char)
  {
    'a' <= ch <= 'z' || '0' <= ch <= '9'
  }

  /** Character k (taken modulo 36) of string.ascii_lowercase + string.digits. */
  function AlphabetChar(k: nat): (ch: char)
    ensures InPeerIdAlphabet(ch)
  {
    var j := k % 36;
    if j < 26 then ('a' as int + j) as char else ('0' as int + j - 26) as char
  }

  /** PEER_ID: the prefix followed by 13 random characters of the alphabet;
      draws[i] stands for the i-th random choice. */
  function PeerId(draws: seq<nat>): (r: string)
    requires |draws| == 13
    ensures |r| == 20 && r[..7] == PEER_ID_PREFIX
    ensures forall i | 7 <= i < 20 :: InPeerIdAlphabet(r[i])
    ensures IsAscii(r)
  {
    var suffix := seq(13, i requires 0 <= i < 13 => AlphabetChar(draws[i]));
    assert IsAscii(PEER_ID_PREFIX);
    PEER_ID_PREFIX + suffix
  }

  /** The peer id fills the 20-byte peer_id field of a handshake exactly,
      so a handshake built from it reads back unchanged. */
  lemma PeerIdFitsHandshake(draws: seq<nat>, infoHash: Bytes)
    requires |draws| == 13 && |infoHash| == 20
    ensures var m := NewHandshake(Text(PeerId(draws)), infoHash);
      && |m.peerId| == 20
      && HandshakeRead(HandshakeWrite(m.peerId, m.infoHash)) == Ok(m)
  {
    Utf8OfAscii(PeerId(draws));
    var m := NewHandshake(Text(PeerId(draws)), infoHash);
    HandshakeRoundTrip(m.peerId, m.infoHash);
  }

  /** Python's `sub in s` on strings. */
  predicate Contains(s: string, sub: string)
    decreases |s|
  {
    (|sub| <= |s| && s[..|sub|] == sub) || (|s| > 0 && Contains(s[1..], sub))
  }

  /** `sub in s` holds exactly when sub occurs at some offset of s. */
  lemma {:induction false} ContainsAt(s: string, sub: string, i: nat)
    requires i + |sub| <= |s| && s[i..i + |sub|] == sub
    ensures Contains(s, sub)
    decreases i
  {
    if i > 0 {
      assert s[1..][i - 1..i - 1 + |sub|] == s[i..i + |sub|];
      ContainsAt(s[1..], sub, i - 1);
    }
  }

  lemma {:induction false} ContainsHasOffset(s: string, sub: string) returns (i: nat)
    requires Contains(s, sub)
    ensures i + |sub| <= |s| && s[i..i + |sub|] == sub
    decreases |s|
  {
    if |sub| <= |s| && s[..|sub|] == sub {
      i := 0;
    } else {
      var j := ContainsHasOffset(s[1..], sub);
      assert s[1..][j..j + |sub|] == s[j + 1..j + 1 + |sub|];
      i := j + 1;
    }
  }

  /** Appending text keeps an occurrence, and the appended text occurs. */
  lemma ContainsAppend(s: string, t: string, sub: string)
    ensures Contains(s, sub) ==> Contains(s + t, sub)
    ensures Contains(s + t, t)
  {
    if Contains(s, sub) {
      var i := ContainsHasOffset(s, sub);
      assert (s + t)[i..i + |sub|] == s[i..i + |sub|];
      ContainsAt(s + t, sub, i);
    }
    assert (s + t)[|s|..|s| + |t|] == t;
    ContainsAt(s + t, t, |s|);
  }

  /** The URL rewriting of Tracker.__init__: a URL that mentions "announce"
      is kept, otherwise "announce" is appended after a trailing '/' and
      "/announce" elsewhere; the empty URL fails on url[-1]. */
  function Normalize(url: string): Result<string, TrackerError>
  {
    if Contains(url, "announce") then Ok(url)
    else if url == [] then Err(IndexError)
    else if url[|url| - 1] == '/' then Ok(url + "announce")
    else Ok(url + "/announce")
  }

  /** Normalising fails only on the empty URL; otherwise the URL is a
      prefix of the result, the result mentions "announce", a URL that
      already mentions it is unchanged, and normalising again changes
      nothing. */
  lemma NormalizeSpec(url: string)
    ensures Normalize(url).Err? <==> url == []
    ensures Normalize(url).Ok? ==>
      var r := Normalize(url).value;
      && url <= r
      && Contains(r, "announce")
      && (Contains(url, "announce") ==> r == url)
      && Normalize(r) == Ok(r)
  {
    if url == [] {
      ShortNotContained(url, "announce");
    } else {
      var r := Normalize(url).value;
      if !Contains(url, "announce") {
        var tail := if url[|url| - 1] == '/' then url else url + "/";
        assert r == tail + "announce";
        ContainsAppend(tail, "announce", "announce");
      }
      assert Contains(r, "announce");
    }
  }

  /** A string shorter than sub does not contain it. */
  lemma {:induction false} ShortNotContained(s: string, sub: string)
    requires |s| < |sub|
    ensures !Contains(s, sub)
    decreases |s|
  {
    if |s| > 0 {
      ShortNotContained(s[1..], sub);
    }
  }

  /** One announce request, as the network and bdecode resolved it. */
  datatype Attempt =
    | Answered(response: Bytes)   // the decoded tracker response
    | DecodeTypeError             // bdecode raised TypeError
    | Failed                      // any other exception

  /** requestPeers from a counter value: the peers, or None; and the
      counter afterwards. The result of the recursive retry is dropped. */
  function RetryOutcome(tries: nat, attempts: seq<Attempt>): (Option<Bytes>, nat)
    requires tries < MAX_RETRY && |attempts| >= MAX_RETRY - tries
    decreases MAX_RETRY - tries
  {
    match attempts[0]
    case Answered(peers) => (Some(peers), tries)
    case DecodeTypeError => (None, tries)
    case Failed =>
      if tries + 1 == MAX_RETRY then (None, tries + 1)
      else (None, RetryOutcome(tries + 1, attempts[1..]).1)
  }

  /** Only a first request that answers yields peers, and then the counter
      is unchanged; the counter never passes MAX_RETRY. */
  lemma RetryResult(tries: nat, attempts: seq<Attempt>)
    requires tries < MAX_RETRY && |attempts| >= MAX_RETRY - tries
    ensures var (r, after) := RetryOutcome(tries, attempts);
      && tries <= after <= MAX_RETRY
      && (r.Some? <==> attempts[0].Answered?)
      && (r.Some? ==> r.value == attempts[0].response && after == tries)
  {
  }

  /** The counter reaches MAX_RETRY exactly when every request made fails
      with an exception other than TypeError. */
  lemma {:induction false} RetryExhaustion(tries: nat, attempts: seq<Attempt>)
    requires tries < MAX_RETRY && |attempts| >= MAX_RETRY - tries
    ensures RetryOutcome(tries, attempts).1 == MAX_RETRY <==>
      forall i | 0 <= i < MAX_RETRY - tries :: attempts[i].Failed?
    decreases MAX_RETRY - tries
  {
    if attempts[0].Failed? && tries + 1 < MAX_RETRY {
      RetryExhaustion(tries + 1, attempts[1..]);
      assert forall i | 1 <= i < MAX_RETRY - tries :: attempts[1..][i - 1] == attempts[i];
      RetryResult(tries + 1, attempts[1..]);
    }
  }

  /** A fresh tracker that fails once and then gets an answer still returns
      None, after one counted failure. */
  lemma SuccessfulRetryIsDropped(peers: Bytes)
    ensures RetryOutcome(0, [Failed, Answered(peers)]) == (None, 1)
  {
  }

  class Tracker {
    var url: string
    const infoHash: Bytes
    const size: int
    var tries: nat

    /** Tracker.__init__: stores the URL, rewriting it in place when it does
        not mention "announce", and starts the counter at 0. */
    constructor (trackerUrl: string, infoHash: Bytes, size: int)
      requires trackerUrl != []
      ensures Normalize(trackerUrl) == Ok(url)
      ensures this.infoHash == infoHash && this.size == size && tries == 0
    {
      url := trackerUrl;
      this.infoHash := infoHash;
      this.size := size;
      tries := 0;
      new;
      if !Contains(url, "announce") {
        if url[|url| - 1] == '/' {
          url := url + "announce";
        } else {
          url := url + "/announce";
        }
      }
    }

    /** requestPeers: each request that raises an exception other than
        TypeError counts a try, and the request is retried until the count
        reaches MAX_RETRY; attempts[k] is how the k-th request ends. */
    method RequestPeers(attempts: seq<Attempt>) returns (r: Option<Bytes>)
      requires tries < MAX_RETRY && |attempts| >= MAX_RETRY - tries
      modifies this`tries
      ensures (r, tries) == RetryOutcome(old(tries), attempts)
      decreases MAX_RETRY - tries
    {
      match attempts[0] {
        case Answered(peers) =>
          return Some(peers);
        case DecodeTypeError =>
          return None;
        case Failed =>
          tries := tries + 1;
          if tries == MAX_RETRY {
            return None;
          }
          var _ := RequestPeers(attempts[1..]);
          return None;
      }
    }
  }

  /** TrackerManager.__init__ as written: one tracker per entry of the
      announce list, built from the entry's first element. For a tier that
      is its first URL; for the single-file list [announce] it is the first
      character of the URL. */
  function TrackerUrls(al: AnnounceList): Result<seq<string>, TrackerError>
  {
    match al
    case Urls(us) =>
      if exists i | 0 <= i < |us| :: us[i] == [] then Err(IndexError)
      else Ok(seq(|us|, i requires 0 <= i < |us| => [us[i][0]]))
    case Tiers(None) => Err(TypeError)
    case Tiers(Some(ts)) =>
      if exists i | 0 <= i < |ts| :: ts[i] == [] then Err(IndexError)
      else Ok(seq(|ts|, i requires 0 <= i < |ts| => ts[i][0]))
  }

  /** As written, the one tracker of a single-file torrent gets the first
      character of the announce URL as its URL, which the tracker then
      normalises to that character followed by "announce" or "/announce". */
  lemma SingleFileUrlTruncated(m: Metainfo)
    requires IsSingleFile(m.info) && m.announce != []
    ensures TrackerUrls(GetAnnounceList(m)) == Ok([[m.announce[0]]])
    ensures var c := m.announce[0];
      Normalize([c]) == Ok([c] + (if c == '/' then "announce" else "/announce"))
  {
    var c := m.announce[0];
    ShortNotContained([c], "announce");
    var us := [m.announce];
    assert GetAnnounceList(m) == Urls(us);
    assert seq(|us|, i requires 0 <= i < |us| => [us[i][0]]) == [[c]];
  }

  /** For instance, "http://tracker.example/announce" becomes "h", which the
      tracker turns into "h/announce". */
  lemma SingleFileUrlExample(m: Metainfo)
    requires IsSingleFile(m.info) && m.announce == "http://tracker.example/announce"
    ensures TrackerUrls(GetAnnounceList(m)) == Ok(["h"])
    ensures Normalize("h") == Ok("h/announce")
    ensures "h/announce" != m.announce
  {
    SingleFileUrlTruncated(m);
    assert [m.announce[0]] == "h";
    assert "h" + "/announce" == "h/announce";
  }

  /** The tracker URLs as intended: the announce URL itself in single-file
      mode, the first URL of each tier otherwise. */
  function TrackerUrlsIntended(al: AnnounceList): Result<seq<string>, TrackerError>
  {
    match al
    case Urls(us) => Ok(us)
    case Tiers(None) => Err(TypeError)
    case Tiers(Some(ts)) =>
      if exists i | 0 <= i < |ts| :: ts[i] == [] then Err(IndexError)
      else Ok(seq(|ts|, i requires 0 <= i < |ts| => ts[i][0]))
  }

  /** Normalises every URL, failing on the first that cannot be. */
  function NormalizeAll(us: seq<string>): (r: Result<seq<string>, TrackerError>)
    ensures r.Ok? ==> |r.value| == |us|
  {
    if us == [] then Ok([])
    else
      match Normalize(us[0])
      case Err(e) => Err(e)
      case Ok(u) =>
        match NormalizeAll(us[1..])
        case Err(e) => Err(e)
        case Ok(rest) => Ok([u] + rest)
  }

  /** The URLs the manager's trackers end up with, from the corrected
      choice of URLs. */
  function ManagerUrls(m: Metainfo): Result<seq<string>, TrackerError>
  {
    match TrackerUrlsIntended(GetAnnounceList(m))
    case Err(e) => Err(e)
    case Ok(us) => NormalizeAll(us)
  }

  /** With the corrected choice a single-file torrent gets one tracker
      whose URL extends the announce URL and mentions "announce"; for
      multi-file torrents the corrected choice is the one written. */
  lemma ManagerUrlsSpec(m: Metainfo)
    ensures IsSingleFile(m.info) && m.announce != [] ==>
      && ManagerUrls(m).Ok? && |ManagerUrls(m).value| == 1
      && m.announce <= ManagerUrls(m).value[0]
      && Contains(ManagerUrls(m).value[0], "announce")
    ensures !IsSingleFile(m.info) ==>
      TrackerUrlsIntended(GetAnnounceList(m)) == TrackerUrls(GetAnnounceList(m))
  {
    if IsSingleFile(m.info) && m.announce != [] {
      NormalizeSpec(m.announce);
      var us := [m.announce];
      assert TrackerUrlsIntended(GetAnnounceList(m)) == Ok(us);
      assert us[1..] == [] && us[0] == m.announce;
      assert NormalizeAll(us[1..]) == Ok([]);
      var u := Normalize(m.announce).value;
      assert Normalize(us[0]) == Ok(u);
      assert [u] + [] == [u];
      assert NormalizeAll(us) == Ok([u]);
    }
  }

  /** Every URL NormalizeAll produces extends its input and mentions
      "announce". */
  lemma {:induction false} NormalizeAllSpec(us: seq<string>)
    ensures NormalizeAll(us).Err? <==> exists i | 0 <= i < |us| :: us[i] == []
    ensures NormalizeAll(us).Ok? ==> forall i | 0 <= i < |us| ::
      us[i] <= NormalizeAll(us).value[i] && Contains(NormalizeAll(us).value[i], "announce")
  {
    if us != [] {
      NormalizeSpec(us[0]);
      NormalizeAllSpec(us[1..]);
      assert forall i | 1 <= i < |us| :: us[1..][i - 1] == us[i];
      if NormalizeAll(us).Ok? {
        var r := NormalizeAll(us).value;
        assert r == [Normalize(us[0]).value] + NormalizeAll(us[1..]).value;
        assert forall i | 1 <= i < |us| :: r[i] == NormalizeAll(us[1..]).value[i - 1];
      }
    }
  }
}
