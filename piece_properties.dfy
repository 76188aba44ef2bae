/** What getEmptyBlock and isComplete guarantee about a piece's state. */
module PieceProperties {
  import opened Wrappers
  import opened Octets
  import opened Blocks
  import opened Pieces

  /** getEmptyBlock returns None exactly when the piece is complete or no
      block is FREE, and then changes nothing; otherwise it marks the
      lowest-index FREE block PENDING at time now, returns (piece_index,
      index * BLOCK_SIZE, that block's size) and leaves every other block
      as it was. */
  lemma GetEmptyBlockSpec(v: PieceView, pieceIndex: int, now: real)
    ensures var (r, w) := GetEmptyBlockStep(v, pieceIndex, now);
      && (r.None? <==> v.complete || forall j | 0 <= j < |v.blocks| :: v.blocks[j].state != FREE)
      && (r.None? ==> w == v)
      && (r.Some? ==>
            var k := r.value.begin / BLOCK_SIZE;
            && r.value == BlockRequest(pieceIndex, k * BLOCK_SIZE, v.blocks[k].size)
            && 0 <= k < |v.blocks| && v.blocks[k].state == FREE
            && (forall j | 0 <= j < k :: v.blocks[j].state != FREE)
            && w == v.(blocks := v.blocks[k := v.blocks[k].(state := PENDING, lastSeen := now)]))
  {
    var (r, w) := GetEmptyBlockStep(v, pieceIndex, now);
    if r.Some? {
      var k := FirstFree(v.blocks).value;
      assert r.value.begin == k * BLOCK_SIZE;
      assert r.value.begin / BLOCK_SIZE == k;
    }
  }

  /** The requests handed out by consecutive getEmptyBlock calls at the
      given times, with no flush in between, and the state they leave. */
  function Allocations(v: PieceView, pieceIndex: int, times: seq<real>): (seq<BlockRequest>, PieceView)
    decreases |times|
  {
    if times == [] then ([], v)
    else
      var (r, w) := GetEmptyBlockStep(v, pieceIndex, times[0]);
      var (rs, u) := Allocations(w, pieceIndex, times[1..]);
      (if r.Some? then [r.value] + rs else rs, u)
  }

  /** The request rq asks for the offset of a block that is FREE in vs. */
  ghost predicate ForFreeBlock(vs: seq<BlockView>, rq: BlockRequest)
  {
    && rq.begin % BLOCK_SIZE == 0
    && 0 <= rq.begin / BLOCK_SIZE < |vs|
    && vs[rq.begin / BLOCK_SIZE].state == FREE
  }

  ghost predicate DistinctBegins(rs: seq<BlockRequest>)
  {
    forall i, j | 0 <= i < j < |rs| :: rs[i].begin != rs[j].begin
  }

  /** Without an intervening flush, getEmptyBlock never hands out the same
      offset twice, and every offset it hands out is that of a block that
      was FREE to begin with. */
  lemma {:induction false} AllocationsDistinct(v: PieceView, pieceIndex: int, times: seq<real>)
    ensures forall rq | rq in Allocations(v, pieceIndex, times).0 :: ForFreeBlock(v.blocks, rq)
    ensures DistinctBegins(Allocations(v, pieceIndex, times).0)
    decreases |times|
  {
    if times != [] {
      var now := times[0];
      var step := GetEmptyBlockStep(v, pieceIndex, now);
      var r, w := step.0, step.1;
      AllocationsDistinct(w, pieceIndex, times[1..]);
      var rs' := Allocations(w, pieceIndex, times[1..]).0;
      if r.None? {
        assert Allocations(v, pieceIndex, times).0 == rs';
      } else {
        var k0 := FirstFree(v.blocks).value;
        assert r.value == BlockRequest(pieceIndex, k0 * BLOCK_SIZE, v.blocks[k0].size);
        assert w.blocks == v.blocks[k0 := v.blocks[k0].(state := PENDING, lastSeen := now)];
        forall rq | rq in rs' ensures ForFreeBlock(v.blocks, rq) && rq.begin != r.value.begin {
          FreeAfterAllocation(v.blocks, k0, now, rq);
        }
        assert ForFreeBlock(v.blocks, r.value) by {
          assert r.value.begin / BLOCK_SIZE == k0;
        }
        PrependDistinct(r.value, rs');
        assert Allocations(v, pieceIndex, times).0 == [r.value] + rs';
      }
    }
  }

  /** Putting a request in front of distinct ones whose offsets all differ
      from its own keeps the offsets distinct. */
  lemma PrependDistinct(rq: BlockRequest, rs: seq<BlockRequest>)
    requires DistinctBegins(rs)
    requires forall x | x in rs :: x.begin != rq.begin
    ensures DistinctBegins([rq] + rs)
  {
    var all := [rq] + rs;
    forall i, j | 0 <= i < j < |all| ensures all[i].begin != all[j].begin {
      assert all[j] == rs[j - 1] && all[j] in rs;
      if i > 0 { assert all[i] == rs[i - 1]; }
    }
  }

  /** A block still FREE after block k0 was marked PENDING was FREE before,
      and is not block k0. */
  lemma FreeAfterAllocation(vs: seq<BlockView>, k0: nat, now: real, rq: BlockRequest)
    requires k0 < |vs|
    requires ForFreeBlock(vs[k0 := vs[k0].(state := PENDING, lastSeen := now)], rq)
    ensures ForFreeBlock(vs, rq) && rq.begin != k0 * BLOCK_SIZE
  {
    assert rq.begin == (rq.begin / BLOCK_SIZE) * BLOCK_SIZE;
  }

  /** The piece's state as the code keeps it: data exists exactly once the
      piece is complete, and then every block is COMPLETE and data is their
      concatenation. */
  ghost predicate WellFormed(v: PieceView)
  {
    && (v.complete ==> AllComplete(v.blocks) && v.data == Some(Concat(v.blocks)))
    && (!v.complete ==> v.data == None)
  }

  function Sizes(vs: seq<BlockView>): seq<int>
  {
    seq(|vs|, i requires 0 <= i < |vs| => vs[i].size)
  }

  /** A new piece is well formed, and getEmptyBlock and isComplete keep it
      so; neither changes the number or the sizes of the blocks. */
  lemma StepsPreserveWellFormed(v: PieceView, pieceIndex: int, now: real, sha1: Bytes -> Bytes, pieceHash: Bytes)
    requires WellFormed(v)
    ensures WellFormed(GetEmptyBlockStep(v, pieceIndex, now).1)
    ensures Sizes(GetEmptyBlockStep(v, pieceIndex, now).1.blocks) == Sizes(v.blocks)
    ensures WellFormed(IsCompleteStep(v, sha1, pieceHash).1)
    ensures Sizes(IsCompleteStep(v, sha1, pieceHash).1.blocks) == Sizes(v.blocks)
  {
    GetEmptyBlockSpec(v, pieceIndex, now);
  }

  lemma InitialIsWellFormed(pieceSize: nat)
    ensures WellFormed(PieceView(false, InitialBlocks(pieceSize), None))
  {
  }

  /** isComplete returns False and changes nothing while a block is FREE
      or PENDING. */
  lemma NotReadyUnchanged(v: PieceView, sha1: Bytes -> Bytes, pieceHash: Bytes, i: nat)
    requires !v.complete && i < |v.blocks| && v.blocks[i].state != COMPLETE
    ensures IsCompleteStep(v, sha1, pieceHash) == (Some(false), v)
  {
  }

  /** When every block is COMPLETE but the SHA-1 of their concatenation is
      not the piece hash, isComplete returns False, leaves the piece
      incomplete and flushes every block to FREE with no data, keeping the
      sizes; the next getEmptyBlock hands out the first block again. */
  lemma HashMismatchResets(v: PieceView, sha1: Bytes -> Bytes, pieceHash: Bytes, pieceIndex: int, now: real)
    requires !v.complete && AllComplete(v.blocks) && |v.blocks| >= 1
    requires sha1(Concat(v.blocks)) != pieceHash
    ensures var (r, w) := IsCompleteStep(v, sha1, pieceHash);
      && r == Some(false) && !w.complete && w.data == v.data && |w.blocks| == |v.blocks|
      && (forall i | 0 <= i < |w.blocks| ::
            w.blocks[i].state == FREE && w.blocks[i].data == [] && w.blocks[i].size == v.blocks[i].size)
      && GetEmptyBlockStep(w, pieceIndex, now).0 == Some(BlockRequest(pieceIndex, 0, v.blocks[0].size))
  {
  }

  /** On a hash match isComplete latches complete, keeps the concatenation
      as data and returns None; from then on isComplete returns True
      without consulting the hash, and getEmptyBlock returns None, neither
      changing anything. */
  lemma LatchIsSticky(v: PieceView, sha1: Bytes -> Bytes, pieceHash: Bytes,
                      laterSha1: Bytes -> Bytes, laterHash: Bytes, pieceIndex: int, now: real)
    requires IsCompleteStep(v, sha1, pieceHash).0 == None
    ensures var w := IsCompleteStep(v, sha1, pieceHash).1;
      && !v.complete && AllComplete(v.blocks) && sha1(Concat(v.blocks)) == pieceHash
      && w == v.(complete := true, data := Some(Concat(v.blocks)))
      && IsCompleteStep(w, laterSha1, laterHash) == (Some(true), w)
      && GetEmptyBlockStep(w, pieceIndex, now) == (None, w)
  {
  }

  /** isComplete returns None at most once: the call after it returns True. */
  lemma LatchOnce(v: PieceView, sha1: Bytes -> Bytes, pieceHash: Bytes, laterSha1: Bytes -> Bytes)
    ensures IsCompleteStep(v, sha1, pieceHash).0 == None ==>
      IsCompleteStep(IsCompleteStep(v, sha1, pieceHash).1, laterSha1, pieceHash).0 == Some(true)
  {
  }

  /** Flushing every block is idempotent and only touches state and data. */
  lemma FlushAllIdempotent(vs: seq<BlockView>)
    ensures FlushAll(FlushAll(vs)) == FlushAll(vs)
    ensures Sizes(FlushAll(vs)) == Sizes(vs)
    ensures forall i | 0 <= i < |vs| :: FlushAll(vs)[i].lastSeen == vs[i].lastSeen
  {
    forall i | 0 <= i < |vs| ensures FlushAll(FlushAll(vs))[i] == FlushAll(vs)[i] {
      FlushIdempotent(vs[i]);
    }
  }
}
