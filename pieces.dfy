/** A piece of the torrent and the download state of its blocks.
    `getEmptyBlock` hands out the first FREE block, and `isComplete`
    verifies the assembled bytes against the piece's SHA-1 hash: a mismatch
    flushes every block, a match latches `complete`.  SHA-1 is a parameter
    (`sha1`) and `time.time()` is the parameter `now`. */
module Pieces {
  import opened Wrappers
  import opened Octets
  import opened Blocks

  /** What getEmptyBlock returns: (piece_index, byte offset, length). */
  datatype BlockRequest = BlockRequest(pieceIndex: int, begin: int, length: int)

  /** The mutable fields of a piece, as a value.  `data` is None while the
      Python attribute does not exist yet. */
  datatype PieceView = PieceView(complete: bool, blocks: seq<BlockView>, data: Option<Bytes>)

  /** int(math.ceil(float(piece_size) / BLOCK_SIZE)), on exact integers. */
  function NumBlocks(pieceSize: nat): nat
  {
    (pieceSize + BLOCK_SIZE - 1) / BLOCK_SIZE
  }

  /** NumBlocks is the least count of BLOCK_SIZE blocks that covers the piece. */
  lemma NumBlocksIsCeiling(pieceSize: nat)
    ensures NumBlocks(pieceSize) * BLOCK_SIZE >= pieceSize
    ensures NumBlocks(pieceSize) == 0 || (NumBlocks(pieceSize) - 1) * BLOCK_SIZE < pieceSize
    ensures NumBlocks(pieceSize) == 0 <==> pieceSize == 0
  {
  }

  /** The blocks initialize_blocks builds: num_blocks - 1 default blocks
      (none when num_blocks is 0) and then one of piece_size % BLOCK_SIZE. */
  function InitialBlocks(pieceSize: nat): seq<BlockView>
  {
    seq(Max(NumBlocks(pieceSize) - 1, 0), _ => NewView(BLOCK_SIZE)) + [NewView(pieceSize % BLOCK_SIZE)]
  }

  /** A new piece has one FREE, empty block per BLOCK_SIZE bytes (one, of
      size 0, for an empty piece); all but the last have size BLOCK_SIZE,
      and the last has piece_size % BLOCK_SIZE, which is 0 for a multiple
      of BLOCK_SIZE. */
  lemma InitialBlocksShape(pieceSize: nat)
    ensures var bs := InitialBlocks(pieceSize);
      && |bs| == (if pieceSize == 0 then 1 else NumBlocks(pieceSize))
      && (forall i | 0 <= i < |bs| :: bs[i].state == FREE && bs[i].lastSeen == 0.0 && bs[i].data == [])
      && (forall i | 0 <= i < |bs| - 1 :: bs[i].size == BLOCK_SIZE)
      && bs[|bs| - 1].size == pieceSize % BLOCK_SIZE
  {
  }

  function SumSizes(vs: seq<BlockView>): int
  {
    if vs == [] then 0 else SumSizes(vs[..|vs| - 1]) + vs[|vs| - 1].size
  }

  lemma {:induction false} SumSizesFull(n: nat)
    ensures SumSizes(seq(n, _ => NewView(BLOCK_SIZE))) == n * BLOCK_SIZE
  {
    if n > 0 {
      var s := seq(n, _ => NewView(BLOCK_SIZE));
      assert s[..n - 1] == seq(n - 1, _ => NewView(BLOCK_SIZE));
      SumSizesFull(n - 1);
    }
  }

  /** The block sizes add up to piece_size, except for a non-empty piece
      whose size is a multiple of BLOCK_SIZE: its last block has size 0,
      so one block's worth of bytes is never requested. */
  lemma BlockSizesCover(pieceSize: nat)
    ensures SumSizes(InitialBlocks(pieceSize)) ==
      if pieceSize > 0 && pieceSize % BLOCK_SIZE == 0 then pieceSize - BLOCK_SIZE else pieceSize
  {
    var bs := InitialBlocks(pieceSize);
    var k := Max(NumBlocks(pieceSize) - 1, 0);
    assert bs[..|bs| - 1] == seq(k, _ => NewView(BLOCK_SIZE));
    SumSizesFull(k);
  }

  /** The lowest index of a FREE block, if there is one. */
  function FirstFree(vs: seq<BlockView>): (r: Option<nat>)
    ensures r.Some? ==> r.value < |vs| && vs[r.value].state == FREE
    ensures r.Some? ==> forall j | 0 <= j < r.value :: vs[j].state != FREE
    ensures r.None? <==> forall j | 0 <= j < |vs| :: vs[j].state != FREE
  {
    if vs == [] then None
    else if vs[0].state == FREE then Some(0)
    else match FirstFree(vs[1..])
      case None => None
      case Some(i) => Some(i + 1)
  }

  /** One call of getEmptyBlock: the result and the new state. */
  function GetEmptyBlockStep(v: PieceView, pieceIndex: int, now: real): (Option<BlockRequest>, PieceView)
  {
    if v.complete then (None, v)
    else match FirstFree(v.blocks)
      case None => (None, v)
      case Some(i) =>
        (Some(BlockRequest(pieceIndex, i * BLOCK_SIZE, v.blocks[i].size)),
         v.(blocks := v.blocks[i := v.blocks[i].(state := PENDING, lastSeen := now)]))
  }

  predicate AllComplete(vs: seq<BlockView>)
  {
    forall i | 0 <= i < |vs| :: vs[i].state == COMPLETE
  }

  /** b''.join of the blocks' data, in order. */
  function Concat(vs: seq<BlockView>): Bytes
  {
    if vs == [] then [] else Concat(vs[..|vs| - 1]) + vs[|vs| - 1].data
  }

  function FlushAll(vs: seq<BlockView>): seq<BlockView>
  {
    seq(|vs|, i requires 0 <= i < |vs| => Flushed(vs[i]))
  }

  /** One call of isComplete: Some(false) for False, None for the call
      that latches (it falls off the end), Some(true) for True. */
  function IsCompleteStep(v: PieceView, sha1: Bytes -> Bytes, pieceHash: Bytes): (Option<bool>, PieceView)
  {
    if v.complete then (Some(true), v)
    else if !AllComplete(v.blocks) then (Some(false), v)
    else
      var joined := Concat(v.blocks);
      if sha1(joined) != pieceHash then (Some(false), v.(blocks := FlushAll(v.blocks)))
      else (None, v.(complete := true, data := Some(joined)))
  }

  ghost function ViewsOf(bs: seq<Block>): (vs: seq<BlockView>)
    reads bs
    ensures |vs| == |bs| && forall i | 0 <= i < |bs| :: vs[i] == bs[i].View()
  {
    seq(|bs|, i reads bs requires 0 <= i < |bs| => bs[i].View())
  }

  class Piece {
    const pieceIndex: int
    const pieceHash: Bytes
    const pieceSize: nat
    const numBlocks: nat
    var blocks: seq<Block>
    var complete: bool
    var data: Option<Bytes>

    /** The blocks are distinct objects, so updating one leaves the others. */
    ghost predicate Valid()
      reads this`blocks
    {
      && numBlocks == NumBlocks(pieceSize)
      && |blocks| >= 1
      && forall i, j | 0 <= i < j < |blocks| :: blocks[i] != blocks[j]
    }

    ghost function Views(): seq<BlockView>
      reads this`blocks, blocks
    {
      ViewsOf(blocks)
    }

    ghost function View(): PieceView
      reads this, blocks
    {
      PieceView(complete, Views(), data)
    }

    constructor (pieceIndex: int, pieceHash: Bytes, pieceSize: nat)
      ensures Valid() && forall i | 0 <= i < |blocks| :: fresh(blocks[i])
      ensures this.pieceIndex == pieceIndex && this.pieceHash == pieceHash && this.pieceSize == pieceSize
      ensures numBlocks == NumBlocks(pieceSize)
      ensures View() == PieceView(false, InitialBlocks(pieceSize), None)
    {
      this.pieceIndex := pieceIndex;
      this.pieceHash := pieceHash;
      this.pieceSize := pieceSize;
      numBlocks := NumBlocks(pieceSize);
      blocks := [];
      complete := false;
      data := None;
      new;
      InitializeBlocks();
      complete := false;
    }

    method InitializeBlocks()
      requires numBlocks == NumBlocks(pieceSize)
      modifies this
      ensures Valid() && forall i | 0 <= i < |blocks| :: fresh(blocks[i])
      ensures Views() == InitialBlocks(pieceSize)
      ensures complete == old(complete) && data == old(data)
    {
      var bs: seq<Block> := [];
      while |bs| < numBlocks - 1
        invariant |bs| <= Max(numBlocks - 1, 0)
        invariant forall i | 0 <= i < |bs| :: fresh(bs[i]) && bs[i].View() == NewView(BLOCK_SIZE)
        invariant forall i, j | 0 <= i < j < |bs| :: bs[i] != bs[j]
        invariant complete == old(complete) && data == old(data)
      {
        var b := new Block.Default();
        bs := bs + [b];
      }
      var last := new Block(pieceSize % BLOCK_SIZE);
      blocks := bs + [last];
      assert Views() == InitialBlocks(pieceSize) by {
        assert |bs| == Max(numBlocks - 1, 0);
      }
    }

    method Flush()
      requires Valid()
      modifies blocks
      ensures Valid()
      ensures Views() == FlushAll(old(Views()))
    {
      var i := 0;
      while i < |blocks|
        invariant 0 <= i <= |blocks|
        invariant forall j | 0 <= j < i :: blocks[j].View() == Flushed(old(blocks[j].View()))
        invariant forall j | i <= j < |blocks| :: blocks[j].View() == old(blocks[j].View())
      {
        blocks[i].Flush();
        i := i + 1;
      }
    }

    method GetEmptyBlock(now: real) returns (r: Option<BlockRequest>)
      requires Valid()
      modifies blocks
      ensures Valid()
      ensures (r, View()) == GetEmptyBlockStep(old(View()), pieceIndex, now)
    {
      if complete {
        return None;
      }
      ghost var vs := Views();
      var idx := 0;
      while idx < |blocks|
        invariant 0 <= idx <= |blocks|
        invariant forall j | 0 <= j < idx :: vs[j].state != FREE
        invariant Views() == vs
      {
        var block := blocks[idx];
        assert block.View() == vs[idx];
        if block.state == FREE {
          assert FirstFree(vs) == Some(idx);
          block.state := PENDING;
          block.lastSeen := now;
          assert forall j | 0 <= j < |blocks| && j != idx :: blocks[j].View() == vs[j];
          assert Views() == vs[idx := vs[idx].(state := PENDING, lastSeen := now)];
          return Some(BlockRequest(pieceIndex, idx * BLOCK_SIZE, block.size));
        }
        idx := idx + 1;
      }
      assert Views() == old(Views());
      return None;
    }

    /** Stores the verified piece; the source leaves it empty. */
    method WritePieceData()
    {
    }

    method IsComplete(sha1: Bytes -> Bytes) returns (r: Option<bool>)
      requires Valid()
      modifies this, blocks
      ensures Valid() && blocks == old(blocks)
      ensures (r, View()) == IsCompleteStep(old(View()), sha1, pieceHash)
    {
      if !complete {
        ghost var vs := Views();
        var i := 0;
        while i < |blocks|
          invariant 0 <= i <= |blocks|
          invariant forall j | 0 <= j < i :: vs[j].state == COMPLETE
          invariant View() == old(View())
        {
          assert blocks[i].View() == vs[i];
          if blocks[i].state == FREE || blocks[i].state == PENDING {
            assert !AllComplete(vs);
            return Some(false);
          }
          i := i + 1;
        }
        var joined: Bytes := [];
        i := 0;
        while i < |blocks|
          invariant 0 <= i <= |blocks|
          invariant joined == Concat(vs[..i])
          invariant View() == old(View())
        {
          assert vs[..i + 1][..i] == vs[..i];
          assert blocks[i].View() == vs[i];
          joined := joined + blocks[i].data;
          i := i + 1;
        }
        assert vs[..|blocks|] == vs;
        if sha1(joined) != pieceHash {
          Flush();
          return Some(false);
        }
        complete := true;
        data := Some(joined);
        WritePieceData();
        return None;
      } else {
        return Some(true);
      }
    }
  }
}
