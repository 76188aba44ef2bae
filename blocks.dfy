/** A block of a piece: the unit of one request.  Its state moves between
    FREE, PENDING and COMPLETE; `flush` puts it back to FREE and drops its
    data. */
module Blocks {
  import opened Octets

  /** 2^14 bytes, the size of every block but the last of a piece. */
  const BLOCK_SIZE: nat := 16384

  datatype State = FREE | PENDING | COMPLETE

  /** The fields of a block, as a value. */
  datatype BlockView = BlockView(state: State, lastSeen: real, size: int, data: Bytes)

  /** A block as the constructor leaves it. */
  function NewView(size: int): BlockView
  {
    BlockView(FREE, 0.0, size, [])
  }

  /** A block after `flush`. */
  function Flushed(v: BlockView): BlockView
  {
    v.(state := FREE, data := [])
  }

  /** Flushing twice is flushing once. */
  lemma FlushIdempotent(v: BlockView)
    ensures Flushed(Flushed(v)) == Flushed(v)
    ensures Flushed(v).size == v.size && Flushed(v).lastSeen == v.lastSeen
  {
  }

  class Block {
    var state: State
    var lastSeen: real
    var size: int
    var data: Bytes

    ghost function View(): BlockView
      reads this
    {
      BlockView(state, lastSeen, size, data)
    }

    /** `Block()`: the default size is BLOCK_SIZE. */
    constructor Default()
      ensures state == FREE && lastSeen == 0.0 && size == BLOCK_SIZE && data == []
      ensures View() == NewView(BLOCK_SIZE)
    {
      state := FREE;
      lastSeen := 0.0;
      size := BLOCK_SIZE;
      data := [];
    }

    /** `Block(size)` */
    constructor (size: int)
      ensures state == FREE && lastSeen == 0.0 && this.size == size && data == []
      ensures View() == NewView(size)
    {
      state := FREE;
      lastSeen := 0.0;
      this.size := size;
      data := [];
    }

    method Flush()
      modifies this
      ensures data == [] && state == FREE
      ensures size == old(size) && lastSeen == old(lastSeen)
      ensures View() == Flushed(old(View()))
    {
      data := [];
      state := FREE;
    }
  }
}
