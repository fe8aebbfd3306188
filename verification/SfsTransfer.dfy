/** The arithmetic of transfers that start anywhere in a file and proceed block by block. */
module SfsTransfer {
  import opened SfsContents
  import Spec = SfsSpec

  /** Index in its chain of the block for a position: ceil(position/500) - 1, and 0 at 0. */
  function IndexFor(position: nat): (i: nat)
    ensures position == 0 ==> i == 0
    ensures position > 0 ==> BLOCK_DATA_SIZE * i < position <= BLOCK_DATA_SIZE * (i + 1)
  {
    if position == 0 then 0 else (position - 1) / BLOCK_DATA_SIZE
  }

  /** Round size up to a multiple of the block data size, but 0 to one block. */
  function RoundUp(size: nat): (r: nat)
    ensures size == 0 ==> r == BLOCK_DATA_SIZE
    ensures size > 0 ==> r == BLOCK_DATA_SIZE * Spec.BlocksFor(size) == BLOCK_DATA_SIZE * (IndexFor(size) + 1)
  {
    BLOCK_DATA_SIZE * (((if size == 0 then 1 else size) + (BLOCK_DATA_SIZE - 1)) / BLOCK_DATA_SIZE)
  }

  /** Loop state of a transfer of len bytes at pos: done of them are finished and
      chunk more come at blockPos of the i-th block, up to its end unless they
      are the last.  The first chunk is empty when pos ends a block. */
  ghost predicate TransferAt(i: nat, blockPos: nat, chunk: nat, pos: nat, done: nat, len: nat) {
    && done + chunk <= len
    && (chunk > 0 ==> BLOCK_DATA_SIZE * i + blockPos == pos + done && blockPos + chunk <= BLOCK_DATA_SIZE)
    && (if done + chunk == len then chunk > 0 else BLOCK_DATA_SIZE * (i + 1) == pos + done + chunk)
  }

  lemma TransferStart(pos: nat, len: nat)
    requires len > 0
    ensures RoundUp(pos) >= pos
    ensures TransferAt(IndexFor(pos), pos % BLOCK_DATA_SIZE, Spec.Min(RoundUp(pos) - pos, len), pos, 0, len) == true
  {
  }

  lemma TransferNext(i: nat, blockPos: nat, chunk: nat, pos: nat, done: nat, len: nat, n: nat)
    requires TransferAt(i, blockPos, chunk, pos, done, len) == true && done + chunk < len
             && pos + len <= BLOCK_DATA_SIZE * n
    ensures i + 1 < n && TransferAt(i + 1, 0, Spec.Min(BLOCK_DATA_SIZE, len - done - chunk), pos, done + chunk,
              len) == true
  {
  }

  /** The chunk lies inside the i-th block, right behind what has been done. */
  lemma TransferFits(i: nat, blockPos: nat, chunk: nat, pos: nat, done: nat, len: nat)
    requires TransferAt(i, blockPos, chunk, pos, done, len) == true
    ensures done + chunk <= len
    ensures chunk > 0 ==> BLOCK_DATA_SIZE * i + blockPos == pos + done && blockPos + chunk <= BLOCK_DATA_SIZE
  {
  }

  /** The last chunk ends in the block for the end position. */
  lemma TransferEnd(i: nat, blockPos: nat, chunk: nat, pos: nat, done: nat, len: nat)
    requires TransferAt(i, blockPos, chunk, pos, done, len) == true && done + chunk == len
    ensures IndexFor(pos + len) == i
  {
  }

  /** The count of additional blocks that sfs_write computes. */
  lemma ExtraBlocks(alloc: nat, end: nat)
    ensures end > alloc * BLOCK_DATA_SIZE <==> Spec.BlocksFor(end) > alloc
    ensures end > alloc * BLOCK_DATA_SIZE ==>
              RoundUp(end) >= alloc * BLOCK_DATA_SIZE
                  && (RoundUp(end) - alloc * BLOCK_DATA_SIZE) / BLOCK_DATA_SIZE == Spec.BlocksFor(end) - alloc
  {
  }
}
