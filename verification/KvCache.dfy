/**
 Key/value cache buffers: the copies between the prefill and the decode buffers
 (`CopyKvCacheBuffers` in runtime/executor/llm_litert_compiled_model_executor.cc), and what a call of
 the compiled model is assumed to do to them.

 A cell stands for the key/value entry of one position; its value is the token it was computed for.
 */
module KvCache {
  import opened Wrappers
  import opened Arithmetic

  type Cell = Option<int>

  // ---------------------------------------------------------------------------------------------
  // Flat buffers of rows
  // ---------------------------------------------------------------------------------------------

  /** Row `r` of a buffer with rows of the given size. */
  function RowOf(buffer: seq<Cell>, size: nat, r: nat): (row: seq<Cell>)
    ensures r * size + size <= |buffer| ==> |row| == size
  {
    if r * size + size <= |buffer| then buffer[r * size..r * size + size] else []
  }

  lemma RowOfConcat(rows: seq<Cell>, row: seq<Cell>, n: nat, size: nat, r: nat)
    requires |rows| == n * size && |row| == size && r <= n
    ensures RowOf(rows + row, size, r) == if r < n then RowOf(rows, size, r) else row
  {
    if r < n {
      BlockFits(n, r, size);
    }
  }

  function Repeat(block: seq<Cell>, n: nat): (buffer: seq<Cell>)
    ensures |buffer| == n * |block|
  {
    if n == 0 then [] else Repeat(block, n - 1) + block
  }

  lemma {:induction false} RepeatRow(block: seq<Cell>, n: nat, r: nat)
    requires r < n
    ensures RowOf(Repeat(block, n), |block|, r) == block
  {
    hide RowOf;
    RowOfConcat(Repeat(block, n - 1), block, n - 1, |block|, r);
    if r < n - 1 {
      RepeatRow(block, n - 1, r);
    }
  }

  // ---------------------------------------------------------------------------------------------
  // What a model call writes
  // ---------------------------------------------------------------------------------------------

  /** Writes each token's entry at its position. A position past the row is not written. */
  function WriteRow(row: seq<Cell>, ids: seq<int>, positions: seq<nat>): (r: seq<Cell>)
    requires |ids| == |positions|
    ensures |r| == |row|
  {
    if ids == [] then row
    else
      var last := |ids| - 1;
      var before := WriteRow(row, ids[..last], positions[..last]);
      if positions[last] < |row| then before[positions[last] := Some(ids[last])] else before
  }

  /** The first `n` rows after a call that feeds `fed[r]` to row `r`, all rows at the same positions. */
  function WriteRows(buffer: seq<Cell>, size: nat, fed: seq<seq<int>>, positions: seq<nat>, n: nat): (r: seq<Cell>)
    requires n <= |fed| && |buffer| == |fed| * size
    requires forall k :: 0 <= k < |fed| ==> |fed[k]| == |positions|
    ensures |r| == n * size
  {
    if n == 0 then []
    else
      BlockFits(|fed|, n - 1, size);
      WriteRows(buffer, size, fed, positions, n - 1) + WriteRow(RowOf(buffer, size, n - 1), fed[n - 1], positions)
  }

  lemma {:induction false} WriteRowsRow(buffer: seq<Cell>, size: nat, fed: seq<seq<int>>, positions: seq<nat>, n: nat, r: nat)
    requires r < n <= |fed| && |buffer| == |fed| * size
    requires forall k :: 0 <= k < |fed| ==> |fed[k]| == |positions|
    ensures RowOf(WriteRows(buffer, size, fed, positions, n), size, r) == WriteRow(RowOf(buffer, size, r), fed[r], positions)
  {
    hide WriteRow, RowOf;
    BlockFits(|fed|, n - 1, size);
    var before := WriteRows(buffer, size, fed, positions, n - 1);
    var row := WriteRow(RowOf(buffer, size, n - 1), fed[n - 1], positions);
    RowOfConcat(before, row, n - 1, size, r);
    if r < n - 1 {
      WriteRowsRow(buffer, size, fed, positions, n - 1, r);
    }
  }

  /** The row holds the entries of exactly these tokens at positions 0, 1, ... */
  ghost predicate RowHolds(row: seq<Cell>, ids: seq<int>) {
    |ids| <= |row| && forall p :: 0 <= p < |ids| ==> row[p] == Some(ids[p])
  }

  function Contiguous(start: nat, n: nat): seq<nat> {
    seq(n, k requires 0 <= k < n => start + k)
  }

  /** Feeding tokens at the positions that follow extends what the row holds. */
  lemma {:induction false} WriteRowHolds(row: seq<Cell>, ids: seq<int>, fed: seq<int>)
    requires RowHolds(row, ids) && |ids| + |fed| <= |row|
    ensures RowHolds(WriteRow(row, fed, Contiguous(|ids|, |fed|)), ids + fed)
  {
    if fed == [] {
      assert ids + fed == ids;
    } else {
      var last := |fed| - 1;
      assert Contiguous(|ids|, |fed|)[..last] == Contiguous(|ids|, last);
      WriteRowHolds(row, ids, fed[..last]);
      assert ids + fed == (ids + fed[..last]) + [fed[last]];
    }
  }

  // ---------------------------------------------------------------------------------------------
  // Named buffers
  // ---------------------------------------------------------------------------------------------

  class KvBuffers {
    var buffers: map<string, seq<Cell>>

    constructor (buffers: map<string, seq<Cell>>)
      ensures this.buffers == buffers
    {
      this.buffers := buffers;
    }
  }

  predicate Shaped(buffers: map<string, seq<Cell>>, names: set<string>, size: nat) {
    buffers.Keys == names && forall name :: name in names ==> |buffers[name]| == size
  }

  /** Whether the sizes allow the copy. A negative index asks for a broadcast. */
  predicate CopyFits(batch: nat, srcIndex: int, srcSize: nat, dstSize: nat) {
    if srcIndex >= 0 then srcSize == dstSize * batch && srcIndex < batch
    else srcSize * batch == dstSize
  }

  function Copied(batch: nat, srcIndex: int, src: seq<Cell>, dstSize: nat): (dst: seq<Cell>)
    requires CopyFits(batch, srcIndex, |src|, dstSize)
    ensures |dst| == dstSize
  {
    if srcIndex >= 0 then
      BlockFits(batch, srcIndex, dstSize);
      RowOf(src, dstSize, srcIndex)
    else Repeat(src, batch)
  }

  method CopyKvCacheBuffers(batch: nat, srcIndex: int, src: KvBuffers, dst: KvBuffers) returns (status: Status)
    requires src != dst
    modifies dst
    ensures status == Ok <==> forall name | name in src.buffers ::
              (name in old(dst.buffers) && CopyFits(batch, srcIndex, |src.buffers[name]|, |old(dst.buffers)[name]|))
    ensures status != Ok ==> status == Error(FailedPrecondition) || status == Error(Internal)
    ensures status == Error(FailedPrecondition) ==> !(src.buffers.Keys <= old(dst.buffers).Keys)
    ensures status == Error(Internal) ==> exists name | name in src.buffers ::
              name in old(dst.buffers) && !CopyFits(batch, srcIndex, |src.buffers[name]|, |old(dst.buffers)[name]|)
    ensures dst.buffers.Keys == old(dst.buffers).Keys
    ensures status == Ok ==> forall name | name in old(dst.buffers) ::
              dst.buffers[name] == (if name in src.buffers
                                    then Copied(batch, srcIndex, src.buffers[name], |old(dst.buffers)[name]|)
                                    else old(dst.buffers)[name])
  {
    hide Repeat;
    var todo := src.buffers.Keys;
    while todo != {}
      invariant todo <= src.buffers.Keys && dst.buffers.Keys == old(dst.buffers).Keys
      invariant forall name | name in src.buffers && name !in todo ::
                  (name in old(dst.buffers) && CopyFits(batch, srcIndex, |src.buffers[name]|, |old(dst.buffers)[name]|))
      invariant forall name | name in old(dst.buffers) :: dst.buffers[name] ==
                  if name in src.buffers && name !in todo
                  then Copied(batch, srcIndex, src.buffers[name], |old(dst.buffers)[name]|)
                  else old(dst.buffers)[name]
      decreases |todo|
    {
      var name :| name in todo;
      todo := todo - {name};
      if name !in dst.buffers {
        return Error(FailedPrecondition);
      }
      var srcBuffer, dstSize := src.buffers[name], |dst.buffers[name]|;
      if srcIndex >= 0 {
        if |srcBuffer| != dstSize * batch {
          return Error(Internal);
        }
        if srcIndex >= batch {
          return Error(Internal);
        }
        BlockFits(batch, srcIndex, dstSize);
        dst.buffers := dst.buffers[name := srcBuffer[srcIndex * dstSize..srcIndex * dstSize + dstSize]];
      } else {
        if |srcBuffer| * batch != dstSize {
          return Error(Internal);
        }
        var copies := CopyToEach(srcBuffer, batch);
        dst.buffers := dst.buffers[name := copies];
      }
    }
    status := Ok;
  }

  /** The loop that copies the source once per batch element, one after the other. */
  method CopyToEach(src: seq<Cell>, batch: nat) returns (dst: seq<Cell>)
    ensures dst == Repeat(src, batch)
  {
    dst := [];
    for i := 0 to batch
      invariant dst == Repeat(src, i)
    {
      dst := dst + src;
    }
  }

  /**
   The contract of a model call: every fed token's entry is written at its position in every output
   buffer, and everything else is carried over from the input buffer.
   */
  method RunModel(input: KvBuffers, output: KvBuffers, size: nat, fed: seq<seq<int>>, positions: seq<nat>)
    requires forall k :: 0 <= k < |fed| ==> |fed[k]| == |positions|
    requires Shaped(input.buffers, input.buffers.Keys, |fed| * size)
    modifies output
    ensures output.buffers.Keys == old(input.buffers).Keys
    ensures forall name :: name in output.buffers ==>
              |old(input.buffers)[name]| == |fed| * size &&
              output.buffers[name] == WriteRows(old(input.buffers)[name], size, fed, positions, |fed|)
  {
    output.buffers := map name | name in input.buffers :: WriteRows(input.buffers[name], size, fed, positions, |fed|);
  }

  // --- a broadcast followed by a reduction gives back the buffer ---

  lemma BroadcastThenReduce(batch: nat, i: nat, src: seq<Cell>)
    requires i < batch
    ensures Copied(batch, i, Copied(batch, -1, src, |src| * batch), |src|) == src
  {
    RepeatRow(src, batch, i);
  }
}
