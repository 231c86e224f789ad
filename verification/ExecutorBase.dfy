/**
 What the executors for static and dynamic models share: the agreement between cache and token rows,
 and the handling of the history (runtime/executor/llm_litert_compiled_model_executor.cc).
 */
module ExecutorBase {
  import opened Wrappers
  import opened Arithmetic
  import opened TokenHistory
  import opened KvCache
  import opened PrefillFeeding

  // ---------------------------------------------------------------------------------------------
  // The cache and the token rows
  // ---------------------------------------------------------------------------------------------

  /** Row `r` of the buffer holds exactly the processed tokens of candidate `r`, if they fit. */
  ghost predicate BufferHolds(buffer: seq<Cell>, size: nat, rows: seq<Row>) {
    && |buffer| == |rows| * size
    && forall r :: 0 <= r < |rows| && |rows[r].ids| <= size ==> RowHolds(RowOf(buffer, size, r), rows[r].ids)
  }

  ghost predicate CacheHolds(buffers: map<string, seq<Cell>>, size: nat, rows: seq<Row>) {
    forall name :: name in buffers ==> BufferHolds(buffers[name], size, rows)
  }

  lemma SameIdsHold(buffer: seq<Cell>, size: nat, rows: seq<Row>, rows': seq<Row>)
    requires BufferHolds(buffer, size, rows) && |rows'| == |rows|
    requires forall r :: 0 <= r < |rows| ==> rows'[r].ids == rows[r].ids
    ensures BufferHolds(buffer, size, rows')
  {
  }

  lemma BroadcastHolds(buffer: seq<Cell>, size: nat, row: Row, batch: nat)
    requires BufferHolds(buffer, size, [row])
    ensures BufferHolds(Copied(batch, -1, buffer, |buffer| * batch), size, Broadcast(row, batch))
  {
    forall r | 0 <= r < batch ensures RowOf(Repeat(buffer, batch), size, r) == RowOf(buffer, size, 0) {
      RepeatRow(buffer, batch, r);
      assert buffer[0 * size..0 * size + size] == buffer;
    }
    assert [row][0] == row;
  }

  lemma ReduceHolds(buffer: seq<Cell>, size: nat, rows: seq<Row>, i: nat)
    requires BufferHolds(buffer, size, rows) && i < |rows|
    ensures CopyFits(|rows|, i, |buffer|, size)
    ensures BufferHolds(Copied(|rows|, i, buffer, size), size, [rows[i]])
  {
    BlockFits(|rows|, i, size);
    var copy := Copied(|rows|, i, buffer, size);
    assert copy[0 * size..0 * size + size] == copy;
  }

  lemma ReduceCacheHolds(before: map<string, seq<Cell>>, after: map<string, seq<Cell>>, size: nat, rows: seq<Row>)
    requires rows != [] && after.Keys == before.Keys
    requires forall name | name in after :: CopyFits(|rows|, 0, |before[name]|, size)
    requires forall name | name in after :: after[name] == Copied(|rows|, 0, before[name], size)
    ensures CacheHolds(before, size, rows) ==> CacheHolds(after, size, [rows[0]])
  {
    if CacheHolds(before, size, rows) {
      forall name | name in after ensures BufferHolds(after[name], size, [rows[0]]) {
        ReduceHolds(before[name], size, rows, 0);
      }
    }
  }

  lemma BroadcastCacheHolds(before: map<string, seq<Cell>>, after: map<string, seq<Cell>>, size: nat, row: Row, batch: nat)
    requires after.Keys == before.Keys
    requires forall name | name in after :: |before[name]| == size
    requires forall name | name in after :: after[name] == Copied(batch, -1, before[name], size * batch)
    ensures CacheHolds(before, size, [row]) ==> CacheHolds(after, size, Broadcast(row, batch))
  {
    if CacheHolds(before, size, [row]) {
      forall name | name in after ensures BufferHolds(after[name], size, Broadcast(row, batch)) {
        BroadcastHolds(before[name], size, row, batch);
      }
    }
  }

  /** One decode step feeds the pending token of every row at the position that follows its processed tokens. */
  lemma DecodeHolds(buffer: seq<Cell>, size: nat, rows: seq<Row>, pending: seq<int>)
    requires BufferHolds(buffer, size, rows) && Uniform(rows)
    requires |pending| == |rows| && forall r :: 0 <= r < |rows| ==> rows[r].pending == Some(pending[r])
    ensures BufferHolds(WriteRows(buffer, size, Singletons(pending), [|rows[0].ids|], |rows|), size, Apply(rows, MarkProcessed))
  {
    hide WriteRows, RowOf, RowHolds;
    var step := |rows[0].ids|;
    var written, rows' := WriteRows(buffer, size, Singletons(pending), [step], |rows|), Apply(rows, MarkProcessed);
    forall r | 0 <= r < |rows| && |rows'[r].ids| <= size ensures RowHolds(RowOf(written, size, r), rows'[r].ids) {
      WriteRowsRow(buffer, size, Singletons(pending), [step], |rows|, r);
      BlockFits(|rows|, r, size);
      DecodeRowHolds(RowOf(buffer, size, r), rows[r].ids, pending[r]);
    }
  }

  lemma DecodeRowHolds(row: seq<Cell>, ids: seq<int>, token: int)
    requires RowHolds(row, ids) && |ids| < |row|
    ensures RowHolds(WriteRow(row, [token], [|ids|]), ids + [token])
  {
    WriteRowHolds(row, ids, [token]);
    assert Contiguous(|ids|, 1) == [|ids|];
  }

  function Singletons(ids: seq<int>): (r: seq<seq<int>>)
    ensures |r| == |ids|
  {
    seq(|ids|, i requires 0 <= i < |ids| => [ids[i]])
  }

  lemma StoreHolds(buffers: map<string, seq<Cell>>, size: nat, s: Steps, ids: seq<int>)
    requires OnlyStores(s, ids)
    ensures CacheHolds(buffers, size, [s.row]) ==> CacheHolds(buffers, size, [PrefillStep(s, ids).row])
  {
    if CacheHolds(buffers, size, [s.row]) {
      forall name | name in buffers ensures BufferHolds(buffers[name], size, [PrefillStep(s, ids).row]) {
        SameIdsHold(buffers[name], size, [s.row], [PrefillStep(s, ids).row]);
      }
    }
  }

  /** A prefill call keeps the agreement when it feeds in place. */
  lemma PrefillHolds(buffer: seq<Cell>, size: nat, s: Steps, ids: seq<int>)
    requires BufferHolds(buffer, size, [s.row]) && ids != [] && InStep(s)
    requires Aligned(s) || |ids| == 1
    ensures BufferHolds(WriteRows(buffer, size, [Tokens(Fed(s, ids))], Positions(Fed(s, ids)), 1), size, [PrefillStep(s, ids).row])
  {
    var tokens, positions := Tokens(Fed(s, ids)), Positions(Fed(s, ids));
    WriteRowsRow(buffer, size, [tokens], positions, 1, 0);
    var row := RowOf(buffer, size, 0);
    assert [s.row][0] == s.row;
    if |PrefillStep(s, ids).row.ids| <= size {
      StepIds(s, ids);
      FedKeepsRow(row, s, ids);
    }
  }

  lemma PrefillCallHolds(before: map<string, seq<Cell>>, after: map<string, seq<Cell>>, size: nat, s: Steps, ids: seq<int>)
    requires ids != [] && InStep(s)
    requires after.Keys == before.Keys
    requires forall name | name in after :: |before[name]| == size
    requires forall name | name in after ::
      after[name] == WriteRows(before[name], size, [Tokens(Fed(s, ids))], Positions(Fed(s, ids)), 1)
    ensures CacheHolds(before, size, [s.row]) && (Aligned(s) || |ids| == 1) ==> CacheHolds(after, size, [PrefillStep(s, ids).row])
  {
    hide Fed, Tokens, Positions, Aligned, InStep, BufferHolds, WriteRows, PrefillStep;
    if CacheHolds(before, size, [s.row]) && (Aligned(s) || |ids| == 1) {
      forall name | name in after ensures BufferHolds(after[name], size, [PrefillStep(s, ids).row]) {
        PrefillHolds(before[name], size, s, ids);
      }
    }
  }

  // --- what a prefill leaves in the cache, in place or not ---

  predicate CacheFed(before: map<string, seq<Cell>>, after: map<string, seq<Cell>>, s: Steps, ids: seq<int>)
    requires ids != []
  {
    after.Keys == before.Keys && forall name :: name in before ==> after[name] == RowFed(before[name], s, ids)
  }

  predicate CacheAfter(before: map<string, seq<Cell>>, after: map<string, seq<Cell>>, s: Steps, ids: seq<int>, lengths: seq<nat>)
    requires Cuts(lengths, |ids|)
  {
    after.Keys == before.Keys && forall name :: name in before ==> after[name] == RowAfter(before[name], s, ids, lengths)
  }

  /** The cache that is left when the first of `batch` candidates is kept. */
  function ReducedCache(cache: map<string, seq<Cell>>, batch: nat, size: nat): map<string, seq<Cell>> {
    map name | name in cache && CopyFits(batch, 0, |cache[name]|, size) :: Copied(batch, 0, cache[name], size)
  }

  lemma ReducedIs(before: map<string, seq<Cell>>, after: map<string, seq<Cell>>, batch: nat, size: nat)
    requires after.Keys == before.Keys
    requires forall name | name in after :: CopyFits(batch, 0, |before[name]|, size)
    requires forall name | name in after :: after[name] == Copied(batch, 0, before[name], size)
    ensures after == ReducedCache(before, batch, size)
  {
    hide Copied, CopyFits;
  }

  lemma WrittenIsFed(before: map<string, seq<Cell>>, after: map<string, seq<Cell>>, size: nat, s: Steps, ids: seq<int>)
    requires ids != [] && after.Keys == before.Keys
    requires forall name | name in after :: |before[name]| == size
    requires forall name | name in after ::
      after[name] == WriteRows(before[name], size, [Tokens(Fed(s, ids))], Positions(Fed(s, ids)), 1)
    ensures CacheFed(before, after, s, ids)
  {
    hide Fed;
    forall name | name in before ensures after[name] == RowFed(before[name], s, ids) {
      var row, tokens, positions := before[name], Tokens(Fed(s, ids)), Positions(Fed(s, ids));
      WriteRowsRow(row, size, [tokens], positions, 1, 0);
      assert RowOf(row, size, 0) == row;
      assert RowOf(after[name], size, 0) == after[name];
    }
  }

  lemma StoredIsFed(buffers: map<string, seq<Cell>>, s: Steps, ids: seq<int>)
    requires OnlyStores(s, ids)
    ensures CacheFed(buffers, buffers, s, ids)
  {
    assert Fed(s, ids) == [] && Tokens([]) == [] && Positions([]) == [];
  }

  lemma NothingFedYet(buffers: map<string, seq<Cell>>, s: Steps, ids: seq<int>, lengths: seq<nat>)
    requires ids == [] && lengths == []
    ensures Cuts(lengths, |ids|) && CacheAfter(buffers, buffers, s, ids, lengths)
  {
  }

  lemma NextCacheCall(before: map<string, seq<Cell>>, now: map<string, seq<Cell>>, after: map<string, seq<Cell>>, s: Steps,
                      ids: seq<int>, lengths: seq<nat>, next: seq<int>)
    requires Cuts(lengths, |ids|) && next != []
    requires CacheAfter(before, now, s, ids, lengths) && CacheFed(now, after, PrefillAll(s, ids, lengths), next)
    ensures Cuts(lengths + [|next|], |ids + next|)
    ensures CacheAfter(before, after, s, ids + next, lengths + [|next|])
  {
    hide RowFed, PrefillAll;
    NextCall(s, ids, lengths, next);
    assert (lengths + [|next|])[..|lengths|] == lengths;
    assert (ids + next)[..|ids|] == ids && (ids + next)[|ids|..] == next;
  }

  // ---------------------------------------------------------------------------------------------
  // What decoding does to the token rows
  // ---------------------------------------------------------------------------------------------

  /** The rows after the first decode of a turn: one row per candidate. */
  function Prepared(rows: seq<Row>, ranDecode: bool, batch: nat): (r: seq<Row>)
    requires rows != [] && batch > 0
    ensures |r| == if ranDecode || batch <= 1 then |rows| else batch
    ensures forall j :: 0 <= j < |r| ==> r[j] == rows[if ranDecode || batch <= 1 then j else 0]
  {
    if ranDecode || batch <= 1 then rows else Broadcast(rows[0], batch)
  }

  /** Token ids given by the caller replace the pending tokens, if the first one is not negative. */
  function WithInput(rows: seq<Row>, input: seq<int>): (r: seq<Row>)
    requires rows != []
    ensures |r| == |rows|
    ensures input != [] && input[0] >= 0 && |input| == |rows| ==>
              forall j :: 0 <= j < |r| ==> r[j] == Row(rows[j].ids, Some(input[j]))
    ensures input == [] || input[0] < 0 ==> r == rows
  {
    if input != [] && input[0] >= 0 then Apply(Apply(rows, InvalidatePending), AddPending(input)) else rows
  }

  /** Sampled ids, with 0 for the negative ones. */
  function ClampAll(ids: seq<int>): (r: seq<int>)
    ensures |r| == |ids|
    ensures forall j :: 0 <= j < |r| ==> r[j] == if ids[j] < 0 then 0 else ids[j]
  {
    seq(|ids|, i requires 0 <= i < |ids| => if ids[i] < 0 then 0 else ids[i])
  }

  function WithoutPending(rows: seq<Row>): (r: seq<Row>)
    ensures |r| == |rows|
    ensures forall j :: 0 <= j < |r| ==> r[j] == Row(rows[j].ids, None)
  {
    seq(|rows|, j requires 0 <= j < |rows| => Row(rows[j].ids, None))
  }

  lemma WithInputUniform(rows: seq<Row>, input: seq<int>)
    requires Uniform(rows)
    ensures Uniform(WithInput(rows, input))
    ensures forall r :: 0 <= r < |rows| ==> WithInput(rows, input)[r].ids == rows[r].ids
  {
    ApplyUniform(rows, InvalidatePending);
    ApplyUniform(Apply(rows, InvalidatePending), AddPending(input));
  }

  // ---------------------------------------------------------------------------------------------
  // The executor
  // ---------------------------------------------------------------------------------------------

  lemma DecodeCacheHolds(before: map<string, seq<Cell>>, after: map<string, seq<Cell>>, size: nat, rows: seq<Row>,
                         pending: seq<int>)
    requires Uniform(rows) && |pending| == |rows| && forall r :: 0 <= r < |rows| ==> rows[r].pending == Some(pending[r])
    requires after.Keys == before.Keys
    requires forall name | name in after :: |before[name]| == |pending| * size
    requires forall name | name in after ::
      after[name] == WriteRows(before[name], size, Singletons(pending), [|rows[0].ids|], |pending|)
    ensures CacheHolds(before, size, rows) ==> CacheHolds(after, size, Apply(rows, MarkProcessed))
  {
    hide BufferHolds, WriteRows, Apply;
    if CacheHolds(before, size, rows) {
      forall name | name in after ensures BufferHolds(after[name], size, Apply(rows, MarkProcessed)) {
        DecodeHolds(before[name], size, rows, pending);
      }
    }
  }

  lemma SameIdsCacheHolds(buffers: map<string, seq<Cell>>, size: nat, rows: seq<Row>, rows': seq<Row>)
    requires |rows'| == |rows| && forall r :: 0 <= r < |rows| ==> rows'[r].ids == rows[r].ids
    ensures CacheHolds(buffers, size, rows) ==> CacheHolds(buffers, size, rows')
  {
    hide BufferHolds;
    if CacheHolds(buffers, size, rows) {
      forall name | name in buffers ensures BufferHolds(buffers[name], size, rows') {
        SameIdsHold(buffers[name], size, rows, rows');
      }
    }
  }

  lemma ConsumedRow(rows: seq<Row>)
    requires Uniform(rows) && rows[0].pending.Some?
    ensures |Apply(rows, MarkProcessed)| == |rows|
    ensures forall j :: 0 <= j < |rows| ==>
              rows[j].pending.Some? && Apply(rows, MarkProcessed)[j] == Row(rows[j].ids + [rows[j].pending.value], None)
  {
  }

  lemma PreparedRow(rows: seq<Row>, ranDecode: bool, batch: nat)
    requires Uniform(rows) && batch > 0
    ensures Prepared(rows, ranDecode, batch)[0] == rows[0]
    ensures WithInput(Prepared(rows, ranDecode, batch), []) == Prepared(rows, ranDecode, batch)
  {
  }

  lemma AddPendingKeepsIds(rows: seq<Row>, ids: seq<int>)
    requires Uniform(rows) && |ids| == |rows| && rows[0].pending.None?
    ensures |Apply(rows, AddPending(ids))| == |rows|
    ensures forall r :: 0 <= r < |rows| ==> Apply(rows, AddPending(ids))[r] == Row(rows[r].ids, Some(ids[r]))
  {
  }

  lemma EmptyHolds(buffers: map<string, seq<Cell>>, size: nat, rows: seq<Row>)
    requires forall name :: name in buffers ==> |buffers[name]| == |rows| * size
    requires forall r :: 0 <= r < |rows| ==> rows[r].ids == []
    ensures CacheHolds(buffers, size, rows)
  {
  }

  lemma InputRow(rows: nat, length: nat)
    requires rows > 0
    ensures length <= rows * length
  {
    assert (rows - 1) * length >= 0;
  }

  // ---------------------------------------------------------------------------------------------
  // Operations on the history
  // ---------------------------------------------------------------------------------------------

  /** The tokens and positions of a prefill call that feeds something, and the new `current_step_`. */
  method FillInputs(history: ProcessedTokens, current: nat, ids: seq<int>)
    returns (tokens: seq<int>, positions: seq<nat>, next: nat)
    requires history.Valid() && |history.tokens| == 1
    requires ids != [] && !OnlyStores(Steps(history.tokens[0], current), ids)
    modifies history
    ensures history.Valid() && |history.tokens| == 1
    ensures Steps(history.tokens[0], next) == PrefillStep(old(Steps(history.tokens[0], current)), ids)
    ensures var s := old(Steps(history.tokens[0], current)); tokens == Tokens(Fed(s, ids)) && positions == Positions(Fed(s, ids))
  {
    ghost var s := Steps(history.tokens[0], current);
    var prefillLength := |ids| - 1;
    var step, pending := history.GetNextUnprocessedToken();
    tokens, positions, next := [], [], current;
    if pending != [] {
      tokens, positions := pending, [step];
      var marked := history.MarkPendingInputTokenAsProcessed();
    }
    ghost var first, marked := positions, history.tokens;
    assert s.row.ids + [] == s.row.ids;
    assert marked[0] == Row(AllIds(s.row), None);
    for k := 0 to prefillLength
      modifies {}
      invariant next == s.current + k
      invariant positions == first + Contiguous(s.current, k)
    {
      positions := positions + [next];
      next := next + 1;
    }
    tokens := tokens + ids[..prefillLength];
    history.AddProcessedTokens(ids[..prefillLength]);
    var added := history.AddPendingInputToken([ids[prefillLength]]);
    next := next + 1;
    FedTokens(s, ids);
    assert positions == Positions(Fed(s, ids));
  }

  /** The tokens to decode: those of the caller, or the pending ones. */
  method GetTokenToDecode(history: ProcessedTokens, batch: nat, ghost current: nat, input: seq<int>)
    returns (status: Status, step: nat, token: seq<int>)
    requires history.Valid() && |history.tokens| == batch && InStep(Steps(history.tokens[0], current))
    modifies history
    ensures history.Valid() && |history.tokens| == batch && InStep(Steps(history.tokens[0], current))
    ensures status == if input != [] && |input| != batch then Error(Internal) else Ok
    ensures history.tokens == if status == Ok then WithInput(old(history.tokens), input) else old(history.tokens)
    ensures forall r :: 0 <= r < batch ==> history.tokens[r].ids == old(history.tokens)[r].ids
    ensures status == Ok ==> forall r :: 0 <= r < batch ==>
              history.tokens[r].pending == if input != [] && input[0] >= 0 then Some(input[r]) else old(history.tokens)[r].pending
    ensures status == Ok ==> step == history.GetStep()
    ensures status == Ok && !history.HasPendingInputToken() ==> token == []
    ensures status == Ok && history.HasPendingInputToken() ==>
              |token| == batch && forall r :: 0 <= r < batch ==> history.tokens[r].pending == Some(token[r])
  {
    WithInputUniform(history.tokens, input);
    if input != [] {
      if |input| != batch {
        return Error(Internal), 0, [];
      }
      if input[0] >= 0 {
        history.InvalidatePendingInputToken();
        status := history.AddPendingInputToken(input);
      }
    }
    step, token := history.GetNextUnprocessedToken();
    status := Ok;
  }

  /** Whenever a decode has run there is a pending token, so the executors never take the fallback. */
  method ConsumePendingOrAddProcessedToken(history: ProcessedTokens, token: seq<int>) returns (status: Status)
    requires history.Valid()
    modifies history
    ensures history.Valid() && status == Ok
    ensures history.tokens == if old(history.HasPendingInputToken()) then Apply(old(history.tokens), MarkProcessed)
                              else Apply(old(history.tokens), AddProcessed(token))
  {
    status := history.MarkPendingInputTokenAsProcessed();
    if status == Ok || status != Error(NotFound) {
      return;
    }
    history.AddProcessedTokens(token);
    status := Ok;
  }
}
