/**
 The executor for statically shaped models: its token rows, its step counter and its double-buffered
 key/value caches (runtime/executor/llm_litert_compiled_model_executor.cc).
 */
module StaticExecutor {
  import opened Wrappers
  import opened TokenHistory
  import opened WorkGroups
  import opened KvCache
  import opened PrefillFeeding
  import opened ExecutorBase

  class Executor {
    const batch: nat                       // output_batch_size_
    const contextSize: nat                 // positions in one row of a cache buffer
    const names: set<string>               // the cache tensors
    const runners: seq<Runner>
    const sample: seq<Row> -> seq<int>     // the sampler, on what has been processed
    const history: ProcessedTokens
    const prefillKv1: KvBuffers
    const prefillKv2: KvBuffers
    const decodeKv1: KvBuffers             // used when there are several candidates
    const decodeKv2: KvBuffers
    var inputKv: KvBuffers
    var outputKv: KvBuffers
    var currentStep: nat
    var ranDecode: bool
    ghost var feeds: seq<Feed>             // what the calls of the last prefill fed, in order

    /** Several candidates are being decoded. */
    predicate Wide()
      reads `ranDecode
    {
      ranDecode && batch > 1
    }

    function ActiveRows(): nat
      reads `ranDecode
    {
      if Wide() then batch else 1
    }

    /** The active pair is one of the two orders of a pair of buffers. */
    predicate Active(a: KvBuffers, b: KvBuffers)
      reads `inputKv, `outputKv
    {
      (inputKv == a && outputKv == b) || (inputKv == b && outputKv == a)
    }

    ghost predicate Storage()
      reads prefillKv1, prefillKv2, decodeKv1, decodeKv2
    {
      && prefillKv1 != prefillKv2 && prefillKv1 != decodeKv1 && prefillKv1 != decodeKv2
      && prefillKv2 != decodeKv1 && prefillKv2 != decodeKv2 && decodeKv1 != decodeKv2
      && Shaped(prefillKv1.buffers, names, contextSize) && Shaped(prefillKv2.buffers, names, contextSize)
      && Shaped(decodeKv1.buffers, names, batch * contextSize) && Shaped(decodeKv2.buffers, names, batch * contextSize)
    }

    /** The number of token rows, the decode flag and the active cache pair agree on the mode. */
    ghost predicate ModesAgree()
      reads `ranDecode, `inputKv, `outputKv, history
    {
      && |history.tokens| == ActiveRows()
      && (if Wide() then Active(decodeKv1, decodeKv2) else Active(prefillKv1, prefillKv2))
    }

    function StepsNow(): Steps
      requires history.tokens != []
      reads `currentStep, history
    {
      Steps(history.tokens[0], currentStep)
    }

    ghost predicate Valid()
      reads this, history, prefillKv1, prefillKv2, decodeKv1, decodeKv2
    {
      && batch > 0 && RunnerSet(runners)
      && history.Valid() && Storage() && ModesAgree() && InStep(StepsNow())
    }

    /** The active cache holds exactly the processed tokens of every candidate. */
    ghost predicate KvHolds()
      reads `inputKv, history, inputKv
    {
      CacheHolds(inputKv.buffers, contextSize, history.tokens)
    }

    constructor (batch: nat, contextSize: nat, names: set<string>, runners: seq<Runner>, sample: seq<Row> -> seq<int>,
                 zero: Cell)
      requires batch > 0 && RunnerSet(runners)
      ensures Valid() && KvHolds() && fresh(this.history) && fresh({prefillKv1, prefillKv2, decodeKv1, decodeKv2})
      ensures history.tokens == [Row([], None)] && currentStep == 0 && !ranDecode
      ensures this.batch == batch && this.contextSize == contextSize && this.runners == runners && this.sample == sample
    {
      this.batch, this.contextSize, this.names, this.runners, this.sample := batch, contextSize, names, runners, sample;
      history := new ProcessedTokens();
      var small := map name | name in names :: seq(contextSize, _ => zero);
      var large := map name | name in names :: seq(batch * contextSize, _ => zero);
      var kv1 := new KvBuffers(small);
      var kv2 := new KvBuffers(small);
      prefillKv1, prefillKv2, inputKv, outputKv := kv1, kv2, kv1, kv2;
      decodeKv1 := new KvBuffers(large);
      decodeKv2 := new KvBuffers(large);
      currentStep, ranDecode, feeds := 0, false, [];
      new;
      ActiveSizes();
      EmptyHolds(inputKv.buffers, contextSize, history.tokens);
    }

    /** Runs the model on the active pair and swaps it. */
    method RunAndSwap(fed: seq<seq<int>>, positions: seq<nat>)
      requires Storage() && |fed| == ActiveRows()
      requires if Wide() then Active(decodeKv1, decodeKv2) else Active(prefillKv1, prefillKv2)
      requires forall k :: 0 <= k < |fed| ==> |fed[k]| == |positions|
      modifies `inputKv, `outputKv, prefillKv1, prefillKv2, decodeKv1, decodeKv2
      ensures Storage()
      ensures if Wide() then Active(decodeKv1, decodeKv2) else Active(prefillKv1, prefillKv2)
      ensures inputKv.buffers.Keys == old(inputKv.buffers).Keys
      ensures forall name :: name in inputKv.buffers ==>
                |old(inputKv.buffers)[name]| == |fed| * contextSize &&
                inputKv.buffers[name] == WriteRows(old(inputKv.buffers)[name], contextSize, fed, positions, |fed|)
    {
      RunModel(inputKv, outputKv, contextSize, fed, positions);
      inputKv, outputKv := outputKv, inputKv;
    }

    /** The early return: the single id becomes the pending token. */
    method StoreId(ids: seq<int>) returns (status: Status)
      requires history.Valid() && |history.tokens| == 1 && ids != [] && OnlyStores(StepsNow(), ids)
      modifies history
      ensures history.Valid() && |history.tokens| == 1 && status == Ok
      ensures StepsNow() == PrefillStep(old(StepsNow()), ids)
      ensures CacheFed(inputKv.buffers, inputKv.buffers, old(StepsNow()), ids)
      ensures old(KvHolds()) ==> KvHolds()
    {
      hide BufferHolds, CacheFed;
      StoredIsFed(inputKv.buffers, StepsNow(), ids);
      StoreHolds(inputKv.buffers, contextSize, StepsNow(), ids);
      assert history.tokens == [StepsNow().row];
      status := history.AddPendingInputToken([ids[0]]);
      assert history.tokens == [StepsNow().row];
    }

    /** Feeds the model with the tokens of a prefill call. */
    method FeedModel(ids: seq<int>)
      requires history.Valid() && Storage() && ModesAgree() && !Wide() && InStep(StepsNow())
      requires ids != [] && !OnlyStores(StepsNow(), ids)
      modifies `currentStep, `inputKv, `outputKv, history, prefillKv1, prefillKv2, decodeKv1, decodeKv2
      ensures history.Valid() && Storage() && ModesAgree()
      ensures StepsNow() == PrefillStep(old(StepsNow()), ids)
      ensures CacheFed(old(inputKv.buffers), inputKv.buffers, old(StepsNow()), ids)
      ensures old(KvHolds()) && (Aligned(old(StepsNow())) || |ids| == 1) ==> KvHolds()
    {
      hide Fed, Tokens, Positions, Aligned, InStep, BufferHolds, WriteRows, PrefillStep, Shaped, OnlyStores, CacheFed;
      ghost var s, cache := StepsNow(), inputKv.buffers;
      assert history.tokens == [s.row];
      var tokens, positions, next := FillInputs(history, currentStep, ids);
      currentStep := next;
      RunAndSwap([tokens], positions);
      WrittenIsFed(cache, inputKv.buffers, contextSize, s, ids);
      PrefillCallHolds(cache, inputKv.buffers, contextSize, s, ids);
      assert history.tokens == [StepsNow().row];
    }

    /** One prefill call. */
    method PrefillInternal(ids: seq<int>) returns (status: Status)
      requires Valid() && !Wide() && ids != []
      modifies this, history, prefillKv1, prefillKv2, decodeKv1, decodeKv2
      ensures Valid() && status == Ok && ranDecode == old(ranDecode)
      ensures StepsNow() == PrefillStep(old(StepsNow()), ids)
      ensures feeds == old(feeds) + Fed(old(StepsNow()), ids)
      ensures CacheFed(old(inputKv.buffers), inputKv.buffers, old(StepsNow()), ids)
      ensures old(KvHolds()) && (Aligned(old(StepsNow())) || |ids| == 1) ==> KvHolds()
    {
      hide Aligned, InStep, PrefillStep, Shaped, CacheHolds, CacheFed;
      StepKeepsInStep(StepsNow(), ids);
      feeds := feeds + Fed(StepsNow(), ids);
      if !history.HasPendingInputToken() && |ids| == 1 {
        status := StoreId(ids);
      } else {
        FeedModel(ids);
        status := Ok;
      }
    }

    /** Copies the first row of the decode cache to the prefill cache, and makes that the active one. */
    method ReduceCache()
      requires Storage() && batch > 0 && Active(decodeKv1, decodeKv2)
      modifies `inputKv, `outputKv, prefillKv1
      ensures Storage() && inputKv == prefillKv1 && outputKv == prefillKv2
      ensures inputKv.buffers.Keys == old(inputKv.buffers).Keys
      ensures forall name | name in inputKv.buffers :: CopyFits(batch, 0, |old(inputKv.buffers)[name]|, contextSize)
      ensures forall name | name in inputKv.buffers ::
                inputKv.buffers[name] == Copied(batch, 0, old(inputKv.buffers)[name], contextSize)
    {
      hide Copied;
      assert batch * contextSize == contextSize * batch;
      var status := CopyKvCacheBuffers(batch, 0, inputKv, prefillKv1);
      inputKv, outputKv := prefillKv1, prefillKv2;
    }

    /** The cache of the first candidate. */
    ghost function CacheOfOne(): map<string, seq<Cell>>
      reads `ranDecode, `inputKv, inputKv
    {
      if Wide() then ReducedCache(inputKv.buffers, batch, contextSize) else inputKv.buffers
    }

    /** The first prefill after a decode keeps only the first candidate. */
    method ReduceToOne() returns (status: Status)
      requires Valid()
      modifies this, history, prefillKv1, prefillKv2
      ensures Valid() && status == Ok && !ranDecode
      ensures history.tokens == [old(history.tokens)[0]] && currentStep == old(currentStep)
      ensures inputKv.buffers == old(CacheOfOne())
      ensures old(KvHolds()) ==> KvHolds()
    {
      hide CacheHolds, InStep, Copied, CopyFits, Shaped;
      ghost var cache, rows := inputKv.buffers, history.tokens;
      status := Ok;
      if ranDecode {
        ranDecode := false;
        if batch > 1 {
          status := history.ReduceTokenCandidates(0);
          ReduceCache();
          ReducedIs(cache, inputKv.buffers, batch, contextSize);
          ReduceCacheHolds(cache, inputKv.buffers, contextSize, rows);
          return;
        }
      }
      assert history.tokens == [history.tokens[0]];
    }

    /** The loop over the work groups. */
    method RunGroups(ids: seq<int>, groups: seq<Group>)
      requires Valid() && !Wide()
      requires Cuts(Lengths(groups), |ids|) && RegularCuts(Lengths(groups))
      modifies this, history, prefillKv1, prefillKv2, decodeKv1, decodeKv2
      ensures Valid() && ranDecode == old(ranDecode)
      ensures StepsNow() == PrefillAll(old(StepsNow()), ids, Lengths(groups))
      ensures feeds == FedAll(old(StepsNow()), ids, Lengths(groups))
      ensures CacheAfter(old(inputKv.buffers), inputKv.buffers, old(StepsNow()), ids, Lengths(groups))
      ensures old(KvHolds()) && (Aligned(old(StepsNow())) || AllOnes(Lengths(groups))) ==> KvHolds()
    {
      hide Aligned, InStep, PrefillStep, PrefillAll, FedAll, Fed, CacheHolds, Storage, ModesAgree, RegularCuts, AllOnes, Total;
      hide CacheFed, CacheAfter;
      ghost var s, lengths, cache := StepsNow(), Lengths(groups), inputKv.buffers;
      feeds := [];
      var rest := ids;
      ghost var done: seq<int> := [];
      CutsUpTo(lengths, |ids|, 0);
      PrefillNothing(s, done, lengths[..0]);
      NothingFedYet(cache, s, done, lengths[..0]);
      assert done + rest == ids;
      for n := 0 to |groups|
        invariant Valid() && ranDecode == old(ranDecode) && !Wide()
        invariant done + rest == ids
        invariant Cuts(lengths[..n], |done|)
        invariant StepsNow() == PrefillAll(s, done, lengths[..n])
        invariant feeds == FedAll(s, done, lengths[..n])
        invariant CacheAfter(cache, inputKv.buffers, s, done, lengths[..n])
        invariant old(KvHolds()) && (Aligned(s) || AllOnes(lengths)) ==> KvHolds()
      {
        CutsUpTo(lengths, |ids|, n);
        CutsUpTo(lengths, |ids|, n + 1);
        var length := groups[n].length;
        if Aligned(s) || AllOnes(lengths) {
          NextCallInPlace(s, done, lengths, n);
        }
        NextCall(s, done, lengths[..n], rest[..length]);
        assert lengths[..n + 1] == lengths[..n] + [length];
        ghost var now := inputKv.buffers;
        var status := PrefillInternal(rest[..length]);
        NextCacheCall(cache, now, inputKv.buffers, s, done, lengths[..n], rest[..length]);
        done, rest := done + rest[..length], rest[length..];
      }
      assert lengths[..|groups|] == lengths;
      CutsUpTo(lengths, |ids|, |groups|);
      assert done == ids;
    }

    /**
     A prefill of the first of `inputBatch` rows of `inputLength` ids, cut into calls that each fit
     their runner.
     */
    method Prefill(input: seq<int>, inputBatch: nat, inputLength: nat) returns (status: Status, ghost groups: seq<Group>)
      requires Valid() && |input| == inputBatch * inputLength
      modifies this, history, prefillKv1, prefillKv2, decodeKv1, decodeKv2
      ensures Valid() && !ranDecode
      ensures status == if (inputBatch != 1 && inputBatch != batch) || inputLength == 0 then Error(Internal) else Ok
      ensures status != Ok ==> history.tokens == [old(history.tokens)[0]] && currentStep == old(currentStep)
      ensures status == Ok ==> inputLength <= |input|
      ensures status == Ok ==>
                var ids, s, lengths := input[..inputLength], old(StepsNow()), Lengths(groups);
                && Optimized(runners, groups) && (forall n :: 0 <= n < |groups| ==> FitsRunner(runners, groups[n]))
                && Cuts(lengths, inputLength) && RegularCuts(lengths)
                && StepsNow() == PrefillAll(s, ids, lengths)
                && history.tokens == [Row(AllIds(s.row) + ids[..inputLength - 1], Some(ids[inputLength - 1]))]
                && feeds == FedAll(s, ids, lengths)
                && (Aligned(StepsNow()) <==> Aligned(s) && !(s.row.pending.None? && lengths[0] == 1))
                && CacheAfter(old(CacheOfOne()), inputKv.buffers, s, ids, lengths)
      ensures old(KvHolds()) && (status == Ok ==> Aligned(old(StepsNow())) || AllOnes(Lengths(groups))) ==> KvHolds()
    {
      hide Aligned, InStep, PrefillStep, PrefillAll, FedAll, Fed, CacheHolds, CacheAfter, Storage, RegularCuts, AllOnes, Cuts;
      hide Optimized, FitsRunner;
      groups := [];
      ghost var s := StepsNow();
      status := ReduceToOne();
      if inputBatch != 1 && inputBatch != batch {
        return Error(Internal), groups;
      }
      if inputLength == 0 {
        return Error(Internal), groups;
      }
      InputRow(inputBatch, inputLength);
      var ids := input[..inputLength];
      var workGroups := GetOptimizedPrefillWorkGroups(runners, |ids|);
      groups := workGroups;
      ghost var lengths := Lengths(groups);
      GroupsFit(runners, groups);
      WorkGroupsCutRegularly(runners, groups, |ids|);
      RunGroups(ids, workGroups);
      CutsDoNotMatter(s, ids, lengths);
      AlignedAfter(s, ids, lengths);
      assert lengths != [];
      assert history.tokens == [StepsNow().row];
    }

    /** Copies the prefill cache to every row of the decode cache, and makes that the active one. */
    method BroadcastCache()
      requires Storage() && batch > 0 && Active(prefillKv1, prefillKv2)
      modifies `inputKv, `outputKv, decodeKv1
      ensures Storage() && inputKv == decodeKv1 && outputKv == decodeKv2
      ensures inputKv.buffers.Keys == old(inputKv.buffers).Keys
      ensures forall name | name in inputKv.buffers :: |old(inputKv.buffers)[name]| == contextSize
      ensures forall name | name in inputKv.buffers ::
                inputKv.buffers[name] == Copied(batch, -1, old(inputKv.buffers)[name], contextSize * batch)
    {
      hide Copied;
      assert batch * contextSize == contextSize * batch;
      var status := CopyKvCacheBuffers(batch, -1, inputKv, decodeKv1);
      inputKv, outputKv := decodeKv1, decodeKv2;
    }

    /** The first decode after a prefill gives every candidate its own row. */
    method PrepareFirstDecode() returns (status: Status)
      requires Valid()
      modifies `ranDecode, `inputKv, `outputKv, history, decodeKv1
      ensures Valid() && status == Ok && ranDecode
      ensures history.tokens == Prepared(old(history.tokens), old(ranDecode), batch)
      ensures |history.tokens| == batch
      ensures forall j :: 0 <= j < batch ==> history.tokens[j] == old(history.tokens)[if old(ranDecode) || batch <= 1 then j else 0]
      ensures old(KvHolds()) ==> KvHolds()
    {
      hide CacheHolds, InStep, Copied, Shaped;
      if ranDecode {
        return Ok;
      }
      ranDecode := true;
      assert history.tokens == [history.tokens[0]];
      if batch <= 1 {
        return Ok;
      }
      ghost var cache, row := inputKv.buffers, history.tokens[0];
      status := history.BroadcastTokenCandidates(batch);
      BroadcastCache();
      BroadcastCacheHolds(cache, inputKv.buffers, contextSize, row, batch);
    }

    method DecodeInternal(step: nat, token: seq<int>) returns (status: Status)
      requires Storage() && (token != [] ==> |token| == ActiveRows())
      requires if Wide() then Active(decodeKv1, decodeKv2) else Active(prefillKv1, prefillKv2)
      modifies `inputKv, `outputKv, prefillKv1, prefillKv2, decodeKv1, decodeKv2
      ensures Storage()
      ensures if Wide() then Active(decodeKv1, decodeKv2) else Active(prefillKv1, prefillKv2)
      ensures status == if token == [] then Error(InvalidArgument) else Ok
      ensures status != Ok ==> inputKv == old(inputKv) && inputKv.buffers == old(inputKv.buffers)
      ensures status == Ok ==> inputKv.buffers.Keys == old(inputKv.buffers).Keys
      ensures status == Ok ==> forall name | name in inputKv.buffers ::
                |old(inputKv.buffers)[name]| == |token| * contextSize &&
                inputKv.buffers[name] ==
                  WriteRows(old(inputKv.buffers)[name], contextSize, Singletons(token), [step], |token|)
    {
      if token == [] {
        return Error(InvalidArgument);
      }
      RunAndSwap(Singletons(token), [step]);
      status := Ok;
    }

    method DecodeLogits(input: seq<int>) returns (status: Status)
      requires Valid()
      modifies this, history, prefillKv1, prefillKv2, decodeKv1, decodeKv2
      ensures Valid() && ranDecode
      ensures var given := input != [] && input[0] >= 0;
              && |history.tokens| == batch
              && status == (if input != [] && |input| != batch then Error(Internal)
                            else if !given && !old(history.HasPendingInputToken()) then Error(InvalidArgument) else Ok)
              && forall j :: 0 <= j < batch ==>
                   var before := old(history.tokens)[if old(ranDecode) || batch <= 1 then j else 0];
                   if status != Ok then history.tokens[j] == before
                   else if given then history.tokens[j] == Row(before.ids + [input[j]], None)
                   else before.pending.Some? && history.tokens[j] == Row(before.ids + [before.pending.value], None)
      ensures status == Ok ==>
                history.tokens == Apply(WithInput(Prepared(old(history.tokens), old(ranDecode), batch), input), MarkProcessed)
      ensures status != Ok ==> currentStep == old(currentStep)
      ensures status == Ok ==> currentStep == history.TokenCount() == old(history.GetStep()) + 1
      ensures status == Ok ==> !history.HasPendingInputToken()
      ensures old(KvHolds()) ==> KvHolds()
    {
      hide CacheHolds, Shaped, WriteRows, Apply, WithInput, Prepared, Singletons, Storage;
      var prepared := PrepareFirstDecode();
      ghost var rows := history.tokens;
      var step, token;
      status, step, token := GetTokenToDecode(history, batch, currentStep, input);
      SameIdsCacheHolds(inputKv.buffers, contextSize, rows, history.tokens);
      if status != Ok {
        return;
      }
      ghost var cache, ready := inputKv.buffers, history.tokens;
      status := DecodeInternal(step, token);
      if status != Ok {
        return;
      }
      DecodeCacheHolds(cache, inputKv.buffers, contextSize, ready, token);
      status := ConsumePendingOrAddProcessedToken(history, token);
      ConsumedRow(ready);
      currentStep := step + 1;
    }

    /** Decodes one step and samples: the sampled tokens become the pending ones, negative ones as 0. */
    method Decode() returns (status: Status, output: seq<int>)
      requires Valid()
      modifies this, history, prefillKv1, prefillKv2, decodeKv1, decodeKv2
      ensures Valid() && ranDecode
      ensures old(history.HasPendingInputToken()) ==>
                var sampled := sample(WithoutPending(history.tokens));
                && status == (if |sampled| == batch then Ok else Error(Internal))
                && |history.tokens| == batch && |output| == (if status == Ok then batch else 0)
                && (forall j :: 0 <= j < |output| ==> output[j] == if sampled[j] < 0 then 0 else sampled[j])
                && forall j :: 0 <= j < batch ==>
                     var before := old(history.tokens)[if old(ranDecode) || batch <= 1 then j else 0];
                     && before.pending.Some?
                     && history.tokens[j] ==
                        Row(before.ids + [before.pending.value], if status == Ok then Some(output[j]) else None)
      ensures status == Ok ==>
                var rows := Apply(Prepared(old(history.tokens), old(ranDecode), batch), MarkProcessed);
                output == ClampAll(sample(rows)) && history.tokens == Apply(rows, AddPending(output))
      ensures !old(history.HasPendingInputToken()) ==>
                status == Error(InvalidArgument) && history.tokens == Prepared(old(history.tokens), old(ranDecode), batch)
      ensures status == Ok ==>
                && history.HasPendingInputToken() && history.TokenCount() == old(history.TokenCount()) + 1
                && Behind(StepsNow())
      ensures old(KvHolds()) ==> KvHolds()
    {
      hide CacheHolds, Shaped, Apply, Prepared;
      output := [];
      PreparedRow(history.tokens, ranDecode, batch);
      status := DecodeLogits([]);
      if status != Ok {
        return;
      }
      ghost var rows := history.tokens;
      assert WithoutPending(rows) == rows;
      var sampled := sample(history.tokens);
      if |sampled| != batch {
        return Error(Internal), [];
      }
      output := ClampAll(sampled);
      AddPendingKeepsIds(rows, output);
      status := history.AddPendingInputToken(output);
      assert WithoutPending(history.tokens) == rows;
      SameIdsCacheHolds(inputKv.buffers, contextSize, rows, history.tokens);
    }

    method Reset()
      requires Valid()
      modifies `currentStep, history
      ensures Valid() && KvHolds()
      ensures currentStep == 0 && history.tokens == Broadcast(Row([], None), |old(history.tokens)|)
    {
      hide Shaped;
      currentStep := 0;
      var status := history.RollBackToStep(0);
      assert forall r :: 0 <= r < |history.tokens| ==> history.tokens[r] == Row([], None);
      ActiveSizes();
      EmptyHolds(inputKv.buffers, contextSize, history.tokens);
    }

    lemma ActiveSizes()
      requires Storage() && (if Wide() then Active(decodeKv1, decodeKv2) else Active(prefillKv1, prefillKv2))
      ensures forall name :: name in inputKv.buffers ==> |inputKv.buffers[name]| == ActiveRows() * contextSize
    {
    }
  }
}
