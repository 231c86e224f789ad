/**
 The decoding loop (`ShouldStop` and `Decode` in runtime/core/tasks.cc), over the static executor.

 What the loop returns is stated without the loop: the executor's tokens form one stream per
 candidate, and the text is what the stop-token hold-back releases of that stream up to the first
 step at which decoding has to stop. Streaming and synchronous decoding are two ways to deliver it.
 */
module DecodeLoop {
  import opened Wrappers
  import opened TokenHistory
  import opened WorkGroups
  import opened PrefillFeeding
  import opened ExecutorBase
  import opened StaticExecutor
  import opened StopTokens
  import opened DecodeStep
  import opened ReleasedText
  import FenceSplitter

  predicate ShouldStop(hitStopTokens: bool, benchmarkSteps: nat, decodedSteps: nat, currentStep: nat, maxTokens: int) {
    || (hitStopTokens && benchmarkSteps == 0)
    || (benchmarkSteps > 0 && decodedSteps >= benchmarkSteps)
    || currentStep >= maxTokens
  }

  // ---------------------------------------------------------------------------------------------
  // The token streams, without the loop
  // ---------------------------------------------------------------------------------------------

  /** The token rows and the latest sampled ids. */
  datatype State = State(rows: seq<Row>, ids: seq<int>)

  type Sampler = seq<Row> -> seq<int>

  /** One step: with custom sampling the latest ids are given back to the executor as its next input. */
  function Next(custom: bool, sample: Sampler, s: State): State
    requires s.rows != []
    ensures Next(custom, sample, s).rows != []
  {
    if custom then
      var rows := Apply(WithInput(s.rows, s.ids), MarkProcessed);
      State(rows, sample(rows))
    else
      var rows := Apply(s.rows, MarkProcessed);
      var output := ClampAll(sample(rows));
      State(Apply(rows, AddPending(output)), output)
  }

  function After(custom: bool, sample: Sampler, s: State, steps: nat): (r: State)
    requires s.rows != []
    ensures r.rows != []
  {
    if steps == 0 then s else Next(custom, sample, After(custom, sample, s, steps - 1))
  }

  /** The tokens of candidate `j`. */
  function Stream(custom: bool, sample: Sampler, s: State, steps: nat, j: nat): (stream: seq<int>)
    requires s.rows != []
    ensures |stream| == steps
  {
    if steps == 0 then []
    else
      var ids := After(custom, sample, s, steps).ids;
      Stream(custom, sample, s, steps - 1, j) + [if j < |ids| then ids[j] else 0]
  }

  // --- what a step does, row by row ---

  /** The token that a step feeds for candidate `i`: with custom sampling the given one, unless the first given id is negative. */
  function Input(custom: bool, s: State, i: nat): int
    requires i < |s.rows|
  {
    if custom && i < |s.ids| && s.ids[0] >= 0 then s.ids[i]
    else match s.rows[i].pending case Some(id) => id case None => 0
  }

  /** There is a token to feed. */
  predicate CanStep(custom: bool, s: State) {
    && s.rows != []
    && if custom && s.ids != [] then |s.ids| == |s.rows| && (s.ids[0] >= 0 || s.rows[0].pending.Some?)
       else s.rows[0].pending.Some?
  }

  /** A successful step feeds one token per row and samples; internal sampling takes 0 for a negative id, and keeps it pending. */
  predicate Stepped(custom: bool, sample: Sampler, before: State, after: State) {
    && CanStep(custom, before) && |after.rows| == |before.rows|
    && (forall i :: 0 <= i < |after.rows| ==> after.rows[i].ids == before.rows[i].ids + [Input(custom, before, i)])
    && (if custom then forall i :: 0 <= i < |after.rows| ==> after.rows[i].pending.None?
        else |after.ids| == |after.rows| && forall i :: 0 <= i < |after.rows| ==> after.rows[i].pending == Some(after.ids[i]))
    && var sampled := sample(WithoutPending(after.rows));
       |after.ids| == |sampled|
       && forall j :: 0 <= j < |sampled| ==> after.ids[j] == if !custom && sampled[j] < 0 then 0 else sampled[j]
  }

  /** What decides the outcome of decoding. */
  datatype Setup = Setup(custom: bool, sample: Sampler, start: State, sequences: seq<seq<int>>, items: seq<Item>,
                         toText: Detokenizer, candidates: nat, benchmarkSteps: nat, maxTokens: int)

  predicate Good(u: Setup) {
    && u.start.rows != [] && NonEmpty(u.sequences)
    && forall j :: 0 <= j < |u.items| ==> |u.items[j].progress| == |u.sequences|
  }

  /** The detector's item for candidate `j`, when decoding starts. */
  function ItemOf(u: Setup, j: nat): (item: Item)
    requires Good(u)
    ensures |item.progress| == |u.sequences|
  {
    if j < |u.items| then u.items[j] else InitialItem(u.sequences)
  }

  // --- the streams are what is sampled, token by token ---

  /** What row `i` holds when the first token is sampled. */
  function Base(u: Setup, i: nat): (ids: seq<int>)
    requires i < |u.start.rows|
    ensures |ids| == |u.start.rows[i].ids| + 1
  {
    u.start.rows[i].ids + [Input(u.custom, u.start, i)]
  }

  /** The rows from which the token after the first `t` is sampled. */
  function Histories(u: Setup, t: nat): (rows: seq<Row>)
    requires Good(u)
    ensures |rows| == |u.start.rows|
    ensures forall i :: 0 <= i < |rows| ==> rows[i] == Row(Base(u, i) + Stream(u.custom, u.sample, u.start, t, i), None)
  {
    seq(|u.start.rows|, i requires 0 <= i < |u.start.rows| => Row(Base(u, i) + Stream(u.custom, u.sample, u.start, t, i), None))
  }

  /** The ids of step `t + 1` are those sampled from these rows. */
  predicate SampledAt(u: Setup, t: nat)
    requires Good(u)
  {
    var sampled, ids := u.sample(Histories(u, t)), After(u.custom, u.sample, u.start, t + 1).ids;
    && |sampled| == |ids| == u.candidates
    && forall j :: 0 <= j < u.candidates ==> ids[j] == if !u.custom && sampled[j] < 0 then 0 else sampled[j]
  }

  /** Row `i` after `t` steps. */
  predicate GrownRow(u: Setup, row: Row, t: nat, i: nat)
    requires Good(u) && t > 0 && i < |u.start.rows|
  {
    && row.ids == Base(u, i) + Stream(u.custom, u.sample, u.start, t - 1, i)
    && row.pending == if u.custom then None else Some(Stream(u.custom, u.sample, u.start, t, i)[t - 1])
  }

  /** The state after `t` steps. */
  predicate GrownAt(u: Setup, t: nat)
    requires Good(u) && t > 0
  {
    var rows := After(u.custom, u.sample, u.start, t).rows;
    && |rows| == |u.start.rows| && SampledAt(u, t - 1)
    && forall i :: 0 <= i < |rows| ==> GrownRow(u, rows[i], t, i)
  }

  /** The states up to the one after `t` steps. */
  ghost predicate Grown(u: Setup, t: nat)
    requires Good(u)
  {
    && (t > 0 ==> CanStep(u.custom, u.start))
    && forall k :: 0 < k <= t ==> GrownAt(u, k)
  }

  lemma GrownStep(u: Setup, t: nat)
    requires Good(u) && Grown(u, t)
    requires Stepped(u.custom, u.sample, After(u.custom, u.sample, u.start, t), After(u.custom, u.sample, u.start, t + 1))
    requires |After(u.custom, u.sample, u.start, t + 1).ids| == u.candidates
    ensures Grown(u, t + 1)
  {
    hide Next, NonEmpty;
    var before, after := After(u.custom, u.sample, u.start, t), After(u.custom, u.sample, u.start, t + 1);
    assert t > 0 ==> GrownAt(u, t);
    forall i | 0 <= i < |after.rows| ensures GrownRow(u, after.rows[i], t + 1, i) {
      GrownRowStep(u, t, i);
    }
    assert WithoutPending(after.rows) == Histories(u, t);
    assert GrownAt(u, t + 1);
  }

  lemma GrownRowStep(u: Setup, t: nat, i: nat)
    requires Good(u) && Grown(u, t) && i < |u.start.rows|
    requires Stepped(u.custom, u.sample, After(u.custom, u.sample, u.start, t), After(u.custom, u.sample, u.start, t + 1))
    ensures |After(u.custom, u.sample, u.start, t + 1).rows| == |u.start.rows|
    ensures GrownRow(u, After(u.custom, u.sample, u.start, t + 1).rows[i], t + 1, i)
  {
    hide Next, NonEmpty, SampledAt;
    var before, after := After(u.custom, u.sample, u.start, t), After(u.custom, u.sample, u.start, t + 1);
    if t > 0 {
      assert GrownAt(u, t);
      assert GrownRow(u, before.rows[i], t, i) && GrownRow(u, before.rows[0], t, 0);
    }
  }

  /** The token count after `t` steps; a custom step leaves nothing pending. */
  lemma GrownCount(u: Setup, t: nat)
    requires Good(u) && t > 0 && GrownAt(u, t)
    ensures var row := After(u.custom, u.sample, u.start, t).rows[0];
            Count(row) == |AllIds(row)| == |u.start.rows[0].ids| + t + if u.custom then 0 else 1
  {
    hide SampledAt, After;
    assert GrownRow(u, After(u.custom, u.sample, u.start, t).rows[0], t, 0);
  }

  /** No step can fail: there is a token to feed, the sampler gives one id per candidate, and a custom one gives ids that can be fed. */
  ghost predicate Ready(u: Setup) {
    && |u.start.rows| == |u.items| == u.candidates && u.sequences != []
    && CanStep(u.custom, u.start)
    && (forall rows :: |rows| == u.candidates ==> |u.sample(rows)| == u.candidates && (u.custom ==> u.sample(rows)[0] >= 0))
  }

  lemma ReadyAt(u: Setup, t: nat)
    requires Good(u) && Ready(u) && Grown(u, t)
    ensures CanStep(u.custom, After(u.custom, u.sample, u.start, t))
  {
    hide Next, NonEmpty;
    if t > 0 {
      assert GrownAt(u, t);
      var s := After(u.custom, u.sample, u.start, t);
      assert GrownRow(u, s.rows[0], t, 0);
      assert |Histories(u, t - 1)| == u.candidates;
    }
  }

  predicate AllFound(u: Setup, steps: nat)
    requires Good(u)
  {
    forall j :: 0 <= j < u.candidates ==>
      ItemFrom(u.sequences, ItemOf(u, j), Stream(u.custom, u.sample, u.start, steps, j)).found
  }

  predicate StopsAfter(u: Setup, steps: nat)
    requires Good(u)
  {
    ShouldStop(AllFound(u, steps), u.benchmarkSteps, steps, Count(After(u.custom, u.sample, u.start, steps).rows[0]), u.maxTokens)
  }

  /** `steps` is the first step after which decoding stops. */
  ghost predicate FirstStop(u: Setup, steps: nat)
    requires Good(u)
  {
    steps > 0 && StopsAfter(u, steps) && forall t :: 0 < t < steps ==> !StopsAfter(u, t)
  }

  lemma FirstStopUnique(u: Setup, a: nat, b: nat)
    requires Good(u) && FirstStop(u, a) && FirstStop(u, b)
    ensures a == b
  {
  }

  /** Some candidate has no stop sequence after `t` steps. */
  predicate SomeOpen(u: Setup, t: nat)
    requires Good(u)
  {
    exists j :: 0 <= j < u.candidates && !ItemFrom(u.sequences, ItemOf(u, j), Stream(u.custom, u.sample, u.start, t, j)).found
  }

  /**
   Decoding goes on below the token limit, while some candidate is open or for as many steps as the
   benchmark asks for, and takes one step at least. A custom step leaves no token pending.
   */
  ghost predicate EndsAt(u: Setup, steps: nat)
    requires Good(u)
  {
    var count := |u.start.rows[0].ids| + if u.custom then 0 else 1;
    && steps > 0
    && (steps > 1 ==> count + steps - 1 < u.maxTokens)
    && (if u.benchmarkSteps > 0 then steps == 1 || steps - 1 < u.benchmarkSteps
        else forall t :: 0 < t < steps ==> SomeOpen(u, t))
    && (|| count + steps >= u.maxTokens
        || if u.benchmarkSteps > 0 then steps >= u.benchmarkSteps else !SomeOpen(u, steps))
  }

  lemma FirstStopMeans(u: Setup, steps: nat)
    requires Good(u) && Grown(u, steps)
    ensures FirstStop(u, steps) <==> EndsAt(u, steps)
  {
    hide SomeOpen, AllFound, After, GrownAt, CanStep, NonEmpty, Count;
    var count := |u.start.rows[0].ids| + if u.custom then 0 else 1;
    forall t | 0 < t <= steps
      ensures StopsAfter(u, t) <==>
                || count + t >= u.maxTokens
                || if u.benchmarkSteps > 0 then t >= u.benchmarkSteps else !SomeOpen(u, t)
    {
      assert GrownAt(u, t);
      GrownCount(u, t);
      SomeOpenOrAllFound(u, t);
    }
    if steps > 1 {
      assert FirstStop(u, steps) ==> !StopsAfter(u, steps - 1);
    }
  }

  lemma SomeOpenOrAllFound(u: Setup, t: nat)
    requires Good(u)
    ensures SomeOpen(u, t) <==> !AllFound(u, t)
  {
    hide ItemFrom, Stream;
  }

  /** A detector that has processed no token finds a candidate's restartable stop sequences exactly when they occur in its stream. */
  lemma FoundInStream(u: Setup, t: nat, j: nat)
    requires Good(u) && ItemOf(u, j) == InitialItem(u.sequences) && AllRestartable(u.sequences)
    ensures ItemFrom(u.sequences, ItemOf(u, j), Stream(u.custom, u.sample, u.start, t, j)).found <==>
              exists k :: 0 <= k < |u.sequences| && OccursIn(u.sequences[k], Stream(u.custom, u.sample, u.start, t, j))
  {
    hide Stream, OccursIn, AllRestartable;
    ItemFromStart(u.sequences, Stream(u.custom, u.sample, u.start, t, j));
    FoundExactly(u.sequences, Stream(u.custom, u.sample, u.start, t, j));
  }

  /** The special space of the tokenizer is replaced by a space. */
  const TOKENIZER_SPACE: char := '\U{2581}'

  function Spaced(text: string): (r: string)
    ensures |r| == |text| && '\U{2581}' !in r
    ensures forall i :: 0 <= i < |r| ==> r[i] == if text[i] == '\U{2581}' then ' ' else text[i]
  {
    seq(|text|, i requires 0 <= i < |text| => if text[i] == TOKENIZER_SPACE then ' ' else text[i])
  }

  lemma SpacedConcat(a: string, b: string)
    ensures Spaced(a + b) == Spaced(a) + Spaced(b)
  {
  }

  /** The text released for candidate `j` within a number of steps. */
  function TextAfter(u: Setup, steps: nat, j: nat): string
    requires Good(u)
  {
    Spaced(Join(Texts(u.toText, FlowFrom(u.sequences, u.toText, ItemOf(u, j), Stream(u.custom, u.sample, u.start, steps, j)).emitted)))
  }

  // --- delivering the text ---

  /** The texts of candidate `j` in a sequence of updates, put together. */
  function Delivered(updates: seq<seq<string>>, j: nat): string {
    if updates == [] then ""
    else
      var last := updates[|updates| - 1];
      Delivered(updates[..|updates| - 1], j) + if j < |last| then last[j] else ""
  }

  lemma DeliveredSnoc(updates: seq<seq<string>>, update: seq<string>, j: nat)
    requires j < |update|
    ensures Delivered(updates + [update], j) == Delivered(updates, j) + update[j]
  {
    assert (updates + [update])[..|updates|] == updates;
  }

  lemma {:induction false} JoinConcat(a: seq<string>, b: seq<string>)
    ensures Join(a + b) == Join(a) + Join(b)
  {
    if b == [] {
      assert a + b == a;
    } else {
      var n := |b| - 1;
      JoinConcat(a, b[..n]);
      assert (a + b)[..|a| + n] == a + b[..n] && (a + b)[|a| + n] == b[n];
    }
  }

  lemma TextsConcat(toText: Detokenizer, a: seq<seq<int>>, b: seq<seq<int>>)
    ensures Texts(toText, a + b) == Texts(toText, a) + Texts(toText, b)
  {
  }

  /** The text released by one more step is appended. */
  lemma MoreText(toText: Detokenizer, before: seq<seq<int>>, after: seq<seq<int>>)
    requires before <= after
    ensures Spaced(Join(Texts(toText, after))) ==
            Spaced(Join(Texts(toText, before))) + Spaced(Join(Texts(toText, after[|before|..])))
  {
    hide Texts, Join;
    TextsConcat(toText, before, after[|before|..]);
    JoinConcat(Texts(toText, before), Texts(toText, after[|before|..]));
    assert before + after[|before|..] == after;
    SpacedConcat(Join(Texts(toText, before)), Join(Texts(toText, after[|before|..])));
  }

  /** A candidate that has stopped has no text in the step, so no update is lost when all have stopped. */
  lemma NoTextWhenFound(toText: Detokenizer, flow: Flow, token: int, maxPartial: nat)
    ensures var next := StepFlow(toText, flow, token, true, maxPartial);
            flow.emitted <= next.emitted && Join(Texts(toText, next.emitted[|flow.emitted|..])) == ""
  {
    var next := StepFlow(toText, flow, token, true, maxPartial);
    assert next.emitted[|flow.emitted|..] == [];
  }

  // ---------------------------------------------------------------------------------------------
  // The loop
  // ---------------------------------------------------------------------------------------------

  lemma CustomStep(sample: Sampler, before: State, rows: seq<Row>)
    requires |before.rows| == |rows| > 0 && (before.ids != [] ==> |before.ids| == |rows|)
    requires forall j :: 0 <= j < |rows| ==>
               if before.ids != [] && before.ids[0] >= 0 then rows[j] == Row(before.rows[j].ids + [before.ids[j]], None)
               else before.rows[j].pending.Some? && rows[j] == Row(before.rows[j].ids + [before.rows[j].pending.value], None)
    ensures Stepped(true, sample, before, State(rows, sample(rows)))
  {
    assert WithoutPending(rows) == rows;
  }

  lemma InternalStep(sample: Sampler, before: State, rows: seq<Row>, output: seq<int>)
    requires |before.rows| == |rows| == |output| > 0 && |sample(WithoutPending(rows))| == |rows|
    requires forall j :: 0 <= j < |rows| ==>
               && before.rows[j].pending.Some?
               && rows[j] == Row(before.rows[j].ids + [before.rows[j].pending.value], Some(output[j]))
               && output[j] == if sample(WithoutPending(rows))[j] < 0 then 0 else sample(WithoutPending(rows))[j]
    ensures Stepped(false, sample, before, State(rows, output))
  {
  }

  lemma PreparedCanStep(custom: bool, rows: seq<Row>, ranDecode: bool, batch: nat, ids: seq<int>)
    requires Uniform(rows) && batch > 0 && |Prepared(rows, ranDecode, batch)| == batch
    ensures CanStep(custom, State(Prepared(rows, ranDecode, batch), ids)) <==>
              if custom && ids != [] then |ids| == batch && (ids[0] >= 0 || rows[0].pending.Some?) else rows[0].pending.Some?
  {
  }

  method DecodeAndSampleCustom(executor: Executor, ids: seq<int>) returns (status: Status, tokens: seq<int>)
    requires executor.Valid()
    modifies executor, executor.history, executor.prefillKv1, executor.prefillKv2, executor.decodeKv1, executor.decodeKv2
    ensures executor.Valid() && executor.ranDecode && |executor.history.tokens| == executor.batch
    ensures var before := State(Prepared(old(executor.history.tokens), old(executor.ranDecode), executor.batch), ids);
            && (status == Ok ==> Stepped(true, executor.sample, before, State(executor.history.tokens, tokens)))
            && (status == Ok ==> State(executor.history.tokens, tokens) == Next(true, executor.sample, before))
            && (status == Ok <==> CanStep(true, before))
    ensures status == Ok ==> tokens == executor.sample(WithoutPending(executor.history.tokens))
    ensures status != Ok ==> status == Error(Internal) || status == Error(InvalidArgument)
    ensures old(executor.KvHolds()) ==> executor.KvHolds()
  {
    hide Apply, Prepared, WithInput, Stepped, CanStep, Executor.Storage, Executor.ModesAgree;
    ghost var rows := Prepared(executor.history.tokens, executor.ranDecode, executor.batch);
    PreparedSize(executor);
    PreparedCanStep(true, executor.history.tokens, executor.ranDecode, executor.batch, ids);
    tokens := ids;
    status := executor.DecodeLogits(ids);
    if status != Ok {
      return;
    }
    tokens := executor.sample(executor.history.tokens);
    assert WithoutPending(executor.history.tokens) == executor.history.tokens;
    CustomStep(executor.sample, State(rows, ids), executor.history.tokens);
  }

  lemma PreparedSize(executor: Executor)
    requires executor.Valid()
    ensures |Prepared(executor.history.tokens, executor.ranDecode, executor.batch)| == executor.batch
    ensures |executor.history.tokens| == if executor.ranDecode then executor.batch else 1
  {
  }

  method DecodeAndSampleInternal(executor: Executor, ghost ids: seq<int>) returns (status: Status, tokens: seq<int>)
    requires executor.Valid()
    modifies executor, executor.history, executor.prefillKv1, executor.prefillKv2, executor.decodeKv1, executor.decodeKv2
    ensures executor.Valid() && executor.ranDecode && |executor.history.tokens| == executor.batch
    ensures var before := State(Prepared(old(executor.history.tokens), old(executor.ranDecode), executor.batch), ids);
            && (status == Ok ==> Stepped(false, executor.sample, before, State(executor.history.tokens, tokens)))
            && (status == Ok ==> State(executor.history.tokens, tokens) == Next(false, executor.sample, before))
            && (status == Ok <==>
                  CanStep(false, before) && |executor.sample(WithoutPending(executor.history.tokens))| == executor.batch)
    ensures status == Ok ==> |tokens| == |executor.sample(WithoutPending(executor.history.tokens))|
    ensures status != Ok ==> status == Error(Internal) || status == Error(InvalidArgument)
    ensures old(executor.KvHolds()) ==> executor.KvHolds()
  {
    hide Apply, Prepared, Stepped, CanStep, Executor.Storage, Executor.ModesAgree;
    ghost var rows := Prepared(executor.history.tokens, executor.ranDecode, executor.batch);
    PreparedSize(executor);
    PreparedCanStep(false, executor.history.tokens, executor.ranDecode, executor.batch, ids);
    status, tokens := executor.Decode();
    if status == Ok {
      InternalStep(executor.sample, State(rows, ids), executor.history.tokens, tokens);
    }
  }

  /** Decodes and samples one token per candidate (`DecodeAndSample`). */
  method DecodeAndSample(executor: Executor, custom: bool, ids: seq<int>) returns (status: Status, tokens: seq<int>)
    requires executor.Valid()
    modifies executor, executor.history, executor.prefillKv1, executor.prefillKv2, executor.decodeKv1, executor.decodeKv2
    ensures executor.Valid() && executor.ranDecode && |executor.history.tokens| == executor.batch
    ensures status == Ok ==>
              State(executor.history.tokens, tokens) ==
              Next(custom, executor.sample, State(Prepared(old(executor.history.tokens), old(executor.ranDecode), executor.batch), ids))
    ensures var before := State(Prepared(old(executor.history.tokens), old(executor.ranDecode), executor.batch), ids);
            && (status == Ok ==> Stepped(custom, executor.sample, before, State(executor.history.tokens, tokens)))
            && (status == Ok <==>
                  CanStep(custom, before) && (custom || |executor.sample(WithoutPending(executor.history.tokens))| == executor.batch))
    ensures status == Ok ==> |tokens| == |executor.sample(WithoutPending(executor.history.tokens))|
    ensures status != Ok ==> status == Error(Internal) || status == Error(InvalidArgument)
    ensures old(executor.KvHolds()) ==> executor.KvHolds()
  {
    hide *;
    if custom {
      status, tokens := DecodeAndSampleCustom(executor, ids);
    } else {
      status, tokens := DecodeAndSampleInternal(executor, ids);
    }
  }

  /** The numbers of candidates agree, and the sampler keeps to them. */
  ghost predicate Matched(executor: Executor, runner: DecodeOneStep)
    reads runner, runner.detector
  {
    && runner.numCandidates == executor.batch == |runner.detector.found| && runner.detector.sequences != []
    && forall rows :: |rows| == executor.batch ==> |executor.sample(rows)| == executor.batch
  }

  lemma MatchedAccepts(executor: Executor, runner: DecodeOneStep, rows: seq<Row>)
    requires Matched(executor, runner) && |rows| == executor.batch
    ensures |executor.sample(WithoutPending(rows))| == executor.batch
    ensures forall tokens :: |tokens| == executor.batch ==> runner.Accepts(tokens)
  {
  }

  /** `DecodeOneStep::Run`: one step of the executor, then of the hold-back. */
  method RunOneStep(executor: Executor, runner: DecodeOneStep, custom: bool, ids: seq<int>)
    returns (done: Result<bool>, tokens: seq<int>)
    requires executor.Valid() && runner.Valid()
    modifies executor, executor.history, executor.prefillKv1, executor.prefillKv2, executor.decodeKv1, executor.decodeKv2
    modifies runner, runner.detector
    ensures executor.Valid() && runner.Valid()
    ensures old(executor.KvHolds()) ==> executor.KvHolds()
    ensures runner.detector.sequences == old(runner.detector.sequences)
    ensures |runner.detector.found| == |old(runner.detector.found)|
    ensures done.Success? ==> executor.ranDecode
    ensures done.Success? ==>
              State(executor.history.tokens, tokens) ==
              Next(custom, executor.sample, State(Prepared(old(executor.history.tokens), old(executor.ranDecode), executor.batch), ids))
    ensures var before := State(Prepared(old(executor.history.tokens), old(executor.ranDecode), executor.batch), ids);
            && (done.Success? ==> Stepped(custom, executor.sample, before, State(executor.history.tokens, tokens)))
            && (CanStep(custom, before) && old(Matched(executor, runner)) ==> done.Success?)
    ensures done.Failure? ==> done.code == Internal || done.code == InvalidArgument
    ensures done.Success? ==>
              && |tokens| == runner.numCandidates == |runner.detector.found|
              && done.value == (forall j :: 0 <= j < runner.numCandidates ==> runner.detector.found[j])
              && forall j :: 0 <= j < runner.numCandidates ==>
                   && runner.ReleasedBy(j, tokens[j], old(runner.flows))
                   && runner.seen[j] == old(runner.seen[j]) + [tokens[j]]
  {
    hide *;
    var status;
    status, tokens := DecodeAndSample(executor, custom, ids);
    if Matched(executor, runner) {
      MatchedAccepts(executor, runner, executor.history.tokens);
    }
    if status != Ok {
      return Failure(status.code), tokens;
    }
    done := runner.Run(tokens);
  }

  // --- the loop invariant ---

  /** The executor and the runner are where the streams say they are after `steps` steps. */
  ghost predicate Reached(u: Setup, executor: Executor, runner: DecodeOneStep, ids: seq<int>, steps: nat)
    reads executor, executor.history, runner, runner.detector
  {
    && Good(u) && executor.history.tokens != [] && executor.batch == |u.start.rows|
    && runner.numCandidates == u.candidates && runner.toText == u.toText && runner.detector.sequences == u.sequences
    && runner.starts == u.items && |runner.seen| == |runner.detector.found|
    && State(Prepared(executor.history.tokens, executor.ranDecode, executor.batch), ids) == After(u.custom, u.sample, u.start, steps)
    && Grown(u, steps)
    && forall j :: 0 <= j < |runner.seen| ==>
         runner.seen[j] == Stream(u.custom, u.sample, u.start, steps, j)
  }

  /** What has been delivered to each candidate is the text released so far. */
  ghost predicate TextsDelivered(u: Setup, steps: nat, streaming: bool, updates: seq<seq<string>>, finals: seq<string>) {
    && Good(u) && |finals| == u.candidates
    && forall j :: 0 <= j < u.candidates ==>
         (if streaming then Delivered(updates, j) else finals[j]) == TextAfter(u, steps, j)
  }

  lemma NextStream(u: Setup, steps: nat, j: nat, ids: seq<int>)
    requires Good(u) && After(u.custom, u.sample, u.start, steps + 1).ids == ids && j < |ids|
    ensures Stream(u.custom, u.sample, u.start, steps + 1, j) == Stream(u.custom, u.sample, u.start, steps, j) + [ids[j]]
  {
  }

  /** The texts of one step, per candidate. */
  method CollectTexts(result: seq<string>, finals: seq<string>) returns (stepTexts: seq<string>, newFinals: seq<string>, anyUpdates: bool)
    requires |finals| == |result|
    ensures |stepTexts| == |newFinals| == |result|
    ensures forall j :: 0 <= j < |result| ==> stepTexts[j] == Spaced(result[j]) && newFinals[j] == finals[j] + Spaced(result[j])
    ensures anyUpdates <==> exists j :: 0 <= j < |result| && result[j] != ""
  {
    stepTexts, newFinals, anyUpdates := seq(|result|, _ => ""), finals, false;
    for j := 0 to |result|
      invariant |stepTexts| == |newFinals| == |result|
      invariant forall i :: 0 <= i < j ==> stepTexts[i] == Spaced(result[i]) && newFinals[i] == finals[i] + Spaced(result[i])
      invariant forall i :: j <= i < |result| ==> stepTexts[i] == "" && newFinals[i] == finals[i]
      invariant anyUpdates <==> exists i :: 0 <= i < j && result[i] != ""
    {
      if result[j] != "" {
        anyUpdates := true;
        stepTexts := stepTexts[j := Spaced(result[j])];
        newFinals := newFinals[j := newFinals[j] + Spaced(result[j])];
      }
    }
  }

  /** Delivering the texts of a step keeps the agreement; when all candidates have stopped there is none. */
  lemma StepDelivered(u: Setup, steps: nat, streaming: bool, updates: seq<seq<string>>, finals: seq<string>,
                      result: seq<string>, stepTexts: seq<string>, newFinals: seq<string>, send: bool)
    requires TextsDelivered(u, steps, streaming, updates, finals)
    requires |result| == |stepTexts| == |newFinals| == u.candidates
    requires forall j :: 0 <= j < |result| ==> stepTexts[j] == Spaced(result[j]) && newFinals[j] == finals[j] + Spaced(result[j])
    requires forall j :: 0 <= j < u.candidates ==> TextAfter(u, steps + 1, j) == TextAfter(u, steps, j) + Spaced(result[j])
    requires !send ==> forall j :: 0 <= j < |result| ==> result[j] == ""
    ensures TextsDelivered(u, steps + 1, streaming,
                           if streaming && send then updates + [stepTexts] else updates,
                           if streaming then finals else newFinals)
  {
    hide TextAfter;
    var newUpdates := if send then updates + [stepTexts] else updates;
    forall j | 0 <= j < u.candidates && streaming ensures Delivered(newUpdates, j) == TextAfter(u, steps + 1, j) {
      if send {
        DeliveredSnoc(updates, stepTexts, j);
      } else {
        assert Spaced(result[j]) == "";
      }
    }
  }

  /** The text released in one step of the runner. */
  lemma StepText(u: Setup, runner: DecodeOneStep, before: seq<Flow>, steps: nat, ids: seq<int>, j: nat)
    requires Good(u) && runner.Valid() && runner.starts == u.items && runner.numCandidates == u.candidates == |runner.detector.found|
    requires runner.toText == u.toText && runner.detector.sequences == u.sequences
    requires j < u.candidates == |before| == |ids|
    requires runner.ReleasedBy(j, ids[j], before)
    requires before[j] == FlowFrom(u.sequences, u.toText, ItemOf(u, j), Stream(u.custom, u.sample, u.start, steps, j))
    requires runner.seen[j] == Stream(u.custom, u.sample, u.start, steps + 1, j)
    ensures TextAfter(u, steps + 1, j) == TextAfter(u, steps, j) + Spaced(runner.resultText[j])
    ensures runner.detector.found[j] ==> runner.resultText[j] == ""
  {
    hide FlowFrom, Stream, StepFlow, Spaced, Join, Texts;
    MoreText(u.toText, before[j].emitted, runner.flows[j].emitted);
    NoTextWhenFound(u.toText, before[j], ids[j], runner.detector.maxProgress[j]);
  }

  /** The runner's state one step on, from what the step promises. */
  lemma NextReached(u: Setup, executor: Executor, runner: DecodeOneStep, before: State, tokens: seq<int>, steps: nat)
    requires Good(u) && executor.history.tokens != [] && executor.batch == |u.start.rows| && executor.ranDecode
    requires runner.numCandidates == u.candidates && runner.toText == u.toText && runner.detector.sequences == u.sequences
    requires runner.starts == u.items && |runner.seen| == |runner.detector.found| == |tokens|
    requires before.rows != [] && before == After(u.custom, u.sample, u.start, steps) && Grown(u, steps)
    requires State(executor.history.tokens, tokens) == Next(u.custom, u.sample, before)
    requires Stepped(u.custom, u.sample, before, State(executor.history.tokens, tokens)) && |tokens| == u.candidates
    requires forall j :: 0 <= j < |tokens| ==>
               runner.seen[j] == Stream(u.custom, u.sample, u.start, steps, j) + [tokens[j]]
    ensures Reached(u, executor, runner, tokens, steps + 1)
  {
    hide Next, Stepped, Grown;
    GrownStep(u, steps);
    forall j | 0 <= j < |tokens| ensures runner.seen[j] == Stream(u.custom, u.sample, u.start, steps + 1, j) {
      NextStream(u, steps, j, tokens);
    }
  }

  lemma FoundMeansRun(u: Setup, runner: DecodeOneStep, steps: nat)
    requires Good(u) && runner.starts == u.items && runner.Valid() && runner.numCandidates == u.candidates == |runner.detector.found|
    requires runner.detector.sequences == u.sequences
    requires forall j :: 0 <= j < u.candidates ==>
               runner.seen[j] == Stream(u.custom, u.sample, u.start, steps, j)
    ensures (forall j :: 0 <= j < u.candidates ==> runner.detector.found[j]) == AllFound(u, steps)
  {
    hide Stream, ItemFrom;
    forall j | 0 <= j < u.candidates
      ensures runner.detector.found[j] == ItemFrom(u.sequences, ItemOf(u, j), Stream(u.custom, u.sample, u.start, steps, j)).found
    {
      assert runner.detector.ItemAt(j).found == runner.detector.found[j];
    }
  }

  /** What a step of the runner means for the texts. */
  lemma StepTexts(u: Setup, runner: DecodeOneStep, before: seq<Flow>, steps: nat, ids: seq<int>)
    requires Good(u) && runner.Valid() && runner.starts == u.items && runner.numCandidates == u.candidates == |runner.detector.found|
    requires runner.toText == u.toText && runner.detector.sequences == u.sequences
    requires u.candidates == |before| == |ids|
    requires forall j :: 0 <= j < u.candidates ==> runner.ReleasedBy(j, ids[j], before)
    requires forall j :: 0 <= j < u.candidates ==>
               before[j] == FlowFrom(u.sequences, u.toText, ItemOf(u, j), Stream(u.custom, u.sample, u.start, steps, j))
    requires forall j :: 0 <= j < u.candidates ==>
               runner.seen[j] == Stream(u.custom, u.sample, u.start, steps + 1, j)
    ensures forall j :: 0 <= j < u.candidates ==>
               TextAfter(u, steps + 1, j) == TextAfter(u, steps, j) + Spaced(runner.resultText[j])
    ensures forall j :: 0 <= j < u.candidates && runner.detector.found[j] ==> runner.resultText[j] == ""
  {
    hide TextAfter, FlowFrom, Stream;
    forall j | 0 <= j < u.candidates
      ensures TextAfter(u, steps + 1, j) == TextAfter(u, steps, j) + Spaced(runner.resultText[j])
      ensures runner.detector.found[j] ==> runner.resultText[j] == ""
    {
      StepText(u, runner, before, steps, ids, j);
    }
  }

  /** The flows of a valid runner are those of its streams. */
  lemma FlowsOfStreams(u: Setup, executor: Executor, runner: DecodeOneStep, ids: seq<int>, steps: nat)
    requires Reached(u, executor, runner, ids, steps) && runner.Valid() && |runner.detector.found| == u.candidates
    ensures forall j :: 0 <= j < u.candidates ==>
              runner.flows[j] == FlowFrom(u.sequences, u.toText, ItemOf(u, j), Stream(u.custom, u.sample, u.start, steps, j))
  {
    hide FlowFrom, Stream, ItemFrom;
  }

  lemma ReadyNow(u: Setup, executor: Executor, runner: DecodeOneStep, ids: seq<int>, steps: nat)
    requires Reached(u, executor, runner, ids, steps) && runner.Valid() && Ready(u) && executor.sample == u.sample
    ensures CanStep(u.custom, State(Prepared(executor.history.tokens, executor.ranDecode, executor.batch), ids))
    ensures Matched(executor, runner)
  {
    hide Prepared, CanStep, GrownAt, Ready, DecodeOneStep.Represents, ItemFrom, FlowFrom, Stream, StopTokenDetector.Valid;
    ReadyAt(u, steps);
    ReadySizes(u);
  }

  lemma ReadySizes(u: Setup)
    requires Ready(u)
    ensures |u.start.rows| == |u.items| == u.candidates && u.sequences != []
    ensures forall rows :: |rows| == u.candidates ==> |u.sample(rows)| == u.candidates
  {
  }

  /** A step, as the streams see it. */
  method Advance(ghost u: Setup, executor: Executor, runner: DecodeOneStep, custom: bool, ids: seq<int>, ghost steps: nat)
    returns (done: Result<bool>, tokens: seq<int>)
    requires executor.Valid() && runner.Valid() && executor.sample == u.sample && custom == u.custom
    requires Reached(u, executor, runner, ids, steps)
    modifies executor, executor.history, executor.prefillKv1, executor.prefillKv2, executor.decodeKv1, executor.decodeKv2
    modifies runner, runner.detector
    ensures executor.Valid() && runner.Valid()
    ensures old(executor.KvHolds()) ==> executor.KvHolds()
    ensures done.Success? ==>
              && executor.ranDecode
              && Reached(u, executor, runner, tokens, steps + 1) && |tokens| == |runner.resultText| == u.candidates
              && done.value == AllFound(u, steps + 1)
              && (done.value ==> forall j :: 0 <= j < u.candidates ==> runner.resultText[j] == "")
              && forall j :: 0 <= j < u.candidates ==>
                   TextAfter(u, steps + 1, j) == TextAfter(u, steps, j) + Spaced(runner.resultText[j])
    ensures Ready(u) ==> done.Success?
    ensures done.Failure? ==> done.code == Internal || done.code == InvalidArgument
  {
    hide TextAfter, Prepared, Stepped, CanStep, Grown, FlowFrom, Next, After, Stream, AllFound, ItemFrom, DecodeOneStep.ReleasedBy;
    hide Ready, Matched;
    if Ready(u) {
      ReadyNow(u, executor, runner, ids, steps);
    }
    ghost var flows, s := runner.flows, State(Prepared(executor.history.tokens, executor.ranDecode, executor.batch), ids);
    if |runner.detector.found| == u.candidates {
      FlowsOfStreams(u, executor, runner, ids, steps);
    }
    done, tokens := RunOneStep(executor, runner, custom, ids);
    if done.Failure? {
      return;
    }
    NextReached(u, executor, runner, s, tokens, steps);
    FoundMeansRun(u, runner, steps + 1);
    StepTexts(u, runner, flows, steps, tokens);
  }

  /** One turn of the loop, before the decision to stop: a step, and the delivery of its texts. */
  method Turn(ghost u: Setup, executor: Executor, runner: DecodeOneStep, custom: bool, ids: seq<int>, streaming: bool,
              updates: seq<seq<string>>, finals: seq<string>, ghost steps: nat)
    returns (done: Result<bool>, tokens: seq<int>, newUpdates: seq<seq<string>>, newFinals: seq<string>)
    requires executor.Valid() && runner.Valid() && executor.sample == u.sample && custom == u.custom
    requires Reached(u, executor, runner, ids, steps)
    requires TextsDelivered(u, steps, streaming, updates, finals)
    modifies executor, executor.history, executor.prefillKv1, executor.prefillKv2, executor.decodeKv1, executor.decodeKv2
    modifies runner, runner.detector
    ensures old(executor.KvHolds()) ==> executor.KvHolds()
    ensures if streaming then newFinals == finals else newUpdates == updates
    ensures executor.Valid() && runner.Valid()
    ensures done.Success? ==>
              && executor.ranDecode
              && Reached(u, executor, runner, tokens, steps + 1) && |tokens| == u.candidates
              && TextsDelivered(u, steps + 1, streaming, newUpdates, newFinals)
              && done.value == AllFound(u, steps + 1)
    ensures Ready(u) ==> done.Success?
    ensures done.Failure? ==> done.code == Internal || done.code == InvalidArgument
  {
    hide TextAfter, Ready, AllFound, Reached, Executor.Valid, DecodeOneStep.Valid, Delivered, Spaced;
    newUpdates, newFinals := updates, finals;
    done, tokens := Advance(u, executor, runner, custom, ids, steps);
    if done.Failure? {
      return;
    }
    var stepTexts, collected, anyUpdates := CollectTexts(runner.resultText, finals);
    StepDelivered(u, steps, streaming, updates, finals, runner.resultText, stepTexts, collected, anyUpdates && !done.value);
    if streaming {
      if anyUpdates && !done.value {
        newUpdates := updates + [stepTexts];
      }
    } else {
      newFinals := collected;
    }
  }

  datatype TaskState = Done | MaxNumTokensReached

  datatype Outcome = Responded(state: TaskState, texts: seq<string>) | Failed(code: Code)

  /** The outcome that the streams determine: the first step that stops, and the text released until then. */
  ghost predicate Delivers(u: Setup, steps: nat, streaming: bool, updates: seq<seq<string>>, texts: seq<string>) {
    && Good(u) && FirstStop(u, steps)
    && (if streaming then
          texts == [] && forall j :: 0 <= j < u.candidates ==> Delivered(updates, j) == TextAfter(u, steps, j)
        else
          updates == [] && |texts| == u.candidates && forall j :: 0 <= j < u.candidates ==> texts[j] == TextAfter(u, steps, j))
  }

  /** A streaming and a synchronous run from the same start deliver the same text to every candidate. */
  lemma StreamingEqualsSynchronous(u: Setup, steps: nat, updates: seq<seq<string>>, steps': nat, texts: seq<string>, j: nat)
    requires Delivers(u, steps, true, updates, []) && Delivers(u, steps', false, [], texts) && j < u.candidates
    ensures Delivered(updates, j) == texts[j]
  {
    hide TextAfter, FirstStop;
    FirstStopUnique(u, steps, steps');
  }

  lemma NoTextYet(u: Setup, j: nat)
    requires Good(u)
    ensures TextAfter(u, 0, j) == ""
  {
    assert Texts(u.toText, []) == [];
  }

  lemma StartReached(u: Setup, executor: Executor, runner: DecodeOneStep, ids: seq<int>)
    requires Good(u) && executor.history.tokens != [] && executor.batch == |u.start.rows|
    requires u.start == State(Prepared(executor.history.tokens, executor.ranDecode, executor.batch), ids)
    requires runner.numCandidates == u.candidates && runner.toText == u.toText && runner.detector.sequences == u.sequences
    requires runner.starts == u.items && |runner.seen| == |runner.detector.found|
    requires forall j :: 0 <= j < |runner.seen| ==> runner.seen[j] == []
    ensures Reached(u, executor, runner, ids, 0)
  {
  }

  lemma ReachedCount(u: Setup, executor: Executor, runner: DecodeOneStep, ids: seq<int>, steps: nat)
    requires Reached(u, executor, runner, ids, steps) && Uniform(executor.history.tokens)
    ensures Count(After(u.custom, u.sample, u.start, steps).rows[0]) == Count(executor.history.tokens[0])
    ensures steps > 0 ==> Count(executor.history.tokens[0]) == |u.start.rows[0].ids| + steps + if u.custom then 0 else 1
  {
    hide GrownAt, After;
    PreparedRow(executor.history.tokens, executor.ranDecode, executor.batch);
    if steps > 0 {
      assert GrownAt(u, steps);
      GrownCount(u, steps);
    }
  }

  /**
   With restartable stop sequences and a detector that has processed no token, the text delivered to a candidate comes only from tokens before
   every occurrence of every stop sequence in its stream.
   */
  lemma NoStopTextDelivered(u: Setup, steps: nat, j: nat, k: nat)
    requires Good(u) && ItemOf(u, j) == InitialItem(u.sequences) && AllRestartable(u.sequences) && k < |u.sequences|
    ensures var stream := Stream(u.custom, u.sample, u.start, steps, j);
            var groups := FlowOf(u.sequences, u.toText, stream).emitted;
            && TextAfter(u, steps, j) == Spaced(Join(Texts(u.toText, groups)))
            && Flat(groups) <= stream
            && HoldsBackOccurrences(u.sequences[k], stream, |Flat(groups)|)
  {
    hide FlowOf, FlowFrom, Stream, Flat, StopTokens.Run;
    var stream := Stream(u.custom, u.sample, u.start, steps, j);
    FlowFromStart(u.sequences, u.toText, stream);
    NoOccurrenceReleased(u.sequences, u.toText, stream, k);
    RunSafe(u.sequences, u.toText, stream);
    var item := StopTokens.Run(u.sequences, stream);
    if item.found {
      PrefixOfPrefix(Flat(FlowOf(u.sequences, u.toText, stream).emitted), stream, |stream| - item.matchedLength);
    }
  }

  /**
   With such a detector, when every token has a text of its own and no stop sequence overhangs, what is delivered is
   determined: up to the stop the text of all tokens but the longest partial match, and from the stop
   on that of all tokens before the stop sequence.
   */
  lemma DeliveredTextExactly(u: Setup, steps: nat, j: nat)
    requires Good(u) && ItemOf(u, j) == InitialItem(u.sequences) && NoIncomplete(u.toText) && NoOverhang(u.sequences)
    ensures var stream := Stream(u.custom, u.sample, u.start, steps, j);
            var item := StopTokens.Run(u.sequences, stream);
            var withheld := if item.found then item.matchedLength else item.maxProgress;
            && withheld <= |stream|
            && TextAfter(u, steps, j) == Spaced(TokenText(u.toText, stream[..|stream| - withheld]))
  {
    hide FlowOf, FlowFrom, Stream, StopTokens.Run, NoIncomplete, NoOverhang, Join, Texts;
    var stream := Stream(u.custom, u.sample, u.start, steps, j);
    FlowFromStart(u.sequences, u.toText, stream);
    NoOverhangReleasesExactly(u.sequences, u.toText, stream);
    ReleasedTextExactly(u.sequences, u.toText, stream);
  }

  lemma PrefixOfPrefix(a: seq<int>, b: seq<int>, n: nat)
    requires n <= |b| && a <= b[..n]
    ensures a <= b
  {
  }

  /** With custom sampling the last sampled ids are prefilled, so that they become the pending token. */
  method FinalPrefill(executor: Executor, ids: seq<int>, maxTokens: int) returns (status: Status)
    requires executor.Valid()
    modifies executor, executor.history, executor.prefillKv1, executor.prefillKv2, executor.decodeKv1, executor.decodeKv2
    ensures executor.Valid()
    ensures status == if 1 >= maxTokens then Error(InvalidArgument)
                      else if |ids| != 1 && |ids| != executor.batch then Error(Internal) else Ok
    ensures 1 >= maxTokens ==> executor.history.tokens == old(executor.history.tokens)
    ensures status == Ok ==>
              && ids != []
              && executor.history.tokens == [Row(AllIds(old(executor.history.tokens)[0]), Some(ids[0]))]
    ensures old(executor.KvHolds()) ==> executor.KvHolds()
  {
    if 1 >= maxTokens {
      return Error(InvalidArgument);
    }
    ghost var row := executor.history.tokens[0];
    ghost var groups;
    status, groups := executor.Prefill(ids, |ids|, 1);
    if status == Ok {
      CutsOfOne(Lengths(groups));
      assert AllIds(row) + ids[..1][..0] == AllIds(row);
    }
  }

  lemma NothingYet(u: Setup, streaming: bool, texts: seq<string>)
    requires Good(u) && |texts| == u.candidates && forall j :: 0 <= j < u.candidates ==> texts[j] == ""
    ensures TextsDelivered(u, 0, streaming, [], texts)
  {
    hide TextAfter;
    forall j | 0 <= j < u.candidates ensures TextAfter(u, 0, j) == "" {
      NoTextYet(u, j);
    }
  }

  /** How many steps the loop can take, from the number of processed tokens at its start. */
  lemma StepsBounded(u: Setup, steps: nat)
    requires Good(u) && Grown(u, steps) && FirstStop(u, steps)
    ensures 0 < steps && (steps == 1 || steps <= u.maxTokens - |u.start.rows[0].ids| - if u.custom then 0 else 1)
  {
    hide Grown, FirstStop;
    FirstStopMeans(u, steps);
  }

  /** The while loop, from its first step to the one after which decoding stops. */
  method Loop(ghost u: Setup, executor: Executor, runner: DecodeOneStep, custom: bool, decodedIds: seq<int>,
              benchmarkSteps: nat, maxTokens: int, streaming: bool, cancelled: nat -> bool)
    returns (status: Status, ids: seq<int>, updates: seq<seq<string>>, finals: seq<string>, ghost steps: nat)
    requires executor.Valid() && runner.Valid() && executor.sample == u.sample
    requires custom == u.custom && benchmarkSteps == u.benchmarkSteps && maxTokens == u.maxTokens
    requires Reached(u, executor, runner, decodedIds, 0)
    modifies executor, executor.history, executor.prefillKv1, executor.prefillKv2, executor.decodeKv1, executor.decodeKv2
    modifies runner, runner.detector
    ensures executor.Valid()
    ensures old(executor.KvHolds()) ==> executor.KvHolds()
    ensures status == Ok ==>
              && TextsDelivered(u, steps, streaming, updates, finals) && FirstStop(u, steps)
              && (!streaming ==> updates == [])
              && executor.ranDecode && Reached(u, executor, runner, ids, steps)
    ensures status == Ok ==> steps > 0 && EndsAt(u, steps)
    ensures status == Ok || status == Error(Cancelled) ==> forall t :: 0 <= t < steps ==> !cancelled(t)
    ensures status == Error(Cancelled) ==> cancelled(steps)
    ensures Ready(u) ==> status == Ok || status == Error(Cancelled)
  {
    hide Next, Prepared, Stream, AllFound, TextAfter, ItemFrom, Delivered, Reached, Ready;
    hide TextsDelivered, DecodeOneStep.Valid, Executor.Storage, Executor.ModesAgree, EndsAt, Grown;
    ids, updates, finals, steps := decodedIds, [], seq(runner.numCandidates, _ => ""), 0;
    var decodedSteps := 0;
    ReachedSetup(u, executor, runner, ids, 0);
    ghost var start := |u.start.rows[0].ids| + if custom then 0 else 1;
    NothingYet(u, streaming, finals);
    while true
      invariant executor.Valid() && runner.Valid()
      invariant old(executor.KvHolds()) ==> executor.KvHolds()
      invariant steps == decodedSteps && Reached(u, executor, runner, ids, steps)
      invariant steps > 0 ==> executor.ranDecode
      invariant TextsDelivered(u, steps, streaming, updates, finals)
      invariant !streaming ==> updates == []
      invariant steps > 0 ==> start + steps < maxTokens
      invariant forall t :: 0 < t <= steps ==> !StopsAfter(u, t)
      invariant forall t :: 0 <= t < steps ==> !cancelled(t)
      decreases if steps == 0 then 1 else 0, maxTokens - start - steps
    {
      if cancelled(decodedSteps) {
        return Error(Cancelled), ids, updates, finals, steps;
      }
      var done;
      done, ids, updates, finals := Turn(u, executor, runner, custom, ids, streaming, updates, finals, steps);
      if done.Failure? {
        return Error(done.code), ids, updates, finals, steps;
      }
      decodedSteps, steps := decodedSteps + 1, steps + 1;
      ReachedCount(u, executor, runner, ids, steps);
      if ShouldStop(done.value, benchmarkSteps, decodedSteps, executor.history.TokenCount(), maxTokens) {
        break;
      }
    }
    ReachedGrown(u, executor, runner, ids, steps);
    FirstStopMeans(u, steps);
    status := Ok;
  }

  lemma ReachedSetup(u: Setup, executor: Executor, runner: DecodeOneStep, ids: seq<int>, steps: nat)
    requires Reached(u, executor, runner, ids, steps)
    ensures Good(u) && runner.numCandidates == u.candidates
  {
  }

  /** The token rows after decoding: those of the streams; with custom sampling the first row alone, its last id pending. */
  predicate Left(custom: bool, end: State, rows: seq<Row>) {
    if custom then end.rows != [] && end.ids != [] && rows == [Row(AllIds(end.rows[0]), Some(end.ids[0]))]
    else rows == end.rows
  }

  lemma ReachedState(u: Setup, executor: Executor, runner: DecodeOneStep, ids: seq<int>, steps: nat)
    requires Reached(u, executor, runner, ids, steps) && executor.ranDecode
    ensures After(u.custom, u.sample, u.start, steps) == State(executor.history.tokens, ids)
  {
  }

  /** What is done after the loop. */
  method Finish(ghost end: State, executor: Executor, custom: bool, ids: seq<int>, maxTokens: int) returns (status: Status)
    requires executor.Valid() && end == State(executor.history.tokens, ids)
    modifies executor, executor.history, executor.prefillKv1, executor.prefillKv2, executor.decodeKv1, executor.decodeKv2
    ensures executor.Valid()
    ensures old(executor.KvHolds()) ==> executor.KvHolds()
    ensures status == Ok ==> Left(custom, end, executor.history.tokens)
    ensures status == if custom && 1 >= maxTokens then Error(InvalidArgument)
                      else if custom && |ids| != 1 && |ids| != executor.batch then Error(Internal) else Ok
  {
    hide Executor.Storage, Executor.ModesAgree;
    status := Ok;
    if custom {
      status := FinalPrefill(executor, ids, maxTokens);
    }
  }

  lemma ReachedGrown(u: Setup, executor: Executor, runner: DecodeOneStep, ids: seq<int>, steps: nat)
    requires Reached(u, executor, runner, ids, steps)
    ensures Good(u) && Grown(u, steps) && |u.start.rows| == executor.batch
    ensures steps > 0 ==> CanStep(u.custom, u.start) && |ids| == u.candidates
  {
    hide GrownRow;
    assert steps > 0 ==> GrownAt(u, steps);
  }

  /** Each further token of a stream is the one sampled after the tokens before it; internal sampling takes 0 for a negative id. */
  ghost predicate Sampled(u: Setup, steps: nat)
    requires Good(u)
  {
    forall t :: 0 <= t < steps ==>
      var sampled := u.sample(Histories(u, t));
      |sampled| == u.candidates && forall j :: 0 <= j < u.candidates ==>
        Stream(u.custom, u.sample, u.start, t + 1, j)
        == Stream(u.custom, u.sample, u.start, t, j) + [if !u.custom && sampled[j] < 0 then 0 else sampled[j]]
  }

  lemma StreamsAreSampled(u: Setup, steps: nat)
    requires Good(u) && Grown(u, steps)
    ensures Sampled(u, steps)
  {
    hide After, GrownRow, NonEmpty, Histories;
    forall t | 0 <= t < steps
      ensures var sampled := u.sample(Histories(u, t));
              |sampled| == u.candidates && forall j :: 0 <= j < u.candidates ==>
                Stream(u.custom, u.sample, u.start, t + 1, j)
                == Stream(u.custom, u.sample, u.start, t, j) + [if !u.custom && sampled[j] < 0 then 0 else sampled[j]]
    {
      assert GrownAt(u, t + 1);
    }
  }

  /** The rows that are left: all sampled tokens but the last are processed, and the last is pending. Custom sampling keeps one row. */
  ghost predicate LeftRows(u: Setup, steps: nat, rows: seq<Row>)
    requires Good(u) && steps > 0
  {
    && |rows| == (if u.custom then 1 else |u.start.rows|)
    && forall i :: 0 <= i < |rows| ==>
         && rows[i].ids == Base(u, i) + Stream(u.custom, u.sample, u.start, steps - 1, i)
         && rows[i].pending == Some(Stream(u.custom, u.sample, u.start, steps, i)[steps - 1])
  }

  lemma LeftMeans(u: Setup, steps: nat, rows: seq<Row>)
    requires Good(u) && steps > 0 && Grown(u, steps) && Left(u.custom, After(u.custom, u.sample, u.start, steps), rows)
    ensures LeftRows(u, steps, rows)
  {
    hide After;
    assert GrownAt(u, steps);
    var end := After(u.custom, u.sample, u.start, steps);
    forall i | 0 <= i < |u.start.rows| ensures GrownRow(u, end.rows[i], steps, i) {
    }
  }

  /**
   What row `i` holds before the first sampled token: the ids of the candidate's row, or of the only
   row if this is the first decode, and then the given id or the pending one.
   */
  ghost predicate BasesFrom(u: Setup, rows: seq<Row>, ranDecode: bool, batch: nat) {
    && |u.start.rows| == batch && |rows| == (if ranDecode then batch else 1)
    && forall i :: 0 <= i < batch ==>
         var before := rows[if ranDecode then i else 0];
         var given := u.custom && u.start.ids != [] && u.start.ids[0] >= 0;
         && (if given then |u.start.ids| == batch else before.pending.Some?)
         && Base(u, i) == before.ids + [if given then u.start.ids[i] else before.pending.value]
  }

  lemma StartBases(u: Setup, rows: seq<Row>, ranDecode: bool, batch: nat)
    requires rows != [] && batch > 0 && u.start.rows == Prepared(rows, ranDecode, batch) && |u.start.rows| == batch
    requires Uniform(rows) && |rows| == (if ranDecode then batch else 1)
    ensures CanStep(u.custom, u.start) ==> BasesFrom(u, rows, ranDecode, batch)
  {
  }

  method Decode(executor: Executor, source: StopTokenDetector, toText: Detokenizer, candidates: nat, custom: bool,
                decodedIds: seq<int>, benchmarkSteps: nat, maxTokens: int, streaming: bool, cancelled: nat -> bool)
    returns (outcome: Outcome, updates: seq<seq<string>>, ghost u: Setup, ghost steps: nat)
    requires executor.Valid()
    requires source.Valid()
    modifies executor, executor.history, executor.prefillKv1, executor.prefillKv2, executor.decodeKv1, executor.decodeKv2
    ensures executor.Valid()
    ensures old(executor.KvHolds()) ==> executor.KvHolds()
    ensures u == Setup(custom, executor.sample,
                       old(State(Prepared(executor.history.tokens, executor.ranDecode, executor.batch), decodedIds)),
                       source.sequences, source.Items(), toText, candidates, benchmarkSteps, maxTokens)
    ensures outcome.Responded? ==>
              && Delivers(u, steps, streaming, updates, outcome.texts)
              && (outcome.state == MaxNumTokensReached <==> executor.history.TokenCount() >= maxTokens)
              && Left(custom, After(custom, u.sample, u.start, steps), executor.history.tokens)
              && EndsAt(u, steps) && Sampled(u, steps) && LeftRows(u, steps, executor.history.tokens)
              && BasesFrom(u, old(executor.history.tokens), old(executor.ranDecode), executor.batch)
    ensures outcome.Responded? || outcome == Failed(Cancelled) ==> forall t :: 0 <= t < steps ==> !cancelled(t)
    ensures outcome == Failed(Cancelled) ==> cancelled(steps)
    ensures Ready(u) && (custom ==> maxTokens > 1) ==> outcome.Responded? || outcome == Failed(Cancelled)
  {
    hide Prepared, TextAfter, Delivered, FirstStop, Reached, Left, After, Grown, Ready, CanStep, Stream, Base, ItemFrom;
    hide EndsAt, Sampled, LeftRows, BasesFrom, AllIds, ItemOf, DecodeOneStep.Valid, Executor.Storage, Executor.ModesAgree;
    PreparedSize(executor);
    u := Setup(custom, executor.sample, State(Prepared(executor.history.tokens, executor.ranDecode, executor.batch), decodedIds),
               source.sequences, source.Items(), toText, candidates, benchmarkSteps, maxTokens);
    StartBases(u, executor.history.tokens, executor.ranDecode, executor.batch);
    var runner := new DecodeOneStep(toText, candidates, source);
    StartReached(u, executor, runner, decodedIds);
    var status, ids, finals;
    status, ids, updates, finals, steps :=
      Loop(u, executor, runner, custom, decodedIds, benchmarkSteps, maxTokens, streaming, cancelled);
    if status != Ok {
      return Failed(status.code), updates, u, steps;
    }
    ReachedState(u, executor, runner, ids, steps);
    ReachedGrown(u, executor, runner, ids, steps);
    if Ready(u) {
      ReadySizes(u);
    }
    status := Finish(After(custom, u.sample, u.start, steps), executor, custom, ids, maxTokens);
    if status != Ok {
      return Failed(status.code), updates, u, steps;
    }
    StreamsAreSampled(u, steps);
    LeftMeans(u, steps, executor.history.tokens);
    var state := if executor.history.TokenCount() >= maxTokens then MaxNumTokensReached else Done;
    outcome := Responded(state, if streaming then [] else finals);
  }

  // ---------------------------------------------------------------------------------------------
  // Streaming to the message callback
  // ---------------------------------------------------------------------------------------------

  /** The first candidate's text of every update. */
  function FirstTexts(updates: seq<seq<string>>): (r: seq<string>)
    ensures |r| == |updates|
  {
    seq(|updates|, i requires 0 <= i < |updates| => if updates[i] != [] then updates[i][0] else "")
  }

  lemma {:induction false} FirstTextsDelivered(updates: seq<seq<string>>)
    ensures FenceSplitter.Concat(FirstTexts(updates)) == Delivered(updates, 0)
  {
    if updates != [] {
      var n := |updates| - 1;
      FirstTextsDelivered(updates[..n]);
      assert FirstTexts(updates)[..n] == FirstTexts(updates[..n]);
    }
  }

  /**
   Decoding in streaming mode into the callback of `CreateInternalCallback`. The messages sent split
   the text that synchronous decoding returns for the first candidate, and that text is reported as
   complete.
   */
  method DecodeToCallback(executor: Executor, source: StopTokenDetector, toText: Detokenizer, candidates: nat, custom: bool,
                          decodedIds: seq<int>, benchmarkSteps: nat, maxTokens: int, cancelled: nat -> bool,
                          fences: FenceSplitter.Fences, toMessageOk: string -> bool)
    returns (outcome: Outcome, calls: seq<FenceSplitter.Call>, ghost u: Setup, ghost steps: nat)
    requires executor.Valid() && candidates > 0
    requires source.Valid()
    modifies executor, executor.history, executor.prefillKv1, executor.prefillKv2, executor.decodeKv1, executor.decodeKv2
    ensures executor.Valid()
    ensures old(executor.KvHolds()) ==> executor.KvHolds()
    ensures u == Setup(custom, executor.sample,
                       old(State(Prepared(executor.history.tokens, executor.ranDecode, executor.batch), decodedIds)),
                       source.sequences, source.Items(), toText, candidates, benchmarkSteps, maxTokens)
    ensures outcome.Responded? ==>
              && Good(u) && FirstStop(u, steps)
              && Left(custom, After(custom, u.sample, u.start, steps), executor.history.tokens)
              && EndsAt(u, steps) && Sampled(u, steps) && LeftRows(u, steps, executor.history.tokens)
              && BasesFrom(u, old(executor.history.tokens), old(executor.ranDecode), executor.batch)
              && FenceSplitter.Join(FenceSplitter.Sent(calls)) == FenceSplitter.Parse(fences, TextAfter(u, steps, 0))
              && FenceSplitter.Completed(calls, toMessageOk, TextAfter(u, steps, 0))
    ensures outcome == Failed(Cancelled) ==> cancelled(steps)
    ensures Ready(u) && (custom ==> maxTokens > 1) ==> outcome.Responded? || outcome == Failed(Cancelled)
  {
    hide Prepared, TextAfter, Delivered, FirstStop, EndsAt, Sampled, LeftRows, BasesFrom, Executor.Valid, StopTokenDetector.Valid;
    calls := [];
    var updates;
    outcome, updates, u, steps :=
      Decode(executor, source, toText, candidates, custom, decodedIds, benchmarkSteps, maxTokens, true, cancelled);
    if outcome.Responded? {
      FirstTextsDelivered(updates);
      calls := FenceSplitter.RunStream(fences, toMessageOk, FirstTexts(updates));
    }
  }
}
