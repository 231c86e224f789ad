/**
 The executor for dynamically shaped models: one candidate, and cache tensors that grow on demand
 along an axis of their own (runtime/executor/llm_litert_compiled_model_executor.cc).

 A ghost cell per place of a tensor says which token the place stands for, if any.
 */
module DynamicExecutor {
  import opened Wrappers
  import opened TokenHistory
  import opened KvCache
  import opened TensorGrowth
  import opened CacheTensor
  import opened PrefillFeeding
  import opened ExecutorBase

  /** Places that stand for no token. */
  function Unused(n: nat): (cells: seq<Cell>)
    ensures |cells| == n
  {
    seq(n, _ => None)
  }

  /** Every place of a grown cache keeps its token, and the new places have none. */
  predicate Grown(before: map<string, seq<Cell>>, after: map<string, seq<Cell>>, entries: nat) {
    after.Keys == before.Keys && forall name :: name in before ==> after[name] == before[name] + Unused(entries)
  }

  ghost function Longer(cells: map<string, seq<Cell>>, entries: nat): (r: map<string, seq<Cell>>)
    ensures Grown(cells, r, entries)
  {
    map name | name in cells :: cells[name] + Unused(entries)
  }

  lemma GrownHolds(before: map<string, seq<Cell>>, after: map<string, seq<Cell>>, size: nat, entries: nat, row: Row)
    requires Grown(before, after, entries)
    requires CacheHolds(before, size, [row]) && |row.ids| <= size
    ensures CacheHolds(after, size + entries, [row])
  {
    forall name | name in after ensures BufferHolds(after[name], size + entries, [row]) {
      assert BufferHolds(before[name], size, [row]);
      assert [row][0] == row;
      assert RowOf(before[name], size, 0) == before[name];
      assert RowOf(after[name], size + entries, 0) == after[name];
    }
  }

  /** Every position that a prefill call feeds lies below what it leaves processed. */
  lemma FedBelow(s: Steps, ids: seq<int>)
    requires ids != [] && InStep(s)
    ensures forall i :: 0 <= i < |Fed(s, ids)| ==> Fed(s, ids)[i].position < |PrefillStep(s, ids).row.ids|
    ensures |PrefillStep(s, ids).row.ids| ==
            |s.row.ids| + if s.row.pending.Some? then |ids| else |ids| - 1
  {
  }

  lemma ShorterHolds(buffers: map<string, seq<Cell>>, size: nat, rows: seq<Row>, rows': seq<Row>)
    requires |rows'| == |rows| && forall r :: 0 <= r < |rows'| ==> rows'[r].ids == []
    ensures CacheHolds(buffers, size, rows) ==> CacheHolds(buffers, size, rows')
  {
    if CacheHolds(buffers, size, rows) {
      assert forall name :: name in buffers ==> BufferHolds(buffers[name], size, rows);
    }
  }

  lemma GrownNothing(buffers: map<string, seq<Cell>>)
    ensures Grown(buffers, buffers, 0)
  {
    assert forall name :: name in buffers ==> buffers[name] + Unused(0) == buffers[name];
  }

  lemma NothingFed(s: Steps, ids: seq<int>)
    requires OnlyStores(s, ids)
    ensures Fed(s, ids) == []
  {
  }

  // ---------------------------------------------------------------------------------------------
  // The tensors behind the cells
  // ---------------------------------------------------------------------------------------------

  /** The shape of a cache tensor; its length along the axis varies. */
  datatype CacheLayout = CacheLayout(shape: seq<nat>, axis: nat, elementSize: nat)

  /** What the model computes for a token in each cache tensor. */
  type Entries = string -> int -> Place

  predicate HasLayout(t: Tensor, l: CacheLayout) {
    && IsTensor(t) && t.axis == l.axis && t.elementSize == l.elementSize && |t.shape| == |l.shape|
    && forall i :: 0 <= i < |l.shape| && i != l.axis ==> t.shape[i] == l.shape[i]
  }

  ghost predicate EntriesFit(layouts: map<string, CacheLayout>, entries: Entries) {
    forall name :: name in layouts ==> LayoutFits(layouts[name], entries(name))
  }

  ghost predicate LayoutFits(l: CacheLayout, entry: int -> Place) {
    && l.axis < |l.shape|
    && forall id :: |entry(id)| == Product(l.shape[..l.axis]) && forall i :: 0 <= i < |entry(id)| ==>
         |entry(id)[i]| == PlaceSize(l.shape, l.axis, l.elementSize)
  }

  /** Every tensor has its layout, and its places hold the entries of the tokens they stand for. */
  ghost predicate Coupled(tensors: map<string, Tensor>, cells: map<string, seq<Cell>>, layouts: map<string, CacheLayout>,
                          entries: Entries)
  {
    && cells.Keys == tensors.Keys <= layouts.Keys
    && forall name :: name in tensors ==>
         HasLayout(tensors[name], layouts[name]) && Shows(tensors[name], cells[name], entries(name))
  }

  lemma LayoutPlaces(t: Tensor, l: CacheLayout, entry: int -> Place)
    requires HasLayout(t, l) && LayoutFits(l, entry)
    ensures forall id :: FitsPlace(t, entry(id))
  {
    assert t.shape[..t.axis] == l.shape[..l.axis] && t.shape[t.axis + 1..] == l.shape[l.axis + 1..];
  }

  /** A new tensor of the given length. What it holds does not matter. */
  function NewTensor(l: CacheLayout, length: nat): (t: Tensor)
    requires l.axis < |l.shape|
    ensures HasLayout(t, l) && Length(t) == length
  {
    var shape := l.shape[l.axis := length];
    Tensor(seq(Product(shape) * l.elementSize, _ => 0), shape, l.axis, l.elementSize)
  }

  lemma NewCoupled(tensors: map<string, Tensor>, cells: map<string, seq<Cell>>, layouts: map<string, CacheLayout>,
                   entries: Entries, length: nat)
    requires EntriesFit(layouts, entries) && tensors.Keys == cells.Keys == layouts.Keys
    requires forall name :: name in layouts ==> layouts[name].axis < |layouts[name].shape|
    requires forall name :: name in layouts ==> tensors[name] == NewTensor(layouts[name], length) && cells[name] == Unused(length)
    ensures Coupled(tensors, cells, layouts, entries)
  {
    hide NewTensor, FitsPlace, LayoutFits;
    forall name | name in tensors ensures Shows(tensors[name], cells[name], entries(name)) {
      assert HasLayout(tensors[name], layouts[name]) && Length(tensors[name]) == length;
      LayoutPlaces(tensors[name], layouts[name], entries(name));
    }
  }

  /** Growing every tensor by `ExpandBuffer` keeps every token's place, on every axis. */
  lemma GrownCoupled(before: map<string, Tensor>, after: map<string, Tensor>, cells: map<string, seq<Cell>>,
                     cells': map<string, seq<Cell>>, layouts: map<string, CacheLayout>, entries: Entries, n: nat)
    requires Coupled(before, cells, layouts, entries) && n > 0 && after.Keys == before.Keys
    requires forall name :: name in before ==> after[name] == GrownTensor(before[name], n)
    requires Grown(cells, cells', n)
    ensures Coupled(after, cells', layouts, entries)
  {
    hide Shows, HasLayout, GrownTensor, IsTensor;
    forall name | name in after
      ensures HasLayout(after[name], layouts[name]) && Shows(after[name], cells'[name], entries(name))
    {
      OneGrown(before[name], cells[name], layouts[name], entries(name), n);
    }
  }

  lemma OneGrown(t: Tensor, cells: seq<Cell>, l: CacheLayout, entry: int -> Place, n: nat)
    requires HasLayout(t, l) && Shows(t, cells, entry) && n > 0
    ensures HasLayout(GrownTensor(t, n), l) && Shows(GrownTensor(t, n), cells + Unused(n), entry)
  {
    hide Shows;
    GrownShows(t, cells, entry, n);
    assert seq(n, _ => None) == Unused(n);
  }

  lemma GrownShaped(before: map<string, seq<Cell>>, after: map<string, seq<Cell>>, names: set<string>, size: nat, n: nat)
    requires Shaped(before, names, size) && Grown(before, after, n)
    ensures Shaped(after, names, size + n)
  {
  }

  /** A model call keeps the tensors and the cells in agreement. */
  lemma WrittenCoupled(before: map<string, Tensor>, after: map<string, Tensor>, cells: map<string, seq<Cell>>,
                       cells': map<string, seq<Cell>>, layouts: map<string, CacheLayout>, entries: Entries,
                       ids: seq<int>, positions: seq<nat>)
    requires Coupled(before, cells, layouts, entries) && |ids| == |positions|
    requires after.Keys == before.Keys == cells'.Keys
    requires forall name :: name in before ==> forall id :: FitsPlace(before[name], entries(name)(id))
    requires forall name :: name in before ==> after[name] == WriteTokens(before[name], entries(name), ids, positions)
    requires forall name :: name in before ==> cells'[name] == WriteRows(cells[name], |cells[name]|, [ids], positions, 1)
    ensures Coupled(after, cells', layouts, entries)
  {
    hide Shows, WriteTokens, WriteRows, FitsPlace, HasLayout, IsTensor;
    forall name | name in after
      ensures HasLayout(after[name], layouts[name]) && Shows(after[name], cells'[name], entries(name))
    {
      OneWritten(before[name], cells[name], layouts[name], entries(name), ids, positions);
    }
  }

  lemma OneWritten(t: Tensor, cells: seq<Cell>, l: CacheLayout, entry: int -> Place, ids: seq<int>, positions: seq<nat>)
    requires HasLayout(t, l) && Shows(t, cells, entry) && |ids| == |positions|
    ensures forall id :: FitsPlace(t, entry(id))
    ensures HasLayout(WriteTokens(t, entry, ids, positions), l)
    ensures Shows(WriteTokens(t, entry, ids, positions), WriteRows(cells, |cells|, [ids], positions, 1), entry)
  {
    hide WriteTokens, WriteRows;
    WrittenShows(t, cells, entry, ids, positions);
    OnlyRow(cells, ids, positions);
  }

  lemma OnlyRow(row: seq<Cell>, ids: seq<int>, positions: seq<nat>)
    requires |ids| == |positions|
    ensures WriteRows(row, |row|, [ids], positions, 1) == WriteRow(row, ids, positions)
  {
    WriteRowsRow(row, |row|, [ids], positions, 1, 0);
    assert RowOf(row, |row|, 0) == row;
    assert RowOf(WriteRows(row, |row|, [ids], positions, 1), |row|, 0) == WriteRows(row, |row|, [ids], positions, 1);
  }

  /** The loops that resize the key and the value tensors. */
  method GrowAll(tensors: map<string, Tensor>, entries: nat) returns (grown: map<string, Tensor>)
    requires entries > 0 && forall name :: name in tensors ==> IsTensor(tensors[name])
    ensures grown.Keys == tensors.Keys
    ensures forall name :: name in tensors ==> grown[name] == GrownTensor(tensors[name], entries)
  {
    hide GrownTensor;
    var todo := tensors.Keys;
    grown := tensors;
    while todo != {}
      invariant todo <= tensors.Keys && grown.Keys == tensors.Keys
      invariant forall name :: name in tensors ==>
                  grown[name] == if name in todo then tensors[name] else GrownTensor(tensors[name], entries)
      decreases |todo|
    {
      var name :| name in todo;
      var status, resized := Resize(grown[name], entries);
      grown, todo := grown[name := resized], todo - {name};
    }
  }

  class Executor {
    const layouts: map<string, CacheLayout>
    const firstName: string              // the tensor whose shape is asked for the cache length
    const entries: Entries
    const increment: nat                 // kv_increament_size_
    const sample: seq<Row> -> seq<int>   // the sampler, on what has been processed
    const history: ProcessedTokens
    var tensors: map<string, Tensor>     // empty until the first prefill that feeds something
    var currentStep: nat
    var ranDecode: bool
    ghost var cells: map<string, seq<Cell>>
    ghost var highest: int               // the highest position fed by the last call, or -1

    function StepsNow(): Steps
      requires history.tokens != []
      reads `currentStep, history
    {
      Steps(history.tokens[0], currentStep)
    }

    function KvLength(): nat
      reads `tensors
    {
      if firstName in tensors && tensors[firstName].axis < |tensors[firstName].shape|
      then tensors[firstName].shape[tensors[firstName].axis]
      else 0
    }

    ghost predicate Fixed() {
      && firstName in layouts && increment > 0 && EntriesFit(layouts, entries)
      && forall name :: name in layouts ==> layouts[name].axis < |layouts[name].shape|
    }

    /** All tensors have the same length along their axes. */
    ghost predicate Storage()
      reads `tensors, `cells
    {
      && Coupled(tensors, cells, layouts, entries)
      && (tensors == map[] || Shaped(cells, layouts.Keys, KvLength()))
    }

    /** The cache covers everything processed. */
    ghost predicate Valid()
      reads `currentStep, `tensors, `cells, history
    {
      && Fixed() && Storage()
      && history.Valid() && |history.tokens| == 1 && InStep(StepsNow())
      && history.GetStep() <= KvLength()
    }

    /** The cache holds exactly the processed tokens. There is no condition on their number. */
    ghost predicate KvHolds()
      reads `tensors, `cells, history
    {
      CacheHolds(cells, KvLength(), history.tokens)
    }

    /** Then place `p` of every tensor holds the entry of the token at step `p`, on whatever axis the tensor grows. */
    lemma PlacesHold(name: string, p: nat)
      requires Valid() && KvHolds() && name in tensors && p < history.GetStep()
      ensures IsTensor(tensors[name]) && p < Length(tensors[name])
      ensures PlaceOf(tensors[name], p) == entries(name)(history.tokens[0].ids[p])
    {
      hide PlaceOf, FitsPlace;
      assert BufferHolds(cells[name], KvLength(), history.tokens);
      assert RowOf(cells[name], KvLength(), 0) == cells[name];
    }

    lemma EmptyTensors()
      requires Storage()
      ensures tensors == map[] <==> cells == map[]
      ensures tensors == map[] ==> KvLength() == 0
    {
      assert tensors.Keys == {} <==> tensors == map[];
      assert cells.Keys == {} <==> cells == map[];
    }

    constructor (layouts: map<string, CacheLayout>, firstName: string, entries: Entries, increment: nat,
                 sample: seq<Row> -> seq<int>)
      requires firstName in layouts && increment > 0 && EntriesFit(layouts, entries)
      requires forall name :: name in layouts ==> layouts[name].axis < |layouts[name].shape|
      ensures Valid() && KvHolds() && fresh(history)
      ensures history.tokens == [Row([], None)] && currentStep == 0 && tensors == map[]
      ensures this.layouts == layouts && this.entries == entries && this.sample == sample
    {
      this.layouts, this.firstName, this.entries := layouts, firstName, entries;
      this.increment, this.sample := increment, sample;
      history := new ProcessedTokens();
      tensors, cells := map[], map[];
      currentStep, ranDecode, highest := 0, false, -1;
    }

    /** Grows every tensor (`ResizeKVCacheTensorBuffer`). */
    method Grow(n: nat)
      requires Storage() && tensors != map[] && firstName in layouts && n > 0
      modifies `tensors, `cells
      ensures Storage() && tensors != map[] && KvLength() == old(KvLength()) + n
      ensures Grown(old(cells), cells, n)
    {
      hide Coupled, GrownTensor, IsTensor, KvLength, Shaped, Grown, Longer;
      ghost var before, cellsBefore, size := tensors, cells, KvLength();
      AllTensors(tensors, cells, layouts, entries);
      tensors := GrowAll(tensors, n);
      cells := Longer(cells, n);
      GrownCoupled(before, tensors, cellsBefore, cells, layouts, entries, n);
      GrownShaped(cellsBefore, cells, layouts.Keys, size, n);
      SizeIsLength(size + n);
    }

    lemma SizeIsLength(size: nat)
      requires Coupled(tensors, cells, layouts, entries) && Shaped(cells, layouts.Keys, size) && firstName in layouts
      ensures KvLength() == size && tensors != map[]
    {
      assert firstName in tensors;
    }

    /** Grows if fewer than `length` positions are free. */
    method GrowIfNeeded(length: nat, n: nat)
      requires Valid() && tensors != map[] && 0 < length <= n
      modifies `tensors, `cells
      ensures Valid() && tensors != map[]
      ensures history.GetStep() + length <= KvLength() && old(KvLength()) <= KvLength()
      ensures KvLength() == old(KvLength()) + if length > old(KvLength()) - history.GetStep() then n else 0
      ensures Grown(old(cells), cells, KvLength() - old(KvLength()))
      ensures old(KvHolds()) ==> KvHolds()
    {
      hide CacheHolds, Grown, InStep, Storage;
      ghost var before, size := cells, KvLength();
      if length > KvLength() - history.GetStep() {
        Grow(n);
        assert history.tokens == [StepsNow().row];
        if CacheHolds(before, size, history.tokens) {
          GrownHolds(before, cells, size, n, StepsNow().row);
        }
      } else {
        GrownNothing(cells);
      }
    }

    /** Allocates the cache for the first prefill. */
    method Allocate(length: nat)
      requires Valid() && tensors == map[] && length > 0
      modifies `tensors, `cells
      ensures Valid() && tensors != map[] && history.GetStep() + length <= KvLength() == length
      ensures KvHolds()
    {
      hide NewTensor, EntriesFit, Coupled, KvLength, CacheHolds, InStep;
      EmptyTensors();
      assert history.GetStep() == 0;
      tensors := map name | name in layouts :: NewTensor(layouts[name], length);
      cells := map name | name in layouts :: Unused(length);
      NewCoupled(tensors, cells, layouts, entries, length);
      SizeIsLength(length);
      EmptyHolds(cells, KvLength(), history.tokens);
    }

    /** The model call; input and output tensors are the same. */
    method RunInPlace(ids: seq<int>, positions: seq<nat>)
      requires Storage() && tensors != map[] && firstName in layouts && |ids| == |positions|
      modifies `tensors, `cells
      ensures Storage() && tensors != map[] && KvLength() == old(KvLength())
      ensures cells.Keys == old(cells).Keys
      ensures forall name | name in cells ::
                |old(cells)[name]| == KvLength() &&
                cells[name] == WriteRows(old(cells)[name], KvLength(), [ids], positions, 1)
    {
      hide Coupled, WriteTokens, WriteRows, IsTensor, FitsPlace, KvLength;
      ghost var before, cellsBefore, size := tensors, cells, KvLength();
      AllTensors(tensors, cells, layouts, entries);
      tensors := map name | name in tensors :: WriteTokens(tensors[name], entries(name), ids, positions);
      cells := map name | name in cells :: WriteRows(cells[name], |cells[name]|, [ids], positions, 1);
      WrittenCoupled(before, tensors, cellsBefore, cells, layouts, entries, ids, positions);
      SizeIsLength(size);
    }

    /** The part of `PrefillInternal` that feeds the model. */
    method FeedModel(ids: seq<int>)
      requires Valid() && tensors != map[] && ids != [] && !OnlyStores(StepsNow(), ids)
      requires |PrefillStep(StepsNow(), ids).row.ids| <= KvLength()
      modifies `currentStep, `highest, `tensors, `cells, history
      ensures Valid() && StepsNow() == PrefillStep(old(StepsNow()), ids) && KvLength() == old(KvLength())
      ensures highest < KvLength()
      ensures forall i :: 0 <= i < |Fed(old(StepsNow()), ids)| ==> Fed(old(StepsNow()), ids)[i].position <= highest
      ensures CacheFed(old(cells), cells, old(StepsNow()), ids)
      ensures old(KvHolds()) && (Aligned(old(StepsNow())) || |ids| == 1) ==> KvHolds()
    {
      hide Fed, Tokens, Positions, Aligned, BufferHolds, WriteRows, PrefillStep, Storage, CacheFed;
      ghost var s, cache, size := StepsNow(), cells, KvLength();
      assert history.tokens == [s.row];
      StepKeepsInStep(s, ids);
      FedBelow(s, ids);
      var tokens, positions, next := FillInputs(history, currentStep, ids);
      currentStep := next;
      highest := |history.tokens[0].ids| - 1;
      RunInPlace(tokens, positions);
      WrittenIsFed(cache, cells, size, s, ids);
      PrefillCallHolds(cache, cells, size, s, ids);
      assert history.tokens == [StepsNow().row];
    }

    /** A prefill of the only row of ids, or an error if there are more rows or no ids. */
    method Prefill(ids: seq<int>, inputBatch: nat) returns (status: Status)
      requires Valid()
      modifies `currentStep, `highest, `tensors, `cells, history
      ensures Valid()
      ensures status == if inputBatch != 1 || ids == [] then Error(Internal) else Ok
      ensures status != Ok ==> history.tokens == old(history.tokens) && currentStep == old(currentStep)
      ensures status == Ok ==> StepsNow() == PrefillStep(old(StepsNow()), ids)
      ensures status == Ok ==>
                history.tokens == [Row(AllIds(old(history.tokens)[0]) + ids[..|ids| - 1], Some(ids[|ids| - 1]))]
      ensures status == Ok && OnlyStores(old(StepsNow()), ids) ==> tensors == old(tensors)
      ensures status == Ok ==> forall i :: 0 <= i < |Fed(old(StepsNow()), ids)| ==>
                Fed(old(StepsNow()), ids)[i].position < KvLength()
      ensures var length, room := |ids| - (if old(history.HasPendingInputToken()) then 0 else 1), old(KvLength() - history.GetStep());
              KvLength() == old(KvLength()) + if status == Ok && length > room then length else 0
      ensures old(KvHolds()) && (status == Ok ==> Aligned(old(StepsNow())) || |ids| == 1) ==> KvHolds()
    {
      hide Fed, CacheHolds, Aligned, Storage, Fixed;
      if inputBatch != 1 {
        return Error(Internal);
      }
      if ids == [] {
        return Error(Internal);
      }
      ghost var s := StepsNow();
      StepIds(s, ids);
      assert history.tokens == [s.row];
      var hasPending := history.HasPendingInputToken();
      var prefillLength := if hasPending then |ids| else |ids| - 1;
      if !hasPending && prefillLength == 0 {
        NothingFed(s, ids);
        StoreHolds(cells, KvLength(), s, ids);
        assert history.tokens == [s.row];
        status := history.AddPendingInputToken([ids[0]]);
        assert history.tokens == [StepsNow().row];
        return;
      }
      FedBelow(s, ids);
      if tensors == map[] {
        EmptyTensors();
        Allocate(prefillLength);
      } else {
        GrowIfNeeded(prefillLength, prefillLength);
      }
      FeedModel(ids);
      status := Ok;
    }

    lemma FixedValues()
      requires Fixed()
      ensures increment > 0 && firstName in layouts
    {
    }

    /** One decode call of the model, after making room for its position. */
    method DecodeInternal(step: nat, token: seq<int>) returns (status: Status)
      requires Valid() && step == history.GetStep()
      requires token == (match history.tokens[0].pending case Some(id) => [id] case None => [])
      modifies `highest, `tensors, `cells
      ensures status == if old(tensors) == map[] then Error(Internal)
                        else if token == [] then Error(InvalidArgument) else Ok
      ensures Valid()
      ensures KvLength() == old(KvLength()) + if old(tensors) != map[] && old(KvLength()) <= step then increment else 0
      ensures status == Error(Internal) ==> tensors == old(tensors)
      ensures status == Ok ==> highest == step < KvLength()
      ensures status != Ok && old(KvHolds()) ==> KvHolds()
      ensures status == Ok && old(KvHolds()) ==> CacheHolds(cells, KvLength(), Apply(history.tokens, MarkProcessed))
    {
      hide CacheHolds, Apply, WriteRows, InStep, Storage, Fixed, Grown;
      FixedValues();
      if tensors == map[] {
        return Error(Internal);
      }
      if KvLength() <= step {
        GrowIfNeeded(1, increment);
      }
      if token == [] {
        return Error(InvalidArgument);
      }
      ghost var cache, size := cells, KvLength();
      highest := step;
      RunInPlace(token, [step]);
      assert Singletons(token) == [token];
      DecodeCacheHolds(cache, cells, size, history.tokens, token);
      status := Ok;
    }

    method DecodeLogits(input: seq<int>) returns (status: Status)
      requires Valid()
      modifies `currentStep, `ranDecode, `highest, `tensors, `cells, history
      ensures Valid() && ranDecode
      ensures (input == [] || |input| == 1) && old(tensors) != map[] ==>
                KvLength() == old(KvLength()) + if old(KvLength()) <= old(history.GetStep()) then increment else 0
      ensures status == if (input != [] && |input| != 1) || old(tensors) == map[] then Error(Internal)
                        else if (input == [] || input[0] < 0) && !old(history.HasPendingInputToken()) then Error(InvalidArgument)
                        else Ok
      ensures var before, given := old(history.tokens)[0], input != [] && input[0] >= 0;
              if status == Ok then
                if given then history.tokens == [Row(before.ids + [input[0]], None)]
                else before.pending.Some? && history.tokens == [Row(before.ids + [before.pending.value], None)]
              else
                history.tokens == [if given && |input| == 1 then Row(before.ids, Some(input[0])) else before]
      ensures old(tensors) == map[] || (input != [] && |input| != 1) ==> tensors == old(tensors)
      ensures status == Ok ==> currentStep == history.TokenCount() == old(history.GetStep()) + 1
      ensures status == Ok ==> highest == old(history.GetStep()) < KvLength()
      ensures old(KvHolds()) ==> KvHolds()
    {
      hide CacheHolds, Apply, WithInput, Storage, Fixed;
      ranDecode := true;
      ghost var rows := history.tokens;
      var step, token;
      status, step, token := GetTokenToDecode(history, 1, currentStep, input);
      SameIdsCacheHolds(cells, KvLength(), rows, history.tokens);
      if status != Ok {
        return;
      }
      ghost var ready := history.tokens;
      assert token == (match ready[0].pending case Some(id) => [id] case None => []);
      status := DecodeInternal(step, token);
      if status != Ok {
        return;
      }
      ConsumedRow(ready);
      status := ConsumePendingOrAddProcessedToken(history, token);
      currentStep := step + 1;
    }

    /** Decodes one step and samples: the sampled token becomes the pending one, a negative one as 0. */
    method Decode() returns (status: Status, output: seq<int>)
      requires Valid()
      modifies `currentStep, `ranDecode, `highest, `tensors, `cells, history
      ensures Valid() && ranDecode
      ensures old(tensors) != map[] ==>
                KvLength() == old(KvLength()) + if old(KvLength()) <= old(history.GetStep()) then increment else 0
      ensures old(tensors) == map[] ==>
                status == Error(Internal) && history.tokens == old(history.tokens) && tensors == map[]
      ensures old(tensors) != map[] && !old(history.HasPendingInputToken()) ==>
                status == Error(InvalidArgument) && history.tokens == old(history.tokens)
      ensures old(tensors) != map[] && old(history.HasPendingInputToken()) ==>
                var before := old(history.tokens)[0];
                var ids := before.ids + [before.pending.value];
                var sampled := sample([Row(ids, None)]);
                if |sampled| == 1 then
                  && status == Ok && output == [if sampled[0] < 0 then 0 else sampled[0]]
                  && history.tokens == [Row(ids, Some(output[0]))]
                else
                  status == Error(Internal) && output == [] && history.tokens == [Row(ids, None)]
      ensures status == Ok ==>
                && history.HasPendingInputToken() && history.TokenCount() == old(history.TokenCount()) + 1
                && Behind(StepsNow())
                && highest == old(history.GetStep()) < KvLength()
      ensures old(KvHolds()) ==> KvHolds()
    {
      hide CacheHolds, Apply, Storage, Fixed;
      output := [];
      status := DecodeLogits([]);
      if status != Ok {
        return;
      }
      ghost var rows := history.tokens;
      ConsumedRow(old(history.tokens));
      var sampled := sample(history.tokens);
      if |sampled| != 1 {
        return Error(Internal), [];
      }
      output := ClampAll(sampled);
      AddPendingKeepsIds(rows, output);
      status := history.AddPendingInputToken(output);
      SameIdsCacheHolds(cells, KvLength(), rows, history.tokens);
    }

    /** Forgets the history; the cache keeps its length. */
    method Reset()
      requires Valid()
      modifies `currentStep, history
      ensures Valid() && history.tokens == [Row([], None)] && currentStep == 0
      ensures old(KvHolds()) ==> KvHolds()
    {
      hide Storage, Fixed;
      ghost var rows := history.tokens;
      currentStep := 0;
      var status := history.RollBackToStep(0);
      assert history.tokens[0] == Row([], None);
      ShorterHolds(cells, KvLength(), rows, history.tokens);
    }
  }

  lemma AllTensors(tensors: map<string, Tensor>, cells: map<string, seq<Cell>>, layouts: map<string, CacheLayout>,
                   entries: Entries)
    requires Coupled(tensors, cells, layouts, entries)
    ensures cells.Keys == tensors.Keys
    ensures forall name :: name in tensors ==>
              IsTensor(tensors[name]) && forall id :: FitsPlace(tensors[name], entries(name)(id))
  {
  }

  /** A first prefill of a single id allocates no cache, so the decode after it fails. */
  method DecodeAfterSingleId(executor: Executor, id: int) returns (status: Status)
    requires executor.Valid() && executor.tensors == map[] && !executor.history.HasPendingInputToken()
    modifies executor, executor.history
    ensures executor.Valid() && status == Error(Internal)
    ensures executor.history.HasPendingInputToken() && executor.tensors == map[]
  {
    hide Executor.Storage, Executor.Fixed;
    status := executor.Prefill([id], 1);
    var output;
    status, output := executor.Decode();
  }
}
