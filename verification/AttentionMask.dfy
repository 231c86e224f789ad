/**
 The attention mask of a model call (`InitializeAttentionMask` and `FillAttentionMask` in
 runtime/executor/litert_compiled_model_executor_utils.cc).

 A mask is a flat buffer of shape [batch, rows, 1, columns]. The row of the token at time step `t`
 opens the columns 0 to `t`.
 */
module AttentionMask {
  import opened Wrappers
  import opened Arithmetic
  import opened PrefillFeeding

  datatype ElementType = Bool | Float32 | OtherType

  const FLOAT_MAX: real := 340282346638528859811704183484516925440.0

  /** The value of a column that may not be attended to. `false` and `true` are written 0.0 and 1.0. */
  function Closed(t: ElementType, isF16: bool): real {
    if t == Bool then 0.0 else if isF16 then -45824.0 else -0.7 * FLOAT_MAX
  }

  function Open(t: ElementType): real {
    if t == Bool then 1.0 else 0.0
  }

  // ---------------------------------------------------------------------------------------------
  // The contents of a filled mask
  // ---------------------------------------------------------------------------------------------

  function Fill(n: nat, value: real): (row: seq<real>)
    ensures |row| == n && forall x :: 0 <= x < n ==> row[x] == value
  {
    seq(n, _ => value)
  }

  /** A closed column differs from an open one: its value is the lower one. */
  lemma ClosedBelowOpen(t: ElementType, isF16: bool)
    requires t != OtherType
    ensures Closed(t, isF16) < Open(t)
  {
  }

  /** How a mask is laid out and filled: `size` elements per batch element, `columns` per row. */
  datatype Layout = Layout(size: nat, columns: nat, start: nat)

  /** Column `c` of the row of step `i` of batch element `b`. */
  function Element(l: Layout, b: nat, i: nat, c: nat): nat {
    At(b, l.size, At(i, l.columns, c))
  }

  /** Where that row begins. */
  function RowStart(l: Layout, b: nat, i: nat): nat {
    Element(l, b, i, 0)
  }

  lemma ElementIs(l: Layout, b: nat, i: nat, c: nat)
    ensures Element(l, b, i, c) == RowStart(l, b, i) + c
    ensures RowStart(l, b, i) == b * l.size + i * l.columns
  {
  }

  /** The element at `x` is one that the row of step `i` of batch element `b` opens. */
  predicate InRow(l: Layout, b: nat, i: nat, x: nat) {
    RowStart(l, b, i) <= x < RowStart(l, b, i) + l.start + i + 1
  }

  predicate OpenedInBlock(l: Layout, b: nat, steps: nat, x: nat) {
    exists i | 0 <= i < steps :: InRow(l, b, i, x)
  }

  predicate Opened(l: Layout, batch: nat, steps: nat, x: nat) {
    exists b | 0 <= b < batch :: OpenedInBlock(l, b, steps, x)
  }

  function FilledMask(mask: seq<real>, l: Layout, batch: nat, steps: nat, open: real): (r: seq<real>)
    ensures |r| == |mask|
  {
    seq(|mask|, x requires 0 <= x < |mask| => if Opened(l, batch, steps, x) then open else mask[x])
  }

  /** The filled rows lie in a buffer of `n` elements. */
  predicate RowsFit(l: Layout, batch: nat, steps: nat, n: nat) {
    forall b, i | 0 <= b < batch && 0 <= i < steps :: RowStart(l, b, i) + l.start + i + 1 <= n
  }

  /**
   When the rows are wide enough, every column of every row is open exactly up to the time step of
   the row, and the rows after the last step stay closed.
   */
  lemma FilledAt(l: Layout, batch: nat, steps: nat, b: nat, i: nat, c: nat)
    requires l.start + steps <= l.columns && steps * l.columns <= l.size
    requires b < batch && c < l.columns && i * l.columns + l.columns <= l.size
    ensures Opened(l, batch, steps, Element(l, b, i, c)) <==> i < steps && c <= l.start + i
  {
    hide RowStart, Element;
    var x := Element(l, b, i, c);
    ElementIs(l, b, i, c);
    if i < steps && c <= l.start + i {
      assert InRow(l, b, i, x);
      assert OpenedInBlock(l, b, steps, x);
    }
    forall b', i' | 0 <= b' < batch && 0 <= i' < steps && InRow(l, b', i', x) ensures b' == b && i' == i && c <= l.start + i {
      BlockFits(steps, i', l.columns);
      ElementIs(l, b', i', x - RowStart(l, b', i'));
      SameElement(l, b, i, c, b', i', x - RowStart(l, b', i'));
    }
  }

  lemma SameElement(l: Layout, b: nat, i: nat, c: nat, b': nat, i': nat, c': nat)
    requires c < l.columns && i * l.columns + l.columns <= l.size
    requires c' < l.columns && i' * l.columns + l.columns <= l.size
    requires Element(l, b, i, c) == Element(l, b', i', c')
    ensures b == b' && i == i' && c == c'
  {
    hide At;
    AtIs(i, l.columns, c);
    AtIs(i', l.columns, c');
    SameBlock(l.size, b, At(i, l.columns, c), b', At(i', l.columns, c'));
    SameBlock(l.columns, i, c, i', c');
  }

  /** Row `i` of the first batch element. */
  function MaskRow(mask: seq<real>, columns: nat, i: nat): seq<real> {
    if i * columns + columns <= |mask| then mask[i * columns..i * columns + columns] else []
  }

  /** The row of the full causal mask for a token at `position`. */
  function CausalRow(position: nat, columns: nat, closed: real, open: real): seq<real> {
    seq(columns, c => if c <= position then open else closed)
  }

  /** The mask that a prefill call fills, in an initialised buffer of `size` elements. */
  function CallMask(s: Steps, ids: seq<int>, columns: nat, size: nat, closed: real, open: real): (mask: seq<real>)
    requires ids != []
    ensures |mask| == size
  {
    FilledMask(Fill(size, closed), Layout(size, columns, |s.row.ids|), 1, |Fed(s, ids)|, open)
  }

  /** The rows follow one another from the processed tokens on, wherever the tokens are fed. */
  lemma ChunkMaskRow(s: Steps, ids: seq<int>, columns: nat, size: nat, closed: real, open: real, i: nat)
    requires ids != []
    requires |s.row.ids| + |Fed(s, ids)| <= columns && |Fed(s, ids)| * columns <= size && i < |Fed(s, ids)|
    ensures MaskRow(CallMask(s, ids, columns, size, closed, open), columns, i) == CausalRow(|s.row.ids| + i, columns, closed, open)
  {
    hide Fed, Opened;
    var l, mask := Layout(size, columns, |s.row.ids|), CallMask(s, ids, columns, size, closed, open);
    BlockFits(|Fed(s, ids)|, i, columns);
    forall c | 0 <= c < columns ensures MaskRow(mask, columns, i)[c] == if c <= |s.row.ids| + i then open else closed {
      FilledAt(l, 1, |Fed(s, ids)|, 0, i, c);
      ElementIs(l, 0, i, c);
    }
  }

  /**
   The row of each token that a prefill call feeds is its row of the full causal mask if and only if
   the call feeds in place.
   */
  lemma ChunkMaskIsCausal(s: Steps, ids: seq<int>, columns: nat, size: nat, closed: real, open: real)
    requires ids != [] && InStep(s) && closed != open
    requires |s.row.ids| + |Fed(s, ids)| <= columns && |Fed(s, ids)| * columns <= size
    ensures (forall i :: 0 <= i < |Fed(s, ids)| ==>
               MaskRow(CallMask(s, ids, columns, size, closed, open), columns, i)
               == CausalRow(Fed(s, ids)[i].position, columns, closed, open)) <==>
            InPlace(Fed(s, ids), |s.row.ids|)
  {
    hide Fed, CallMask, MaskRow, CausalRow;
    var fed, mask := Fed(s, ids), CallMask(s, ids, columns, size, closed, open);
    forall i | 0 <= i < |fed|
      ensures MaskRow(mask, columns, i) == CausalRow(fed[i].position, columns, closed, open)
              <==> fed[i].position == |s.row.ids| + i
    {
      ChunkMaskRow(s, ids, columns, size, closed, open, i);
      FedAtMost(s, ids, i);
      CausalRowsDiffer(|s.row.ids| + i, fed[i].position, columns, closed, open);
    }
  }

  lemma FedAtMost(s: Steps, ids: seq<int>, i: nat)
    requires ids != [] && InStep(s) && i < |Fed(s, ids)|
    ensures Fed(s, ids)[i].position <= |s.row.ids| + i
  {
  }

  lemma CausalRowsDiffer(p: nat, p': nat, columns: nat, closed: real, open: real)
    requires closed != open && p' <= p < columns
    ensures CausalRow(p, columns, closed, open) == CausalRow(p', columns, closed, open) <==> p == p'
  {
    if p' < p {
      assert CausalRow(p, columns, closed, open)[p] != CausalRow(p', columns, closed, open)[p];
    }
  }

  /** A call that does not feed in place: the row of each id opens one column past the position of the id. */
  lemma MisplacedMaskRow(s: Steps, ids: seq<int>, columns: nat, size: nat, closed: real, open: real, i: nat)
    requires ids != [] && InStep(s) && !InPlace(Fed(s, ids), |s.row.ids|)
    requires |s.row.ids| + |Fed(s, ids)| <= columns && |Fed(s, ids)| * columns <= size && 0 < i < |Fed(s, ids)|
    ensures MaskRow(CallMask(s, ids, columns, size, closed, open), columns, i)
            == CausalRow(Fed(s, ids)[i].position + 1, columns, closed, open)
  {
    hide CallMask, MaskRow, CausalRow;
    FedInPlaceExactly(s, ids);
    ChunkMaskRow(s, ids, columns, size, closed, open, i);
  }

  /**
   A whole prefill, cut by work groups, when the counters agree or every call takes a single id: the
   row that call `n` fills for its token `i` is that of the full causal mask at the place of the
   token among all tokens fed, counted from the processed ones.
   */
  lemma PrefillMasksAreCausal(s: Steps, ids: seq<int>, lengths: seq<nat>, n: nat, before: Steps, cut: nat,
                              columns: nat, size: nat, closed: real, open: real, i: nat)
    requires Cuts(lengths, |ids|) && RegularCuts(lengths) && InStep(s) && (Aligned(s) || AllOnes(lengths))
    requires n < |lengths| && Cuts(lengths[..n], cut) && cut + lengths[n] <= |ids|
    requires before == PrefillAll(s, ids[..cut], lengths[..n])
    requires var fed := Fed(before, ids[cut..cut + lengths[n]]);
             |before.row.ids| + |fed| <= columns && |fed| * columns <= size && i < |fed|
    ensures MaskRow(CallMask(before, ids[cut..cut + lengths[n]], columns, size, closed, open), columns, i)
            == CausalRow(|s.row.ids| + |FedAll(s, ids[..cut], lengths[..n])| + i, columns, closed, open)
  {
    hide Fed, CallMask, PrefillAll, FedAll, Aligned, AllOnes, RegularCuts, MaskRow, CausalRow;
    var next := ids[cut..cut + lengths[n]];
    NextCallInPlace(s, ids[..cut], lengths, n);
    FedInPlaceExactly(before, next);
    FedAllLength(s, ids[..cut], lengths[..n]);
    ChunkMaskRow(before, next, columns, size, closed, open, i);
  }

  // ---------------------------------------------------------------------------------------------
  // The operations
  // ---------------------------------------------------------------------------------------------

  method InitializeAttentionMask(mask: array<real>, t: ElementType, isF16: bool) returns (status: Status)
    modifies mask
    ensures status == if t == OtherType then Error(InvalidArgument) else Ok
    ensures forall x :: 0 <= x < mask.Length ==>
              mask[x] == match t
                         case Bool => 0.0
                         case Float32 => if isF16 then -45824.0 else -0.7 * 340282346638528859811704183484516925440.0
                         case OtherType => old(mask[x])
  {
    if t == OtherType {
      return Error(InvalidArgument);
    }
    FillRange(mask, 0, mask.Length, Closed(t, isF16));
    status := Ok;
  }

  /** `std::fill` on `n` elements. */
  method FillRange(mask: array<real>, from: nat, n: nat, value: real)
    requires from + n <= mask.Length
    modifies mask
    ensures forall x :: 0 <= x < mask.Length ==> mask[x] == if from <= x < from + n then value else old(mask[x])
  {
    for k := 0 to n
      invariant forall x :: 0 <= x < mask.Length ==> mask[x] == if from <= x < from + k then value else old(mask[x])
    {
      mask[from + k] := value;
    }
  }

  function Product4(dims: seq<nat>): nat
    requires |dims| == 4
  {
    dims[0] * (dims[1] * dims[2] * dims[3])
  }

  /** The layout of a mask of the given dimensions, for tokens from time step `start` on. */
  function LayoutOf(dims: seq<nat>, start: nat): Layout
    requires |dims| == 4
  {
    Layout(dims[1] * dims[2] * dims[3], dims[3], start)
  }

  /** The rows that are written have to lie in the buffer; nothing else is asked of the time steps. */
  method FillAttentionMask(mask: array<real>, dims: seq<nat>, t: ElementType, start: nat, steps: nat) returns (status: Status)
    requires |dims| == 4 ==> dims[0] > 0 && mask.Length == Product4(dims)
    requires |dims| == 4 && t != OtherType ==> RowsFit(LayoutOf(dims, start), dims[0], steps, mask.Length)
    modifies mask
    ensures status == if |dims| != 4 || t == OtherType then Error(InvalidArgument) else Ok
    ensures mask[..] == if status == Ok then FilledMask(old(mask[..]), LayoutOf(dims, start), dims[0], steps, Open(t))
                        else old(mask[..])
    ensures status == Ok && start + steps <= dims[3] && steps <= dims[1] * dims[2] ==>
              forall b, i, c | 0 <= b < dims[0] && 0 <= i < dims[1] * dims[2] && 0 <= c < dims[3] ::
                var x := At(b, dims[1] * dims[2] * dims[3], At(i, dims[3], c));
                x < mask.Length &&
                mask[x] == if i < steps && c <= start + i then (if t == Bool then 1.0 else 0.0) else old(mask[..])[x]
  {
    hide Opened;
    if |dims| != 4 {
      return Error(InvalidArgument);
    }
    var batchSize, channelSize := dims[0], dims[3];
    DivideBack(dims[0], dims[1] * dims[2] * dims[3]);
    var batchOffset := mask.Length / batchSize;
    if t == OtherType {
      return Error(InvalidArgument);
    }
    FillBatches(mask, Layout(batchOffset, channelSize, start), batchSize, steps, Open(t));
    if start + steps <= dims[3] && steps <= dims[1] * dims[2] {
      forall b, i, c | 0 <= b < dims[0] && 0 <= i < dims[1] * dims[2] && 0 <= c < dims[3]
        ensures var x := At(b, dims[1] * dims[2] * dims[3], At(i, dims[3], c));
                x < mask.Length &&
                mask[x] == if i < steps && c <= start + i then (if t == Bool then 1.0 else 0.0) else old(mask[..])[x]
      {
        FilledElement(old(mask[..]), dims, start, steps, Open(t), b, i, c);
      }
    }
    status := Ok;
  }

  /** One element of a mask whose rows are wide enough. */
  lemma FilledElement(mask: seq<real>, dims: seq<nat>, start: nat, steps: nat, open: real, b: nat, i: nat, c: nat)
    requires |dims| == 4 && |mask| == Product4(dims) && start + steps <= dims[3] && steps <= dims[1] * dims[2]
    requires b < dims[0] && i < dims[1] * dims[2] && c < dims[3]
    ensures var x := At(b, dims[1] * dims[2] * dims[3], At(i, dims[3], c));
            && x < |mask|
            && FilledMask(mask, LayoutOf(dims, start), dims[0], steps, open)[x]
               == if i < steps && c <= start + i then open else mask[x]
  {
    hide Opened, At;
    var rows, columns := dims[1] * dims[2], dims[3];
    BlockFits(rows, i, columns);
    InBlock(rows, columns, i, c);
    InBlock(dims[0], rows * columns, b, At(i, columns, c));
    StepsFit(rows, steps, columns);
    FilledAt(LayoutOf(dims, start), dims[0], steps, b, i, c);
  }

  lemma StepsFit(rows: nat, steps: nat, columns: nat)
    requires steps <= rows
    ensures steps * columns <= rows * columns
  {
    Distribute(steps, rows - steps, columns);
  }

  lemma DivideBack(a: nat, b: nat)
    requires a > 0
    ensures (a * b) / a == b
  {
    var q: int := (a * b) / a;
    var rest: int := a * b - a * q;
    assert 0 <= rest < a;
    var d: int := b - q;
    assert rest == a * d;
    Multiple(a, d);
  }

  lemma Multiple(a: int, x: int)
    requires a >= 0
    ensures x >= 1 ==> a * x >= a
    ensures x <= -1 ==> a * x <= -a
  {
    var above, below: int := x - 1, -x - 1;
    assert x >= 1 ==> a * above >= 0;
    assert x <= -1 ==> a * below >= 0;
  }

  method FillBatches(mask: array<real>, l: Layout, batch: nat, steps: nat, open: real)
    requires RowsFit(l, batch, steps, mask.Length)
    modifies mask
    ensures mask[..] == FilledMask(old(mask[..]), l, batch, steps, open)
  {
    hide OpenedInBlock, RowStart;
    for b := 0 to batch
      invariant forall x :: 0 <= x < mask.Length ==> mask[x] == if Opened(l, b, steps, x) then open else old(mask[x])
    {
      FillBlock(mask, l, b, steps, open);
      forall x | 0 <= x < mask.Length
        ensures Opened(l, b + 1, steps, x) <==> Opened(l, b, steps, x) || OpenedInBlock(l, b, steps, x)
      {
        OneMoreBlock(l, b, steps, x);
      }
    }
  }

  lemma OneMoreBlock(l: Layout, b: nat, steps: nat, x: nat)
    ensures Opened(l, b + 1, steps, x) <==> Opened(l, b, steps, x) || OpenedInBlock(l, b, steps, x)
  {
    hide OpenedInBlock;
  }

  lemma OneMoreRow(l: Layout, b: nat, i: nat, x: nat)
    ensures OpenedInBlock(l, b, i + 1, x) <==> OpenedInBlock(l, b, i, x) || InRow(l, b, i, x)
  {
    hide InRow;
  }

  /** The loop over the steps, for one batch element. */
  method FillBlock(mask: array<real>, l: Layout, b: nat, steps: nat, open: real)
    requires forall i | 0 <= i < steps :: RowStart(l, b, i) + l.start + i + 1 <= mask.Length
    modifies mask
    ensures forall x :: 0 <= x < mask.Length ==> mask[x] == if OpenedInBlock(l, b, steps, x) then open else old(mask[x])
  {
    hide OpenedInBlock;
    forall x ensures !OpenedInBlock(l, b, 0, x) {
      NoRows(l, b, x);
    }
    for i := 0 to steps
      invariant forall x :: 0 <= x < mask.Length ==> mask[x] == if OpenedInBlock(l, b, i, x) then open else old(mask[x])
    {
      var currentStep := l.start + i;
      var offset := b * l.size + i * l.columns;
      ElementIs(l, b, i, 0);
      FillRange(mask, offset, currentStep + 1, open);
      forall x: nat ensures OpenedInBlock(l, b, i + 1, x) <==> OpenedInBlock(l, b, i, x) || InRow(l, b, i, x) {
        OneMoreRow(l, b, i, x);
      }
    }
  }

  lemma NoRows(l: Layout, b: nat, x: nat)
    ensures !OpenedInBlock(l, b, 0, x)
  {
  }
}
