/**
 A cache tensor, seen along its dynamic axis (`ResizeKVCacheTensorBuffer` in
 runtime/executor/llm_litert_compiled_model_executor.cc).

 A place of a tensor is what it holds at one index of the axis: the bytes of that index in every outer
 block. The axis may lie anywhere in the shape.
 */
module CacheTensor {
  import opened Arithmetic
  import opened Wrappers
  import opened KvCache
  import opened TensorGrowth

  datatype Tensor = Tensor(bytes: seq<Byte>, shape: seq<nat>, axis: nat, elementSize: nat)

  /** The bytes at one index of the axis, block by block. */
  type Place = seq<seq<Byte>>

  predicate IsTensor(t: Tensor) {
    t.axis < |t.shape| && |t.bytes| == Product(t.shape) * t.elementSize
  }

  function Length(t: Tensor): nat
    requires IsTensor(t)
  {
    t.shape[t.axis]
  }

  function Blocks(t: Tensor): nat
    requires IsTensor(t)
  {
    Product(t.shape[..t.axis])
  }

  function BytesPerPlace(t: Tensor): nat
    requires IsTensor(t)
  {
    PlaceSize(t.shape, t.axis, t.elementSize)
  }

  /** Where byte `b` of place `p` lies in block `i`. */
  function Position(t: Tensor, i: nat, p: nat, b: nat): nat
    requires IsTensor(t)
  {
    At(i, AxisSize(t.shape, t.axis, t.elementSize), At(p, BytesPerPlace(t), b))
  }

  lemma InTensor(t: Tensor, i: nat, p: nat, b: nat)
    requires IsTensor(t) && i < Blocks(t) && p < Length(t) && b < BytesPerPlace(t)
    ensures At(p, BytesPerPlace(t), b) < AxisSize(t.shape, t.axis, t.elementSize)
    ensures Position(t, i, p, b) < |t.bytes|
  {
    hide Product, PlaceSize;
    SizeOnAxis(t.shape, t.axis, t.elementSize);
    InBlock(Length(t), BytesPerPlace(t), p, b);
    InBlock(Blocks(t), AxisSize(t.shape, t.axis, t.elementSize), i, At(p, BytesPerPlace(t), b));
  }

  function PlaceOf(t: Tensor, p: nat): (place: Place)
    requires IsTensor(t) && p < Length(t)
    ensures FitsPlace(t, place)
  {
    seq(Blocks(t), i requires 0 <= i < Blocks(t) =>
      seq(BytesPerPlace(t), b requires 0 <= b < BytesPerPlace(t) =>
        InTensor(t, i, p, b);
        t.bytes[Position(t, i, p, b)]))
  }

  predicate FitsPlace(t: Tensor, place: Place)
    requires IsTensor(t)
  {
    |place| == Blocks(t) && forall i :: 0 <= i < |place| ==> |place[i]| == BytesPerPlace(t)
  }

  // ---------------------------------------------------------------------------------------------
  // Growing
  // ---------------------------------------------------------------------------------------------

  function GrownShape(t: Tensor, entries: nat): seq<nat>
    requires IsTensor(t)
  {
    t.shape[t.axis := t.shape[t.axis] + entries]
  }

  /** The tensor that `ExpandBuffer` makes. */
  function GrownTensor(t: Tensor, entries: nat): (r: Tensor)
    requires IsTensor(t) && entries > 0
    ensures IsTensor(r) && Length(r) == Length(t) + entries
  {
    Tensor(ExpandedOn(t.bytes, t.shape, GrownShape(t, entries), t.axis, t.elementSize), GrownShape(t, entries), t.axis,
           t.elementSize)
  }

  lemma SameDimensions(t: Tensor, entries: nat)
    requires IsTensor(t) && entries > 0
    ensures Blocks(GrownTensor(t, entries)) == Blocks(t)
    ensures BytesPerPlace(GrownTensor(t, entries)) == BytesPerPlace(t)
  {
    var shape := GrownShape(t, entries);
    assert shape[..t.axis] == t.shape[..t.axis];
    SamePlaces(t.shape, shape, t.axis, t.elementSize);
  }

  function ZeroPlace(t: Tensor): (place: Place)
    requires IsTensor(t)
    ensures FitsPlace(t, place)
  {
    seq(Blocks(t), _ => seq(BytesPerPlace(t), _ => 0))
  }

  /** Growing keeps every place where it is, wherever the axis lies; the new places are zero. */
  lemma PlacesKept(t: Tensor, entries: nat, p: nat)
    requires IsTensor(t) && entries > 0 && p < Length(t) + entries
    ensures PlaceOf(GrownTensor(t, entries), p) == if p < Length(t) then PlaceOf(t, p) else ZeroPlace(t)
  {
    hide Product, Expanded, ExpandedOn, PlaceSize, AxisSize, At;
    var expected := if p < Length(t) then PlaceOf(t, p) else ZeroPlace(t);
    SameDimensions(t, entries);
    forall i, b | 0 <= i < Blocks(t) && 0 <= b < BytesPerPlace(t)
      ensures PlaceOf(GrownTensor(t, entries), p)[i][b] == expected[i][b]
    {
      BytesKept(t.bytes, t.shape, GrownShape(t, entries), t.axis, t.elementSize, i, p, b);
    }
    SamePlace(PlaceOf(GrownTensor(t, entries), p), expected, Blocks(t), BytesPerPlace(t));
  }

  lemma SamePlace(a: Place, b: Place, blocks: nat, size: nat)
    requires |a| == |b| == blocks && forall i :: 0 <= i < blocks ==> |a[i]| == |b[i]| == size
    requires forall i, k :: 0 <= i < blocks && 0 <= k < size ==> a[i][k] == b[i][k]
    ensures a == b
  {
    forall i | 0 <= i < blocks ensures a[i] == b[i] {
    }
  }

  /** `ResizeKVCacheTensorBuffer`: a new buffer, filled by `ExpandBuffer`. */
  method Resize(t: Tensor, entries: nat) returns (status: Status, r: Tensor)
    requires IsTensor(t)
    ensures status == if entries > 0 then Ok else Error(InvalidArgument)
    ensures status == Ok ==> r == GrownTensor(t, entries)
  {
    hide Product, ExpandedOn;
    var shape := GrownShape(t, entries);
    var size := Multiply(shape);
    var src := new Byte[|t.bytes|](i requires 0 <= i < |t.bytes| => t.bytes[i]);
    var dst := new Byte[size * t.elementSize];
    assert src[..] == t.bytes;
    ghost var axis;
    status, axis := ExpandBuffer(src, t.shape, dst, shape, t.elementSize);
    r := Tensor(dst[..], shape, t.axis, t.elementSize);
    if entries > 0 {
      assert GrowsOn(t.shape, shape, t.axis);
    }
  }

  // ---------------------------------------------------------------------------------------------
  // Writing
  // ---------------------------------------------------------------------------------------------

  function BlockOf(x: nat, size: nat): nat {
    if size == 0 then 0 else x / size
  }

  function InsideOf(x: nat, size: nat): nat {
    if size == 0 then 0 else x % size
  }

  lemma AtInverse(i: nat, size: nat, t: nat)
    requires t < size
    ensures BlockOf(At(i, size, t), size) == i && InsideOf(At(i, size, t), size) == t
  {
    var x := At(i, size, t);
    assert x == At(x / size, size, x % size);
    SameBlock(size, i, t, x / size, x % size);
  }

  /** The tensor with another entry at place `p`. */
  function WritePlace(t: Tensor, p: nat, entry: Place): (r: Tensor)
    requires IsTensor(t) && p < Length(t) && FitsPlace(t, entry)
    ensures IsTensor(r) && r.shape == t.shape && r.axis == t.axis && r.elementSize == t.elementSize
  {
    var axisSize, size := AxisSize(t.shape, t.axis, t.elementSize), BytesPerPlace(t);
    t.(bytes := seq(|t.bytes|, x requires 0 <= x < |t.bytes| =>
      var i, b := BlockOf(x, axisSize), InsideOf(InsideOf(x, axisSize), size);
      if BlockOf(InsideOf(x, axisSize), size) == p && i < |entry| && b < |entry[i]| then entry[i][b] else t.bytes[x]))
  }

  /** Only that place changes. */
  lemma PlaceWritten(t: Tensor, p: nat, entry: Place, q: nat)
    requires IsTensor(t) && p < Length(t) && FitsPlace(t, entry) && q < Length(t)
    ensures PlaceOf(WritePlace(t, p, entry), q) == if q == p then entry else PlaceOf(t, q)
  {
    hide Product, PlaceSize, AxisSize, At, BlockOf, InsideOf;
    var r, expected := WritePlace(t, p, entry), if q == p then entry else PlaceOf(t, q);
    forall i, b | 0 <= i < Blocks(t) && 0 <= b < BytesPerPlace(t) ensures PlaceOf(r, q)[i][b] == expected[i][b] {
      InTensor(t, i, q, b);
      AtInverse(i, AxisSize(t.shape, t.axis, t.elementSize), At(q, BytesPerPlace(t), b));
      AtInverse(q, BytesPerPlace(t), b);
    }
    SamePlace(PlaceOf(r, q), expected, Blocks(t), BytesPerPlace(t));
  }

  /** Writes the entry of each token at its position. A position past the tensor is not written. */
  function WriteTokens(t: Tensor, entry: int -> Place, ids: seq<int>, positions: seq<nat>): (r: Tensor)
    requires IsTensor(t) && |ids| == |positions| && forall id :: FitsPlace(t, entry(id))
    ensures IsTensor(r) && r.shape == t.shape && r.axis == t.axis && r.elementSize == t.elementSize
  {
    if ids == [] then t
    else
      var last := |ids| - 1;
      var before := WriteTokens(t, entry, ids[..last], positions[..last]);
      if positions[last] < Length(before) then WritePlace(before, positions[last], entry(ids[last])) else before
  }

  // ---------------------------------------------------------------------------------------------
  // What a tensor holds
  // ---------------------------------------------------------------------------------------------

  /** Every place that stands for a token holds the entry of that token. */
  ghost predicate Shows(t: Tensor, cells: seq<Cell>, entry: int -> Place) {
    && IsTensor(t) && |cells| == Length(t)
    && (forall id :: FitsPlace(t, entry(id)))
    && forall p :: 0 <= p < |cells| && cells[p].Some? ==> PlaceOf(t, p) == entry(cells[p].value)
  }

  /** The new places of a grown tensor stand for no token. */
  lemma GrownShows(t: Tensor, cells: seq<Cell>, entry: int -> Place, entries: nat)
    requires Shows(t, cells, entry) && entries > 0
    ensures Shows(GrownTensor(t, entries), cells + seq(entries, _ => None), entry)
  {
    hide GrownTensor, PlaceOf, FitsPlace;
    var r := GrownTensor(t, entries);
    assert IsTensor(r) && Length(r) == Length(t) + entries;
    forall id ensures FitsPlace(r, entry(id)) {
      SameFit(t, entries, entry(id));
    }
    forall p | 0 <= p < |cells| && cells[p].Some? ensures PlaceOf(r, p) == entry(cells[p].value) {
      PlacesKept(t, entries, p);
    }
  }

  lemma SameFit(t: Tensor, entries: nat, place: Place)
    requires IsTensor(t) && entries > 0
    ensures FitsPlace(GrownTensor(t, entries), place) <==> FitsPlace(t, place)
  {
    SameDimensions(t, entries);
  }

  lemma {:induction false} WrittenShows(t: Tensor, cells: seq<Cell>, entry: int -> Place, ids: seq<int>, positions: seq<nat>)
    requires Shows(t, cells, entry) && |ids| == |positions|
    ensures Shows(WriteTokens(t, entry, ids, positions), WriteRow(cells, ids, positions), entry)
  {
    hide PlaceOf, WritePlace;
    if ids != [] {
      var last := |ids| - 1;
      var before := WriteTokens(t, entry, ids[..last], positions[..last]);
      WrittenShows(t, cells, entry, ids[..last], positions[..last]);
      if positions[last] < Length(before) {
        OneMoreShown(before, WriteRow(cells, ids[..last], positions[..last]), entry, ids[last], positions[last]);
      }
    }
  }

  lemma OneMoreShown(t: Tensor, cells: seq<Cell>, entry: int -> Place, id: int, p: nat)
    requires Shows(t, cells, entry) && p < Length(t)
    ensures Shows(WritePlace(t, p, entry(id)), cells[p := Some(id)], entry)
  {
    hide PlaceOf, WritePlace;
    var r := WritePlace(t, p, entry(id));
    forall q | 0 <= q < |cells| && cells[p := Some(id)][q].Some?
      ensures PlaceOf(r, q) == entry(cells[p := Some(id)][q].value)
    {
      PlaceWritten(t, p, entry(id), q);
    }
  }
}
