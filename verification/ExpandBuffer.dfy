/**
 Growing a tensor along one axis (`ExpandBuffer` in
 runtime/executor/llm_litert_compiled_model_cache_utils.cc).
 */
module TensorGrowth {
  import opened Wrappers
  import opened Arithmetic

  type Byte = bv8

  // ---------------------------------------------------------------------------------------------
  // Shapes and offsets
  // ---------------------------------------------------------------------------------------------

  function Product(shape: seq<nat>): nat {
    if shape == [] then 1 else shape[0] * Product(shape[1..])
  }

  /** `index` is a position inside `shape`. */
  predicate Within(shape: seq<nat>, index: seq<nat>) {
    |index| == |shape| && forall i :: 0 <= i < |shape| ==> index[i] < shape[i]
  }

  /** The row-major offset of a multi-index. */
  function Offset(shape: seq<nat>, index: seq<nat>): nat
    requires |index| == |shape|
  {
    if shape == [] then 0 else index[0] * Product(shape[1..]) + Offset(shape[1..], index[1..])
  }

  /** The shapes differ on `axis` only, where the destination is larger. */
  predicate GrowsOn(src: seq<nat>, dst: seq<nat>, axis: nat) {
    && |src| == |dst| && axis < |src| && src[axis] < dst[axis]
    && forall i :: 0 <= i < |src| && i != axis ==> src[i] == dst[i]
  }

  lemma {:induction false} ProductSplit(shape: seq<nat>, k: nat)
    requires k <= |shape|
    ensures Product(shape) == Product(shape[..k]) * Product(shape[k..])
  {
    if k > 0 {
      ProductSplit(shape[1..], k - 1);
      assert shape[1..][..k - 1] == shape[..k][1..] && shape[1..][k - 1..] == shape[k..];
      MulAssociates(shape[0], Product(shape[..k][1..]), Product(shape[k..]));
    } else {
      assert shape[0..] == shape;
    }
  }

  lemma {:induction false} OffsetSplit(shape: seq<nat>, index: seq<nat>, k: nat)
    requires k <= |shape| == |index|
    ensures Offset(shape, index) == Offset(shape[..k], index[..k]) * Product(shape[k..]) + Offset(shape[k..], index[k..])
  {
    hide Product;
    if k > 0 {
      var inner := Product(shape[k..]);
      OffsetSplit(shape[1..], index[1..], k - 1);
      assert shape[1..][..k - 1] == shape[..k][1..] && shape[1..][k - 1..] == shape[k..];
      assert index[1..][..k - 1] == index[..k][1..] && index[1..][k - 1..] == index[k..];
      ProductSplit(shape[1..], k - 1);
      Unfold(shape, index);
      Unfold(shape[..k], index[..k]);
      Combine(index[0], Product(shape[..k][1..]), inner, Offset(shape[..k][1..], index[..k][1..]),
              Offset(shape[k..], index[k..]));
    } else {
      assert shape[0..] == shape && index[0..] == index;
    }
  }

  lemma Combine(first: nat, size: nat, inner: nat, outer: nat, rest: nat)
    ensures first * (size * inner) + (outer * inner + rest) == (first * size + outer) * inner + rest
  {
    MulAssociates(first, size, inner);
    Distribute(first * size, outer, inner);
  }

  lemma {:induction false} OffsetBound(shape: seq<nat>, index: seq<nat>)
    requires Within(shape, index)
    ensures Offset(shape, index) < Product(shape)
  {
    if shape != [] {
      OffsetBound(shape[1..], index[1..]);
      Distribute(shape[0] - 1 - index[0], index[0] + 1, Product(shape[1..]));
      Distribute(index[0], 1, Product(shape[1..]));
    }
  }

  /** The outer block, the place on the axis, and the place in the inner block. */
  lemma OffsetOnAxis(shape: seq<nat>, index: seq<nat>, axis: nat)
    requires axis < |shape| == |index|
    ensures Offset(shape, index) ==
            (Offset(shape[..axis], index[..axis]) * shape[axis] + index[axis]) * Product(shape[axis + 1..])
            + Offset(shape[axis + 1..], index[axis + 1..])
  {
    hide Offset, Product;
    var outer, inner := Offset(shape[..axis], index[..axis]), Product(shape[axis + 1..]);
    OffsetSplit(shape, index, axis);
    Unfold(shape[axis..], index[axis..]);
    assert shape[axis..][1..] == shape[axis + 1..];
    assert index[axis..][1..] == index[axis + 1..];
    Regroup(outer, shape[axis], index[axis], inner);
  }

  lemma Unfold(shape: seq<nat>, index: seq<nat>)
    requires |index| == |shape| && shape != []
    ensures Product(shape) == shape[0] * Product(shape[1..])
    ensures Offset(shape, index) == index[0] * Product(shape[1..]) + Offset(shape[1..], index[1..])
  {
  }

  lemma Regroup(outer: nat, size: nat, at: nat, inner: nat)
    ensures outer * (size * inner) + at * inner == (outer * size + at) * inner
  {
    MulAssociates(outer, size, inner);
    Distribute(outer * size, at, inner);
  }

  // ---------------------------------------------------------------------------------------------
  // What growing means
  // ---------------------------------------------------------------------------------------------

  function Zeros(n: nat): (z: seq<Byte>)
    ensures |z| == n
  {
    seq(n, _ => 0 as Byte)
  }

  /** Each of `n` blocks of `small` bytes becomes a block of `large` bytes, filled up with zeros. */
  function Expanded(src: seq<Byte>, n: nat, small: nat, large: nat): (dst: seq<Byte>)
    requires small <= large && |src| == n * small
    ensures |dst| == n * large
  {
    if n == 0 then []
    else
      Distribute(n - 1, 1, small);
      Distribute(n - 1, 1, large);
      Expanded(src[..(n - 1) * small], n - 1, small, large) + src[(n - 1) * small..] + Zeros(large - small)
  }

  lemma ExpandedNext(src: seq<Byte>, n: nat, small: nat, large: nat)
    requires n > 0 && small <= large && |src| == n * small
    ensures (n - 1) * small + small == n * small && (n - 1) * large + large == n * large
    ensures Expanded(src, n, small, large) ==
            Expanded(src[..(n - 1) * small], n - 1, small, large) + (src[(n - 1) * small..] + Zeros(large - small))
  {
    Distribute(n - 1, 1, small);
    Distribute(n - 1, 1, large);
  }

  lemma {:induction false} ExpandedAt(src: seq<Byte>, n: nat, small: nat, large: nat, i: nat, t: nat)
    requires small <= large && |src| == n * small && i < n && t < large
    ensures At(i, large, t) < n * large
    ensures t < small ==> At(i, small, t) < n * small
    ensures Expanded(src, n, small, large)[At(i, large, t)] == if t < small then src[At(i, small, t)] else 0
  {
    hide Expanded, At;
    InBlock(n, large, i, t);
    if t < small {
      InBlock(n, small, i, t);
    }
    if i < n - 1 {
      BlockFits(n, n - 1, small);
      ExpandedAt(src[..(n - 1) * small], n - 1, small, large, i, t);
      EarlierBlockAt(src, n, small, large, i, t);
    } else {
      LastBlockAt(src, n, small, large, t);
    }
  }

  lemma EarlierBlockAt(src: seq<Byte>, n: nat, small: nat, large: nat, i: nat, t: nat)
    requires n > 0 && small <= large && |src| == n * small && i < n - 1 && t < large
    ensures (n - 1) * small <= n * small && At(i, large, t) < (n - 1) * large <= n * large
    ensures Expanded(src, n, small, large)[At(i, large, t)]
            == Expanded(src[..(n - 1) * small], n - 1, small, large)[At(i, large, t)]
  {
    hide Expanded, At;
    InBlock(n - 1, large, i, t);
    ExpandedNext(src, n, small, large);
    var cut := (n - 1) * small;
    InEarlierBlock(Expanded(src[..cut], n - 1, small, large), src[cut..] + Zeros(large - small), At(i, large, t));
  }

  lemma LastBlockAt(src: seq<Byte>, n: nat, small: nat, large: nat, t: nat)
    requires n > 0 && small <= large && |src| == n * small && t < large
    ensures At(n - 1, large, t) < n * large
    ensures t < small ==> At(n - 1, small, t) < n * small
    ensures Expanded(src, n, small, large)[At(n - 1, large, t)] == if t < small then src[At(n - 1, small, t)] else 0
  {
    hide Expanded, At;
    AtIs(n - 1, large, t);
    AtIs(n - 1, small, t);
    ExpandedNext(src, n, small, large);
    var cut := (n - 1) * small;
    InLastBlock(Expanded(src[..cut], n - 1, small, large), src[cut..], Zeros(large - small), t);
  }

  lemma InEarlierBlock(earlier: seq<Byte>, rest: seq<Byte>, p: nat)
    requires p < |earlier|
    ensures (earlier + rest)[p] == earlier[p]
  {
  }

  lemma InLastBlock(earlier: seq<Byte>, block: seq<Byte>, padding: seq<Byte>, t: nat)
    requires t < |block| + |padding|
    ensures (earlier + (block + padding))[|earlier| + t] == if t < |block| then block[t] else padding[t - |block|]
  {
  }

  /** Growing twice is growing once, to the final size. */
  lemma {:induction false} ExpandTwice(src: seq<Byte>, n: nat, small: nat, middle: nat, large: nat)
    requires small <= middle <= large && |src| == n * small
    ensures Expanded(Expanded(src, n, small, middle), n, middle, large) == Expanded(src, n, small, large)
  {
    if n > 0 {
      Distribute(n - 1, 1, small);
      Distribute(n - 1, 1, middle);
      var once := Expanded(src, n, small, middle);
      var before := Expanded(src[..(n - 1) * small], n - 1, small, middle);
      ExpandTwice(src[..(n - 1) * small], n - 1, small, middle, large);
      assert once == before + (src[(n - 1) * small..] + Zeros(middle - small));
      assert once[..(n - 1) * middle] == before;
      assert once[(n - 1) * middle..] == src[(n - 1) * small..] + Zeros(middle - small);
      assert Zeros(middle - small) + Zeros(large - middle) == Zeros(large - small);
    }
  }

  // --- in terms of multi-indices ---

  /** The number of bytes of one place on the axis. */
  function PlaceSize(shape: seq<nat>, axis: nat, elementSize: nat): nat
    requires axis < |shape|
  {
    Product(shape[axis + 1..]) * elementSize
  }

  function ExpandedOn(src: seq<Byte>, srcShape: seq<nat>, dstShape: seq<nat>, axis: nat, elementSize: nat): (dst: seq<Byte>)
    requires GrowsOn(srcShape, dstShape, axis)
    requires |src| == Product(srcShape) * elementSize
    ensures |dst| == Product(dstShape) * elementSize
  {
    var place := PlaceSize(srcShape, axis, elementSize);
    SizeOnAxis(srcShape, axis, elementSize);
    SizeOnAxis(dstShape, axis, elementSize);
    assert srcShape[..axis] == dstShape[..axis] && srcShape[axis + 1..] == dstShape[axis + 1..];
    Distribute(srcShape[axis], dstShape[axis] - srcShape[axis], place);
    Expanded(src, Product(srcShape[..axis]), srcShape[axis] * place, dstShape[axis] * place)
  }

  lemma SizeOnAxis(shape: seq<nat>, axis: nat, elementSize: nat)
    requires axis < |shape|
    ensures Product(shape) * elementSize == Product(shape[..axis]) * (shape[axis] * PlaceSize(shape, axis, elementSize))
  {
    hide Product;
    ProductSplit(shape, axis);
    Unfold(shape[axis..], shape[axis..]);
    assert shape[axis..][1..] == shape[axis + 1..];
    var outer, inner := Product(shape[..axis]), Product(shape[axis + 1..]);
    MulAssociates(shape[axis], inner, elementSize);
    MulAssociates(outer, shape[axis] * inner, elementSize);
  }

  /** Byte `b` of the element at a multi-index. */
  function ByteOf(shape: seq<nat>, index: seq<nat>, elementSize: nat, b: nat): nat
    requires |index| == |shape|
  {
    At(Offset(shape, index), elementSize, b)
  }

  /** The number of bytes of one outer block. */
  function AxisSize(shape: seq<nat>, axis: nat, elementSize: nat): nat
    requires axis < |shape|
  {
    shape[axis] * PlaceSize(shape, axis, elementSize)
  }

  /** The byte of an element, found from its outer block, its place on the axis, and what is inside. */
  lemma ByteOnAxis(shape: seq<nat>, index: seq<nat>, axis: nat, elementSize: nat, b: nat)
    requires axis < |shape| && Within(shape, index) && b < elementSize
    ensures var place := PlaceSize(shape, axis, elementSize);
            var outer := Offset(shape[..axis], index[..axis]);
            var inside := ByteOf(shape[axis + 1..], index[axis + 1..], elementSize, b);
            && outer < Product(shape[..axis])
            && inside < place
            && ByteOf(shape, index, elementSize, b) ==
               At(outer, AxisSize(shape, axis, elementSize), At(index[axis], place, inside))
  {
    hide Product, Offset;
    OffsetOnAxis(shape, index, axis);
    OffsetBound(shape[..axis], index[..axis]);
    OffsetBound(shape[axis + 1..], index[axis + 1..]);
    var outer, inner := Offset(shape[..axis], index[..axis]), Product(shape[axis + 1..]);
    var rest := Offset(shape[axis + 1..], index[axis + 1..]);
    InBlock(inner, elementSize, rest, b);
    Distribute((outer * shape[axis] + index[axis]) * inner, rest, elementSize);
    MulAssociates(outer * shape[axis] + index[axis], inner, elementSize);
    Distribute(outer * shape[axis], index[axis], inner * elementSize);
    MulAssociates(outer, shape[axis], inner * elementSize);
  }

  /**
   For a multi-index inside the destination shape: the element is that of the source at the same
   multi-index if it is inside the source shape, and zero otherwise.
   */
  lemma ElementsKept(src: seq<Byte>, srcShape: seq<nat>, dstShape: seq<nat>, axis: nat, elementSize: nat,
                     index: seq<nat>, b: nat)
    requires GrowsOn(srcShape, dstShape, axis) && |src| == Product(srcShape) * elementSize
    requires Within(dstShape, index) && b < elementSize
    ensures var at, dst := ByteOf(dstShape, index, elementSize, b), ExpandedOn(src, srcShape, dstShape, axis, elementSize);
            && at < |dst|
            && (Within(srcShape, index) <==> index[axis] < srcShape[axis])
            && (Within(srcShape, index) ==>
                  && ByteOf(srcShape, index, elementSize, b) < |src|
                  && dst[at] == src[ByteOf(srcShape, index, elementSize, b)])
            && (!Within(srcShape, index) ==> dst[at] == 0)
  {
    hide Product, Offset, Expanded, ExpandedOn, PlaceSize, AxisSize, At, ByteOf;
    assert srcShape[..axis] == dstShape[..axis] && srcShape[axis + 1..] == dstShape[axis + 1..];
    SamePlaces(srcShape, dstShape, axis, elementSize);
    ByteOnAxis(dstShape, index, axis, elementSize, b);
    var outer := Offset(dstShape[..axis], index[..axis]);
    var inside := ByteOf(dstShape[axis + 1..], index[axis + 1..], elementSize, b);
    BytesKept(src, srcShape, dstShape, axis, elementSize, outer, index[axis], inside);
    if index[axis] < srcShape[axis] {
      ByteOnAxis(srcShape, index, axis, elementSize, b);
    }
  }

  lemma SamePlaces(srcShape: seq<nat>, dstShape: seq<nat>, axis: nat, elementSize: nat)
    requires GrowsOn(srcShape, dstShape, axis)
    ensures PlaceSize(srcShape, axis, elementSize) == PlaceSize(dstShape, axis, elementSize)
  {
    assert srcShape[axis + 1..] == dstShape[axis + 1..];
  }

  /** The same for byte `inside` of place `at` of an outer block. */
  lemma BytesKept(src: seq<Byte>, srcShape: seq<nat>, dstShape: seq<nat>, axis: nat, elementSize: nat,
                  outer: nat, at: nat, inside: nat)
    requires GrowsOn(srcShape, dstShape, axis) && |src| == Product(srcShape) * elementSize
    requires outer < Product(srcShape[..axis]) && at < dstShape[axis] && inside < PlaceSize(srcShape, axis, elementSize)
    ensures var t := At(at, PlaceSize(srcShape, axis, elementSize), inside);
            var from, to := At(outer, AxisSize(srcShape, axis, elementSize), t), At(outer, AxisSize(dstShape, axis, elementSize), t);
            var dst := ExpandedOn(src, srcShape, dstShape, axis, elementSize);
            && to < |dst|
            && (at < srcShape[axis] ==> from < |src| && dst[to] == src[from])
            && (at >= srcShape[axis] ==> dst[to] == 0)
  {
    hide Product, Expanded, PlaceSize;
    var place := PlaceSize(srcShape, axis, elementSize);
    SamePlaces(srcShape, dstShape, axis, elementSize);
    SizeOnAxis(srcShape, axis, elementSize);
    Distribute(srcShape[axis], dstShape[axis] - srcShape[axis], place);
    InBlock(dstShape[axis], place, at, inside);
    PlaceInBlock(srcShape[axis], place, at, inside);
    var t := at * place + inside;
    ExpandedAt(src, Product(srcShape[..axis]), srcShape[axis] * place, dstShape[axis] * place, outer, t);
  }

  lemma PlaceInBlock(places: nat, place: nat, at: nat, inside: nat)
    requires inside < place
    ensures at * place + inside < places * place <==> at < places
  {
    if at < places {
      InBlock(places, place, at, inside);
    } else {
      Distribute(places, at - places, place);
    }
  }

  /** Growing an axis twice gives the same tensor as growing it once to the final size. */
  lemma GrowTwice(src: seq<Byte>, small: seq<nat>, middle: seq<nat>, large: seq<nat>, axis: nat, elementSize: nat)
    requires GrowsOn(small, middle, axis) && GrowsOn(middle, large, axis) && |src| == Product(small) * elementSize
    ensures GrowsOn(small, large, axis)
    ensures ExpandedOn(ExpandedOn(src, small, middle, axis, elementSize), middle, large, axis, elementSize)
            == ExpandedOn(src, small, large, axis, elementSize)
  {
    hide Product, Expanded;
    var place := PlaceSize(small, axis, elementSize);
    assert small[..axis] == middle[..axis] == large[..axis];
    assert small[axis + 1..] == middle[axis + 1..] == large[axis + 1..];
    SizeOnAxis(small, axis, elementSize);
    Distribute(small[axis], middle[axis] - small[axis], place);
    Distribute(middle[axis], large[axis] - middle[axis], place);
    ExpandTwice(src, Product(small[..axis]), small[axis] * place, middle[axis] * place, large[axis] * place);
  }

  // ---------------------------------------------------------------------------------------------
  // The copy
  // ---------------------------------------------------------------------------------------------

  method FindExpansionAxis(srcShape: seq<nat>, dstShape: seq<nat>) returns (status: Status, axis: nat)
    requires |srcShape| == |dstShape|
    ensures status == Ok ==> GrowsOn(srcShape, dstShape, axis)
    ensures status != Ok ==> status == Error(InvalidArgument) && forall a :: !GrowsOn(srcShape, dstShape, a)
  {
    axis := |srcShape|;
    for i := 0 to |srcShape|
      invariant axis == |srcShape| || axis < i
      invariant axis < |srcShape| ==> srcShape[axis] < dstShape[axis]
      invariant forall k :: 0 <= k < i && k != axis ==> srcShape[k] == dstShape[k]
    {
      if srcShape[i] != dstShape[i] {
        if axis != |srcShape| {
          return Error(InvalidArgument), axis;
        }
        if dstShape[i] < srcShape[i] {
          return Error(InvalidArgument), axis;
        }
        axis := i;
      }
    }
    if axis == |srcShape| {
      return Error(InvalidArgument), axis;
    }
    status := Ok;
  }

  method Multiply(shape: seq<nat>) returns (p: nat)
    ensures p == Product(shape)
  {
    p := 1;
    assert shape[..0] == [] && Product(shape[..0]) == 1;
    for i := 0 to |shape|
      invariant p == Product(shape[..i])
    {
      ProductSplit(shape[..i + 1], i);
      assert shape[..i + 1][..i] == shape[..i] && shape[..i + 1][i..] == [shape[i]];
      assert Product([shape[i]]) == shape[i] * Product([]);
      p := p * shape[i];
    }
    assert shape[..|shape|] == shape;
  }

  function Overwritten(dst: seq<Byte>, at: nat, bytes: seq<Byte>): seq<Byte>
    requires at + |bytes| <= |dst|
  {
    dst[..at] + bytes + dst[at + |bytes|..]
  }

  method MemCopy(dst: array<Byte>, dstAt: nat, src: array<Byte>, srcAt: nat, n: nat)
    requires dst != src && dstAt + n <= dst.Length && srcAt + n <= src.Length
    modifies dst
    ensures dst[..] == Overwritten(old(dst[..]), dstAt, src[..][srcAt..srcAt + n])
  {
    ghost var before := dst[..];
    for k := 0 to n
      invariant forall j :: 0 <= j < dst.Length ==>
                  dst[j] == if dstAt <= j < dstAt + k then src[srcAt + j - dstAt] else before[j]
    {
      dst[dstAt + k] := src[srcAt + k];
    }
    assert dst[..] == Overwritten(before, dstAt, src[..][srcAt..srcAt + n]);
  }

  method MemClear(dst: array<Byte>)
    modifies dst
    ensures dst[..] == Zeros(dst.Length)
  {
    for k := 0 to dst.Length
      invariant forall i :: 0 <= i < k ==> dst[i] == 0
    {
      dst[k] := 0;
    }
  }

  /** Copies one outer block, place by place, into a destination that is zero from `dstAt` on. */
  method CopyBlock(dst: array<Byte>, dstAt: nat, src: array<Byte>, srcAt: nat, places: nat, placeSize: nat)
    requires dst != src && srcAt + places * placeSize <= src.Length && dstAt + places * placeSize <= dst.Length
    requires dst[dstAt..] == Zeros(dst.Length - dstAt)
    modifies dst
    ensures dst[..] == old(dst[..])[..dstAt] + src[..][srcAt..srcAt + places * placeSize]
                       + Zeros(dst.Length - dstAt - places * placeSize)
  {
    hide Zeros, Overwritten;
    ghost var head, source, total := dst[..][..dstAt], src[..], places * placeSize;
    NoPlaces(dst[..], dstAt, source, srcAt);
    assert dst[dstAt..] == dst[..][dstAt..];
    var copied := 0;
    for j := 0 to places
      invariant copied == j * placeSize && copied <= total && src[..] == source
      invariant dst[..] == head + source[srcAt..srcAt + copied] + Zeros(dst.Length - dstAt - copied)
    {
      BlockFits(places, j, placeSize);
      NextPlace(dst[..], head, source, srcAt, srcAt + copied, placeSize);
      MemCopy(dst, dstAt + copied, src, srcAt + copied, placeSize);
      copied := copied + placeSize;
    }
  }

  lemma NoPlaces(dst: seq<Byte>, at: nat, src: seq<Byte>, srcAt: nat)
    requires at <= |dst| && srcAt <= |src|
    ensures dst == dst[..at] + src[srcAt..srcAt] + dst[at..]
  {
  }

  lemma NextPlace(before: seq<Byte>, head: seq<Byte>, src: seq<Byte>, srcAt: nat, from: nat, n: nat)
    requires srcAt <= from && from + n <= |src| && |head| + (from - srcAt) + n <= |before|
    requires before == head + src[srcAt..from] + Zeros(|before| - |head| - (from - srcAt))
    ensures var to := |head| + (from - srcAt);
            Overwritten(before, to, src[from..from + n]) ==
            head + src[srcAt..from + n] + Zeros(|before| - to - n)
  {
    var to := |head| + (from - srcAt);
    assert before[..to] == head + src[srcAt..from];
    assert src[srcAt..from] + src[from..from + n] == src[srcAt..from + n];
    assert before[to + n..] == Zeros(|before| - to - n);
  }

  method ExpandBuffer(src: array<Byte>, srcShape: seq<nat>, dst: array<Byte>, dstShape: seq<nat>, elementSize: nat)
    returns (status: Status, ghost axis: nat)
    requires src != dst
    requires src.Length == Product(srcShape) * elementSize && dst.Length == Product(dstShape) * elementSize
    modifies dst
    ensures |srcShape| != |dstShape| <==> status == Error(Internal)
    ensures status == Error(InvalidArgument) <==> |srcShape| == |dstShape| && forall a :: !GrowsOn(srcShape, dstShape, a)
    ensures status == Ok ==> GrowsOn(srcShape, dstShape, axis)
    ensures status == Ok ==> dst[..] == ExpandedOn(src[..], srcShape, dstShape, axis, elementSize)
    ensures status != Ok ==> status in {Error(Internal), Error(InvalidArgument)} && dst[..] == old(dst[..])
  {
    axis := 0;
    if |srcShape| != |dstShape| {
      return Error(Internal), axis;
    }
    var expansionAxis;
    status, expansionAxis := FindExpansionAxis(srcShape, dstShape);
    if status != Ok {
      return;
    }
    axis := expansionAxis;
    MemClear(dst);
    ExpansionSizes(srcShape, dstShape, axis, elementSize);
    var inner := Multiply(srcShape[expansionAxis + 1..]);
    var outer := Multiply(srcShape[..expansionAxis]);
    var place := inner * elementSize;
    CopyBlocks(dst, src, outer, srcShape[expansionAxis], dstShape[expansionAxis], place);
  }

  lemma ExpansionSizes(srcShape: seq<nat>, dstShape: seq<nat>, axis: nat, elementSize: nat)
    requires GrowsOn(srcShape, dstShape, axis)
    ensures var outer, place := Product(srcShape[..axis]), Product(srcShape[axis + 1..]) * elementSize;
            && Product(srcShape) * elementSize == outer * (srcShape[axis] * place)
            && Product(dstShape) * elementSize == outer * (dstShape[axis] * place)
  {
    hide Product;
    SizeOnAxis(srcShape, axis, elementSize);
    SizeOnAxis(dstShape, axis, elementSize);
    assert srcShape[..axis] == dstShape[..axis] && srcShape[axis + 1..] == dstShape[axis + 1..];
  }

  /** The copying loops. */
  method CopyBlocks(dst: array<Byte>, src: array<Byte>, outer: nat, srcPlaces: nat, dstPlaces: nat, place: nat)
    requires dst != src && srcPlaces <= dstPlaces
    requires src.Length == outer * (srcPlaces * place) && dst.Length == outer * (dstPlaces * place)
    requires dst[..] == Zeros(dst.Length)
    modifies dst
    ensures srcPlaces * place <= dstPlaces * place
    ensures dst[..] == Expanded(src[..], outer, srcPlaces * place, dstPlaces * place)
  {
    hide Expanded, Zeros, CopiedBlocks;
    Distribute(srcPlaces, dstPlaces - srcPlaces, place);
    ghost var source, small, large := src[..], srcPlaces * place, dstPlaces * place;
    var srcAt, dstAt := 0, 0;
    NothingCopied(dst[..], source, outer, small, large);
    for i := 0 to outer
      invariant src[..] == source && srcAt == i * small && dstAt == i * large
      invariant CopiedBlocks(dst[..], source, i, outer, small, large)
    {
      BlockFits(outer, i, small);
      BlockFits(outer, i, large);
      ghost var before := dst[..];
      RestIsZero(before, source, i, outer, small, large);
      assert dst[dstAt..] == dst[..][dstAt..];
      CopyBlock(dst, dstAt, src, srcAt, srcPlaces, place);
      NextCopied(before, source, i, outer, small, large);
      srcAt, dstAt := srcAt + srcPlaces * place, dstAt + dstPlaces * place;
    }
    AllCopied(dst[..], source, outer, small, large);
  }

  /** The first `i` of `n` blocks have been copied, and the rest of the destination is zero. */
  ghost predicate CopiedBlocks(dst: seq<Byte>, src: seq<Byte>, i: nat, n: nat, small: nat, large: nat) {
    && small <= large && |src| == n * small && |dst| == n * large && i <= n
    && i * small <= |src| && i * large <= |dst|
    && dst == Expanded(src[..i * small], i, small, large) + Zeros(|dst| - i * large)
  }

  lemma NothingCopied(dst: seq<Byte>, src: seq<Byte>, n: nat, small: nat, large: nat)
    requires small <= large && |src| == n * small && |dst| == n * large && dst == Zeros(|dst|)
    ensures CopiedBlocks(dst, src, 0, n, small, large)
  {
    NoBlocks(src[..0], small, large);
    assert src[..0 * small] == src[..0];
    assert [] + dst == dst;
  }

  lemma RestIsZero(dst: seq<Byte>, src: seq<Byte>, i: nat, n: nat, small: nat, large: nat)
    requires CopiedBlocks(dst, src, i, n, small, large)
    ensures i * large <= |dst| && dst[..i * large] == Expanded(src[..i * small], i, small, large)
    ensures dst[i * large..] == Zeros(|dst| - i * large)
  {
    hide Expanded, Zeros;
  }

  lemma NextCopied(before: seq<Byte>, src: seq<Byte>, i: nat, n: nat, small: nat, large: nat)
    requires CopiedBlocks(before, src, i, n, small, large) && i < n
    ensures i * large + small <= |before| && i * small + small <= |src|
    ensures CopiedBlocks(before[..i * large] + src[i * small..i * small + small] + Zeros(|before| - i * large - small),
                         src, i + 1, n, small, large)
  {
    hide Expanded, Zeros;
    BlockFits(n, i, small);
    BlockFits(n, i, large);
    RestIsZero(before, src, i, n, small, large);
    NextBlock(src, i, small, large);
    AppendZeros(before[..i * large] + src[i * small..i * small + small], |before| - i * large - small, large - small);
  }

  lemma AllCopied(dst: seq<Byte>, src: seq<Byte>, n: nat, small: nat, large: nat)
    requires CopiedBlocks(dst, src, n, n, small, large)
    ensures dst == Expanded(src, n, small, large)
  {
    hide Expanded;
    assert src[..n * small] == src;
    assert Zeros(0) == [];
  }

  lemma NoBlocks(src: seq<Byte>, small: nat, large: nat)
    requires small <= large && src == []
    ensures Expanded(src, 0, small, large) == []
  {
  }

  lemma AppendZeros(head: seq<Byte>, n: nat, k: nat)
    requires k <= n
    ensures head + Zeros(n) == head + Zeros(k) + Zeros(n - k)
  {
  }

  lemma NextBlock(src: seq<Byte>, i: nat, small: nat, large: nat)
    requires small <= large && (i + 1) * small <= |src|
    ensures i * small + small == (i + 1) * small
    ensures Expanded(src[..(i + 1) * small], i + 1, small, large) ==
            Expanded(src[..i * small], i, small, large) + src[i * small..(i + 1) * small] + Zeros(large - small)
  {
    Distribute(i, 1, small);
    var head := src[..(i + 1) * small];
    assert head[..i * small] == src[..i * small] && head[i * small..] == src[i * small..(i + 1) * small];
  }
}
