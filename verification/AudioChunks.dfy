/**
 Encoding audio in chunks (`AudioLiteRtCompiledModelExecutor::Create` and `Encode` in
 runtime/executor/audio_litert_compiled_model_executor.cc).

 A chunk of spectrogram frames shrinks by a factor, and its embeddings are written to a slice of the
 output. The lemmas say when the slices of successive chunks tile the output.
 */
module AudioChunks {
  import opened Wrappers
  import opened Arithmetic

  function CeilIntDiv(a: nat, b: nat): nat
    requires b > 0
  {
    (a + b - 1) / b
  }

  // ---------------------------------------------------------------------------------------------
  // Ceilings
  // ---------------------------------------------------------------------------------------------

  /** The quotient rounded up is the least number of blocks of `b` that cover `a`. */
  lemma CeilBounds(a: nat, b: nat)
    requires b > 0
    ensures CeilIntDiv(a, b) * b >= a
    ensures a > 0 ==> (CeilIntDiv(a, b) - 1) * b < a
    ensures a == 0 ==> CeilIntDiv(a, b) == 0
  {
  }

  lemma LessByFactor(x: int, y: int, b: int)
    requires b > 0 && x * b < y * b
    ensures x < y
  {
    assert (y - x) * b > 0;
  }

  /** It is the only such number. */
  lemma CeilUnique(a: nat, b: nat, q: nat)
    requires b > 0 && q * b >= a && (q - 1) * b < a
    ensures CeilIntDiv(a, b) == q
  {
    CeilBounds(a, b);
    if a > 0 {
      var c := CeilIntDiv(a, b);
      LessByFactor(c - 1, q, b);
      LessByFactor(q - 1, c, b);
    } else {
      LessByFactor(q - 1, 0, b);
    }
  }

  lemma CeilAtMost(a: nat, b: nat)
    requires b > 0
    ensures CeilIntDiv(a, b) <= a
  {
    if a > 0 {
      CeilBounds(a, b);
      FactorGrows(a, b);
      LessByFactor(CeilIntDiv(a, b) - 1, a, b);
    }
  }

  lemma FactorGrows(a: nat, b: nat)
    requires b > 0
    ensures a <= a * b
  {
  }

  lemma CeilOfMultiple(q: nat, b: nat)
    requires b > 0
    ensures CeilIntDiv(q * b, b) == q
  {
    CeilUnique(q * b, b, q);
  }

  /** A slice that starts at a multiple of the factor ends where the next one starts. */
  lemma CeilFromMultiple(q: nat, b: nat, more: nat)
    requires b > 0
    ensures CeilIntDiv(q * b + more, b) == q + CeilIntDiv(more, b)
  {
    CeilBounds(more, b);
    var c := CeilIntDiv(more, b);
    assert (q + c) * b == q * b + c * b;
    assert (q + c - 1) * b == q * b + (c - 1) * b;
    if more == 0 {
      CeilOfMultiple(q, b);
    } else {
      CeilUnique(q * b + more, b, q + c);
    }
  }

  // ---------------------------------------------------------------------------------------------
  // Slices
  // ---------------------------------------------------------------------------------------------

  /** The factor of a static encoder: the lengths must divide. */
  function StaticShrinkingFactor(sequenceLength: nat, outputLength: nat): (r: Result<nat>)
    requires outputLength > 0
    ensures r.Success? <==> sequenceLength % outputLength == 0
    ensures r.Success? ==> r.value * outputLength == sequenceLength
  {
    if sequenceLength % outputLength != 0 then Failure(InvalidArgument) else Success(sequenceLength / outputLength)
  }

  function ChunkEnd(pos: nat, n: nat, sequenceLength: nat): nat {
    if pos + sequenceLength < n then pos + sequenceLength else n
  }

  function SliceStart(pos: nat, factor: nat): nat
    requires factor > 0
  {
    CeilIntDiv(pos, factor)
  }

  function SliceLength(pos: nat, end: nat, factor: nat): nat
    requires factor > 0 && pos <= end
  {
    CeilIntDiv(end - pos, factor)
  }

  /** Whatever the factor, every slice lies inside the output of `n` embeddings. */
  lemma SliceInRange(pos: nat, end: nat, factor: nat, n: nat)
    requires factor > 0 && pos <= end <= n
    ensures SliceStart(pos, factor) + SliceLength(pos, end, factor) <= n
  {
    CeilAtMost(pos, factor);
    CeilAtMost(end - pos, factor);
  }

  /** Every chunk's slice ends where the next chunk's slice starts, for inputs of any length. */
  ghost predicate Tiles(sequenceLength: nat, factor: nat)
    requires factor > 0
  {
    forall k: nat, n: nat :: k * sequenceLength < n ==> TilesAt(k * sequenceLength, n, sequenceLength, factor)
  }

  ghost predicate TilesAt(pos: nat, n: nat, sequenceLength: nat, factor: nat)
    requires factor > 0
  {
    var end := ChunkEnd(pos, n, sequenceLength);
    pos <= end ==> SliceStart(pos, factor) + SliceLength(pos, end, factor) == SliceStart(end, factor)
  }

  lemma TilesIfDivides(pos: nat, n: nat, q: nat, factor: nat, k: nat)
    requires factor > 0 && pos == k * (q * factor) && pos <= n
    ensures TilesAt(pos, n, q * factor, factor)
  {
    var end := ChunkEnd(pos, n, q * factor);
    MulAssociates(k, q, factor);
    CeilOfMultiple(k * q, factor);
    CeilFromMultiple(k * q, factor, end - pos);
  }

  /** If the slices always tile, `k` whole chunks shrink to `k` whole slices. */
  lemma {:induction false} WholeChunks(sequenceLength: nat, factor: nat, k: nat)
    requires factor > 0 && sequenceLength > 0 && Tiles(sequenceLength, factor)
    ensures CeilIntDiv(k * sequenceLength, factor) == k * CeilIntDiv(sequenceLength, factor)
  {
    if k > 0 {
      var before := (k - 1) * sequenceLength;
      WholeChunks(sequenceLength, factor, k - 1);
      assert k * sequenceLength == before + sequenceLength;
      assert TilesAt(before, k * sequenceLength, sequenceLength, factor);
      assert k * CeilIntDiv(sequenceLength, factor) == (k - 1) * CeilIntDiv(sequenceLength, factor) + CeilIntDiv(sequenceLength, factor);
    }
  }

  /** The slices of successive chunks always tile if and only if the factor divides the chunk length. */
  lemma TilesExactlyWhenDivides(sequenceLength: nat, factor: nat)
    requires factor > 0 && sequenceLength > 0
    ensures Tiles(sequenceLength, factor) <==> sequenceLength % factor == 0
  {
    if sequenceLength % factor == 0 {
      var q := sequenceLength / factor;
      assert sequenceLength == q * factor;
      forall k: nat, n: nat | k * sequenceLength < n ensures TilesAt(k * sequenceLength, n, sequenceLength, factor) {
        TilesIfDivides(k * sequenceLength, n, q, factor, k);
      }
    }
    if Tiles(sequenceLength, factor) {
      WholeChunks(sequenceLength, factor, factor);
      CeilOfMultiple(sequenceLength, factor);
      var q := CeilIntDiv(sequenceLength, factor);
      assert factor * sequenceLength == sequenceLength * factor;
      assert sequenceLength == factor * q;
      MultipleHasNoRest(q, factor);
    }
  }

  lemma MultipleHasNoRest(q: nat, b: nat)
    requires b > 0
    ensures (b * q) % b == 0
  {
    var a := b * q;
    DivMod(a, b);
    LessByFactor(a / b, q + 1, b);
    LessByFactor(q, a / b + 1, b);
  }

  lemma DivMod(a: nat, b: nat)
    requires b > 0
    ensures a == (a / b) * b + a % b && 0 <= a % b < b
    ensures (a / b + 1) * b == (a / b) * b + b
  {
  }

  /** The check made when the executor is created is enough for a static encoder. */
  lemma StaticEncoderTiles(sequenceLength: nat, outputLength: nat)
    requires sequenceLength > 0 && outputLength > 0
    requires StaticShrinkingFactor(sequenceLength, outputLength).Success?
    ensures var factor := StaticShrinkingFactor(sequenceLength, outputLength).value;
            && factor > 0 && sequenceLength % factor == 0 && Tiles(sequenceLength, factor)
            && CeilIntDiv(sequenceLength, factor) == outputLength
  {
    var factor := sequenceLength / outputLength;
    assert sequenceLength == outputLength * factor;
    MultipleHasNoRest(outputLength, factor);
    assert sequenceLength == factor * outputLength;
    TilesExactlyWhenDivides(sequenceLength, factor);
    CeilOfMultiple(outputLength, factor);
  }

  /** C++ division. */
  function Truncated(a: int, b: nat): (q: int)
    requires b > 0
    ensures a >= 0 ==> q >= 0 && q * b <= a < q * b + b
    ensures a <= 0 ==> q <= 0 && q * b - b < a <= q * b
  {
    if a >= 0 then a / b else -((-a) / b)
  }

  /** The factor of a streaming encoder, whose chunks overlap. */
  function StreamingShrinkingFactor(sequenceLength: nat, overlap: nat, outputLength: nat): (r: Result<int>)
    requires outputLength > 0
    ensures r.Success? <==> sequenceLength % outputLength == 0
  {
    if sequenceLength % outputLength != 0 then Failure(InvalidArgument)
    else Success(Truncated(sequenceLength - overlap, outputLength))
  }

  /** The overlap lowers the factor below the static one by as many steps as it takes to cover it. */
  lemma StreamingFactorIsLower(sequenceLength: nat, overlap: nat, outputLength: nat)
    requires outputLength > 0 && overlap <= sequenceLength && sequenceLength % outputLength == 0
    ensures StreamingShrinkingFactor(sequenceLength, overlap, outputLength).value
            == sequenceLength / outputLength - CeilIntDiv(overlap, outputLength)
  {
    hide CeilIntDiv, StreamingShrinkingFactor;
    StreamingFactorIs(sequenceLength, overlap, outputLength);
    Divides(sequenceLength, outputLength);
    DivMod(sequenceLength - overlap, outputLength);
    CeilOfDifference(sequenceLength / outputLength, (sequenceLength - overlap) / outputLength, outputLength, overlap,
                     (sequenceLength - overlap) % outputLength);
  }

  lemma StreamingFactorIs(sequenceLength: nat, overlap: nat, outputLength: nat)
    requires outputLength > 0 && overlap <= sequenceLength && sequenceLength % outputLength == 0
    ensures StreamingShrinkingFactor(sequenceLength, overlap, outputLength)
            == Success((sequenceLength - overlap) / outputLength)
  {
  }

  lemma Divides(a: nat, b: nat)
    requires b > 0 && a % b == 0
    ensures (a / b) * b == a
  {
    DivMod(a, b);
  }

  lemma CeilOfDifference(q: nat, f: nat, b: nat, overlap: nat, rest: nat)
    requires rest < b && q * b == f * b + rest + overlap
    ensures q - f == CeilIntDiv(overlap, b)
  {
    hide CeilIntDiv;
    LessByFactor(f, q + 1, b) by {
      Distribute(q, 1, b);
    }
    Distribute(q - f, f, b);
    CeilUnique(overlap, b, q - f);
  }

  /** The check in `Create` lets a factor of zero or less pass, by which `Encode` would divide. */
  lemma StreamingFactorPositive(sequenceLength: nat, overlap: nat, outputLength: nat)
    requires outputLength > 0
    requires StreamingShrinkingFactor(sequenceLength, overlap, outputLength).Success?
    ensures StreamingShrinkingFactor(sequenceLength, overlap, outputLength).value > 0 <==>
              overlap + outputLength <= sequenceLength
  {
    if overlap <= sequenceLength {
      PositiveQuotient(sequenceLength - overlap, outputLength);
    } else {
      PositiveQuotient(overlap - sequenceLength, outputLength);
    }
  }

  lemma PositiveQuotient(a: nat, b: nat)
    requires b > 0
    ensures a / b >= 0 && (a / b > 0 <==> a >= b)
  {
    if a < b {
      assert a / b == 0;
    } else {
      DivMod(a, b);
    }
  }

  /** A streaming encoder that passes the check, with a factor that can be used. */
  predicate StreamingEncoder(sequenceLength: nat, overlap: nat, outputLength: nat, factor: nat) {
    && outputLength > 0 && factor > 0
    && StreamingShrinkingFactor(sequenceLength, overlap, outputLength) == Success(factor)
  }

  /** The factor times the embeddings of a chunk is the part of the chunk that does not overlap, rounded down. */
  lemma FactorCovers(sequenceLength: nat, overlap: nat, outputLength: nat, factor: nat)
    requires StreamingEncoder(sequenceLength, overlap, outputLength, factor)
    ensures sequenceLength % outputLength == 0 && overlap + outputLength * factor <= sequenceLength
    ensures overlap == 0 ==> outputLength * factor == sequenceLength
    ensures overlap > 0 ==> outputLength * factor < sequenceLength
  {
    StreamingFactorPositive(sequenceLength, overlap, outputLength);
    StreamingFactorIs(sequenceLength, overlap, outputLength);
    DivMod(sequenceLength - overlap, outputLength);
    Divides(sequenceLength, outputLength);
  }

  lemma CeilMonotone(a: nat, a': nat, b: nat)
    requires b > 0 && a <= a'
    ensures CeilIntDiv(a, b) <= CeilIntDiv(a', b)
  {
    hide CeilIntDiv;
    CeilBounds(a, b);
    CeilBounds(a', b);
    if a > 0 {
      LessByFactor(CeilIntDiv(a, b) - 1, CeilIntDiv(a', b), b);
    }
  }

  /** Its chunks are never written over one another: what a chunk can produce ends before the next slice. */
  lemma StreamingNeverOverwrites(sequenceLength: nat, overlap: nat, outputLength: nat, factor: nat, k: nat)
    requires StreamingEncoder(sequenceLength, overlap, outputLength, factor)
    ensures SliceStart(k * sequenceLength, factor) + outputLength <= SliceStart((k + 1) * sequenceLength, factor)
  {
    hide CeilIntDiv;
    FactorCovers(sequenceLength, overlap, outputLength, factor);
    Distribute(k, 1, sequenceLength);
    CeilFromMultiple(outputLength, factor, k * sequenceLength);
    CeilMonotone(outputLength * factor + k * sequenceLength, (k + 1) * sequenceLength, factor);
  }

  /** The slice of chunk `k` begins where `k` chunks of `outputLength` embeddings end. */
  predicate NoGapBefore(sequenceLength: nat, outputLength: nat, factor: nat, k: nat)
    requires factor > 0
  {
    SliceStart(k * sequenceLength, factor) == k * outputLength
  }

  /** But there is a gap after the first chunk, and so the slices leave no gaps if and only if there is no overlap. */
  lemma StreamingGapsExactly(sequenceLength: nat, overlap: nat, outputLength: nat, factor: nat)
    requires StreamingEncoder(sequenceLength, overlap, outputLength, factor)
    ensures overlap > 0 ==> outputLength < SliceStart(sequenceLength, factor)
    ensures (forall k: nat :: NoGapBefore(sequenceLength, outputLength, factor, k)) <==> overlap == 0
  {
    hide CeilIntDiv;
    FactorCovers(sequenceLength, overlap, outputLength, factor);
    CeilBounds(sequenceLength, factor);
    if overlap == 0 {
      forall k: nat ensures NoGapBefore(sequenceLength, outputLength, factor, k) {
        MulAssociates(k, outputLength, factor);
        CeilOfMultiple(k * outputLength, factor);
      }
    } else {
      LessByFactor(outputLength, CeilIntDiv(sequenceLength, factor), factor);
      assert !NoGapBefore(sequenceLength, outputLength, factor, 1);
    }
  }

  // ---------------------------------------------------------------------------------------------
  // The encoding loop
  // ---------------------------------------------------------------------------------------------

  /** What the encoder and the adapter write for the frames from `pos` to `end`: whole embeddings. */
  type Encoder = (nat, nat) -> seq<seq<real>>

  /** The embeddings of chunk `k`. */
  function Chunk(encode: Encoder, k: nat, n: nat, sequenceLength: nat): seq<seq<real>> {
    encode(k * sequenceLength, ChunkEnd(k * sequenceLength, n, sequenceLength))
  }

  /** What is written of chunk `k` stays inside the output. */
  predicate FitsAt(encode: Encoder, k: nat, n: nat, sequenceLength: nat, factor: nat)
    requires factor > 0
  {
    SliceStart(k * sequenceLength, factor) + |Chunk(encode, k, n, sequenceLength)| <= n
  }

  /** Nothing is written past the output. A chunk may run over its slice. */
  ghost predicate FitsOutput(encode: Encoder, n: nat, sequenceLength: nat, factor: nat)
    requires factor > 0
  {
    forall k: nat :: k * sequenceLength < n ==> FitsAt(encode, k, n, sequenceLength, factor)
  }

  function Overwrite(s: seq<seq<real>>, at: nat, part: seq<seq<real>>): (r: seq<seq<real>>)
    requires at + |part| <= |s|
    ensures |r| == |s|
  {
    s[..at] + part + s[at + |part|..]
  }

  /** The output after the chunks from `k` on are written where their slices begin, one after the other. */
  function Layout(encode: Encoder, output: seq<seq<real>>, k: nat, n: nat, sequenceLength: nat, factor: nat): (r: seq<seq<real>>)
    requires sequenceLength > 0 && factor > 0 && FitsOutput(encode, n, sequenceLength, factor) && |output| == n
    ensures |r| == n
    decreases n - k * sequenceLength
  {
    if k * sequenceLength >= n then output
    else
      assert FitsAt(encode, k, n, sequenceLength, factor);
      Distribute(k, 1, sequenceLength);
      Layout(encode, Overwrite(output, SliceStart(k * sequenceLength, factor), Chunk(encode, k, n, sequenceLength)),
             k + 1, n, sequenceLength, factor)
  }

  /** The embeddings of the chunks from `k` on, one after the other. */
  function Concatenated(encode: Encoder, k: nat, n: nat, sequenceLength: nat): seq<seq<real>>
    requires sequenceLength > 0
    decreases n - k * sequenceLength
  {
    if k * sequenceLength >= n then []
    else
      Distribute(k, 1, sequenceLength);
      Chunk(encode, k, n, sequenceLength) + Concatenated(encode, k + 1, n, sequenceLength)
  }

  /** Encoding two adjacent ranges of frames gives what encoding them at once gives. */
  ghost predicate Additive(encode: Encoder, n: nat) {
    forall a, b, c :: 0 <= a <= b <= c <= n ==> encode(a, b) + encode(b, c) == encode(a, c)
  }

  /** For such an encoder the chunks from `k` on are the encoding of all frames from there to the end. */
  lemma {:induction false} ConcatenatedIsWhole(encode: Encoder, k: nat, n: nat, sequenceLength: nat)
    requires sequenceLength > 0 && k * sequenceLength <= n && Additive(encode, n)
    ensures Concatenated(encode, k, n, sequenceLength) == encode(k * sequenceLength, n)
    decreases n - k * sequenceLength
  {
    var pos := k * sequenceLength;
    if pos == n {
      NothingEncoded(encode, n);
    } else {
      Distribute(k, 1, sequenceLength);
      if pos + sequenceLength <= n {
        ConcatenatedIsWhole(encode, k + 1, n, sequenceLength);
      }
    }
  }

  lemma NothingEncoded(encode: Encoder, n: nat)
    requires Additive(encode, n)
    ensures encode(n, n) == []
  {
    assert |encode(n, n) + encode(n, n)| == |encode(n, n)|;
  }

  /** Chunk `k` fills its slice. */
  predicate FillsSlice(encode: Encoder, k: nat, n: nat, sequenceLength: nat, factor: nat)
    requires factor > 0
  {
    var pos := k * sequenceLength;
    pos <= n ==> |Chunk(encode, k, n, sequenceLength)| == SliceLength(pos, ChunkEnd(pos, n, sequenceLength), factor)
  }

  /** Every chunk but the last fills its slice. */
  ghost predicate FillsSlices(encode: Encoder, n: nat, sequenceLength: nat, factor: nat)
    requires factor > 0
  {
    forall k: nat :: (k + 1) * sequenceLength < n ==> FillsSlice(encode, k, n, sequenceLength, factor)
  }

  /** When the slices tile and are filled, writing the remaining chunks appends their embeddings. */
  lemma {:induction false} LayoutConcatenates(encode: Encoder, output: seq<seq<real>>, k: nat, n: nat, sequenceLength: nat,
                                              factor: nat, done: seq<seq<real>>)
    requires sequenceLength > 0 && factor > 0 && FitsOutput(encode, n, sequenceLength, factor) && |output| == n
    requires Tiles(sequenceLength, factor) && FillsSlices(encode, n, sequenceLength, factor)
    requires k * sequenceLength < n && |done| == SliceStart(k * sequenceLength, factor) <= n && output[..|done|] == done
    ensures var all := done + Concatenated(encode, k, n, sequenceLength);
            |all| <= n && Layout(encode, output, k, n, sequenceLength, factor)[..|all|] == all
    decreases n - k * sequenceLength
  {
    hide Tiles, FillsSlices, Chunk, FitsOutput, Layout, Concatenated, SliceStart;
    var chunk := Chunk(encode, k, n, sequenceLength);
    NextChunk(encode, output, k, n, sequenceLength, factor);
    var written := Overwrite(output, |done|, chunk);
    OverwriteNext(output, done, chunk);
    if (k + 1) * sequenceLength < n {
      Distribute(k, 1, sequenceLength);
      TilesHere(encode, k, n, sequenceLength, factor);
      LayoutConcatenates(encode, written, k + 1, n, sequenceLength, factor, done + chunk);
      Reassociate(done, chunk, Concatenated(encode, k + 1, n, sequenceLength));
    } else {
      NoMoreChunks(encode, written, k + 1, n, sequenceLength, factor);
      assert chunk + [] == chunk;
    }
  }

  lemma NextChunk(encode: Encoder, output: seq<seq<real>>, k: nat, n: nat, sequenceLength: nat, factor: nat)
    requires sequenceLength > 0 && factor > 0 && FitsOutput(encode, n, sequenceLength, factor) && |output| == n
    requires k * sequenceLength < n
    ensures var start, chunk := SliceStart(k * sequenceLength, factor), Chunk(encode, k, n, sequenceLength);
            && start + |chunk| <= n
            && Concatenated(encode, k, n, sequenceLength) == chunk + Concatenated(encode, k + 1, n, sequenceLength)
            && Layout(encode, output, k, n, sequenceLength, factor)
               == Layout(encode, Overwrite(output, start, chunk), k + 1, n, sequenceLength, factor)
  {
    assert FitsAt(encode, k, n, sequenceLength, factor);
  }

  lemma OverwriteNext(output: seq<seq<real>>, done: seq<seq<real>>, chunk: seq<seq<real>>)
    requires |done| + |chunk| <= |output| && output[..|done|] == done
    ensures Overwrite(output, |done|, chunk)[..|done| + |chunk|] == done + chunk
  {
  }

  lemma Reassociate(a: seq<seq<real>>, b: seq<seq<real>>, c: seq<seq<real>>)
    ensures a + b + c == a + (b + c)
  {
  }

  lemma NoMoreChunks(encode: Encoder, output: seq<seq<real>>, k: nat, n: nat, sequenceLength: nat, factor: nat)
    requires sequenceLength > 0 && factor > 0 && FitsOutput(encode, n, sequenceLength, factor) && |output| == n
    requires k * sequenceLength >= n
    ensures Layout(encode, output, k, n, sequenceLength, factor) == output && Concatenated(encode, k, n, sequenceLength) == []
  {
  }

  /** A filled slice that is not the last ends where the next one begins. */
  lemma TilesHere(encode: Encoder, k: nat, n: nat, sequenceLength: nat, factor: nat)
    requires sequenceLength > 0 && factor > 0 && Tiles(sequenceLength, factor) && FillsSlices(encode, n, sequenceLength, factor)
    requires (k + 1) * sequenceLength < n
    ensures SliceStart(k * sequenceLength, factor) + |Chunk(encode, k, n, sequenceLength)|
            == SliceStart((k + 1) * sequenceLength, factor)
  {
    hide Chunk;
    Distribute(k, 1, sequenceLength);
    assert TilesAt(k * sequenceLength, n, sequenceLength, factor);
    assert FillsSlice(encode, k, n, sequenceLength, factor);
  }

  // --- the methods ---

  /** The last non-zero entry of a mask, counted from one. */
  method GetValidCount(mask: seq<bv8>) returns (n: nat)
    ensures n <= |mask|
    ensures n > 0 ==> mask[n - 1] != 0
    ensures forall i :: n <= i < |mask| ==> mask[i] == 0
  {
    n := |mask|;
    while n > 0
      invariant n <= |mask| && forall i :: n <= i < |mask| ==> mask[i] == 0
    {
      if mask[n - 1] != 0 {
        return;
      }
      n := n - 1;
    }
  }

  method Write(output: array<seq<real>>, at: nat, part: seq<seq<real>>)
    requires at + |part| <= output.Length
    modifies output
    ensures output[..] == Overwrite(old(output[..]), at, part)
  {
    ghost var before := output[..];
    for i := 0 to |part|
      invariant forall j :: 0 <= j < output.Length ==>
                  output[j] == if at <= j < at + i then part[j - at] else before[j]
    {
      output[at + i] := part[i];
    }
    assert output[..] == Overwrite(before, at, part);
  }

  method Encode(encode: Encoder, n: nat, sequenceLength: nat, factor: nat, zero: seq<real>)
    returns (embeddings: seq<seq<real>>, validTokens: nat)
    requires sequenceLength > 0 && factor > 0 && FitsOutput(encode, n, sequenceLength, factor)
    ensures validTokens == |Concatenated(encode, 0, n, sequenceLength)|
    ensures var layout := Layout(encode, seq(n, _ => zero), 0, n, sequenceLength, factor);
            embeddings == if validTokens <= n then layout[..validTokens] else layout
    ensures sequenceLength % factor == 0 && FillsSlices(encode, n, sequenceLength, factor) ==>
              embeddings == Concatenated(encode, 0, n, sequenceLength)
    ensures Additive(encode, n) ==> validTokens == |encode(0, n)|
    ensures Additive(encode, n) && sequenceLength % factor == 0
            && (forall k: nat | (k + 1) * sequenceLength < n ::
                  |encode(k * sequenceLength, (k + 1) * sequenceLength)| == CeilIntDiv(sequenceLength, factor)) ==>
              embeddings == encode(0, n)
  {
    hide Additive, FillsSlices;
    var output := new seq<real>[n](_ => zero);
    var pos := 0;
    validTokens := 0;
    ghost var k := 0;
    assert output[..] == seq(n, _ => zero);
    while pos < n
      invariant pos == if k * sequenceLength <= n then k * sequenceLength else n
      invariant validTokens + |Concatenated(encode, k, n, sequenceLength)| == |Concatenated(encode, 0, n, sequenceLength)|
      invariant Layout(encode, output[..], k, n, sequenceLength, factor)
             == Layout(encode, seq(n, _ => zero), 0, n, sequenceLength, factor)
      decreases n - pos
    {
      var end := ChunkEnd(pos, n, sequenceLength);
      var chunk := encode(pos, end);
      Distribute(k, 1, sequenceLength);
      assert FitsAt(encode, k, n, sequenceLength, factor) && chunk == Chunk(encode, k, n, sequenceLength);
      Write(output, SliceStart(pos, factor), chunk);
      validTokens := validTokens + |chunk|;
      pos, k := end, k + 1;
    }
    NoMoreChunks(encode, output[..], k, n, sequenceLength, factor);
    embeddings := if validTokens <= n then output[..validTokens] else output[..];
    EncodingIsWhole(encode, n, sequenceLength, factor, zero);
  }

  /** What the layout and the chunks are when the slices are filled, and for encoders whose ranges can be joined. */
  lemma EncodingIsWhole(encode: Encoder, n: nat, sequenceLength: nat, factor: nat, zero: seq<real>)
    requires sequenceLength > 0 && factor > 0 && FitsOutput(encode, n, sequenceLength, factor)
    ensures var all := Concatenated(encode, 0, n, sequenceLength);
            && (sequenceLength % factor == 0 && FillsSlices(encode, n, sequenceLength, factor) ==>
                  |all| <= n && Layout(encode, seq(n, _ => zero), 0, n, sequenceLength, factor)[..|all|] == all)
            && (Additive(encode, n) ==> all == encode(0, n))
    ensures (forall k: nat | (k + 1) * sequenceLength < n ::
               |encode(k * sequenceLength, (k + 1) * sequenceLength)| == CeilIntDiv(sequenceLength, factor)) ==>
              FillsSlices(encode, n, sequenceLength, factor)
  {
    hide CeilIntDiv, Additive, FillsSlices, Layout, Concatenated, FitsOutput;
    if sequenceLength % factor == 0 && FillsSlices(encode, n, sequenceLength, factor) {
      WholeLayout(encode, seq(n, _ => zero), n, sequenceLength, factor);
    }
    if Additive(encode, n) {
      ConcatenatedIsWhole(encode, 0, n, sequenceLength);
    }
    if forall k: nat | (k + 1) * sequenceLength < n ::
         |encode(k * sequenceLength, (k + 1) * sequenceLength)| == CeilIntDiv(sequenceLength, factor)
    {
      FullSlices(encode, n, sequenceLength, factor);
    }
  }

  lemma FullSlices(encode: Encoder, n: nat, sequenceLength: nat, factor: nat)
    requires factor > 0
    requires forall k: nat | (k + 1) * sequenceLength < n ::
               |encode(k * sequenceLength, (k + 1) * sequenceLength)| == CeilIntDiv(sequenceLength, factor)
    ensures FillsSlices(encode, n, sequenceLength, factor)
  {
    hide CeilIntDiv;
    forall k: nat | (k + 1) * sequenceLength < n ensures FillsSlice(encode, k, n, sequenceLength, factor) {
      Distribute(k, 1, sequenceLength);
    }
  }

  lemma WholeLayout(encode: Encoder, output: seq<seq<real>>, n: nat, sequenceLength: nat, factor: nat)
    requires sequenceLength > 0 && factor > 0 && FitsOutput(encode, n, sequenceLength, factor) && |output| == n
    requires sequenceLength % factor == 0 && FillsSlices(encode, n, sequenceLength, factor)
    ensures var all := Concatenated(encode, 0, n, sequenceLength);
            |all| <= n && Layout(encode, output, 0, n, sequenceLength, factor)[..|all|] == all
  {
    if n > 0 {
      TilesExactlyWhenDivides(sequenceLength, factor);
      CeilBounds(0, factor);
      LayoutConcatenates(encode, output, 0, n, sequenceLength, factor, []);
      assert [] + Concatenated(encode, 0, n, sequenceLength) == Concatenated(encode, 0, n, sequenceLength);
    }
  }

  /** The model never produces more embeddings than the chunk's slice has room for. */
  ghost predicate FitsSlices(encode: Encoder, factor: nat)
    requires factor > 0
  {
    forall pos, end :: pos <= end ==> |encode(pos, end)| <= SliceLength(pos, end, factor)
  }

  /** Then, whatever the factor, nothing is written past the output, and no valid embedding is cut off. */
  lemma SlicesFitOutput(encode: Encoder, n: nat, sequenceLength: nat, factor: nat)
    requires sequenceLength > 0 && factor > 0 && FitsSlices(encode, factor)
    ensures FitsOutput(encode, n, sequenceLength, factor)
    ensures |Concatenated(encode, 0, n, sequenceLength)| <= n
  {
    forall k: nat | k * sequenceLength < n ensures FitsAt(encode, k, n, sequenceLength, factor) {
      SliceInRange(k * sequenceLength, ChunkEnd(k * sequenceLength, n, sequenceLength), factor, n);
    }
    ConcatenatedFits(encode, 0, n, sequenceLength, factor);
  }

  lemma {:induction false} ConcatenatedFits(encode: Encoder, k: nat, n: nat, sequenceLength: nat, factor: nat)
    requires sequenceLength > 0 && factor > 0 && FitsSlices(encode, factor)
    ensures |Concatenated(encode, k, n, sequenceLength)| <= if k * sequenceLength <= n then n - k * sequenceLength else 0
    decreases n - k * sequenceLength
  {
    var pos := k * sequenceLength;
    if pos < n {
      var end := ChunkEnd(pos, n, sequenceLength);
      Distribute(k, 1, sequenceLength);
      CeilAtMost(end - pos, factor);
      assert |Chunk(encode, k, n, sequenceLength)| <= SliceLength(pos, end, factor);
      ConcatenatedFits(encode, k + 1, n, sequenceLength, factor);
    }
  }

  // --- what this means for streaming encoders ---

  /** Every chunk but the last gives `outputLength` embeddings, and the last no more. */
  ghost predicate FullChunks(encode: Encoder, n: nat, sequenceLength: nat, outputLength: nat) {
    && (forall k: nat :: k * sequenceLength < n ==> |Chunk(encode, k, n, sequenceLength)| <= outputLength)
    && (forall k: nat :: (k + 1) * sequenceLength < n ==> |Chunk(encode, k, n, sequenceLength)| == outputLength)
  }

  /** What is left after the cut to the number of valid embeddings are the valid embeddings, in order. */
  predicate Lossless(encode: Encoder, n: nat, sequenceLength: nat, factor: nat, zero: seq<real>)
    requires sequenceLength > 0 && factor > 0 && FitsOutput(encode, n, sequenceLength, factor)
  {
    var all := Concatenated(encode, 0, n, sequenceLength);
    |all| <= n && Layout(encode, seq(n, _ => zero), 0, n, sequenceLength, factor)[..|all|] == all
  }

  ghost predicate LosslessIfFull(encode: Encoder, n: nat, sequenceLength: nat, outputLength: nat, factor: nat, zero: seq<real>)
    requires sequenceLength > 0 && factor > 0
  {
    FitsOutput(encode, n, sequenceLength, factor) && FullChunks(encode, n, sequenceLength, outputLength) ==>
      Lossless(encode, n, sequenceLength, factor, zero)
  }

  /** The exact condition: no embedding is ever lost, for inputs of any length, if and only if the chunks do not overlap. */
  lemma StreamingLosslessExactly(sequenceLength: nat, overlap: nat, outputLength: nat, factor: nat, zero: seq<real>)
    requires sequenceLength > 0 && StreamingEncoder(sequenceLength, overlap, outputLength, factor)
    ensures (forall encode: Encoder, n: nat :: LosslessIfFull(encode, n, sequenceLength, outputLength, factor, zero)) <==>
              overlap == 0
  {
    hide LosslessIfFull;
    if overlap == 0 {
      forall encode: Encoder, n: nat ensures LosslessIfFull(encode, n, sequenceLength, outputLength, factor, zero) {
        NoOverlapIsLossless(encode, n, sequenceLength, outputLength, factor, zero);
      }
    } else {
      var e := zero + [1.0];
      var encode: Encoder := (pos, end) => if pos == 0 then seq(outputLength, _ => e) else [e];
      OverlapLoses(encode, sequenceLength, overlap, outputLength, factor, zero, e);
    }
  }

  lemma NoOverlapIsLossless(encode: Encoder, n: nat, sequenceLength: nat, outputLength: nat, factor: nat, zero: seq<real>)
    requires sequenceLength > 0 && StreamingEncoder(sequenceLength, 0, outputLength, factor)
    ensures LosslessIfFull(encode, n, sequenceLength, outputLength, factor, zero)
  {
    hide CeilIntDiv, Chunk;
    if FitsOutput(encode, n, sequenceLength, factor) && FullChunks(encode, n, sequenceLength, outputLength) {
      FactorCovers(sequenceLength, 0, outputLength, factor);
      MultipleHasNoRest(outputLength, factor);
      CeilOfMultiple(outputLength, factor);
      forall k: nat | (k + 1) * sequenceLength < n ensures FillsSlice(encode, k, n, sequenceLength, factor) {
        Distribute(k, 1, sequenceLength);
      }
      WholeLayout(encode, seq(n, _ => zero), n, sequenceLength, factor);
    }
  }

  /** Two chunks, the second of a single frame: its embedding is written after a gap, and the gap is kept instead. */
  lemma OverlapLoses(encode: Encoder, sequenceLength: nat, overlap: nat, outputLength: nat, factor: nat, zero: seq<real>,
                     e: seq<real>)
    requires sequenceLength > 0 && StreamingEncoder(sequenceLength, overlap, outputLength, factor) && overlap > 0
    requires e != zero
    requires forall end :: encode(0, end) == seq(outputLength, _ => e)
    requires forall pos, end :: pos > 0 ==> encode(pos, end) == [e]
    ensures !LosslessIfFull(encode, sequenceLength + 1, sequenceLength, outputLength, factor, zero)
  {
    hide CeilIntDiv, Layout, Concatenated, FitsOutput, FullChunks, StreamingShrinkingFactor, SliceStart;
    var n, start := sequenceLength + 1, SliceStart(sequenceLength, factor);
    var first, zeros: seq<seq<real>> := seq(outputLength, _ => e), seq(n, _ => zero);
    TwoChunks(encode, sequenceLength, overlap, outputLength, factor, first, [e]);
    GapAfterFirst(sequenceLength, overlap, outputLength, factor);
    NextChunk(encode, zeros, 0, n, sequenceLength, factor);
    var once := Overwrite(zeros, 0, first);
    NextChunk(encode, once, 1, n, sequenceLength, factor);
    var twice := Overwrite(once, start, [e]);
    NoMoreChunks(encode, twice, 2, n, sequenceLength, factor);
    assert once[outputLength] == zero && twice[outputLength] == zero;
    var all := Concatenated(encode, 0, n, sequenceLength);
    assert all == first + [e] && all[outputLength] == e;
    assert Layout(encode, zeros, 0, n, sequenceLength, factor) == twice;
  }

  lemma GapAfterFirst(sequenceLength: nat, overlap: nat, outputLength: nat, factor: nat)
    requires StreamingEncoder(sequenceLength, overlap, outputLength, factor) && overlap > 0
    ensures outputLength < SliceStart(sequenceLength, factor) && SliceStart(1 * sequenceLength, factor) == SliceStart(sequenceLength, factor)
  {
    StreamingGapsExactly(sequenceLength, overlap, outputLength, factor);
  }

  lemma TwoChunks(encode: Encoder, sequenceLength: nat, overlap: nat, outputLength: nat, factor: nat, first: seq<seq<real>>,
                  second: seq<seq<real>>)
    requires sequenceLength > 0 && StreamingEncoder(sequenceLength, overlap, outputLength, factor)
    requires |first| == outputLength && |second| == 1
    requires (forall end :: encode(0, end) == first) && forall pos, end :: pos > 0 ==> encode(pos, end) == second
    ensures var n := sequenceLength + 1;
            && Chunk(encode, 0, n, sequenceLength) == first && Chunk(encode, 1, n, sequenceLength) == second
            && FitsOutput(encode, n, sequenceLength, factor) && FullChunks(encode, n, sequenceLength, outputLength)
            && SliceStart(0 * sequenceLength, factor) == 0
  {
    hide CeilIntDiv;
    var n := sequenceLength + 1;
    FactorCovers(sequenceLength, overlap, outputLength, factor);
    FactorGrows(outputLength, factor);
    CeilBounds(0, factor);
    CeilAtMost(sequenceLength, factor);
    forall k: nat | k * sequenceLength < n ensures k <= 1 {
      LessByFactor(k, 2, sequenceLength);
    }
    assert 0 * sequenceLength == 0 && 1 * sequenceLength == sequenceLength;
    assert FitsAt(encode, 0, n, sequenceLength, factor) && FitsAt(encode, 1, n, sequenceLength, factor);
  }

  /**
   Chunks of 12 frames that overlap by 2 and give 2 embeddings have the factor 5: of the 4 embeddings of
   24 frames one is lost, and a zero is kept in its place. With an overlap of 4 the slices even tile,
   but each has 3 places for 2 embeddings; with an overlap of 11 the factor is zero.
   */
  lemma StreamingExamples(encode: Encoder, zero: seq<real>, e: seq<real>)
    requires forall pos, end :: encode(pos, end) == [e, e]
    ensures StreamingEncoder(12, 2, 2, 5) && FitsOutput(encode, 24, 12, 5)
    ensures Concatenated(encode, 0, 24, 12) == [e, e, e, e]
    ensures Layout(encode, seq(24, _ => zero), 0, 24, 12, 5)[..4] == [e, e, zero, e]
    ensures StreamingEncoder(12, 4, 2, 4) && Tiles(12, 4) && SliceStart(12, 4) == 3
    ensures StreamingShrinkingFactor(12, 11, 2) == Success(0)
  {
    var zeros := seq(24, _ => zero);
    assert FitsAt(encode, 0, 24, 12, 5) && FitsAt(encode, 1, 24, 12, 5);
    var once := Overwrite(zeros, 0, [e, e]);
    var twice := Overwrite(once, 3, [e, e]);
    NextChunk(encode, zeros, 0, 24, 12, 5);
    NextChunk(encode, once, 1, 24, 12, 5);
    NoMoreChunks(encode, twice, 2, 24, 12, 5);
    assert once[..3] == [e, e, zero];
    assert twice == once[..3] + [e, e] + once[5..];
    assert twice[..4] == once[..3] + [e];
    assert [e, e] + ([e, e] + []) == [e, e, e, e];
    TilesExactlyWhenDivides(12, 4);
  }
}
