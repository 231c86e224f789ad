/**
 Detecting stop token sequences in a batch of token streams
 (runtime/components/stop_token_detector.cc).

 The detector matches each stop sequence incrementally. On a mismatch it does not look for the
 longest restart: it only tries a match of length one. The lemmas say what that costs, exactly.
 */
module StopTokens {
  import opened Wrappers

  // ---------------------------------------------------------------------------------------------
  // One stop sequence
  // ---------------------------------------------------------------------------------------------

  /** The last `m` tokens of `stream` are the first `m` tokens of `s`. */
  predicate EndsWith(stream: seq<int>, s: seq<int>, m: nat) {
    m <= |stream| && m <= |s| && stream[|stream| - m..] == s[..m]
  }

  /** The match length after one more token. */
  function Advance(s: seq<int>, m: nat, token: int): nat
    requires s != []
  {
    if m < |s| && s[m] == token then m + 1
    else if s[0] == token then 1
    else 0
  }

  /** The match length after a whole stream. */
  function Progress(s: seq<int>, stream: seq<int>): nat
    requires s != []
  {
    if stream == [] then 0
    else Advance(s, Progress(s, stream[..|stream| - 1]), stream[|stream| - 1])
  }

  lemma EndsWithSnoc(stream: seq<int>, token: int, s: seq<int>, m: nat)
    requires m < |s|
    ensures EndsWith(stream + [token], s, m + 1) <==> EndsWith(stream, s, m) && s[m] == token
  {
    var longer := stream + [token];
    if m <= |stream| {
      assert longer[|longer| - (m + 1)..] == stream[|stream| - m..] + [token];
      assert s[..m + 1] == s[..m] + [s[m]];
    }
  }

  /** A progress of `m` means that the last `m` tokens are the first `m` of the sequence. */
  lemma AdvanceSound(stream: seq<int>, token: int, s: seq<int>, m: nat)
    requires s != [] && EndsWith(stream, s, m)
    ensures EndsWith(stream + [token], s, Advance(s, m, token))
  {
    if m < |s| {
      EndsWithSnoc(stream, token, s, m);
    }
    EndsWithSnoc(stream, token, s, 0);
  }

  lemma {:induction false} ProgressSound(s: seq<int>, stream: seq<int>)
    requires s != []
    ensures EndsWith(stream, s, Progress(s, stream))
  {
    if stream != [] {
      var n := |stream| - 1;
      ProgressSound(s, stream[..n]);
      AdvanceSound(stream[..n], stream[n], s, Progress(s, stream[..n]));
      assert stream[..n] + [stream[n]] == stream;
    }
  }

  // --- when the simplified restart loses nothing ---

  /**
   Wherever the first token recurs before the last token, the whole sequence repeats with that
   period. In particular a sequence whose first token does not recur there is restartable.
   */
  ghost predicate Restartable(s: seq<int>) {
    forall p :: 1 <= p <= |s| - 2 && s[p] == s[0] ==> RepeatsWith(s, p)
  }

  ghost predicate RepeatsWith(s: seq<int>, p: nat) {
    forall j :: 0 <= j < |s| - p ==> s[j] == s[j + p]
  }

  /** `s` was matched at the end of some prefix of the stream. */
  ghost predicate OccursIn(s: seq<int>, stream: seq<int>) {
    exists n :: 0 <= n <= |stream| && EndsWith(stream[..n], s, |s|)
  }

  lemma OccursInSnoc(s: seq<int>, stream: seq<int>, token: int)
    ensures OccursIn(s, stream + [token]) <==> OccursIn(s, stream) || EndsWith(stream + [token], s, |s|)
  {
    var longer := stream + [token];
    assert longer[..|longer|] == longer;
    assert forall n :: 0 <= n <= |stream| ==> longer[..n] == stream[..n];
    if OccursIn(s, stream) {
      var n :| 0 <= n <= |stream| && EndsWith(stream[..n], s, |s|);
      assert EndsWith(longer[..n], s, |s|);
    }
  }

  /** Of two matches at the same place, the shorter is a border of the longer. */
  lemma MatchesNest(stream: seq<int>, s: seq<int>, m: nat, n: nat)
    requires EndsWith(stream, s, m) && EndsWith(stream, s, n) && n <= m
    ensures s[..n] == s[m - n..m]
  {
    assert s[m - n..m] == s[..m][m - n..] == stream[|stream| - m..][m - n..] == stream[|stream| - n..];
  }

  lemma BorderExtends(s: seq<int>, m: nat, n: nat)
    requires Restartable(s)
    requires 1 <= n < m < |s| && s[..n] == s[m - n..m]
    ensures s[n] == s[m]
  {
    var p := m - n;
    assert s[p] == s[m - n..m][0] == s[..n][0] == s[0];
    assert RepeatsWith(s, p);
    assert s[n] == s[n + p];
  }

  /** With a restartable sequence, the progress is the longest match, until the first full one. */
  lemma {:induction false} ProgressLongest(s: seq<int>, stream: seq<int>, n: nat)
    requires s != [] && Restartable(s)
    requires stream != [] ==> !OccursIn(s, stream[..|stream| - 1])
    requires EndsWith(stream, s, n)
    ensures n <= Progress(s, stream)
  {
    hide Restartable;
    if stream != [] && n > 0 {
      var last := |stream| - 1;
      var before, token := stream[..last], stream[last];
      var m := Progress(s, before);
      assert before + [token] == stream;
      EndsWithSnoc(before, token, s, n - 1);
      assert EndsWith(before, s, n - 1) && s[n - 1] == token;
      if before != [] {
        OccursInSnoc(s, before[..last - 1], before[last - 1]);
        assert before[..last - 1] + [before[last - 1]] == before;
      }
      ProgressLongest(s, before, n - 1);
      ProgressSound(s, before);
      LongestStep(s, before, m, n - 1);
    }
  }

  /** Before the first full match, a token that extends a shorter match also extends the longest. */
  lemma LongestStep(s: seq<int>, stream: seq<int>, m: nat, n: nat)
    requires s != [] && Restartable(s) && !OccursIn(s, stream)
    requires EndsWith(stream, s, m) && EndsWith(stream, s, n) && n <= m && n < |s|
    ensures n + 1 <= Advance(s, m, s[n])
  {
    hide Restartable;
    assert stream[..|stream|] == stream;
    if 0 < n < m {
      MatchesNest(stream, s, m, n);
      BorderExtends(s, m, n);
    }
  }

  // --- and when it does lose a match ---

  lemma {:induction false} ProgressOnPrefix(s: seq<int>, n: nat)
    requires s != [] && n <= |s|
    ensures Progress(s, s[..n]) == n
  {
    if n > 0 {
      ProgressOnPrefix(s, n - 1);
      assert s[..n][..n - 1] == s[..n - 1];
    }
  }

  /** After a mismatch at `m`, at most the tokens from there on are matched. */
  lemma {:induction false} ProgressAfterMismatch(s: seq<int>, m: nat, tail: seq<int>)
    requires m < |s| && tail != [] && tail[0] != s[m]
    ensures Progress(s, s[..m] + tail) <= |tail|
    decreases |tail|
  {
    var stream, n := s[..m] + tail, |tail| - 1;
    assert stream[..|stream| - 1] == s[..m] + tail[..n];
    if n == 0 {
      ProgressOnPrefix(s, m);
      assert s[..m] + tail[..0] == s[..m];
    } else {
      ProgressAfterMismatch(s, m, tail[..n]);
    }
  }

  /** The first place where a recurrence of the first token stops being a repetition. */
  lemma FirstBreak(s: seq<int>) returns (m: nat, n: nat)
    requires !Restartable(s)
    ensures 1 <= n < m < |s| && s[..n] == s[m - n..m] && s[n] != s[m]
  {
    var p :| 1 <= p <= |s| - 2 && s[p] == s[0] && !RepeatsWith(s, p);
    n := FirstDifference(s, p);
    m := n + p;
    SameStart(s, p, n);
  }

  lemma FirstDifference(s: seq<int>, p: nat) returns (n: nat)
    requires p < |s| && !RepeatsWith(s, p)
    ensures n + p < |s| && s[n] != s[n + p] && forall j :: 0 <= j < n ==> s[j] == s[p + j]
  {
    var broken :| 0 <= broken < |s| - p && s[broken] != s[broken + p];
    n := 0;
    while s[n] == s[n + p]
      invariant 0 <= n <= broken
      invariant forall j :: 0 <= j < n ==> s[j] == s[p + j]
      decreases broken - n
    {
      n := n + 1;
    }
  }

  lemma SameStart(s: seq<int>, p: nat, n: nat)
    requires p + n <= |s| && forall j :: 0 <= j < n ==> s[j] == s[p + j]
    ensures s[..n] == s[p..p + n]
  {
  }

  /** The first `n` tokens recur before place `m`, but the sequence goes on differently there. */
  predicate Breaks(s: seq<int>, m: nat, n: nat) {
    1 <= n < m < |s| && s[..n] == s[m - n..m] && s[n] != s[m]
  }

  /** A stream that ends with the sequence, after a mismatch at such a place. */
  function MissedStream(s: seq<int>, m: nat, n: nat): seq<int>
    requires Breaks(s, m, n)
  {
    s[..m] + s[n..]
  }

  /** There the progress never reaches a full match. */
  lemma BreakMisses(s: seq<int>, m: nat, n: nat)
    requires Breaks(s, m, n)
    ensures EndsWith(MissedStream(s, m, n), s, |s|)
    ensures forall i :: 0 <= i <= |MissedStream(s, m, n)| ==> Progress(s, MissedStream(s, m, n)[..i]) < |s|
  {
    var stream := MissedStream(s, m, n);
    assert stream[m - n..] == s[m - n..m] + s[n..] == s[..n] + s[n..] == s;
    assert s[..|s|] == s;
    forall i | 0 <= i <= |stream| ensures Progress(s, stream[..i]) < |s| {
      if i <= m {
        ProgressOnPrefix(s, i);
        assert stream[..i] == s[..i];
      } else {
        ProgressAfterMismatch(s, m, s[n..][..i - m]);
        assert stream[..i] == s[..m] + s[n..][..i - m];
      }
    }
  }

  /** A stream that ends with the sequence, where the detector never reaches a full match. */
  lemma MissedMatch(s: seq<int>) returns (stream: seq<int>)
    requires s != [] && !Restartable(s)
    ensures EndsWith(stream, s, |s|)
    ensures forall n :: 0 <= n <= |stream| ==> Progress(s, stream[..n]) < |s|
  {
    var m, n := FirstBreak(s);
    stream := MissedStream(s, m, n);
    BreakMisses(s, m, n);
  }

  // ---------------------------------------------------------------------------------------------
  // One batch item
  // ---------------------------------------------------------------------------------------------

  /** The state of one batch item. */
  datatype Item = Item(progress: seq<nat>, maxProgress: nat, found: bool, matchedLength: nat)

  function Max(ns: seq<nat>): (m: nat)
    ensures forall k :: 0 <= k < |ns| ==> ns[k] <= m
    ensures m == 0 || exists k :: 0 <= k < |ns| && ns[k] == m
  {
    if ns == [] then 0
    else
      var m, n := Max(ns[..|ns| - 1]), ns[|ns| - 1];
      if m < n then n else m
  }

  function InitialItem(sequences: seq<seq<int>>): Item {
    Item(seq(|sequences|, _ => 0), 0, false, 0)
  }

  predicate NonEmpty(sequences: seq<seq<int>>) {
    forall k :: 0 <= k < |sequences| ==> sequences[k] != []
  }

  function AdvanceAll(sequences: seq<seq<int>>, progress: seq<nat>, token: int): (r: seq<nat>)
    requires NonEmpty(sequences) && |progress| == |sequences|
  {
    seq(|sequences|, k requires 0 <= k < |sequences| => Advance(sequences[k], progress[k], token))
  }

  /** The length of the last sequence that is fully matched, or `none` if there is no such sequence. */
  function LastMatch(sequences: seq<seq<int>>, progress: seq<nat>, none: nat): nat
    requires |progress| <= |sequences|
  {
    if progress == [] then none
    else
      var k := |progress| - 1;
      if progress[k] > 0 && progress[k] == |sequences[k]| then |sequences[k]|
      else LastMatch(sequences, progress[..k], none)
  }

  predicate AnyMatch(sequences: seq<seq<int>>, progress: seq<nat>)
    requires |progress| <= |sequences|
  {
    exists k :: 0 <= k < |progress| && progress[k] > 0 && progress[k] == |sequences[k]|
  }

  /** One token for one item. */
  function StepItem(sequences: seq<seq<int>>, item: Item, token: int): Item
    requires NonEmpty(sequences) && |item.progress| == |sequences|
  {
    if item.found then item.(matchedLength := item.matchedLength + 1)
    else
      var progress := AdvanceAll(sequences, item.progress, token);
      Item(progress, Max(progress), AnyMatch(sequences, progress),
           LastMatch(sequences, progress, item.matchedLength))
  }

  /** A whole stream for one item. */
  function Run(sequences: seq<seq<int>>, stream: seq<int>): (item: Item)
    requires NonEmpty(sequences)
    ensures |item.progress| == |sequences|
  {
    if stream == [] then InitialItem(sequences)
    else StepItem(sequences, Run(sequences, stream[..|stream| - 1]), stream[|stream| - 1])
  }

  lemma RunSnoc(sequences: seq<seq<int>>, stream: seq<int>, token: int)
    requires NonEmpty(sequences)
    ensures Run(sequences, stream + [token]) == StepItem(sequences, Run(sequences, stream), token)
  {
    assert (stream + [token])[..|stream|] == stream;
  }

  /** A whole stream for an item in any state. */
  function ItemFrom(sequences: seq<seq<int>>, start: Item, stream: seq<int>): (item: Item)
    requires NonEmpty(sequences) && |start.progress| == |sequences|
    ensures |item.progress| == |sequences|
  {
    if stream == [] then start
    else StepItem(sequences, ItemFrom(sequences, start, stream[..|stream| - 1]), stream[|stream| - 1])
  }

  lemma {:induction false} ItemFromStart(sequences: seq<seq<int>>, stream: seq<int>)
    requires NonEmpty(sequences)
    ensures ItemFrom(sequences, InitialItem(sequences), stream) == Run(sequences, stream)
  {
    if stream != [] {
      ItemFromStart(sequences, stream[..|stream| - 1]);
    }
  }

  lemma ItemFromSnoc(sequences: seq<seq<int>>, start: Item, stream: seq<int>, token: int)
    requires NonEmpty(sequences) && |start.progress| == |sequences|
    ensures ItemFrom(sequences, start, stream + [token]) == StepItem(sequences, ItemFrom(sequences, start, stream), token)
  {
    assert (stream + [token])[..|stream|] == stream;
  }

  /** What the state says about the tokens processed so far. */
  ghost predicate Sound(sequences: seq<seq<int>>, item: Item, stream: seq<int>) {
    && |item.progress| == |sequences|
    && (!item.found ==>
          && item.maxProgress == Max(item.progress)
          && forall k :: 0 <= k < |sequences| ==>
               item.progress[k] < |sequences[k]| && EndsWith(stream, sequences[k], item.progress[k]))
    && (item.found ==>
          && item.matchedLength <= |stream|
          && StopsAt(sequences, stream, |stream| - item.matchedLength))
  }

  /** A stop sequence begins at `start`. */
  ghost predicate StopsAt(sequences: seq<seq<int>>, stream: seq<int>, start: nat) {
    exists k :: 0 <= k < |sequences| && sequences[k] != [] && start + |sequences[k]| <= |stream|
                && stream[start..start + |sequences[k]|] == sequences[k]
  }

  // --- soundness, for every set of sequences ---

  lemma {:induction false} LastMatchIsMatch(sequences: seq<seq<int>>, progress: seq<nat>, none: nat)
    requires |progress| <= |sequences|
    ensures !AnyMatch(sequences, progress) ==> LastMatch(sequences, progress, none) == none
    ensures AnyMatch(sequences, progress) ==>
              exists k :: 0 <= k < |progress| && progress[k] > 0 && progress[k] == |sequences[k]|
                          && LastMatch(sequences, progress, none) == |sequences[k]|
  {
    if progress != [] {
      LastMatchIsMatch(sequences, progress[..|progress| - 1], none);
    }
  }

  /** Which match counts when several sequences are fully matched: that of the sequence added last. */
  lemma {:induction false} LastMatchAt(sequences: seq<seq<int>>, progress: seq<nat>, none: nat) returns (j: nat)
    requires |progress| <= |sequences| && AnyMatch(sequences, progress)
    ensures j < |progress| && progress[j] > 0 && progress[j] == |sequences[j]| == LastMatch(sequences, progress, none)
    ensures forall i :: j < i < |progress| ==> progress[i] == 0 || progress[i] != |sequences[i]|
  {
    j := |progress| - 1;
    if !(progress[j] > 0 && progress[j] == |sequences[j]|) {
      j := LastMatchAt(sequences, progress[..j], none);
    }
  }

  lemma StopsAtExtend(sequences: seq<seq<int>>, stream: seq<int>, token: int, start: nat)
    requires StopsAt(sequences, stream, start)
    ensures StopsAt(sequences, stream + [token], start)
  {
    var k :| 0 <= k < |sequences| && sequences[k] != [] && start + |sequences[k]| <= |stream|
             && stream[start..start + |sequences[k]|] == sequences[k];
    assert (stream + [token])[start..start + |sequences[k]|] == stream[start..start + |sequences[k]|];
  }

  /** One step keeps `Sound`, and once an item has stopped, the start of its stop sequence never moves. */
  lemma StepSound(sequences: seq<seq<int>>, item: Item, stream: seq<int>, token: int)
    requires NonEmpty(sequences) && Sound(sequences, item, stream)
    ensures var next := StepItem(sequences, item, token);
            && Sound(sequences, next, stream + [token])
            && (item.found ==> (next.found && |stream| + 1 - next.matchedLength == |stream| - item.matchedLength))
  {
    hide EndsWith, StopsAt, Max;
    if item.found {
      StopsAtExtend(sequences, stream, token, |stream| - item.matchedLength);
    } else {
      var progress := AdvanceAll(sequences, item.progress, token);
      AdvanceAllSound(sequences, item.progress, stream, token);
      LastMatchIsMatch(sequences, progress, item.matchedLength);
      if AnyMatch(sequences, progress) {
        var k :| 0 <= k < |progress| && progress[k] > 0 && progress[k] == |sequences[k]|
                 && LastMatch(sequences, progress, item.matchedLength) == |sequences[k]|;
        StopHere(sequences, k, stream + [token]);
      }
    }
  }

  lemma AdvanceAllSound(sequences: seq<seq<int>>, progress: seq<nat>, stream: seq<int>, token: int)
    requires NonEmpty(sequences) && |progress| == |sequences|
    requires forall k :: 0 <= k < |sequences| ==> EndsWith(stream, sequences[k], progress[k])
    ensures forall k :: 0 <= k < |sequences| ==>
              && EndsWith(stream + [token], sequences[k], AdvanceAll(sequences, progress, token)[k])
              && AdvanceAll(sequences, progress, token)[k] <= |sequences[k]|
  {
    forall k | 0 <= k < |sequences|
      ensures EndsWith(stream + [token], sequences[k], Advance(sequences[k], progress[k], token))
    {
      AdvanceSound(stream, token, sequences[k], progress[k]);
    }
  }

  lemma StopHere(sequences: seq<seq<int>>, k: nat, stream: seq<int>)
    requires k < |sequences| && sequences[k] != [] && EndsWith(stream, sequences[k], |sequences[k]|)
    ensures |sequences[k]| <= |stream| && StopsAt(sequences, stream, |stream| - |sequences[k]|)
  {
    var n := |sequences[k]|;
    assert stream[|stream| - n..|stream| - n + n] == stream[|stream| - n..] == sequences[k][..n] == sequences[k];
  }

  lemma InitialSound(sequences: seq<seq<int>>)
    requires NonEmpty(sequences)
    ensures Sound(sequences, InitialItem(sequences), []) && Run(sequences, []) == InitialItem(sequences)
  {
    var progress := InitialItem(sequences).progress;
    InitiallyUnmatched(sequences);
    assert Max(progress) == 0;
    forall k | 0 <= k < |sequences| ensures EndsWith([], sequences[k], progress[k]) {
      assert [][0..] == sequences[k][..0];
    }
  }

  lemma InitiallyUnmatched(sequences: seq<seq<int>>)
    ensures var item := InitialItem(sequences);
            && |item.progress| == |sequences| && item.maxProgress == 0 && !item.found && item.matchedLength == 0
            && forall k :: 0 <= k < |sequences| ==> item.progress[k] == 0
  {
  }

  /** A sequence added later starts unmatched; nothing else changes. */
  lemma AddSound(sequences: seq<seq<int>>, item: Item, stream: seq<int>, s: seq<int>)
    requires s != [] && Sound(sequences, item, stream)
    ensures Sound(sequences + [s], item.(progress := item.progress + [0]), stream)
  {
    hide Max, StopsAt;
    if item.found {
      AddStopsAt(sequences, stream, |stream| - item.matchedLength, s);
    } else {
      AddUnmatched(item.progress);
      assert stream[|stream|..] == s[..0];
    }
  }

  lemma AddStopsAt(sequences: seq<seq<int>>, stream: seq<int>, start: nat, s: seq<int>)
    requires StopsAt(sequences, stream, start)
    ensures StopsAt(sequences + [s], stream, start)
  {
    var k :| 0 <= k < |sequences| && sequences[k] != [] && start + |sequences[k]| <= |stream|
             && stream[start..start + |sequences[k]|] == sequences[k];
    assert (sequences + [s])[k] == sequences[k];
  }

  lemma AddUnmatched(progress: seq<nat>)
    ensures Max(progress + [0]) == Max(progress)
  {
    assert (progress + [0])[..|progress|] == progress;
  }

  /** No match grows by more than one token in a step, so the match that stops an item was expected. */
  lemma MatchWasExpected(sequences: seq<seq<int>>, item: Item, stream: seq<int>, token: int)
    requires NonEmpty(sequences) && Sound(sequences, item, stream) && !item.found
    ensures var next := StepItem(sequences, item, token);
            && next.maxProgress <= item.maxProgress + 1
            && (next.found ==> 0 < next.matchedLength <= next.maxProgress)
  {
    var progress := AdvanceAll(sequences, item.progress, token);
    LastMatchIsMatch(sequences, progress, item.matchedLength);
    assert forall k :: 0 <= k < |sequences| ==> progress[k] <= item.progress[k] + 1;
  }

  // --- completeness ---

  lemma {:induction false} RunSound(sequences: seq<seq<int>>, stream: seq<int>)
    requires NonEmpty(sequences)
    ensures Sound(sequences, Run(sequences, stream), stream)
  {
    if stream == [] {
      InitialSound(sequences);
    } else {
      var n := |stream| - 1;
      RunSound(sequences, stream[..n]);
      StepSound(sequences, Run(sequences, stream[..n]), stream[..n], stream[n]);
      assert stream[..n] + [stream[n]] == stream;
    }
  }

  /** Until an item stops, it holds the progress of every sequence. */
  lemma {:induction false} RunProgress(sequences: seq<seq<int>>, stream: seq<int>)
    requires NonEmpty(sequences)
    requires stream != [] ==> !Run(sequences, stream[..|stream| - 1]).found
    ensures forall k :: 0 <= k < |sequences| ==>
              Run(sequences, stream).progress[k] == Progress(sequences[k], stream)
    ensures Run(sequences, stream).found <==>
              exists k :: 0 <= k < |sequences| && Progress(sequences[k], stream) == |sequences[k]|
  {
    if stream != [] {
      var n := |stream| - 1;
      var before := stream[..n];
      if before != [] {
        var earlier := before[..n - 1];
        assert Run(sequences, before) == StepItem(sequences, Run(sequences, earlier), before[n - 1]);
      }
      RunProgress(sequences, before);
    }
  }

  /** Some stop sequence has occurred in the stream. */
  ghost predicate Stopped(sequences: seq<seq<int>>, stream: seq<int>) {
    exists k :: 0 <= k < |sequences| && OccursIn(sequences[k], stream)
  }

  lemma {:induction false} FoundOccurs(sequences: seq<seq<int>>, stream: seq<int>)
    requires NonEmpty(sequences) && Run(sequences, stream).found
    ensures Stopped(sequences, stream)
  {
    var n := |stream| - 1;
    var before := stream[..n];
    assert before + [stream[n]] == stream;
    if Run(sequences, before).found {
      FoundOccurs(sequences, before);
      var k :| 0 <= k < |sequences| && OccursIn(sequences[k], before);
      OccursInSnoc(sequences[k], before, stream[n]);
    } else {
      RunProgress(sequences, stream);
      var k :| 0 <= k < |sequences| && Progress(sequences[k], stream) == |sequences[k]|;
      ProgressSound(sequences[k], stream);
      OccursInSnoc(sequences[k], before, stream[n]);
    }
  }

  ghost predicate AllRestartable(sequences: seq<seq<int>>) {
    forall k :: 0 <= k < |sequences| ==> Restartable(sequences[k])
  }

  /**
   With restartable sequences an item has stopped exactly when some stop sequence has occurred. As
   this holds of every prefix of a stream, it stops at the first occurrence.
   */
  lemma {:induction false} FoundExactly(sequences: seq<seq<int>>, stream: seq<int>)
    requires NonEmpty(sequences) && AllRestartable(sequences)
    ensures Run(sequences, stream).found <==> Stopped(sequences, stream)
  {
    if Run(sequences, stream).found {
      FoundOccurs(sequences, stream);
    } else if stream == [] {
      assert forall k :: 0 <= k < |sequences| ==> !OccursIn(sequences[k], stream);
    } else {
      var n := |stream| - 1;
      var before := stream[..n];
      assert before + [stream[n]] == stream;
      FoundExactly(sequences, before);
      RunProgress(sequences, stream);
      forall k | 0 <= k < |sequences| ensures !OccursIn(sequences[k], stream) {
        OccursInSnoc(sequences[k], before, stream[n]);
        if EndsWith(stream, sequences[k], |sequences[k]|) {
          ProgressLongest(sequences[k], stream, |sequences[k]|);
          ProgressSound(sequences[k], stream);
        }
      }
    }
  }

  ghost predicate DetectsEveryMatch(s: seq<int>)
    requires s != []
  {
    forall stream: seq<int> :: Run([s], stream).found <==> OccursIn(s, stream)
  }

  /** The exact condition for one stop sequence: no match is ever missed if and only if it is restartable. */
  lemma DetectsExactlyWhenRestartable(s: seq<int>)
    requires s != []
    ensures DetectsEveryMatch(s) <==> Restartable(s)
  {
    if Restartable(s) {
      forall stream: seq<int> ensures Run([s], stream).found <==> OccursIn(s, stream) {
        FoundExactly([s], stream);
        assert Stopped([s], stream) <==> OccursIn([s][0], stream);
      }
    } else {
      var stream := MissedMatch(s);
      NeverFound(s, stream);
      assert stream[..|stream|] == stream;
      assert OccursIn(s, stream);
    }
  }

  lemma NeverFound(s: seq<int>, stream: seq<int>)
    requires s != [] && forall n :: 0 <= n <= |stream| ==> Progress(s, stream[..n]) < |s|
    ensures !Run([s], stream).found
  {
    NoneFound([s], stream);
  }

  lemma {:induction false} NoneFound(sequences: seq<seq<int>>, stream: seq<int>)
    requires NonEmpty(sequences)
    requires forall k, n :: 0 <= k < |sequences| && 0 <= n <= |stream| ==> Progress(sequences[k], stream[..n]) < |sequences[k]|
    ensures !Run(sequences, stream).found
  {
    if stream != [] {
      var last := |stream| - 1;
      forall k, n | 0 <= k < |sequences| && 0 <= n <= last
        ensures Progress(sequences[k], stream[..last][..n]) < |sequences[k]|
      {
        assert stream[..last][..n] == stream[..n];
      }
      NoneFound(sequences, stream[..last]);
      RunProgress(sequences, stream);
      assert stream[..|stream|] == stream;
    }
  }

  // --- and for several stop sequences ---

  ghost predicate DetectsAll(sequences: seq<seq<int>>)
    requires NonEmpty(sequences)
  {
    forall stream: seq<int> :: Run(sequences, stream).found <==> Stopped(sequences, stream)
  }

  /** A stream on which sequence `k` is missed has no occurrence of another sequence, which would be found instead. */
  ghost predicate Unmasked(sequences: seq<seq<int>>, k: nat, m: nat, n: nat)
    requires k < |sequences| && Breaks(sequences[k], m, n)
  {
    forall i :: 0 <= i < |sequences| && i != k ==> !OccursIn(sequences[i], MissedStream(sequences[k], m, n))
  }

  /** Then nothing is found on it, although sequence `k` has occurred. */
  lemma UnmaskedIsMissed(sequences: seq<seq<int>>, k: nat, m: nat, n: nat)
    requires NonEmpty(sequences) && k < |sequences| && Breaks(sequences[k], m, n) && Unmasked(sequences, k, m, n)
    ensures var stream := MissedStream(sequences[k], m, n);
            Stopped(sequences, stream) && !Run(sequences, stream).found
  {
    hide MissedStream, Progress, OccursIn, EndsWith, Run;
    var stream := MissedStream(sequences[k], m, n);
    BreakMisses(sequences[k], m, n);
    OccursAtEnd(sequences[k], stream);
    forall i, p | 0 <= i < |sequences| && 0 <= p <= |stream| ensures Progress(sequences[i], stream[..p]) < |sequences[i]| {
      if i != k {
        NoMatchWithoutOccurrence(sequences[i], stream, p);
      }
    }
    NoneFound(sequences, stream);
  }

  lemma OccursAtEnd(s: seq<int>, stream: seq<int>)
    requires EndsWith(stream, s, |s|)
    ensures OccursIn(s, stream)
  {
    assert stream[..|stream|] == stream;
  }

  lemma NoMatchWithoutOccurrence(s: seq<int>, stream: seq<int>, p: nat)
    requires s != [] && !OccursIn(s, stream) && p <= |stream|
    ensures Progress(s, stream[..p]) < |s|
  {
    hide Progress, OccursIn;
    ProgressSound(s, stream[..p]);
    if Progress(s, stream[..p]) == |s| {
      OccursAt(s, stream, p);
    }
  }

  lemma OccursAt(s: seq<int>, stream: seq<int>, p: nat)
    requires p <= |stream| && EndsWith(stream[..p], s, |s|)
    ensures OccursIn(s, stream)
  {
  }

  /**
   When no sequence masks a miss of another one, a set of sequences is detected in all streams if and
   only if all of them are restartable.
   */
  lemma SetDetectsExactly(sequences: seq<seq<int>>)
    requires NonEmpty(sequences)
    requires forall k, m, n :: 0 <= k < |sequences| && Breaks(sequences[k], m, n) ==> Unmasked(sequences, k, m, n)
    ensures DetectsAll(sequences) <==> AllRestartable(sequences)
  {
    hide Run, Stopped, Restartable;
    if AllRestartable(sequences) {
      forall stream: seq<int> ensures Run(sequences, stream).found <==> Stopped(sequences, stream) {
        FoundExactly(sequences, stream);
      }
    } else {
      var k :| 0 <= k < |sequences| && !Restartable(sequences[k]);
      var m, n := FirstBreak(sequences[k]);
      assert Breaks(sequences[k], m, n);
      UnmaskedIsMissed(sequences, k, m, n);
    }
  }

  /** A sequence that is missed: `1 1 2` in the stream `1 1 1 2`. */
  lemma MissedExample()
    ensures !Restartable([1, 1, 2])
    ensures OccursIn([1, 1, 2], [1, 1, 1, 2]) && !Run([[1, 1, 2]], [1, 1, 1, 2]).found
  {
    var s, stream := [1, 1, 2], [1, 1, 1, 2];
    assert s[1] != s[1 + 1] && !RepeatsWith(s, 1);
    assert stream[..4] == stream && stream[1..] == s == s[..3];
    assert stream[..3] == s[..2] + [1];
    ProgressOnPrefix(s, 1);
    ProgressOnPrefix(s, 2);
    assert (s[..2] + [1])[..2] == s[..2];
    assert Progress(s, stream[..3]) == 1 && Progress(s, stream) == 0;
    assert stream[..2] == s[..2] && stream[..1] == s[..1];
    NeverFound(s, stream);
  }

  // ---------------------------------------------------------------------------------------------
  // The detector
  // ---------------------------------------------------------------------------------------------

  lemma NoMatchYet(sequences: seq<seq<int>>, none: nat)
    ensures Max([]) == 0 && !AnyMatch(sequences, []) && LastMatch(sequences, [], none) == none
  {
  }

  lemma OneMoreMatch(sequences: seq<seq<int>>, progress: seq<nat>, k: nat, none: nat)
    requires k < |progress| <= |sequences|
    ensures var matched := progress[k] > 0 && progress[k] == |sequences[k]|;
            && Max(progress[..k + 1]) == (if Max(progress[..k]) < progress[k] then progress[k] else Max(progress[..k]))
            && AnyMatch(sequences, progress[..k + 1]) == (AnyMatch(sequences, progress[..k]) || matched)
            && LastMatch(sequences, progress[..k + 1], none) ==
               if matched then |sequences[k]| else LastMatch(sequences, progress[..k], none)
  {
    var longer := progress[..k + 1];
    assert longer[..k] == progress[..k] && longer[k] == progress[k];
    assert AnyMatch(sequences, progress[..k]) ==> AnyMatch(sequences, longer);
  }

  class StopTokenDetector {
    var sequences: seq<seq<int>>
    var progress: seq<seq<nat>>      // per item, per sequence
    var maxProgress: seq<nat>
    var found: seq<bool>
    var matchedLength: seq<nat>
    ghost var streams: seq<seq<int>> // the tokens processed since the last reset
    ghost var addedLate: bool        // whether a sequence was added after tokens were processed

    ghost predicate WellFormed()
      reads this
    {
      && NonEmpty(sequences)
      && |progress| == |maxProgress| == |found| == |matchedLength| == |streams|
      && forall i :: 0 <= i < |found| ==> |progress[i]| == |sequences|
    }

    ghost function ItemAt(i: nat): Item
      requires WellFormed() && i < |found|
      reads this
    {
      Item(progress[i], maxProgress[i], found[i], matchedLength[i])
    }

    ghost function Items(): (items: seq<Item>)
      requires WellFormed()
      reads this
      ensures |items| == |found| && forall i :: 0 <= i < |found| ==> items[i] == ItemAt(i)
    {
      seq(|found|, i requires 0 <= i < |found| && WellFormed() reads this => ItemAt(i))
    }

    ghost predicate SomeTokens()
      reads this
    {
      exists i :: 0 <= i < |streams| && streams[i] != []
    }

    ghost predicate Valid()
      reads this
    {
      && WellFormed()
      && |found| > 0
      && (forall i :: 0 <= i < |found| ==> Sound(sequences, ItemAt(i), streams[i]))
      && (addedLate ==> SomeTokens())
      && (!addedLate ==> forall i :: 0 <= i < |found| ==> ItemAt(i) == Run(sequences, streams[i]))
    }

    constructor (batchSize: nat)
      requires batchSize > 0
      ensures Valid() && sequences == [] && |found| == batchSize && !addedLate
      ensures forall i :: 0 <= i < batchSize ==> streams[i] == []
    {
      sequences := [];
      new;
      progress, maxProgress, found, matchedLength := [], [], [], [];
      streams, addedLate := [], false;
      ResetBatch(batchSize);
    }

    /** A copy, as made when a detector is passed by value. */
    constructor Copy(other: StopTokenDetector)
      requires other.Valid()
      ensures Valid() && sequences == other.sequences && addedLate == other.addedLate && streams == other.streams
      ensures |found| == |other.found|
      ensures forall i :: 0 <= i < |found| ==> ItemAt(i) == other.ItemAt(i)
    {
      sequences, progress, maxProgress := other.sequences, other.progress, other.maxProgress;
      found, matchedLength := other.found, other.matchedLength;
      streams, addedLate := other.streams, other.addedLate;
    }

    method AddStopTokenSequence(s: seq<int>) returns (status: Status)
      requires Valid()
      modifies this
      ensures Valid() && streams == old(streams)
      ensures found == old(found) && maxProgress == old(maxProgress) && matchedLength == old(matchedLength)
      ensures s == [] <==> status == Error(InvalidArgument)
      ensures s != [] ==> status == Ok
      ensures sequences == if s == [] || s in old(sequences) then old(sequences) else old(sequences) + [s]
      ensures addedLate == (old(addedLate) || (sequences != old(sequences) && SomeTokens()))
    {
      hide Sound, Run, InitialItem;
      if s == [] {
        return Error(InvalidArgument);
      }
      if s in sequences {
        return Ok;
      }
      addedLate := addedLate || SomeTokens();
      sequences := sequences + [s];
      var rows := progress;
      progress := seq(|rows|, i requires 0 <= i < |rows| => rows[i] + [0]);
      InitialSound(sequences);
      forall i | 0 <= i < |found|
        ensures Sound(sequences, ItemAt(i), streams[i])
        ensures !addedLate ==> ItemAt(i) == Run(sequences, streams[i])
      {
        AddSound(old(sequences), old(ItemAt(i)), streams[i], s);
        InitialSound(old(sequences));
        InitiallyUnmatched(old(sequences));
        InitiallyUnmatched(sequences);
        if !addedLate {
          assert streams[i] == [] && progress[i] == InitialItem(sequences).progress;
        }
      }
      return Ok;
    }

    method ResetBatch(batchSize: nat)
      requires NonEmpty(sequences)
      requires batchSize == 0 ==> |found| > 0
      modifies this
      ensures Valid() && sequences == old(sequences) && !addedLate
      ensures |found| == if batchSize == 0 then |old(found)| else batchSize
      ensures forall i :: 0 <= i < |found| ==> streams[i] == [] && ItemAt(i) == InitialItem(sequences)
      ensures forall i :: 0 <= i < |found| ==> !found[i] && maxProgress[i] == matchedLength[i] == 0
      ensures forall i, k :: 0 <= i < |found| && 0 <= k < |sequences| ==> progress[i][k] == 0
    {
      hide Sound, Run, InitialItem;
      var size := if batchSize == 0 then |found| else batchSize;
      found := seq(size, _ => false);
      maxProgress := seq(size, _ => 0);
      var none := seq(|sequences|, _ => 0);
      progress := seq(size, _ => none);
      matchedLength := seq(size, _ => 0);
      streams := seq(size, _ => []);
      addedLate := false;
      InitialSound(sequences);
      InitiallyUnmatched(sequences);
      assert none == InitialItem(sequences).progress;
    }

    /** The inner loop: one token for an item that has not stopped. */
    method ProcessToken(i: nat, token: int)
      requires WellFormed() && i < |found| && !found[i]
      modifies `progress, `maxProgress, `found, `matchedLength
      ensures WellFormed() && |found| == |old(found)|
      ensures ItemAt(i) == StepItem(sequences, old(ItemAt(i)), token)
      ensures forall j :: 0 <= j < |found| && j != i ==> ItemAt(j) == old(ItemAt(j))
    {
      hide Max, AnyMatch, LastMatch;
      ghost var next := AdvanceAll(sequences, progress[i], token);
      var row, longest: nat, isFound, matched: nat := progress[i], 0, false, matchedLength[i];
      NoMatchYet(sequences, matched);
      assert next[..0] == [];
      for k := 0 to |sequences|
        modifies {}
        invariant |row| == |sequences|
        invariant forall j :: 0 <= j < k ==> row[j] == next[j]
        invariant forall j :: k <= j < |sequences| ==> row[j] == progress[i][j]
        invariant longest == Max(next[..k])
        invariant isFound == AnyMatch(sequences, next[..k])
        invariant matched == LastMatch(sequences, next[..k], matchedLength[i])
      {
        var s, current: nat := sequences[k], row[k];
        if current < |s| && s[current] == token {
          current := current + 1;
        } else if s[0] == token {
          current := 1;
        } else {
          current := 0;
        }
        OneMoreMatch(sequences, next, k, matchedLength[i]);
        row := row[k := current];
        if current > 0 && current == |s| {
          isFound := true;
          matched := |s|;
        }
        longest := if longest < current then current else longest;
      }
      assert next[..|sequences|] == next == row;
      progress, maxProgress := progress[i := row], maxProgress[i := longest];
      found, matchedLength := found[i := isFound], matchedLength[i := matched];
    }

    /** The outer loop. */
    method ProcessItems(tokens: seq<int>)
      requires WellFormed() && |tokens| == |found|
      modifies `progress, `maxProgress, `found, `matchedLength
      ensures WellFormed() && |found| == |old(found)|
      ensures forall i :: 0 <= i < |found| ==> ItemAt(i) == StepItem(sequences, old(ItemAt(i)), tokens[i])
    {
      hide AnyMatch, LastMatch, Max, AdvanceAll;
      for i := 0 to |tokens|
        invariant WellFormed() && |found| == |old(found)|
        invariant forall j :: 0 <= j < i ==> ItemAt(j) == StepItem(sequences, old(ItemAt(j)), tokens[j])
        invariant forall j :: i <= j < |found| ==> ItemAt(j) == old(ItemAt(j))
      {
        if found[i] {
          matchedLength := matchedLength[i := matchedLength[i] + 1];
        } else {
          ProcessToken(i, tokens[i]);
        }
      }
    }

    /** Processes the latest token of every item. */
    method ProcessTokens(tokens: seq<int>) returns (status: Status)
      requires Valid()
      modifies this
      ensures Valid() && sequences == old(sequences) && addedLate == old(addedLate) && |found| == |old(found)|
      ensures status == if |tokens| != |found| || sequences == [] then Error(InvalidArgument) else Ok
      ensures status == Ok ==> forall i :: 0 <= i < |found| ==>
                && ItemAt(i) == StepItem(sequences, old(ItemAt(i)), tokens[i])
                && streams[i] == old(streams[i]) + [tokens[i]]
      ensures status != Ok ==> streams == old(streams) && forall i :: 0 <= i < |found| ==> ItemAt(i) == old(ItemAt(i))
    {
      hide StepItem, Sound, Run;
      if |tokens| != |found| {
        return Error(InvalidArgument);
      }
      if sequences == [] {
        return Error(InvalidArgument);
      }
      ProcessItems(tokens);
      ghost var before := streams;
      streams := seq(|before|, i requires 0 <= i < |before| => before[i] + [tokens[i]]);
      forall i | 0 <= i < |found|
        ensures Sound(sequences, ItemAt(i), streams[i])
        ensures !addedLate ==> ItemAt(i) == Run(sequences, streams[i])
      {
        StepSound(sequences, old(ItemAt(i)), before[i], tokens[i]);
        RunSnoc(sequences, before[i], tokens[i]);
      }
      assert streams[0] == before[0] + [tokens[0]];
      status := Ok;
    }

    method MaxPartialStopTokenLength(i: nat) returns (n: nat)
      requires WellFormed() && i < |found|
      ensures n == maxProgress[i]
    {
      n := maxProgress[i];
    }

    /**
     Whether every item has stopped. Then a stored stop sequence begins, in every stream, where the
     matched length says; with restartable sequences the converse holds as well. An empty batch is an
     error, which no reset can bring about.
     */
    method AllDone() returns (done: Result<bool>)
      requires WellFormed()
      ensures |found| == 0 ==> done == Failure(FailedPrecondition)
      ensures |found| > 0 ==> done.Success? && (done.value <==> false !in found)
      ensures Valid() && done == Success(true) ==> forall i :: 0 <= i < |found| ==>
                matchedLength[i] <= |streams[i]| && StopsAt(sequences, streams[i], |streams[i]| - matchedLength[i])
      ensures Valid() && !addedLate && AllRestartable(sequences) ==>
                done.Success? && (done.value <==> forall i :: 0 <= i < |found| ==> Stopped(sequences, streams[i]))
    {
      hide Run, StopsAt, Stopped, Restartable;
      if |found| == 0 {
        return Failure(FailedPrecondition);
      }
      var all := true;
      for i := 0 to |found|
        invariant all <==> false !in found[..i]
      {
        if !found[i] {
          all := false;
          break;
        }
      }
      assert found[..|found|] == found;
      assert all <==> false !in found;
      assert all ==> forall i :: 0 <= i < |found| ==> ItemAt(i).found;
      if Valid() && !addedLate && AllRestartable(sequences) {
        forall i | 0 <= i < |found| ensures found[i] <==> Stopped(sequences, streams[i]) {
          FoundExactly(sequences, streams[i]);
          assert ItemAt(i).found == found[i];
        }
      }
      done := Success(all);
    }
  }
}
