/**
 When exactly the text before a stop sequence is released (`DecodeOneStep::Run` in
 runtime/core/tasks.cc), for detokenizers that give every token a text of its own.

 The queue withholds as much as the longest partial match of any stop sequence. If another sequence
 completes first, what was withheld for the longer match is lost. Whether that can happen is a
 condition on the stop sequences alone.
 */
module ReleasedText {
  import opened StopTokens
  import opened DecodeStep

  // ---------------------------------------------------------------------------------------------
  // The condition
  // ---------------------------------------------------------------------------------------------

  /**
   All but the last token of `sequences[j]` end a partial match of length `p` of `sequences[k]` that
   is at least as long as `sequences[j]`.
   */
  predicate Overhangs(sequences: seq<seq<int>>, j: nat, k: nat, p: nat) {
    && j < |sequences| && k < |sequences| && 0 < |sequences[j]| <= p < |sequences[k]|
    && sequences[k][p - |sequences[j]| + 1..p] == sequences[j][..|sequences[j]| - 1]
  }

  ghost predicate NoOverhang(sequences: seq<seq<int>>) {
    forall j, k, p :: !Overhangs(sequences, j, k, p)
  }

  /** The partial match of `sequences[k]`, followed by the last token of `sequences[j]`. */
  function OverhangStream(sequences: seq<seq<int>>, j: nat, k: nat, p: nat): seq<int>
    requires Overhangs(sequences, j, k, p)
  {
    sequences[k][..p] + [sequences[j][|sequences[j]| - 1]]
  }

  /** The overhang can be the first stop of a stream, with `sequences[j]` as the match that counts. */
  ghost predicate LosesText(sequences: seq<seq<int>>, j: nat, k: nat, p: nat) {
    && Overhangs(sequences, j, k, p)
    && (forall i :: 0 <= i < |sequences| ==> !OccursIn(sequences[i], sequences[k][..p]))
    && (forall i :: j < i < |sequences| ==>
          !EndsWith(OverhangStream(sequences, j, k, p), sequences[i], |sequences[i]|))
  }

  ghost predicate NothingLost(sequences: seq<seq<int>>) {
    forall j, k, p :: !LosesText(sequences, j, k, p)
  }

  /** Once the candidate has stopped, exactly the tokens before its stop sequence have been released. */
  ghost predicate ReleasesExactly(sequences: seq<seq<int>>, toText: Detokenizer, stream: seq<int>)
    requires NonEmpty(sequences)
  {
    var item := StopTokens.Run(sequences, stream);
    item.found ==>
      && item.matchedLength <= |stream|
      && Flat(FlowOf(sequences, toText, stream).emitted) == stream[..|stream| - item.matchedLength]
  }

  // ---------------------------------------------------------------------------------------------
  // The step that stops a candidate
  // ---------------------------------------------------------------------------------------------

  /** Two matches at the end of a stream: the end of the longer one is the shorter one. */
  lemma EndOfMatch(stream: seq<int>, s: seq<int>, m: nat, t: seq<int>, n: nat)
    requires EndsWith(stream, s, m) && EndsWith(stream, t, n) && n <= m
    ensures s[m - n..m] == t[..n]
  {
    assert s[m - n..m] == s[..m][m - n..] == stream[|stream| - m..][m - n..] == stream[|stream| - n..];
  }

  /** A match that is completed was one short before. */
  lemma OneShort(s: seq<int>, m: nat, token: int)
    requires s != [] && m < |s| && Advance(s, m, token) == |s|
    ensures m == |s| - 1 && token == s[|s| - 1]
  {
  }

  /** The sequence that counts at a stop, and the longest partial match before it. */
  lemma StopCandidates(sequences: seq<seq<int>>, item: Item, stream: seq<int>, token: int) returns (j: nat, k: nat)
    requires NonEmpty(sequences) && Sound(sequences, item, stream) && !item.found
    requires StepItem(sequences, item, token).found
    ensures j < |sequences| && k < |sequences|
    ensures item.progress[j] == |sequences[j]| - 1 && token == sequences[j][|sequences[j]| - 1]
    ensures StepItem(sequences, item, token).matchedLength == |sequences[j]|
    ensures forall i :: j < i < |sequences| ==> StepItem(sequences, item, token).progress[i] != |sequences[i]|
    ensures item.progress[k] == item.maxProgress >= |sequences[j]| - 1
  {
    hide EndsWith, LastMatch, AnyMatch;
    var progress := AdvanceAll(sequences, item.progress, token);
    j := LastMatchAt(sequences, progress, item.matchedLength);
    OneShort(sequences[j], item.progress[j], token);
    k := j;
    if item.progress[j] != item.maxProgress {
      k := LargestAt(item.progress);
    }
  }

  lemma LargestAt(ns: seq<nat>) returns (k: nat)
    requires Max(ns) > 0
    ensures k < |ns| && ns[k] == Max(ns)
  {
    k :| k < |ns| && ns[k] == Max(ns);
  }

  /** If the match that counts is not one longer than all before it, there is an overhang. */
  lemma OverhangAtStop(sequences: seq<seq<int>>, item: Item, stream: seq<int>, token: int) returns (j: nat, k: nat)
    requires NonEmpty(sequences) && Sound(sequences, item, stream) && !item.found
    requires StepItem(sequences, item, token).found
    requires StepItem(sequences, item, token).matchedLength != item.maxProgress + 1
    ensures Overhangs(sequences, j, k, item.maxProgress) && EndsWith(stream, sequences[k], item.maxProgress)
    ensures token == sequences[j][|sequences[j]| - 1]
    ensures forall i :: j < i < |sequences| ==> StepItem(sequences, item, token).progress[i] != |sequences[i]|
  {
    hide StepItem;
    j, k := StopCandidates(sequences, item, stream, token);
    EndOfMatch(stream, sequences[k], item.maxProgress, sequences[j], |sequences[j]| - 1);
  }

  // ---------------------------------------------------------------------------------------------
  // Exact release
  // ---------------------------------------------------------------------------------------------

  /** What is exact at the stop stays exact, however long decoding goes on. */
  lemma StaysExact(sequences: seq<seq<int>>, toText: Detokenizer, before: seq<int>, token: int)
    requires NonEmpty(sequences) && StopTokens.Run(sequences, before).found
    requires ReleasesExactly(sequences, toText, before)
    ensures ReleasesExactly(sequences, toText, before + [token])
  {
    hide FlowOf, StopTokens.Run, Flat;
    RunSound(sequences, before);
    RunSnoc(sequences, before, token);
    StepSound(sequences, StopTokens.Run(sequences, before), before, token);
    NothingReleasedAfterStop(sequences, toText, before, token);
  }

  /** A stream whose release is inexact has an overhang at its stop. */
  lemma {:induction false} InexactStop(sequences: seq<seq<int>>, toText: Detokenizer, stream: seq<int>)
    returns (before: seq<int>, token: int, j: nat, k: nat)
    requires NonEmpty(sequences) && NoIncomplete(toText) && !ReleasesExactly(sequences, toText, stream)
    ensures !StopTokens.Run(sequences, before).found
    ensures Overhangs(sequences, j, k, StopTokens.Run(sequences, before).maxProgress)
    ensures EndsWith(before, sequences[k], StopTokens.Run(sequences, before).maxProgress)
    ensures token == sequences[j][|sequences[j]| - 1]
    ensures forall i :: j < i < |sequences| ==>
              StopTokens.Run(sequences, before + [token]).progress[i] != |sequences[i]|
  {
    hide FlowOf, Flat, NoIncomplete, StepItem, Sound;
    var n := |stream| - 1;
    before, token := stream[..n], stream[n];
    assert before + [token] == stream;
    if StopTokens.Run(sequences, before).found {
      if ReleasesExactly(sequences, toText, before) {
        StaysExact(sequences, toText, before, token);
      }
      before, token, j, k := InexactStop(sequences, toText, before);
    } else {
      ReleasedExactly(sequences, toText, before, token);
      ShorterPrefix(before, token, StopTokens.Run(sequences, stream).matchedLength);
      RunSound(sequences, before);
      RunSnoc(sequences, before, token);
      j, k := OverhangAtStop(sequences, StopTokens.Run(sequences, before), before, token);
    }
  }

  lemma ShorterPrefix(before: seq<int>, token: int, n: nat)
    requires 0 < n <= |before| + 1
    ensures (before + [token])[..|before| + 1 - n] == before[..|before| + 1 - n]
  {
  }

  /**
   Stop sequences without overhang lose nothing: for every stream, and for as long as decoding goes
   on, exactly the tokens before the stop sequence are released.
   */
  lemma NoOverhangReleasesExactly(sequences: seq<seq<int>>, toText: Detokenizer, stream: seq<int>)
    requires NonEmpty(sequences) && NoIncomplete(toText) && NoOverhang(sequences)
    ensures ReleasesExactly(sequences, toText, stream)
  {
    hide ReleasesExactly, Overhangs;
    if !ReleasesExactly(sequences, toText, stream) {
      var before, token, j, k := InexactStop(sequences, toText, stream);
    }
  }

  lemma OneSequenceHasNoOverhang(s: seq<int>)
    ensures NoOverhang([s])
  {
  }

  // ---------------------------------------------------------------------------------------------
  // The exact condition for restartable sequences
  // ---------------------------------------------------------------------------------------------

  lemma OccursInEnd(s: seq<int>, stream: seq<int>, from: nat)
    requires from <= |stream| && OccursIn(s, stream[from..])
    ensures OccursIn(s, stream)
  {
    var n :| 0 <= n <= |stream[from..]| && EndsWith(stream[from..][..n], s, |s|);
    MatchInEnd(stream[..from + n], from, s, |s|);
    assert stream[..from + n][from..] == stream[from..][..n];
    assert EndsWith(stream[..from + n], s, |s|);
  }

  lemma MatchInEnd(stream: seq<int>, from: nat, s: seq<int>, m: nat)
    requires from <= |stream| && EndsWith(stream[from..], s, m)
    ensures EndsWith(stream, s, m)
  {
    assert stream[from..][|stream[from..]| - m..] == stream[|stream| - m..];
  }

  /** With restartable sequences, what is matched when the first one occurs is fully matched. */
  lemma MatchedAtFirstStop(sequences: seq<seq<int>>, before: seq<int>, token: int, i: nat)
    requires NonEmpty(sequences) && AllRestartable(sequences) && i < |sequences|
    requires !StopTokens.Run(sequences, before).found
    ensures StopTokens.Run(sequences, before + [token]).progress[i] == |sequences[i]| <==>
              EndsWith(before + [token], sequences[i], |sequences[i]|)
  {
    hide Restartable;
    var stream := before + [token];
    assert stream[..|stream| - 1] == before;
    FoundExactly(sequences, before);
    RunProgress(sequences, stream);
    ProgressSound(sequences[i], stream);
    if EndsWith(stream, sequences[i], |sequences[i]|) {
      ProgressLongest(sequences[i], stream, |sequences[i]|);
    }
  }

  /** The overhang of an inexact stop can be the first stop of a stream of its own. */
  lemma InexactLosesText(sequences: seq<seq<int>>, toText: Detokenizer, stream: seq<int>) returns (j: nat, k: nat, p: nat)
    requires NonEmpty(sequences) && AllRestartable(sequences) && NoIncomplete(toText)
    requires !ReleasesExactly(sequences, toText, stream)
    ensures LosesText(sequences, j, k, p)
  {
    hide ReleasesExactly, StopTokens.Run, NoIncomplete, Restartable;
    var before, token;
    before, token, j, k := InexactStop(sequences, toText, stream);
    p := StopTokens.Run(sequences, before).maxProgress;
    var from := |before| - p;
    assert before[from..] == sequences[k][..p];
    FoundExactly(sequences, before);
    forall i | 0 <= i < |sequences| ensures !OccursIn(sequences[i], sequences[k][..p]) {
      if OccursIn(sequences[i], before[from..]) {
        OccursInEnd(sequences[i], before, from);
      }
    }
    assert (before + [token])[from..] == OverhangStream(sequences, j, k, p);
    forall i | j < i < |sequences|
      ensures !EndsWith(OverhangStream(sequences, j, k, p), sequences[i], |sequences[i]|)
    {
      if EndsWith(OverhangStream(sequences, j, k, p), sequences[i], |sequences[i]|) {
        MatchInEnd(before + [token], from, sequences[i], |sequences[i]|);
        MatchedAtFirstStop(sequences, before, token, i);
      }
    }
  }

  /** Such a stream is inexact: nothing is released, though there are tokens before the stop sequence. */
  lemma LosingStream(sequences: seq<seq<int>>, toText: Detokenizer, j: nat, k: nat, p: nat)
    requires NonEmpty(sequences) && AllRestartable(sequences) && NoIncomplete(toText)
    requires LosesText(sequences, j, k, p)
    ensures var stream := OverhangStream(sequences, j, k, p);
            && StopTokens.Run(sequences, stream).found
            && StopTokens.Run(sequences, stream).matchedLength == |sequences[j]| < |stream|
            && Flat(FlowOf(sequences, toText, stream).emitted) == []
            && !ReleasesExactly(sequences, toText, stream)
  {
    hide FlowOf, Flat, NoIncomplete, Restartable;
    var before, token := sequences[k][..p], sequences[j][|sequences[j]| - 1];
    var stream := OverhangStream(sequences, j, k, p);
    LosingStart(sequences, k, p);
    LosingStop(sequences, j, k, p);
    WithheldExactly(sequences, toText, before);
    NothingReleasedAfterStop(sequences, toText, before, token);
    assert Flat(FlowOf(sequences, toText, stream).emitted) == before[..0] == [];
  }

  /** Before the stop, the whole stream is withheld. */
  lemma LosingStart(sequences: seq<seq<int>>, k: nat, p: nat)
    requires NonEmpty(sequences) && AllRestartable(sequences) && k < |sequences| && p < |sequences[k]|
    requires forall i :: 0 <= i < |sequences| ==> !OccursIn(sequences[i], sequences[k][..p])
    ensures !StopTokens.Run(sequences, sequences[k][..p]).found
    ensures StopTokens.Run(sequences, sequences[k][..p]).maxProgress >= p
  {
    hide StopTokens.Run, Restartable, OccursIn;
    var before := sequences[k][..p];
    FoundExactly(sequences, before);
    if before != [] {
      NotStoppedBefore(sequences, before);
    }
    RunProgress(sequences, before);
    ProgressOnPrefix(sequences[k], p);
    RunSound(sequences, before);
    assert StopTokens.Run(sequences, before).progress[k] == p;
  }

  lemma LosingStop(sequences: seq<seq<int>>, j: nat, k: nat, p: nat)
    requires NonEmpty(sequences) && AllRestartable(sequences) && LosesText(sequences, j, k, p)
    requires !StopTokens.Run(sequences, sequences[k][..p]).found
    ensures StopTokens.Run(sequences, OverhangStream(sequences, j, k, p)).found
    ensures StopTokens.Run(sequences, OverhangStream(sequences, j, k, p)).matchedLength == |sequences[j]|
  {
    hide Restartable, OccursIn;
    var before, s := sequences[k][..p], sequences[j];
    var token, stream := s[|s| - 1], before + [s[|s| - 1]];
    assert EndsWith(stream, s, |s|) by {
      assert before[p - |s| + 1..] == s[..|s| - 1];
      EndsWithSnoc(before, token, s, |s| - 1);
    }
    forall i | j <= i < |sequences|
      ensures StopTokens.Run(sequences, stream).progress[i] == |sequences[i]| <==> i == j
    {
      MatchedAtFirstStop(sequences, before, token, i);
    }
    RunSnoc(sequences, before, token);
    var item := StopTokens.Run(sequences, before);
    var progress := AdvanceAll(sequences, item.progress, token);
    assert AnyMatch(sequences, progress);
    var last := LastMatchAt(sequences, progress, item.matchedLength);
    assert last == j;
  }

  /**
   The exact condition: restartable stop sequences never lose text, whatever the stream, if and only
   if no overhang can be a first stop.
   */
  lemma ExactlyWhenNothingLost(sequences: seq<seq<int>>, toText: Detokenizer)
    requires NonEmpty(sequences) && AllRestartable(sequences) && NoIncomplete(toText)
    ensures (forall stream: seq<int> :: ReleasesExactly(sequences, toText, stream)) <==> NothingLost(sequences)
  {
    hide ReleasesExactly, Restartable, NoIncomplete;
    if NothingLost(sequences) {
      forall stream: seq<int> ensures ReleasesExactly(sequences, toText, stream) {
        if !ReleasesExactly(sequences, toText, stream) {
          var j, k, p := InexactLosesText(sequences, toText, stream);
        }
      }
    } else {
      var j, k, p :| LosesText(sequences, j, k, p);
      LosingStream(sequences, toText, j, k, p);
    }
  }

  /** No sequence occurs inside another one. */
  ghost predicate NoneInside(sequences: seq<seq<int>>) {
    forall i, k, n :: 0 <= i < |sequences| && 0 <= k < |sequences| && i != k && 0 <= n <= |sequences[k]| ==>
      !EndsWith(sequences[k][..n], sequences[i], |sequences[i]|)
  }

  /** When no sequence occurs inside another one, every overhang loses text. */
  lemma OverhangLosesText(sequences: seq<seq<int>>)
    requires NonEmpty(sequences) && NoneInside(sequences)
    ensures NothingLost(sequences) <==> NoOverhang(sequences)
  {
    forall j, k, p | Overhangs(sequences, j, k, p) ensures LosesText(sequences, j, k, p) {
      InsideNothing(sequences, j, k, p);
    }
  }

  lemma InsideNothing(sequences: seq<seq<int>>, j: nat, k: nat, p: nat)
    requires NonEmpty(sequences) && NoneInside(sequences) && Overhangs(sequences, j, k, p)
    ensures LosesText(sequences, j, k, p)
  {
    var s, stream := sequences[j], OverhangStream(sequences, j, k, p);
    forall i, n | 0 <= i < |sequences| && 0 <= n <= p
      ensures !EndsWith(sequences[k][..p][..n], sequences[i], |sequences[i]|)
    {
      assert sequences[k][..p][..n] == sequences[k][..n];
    }
    assert EndsWith(stream, s, |s|) by {
      assert sequences[k][..p][p - |s| + 1..] == s[..|s| - 1];
      EndsWithSnoc(sequences[k][..p], s[|s| - 1], s, |s| - 1);
    }
    forall i | j < i < |sequences| ensures !EndsWith(stream, sequences[i], |sequences[i]|) {
      if EndsWith(stream, sequences[i], |sequences[i]|) {
        OneInsideOther(stream, s, sequences[i]);
      }
    }
  }

  lemma OneInsideOther(stream: seq<int>, s: seq<int>, t: seq<int>)
    requires EndsWith(stream, s, |s|) && EndsWith(stream, t, |t|)
    ensures EndsWith(s[..|s|], t, |t|) || EndsWith(t[..|t|], s, |s|)
  {
    if |t| <= |s| {
      EndOfMatch(stream, s, |s|, t, |t|);
      assert s[|s| - |t|..] == s[|s| - |t|..|s|];
    } else {
      EndOfMatch(stream, t, |t|, s, |s|);
      assert t[|t| - |s|..] == t[|t| - |s|..|t|];
    }
  }

  /** Text that is lost: with the sequences `1 2 3` and `2 4`, nothing of `1 2 4` is released. */
  lemma LostExample(toText: Detokenizer)
    requires NoIncomplete(toText)
    ensures var sequences, stream := [[1, 2, 3], [2, 4]], [1, 2, 4];
            && StopTokens.Run(sequences, stream).found && StopTokens.Run(sequences, stream).matchedLength == 2
            && Flat(FlowOf(sequences, toText, stream).emitted) == []
            && !ReleasesExactly(sequences, toText, stream)
  {
    hide StopTokens.Run, FlowOf, Flat, OccursIn, ReleasesExactly, NoIncomplete;
    var s, t := [1, 2, 3], [2, 4];
    var sequences := [s, t];
    assert s[..2] == [1, 2] && s[1..2] == [2] == t[..1];
    NotIn(s, 1, 2);
    NotIn(t, 1, 2);
    assert Overhangs(sequences, 1, 0, 2) && OverhangStream(sequences, 1, 0, 2) == [1, 2, 4];
    assert LosesText(sequences, 1, 0, 2);
    LosingStream(sequences, toText, 1, 0, 2);
  }

  /** A longer sequence, or one of two tokens with another end, does not occur in two tokens. */
  lemma NotIn(s: seq<int>, x: int, y: int)
    requires |s| > 2 || (|s| == 2 && s[1] != y)
    ensures !OccursIn(s, [x, y])
  {
    forall n | 0 <= n <= 2 ensures !EndsWith([x, y][..n], s, |s|) {
      assert [x, y][..2] == [x, y] == [x, y][0..];
      assert s[..|s|] == s;
    }
  }

  /**
   With incomplete byte-pair results even a single sequence can lose text: with the sequence `7 8` and
   a token 1 that has a text only together with 7, nothing of `1 7 8` is released.
   */
  lemma LostIncompleteExample(toText: Detokenizer)
    requires toText([1]).None? && toText([1, 7]).Some?
    ensures var sequences, stream := [[7, 8]], [1, 7, 8];
            && StopTokens.Run(sequences, stream).found && StopTokens.Run(sequences, stream).matchedLength == 2
            && Flat(FlowOf(sequences, toText, stream).emitted) == []
            && !ReleasesExactly(sequences, toText, stream)
  {
    hide Max, AnyMatch, LastMatch, Flat;
    var s := [7, 8];
    var sequences, flow0 := [s], Flow([], [], []);
    var item0 := InitialItem(sequences);
    ItemOfOne(s, item0, 1, 0);
    var item1 := StepItem(sequences, item0, 1);
    ItemOfOne(s, item1, 7, 1);
    var item2 := StepItem(sequences, item1, 7);
    ItemOfOne(s, item2, 8, 2);
    assert [] + [1] == [1] && [1] + [7] == [1, 7] && [1, 7] + [8] == [1, 7, 8];
    RunSnoc(sequences, [], 1);
    RunSnoc(sequences, [1], 7);
    RunSnoc(sequences, [1, 7], 8);
    FlowSnoc(sequences, toText, [], 1);
    FlowSnoc(sequences, toText, [1], 7);
    FlowSnoc(sequences, toText, [1, 7], 8);
    assert FlowOf(sequences, toText, [1]) == Flow([], [], [1]);
    assert FlowOf(sequences, toText, [1, 7]) == Flow([], [[1, 7]], []);
    assert Flat([]) == [] by { FlatNothing(); }
  }

  lemma FlatNothing()
    ensures Flat([]) == []
  {
  }

  /** One step with a single sequence. */
  lemma ItemOfOne(s: seq<int>, item: Item, token: int, m: nat)
    requires s != [] && |item.progress| == 1 && !item.found && m == Advance(s, item.progress[0], token)
    ensures var next := StepItem([s], item, token);
            && next.progress == [m] && next.maxProgress == m && (next.found <==> m == |s|)
            && (m == |s| ==> next.matchedLength == |s|)
  {
    var progress := AdvanceAll([s], item.progress, token);
    assert progress == [m] && progress[..0] == [];
    assert Max([m]) == m by { assert [m][..0] == []; }
    LastMatchIsMatch([s], progress, item.matchedLength);
    assert AnyMatch([s], progress) <==> m == |s| by { assert progress[0] == m; }
  }

  // ---------------------------------------------------------------------------------------------
  // The text
  // ---------------------------------------------------------------------------------------------

  /** The texts of the tokens, one by one, put together. */
  function TokenText(toText: Detokenizer, tokens: seq<int>): string {
    if tokens == [] then ""
    else TokenText(toText, tokens[..|tokens| - 1]) + TextOf(toText, [tokens[|tokens| - 1]])
  }

  /** Groups of one token have the text of their tokens. */
  lemma {:induction false} SinglesText(toText: Detokenizer, groups: seq<seq<int>>)
    requires Singles(groups)
    ensures Join(Texts(toText, groups)) == TokenText(toText, Flat(groups))
  {
    if groups == [] {
      assert Texts(toText, groups) == [];
    } else {
      var n := |groups| - 1;
      SinglesText(toText, groups[..n]);
      assert Texts(toText, groups)[..n] == Texts(toText, groups[..n]);
      assert groups[n] == [groups[n][0]];
      TokenTextSnoc(toText, Flat(groups[..n]), groups[n][0]);
    }
  }

  lemma TokenTextSnoc(toText: Detokenizer, tokens: seq<int>, token: int)
    ensures TokenText(toText, tokens + [token]) == TokenText(toText, tokens) + TextOf(toText, [token])
  {
    assert (tokens + [token])[..|tokens|] == tokens;
  }

  /** When every token has a text of its own, tokens are never grouped. */
  lemma {:induction false} NeverGrouped(sequences: seq<seq<int>>, toText: Detokenizer, stream: seq<int>)
    requires NonEmpty(sequences) && NoIncomplete(toText)
    ensures var flow := FlowOf(sequences, toText, stream);
            Singles(flow.emitted) && Singles(flow.queued) && flow.partial == []
  {
    hide StopTokens.Run, StepFlow, NoIncomplete;
    if stream != [] {
      var n := |stream| - 1;
      var item := StopTokens.Run(sequences, stream);
      NeverGrouped(sequences, toText, stream[..n]);
      StepNeverGroups(toText, FlowOf(sequences, toText, stream[..n]), stream[n], item.found, item.maxProgress);
    }
  }

  lemma StepNeverGroups(toText: Detokenizer, flow: Flow, token: int, found: bool, maxPartial: nat)
    requires NoIncomplete(toText) && Singles(flow.emitted) && Singles(flow.queued) && flow.partial == []
    ensures var next := StepFlow(toText, flow, token, found, maxPartial);
            Singles(next.emitted) && Singles(next.queued) && next.partial == []
  {
    assert flow.partial + [token] == [token];
  }

  /**
   The text released: before the stop, that of all tokens but the longest partial match; from the
   stop on, if the release is exact, that of all tokens before the stop sequence.
   */
  lemma ReleasedTextExactly(sequences: seq<seq<int>>, toText: Detokenizer, stream: seq<int>)
    requires NonEmpty(sequences) && NoIncomplete(toText)
    ensures var item, text := StopTokens.Run(sequences, stream), Join(Texts(toText, FlowOf(sequences, toText, stream).emitted));
            && (!item.found ==>
                  item.maxProgress <= |stream| && text == TokenText(toText, stream[..|stream| - item.maxProgress]))
            && (item.found && ReleasesExactly(sequences, toText, stream) ==>
                  item.matchedLength <= |stream| && text == TokenText(toText, stream[..|stream| - item.matchedLength]))
  {
    hide StopTokens.Run, FlowOf, NoIncomplete, Join, Texts, Flat;
    NeverGrouped(sequences, toText, stream);
    SinglesText(toText, FlowOf(sequences, toText, stream).emitted);
    if !StopTokens.Run(sequences, stream).found {
      WithheldExactly(sequences, toText, stream);
    }
  }

  /** Without overhang, the output is exactly the text before the stop sequence, however long decoding goes on. */
  lemma NoOverhangReleasesText(sequences: seq<seq<int>>, toText: Detokenizer, stream: seq<int>)
    requires NonEmpty(sequences) && NoIncomplete(toText) && NoOverhang(sequences)
    requires StopTokens.Run(sequences, stream).found
    ensures var item, emitted := StopTokens.Run(sequences, stream), FlowOf(sequences, toText, stream).emitted;
            && item.matchedLength <= |stream|
            && Flat(emitted) == stream[..|stream| - item.matchedLength]
            && Join(Texts(toText, emitted)) == TokenText(toText, stream[..|stream| - item.matchedLength])
  {
    hide StopTokens.Run, FlowOf, NoIncomplete, Join, Texts, Flat, NoOverhang;
    NoOverhangReleasesExactly(sequences, toText, stream);
    ReleasedTextExactly(sequences, toText, stream);
  }

  /** In particular with a single stop sequence. */
  lemma OneSequenceReleasedExactly(s: seq<int>, toText: Detokenizer, stream: seq<int>)
    requires s != [] && NoIncomplete(toText) && StopTokens.Run([s], stream).found
    ensures var item, emitted := StopTokens.Run([s], stream), FlowOf([s], toText, stream).emitted;
            && item.matchedLength <= |stream|
            && Flat(emitted) == stream[..|stream| - item.matchedLength]
            && Join(Texts(toText, emitted)) == TokenText(toText, stream[..|stream| - item.matchedLength])
  {
    hide StopTokens.Run, FlowOf, NoIncomplete, Join, Texts, Flat, NoOverhang, TokenText;
    OneSequenceHasNoOverhang(s);
    NoOverhangReleasesText([s], toText, stream);
  }
}
