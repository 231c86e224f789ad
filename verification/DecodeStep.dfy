/**
 One decoding step (`DecodeOneStep::Run` in runtime/core/tasks.cc): merging incomplete byte-pair
 tokens, withholding text that may belong to a stop sequence, and releasing the rest.
 */
module DecodeStep {
  import opened Wrappers
  import opened StopTokens

  /** The text of a group of token ids, or `None` if they are an incomplete byte-pair sequence. */
  type Detokenizer = seq<int> -> Option<string>

  /**
   Where the tokens of one candidate have gone. A group is a run of token ids that were turned into
   text together.
   */
  datatype Flow = Flow(emitted: seq<seq<int>>, queued: seq<seq<int>>, partial: seq<int>)

  function Flat(groups: seq<seq<int>>): seq<int> {
    if groups == [] then [] else Flat(groups[..|groups| - 1]) + groups[|groups| - 1]
  }

  function TextOf(toText: Detokenizer, group: seq<int>): string {
    match toText(group) case Some(text) => text case None => ""
  }

  function Texts(toText: Detokenizer, groups: seq<seq<int>>): seq<string> {
    seq(|groups|, i requires 0 <= i < |groups| => TextOf(toText, groups[i]))
  }

  function Join(texts: seq<string>): string {
    if texts == [] then "" else Join(texts[..|texts| - 1]) + texts[|texts| - 1]
  }

  /** One token for one candidate, given what the detector says after that token. */
  function StepFlow(toText: Detokenizer, flow: Flow, token: int, found: bool, maxPartial: nat): Flow {
    var merged := flow.partial + [token];
    if toText(merged).None? then flow.(partial := merged)
    else if found then flow
    else if maxPartial == 0 then Flow(flow.emitted + flow.queued + [merged], [], [])
    else
      var queue := flow.queued + [merged];
      var release := if |queue| > maxPartial then |queue| - maxPartial else 0;
      Flow(flow.emitted + queue[..release], queue[release..], [])
  }

  // ---------------------------------------------------------------------------------------------
  // No token of a stop sequence is released
  // ---------------------------------------------------------------------------------------------

  lemma {:induction false} FlatConcat(a: seq<seq<int>>, b: seq<seq<int>>)
    ensures Flat(a + b) == Flat(a) + Flat(b)
  {
    if b == [] {
      assert a + b == a;
    } else {
      var n := |b| - 1;
      FlatConcat(a, b[..n]);
      assert (a + b)[..|a| + n] == a + b[..n];
    }
  }

  lemma {:induction false} FlatLength(groups: seq<seq<int>>)
    requires forall i :: 0 <= i < |groups| ==> groups[i] != []
    ensures |groups| <= |Flat(groups)|
  {
    if groups != [] {
      FlatLength(groups[..|groups| - 1]);
    }
  }

  ghost predicate NoEmptyGroup(groups: seq<seq<int>>) {
    forall i :: 0 <= i < |groups| ==> groups[i] != []
  }

  /** The number of tokens that are not released. */
  ghost function Withheld(flow: Flow): nat {
    |Flat(flow.queued)| + |flow.partial|
  }

  /**
   Before the candidate stops, every token is released, queued or partial, in order, and at least as
   many tokens are withheld as the longest partial match. After it stops, only tokens before the
   stop sequence have been released.
   */
  ghost predicate Safe(flow: Flow, item: Item, stream: seq<int>) {
    && NoEmptyGroup(flow.queued)
    && (!item.found ==>
          && Flat(flow.emitted) + Flat(flow.queued) + flow.partial == stream
          && Withheld(flow) >= item.maxProgress)
    && (item.found ==>
          && item.matchedLength <= |stream|
          && Flat(flow.emitted) <= stream[..|stream| - item.matchedLength])
  }

  lemma FlatSnoc(groups: seq<seq<int>>, group: seq<int>)
    ensures Flat(groups + [group]) == Flat(groups) + group
  {
    assert (groups + [group])[..|groups|] == groups;
  }

  lemma ReleaseFlat(emitted: seq<seq<int>>, queue: seq<seq<int>>, release: nat)
    requires release <= |queue|
    ensures Flat(emitted + queue[..release]) + Flat(queue[release..]) == Flat(emitted) + Flat(queue)
  {
    hide Flat;
    FlatConcat(emitted, queue[..release]);
    FlatConcat(queue[..release], queue[release..]);
    assert queue[..release] + queue[release..] == queue;
  }

  lemma StepFlowFlat(toText: Detokenizer, flow: Flow, token: int, maxPartial: nat)
    requires NoEmptyGroup(flow.queued)
    ensures var next := StepFlow(toText, flow, token, false, maxPartial);
            && NoEmptyGroup(next.queued)
            && Flat(next.emitted) + Flat(next.queued) + next.partial
               == Flat(flow.emitted) + Flat(flow.queued) + flow.partial + [token]
            && (maxPartial <= Withheld(flow) + 1 ==> Withheld(next) >= maxPartial)
  {
    hide Flat;
    var merged := flow.partial + [token];
    var next := StepFlow(toText, flow, token, false, maxPartial);
    if toText(merged).Some? {
      var queue := flow.queued + [merged];
      var release := if |queue| > maxPartial then |queue| - maxPartial else 0;
      FlatSnoc(flow.queued, merged);
      ReleaseFlat(flow.emitted, queue, release);
      if maxPartial == 0 {
        assert flow.emitted + flow.queued + [merged] == flow.emitted + queue[..release];
        assert queue[release..] == [];
      } else if release > 0 {
        FlatLength(next.queued);
      } else {
        assert queue[0..] == queue && flow.emitted + queue[..0] == flow.emitted;
      }
    } else {
      assert flow.partial + [token] == next.partial;
    }
  }

  /** One step keeps `Safe`: in particular when it is the step that stops the candidate. */
  lemma StepSafe(sequences: seq<seq<int>>, toText: Detokenizer, flow: Flow, item: Item, stream: seq<int>, token: int)
    requires NonEmpty(sequences) && |item.progress| == |sequences|
    requires Sound(sequences, item, stream) && Safe(flow, item, stream)
    ensures var next := StepItem(sequences, item, token);
            Safe(StepFlow(toText, flow, token, next.found, next.maxProgress), next, stream + [token])
  {
    hide Flat, StepItem, Sound;
    var next := StepItem(sequences, item, token);
    StepSound(sequences, item, stream, token);
    if item.found {
      SafeAfterStop(sequences, toText, flow, item, stream, token);
    } else {
      MatchWasExpected(sequences, item, stream, token);
      if next.found {
        SafeAtStop(toText, flow, item, stream, token, next);
      } else {
        StepFlowFlat(toText, flow, token, next.maxProgress);
        assert Flat(flow.emitted) + Flat(flow.queued) + flow.partial + [token] == stream + [token];
      }
    }
  }

  lemma SafeAfterStop(sequences: seq<seq<int>>, toText: Detokenizer, flow: Flow, item: Item, stream: seq<int>, token: int)
    requires NonEmpty(sequences) && |item.progress| == |sequences|
    requires item.found && Safe(flow, item, stream)
    ensures var next := StepItem(sequences, item, token);
            Safe(StepFlow(toText, flow, token, next.found, next.maxProgress), next, stream + [token])
  {
    var n := |stream| - item.matchedLength;
    assert (stream + [token])[..n] == stream[..n];
  }

  lemma SafeAtStop(toText: Detokenizer, flow: Flow, item: Item, stream: seq<int>, token: int, next: Item)
    requires !item.found && Safe(flow, item, stream)
    requires next.found && next.matchedLength <= next.maxProgress <= item.maxProgress + 1
    requires next.matchedLength <= |stream| + 1
    ensures Safe(StepFlow(toText, flow, token, true, next.maxProgress), next, stream + [token])
  {
    hide Flat;
    var n := |stream| + 1 - next.matchedLength;
    assert |Flat(flow.emitted)| <= n;
    assert (stream + [token])[..n][..|Flat(flow.emitted)|] == stream[..|Flat(flow.emitted)|];
  }

  // --- whole streams ---

  /** The flow of a whole stream. */
  function FlowOf(sequences: seq<seq<int>>, toText: Detokenizer, stream: seq<int>): Flow
    requires NonEmpty(sequences)
  {
    if stream == [] then Flow([], [], [])
    else
      var n := |stream| - 1;
      var item := StopTokens.Run(sequences, stream);
      StepFlow(toText, FlowOf(sequences, toText, stream[..n]), stream[n], item.found, item.maxProgress)
  }

  lemma FlowSnoc(sequences: seq<seq<int>>, toText: Detokenizer, stream: seq<int>, token: int)
    requires NonEmpty(sequences)
    ensures var item := StopTokens.Run(sequences, stream + [token]);
            FlowOf(sequences, toText, stream + [token])
            == StepFlow(toText, FlowOf(sequences, toText, stream), token, item.found, item.maxProgress)
  {
    assert (stream + [token])[..|stream|] == stream;
  }

  lemma {:induction false} RunSafe(sequences: seq<seq<int>>, toText: Detokenizer, stream: seq<int>)
    requires NonEmpty(sequences)
    ensures Safe(FlowOf(sequences, toText, stream), StopTokens.Run(sequences, stream), stream)
  {
    if stream == [] {
      assert Max(InitialItem(sequences).progress) == 0;
    } else {
      hide StepFlow, StepItem, Safe, Sound;
      var n := |stream| - 1;
      RunSafe(sequences, toText, stream[..n]);
      RunSound(sequences, stream[..n]);
      StepSafe(sequences, toText, FlowOf(sequences, toText, stream[..n]),
               StopTokens.Run(sequences, stream[..n]), stream[..n], stream[n]);
      assert stream[..n] + [stream[n]] == stream;
    }
  }

  /**
   For any set of stop sequences and any pattern of incomplete byte-pair results: before a stop
   sequence is found the released tokens are a prefix of the stream, and from then on they end
   before it.
   */
  lemma NoStopTokenReleased(sequences: seq<seq<int>>, toText: Detokenizer, stream: seq<int>)
    requires NonEmpty(sequences)
    ensures var item, flow := StopTokens.Run(sequences, stream), FlowOf(sequences, toText, stream);
            && (!item.found ==> Flat(flow.emitted) <= stream)
            && (item.found ==>
                  && item.matchedLength <= |stream|
                  && StopsAt(sequences, stream, |stream| - item.matchedLength)
                  && Flat(flow.emitted) <= stream[..|stream| - item.matchedLength])
  {
    hide Flat, FlowOf, StopTokens.Run, StopsAt;
    RunSafe(sequences, toText, stream);
    RunSound(sequences, stream);
  }

  /** After a candidate has stopped, nothing is released any more. */
  lemma NothingReleasedAfterStop(sequences: seq<seq<int>>, toText: Detokenizer, stream: seq<int>, token: int)
    requires NonEmpty(sequences) && StopTokens.Run(sequences, stream + [token]).found
    ensures FlowOf(sequences, toText, stream + [token]).emitted == FlowOf(sequences, toText, stream).emitted
    ensures FlowOf(sequences, toText, stream + [token]).queued == FlowOf(sequences, toText, stream).queued
  {
    assert (stream + [token])[..|stream|] == stream;
  }

  /** The flow of a whole stream when the detector starts in any state. */
  function FlowFrom(sequences: seq<seq<int>>, toText: Detokenizer, start: Item, stream: seq<int>): Flow
    requires NonEmpty(sequences) && |start.progress| == |sequences|
  {
    if stream == [] then Flow([], [], [])
    else
      var n := |stream| - 1;
      var item := ItemFrom(sequences, start, stream);
      StepFlow(toText, FlowFrom(sequences, toText, start, stream[..n]), stream[n], item.found, item.maxProgress)
  }

  lemma FlowFromSnoc(sequences: seq<seq<int>>, toText: Detokenizer, start: Item, stream: seq<int>, token: int)
    requires NonEmpty(sequences) && |start.progress| == |sequences|
    ensures var item := ItemFrom(sequences, start, stream + [token]);
            FlowFrom(sequences, toText, start, stream + [token])
            == StepFlow(toText, FlowFrom(sequences, toText, start, stream), token, item.found, item.maxProgress)
  {
    assert (stream + [token])[..|stream|] == stream;
  }

  lemma OneMoreToken(sequences: seq<seq<int>>, toText: Detokenizer, start: Item, stream: seq<int>, token: int, before: Flow,
                     item: Item, flow: Flow)
    requires NonEmpty(sequences) && |start.progress| == |sequences|
    requires item == StepItem(sequences, ItemFrom(sequences, start, stream), token)
    requires before == FlowFrom(sequences, toText, start, stream)
    requires flow == StepFlow(toText, before, token, item.found, item.maxProgress)
    ensures item == ItemFrom(sequences, start, stream + [token])
    ensures flow == FlowFrom(sequences, toText, start, stream + [token])
  {
    hide StepFlow, StepItem;
    ItemFromSnoc(sequences, start, stream, token);
    FlowFromSnoc(sequences, toText, start, stream, token);
  }

  lemma {:induction false} FlowFromStart(sequences: seq<seq<int>>, toText: Detokenizer, stream: seq<int>)
    requires NonEmpty(sequences)
    ensures FlowFrom(sequences, toText, InitialItem(sequences), stream) == FlowOf(sequences, toText, stream)
  {
    ItemFromStart(sequences, stream);
    if stream != [] {
      FlowFromStart(sequences, toText, stream[..|stream| - 1]);
    }
  }

  // --- exactness when every token has a text of its own ---

  ghost predicate NoIncomplete(toText: Detokenizer) {
    forall token :: toText([token]).Some?
  }

  ghost predicate Singles(groups: seq<seq<int>>) {
    forall i :: 0 <= i < |groups| ==> |groups[i]| == 1
  }

  lemma {:induction false} SinglesLength(groups: seq<seq<int>>)
    requires Singles(groups)
    ensures |Flat(groups)| == |groups|
  {
    if groups != [] {
      SinglesLength(groups[..|groups| - 1]);
    }
  }

  lemma {:induction false} QueuedExactly(sequences: seq<seq<int>>, toText: Detokenizer, stream: seq<int>)
    requires NonEmpty(sequences) && NoIncomplete(toText)
    requires !StopTokens.Run(sequences, stream).found
    ensures var item, flow := StopTokens.Run(sequences, stream), FlowOf(sequences, toText, stream);
            Singles(flow.queued) && flow.partial == [] && |flow.queued| == item.maxProgress
  {
    hide StepItem, Sound, StepFlow, NoIncomplete;
    if stream != [] {
      var n := |stream| - 1;
      var before, next := StopTokens.Run(sequences, stream[..n]), StopTokens.Run(sequences, stream);
      StoppedStays(sequences, before, stream[n]);
      QueuedExactly(sequences, toText, stream[..n]);
      RunSound(sequences, stream[..n]);
      ExpectedGrowth(sequences, before, stream[..n], stream[n]);
      SinglesStep(toText, FlowOf(sequences, toText, stream[..n]), stream[n], before.maxProgress, next.maxProgress);
    }
  }

  /** Without incomplete tokens, exactly the longest partial match is withheld before the stop. */
  lemma WithheldExactly(sequences: seq<seq<int>>, toText: Detokenizer, stream: seq<int>)
    requires NonEmpty(sequences) && NoIncomplete(toText)
    requires !StopTokens.Run(sequences, stream).found
    ensures var item, flow := StopTokens.Run(sequences, stream), FlowOf(sequences, toText, stream);
            && item.maxProgress <= |stream|
            && Flat(flow.emitted) == stream[..|stream| - item.maxProgress]
  {
    hide FlowOf, StopTokens.Run, NoIncomplete;
    var item, flow := StopTokens.Run(sequences, stream), FlowOf(sequences, toText, stream);
    QueuedExactly(sequences, toText, stream);
    RunSafe(sequences, toText, stream);
    SinglesLength(flow.queued);
    assert flow.partial == [];
  }

  lemma StoppedStays(sequences: seq<seq<int>>, item: Item, token: int)
    requires NonEmpty(sequences) && |item.progress| == |sequences|
    ensures item.found ==> StepItem(sequences, item, token).found
  {
  }

  lemma ExpectedGrowth(sequences: seq<seq<int>>, item: Item, stream: seq<int>, token: int)
    requires NonEmpty(sequences) && |item.progress| == |sequences|
    requires Sound(sequences, item, stream) && !item.found
    ensures StepItem(sequences, item, token).maxProgress <= item.maxProgress + 1
  {
    MatchWasExpected(sequences, item, stream, token);
  }

  lemma SinglesStep(toText: Detokenizer, flow: Flow, token: int, held: nat, maxPartial: nat)
    requires NoIncomplete(toText) && Singles(flow.queued) && flow.partial == []
    requires |flow.queued| == held && maxPartial <= held + 1
    ensures var next := StepFlow(toText, flow, token, false, maxPartial);
            Singles(next.queued) && next.partial == [] && |next.queued| == maxPartial
  {
    assert flow.partial + [token] == [token];
  }

  /**
   At the step that stops the candidate, what was released is exactly the text before the stop
   sequence if and only if no stop sequence had a longer partial match.
   */
  lemma ReleasedExactly(sequences: seq<seq<int>>, toText: Detokenizer, stream: seq<int>, token: int)
    requires NonEmpty(sequences) && NoIncomplete(toText)
    requires !StopTokens.Run(sequences, stream).found && StopTokens.Run(sequences, stream + [token]).found
    ensures var before, item := StopTokens.Run(sequences, stream), StopTokens.Run(sequences, stream + [token]);
            && 0 < item.matchedLength <= |stream| + 1
            && (Flat(FlowOf(sequences, toText, stream + [token]).emitted) == stream[..|stream| + 1 - item.matchedLength]
                <==> item.matchedLength == before.maxProgress + 1)
  {
    WithheldExactly(sequences, toText, stream);
    NothingReleasedAfterStop(sequences, toText, stream, token);
    RunSound(sequences, stream + [token]);
  }

  // --- every occurrence, not only the one that was detected ---

  /** No token of a partial or full match at the end of the stream has been released. */
  ghost predicate HoldsBackMatches(s: seq<int>, stream: seq<int>, released: nat) {
    released <= |stream| && forall m :: EndsWith(stream, s, m) ==> released <= |stream| - m
  }

  /** No token of any occurrence of `s` in the stream has been released. */
  ghost predicate HoldsBackOccurrences(s: seq<int>, stream: seq<int>, released: nat) {
    forall n :: 0 <= n <= |stream| && EndsWith(stream[..n], s, |s|) ==> released <= n - |s|
  }

  ghost function Released(sequences: seq<seq<int>>, toText: Detokenizer, stream: seq<int>): nat
    requires NonEmpty(sequences)
  {
    |Flat(FlowOf(sequences, toText, stream).emitted)|
  }

  lemma HoldsBackSnoc(s: seq<int>, stream: seq<int>, token: int, released: nat)
    requires HoldsBackMatches(s, stream, released)
    ensures HoldsBackMatches(s, stream + [token], released)
  {
    forall m: nat | EndsWith(stream + [token], s, m) ensures released <= |stream| + 1 - m {
      if m > 0 {
        EndsWithSnoc(stream, token, s, m - 1);
      }
    }
  }

  /** Before the stop, the longest match of each restartable sequence is withheld. */
  lemma HoldsBackBeforeStop(sequences: seq<seq<int>>, toText: Detokenizer, stream: seq<int>, k: nat)
    requires NonEmpty(sequences) && AllRestartable(sequences) && k < |sequences|
    requires !StopTokens.Run(sequences, stream).found
    ensures HoldsBackMatches(sequences[k], stream, Released(sequences, toText, stream))
  {
    hide Flat, FlowOf, StopTokens.Run, EndsWith;
    var s, item := sequences[k], StopTokens.Run(sequences, stream);
    RunSafe(sequences, toText, stream);
    RunSound(sequences, stream);
    FoundExactly(sequences, stream);
    if stream != [] {
      NotStoppedBefore(sequences, stream);
    }
    RunProgress(sequences, stream);
    assert item.progress[k] <= item.maxProgress;
    forall m | EndsWith(stream, s, m) ensures m <= item.progress[k] {
      ProgressLongest(s, stream, m);
    }
  }

  lemma NotStoppedBefore(sequences: seq<seq<int>>, stream: seq<int>)
    requires NonEmpty(sequences) && stream != []
    requires !StopTokens.Run(sequences, stream).found && !Stopped(sequences, stream)
    ensures !StopTokens.Run(sequences, stream[..|stream| - 1]).found
    ensures forall k :: 0 <= k < |sequences| ==> !OccursIn(sequences[k], stream[..|stream| - 1])
  {
    hide StepItem, EndsWith, OccursIn;
    var n := |stream| - 1;
    StoppedStays(sequences, StopTokens.Run(sequences, stream[..n]), stream[n]);
    forall k | 0 <= k < |sequences| ensures !OccursIn(sequences[k], stream[..n]) {
      OccursInSnoc(sequences[k], stream[..n], stream[n]);
      assert stream[..n] + [stream[n]] == stream;
    }
  }

  lemma {:induction false} HoldsBackAlways(sequences: seq<seq<int>>, toText: Detokenizer, stream: seq<int>, k: nat)
    requires NonEmpty(sequences) && AllRestartable(sequences) && k < |sequences|
    ensures HoldsBackMatches(sequences[k], stream, Released(sequences, toText, stream))
  {
    hide Flat, HoldsBackMatches;
    if !StopTokens.Run(sequences, stream).found {
      HoldsBackBeforeStop(sequences, toText, stream, k);
    } else {
      var n := |stream| - 1;
      assert stream[..n] + [stream[n]] == stream;
      HoldsBackAlways(sequences, toText, stream[..n], k);
      NothingReleasedAfterStop(sequences, toText, stream[..n], stream[n]);
      HoldsBackSnoc(sequences[k], stream[..n], stream[n], Released(sequences, toText, stream[..n]));
    }
  }

  /**
   With restartable stop sequences, no token of any occurrence of any of them is ever released,
   whatever incomplete byte-pair results there are.
   */
  lemma {:induction false} NoOccurrenceReleased(sequences: seq<seq<int>>, toText: Detokenizer, stream: seq<int>, k: nat)
    requires NonEmpty(sequences) && AllRestartable(sequences) && k < |sequences|
    ensures HoldsBackOccurrences(sequences[k], stream, Released(sequences, toText, stream))
  {
    hide Flat;
    var s, released := sequences[k], Released(sequences, toText, stream);
    HoldsBackAlways(sequences, toText, stream, k);
    assert stream[..|stream|] == stream;
    if StopTokens.Run(sequences, stream).found {
      var last := |stream| - 1;
      assert stream[..last] + [stream[last]] == stream;
      NoOccurrenceReleased(sequences, toText, stream[..last], k);
      NothingReleasedAfterStop(sequences, toText, stream[..last], stream[last]);
      assert forall n :: 0 <= n <= last ==> stream[..n] == stream[..last][..n];
    } else {
      FoundExactly(sequences, stream);
      assert !OccursIn(s, stream);
    }
  }

  ghost predicate NeverReleases(s: seq<int>, toText: Detokenizer)
    requires s != []
  {
    forall stream: seq<int> :: HoldsBackOccurrences(s, stream, Released([s], toText, stream))
  }

  /** The exact condition for one stop sequence, when every token has a text of its own. */
  lemma NeverReleasesExactlyWhenRestartable(s: seq<int>, toText: Detokenizer)
    requires s != [] && NoIncomplete(toText)
    ensures NeverReleases(s, toText) <==> Restartable(s)
  {
    hide Flat, FlowOf, StopTokens.Run;
    if Restartable(s) {
      forall stream: seq<int> ensures HoldsBackOccurrences(s, stream, Released([s], toText, stream)) {
        NoOccurrenceReleased([s], toText, stream, 0);
        assert [s][0] == s;
      }
    } else {
      var stream := MissedMatch(s);
      NeverFound(s, stream);
      WithheldExactly([s], toText, stream);
      RunSound([s], stream);
      assert stream[..|stream|] == stream;
      assert !HoldsBackOccurrences(s, stream, Released([s], toText, stream));
    }
  }

  // ---------------------------------------------------------------------------------------------
  // The step runner
  // ---------------------------------------------------------------------------------------------

  /** The texts that leave the queue are those of the groups that are released. */
  lemma ReleasedTexts(toText: Detokenizer, flow: Flow, token: int, maxLength: nat)
    requires toText(flow.partial + [token]).Some?
    ensures var text, next := toText(flow.partial + [token]).value, StepFlow(toText, flow, token, false, maxLength);
            var texts := Texts(toText, flow.queued) + [text];
            var release := if |texts| > maxLength then |texts| - maxLength else 0;
            && flow.emitted <= next.emitted
            && Texts(toText, next.queued) == texts[release..]
            && Texts(toText, next.emitted[|flow.emitted|..]) == texts[..release]
  {
    var merged := flow.partial + [token];
    var next := StepFlow(toText, flow, token, false, maxLength);
    var queue := flow.queued + [merged];
    assert Texts(toText, queue) == Texts(toText, flow.queued) + [TextOf(toText, merged)];
    if maxLength == 0 {
      assert next.emitted == flow.emitted + queue;
      assert next.emitted[|flow.emitted|..] == queue;
    } else {
      var release := if |queue| > maxLength then |queue| - maxLength else 0;
      assert next.emitted[|flow.emitted|..] == queue[..release];
      assert Texts(toText, queue[..release]) == Texts(toText, queue)[..release];
      assert Texts(toText, queue[release..]) == Texts(toText, queue)[release..];
    }
  }

  /** Takes texts from the front of the queue until only `maxLength` are left. */
  method PopExcess(queue: seq<string>, maxLength: nat) returns (result: string, rest: seq<string>)
    ensures var release := if |queue| > maxLength then |queue| - maxLength else 0;
            rest == queue[release..] && result == Join(queue[..release])
  {
    result, rest := "", queue;
    ghost var popped := 0;
    while |rest| > maxLength
      invariant 0 <= popped <= |queue| && rest == queue[popped..]
      invariant popped > 0 ==> |rest| >= maxLength
      invariant result == Join(queue[..popped])
    {
      assert queue[..popped + 1][..popped] == queue[..popped];
      result, rest := result + rest[0], rest[1..];
      popped := popped + 1;
    }
  }

  /** What each branch of the loop body has to establish. */
  lemma UpdateMeaning(toText: Detokenizer, flow: Flow, token: int, found: bool, maxLength: nat,
                      pending: seq<string>, partial: seq<int>)
    requires pending == Texts(toText, flow.queued) && partial == flow.partial
    ensures var decoded, next := toText(partial + [token]), StepFlow(toText, flow, token, found, maxLength);
            && flow.emitted <= next.emitted
            && var text := Join(Texts(toText, next.emitted[|flow.emitted|..]));
            if decoded.None? then
              text == "" && next.partial == partial + [token] && Texts(toText, next.queued) == pending
            else if found then
              text == "" && next == flow
            else if maxLength == 0 then
              next.partial == [] && Texts(toText, next.queued) == [] && text == Join(pending) + decoded.value
            else
              var queue := pending + [decoded.value];
              var release := if |queue| > maxLength then |queue| - maxLength else 0;
              next.partial == [] && Texts(toText, next.queued) == queue[release..] && text == Join(queue[..release])
  {
    hide Join;
    var decoded, next := toText(partial + [token]), StepFlow(toText, flow, token, found, maxLength);
    if decoded.None? || found {
      assert Texts(toText, next.emitted[|flow.emitted|..]) == [];
      JoinNone();
    } else {
      ReleasedTexts(toText, flow, token, maxLength);
      if maxLength == 0 {
        JoinSnoc(pending, decoded.value);
        assert (pending + [decoded.value])[..|pending| + 1] == pending + [decoded.value];
      }
    }
  }

  lemma JoinNone()
    ensures Join([]) == ""
  {
  }

  lemma JoinSnoc(texts: seq<string>, text: string)
    ensures Join(texts + [text]) == Join(texts) + text
  {
    assert (texts + [text])[..|texts|] == texts;
  }

  lemma NoTexts(toText: Detokenizer)
    ensures Texts(toText, []) == []
  {
  }

  class DecodeOneStep {
    const toText: Detokenizer
    const numCandidates: nat
    const detector: StopTokenDetector
    ghost const starts: seq<Item>      // the items of the detector when it was copied
    var resultText: seq<string>
    var bpePartial: seq<seq<int>>
    var pendingStop: seq<seq<string>>  // one queue per candidate
    ghost var flows: seq<Flow>
    ghost var seen: seq<seq<int>>      // the tokens since the detector was copied, per item

    ghost predicate Valid()
      reads this, detector
    {
      && detector.Valid()
      && |resultText| == |bpePartial| == |pendingStop| == |flows| == numCandidates
      && (forall i :: 0 <= i < numCandidates ==> Represents(i))
      && |starts| == |seen| == |detector.found|
      && (forall i :: 0 <= i < |starts| ==> |starts[i].progress| == |detector.sequences|)
      && (forall i :: 0 <= i < |starts| ==> detector.ItemAt(i) == ItemFrom(detector.sequences, starts[i], seen[i]))
      && (|detector.found| == numCandidates ==>
            forall i :: 0 <= i < numCandidates ==> flows[i] == FlowFrom(detector.sequences, toText, starts[i], seen[i]))
    }

    /** For a detector that had processed no token, the results about whole streams hold of what was released. */
    lemma SafeFromStart(i: nat)
      requires Valid() && |detector.found| == numCandidates && i < numCandidates
      requires starts[i] == InitialItem(detector.sequences)
      ensures detector.ItemAt(i) == StopTokens.Run(detector.sequences, seen[i])
      ensures flows[i] == FlowOf(detector.sequences, toText, seen[i])
      ensures Safe(flows[i], detector.ItemAt(i), seen[i])
    {
      ItemFromStart(detector.sequences, seen[i]);
      FlowFromStart(detector.sequences, toText, seen[i]);
      RunSafe(detector.sequences, toText, seen[i]);
    }

    /** The queue holds the texts of the queued groups. */
    ghost predicate Represents(i: nat)
      requires i < |bpePartial| == |pendingStop| == |flows|
      reads `bpePartial, `pendingStop, `flows
    {
      pendingStop[i] == Texts(toText, flows[i].queued) && bpePartial[i] == flows[i].partial
    }

    /** The detector is copied. */
    constructor (toText: Detokenizer, numCandidates: nat, source: StopTokenDetector)
      requires source.Valid()
      ensures Valid() && fresh(detector)
      ensures starts == source.Items() && seen == seq(|starts|, _ => [])
      ensures this.toText == toText && this.numCandidates == numCandidates
      ensures detector.sequences == source.sequences && |detector.found| == |source.found|
      ensures flows == seq(numCandidates, _ => Flow([], [], []))
    {
      hide Safe, Texts, Sound;
      this.toText, this.numCandidates := toText, numCandidates;
      detector := new StopTokenDetector.Copy(source);
      resultText, bpePartial := seq(numCandidates, _ => ""), seq(numCandidates, _ => []);
      pendingStop, flows := seq(numCandidates, _ => []), seq(numCandidates, _ => Flow([], [], []));
      starts, seen := source.Items(), seq(|source.found|, _ => []);
      NoTexts(toText);
    }

    /** Whether a step is an error: one token per candidate, a detector of that size, and a stop sequence. */
    ghost predicate Accepts(tokens: seq<int>)
      reads this, detector
    {
      |tokens| == numCandidates && |tokens| == |detector.found| && detector.sequences != []
    }

    /** The body of the loop over the candidates, for candidate `i`. */
    method UpdateCandidate(i: nat, token: int, found: bool, maxLength: nat)
      requires i < |resultText| == |bpePartial| == |pendingStop| == |flows|
      requires Represents(i)
      modifies `resultText, `bpePartial, `pendingStop, `flows
      ensures |resultText| == |bpePartial| == |pendingStop| == |flows| == |old(flows)|
      ensures flows == old(flows)[i := StepFlow(toText, old(flows[i]), token, found, maxLength)]
      ensures Represents(i)
      ensures old(flows[i]).emitted <= flows[i].emitted
      ensures resultText == old(resultText)[i := Join(Texts(toText, flows[i].emitted[|old(flows[i]).emitted|..]))]
      ensures forall j :: 0 <= j < |flows| && j != i ==>
                && bpePartial[j] == old(bpePartial[j]) && pendingStop[j] == old(pendingStop[j])
                && flows[j] == old(flows[j])
                && (old(Represents(j)) ==> Represents(j))
    {
      hide StepFlow, Join, Texts;
      var merged := bpePartial[i] + [token];
      flows := flows[i := StepFlow(toText, flows[i], token, found, maxLength)];
      UpdateMeaning(toText, old(flows[i]), token, found, maxLength, old(pendingStop[i]), bpePartial[i]);
      var decoded := toText(merged);
      if decoded.None? {
        resultText, bpePartial := resultText[i := ""], bpePartial[i := merged];
      } else if !found {
        var queue := pendingStop[i];
        if maxLength > 0 {
          queue := queue + [decoded.value];
        }
        var result, rest := PopExcess(queue, maxLength);
        if maxLength == 0 {
          assert queue[..|queue|] == queue;
          result := result + decoded.value;
        }
        resultText, bpePartial := resultText[i := result], bpePartial[i := []];
        pendingStop := pendingStop[i := rest];
      } else {
        resultText := resultText[i := ""];
      }
    }

    /** The loop over the candidates. */
    method UpdateAll(tokens: seq<int>)
      requires |tokens| == |resultText| == |bpePartial| == |pendingStop| == |flows|
      requires detector.WellFormed() && |tokens| == |detector.found|
      requires forall j :: 0 <= j < |tokens| ==> Represents(j)
      modifies `resultText, `bpePartial, `pendingStop, `flows
      ensures |resultText| == |bpePartial| == |pendingStop| == |flows| == |tokens|
      ensures forall j :: 0 <= j < |tokens| ==> Represents(j)
      ensures forall j :: 0 <= j < |tokens| ==> ReleasedBy(j, tokens[j], old(flows))
    {
      hide StepFlow, Join, Texts;
      for i := 0 to |tokens|
        invariant |resultText| == |bpePartial| == |pendingStop| == |flows| == |tokens|
        invariant forall j :: 0 <= j < |tokens| ==> Represents(j)
        invariant forall j :: 0 <= j < i ==> ReleasedBy(j, tokens[j], old(flows))
        invariant forall j :: i <= j < |tokens| ==> flows[j] == old(flows)[j]
      {
        var maxLength := detector.MaxPartialStopTokenLength(i);
        UpdateCandidate(i, tokens[i], detector.found[i], maxLength);
      }
    }

    /** One step: `tokens` are the sampled tokens, one per candidate. */
    method Run(tokens: seq<int>) returns (done: Result<bool>)
      requires Valid()
      modifies this, detector
      ensures Valid()
      ensures detector.sequences == old(detector.sequences) && |detector.found| == |old(detector.found)|
      ensures done.Success? <==> old(Accepts(tokens))
      ensures done.Success? ==> |tokens| == numCandidates == |detector.found|
      ensures !old(Accepts(tokens)) ==>
                && done == Failure(InvalidArgument)
                && flows == old(flows) && resultText == old(resultText) && seen == old(seen)
      ensures old(Accepts(tokens)) ==>
                && done == Success(forall i :: 0 <= i < numCandidates ==> detector.found[i])
                && forall i :: 0 <= i < numCandidates ==>
                     && ReleasedBy(i, tokens[i], old(flows))
                     && seen[i] == old(seen[i]) + [tokens[i]]
                     && detector.ItemAt(i) == StepItem(detector.sequences, old(detector.ItemAt(i)), tokens[i])
    {
      hide StepFlow, StepItem, Join, Texts, Sound, ItemFrom, FlowFrom;
      if |tokens| != numCandidates {
        return Failure(InvalidArgument);
      }
      var status := detector.ProcessTokens(tokens);
      if status != Ok {
        return Failure(InvalidArgument);
      }
      ghost var before, given := seen, tokens;
      seen := seq(|before|, i requires 0 <= i < |before| && |before| == |given| => before[i] + [given[i]]);
      UpdateAll(tokens);
      forall i | 0 <= i < numCandidates
        ensures detector.ItemAt(i) == ItemFrom(detector.sequences, starts[i], seen[i])
        ensures flows[i] == FlowFrom(detector.sequences, toText, starts[i], seen[i])
      {
        OneMoreToken(detector.sequences, toText, starts[i], before[i], tokens[i], old(flows)[i], detector.ItemAt(i), flows[i]);
      }
      done := detector.AllDone();
    }

    /** The new flow and text of candidate `i` after it was given `token`. */
    ghost predicate ReleasedBy(i: nat, token: int, before: seq<Flow>)
      requires i < |flows| == |before| == |resultText|
      requires i < |detector.found| == |detector.maxProgress|
      reads `flows, `resultText, detector
    {
      && flows[i] == StepFlow(toText, before[i], token, detector.found[i], detector.maxProgress[i])
      && before[i].emitted <= flows[i].emitted
      && resultText[i] == Join(Texts(toText, flows[i].emitted[|before[i].emitted|..]))
    }
  }
}
