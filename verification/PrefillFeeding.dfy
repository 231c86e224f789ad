/**
 What one prefill feeds to the model, and where (`PrefillInternal` and the loop over the work groups
 in runtime/executor/llm_litert_compiled_model_executor.cc).

 The executor keeps two step counters: the number of processed tokens, and `current_step_`. Positions
 come from both, so they are right only while the two agree.
 */
module PrefillFeeding {
  import opened Wrappers
  import opened TokenHistory
  import opened WorkGroups
  import opened KvCache

  /** The state that decides what is fed: the single token row, and `current_step_`. */
  datatype Steps = Steps(row: Row, current: nat)

  datatype Feed = Feed(token: int, position: nat)

  /** No pending token and a single id: nothing is fed, the id just becomes the pending token. */
  predicate OnlyStores(s: Steps, ids: seq<int>) {
    s.row.pending.None? && |ids| == 1
  }

  /** The state after one prefill call. */
  function PrefillStep(s: Steps, ids: seq<int>): Steps
    requires ids != []
  {
    var last := |ids| - 1;
    if OnlyStores(s, ids) then Steps(s.row.(pending := Some(ids[0])), s.current)
    else Steps(Row(AllIds(s.row) + ids[..last], Some(ids[last])), s.current + |ids|)
  }

  function PendingFeed(row: Row): seq<Feed> {
    match row.pending case Some(id) => [Feed(id, |row.ids|)] case None => []
  }

  function IdFeeds(ids: seq<int>, start: nat): seq<Feed> {
    seq(|ids|, k requires 0 <= k < |ids| => Feed(ids[k], start + k))
  }

  /** The tokens of one call with their positions: the pending token, then all ids but the last. */
  function Fed(s: Steps, ids: seq<int>): seq<Feed>
    requires ids != []
  {
    if OnlyStores(s, ids) then [] else PendingFeed(s.row) + IdFeeds(ids[..|ids| - 1], s.current)
  }

  function Tokens(feeds: seq<Feed>): (r: seq<int>)
    ensures |r| == |feeds|
  {
    seq(|feeds|, i requires 0 <= i < |feeds| => feeds[i].token)
  }

  function Positions(feeds: seq<Feed>): (r: seq<nat>)
    ensures |r| == |feeds|
  {
    seq(|feeds|, i requires 0 <= i < |feeds| => feeds[i].position)
  }

  // --- a prefill cut into calls of the given lengths ---

  predicate Cuts(lengths: seq<nat>, n: nat) {
    Total(lengths) == n && forall i :: 0 <= i < |lengths| ==> lengths[i] > 0
  }

  lemma CutsPrefix(lengths: seq<nat>, n: nat)
    requires Cuts(lengths, n) && lengths != []
    ensures var last := |lengths| - 1; Cuts(lengths[..last], n - lengths[last]) && lengths[last] <= n
  {
  }

  function PrefillAll(s: Steps, ids: seq<int>, lengths: seq<nat>): Steps
    requires Cuts(lengths, |ids|)
  {
    if lengths == [] then s
    else
      CutsPrefix(lengths, |ids|);
      var last := |lengths| - 1;
      var cut := |ids| - lengths[last];
      PrefillStep(PrefillAll(s, ids[..cut], lengths[..last]), ids[cut..])
  }

  function FedAll(s: Steps, ids: seq<int>, lengths: seq<nat>): seq<Feed>
    requires Cuts(lengths, |ids|)
  {
    if lengths == [] then []
    else
      CutsPrefix(lengths, |ids|);
      var last := |lengths| - 1;
      var cut := |ids| - lengths[last];
      FedAll(s, ids[..cut], lengths[..last]) + Fed(PrefillAll(s, ids[..cut], lengths[..last]), ids[cut..])
  }

  /** After `k` calls, the next one still finds the ids it needs. */
  lemma {:induction false} CutsUpTo(lengths: seq<nat>, n: nat, k: nat)
    requires Cuts(lengths, n) && k <= |lengths|
    ensures Cuts(lengths[..k], Total(lengths[..k]))
    ensures Total(lengths[..k]) + (if k < |lengths| then lengths[k] else 0) <= n
    ensures k == |lengths| ==> Total(lengths[..k]) == n
    ensures k < |lengths| ==> lengths[k] > 0
    decreases |lengths| - k
  {
    if k == |lengths| {
      assert lengths[..k] == lengths;
    } else {
      CutsUpTo(lengths, n, k + 1);
      assert lengths[..k + 1][..k] == lengths[..k];
    }
  }

  lemma CutsOfOne(lengths: seq<nat>)
    requires Cuts(lengths, 1)
    ensures lengths == [1]
  {
    CutsPrefix(lengths, 1);
    CutsNothing(lengths[..|lengths| - 1]);
  }

  lemma CutsNothing(lengths: seq<nat>)
    requires Cuts(lengths, 0)
    ensures lengths == []
  {
  }

  /** The last call of a prefill, and the state before it. */
  lemma LastCall(s: Steps, ids: seq<int>, lengths: seq<nat>) returns (cut: nat, before: Steps, feeds: seq<Feed>)
    requires Cuts(lengths, |ids|) && lengths != []
    ensures var last := |lengths| - 1;
            && cut < |ids| && cut + lengths[last] == |ids|
            && Cuts(lengths[..last], cut) && (cut == 0 ==> last == 0)
            && before == PrefillAll(s, ids[..cut], lengths[..last])
            && feeds == FedAll(s, ids[..cut], lengths[..last])
            && PrefillAll(s, ids, lengths) == PrefillStep(before, ids[cut..])
            && FedAll(s, ids, lengths) == feeds + Fed(before, ids[cut..])
  {
    hide Fed, PrefillStep;
    CutsPrefix(lengths, |ids|);
    var last := |lengths| - 1;
    cut := |ids| - lengths[last];
    before := PrefillAll(s, ids[..cut], lengths[..last]);
    feeds := FedAll(s, ids[..cut], lengths[..last]);
    if cut == 0 {
      CutsNothing(lengths[..last]);
    }
  }

  /** One more call. */
  lemma NextCall(s: Steps, ids: seq<int>, lengths: seq<nat>, next: seq<int>)
    requires Cuts(lengths, |ids|) && next != []
    ensures Cuts(lengths + [|next|], |ids + next|)
    ensures PrefillAll(s, ids + next, lengths + [|next|]) == PrefillStep(PrefillAll(s, ids, lengths), next)
    ensures FedAll(s, ids + next, lengths + [|next|]) == FedAll(s, ids, lengths) + Fed(PrefillAll(s, ids, lengths), next)
  {
    hide Fed, PrefillStep;
    assert (lengths + [|next|])[..|lengths|] == lengths;
    assert (ids + next)[..|ids|] == ids && (ids + next)[|ids|..] == next;
  }

  lemma PrefillNothing(s: Steps, ids: seq<int>, lengths: seq<nat>)
    requires ids == [] && lengths == []
    ensures Cuts(lengths, |ids|) && PrefillAll(s, ids, lengths) == s && FedAll(s, ids, lengths) == []
  {
  }

  /** However a prefill is cut, all its ids but the last are processed, and the last is pending. */
  lemma {:induction false} CutsDoNotMatter(s: Steps, ids: seq<int>, lengths: seq<nat>)
    requires ids != [] && Cuts(lengths, |ids|)
    ensures PrefillAll(s, ids, lengths).row == Row(AllIds(s.row) + ids[..|ids| - 1], Some(ids[|ids| - 1]))
    ensures AllIds(PrefillAll(s, ids, lengths).row) == AllIds(s.row) + ids
  {
    hide PrefillAll, FedAll, Fed;
    CutsPrefix(lengths, |ids|);
    var cut, before, feeds := LastCall(s, ids, lengths);
    if cut > 0 {
      CutsDoNotMatter(s, ids[..cut], lengths[..|lengths| - 1]);
    } else {
      PrefillNothing(s, ids[..cut], lengths[..|lengths| - 1]);
    }
    assert AllIds(before.row) == AllIds(s.row) + ids[..cut];
    AppendIds(AllIds(s.row), ids, cut);
    StepIds(before, ids[cut..]);
  }

  lemma AppendIds(history: seq<int>, ids: seq<int>, cut: nat)
    requires cut < |ids|
    ensures history + ids[..cut] + ids[cut..][..|ids| - cut - 1] == history + ids[..|ids| - 1]
    ensures history + ids[..|ids| - 1] + [ids[|ids| - 1]] == history + ids
    ensures ids[cut..][|ids| - cut - 1] == ids[|ids| - 1]
  {
    assert ids[..cut] + ids[cut..][..|ids| - cut - 1] == ids[..|ids| - 1];
  }

  /** In both branches: everything so far, and all ids but the last, are processed. */
  lemma StepIds(s: Steps, ids: seq<int>)
    requires ids != []
    ensures PrefillStep(s, ids).row == Row(AllIds(s.row) + ids[..|ids| - 1], Some(ids[|ids| - 1]))
  {
    if OnlyStores(s, ids) {
      assert AllIds(s.row) + ids[..0] == s.row.ids;
    }
  }

  lemma TokensConcat(a: seq<Feed>, b: seq<Feed>)
    ensures Tokens(a + b) == Tokens(a) + Tokens(b)
    ensures Positions(a + b) == Positions(a) + Positions(b)
  {
  }

  function PendingIds(row: Row): seq<int> {
    match row.pending case Some(id) => [id] case None => []
  }

  lemma FedTokens(s: Steps, ids: seq<int>)
    requires ids != []
    ensures Tokens(Fed(s, ids)) == PendingIds(s.row) + ids[..|ids| - 1]
    ensures |Fed(s, ids)| <= |ids|
  {
    TokensConcat(PendingFeed(s.row), IdFeeds(ids[..|ids| - 1], s.current));
    assert Tokens(IdFeeds(ids[..|ids| - 1], s.current)) == ids[..|ids| - 1];
    assert Tokens(PendingFeed(s.row)) == PendingIds(s.row);
  }

  /** However a prefill is cut, the model is fed the old pending token and all ids but the last, in order. */
  lemma {:induction false} CutsFeedTheSame(s: Steps, ids: seq<int>, lengths: seq<nat>)
    requires ids != [] && Cuts(lengths, |ids|)
    ensures Tokens(FedAll(s, ids, lengths)) == PendingIds(s.row) + ids[..|ids| - 1]
  {
    assert lengths != [];
    hide PrefillAll, FedAll, Fed, PrefillStep, Tokens, Positions, Cuts, AllIds;
    var cut, before, feeds := LastCall(s, ids, lengths);
    var earlier := lengths[..|lengths| - 1];
    if cut > 0 {
      CutsFeedTheSame(s, ids[..cut], earlier);
      CutsDoNotMatter(s, ids[..cut], earlier);
      FedNext(PendingIds(s.row), ids, cut, before, feeds);
    } else {
      PrefillNothing(s, ids[..cut], earlier);
      FedTokens(s, ids);
      assert ids[cut..] == ids && feeds + Fed(s, ids) == Fed(s, ids);
    }
  }

  lemma FedNext(first: seq<int>, ids: seq<int>, cut: nat, before: Steps, feeds: seq<Feed>)
    requires 0 < cut < |ids|
    requires Tokens(feeds) == first + ids[..cut][..cut - 1]
    requires before.row.pending == Some(ids[..cut][cut - 1])
    ensures Tokens(feeds + Fed(before, ids[cut..])) == first + ids[..|ids| - 1]
  {
    hide Tokens, Positions, Fed;
    var next := Fed(before, ids[cut..]);
    FedTokens(before, ids[cut..]);
    TokensConcat(feeds, next);
    assert ids[..cut][..cut - 1] + Tokens(next) == ids[..|ids| - 1];
  }

  // ---------------------------------------------------------------------------------------------
  // Positions
  // ---------------------------------------------------------------------------------------------

  /** The two step counters agree. */
  predicate Aligned(s: Steps) {
    s.current == Count(s.row)
  }

  /** What every operation of the executor keeps: `current_step_` may be one behind a pending token. */
  predicate InStep(s: Steps) {
    if s.row.pending.None? then s.current == |s.row.ids|
    else |s.row.ids| <= s.current <= |s.row.ids| + 1
  }

  /** Each token is fed at its own position in the history. */
  predicate InPlace(feeds: seq<Feed>, start: nat) {
    forall i :: 0 <= i < |feeds| ==> feeds[i].position == start + i
  }

  lemma StepKeepsInStep(s: Steps, ids: seq<int>)
    requires ids != [] && InStep(s)
    ensures InStep(PrefillStep(s, ids))
    ensures Aligned(PrefillStep(s, ids)) <==> Aligned(s) && !OnlyStores(s, ids)
  {
  }

  /** One call feeds in place if and only if the counters agree or there is only one id. */
  lemma FedInPlaceExactly(s: Steps, ids: seq<int>)
    requires ids != [] && InStep(s)
    ensures InPlace(Fed(s, ids), |s.row.ids|) <==> Aligned(s) || |ids| == 1
  {
    if |ids| > 1 {
      var first := |PendingFeed(s.row)|;
      assert Fed(s, ids)[first] == Feed(ids[0], s.current);
    }
  }

  lemma InPlaceConcat(a: seq<Feed>, b: seq<Feed>, start: nat)
    ensures InPlace(a + b, start) <==> InPlace(a, start) && InPlace(b, start + |a|)
  {
    if InPlace(a + b, start) {
      assert forall i :: 0 <= i < |a| ==> (a + b)[i] == a[i];
      assert forall i :: 0 <= i < |b| ==> (a + b)[|a| + i] == b[i];
    }
  }

  predicate AllOnes(lengths: seq<nat>) {
    forall i :: 0 <= i < |lengths| ==> lengths[i] == 1
  }

  /** The cuts that the work groups make: a single first token means that every call is a single token. */
  predicate RegularCuts(lengths: seq<nat>) {
    |lengths| > 1 && lengths[0] == 1 ==> AllOnes(lengths)
  }

  lemma WorkGroupsCutRegularly(runners: seq<Runner>, groups: seq<Group>, n: nat)
    requires RunnerSet(runners) && Optimized(runners, groups) && Total(Lengths(groups)) == n
    ensures Cuts(Lengths(groups), n) && RegularCuts(Lengths(groups))
  {
    if |groups| > 1 && groups[0].length == 1 {
      SingleFirstCall(runners, groups);
    }
  }

  lemma {:induction false} FedAllLength(s: Steps, ids: seq<int>, lengths: seq<nat>)
    requires Cuts(lengths, |ids|)
    ensures |s.row.ids| + |FedAll(s, ids, lengths)| == |PrefillAll(s, ids, lengths).row.ids|
  {
    if lengths != [] {
      CutsPrefix(lengths, |ids|);
      var last := |lengths| - 1;
      var cut := |ids| - lengths[last];
      FedAllLength(s, ids[..cut], lengths[..last]);
    }
  }

  /** The counters stay apart once they are, and only a first call that just stores its id parts them. */
  lemma {:induction false} AlignedAfter(s: Steps, ids: seq<int>, lengths: seq<nat>)
    requires Cuts(lengths, |ids|) && InStep(s)
    ensures InStep(PrefillAll(s, ids, lengths))
    ensures Aligned(PrefillAll(s, ids, lengths)) <==>
              Aligned(s) && !(s.row.pending.None? && lengths != [] && lengths[0] == 1)
    ensures lengths != [] ==> PrefillAll(s, ids, lengths).row.pending.Some?
  {
    if lengths != [] {
      CutsPrefix(lengths, |ids|);
      var last := |lengths| - 1;
      var cut := |ids| - lengths[last];
      AlignedAfter(s, ids[..cut], lengths[..last]);
      StepKeepsInStep(PrefillAll(s, ids[..cut], lengths[..last]), ids[cut..]);
    }
  }

  /**
   A whole prefill feeds every token in place if and only if the counters agree or every call takes
   a single token.
   */
  lemma {:induction false} FedAllInPlaceExactly(s: Steps, ids: seq<int>, lengths: seq<nat>)
    requires Cuts(lengths, |ids|) && RegularCuts(lengths) && InStep(s)
    ensures InPlace(FedAll(s, ids, lengths), |s.row.ids|) <==> Aligned(s) || AllOnes(lengths)
  {
    hide PrefillAll, FedAll, Fed, InPlace, InStep, Aligned, Cuts, Total;
    if lengths == [] {
      FedNothing(s, ids, lengths);
    } else {
      var last := |lengths| - 1;
      var cut, before, feeds := LastCall(s, ids, lengths);
      var earlier := lengths[..last];
      RegularPrefix(lengths);
      FedAllInPlaceExactly(s, ids[..cut], earlier);
      AlignedAfter(s, ids[..cut], earlier);
      FedAllLength(s, ids[..cut], earlier);
      FedInPlaceExactly(before, ids[cut..]);
      InPlaceConcat(feeds, Fed(before, ids[cut..]), |s.row.ids|);
      if last == 0 {
        FedNothing(s, ids[..cut], earlier);
      }
    }
  }

  lemma FedNothing(s: Steps, ids: seq<int>, lengths: seq<nat>)
    requires Cuts(lengths, |ids|) && lengths == []
    ensures PrefillAll(s, ids, lengths) == s && InPlace(FedAll(s, ids, lengths), |s.row.ids|)
  {
  }

  lemma RegularPrefix(lengths: seq<nat>)
    requires RegularCuts(lengths) && lengths != []
    ensures var last := |lengths| - 1;
            && RegularCuts(lengths[..last])
            && (AllOnes(lengths) <==> AllOnes(lengths[..last]) && lengths[last] == 1)
            && (last > 0 && lengths[0] == 1 ==> AllOnes(lengths[..last]) && lengths[last] == 1)
  {
    var earlier := lengths[..|lengths| - 1];
    assert forall i :: 0 <= i < |earlier| ==> earlier[i] == lengths[i];
  }

  // --- what this means for a row of the cache ---

  /** Whether the call that comes next feeds in place, in a prefill that is cut by work groups. */
  lemma NextCallInPlace(s: Steps, ids: seq<int>, lengths: seq<nat>, n: nat)
    requires n < |lengths| && RegularCuts(lengths) && Cuts(lengths[..n], |ids|)
    requires InStep(s) && (Aligned(s) || AllOnes(lengths))
    ensures InStep(PrefillAll(s, ids, lengths[..n]))
    ensures Aligned(PrefillAll(s, ids, lengths[..n])) || lengths[n] == 1
  {
    hide PrefillAll;
    AlignedAfter(s, ids, lengths[..n]);
  }

  /** Feeding in place extends what the row holds by exactly the fed tokens. */
  lemma FedKeepsRow(row: seq<Cell>, s: Steps, ids: seq<int>)
    requires ids != [] && InStep(s) && (Aligned(s) || |ids| == 1)
    requires RowHolds(row, s.row.ids) && |PrefillStep(s, ids).row.ids| <= |row|
    ensures RowHolds(WriteRow(row, Tokens(Fed(s, ids)), Positions(Fed(s, ids))), PrefillStep(s, ids).row.ids)
  {
    hide Fed, RowHolds, WriteRow;
    FedTokens(s, ids);
    FedInPlaceExactly(s, ids);
    var feeds := Fed(s, ids);
    assert Positions(feeds) == Contiguous(|s.row.ids|, |Tokens(feeds)|);
    assert s.row.ids + Tokens(feeds) == PrefillStep(s, ids).row.ids;
    WriteRowHolds(row, s.row.ids, Tokens(feeds));
  }

  /** After a decode with internal sampling the counters differ by one. */
  predicate Behind(s: Steps) {
    s.row.pending.Some? && s.current == |s.row.ids|
  }

  lemma {:induction false} WriteRowLater(row: seq<Cell>, ids: seq<int>, positions: seq<nat>, p: nat)
    requires |ids| == |positions| && p < |row|
    requires forall k :: 0 <= k < |positions| ==> positions[k] > p
    ensures WriteRow(row, ids, positions)[p] == row[p]
  {
    if ids != [] {
      var last := |ids| - 1;
      WriteRowLater(row, ids[..last], positions[..last], p);
    }
  }

  lemma {:induction false} WriteRowContiguous(row: seq<Cell>, ids: seq<int>, start: nat, p: nat)
    requires start + |ids| <= |row| && p < |row|
    ensures WriteRow(row, ids, Contiguous(start, |ids|))[p] == if start <= p < start + |ids| then Some(ids[p - start]) else row[p]
  {
    if ids != [] {
      var last := |ids| - 1;
      assert Contiguous(start, |ids|)[..last] == Contiguous(start, last);
      WriteRowContiguous(row, ids[..last], start, p);
    }
  }

  lemma {:induction false} WriteRowConcat(row: seq<Cell>, ids: seq<int>, positions: seq<nat>, ids': seq<int>, positions': seq<nat>)
    requires |ids| == |positions| && |ids'| == |positions'|
    ensures WriteRow(row, ids + ids', positions + positions') == WriteRow(WriteRow(row, ids, positions), ids', positions')
  {
    if ids' == [] {
      assert ids + ids' == ids && positions + positions' == positions;
    } else {
      var last := |ids'| - 1;
      WriteRowConcat(row, ids, positions, ids'[..last], positions'[..last]);
      assert (ids + ids')[..|ids| + last] == ids + ids'[..last];
      assert (positions + positions')[..|ids| + last] == positions + positions'[..last];
    }
  }

  /** The row after one call, and after all calls of a prefill. */
  function RowFed(row: seq<Cell>, s: Steps, ids: seq<int>): (r: seq<Cell>)
    requires ids != []
    ensures |r| == |row|
  {
    WriteRow(row, Tokens(Fed(s, ids)), Positions(Fed(s, ids)))
  }

  function RowAfter(row: seq<Cell>, s: Steps, ids: seq<int>, lengths: seq<nat>): (r: seq<Cell>)
    requires Cuts(lengths, |ids|)
    ensures |r| == |row|
  {
    if lengths == [] then row
    else
      CutsPrefix(lengths, |ids|);
      var last := |lengths| - 1;
      var cut := |ids| - lengths[last];
      RowFed(RowAfter(row, s, ids[..cut], lengths[..last]), PrefillAll(s, ids[..cut], lengths[..last]), ids[cut..])
  }

  /**
   A call of two or more ids is then one place off: its first id overwrites the pending token, and its
   last place is not written. This is harmless only if all tokens fed are equal, and the last place
   happens to hold that token already.
   */
  predicate Coincides(row: seq<Cell>, s: Steps, ids: seq<int>)
    requires ids != []
  {
    |ids| >= 2 ==>
      && s.row.pending == Some(ids[0])
      && (forall i :: 0 <= i < |ids| - 2 ==> ids[i + 1] == ids[i])
      && |s.row.ids| + |ids| <= |row| && row[|s.row.ids| + |ids| - 1] == Some(ids[|ids| - 2])
  }

  predicate CoincidesAll(row: seq<Cell>, s: Steps, ids: seq<int>, lengths: seq<nat>)
    requires Cuts(lengths, |ids|)
  {
    if lengths == [] then true
    else
      CutsPrefix(lengths, |ids|);
      var last := |lengths| - 1;
      var cut := |ids| - lengths[last];
      && CoincidesAll(row, s, ids[..cut], lengths[..last])
      && Coincides(row, PrefillAll(s, ids[..cut], lengths[..last]), ids[cut..])
  }

  /** The row after a call that is one place off. */
  lemma BehindRow(row: seq<Cell>, s: Steps, ids: seq<int>, p: nat)
    requires Behind(s) && |ids| >= 2 && |PrefillStep(s, ids).row.ids| <= |row| && p < |row|
    ensures |PrefillStep(s, ids).row.ids| == |s.row.ids| + |ids|
    ensures RowFed(row, s, ids)[p] ==
            if |s.row.ids| <= p < |s.row.ids| + |ids| - 1 then Some(ids[p - |s.row.ids|]) else row[p]
  {
    hide WriteRow;
    var start, rest, pending := |s.row.ids|, ids[..|ids| - 1], s.row.pending.value;
    var first := [Feed(pending, start)];
    assert Fed(s, ids) == first + IdFeeds(rest, start);
    TokensConcat(first, IdFeeds(rest, start));
    assert Tokens(first) == [pending] && Positions(first) == [start] == Contiguous(start, 1);
    assert Tokens(IdFeeds(rest, start)) == rest && Positions(IdFeeds(rest, start)) == Contiguous(start, |rest|);
    WriteRowConcat(row, [pending], [start], rest, Contiguous(start, |rest|));
    WriteRowContiguous(row, [pending], start, p);
    WriteRowContiguous(WriteRow(row, [pending], [start]), rest, start, p);
  }

  lemma BehindStays(s: Steps, ids: seq<int>)
    requires ids != [] && Behind(s)
    ensures Behind(PrefillStep(s, ids)) && s.row.ids <= PrefillStep(s, ids).row.ids
    ensures |PrefillStep(s, ids).row.ids| == |s.row.ids| + |ids|
    ensures PrefillStep(s, ids).row.ids == s.row.ids + [s.row.pending.value] + ids[..|ids| - 1]
  {
  }

  /** Behind stays behind, and the history is the old one, the pending token and all ids but the last. */
  lemma {:induction false} BehindAll(s: Steps, ids: seq<int>, lengths: seq<nat>)
    requires Behind(s) && Cuts(lengths, |ids|)
    ensures Behind(PrefillAll(s, ids, lengths)) && |PrefillAll(s, ids, lengths).row.ids| == |s.row.ids| + |ids|
    ensures s.row.ids <= PrefillAll(s, ids, lengths).row.ids
    ensures ids != [] ==> PrefillAll(s, ids, lengths).row.ids[|s.row.ids|] == s.row.pending.value
  {
    if lengths != [] {
      hide PrefillStep;
      CutsPrefix(lengths, |ids|);
      var last := |lengths| - 1;
      var cut := |ids| - lengths[last];
      BehindAll(s, ids[..cut], lengths[..last]);
      BehindStays(PrefillAll(s, ids[..cut], lengths[..last]), ids[cut..]);
      if cut == 0 {
        CutsNothing(lengths[..last]);
      }
    }
  }

  /** A call leaves alone the cells of what was processed before, and those past what it processes. */
  lemma OtherCells(row: seq<Cell>, s: Steps, ids: seq<int>, p: nat)
    requires Behind(s) && ids != [] && |PrefillStep(s, ids).row.ids| <= |row| && p < |row|
    requires p < |s.row.ids| || |PrefillStep(s, ids).row.ids| <= p
    ensures RowFed(row, s, ids)[p] == row[p]
  {
    if |ids| == 1 {
      SingleCell(row, s, ids, p);
    } else {
      BehindRow(row, s, ids, p);
    }
  }

  lemma SingleCell(row: seq<Cell>, s: Steps, ids: seq<int>, p: nat)
    requires Behind(s) && |ids| == 1 && |s.row.ids| < |row| && p < |row|
    ensures RowFed(row, s, ids)[p] == if p == |s.row.ids| then s.row.pending else row[p]
  {
    assert Tokens(Fed(s, ids)) == [s.row.pending.value];
    assert Positions(Fed(s, ids)) == [|s.row.ids|] == Contiguous(|s.row.ids|, 1);
    WriteRowContiguous(row, [s.row.pending.value], |s.row.ids|, p);
  }

  /** One call: exactly when the row holds the history all the same. */
  lemma MisplacedExactly(row: seq<Cell>, s: Steps, ids: seq<int>)
    requires Behind(s) && ids != [] && RowHolds(row, s.row.ids) && |PrefillStep(s, ids).row.ids| <= |row|
    ensures RowHolds(RowFed(row, s, ids), PrefillStep(s, ids).row.ids) <==> Coincides(row, s, ids)
  {
    hide WriteRow, Fed, PrefillStep, RowFed;
    BehindStays(s, ids);
    var start, after, history := |s.row.ids|, RowFed(row, s, ids), PrefillStep(s, ids).row.ids;
    if |ids| == 1 {
      forall p | 0 <= p < |row| ensures after[p] == if p == start then s.row.pending else row[p] {
        SingleCell(row, s, ids, p);
      }
    } else {
      forall p | 0 <= p < |row|
        ensures after[p] == if start <= p < start + |ids| - 1 then Some(ids[p - start]) else row[p]
      {
        BehindRow(row, s, ids, p);
      }
      if RowHolds(after, history) {
        assert after[start] == Some(history[start]);
        forall i | 0 <= i < |ids| - 2 ensures ids[i + 1] == ids[i] {
          assert after[start + i + 1] == Some(history[start + i + 1]);
        }
        assert after[start + |ids| - 1] == Some(history[start + |ids| - 1]);
      }
    }
  }

  /** What is wrong before a call stays wrong. */
  lemma StaysMisplaced(row: seq<Cell>, s: Steps, ids: seq<int>)
    requires Behind(s) && ids != [] && |PrefillStep(s, ids).row.ids| <= |row|
    requires RowHolds(RowFed(row, s, ids), PrefillStep(s, ids).row.ids)
    ensures RowHolds(row, s.row.ids)
  {
    hide Fed, PrefillStep, RowFed;
    BehindStays(s, ids);
    forall p | 0 <= p < |s.row.ids| ensures row[p] == Some(s.row.ids[p]) {
      OtherCells(row, s, ids, p);
    }
  }

  /**
   A whole prefill after a decode, however it is cut: the row holds the history afterwards if and only
   if every call of two or more ids happens to feed equal tokens and to leave that token in place.
   */
  lemma {:induction false} PrefillAfterDecodeExactly(row: seq<Cell>, s: Steps, ids: seq<int>, lengths: seq<nat>)
    requires Behind(s) && Cuts(lengths, |ids|) && RowHolds(row, s.row.ids)
    requires |s.row.ids| + |ids| <= |row|
    ensures RowHolds(RowAfter(row, s, ids, lengths), PrefillAll(s, ids, lengths).row.ids) <==> CoincidesAll(row, s, ids, lengths)
    ensures forall p :: |PrefillAll(s, ids, lengths).row.ids| <= p < |row| ==> RowAfter(row, s, ids, lengths)[p] == row[p]
  {
    if lengths != [] {
      hide PrefillStep, RowFed, RowHolds, Coincides, Behind;
      CutsPrefix(lengths, |ids|);
      var last := |lengths| - 1;
      var cut := |ids| - lengths[last];
      var before, row' := PrefillAll(s, ids[..cut], lengths[..last]), RowAfter(row, s, ids[..cut], lengths[..last]);
      BehindAll(s, ids[..cut], lengths[..last]);
      BehindStays(before, ids[cut..]);
      PrefillAfterDecodeExactly(row, s, ids[..cut], lengths[..last]);
      OneMoreCall(row, row', before, ids[cut..]);
    }
  }

  lemma OneMoreCall(row: seq<Cell>, row': seq<Cell>, before: Steps, next: seq<int>)
    requires Behind(before) && next != [] && |row'| == |row| && |PrefillStep(before, next).row.ids| <= |row|
    requires forall p :: |before.row.ids| <= p < |row| ==> row'[p] == row[p]
    ensures RowHolds(RowFed(row', before, next), PrefillStep(before, next).row.ids) <==>
              RowHolds(row', before.row.ids) && Coincides(row, before, next)
    ensures forall p :: |PrefillStep(before, next).row.ids| <= p < |row| ==> RowFed(row', before, next)[p] == row[p]
  {
    hide PrefillStep, RowFed, RowHolds;
    BehindStays(before, next);
    if RowHolds(row', before.row.ids) {
      MisplacedExactly(row', before, next);
    } else if RowHolds(RowFed(row', before, next), PrefillStep(before, next).row.ids) {
      StaysMisplaced(row', before, next);
    }
    forall p | |PrefillStep(before, next).row.ids| <= p < |row| ensures RowFed(row', before, next)[p] == row[p] {
      OtherCells(row', before, next, p);
    }
  }

  /**
   In particular, if a first call of two or more ids begins with another id than the pending token,
   then in the end the entry of the pending token is that of the first id, and the row does not hold
   the history.
   */
  lemma {:induction false} PrefillAfterDecodeMisplaces(row: seq<Cell>, s: Steps, ids: seq<int>, lengths: seq<nat>)
    requires Behind(s) && Cuts(lengths, |ids|) && ids != [] && lengths != [] && lengths[0] >= 2
    requires |s.row.ids| + |ids| <= |row| && s.row.pending != Some(ids[0])
    ensures RowAfter(row, s, ids, lengths)[|s.row.ids|] == Some(ids[0])
    ensures !RowHolds(RowAfter(row, s, ids, lengths), PrefillAll(s, ids, lengths).row.ids)
  {
    hide PrefillStep, RowFed;
    CutsPrefix(lengths, |ids|);
    var last := |lengths| - 1;
    var cut := |ids| - lengths[last];
    var before, row' := PrefillAll(s, ids[..cut], lengths[..last]), RowAfter(row, s, ids[..cut], lengths[..last]);
    BehindAll(s, ids, lengths);
    BehindAll(s, ids[..cut], lengths[..last]);
    BehindStays(before, ids[cut..]);
    if last == 0 {
      BehindRow(row, s, ids[cut..], |s.row.ids|);
    } else {
      CutsUpTo(lengths[..last], cut, 1);
      assert lengths[..last][..1] == [lengths[0]];
      PrefillAfterDecodeMisplaces(row, s, ids[..cut], lengths[..last]);
      OtherCells(row', before, ids[cut..], |s.row.ids|);
    }
  }
}
