/**
 Cutting a prefill into calls of the available runners (`GetOptimizedPrefillWorkGroups` in
 runtime/executor/litert_compiled_model_executor_utils.cc).
 */
module WorkGroups {

  /** A prefill signature and the number of tokens it takes. */
  datatype Runner = Runner(capacity: nat, signature: string)

  /** One prefill call. */
  datatype Group = Group(runner: Runner, length: nat)

  /** The runner set is a map from capacity to signature, ordered from the largest capacity. */
  predicate RunnerSet(runners: seq<Runner>) {
    && runners != []
    && (forall i :: 0 <= i < |runners| ==> runners[i].capacity > 0)
    && (forall i, j :: 0 <= i < j < |runners| ==> runners[i].capacity > runners[j].capacity)
  }

  function Total(lengths: seq<nat>): nat {
    if lengths == [] then 0 else Total(lengths[..|lengths| - 1]) + lengths[|lengths| - 1]
  }

  function Lengths(groups: seq<Group>): (lengths: seq<nat>)
    ensures |lengths| == |groups|
  {
    seq(|groups|, i requires 0 <= i < |groups| => groups[i].length)
  }

  /** `r` is the smallest runner that can take `length` tokens. */
  predicate SmallestFit(runners: seq<Runner>, r: Runner, length: nat) {
    && r in runners && length <= r.capacity
    && forall i :: 0 <= i < |runners| && length <= runners[i].capacity ==> r.capacity <= runners[i].capacity
  }

  /** All calls but the last are full calls of the largest runner; the last fits as tightly as possible. */
  predicate Optimized(runners: seq<Runner>, groups: seq<Group>)
    requires runners != []
  {
    && (forall i :: 0 <= i < |groups| - 1 ==> groups[i] == Group(runners[0], runners[0].capacity))
    && (forall i :: 0 <= i < |groups| ==> 0 < groups[i].length && SmallestFit(runners, groups[i].runner, groups[i].length))
  }

  /** The call uses an available runner, and its tokens fit. */
  predicate FitsRunner(runners: seq<Runner>, group: Group) {
    group.runner in runners && group.length <= group.runner.capacity
  }

  lemma GroupsFit(runners: seq<Runner>, groups: seq<Group>)
    requires RunnerSet(runners) && Optimized(runners, groups)
    ensures forall n :: 0 <= n < |groups| ==> FitsRunner(runners, groups[n])
  {
  }

  lemma LengthsSnoc(groups: seq<Group>, group: Group)
    ensures Total(Lengths(groups + [group])) == Total(Lengths(groups)) + group.length
  {
    assert Lengths(groups + [group])[..|groups|] == Lengths(groups);
  }

  method GetOptimizedPrefillWorkGroups(runners: seq<Runner>, inputLength: nat) returns (groups: seq<Group>)
    requires RunnerSet(runners)
    ensures Total(Lengths(groups)) == inputLength
    ensures Optimized(runners, groups)
    ensures inputLength > 0 ==> groups != []
  {
    groups := [];
    var rest := inputLength;
    var maxLength := runners[0].capacity;
    while rest >= maxLength
      invariant Total(Lengths(groups)) + rest == inputLength
      invariant forall i :: 0 <= i < |groups| ==> groups[i] == Group(runners[0], maxLength)
    {
      LengthsSnoc(groups, Group(runners[0], maxLength));
      groups := groups + [Group(runners[0], maxLength)];
      rest := rest - maxLength;
    }
    if rest > 0 {
      var it := 0;
      while it + 1 < |runners| && runners[it + 1].capacity >= rest
        invariant 0 <= it < |runners| && runners[it].capacity >= rest
        decreases |runners| - it
      {
        it := it + 1;
      }
      LengthsSnoc(groups, Group(runners[it], rest));
      groups := groups + [Group(runners[it], rest)];
    }
  }

  lemma {:induction false} TotalBound(lengths: seq<nat>, most: nat)
    requires forall i :: 0 <= i < |lengths| ==> lengths[i] <= most
    ensures Total(lengths) <= |lengths| * most
  {
    if lengths != [] {
      TotalBound(lengths[..|lengths| - 1], most);
      assert |lengths| * most == (|lengths| - 1) * most + most;
    }
  }

  lemma {:induction false} TotalOfFull(lengths: seq<nat>, full: nat)
    requires forall i :: 0 <= i < |lengths| ==> lengths[i] == full
    ensures Total(lengths) == |lengths| * full
  {
    if lengths != [] {
      TotalOfFull(lengths[..|lengths| - 1], full);
      assert |lengths| * full == (|lengths| - 1) * full + full;
    }
  }

  /** No other way of covering the input with the available runners needs fewer calls. */
  lemma FewestCalls(runners: seq<Runner>, groups: seq<Group>, others: seq<Group>)
    requires RunnerSet(runners) && Optimized(runners, groups)
    requires forall i :: 0 <= i < |others| ==> others[i].runner in runners && others[i].length <= others[i].runner.capacity
    requires Total(Lengths(others)) == Total(Lengths(groups))
    ensures |groups| <= |others|
  {
    hide RunnerSet, SmallestFit;
    FirstIsPositive(runners);
    if groups != [] {
      var most, last := runners[0].capacity, |groups| - 1;
      MostLength(runners, others);
      TotalBound(Lengths(others), most);
      assert Lengths(groups)[..last] == Lengths(groups[..last]);
      TotalOfFull(Lengths(groups)[..last], most);
      Monotone(|others|, last, most);
    }
  }

  lemma FirstIsPositive(runners: seq<Runner>)
    requires RunnerSet(runners)
    ensures runners != [] && runners[0].capacity > 0
  {
  }

  lemma MostLength(runners: seq<Runner>, groups: seq<Group>)
    requires RunnerSet(runners)
    requires forall i :: 0 <= i < |groups| ==> groups[i].runner in runners && groups[i].length <= groups[i].runner.capacity
    ensures forall i :: 0 <= i < |groups| ==> Lengths(groups)[i] <= runners[0].capacity
  {
  }

  lemma Monotone(a: nat, b: nat, m: nat)
    ensures a <= b ==> a * m <= b * m
  {
    if a <= b {
      assert (b - a) * m >= 0;
    }
  }

  /** When the first call takes one token and is not the last, every call takes one token. */
  lemma SingleFirstCall(runners: seq<Runner>, groups: seq<Group>)
    requires RunnerSet(runners) && Optimized(runners, groups)
    requires |groups| > 1 && groups[0].length == 1
    ensures forall i :: 0 <= i < |groups| ==> groups[i].length == 1
  {
    var last := |groups| - 1;
    var k :| 0 <= k < |runners| && runners[k] == groups[last].runner;
    assert groups[0] == Group(runners[0], runners[0].capacity);
  }
}
