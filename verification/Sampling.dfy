/**
 Top-k/top-p sampling on the CPU (runtime/components/sampling_cpu_util.cc), over the reals.

 The exponential function is a parameter of which only positivity, strict growth and `exp(0) == 1` are
 assumed. `std::nth_element` and `std::sort` are methods whose contracts say what the library promises.
 */
module Sampling {
  import opened Wrappers
  import opened Arithmetic

  const FLOAT_EPSILON: real := 1.0 / 8388608.0
  const DOUBLE_EPSILON: real := 1.0 / 4503599627370496.0

  type Exponential = real -> real

  ghost predicate ExpLike(exp: Exponential) {
    && exp(0.0) == 1.0
    && (forall x :: exp(x) > 0.0)
    && (forall x, y :: x < y ==> exp(x) < exp(y))
  }

  // ---------------------------------------------------------------------------------------------
  // Flat buffers of rows
  // ---------------------------------------------------------------------------------------------

  function RowOf<T>(flat: seq<T>, size: nat, b: nat): seq<T>
    requires b * size + size <= |flat|
  {
    flat[b * size..b * size + size]
  }

  lemma AppendRow<T>(flat: seq<T>, row: seq<T>, n: nat, size: nat)
    requires |flat| == n * size && |row| == size
    ensures |flat + row| == (n + 1) * size
    ensures forall b | 0 <= b < n :: b * size + size <= |flat| && RowOf(flat + row, size, b) == RowOf(flat, size, b)
    ensures n * size + size <= |flat + row| && RowOf(flat + row, size, n) == row
  {
    BlockFits(n + 1, n, size);
    forall b | 0 <= b < n ensures b * size + size <= |flat| && RowOf(flat + row, size, b) == RowOf(flat, size, b) {
      BlockFits(n, b, size);
    }
  }

  // ---------------------------------------------------------------------------------------------
  // Permutations and sums
  // ---------------------------------------------------------------------------------------------

  ghost predicate Distinct(s: seq<nat>) {
    forall i, j :: 0 <= i < j < |s| ==> s[i] != s[j]
  }

  /** `s` lists 0, ..., n - 1 in some order. */
  ghost predicate Permutes(s: seq<nat>, n: nat) {
    && |s| == n
    && Distinct(s)
    && (forall i :: 0 <= i < n ==> s[i] < n)
    && (forall t :: 0 <= t < n ==> t in s)
  }

  function Iota(n: nat): (s: seq<nat>)
    ensures |s| == n
  {
    seq(n, i => i)
  }

  lemma IotaPermutes(n: nat)
    ensures Permutes(Iota(n), n)
  {
    forall t | 0 <= t < n ensures t in Iota(n) {
      assert Iota(n)[t] == t;
    }
  }

  lemma SwapPermutes(s: seq<nat>, n: nat, i: nat, j: nat)
    requires Permutes(s, n) && i < n && j < n
    ensures Permutes(s[i := s[j]][j := s[i]], n)
  {
    var swapped := s[i := s[j]][j := s[i]];
    forall t | 0 <= t < n ensures t in swapped {
      assert t in s;
      var k :| 0 <= k < n && s[k] == t;
      assert swapped[if k == i then j else if k == j then i else k] == t;
    }
  }

  function Sum(s: seq<real>): real {
    if s == [] then 0.0 else Sum(s[..|s| - 1]) + s[|s| - 1]
  }

  /** The values at the given indices, in that order. */
  function Gather(values: seq<real>, order: seq<nat>): (r: seq<real>)
    requires forall i :: 0 <= i < |order| ==> order[i] < |values|
    ensures |r| == |order|
    ensures forall i :: 0 <= i < |r| ==> r[i] == values[order[i]]
  {
    seq(|order|, i requires 0 <= i < |order| => values[order[i]])
  }

  lemma {:induction false} SumConcat(a: seq<real>, b: seq<real>)
    ensures Sum(a + b) == Sum(a) + Sum(b)
  {
    if b == [] {
      assert a + b == a;
    } else {
      SumConcat(a, b[..|b| - 1]);
      assert (a + b)[..|a| + |b| - 1] == a + b[..|b| - 1];
    }
  }

  lemma SumRemove(s: seq<real>, at: nat)
    requires at < |s|
    ensures Sum(s) == Sum(s[..at] + s[at + 1..]) + s[at]
  {
    hide Sum;
    SumConcat(s[..at], s[at + 1..]);
    SumConcat(s[..at], [s[at]]);
    SumConcat(s[..at] + [s[at]], s[at + 1..]);
    SumOne(s[at]);
    assert s == s[..at] + [s[at]] + s[at + 1..];
  }

  lemma SumOne(x: real)
    ensures Sum([x]) == x
  {
    assert [x][..0] == [];
  }

  lemma RemovePermutes(order: seq<nat>, n: nat, at: nat)
    requires n > 0 && Permutes(order, n) && at < n && order[at] == n - 1
    ensures Permutes(order[..at] + order[at + 1..], n - 1)
  {
    var rest := order[..at] + order[at + 1..];
    assert forall i :: 0 <= i < n - 1 ==> rest[i] == order[if i < at then i else i + 1];
    forall t | 0 <= t < n - 1 ensures t in rest {
      assert t in order;
      var k :| 0 <= k < n && order[k] == t;
      assert rest[if k < at then k else k - 1] == t;
    }
  }

  lemma GatherRemove(values: seq<real>, order: seq<nat>, at: nat)
    requires Permutes(order, |values|) && at < |order| && order[at] == |values| - 1
    ensures var rest := order[..at] + order[at + 1..];
            && Permutes(rest, |values| - 1)
            && Gather(values, order)[..at] + Gather(values, order)[at + 1..] == Gather(values[..|values| - 1], rest)
  {
    RemovePermutes(order, |values|, at);
  }

  /** A sum does not depend on the order. */
  lemma {:induction false} SumPermuted(values: seq<real>, order: seq<nat>)
    requires Permutes(order, |values|)
    ensures Sum(Gather(values, order)) == Sum(values)
  {
    hide Distinct;
    var n := |values|;
    if n > 0 {
      assert n - 1 in order;
      var at :| 0 <= at < n && order[at] == n - 1;
      var rest := order[..at] + order[at + 1..];
      RemovePermutes(order, n, at);
      SumPermuted(values[..n - 1], rest);
      SumRemove(Gather(values, order), at);
      GatherRemove(values, order, at);
    } else {
      assert |Gather(values, order)| == 0;
    }
  }

  function Scale(s: seq<real>, c: real): (r: seq<real>)
    ensures |r| == |s|
  {
    seq(|s|, i requires 0 <= i < |s| => s[i] * c)
  }

  lemma {:induction false} SumScale(s: seq<real>, c: real)
    ensures Sum(Scale(s, c)) == Sum(s) * c
  {
    if s != [] {
      var n := |s| - 1;
      SumScale(s[..n], c);
      forall i | 0 <= i < n ensures Scale(s, c)[..n][i] == Scale(s[..n], c)[i] {
        assert s[..n][i] == s[i];
      }
      assert Scale(s, c)[..n] == Scale(s[..n], c);
    }
  }

  lemma {:induction false} SumPositive(s: seq<real>, at: nat)
    requires at < |s| && forall i :: 0 <= i < |s| ==> s[i] > 0.0
    ensures Sum(s) >= s[at]
    decreases |s|
  {
    var n := |s| - 1;
    if at < n {
      SumPositive(s[..n], at);
    } else if n > 0 {
      SumPositive(s[..n], 0);
    }
  }

  // ---------------------------------------------------------------------------------------------
  // The library algorithms
  // ---------------------------------------------------------------------------------------------

  /** The first position of the largest value (`std::max_element`). */
  method MaxElement(values: seq<real>) returns (m: nat)
    requires values != []
    ensures m < |values|
    ensures forall i :: 0 <= i < |values| ==> values[i] <= values[m]
    ensures forall i :: 0 <= i < m ==> values[i] < values[m]
  {
    m := 0;
    for i := 1 to |values|
      invariant m < i
      invariant forall j :: 0 <= j < i ==> values[j] <= values[m]
      invariant forall j :: 0 <= j < m ==> values[j] < values[m]
    {
      if values[m] < values[i] {
        m := i;
      }
    }
  }

  /** The first `k` entries are in descending order of their values, and no other entry has a larger value. */
  ghost predicate LeadsBy(order: seq<nat>, k: nat, values: seq<real>)
    requires forall i :: 0 <= i < |order| ==> order[i] < |values|
  {
    forall i, j :: 0 <= i < k && i < j < |order| ==> values[order[i]] >= values[order[j]]
  }

  /** Puts the positions of the `k` largest values first, in descending order. */
  method SelectLargest(order: array<nat>, k: nat, values: seq<real>)
    requires k <= order.Length == |values| && Permutes(order[..], |values|)
    modifies order
    ensures Permutes(order[..], |values|)
    ensures LeadsBy(order[..], k, values)
  {
    for i := 0 to k
      invariant Permutes(order[..], |values|)
      invariant LeadsBy(order[..], i, values)
    {
      var best := i;
      for j := i + 1 to order.Length
        invariant i <= best < order.Length
        invariant forall t :: i <= t < j ==> values[order[t]] <= values[order[best]]
      {
        if values[order[best]] < values[order[j]] {
          best := j;
        }
      }
      SwapPermutes(order[..], |values|, i, best);
      ghost var before := order[..];
      order[i], order[best] := order[best], order[i];
      assert order[..] == before[i := before[best]][best := before[i]];
      SwapLeads(before, i, best, values);
    }
  }

  lemma SwapLeads(order: seq<nat>, i: nat, best: nat, values: seq<real>)
    requires i <= best < |order| && forall t :: 0 <= t < |order| ==> order[t] < |values|
    requires LeadsBy(order, i, values) && forall t :: i <= t < |order| ==> values[order[t]] <= values[order[best]]
    ensures LeadsBy(order[i := order[best]][best := order[i]], i + 1, values)
  {
    var swapped := order[i := order[best]][best := order[i]];
    forall a, b | 0 <= a < i + 1 && a < b < |order| ensures values[swapped[a]] >= values[swapped[b]] {
      var b' := if b == best then i else if b == i then best else b;
      assert swapped[b] == order[b'];
      if a < i {
        assert values[order[a]] >= values[order[b']];
      }
    }
  }

  /** `std::nth_element`: no entry from `k` on has a larger value than an entry before `k`. */
  method NthElement(order: array<nat>, k: nat, values: seq<real>)
    requires k <= order.Length == |values| && Permutes(order[..], |values|)
    modifies order
    ensures Permutes(order[..], |values|)
    ensures forall i, j :: 0 <= i < k <= j < order.Length ==> values[order[i]] >= values[order[j]]
  {
    SelectLargest(order, k, values);
    assert LeadsBy(order[..], k, values);
  }

  /** `std::sort` by descending value. */
  method SortDescending(order: array<nat>, values: seq<real>)
    requires order.Length == |values| && Permutes(order[..], |values|)
    modifies order
    ensures Permutes(order[..], |values|)
    ensures LeadsBy(order[..], |values|, values)
  {
    SelectLargest(order, |values|, values);
  }

  // ---------------------------------------------------------------------------------------------
  // Top k
  // ---------------------------------------------------------------------------------------------

  /** `ids` are `k` different tokens, and no other token has a larger logit than any of them. */
  ghost predicate TopK(logits: seq<real>, ids: seq<nat>, k: nat) {
    && |ids| == k && Distinct(ids)
    && (forall i :: 0 <= i < k ==> ids[i] < |logits|)
    && (forall i, t :: 0 <= i < k && 0 <= t < |logits| && t !in ids ==> logits[ids[i]] >= logits[t])
  }

  method TopKRow(logits: seq<real>, k: nat) returns (ids: seq<nat>)
    requires 0 < k <= |logits|
    ensures TopK(logits, ids, k)
  {
    if k == 1 {
      var m := MaxElement(logits);
      ids := [m];
    } else {
      var indices := new nat[|logits|](i => i);
      IotaPermutes(|logits|);
      assert indices[..] == Iota(|logits|);
      NthElement(indices, k, logits);
      ids := indices[..k];
      assert forall a :: 0 <= a < k ==> ids[a] == indices[..][a] && indices[..][a] in ids;
      forall i, t | 0 <= i < k && 0 <= t < |logits| && t !in ids ensures logits[ids[i]] >= logits[t] {
        assert t in indices[..];
        var at :| 0 <= at < |logits| && indices[..][at] == t;
      }
    }
  }

  /** Every row of the flat buffer of ids is a top-k set of its row of logits. */
  ghost predicate TopKRows(logits: seq<real>, vocab: nat, ids: seq<nat>, k: nat, n: nat) {
    forall b :: 0 <= b < n ==>
      && b * vocab + vocab <= |logits| && b * k + k <= |ids|
      && TopK(RowOf(logits, vocab, b), RowOf(ids, k, b), k)
  }

  method TopKTokenIds(logits: seq<real>, k: nat, batch: nat) returns (r: Result<seq<nat>>)
    requires batch > 0 && 0 < k <= |logits| / batch
    ensures |logits| % batch != 0 <==> r == Failure(InvalidArgument)
    ensures r.Failure? ==> r == Failure(InvalidArgument)
    ensures r.Success? ==> |r.value| == batch * k && TopKRows(logits, |logits| / batch, r.value, k, batch)
  {
    if |logits| % batch != 0 {
      return Failure(InvalidArgument);
    }
    hide TopK;
    var vocab := |logits| / batch;
    assert |logits| == batch * vocab;
    var ids: seq<nat> := [];
    for b := 0 to batch
      invariant |ids| == b * k
      invariant TopKRows(logits, vocab, ids, k, b)
    {
      BlockFits(batch, b, vocab);
      var row := TopKRow(RowOf(logits, vocab, b), k);
      AppendRow(ids, row, b, k);
      ids := ids + row;
    }
    r := Success(ids);
  }

  // ---------------------------------------------------------------------------------------------
  // Softmax
  // ---------------------------------------------------------------------------------------------

  /** The unnormalised weight of each candidate. */
  function Weights(values: seq<real>, top: real, temperature: real, exp: Exponential): (w: seq<real>)
    requires temperature > 0.0
    ensures |w| == |values|
  {
    seq(|values|, i requires 0 <= i < |values| => exp((values[i] - top) / temperature))
  }

  ghost predicate Distribution(p: seq<real>) {
    Sum(p) == 1.0 && forall i :: 0 <= i < |p| ==> p[i] > 0.0
  }

  /** Larger values have larger probabilities, and equal values equal ones. */
  ghost predicate SameOrder(values: seq<real>, p: seq<real>)
    requires |p| == |values|
  {
    forall i, j :: 0 <= i < |p| && 0 <= j < |p| ==> (values[i] <= values[j] <==> p[i] <= p[j])
  }

  lemma DivideKeepsOrder(a: real, b: real, t: real)
    requires t > 0.0
    ensures a < b <==> a / t < b / t
  {
    assert a == (a / t) * t && b == (b / t) * t;
    if a / t < b / t {
      assert (b / t - a / t) * t > 0.0;
    } else {
      assert (a / t - b / t) * t >= 0.0;
    }
  }

  lemma WeightsKeepOrder(values: seq<real>, top: real, temperature: real, exp: Exponential)
    requires temperature > 0.0 && ExpLike(exp)
    ensures SameOrder(values, Weights(values, top, temperature, exp))
  {
    forall i, j | 0 <= i < |values| && 0 <= j < |values|
      ensures values[i] <= values[j] <==> Weights(values, top, temperature, exp)[i] <= Weights(values, top, temperature, exp)[j]
    {
      DivideKeepsOrder(values[i] - top, values[j] - top, temperature);
      DivideKeepsOrder(values[j] - top, values[i] - top, temperature);
    }
  }

  /** Normalised weights are a distribution in the order of the values. */
  lemma NormalisedWeights(values: seq<real>, at: nat, temperature: real, exp: Exponential)
    requires temperature > 0.0 && ExpLike(exp) && at < |values|
    ensures var w := Weights(values, values[at], temperature, exp);
            && Sum(w) >= 1.0
            && Distribution(Scale(w, 1.0 / Sum(w)))
            && SameOrder(values, Scale(w, 1.0 / Sum(w)))
  {
    hide Sum, Scale, Weights, SameOrder;
    var w := Weights(values, values[at], temperature, exp);
    LargestWeight(values, at, temperature, exp);
    SumPositive(w, at);
    var c := 1.0 / Sum(w);
    Inverse(Sum(w));
    SumScale(w, c);
    ScalePositive(w, c);
    WeightsKeepOrder(values, values[at], temperature, exp);
    ScaleKeepsOrder(values, w, c);
  }

  lemma LargestWeight(values: seq<real>, at: nat, temperature: real, exp: Exponential)
    requires temperature > 0.0 && ExpLike(exp) && at < |values|
    ensures var w := Weights(values, values[at], temperature, exp);
            w[at] == 1.0 && forall i :: 0 <= i < |w| ==> w[i] > 0.0
  {
    assert (values[at] - values[at]) / temperature == 0.0;
  }

  lemma Inverse(x: real)
    requires x >= 1.0
    ensures 1.0 / x > 0.0 && x * (1.0 / x) == 1.0
  {
  }

  lemma ScalePositive(w: seq<real>, c: real)
    requires c > 0.0 && forall i :: 0 <= i < |w| ==> w[i] > 0.0
    ensures forall i :: 0 <= i < |w| ==> Scale(w, c)[i] > 0.0
  {
  }

  lemma ScaleKeepsOrder(values: seq<real>, w: seq<real>, c: real)
    requires c > 0.0 && |w| == |values| && SameOrder(values, w)
    ensures SameOrder(values, Scale(w, c))
  {
    forall i, j | 0 <= i < |w| && 0 <= j < |w| ensures w[i] <= w[j] <==> Scale(w, c)[i] <= Scale(w, c)[j] {
      TimesKeepsOrder(w[i], w[j], c);
    }
  }

  lemma TimesKeepsOrder(a: real, b: real, c: real)
    requires c > 0.0
    ensures a <= b <==> a * c <= b * c
  {
    if a <= b {
      assert (b - a) * c >= 0.0;
    } else {
      assert (a - b) * c > 0.0;
    }
  }

  /** One row: the probabilities of the candidates, whose largest value is returned too. */
  method SoftmaxRow(values: seq<real>, temperature: real, exp: Exponential) returns (p: seq<real>, top: real)
    requires values != [] && temperature > 0.0 && ExpLike(exp)
    ensures top in values && forall i :: 0 <= i < |values| ==> values[i] <= top
    ensures var w := Weights(values, top, temperature, exp); Sum(w) >= 1.0 && p == Scale(w, 1.0 / Sum(w))
    ensures |p| == |values| && Distribution(p) && SameOrder(values, p)
    ensures IsSoftmax(values, temperature, exp, top, p)
  {
    hide Scale, Sum, Weights, SameOrder, IsSoftmax;
    var m := MaxElement(values);
    top := values[m];
    NormalisedWeights(values, m, temperature, exp);
    var weights, sum := WeighAll(values, top, temperature, exp);
    if sum <= FLOAT_EPSILON {
      assert false;  // the sum is at least the weight of the largest value, which is one
    }
    p := ScaleAll(weights, 1.0 / sum);
    NormalisedIsSoftmax(values, temperature, exp, top, p);
  }

  method WeighAll(values: seq<real>, top: real, temperature: real, exp: Exponential) returns (weights: seq<real>, sum: real)
    requires temperature > 0.0
    ensures weights == Weights(values, top, temperature, exp) && sum == Sum(weights)
  {
    weights, sum := [], 0.0;
    for i := 0 to |values|
      invariant weights == Weights(values, top, temperature, exp)[..i] && sum == Sum(weights)
    {
      var weight := exp((values[i] - top) / temperature);
      assert Weights(values, top, temperature, exp)[..i + 1] == weights + [weight];
      SumConcat(weights, [weight]);
      SumOne(weight);
      weights, sum := weights + [weight], sum + weight;
    }
  }

  method ScaleAll(weights: seq<real>, inverse: real) returns (p: seq<real>)
    ensures p == Scale(weights, inverse)
  {
    p := [];
    for i := 0 to |weights|
      invariant p == Scale(weights, inverse)[..i]
    {
      assert Scale(weights, inverse)[i] == weights[i] * inverse;
      p := p + [weights[i] * inverse];
    }
  }

  /** The logits of the chosen tokens. */
  function Chosen(logits: seq<real>, ids: seq<nat>): (r: seq<real>)
    requires forall i :: 0 <= i < |ids| ==> ids[i] < |logits|
    ensures |r| == |ids|
  {
    Gather(logits, ids)
  }

  // ---------------------------------------------------------------------------------------------
  // Top p
  // ---------------------------------------------------------------------------------------------

  /** The mass of the first `n` candidates in the given order. */
  function Mass(p: seq<real>, order: seq<nat>, n: nat): real
    requires n <= |order| && forall i :: 0 <= i < |order| ==> order[i] < |p|
  {
    Sum(Gather(p, order)[..n])
  }

  lemma MassSnoc(p: seq<real>, order: seq<nat>, n: nat)
    requires n < |order| && forall i :: 0 <= i < |order| ==> order[i] < |p|
    ensures Mass(p, order, n + 1) == Mass(p, order, n) + p[order[n]]
  {
    assert Gather(p, order)[..n + 1][..n] == Gather(p, order)[..n];
  }

  /** The shortest non-empty prefix of the order whose mass reaches `topP`. */
  ghost predicate Kept(p: seq<real>, order: seq<nat>, topP: real, n: nat)
    requires forall i :: 0 <= i < |order| ==> order[i] < |p|
  {
    && 0 < n <= |order|
    && Mass(p, order, n) >= topP
    && forall m :: 0 < m < n ==> Mass(p, order, m) < topP
  }

  /** The whole order always reaches a mass of one. */
  lemma AllMass(p: seq<real>, order: seq<nat>)
    requires Distribution(p) && Permutes(order, |p|)
    ensures Mass(p, order, |p|) == 1.0
  {
    SumPermuted(p, order);
    assert Gather(p, order)[..|p|] == Gather(p, order);
  }

  /** The cutoff loop. */
  method TopPCutoff(p: seq<real>, order: seq<nat>, topP: real) returns (n: nat, mass: real)
    requires p != [] && Distribution(p) && Permutes(order, |p|) && topP <= 1.0
    ensures Kept(p, order, topP, n) && mass == Mass(p, order, n) > 0.0
  {
    mass, n := 0.0, 0;
    assert Gather(p, order)[..0] == [];
    for i := 0 to |p|
      invariant n == i && mass == Mass(p, order, n) && mass >= 0.0
      invariant forall m :: 0 < m <= n ==> Mass(p, order, m) < topP
    {
      MassSnoc(p, order, i);
      mass := mass + p[order[i]];
      n := i + 1;
      if mass >= topP {
        return;
      }
    }
    AllMass(p, order);
  }

  /** The candidate at place `c` of the order is the one that a draw falls on. */
  ghost predicate Hit(p: seq<real>, order: seq<nat>, draw: real, c: nat)
    requires forall i :: 0 <= i < |order| ==> order[i] < |p|
  {
    c < |order| && draw <= Mass(p, order, c + 1) && (c > 0 ==> Mass(p, order, c) < draw)
  }

  /** The sampling loop: for every draw up to the kept mass, it hits a kept candidate. */
  method PickKept(p: seq<real>, order: seq<nat>, n: nat, draw: real) returns (c: nat)
    requires Permutes(order, |p|) && 0 < n <= |p| && draw <= Mass(p, order, n)
    ensures c < n && Hit(p, order, draw, c)
  {
    var mass := 0.0;
    assert Gather(p, order)[..0] == [];
    c := 0;
    while true
      invariant c < n && mass == Mass(p, order, c)
      invariant c > 0 ==> mass < draw
      decreases n - c
    {
      MassSnoc(p, order, c);
      mass := mass + p[order[c]];
      if draw <= mass {
        return;
      }
      c := c + 1;
    }
  }

  /** What is sampled for one row: the candidate and its score. */
  ghost predicate SampledRow(values: seq<real>, p: seq<real>, order: seq<nat>, n: nat, c: nat, topP: real, unit: real)
    requires |p| == |values|
  {
    && Permutes(order, |p|) && LeadsBy(order, |p|, p)
    && Kept(p, order, topP, n) && c < n
    && (Mass(p, order, n) > DOUBLE_EPSILON ==> Hit(p, order, unit * Mass(p, order, n), c))
    && (Mass(p, order, n) <= DOUBLE_EPSILON ==> c == 0)
  }

  /** With a threshold of zero only the first candidate is kept, and it has the largest value. */
  lemma ZeroKeepsLargest(values: seq<real>, p: seq<real>, order: seq<nat>, n: nat, c: nat, unit: real)
    requires |p| == |values| && Distribution(p) && SameOrder(values, p)
    requires SampledRow(values, p, order, n, c, 0.0, unit)
    ensures n == 1 && c == 0
    ensures forall i :: 0 <= i < |values| ==> values[i] <= values[order[0]]
  {
    assert Gather(p, order)[..0] == [];
    MassSnoc(p, order, 0);
    assert Mass(p, order, 1) >= 0.0;
    forall i | 0 <= i < |values| ensures values[i] <= values[order[0]] {
      assert i in order;
      var k :| 0 <= k < |order| && order[k] == i;
      assert k > 0 ==> p[order[0]] >= p[order[k]];
    }
  }

  method SampleRow(values: seq<real>, p: seq<real>, top: real, temperature: real, exp: Exponential, topP: real, unit: real)
    returns (c: nat, score: real, ghost order: seq<nat>, ghost n: nat, ghost place: nat)
    requires |p| == |values| > 0 && Distribution(p) && topP <= 1.0 && 0.0 <= unit < 1.0 && temperature > 0.0
    ensures SampledRow(values, p, order, n, place, topP, unit)
    ensures c == order[place] < |p|
    ensures score == if Mass(p, order, n) > DOUBLE_EPSILON then p[c] else exp((values[c] - top) / temperature)
  {
    hide Distribution, Permutes, LeadsBy, Kept, Hit, Mass;
    var sorted := SortedCandidates(p);
    order := sorted;
    var kept, mass := TopPCutoff(p, sorted, topP);
    n := kept;
    OrderInRange(sorted, |p|);
    KeptSome(p, sorted, topP, kept);
    var hit: nat := 0;
    if mass > DOUBLE_EPSILON {
      var draw := DrawUpTo(unit, mass);
      assert draw == unit * Mass(p, sorted, kept);
      hit := PickKept(p, sorted, kept, draw);
      assert Hit(p, sorted, unit * Mass(p, sorted, kept), hit);
    }
    assert hit < kept;
    place, c := hit, sorted[hit];
    score := if mass <= DOUBLE_EPSILON then exp((values[c] - top) / temperature) else p[c];
  }

  /** `std::uniform_real_distribution(0, mass)`, from a draw from the unit interval. */
  method DrawUpTo(unit: real, mass: real) returns (draw: real)
    requires 0.0 <= unit < 1.0 && mass > 0.0
    ensures draw == unit * mass && 0.0 <= draw <= mass
  {
    UnitDraw(unit, mass);
    draw := unit * mass;
  }

  method SortedCandidates(p: seq<real>) returns (order: seq<nat>)
    ensures Permutes(order, |p|) && LeadsBy(order, |p|, p)
  {
    var indices := new nat[|p|](i => i);
    IotaPermutes(|p|);
    assert indices[..] == Iota(|p|);
    SortDescending(indices, p);
    order := indices[..];
  }

  lemma OrderInRange(order: seq<nat>, n: nat)
    requires Permutes(order, n)
    ensures |order| == n && forall i :: 0 <= i < n ==> order[i] < n
  {
  }

  lemma KeptSome(p: seq<real>, order: seq<nat>, topP: real, n: nat)
    requires Permutes(order, |p|) && Kept(p, order, topP, n)
    ensures 0 < n <= |p|
  {
  }

  lemma UnitDraw(unit: real, mass: real)
    requires 0.0 <= unit < 1.0 && mass > 0.0
    ensures 0.0 <= unit * mass <= mass
  {
    TimesKeepsOrder(0.0, unit, mass);
    TimesKeepsOrder(unit, 1.0, mass);
  }

  // ---------------------------------------------------------------------------------------------
  // The pipeline
  // ---------------------------------------------------------------------------------------------

  datatype Sample = Sample(id: nat, score: real)

  /** How a token was sampled: the top-k tokens, their probabilities, their order, the cutoff and the place hit. */
  datatype Trace = Trace(ids: seq<nat>, top: real, p: seq<real>, order: seq<nat>, kept: nat, place: nat)

  /**
   `p` is the softmax of the values: it sums to one, and its ratios are those of the exponentials of
   the values over the temperature.
   */
  ghost predicate IsSoftmax(values: seq<real>, temperature: real, exp: Exponential, top: real, p: seq<real>)
    requires temperature > 0.0
  {
    && |p| == |values| && Distribution(p) && SameOrder(values, p)
    && top in values && (forall i :: 0 <= i < |values| ==> values[i] <= top)
    && forall i, j :: 0 <= i < |p| && 0 <= j < |p| ==>
         p[i] * exp((values[j] - top) / temperature) == p[j] * exp((values[i] - top) / temperature)
  }

  lemma NormalisedIsSoftmax(values: seq<real>, temperature: real, exp: Exponential, top: real, p: seq<real>)
    requires temperature > 0.0 && |p| == |values| && Distribution(p) && SameOrder(values, p)
    requires top in values && forall i :: 0 <= i < |values| ==> values[i] <= top
    requires var w := Weights(values, top, temperature, exp); Sum(w) >= 1.0 && p == Scale(w, 1.0 / Sum(w))
    ensures IsSoftmax(values, temperature, exp, top, p)
  {
    hide SameOrder, Sum, Distribution;
    var w := Weights(values, top, temperature, exp);
    forall i, j | 0 <= i < |p| && 0 <= j < |p| ensures p[i] * w[j] == p[j] * w[i] {
      ProductsCommute(w[i], w[j], 1.0 / Sum(w));
    }
  }

  lemma ProductsCommute(a: real, b: real, c: real)
    ensures (a * c) * b == (b * c) * a
  {
  }

  /** There is only one such distribution. */
  lemma SoftmaxUnique(values: seq<real>, temperature: real, exp: Exponential, top: real, p: seq<real>, q: seq<real>)
    requires temperature > 0.0 && ExpLike(exp)
    requires IsSoftmax(values, temperature, exp, top, p) && IsSoftmax(values, temperature, exp, top, q)
    ensures p == q
  {
    hide SameOrder, Sum, ExpLike, Weights;
    forall i | 0 <= i < |values| ensures p[i] == q[i] {
      OneProbability(values, temperature, exp, top, p, i);
      OneProbability(values, temperature, exp, top, q, i);
      SomeWeight(values, top, temperature, exp);
      CancelFactor(p[i], q[i], Sum(Weights(values, top, temperature, exp)));
    }
  }

  lemma OneProbability(values: seq<real>, temperature: real, exp: Exponential, top: real, p: seq<real>, i: nat)
    requires temperature > 0.0 && IsSoftmax(values, temperature, exp, top, p) && i < |values|
    ensures |p| == |values|
    ensures Sum(Weights(values, top, temperature, exp)) * p[i] == Weights(values, top, temperature, exp)[i]
  {
    hide SameOrder, Sum;
    var w := Weights(values, top, temperature, exp);
    forall j | 0 <= j < |p| ensures Scale(w, p[i])[j] == Scale(p, w[i])[j] {
      assert p[i] * exp((values[j] - top) / temperature) == p[j] * exp((values[i] - top) / temperature);
    }
    assert Scale(w, p[i]) == Scale(p, w[i]);
    SumScale(w, p[i]);
    SumScale(p, w[i]);
  }

  lemma SomeWeight(values: seq<real>, top: real, temperature: real, exp: Exponential)
    requires temperature > 0.0 && ExpLike(exp) && values != []
    ensures Sum(Weights(values, top, temperature, exp)) > 0.0
  {
    SumPositive(Weights(values, top, temperature, exp), 0);
  }

  lemma CancelFactor(a: real, b: real, c: real)
    requires c > 0.0 && c * a == c * b
    ensures a == b
  {
    assert c * (a - b) == 0.0;
  }

  /**
   The token sampled for one row of logits is one of the `k` largest; among them it lies in the
   shortest sorted prefix whose softmax mass reaches the threshold, where the draw falls. Its score is
   its probability, except that it is 1.0 for `k == 1`, and its weight if the kept mass vanishes.
   */
  ghost predicate RowSampled(logits: seq<real>, k: nat, topP: real, temperature: real, exp: Exponential, unit: real,
                             s: Sample, t: Trace)
    requires temperature > 0.0
  {
    && TopK(logits, t.ids, k)
    && IsSoftmax(Chosen(logits, t.ids), temperature, exp, t.top, t.p)
    && SampledRow(Chosen(logits, t.ids), t.p, t.order, t.kept, t.place, topP, unit)
    && s.id == t.ids[t.order[t.place]]
    && s.score == if k == 1 then 1.0
                  else if Mass(t.p, t.order, t.kept) > DOUBLE_EPSILON then t.p[t.order[t.place]]
                  else exp((logits[s.id] - t.top) / temperature)
  }

  /** With a threshold of zero, or with `k == 1`, the sampled token has the largest logit of all. */
  lemma GreedyIsLargest(logits: seq<real>, k: nat, topP: real, temperature: real, exp: Exponential, unit: real, s: Sample, t: Trace)
    requires temperature > 0.0 && RowSampled(logits, k, topP, temperature, exp, unit, s, t)
    requires topP == 0.0 || k == 1
    ensures s.id < |logits| && forall i :: 0 <= i < |logits| ==> logits[i] <= logits[s.id]
  {
    var values := Chosen(logits, t.ids);
    if topP == 0.0 {
      ZeroKeepsLargest(values, t.p, t.order, t.kept, t.place, unit);
    }
    forall i | 0 <= i < |logits| ensures logits[i] <= logits[s.id] {
      if i in t.ids {
        var j :| 0 <= j < |t.ids| && t.ids[j] == i;
        assert values[j] <= values[t.order[t.place]];
      }
    }
  }

  method SampleOne(logits: seq<real>, ids: seq<nat>, k: nat, topP: real, temperature: real, exp: Exponential, unit: real)
    returns (s: Sample, ghost t: Trace)
    requires 0 < k && TopK(logits, ids, k) && topP <= 1.0 && temperature > 0.0 && ExpLike(exp) && 0.0 <= unit < 1.0
    ensures RowSampled(logits, k, topP, temperature, exp, unit, s, t) && t.ids == ids
  {
    hide Distribution, SameOrder, Scale, Weights, Sum, Permutes, LeadsBy, Kept, Hit, Mass, IsSoftmax;
    var values := Chosen(logits, ids);
    var p, top := SoftmaxRow(values, temperature, exp);
    if k == 1 {
      s := Sample(ids[0], 1.0);
      t := Trace(ids, top, p, [0], 1, 0);
      OneCandidate(values, p, topP, unit);
    } else {
      ghost var order, kept, place;
      var c, score;
      c, score, order, kept, place := SampleRow(values, p, top, temperature, exp, topP, unit);
      s := Sample(ids[c], score);
      t := Trace(ids, top, p, order, kept, place);
    }
  }

  lemma OneCandidate(values: seq<real>, p: seq<real>, topP: real, unit: real)
    requires |values| == |p| == 1 && Distribution(p) && topP <= 1.0 && 0.0 <= unit < 1.0
    ensures SampledRow(values, p, [0], 1, 0, topP, unit) && p[0] == 1.0
  {
    assert p == [p[0]];
    SumOne(p[0]);
    assert Gather(p, [0])[..1] == p;
    UnitDraw(unit, 1.0);
  }

  lemma VocabPositive(n: nat, batch: nat)
    requires n > 0 && batch > 0 && n % batch == 0
    ensures n / batch > 0 && n == batch * (n / batch)
  {
    assert n == batch * (n / batch) + n % batch;
  }

  /** The loop over the batch. */
  method SampleAll(logits: seq<real>, vocab: nat, ids: seq<nat>, k: nat, topP: real, temperature: real, units: seq<real>,
                   exp: Exponential, batch: nat)
    returns (samples: seq<Sample>, ghost traces: seq<Trace>)
    requires |units| == batch && forall b :: 0 <= b < batch ==> 0.0 <= units[b] < 1.0
    requires |logits| == batch * vocab && |ids| == batch * k && 0 < k && TopKRows(logits, vocab, ids, k, batch)
    requires topP <= 1.0 && temperature > 0.0 && ExpLike(exp)
    ensures |samples| == |traces| == batch
    ensures forall b :: 0 <= b < batch ==>
              && b * vocab + vocab <= |logits|
              && RowSampled(RowOf(logits, vocab, b), k, topP, temperature, exp, units[b], samples[b], traces[b])
  {
    hide RowSampled, TopK;
    samples, traces := [], [];
    for b := 0 to batch
      invariant |samples| == |traces| == b
      invariant forall j :: 0 <= j < b ==>
                  && j * vocab + vocab <= |logits|
                  && RowSampled(RowOf(logits, vocab, j), k, topP, temperature, exp, units[j], samples[j], traces[j])
    {
      BlockFits(batch, b, vocab);
      BlockFits(batch, b, k);
      var s;
      ghost var t;
      s, t := SampleOne(RowOf(logits, vocab, b), RowOf(ids, k, b), k, topP, temperature, exp, units[b]);
      samples, traces := samples + [s], traces + [t];
    }
  }

  method TopKTopPSampling(logits: seq<real>, k: int, topP: real, temperature: real, units: seq<real>, exp: Exponential,
                          batch: nat)
    returns (r: Result<seq<Sample>>, ghost traces: seq<Trace>)
    requires batch > 0 && ExpLike(exp)
    requires |units| == batch && forall b :: 0 <= b < batch ==> 0.0 <= units[b] < 1.0
    ensures r.Failure? <==> logits == [] || |logits| % batch != 0 || k <= 0 || topP < 0.0 || topP > 1.0 || temperature < 0.0
    ensures r.Failure? ==> r == Failure(InvalidArgument)
    ensures r.Success? ==>
              var vocab := |logits| / batch;
              var kept := if k < vocab then k else vocab;
              var above := if temperature >= 1.0 / 8388608.0 then temperature else 1.0 / 8388608.0;
              && |r.value| == |traces| == batch && kept > 0
              && forall b :: 0 <= b < batch ==>
                   && b * vocab + vocab <= |logits|
                   && RowSampled(RowOf(logits, vocab, b), kept, topP, above, exp, units[b], r.value[b], traces[b])
  {
    traces := [];
    if logits == [] || |logits| % batch != 0 {
      return Failure(InvalidArgument), [];
    }
    if k <= 0 {
      return Failure(InvalidArgument), [];
    }
    if topP < 0.0 || topP > 1.0 {
      return Failure(InvalidArgument), [];
    }
    var vocab := |logits| / batch;
    VocabPositive(|logits|, batch);
    var kept: nat := if k < vocab then k else vocab;
    var ids := TopKTokenIds(logits, kept, batch);
    if temperature < 0.0 {
      return Failure(InvalidArgument), [];
    }
    var above := if temperature < FLOAT_EPSILON then FLOAT_EPSILON else temperature;
    var samples;
    samples, traces := SampleAll(logits, vocab, ids.value, kept, topP, above, units, exp, batch);
    r := Success(samples);
  }
}
