/**
 The history of processed tokens, with one row per output candidate
 (runtime/executor/llm_executor_processed_tokens.cc).
 */
module TokenHistory {
  import opened Wrappers

  /** One candidate: the processed ids, and the token that is still to be processed. */
  datatype Row = Row(ids: seq<int>, pending: Option<int>)

  /** All rows have the same length, and all have a pending token or none has. */
  ghost predicate Uniform(rows: seq<Row>) {
    && rows != []
    && forall r :: 0 <= r < |rows| ==> |rows[r].ids| == |rows[0].ids| && (rows[r].pending.Some? <==> rows[0].pending.Some?)
  }

  function Count(row: Row): nat {
    |row.ids| + if row.pending.Some? then 1 else 0
  }

  /** Everything in a row: the processed ids and the pending one. */
  function AllIds(row: Row): seq<int> {
    row.ids + match row.pending case Some(id) => [id] case None => []
  }

  // --- the operations that change every row in the same way ---

  datatype Op =
    | AddPending(ids: seq<int>)
    | MarkProcessed
    | InvalidatePending
    | AddProcessed(ids: seq<int>)
    | RollBack(step: int)

  function OpStatus(rows: seq<Row>, op: Op): Status
    requires rows != []
  {
    match op
    case AddPending(ids) =>
      if |ids| != |rows| then Error(InvalidArgument)
      else if rows[0].pending.Some? then Error(AlreadyExists)
      else Ok
    case MarkProcessed => if rows[0].pending.None? then Error(NotFound) else Ok
    case InvalidatePending => Ok
    case AddProcessed(_) => Ok
    case RollBack(step) => if step < 0 || step > Count(rows[0]) then Error(Internal) else Ok
  }

  /** The effect on row `r` of an operation that succeeds. */
  function OpRow(row: Row, op: Op, r: nat): Row {
    match op
    case AddPending(ids) => if r < |ids| then row.(pending := Some(ids[r])) else row
    case MarkProcessed => if row.pending.Some? then Row(row.ids + [row.pending.value], None) else row
    case InvalidatePending => row.(pending := None)
    case AddProcessed(ids) => row.(ids := row.ids + ids)
    case RollBack(step) => if 0 <= step < Count(row) then Row(row.ids[..step], None) else row
  }

  /** An operation on all rows; one that fails changes nothing. */
  function Apply(rows: seq<Row>, op: Op): seq<Row>
    requires rows != []
  {
    if OpStatus(rows, op) != Ok then rows
    else seq(|rows|, r requires 0 <= r < |rows| => OpRow(rows[r], op, r))
  }

  function ApplyAll(rows: seq<Row>, ops: seq<Op>): (result: seq<Row>)
    requires rows != []
    ensures |result| == |rows|
  {
    if ops == [] then rows
    else Apply(ApplyAll(rows, ops[..|ops| - 1]), ops[|ops| - 1])
  }

  lemma ApplyUniform(rows: seq<Row>, op: Op)
    requires Uniform(rows)
    ensures Uniform(Apply(rows, op))
    ensures |Apply(rows, op)| == |rows|
  {
    forall r | 0 <= r < |rows| ensures Count(rows[r]) == Count(rows[0]) {
    }
  }

  // --- broadcasting, running and reducing is running one candidate ---

  /** What candidate `i` of `n` sees of an operation. A call with the wrong number of tokens fails for each. */
  function Project(op: Op, n: nat, i: nat): Op
    requires i < n
  {
    match op
    case AddPending(ids) => if |ids| == n then AddPending([ids[i]]) else AddPending([])
    case _ => op
  }

  function ProjectAll(ops: seq<Op>, n: nat, i: nat): seq<Op>
    requires i < n
  {
    seq(|ops|, k requires 0 <= k < |ops| => Project(ops[k], n, i))
  }

  function Broadcast(row: Row, n: nat): (rows: seq<Row>)
    ensures |rows| == n && forall r :: 0 <= r < n ==> rows[r] == row
  {
    seq(n, _ => row)
  }

  lemma ApplyProjects(rows: seq<Row>, op: Op, i: nat)
    requires Uniform(rows) && i < |rows|
    ensures Apply([rows[i]], Project(op, |rows|, i)) == [Apply(rows, op)[i]]
    ensures OpStatus([rows[i]], Project(op, |rows|, i)) == OpStatus(rows, op)
  {
    assert Count(rows[i]) == Count(rows[0]);
  }

  /**
   A run of `n` candidates from one row, seen at candidate `i`, is the run of one candidate on what
   that candidate sees; and at every step all rows have the same length and pending status.
   */
  lemma {:induction false} RunProjects(row: Row, n: nat, ops: seq<Op>, i: nat)
    requires i < n
    ensures Uniform(ApplyAll(Broadcast(row, n), ops))
    ensures ApplyAll([row], ProjectAll(ops, n, i)) == [ApplyAll(Broadcast(row, n), ops)[i]]
  {
    if ops != [] {
      var last := |ops| - 1;
      RunProjects(row, n, ops[..last], i);
      var rows := ApplyAll(Broadcast(row, n), ops[..last]);
      ApplyUniform(rows, ops[last]);
      ApplyProjects(rows, ops[last], i);
      assert ProjectAll(ops, n, i)[..last] == ProjectAll(ops[..last], n, i);
    }
  }

  /** What is reported is projected as well: the step that fails for all fails for each, in the same way. */
  lemma RunProjectsStatus(row: Row, n: nat, ops: seq<Op>, op: Op, i: nat)
    requires i < n
    ensures OpStatus(ApplyAll([row], ProjectAll(ops, n, i)), Project(op, n, i))
            == OpStatus(ApplyAll(Broadcast(row, n), ops), op)
  {
    RunProjects(row, n, ops, i);
    ApplyProjects(ApplyAll(Broadcast(row, n), ops), op, i);
  }

  // ---------------------------------------------------------------------------------------------
  // The class
  // ---------------------------------------------------------------------------------------------

  class ProcessedTokens {
    var tokens: seq<Row>

    ghost predicate Valid()
      reads this
    {
      Uniform(tokens)
    }

    constructor ()
      ensures Valid() && tokens == [Row([], None)]
    {
      tokens := [Row([], None)];
    }

    function GetStep(): nat
      requires tokens != []
      reads this
    {
      |tokens[0].ids|
    }

    predicate HasPendingInputToken()
      requires tokens != []
      reads this
    {
      tokens[0].pending.Some?
    }

    function TokenCount(): (n: nat)
      requires Valid()
      reads this
      ensures forall r :: 0 <= r < |tokens| ==> n == |AllIds(tokens[r])|
    {
      GetStep() + if HasPendingInputToken() then 1 else 0
    }

    method ReduceTokenCandidates(index: nat) returns (status: Status)
      requires Valid()
      modifies this
      ensures Valid()
      ensures index >= |old(tokens)| ==> status == Error(OutOfRange) && tokens == old(tokens)
      ensures index < |old(tokens)| ==> status == Ok && tokens == [old(tokens)[index]]
    {
      if index >= |tokens| {
        return Error(OutOfRange);
      }
      if index > 0 {
        tokens := tokens[0 := tokens[index]][index := tokens[0]];
      }
      tokens := tokens[..1];
      status := Ok;
    }

    method BroadcastTokenCandidates(size: nat) returns (status: Status)
      requires Valid()
      modifies this
      ensures Valid()
      ensures status == if |old(tokens)| != 1 then Error(FailedPrecondition)
                        else if size < 1 then Error(InvalidArgument) else Ok
      ensures tokens == if status == Ok then Broadcast(old(tokens)[0], size) else old(tokens)
    {
      if |tokens| != 1 {
        return Error(FailedPrecondition);
      }
      if size < |tokens| {
        return Error(InvalidArgument);
      }
      for i := 1 to size
        invariant tokens == Broadcast(old(tokens)[0], i)
      {
        tokens := tokens + [tokens[0]];
      }
      status := Ok;
    }

    method AddProcessedTokens(ids: seq<int>)
      requires Valid()
      modifies this
      ensures Valid() && tokens == Apply(old(tokens), AddProcessed(ids))
      ensures |tokens| == |old(tokens)|
      ensures forall r :: 0 <= r < |tokens| ==> tokens[r] == Row(old(tokens)[r].ids + ids, old(tokens)[r].pending)
    {
      for i := 0 to |tokens|
        invariant |tokens| == |old(tokens)|
        invariant forall j :: 0 <= j < i ==> tokens[j] == OpRow(old(tokens)[j], AddProcessed(ids), j)
        invariant forall j :: i <= j < |tokens| ==> tokens[j] == old(tokens)[j]
      {
        tokens := tokens[i := tokens[i].(ids := tokens[i].ids + ids)];
      }
      ApplyUniform(old(tokens), AddProcessed(ids));
    }

    method AddPendingInputToken(ids: seq<int>) returns (status: Status)
      requires Valid()
      modifies this
      ensures Valid()
      ensures status == if |ids| != |old(tokens)| then Error(InvalidArgument)
                        else if old(tokens)[0].pending.Some? then Error(AlreadyExists) else Ok
      ensures status != Ok ==> tokens == old(tokens)
      ensures status == Ok ==>
                |tokens| == |old(tokens)| && forall r :: 0 <= r < |tokens| ==> tokens[r] == Row(old(tokens)[r].ids, Some(ids[r]))
      ensures tokens == Apply(old(tokens), AddPending(ids))
    {
      ApplyUniform(tokens, AddPending(ids));
      if |ids| != |tokens| {
        return Error(InvalidArgument);
      }
      if HasPendingInputToken() {
        return Error(AlreadyExists);
      }
      for i := 0 to |ids|
        invariant |tokens| == |old(tokens)|
        invariant forall j :: 0 <= j < i ==> tokens[j] == OpRow(old(tokens)[j], AddPending(ids), j)
        invariant forall j :: i <= j < |tokens| ==> tokens[j] == old(tokens)[j]
      {
        tokens := tokens[i := tokens[i].(pending := Some(ids[i]))];
      }
      status := Ok;
    }

    method RollBackToStep(newStep: int) returns (status: Status)
      requires Valid()
      modifies this
      ensures Valid()
      ensures status == if newStep < 0 || newStep > old(TokenCount()) then Error(Internal) else Ok
      ensures status != Ok ==> tokens == old(tokens)
      ensures status == Ok ==>
                && |tokens| == |old(tokens)|
                && (newStep == old(TokenCount()) ==> tokens == old(tokens))
                && forall r :: 0 <= r < |tokens| ==>
                     && AllIds(tokens[r]) == AllIds(old(tokens)[r])[..newStep]
                     && (newStep < old(TokenCount()) ==> tokens[r].pending.None?)
      ensures tokens == Apply(old(tokens), RollBack(newStep))
    {
      ApplyUniform(tokens, RollBack(newStep));
      if newStep < 0 {
        return Error(Internal);
      }
      if newStep > TokenCount() {
        return Error(Internal);
      }
      forall r | 0 <= r < |tokens| ensures Count(tokens[r]) == TokenCount() {
      }
      if newStep == TokenCount() {
        return Ok;
      }
      for i := 0 to |tokens|
        invariant |tokens| == |old(tokens)|
        invariant forall j :: 0 <= j < i ==> tokens[j] == OpRow(old(tokens)[j], RollBack(newStep), j)
        invariant forall j :: i <= j < |tokens| ==> tokens[j] == old(tokens)[j]
      {
        tokens := tokens[i := Row(tokens[i].ids[..newStep], None)];
      }
      status := Ok;
    }

    /** The token of every candidate at a step, or nothing if there is no token at that step. */
    method GetTokenAtStep(step: int) returns (ids: seq<int>)
      requires Valid()
      ensures step < 0 || step >= TokenCount() ==> ids == []
      ensures 0 <= step < TokenCount() ==>
                |ids| == |tokens| && forall r :: 0 <= r < |tokens| ==> ids[r] == AllIds(tokens[r])[step]
    {
      ids := [];
      if step < 0 || step >= TokenCount() {
        return;
      }
      var atPending := step == GetStep() && HasPendingInputToken();
      for i := 0 to |tokens|
        invariant |ids| == i && forall r :: 0 <= r < i ==> ids[r] == AllIds(tokens[r])[step]
      {
        ids := ids + [if atPending then tokens[i].pending.value else tokens[i].ids[step]];
      }
    }

    method MarkPendingInputTokenAsProcessed() returns (status: Status)
      requires Valid()
      modifies this
      ensures Valid()
      ensures status == if old(tokens)[0].pending.None? then Error(NotFound) else Ok
      ensures status != Ok ==> tokens == old(tokens)
      ensures status == Ok ==>
                && |tokens| == |old(tokens)|
                && forall r :: 0 <= r < |tokens| ==>
                     && old(tokens)[r].pending.Some?
                     && tokens[r] == Row(old(tokens)[r].ids + [old(tokens)[r].pending.value], None)
      ensures tokens == Apply(old(tokens), MarkProcessed)
    {
      ApplyUniform(tokens, MarkProcessed);
      if !HasPendingInputToken() {
        return Error(NotFound);
      }
      for i := 0 to |tokens|
        invariant |tokens| == |old(tokens)|
        invariant forall j :: 0 <= j < i ==> tokens[j] == OpRow(old(tokens)[j], MarkProcessed, j)
        invariant forall j :: i <= j < |tokens| ==> tokens[j] == old(tokens)[j]
      {
        tokens := tokens[i := Row(tokens[i].ids + [tokens[i].pending.value], None)];
      }
      status := Ok;
    }

    method InvalidatePendingInputToken()
      requires Valid()
      modifies this
      ensures Valid() && tokens == Apply(old(tokens), InvalidatePending)
      ensures |tokens| == |old(tokens)| && forall r :: 0 <= r < |tokens| ==> tokens[r] == Row(old(tokens)[r].ids, None)
    {
      for i := 0 to |tokens|
        invariant |tokens| == |old(tokens)|
        invariant forall j :: 0 <= j < i ==> tokens[j] == OpRow(old(tokens)[j], InvalidatePending, j)
        invariant forall j :: i <= j < |tokens| ==> tokens[j] == old(tokens)[j]
      {
        tokens := tokens[i := tokens[i].(pending := None)];
      }
      ApplyUniform(old(tokens), InvalidatePending);
    }

    method GetCopyOfTokens() returns (copy: seq<seq<int>>)
      requires Valid()
      ensures |copy| == |tokens| && forall r :: 0 <= r < |tokens| ==> copy[r] == AllIds(tokens[r])
    {
      copy := [];
      for i := 0 to |tokens|
        invariant |copy| == i && forall r :: 0 <= r < i ==> copy[r] == AllIds(tokens[r])
      {
        var ids := tokens[i].ids;
        if tokens[i].pending.Some? {
          ids := ids + [tokens[i].pending.value];
        }
        copy := copy + [ids];
      }
    }

    /** The step and the pending token of every candidate, if there is one. */
    method GetNextUnprocessedToken() returns (step: nat, token: seq<int>)
      requires Valid()
      ensures step == GetStep()
      ensures !HasPendingInputToken() ==> token == []
      ensures HasPendingInputToken() ==>
                |token| == |tokens| && forall r :: 0 <= r < |tokens| ==> tokens[r].pending == Some(token[r])
    {
      step, token := GetStep(), [];
      if HasPendingInputToken() {
        for i := 0 to |tokens|
          invariant |token| == i && forall r :: 0 <= r < i ==> tokens[r].pending == Some(token[r])
        {
          token := token + [tokens[i].pending.value];
        }
      }
    }
  }
}
