/** The nested-transaction bookkeeping of gormx as a pure state machine:
    each step takes the coordinator's state and yields the next state and
    the physical database effects issued, in order. The class in gormx.dfy
    is proved to follow these steps. */
module Nesting {

  datatype Option<T> = None | Some(value: T)

  /** The errors the coordinator returns itself (driver errors are opaque
      strings passed through by Ping and Close). */
  datatype Error = ErrNotInTransaction | ErrInvalidGormDB | DriverError(message: string)

  /** A statement issued against the single physical transaction. */
  datatype Effect =
    | BeginTx                    // db.Begin()
    | SavePoint(name: string)    // SAVEPOINT name
    | RollbackTo(name: string)   // ROLLBACK TO SAVEPOINT name
    | CommitTx                   // COMMIT
    | RollbackTx                 // ROLLBACK

  /** The coordinator's bookkeeping: whether `tx` is present, the savepoint
      stack (top at the end), the begin counter and the commit counter. */
  datatype State = State(open: bool, savePoints: seq<string>, transactionCount: int, commitCount: int)

  /** What one call returns and issues. */
  datatype Step = Step(err: Option<Error>, state: State, effects: seq<Effect>)

  /** The state New builds: no tx, empty stack, both counters zero. */
  const Initial := State(false, [], 0, 0)

  /** The invariant every reachable state keeps: `tx` is present exactly
      when the begin counter is ahead of the commit counter, the counters
      never go negative and never cross, and the stack holds at least as many
      names as there are unresolved levels (it may hold more, because
      Commit never pops). */
  predicate Inv(s: State)
  {
    0 <= s.commitCount <= s.transactionCount &&
    (s.open <==> s.transactionCount > s.commitCount) &&
    |s.savePoints| >= s.transactionCount - s.commitCount
  }

  /** BeginTxx with savepoint name `name`: BEGIN only when no tx is open,
      then always one SAVEPOINT and one push. */
  function Begin(s: State, name: string): (r: Step)
    ensures r.err == None && r.state.open
    ensures r.state.transactionCount == s.transactionCount + 1
    ensures r.state.commitCount == s.commitCount
    ensures r.state.savePoints == s.savePoints + [name]
    ensures (BeginTx in r.effects) <==> !s.open
    ensures |r.effects| == (if s.open then 1 else 2)
    ensures r.effects[|r.effects| - 1] == SavePoint(name)
    ensures forall i :: 0 <= i < |r.effects| - 1 ==> r.effects[i] == BeginTx
    ensures Inv(s) ==> Inv(r.state)
  {
    var opening := if s.open then [] else [BeginTx];
    Step(None, State(true, s.savePoints + [name], s.transactionCount + 1, s.commitCount),
         opening + [SavePoint(name)])
  }

  /** Commit: a vote; only the vote that brings the counters level issues
      COMMIT and drops `tx`. The stack is never popped. */
  function Commit(s: State): (r: Step)
    ensures !s.open ==> r == Step(Some(ErrNotInTransaction), s, [])
    ensures s.open ==> r.err == None && r.state.savePoints == s.savePoints
    ensures s.open ==> r.state.commitCount == s.commitCount + 1
    ensures s.open ==> r.state.transactionCount == s.transactionCount
    ensures s.open && r.state.transactionCount != r.state.commitCount ==>
              r.effects == [] && r.state.open
    ensures s.open && r.state.transactionCount == r.state.commitCount ==>
              r.effects == [CommitTx] && !r.state.open
    ensures Inv(s) ==> Inv(r.state)
  {
    if !s.open then Step(Some(ErrNotInTransaction), s, [])
    else
      var votes := s.commitCount + 1;
      if s.transactionCount != votes then
        Step(None, s.(commitCount := votes), [])
      else
        Step(None, s.(open := false, commitCount := votes), [CommitTx])
  }

  /** Rollback: withdraws one begin; rolls back to the top savepoint and pops
      it, or, when the counters meet, rolls the whole transaction back and
      drops `tx`, leaving the stack as it was. The invariant guarantees the
      pop never underflows. */
  function Rollback(s: State): (r: Step)
    requires Inv(s)
    ensures !s.open ==> r == Step(Some(ErrNotInTransaction), s, [])
    ensures s.open ==> r.err == None && r.state.commitCount == s.commitCount
    ensures s.open ==> r.state.transactionCount == s.transactionCount - 1
    ensures s.open && r.state.transactionCount != r.state.commitCount ==>
              |s.savePoints| > 0 &&
              r.effects == [RollbackTo(s.savePoints[|s.savePoints| - 1])] &&
              r.state.savePoints == s.savePoints[..|s.savePoints| - 1] &&
              r.state.open
    ensures s.open && r.state.transactionCount == r.state.commitCount ==>
              r.effects == [RollbackTx] && !r.state.open &&
              r.state.savePoints == s.savePoints
    ensures Inv(r.state)
  {
    if !s.open then Step(Some(ErrNotInTransaction), s, [])
    else
      var depth := s.transactionCount - 1;
      if depth != s.commitCount then
        var n := |s.savePoints|;
        Step(None, s.(savePoints := s.savePoints[..n - 1], transactionCount := depth),
             [RollbackTo(s.savePoints[n - 1])])
      else
        Step(None, s.(open := false, transactionCount := depth), [RollbackTx])
  }

  /** A caller's call: BeginTxx with the generator output turned into a
      savepoint name, Commit or Rollback. */
  datatype Op = BeginOp(name: string) | CommitOp | RollbackOp

  function Apply(s: State, op: Op): (r: Step)
    requires Inv(s)
    ensures Inv(r.state)
  {
    match op
    case BeginOp(name) => Begin(s, name)
    case CommitOp => Commit(s)
    case RollbackOp => Rollback(s)
  }

  /** The state and the physical effects after a sequence of calls. */
  datatype Trace = Trace(state: State, effects: seq<Effect>)

  /** Runs `ops` from `s`, left to right; errors of individual calls change
      nothing and are not recorded. Every state reached keeps the
      invariant, so no call in any sequence underflows the stack. */
  function Run(s: State, ops: seq<Op>): (t: Trace)
    requires Inv(s)
    ensures Inv(t.state)
    ensures t.state.commitCount >= s.commitCount
    decreases |ops|
  {
    if ops == [] then Trace(s, [])
    else
      var prev := Run(s, ops[..|ops| - 1]);
      var last := Apply(prev.state, ops[|ops| - 1]);
      Trace(last.state, prev.effects + last.effects)
  }
}
