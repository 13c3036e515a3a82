/** Properties of whole call sequences of the nesting state machine: the
    commit barrier, where ROLLBACK TO names come from, and the behaviours of
    the code a reader might not expect (the stack is never
    cleared, the counters never reset, a rollback after a nested commit
    targets the committed scope's savepoint). */
module NestingProperties {
  import opened Nesting

  /** n BeginTxx calls with the given savepoint names. */
  function Begins(names: seq<string>): (ops: seq<Op>)
    ensures |ops| == |names|
    ensures forall i :: 0 <= i < |names| ==> ops[i] == BeginOp(names[i])
  {
    seq(|names|, i requires 0 <= i < |names| => BeginOp(names[i]))
  }

  /** k Commit calls. */
  function Commits(k: nat): (ops: seq<Op>)
    ensures |ops| == k
    ensures forall i :: 0 <= i < k ==> ops[i] == CommitOp
  {
    seq(k, i => CommitOp)
  }

  /** The SAVEPOINT statements for the given names, in order. */
  function SavePoints(names: seq<string>): (effs: seq<Effect>)
    ensures |effs| == |names|
    ensures forall i :: 0 <= i < |names| ==> effs[i] == SavePoint(names[i])
  {
    seq(|names|, i requires 0 <= i < |names| => SavePoint(names[i]))
  }

  /** The savepoint names pushed by the BeginTxx calls among `ops`. */
  function BegunNames(ops: seq<Op>): (names: seq<string>)
    ensures |names| <= |ops|
    ensures forall n :: n in names ==> BeginOp(n) in ops
  {
    if ops == [] then []
    else
      var last := ops[|ops| - 1];
      BegunNames(ops[..|ops| - 1]) + (if last.BeginOp? then [last.name] else [])
  }

  /** Running one more call after a sequence. */
  lemma RunSnoc(s: State, ops: seq<Op>, op: Op)
    requires Inv(s)
    ensures Run(s, ops + [op]) ==
              Trace(Apply(Run(s, ops).state, op).state, Run(s, ops).effects + Apply(Run(s, ops).state, op).effects)
  {
    assert (ops + [op])[..|ops + [op]| - 1] == ops;
    assert (ops + [op])[|ops + [op]| - 1] == op;
  }

  /** The state after n begins from s. */
  function AfterBegins(s: State, names: seq<string>): (r: State)
    requires Inv(s)
    ensures Inv(r)
  {
    State(s.open || |names| > 0, s.savePoints + names, s.transactionCount + |names|, s.commitCount)
  }

  /** n begins from any reachable state: one BEGIN if none was open, then
      one SAVEPOINT per call in order; every name is pushed and the begin
      counter grows by n. */
  lemma {:induction false} RunBegins(s: State, names: seq<string>)
    requires Inv(s)
    ensures Run(s, Begins(names)) == BegunTrace(s, names)
    decreases |names|
  {
    if names != [] {
      var init, n := names[..|names| - 1], names[|names| - 1];
      assert init + [n] == names;
      RunBegins(s, init);
      var ops := Begins(names);
      assert ops[..|ops| - 1] == Begins(init);
      assert ops[|ops| - 1] == BeginOp(n);
      var prev := Run(s, Begins(init));
      var last := Apply(prev.state, BeginOp(n));
      assert Run(s, ops) == Trace(last.state, prev.effects + last.effects);
      assert last == Begin(BegunTrace(s, init).state, n);
      BegunTraceSnoc(s, init, n);
    }
  }

  /** What n begins from s leave: the state and the effects issued. */
  function BegunTrace(s: State, names: seq<string>): (t: Trace)
    requires Inv(s)
    ensures Inv(t.state)
  {
    Trace(AfterBegins(s, names), (if !s.open && |names| > 0 then [BeginTx] else []) + SavePoints(names))
  }

  /** One more begin after BegunTrace. */
  lemma BegunTraceSnoc(s: State, init: seq<string>, n: string)
    requires Inv(s)
    ensures var prev := BegunTrace(s, init);
            var last := Begin(prev.state, n);
            Trace(last.state, prev.effects + last.effects) == BegunTrace(s, init + [n])
  {
    var names := init + [n];
    assert names[..|names| - 1] == init;
    var opening: seq<Effect> := if !s.open then [BeginTx] else [];
    assert SavePoints(init) + [SavePoint(n)] == SavePoints(names);
    assert (opening + SavePoints(init)) + [SavePoint(n)] == opening + SavePoints(names);
  }

  /** k commits against an open transaction with d unresolved levels,
      k <= d: no effect until the k-th commit makes the counters meet, which
      issues the one COMMIT; the stack is never touched. */
  lemma {:induction false} RunCommits(s: State, k: nat)
    requires Inv(s) && s.open
    requires k <= s.transactionCount - s.commitCount
    ensures Run(s, Commits(k)) ==
              Trace(s.(open := k < s.transactionCount - s.commitCount, commitCount := s.commitCount + k),
                    if k == s.transactionCount - s.commitCount then [CommitTx] else [])
    decreases k
  {
    if k > 0 {
      RunCommits(s, k - 1);
      assert Commits(k) == Commits(k - 1) + [CommitOp];
      RunSnoc(s, Commits(k - 1), CommitOp);
    }
  }

  /** Running two call sequences one after the other is running their
      concatenation: the effects are concatenated too. */
  lemma {:induction false} RunAppend(s: State, a: seq<Op>, b: seq<Op>)
    requires Inv(s)
    ensures Run(s, a + b) ==
              Trace(Run(Run(s, a).state, b).state, Run(s, a).effects + Run(Run(s, a).state, b).effects)
    decreases |b|
  {
    if b == [] {
      assert a + b == a;
    } else {
      var init, x := b[..|b| - 1], b[|b| - 1];
      assert init + [x] == b;
      assert a + b == (a + init) + [x];
      RunAppend(s, a, init);
      RunSnoc(s, a + init, x);
      var m := Run(s, a);
      RunSnoc(m.state, init, x);
      var p := Run(m.state, init);
      var last := Apply(p.state, x);
      EffectsAssociate(m.effects, p.effects, last.effects);
    }
  }

  lemma EffectsAssociate(x: seq<Effect>, y: seq<Effect>, z: seq<Effect>)
    ensures x + (y + z) == (x + y) + z
  {
  }

  /** The commit barrier: from no open transaction, n >= 1 begins followed
      by j < n commits leave the transaction open with only the BEGIN and
      the n SAVEPOINTs issued; the n-th commit issues the single COMMIT and
      no ROLLBACK of either kind ever happens. The stack still holds all n
      names afterwards. */
  lemma Barrier(s: State, names: seq<string>)
    requires Inv(s) && !s.open && |names| > 0
    ensures forall j :: 0 <= j < |names| ==>
              Run(s, Begins(names) + Commits(j)) ==
                Trace(State(true, s.savePoints + names, s.transactionCount + |names|, s.commitCount + j),
                      [BeginTx] + SavePoints(names))
    ensures Run(s, Begins(names) + Commits(|names|)) ==
              Trace(State(false, s.savePoints + names, s.transactionCount + |names|, s.commitCount + |names|),
                    [BeginTx] + SavePoints(names) + [CommitTx])
  {
    RunBegins(s, names);
    var mid := AfterBegins(s, names);
    forall j | 0 <= j <= |names|
      ensures Run(s, Begins(names) + Commits(j)) ==
                Trace(State(j < |names|, s.savePoints + names, s.transactionCount + |names|, s.commitCount + j),
                      [BeginTx] + SavePoints(names) + if j == |names| then [CommitTx] else [])
    {
      RunAppend(s, Begins(names), Commits(j));
      RunCommits(mid, j);
    }
  }

  /** One call: the new stack holds old names and the name of this call's
      SAVEPOINT only; a ROLLBACK TO it issues names the old top of stack. */
  lemma StepTargetsExist(s: State, op: Op)
    requires Inv(s)
    ensures forall n :: n in Apply(s, op).state.savePoints ==>
              n in s.savePoints || SavePoint(n) in Apply(s, op).effects
    ensures forall e :: e in Apply(s, op).effects && e.RollbackTo? ==> e.name in s.savePoints
  {
    var r := Apply(s, op);
    forall n | n in r.state.savePoints
      ensures n in s.savePoints || SavePoint(n) in r.effects
    {
      if op.RollbackOp? && s.open && r.state.open {
        var k :| 0 <= k < |r.state.savePoints| && r.state.savePoints[k] == n;
        assert s.savePoints[k] == n;
      }
    }
  }

  /** Every name on the stack, and every name a ROLLBACK TO targets, is one
      that was on the stack at the start or had its SAVEPOINT issued
      earlier in the same run. RollbackTargetsInOpenTransaction sharpens
      this for runs that start with no transaction: the SAVEPOINT was issued
      inside the physical transaction that is still open. */
  lemma {:induction false} RollbackTargetsExist(s: State, ops: seq<Op>)
    requires Inv(s)
    ensures forall n :: n in Run(s, ops).state.savePoints ==>
              n in s.savePoints || SavePoint(n) in Run(s, ops).effects
    ensures forall i :: 0 <= i < |Run(s, ops).effects| && Run(s, ops).effects[i].RollbackTo? ==>
              Run(s, ops).effects[i].name in s.savePoints ||
              SavePoint(Run(s, ops).effects[i].name) in Run(s, ops).effects[..i]
    decreases |ops|
  {
    if ops != [] {
      var init := ops[..|ops| - 1];
      var prev := Run(s, init);
      var last := Apply(prev.state, ops[|ops| - 1]);
      var t := Run(s, ops);
      assert t == Trace(last.state, prev.effects + last.effects);
      RollbackTargetsExist(s, init);
      StepTargetsExist(prev.state, ops[|ops| - 1]);
      forall n | n in t.state.savePoints
        ensures n in s.savePoints || SavePoint(n) in t.effects
      {
        if SavePoint(n) in last.effects {
          var k :| 0 <= k < |last.effects| && last.effects[k] == SavePoint(n);
          assert t.effects[|prev.effects| + k] == SavePoint(n);
        } else if SavePoint(n) in prev.effects {
          var k :| 0 <= k < |prev.effects| && prev.effects[k] == SavePoint(n);
          assert t.effects[k] == SavePoint(n);
        }
      }
      forall i | 0 <= i < |t.effects| && t.effects[i].RollbackTo?
        ensures t.effects[i].name in s.savePoints || SavePoint(t.effects[i].name) in t.effects[..i]
      {
        if i < |prev.effects| {
          assert t.effects[i] == prev.effects[i];
          assert t.effects[..i] == prev.effects[..i];
        } else {
          LastTargetExists(s, prev, last, t, i);
        }
      }
    }
  }

  /** The induction step of RollbackTargetsExist for an effect of the last
      call. */
  lemma LastTargetExists(s: State, prev: Trace, last: Step, t: Trace, i: nat)
    requires t.effects == prev.effects + last.effects
    requires |prev.effects| <= i < |t.effects| && t.effects[i].RollbackTo?
    requires forall n :: n in prev.state.savePoints ==> n in s.savePoints || SavePoint(n) in prev.effects
    requires forall e :: e in last.effects && e.RollbackTo? ==> e.name in prev.state.savePoints
    ensures t.effects[i].name in s.savePoints || SavePoint(t.effects[i].name) in t.effects[..i]
  {
    var n := t.effects[i].name;
    assert t.effects[i] == last.effects[i - |prev.effects|];
    assert n in prev.state.savePoints;
    if SavePoint(n) in prev.effects {
      var k :| 0 <= k < |prev.effects| && prev.effects[k] == SavePoint(n);
      assert t.effects[..i][k] == SavePoint(n);
    }
  }

  /** A statement that ends the physical transaction. */
  predicate Closes(e: Effect)
  {
    e == CommitTx || e == RollbackTx
  }

  /** Where the current physical transaction began: the stack length and
      the position of its BEGIN among the effects. */
  datatype Mark = Mark(base: nat, at: nat)

  function NextMark(prev: Trace, m: Mark, op: Op): Mark
  {
    if op.BeginOp? && !prev.state.open then Mark(|prev.state.savePoints|, |prev.effects|) else m
  }

  /** The mark of the physical transaction open after running `ops`. */
  function Opening(s: State, ops: seq<Op>): Mark
    requires Inv(s)
    decreases |ops|
  {
    if ops == [] then Mark(|s.savePoints|, 0)
    else NextMark(Run(s, ops[..|ops| - 1]), Opening(s, ops[..|ops| - 1]), ops[|ops| - 1])
  }

  /** While a transaction is open it began at m.at with a BEGIN that no
      COMMIT or ROLLBACK has followed, the stack above m.base holds at least
      one name per unresolved level, and each of those names had its
      SAVEPOINT issued since that BEGIN. */
  predicate LiveSince(t: Trace, m: Mark)
  {
    t.state.open ==>
      m.at < |t.effects| && t.effects[m.at] == BeginTx &&
      (forall k :: m.at < k < |t.effects| ==> !Closes(t.effects[k])) &&
      m.base <= |t.state.savePoints| &&
      |t.state.savePoints| - m.base >= t.state.transactionCount - t.state.commitCount &&
      (forall p :: m.base <= p < |t.state.savePoints| ==> SavePoint(t.state.savePoints[p]) in t.effects[m.at..])
  }

  /** The SAVEPOINT named n was issued inside the physical transaction that
      is still open at the end of effs. */
  predicate IssuedInOpenTx(effs: seq<Effect>, n: string)
  {
    exists j :: 0 <= j < |effs| && effs[j] == BeginTx && SavePoint(n) in effs[j..] &&
      forall k :: j < k < |effs| ==> !Closes(effs[k])
  }

  /** One call keeps LiveSince, and a ROLLBACK TO it issues is its only
      statement and names a savepoint of the open transaction. */
  lemma LiveStep(prev: Trace, m: Mark, op: Op)
    requires Inv(prev.state) && LiveSince(prev, m)
    ensures var next := Apply(prev.state, op);
            LiveSince(Trace(next.state, prev.effects + next.effects), NextMark(prev, m, op))
    ensures var next := Apply(prev.state, op);
            forall k :: 0 <= k < |next.effects| && next.effects[k].RollbackTo? ==>
              k == 0 && IssuedInOpenTx(prev.effects, next.effects[k].name)
  {
    match op
    case BeginOp(n) => LiveBegin(prev, m, n);
    case CommitOp => LiveCommit(prev, m);
    case RollbackOp => LiveRollback(prev, m);
  }

  lemma LiveBegin(prev: Trace, m: Mark, n: string)
    requires Inv(prev.state) && LiveSince(prev, m)
    ensures var next := Begin(prev.state, n);
            LiveSince(Trace(next.state, prev.effects + next.effects), NextMark(prev, m, BeginOp(n)))
  {
    var next := Begin(prev.state, n);
    var t := Trace(next.state, prev.effects + next.effects);
    var sp := prev.state.savePoints;
    if !prev.state.open {
      var m' := NextMark(prev, m, BeginOp(n));
      assert t.effects[m'.at..] == [BeginTx, SavePoint(n)];
      assert t.state.savePoints[|sp|] == n;
      assert forall k :: m'.at < k < |t.effects| ==> t.effects[k] == SavePoint(n);
    } else {
      assert next.effects == [SavePoint(n)];
      assert t.effects[m.at..] == prev.effects[m.at..] + [SavePoint(n)];
      forall k | m.at < k < |t.effects|
        ensures !Closes(t.effects[k])
      {
        if k < |prev.effects| {
          assert t.effects[k] == prev.effects[k];
        }
      }
      forall p | m.base <= p < |t.state.savePoints|
        ensures SavePoint(t.state.savePoints[p]) in t.effects[m.at..]
      {
        if p < |sp| {
          assert t.state.savePoints[p] == sp[p];
        }
      }
    }
  }

  lemma LiveCommit(prev: Trace, m: Mark)
    requires Inv(prev.state) && LiveSince(prev, m)
    ensures var next := Commit(prev.state);
            LiveSince(Trace(next.state, prev.effects + next.effects), m)
  {
    var next := Commit(prev.state);
    if next.state.open {
      assert next.effects == [];
      assert prev.effects + next.effects == prev.effects;
    }
  }

  lemma LiveRollback(prev: Trace, m: Mark)
    requires Inv(prev.state) && LiveSince(prev, m)
    ensures var next := Rollback(prev.state);
            LiveSince(Trace(next.state, prev.effects + next.effects), m)
    ensures var next := Rollback(prev.state);
            forall k :: 0 <= k < |next.effects| && next.effects[k].RollbackTo? ==>
              k == 0 && IssuedInOpenTx(prev.effects, next.effects[k].name)
  {
    var next := Rollback(prev.state);
    var t := Trace(next.state, prev.effects + next.effects);
    var sp := prev.state.savePoints;
    if next.state.open {
      var top := sp[|sp| - 1];
      assert next.effects == [RollbackTo(top)];
      assert t.effects[m.at..] == prev.effects[m.at..] + [RollbackTo(top)];
      forall p | m.base <= p < |t.state.savePoints|
        ensures SavePoint(t.state.savePoints[p]) in t.effects[m.at..]
      {
        assert t.state.savePoints[p] == sp[p];
      }
      assert SavePoint(top) in prev.effects[m.at..];
      assert IssuedInOpenTx(prev.effects, top);
    }
  }

  /** From a state with no transaction, as New builds, every ROLLBACK TO
      names a savepoint whose SAVEPOINT was issued after the BEGIN of the
      physical transaction still open at that point: never one of an
      earlier, already closed transaction, although those names stay on the
      stack. */
  lemma {:induction false} RollbackTargetsInOpenTransaction(s: State, ops: seq<Op>)
    requires Inv(s) && !s.open
    ensures LiveSince(Run(s, ops), Opening(s, ops))
    ensures forall i :: 0 <= i < |Run(s, ops).effects| && Run(s, ops).effects[i].RollbackTo? ==>
              IssuedInOpenTx(Run(s, ops).effects[..i], Run(s, ops).effects[i].name)
    decreases |ops|
  {
    if ops != [] {
      var init := ops[..|ops| - 1];
      var prev := Run(s, init);
      var last := Apply(prev.state, ops[|ops| - 1]);
      var t := Run(s, ops);
      assert t == Trace(last.state, prev.effects + last.effects);
      RollbackTargetsInOpenTransaction(s, init);
      LiveStep(prev, Opening(s, init), ops[|ops| - 1]);
      forall i | 0 <= i < |t.effects| && t.effects[i].RollbackTo?
        ensures IssuedInOpenTx(t.effects[..i], t.effects[i].name)
      {
        if i < |prev.effects| {
          assert t.effects[i] == prev.effects[i];
          assert t.effects[..i] == prev.effects[..i];
        } else {
          assert last.effects[i - |prev.effects|] == t.effects[i];
          assert t.effects[..i] == prev.effects;
        }
      }
    }
  }

  /** Without rollbacks nothing is ever popped, not even by the commit that
      closes the transaction: the stack only grows, by each begun name. */
  lemma {:induction false} CommitNeverPops(s: State, ops: seq<Op>)
    requires Inv(s)
    requires RollbackOp !in ops
    ensures Run(s, ops).state.savePoints == s.savePoints + BegunNames(ops)
    decreases |ops|
  {
    if ops != [] {
      var init, x := ops[..|ops| - 1], ops[|ops| - 1];
      assert RollbackOp !in init by {
        assert forall o :: o in init ==> o in ops;
      }
      assert x in ops;
      CommitNeverPops(s, init);
      var prev := Run(s, init);
      var pushed := if x.BeginOp? then [x.name] else [];
      assert Apply(prev.state, x).state.savePoints == prev.state.savePoints + pushed;
      assert s.savePoints + BegunNames(init) + pushed == s.savePoints + BegunNames(ops);
    }
  }

  /** Two complete transactions in a row: the second BEGIN is issued again,
      but the first transaction's savepoint stays on the stack and the
      counters go on from 1 rather than being reset, so once closed the
      stack length (2) differs from the counter difference (0). */
  lemma StackAndCountersCarryOver(a: string, b: string)
    ensures var first := Commit(Begin(Initial, a).state);
            var reopened := Begin(first.state, b);
            var second := Commit(reopened.state);
            first.effects == [CommitTx] && !first.state.open &&
            reopened.effects == [BeginTx, SavePoint(b)] &&
            second.effects == [CommitTx] &&
            second.state == State(false, [a, b], 2, 2)
  {
  }

  /** begin(a), begin(b), begin(c), commit, rollback: the commit was the
      vote of the scope opened with c, yet the rollback (meant for the scope
      opened with b) issues ROLLBACK TO c and pops c, leaving b's savepoint
      in place and the transaction open. While the transaction is open after
      the commit, the stack holds three names for two unresolved levels. */
  lemma RollbackAfterNestedCommitTargetsCommittedScope(a: string, b: string, c: string)
    ensures var s3 := Begin(Begin(Begin(Initial, a).state, b).state, c).state;
            var voted := Commit(s3);
            var undone := Rollback(voted.state);
            voted.effects == [] && voted.state.open &&
            |voted.state.savePoints| == 3 &&
            voted.state.transactionCount - voted.state.commitCount == 2 &&
            undone.effects == [RollbackTo(c)] &&
            undone.state == State(true, [a, b], 2, 1)
  {
  }

  /** outer begin, inner begin + commit, second inner begin + rollback,
      outer commit: the only physical statements after the savepoints are
      one ROLLBACK TO the second inner savepoint and the final COMMIT. */
  lemma InnerRollbackThenOuterCommit(a: string, b: string, c: string)
    ensures var outer := Begin(Initial, a);
            var inner := Begin(outer.state, b);
            var voted := Commit(inner.state);
            var inner2 := Begin(voted.state, c);
            var undone := Rollback(inner2.state);
            var done := Commit(undone.state);
            outer.effects == [BeginTx, SavePoint(a)] &&
            inner.effects == [SavePoint(b)] &&
            voted.effects == [] &&
            inner2.effects == [SavePoint(c)] &&
            undone.effects == [RollbackTo(c)] &&
            done.effects == [CommitTx] &&
            done.state == State(false, [a, b], 2, 2)
  {
  }

  /** As above but the outer call is a rollback: the whole transaction is
      rolled back, taking the inner scope's commit vote with it. */
  lemma OuterRollbackDiscardsCommittedVote(a: string, b: string, c: string)
    ensures var voted := Commit(Begin(Begin(Initial, a).state, b).state);
            var undone := Rollback(Begin(voted.state, c).state);
            var aborted := Rollback(undone.state);
            voted.effects == [] &&
            undone.effects == [RollbackTo(c)] &&
            aborted.effects == [RollbackTx] &&
            aborted.state == State(false, [a, b], 1, 1)
  {
  }
}
