# gormx nested transactions in Dafny

gormx wraps a gorm database handle so that callers can nest transactions.
Only the outermost `BeginTxx` opens a physical transaction. Every `BeginTxx`
issues a `SAVEPOINT` and pushes its name. `Commit` is a vote: only the
commit that brings the commit counter level with the begin counter issues
`COMMIT`. `Rollback` withdraws one begin. It either rolls back to the top
savepoint and pops it, or, when the counters meet, issues `ROLLBACK` for the
whole transaction.

The project has four modules:

- `SavepointNames` (savepoint_names.dfy) is the savepoint-name sanitiser:
  `"sp_"` followed by the generator's hex string with every `-` replaced by
  `_`. It proves what a name looks like, that it is a valid bare SQL
  identifier, and that sanitising generator output is injective.
- `Nesting` (nesting.dfy) is the bookkeeping as a pure state machine over
  `State(open, savePoints, transactionCount, commitCount)`.
  - One function per call returns the error, the next state and the SQL
    statements issued.
  - `Inv` is the invariant every reachable state keeps: `tx` is present
    exactly when the begin counter is ahead, and the stack is never shorter
    than the number of unresolved levels.
  - `Run` executes any call sequence.
- `NestingProperties` (nesting_properties.dfy) holds the multi-call
  properties:
  - the commit barrier;
  - every `ROLLBACK TO` names a savepoint issued inside the physical
    transaction that is still open, never one left on the stack by an
    earlier, closed transaction;
  - without rollbacks nothing is ever popped;
  - four concrete call sequences that pin down the behaviours of the code
    listed below.
- `Gormx` (gormx.dfy) is the `gormx` struct as a class whose methods update
  its fields in place. `New`, `Ping`, `Close`, `Beginx`, `BeginTxx`,
  `Rollback` and `Commit` are modelled. A ghost field logs the SQL
  statements issued. Each transaction method is proved to make exactly the
  corresponding `Nesting` step, on its fields and on that log.

The code, as written, behaves in three ways a reader might not expect. The
model keeps all three and proves each one.

- The savepoint stack is never cleared. A commit never pops, and the
  transaction-closing `COMMIT` or `ROLLBACK` leaves the stack as it is.
- The counters are never reset, so they keep growing across physical
  transactions. While a transaction is open after a nested commit, the stack
  is longer than the number of unresolved levels:
  `|savePointIDs| == transactionCount - commitCount` does not hold. Only
  `>=` does, which is all that `Inv` states.
- After a nested commit, the next non-closing rollback targets the top
  savepoint. That savepoint belongs to the scope that has already committed.

## Model

| member | source | states |
|---|---|---|
| `SavepointNames.ReplaceDashes` | gormx.go:160 | same length; every dash becomes `_`, every other character stays in place; no dash is left |
| `SavepointNames.SavepointName` | gormx.go:159-160 | the name is `sp_` followed by the sanitised hex: length 3 + input length, no dash, non-dash characters kept at their offset |
| `SavepointNames.HexNameIsIdentifier` | gormx.go:159-160 | for hex-and-dash generator output the name starts with a letter and holds only letters, digits and `_` |
| `SavepointNames.SavepointNameInjective` | gormx.go:160-161 | two underscore-free generator outputs with the same name are equal, so distinct generator outputs push distinct names |
| `Nesting.Begin` | gormx.go:150-165 | BEGIN is issued iff no tx is open, and then only once (two statements without a tx, one with); exactly one SAVEPOINT with the new name comes last; the begin counter goes up by 1 and the commit counter is unchanged; the name is appended; tx is present afterwards; the invariant is kept |
| `Nesting.Commit` | gormx.go:192-208 | with no tx: ErrNotInTransaction, nothing changes, nothing is issued; otherwise one more vote, the stack untouched; COMMIT and tx dropped exactly when the counters become equal, no statement otherwise; the invariant is kept |
| `Nesting.Rollback` | gormx.go:169-188 | with no tx: ErrNotInTransaction, nothing changes; otherwise one begin withdrawn; a non-closing rollback issues ROLLBACK TO the top name and pops it, and the stack is non-empty there; a closing one issues ROLLBACK, drops tx and leaves the stack unchanged; the invariant holds afterwards |
| `Nesting.Apply` | gormx.go:150-208 | each call keeps the invariant |
| `Nesting.Run` | gormx.go:150-208 | every state reached by any call sequence keeps the invariant, so no rollback ever pops an empty stack; votes never decrease |
| `NestingProperties.RunBegins` | gormx.go:150-165 | n begins issue one BEGIN when no tx was open, then the n SAVEPOINTs in order; all names are pushed and the begin counter grows by n |
| `NestingProperties.RunCommits` | gormx.go:192-208 | k commits against d open levels (k <= d) issue nothing until the d-th, which issues the single COMMIT; the stack is untouched |
| `NestingProperties.RunAppend` | gormx.go:150-208 | running two call sequences one after the other gives the same state and the concatenated statements as running their concatenation |
| `NestingProperties.Barrier` | gormx.go:197-207 | for the single call sequence of n begins from no tx followed by j commits: for j < n the tx stays open and only the BEGIN and the n SAVEPOINTs are issued; at j = n the only COMMIT follows and tx is closed; all n names stay on the stack |
| `NestingProperties.StepTargetsExist` | gormx.go:179-181 | one call only adds names whose SAVEPOINT it issues, and any ROLLBACK TO it issues names a savepoint already on the stack |
| `NestingProperties.RollbackTargetsExist` | gormx.go:176-181 | over any call sequence from any state, every name on the stack and every ROLLBACK TO target was on the stack at the start or had its SAVEPOINT issued earlier in the run |
| `NestingProperties.RollbackTargetsInOpenTransaction` | gormx.go:176-181 | over any call sequence from a state with no tx, every ROLLBACK TO names a savepoint whose SAVEPOINT was issued after the BEGIN of the physical transaction still open at that point, with no COMMIT or ROLLBACK in between; while a tx is open, the stack above the point where it began holds at least one name per unresolved level |
| `NestingProperties.CommitNeverPops` | gormx.go:197-207 | without rollbacks the stack is the initial stack followed by every begun name, in order: commit never pops |
| `NestingProperties.StackAndCountersCarryOver` | gormx.go:150-208 | two complete transactions in a row: BEGIN is issued again, but both names stay on the stack and the counters end at 2 and 2 |
| `NestingProperties.RollbackAfterNestedCommitTargetsCommittedScope` | gormx.go:174-183 | begin a, b, c, then commit, then rollback: the commit issues nothing and leaves three names for two open levels; the rollback issues ROLLBACK TO c and pops c, and the transaction stays open |
| `NestingProperties.InnerRollbackThenOuterCommit` | gormx.go:150-208 | outer begin, then inner begin and commit, then a second inner begin and rollback, then outer commit: BEGIN and three SAVEPOINTs, ROLLBACK TO the second inner name, then one COMMIT |
| `NestingProperties.OuterRollbackDiscardsCommittedVote` | gormx.go:169-188 | a rollback of the outer level after an inner commit issues ROLLBACK for the whole transaction, discarding that commit vote |
| `Gormx.Gormx.constructor` | gormx.go:62-69 | a new object holds the DB, has no tx, has an empty stack and zero counters, and keeps the invariant |
| `Gormx.New` | gormx.go:57-72 | a nil DB gives ErrInvalidGormDB and no object; otherwise a fresh object in the initial state |
| `Gormx.Gormx.Ping` | gormx.go:109-120 | a nil or closed DB gives ErrInvalidGormDB; otherwise the first driver error is passed on, or there is none |
| `Gormx.Gormx.Close` | gormx.go:123-142 | a nil DB gives ErrInvalidGormDB; driver errors are passed on; only a successful close drops the DB; the transaction fields are untouched |
| `Gormx.Gormx.BeginTxx` | gormx.go:150-165 | fields and issued statements change exactly as `Nesting.Begin` with the sanitised name; a new handle is used only when no tx was open; the invariant is kept |
| `Gormx.Gormx.Beginx` | gormx.go:145-147 | same as BeginTxx |
| `Gormx.Gormx.Rollback` | gormx.go:169-188 | the error, the fields and the issued statements follow `Nesting.Rollback`; tx is kept while still open and dropped otherwise |
| `Gormx.Gormx.Commit` | gormx.go:192-208 | the error, the fields and the issued statements follow `Nesting.Commit`; tx is kept while still open and dropped otherwise |

## Left out

- `Connect` (gormx.go:75-98) opens a MySQL connection through the driver. It is outside the nesting logic.
- The driver work inside `Ping` and `Close` is left out. The outcome of each driver call is a parameter.
- gorm's own transaction calls (`Begin`, `SavePoint`, `RollbackTo`, `Commit`, `Rollback`) are left out. Each one appears only as an entry in the ghost statement log. Their errors are discarded by the code and are not modelled.
- The handle returned by `db.Begin()` is an opaque parameter. `SavePoint` and `RollbackTo` return their receiver, so the tx handle does not change at a savepoint.
- The UUID generator is replaced by the string it returns, passed in as `hex`. Its uniqueness is an assumption about the generator, not part of the model.
- The `context.Context` argument only reaches the driver, so it is dropped.
- The `savePointEnabled` field is never read. `ErrIncompatibleOption` and `ErrInvalidGormDBConfig` are never returned by the modelled operations.
- `Gorm()` and `Tx()` (gormx.go:211-218) are plain field reads. In the model, `db` and `tx` are fields that can be read directly.
- Go's `int` is a machine integer. The counters here are unbounded, so overflow after 2^63 begins is not modelled.
- Gormx.Gormx.BeginTxx: requires a DB or an open tx. Without both, the Go code dereferences a nil DB and panics. The model does not describe that panic.
- Gormx.Gormx.Beginx: carries the same precondition as BeginTxx, for the same reason.
