/** The gormx wrapper object: a gorm DB handle, the one physical transaction
    handle and the nesting bookkeeping, updated in place by BeginTxx, Commit
    and Rollback. Each method is proved to change the fields exactly as the
    corresponding step of the Nesting state machine does and to append
    exactly that step's statements to the ghost log of issued statements. */
module Gormx {
  import opened Nesting
  import opened SavepointNames

  /** An opaque gorm handle (*gorm.DB); only its identity matters here. */
  datatype Handle = Handle(serial: nat)

  class Gormx {
    /** The embedded *gorm.DB; None once Close has succeeded. */
    var db: Option<Handle>
    /** The open physical transaction, if any. */
    var tx: Option<Handle>
    /** The savepoint stack, top at the end. */
    var savePointIDs: seq<string>
    var transactionCount: int
    var commitCount: int
    /** Every statement issued against the physical transaction so far. */
    ghost var effects: seq<Effect>

    /** The nesting bookkeeping as a Nesting state. */
    ghost function Snapshot(): State
      reads this
    {
      State(tx.Some?, savePointIDs, transactionCount, commitCount)
    }

    ghost predicate Valid()
      reads this
    {
      Inv(Snapshot())
    }

    /** The object New builds around a non-nil gorm DB. */
    constructor (gorm: Handle)
      ensures db == Some(gorm) && tx == None
      ensures Snapshot() == Initial && effects == []
      ensures Valid()
    {
      db := Some(gorm);
      tx := None;
      savePointIDs := [];
      transactionCount := 0;
      commitCount := 0;
      effects := [];
    }

    /** Ping with the outcomes of the driver calls passed in: `connErr` is
        what fetching the sql.DB returned and `pingErr` what its Ping
        returned. A closed or nil DB is refused before any driver call. */
    method Ping(connErr: Option<string>, pingErr: Option<string>) returns (err: Option<Error>)
      ensures db == None ==> err == Some(ErrInvalidGormDB)
      ensures db != None && connErr != None ==> err == Some(DriverError(connErr.value))
      ensures db != None && connErr == None ==>
                err == (if pingErr == None then None else Some(DriverError(pingErr.value)))
    {
      if db == None {
        return Some(ErrInvalidGormDB);
      }
      if connErr != None {
        return Some(DriverError(connErr.value));
      }
      if pingErr != None {
        return Some(DriverError(pingErr.value));
      }
      return None;
    }

    /** Close with the outcomes of the driver calls passed in. Only a
        successful close drops the DB; the transaction bookkeeping, including
        an open `tx`, is left as it was. */
    method Close(connErr: Option<string>, closeErr: Option<string>) returns (err: Option<Error>)
      modifies this
      ensures old(db) == None ==> err == Some(ErrInvalidGormDB)
      ensures old(db) != None && connErr != None ==> err == Some(DriverError(connErr.value))
      ensures old(db) != None && connErr == None ==>
                err == (if closeErr == None then None else Some(DriverError(closeErr.value)))
      ensures db == (if err == None then None else old(db))
      ensures tx == old(tx) && Snapshot() == old(Snapshot()) && effects == old(effects)
    {
      if db == None {
        return Some(ErrInvalidGormDB);
      }
      if connErr != None {
        return Some(DriverError(connErr.value));
      }
      if closeErr != None {
        return Some(DriverError(closeErr.value));
      }
      db := None;
      return None;
    }

    /** BeginTxx where `hex` is the generator's output for this call and
        `begun` the handle db.Begin() returns if a physical transaction has
        to be opened. Without an open transaction the DB must be present:
        otherwise the Go code dereferences a nil DB. Returns the transaction
        handle, which a savepoint does not change. */
    method BeginTxx(hex: string, begun: Handle) returns (h: Handle)
      requires Valid()
      requires tx != None || db != None
      modifies this
      ensures var r := Begin(old(Snapshot()), SavepointName(hex));
              Snapshot() == r.state && effects == old(effects) + r.effects
      ensures h == (if old(tx) == None then begun else old(tx).value)
      ensures tx == Some(h) && db == old(db)
      ensures Valid()
    {
      if tx == None {
        tx := Some(begun);
        effects := effects + [BeginTx];
      }
      transactionCount := transactionCount + 1;
      var savePointID := SavepointName(hex);
      savePointIDs := savePointIDs + [savePointID];
      effects := effects + [SavePoint(savePointID)];
      h := tx.value;
    }

    /** Beginx: BeginTxx with a background context. */
    method Beginx(hex: string, begun: Handle) returns (h: Handle)
      requires Valid()
      requires tx != None || db != None
      modifies this
      ensures var r := Begin(old(Snapshot()), SavepointName(hex));
              Snapshot() == r.state && effects == old(effects) + r.effects
      ensures h == (if old(tx) == None then begun else old(tx).value)
      ensures tx == Some(h) && db == old(db)
      ensures Valid()
    {
      h := BeginTxx(hex, begun);
    }

    /** Rollback: one Nesting.Rollback step. */
    method Rollback() returns (err: Option<Error>)
      requires Valid()
      modifies this
      ensures var r := Nesting.Rollback(old(Snapshot()));
              err == r.err && Snapshot() == r.state && effects == old(effects) + r.effects
      ensures tx == (if Snapshot().open then old(tx) else None) && db == old(db)
      ensures Valid()
    {
      if tx == None {
        return Some(ErrNotInTransaction);
      }
      transactionCount := transactionCount - 1;
      if transactionCount != commitCount {
        var savePointID := savePointIDs[|savePointIDs| - 1];
        effects := effects + [RollbackTo(savePointID)];
        savePointIDs := savePointIDs[..|savePointIDs| - 1];
        return None;
      }
      effects := effects + [RollbackTx];
      tx := None;
      return None;
    }

    /** Commit: one Nesting.Commit step. */
    method Commit() returns (err: Option<Error>)
      requires Valid()
      modifies this
      ensures var r := Nesting.Commit(old(Snapshot()));
              err == r.err && Snapshot() == r.state && effects == old(effects) + r.effects
      ensures tx == (if Snapshot().open then old(tx) else None) && db == old(db)
      ensures Valid()
    {
      if tx == None {
        return Some(ErrNotInTransaction);
      }
      commitCount := commitCount + 1;
      if transactionCount != commitCount {
        return None;
      }
      effects := effects + [CommitTx];
      tx := None;
      return None;
    }
  }

  /** New: a nil gorm DB is refused with ErrInvalidGormDB; otherwise the
      object starts with no transaction, an empty stack and both counters
      at zero. */
  method New(gorm: Option<Handle>) returns (g: Gormx?, err: Option<Error>)
    ensures gorm == None ==> g == null && err == Some(ErrInvalidGormDB)
    ensures gorm != None ==>
              err == None && g != null && fresh(g) &&
              g.db == gorm && g.tx == None && g.Snapshot() == Initial && g.effects == [] && g.Valid()
  {
    if gorm == None {
      return null, Some(ErrInvalidGormDB);
    }
    g := new Gormx(gorm.value);
    return g, None;
  }
}
