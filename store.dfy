/** The two tables the ingestion core touches, and the database/sql
    transaction it writes them through (handlers/tle.go). The catalog is the
    set of `noard_id` values of the satellite table; the tle table is the
    sequence of its rows in insertion order. Whether a database call fails
    is decided by the caller (a `fails` argument), since the driver is not
    part of this model. */
module Store {
  import opened Wrappers
  import opened Models

  class Database {
    /** The noard_id column of the satellite table. */
    var catalog: set<string>
    /** The rows of the tle table, oldest first. */
    var tle: seq<Tle>

    constructor (catalog: set<string>, tle: seq<Tle>)
      ensures this.catalog == catalog && this.tle == tle
    {
      this.catalog := catalog;
      this.tle := tle;
    }
  }

  datatype DbError = QueryError

  /** An open or finished transaction on a database. Inserts are buffered in
      `pending` until Commit; Rollback discards them. */
  class Transaction {
    const db: Database
    var pending: seq<Tle>
    var done: bool

    /** db.Begin() when it succeeds. */
    constructor Begin(db: Database)
      ensures this.db == db && pending == [] && !done
    {
      this.db := db;
      pending := [];
      done := false;
    }

    /** SELECT EXISTS(SELECT 1 FROM satellite WHERE noard_id = ?): whether
        the catalog holds id, or an error. */
    method SatelliteExists(id: string, fails: bool) returns (r: Result<bool, DbError>)
      ensures fails ==> r == Failure(QueryError)
      ensures !fails ==> r == Success(id in db.catalog)
    {
      if fails {
        return Failure(QueryError);
      }
      return Success(id in db.catalog);
    }

    /** INSERT INTO tle inside the transaction: buffered, or refused. */
    method Insert(t: Tle, fails: bool) returns (ok: bool)
      requires !done
      modifies this
      ensures ok == !fails && !done
      ensures pending == old(pending) + (if ok then [t] else [])
    {
      if fails {
        return false;
      }
      pending := pending + [t];
      return true;
    }

    /** tx.Commit(): on success the buffered rows are appended to the tle
        table in the order they were inserted; on failure the table is left
        as it was. Either way the transaction is finished and the satellite
        table is untouched. */
    method Commit(fails: bool) returns (ok: bool)
      requires !done
      modifies this, db
      ensures ok == !fails && done && pending == []
      ensures db.tle == old(db.tle) + (if ok then old(pending) else [])
      ensures db.catalog == old(db.catalog)
    {
      if !fails {
        db.tle := db.tle + pending;
      }
      pending := [];
      done := true;
      return !fails;
    }

    /** tx.Rollback(): discards the buffered rows of an open transaction; on
        a finished one (the deferred call after Commit) it does nothing. */
    method Rollback()
      modifies this
      ensures done
      ensures pending == (if old(done) then old(pending) else [])
    {
      if !done {
        pending := [];
        done := true;
      }
    }
  }
}
