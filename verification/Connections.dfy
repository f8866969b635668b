/** The SQLite connection as the library uses it: one level of transaction, statements that may fail at any time, and a
    rollback journal that deletes switch off. */
module Connections {
  import opened Seqs

  class Connection<D(0)> {
    var db: D
    /** The state at BEGIN; meaningless in autocommit mode. */
    var saved: D
    var autocommit: bool
    /** Whether a rollback journal is kept. */
    var journal: bool

    constructor (db: D)
      ensures this.db == db && autocommit && journal
    {
      this.db, saved := db, db;
      autocommit, journal := true, true;
    }

    /** What is left when a statement fails with a journal: the statement undone, or the whole transaction. */
    twostate predicate Unwound()
      reads this
    {
      (autocommit == old(autocommit) && db == old(db)) || (!old(autocommit) && autocommit && db == old(saved))
    }

    /** rtcom_el_db_exec of a writing statement; `next` is the database it leads to, None when a constraint forbids it.
        It may also fail for any other reason.  Without a journal a failure can leave anything behind. */
    method Exec(next: Option<D>) returns (ok: bool)
      modifies this`db, this`autocommit
      ensures ok ==> next == Some(db) && autocommit == old(autocommit)
      ensures !ok && journal ==> Unwound()
      ensures old(autocommit) ==> autocommit
    {
      var fault: bool := *;
      if next.Some? && !fault {
        db := next.value;
        return true;
      }
      ok := false;
      var all: bool := *;
      if !journal {
        db := *;
        autocommit := autocommit || all;
      } else if all && !autocommit {
        db, autocommit := saved, true;
      }
    }

    /** rtcom_el_db_exec of a SELECT. */
    method Ask() returns (ok: bool)
      modifies this`db, this`autocommit
      ensures ok ==> db == old(db) && autocommit == old(autocommit)
      ensures !ok && journal ==> Unwound()
      ensures !ok && !journal ==> (autocommit == old(autocommit) && db == old(db)) || (!old(autocommit) && autocommit)
    {
      ok := *;
      if !ok {
        var all: bool := *;
        if all && !autocommit {
          autocommit := true;
          if journal {
            db := saved;
          } else {
            db := *;
          }
        }
      }
    }

    /** rtcom_el_db_transaction: refuses to nest. */
    method Begin() returns (ok: bool)
      modifies this`saved, this`autocommit
      ensures ok ==> old(autocommit) && !autocommit && saved == db
      ensures !ok ==> autocommit == old(autocommit) && saved == old(saved)
    {
      var fault: bool := *;
      if !autocommit || fault {
        return false;
      }
      saved, autocommit := db, false;
      ok := true;
    }

    /** rtcom_el_db_commit: refuses outside a transaction. */
    method Commit() returns (ok: bool)
      modifies this`db, this`autocommit
      ensures ok ==> !old(autocommit) && autocommit && db == old(db)
      ensures !ok && journal ==> Unwound()
    {
      if autocommit {
        return false;
      }
      ok := *;
      if ok {
        autocommit := true;
      } else {
        var undone := Exec(None);
      }
    }

    /** rtcom_el_db_rollback: refuses outside a transaction, and otherwise always ends it. */
    method Rollback() returns (ok: bool)
      modifies this`db, this`autocommit
      ensures autocommit && ok == !old(autocommit)
      ensures !ok ==> db == old(db)
      ensures ok && journal ==> db == saved
    {
      if autocommit {
        return false;
      }
      autocommit := true;
      if journal {
        db := saved;
      } else {
        db := *;
      }
      ok := true;
    }

    /** PRAGMA journal_mode: has no effect inside a transaction, and its failure is never noticed. */
    method SetJournal(on: bool)
      modifies this`journal
      ensures !autocommit ==> journal == old(journal)
      ensures journal == old(journal) || journal == on
    {
      var done: bool := *;
      if autocommit && done {
        journal := on;
      }
    }
  }
}
