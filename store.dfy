/** The database connection: the current tables, replaced as a whole by each write. */
module Store {
  import opened Wrappers
  import opened Schema

  class Database {
    var tables: Tables

    constructor (t: Tables)
      ensures tables == t
    {
      tables := t;
    }
  }

  /** The tables after a write that either commits `r.value` or fails and leaves `t`. */
  function Committed(t: Tables, r: Result<Tables>): Tables {
    if r.Ok? then r.value else t
  }

  /** The procedure's reply: success, or the error code it raised. */
  function Reply(r: Result<Tables>): Outcome {
    if r.Ok? then Pass else Fail(r.code)
  }

  /** What a comment-inserting transaction commits: the new tables and the inserted comment. */
  datatype Inserted = Inserted(tables: Tables, comment: Comment)
}
