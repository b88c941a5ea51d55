/** `run_sql`: open a connection, guard the statement with a row limit, run
    it, and close the connection on every path. The database itself is not
    modelled: its answer to the one statement is a parameter. */
module Executor {
  import opened LimitGuard

  /** What the database does with a connection request and a statement. */
  datatype Answer =
    | Rows(columns: seq<string>, rows: seq<seq<string>>)
    | DatabaseError(message: string)
    | ConnectionRefused(message: string)

  /** What `run_sql` gives its caller: the column names, the rows and the
      statement it ran, or the error it raised. */
  datatype Outcome =
    | Executed(columns: seq<string>, rows: seq<seq<string>>, sql: string)
    | Failed(message: string)

  /** A database connection holding the statements sent over it. */
  class Connection {
    var open: bool
    var executed: seq<string>

    constructor ()
      ensures open && executed == []
    {
      open := true;
      executed := [];
    }

    /** Sends `sql`; `answer` stands for the database's reply. */
    method Execute(sql: string, answer: Answer) returns (reply: Answer)
      requires open
      modifies this
      ensures open && executed == old(executed) + [sql] && reply == answer
    {
      executed := executed + [sql];
      reply := answer;
    }

    method Close()
      modifies this
      ensures !open && executed == old(executed)
    {
      open := false;
    }
  }

  /** `run_sql(query, default_limit)`. A refused connection fails before any
      connection exists; otherwise exactly the guarded statement is sent and
      the connection is closed whether the statement succeeds or fails. */
  method RunSql(query: string, defaultLimit: int, answer: Answer) returns (conn: Connection?, outcome: Outcome)
    ensures answer.ConnectionRefused? ==> conn == null && outcome == Failed(answer.message)
    ensures !answer.ConnectionRefused? ==>
      conn != null && fresh(conn) && !conn.open && conn.executed == [Guard(query, defaultLimit)]
    ensures answer.Rows? ==> outcome == Executed(answer.columns, answer.rows, Guard(query, defaultLimit))
    ensures answer.DatabaseError? ==> outcome == Failed(answer.message)
  {
    if answer.ConnectionRefused? {
      return null, Failed(answer.message);
    }
    conn := new Connection();
    var sql := Guard(query, defaultLimit);
    var reply := conn.Execute(sql, answer);
    if reply.Rows? {
      outcome := Executed(reply.columns, reply.rows, sql);
    } else {
      outcome := Failed(reply.message);
    }
    conn.Close();
  }
}
