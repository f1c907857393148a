/** The relational sink as the loaders see it: an abstract database state,
    an oracle answering each INSERT, savepoint commands, and the outer
    transaction. */
module Sink {
  import opened Basics
  import opened SqlText

  /** How the sink answers one INSERT: the generated key (RETURNING), an
      integrity error carrying its SQLSTATE if the driver reports one, or any
      other error. */
  datatype Outcome = Inserted(id: int) | IntegrityError(sqlstate: Option<string>) | OtherError

  /** The answer together with the database state the statement left. */
  datatype Response<S> = Response(outcome: Outcome, after: S)

  /** The database engine, as far as an INSERT goes: the constraints it
      checks and the keys it generates are all inside this function. */
  type InsertOracle<!S> = (S, InsertStatement, seq<Value>) -> Response<S>

  /** SQLSTATE of `unique_violation`. */
  const UniqueViolation: string := "23505"

  /** The three warnings a failed row can produce. */
  datatype FailureKind = NothingNewToAdd | OtherIntegrityViolation | UnexpectedError

  /** The loaders' classification of a failed INSERT. */
  function Classify(o: Outcome): FailureKind
    requires !o.Inserted?
  {
    match o
    case IntegrityError(state) => if state == Some(UniqueViolation) then NothingNewToAdd else OtherIntegrityViolation
    case OtherError => UnexpectedError
  }

  /** Statements issued on the cursor while loading rows. */
  datatype Command = Savepoint(name: string) | Execute(statement: InsertStatement, params: seq<Value>) | RollbackTo(name: string)

  /** The single outer transaction: what is committed, and what the session
      sees including its own uncommitted writes. */
  datatype Txn<S> = Txn(committed: S, pending: S)

  /** Transaction-level calls on the connection. `FailedCommit` is a call to
      commit that raised, so nothing was published. */
  datatype TxnCommand = Commit | FailedCommit | Rollback | Close

  /** Publishing the pending writes. */
  function CommitTxn<S>(t: Txn<S>): Txn<S>
  {
    Txn(t.pending, t.pending)
  }

  /** Discarding the pending writes. */
  function RollbackTxn<S>(t: Txn<S>): Txn<S>
  {
    Txn(t.committed, t.committed)
  }
}
