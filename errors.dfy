/** The exception classes the database layer and the judge-evaluator raise or catch.

    The classes come from two places: SQLAlchemy (`DBAPIError`, `DatabaseError`,
    `OperationalError`, `TimeoutError`, `DisconnectionError`) and Rucio's own
    exception module (`RucioException`, `DatabaseException`, `DataIdentifierNotFound`).
    Neither is part of this model, so the subclass relation between the SQLAlchemy
    classes is a parameter (`Hierarchy`): an `except` clause is modelled by the
    predicate saying which classes it catches, and the clauses keep their order. */
module Errors {

  /** The most specific class of a raised exception. */
  datatype ErrorClass =
    | OperationalError       // sqlalchemy.exc.OperationalError
    | OtherDatabaseError     // a sqlalchemy.exc.DatabaseError that is not an OperationalError
    | OtherDbapiError        // a sqlalchemy.exc.DBAPIError that is not a DatabaseError
    | SqlTimeoutError        // sqlalchemy.exc.TimeoutError (pool checkout timeout)
    | DisconnectionError     // sqlalchemy.exc.DisconnectionError
    | RucioException         // rucio.common.exception.RucioException
    | DatabaseException      // rucio.common.exception.DatabaseException
    | DataIdentifierNotFound // rucio.common.exception.DataIdentifierNotFound
    | OtherException         // anything else

  /** A raised exception: its class and its message `e.args[0]`.  For a
      `DBAPIError` the text `str(e)` also carries the failed statement and its
      parameters; the model does not keep that extra text. */
  datatype Error = Error(cls: ErrorClass, msg: string)

  /** Whether `OperationalError` is a subclass of `DatabaseError`.  In SQLAlchemy it is. */
  datatype Hierarchy = Hierarchy(operationalIsDatabase: bool)

  const SqlAlchemy := Hierarchy(true)

  /** The classes an `except DatabaseError` clause catches. */
  predicate IsDatabaseError(h: Hierarchy, c: ErrorClass) {
    c == OtherDatabaseError || (c == OperationalError && h.operationalIsDatabase)
  }

  /** How a call ends: it returns a value or raises an exception. */
  datatype Outcome<+T> = Return(value: T) | Raise(error: Error)
}
