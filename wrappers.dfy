/** Failure-carrying results and the error kinds the storage layer raises. */
module Wrappers {

  datatype Option<+T> = None | Some(value: T)

  datatype Result<+T> = Success(value: T) | Failure(error: Error) {
    predicate IsFailure() { Failure? }

    function PropagateFailure<U>(): Result<U>
      requires Failure?
    {
      Failure(error)
    }

    function Extract(): T
      requires Success?
    {
      value
    }
  }

  /** One constructor per exception the Python code raises (the class it raises is noted). */
  datatype Error =
    | PathNotSupported            // ValueError: the argument's text contains ".."
    | PathOutsideRoot             // ValueError: an absolute path that is not under the root
    | PathOutsideRepo(message: string) // ValueError of the older DirRepo, with its message
    | WrongType                   // TypeError: an argument of a type the method does not accept
    | NoSuchAttribute             // AttributeError: a method called on a value that does not have it
    | NotInDirectory              // the db file's parent is not a directory
    | FileOccupied                // ValueError: the db path exists but is not a scout db
    | IsADirectory                // IsADirectoryError: the db path is a directory
    | RootNotDirectory            // FileNotFoundError: the root is not a directory
    | NoSelector                  // TypeError: a query builder got no selecting argument
    | NoTarget                    // ValueError: a lookup got neither id, path nor dir
    | MissingParentDirectory      // ValueError: a file's parent directory has no row
    | UnsupportedOperator         // ValueError: a filter suffix that is not understood
    | BadFilterKey                // ValueError: a filter key with more than one "__" does not unpack into two
    | BadPathFilter               // ValueError: a path filter that is neither a str nor a PurePath
    | SqlError                    // sqlite3 error: unknown column, a parameter it cannot bind, or a statement broken by a quote
    | InvalidId                   // ValueError of Validator.id
    | NoAncestors                 // IndexError: ids[-1] on the empty id list of the root itself
}
