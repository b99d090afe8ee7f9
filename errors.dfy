/** Python exceptions raised by the debugger's core, as values. */
module Errors {

  /** The cause of an exception the source raises (or lets propagate). */
  datatype Error =
    | UnknownPredicate(name: string)   // ValueError: a chain entry names no registered predicate
    | NoPredicateClass(name: string)   // AttributeError: None.from_json for an unknown nested name
    | NotAnInteger(text: string)       // ValueError: int() of a malformed literal
    | MissingKey(key: string)          // KeyError: a dictionary lookup or pop of an absent key
    | DuplicateHash(hash: string)      // KeyError: a breakpoint with this chain hash already exists
    | IndexOutOfRange                  // IndexError: a chain position outside the chain
    | UnmarkedBThread(bt: nat)         // KeyError: a ticket's b-thread was never given a name

  datatype Result<+T> = Ok(value: T) | Err(error: Error)

  datatype Option<+T> = None | Some(value: T)
}
