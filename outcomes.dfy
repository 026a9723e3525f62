/** Failure-carrying results and the error kinds of the storage layer.
    Every failure of the source is an exception (HDF5Error, or a KeyError /
    AttributeError raised by the Python runtime); here each becomes a value. */
module Outcomes {

  datatype Option<+T> = None | Some(value: T)

  /** The illegal flag combinations rejected when a container is opened. */
  datatype BadFlags = AppendWithoutCreate | IgnoreHashOnCreate | MissingHash

  datatype Error =
    | InvalidConfiguration(flags: BadFlags)
    | FileNotFound
    | VersionMismatch
    | HashMismatch
    | ReadOnlyFile                    // a write through a handle opened read-only
    | DuplicatePath                   // a write to a path that already holds data
    | PathNotFound                    // a lookup of a path that holds nothing (KeyError)
    | NotASet                         // a non-empty sample request that is not a set
    | UnknownSample(missing: seq<string>)
    | DuplicateGenome                 // registering a genome a second time
    | UnknownGenome(missing: seq<string>)
    | UnknownGeneCall
    | FunctionsUnavailable
    | AttributeMissing                // an attribute the constructor never set
    | KeyMissing(key: string)         // a key absent from a caller's dictionary

  datatype Result<+T> = Ok(value: T) | Err(error: Error)

  /** The result of an operation that only changes state. */
  datatype Outcome = Pass | Fail(error: Error)
}
