/** Values for the source's error returns and missing entries. */
module Results {

  datatype Option<+T> = None | Some(value: T)

  datatype Result<+T> = Ok(value: T) | Err(error: Error)

  datatype Error =
    | KeyNotFound
    | NodeNotFound
    | CacheNotFound
    | NilNode
    | NilStorage
    | SelfDependency
    | UnknownQuery
    | UnknownOperator
    | NilOperand
}
