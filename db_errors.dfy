/** The error kinds the query builder reports, and the two shapes in which
    Go's `error` results are modelled: `Outcome` for a bare `error` and
    `Result` for a `(value, error)` pair. */
module DbErrors {

  datatype Error =
    | SchemaLookupFailed                                 // the column-discovery call itself failed
    | RecordReadFailed                                   // one row of the discovery result could not be scanned
    | TableNotExist(tableName: string)                   // discovery returned no column at all
    | ValueNotExist(value: string, collection: string)   // a name that is not in a known collection
    | UnsupportedValue(typeName: string, code: int)      // an enumeration value outside its closed set

  /** A Go `error` result: `Pass` stands for `nil`. */
  datatype Outcome = Pass | Fail(error: Error)

  /** A Go `(T, error)` result pair. */
  datatype Result<T> = Ok(value: T) | Err(error: Error)
}
