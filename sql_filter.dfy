/** One filter predicate of a WHERE clause. */
module SqlFilters {
  import opened DbErrors
  import opened SqlTypes

  /** `link` joins this filter to the filter BEFORE it in the builder's sequence. */
  datatype SqlFilter = SqlFilter(columnName: string, op: Operator, value: string, link: Link)

  /** `SQLFilter.GetFilterExpression`: `<column> <operator> <value>`; it fails, with
      the operator's own error, exactly when the operator is invalid. */
  function FilterExpression(f: SqlFilter): (r: Result<string>)
    ensures r.Ok? <==> OperatorCheck(f.op).Pass?
    ensures r.Err? ==> r.error == OperatorCheck(f.op).error
  {
    match OperatorToString(f.op)
    case Err(e) => Err(e)
    case Ok(token) => Ok(f.columnName + " " + token + " " + f.value)
  }

  /** The link token as the builder uses it: the error of `Link.ToString` is
      discarded there, so an unknown link contributes the empty string. */
  function LinkToken(l: Link): string
  {
    match LinkToString(l)
    case Ok(s) => s
    case Err(_) => ""
  }
}
