/** Closed enumerations of the statement kind, the comparison operator and the
    logical link, each with its validity check and its canonical SQL token.
    Every value outside the closed set is kept as an `Unknown…(code)` case, since
    in the program these are integer codes that may arrive from untyped input. */
module SqlTypes {
  import opened DbErrors

  datatype QueryType = Select | Update | Delete | UnknownQueryType(code: int)

  datatype Operator =
    | Equal | NotEqual | Less | LessOrEqual | Greater | GreaterOrEqual
    | UnknownOperator(code: int)

  datatype Link = And | Or | UnknownLink(code: int)

  /** The statement verb; fails for a kind outside the closed set. */
  function QueryTypeToString(t: QueryType): (r: Result<string>)
    ensures r.Ok? <==> !t.UnknownQueryType?
    ensures r.Ok? ==> |r.value| > 0
  {
    match t
    case Select => Ok("SELECT")
    case Update => Ok("UPDATE")
    case Delete => Ok("DELETE")
    case UnknownQueryType(c) => Err(UnsupportedValue("SQLOperator", c))
  }

  /** `Op.IsValid`: passes exactly for the operators of the closed set. */
  function OperatorCheck(op: Operator): (r: Outcome)
    ensures r.Pass? <==> !op.UnknownOperator?
  {
    match op
    case UnknownOperator(c) => Fail(UnsupportedValue("Op", c))
    case _ => Pass
  }

  /** `Op.ToString`: the comparison token, failing exactly as `OperatorCheck` does. */
  function OperatorToString(op: Operator): (r: Result<string>)
    ensures r.Ok? <==> OperatorCheck(op).Pass?
    ensures r.Err? ==> r.error == OperatorCheck(op).error
    ensures r.Ok? ==> |r.value| > 0
  {
    match op
    case Equal => Ok("=")
    case NotEqual => Ok("<>")
    case Less => Ok("<")
    case LessOrEqual => Ok("<=")
    case Greater => Ok(">")
    case GreaterOrEqual => Ok(">=")
    case UnknownOperator(c) => Err(UnsupportedValue("Op", c))
  }

  /** `Link.ToString`: the logical connective token. */
  function LinkToString(l: Link): (r: Result<string>)
    ensures r.Ok? <==> !l.UnknownLink?
  {
    match l
    case And => Ok("AND")
    case Or => Ok("OR")
    case UnknownLink(c) => Err(UnsupportedValue("Link", c))
  }
}
