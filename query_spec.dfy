/** Specification functions for the query builder's state and rendered text,
    and the lemmas that state what the builder promises about them. */
module QuerySpec {
  import opened DbErrors
  import opened SqlTypes
  import opened SqlFilters

  /** Registry key whose selection renders the column part as `*`. */
  const ALL_COLUMNS: string := "ALL_COLUMNS"

  /** Collection name carried by an unknown-column error. */
  const COLUMNS_COLLECTION: string := "ColumnsName"

  // ---------------------------------------------------------------------------
  // Column discovery

  /** One row of the discovery result set: a column name, or a row whose scan fails. */
  datatype Row = Column(name: string) | Unreadable

  /** Outcome of the column-discovery call: the call fails, or it yields rows. */
  datatype Discovery = LookupFailed | Rows(rows: seq<Row>)

  /** The column names scanned before the first unreadable row. */
  function NamesRead(rows: seq<Row>): (names: seq<string>)
    ensures |names| <= |rows|
    ensures forall j :: 0 <= j < |names| ==> rows[j] == Column(names[j])
    ensures |names| < |rows| ==> rows[|names|].Unreadable?
  {
    if rows == [] || rows[0].Unreadable? then []
    else [rows[0].name] + NamesRead(rows[1..])
  }

  predicate AllRead(rows: seq<Row>)
  {
    forall j :: 0 <= j < |rows| ==> rows[j].Column?
  }

  /** The registry built by inserting each name, in order, as not selected. */
  function Registry(names: seq<string>): (m: map<string, bool>)
    ensures m.Keys == set n | n in names
    ensures forall n :: n in m ==> !m[n]
  {
    if names == [] then map[]
    else
      var init, last := names[..|names| - 1], names[|names| - 1];
      assert forall n :: n in names <==> n in init || n == last;
      Registry(init)[last := false]
  }

  /** The registry is empty exactly when nothing was discovered. */
  lemma RegistryEmpty(names: seq<string>)
    ensures |Registry(names)| == 0 <==> names == []
  {
  }

  // ---------------------------------------------------------------------------
  // Column selection

  /** The registry after a known column has been selected. */
  function MarkSelected(m: map<string, bool>, name: string): (m': map<string, bool>)
    requires name in m
    ensures m'.Keys == m.Keys
    ensures m'[name]
    ensures forall k :: k in m && k != name ==> m'[k] == m[k]
  {
    m[name := true]
  }

  /** Selecting a column twice leaves the same registry as selecting it once. */
  lemma MarkSelectedIdempotent(m: map<string, bool>, name: string)
    requires name in m
    ensures MarkSelected(MarkSelected(m, name), name) == MarkSelected(m, name)
  {
  }

  /** The order in which columns are selected does not matter. */
  lemma MarkSelectedCommutes(m: map<string, bool>, a: string, b: string)
    requires a in m && b in m
    ensures MarkSelected(MarkSelected(m, a), b) == MarkSelected(MarkSelected(m, b), a)
  {
  }

  /** The columns whose flag is set. */
  function SelectedColumns(m: map<string, bool>): set<string>
  {
    set c | c in m && m[c]
  }

  predicate AllColumnsSelected(m: map<string, bool>)
  {
    ALL_COLUMNS in m && m[ALL_COLUMNS]
  }

  // ---------------------------------------------------------------------------
  // Filter clause

  /** Every filter's operator passes validation. */
  predicate OperatorsValid(fs: seq<SqlFilter>)
  {
    forall j :: 0 <= j < |fs| ==> OperatorCheck(fs[j].op).Pass?
  }

  /** ` <link> <expression>` for a filter that is not the first one. */
  function LinkedSegment(f: SqlFilter): Result<string>
  {
    match FilterExpression(f)
    case Err(e) => Err(e)
    case Ok(x) => Ok(" " + LinkToken(f.link) + " " + x)
  }

  /** Concatenation of two partial renderings; the left error wins. */
  function Joined(a: Result<string>, b: Result<string>): Result<string>
  {
    match a
    case Err(e) => Err(e)
    case Ok(s) =>
      match b
      case Err(e) => Err(e)
      case Ok(t) => Ok(s + t)
  }

  /** The linked segments of a run of non-first filters, left to right. */
  function LinkedTail(fs: seq<SqlFilter>): Result<string>
  {
    if fs == [] then Ok("") else Joined(LinkedSegment(fs[0]), LinkedTail(fs[1..]))
  }

  /** The WHERE clause: the first filter's expression without its link, then
      each later filter's own link and expression; the first failure wins. */
  function FilterClause(fs: seq<SqlFilter>): Result<string>
  {
    if fs == [] then Ok("") else Joined(FilterExpression(fs[0]), LinkedTail(fs[1..]))
  }

  lemma JoinedAssociative(a: Result<string>, b: Result<string>, c: Result<string>)
    ensures Joined(Joined(a, b), c) == Joined(a, Joined(b, c))
  {
    if a.Ok? && b.Ok? && c.Ok? {
      assert (a.value + b.value) + c.value == a.value + (b.value + c.value);
    }
  }

  lemma {:induction false} LinkedTailAppend(fs: seq<SqlFilter>, f: SqlFilter)
    ensures LinkedTail(fs + [f]) == Joined(LinkedTail(fs), LinkedSegment(f))
  {
    if fs == [] {
      assert [f][1..] == [];
      match LinkedSegment(f)
      case Err(_) =>
      case Ok(s) => assert "" + s == s && s + "" == s;
    } else {
      assert (fs + [f])[1..] == fs[1..] + [f];
      LinkedTailAppend(fs[1..], f);
      JoinedAssociative(LinkedSegment(fs[0]), LinkedTail(fs[1..]), LinkedSegment(f));
    }
  }

  /** Appending a filter to a non-empty sequence extends the clause by the NEW
      filter's own link token and its expression. */
  lemma FilterClauseAppend(fs: seq<SqlFilter>, f: SqlFilter)
    requires fs != []
    ensures FilterClause(fs + [f]) ==
      match FilterClause(fs)
      case Err(e) => Err(e)
      case Ok(clause) =>
        match FilterExpression(f)
        case Err(e) => Err(e)
        case Ok(x) => Ok(clause + " " + LinkToken(f.link) + " " + x)
  {
    assert (fs + [f])[0] == fs[0];
    assert (fs + [f])[1..] == fs[1..] + [f];
    LinkedTailAppend(fs[1..], f);
    JoinedAssociative(FilterExpression(fs[0]), LinkedTail(fs[1..]), LinkedSegment(f));
    match FilterClause(fs)
    case Err(_) =>
    case Ok(clause) =>
      match FilterExpression(f)
      case Err(_) =>
      case Ok(x) => assert clause + (" " + LinkToken(f.link) + " " + x) == clause + " " + LinkToken(f.link) + " " + x;
  }

  /** The link stored on the first filter never reaches the clause. */
  lemma FirstLinkIgnored(f: SqlFilter, rest: seq<SqlFilter>, l: Link)
    ensures FilterClause([f] + rest) == FilterClause([f.(link := l)] + rest)
  {
  }

  lemma {:induction false} LinkedTailSucceeds(fs: seq<SqlFilter>)
    ensures LinkedTail(fs).Ok? <==> OperatorsValid(fs)
  {
    if fs != [] {
      LinkedTailSucceeds(fs[1..]);
      assert OperatorsValid(fs) <==> OperatorCheck(fs[0].op).Pass? && OperatorsValid(fs[1..]) by {
        assert forall j :: 1 <= j < |fs| ==> fs[j] == fs[1..][j - 1];
      }
    }
  }

  /** Rendering the clause fails exactly when some filter's operator is invalid;
      so a clause built only through filter validation always renders. */
  lemma FilterClauseSucceeds(fs: seq<SqlFilter>)
    ensures FilterClause(fs).Ok? <==> OperatorsValid(fs)
  {
    if fs != [] {
      LinkedTailSucceeds(fs[1..]);
      assert OperatorsValid(fs) <==> OperatorCheck(fs[0].op).Pass? && OperatorsValid(fs[1..]) by {
        assert forall j :: 1 <= j < |fs| ==> fs[j] == fs[1..][j - 1];
      }
    }
  }

  lemma {:induction false} LinkedTailFirstError(fs: seq<SqlFilter>, k: nat)
    requires k < |fs| && FilterExpression(fs[k]).Err?
    requires forall j :: 0 <= j < k ==> FilterExpression(fs[j]).Ok?
    ensures LinkedTail(fs) == Err(FilterExpression(fs[k]).error)
  {
    if k > 0 {
      LinkedTailFirstError(fs[1..], k - 1);
    }
  }

  /** The clause fails with the error of the FIRST filter whose expression fails. */
  lemma FilterClauseFirstError(fs: seq<SqlFilter>, k: nat)
    requires k < |fs| && FilterExpression(fs[k]).Err?
    requires forall j :: 0 <= j < k ==> FilterExpression(fs[j]).Ok?
    ensures FilterClause(fs) == Err(FilterExpression(fs[k]).error)
  {
    if k > 0 {
      LinkedTailFirstError(fs[1..], k - 1);
    }
  }

  // ---------------------------------------------------------------------------
  // Column list and statement

  predicate Distinct(s: seq<string>)
  {
    forall i, j :: 0 <= i < j < |s| ==> s[i] != s[j]
  }

  /** `order` lists every element of `s`, each exactly once, in some order. */
  predicate IsEnumeration(order: seq<string>, s: set<string>)
  {
    && Distinct(order)
    && (forall c :: c in order ==> c in s)
    && (forall c :: c in s ==> c in order)
  }

  /** Column names joined by `", "`, built left to right. */
  function ColumnList(cols: seq<string>): string
  {
    if |cols| == 0 then ""
    else if |cols| == 1 then cols[0]
    else ColumnList(cols[..|cols| - 1]) + ", " + cols[|cols| - 1]
  }

  /** The text between the verb and `FROM`: SELECT lists `*` or its columns,
      DELETE and UPDATE list nothing. */
  function ColumnPart(kind: QueryType, m: map<string, bool>, order: seq<string>): string
  {
    if kind.Select? then
      if AllColumnsSelected(m) then "* " else ColumnList(order) + " "
    else ""
  }

  function Statement(verb: string, columns: string, table: string, clause: string): string
  {
    verb + " " + columns + "FROM " + table + " WHERE " + clause + ";"
  }

  /** An enumeration has exactly as many entries as the set it enumerates. */
  lemma {:induction false} EnumerationSize(order: seq<string>, s: set<string>)
    requires IsEnumeration(order, s)
    ensures |order| == |s|
  {
    if order != [] {
      var init, last := order[..|order| - 1], order[|order| - 1];
      assert order == init + [last];
      assert IsEnumeration(init, s - {last}) by {
        forall c
          ensures c in init <==> c in s - {last}
        {
          if c in init {
            var i :| 0 <= i < |init| && init[i] == c;
            assert order[i] == c && order[|order| - 1] == last;
          }
        }
      }
      EnumerationSize(init, s - {last});
    } else {
      assert forall c :: c !in s;
    }
  }

  /** One selected column renders as exactly that column. */
  lemma SingleColumnList(order: seq<string>, c: string)
    requires IsEnumeration(order, {c})
    ensures ColumnList(order) == c
  {
    EnumerationSize(order, {c});
  }

  /** Two selected columns render in one of the two possible orders. */
  lemma TwoColumnList(order: seq<string>, a: string, b: string)
    requires a != b && IsEnumeration(order, {a, b})
    ensures ColumnList(order) == a + ", " + b || ColumnList(order) == b + ", " + a
  {
    EnumerationSize(order, {a, b});
    assert order[..1] == [order[0]];
    assert order[0] in {a, b} && order[1] in {a, b};
  }

  /** With no column selected the column part is a lone space. */
  lemma NoColumnList(order: seq<string>)
    requires IsEnumeration(order, {})
    ensures ColumnList(order) == ""
  {
    EnumerationSize(order, {});
  }

  /** The statement starts with the verb and a space, and ends with
      `FROM <table> WHERE <clause>;`. */
  lemma StatementShape(verb: string, columns: string, table: string, clause: string)
    ensures |Statement(verb, columns, table, clause)| >= |verb| + 1
    ensures Statement(verb, columns, table, clause)[..|verb| + 1] == verb + " "
    ensures var tail := "FROM " + table + " WHERE " + clause + ";";
      |Statement(verb, columns, table, clause)| >= |tail| &&
      Statement(verb, columns, table, clause)[|Statement(verb, columns, table, clause)| - |tail|..] == tail
  {
  }

  /** Without filters the statement ends in the literal `WHERE ;`. */
  lemma EmptyClauseStatement(verb: string, columns: string, table: string)
    ensures var s := Statement(verb, columns, table, "");
      |s| >= 7 && s[|s| - 7..] == "WHERE ;"
  {
  }
}
