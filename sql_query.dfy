/** The SQL statement builder: a table's column registry, the filters attached
    to it, and the renderers of the WHERE clause and of the whole statement. */
module SqlComponents {
  import opened DbErrors
  import opened SqlTypes
  import opened SqlFilters
  import opened QuerySpec

  class SqlQuery {
    var dbName: string
    var tableName: string
    var queryType: QueryType
    /** Column registry: every known column name and whether it is selected. */
    var columnsName: map<string, bool>
    /** Filters in the order they were attached. */
    var filterExpressions: seq<SqlFilter>

    /** A builder bound to a table, with no known column and no filter. */
    constructor (dbName: string, tableName: string, queryType: QueryType)
      ensures this.dbName == dbName && this.tableName == tableName && this.queryType == queryType
      ensures columnsName == map[] && filterExpressions == []
    {
      this.dbName := dbName;
      this.tableName := tableName;
      this.queryType := queryType;
      columnsName := map[];
      filterExpressions := [];
    }

    /** Rebuilds the registry from the columns that discovery reports for
        `tableName`, each one not selected. A failed discovery call leaves the
        registry as it was; a row that cannot be read stops the loop and keeps the
        names read before it; no column at all is reported as a missing table. */
    method Init(discovery: Discovery, dbName: string, tableName: string) returns (r: Outcome)
      modifies this`columnsName
      ensures discovery.LookupFailed? ==> r == Fail(SchemaLookupFailed) && columnsName == old(columnsName)
      ensures discovery.Rows? ==> columnsName == Registry(NamesRead(discovery.rows))
      ensures discovery.Rows? ==>
        r == if !AllRead(discovery.rows) then Fail(RecordReadFailed)
             else if NamesRead(discovery.rows) == [] then Fail(TableNotExist(tableName))
             else Pass
    {
      if discovery.LookupFailed? {
        return Fail(SchemaLookupFailed);
      }
      var rows := discovery.rows;
      ghost var names := NamesRead(rows);
      columnsName := map[];
      var i := 0;
      while i < |rows|
        invariant 0 <= i <= |rows|
        invariant forall j :: 0 <= j < i ==> rows[j].Column?
        invariant i <= |names|
        invariant columnsName == Registry(names[..i])
      {
        if rows[i].Unreadable? {
          assert |names| == i;
          assert names[..i] == names;
          return Fail(RecordReadFailed);
        }
        assert names[..i + 1][..i] == names[..i];
        columnsName := columnsName[rows[i].name := false];
        i := i + 1;
      }
      assert names[..i] == names;
      RegistryEmpty(names);
      if |columnsName| == 0 {
        return Fail(TableNotExist(tableName));
      }
      return Pass;
    }

    /** Selects a known column; an unknown name is an error and changes nothing. */
    method AddColumn(name: string) returns (r: Outcome)
      modifies this`columnsName
      ensures name in old(columnsName) ==> r == Pass && columnsName == MarkSelected(old(columnsName), name)
      ensures name !in old(columnsName) ==>
        r == Fail(ValueNotExist(name, COLUMNS_COLLECTION)) && columnsName == old(columnsName)
    {
      if name in columnsName {
        columnsName := columnsName[name := true];
        return Pass;
      }
      return Fail(ValueNotExist(name, COLUMNS_COLLECTION));
    }

    /** Appends a filter whose operator is valid and whose column is known. The
        operator is checked first, so its error wins over an unknown column;
        on either error the filters are unchanged. */
    method AddFilter(f: SqlFilter) returns (r: Outcome)
      modifies this`filterExpressions
      ensures OperatorCheck(f.op).Fail? ==>
        r == OperatorCheck(f.op) && filterExpressions == old(filterExpressions)
      ensures OperatorCheck(f.op).Pass? && f.columnName !in columnsName ==>
        r == Fail(ValueNotExist(f.columnName, COLUMNS_COLLECTION)) && filterExpressions == old(filterExpressions)
      ensures OperatorCheck(f.op).Pass? && f.columnName in columnsName ==>
        r == Pass && filterExpressions == old(filterExpressions) + [f]
      ensures OperatorsValid(old(filterExpressions)) ==> OperatorsValid(filterExpressions)
    {
      var valid := OperatorCheck(f.op);
      if valid.Fail? {
        return valid;
      }
      if f.columnName !in columnsName {
        return Fail(ValueNotExist(f.columnName, COLUMNS_COLLECTION));
      }
      filterExpressions := filterExpressions + [f];
      return Pass;
    }

    /** Renders the WHERE clause: see `FilterClause`, and the lemmas
        `FilterClauseAppend` and `FilterClauseFirstError` for its shape. */
    method GetFilterExpressions() returns (r: Result<string>)
      ensures r == FilterClause(filterExpressions)
    {
      var clause := "";
      var i := 0;
      while i < |filterExpressions|
        invariant 0 <= i <= |filterExpressions|
        invariant forall j :: 0 <= j < i ==> FilterExpression(filterExpressions[j]).Ok?
        invariant FilterClause(filterExpressions[..i]) == Ok(clause)
      {
        var f := filterExpressions[i];
        var expr := FilterExpression(f);
        if expr.Err? {
          FilterClauseFirstError(filterExpressions, i);
          return Err(expr.error);
        }
        assert filterExpressions[..i + 1] == filterExpressions[..i] + [f];
        if i == 0 {
          assert filterExpressions[..1] == [f];
          assert FilterClause([f]) == Joined(expr, LinkedTail([])) by {
            assert [f][1..] == [];
          }
          clause := clause + expr.value;
          assert clause == expr.value + "";
        } else {
          FilterClauseAppend(filterExpressions[..i], f);
          clause := clause + " " + LinkToken(f.link) + " " + expr.value;
        }
        i := i + 1;
      }
      assert filterExpressions[..i] == filterExpressions;
      return Ok(clause);
    }

    /** The SELECT column loop: visits the registry in an unspecified order
        (Go's map iteration order) and joins the selected names with `", "`,
        each selected name exactly once. */
    method SelectedColumnList() returns (list: string)
      ensures exists order :: IsEnumeration(order, SelectedColumns(columnsName)) && list == ColumnList(order)
    {
      list := "";
      ghost var order := [];
      var firstColumn := true;
      var pending := columnsName.Keys;
      ghost var visited: set<string> := {};
      while pending != {}
        invariant pending + visited == columnsName.Keys
        invariant pending !! visited
        invariant Distinct(order)
        invariant forall x :: x in order ==> x in visited && x in columnsName && columnsName[x]
        invariant forall x :: x in visited && x in columnsName && columnsName[x] ==> x in order
        invariant firstColumn <==> order == []
        invariant list == ColumnList(order)
        decreases pending
      {
        var c :| c in pending;
        pending := pending - {c};
        visited := visited + {c};
        if !columnsName[c] {
          continue;
        }
        assert (order + [c])[..|order|] == order;
        if firstColumn {
          list := list + c;
          firstColumn := false;
        } else {
          list := list + ", " + c;
        }
        order := order + [c];
      }
      assert IsEnumeration(order, SelectedColumns(columnsName));
    }

    /** Renders the whole statement. The verb's error comes first, then the
        clause's; otherwise the text is `Statement` of the verb, the column part,
        the table and the clause. `order` is the order in which the registry was
        visited: for a SELECT without `ALL_COLUMNS` it lists every selected
        column exactly once. */
    method GetSQLQuery() returns (r: Result<string>, ghost order: seq<string>)
      ensures QueryTypeToString(queryType).Err? ==> r == Err(QueryTypeToString(queryType).error)
      ensures QueryTypeToString(queryType).Ok? && FilterClause(filterExpressions).Err? ==>
        r == Err(FilterClause(filterExpressions).error)
      ensures QueryTypeToString(queryType).Ok? && FilterClause(filterExpressions).Ok? ==>
        r == Ok(Statement(QueryTypeToString(queryType).value, ColumnPart(queryType, columnsName, order),
                          tableName, FilterClause(filterExpressions).value))
      ensures queryType.Select? && !AllColumnsSelected(columnsName) ==>
        IsEnumeration(order, SelectedColumns(columnsName))
    {
      order := [];
      var verb := QueryTypeToString(queryType);
      if verb.Err? {
        return Err(verb.error), order;
      }
      var columns := "";
      if queryType.Select? {
        if ALL_COLUMNS in columnsName && columnsName[ALL_COLUMNS] {
          columns := "* ";
        } else {
          var list := SelectedColumnList();
          order :| IsEnumeration(order, SelectedColumns(columnsName)) && list == ColumnList(order);
          columns := list + " ";
        }
      }
      // DELETE and UPDATE add no column part; any other kind was already
      // refused by QueryTypeToString, so the switch has no reachable default.
      assert columns == ColumnPart(queryType, columnsName, order);
      var query := verb.value + " " + columns + "FROM " + tableName + " WHERE ";
      var clause := GetFilterExpressions();
      if clause.Err? {
        return Err(clause.error), order;
      }
      query := query + clause.value + ";";
      return Ok(query), order;
    }
  }
}
