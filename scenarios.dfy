/** Worked examples: the link-placement example stated on `FilterClause`, and
    two callers of the builder whose assertions follow from its contracts. */
module Scenarios {
  import opened DbErrors
  import opened SqlTypes
  import opened SqlFilters
  import opened QuerySpec
  import opened SqlComponents

  /** The filter clause of `age > 18 AND` followed by `status = 'active' OR`:
      the second filter's own link joins the two. */
  lemma LinkPlacementExample(age: SqlFilter, status: SqlFilter)
    requires age == SqlFilter("age", Greater, "18", And)
    requires status == SqlFilter("status", Equal, "'active'", Or)
    ensures FilterClause([age, status]) == Ok("age > 18 OR status = 'active'")
  {
    var x, y := "age > 18", "status = 'active'";
    assert FilterExpression(age) == Ok(x) by {
      assert OperatorToString(Greater) == Ok(">");
      assert "age" + " " + ">" + " " + "18" == x;
    }
    assert FilterExpression(status) == Ok(y) by {
      assert OperatorToString(Equal) == Ok("=");
      assert "status" + " " + "=" + " " + "'active'" == y;
    }
    assert FilterClause([age]) == Ok(x) by {
      assert [age][1..] == [];
      assert x + "" == x;
    }
    FilterClauseAppend([age], status);
    assert [age] + [status] == [age, status];
    assert x + " " + LinkToken(Or) + " " + y == "age > 18 OR status = 'active'" by {
      assert LinkToken(Or) == "OR";
    }
  }

  /** A SELECT builder for `people`: two discovered columns, both selected,
      then `age > 18` and, linked by OR, `status = 'active'`. */
  method PeopleBuilder() returns (q: SqlQuery)
    ensures fresh(q) && q.queryType == Select && q.tableName == "people"
    ensures q.columnsName == map["age" := true, "status" := true]
    ensures q.filterExpressions ==
      [SqlFilter("age", Greater, "18", And), SqlFilter("status", Equal, "'active'", Or)]
  {
    q := new SqlQuery("dbqosqos", "people", Select);
    var r := q.Init(Rows([Column("age"), Column("status")]), "dbqosqos", "people");
    assert NamesRead([Column("age"), Column("status")]) == ["age", "status"];
    r := q.AddColumn("age");
    r := q.AddColumn("status");
    r := q.AddFilter(SqlFilter("age", Greater, "18", And));
    r := q.AddFilter(SqlFilter("status", Equal, "'active'", Or));
  }

  /** Rendering that builder: the first filter's AND never appears, and the two
      columns come out in one of two orders. */
  method PeopleQuery()
  {
    var q := PeopleBuilder();
    LinkPlacementExample(q.filterExpressions[0], q.filterExpressions[1]);
    assert SelectedColumns(q.columnsName) == {"age", "status"};
    assert !AllColumnsSelected(q.columnsName);
    var s, order := q.GetSQLQuery();
    TwoColumnList(order, "age", "status");
    var clause := "age > 18 OR status = 'active'";
    assert "age" + ", " + "status" == "age, status" && "status" + ", " + "age" == "status, age";
    assert s == Ok(Statement("SELECT", "age, status" + " ", "people", clause))
        || s == Ok(Statement("SELECT", "status, age" + " ", "people", clause));
  }

  /** An invalid operator is refused even for an unknown column, and without
      filters the statement ends in `WHERE ;`. */
  method RefusedFilter()
  {
    var q := new SqlQuery("dbqosqos", "people", Delete);
    var r := q.Init(Rows([Column("age")]), "dbqosqos", "people");
    r := q.AddFilter(SqlFilter("height", UnknownOperator(42), "2", And));
    assert r == Fail(UnsupportedValue("Op", 42)) && q.filterExpressions == [];
    r := q.AddFilter(SqlFilter("height", Equal, "2", And));
    assert r == Fail(ValueNotExist("height", COLUMNS_COLLECTION)) && q.filterExpressions == [];
    var s, _ := q.GetSQLQuery();
    assert s == Ok("DELETE FROM people WHERE ;") by {
      assert Statement("DELETE", "", "people", "") == "DELETE FROM people WHERE ;";
    }
  }
}
