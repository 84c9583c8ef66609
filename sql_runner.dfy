/** The warehouse wrappers: running a statement, `EXPLAIN`, the columns of a
    table, and the schema grouped by table. The connection and the cursor
    are one value, `Warehouse`: whether connecting succeeds, and what
    executing a statement returns (`None` when it raises). */
module SqlRunner {
  import opened Wrappers
  import opened PyStr

  /** A statement and its bound parameters, as given to `cursor.execute`. */
  datatype Statement = Statement(text: string, params: seq<string>)

  /** A row of `fetchall()`, each value as its text. */
  type Row = seq<string>

  /** `cursor.fetchall()` and the names from `cursor.description`. */
  datatype QueryResult = QueryResult(rows: seq<Row>, columns: seq<string>)

  /** `connect_snowflake()` and the cursor it gives. */
  datatype Warehouse = Warehouse(connects: bool, execute: Statement -> Option<QueryResult>)

  // ---------------------------------------------------------------------
  // run_sql, analyze_query

  /** `run_sql(sql_query)`: the result of executing the text as it is, with
      no parameters; `None` (Python's `(None, None)`) when there is no
      connection or execution raises. */
  function RunSql(w: Warehouse, sql: string): (r: Option<QueryResult>)
    ensures r.Some? <==> w.connects && w.execute(Statement(sql, [])).Some?
    ensures r.Some? ==> r == w.execute(Statement(sql, []))
  {
    if !w.connects then None else w.execute(Statement(sql, []))
  }

  const ExplainPrefix: string := "EXPLAIN "

  /** `analyze_query(sql_query)`: the warehouse is asked exactly
      `EXPLAIN <query>`, and its answer is returned. */
  function AnalyzeQuery(w: Warehouse, sql: string): (r: Option<QueryResult>)
    ensures r.Some? <==> w.connects && w.execute(Statement(ExplainPrefix + sql, [])).Some?
    ensures r.Some? ==> r == w.execute(Statement(ExplainPrefix + sql, []))
  {
    RunSql(w, ExplainPrefix + sql)
  }

  // ---------------------------------------------------------------------
  // fetch_table_columns

  const ColumnsQuery: string :=
    "\n        SELECT COLUMN_NAME \n        FROM INFORMATION_SCHEMA.COLUMNS \n        WHERE TABLE_NAME = %s\n        "

  /** `[row[0] for row in rows]`; `None` when a row is empty (`IndexError`). */
  function FirstValues(rows: seq<Row>): (r: Option<seq<string>>)
    ensures r.Some? <==> forall k :: 0 <= k < |rows| ==> |rows[k]| > 0
    ensures r.Some? ==> |r.value| == |rows| && forall k :: 0 <= k < |rows| ==> r.value[k] == rows[k][0]
    decreases |rows|
  {
    if rows == [] then Some([])
    else if |rows[0]| == 0 then None
    else
      match FirstValues(rows[1..])
      case None => None
      case Some(rest) => Some([rows[0][0]] + rest)
  }

  /** `fetch_table_columns(table_name)`: the first value of every row the
      column query returns for the upper-cased table name; `[]` when there is
      no connection, execution raises, or a row is empty. */
  function FetchTableColumns(w: Warehouse, table: string): (r: seq<string>)
    ensures !w.connects ==> r == []
    ensures r != [] ==> (w.connects &&
      w.execute(Statement(ColumnsQuery, [Upper(table)])).Some? &&
      var rows := w.execute(Statement(ColumnsQuery, [Upper(table)])).value.rows;
      |r| == |rows| && forall k :: 0 <= k < |rows| ==> |rows[k]| > 0 && r[k] == rows[k][0])
    ensures var e := w.execute(Statement(ColumnsQuery, [Upper(table)]));
      w.connects && e.Some? && FirstValues(e.value.rows).Some? ==> r == FirstValues(e.value.rows).value
    ensures var e := w.execute(Statement(ColumnsQuery, [Upper(table)]));
      w.connects && (e.None? || FirstValues(e.value.rows).None?) ==> r == []
  {
    if !w.connects then []
    else
      match w.execute(Statement(ColumnsQuery, [Upper(table)]))
      case None => []
      case Some(res) =>
        match FirstValues(res.rows)
        case None => []
        case Some(names) => names
  }

  // ---------------------------------------------------------------------
  // fetch_schema: grouping

  /** One row of the schema query: table, column and data type. */
  datatype SchemaRow = SchemaRow(table: string, column: string, dataType: string)

  /** A value of the lists in `schema_info`: `(column_name, data_type)`. */
  datatype Column = Column(name: string, dataType: string)

  /** `schema_info`: a dictionary keeps its keys in insertion order, so the
      order is kept next to the map. */
  datatype Schema = Schema(order: seq<string>, columns: map<string, seq<Column>>)

  const EmptySchema: Schema := Schema([], map[])

  /** A schema that is a dictionary: each key once in the order, and the
      order lists exactly the keys of the map. */
  ghost predicate IsDict(s: Schema) {
    (forall i, j :: 0 <= i < j < |s.order| ==> s.order[i] != s.order[j]) &&
    (forall t :: t in s.columns <==> t in s.order)
  }

  /** The table names of `rows` in the order they first appear. */
  function TableOrder(rows: seq<SchemaRow>): seq<string>
    decreases |rows|
  {
    if rows == [] then []
    else
      var before := TableOrder(rows[..|rows| - 1]);
      if rows[|rows| - 1].table in before then before else before + [rows[|rows| - 1].table]
  }

  /** The columns of the rows of table `t`, in row order. */
  function ColumnsOf(rows: seq<SchemaRow>, t: string): seq<Column>
    decreases |rows|
  {
    if rows == [] then []
    else
      var last := rows[|rows| - 1];
      ColumnsOf(rows[..|rows| - 1], t) + if last.table == t then [Column(last.column, last.dataType)] else []
  }

  /** What the loop builds from `rows`. */
  function Grouped(rows: seq<SchemaRow>): Schema {
    Schema(TableOrder(rows), map t | t in TableOrder(rows) :: ColumnsOf(rows, t))
  }

  /** Lines 102 to 107: the loop that builds `schema_info` in place. */
  method GroupRows(rows: seq<SchemaRow>) returns (schema: Schema)
    ensures schema == Grouped(rows)
  {
    var order: seq<string> := [];
    var columns: map<string, seq<Column>> := map[];
    for i := 0 to |rows|
      invariant order == TableOrder(rows[..i])
      invariant forall t :: t in columns <==> t in order
      invariant forall t :: t in columns ==> columns[t] == ColumnsOf(rows[..i], t)
    {
      var row := rows[i];
      assert rows[..i + 1][..i] == rows[..i];
      assert rows[..i + 1][i] == row;
      ColumnsOfNonEmpty(rows[..i], row.table);
      if row.table !in columns {
        columns := columns[row.table := []];
        order := order + [row.table];
      }
      columns := columns[row.table := columns[row.table] + [Column(row.column, row.dataType)]];
    }
    assert rows[..|rows|] == rows;
    schema := Schema(order, columns);
  }

  /** The keys are exactly the table names that occur in the rows. */
  lemma {:induction false} TableOrderMembers(rows: seq<SchemaRow>, t: string)
    ensures t in TableOrder(rows) <==> exists k :: 0 <= k < |rows| && rows[k].table == t
    decreases |rows|
  {
    if rows != [] {
      var p := rows[..|rows| - 1];
      TableOrderMembers(p, t);
      if exists k :: 0 <= k < |p| && p[k].table == t {
        var k :| 0 <= k < |p| && p[k].table == t;
        assert rows[k].table == t;
      }
      if exists k :: 0 <= k < |rows| && rows[k].table == t {
        var k :| 0 <= k < |rows| && rows[k].table == t;
        if k < |p| {
          assert p[k].table == t;
        }
      }
    }
  }

  /** Each table name is a key once. */
  lemma {:induction false} TableOrderDistinct(rows: seq<SchemaRow>)
    ensures forall i, j :: 0 <= i < j < |TableOrder(rows)| ==> TableOrder(rows)[i] != TableOrder(rows)[j]
    decreases |rows|
  {
    if rows != [] {
      TableOrderDistinct(rows[..|rows| - 1]);
    }
  }

  /** The grouping is a dictionary. */
  lemma GroupedIsDict(rows: seq<SchemaRow>)
    ensures IsDict(Grouped(rows))
  {
    TableOrderDistinct(rows);
  }

  /** A table's list is empty exactly when the table is not a key: no key
      has an empty list. */
  lemma {:induction false} ColumnsOfNonEmpty(rows: seq<SchemaRow>, t: string)
    ensures |ColumnsOf(rows, t)| > 0 <==> t in TableOrder(rows)
    decreases |rows|
  {
    if rows != [] {
      ColumnsOfNonEmpty(rows[..|rows| - 1], t);
    }
  }

  /** Every row's column is in its table's list. */
  lemma {:induction false} ColumnsOfComplete(rows: seq<SchemaRow>, k: nat)
    requires k < |rows|
    ensures Column(rows[k].column, rows[k].dataType) in ColumnsOf(rows, rows[k].table)
    decreases |rows|
  {
    if k < |rows| - 1 {
      var p := rows[..|rows| - 1];
      ColumnsOfComplete(p, k);
      assert p[k] == rows[k];
    }
  }

  /** Every entry of a table's list comes from a row of that table. */
  lemma {:induction false} ColumnsOfSound(rows: seq<SchemaRow>, t: string, c: Column)
    requires c in ColumnsOf(rows, t)
    ensures exists k :: 0 <= k < |rows| && rows[k] == SchemaRow(t, c.name, c.dataType)
    decreases |rows|
  {
    var p := rows[..|rows| - 1];
    var last := rows[|rows| - 1];
    if c in ColumnsOf(p, t) {
      ColumnsOfSound(p, t, c);
      var k :| 0 <= k < |p| && p[k] == SchemaRow(t, c.name, c.dataType);
      assert rows[k] == p[k];
    } else {
      assert rows[|rows| - 1] == SchemaRow(t, c.name, c.dataType);
    }
  }

  /** The number of columns listed for the tables of `order`. */
  function ListedColumns(order: seq<string>, rows: seq<SchemaRow>): nat
    decreases |order|
  {
    if order == [] then 0
    else ListedColumns(order[..|order| - 1], rows) + |ColumnsOf(rows, order[|order| - 1])|
  }

  /** Adding a row of table `t` adds one listed column when `t` is among the
      distinct names of `order`, and none otherwise. */
  lemma {:induction false} ListedColumnsStep(order: seq<string>, rows: seq<SchemaRow>)
    requires rows != []
    requires forall i, j :: 0 <= i < j < |order| ==> order[i] != order[j]
    ensures ListedColumns(order, rows) ==
      ListedColumns(order, rows[..|rows| - 1]) + if rows[|rows| - 1].table in order then 1 else 0
    decreases |order|
  {
    if order != [] {
      var front := order[..|order| - 1];
      ListedColumnsStep(front, rows);
      assert rows[|rows| - 1].table in order <==>
        rows[|rows| - 1].table in front || rows[|rows| - 1].table == order[|order| - 1];
    }
  }

  /** Every row lands in exactly one list: the lists hold as many columns
      as there are rows. */
  lemma {:induction false} GroupedCountsEveryRow(rows: seq<SchemaRow>)
    ensures ListedColumns(TableOrder(rows), rows) == |rows|
    decreases |rows|
  {
    if rows != [] {
      var p := rows[..|rows| - 1];
      var t := rows[|rows| - 1].table;
      GroupedCountsEveryRow(p);
      TableOrderDistinct(p);
      TableOrderDistinct(rows);
      ListedColumnsStep(TableOrder(p), rows);
      if t !in TableOrder(p) {
        ColumnsOfNonEmpty(p, t);
        assert TableOrder(rows)[..|TableOrder(rows)| - 1] == TableOrder(p);
        ListedColumnsStep(TableOrder(p), rows);
      }
    }
  }

  // ---------------------------------------------------------------------
  // fetch_schema: the wrapper

  const SchemaQuery: string :=
    "\n        SELECT TABLE_NAME, COLUMN_NAME, DATA_TYPE\n        FROM INFORMATION_SCHEMA.COLUMNS\n        WHERE TABLE_SCHEMA = %s\n        "

  /** `table_name, column_name, data_type = row` for every row; `None` when a
      row does not have three values (`ValueError`). */
  function Unpack(rows: seq<Row>): (r: Option<seq<SchemaRow>>)
    ensures r.Some? <==> forall k :: 0 <= k < |rows| ==> |rows[k]| == 3
    ensures r.Some? ==> (|r.value| == |rows| &&
      forall k :: 0 <= k < |rows| ==> r.value[k] == SchemaRow(rows[k][0], rows[k][1], rows[k][2]))
    decreases |rows|
  {
    if rows == [] then Some([])
    else if |rows[0]| != 3 then None
    else
      match Unpack(rows[1..])
      case None => None
      case Some(rest) => Some([SchemaRow(rows[0][0], rows[0][1], rows[0][2])] + rest)
  }

  /** `fetch_schema()` with `os` imported: `schemaEnv` is the value of the
      `SNOWFLAKE_SCHEMA` variable. `{}` when there is no connection, the
      variable is unset (`None.upper()` raises), execution raises or a row
      does not unpack; otherwise the rows grouped by table. */
  function FetchSchema(w: Warehouse, schemaEnv: Option<string>): (s: Schema)
    ensures !w.connects || schemaEnv.None? ==> s == EmptySchema
    ensures s != EmptySchema ==>
      w.execute(Statement(SchemaQuery, [Upper(schemaEnv.value)])).Some? &&
      Unpack(w.execute(Statement(SchemaQuery, [Upper(schemaEnv.value)])).value.rows).Some? &&
      s == Grouped(Unpack(w.execute(Statement(SchemaQuery, [Upper(schemaEnv.value)])).value.rows).value)
    ensures schemaEnv.Some? ==> var e := w.execute(Statement(SchemaQuery, [Upper(schemaEnv.value)]));
      w.connects && e.Some? && Unpack(e.value.rows).Some? ==> s == Grouped(Unpack(e.value.rows).value)
    ensures schemaEnv.Some? ==> var e := w.execute(Statement(SchemaQuery, [Upper(schemaEnv.value)]));
      w.connects && (e.None? || Unpack(e.value.rows).None?) ==> s == EmptySchema
  {
    if !w.connects then EmptySchema
    else
      match schemaEnv
      case None => EmptySchema
      case Some(name) =>
        match w.execute(Statement(SchemaQuery, [Upper(name)]))
        case None => EmptySchema
        case Some(res) =>
          match Unpack(res.rows)
          case None => EmptySchema
          case Some(rows) => Grouped(rows)
  }

  /** `fetch_schema()` as written: `os` is never imported in this file, so
      once connected, building the parameter raises `NameError`, which the
      handler turns into `{}`. No row is ever read. */
  function FetchSchemaAsWritten(w: Warehouse): (s: Schema)
    ensures s == EmptySchema
  {
    if !w.connects then
      // no connection: the early `return {}`
      EmptySchema
    else
      // connected: `os.getenv` raises `NameError`, caught by the handler
      EmptySchema
  }

  /** On every connected warehouse whose schema query returns at least one
      well-formed row, the intended code lists a table and the code as
      written lists none. */
  lemma FetchSchemaAsWrittenDiffers(w: Warehouse, schemaEnv: Option<string>)
    requires w.connects && schemaEnv.Some?
    requires w.execute(Statement(SchemaQuery, [Upper(schemaEnv.value)])).Some?
    requires Unpack(w.execute(Statement(SchemaQuery, [Upper(schemaEnv.value)])).value.rows).Some?
    requires |w.execute(Statement(SchemaQuery, [Upper(schemaEnv.value)])).value.rows| > 0
    ensures |FetchSchema(w, schemaEnv).order| > 0
    ensures FetchSchema(w, schemaEnv) != FetchSchemaAsWritten(w)
  {
    var rows := Unpack(w.execute(Statement(SchemaQuery, [Upper(schemaEnv.value)])).value.rows).value;
    TableOrderMembers(rows, rows[0].table);
  }

  /** A warehouse with one column in it. */
  function OneColumnWarehouse(): Warehouse {
    Warehouse(true, (st: Statement) => Some(QueryResult([["ORDERS", "ID", "NUMBER"]], ["TABLE_NAME", "COLUMN_NAME", "DATA_TYPE"])))
  }

  /** As written the schema is lost: on a warehouse with a table in it the
      code returns `{}`, where with `os` imported it returns that table. */
  lemma FetchSchemaAsWrittenLosesSchema()
    ensures FetchSchemaAsWritten(OneColumnWarehouse()) == EmptySchema
    ensures FetchSchema(OneColumnWarehouse(), Some("public")).order == ["ORDERS"]
  {
    var raw: seq<Row> := [["ORDERS", "ID", "NUMBER"]];
    var rows := [SchemaRow("ORDERS", "ID", "NUMBER")];
    assert raw[1..] == [];
    assert |raw[0]| == 3;
    assert Unpack(raw[1..]) == Some([]);
    assert [SchemaRow(raw[0][0], raw[0][1], raw[0][2])] + [] == rows;
    assert Unpack(raw) == Some(rows);
    assert rows[..0] == [];
    assert TableOrder(rows) == ["ORDERS"];
  }
}
