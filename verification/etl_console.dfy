/**
  The ETL console (pages/6_ETL_Console.py): qualified table names, the
  statement a Snowflake-to-Snowflake transfer issues, and the statements that
  load a data frame (an uploaded file or an external table) into Snowflake.
  A loaded table is modelled by its rows, each a sequence of cell texts.
 */
module EtlConsole {
  import opened Strings
  import opened Tables
  import Portal

  /** A missing `user_info` gets "Session expired", one without
      CAN_EDIT_USERS "Access Denied"; a present `None` makes `.get` raise. */
  function Gate(s: Portal.Store): (a: Portal.Access)
    ensures a.Granted? <==> s.userInfo.Present? && s.userInfo.value.Some? && s.userInfo.value.value.canEditUsers
    ensures a.Granted? ==> a.info == s.userInfo.value.value
    ensures a.Crashed? <==> s.userInfo == Portal.Present(None)
    ensures s.userInfo.Absent? ==> a == Portal.Denied(Portal.SessionExpired)
    ensures s.userInfo.Present? && s.userInfo.value.Some? && !s.userInfo.value.value.canEditUsers ==>
              a == Portal.Denied(Portal.NotAuthorized)
  {
    Portal.AdminGate(s, Portal.SessionExpired)
  }

  /** `f"{db}.{schema}.{table}"`. */
  function Qualified(db: string, schema: string, table: string): (r: string)
    ensures r == Join([db, schema, table], ".")
    ensures |r| == |db| + |schema| + |table| + 2
  {
    var r := db + "." + schema + "." + table;
    assert [db, schema, table][1..] == [schema, table];
    assert [schema, table][1..] == [table];
    assert Join([schema, table], ".") == schema + "." + table;
    assert r == db + "." + (schema + "." + table);
    r
  }

  /** Names without dots can be read back from their qualified name. */
  lemma QualifiedSplits(db: string, schema: string, table: string)
    requires '.' !in db && '.' !in schema && '.' !in table
    ensures Split(Qualified(db, schema, table), '.') == [db, schema, table]
  {
    SplitJoin([db, schema, table], '.');
  }

  datatype LoadType = Append | Overwrite

  /** `f"SELECT * FROM {db}.{schema}.{table}"`. */
  function SourceQuery(db: string, schema: string, table: string): string {
    "SELECT * FROM " + Qualified(db, schema, table)
  }

  const CreatePrefix: string := "CREATE OR REPLACE TABLE "

  /** The Snowflake-to-Snowflake statement: OVERWRITE recreates the target
      from the query, APPEND inserts the query's rows. Either way the
      statement ends with the source query. */
  function TransferSql(load: LoadType, target: string, query: string): (r: string)
    ensures load == Overwrite <==> StartsWith(r, CreatePrefix)
    ensures |query| <= |r| && r[|r| - |query|..] == query
    ensures load == Append ==> StartsWith(r, InsertPrefix + target + " ")
    ensures load == Overwrite ==> StartsWith(r, CreatePrefix + target + " AS ")
  {
    match load
    case Overwrite => CreatePrefix + target + " AS " + query
    case Append =>
      var r := InsertPrefix + target + " " + query;
      assert r[0] != CreatePrefix[0];
      r
  }

  const InsertPrefix: string := "INSERT INTO "

  /** Reads a transfer statement back: the load type from its first words,
      the target up to the next blank, and the query after the keyword that
      follows the target. */
  function ParseTransfer(r: string): Option<(LoadType, string, string)> {
    if StartsWith(r, CreatePrefix) then
      var rest := r[|CreatePrefix|..];
      var i := FirstIndex(rest, ' ');
      if StartsWith(rest[i..], " AS ") then Some((Overwrite, rest[..i], rest[i + 4..])) else None
    else if StartsWith(r, InsertPrefix) then
      var rest := r[|InsertPrefix|..];
      var i := FirstIndex(rest, ' ');
      if i < |rest| then Some((Append, rest[..i], rest[i + 1..])) else None
    else None
  }

  /** A target name without blanks makes the statement say unambiguously
      which load, which target and which query it runs. */
  lemma TransferSqlParses(load: LoadType, target: string, query: string)
    requires ' ' !in target
    ensures ParseTransfer(TransferSql(load, target, query)) == Some((load, target, query))
  {
    match load
    case Overwrite => OverwriteParses(target, query);
    case Append => AppendParses(target, query);
  }

  lemma OverwriteParses(target: string, query: string)
    requires ' ' !in target
    ensures ParseTransfer(CreatePrefix + target + " AS " + query) == Some((Overwrite, target, query))
  {
    var r := CreatePrefix + target + " AS " + query;
    var tail := "AS " + query;
    var rest := target + [' '] + tail;
    assert r == CreatePrefix + rest;
    assert r[|CreatePrefix|..] == rest;
    FirstIndexAfter(target, ' ', tail);
    assert rest[..|target|] == target;
    assert rest[|target|..] == " AS " + query;
    assert StartsWith(rest[|target|..], " AS ");
    assert rest[|target| + 4..] == query;
  }

  lemma AppendParses(target: string, query: string)
    requires ' ' !in target
    ensures ParseTransfer(InsertPrefix + target + " " + query) == Some((Append, target, query))
  {
    var r := InsertPrefix + target + " " + query;
    assert !StartsWith(r, CreatePrefix) by {
      assert r[0] != CreatePrefix[0];
    }
    var rest := target + [' '] + query;
    assert r == InsertPrefix + rest;
    assert r[|InsertPrefix|..] == rest;
    FirstIndexAfter(target, ' ', query);
    assert rest[..|target|] == target;
    assert rest[|target| + 1..] == query;
  }

  /** So distinct choices issue distinct statements. */
  lemma TransferSqlInjective(l1: LoadType, t1: string, q1: string, l2: LoadType, t2: string, q2: string)
    requires ' ' !in t1 && ' ' !in t2
    requires TransferSql(l1, t1, q1) == TransferSql(l2, t2, q2)
    ensures l1 == l2 && t1 == t2 && q1 == q2
  {
    TransferSqlParses(l1, t1, q1);
    TransferSqlParses(l2, t2, q2);
  }

  /** The Snowflake-to-Snowflake tab: the source table read whole into the
      target named by the chosen database, schema and table. */
  function SnowflakeTransfer(load: LoadType, srcDb: string, srcSchema: string, srcTable: string,
                             tgtDb: string, tgtSchema: string, tgtTable: string): (r: string)
    ensures load == Overwrite <==> StartsWith(r, CreatePrefix)
    ensures var q := SourceQuery(srcDb, srcSchema, srcTable); |q| <= |r| && r[|r| - |q|..] == q
    ensures var t := Qualified(tgtDb, tgtSchema, tgtTable);
            StartsWith(r, if load == Overwrite then CreatePrefix + t + " AS " else "INSERT INTO " + t + " ")
  {
    TransferSql(load, Qualified(tgtDb, tgtSchema, tgtTable), SourceQuery(srcDb, srcSchema, srcTable))
  }

  /** `", ".join(["%s"] * n)`. */
  function Placeholders(n: nat): (r: string)
    ensures n == 0 ==> r == ""
    ensures n > 0 ==> |r| == 4 * n - 2
    ensures CharCount(r, '%') == n
    ensures n > 0 ==> CharCount(r, ',') == n - 1
  {
    PlaceholderShape(n);
    Join(seq(n, _ => "%s"), ", ")
  }

  lemma {:induction false} PlaceholderShape(n: nat)
    ensures var r := Join(seq(n, _ => "%s"), ", ");
            (n == 0 ==> r == "") && (n > 0 ==> |r| == 4 * n - 2)
            && CharCount(r, '%') == n && (n > 0 ==> CharCount(r, ',') == n - 1)
  {
    if n == 1 {
      assert seq(1, _ => "%s") == ["%s"];
    } else if n > 1 {
      PlaceholderShape(n - 1);
      var parts := seq(n - 1, _ => "%s");
      assert seq(n, _ => "%s") == parts + ["%s"];
      JoinSnoc(parts, "%s", ", ");
      var j := Join(parts, ", ");
      CharCountAppend(j, ", ", '%');
      CharCountAppend(j + ", ", "%s", '%');
      CharCountAppend(j, ", ", ',');
      CharCountAppend(j + ", ", "%s", ',');
    }
  }

  /** `[col.upper() for col in df.columns]`. */
  function UpperColumns(cols: seq<string>): (r: seq<string>)
    ensures |r| == |cols|
    ensures forall k :: 0 <= k < |r| ==> |r[k]| == |cols[k]|
    ensures forall k, i :: 0 <= k < |r| && 0 <= i < |r[k]| ==> !('a' <= r[k][i] <= 'z')
  {
    seq(|cols|, k requires 0 <= k < |cols| => Upper(cols[k]))
  }

  /** Upper-casing the columns twice is upper-casing them once. */
  lemma UpperColumnsIdempotent(cols: seq<string>)
    ensures UpperColumns(UpperColumns(cols)) == UpperColumns(cols)
  {
    var once := UpperColumns(cols);
    forall k | 0 <= k < |cols|
      ensures Upper(once[k]) == once[k]
    {
      assert forall i :: 0 <= i < |once[k]| ==> !('a' <= once[k][i] <= 'z');
    }
  }

  /** A loaded data frame: its column names and its rows. */
  datatype Frame = Frame(columns: seq<string>, rows: seq<seq<string>>)

  /** The frame as it is loaded, with upper-cased column names. */
  function Prepared(f: Frame): Frame {
    f.(columns := UpperColumns(f.columns))
  }

  /** The statements a load issues against its target table:
      `CREATE OR REPLACE TABLE t AS SELECT * FROM VALUES <row>`, and
      `INSERT INTO t VALUES (<placeholders>)` with one row as parameters. */
  datatype EtlStmt =
    | CreateFrom(target: string, sample: seq<string>)
    | InsertRow(target: string, sql: string, params: seq<string>)

  function InsertSql(target: string, width: nat): string {
    "INSERT INTO " + target + " VALUES (" + Placeholders(width) + ")"
  }

  /** One INSERT per row, in row order, with as many placeholders as the
      frame has columns. */
  function InsertEach(target: string, width: nat, rows: seq<seq<string>>): (r: seq<EtlStmt>)
    ensures |r| == |rows|
    ensures forall k :: 0 <= k < |r| ==> r[k].InsertRow? && r[k].params == rows[k] && r[k].target == target
  {
    seq(|rows|, k requires 0 <= k < |rows| => InsertRow(target, InsertSql(target, width), rows[k]))
  }

  /** The rows of the target table after one statement. */
  function Apply(table: seq<seq<string>>, s: EtlStmt): seq<seq<string>> {
    match s
    case CreateFrom(_, sample) => [sample]
    case InsertRow(_, _, params) => table + [params]
  }

  /** The rows of the target table after the statements, in order. */
  function Run(table: seq<seq<string>>, stmts: seq<EtlStmt>): seq<seq<string>>
    decreases |stmts|
  {
    if stmts == [] then table else Run(Apply(table, stmts[0]), stmts[1..])
  }

  /** Inserting each row appends the rows, in order. */
  lemma {:induction false} RunInserts(table: seq<seq<string>>, target: string, width: nat, rows: seq<seq<string>>)
    ensures Run(table, InsertEach(target, width, rows)) == table + rows
    decreases |rows|
  {
    if rows != [] {
      var stmts := InsertEach(target, width, rows);
      assert stmts[1..] == InsertEach(target, width, rows[1..]);
      RunInserts(table + [rows[0]], target, width, rows[1..]);
      assert table + [rows[0]] + rows[1..] == table + rows;
    }
  }

  /** The overwrite load as the page writes it: create the table from the
      first row, then insert every row, the first one included. An empty
      frame has no first row: `iloc[0]` raises and nothing is issued. */
  function OverwriteAsWritten(target: string, f: Frame): (r: Option<seq<EtlStmt>>)
    ensures r.None? <==> f.rows == []
    ensures r.Some? ==> |r.value| == |f.rows| + 1 && r.value[0] == CreateFrom(target, f.rows[0])
  {
    if f.rows == [] then None
    else Some([CreateFrom(target, f.rows[0])] + InsertEach(target, |f.columns|, f.rows))
  }

  /** As written, an overwrite leaves the first row in the table twice. */
  lemma AsWrittenDuplicatesFirstRow(target: string, f: Frame, before: seq<seq<string>>)
    requires f.rows != []
    ensures Run(before, OverwriteAsWritten(target, f).value) == [f.rows[0]] + f.rows
    ensures |Run(before, OverwriteAsWritten(target, f).value)| == |f.rows| + 1
  {
    var stmts := OverwriteAsWritten(target, f).value;
    assert stmts[1..] == InsertEach(target, |f.columns|, f.rows);
    RunInserts([f.rows[0]], target, |f.columns|, f.rows);
  }

  /** The smallest case: a one-row file with columns NAME and CITY loads as
      two identical rows. */
  lemma OneRowLoadsTwice()
    ensures Run([], OverwriteAsWritten("DB.S.T", Frame(["NAME", "CITY"], [["Asha", "Pune"]])).value)
            == [["Asha", "Pune"], ["Asha", "Pune"]]
  {
    AsWrittenDuplicatesFirstRow("DB.S.T", Frame(["NAME", "CITY"], [["Asha", "Pune"]]), []);
  }

  /** The overwrite load as intended (not what either tab issues): the first
      row creates the table with the frame's shape, and only the remaining
      rows are inserted after it. */
  function OverwritePlan(target: string, f: Frame): (r: Option<seq<EtlStmt>>)
    ensures r.None? <==> f.rows == []
    ensures r.Some? ==> |r.value| == |f.rows| && r.value[0] == CreateFrom(target, f.rows[0])
  {
    if f.rows == [] then None
    else Some([CreateFrom(target, f.rows[0])] + InsertEach(target, |f.columns|, f.rows[1..]))
  }

  /** An overwrite leaves exactly the frame's rows, whatever the table held. */
  lemma OverwriteLoadsExactly(target: string, f: Frame, before: seq<seq<string>>)
    requires f.rows != []
    ensures Run(before, OverwritePlan(target, f).value) == f.rows
  {
    var stmts := OverwritePlan(target, f).value;
    assert stmts[1..] == InsertEach(target, |f.columns|, f.rows[1..]);
    RunInserts([f.rows[0]], target, |f.columns|, f.rows[1..]);
    assert [f.rows[0]] + f.rows[1..] == f.rows;
  }

  /** An external APPEND issues no CREATE: one INSERT per source row. */
  function AppendPlan(target: string, f: Frame): (r: seq<EtlStmt>)
    ensures |r| == |f.rows|
    ensures forall k :: 0 <= k < |r| ==> r[k].InsertRow? && r[k].params == f.rows[k]
  {
    InsertEach(target, |f.columns|, f.rows)
  }

  /** An append keeps the table's rows and adds the frame's rows after them. */
  lemma AppendLoadsAfter(target: string, f: Frame, before: seq<seq<string>>)
    ensures Run(before, AppendPlan(target, f)) == before + f.rows
  {
    RunInserts(before, target, |f.columns|, f.rows);
  }

  /** The file upload tab: always an overwrite of the chosen target, issued
      as the page writes it. */
  function UploadPlan(db: string, schema: string, table: string, f: Frame): (r: Option<seq<EtlStmt>>)
    ensures r.None? <==> f.rows == []
    ensures r.Some? ==> forall k :: 0 <= k < |r.value| ==> r.value[k].target == Qualified(db, schema, table)
    ensures r.Some? ==> |r.value| == |f.rows| + 1
  {
    OverwriteAsWritten(Qualified(db, schema, table), Prepared(f))
  }

  /** The external-database tab, by load type: an overwrite issues the same
      statements as the upload tab. */
  function ExternalPlan(load: LoadType, db: string, schema: string, table: string, f: Frame)
    : (r: Option<seq<EtlStmt>>)
    ensures load == Append ==> r.Some? && forall k :: 0 <= k < |r.value| ==> r.value[k].InsertRow?
    ensures load == Overwrite ==> r == UploadPlan(db, schema, table, f)
  {
    var target := Qualified(db, schema, table);
    match load
    case Append => Some(AppendPlan(target, Prepared(f)))
    case Overwrite => OverwriteAsWritten(target, Prepared(f))
  }

  /** What either tab leaves in the target: an append adds the frame's rows
      after the old ones; an overwrite replaces the table with the frame's
      rows and its first row once more. */
  lemma ExternalLoadResult(load: LoadType, db: string, schema: string, table: string, f: Frame,
                           before: seq<seq<string>>)
    requires f.rows != []
    ensures Run(before, ExternalPlan(load, db, schema, table, f).value) ==
              if load == Overwrite then [f.rows[0]] + f.rows else before + f.rows
  {
    var target := Qualified(db, schema, table);
    match load
    case Overwrite => AsWrittenDuplicatesFirstRow(target, Prepared(f), before);
    case Append => AppendLoadsAfter(target, Prepared(f), before);
  }

  /** An upload of a frame with rows loads one row more than the file holds. */
  lemma UploadLoadsExtraRow(db: string, schema: string, table: string, f: Frame, before: seq<seq<string>>)
    requires f.rows != []
    ensures |Run(before, UploadPlan(db, schema, table, f).value)| == |f.rows| + 1
  {
    AsWrittenDuplicatesFirstRow(Qualified(db, schema, table), Prepared(f), before);
  }

  /** The external source's dialects. */
  datatype SourceKind = MsSql | MySql

  /** The source table labels: `schema.table` from MSSQL's information
      schema, a bare name from MySQL's `SHOW TABLES`. */
  function TableLabel(kind: SourceKind, schema: string, table: string): (r: string)
    ensures kind == MySql ==> r == table
    ensures kind == MsSql ==> r == Join([schema, table], ".")
  {
    match kind
    case MsSql =>
      assert [schema, table][1..] == [table];
      schema + "." + table
    case MySql => table
  }

  /** An MSSQL label names its schema and table, which can be read back when
      neither contains a dot. */
  lemma MsSqlLabelSplits(schema: string, table: string)
    requires '.' !in schema && '.' !in table
    ensures Split(TableLabel(MsSql, schema, table), '.') == [schema, table]
  {
    SplitJoin([schema, table], '.');
  }
}
