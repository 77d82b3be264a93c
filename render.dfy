/** The CREATE TABLE statement main.go prints for each table: its exact text as functions,
    the string-building loops as methods proved against them. */
module Render {
  import opened TypeMapping
  import opened Text
  import opened Schema

  /** What stands between two column definitions. */
  const Separator: string := ", \n"

  /** The fixed engine clause, keyed and ordered by the literal column `I_ID`. */
  const EngineClause: string := ") Engine=ReplacingMergeTree(I_ID) order by I_ID"

  /** What closes every statement: a line break and the engine clause. */
  const Footer: string := "\n" + EngineClause

  /** The opening line of the statement for a table. */
  function Header(tableName: string): string
  {
    "CREATE TABLE `" + tableName + "` (\n"
  }

  /** The type as printed: wrapped in `Nullable(...)` when the column is nullable. */
  function ColumnType(clickhouseType: string, isNullable: string): string
  {
    if isNullable == "YES" then "Nullable(" + clickhouseType + ")" else clickhouseType
  }

  /** One column definition; name and comment are inserted without escaping. */
  function ColumnDefinition(name: string, columnType: string, comment: string): string
  {
    "`" + name + "` " + columnType + " comment '" + comment + "'"
  }

  /** The whole statement for a table with the given column definitions. */
  function CreateTableStatement(tableName: string, definitions: seq<string>): string
  {
    Header(tableName) + Join(definitions, Separator) + Footer
  }

  /** The definition printed for a column, from the type already stored in it. */
  function Definition(c: Column): string
    reads c
  {
    ColumnDefinition(c.Name, ColumnType(c.ClickhouseType, c.IsNullable), c.Comment)
  }

  /** The definitions printed for a list of columns, one per column, in order. */
  function Definitions(cs: seq<Column>): (defs: seq<string>)
    reads cs
  {
    seq(|cs|, i reads cs requires 0 <= i < |cs| => Definition(cs[i]))
  }

  /** The definition a column should get, computed from its metadata alone. */
  ghost function ExpectedDefinition(c: Column): string
    reads c
  {
    ColumnDefinition(c.Name, ColumnType(ResolveType(c.DataType, c.NumericPrecision), c.IsNullable), c.Comment)
  }

  /** The definitions a list of columns should get, one per column, in order. */
  ghost function ExpectedDefinitions(cs: seq<Column>): seq<string>
    reads cs
  {
    seq(|cs|, i reads cs requires 0 <= i < |cs| => ExpectedDefinition(cs[i]))
  }

  /** The nullable wrapping holds exactly for `IsNullable == "YES"`, also around an empty
      type; any other value leaves the type bare. */
  lemma NullableWrapping(clickhouseType: string, isNullable: string)
    ensures ColumnType(clickhouseType, isNullable) == "Nullable(" + clickhouseType + ")" <==> isNullable == "YES"
    ensures isNullable != "YES" ==> ColumnType(clickhouseType, isNullable) == clickhouseType
  {
    if isNullable != "YES" {
      assert |"Nullable(" + clickhouseType + ")"| == |clickhouseType| + 10;
    }
  }

  /** The name sits verbatim between the backticks at the start, the type after it, and the
      comment verbatim between the quotes at the end. */
  lemma ColumnDefinitionFields(name: string, columnType: string, comment: string)
    ensures var d := ColumnDefinition(name, columnType, comment);
      && |d| == |name| + |columnType| + |comment| + 14
      && d[0] == '`' && d[1..|name| + 1] == name && d[|name| + 1..|name| + 3] == "` "
      && d[|name| + 3..|name| + 3 + |columnType|] == columnType
      && d[|name| + 3 + |columnType|..|d| - |comment| - 1] == " comment '"
      && d[|d| - |comment| - 1..|d| - 1] == comment && d[|d| - 1] == '\''
  {
    var d := ColumnDefinition(name, columnType, comment);
    var a := "`" + name + "` ";
    var b := a + columnType + " comment '";
    assert d == b + comment + "'";
    assert d[..|b|] == b;
    assert b[..|a|] == a;
  }

  /** The statement is the header, the definitions joined, and the engine clause; with no
      columns nothing stands between header and engine clause, and a single column has no
      separator after it. */
  lemma StatementShape(tableName: string, definitions: seq<string>)
    ensures var s := CreateTableStatement(tableName, definitions);
      && |s| >= |Header(tableName)| + |Footer|
      && s[..|Header(tableName)|] == Header(tableName)
      && s[|s| - |Footer|..] == Footer
      && s[|Header(tableName)|..|s| - |Footer|] == Join(definitions, Separator)
    ensures |definitions| == 0 ==> CreateTableStatement(tableName, definitions) == Header(tableName) + Footer
    ensures |definitions| == 1 ==> CreateTableStatement(tableName, definitions) == Header(tableName) + definitions[0] + Footer
  {
    var h, j := Header(tableName), Join(definitions, Separator);
    var s := CreateTableStatement(tableName, definitions);
    assert s == h + j + Footer;
    assert (h + j + Footer)[..|h|] == h;
    assert (h + j + Footer)[|h| + |j|..] == Footer;
    assert (h + j + Footer)[|h|..|h| + |j|] == j;
  }

  /** n definitions take exactly n - 1 separators. */
  lemma StatementLength(tableName: string, definitions: seq<string>)
    requires |definitions| > 0
    ensures |CreateTableStatement(tableName, definitions)| ==
      |Header(tableName)| + TotalLength(definitions) + (|definitions| - 1) * |Separator| + |Footer|
  {
    JoinLength(definitions, Separator);
  }

  /** The i-th definition stands after the first i definitions and before the rest, with a
      separator on each side that has a neighbour. */
  lemma DefinitionAt(tableName: string, definitions: seq<string>, i: nat)
    requires i < |definitions|
    ensures CreateTableStatement(tableName, definitions) ==
      Header(tableName)
      + (Join(definitions[..i], Separator) + (if i > 0 then Separator else "")
         + definitions[i]
         + (if i < |definitions| - 1 then Separator else "") + Join(definitions[i + 1..], Separator))
      + Footer
  {
    JoinAt(definitions, Separator, i);
  }

  /** Once every column is resolved, what is printed is what the metadata calls for. */
  lemma ResolvedDefinitions(cs: seq<Column>)
    requires forall k :: 0 <= k < |cs| ==> Resolved(cs[k])
    ensures Definitions(cs) == ExpectedDefinitions(cs)
  {
  }

  /** One turn of the rendering loop: appending the i-th definition, and a separator unless it
      is the last, extends the joined prefix by one definition. */
  lemma LoopStep(header: string, defs: seq<string>, sep: string, i: nat)
    requires i < |defs|
    ensures header + Join(defs[..i], sep) + (if 0 < i < |defs| then sep else "") + defs[i]
              + (if i != |defs| - 1 then sep else "")
            == header + Join(defs[..i + 1], sep) + (if 0 < i + 1 < |defs| then sep else "")
  {
    assert defs[..i + 1] == defs[..i] + [defs[i]];
    if i == 0 {
      assert defs[..1] == [defs[0]];
    } else {
      JoinAppend(defs[..i], sep, defs[i]);
    }
  }

  /** The DDL-building loop of `main` for one table. */
  method RenderTable(t: Table) returns (ddl: string)
    ensures ddl == CreateTableStatement(t.Name, Definitions(t.Columns))
  {
    ghost var defs := Definitions(t.Columns);
    ddl := "CREATE TABLE `" + t.Name + "` (\n";
    var l := |t.Columns|;
    for i := 0 to l
      invariant ddl == Header(t.Name) + Join(defs[..i], Separator) + (if 0 < i < l then Separator else "")
    {
      var column := t.Columns[i];
      var clickhouseType := column.ClickhouseType;
      if column.IsNullable == "YES" {
        clickhouseType := "Nullable(" + clickhouseType + ")";
      }
      var definition := "`" + column.Name + "` " + clickhouseType + " comment '" + column.Comment + "'";
      assert definition == defs[i];
      LoopStep(Header(t.Name), defs, Separator, i);
      ddl := ddl + definition;
      if i != l - 1 {
        ddl := ddl + Separator;
      }
    }
    assert defs[..l] == defs;
    ghost var body := ddl;
    assert body == Header(t.Name) + Join(defs, Separator);
    ddl := ddl + "\n";
    ddl := ddl + EngineClause;
    assert ddl == body + Footer;
  }

  /** The loop of `main` over the tables: one statement per table, in table order. */
  method RenderTables(tables: seq<Table>) returns (ddls: seq<string>)
    ensures |ddls| == |tables|
    ensures forall i :: 0 <= i < |tables| ==> ddls[i] == CreateTableStatement(tables[i].Name, Definitions(tables[i].Columns))
  {
    ddls := [];
    for i := 0 to |tables|
      invariant |ddls| == i
      invariant forall j :: 0 <= j < i ==> ddls[j] == CreateTableStatement(tables[j].Name, Definitions(tables[j].Columns))
    {
      var ddl := RenderTable(tables[i]);
      ddls := ddls + [ddl];
    }
  }

  /** The body of `main` after the flag checks: split the table list at commas, resolve every
      table's columns, and render one statement per name, in input order. An empty list ends
      the run before anything is rendered. */
  method Generate(tablesFlag: string, catalog: map<string, seq<Column>>) returns (ddls: seq<string>)
    modifies Fetched(Split(tablesFlag, ','), catalog)
    ensures tablesFlag == "" ==> ddls == []
    ensures tablesFlag != "" ==> |ddls| == |Split(tablesFlag, ',')|
    ensures tablesFlag != "" ==> forall i :: 0 <= i < |ddls| ==>
      ddls[i] == CreateTableStatement(Split(tablesFlag, ',')[i],
                                      ExpectedDefinitions(ColumnsOf(catalog, Split(tablesFlag, ',')[i])))
    ensures forall c :: c in Fetched(Split(tablesFlag, ','), catalog) ==> MetadataUnchanged(c)
  {
    ddls := [];
    if tablesFlag == "" {
      return;
    }
    var names := Split(tablesFlag, ',');
    var tables := HandleTable(names, catalog);
    ddls := RenderTables(tables);
    forall i | 0 <= i < |tables|
      ensures Definitions(tables[i].Columns) == ExpectedDefinitions(ColumnsOf(catalog, names[i]))
    {
      ResolvedDefinitions(tables[i].Columns);
    }
  }

  /** The first column of the two-column example: an `int` of precision 10, not nullable, is
      printed as `Int16`, because the width rule reads the precision as a bit count. */
  lemma OrdersIdColumn()
    ensures ColumnDefinition("id", ColumnType(ResolveType("int", 10), "NO"), "") == "`id` Int16 comment ''"
  {
    ResolveTypeExamples();
  }

  /** The second column of the two-column example: a nullable `varchar` with a comment. */
  lemma OrdersNameColumn()
    ensures ColumnDefinition("name", ColumnType(ResolveType("varchar", 0), "YES"), "cust name")
      == "`name` Nullable(String) comment 'cust name'"
  {
    ResolveTypeExamples();
  }

  /** A two-column `orders` table as the code renders it, line by line. */
  lemma OrdersExample()
    ensures CreateTableStatement("orders", [
        ColumnDefinition("id", ColumnType(ResolveType("int", 10), "NO"), ""),
        ColumnDefinition("name", ColumnType(ResolveType("varchar", 0), "YES"), "cust name")])
      == "CREATE TABLE `orders` (\n"
       + "`id` Int16 comment '', \n"
       + "`name` Nullable(String) comment 'cust name'"
       + "\n" + ") Engine=ReplacingMergeTree(I_ID) order by I_ID"
  {
    OrdersIdColumn();
    OrdersNameColumn();
    var id := "`id` Int16 comment ''";
    var name := "`name` Nullable(String) comment 'cust name'";
    assert [id, name][1..] == [name];
    assert Join([id, name], Separator) == id + Separator + name;
    assert Header("orders") == "CREATE TABLE `orders` (\n";
    assert id + Separator == "`id` Int16 comment '', \n";
    ConcatAssoc(Header("orders"), id + Separator, name);
  }

  /** Concatenation regroups freely. A solver aid: stated separately so that `OrdersExample`
      regroups its pieces as abstract strings rather than as long literals. */
  lemma ConcatAssoc(a: string, b: string, c: string)
    ensures a + (b + c) == a + b + c
  {
  }

  /** A declared type missing from the table leaves an empty type token, wrapped or not. */
  lemma UnmappedTypeExample()
    ensures ColumnDefinition("body", ColumnType(ResolveType("text", 0), "NO"), "") == "`body`  comment ''"
    ensures ColumnDefinition("body", ColumnType(ResolveType("text", 0), "YES"), "") == "`body` Nullable() comment ''"
  {
  }
}
