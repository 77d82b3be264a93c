# ddlmysql2clickhouse: type mapping and CREATE TABLE rendering

The tool reads MySQL column metadata and prints one ClickHouse `CREATE TABLE` statement for each
table name it is given. This project models the tool's deterministic core in `main.go`:

- the integer width rule `getIntTypeByLength`;
- the constant MySQL-to-ClickHouse type table;
- the resolution loop of `handleColumn`, which writes `ClickhouseType` into each column in place;
- `handleTable`;
- the string-building loops of `main`, which wrap nullable types, render each column and join the columns into the statement.

Modules:

- `TypeMapping` (`typemapping.dfy`): the width rule, the table `Mysql2ClickhouseType`, Go's
  zero-value map lookup (`LookupType`) and the per-column resolution (`ResolveType`).
- `Text` (`text.dfy`): joining strings with a separator, and `strings.Split` on one character.
- `Schema` (`schema.dfy`): `Column` is a class, because Go handles columns through pointers and
  mutates them. `Table` is a datatype, because it is never changed once built. Also in this
  module: the loops `HandleColumn` and `HandleTable`.
- `Render` (`render.dfy`): the exact statement text as functions (`Header`, `ColumnType`,
  `ColumnDefinition`, `CreateTableStatement`). The loops `RenderTable`, `RenderTables` and
  `Generate` are proved against those functions.

The catalog query is an input. `HandleColumn` takes the rows the query returned.
`HandleTable` and `Generate` take a `catalog` map from table name to rows. A name missing from
the map gives no rows, which is what the query yields for an unknown table. For a failed query
the entry holds no rows, or those scanned before the error.

MySQL reports a numeric precision of 10 for an `int` column. `getIntTypeByLength` reads the
precision as a bit count, so such a column becomes `Int16`, not the table's `Int32`;
`Render.OrdersIdColumn` and `TypeMapping.ResolveTypeExamples` state this.

## Model

| member | source | states |
|---|---|---|
| TypeMapping.GetIntTypeByLength | main.go:98-110 | the result is always one of Int8/Int16/Int32/Int64; it is wide enough for the precision (the only exception is Int64 for precisions above 64); it is the narrowest such type |
| TypeMapping.IntTypeRanges | main.go:98-110 | Int8 exactly for precision <= 8 (negatives included), Int16 exactly for 9..16, Int32 exactly for 17..32, Int64 exactly above 32 |
| TypeMapping.IntTypeMonotone | main.go:98-110 | a larger precision never selects a narrower bit width |
| TypeMapping.ResolveTypeRange | main.go:79-85 | a resolved type is a signed integer type, a value of the table, or empty; it is empty exactly when the type is not `int` and has no table entry (Go's zero value) |
| TypeMapping.ResolveTypeCases | main.go:119-124 | `int` goes through the width rule and gives the table's `Int32` only for precision 17..32; every other type is looked up in the table |
| TypeMapping.ResolveTypeExamples | main.go:79-85 | bigint -> UInt64, tinyint -> UInt8, varchar -> String, datetime -> DateTime, text -> empty; int at precisions 8, 10, 16, 64, 65 -> Int8, Int16, Int16, Int64, Int64 |
| Text.JoinLength | main.go:62-71 | joining n definitions inserts exactly n - 1 separators |
| Text.JoinAppend | main.go:68-71 | appending a definition after a non-empty prefix adds one separator before it and none after it |
| Text.JoinSplitAt | main.go:63-72 | cutting the definition list at any inner point cuts the output at a separator, so order is kept |
| Text.JoinAt | main.go:63-72 | the i-th part appears after the first i parts and before the rest, with a separator only where it has a neighbour |
| Text.SplitPiecesFree | main.go:59 | no table name produced by splitting the list contains a comma |
| Text.SplitThenJoin | main.go:59 | the names joined by commas give back the table list |
| Text.JoinThenSplit | main.go:59 | splitting comma-free names joined by commas gives back the names |
| Text.SplitExamples | main.go:59 | "t1,t2" gives two names in order; the empty string gives one empty name |
| Schema.Column.constructor | main.go:18-25 | a scanned row carries its metadata, and its ClickhouseType is still empty |
| Schema.HandleColumn | main.go:119-127 | the same columns come back in the same order, each one's ClickhouseType equals the resolved type of its DataType and NumericPrecision, and Name, Comment, DataType, NumericPrecision and IsNullable are unchanged |
| Schema.HandleTable | main.go:87-96 | one table per name, in input order, carrying that name and the catalog's columns for it; every column is resolved; no metadata field changes |
| Render.NullableWrapping | main.go:64-67 | the type is wrapped as `Nullable(t)` if and only if IsNullable is "YES", also when t is empty; otherwise it is the bare t |
| Render.ColumnDefinitionFields | main.go:68 | a definition is the backquoted name, a space, the type, ` comment '`, the comment and a closing quote, with name and comment verbatim; its length is their lengths plus 14 |
| Render.StatementShape | main.go:61-74 | the statement is the header, the joined definitions and the fixed engine clause; with no columns, header then engine clause; with one column, no separator |
| Render.StatementLength | main.go:61-74 | the statement length is header plus definitions plus (n - 1) separators plus engine clause |
| Render.DefinitionAt | main.go:63-72 | the i-th definition stands after the first i, before the rest, with separators only between neighbours |
| Render.LoopStep | main.go:68-71 | one turn of the loop extends the rendered prefix by exactly one definition and the right separator |
| Render.ResolvedDefinitions | main.go:64-68 | once columns are resolved, the printed definitions are those implied by their metadata alone |
| Render.RenderTable | main.go:61-74 | the string built by the loop equals the statement for the table's name and its columns' definitions, in column order |
| Render.RenderTables | main.go:60-76 | one statement per table, in table order |
| Render.Generate | main.go:48-76 | an empty table list renders nothing; otherwise one statement per comma-separated name, in order, each made from that table's metadata through the type mapping; no metadata field changes |
| Render.OrdersIdColumn | main.go:64-68 | a non-nullable `int` of precision 10 with no comment renders as "`id` Int16 comment ''" |
| Render.OrdersNameColumn | main.go:64-68 | a nullable `varchar` with comment "cust name" renders as "`name` Nullable(String) comment 'cust name'" |
| Render.OrdersExample | main.go:61-74 | the full two-column statement for table `orders`, line by line |
| Render.UnmappedTypeExample | main.go:123 | an unmapped type leaves an empty type token, bare or as `Nullable()` |

## Left out

- Flag parsing, and the check that the connection string is not empty (main.go:33-47): command-line plumbing. The check on the table list (main.go:48-51) is modelled in `Render.Generate`.
- Connecting to and closing the database (main.go:52-58): foreign I/O.
- The catalog query in `handleColumn` (main.go:113-118): foreign I/O. Its result is an input (`fetched`, or the `catalog` map). The error message it prints is output only.
- Printing (main.go:40-42, 55, 75): `Render.Generate` returns the statements instead of printing them.
- The query does not select `IS_NULLABLE`, so in real runs `IsNullable` is always empty. The model keeps `IsNullable` as a free input.
- `strings.Split` is modelled only for the one-character separator `,` that the tool uses.
- Column objects per query: `HandleColumn` takes the fetched columns rather than the table name. Each Go call builds fresh column objects. In the model, two tables with the same name share columns through the catalog map. Resolution then runs on those columns twice and writes the same value both times.
