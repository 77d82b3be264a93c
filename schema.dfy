/** Columns and tables of main.go, and the loops of `handleColumn` and `handleTable` that
    give every fetched column its ClickHouse type. The catalog query is not modelled: its
    result is handed in by the caller. */
module Schema {
  import opened TypeMapping

  /** One row of column metadata. Go handles columns through pointers and the resolution
      loop writes `ClickhouseType` in place, so a column is an object here. */
  class Column {
    var Name: string
    var Comment: string
    var DataType: string
    var ClickhouseType: string
    var NumericPrecision: int
    var IsNullable: string

    /** A freshly scanned row: `ClickhouseType` is still Go's zero value. The resolution loop
        does not rely on that value; the constructor documents the state a scanned row starts in. */
    constructor (name: string, comment: string, dataType: string, numericPrecision: int, isNullable: string)
      ensures Name == name && Comment == comment && DataType == dataType
      ensures NumericPrecision == numericPrecision && IsNullable == isNullable
      ensures ClickhouseType == ""
    {
      Name := name;
      Comment := comment;
      DataType := dataType;
      NumericPrecision := numericPrecision;
      IsNullable := isNullable;
      ClickhouseType := "";
    }
  }

  /** A table and its columns, in catalog order. Never updated after it is built. */
  datatype Table = Table(Name: string, Columns: seq<Column>)

  /** The column carries the type the mapping assigns to its declared type and precision. */
  ghost predicate Resolved(c: Column)
    reads c
  {
    c.ClickhouseType == ResolveType(c.DataType, c.NumericPrecision)
  }

  /** The metadata fields the resolution loop must leave alone hold their values of the earlier state. */
  twostate predicate MetadataUnchanged(c: Column)
    reads c
  {
    && c.Name == old(c.Name)
    && c.Comment == old(c.Comment)
    && c.DataType == old(c.DataType)
    && c.NumericPrecision == old(c.NumericPrecision)
    && c.IsNullable == old(c.IsNullable)
  }

  /** The resolution loop of `handleColumn` over the columns the query returned: the same
      columns come back in the same order, each now resolved, and only `ClickhouseType`
      has changed on any of them. */
  method HandleColumn(fetched: seq<Column>) returns (columns: seq<Column>)
    modifies fetched
    ensures columns == fetched
    ensures forall i :: 0 <= i < |columns| ==> Resolved(columns[i])
    ensures forall i :: 0 <= i < |columns| ==> MetadataUnchanged(columns[i])
  {
    columns := fetched;
    for i := 0 to |columns|
      invariant columns == fetched
      invariant forall k :: 0 <= k < i ==> Resolved(columns[k])
      invariant forall k :: 0 <= k < |columns| ==> MetadataUnchanged(columns[k])
    {
      var column := columns[i];
      if column.DataType == "int" {
        column.ClickhouseType := GetIntTypeByLength(column.NumericPrecision);
      } else {
        column.ClickhouseType := LookupType(column.DataType);
      }
      columns := columns[i := column];
    }
  }

  /** The rows the catalog query returns for a table: those listed in `catalog`, and none for a
      table it does not know. */
  function ColumnsOf(catalog: map<string, seq<Column>>, tableName: string): seq<Column>
  {
    if tableName in catalog then catalog[tableName] else []
  }

  /** Every column the catalog returns for any of the names. */
  ghost function Fetched(tableNames: seq<string>, catalog: map<string, seq<Column>>): set<Column>
  {
    set i, k | 0 <= i < |tableNames| && 0 <= k < |ColumnsOf(catalog, tableNames[i])| :: ColumnsOf(catalog, tableNames[i])[k]
  }

  /** `handleTable`: one table per name, in input order, named by it, holding the columns
      the catalog returned for it, all of them resolved. */
  method HandleTable(tableNames: seq<string>, catalog: map<string, seq<Column>>) returns (tables: seq<Table>)
    modifies Fetched(tableNames, catalog)
    ensures |tables| == |tableNames|
    ensures forall i :: 0 <= i < |tables| ==> tables[i] == Table(tableNames[i], ColumnsOf(catalog, tableNames[i]))
    ensures forall i, k :: 0 <= i < |tables| && 0 <= k < |tables[i].Columns| ==> Resolved(tables[i].Columns[k])
    ensures forall c :: c in Fetched(tableNames, catalog) ==> MetadataUnchanged(c)
  {
    tables := [];
    for i := 0 to |tableNames|
      invariant |tables| == i
      invariant forall j :: 0 <= j < i ==> tables[j] == Table(tableNames[j], ColumnsOf(catalog, tableNames[j]))
      invariant forall j, k :: 0 <= j < i && 0 <= k < |tables[j].Columns| ==> Resolved(tables[j].Columns[k])
      invariant forall c :: c in Fetched(tableNames, catalog) ==> MetadataUnchanged(c)
    {
      var columns := HandleColumn(ColumnsOf(catalog, tableNames[i]));
      tables := tables + [Table(tableNames[i], columns)];
    }
  }
}
