/** The MySQL to ClickHouse column type mapping of main.go:
    the width rule for `int` columns and the constant lookup table. */
module TypeMapping {

  /** The four signed integer types the width rule can produce. */
  const SignedIntTypes: set<string> := {"Int8", "Int16", "Int32", "Int64"}

  /** The bit width a ClickHouse signed integer type name stands for (0 for any other name). */
  function BitWidth(t: string): nat
  {
    if t == "Int8" then 8
    else if t == "Int16" then 16
    else if t == "Int32" then 32
    else if t == "Int64" then 64
    else 0
  }

  /** The width rule for `int` columns: the narrowest signed type of 8, 16, 32 or 64 bits
      that holds `length` bits, and `Int64` for every larger precision. */
  function GetIntTypeByLength(length: int): (r: string)
    ensures r in SignedIntTypes
    ensures length <= BitWidth(r) || r == "Int64"
    ensures r == "Int8" || BitWidth(r) / 2 < length
  {
    if length <= 8 then "Int8"
    else if length <= 16 then "Int16"
    else if length <= 32 then "Int32"
    else if length <= 64 then "Int64"
    else "Int64"
  }

  /** The precision ranges of the width rule, boundaries included; negative precisions give `Int8`. */
  lemma IntTypeRanges(length: int)
    ensures length <= 8 <==> GetIntTypeByLength(length) == "Int8"
    ensures 9 <= length <= 16 <==> GetIntTypeByLength(length) == "Int16"
    ensures 17 <= length <= 32 <==> GetIntTypeByLength(length) == "Int32"
    ensures 32 < length <==> GetIntTypeByLength(length) == "Int64"
  {
  }

  /** A larger precision never selects a narrower integer type. */
  lemma IntTypeMonotone(a: int, b: int)
    requires a <= b
    ensures BitWidth(GetIntTypeByLength(a)) <= BitWidth(GetIntTypeByLength(b))
  {
  }

  /** The constant table `mysql2ClickhouseType`. */
  const Mysql2ClickhouseType: map<string, string> := map[
    "bigint" := "UInt64",
    "tinyint" := "UInt8",
    "varchar" := "String",
    "int" := "Int32",
    "datetime" := "DateTime"
  ]

  /** Indexing the Go map: an absent key yields the zero value, the empty string. */
  function LookupType(dataType: string): string
  {
    if dataType in Mysql2ClickhouseType then Mysql2ClickhouseType[dataType] else ""
  }

  /** The type the resolution loop of `handleColumn` assigns to a column. */
  function ResolveType(dataType: string, numericPrecision: int): string
  {
    if dataType == "int" then GetIntTypeByLength(numericPrecision) else LookupType(dataType)
  }

  /** Every resolved type is a signed integer type, a value of the table, or the empty string,
      and it is empty exactly for a non-`int` type the table does not list. */
  lemma ResolveTypeRange(dataType: string, numericPrecision: int)
    ensures var r := ResolveType(dataType, numericPrecision);
      r in SignedIntTypes || r in Mysql2ClickhouseType.Values || r == ""
    ensures ResolveType(dataType, numericPrecision) == "" <==>
      dataType != "int" && dataType !in Mysql2ClickhouseType
  {
    var r := ResolveType(dataType, numericPrecision);
    if dataType != "int" && dataType in Mysql2ClickhouseType {
      assert r == Mysql2ClickhouseType[dataType];
      assert r in Mysql2ClickhouseType.Values;
    }
  }

  /** An `int` column goes through the width rule, so the table's `int` entry decides nothing:
      it yields `Int32` only when the precision lies in 17..32. For every other declared type
      the table decides. */
  lemma ResolveTypeCases(dataType: string, numericPrecision: int)
    ensures dataType == "int" ==>
      ResolveType(dataType, numericPrecision) == GetIntTypeByLength(numericPrecision)
    ensures dataType == "int" ==>
      (ResolveType(dataType, numericPrecision) == Mysql2ClickhouseType["int"] <==> 17 <= numericPrecision <= 32)
    ensures dataType != "int" ==> ResolveType(dataType, numericPrecision) == LookupType(dataType)
  {
    IntTypeRanges(numericPrecision);
  }

  /** Sample lookups: `bigint` gives `UInt64`, the unmapped `text` gives the empty
      string, and `int` with precision 10 gives `Int16` (a width-rule result, not the table's `Int32`). */
  lemma ResolveTypeExamples()
    ensures ResolveType("bigint", 0) == "UInt64"
    ensures ResolveType("tinyint", 3) == "UInt8"
    ensures ResolveType("varchar", 0) == "String"
    ensures ResolveType("datetime", 0) == "DateTime"
    ensures ResolveType("text", 0) == ""
    ensures ResolveType("int", 10) == "Int16"
    ensures ResolveType("int", 64) == "Int64" && ResolveType("int", 65) == "Int64"
    ensures ResolveType("int", 8) == "Int8" && ResolveType("int", 16) == "Int16"
  {
  }
}
