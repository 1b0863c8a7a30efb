/** Output shapes: an ordered list of (name, type) columns, compared, rendered for the
    language model's prompt, inferred from a sample row, and filtered by type. */
module SchemaUtils {
  import opened Wrappers
  import opened Strings

  /** One output column; the type is the engine's type name, such as "VARCHAR". */
  datatype Column = Column(name: string, colType: string)

  type Schema = seq<Column>

  /** A JavaScript value in a result row. A number carries only whether it is integral
      (`Number.isInteger`); its magnitude plays no part here. */
  datatype JsValue =
    | Null
    | Undefined
    | Number(integral: bool)
    | BigInt
    | Boolean(b: bool)
    | Text(s: string)
    | Object

  /** A result row: its keys with their values, in `Object.keys` order. */
  type Row = seq<(string, JsValue)>

  const VARCHAR := "VARCHAR"
  const INTEGER := "INTEGER"
  const DOUBLE := "DOUBLE"
  const BIGINT := "BIGINT"
  const BOOLEAN := "BOOLEAN"

  /** The sentinel shown to the language model for a shape with no columns. */
  const NO_COLUMNS := "No columns available"

  /** `inferType`: the engine type guessed from a sample value. */
  function InferType(v: JsValue): (t: string)
    ensures t in {VARCHAR, INTEGER, DOUBLE, BIGINT, BOOLEAN}
    ensures t == INTEGER <==> v.Number? && v.integral
    ensures t == DOUBLE <==> v.Number? && !v.integral
    ensures t == BIGINT <==> v.BigInt?
    ensures t == BOOLEAN <==> v.Boolean?
    ensures t == VARCHAR <==> !(v.Number? || v.BigInt? || v.Boolean?)
  {
    match v
    case Null => VARCHAR
    case Undefined => VARCHAR
    case Number(integral) => if integral then INTEGER else DOUBLE
    case BigInt => BIGINT
    case Boolean(_) => BOOLEAN
    case _ => VARCHAR
  }

  /** One column per key of the row, in key order, typed by its value. */
  function ColumnsOf(row: Row): (s: Schema)
    ensures |s| == |row|
    ensures forall i :: 0 <= i < |row| ==> s[i] == Column(row[i].0, InferType(row[i].1))
  {
    if |row| == 0 then [] else [Column(row[0].0, InferType(row[0].1))] + ColumnsOf(row[1..])
  }

  /** `extractSchemaFromResult`: the shape of a query result, read off its first row;
      `None` is a missing result. */
  function ExtractSchemaFromResult(result: Option<seq<Row>>): (s: Schema)
    ensures result.None? || |result.value| == 0 ==> s == []
    ensures result.Some? && |result.value| > 0 ==>
              |s| == |result.value[0]| &&
              forall i :: 0 <= i < |s| ==> s[i] == Column(result.value[0][i].0, InferType(result.value[0][i].1))
  {
    if result.None? || |result.value| == 0 then [] else ColumnsOf(result.value[0])
  }

  /** `schemasEqual`: a missing shape equals nothing, not even another missing one;
      otherwise equal length and the same name and type at every position. */
  function SchemasEqual(a: Option<Schema>, b: Option<Schema>): (r: bool)
    ensures r <==> a.Some? && b.Some? && a.value == b.value
  {
    if a.None? || b.None? then false
    else if |a.value| != |b.value| then false
    else
      var equalAt := forall i :: 0 <= i < |a.value| ==>
        a.value[i].name == b.value[i].name && a.value[i].colType == b.value[i].colType;
      assert equalAt ==> a.value == b.value by {
        if equalAt {
          assert forall i :: 0 <= i < |a.value| ==> a.value[i] == b.value[i];
        }
      }
      equalAt
  }

  /** Equality of shapes is sensitive to column order: exchanging two different columns
      of any shape gives a shape that is not equal to it. */
  lemma SchemasEqualOrderSensitive(s: Schema, i: nat, j: nat)
    requires i < j < |s| && s[i] != s[j]
    ensures !SchemasEqual(Some(s), Some(s[i := s[j]][j := s[i]]))
    ensures SchemasEqual(Some(s), Some(s))
  {
    assert s[i := s[j]][j := s[i]][i] == s[j];
  }

  function ColumnText(c: Column): string
  {
    c.name + " (" + c.colType + ")"
  }

  function ColumnTexts(s: Schema): (r: seq<string>)
    ensures |r| == |s|
    ensures forall i :: 0 <= i < |s| ==> r[i] == ColumnText(s[i])
  {
    seq(|s|, i requires 0 <= i < |s| => ColumnText(s[i]))
  }

  /** `schemaToPromptContext`: "name (TYPE)" items joined by ", " in column order. */
  function SchemaToPromptContext(s: Option<Schema>): (r: string)
    ensures s.None? || |s.value| == 0 ==> r == NO_COLUMNS
    ensures s.Some? && |s.value| == 1 ==> r == ColumnText(s.value[0])
  {
    if s.None? || |s.value| == 0 then NO_COLUMNS else Join(ColumnTexts(s.value), ", ")
  }

  /** Adding a column at the end adds ", name (TYPE)" at the end of the description. */
  lemma PromptContextAppend(s: Schema, c: Column)
    requires |s| > 0
    ensures SchemaToPromptContext(Some(s + [c])) == SchemaToPromptContext(Some(s)) + ", " + ColumnText(c)
  {
    assert ColumnTexts(s + [c]) == ColumnTexts(s) + [ColumnText(c)];
    JoinAppend(ColumnTexts(s), ColumnText(c), ", ");
  }

  /** A description of n columns is the n items and n - 1 separators. */
  lemma PromptContextLength(s: Schema)
    requires |s| > 0
    ensures |SchemaToPromptContext(Some(s))| == TotalLength(ColumnTexts(s)) + 2 * (|s| - 1)
  {
    JoinLength(ColumnTexts(s), ", ");
  }

  /** The names of the columns whose type is in `types`, in column order. */
  function NamesOfType(s: Schema, types: set<string>): (names: seq<string>)
    ensures |names| <= |s|
    ensures forall n :: n in names <==> exists c :: c in s && c.colType in types && c.name == n
  {
    if |s| == 0 then []
    else
      var rest := NamesOfType(s[1..], types);
      assert forall c :: c in s <==> c == s[0] || c in s[1..];
      (if s[0].colType in types then [s[0].name] else []) + rest
  }

  /** Selection keeps column order: it distributes over concatenation. */
  lemma {:induction false} NamesOfTypeConcat(a: Schema, b: Schema, types: set<string>)
    ensures NamesOfType(a + b, types) == NamesOfType(a, types) + NamesOfType(b, types)
  {
    if |a| > 0 {
      assert (a + b)[1..] == a[1..] + b;
      NamesOfTypeConcat(a[1..], b, types);
    } else {
      assert a + b == b;
    }
  }

  /** `getStringColumns`: the names of the VARCHAR columns, in order. */
  function GetStringColumns(s: Schema): (names: seq<string>)
    ensures |names| <= |s|
    ensures forall n :: n in names <==> exists c :: c in s && c.colType == VARCHAR && c.name == n
  {
    NamesOfType(s, {VARCHAR})
  }

  /** `getNumericColumns`: the names of the INTEGER, DOUBLE and BIGINT columns, in order. */
  function GetNumericColumns(s: Schema): (names: seq<string>)
    ensures |names| <= |s|
    ensures forall n :: n in names <==>
              exists c :: c in s && c.colType in {INTEGER, DOUBLE, BIGINT} && c.name == n
  {
    NamesOfType(s, {INTEGER, DOUBLE, BIGINT})
  }

  /** The keys of a row whose sample value is a number or a big integer, in key order. */
  function NumericKeys(row: Row): seq<string>
  {
    if |row| == 0 then []
    else (if row[0].1.Number? || row[0].1.BigInt? then [row[0].0] else []) + NumericKeys(row[1..])
  }

  /** Of a shape inferred from a row, the numeric columns are exactly the keys holding
      numbers or big integers, in key order. */
  lemma {:induction false} InferredNumericColumns(row: Row)
    ensures GetNumericColumns(ColumnsOf(row)) == NumericKeys(row)
  {
    if |row| > 0 {
      var s := ColumnsOf(row);
      assert s[1..] == ColumnsOf(row[1..]);
      InferredNumericColumns(row[1..]);
    }
  }
}
