/** The mapping engine of SQLiteFramework/SqliteObject.cs. Reflection is replaced by
    an explicit description of the mapped type: its table attribute and its public
    properties in declaration order, each with its column attribute, if any. The
    store is an oracle passed in by the caller. */
module SqliteObjects {
  import opened Wrappers
  import opened SqliteAttributes
  import opened SqlText

  /** A public instance property: its column attribute, whether its setter can be
      called, and the value a default-constructed instance gives it. */
  datatype Property = Property(name: string, column: Option<ColumnAttribute>, settable: bool, initial: Value)

  /** What reflection finds on a mapped type. */
  datatype EntityType = EntityType(table: Option<TableAttribute>, properties: seq<Property>)

  /** Tuple<string, object, DbType>: a column name, the property's current value and
      the column's storage type, as Save and Delete collect them and bind them. */
  datatype Binding = Binding(name: string, value: Value, dbType: DbType)

  /** A command: its text and its parameters in the order they were added. */
  datatype Command = Command(text: string, parameters: seq<Binding>)

  /** What reading one column of a result row gives: a value the property's setter
      accepts, or a failure (the reader cannot convert it, or the setter rejects it). */
  datatype Cell = Readable(value: Value) | Unconvertible

  /** A result row by column name; reading a column the row lacks also fails. */
  type Row = map<string, Cell>

  datatype Exception = SQLiteException | OtherException

  /** What a call returns: an int, or an exception the caller sees. */
  datatype Outcome = Returned(n: int) | Raised(e: Exception)

  /** The store's ExecuteNonQuery for a command text and its parameters. */
  type NonQuery = (string, seq<Binding>) -> Outcome

  /** The store's ExecuteReader: the rows of the result, or an exception. */
  datatype ReaderOutcome = Rows(rows: seq<Row>) | ReaderRaised(e: Exception)
  type Query = string -> ReaderOutcome

  // ---------------------------------------------------------------------------
  // Which columns Save and Delete use

  predicate IsKeyProperty(p: Property) {
    p.column.Some? && p.column.value.isKey
  }

  /** A column Save lists for INSERT or UPDATE: every annotated one but a read-only key. */
  predicate IsListed(p: Property) {
    p.column.Some? && !(p.column.value.isKey && p.column.value.readOnly)
  }

  function BindingOf(p: Property, v: Value): Binding
    requires p.column.Some?
  {
    Binding(p.column.value.columnName, v, p.column.value.dbType)
  }

  /** The columns list Save builds, over the properties and their current values. */
  function SaveColumns(props: seq<Property>, fields: seq<Value>): seq<Binding>
    requires |props| == |fields|
    decreases |props|
  {
    if props == [] then []
    else
      var n := |props| - 1;
      SaveColumns(props[..n], fields[..n])
        + (if IsListed(props[n]) then [BindingOf(props[n], fields[n])] else [])
  }

  /** The positions of the listed properties: every listed one, in increasing order. */
  function ListedIndices(props: seq<Property>): (r: seq<nat>)
    ensures forall j :: 0 <= j < |r| ==> r[j] < |props| && IsListed(props[r[j]])
    ensures forall j, k :: 0 <= j < k < |r| ==> r[j] < r[k]
    ensures forall i :: 0 <= i < |props| && IsListed(props[i]) ==> i in r
    decreases |props|
  {
    if props == [] then []
    else
      var n := |props| - 1;
      ListedIndices(props[..n]) + (if IsListed(props[n]) then [n] else [])
  }

  /** The key Save uses: the last property flagged as a key. */
  function LastKeyIndex(props: seq<Property>): (r: Option<nat>)
    ensures r.Some? ==> r.value < |props| && IsKeyProperty(props[r.value])
    ensures r.Some? ==> forall j :: r.value < j < |props| ==> !IsKeyProperty(props[j])
    ensures r.None? <==> forall j :: 0 <= j < |props| ==> !IsKeyProperty(props[j])
    decreases |props|
  {
    if props == [] then None
    else
      var n := |props| - 1;
      if IsKeyProperty(props[n]) then Some(n) else LastKeyIndex(props[..n])
  }

  /** The key Delete uses: the first property flagged as a key. */
  function FirstKeyIndex(props: seq<Property>): (r: Option<nat>)
    ensures r.Some? ==> r.value < |props| && IsKeyProperty(props[r.value])
    ensures r.Some? ==> forall j :: 0 <= j < r.value ==> !IsKeyProperty(props[j])
    ensures r.None? <==> forall j :: 0 <= j < |props| ==> !IsKeyProperty(props[j])
    decreases |props|
  {
    if props == [] then None
    else if IsKeyProperty(props[0]) then Some(0)
    else
      match FirstKeyIndex(props[1..])
      case None => None
      case Some(i) => Some(i + 1)
  }

  function SaveKey(props: seq<Property>, fields: seq<Value>): Option<Binding>
    requires |props| == |fields|
  {
    match LastKeyIndex(props)
    case None => None
    case Some(i) => Some(BindingOf(props[i], fields[i]))
  }

  function DeleteKey(props: seq<Property>, fields: seq<Value>): Option<Binding>
    requires |props| == |fields|
  {
    match FirstKeyIndex(props)
    case None => None
    case Some(i) => Some(BindingOf(props[i], fields[i]))
  }

  function Names(columns: seq<Binding>): (r: seq<string>)
    ensures |r| == |columns|
    ensures forall i :: 0 <= i < |columns| ==> r[i] == columns[i].name
  {
    seq(|columns|, i requires 0 <= i < |columns| => columns[i].name)
  }

  /** The parameters Save adds: the columns in order, then the key once more on update. */
  function SaveParameters(columns: seq<Binding>, key: Option<Binding>, isNew: bool): (r: seq<Binding>)
    requires !isNew ==> key.Some?
    ensures |r| == |columns| + (if isNew then 0 else 1)
    ensures r[..|columns|] == columns
    ensures !isNew ==> r[|columns|] == key.value
  {
    columns + (if isNew then [] else [key.value])
  }

  /** The command Save sends: an INSERT for a new row, otherwise an UPDATE by key. */
  function SaveCommand(table: string, props: seq<Property>, fields: seq<Value>, isNew: bool): Command
    requires |props| == |fields|
    requires !isNew ==> LastKeyIndex(props).Some?
  {
    var columns := SaveColumns(props, fields);
    var key := SaveKey(props, fields);
    var text := if isNew then InsertSql(table, Names(columns)) else UpdateSql(table, Names(columns), key.value.name);
    Command(text, SaveParameters(columns, key, isNew))
  }

  /** The command Delete sends: a DELETE by the first key, binding only that key. */
  function DeleteCommand(table: string, props: seq<Property>, fields: seq<Value>): Command
    requires |props| == |fields|
    requires FirstKeyIndex(props).Some?
  {
    var key := DeleteKey(props, fields).value;
    Command(DeleteSql(table, key.name), [key])
  }

  // ---------------------------------------------------------------------------
  // Hydration

  /** The value a property has after one row is read into it: the row's value when
      the property is annotated, the row has its column, the value converts and the
      setter can be called; the prior value otherwise. */
  function HydratedField(p: Property, row: Row, prior: Value): Value {
    match p.column
    case None => prior
    case Some(c) =>
      if c.columnName in row && row[c.columnName].Readable? && p.settable
      then row[c.columnName].value
      else prior
  }

  function Hydrated(props: seq<Property>, row: Row, fields: seq<Value>): (r: seq<Value>)
    requires |props| == |fields|
    ensures |r| == |props|
    ensures forall i :: 0 <= i < |props| ==> r[i] == HydratedField(props[i], row, fields[i])
  {
    seq(|props|, i requires 0 <= i < |props| => HydratedField(props[i], row, fields[i]))
  }

  /** The field values of a default-constructed instance. */
  function Defaults(props: seq<Property>): (r: seq<Value>)
    ensures |r| == |props|
    ensures forall i :: 0 <= i < |props| ==> r[i] == props[i].initial
  {
    seq(|props|, i requires 0 <= i < |props| => props[i].initial)
  }

  // ---------------------------------------------------------------------------
  // Properties of the partition, the key choice and the commands

  /** The columns list is the listed properties' bindings, in declaration order:
      the j-th entry comes from the j-th listed property. */
  lemma {:induction false} SaveColumnsAreListed(props: seq<Property>, fields: seq<Value>)
    requires |props| == |fields|
    ensures |SaveColumns(props, fields)| == |ListedIndices(props)|
    ensures forall j :: 0 <= j < |ListedIndices(props)| ==>
              var i := ListedIndices(props)[j];
              SaveColumns(props, fields)[j] == BindingOf(props[i], fields[i])
    decreases |props|
  {
    if props != [] {
      var n := |props| - 1;
      SaveColumnsAreListed(props[..n], fields[..n]);
      var idx, prefixIdx := ListedIndices(props), ListedIndices(props[..n]);
      forall j | 0 <= j < |prefixIdx|
        ensures BindingOf(props[..n][prefixIdx[j]], fields[..n][prefixIdx[j]]) == BindingOf(props[prefixIdx[j]], fields[prefixIdx[j]])
      {
      }
    }
  }

  /** Two annotated properties never share a column name. */
  predicate UniqueColumnNames(props: seq<Property>) {
    forall i, j ::
      (0 <= i < |props| && 0 <= j < |props| && props[i].column.Some? && props[j].column.Some? &&
       props[i].column.value.columnName == props[j].column.value.columnName) ==> i == j
  }

  /** With distinct column names, a column is named in the columns list exactly when
      it is listed: so a read-only key never is, and every other column is. */
  lemma ColumnNamedIffListed(props: seq<Property>, fields: seq<Value>, i: nat)
    requires |props| == |fields| && UniqueColumnNames(props)
    requires i < |props| && props[i].column.Some?
    ensures props[i].column.value.columnName in Names(SaveColumns(props, fields)) <==> IsListed(props[i])
  {
    var columns, idx := SaveColumns(props, fields), ListedIndices(props);
    var name := props[i].column.value.columnName;
    SaveColumnsAreListed(props, fields);
    if IsListed(props[i]) {
      var j :| 0 <= j < |idx| && idx[j] == i;
      assert Names(columns)[j] == name;
    }
    if name in Names(columns) {
      var j :| 0 <= j < |columns| && Names(columns)[j] == name;
      assert columns[j] == BindingOf(props[idx[j]], fields[idx[j]]);
      assert IsListed(props[idx[j]]);
      assert idx[j] == i;
    }
  }

  /** A writable key is itself one of the listed columns: the binding Save appended
      when it met the key. */
  lemma WritableKeyIsListed(props: seq<Property>, fields: seq<Value>)
    requires |props| == |fields|
    requires LastKeyIndex(props).Some? && !props[LastKeyIndex(props).value].column.value.readOnly
    ensures exists j :: 0 <= j < |ListedIndices(props)| && j < |SaveColumns(props, fields)|
                        && ListedIndices(props)[j] == LastKeyIndex(props).value
                        && SaveColumns(props, fields)[j] == SaveKey(props, fields).value
  {
    var i := LastKeyIndex(props).value;
    var idx := ListedIndices(props);
    SaveColumnsAreListed(props, fields);
    assert IsListed(props[i]);
    var j :| 0 <= j < |idx| && idx[j] == i;
    assert SaveColumns(props, fields)[j] == SaveKey(props, fields).value;
  }

  /** On update a writable key is bound twice: as a listed column and again, last,
      for the WHERE clause. */
  lemma UpdateBindsWritableKeyTwice(table: string, props: seq<Property>, fields: seq<Value>)
    requires |props| == |fields|
    requires LastKeyIndex(props).Some? && !props[LastKeyIndex(props).value].column.value.readOnly
    ensures var parameters := SaveCommand(table, props, fields, false).parameters;
            var key := SaveKey(props, fields).value;
            && parameters[|parameters| - 1] == key
            && exists j :: 0 <= j < |parameters| - 1 && parameters[j] == key
  {
    var columns := SaveColumns(props, fields);
    var parameters := SaveCommand(table, props, fields, false).parameters;
    WritableKeyIsListed(props, fields);
    var j :| 0 <= j < |ListedIndices(props)| && j < |columns|
             && ListedIndices(props)[j] == LastKeyIndex(props).value
             && columns[j] == SaveKey(props, fields).value;
    assert parameters[..|columns|][j] == parameters[j];
  }

  /** When at most one property is flagged as a key, Save and Delete use the same key. */
  lemma KeysAgreeWhenUnique(props: seq<Property>, fields: seq<Value>)
    requires |props| == |fields|
    requires forall i, j :: 0 <= i < |props| && 0 <= j < |props| && IsKeyProperty(props[i]) && IsKeyProperty(props[j]) ==> i == j
    ensures FirstKeyIndex(props) == LastKeyIndex(props)
    ensures DeleteKey(props, fields) == SaveKey(props, fields)
  {
  }

  /** Every annotated property's column name is a plain identifier. */
  predicate PlainColumns(props: seq<Property>) {
    forall i :: 0 <= i < |props| && props[i].column.Some? ==> Plain(props[i].column.value.columnName)
  }

  lemma PlainNames(props: seq<Property>, fields: seq<Value>)
    requires |props| == |fields| && PlainColumns(props)
    ensures forall j :: 0 <= j < |SaveColumns(props, fields)| ==> Plain(Names(SaveColumns(props, fields))[j])
  {
    SaveColumnsAreListed(props, fields);
  }

  /** The INSERT Save sends names each column once, in order, and its j-th
      placeholder is the name of the j-th bound parameter. */
  lemma InsertMatchesParameters(table: string, props: seq<Property>, fields: seq<Value>)
    requires |props| == |fields| && Plain(table) && PlainColumns(props)
    ensures var command := SaveCommand(table, props, fields, true);
            var names := Names(SaveColumns(props, fields));
            && ParseInsert(command.text) == Some(InsertParts(table, BracketedAll(names), PlaceholderAll(names)))
            && |command.parameters| == |names|
            && forall j :: 0 <= j < |names| ==> PlaceholderAll(names)[j] == Placeholder(command.parameters[j].name)
  {
    PlainNames(props, fields);
    InsertSqlParses(table, Names(SaveColumns(props, fields)));
  }

  /** The UPDATE Save sends has one assignment per bound column parameter, in the
      same order, and its WHERE clause names the key bound last. */
  lemma UpdateMatchesParameters(table: string, props: seq<Property>, fields: seq<Value>)
    requires |props| == |fields| && Plain(table) && PlainColumns(props)
    requires LastKeyIndex(props).Some?
    ensures var command := SaveCommand(table, props, fields, false);
            var names := Names(SaveColumns(props, fields));
            var key := SaveKey(props, fields).value;
            && ParseUpdate(command.text) == Some(UpdateParts(table, AssignmentAll(names), key.name, key.name))
            && |command.parameters| == |names| + 1
            && (forall j :: 0 <= j < |names| ==> AssignmentAll(names)[j] == Assignment(command.parameters[j].name))
            && command.parameters[|names|] == key
  {
    PlainNames(props, fields);
    var i := LastKeyIndex(props).value;
    assert Plain(props[i].column.value.columnName);
    UpdateSqlParses(table, Names(SaveColumns(props, fields)), SaveKey(props, fields).value.name);
  }

  /** The DELETE names the first key on both sides of its condition and binds exactly
      that key, with the object's current value. */
  lemma DeleteMatchesParameters(table: string, props: seq<Property>, fields: seq<Value>)
    requires |props| == |fields| && Plain(table) && PlainColumns(props)
    requires FirstKeyIndex(props).Some?
    ensures var command := DeleteCommand(table, props, fields);
            var i := FirstKeyIndex(props).value;
            var name := props[i].column.value.columnName;
            && ParseDelete(command.text) == Some(DeleteParts(table, name, name))
            && command.parameters == [BindingOf(props[i], fields[i])]
  {
    var i := FirstKeyIndex(props).value;
    assert Plain(props[i].column.value.columnName);
    DeleteSqlParses(table, props[i].column.value.columnName);
  }

  /** A column that fails to read changes only the properties mapped to it:
      every other property hydrates exactly as it would otherwise. */
  lemma FailedColumnIsSkipped(props: seq<Property>, row: Row, fields: seq<Value>, name: string)
    requires |props| == |fields|
    ensures var skipped := Hydrated(props, row[name := Unconvertible], fields);
            forall i :: 0 <= i < |props| ==>
              if props[i].column.Some? && props[i].column.value.columnName == name
              then skipped[i] == fields[i]
              else skipped[i] == Hydrated(props, row, fields)[i]
  {
  }

  /** Reading the same row twice gives what reading it once gives. */
  lemma HydrationIdempotent(props: seq<Property>, row: Row, fields: seq<Value>)
    requires |props| == |fields|
    ensures Hydrated(props, row, Hydrated(props, row, fields)) == Hydrated(props, row, fields)
  {
  }

  /** A Person type: a read-only integer key id, then name and age. */
  function PersonProperties(): seq<Property> {
    [ Property("Id", Some(ColumnAttribute("id", "Id", true, false, true, Int64, None)), true, IntegerValue(0)),
      Property("Name", Some(ColumnAttribute("name", "Name", false, false, false, String, None)), true, DbNull),
      Property("Age", Some(ColumnAttribute("age", "Age", false, true, false, Int32, None)), true, IntegerValue(0)) ]
  }

  function PersonFields(): seq<Value> {
    [IntegerValue(5), TextValue("Ana"), IntegerValue(31)]
  }

  /** The Person's columns list leaves out its read-only key; the key is id. */
  lemma PersonPartition()
    ensures SaveColumns(PersonProperties(), PersonFields())
         == [Binding("name", TextValue("Ana"), String), Binding("age", IntegerValue(31), Int32)]
    ensures SaveKey(PersonProperties(), PersonFields()) == Some(Binding("id", IntegerValue(5), Int64))
  {
    var props, fields := PersonProperties(), PersonFields();
    assert props[..2][..1] == props[..1] && props[..1][..0] == [];
    assert fields[..2][..1] == fields[..1] && fields[..1][..0] == [];
    assert props[..3] == props && fields[..3] == fields;
    assert SaveColumns(props[..1], fields[..1]) == [];
    assert SaveColumns(props[..2], fields[..2]) == [Binding("name", TextValue("Ana"), String)];
    assert LastKeyIndex(props[..1]) == Some(0);
  }

  /** The Person insert: the read-only key is neither named nor bound. */
  lemma PersonInsert()
    ensures SaveCommand("Person", PersonProperties(), PersonFields(), true)
         == Command(InsertSql("Person", ["name", "age"]),
                    [Binding("name", TextValue("Ana"), String), Binding("age", IntegerValue(31), Int32)])
  {
    PersonPartition();
    assert Names(SaveColumns(PersonProperties(), PersonFields())) == ["name", "age"];
  }

  /** The Person update sets name and age by the key id, and binds the key last. */
  lemma PersonUpdate()
    ensures SaveCommand("Person", PersonProperties(), PersonFields(), false)
         == Command(UpdateSql("Person", ["name", "age"], "id"),
                    [Binding("name", TextValue("Ana"), String), Binding("age", IntegerValue(31), Int32),
                     Binding("id", IntegerValue(5), Int64)])
  {
    PersonPartition();
    assert Names(SaveColumns(PersonProperties(), PersonFields())) == ["name", "age"];
  }

  /** The Person delete is by the key id, bound once. */
  lemma PersonDelete()
    ensures DeleteCommand("Person", PersonProperties(), PersonFields())
         == Command(DeleteSql("Person", "id"), [Binding("id", IntegerValue(5), Int64)])
  {
    assert FirstKeyIndex(PersonProperties()) == Some(0);
  }

  /** The exact text of the Person delete. */
  lemma PersonDeleteText()
    ensures DeleteCommand("Person", PersonProperties(), PersonFields()).text == "DELETE FROM Person WHERE id=:id"
  {
    PersonDelete();
  }

  /** With two properties flagged as keys, Save updates by the second and Delete
      deletes by the first. */
  lemma TwoKeysDisagree(props: seq<Property>, i: nat, j: nat)
    requires i < j < |props| && IsKeyProperty(props[i]) && IsKeyProperty(props[j])
    requires forall k :: 0 <= k < |props| && k != i && k != j ==> !IsKeyProperty(props[k])
    ensures FirstKeyIndex(props) == Some(i) && LastKeyIndex(props) == Some(j)
  {
  }

  // ---------------------------------------------------------------------------
  // The loops of Save and Delete

  /** The foreach of Save: build the columns list and pick the key. */
  method CollectColumns(props: seq<Property>, fields: seq<Value>) returns (columns: seq<Binding>, key: Option<Binding>)
    requires |props| == |fields|
    ensures columns == SaveColumns(props, fields)
    ensures key == SaveKey(props, fields)
  {
    columns, key := [], None;
    for i := 0 to |props|
      invariant columns == SaveColumns(props[..i], fields[..i])
      invariant key == SaveKey(props[..i], fields[..i])
    {
      assert props[..i + 1][..i] == props[..i];
      assert fields[..i + 1][..i] == fields[..i];
      match props[i].column
      case None =>
      case Some(c) =>
        if c.isKey {
          if c.readOnly {
            key := Some(Binding(c.columnName, fields[i], c.dbType));
          } else {
            columns := columns + [Binding(c.columnName, fields[i], c.dbType)];
            key := Some(columns[|columns| - 1]);
          }
        } else {
          columns := columns + [Binding(c.columnName, fields[i], c.dbType)];
        }
    }
    assert props[..|props|] == props;
    assert fields[..|fields|] == fields;
  }

  /** The parameter binding of Save: each column, then the key again on update. */
  method BindParameters(columns: seq<Binding>, key: Option<Binding>, isNew: bool) returns (parameters: seq<Binding>)
    requires !isNew ==> key.Some?
    ensures parameters == SaveParameters(columns, key, isNew)
  {
    parameters := [];
    for i := 0 to |columns|
      invariant parameters == columns[..i]
    {
      parameters := parameters + [columns[i]];
    }
    if !isNew {
      parameters := parameters + [key.value];
    }
  }

  /** The key search of Delete: stop at the first property flagged as a key. */
  method FindKey(props: seq<Property>, fields: seq<Value>) returns (key: Option<Binding>)
    requires |props| == |fields|
    ensures key == DeleteKey(props, fields)
  {
    key := None;
    var i := 0;
    while i < |props|
      invariant 0 <= i <= |props|
      invariant forall j :: 0 <= j < i ==> !IsKeyProperty(props[j])
    {
      var column := props[i].column;
      if column.Some? && column.value.isKey {
        key := Some(Binding(column.value.columnName, fields[i], column.value.dbType));
        break;
      }
      i := i + 1;
    }
  }

  // ---------------------------------------------------------------------------
  // The mapped object

  /** An instance of a mapped type: its type's metadata and its property values. */
  class SqliteObject {
    const entity: EntityType
    var fields: seq<Value>

    predicate Valid()
      reads this
    {
      |fields| == |entity.properties|
    }

    /** The parameterless constructor GetAllElements instantiates. */
    constructor (entity: EntityType)
      ensures Valid()
      ensures this.entity == entity && fields == Defaults(entity.properties)
    {
      this.entity := entity;
      fields := Defaults(entity.properties);
    }

    /** Read every annotated property from the row, skipping those that fail. */
    method FillInstanceFromReader(row: Row)
      requires Valid()
      modifies this
      ensures Valid()
      ensures fields == Hydrated(entity.properties, row, old(fields))
    {
      var props := entity.properties;
      for i := 0 to |props|
        invariant |fields| == |props|
        invariant forall j :: 0 <= j < i ==> fields[j] == HydratedField(props[j], row, old(fields)[j])
        invariant forall j :: i <= j < |props| ==> fields[j] == old(fields)[j]
      {
        match props[i].column
        case None =>
        case Some(c) =>
          if c.columnName in row && row[c.columnName].Readable? && props[i].settable {
            fields := fields[i := row[c.columnName].value];
          }
      }
    }

    /** Insert (isNew) or update this object's row; a store exception of the
        SQLite kind is reported as -1, any other reaches the caller. */
    method Save(exec: NonQuery, isNew: bool := false) returns (r: Outcome)
      requires Valid()
      requires entity.table.Some?
      requires !isNew ==> LastKeyIndex(entity.properties).Some?
      ensures var command := SaveCommand(entity.table.value.tableName, entity.properties, fields, isNew);
              var outcome := exec(command.text, command.parameters);
              && (outcome.Returned? ==> r == outcome)
              && (outcome == Raised(SQLiteException) ==> r == Returned(-1))
              && (outcome == Raised(OtherException) ==> r == outcome)
    {
      var table := entity.table.value.tableName;
      var columns, key := CollectColumns(entity.properties, fields);
      var text;
      if isNew {
        text := InsertSql(table, Names(columns));
      } else {
        text := UpdateSql(table, Names(columns), key.value.name);
      }
      var parameters := BindParameters(columns, key, isNew);
      var outcome := exec(text, parameters);
      if outcome == Raised(SQLiteException) {
        return Returned(-1);
      }
      return outcome;
    }

    /** Delete this object's row by its first key column. */
    method Delete(exec: NonQuery) returns (r: Outcome)
      requires Valid()
      requires entity.table.Some?
      requires FirstKeyIndex(entity.properties).Some?
      ensures var command := DeleteCommand(entity.table.value.tableName, entity.properties, fields);
              r == exec(command.text, command.parameters)
    {
      var table := entity.table.value.tableName;
      var key := FindKey(entity.properties, fields);
      r := exec(DeleteSql(table, key.value.name), [key.value]);
    }

    /** Load every row of the type's table: null without a table attribute,
        otherwise one new default-constructed, hydrated instance per row. */
    static method GetAllElements(entity: EntityType, query: Query) returns (r: Option<seq<SqliteObject>>, raised: Option<Exception>)
      ensures entity.table.None? ==> r.None? && raised.None?
      ensures entity.table.Some? ==>
        match query(SelectAllSql(entity.table.value.tableName))
        case ReaderRaised(e) => r.None? && raised == Some(e)
        case Rows(rows) =>
          && raised.None? && r.Some? && |r.value| == |rows|
          && (forall i :: 0 <= i < |rows| ==>
                && fresh(r.value[i]) && r.value[i].Valid() && r.value[i].entity == entity
                && r.value[i].fields == Hydrated(entity.properties, rows[i], Defaults(entity.properties)))
          && (forall i, j :: 0 <= i < j < |rows| ==> r.value[i] != r.value[j])
    {
      if entity.table.None? {
        return None, None;
      }
      var outcome := query(SelectAllSql(entity.table.value.tableName));
      if outcome.ReaderRaised? {
        return None, Some(outcome.e);
      }
      var rows := outcome.rows;
      var elements: seq<SqliteObject> := [];
      var k := 0;
      while k < |rows|
        invariant 0 <= k <= |rows| && |elements| == k
        invariant forall i :: 0 <= i < k ==>
          && fresh(elements[i]) && elements[i].Valid() && elements[i].entity == entity
          && elements[i].fields == Hydrated(entity.properties, rows[i], Defaults(entity.properties))
        invariant forall i, j :: 0 <= i < j < k ==> elements[i] != elements[j]
      {
        var element := new SqliteObject(entity);
        element.FillInstanceFromReader(rows[k]);
        elements := elements + [element];
        k := k + 1;
      }
      return Some(elements), None;
    }
  }
}
