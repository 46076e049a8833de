/** The metadata a persisted type carries: the table attribute on the type and the
    column attribute on each mapped property (JX.SQLiteFramework/SqliteAttributes.cs). */
module SqliteAttributes {
  import opened Wrappers

  /** System.Data.DbType: the storage type a parameter is bound with. */
  datatype DbType =
    | AnsiString | Binary | Byte | Boolean | Currency | Date | DateTime | Decimal
    | Double | Guid | Int16 | Int32 | Int64 | Object | SByte | Single | String
    | Time | UInt16 | UInt32 | UInt64 | VarNumeric | AnsiStringFixedLength
    | StringFixedLength | Xml | DateTime2 | DateTimeOffset

  /** The storage type a column attribute has when its declaration does not set one. */
  const DefaultDbType: DbType := String

  /** A runtime property value, as the object-typed accessors see it. */
  datatype Value =
    | DbNull
    | TextValue(text: string)
    | IntegerValue(integer: int)
    | RealValue(number: real)
    | BoolValue(flag: bool)
    | BlobValue(bytes: seq<bv8>)

  /** SqliteColumnAttribute: one mapped column. */
  datatype ColumnAttribute = ColumnAttribute(
    columnName: string,
    description: string,
    isKey: bool,
    allowNull: bool,
    readOnly: bool,
    dbType: DbType := DefaultDbType,
    defaultValue: Option<Value>)

  /** SqliteTableAttribute: the table a type is stored in. */
  datatype TableAttribute = TableAttribute(tableName: string)
}
