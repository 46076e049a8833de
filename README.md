# SQLiteFramework mapping engine, modelled in Dafny

This project models the mapping engine of `SqliteObject`. That engine is the abstract base class
that persists annotated C# objects in SQLite. It reads each public property's
`SqliteColumnAttribute` and the type's `SqliteTableAttribute`, and from them:

- builds the `INSERT`, `UPDATE`, `DELETE` and `select *` texts;
- binds the property values as command parameters;
- runs the command through the store;
- fills objects back in from result rows, column by column, skipping any column that fails.

Reflection is replaced by an explicit description of the type, `EntityType`. It holds the optional
table attribute and the public properties in declaration order. Each `Property` carries its
optional column attribute, whether its setter can be called, and the value a default-constructed
instance gives it. An object is the class `SqliteObject`, whose `fields` are the property values
in the same order. The store is an oracle the caller passes in:

- `NonQuery` stands for `ExecuteNonQuery`. It maps a command text and its parameter list to a
  returned int or a raised exception (`SQLiteException` or any other).
- `Query` stands for `ExecuteReader`. It gives the result rows, or an exception.
- A `Row` maps column names to a `Cell`: either a value the property accepts, or `Unconvertible`.
  A column missing from the row fails like an unconvertible one.

Files:

- `Wrappers.dfy`: the `Option` type, standing for a null reference.
- `SqliteAttributes.dfy`: `DbType`, the runtime `Value`, and the column and table attributes. A
  column attribute's storage type defaults to `String` when it is not given.
- `SqlText.dfy`: the four statement texts, exactly as the code writes them, built as pure
  map-and-join functions.
  - `INSERT INTO [t] ([c1],[c2]) VALUES (:c1,:c2)`
  - `UPDATE [t] SET [c1]=:c1,[c2]=:c2 WHERE k=:k`
  - `DELETE FROM t WHERE k=:k`
  - `select * from [t]`

  The file also has a small reader for these texts. It is their partner: for plain identifiers,
  reading a generated text back gives the table, the bracketed `[c]` items (or `[c]=:c`
  assignments) and the `:c` placeholders in column order, and the key on both sides of `=:`.
  For INSERT, equal texts also mean equal tables and equal column names.
- `SqliteObject.dfy`: the specification functions and the loops, with lemmas about them.
  - Specification functions: which columns `Save` lists, which key `Save` and `Delete` use, the
    parameters, the commands, and hydration.
  - Loops, written as methods with invariants: `CollectColumns` (the `foreach` of `Save`),
    `BindParameters`, and `FindKey` (the key search of `Delete`, with its `break`).
  - The class `SqliteObject`, with `FillInstanceFromReader`, `Save`, `Delete` and the static
    `GetAllElements`.

The source's behaviour as modelled:

- `Save` lists every annotated column except a read-only key, in declaration order.
  - A writable key is listed and is also the key.
  - When several columns are flagged as key, `Save` uses the last one and `Delete` the first.
- On update, the parameters are the listed columns followed by the key once more, so a writable
  key is bound twice.
- `Save` turns a `SQLiteException` into `-1` and lets every other exception through. `Delete`
  catches nothing.
- `GetAllElements` gives null when the type has no table attribute. Otherwise it gives one new,
  default-constructed, hydrated object per row, in row order.

The model follows the code in these details:

- The code brackets the column names in the `INSERT` column list and in the `SET` items.
- The code leaves the key and the `DELETE` table unbracketed.
- The code writes `select * from` in lower case.
- The code does not reject zero or several key columns.

## Model

| member | source | states |
|---|---|---|
| `SqliteObjects.ListedIndices` | SQLiteFramework/SqliteObject.cs:47-67 | the positions Save lists are in range, strictly increasing, each an annotated column that is not a read-only key, and every such column's position is among them |
| `SqliteObjects.SaveColumnsAreListed` | SQLiteFramework/SqliteObject.cs:47-67 | the columns list has one entry per listed position, in order; entry j is the (name, current value, storage type) of the j-th listed property, so each listed column appears exactly once |
| `SqliteObjects.ColumnNamedIffListed` | SQLiteFramework/SqliteObject.cs:53-66 | with distinct column names, an annotated column's name is in the columns list if and only if it is not a read-only key |
| `SqliteObjects.LastKeyIndex` | SQLiteFramework/SqliteObject.cs:53-63 | Save's key is a key column with no key column after it; there is none exactly when no column is flagged as key |
| `SqliteObjects.WritableKeyIsListed` | SQLiteFramework/SqliteObject.cs:59-63 | when Save's key is writable, the key is the columns-list entry at the position that lists the last key property, that is the triple appended when the loop met it |
| `SqliteObjects.CollectColumns` | SQLiteFramework/SqliteObject.cs:44-67 | the foreach loop builds exactly the specified columns list and key |
| `SqlText.SplitListJoin` | SQLiteFramework/SqliteObject.cs:73-74 | cutting a string.Join(",", items) text at the commas gives back the items, for non-empty items without commas |
| `SqlText.InsertSqlParses` | SQLiteFramework/SqliteObject.cs:71-76 | the INSERT text reads back as its table, the list of "[c]" names and the list of ":c" placeholders; both lists have one entry per column, in column order |
| `SqlText.InsertSqlInjective` | SQLiteFramework/SqliteObject.cs:71-76 | two INSERT texts over plain names are equal only for the same table and the same column list in the same order |
| `SqlText.UpdateSqlParses` | SQLiteFramework/SqliteObject.cs:77-81 | the UPDATE text reads back as its table, one "[c]=:c" item per column in column order, and the key name on both sides of "=:" in the WHERE clause |
| `SqlText.DeleteSqlParses` | SQLiteFramework/SqliteObject.cs:129 | the DELETE text reads back as its unbracketed table and the key name on both sides of "=:" |
| `SqlText.SelectAllSqlParses` | SQLiteFramework/SqliteObject.cs:147 | the select-all text reads back as its table |
| `SqliteObjects.SaveParameters` | SQLiteFramework/SqliteObject.cs:87-93 | the parameters are the columns list in order, then the key only on update; their count is the column count plus one on update |
| `SqliteObjects.BindParameters` | SQLiteFramework/SqliteObject.cs:87-93 | the binding loop adds exactly the specified parameters, in order |
| `SqliteObjects.UpdateBindsWritableKeyTwice` | SQLiteFramework/SqliteObject.cs:87-93 | on update with a writable key, the key is bound last and also at an earlier position |
| `SqliteObjects.InsertMatchesParameters` | SQLiteFramework/SqliteObject.cs:71-88 | for plain names, the INSERT Save sends lists the columns list's names, and its j-th placeholder is the name of the j-th bound parameter |
| `SqliteObjects.UpdateMatchesParameters` | SQLiteFramework/SqliteObject.cs:77-93 | for plain names, the UPDATE Save sends has one assignment per column parameter in the same order; its WHERE key is the key bound last |
| `SqliteObjects.FirstKeyIndex` | SQLiteFramework/SqliteObject.cs:117-125 | Delete's key is a key column with no key column before it; there is none exactly when no column is flagged as key |
| `SqliteObjects.FindKey` | SQLiteFramework/SqliteObject.cs:115-125 | the search loop with its break finds exactly the first key column's triple |
| `SqliteObjects.DeleteMatchesParameters` | SQLiteFramework/SqliteObject.cs:115-130 | for plain names, the DELETE names the first key column on both sides of its condition and binds exactly that key with its current value |
| `SqliteObjects.KeysAgreeWhenUnique` | SQLiteFramework/SqliteObject.cs:117-125 | when at most one column is flagged as key, Delete and Save pick the same key |
| `SqliteObjects.TwoKeysDisagree` | SQLiteFramework/SqliteObject.cs:53-63 | for any property list with exactly two key columns, at positions i < j, Save keys on the one at j and Delete on the one at i |
| `SqliteObjects.SqliteObject.Save` | SQLiteFramework/SqliteObject.cs:38-107 | Save (whose `isNew` defaults to false, as in the code) sends the INSERT (new) or UPDATE command with its parameters; it returns the store's count, -1 on a SQLiteException, and lets any other exception through |
| `SqliteObjects.SqliteObject.Delete` | SQLiteFramework/SqliteObject.cs:109-134 | Delete sends the DELETE command of its first key and returns whatever the store gives back, exceptions included |
| `SqliteObjects.Hydrated` | SQLiteFramework/SqliteObject.cs:19-35 | after reading a row, each property is the row's value when it is annotated, its column reads and converts, and its setter can be called; otherwise it keeps its prior value |
| `SqliteObjects.SqliteObject.FillInstanceFromReader` | SQLiteFramework/SqliteObject.cs:15-36 | the loop over properties leaves the object's fields equal to the hydration of the row over their prior values |
| `SqliteObjects.FailedColumnIsSkipped` | SQLiteFramework/SqliteObject.cs:26-34 | a column that fails to read leaves only the properties mapped to it at their prior value; every other property hydrates as it would otherwise |
| `SqliteObjects.HydrationIdempotent` | SQLiteFramework/SqliteObject.cs:19-35 | reading the same row into an object twice gives what reading it once gives |
| `SqliteObjects.SqliteObject.constructor` | SQLiteFramework/SqliteObject.cs:153 | a default-constructed instance holds each property's initial value |
| `SqliteObjects.SqliteObject.GetAllElements` | SQLiteFramework/SqliteObject.cs:138-161 | null without a table attribute; a reader exception reaches the caller; otherwise one fresh, distinct, default-constructed object per row, in row order, each hydrated from its row |
| `SqliteObjects.PersonPartition` | SQLiteFramework/SqliteObject.cs:47-67 | for a Person with a read-only key id, then name and age, the columns list is name and age, and the key is id |
| `SqliteObjects.PersonInsert` | SQLiteFramework/SqliteObject.cs:71-93 | inserting that Person names and binds name and age only |
| `SqliteObjects.PersonUpdate` | SQLiteFramework/SqliteObject.cs:77-93 | updating that Person sets name and age where id matches, and binds id last |
| `SqliteObjects.PersonDelete` | SQLiteFramework/SqliteObject.cs:117-130 | deleting that Person is by id, and binds id only |
| `SqliteObjects.PersonDeleteText` | SQLiteFramework/SqliteObject.cs:129 | the text of that delete is exactly `DELETE FROM Person WHERE id=:id` |

## Left out

- `GetAsInputItem` and `SetValues`, the input-form helpers. They depend on WPF types
  (`InputValuesControl.InputItem`, `ComboBoxItem`), and `GetAsInputItem` reads the clock
  (`DateTime.Now`). A column's description and default value are carried in the data model, but
  only these helpers read them.
- The console logging in `FillInstanceFromReader` and `Save`. It is output only.
- The SQLite connection, command and reader objects. They are foreign I/O. The model uses the
  `NonQuery` and `Query` oracles instead. A reader that fails partway through its rows is
  modelled as failing as a whole.
- Disposal of commands and readers (`using`).
- Reflection and attribute lookup. They are replaced by `EntityType`. The model assumes that
  properties come in declaration order, an order .NET does not promise.
- Crashes on a null reference; the callers are required to avoid them instead:
  - Save and Delete require a table attribute.
  - Save's update requires a key column.
  - Delete requires a key column.
- A property whose getter throws. Save and Delete would let that exception through, and the model
  does not represent it.
- Floating-point values, which the model represents as `real`.
- `SqliteObjects.PersonInsert`, `SqliteObjects.PersonUpdate`: they state the Person commands through
  `InsertSql` and `UpdateSql` rather than as literal text. Proving equality with the 55-character and 56-character
  literals is beyond the solver's budget, so only `PersonDeleteText` pins the exact text.
- Conversion of a value to its property's type. A cell is either accepted or `Unconvertible`,
  per column. In the code, whether `SetValue` accepts a value depends on each property's type.
  So when two properties of different types map to one column, one can be set while the other is
  skipped. The model cannot express that: both are set or both are skipped.
- Store semantics: what a statement does to the stored rows. Because the store is an oracle,
  the model does not state that a saved row is later loaded back, or that repeating an update
  changes nothing further.

Names with any of `[](),=:` or a space can make a statement text ambiguous, so the following are
stated only for plain names, that is names without these characters:

- `SqlText.InsertSqlParses`: stated only for a plain table and plain column names.
- `SqlText.UpdateSqlParses`: stated only for a plain table, key and column names.
- `SqlText.DeleteSqlParses`: stated only for a plain table and a plain key name.
- `SqlText.SelectAllSqlParses`: stated only for a plain table name.
- `SqlText.InsertSqlInjective`: stated only for a plain table and plain column names.
- `SqliteObjects.InsertMatchesParameters`: stated only for a plain table and plain column names.
- `SqliteObjects.UpdateMatchesParameters`: stated only for a plain table and plain column names.
- `SqliteObjects.DeleteMatchesParameters`: stated only for a plain table and plain column names.
