/** The statement texts Save, Delete and GetAllElements send to the store
    (SQLiteFramework/SqliteObject.cs), and a reader for them that recovers the
    table, the bracketed column items or assignments, the placeholders and the key
    the text was built from. */
module SqlText {
  import opened Wrappers

  /** "[name]": a column name as the INSERT column list writes it. */
  function Bracketed(name: string): string {
    "[" + name + "]"
  }

  /** ":name": the parameter placeholder that stands for a column. */
  function Placeholder(name: string): string {
    ":" + name
  }

  /** "[name]=:name": one item of an UPDATE's SET list. */
  function Assignment(name: string): string {
    "[" + name + "]=:" + name
  }

  function BracketedAll(names: seq<string>): (r: seq<string>)
    ensures |r| == |names|
    ensures forall i :: 0 <= i < |names| ==> r[i] == Bracketed(names[i])
  {
    seq(|names|, i requires 0 <= i < |names| => Bracketed(names[i]))
  }

  function PlaceholderAll(names: seq<string>): (r: seq<string>)
    ensures |r| == |names|
    ensures forall i :: 0 <= i < |names| ==> r[i] == Placeholder(names[i])
  {
    seq(|names|, i requires 0 <= i < |names| => Placeholder(names[i]))
  }

  function AssignmentAll(names: seq<string>): (r: seq<string>)
    ensures |r| == |names|
    ensures forall i :: 0 <= i < |names| ==> r[i] == Assignment(names[i])
  {
    seq(|names|, i requires 0 <= i < |names| => Assignment(names[i]))
  }

  /** string.Join(",", items). */
  function Join(items: seq<string>): string
    decreases |items|
  {
    if |items| == 0 then ""
    else if |items| == 1 then items[0]
    else items[0] + "," + Join(items[1..])
  }

  // The builders nest their concatenations to the right, literal by literal, so that
  // the parse lemmas below can peel one known prefix off the text at a time.

  /** INSERT INTO [table] ([c1],[c2]) VALUES (:c1,:c2) */
  function InsertSql(table: string, names: seq<string>): string {
    "INSERT INTO [" + (table + ("] (" + (Join(BracketedAll(names)) + (") VALUES (" + (Join(PlaceholderAll(names)) + ")")))))
  }

  /** UPDATE [table] SET [c1]=:c1,[c2]=:c2 WHERE key=:key */
  function UpdateSql(table: string, names: seq<string>, key: string): string {
    "UPDATE [" + (table + ("] SET " + (Join(AssignmentAll(names)) + (" WHERE " + (key + ("=:" + key))))))
  }

  /** DELETE FROM table WHERE key=:key (the table name is not bracketed). */
  function DeleteSql(table: string, key: string): string {
    "DELETE FROM " + (table + (" WHERE " + (key + ("=:" + key))))
  }

  /** select * from [table] */
  function SelectAllSql(table: string): string {
    "select * from [" + (table + "]")
  }

  // ---------------------------------------------------------------------------
  // Reading a statement back. The reader is the partner of the builders above:
  // for names that are plain identifiers it recovers the table, the "[c]" items or
  // "[c]=:c" assignments, the ":c" placeholders and the key; InsertSqlInjective then
  // gives back the bare column names of an INSERT.

  /** The characters the statement texts use as delimiters. */
  const Delimiters: string := "[](),=: "

  /** A table, column or key name that contains none of the delimiters. */
  predicate Plain(name: string) {
    forall i :: 0 <= i < |name| ==> name[i] !in Delimiters
  }

  /** The rest of s after the literal prefix lit, if s starts with it. */
  function Expect(lit: string, s: string): Option<string> {
    if |lit| <= |s| && s[..|lit|] == lit then Some(s[|lit|..]) else None
  }

  /** s split at the first occurrence of c: the text before it and the text after it. */
  function Until(c: char, s: string): (r: Option<(string, string)>)
    ensures r.Some? ==> |r.value.1| < |s|
    decreases |s|
  {
    if s == [] then None
    else if s[0] == c then Some(([], s[1..]))
    else
      match Until(c, s[1..])
      case None => None
      case Some((before, after)) => Some(([s[0]] + before, after))
  }

  /** s cut at every ','. */
  function Split(s: string): (r: seq<string>)
    ensures |r| > 0
    decreases |s|
  {
    match Until(',', s)
    case None => [s]
    case Some((before, after)) => [before] + Split(after)
  }

  /** A comma-separated list: the empty text is the empty list. */
  function SplitList(s: string): seq<string> {
    if s == "" then [] else Split(s)
  }

  datatype InsertParts = InsertParts(table: string, columns: seq<string>, values: seq<string>)
  datatype UpdateParts = UpdateParts(table: string, assignments: seq<string>, key: string, keyPlaceholder: string)
  datatype DeleteParts = DeleteParts(table: string, key: string, keyPlaceholder: string)

  function ParseInsert(s: string): Option<InsertParts> {
    var s1 :- Expect("INSERT INTO [", s);
    var cut1 :- Until(']', s1);
    var s2 :- Expect(" (", cut1.1);
    var cut2 :- Until(')', s2);
    var s3 :- Expect(" VALUES (", cut2.1);
    var cut3 :- Until(')', s3);
    if cut3.1 != "" then None
    else Some(InsertParts(cut1.0, SplitList(cut2.0), SplitList(cut3.0)))
  }

  /** "WHERE key=:placeholder", the condition UPDATE and DELETE end with. */
  function ParseWhere(s: string): Option<(string, string)> {
    var s1 :- Expect("WHERE ", s);
    var cut :- Until('=', s1);
    var s2 :- Expect(":", cut.1);
    Some((cut.0, s2))
  }

  function ParseUpdate(s: string): Option<UpdateParts> {
    var s1 :- Expect("UPDATE [", s);
    var cut1 :- Until(']', s1);
    var s2 :- Expect(" SET ", cut1.1);
    var cut2 :- Until(' ', s2);
    var condition :- ParseWhere(cut2.1);
    Some(UpdateParts(cut1.0, SplitList(cut2.0), condition.0, condition.1))
  }

  function ParseDelete(s: string): Option<DeleteParts> {
    var s1 :- Expect("DELETE FROM ", s);
    var cut :- Until(' ', s1);
    var condition :- ParseWhere(cut.1);
    Some(DeleteParts(cut.0, condition.0, condition.1))
  }

  function ParseSelectAll(s: string): Option<string> {
    var s1 :- Expect("select * from [", s);
    var cut :- Until(']', s1);
    if cut.1 != "" then None else Some(cut.0)
  }

  // ---------------------------------------------------------------------------
  // Lemmas about the reader

  lemma {:induction false} UntilFirst(c: char, before: string, after: string)
    requires c !in before
    ensures Until(c, before + [c] + after) == Some((before, after))
    decreases |before|
  {
    var s := before + [c] + after;
    if before == [] {
      assert s == [c] + after;
    } else {
      assert s[0] == before[0];
      assert s[1..] == before[1..] + [c] + after;
      UntilFirst(c, before[1..], after);
      assert [before[0]] + before[1..] == before;
    }
  }

  lemma {:induction false} UntilAbsent(c: char, s: string)
    requires c !in s
    ensures Until(c, s) == None
    decreases |s|
  {
    if s != [] {
      UntilAbsent(c, s[1..]);
    }
  }

  /** A character that is neither the separator nor in any item is not in the join. */
  lemma {:induction false} JoinAvoids(c: char, items: seq<string>)
    requires c != ','
    requires forall i :: 0 <= i < |items| ==> c !in items[i]
    ensures c !in Join(items)
    decreases |items|
  {
    if |items| > 1 {
      JoinAvoids(c, items[1..]);
    }
  }

  lemma {:induction false} SplitJoin(items: seq<string>)
    requires |items| > 0
    requires forall i :: 0 <= i < |items| ==> ',' !in items[i]
    ensures Split(Join(items)) == items
    decreases |items|
  {
    if |items| == 1 {
      assert Join(items) == items[0];
      UntilAbsent(',', items[0]);
    } else {
      var rest := items[1..];
      assert Join(items) == items[0] + [','] + Join(rest);
      UntilFirst(',', items[0], Join(rest));
      SplitJoin(rest);
      assert [items[0]] + rest == items;
    }
  }

  /** The reader's list splitting undoes string.Join for non-empty, comma-free items. */
  lemma SplitListJoin(items: seq<string>)
    requires forall i :: 0 <= i < |items| ==> items[i] != "" && ',' !in items[i]
    ensures SplitList(Join(items)) == items
  {
    if |items| > 0 {
      SplitJoin(items);
      if |items| > 1 {
        assert Join(items) == items[0] + [','] + Join(items[1..]);
      }
    }
  }

  lemma ExpectPrefix(lit: string, rest: string)
    ensures Expect(lit, lit + rest) == Some(rest)
  {
  }

  /** Cutting at c where the text continues with a literal that starts with c. */
  lemma CutAt(c: char, before: string, lit: string, tail: string, rest: string)
    requires c !in before && lit == [c] + tail
    ensures Until(c, before + (lit + rest)) == Some((before, tail + rest))
  {
    assert before + (lit + rest) == before + [c] + (tail + rest);
    UntilFirst(c, before, tail + rest);
  }

  lemma PlainAvoids(name: string, c: char)
    requires Plain(name) && c in Delimiters
    ensures c !in name
  {
  }

  /** Every item of a list built from plain names is itself free of c. */
  lemma PlainItemsAvoid(names: seq<string>, c: char)
    requires forall i :: 0 <= i < |names| ==> Plain(names[i])
    requires c in Delimiters && c != '[' && c != ']' && c != ':' && c != '='
    ensures forall i :: 0 <= i < |names| ==> c !in Bracketed(names[i]) && c !in Placeholder(names[i]) && c !in Assignment(names[i])
  {
  }

  /** The INSERT text reads back as its table, the bracketed column names and the
      placeholders: one of each per column, in column order. */
  lemma InsertSqlParses(table: string, names: seq<string>)
    requires Plain(table)
    requires forall i :: 0 <= i < |names| ==> Plain(names[i])
    ensures ParseInsert(InsertSql(table, names))
         == Some(InsertParts(table, BracketedAll(names), PlaceholderAll(names)))
  {
    var columns, values := BracketedAll(names), PlaceholderAll(names);
    var j1, j2 := Join(columns), Join(values);
    var s3 := j2 + ")";
    var s2 := j1 + (") VALUES (" + s3);
    var s1 := table + ("] (" + s2);
    ExpectPrefix("INSERT INTO [", s1);
    PlainAvoids(table, ']');
    CutAt(']', table, "] (", " (", s2);
    ExpectPrefix(" (", s2);
    assert ')' !in j1 && ')' !in j2 by {
      PlainItemsAvoid(names, ')');
      JoinAvoids(')', columns);
      JoinAvoids(')', values);
    }
    CutAt(')', j1, ") VALUES (", " VALUES (", s3);
    ExpectPrefix(" VALUES (", s3);
    assert s3 == j2 + (")" + "");
    CutAt(')', j2, ")", "", "");
    assert SplitList(j1) == columns && SplitList(j2) == values by {
      PlainItemsAvoid(names, ',');
      SplitListJoin(columns);
      SplitListJoin(values);
    }
  }

  lemma WhereParses(key: string)
    requires Plain(key)
    ensures ParseWhere("WHERE " + (key + ("=:" + key))) == Some((key, key))
  {
    ExpectPrefix("WHERE ", key + ("=:" + key));
    PlainAvoids(key, '=');
    CutAt('=', key, "=:", ":", key);
    ExpectPrefix(":", key);
  }

  /** The UPDATE text reads back as its table, one "[c]=:c" item per column in
      column order, and the key name both before and after the "=:". */
  lemma UpdateSqlParses(table: string, names: seq<string>, key: string)
    requires Plain(table) && Plain(key)
    requires forall i :: 0 <= i < |names| ==> Plain(names[i])
    ensures ParseUpdate(UpdateSql(table, names, key))
         == Some(UpdateParts(table, AssignmentAll(names), key, key))
  {
    var items := AssignmentAll(names);
    var j := Join(items);
    var condition := key + ("=:" + key);
    var s3 := j + (" WHERE " + condition);
    var s1 := table + ("] SET " + s3);
    ExpectPrefix("UPDATE [", s1);
    PlainAvoids(table, ']');
    CutAt(']', table, "] SET ", " SET ", s3);
    ExpectPrefix(" SET ", s3);
    assert ' ' !in j by {
      PlainItemsAvoid(names, ' ');
      JoinAvoids(' ', items);
    }
    CutAt(' ', j, " WHERE ", "WHERE ", condition);
    WhereParses(key);
    assert SplitList(j) == items by {
      PlainItemsAvoid(names, ',');
      SplitListJoin(items);
    }
  }

  /** The DELETE text reads back as its table and the key name on both sides of "=:". */
  lemma DeleteSqlParses(table: string, key: string)
    requires Plain(table) && Plain(key)
    ensures ParseDelete(DeleteSql(table, key)) == Some(DeleteParts(table, key, key))
  {
    var condition := key + ("=:" + key);
    ExpectPrefix("DELETE FROM ", table + (" WHERE " + condition));
    PlainAvoids(table, ' ');
    CutAt(' ', table, " WHERE ", "WHERE ", condition);
    WhereParses(key);
  }

  /** The select-all text reads back as its table. */
  lemma SelectAllSqlParses(table: string)
    requires Plain(table)
    ensures ParseSelectAll(SelectAllSql(table)) == Some(table)
  {
    ExpectPrefix("select * from [", table + "]");
    PlainAvoids(table, ']');
    assert table + "]" == table + ("]" + "");
    CutAt(']', table, "]", "", "");
  }

  lemma BracketedInjective(a: string, b: string)
    requires Bracketed(a) == Bracketed(b)
    ensures a == b
  {
    assert a == Bracketed(a)[1..|Bracketed(a)| - 1];
    assert b == Bracketed(b)[1..|Bracketed(b)| - 1];
  }

  /** Two INSERT texts over plain names are equal only when they insert the same
      columns, in the same order, into the same table. */
  lemma InsertSqlInjective(t1: string, n1: seq<string>, t2: string, n2: seq<string>)
    requires Plain(t1) && Plain(t2)
    requires forall i :: 0 <= i < |n1| ==> Plain(n1[i])
    requires forall i :: 0 <= i < |n2| ==> Plain(n2[i])
    requires InsertSql(t1, n1) == InsertSql(t2, n2)
    ensures t1 == t2 && n1 == n2
  {
    InsertSqlParses(t1, n1);
    InsertSqlParses(t2, n2);
    assert BracketedAll(n1) == BracketedAll(n2);
    forall i | 0 <= i < |n1|
      ensures n1[i] == n2[i]
    {
      assert BracketedAll(n1)[i] == BracketedAll(n2)[i];
      BracketedInjective(n1[i], n2[i]);
    }
  }
}
