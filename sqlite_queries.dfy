/** The statement text and parameter tuples that the SQLite manager hands to
    the database for `create_table`, `add`, `delete` and `select`. A Python
    dict is a sequence of key/value pairs in insertion order. */
module SqliteQueries {
  import opened Wrappers

  /** A statement as executed: query text and the values bound to its `?` placeholders. */
  datatype Statement<V> = Statement(query: string, params: seq<V>)

  /** A dict in insertion order. */
  type Dict<V> = seq<(string, V)>

  /** The indentation the triple-quoted statements carry on each line. */
  const Indent := "            "

  /** `sep.join(parts)`. */
  function Join(sep: string, parts: seq<string>): string
    decreases |parts|
  {
    if |parts| == 0 then ""
    else if |parts| == 1 then parts[0]
    else parts[0] + sep + Join(sep, parts[1..])
  }

  /** `d.keys()`, in order. */
  function Keys<V>(d: Dict<V>): (ks: seq<string>)
    ensures |ks| == |d| && forall i :: 0 <= i < |d| ==> ks[i] == d[i].0
  {
    seq(|d|, i requires 0 <= i < |d| => d[i].0)
  }

  /** `tuple(d.values())`, in the same order as the keys. */
  function Values<V>(d: Dict<V>): (vs: seq<V>)
    ensures |vs| == |d| && forall i :: 0 <= i < |d| ==> vs[i] == d[i].1
  {
    seq(|d|, i requires 0 <= i < |d| => d[i].1)
  }

  /** The pairs of two equally long sequences. */
  function Zip<A, B>(xs: seq<A>, ys: seq<B>): (zs: seq<(A, B)>)
    requires |xs| == |ys|
  {
    seq(|xs|, i requires 0 <= i < |xs| => (xs[i], ys[i]))
  }

  /** `f"{column_name} {data_type}"` for every entry of the column dict. */
  function ColumnsWithTypes(columns: Dict<string>): seq<string> {
    seq(|columns|, i requires 0 <= i < |columns| => columns[i].0 + " " + columns[i].1)
  }

  /** `", ".join("?" * n)`: n question marks separated by commas. */
  function Placeholders(n: nat): string {
    Join(", ", seq(n, _ => "?"))
  }

  /** `f"{column} = ?"` for every criteria key. */
  function ConditionParts(keys: seq<string>): seq<string> {
    seq(|keys|, i requires 0 <= i < |keys| => keys[i] + " = ?")
  }

  /** The criteria joined by `" AND "`. */
  function Conditions(keys: seq<string>): string {
    Join(" AND ", ConditionParts(keys))
  }

  // The fixed text of the three triple-quoted statements, piece by piece.
  const CreateHead := "\n" + Indent + "CREATE TABLE IF NOT EXISTS "
  const CreateOpen := "\n" + Indent + "("
  const CreateClose := ");\n" + Indent
  const InsertHead := "\n" + Indent + "INSERT INTO "
  const InsertValues := ")\n" + Indent + "VALUES ("
  const InsertClose := ")\n" + Indent + ";\n" + Indent
  const DeleteHead := "\n" + Indent + "DELETE FROM "
  const DeleteWhere := "\n" + Indent + "WHERE "
  const DeleteClose := "\n" + Indent + ";\n" + Indent
  const SelectHead := "SELECT * FROM "

  /** `create_table(table_name, columns)`: no parameters are bound. */
  function CreateTable<V>(tableName: string, columns: Dict<string>): (s: Statement<V>)
    ensures s.params == []
  {
    Statement(CreateHead + tableName + CreateOpen + Join(", ", ColumnsWithTypes(columns)) + CreateClose, [])
  }

  /** `add(table_name, data)`: the values are bound in key order. */
  function Add<V>(tableName: string, data: Dict<V>): (s: Statement<V>)
    ensures s.params == Values(data)
  {
    Statement(InsertHead + tableName + " (" + Join(", ", Keys(data)) + InsertValues + Placeholders(|data|) + InsertClose,
              Values(data))
  }

  /** `delete(table_name, criteria)`. With no criteria the WHERE clause is left
      empty, as the source writes it. */
  function Delete<V>(tableName: string, criteria: Dict<V>): (s: Statement<V>)
    ensures s.params == Values(criteria)
  {
    Statement(DeleteHead + tableName + DeleteWhere + Conditions(Keys(criteria)) + DeleteClose, Values(criteria))
  }

  /** The fixed text carries no placeholder of its own. */
  lemma TemplateIsSafe()
    ensures SafeName(CreateHead) && SafeName(CreateOpen) && SafeName(CreateClose)
    ensures SafeName(InsertHead) && SafeName(" (") && SafeName(InsertValues) && SafeName(InsertClose)
    ensures SafeName(DeleteHead) && SafeName(DeleteWhere) && SafeName(DeleteClose)
    ensures SafeName(SelectHead) && SafeName(" WHERE ") && SafeName(" ORDER BY ")
    ensures SafeName(", ") && SafeName(" AND ") && SafeName(" ") && SafeName(" = ")
  {
  }

  /** `criteria or {}`. */
  function CriteriaOrEmpty<V>(criteria: Option<Dict<V>>): Dict<V> {
    if criteria.Some? then criteria.value else []
  }

  /** Whether `order_by` is truthy: present and not the empty string. */
  predicate Truthy(orderBy: Option<string>) {
    orderBy.Some? && orderBy.value != ""
  }

  /** The ORDER BY suffix of a select. */
  function OrderByClause(orderBy: Option<string>): string {
    if Truthy(orderBy) then " ORDER BY " + orderBy.value else ""
  }

  /** `select(table_name, criteria, order_by)`: the query starts with the table
      scan, then the WHERE clause when there are criteria, then ORDER BY
      when `order_by` is truthy. */
  method Select<V>(tableName: string, criteria: Option<Dict<V>>, orderBy: Option<string>)
    returns (s: Statement<V>)
    ensures var head := SelectHead + tableName;
      |head| <= |s.query| && s.query[..|head|] == head
    ensures var crit := CriteriaOrEmpty(criteria);
      |crit| == 0 ==> s.params == [] && s.query == SelectHead + tableName + OrderByClause(orderBy)
    ensures var crit := CriteriaOrEmpty(criteria);
      |crit| > 0 ==>
        s.params == Values(crit) &&
        s.query == SelectHead + tableName + " WHERE " + Conditions(Keys(crit)) + OrderByClause(orderBy)
    ensures (SafeName(tableName) && AllSafe(Keys(CriteriaOrEmpty(criteria))) &&
             (orderBy.Some? ==> SafeName(orderBy.value))) ==>
      CountMarks(s.query) == |s.params|
  {
    var crit := CriteriaOrEmpty(criteria);
    var query := SelectHead + tableName;
    ghost var head := query;
    if |crit| > 0 {
      var selectCriteria := Conditions(Keys(crit));
      query := query + " WHERE " + selectCriteria;
    }
    ghost var beforeOrder := query;
    if Truthy(orderBy) {
      query := query + " ORDER BY " + orderBy.value;
      Associative(beforeOrder, " ORDER BY ", orderBy.value);
    }
    assert query == beforeOrder + OrderByClause(orderBy);
    s := Statement(query, Values(crit));
    ghost var rest := if |crit| > 0 then " WHERE " + Conditions(Keys(crit)) + OrderByClause(orderBy) else OrderByClause(orderBy);
    if |crit| > 0 {
      Associative(head + " WHERE ", Conditions(Keys(crit)), OrderByClause(orderBy));
      Associative(head, " WHERE ", Conditions(Keys(crit)) + OrderByClause(orderBy));
      Associative(" WHERE ", Conditions(Keys(crit)), OrderByClause(orderBy));
    }
    assert s.query == head + rest;
    PrefixOfConcat(head, rest);
    if SafeName(tableName) && AllSafe(Keys(crit)) && (orderBy.Some? ==> SafeName(orderBy.value)) {
      SelectMarks(tableName, crit, orderBy);
    }
  }

  lemma Associative(a: string, b: string, c: string)
    ensures a + b + c == a + (b + c)
  {
  }

  lemma PrefixOfConcat(a: string, b: string)
    ensures (a + b)[..|a|] == a
  {
  }

  /** A select holds one mark per criteria value. */
  lemma SelectMarks<V>(tableName: string, crit: Dict<V>, orderBy: Option<string>)
    requires SafeName(tableName) && AllSafe(Keys(crit)) && (orderBy.Some? ==> SafeName(orderBy.value))
    ensures CountMarks(SelectHead + tableName +
      (if |crit| > 0 then " WHERE " + Conditions(Keys(crit)) + OrderByClause(orderBy) else OrderByClause(orderBy)))
      == |crit|
  {
    var order := OrderByClause(orderBy);
    var head := SelectHead + tableName;
    OrderByHasNoMarks(orderBy);
    HeadHasNoMarks(tableName);
    if |crit| > 0 {
      var conds := Conditions(Keys(crit));
      ConditionsCount(Keys(crit));
      WhereMarks(conds);
      CountConcat(" WHERE " + conds, order);
      CountConcat(head, " WHERE " + conds + order);
    } else {
      CountConcat(head, order);
    }
  }

  lemma OrderByHasNoMarks(orderBy: Option<string>)
    requires orderBy.Some? ==> SafeName(orderBy.value)
    ensures CountMarks(OrderByClause(orderBy)) == 0
  {
    if Truthy(orderBy) {
      TemplateIsSafe();
      SafeHasNoMarks(" ORDER BY ");
      SafeHasNoMarks(orderBy.value);
      CountConcat(" ORDER BY ", orderBy.value);
    }
  }

  lemma HeadHasNoMarks(tableName: string)
    requires SafeName(tableName)
    ensures CountMarks(SelectHead + tableName) == 0
  {
    TemplateIsSafe();
    SafeHasNoMarks(SelectHead);
    SafeHasNoMarks(tableName);
    CountConcat(SelectHead, tableName);
  }

  lemma WhereMarks(conds: string)
    ensures CountMarks(" WHERE " + conds) == CountMarks(conds)
  {
    TemplateIsSafe();
    SafeHasNoMarks(" WHERE ");
    CountConcat(" WHERE ", conds);
  }

  // ---------------------------------------------------------------------------
  // Placeholder counting: the number of `?` in a statement equals the number
  // of parameters bound to it, whenever the names spliced in carry no `?`.

  /** The number of `?` marks in a string. */
  function CountMarks(s: string): nat {
    if |s| == 0 then 0 else (if s[0] == '?' then 1 else 0) + CountMarks(s[1..])
  }

  lemma {:induction false} CountConcat(a: string, b: string)
    ensures CountMarks(a + b) == CountMarks(a) + CountMarks(b)
  {
    if |a| == 0 {
      assert a + b == b;
    } else {
      assert (a + b)[1..] == a[1..] + b;
      CountConcat(a[1..], b);
    }
  }

  /** A string without `?` has no marks. */
  lemma {:induction false} SafeHasNoMarks(s: string)
    requires SafeName(s)
    ensures CountMarks(s) == 0
  {
    if |s| > 0 {
      assert s[0] in s;
      assert forall c :: c in s[1..] ==> c in s;
      SafeHasNoMarks(s[1..]);
    }
  }

  /** The marks of five pieces put together. */
  lemma Count5(a: string, b: string, c: string, d: string, e: string)
    ensures CountMarks(a + b + c + d + e) == CountMarks(a) + CountMarks(b) + CountMarks(c) + CountMarks(d) + CountMarks(e)
  {
    CountConcat(a, b);
    CountConcat(a + b, c);
    CountConcat(a + b + c, d);
    CountConcat(a + b + c + d, e);
  }

  /** A name spliced into a statement that holds no `?` of its own. */
  predicate SafeName(s: string) {
    '?' !in s
  }

  predicate AllSafe(names: seq<string>) {
    forall i :: 0 <= i < |names| ==> SafeName(names[i])
  }

  /** The total number of marks in a sequence of parts. */
  function SumMarks(parts: seq<string>): nat {
    if |parts| == 0 then 0 else CountMarks(parts[0]) + SumMarks(parts[1..])
  }

  /** Joining adds the marks of the separator between every two parts. */
  lemma {:induction false} JoinCount(sep: string, parts: seq<string>)
    requires SafeName(sep)
    ensures CountMarks(Join(sep, parts)) == SumMarks(parts)
    decreases |parts|
  {
    if |parts| == 1 {
      assert parts[1..] == [];
    } else if |parts| > 1 {
      JoinCount(sep, parts[1..]);
      SafeHasNoMarks(sep);
      CountConcat(parts[0], sep);
      CountConcat(parts[0] + sep, Join(sep, parts[1..]));
    }
  }

  /** `", ".join("?" * n)` holds exactly n marks. */
  lemma PlaceholdersCount(n: nat)
    ensures CountMarks(Placeholders(n)) == n
  {
    JoinCount(", ", seq(n, _ => "?"));
    MarksOfQuestionMarks(n);
  }

  lemma {:induction false} MarksOfQuestionMarks(n: nat)
    ensures SumMarks(seq(n, _ => "?")) == n
  {
    if n > 0 {
      assert seq(n, _ => "?")[1..] == seq(n - 1, _ => "?");
      MarksOfQuestionMarks(n - 1);
      assert CountMarks("?") == 1;
    }
  }

  /** The WHERE conditions hold one mark per key. */
  lemma ConditionsCount(keys: seq<string>)
    requires AllSafe(keys)
    ensures CountMarks(Conditions(keys)) == |keys|
  {
    JoinCount(" AND ", ConditionParts(keys));
    ConditionMarks(keys);
  }

  lemma {:induction false} ConditionMarks(keys: seq<string>)
    requires AllSafe(keys)
    ensures SumMarks(ConditionParts(keys)) == |keys|
  {
    if |keys| > 0 {
      assert ConditionParts(keys)[1..] == ConditionParts(keys[1..]);
      ConditionMarks(keys[1..]);
      assert ConditionParts(keys)[0] == keys[0] + " = " + "?";
      TemplateIsSafe();
      SafeHasNoMarks(keys[0]);
      SafeHasNoMarks(" = ");
      CountConcat(keys[0], " = ");
      CountConcat(keys[0] + " = ", "?");
      assert CountMarks("?") == 1;
    }
  }

  lemma {:induction false} ColumnsWithTypesCount(columns: Dict<string>)
    requires forall i :: 0 <= i < |columns| ==> SafeName(columns[i].0) && SafeName(columns[i].1)
    ensures SumMarks(ColumnsWithTypes(columns)) == 0
  {
    if |columns| > 0 {
      assert ColumnsWithTypes(columns)[1..] == ColumnsWithTypes(columns[1..]);
      ColumnsWithTypesCount(columns[1..]);
      assert ColumnsWithTypes(columns)[0] == columns[0].0 + " " + columns[0].1;
      TemplateIsSafe();
      SafeHasNoMarks(columns[0].0);
      SafeHasNoMarks(" ");
      SafeHasNoMarks(columns[0].1);
      CountConcat(columns[0].0, " ");
      CountConcat(columns[0].0 + " ", columns[0].1);
    }
  }

  lemma {:induction false} SafeSum(names: seq<string>)
    requires AllSafe(names)
    ensures SumMarks(names) == 0
  {
    if |names| > 0 {
      SafeHasNoMarks(names[0]);
      SafeSum(names[1..]);
    }
  }

  // ---------------------------------------------------------------------------
  // Reading the column list of `create_table` back.

  predicate NoComma(s: string) {
    forall k :: 0 <= k < |s| ==> s[k] != ','
  }

  predicate NoSpace(s: string) {
    forall k :: 0 <= k < |s| ==> s[k] != ' '
  }

  /** The index of the first `", "` in s, or |s| when there is none. */
  function SeparatorAt(s: string): (i: nat)
    ensures i <= |s|
    ensures i < |s| ==> i + 2 <= |s| && s[i] == ',' && s[i + 1] == ' '
    decreases |s|
  {
    if |s| < 2 then |s|
    else if s[0] == ',' && s[1] == ' ' then 0
    else 1 + SeparatorAt(s[1..])
  }

  /** `s.split(", ")`. */
  function SplitOnComma(s: string): (parts: seq<string>)
    ensures |parts| >= 1
    decreases |s|
  {
    var i := SeparatorAt(s);
    if i == |s| then [s] else [s[..i]] + SplitOnComma(s[i + 2..])
  }

  /** The index of the first space in s, or |s| when there is none. */
  function SpaceAt(s: string): (i: nat)
    ensures i <= |s|
    ensures i < |s| ==> s[i] == ' '
  {
    if |s| == 0 then 0
    else if s[0] == ' ' then 0
    else 1 + SpaceAt(s[1..])
  }

  /** `entry.split(" ", 1)` for one column definition: the name, then the type. */
  function ParseColumn(entry: string): (string, string) {
    var i := SpaceAt(entry);
    if i == |entry| then (entry, "") else (entry[..i], entry[i + 1..])
  }

  lemma {:induction false} SeparatorAfter(p: string, rest: string)
    requires NoComma(p)
    ensures SeparatorAt(p + ", " + rest) == |p|
  {
    var s := p + ", " + rest;
    if |p| > 0 {
      assert s[1..] == p[1..] + ", " + rest;
      SeparatorAfter(p[1..], rest);
    }
  }

  lemma {:induction false} NoSeparator(p: string)
    requires NoComma(p)
    ensures SeparatorAt(p) == |p|
  {
    if |p| >= 2 {
      NoSeparator(p[1..]);
    }
  }

  /** Splitting the joined parts on `", "` gives them back when no part holds a comma. */
  lemma {:induction false} SplitJoin(parts: seq<string>)
    requires |parts| >= 1
    requires forall i :: 0 <= i < |parts| ==> NoComma(parts[i])
    ensures SplitOnComma(Join(", ", parts)) == parts
  {
    if |parts| == 1 {
      NoSeparator(parts[0]);
    } else {
      var p, tail := parts[0], parts[1..];
      var rest := Join(", ", tail);
      assert Join(", ", parts) == p + ", " + rest;
      SplitStep(p, rest);
      SplitJoin(tail);
      assert parts == [p] + tail;
    }
  }

  /** A part free of commas is split off at the separator that follows it. */
  lemma SplitStep(p: string, rest: string)
    requires NoComma(p)
    ensures SplitOnComma(p + ", " + rest) == [p] + SplitOnComma(rest)
  {
    var s := p + ", " + rest;
    SeparatorAfter(p, rest);
    assert s[..|p|] == p && s[|p| + 2..] == rest;
  }

  lemma {:induction false} SpaceAfter(name: string, rest: string)
    requires NoSpace(name)
    ensures SpaceAt(name + " " + rest) == |name|
  {
    if |name| > 0 {
      assert (name + " " + rest)[1..] == name[1..] + " " + rest;
      SpaceAfter(name[1..], rest);
    }
  }

  /** A definition splits back into its name and type when the name has no space. */
  lemma ParseColumnEntry(name: string, dataType: string)
    requires NoSpace(name)
    ensures ParseColumn(name + " " + dataType) == (name, dataType)
  {
    var e := name + " " + dataType;
    SpaceAfter(name, dataType);
    assert e[..|name|] == name && e[|name| + 1..] == dataType;
  }

  // ---------------------------------------------------------------------------
  // Properties of the statements.

  /** The column list of `create_table` reads back as the dict: between the
      parentheses after the table name, splitting on `", "` gives one
      definition per entry in dict order, and each splits at its first space
      into the entry's name and type. This holds when no name or type holds
      a comma and no name holds a space; an empty dict leaves the list empty. */
  lemma CreateTableColumns<V>(tableName: string, columns: Dict<string>)
    requires forall i :: 0 <= i < |columns| ==>
      NoComma(columns[i].0) && NoSpace(columns[i].0) && NoComma(columns[i].1)
    ensures var q := CreateTable<V>(tableName, columns).query;
      var head := CreateHead + tableName + CreateOpen;
      |head| + |CreateClose| <= |q| && q[..|head|] == head && q[|q| - |CreateClose|..] == CreateClose &&
      var list := SplitOnComma(q[|head|..|q| - |CreateClose|]);
      (|columns| == 0 ==> list == [""]) &&
      (|columns| > 0 ==> |list| == |columns| && forall i :: 0 <= i < |columns| ==> ParseColumn(list[i]) == columns[i])
  {
    var q := CreateTable<V>(tableName, columns).query;
    var head := CreateHead + tableName + CreateOpen;
    var defs := ColumnsWithTypes(columns);
    var inner := Join(", ", defs);
    assert q == head + inner + CreateClose;
    assert q[..|head|] == head && q[|q| - |CreateClose|..] == CreateClose;
    assert q[|head|..|q| - |CreateClose|] == inner;
    if |columns| > 0 {
      forall i | 0 <= i < |defs| ensures NoComma(defs[i]) {
        assert defs[i] == columns[i].0 + " " + columns[i].1;
      }
      SplitJoin(defs);
      forall i | 0 <= i < |columns| ensures ParseColumn(defs[i]) == columns[i] {
        ParseColumnEntry(columns[i].0, columns[i].1);
      }
    }
  }

  /** A `create_table` statement has no placeholder, matching its empty parameters. */
  lemma CreateTableHasNoMarks<V>(tableName: string, columns: Dict<string>)
    requires SafeName(tableName)
    requires forall i :: 0 <= i < |columns| ==> SafeName(columns[i].0) && SafeName(columns[i].1)
    ensures var s: Statement<V> := CreateTable(tableName, columns);
      CountMarks(s.query) == |s.params| == 0
  {
    TemplateIsSafe();
    var cols := Join(", ", ColumnsWithTypes(columns));
    JoinCount(", ", ColumnsWithTypes(columns));
    ColumnsWithTypesCount(columns);
    SafeHasNoMarks(CreateHead);
    SafeHasNoMarks(tableName);
    SafeHasNoMarks(CreateOpen);
    SafeHasNoMarks(CreateClose);
    Count5(CreateHead, tableName, CreateOpen, cols, CreateClose);
  }

  /** In `add`, the i-th value is bound to the i-th column: names and values
      come from the same dict in the same order, and pairing them again gives
      the dict back. */
  lemma AddBindsByPosition<V>(tableName: string, data: Dict<V>)
    ensures var s := Add(tableName, data);
      |Keys(data)| == |s.params| == |data| && Zip(Keys(data), s.params) == data
  {
  }

  /** In `add`, the placeholder list holds one `?` per column, so the query
      holds exactly as many marks as parameters. */
  lemma AddMarksMatchParams<V>(tableName: string, data: Dict<V>)
    requires SafeName(tableName) && AllSafe(Keys(data))
    ensures var s := Add(tableName, data);
      CountMarks(Placeholders(|data|)) == |data| && CountMarks(s.query) == |s.params|
  {
    TemplateIsSafe();
    var names := Join(", ", Keys(data));
    var marks := Placeholders(|data|);
    PlaceholdersCount(|data|);
    JoinCount(", ", Keys(data));
    SafeSum(Keys(data));
    SafeHasNoMarks(InsertHead);
    SafeHasNoMarks(tableName);
    SafeHasNoMarks(" (");
    SafeHasNoMarks(InsertValues);
    SafeHasNoMarks(InsertClose);
    Count5(InsertHead, tableName, " (", names, InsertValues);
    CountConcat(InsertHead + tableName + " (" + names + InsertValues, marks);
    CountConcat(InsertHead + tableName + " (" + names + InsertValues + marks, InsertClose);
  }

  /** The WHERE clause of `delete` is `"col = ?"` per key joined by `" AND "`,
      with the criteria values bound in the same order, one mark per value. */
  lemma DeleteConditions<V>(tableName: string, criteria: Dict<V>)
    requires SafeName(tableName) && AllSafe(Keys(criteria))
    ensures var s := Delete(tableName, criteria);
      var parts := ConditionParts(Keys(criteria));
      |parts| == |s.params| == |criteria| &&
      (forall i :: 0 <= i < |criteria| ==> parts[i] == criteria[i].0 + " = ?" && s.params[i] == criteria[i].1) &&
      CountMarks(s.query) == |s.params|
  {
    TemplateIsSafe();
    ConditionsCount(Keys(criteria));
    SafeHasNoMarks(DeleteHead);
    SafeHasNoMarks(tableName);
    SafeHasNoMarks(DeleteWhere);
    SafeHasNoMarks(DeleteClose);
    Count5(DeleteHead, tableName, DeleteWhere, Conditions(Keys(criteria)), DeleteClose);
  }
}
