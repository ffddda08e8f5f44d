/** The statements that the migration compiler reads and writes, and what running
    the written ones does to a table: its columns, its indexes and its rows. */
module Schema {
  import opened Wrappers
  import opened SqlText
  import opened CreateTableSql

  // ---------------------------------------------------------------- statements read

  datatype Kind = Permanent | Temporary | GlobalTemporary

  /** A statement of one table group.  `tail` holds the words after ON. */
  datatype Item =
    | CreateTable(kind: Kind, table: string, def: TableDef)
    | CreateIndex(unique: bool, index: string, table: string, tail: seq<string>)
    | LoadDictionary(table: string)

  function IndexWords(i: Item): seq<string>
    requires i.CreateIndex?
  {
    (if i.unique then ["CREATE", "UNIQUE", "INDEX"] else ["CREATE", "INDEX"]) + [i.index, "ON"] + i.tail
  }

  predicate SameDef(a: TableDef, b: TableDef) {
    SameWords(Split(a.pre), Split(b.pre))
    && |a.items| == |b.items| && Extends(a.items, b.items)
    && SameWords(Split(a.post), Split(b.post))
  }

  /** Equal up to letter case and blanks. */
  predicate Same(a: Item, b: Item) {
    match (a, b)
    case (CreateTable(_, _, d), CreateTable(_, _, e)) => SameDef(d, e)
    case (CreateIndex(_, _, _, _), CreateIndex(_, _, _, _)) => SameWords(IndexWords(a), IndexWords(b))
    case (LoadDictionary(t), LoadDictionary(u)) => Key(t) == Key(u)
    case _ => false
  }

  // ------------------------------------------------------------- statements written

  datatype Condition = Everything | LengthPositive(column: string) | OneOf(columns: seq<string>, values: seq<string>)

  datatype Stmt =
    | MakeTable(table: string, columns: seq<seq<string>>)
    | DropTable(table: string)
    | AddColumn(table: string, column: seq<string>)
    | MakeIndex(table: string, index: string, words: seq<string>)
    | DropIndex(table: string, index: string)
    | SetColumn(table: string, name: string, value: string)
    | DeleteRows(table: string, where: Condition)
    | Commit

  // ------------------------------------------------------------------------ meaning

  datatype Value = Null | Text(text: string)
  type Row = map<string, Value>
  datatype Table = Table(columns: seq<seq<string>>, indexes: map<string, seq<string>>, rows: seq<Row>)
  datatype Db = Absent | Present(t: Table)

  function ColumnName(column: seq<string>): string {
    if column == [] then "" else Key(column[0])
  }

  function Names(columns: seq<seq<string>>): (names: seq<string>)
    ensures |names| == |columns|
    ensures forall i :: 0 <= i < |names| ==> names[i] == ColumnName(columns[i])
  {
    seq(|columns|, i requires 0 <= i < |columns| => ColumnName(columns[i]))
  }

  /** Text whose quotes and parentheses are closed; `quoted` and `depth` say what the text
      before it has left open. */
  predicate ClosedFrom(s: string, quoted: bool, depth: nat) {
    if s == "" then !quoted && depth == 0
    else if s[0] == '\'' then ClosedFrom(s[1..], !quoted, depth)
    else if quoted then ClosedFrom(s[1..], true, depth)
    else if s[0] == '(' then ClosedFrom(s[1..], false, depth + 1)
    else if s[0] == ')' then depth > 0 && ClosedFrom(s[1..], false, depth - 1)
    else ClosedFrom(s[1..], false, depth)
  }

  /** What the database can read as the value of an UPDATE. */
  predicate IsValue(s: string) {
    s != "" && ClosedFrom(s, false, 0)
  }

  function Eval(value: string): Value {
    if value == "NULL" then Null else Text(value)
  }

  /** The words that start another clause of a column. */
  const CLAUSES := ["DEFAULT", "COMMENT", "AUTO_INCREMENT", "COLLATE", "PRIMARY", "UNIQUE", "REFERENCES", "CHECK",
                    "WITH", "NOT", "NULL", "CONSTRAINT", "ON"]

  /** Where the expression that begins at word `a` ends: at the first word after it that
      starts another clause and is not inside a literal or parentheses. */
  function ClauseEnd(words: seq<string>, a: nat, e: nat): (end: nat)
    requires a < e <= |words|
    ensures e <= end <= |words|
    decreases |words| - e
  {
    if e == |words| then e
    else if Upper(words[e]) in CLAUSES && ClosedFrom(Join(words[a..e], " "), false, 0) then e
    else ClauseEnd(words, a, e + 1)
  }

  /** The expression after the word DEFAULT, as it is written; None without one. */
  function DefaultClause(column: seq<string>): (clause: Option<seq<string>>)
    ensures clause.Some? ==> clause.value != []
  {
    match WordIndex(UpperWords(column), "DEFAULT")
    case None => None
    case Some(k) => if k + 1 < |column| then Some(column[k + 1..ClauseEnd(column, k + 1, k + 2)]) else None
  }

  /** What a row holds in a column that it is not given a value for. */
  function DefaultValue(column: seq<string>): Value {
    match DefaultClause(column)
    case None => Null
    case Some(clause) =>
      var text := Join(clause, " ");
      if Upper(text) == "NULL" then Null else Text(text)
  }

  /** The words `a` and `b` stand behind the column's name at `k`, in any case, and not in a
      literal or in parentheses. */
  predicate ClauseAt(column: seq<string>, k: nat, a: string, b: string) {
    0 < k && k + 1 < |column| && Upper(column[k]) == a && Upper(column[k + 1]) == b
    && ClosedFrom(Join(column[..k], " "), false, 0)
  }

  predicate HasClause(column: seq<string>, a: string, b: string) {
    exists k :: 0 < k < |column| && ClauseAt(column, k, a, b)
  }

  /** No row may be null in the column. */
  predicate RefusesNull(column: seq<string>) {
    HasClause(column, "NOT", "NULL") || HasClause(column, "PRIMARY", "KEY")
  }

  /** The column may hold the value. */
  predicate Fits(v: Value, column: seq<string>) {
    v == Null ==> !RefusesNull(column)
  }

  function ColumnCalled(columns: seq<seq<string>>, name: string): seq<string>
    requires name in Names(columns)
  {
    columns[WordIndex(Names(columns), name).value]
  }

  function SetAll(rows: seq<Row>, name: string, v: Value): (r: seq<Row>)
    ensures |r| == |rows|
    ensures forall i :: 0 <= i < |r| ==> r[i] == rows[i][name := v]
  {
    seq(|rows|, i requires 0 <= i < |rows| => rows[i][name := v])
  }

  predicate Selected(row: Row, where: Condition) {
    match where
    case Everything => true
    case LengthPositive(c) => c in row && row[c].Text? && row[c].text != ""
    case OneOf(cs, vs) => exists c :: c in cs && c in row && row[c].Text? && row[c].text in vs
  }

  function Keep(rows: seq<Row>, where: Condition): seq<Row> {
    if rows == [] then []
    else (if Selected(rows[0], where) then [] else [rows[0]]) + Keep(rows[1..], where)
  }

  /** A table is written with or without its SYS. prefix. */
  predicate Refers(written: string, name: string) {
    written == name || written == "SYS." + name
  }

  /** One statement against the table called `name`; None when the database would
      refuse it: a table or index made twice or dropped when missing, a column
      added twice or set when missing, a value that does not end, null in a row of a
      column that refuses it, or another table altered.  A column that is added holds
      its default in every row already there. */
  function Exec(name: string, s: Stmt, db: Db): Option<Db> {
    match s
    case Commit => Some(db)
    case DeleteRows(table, where) =>
      if db.Present? && Refers(table, name) then Some(Present(db.t.(rows := Keep(db.t.rows, where)))) else Some(db)
    case MakeTable(table, columns) =>
      if db.Absent? && Refers(table, name) && Distinct(Names(columns)) then Some(Present(Table(columns, map[], [])))
      else None
    case DropTable(table) =>
      if db.Present? && Refers(table, name) then Some(Absent) else None
    case AddColumn(table, column) =>
      if db.Present? && Refers(table, name) && ColumnName(column) !in Names(db.t.columns)
         && (db.t.rows == [] || Fits(DefaultValue(column), column))
      then Some(Present(Table(db.t.columns + [column], db.t.indexes,
                              SetAll(db.t.rows, ColumnName(column), DefaultValue(column)))))
      else None
    case SetColumn(table, column, value) =>
      if db.Present? && Refers(table, name) && column in Names(db.t.columns) && IsValue(value)
         && (db.t.rows == [] || Fits(Eval(value), ColumnCalled(db.t.columns, column)))
      then Some(Present(db.t.(rows := SetAll(db.t.rows, column, Eval(value)))))
      else None
    case MakeIndex(table, index, words) =>
      if db.Present? && Refers(table, name) && index !in db.t.indexes then
        Some(Present(db.t.(indexes := db.t.indexes[index := words])))
      else None
    case DropIndex(table, index) =>
      if db.Present? && Refers(table, name) && index in db.t.indexes then
        Some(Present(db.t.(indexes := db.t.indexes - {index})))
      else None
  }

  function Run(name: string, script: seq<Stmt>, db: Db): Option<Db> {
    if script == [] then Some(db)
    else match Exec(name, script[0], db)
      case None => None
      case Some(next) => Run(name, script[1..], next)
  }

  lemma {:induction false} RunConcat(name: string, a: seq<Stmt>, b: seq<Stmt>, db: Db)
    ensures Run(name, a + b, db) ==
            match Run(name, a, db)
            case None => None
            case Some(mid) => Run(name, b, mid)
  {
    if a == [] {
      assert a + b == b;
    } else {
      assert (a + b)[0] == a[0] && (a + b)[1..] == a[1..] + b;
      match Exec(name, a[0], db)
      case None =>
      case Some(next) => RunConcat(name, a[1..], b, next);
    }
  }

  /** The last statement of a script runs on what the others leave. */
  lemma RunLast(name: string, script: seq<Stmt>, last: Stmt, db: Db)
    ensures Run(name, script + [last], db) ==
            match Run(name, script, db)
            case None => None
            case Some(mid) => Exec(name, last, mid)
  {
    RunConcat(name, script, [last], db);
    match Run(name, script, db)
    case None =>
    case Some(mid) => assert Run(name, [last], mid) == Exec(name, last, mid);
  }
}
