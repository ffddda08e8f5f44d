/** New tables, the values that existing rows receive, and going back. */
module MigrationRoundTrip {
  import opened Wrappers
  import opened SqlText
  import opened CreateTableSql
  import opened Schema
  import opened Migration
  import opened MigrationMeaning
  import opened Defaults

  // ------------------------------------------------------------------- new tables

  lemma {:induction false} CreatesNeedDistinct(name: string, sqls: seq<Item>, t: Table)
    requires Run(name, Creates(sqls), Present(t)).Some?
    ensures DistinctIndexes(sqls) && IndexNames(sqls) !! t.indexes.Keys
  {
    if sqls != [] {
      var rest := sqls[1..];
      IndexNamesStep(sqls);
      if sqls[0].CreateIndex? {
        var make := MakeIndex(sqls[0].table, sqls[0].index, IndexWords(sqls[0]));
        assert Creates(sqls)[0] == make && Creates(sqls)[1..] == Creates(rest);
        var mid := t.(indexes := t.indexes[sqls[0].index := IndexWords(sqls[0])]);
        CreatesNeedDistinct(name, rest, mid);
      } else {
        assert Creates(sqls) == Creates(rest);
        CreatesNeedDistinct(name, rest, t);
      }
      forall i, j | 0 <= i < j < |sqls| && sqls[i].CreateIndex? && sqls[j].CreateIndex?
        ensures sqls[i].index != sqls[j].index
      {
        assert rest[j - 1] == sqls[j];
        if i > 0 {
          assert rest[i - 1] == sqls[i];
        } else {
          assert rest[j - 1].index in IndexNames(rest);
        }
      }
    }
  }

  /** The script of a table that is new in a release runs on a database without it
      exactly when the release names no column and no index twice, and then makes
      the table that the release describes. */
  lemma NewTableScript(g: Group)
    requires ValidGroup(g)
    ensures Run(g.table, Upgrade(g, None).value.diff, Absent).Some? <==> Sound(g)
    ensures Sound(g) ==>
              var db := Run(g.table, Upgrade(g, None).value.diff, Absent).value;
              db.Present? && db.t.columns == Columns(g.sqls[0].def.items) && db.t.rows == []
              && IndexesExactly(db.t.indexes, g.sqls)
  {
    var make := MakeTable(g.table, Columns(g.sqls[0].def.items));
    var script := Creates(g.sqls);
    assert CreateAll(g.sqls)[0] == make && CreateAll(g.sqls)[1..] == script;
    var t := Table(make.columns, map[], []);
    if Distinct(Names(make.columns)) {
      assert Run(g.table, CreateAll(g.sqls), Absent) == Run(g.table, script, Present(t));
      if DistinctIndexes(g.sqls) {
        var _ := CreatesRun(g.table, g.sqls, t);
      } else if Run(g.table, script, Present(t)).Some? {
        CreatesNeedDistinct(g.table, g.sqls, t);
      }
    }
  }

  // ------------------------------------------------------------- values of old rows

  predicate Tidy(lines: seq<string>) {
    forall i :: 0 <= i < |lines| ==> Column(lines[i]) == Split(lines[i])
  }

  predicate DistinctNames(lines: seq<string>) {
    forall i, j :: 0 <= i < j < |lines| ==> Name(lines[i]) != Name(lines[j])
  }

  lemma {:induction false} DefaultRowOther(row: Row, lines: seq<string>, c: string)
    requires forall j :: 0 <= j < |lines| ==> Name(lines[j]) != c
    ensures var r := DefaultRow(row, lines);
            (c in r <==> c in row) && (c in row ==> r[c] == row[c])
  {
    if lines != [] {
      DefaultRowOther(row, lines[..|lines| - 1], c);
    }
  }

  lemma {:induction false} DefaultRowAt(row: Row, lines: seq<string>, j: nat)
    requires DistinctNames(lines) && j < |lines|
    ensures var r := DefaultRow(row, lines);
            Name(lines[j]) in r && r[Name(lines[j])] == DefaultValue(Column(lines[j]))
  {
    var n := |lines| - 1;
    if j < n {
      DefaultRowAt(row, lines[..n], j);
      assert lines[..n][j] == lines[j] && Name(lines[j]) != Name(lines[n]);
    }
  }

  lemma {:induction false} FilledRowOther(row: Row, lines: seq<string>, c: string)
    requires Tidy(lines)
    requires forall j :: 0 <= j < |lines| && NotNull(lines[j]) ==> Name(lines[j]) != c
    ensures var r := FilledRow(row, lines);
            (c in r <==> c in row) && (c in row ==> r[c] == row[c])
  {
    if lines != [] {
      var n := |lines| - 1;
      FilledRowOther(row, lines[..n], c);
      assert Name(lines[n]) == ColumnName(Split(lines[n]));
    }
  }

  lemma {:induction false} FilledRowAt(row: Row, lines: seq<string>, j: nat)
    requires Tidy(lines) && DistinctNames(lines) && j < |lines|
    requires NotNull(lines[j]) && DefaultOf(lines[j]).Ok?
    ensures var r := FilledRow(row, lines);
            Name(lines[j]) in r && r[Name(lines[j])] == Eval(DefaultOf(lines[j]).value)
  {
    var n := |lines| - 1;
    assert Column(lines[n]) == Split(lines[n]);
    if j < n {
      FilledRowAt(row, lines[..n], j);
      assert lines[..n][j] == lines[j] && Name(lines[j]) != Name(lines[n]);
    }
  }

  lemma ChangesInit(table: string, lines: seq<string>)
    requires lines != [] && Changes(table, lines).Ok?
    ensures Changes(table, lines[..|lines| - 1]).Ok?
  {
  }

  lemma {:induction false} ChangesPrefix(table: string, lines: seq<string>, k: nat)
    requires k <= |lines| && Changes(table, lines).Ok?
    ensures Changes(table, lines[..k]).Ok?
    decreases |lines|
  {
    if k < |lines| {
      var init := lines[..|lines| - 1];
      ChangesInit(table, lines);
      ChangesPrefix(table, init, k);
      assert init[..k] == lines[..k];
    } else {
      assert lines[..k] == lines;
    }
  }

  lemma DefaultsExist(table: string, lines: seq<string>, j: nat)
    requires j < |lines| && Changes(table, lines).Ok? && NotNull(lines[j])
    ensures DefaultOf(lines[j]).Ok?
  {
    ChangesPrefix(table, lines, j + 1);
    LastDefault(table, lines[..j + 1], lines[j]);
  }

  lemma LastDefault(table: string, lines: seq<string>, last: string)
    requires lines != [] && last == lines[|lines| - 1] && Changes(table, lines).Ok? && NotNull(last)
    ensures DefaultOf(last).Ok?
  {
  }

  /** The value an existing row has in an added column after an upgrade. */
  function ValueAdded(line: string, filled: bool): Value {
    if filled && NotNull(line) && DefaultOf(line).Ok? then Eval(DefaultOf(line).value) else DefaultValue(Column(line))
  }

  lemma LinesTidy(newer: Group, older: Group)
    requires Sound(newer) && Sound(older)
    requires Extends(newer.sqls[0].def.items, older.sqls[0].def.items)
    ensures var lines := AddedLines(newer.sqls[0], older.sqls[0]);
            Tidy(lines) && DistinctNames(lines)
  {
    var items, n := newer.sqls[0].def.items, |older.sqls[0].def.items|;
    var lines := AddedLines(newer.sqls[0], older.sqls[0]);
    forall i | 0 <= i < |lines|
      ensures Column(lines[i]) == Split(lines[i]) && Name(lines[i]) == Names(Columns(items))[n + i]
    {
      ColumnOfLine(items[n + i]);
    }
  }

  /** The column lines that the newer release adds. */
  function NewLines(newer: Group, older: Group): seq<string>
    requires ValidGroup(newer) && ValidGroup(older)
  {
    if |older.sqls[0].def.items| <= |newer.sqls[0].def.items| then AddedLines(newer.sqls[0], older.sqls[0]) else []
  }

  /** The lines that an upgrade takes for NOT NULL. */
  predicate NeedsValue(lines: seq<string>, j: int) {
    0 <= j < |lines| && NotNull(lines[j])
  }

  /** BACKFILL.  The diff is a part that finishes columns and rows, followed by a part
      that only drops and makes indexes, so every row already has its final values
      before the first index is made again.  In an added column a row holds the word
      written for it if the line says NOT NULL and the defaults were emitted (they are
      lost when a rebuild is called for and the new release has no dictionary load), and
      its declared default otherwise; every other column keeps its value. */
  lemma BackfillPrecedesIndexes(newer: Group, older: Group, t: Table)
    returns (first: seq<Stmt>, rest: seq<Stmt>, mid: Table, t': Table)
    requires Sound(newer) && Sound(older) && newer.table == older.table
    requires Upgrade(newer, Some(older)).Ok? && Realises(t, older.sqls)
    ensures Extends(newer.sqls[0].def.items, older.sqls[0].def.items)
    ensures Upgrade(newer, Some(older)).value.diff == first + rest
    ensures forall s :: s in rest ==> s.DropIndex? || s.MakeIndex?
    ensures forall s :: s in first ==> s.AddColumn? || s.SetColumn? || s.Commit?
    ensures if Runnable(newer, older, t.rows != [])
            then Run(newer.table, first, Present(t)) == Some(Present(mid))
                 && Run(newer.table, rest, Present(mid)) == Some(Present(t')) && mid.rows == t'.rows
                 && RowsGrown(t.rows, t'.rows, NewLines(newer, older), Filled(newer, older))
            else Run(newer.table, first, Present(t)) == None
  {
    var (mine, theirs) := Aligned(newer, older);
    var special := newer.table in SPECIAL_TABLES;
    UpgradeIsAligned(newer, older);
    AlikeMeans(theirs, older.sqls);
    var plan := Upgrade(newer, Some(older)).value;
    var filled := Filled(newer, older);
    UpgradeParts(special, mine, theirs);
    DropMeans(special, mine, theirs);
    first := GrowScript(mine[0], theirs[0], filled);
    rest := if plan.drop && HasLoad(mine) then Drops(theirs) + Creates(plan.sqls) else [];
    mid := Grown(mine[0], theirs[0], t, filled);
    ColumnsGrow(newer.table, mine[0], theirs[0], t, filled);
    t' := UpgradeAlignedRuns(newer.table, special, mine, theirs, t);
    RunConcat(newer.table, first, rest, Present(t));
    IndexPartOnly(theirs);
    IndexPartOnly(plan.sqls);
    GrowPartOnly(mine[0], theirs[0], filled);
    UpgradedRows(newer, older, t.rows);
  }

  /** The rows `after` are the rows `before` with a value in each added column. */
  ghost predicate RowsGrown(before: seq<Row>, after: seq<Row>, lines: seq<string>, filled: bool) {
    |after| == |before|
    && (forall i, j :: 0 <= i < |before| && 0 <= j < |lines| ==>
          Name(lines[j]) in after[i] && after[i][Name(lines[j])] == ValueAdded(lines[j], filled))
    && (forall i, c :: 0 <= i < |before| && (forall j :: 0 <= j < |lines| ==> Name(lines[j]) != c) ==>
          (c in after[i] <==> c in before[i]) && (c in before[i] ==> after[i][c] == before[i][c]))
  }

  lemma UpgradeIsChanges(newer: Group, older: Group)
    requires Sound(newer) && Sound(older) && newer.table == older.table && Upgrade(newer, Some(older)).Ok?
    ensures Extends(newer.sqls[0].def.items, older.sqls[0].def.items)
    ensures Changes(newer.table, NewLines(newer, older)).Ok?
  {
    var (mine, theirs) := Aligned(newer, older);
    UpgradeIsAligned(newer, older);
    UpgradeParts(newer.table in SPECIAL_TABLES, mine, theirs);
    TableUpgradeIs(mine[0], theirs[0]);
  }

  lemma UpgradedRows(newer: Group, older: Group, rows: seq<Row>)
    requires Sound(newer) && Sound(older) && newer.table == older.table && Upgrade(newer, Some(older)).Ok?
    ensures var lines := NewLines(newer, older);
            RowsGrown(rows, GrownRows(rows, lines, Filled(newer, older)), lines, Filled(newer, older))
  {
    UpgradeIsChanges(newer, older);
    LinesTidy(newer, older);
    GrownValues(newer.table, rows, NewLines(newer, older), Filled(newer, older));
  }

  /** What the script of an accepted upgrade leaves in the rows. */
  lemma UpgradeFillsRows(newer: Group, older: Group, t: Table, t': Table)
    requires Sound(newer) && Sound(older) && newer.table == older.table
    requires Upgrade(newer, Some(older)).Ok? && Realises(t, older.sqls)
    requires Run(newer.table, Upgrade(newer, Some(older)).value.diff, Present(t)) == Some(Present(t'))
    ensures Extends(newer.sqls[0].def.items, older.sqls[0].def.items)
    ensures RowsGrown(t.rows, t'.rows, NewLines(newer, older), Filled(newer, older))
    ensures AllDefaulted(NewLines(newer, older)) && Tidy(NewLines(newer, older))
    ensures Takes(NewLines(newer, older), t.rows != [], Filled(newer, older))
  {
    var first, rest, mid, end := BackfillPrecedesIndexes(newer, older, t);
    RunConcat(newer.table, first, rest, Present(t));
    UpgradeHasDefaults(newer, older);
    LinesTidy(newer, older);
  }

  /** Every NOT NULL line has the word DEFAULT before another word. */
  ghost predicate AllDefaulted(lines: seq<string>) {
    forall j :: NeedsValue(lines, j) ==> HasDefaultWord(lines[j])
  }

  lemma UpgradeHasDefaults(newer: Group, older: Group)
    requires Sound(newer) && Sound(older) && newer.table == older.table && Upgrade(newer, Some(older)).Ok?
    ensures Extends(newer.sqls[0].def.items, older.sqls[0].def.items)
    ensures AllDefaulted(NewLines(newer, older))
  {
    UpgradeIsChanges(newer, older);
    ChangesAccept(newer.table, NewLines(newer, older));
  }

  /** Additions are accepted exactly when every NOT NULL line has a default word. */
  lemma {:induction false} ChangesAccept(table: string, lines: seq<string>)
    ensures Changes(table, lines).Ok? <==> AllDefaulted(lines)
  {
    if lines != [] {
      var n := |lines| - 1;
      ChangesAccept(table, lines[..n]);
      AllDefaultedStep(lines);
      DefaultFound(lines[n]);
    }
  }

  lemma AllDefaultedStep(lines: seq<string>)
    requires lines != []
    ensures var n := |lines| - 1;
            AllDefaulted(lines) <==> AllDefaulted(lines[..n]) && (NotNull(lines[n]) ==> HasDefaultWord(lines[n]))
  {
    var n := |lines| - 1;
    assert forall j :: 0 <= j < n ==> lines[..n][j] == lines[j];
    assert forall j :: 0 <= j < n ==> (NeedsValue(lines, j) <==> NeedsValue(lines[..n], j));
    assert NeedsValue(lines, n) <==> NotNull(lines[n]);
  }

  function GrownRow(row: Row, lines: seq<string>, filled: bool): Row {
    if filled then FilledRow(DefaultRow(row, lines), lines) else DefaultRow(row, lines)
  }

  lemma FilledAdded(row: Row, lines: seq<string>, j: nat)
    requires Tidy(lines) && DistinctNames(lines) && j < |lines| && (NotNull(lines[j]) ==> DefaultOf(lines[j]).Ok?)
    ensures var after := FilledRow(DefaultRow(row, lines), lines);
            Name(lines[j]) in after && after[Name(lines[j])] == ValueAdded(lines[j], true)
  {
    if NotNull(lines[j]) {
      FilledRowAt(DefaultRow(row, lines), lines, j);
    } else {
      DefaultRowAt(row, lines, j);
      FilledRowOther(DefaultRow(row, lines), lines, Name(lines[j]));
    }
  }

  lemma AddedValue(table: string, row: Row, lines: seq<string>, filled: bool, j: nat)
    requires Tidy(lines) && DistinctNames(lines) && Changes(table, lines).Ok? && j < |lines|
    ensures var after := GrownRow(row, lines, filled);
            Name(lines[j]) in after && after[Name(lines[j])] == ValueAdded(lines[j], filled)
  {
    if filled {
      if NotNull(lines[j]) {
        DefaultsExist(table, lines, j);
      }
      FilledAdded(row, lines, j);
    } else {
      DefaultRowAt(row, lines, j);
    }
  }

  lemma KeptValue(row: Row, lines: seq<string>, filled: bool, c: string)
    requires Tidy(lines) && forall j :: 0 <= j < |lines| ==> Name(lines[j]) != c
    ensures var after := GrownRow(row, lines, filled);
            (c in after <==> c in row) && (c in row ==> after[c] == row[c])
  {
    DefaultRowOther(row, lines, c);
    if filled {
      FilledRowOther(DefaultRow(row, lines), lines, c);
    }
  }

  lemma GrownValues(table: string, rows: seq<Row>, lines: seq<string>, filled: bool)
    requires Tidy(lines) && DistinctNames(lines) && Changes(table, lines).Ok?
    ensures var after := GrownRows(rows, lines, filled);
            |after| == |rows|
            && (forall i, j :: 0 <= i < |rows| && 0 <= j < |lines| ==>
                  Name(lines[j]) in after[i] && after[i][Name(lines[j])] == ValueAdded(lines[j], filled))
            && (forall i, c :: 0 <= i < |rows| && (forall j :: 0 <= j < |lines| ==> Name(lines[j]) != c) ==>
                  (c in after[i] <==> c in rows[i]) && (c in rows[i] ==> after[i][c] == rows[i][c]))
  {
    var after := GrownRows(rows, lines, filled);
    assert forall i :: 0 <= i < |rows| ==> after[i] == GrownRow(rows[i], lines, filled);
    forall i, j | 0 <= i < |rows| && 0 <= j < |lines|
      ensures Name(lines[j]) in after[i] && after[i][Name(lines[j])] == ValueAdded(lines[j], filled)
    {
      AddedValue(table, rows[i], lines, filled, j);
    }
    forall i, c | 0 <= i < |rows| && (forall j :: 0 <= j < |lines| ==> Name(lines[j]) != c)
      ensures (c in after[i] <==> c in rows[i]) && (c in rows[i] ==> after[i][c] == rows[i][c])
    {
      KeptValue(rows[i], lines, filled, c);
    }
  }

  lemma {:induction false} IndexPartOnly(sqls: seq<Item>)
    ensures forall s :: s in Drops(sqls) ==> s.DropIndex?
    ensures forall s :: s in Creates(sqls) ==> s.MakeIndex?
  {
    if sqls != [] {
      IndexPartOnly(sqls[1..]);
    }
  }

  lemma {:induction false} ChangesOnly(table: string, lines: seq<string>)
    requires Changes(table, lines).Ok?
    ensures forall s :: s in Changes(table, lines).value.adds ==> s.AddColumn?
    ensures forall s :: s in Changes(table, lines).value.backfills ==> s.SetColumn? || s.Commit?
  {
    if lines != [] {
      ChangesOnly(table, lines[..|lines| - 1]);
    }
  }

  lemma GrowPartOnly(mine: Item, theirs: Item, filled: bool)
    requires mine.CreateTable? && theirs.CreateTable? && TableUpgrade(mine, theirs).Ok?
    ensures forall s :: s in GrowScript(mine, theirs, filled) ==> s.AddColumn? || s.SetColumn? || s.Commit?
  {
    TableUpgradeIs(mine, theirs);
    ChangesOnly(mine.table, AddedLines(mine, theirs));
  }

  /** Every row may hold what it has in the columns of the lines. */
  ghost predicate RowsFit(rows: seq<Row>, lines: seq<string>) {
    forall i, j :: 0 <= i < |rows| && 0 <= j < |lines| ==>
      Name(lines[j]) in rows[i] && Fits(rows[i][Name(lines[j])], Column(lines[j]))
  }

  lemma ValueFits(line: string, filled: bool)
    requires Addable(line) && (filled ==> Writable(line, true))
    ensures Fits(ValueAdded(line, filled), Column(line))
  {
  }

  /** NOT NULL.  After every upgrade script that runs, on a table with or without rows, no
      row is null in an added column that refuses null. */
  lemma AddedNotNull(newer: Group, older: Group, t: Table, t': Table)
    requires Sound(newer) && Sound(older) && newer.table == older.table
    requires Upgrade(newer, Some(older)).Ok? && Realises(t, older.sqls)
    requires Run(newer.table, Upgrade(newer, Some(older)).value.diff, Present(t)) == Some(Present(t'))
    ensures RowsFit(t'.rows, NewLines(newer, older))
  {
    UpgradeFillsRows(newer, older, t, t');
    var lines := NewLines(newer, older);
    forall i, j | 0 <= i < |t'.rows| && 0 <= j < |lines|
      ensures Name(lines[j]) in t'.rows[i] && Fits(t'.rows[i][Name(lines[j])], Column(lines[j]))
    {
      ValueFits(lines[j], Filled(newer, older));
    }
  }

  /** The default clause of the line is NULL. */
  predicate NullDefault(line: string) {
    Declared(line).Some? && Upper(Join(Declared(line).value, " ")) == "NULL"
  }

  /** Of the lines that an upgrade accepts, a table with rows takes all but those that refuse
      null and have the default NULL, and the primary keys without a default. */
  lemma AddableWhen(newer: Group, older: Group, j: nat)
    requires Sound(newer) && Sound(older) && newer.table == older.table && Upgrade(newer, Some(older)).Ok?
    requires j < |NewLines(newer, older)|
    ensures var line := NewLines(newer, older)[j];
            !Addable(line)
            <==> (RefusesNull(Split(line)) && NullDefault(line))
                 || (HasClause(Split(line), "PRIMARY", "KEY") && Declared(line) == None)
  {
    UpgradeHasDefaults(newer, older);
    LinesTidy(newer, older);
    var line := NewLines(newer, older)[j];
    assert NeedsValue(NewLines(newer, older), j) <==> NotNull(line);
    if HasClause(Split(line), "NOT", "NULL") {
      ClauseIsSeen(line);
    }
    DefaultFound(line);
  }

  lemma ClauseIsSeen(line: string)
    requires HasClause(Split(line), "NOT", "NULL")
    ensures NotNull(line)
  {
    var k :| 0 < k < |Split(line)| && ClauseAt(Split(line), k, "NOT", "NULL");
    NotNullWords(line, k);
  }

  /** Every row holds the declared default of the line. */
  ghost predicate AllDeclared(rows: seq<Row>, line: string) {
    forall i :: 0 <= i < |rows| ==> HoldsDeclared(rows[i], line)
  }

  predicate HoldsDeclared(row: Row, line: string) {
    Name(line) in row && row[Name(line)] == DeclaredValue(line)
  }

  lemma DeclaredAddedWhen(line: string, filled: bool)
    requires Column(line) == Split(line) && (NotNull(line) ==> HasDefaultWord(line))
    ensures ValueAdded(line, filled) == DeclaredValue(line) <==> (filled && NotNull(line) ==> Plain(line))
  {
    DefaultFound(line);
    if NotNull(line) {
      ValueIsDeclared(line);
    }
  }

  /** DECLARED.  After an upgrade the rows already there hold the declared default of an
      added column if and only if no UPDATE is written for it, or its default is one word
      that upper case leaves alone, or NULL: the ALTER TABLE has put the default there,
      and the UPDATE can only spoil it. */
  lemma BackfillsDeclared(newer: Group, older: Group, t: Table, t': Table, j: nat)
    requires Sound(newer) && Sound(older) && newer.table == older.table
    requires Upgrade(newer, Some(older)).Ok? && Realises(t, older.sqls) && t.rows != []
    requires Run(newer.table, Upgrade(newer, Some(older)).value.diff, Present(t)) == Some(Present(t'))
    requires j < |NewLines(newer, older)|
    ensures var line := NewLines(newer, older)[j];
            AllDeclared(t'.rows, line) <==> (Filled(newer, older) && NotNull(line) ==> Plain(line))
    ensures newer.table !in SPECIAL_TABLES ==>
              (Filled(newer, older) <==> SameIndexes(newer.sqls, older.sqls) || HasLoad(newer.sqls))
  {
    UpgradeFillsRows(newer, older, t, t');
    var line := NewLines(newer, older)[j];
    assert NeedsValue(NewLines(newer, older), j) <==> NotNull(line);
    DeclaredAddedWhen(line, Filled(newer, older));
    assert AllDeclared(t'.rows, line) ==> HoldsDeclared(t'.rows[0], line);
    if newer.table !in SPECIAL_TABLES {
      OrdinaryFilled(newer, older);
    }
  }

  lemma OrdinaryFilled(newer: Group, older: Group)
    requires newer.table !in SPECIAL_TABLES
    ensures Filled(newer, older) <==> SameIndexes(newer.sqls, older.sqls) || HasLoad(newer.sqls)
  {
    assert SoftFrom(newer.sqls, older.sqls, false, 0) == newer.sqls;
  }

  // ----------------------------------------------------------------------- degrade

  lemma {:induction false} RowsOnly(name: string, script: seq<Stmt>, t: Table) returns (t': Table)
    requires forall s :: s in script ==> s.DeleteRows? || s.Commit?
    ensures Run(name, script, Present(t)) == Some(Present(t'))
    ensures t'.columns == t.columns && t'.indexes == t.indexes && (script == [] ==> t' == t)
  {
    t' := t;
    if script != [] {
      assert script[0] in script;
      var next := Exec(name, script[0], Present(t)).value.t;
      t' := RowsOnly(name, script[1..], next);
    }
  }

  lemma DegradeAlignedRuns(name: string, later: bool, high: seq<Item>, low: seq<Item>, special: bool, t: Table)
    returns (t': Table)
    requires ValidItems(name, high) && ValidItems(name, low) && DistinctIndexes(high) && DistinctIndexes(low)
    requires DegradeAligned(name, later, high, low, special).Ok? && t.indexes.Keys == IndexNames(high)
    ensures var plan := DegradeAligned(name, later, high, low, special).value;
            Run(name, plan.diff, Present(t)) == Some(Present(t'))
            && t'.columns == t.columns
            && (plan.drop <==> !SoftlySame(low, high, special))
            && plan.sqls == Scan(low, high, special, 0).sqls
            && (if plan.drop then IndexesExactly(t'.indexes, plan.sqls) else t' == t)
  {
    DegradeParts(name, later, high, low, special);
    ScanSoftens(low, high, special, 0);
    t' := t;
    if Scan(low, high, special, 0).drop {
      t' := DegradeRebuildRuns(name, later, high, low, special, t);
    }
  }

  function PurgeFor(name: string, later: bool, scanned: Scanned): seq<Stmt> {
    var shrinks := scanned.packageKeyShrinks;
    Purge(name, shrinks, later || PurgesPackages(name, shrinks))
  }

  lemma DegradeParts(name: string, later: bool, high: seq<Item>, low: seq<Item>, special: bool)
    requires |high| > 0 && high[0].CreateTable? && |low| > 0 && low[0].CreateTable?
    requires DegradeAligned(name, later, high, low, special).Ok?
    ensures var plan, scanned := DegradeAligned(name, later, high, low, special).value, Scan(low, high, special, 0);
            plan.drop == scanned.drop && plan.sqls == scanned.sqls
            && plan.diff == if scanned.drop then PurgeFor(name, later, scanned) + (Drops(high) + Creates(scanned.sqls)) else []
  {
  }

  lemma DegradeRebuildRuns(name: string, later: bool, high: seq<Item>, low: seq<Item>, special: bool, t: Table)
    returns (t': Table)
    requires ValidItems(name, high) && ValidItems(name, low) && DistinctIndexes(high) && DistinctIndexes(low)
    requires t.indexes.Keys == IndexNames(high)
    ensures var scanned := Scan(low, high, special, 0);
            Run(name, PurgeFor(name, later, scanned) + (Drops(high) + Creates(scanned.sqls)), Present(t)) == Some(Present(t'))
            && t'.columns == t.columns && IndexesExactly(t'.indexes, scanned.sqls)
  {
    var scanned := Scan(low, high, special, 0);
    ScanShape(low, high, special, 0);
    t' := PurgedRebuildRuns(name, PurgeFor(name, later, scanned), scanned.sqls, high, t);
  }

  lemma PurgedRebuildRuns(name: string, purge: seq<Stmt>, mine: seq<Item>, theirs: seq<Item>, t: Table)
    returns (t': Table)
    requires forall s :: s in purge ==> s.DeleteRows? || s.Commit?
    requires DistinctIndexes(mine) && DistinctIndexes(theirs) && t.indexes.Keys == IndexNames(theirs)
    requires forall i :: 0 <= i < |mine| ==> Refers(mine[i].table, name)
    requires forall i :: 0 <= i < |theirs| ==> Refers(theirs[i].table, name)
    ensures Run(name, purge + (Drops(theirs) + Creates(mine)), Present(t)) == Some(Present(t'))
    ensures t'.columns == t.columns && IndexesExactly(t'.indexes, mine)
  {
    t' := RowsOnly(name, purge, t);
    RunConcat(name, purge, Drops(theirs) + Creates(mine), Present(t));
    t' := RebuildRuns(name, mine, theirs, t');
  }

  lemma DegradeIsAligned(high: Group, low: Group, later: bool)
    requires Sound(high) && Sound(low) && high.table == low.table && Degrade(high, Some(low), later).Ok?
    ensures var (mine, theirs) := Aligned(high, low);
            var special := low.table in SPECIAL_TABLES;
            Degrade(high, Some(low), later) == DegradeAligned(high.table, later, mine, theirs, special)
            && Ready(high.table, mine, theirs) && Alike(mine, high.sqls) && Alike(theirs, low.sqls)
            && (SoftlySame(theirs, mine, special) <==> SoftlySame(low.sqls, high.sqls, special))
  {
    var (mine, theirs) := Aligned(high, low);
    var special := low.table in SPECIAL_TABLES;
    AlignedReady(high, low);
    AlignedAlike(high, low);
    AlikeSoftly(theirs, low.sqls, mine, high.sqls, special);
    assert Degrade(high, Some(low), later) == DegradeAligned(high.table, later, mine, theirs, special);
  }

  /** The lower release as a degrade makes it: of a statistics table an index that is
      unique in it and not in the higher release may come back as not unique. */
  ghost predicate NearlyLow(made: seq<Item>, high: Group, low: Group) {
    |made| == |low.sqls|
    && forall j :: 0 < j < |made| ==>
         made[j] == low.sqls[j] || made[j] == Soft(low.sqls[j], high.sqls, low.table in SPECIAL_TABLES)
  }

  /** DEGRADE.  Run on any table that has the index names of the higher release, the
      diff of an accepted degrade is never refused, never touches a column, and ends
      with the indexes of the lower release as the scan leaves it, word for word if they
      were rebuilt.  They are rebuilt exactly when they differ, and that release is the
      lower one itself wherever no index can be softened. */
  lemma DegradeRestoresIndexes(high: Group, low: Group, later: bool, t: Table) returns (t': Table)
    requires Sound(high) && Sound(low) && high.table == low.table
    requires Degrade(high, Some(low), later).Ok? && t.indexes.Keys == IndexNames(high.sqls)
    ensures Run(high.table, Degrade(high, Some(low), later).value.diff, Present(t)) == Some(Present(t'))
    ensures t'.columns == t.columns
    ensures if SoftlySame(low.sqls, high.sqls, low.table in SPECIAL_TABLES) then t' == t
            else IndexesExactly(t'.indexes, Degrade(high, Some(low), later).value.sqls)
    ensures NearlyLow(Degrade(high, Some(low), later).value.sqls, high, low)
    ensures (low.table in SPECIAL_TABLES ==> Unsoftened(low.sqls, high.sqls)) ==>
              if SameIndexes(low.sqls, high.sqls) then t' == t else IndexesExactly(t'.indexes, low.sqls)
  {
    var (mine, theirs) := Aligned(high, low);
    var special := low.table in SPECIAL_TABLES;
    DegradeIsAligned(high, low, later);
    AlikeMeans(mine, high.sqls);
    t' := DegradeAlignedRuns(high.table, later, mine, theirs, special, t);
    DegradeNearlyLow(high, low, later);
    if special ==> Unsoftened(low.sqls, high.sqls) {
      DegradeUnsoftened(high, low, later);
    }
  }

  lemma DegradeNearlyLow(high: Group, low: Group, later: bool)
    requires Sound(high) && Sound(low) && high.table == low.table && Degrade(high, Some(low), later).Ok?
    ensures NearlyLow(Degrade(high, Some(low), later).value.sqls, high, low)
  {
    var (mine, theirs) := Aligned(high, low);
    var special := low.table in SPECIAL_TABLES;
    DegradeIsAligned(high, low, later);
    DegradeParts(high.table, later, mine, theirs, special);
    ScanEach(theirs, mine, special, 0);
    var made := Degrade(high, Some(low), later).value.sqls;
    forall j | 0 < j < |made|
      ensures made[j] == low.sqls[j] || made[j] == Soft(low.sqls[j], high.sqls, special)
    {
      if theirs[j].CreateIndex? {
        AlikeFirstMatch(mine, high.sqls, theirs[j]);
        SoftAlike(theirs[j], mine, high.sqls, special);
      }
    }
  }

  lemma SoftAlike(item: Item, a: seq<Item>, b: seq<Item>, special: bool)
    requires Alike(a, b) && item.CreateIndex?
    ensures Soft(item, a, special) == Soft(item, b, special)
  {
    AlikeFirstMatch(a, b, item);
    if FirstMatch(a, item).Some? {
      assert FirstMatch(a, item).value > 0;
    }
  }

  lemma DegradeUnsoftened(high: Group, low: Group, later: bool)
    requires Sound(high) && Sound(low) && high.table == low.table && Degrade(high, Some(low), later).Ok?
    requires low.table in SPECIAL_TABLES ==> Unsoftened(low.sqls, high.sqls)
    ensures SoftlySame(low.sqls, high.sqls, low.table in SPECIAL_TABLES) <==> SameIndexes(low.sqls, high.sqls)
    ensures var made := Degrade(high, Some(low), later).value.sqls;
            forall m :: IndexesExactly(m, made) <==> IndexesExactly(m, low.sqls)
  {
    var (mine, theirs) := Aligned(high, low);
    var special := low.table in SPECIAL_TABLES;
    DegradeIsAligned(high, low, later);
    DegradeParts(high.table, later, mine, theirs, special);
    AlikeSoftly(theirs, low.sqls, mine, high.sqls, special);
    ScanUnsoftened(theirs, mine, special, 0);
    ScanShape(theirs, mine, false, 0);
    ScanDecides(theirs, mine, false, 0);
    ScanSoftens(theirs, mine, special, 0);
    AlikeSameIndexes(theirs, low.sqls, mine, high.sqls);
    AlikeMeans(theirs, low.sqls);
  }

  /** A degrade of the columns is accepted exactly when head and tail are the same (the
      tail up to PCTFREE and STORAGE if a column is left behind), the low columns stand in
      front, and each NOT NULL column left behind has the letters DEFAULT. */
  lemma DegradeAccepts(high: Item, low: Item)
    requires high.CreateTable? && low.CreateTable?
    ensures TableDegrade(low, high).Ok?
            <==> Extends(high.def.items, low.def.items) && SameWords(Split(high.def.pre), Split(low.def.pre))
                 && Droppable(AddedLines(high, low))
                 && (SamePost(high.def.post, low.def.post) == Ok(true)
                     || (|high.def.items| == |low.def.items| && SameWords(Split(high.def.post), Split(low.def.post))))
  {
    SameDefIs(low.def, high.def);
    if |high.def.items| == |low.def.items| {
      assert AddedLines(high, low) == [];
    }
  }

  lemma SameDefIs(a: TableDef, b: TableDef)
    ensures SameDef(a, b)
            <==> |b.items| == |a.items| && Extends(b.items, a.items) && SameWords(Split(b.pre), Split(a.pre))
                 && SameWords(Split(b.post), Split(a.post))
  {
    if SameDef(a, b) {
      SameDefSymmetric(a, b);
    } else if SameDef(b, a) {
      SameDefSymmetric(b, a);
    }
  }

  /** LEFT BEHIND.  The NOT NULL columns that an accepted degrade leaves behind all have the
      word DEFAULT before another word if and only if the upgrade that added them is
      accepted. */
  lemma LeftoversHaveDefaults(high: Item, low: Item)
    requires high.CreateTable? && low.CreateTable? && TableDegrade(low, high).Ok?
    ensures Extends(high.def.items, low.def.items)
    ensures AllDefaulted(AddedLines(high, low)) <==> TableUpgrade(high, low).Ok?
  {
    DegradeAccepts(high, low);
    ChangesAccept(high.table, AddedLines(high, low));
    if SameDef(high.def, low.def) {
      assert AddedLines(high, low) == [];
    } else {
      if SameDef(low.def, high.def) {
        SameDefSymmetric(low.def, high.def);
      }
      DegradeIncrement(high, low);
    }
  }

  lemma DegradeIncrement(high: Item, low: Item)
    requires high.CreateTable? && low.CreateTable? && TableDegrade(low, high).Ok? && !SameDef(low.def, high.def)
    ensures TableIncrement(high.def, low.def).Ok? && |low.def.items| <= |high.def.items|
    ensures TableIncrement(high.def, low.def).value == AddedLines(high, low)
  {
  }

  lemma SameDefSymmetric(a: TableDef, b: TableDef)
    requires SameDef(a, b)
    ensures SameDef(b, a)
  {
    forall i | 0 <= i < |a.items|
      ensures SameItem(b.items[i], a.items[i])
    {
      assert SameItem(a.items[i], b.items[i]);
    }
  }

  lemma ExactlyUnique(m: map<string, seq<string>>, n: map<string, seq<string>>, sqls: seq<Item>)
    requires IndexesExactly(m, sqls) && IndexesExactly(n, sqls)
    ensures m == n
  {
    forall x | x in m
      ensures m[x] == n[x]
    {
      var k :| 0 <= k < |sqls| && sqls[k].CreateIndex? && sqls[k].index == x;
    }
  }

  lemma {:induction false} DropsNeed(name: string, sqls: seq<Item>, t: Table)
    requires Run(name, Drops(sqls), Present(t)).Some?
    ensures IndexNames(sqls) <= t.indexes.Keys
  {
    if sqls != [] {
      var rest := sqls[1..];
      IndexNamesStep(sqls);
      if sqls[0].CreateIndex? {
        assert Drops(sqls)[0] == DropIndex(sqls[0].table, sqls[0].index) && Drops(sqls)[1..] == Drops(rest);
        DropsNeed(name, rest, t.(indexes := t.indexes - {sqls[0].index}));
      } else {
        assert Drops(sqls) == Drops(rest);
        DropsNeed(name, rest, t);
      }
    }
  }

  /** A rebuild runs on a table that has the new indexes already only if the old ones have
      the same names. */
  lemma RebuildNeeds(name: string, purge: seq<Stmt>, mine: seq<Item>, theirs: seq<Item>, t: Table)
    requires forall s :: s in purge ==> s.DeleteRows? || s.Commit?
    requires DistinctIndexes(theirs) && forall i :: 0 <= i < |theirs| ==> Refers(theirs[i].table, name)
    requires t.indexes.Keys == IndexNames(mine) && IndexNames(mine) != IndexNames(theirs)
    ensures Run(name, purge + (Drops(theirs) + Creates(mine)), Present(t)) == None
  {
    var mid := RowsOnly(name, purge, t);
    RunConcat(name, purge, Drops(theirs) + Creates(mine), Present(t));
    RunConcat(name, Drops(theirs), Creates(mine), Present(mid));
    if Run(name, Drops(theirs), Present(mid)).Some? {
      DropsNeed(name, theirs, mid);
      DropsRun(name, theirs, mid);
      var bare := mid.(indexes := mid.indexes - IndexNames(theirs));
      var n :| n in IndexNames(mine) && n !in IndexNames(theirs);
      assert n in bare.indexes;
      if Run(name, Creates(mine), Present(bare)).Some? {
        CreatesNeedDistinct(name, mine, bare);
      }
    }
  }

  /** The scripts can be run one after the other: the indexes are rebuilt at a dictionary
      load, or at least their names stay. */
  ghost predicate Returns(high: Group, low: Group) {
    HasLoad(high.sqls) || IndexNames(high.sqls) == IndexNames(low.sqls)
  }

  /** Index `j` has no namesake, or one that differs even from the softened index: here a
      scan ends. */
  ghost predicate Differs(mine: seq<Item>, theirs: seq<Item>, special: bool, j: nat)
    requires j < |mine|
  {
    mine[j].CreateIndex?
    && match FirstMatch(theirs, mine[j])
       case None => true
       case Some(p) => !Same(Soft(mine[j], theirs, special), theirs[p])
  }

  /** From position `k` on a scan comes to an index that it softens. */
  ghost predicate Softens(mine: seq<Item>, theirs: seq<Item>, special: bool, k: nat) {
    exists j :: k <= j < |mine| && Soft(mine[j], theirs, special) != mine[j]
                && forall i :: k <= i < j ==> !Differs(mine, theirs, special, i)
  }

  /** The indexes come back: on the way down nothing is rebuilt and on the way up nothing
      was, or what is rebuilt on the way down has not been softened before. */
  ghost predicate Restores(high: Group, low: Group) {
    var special := low.table in SPECIAL_TABLES;
    if SoftlySame(low.sqls, high.sqls, special) then SoftlySame(high.sqls, low.sqls, special) || !HasLoad(high.sqls)
    else !Softens(low.sqls, high.sqls, special, 0)
  }

  lemma SoftensStep(mine: seq<Item>, theirs: seq<Item>, special: bool, k: nat)
    requires k < |mine| && Soft(mine[k], theirs, special) == mine[k]
    ensures Softens(mine, theirs, special, k) <==> !Differs(mine, theirs, special, k) && Softens(mine, theirs, special, k + 1)
  {
    if Softens(mine, theirs, special, k) {
      var j :| k <= j < |mine| && Soft(mine[j], theirs, special) != mine[j]
               && forall i :: k <= i < j ==> !Differs(mine, theirs, special, i);
      assert j > k;
    }
  }

  /** A scan leaves the items alone exactly when it comes to none that it softens. */
  lemma {:induction false} ScanLeaves(mine: seq<Item>, theirs: seq<Item>, special: bool, k: nat)
    requires k <= |mine|
    ensures Scan(mine, theirs, special, k).sqls == mine <==> !Softens(mine, theirs, special, k)
    decreases |mine| - k
  {
    if k < |mine| {
      var soft := Soft(mine[k], theirs, special);
      if soft == mine[k] {
        assert mine[k := soft] == mine;
        SoftensStep(mine, theirs, special, k);
        ScanLeaves(mine, theirs, special, k + 1);
      } else {
        ScanSoftensAt(mine, theirs, special, k);
      }
    }
  }

  lemma ScanSoftensAt(mine: seq<Item>, theirs: seq<Item>, special: bool, k: nat)
    requires k < |mine| && Soft(mine[k], theirs, special) != mine[k]
    ensures Scan(mine, theirs, special, k).sqls != mine
  {
    var mine' := mine[k := Soft(mine[k], theirs, special)];
    ScanShape(mine', theirs, special, k + 1);
    assert Scan(mine, theirs, special, k).sqls[k] == mine'[k];
  }

  lemma AlikeSoftens(a: seq<Item>, b: seq<Item>, c: seq<Item>, d: seq<Item>, special: bool)
    requires Alike(a, b) && Alike(c, d) && Softens(a, c, special, 0)
    ensures Softens(b, d, special, 0)
  {
    var j :| 0 <= j < |a| && Soft(a[j], c, special) != a[j] && forall i :: 0 <= i < j ==> !Differs(a, c, special, i);
    SoftAlike(a[j], c, d, special);
    forall i | 0 <= i < j
      ensures !Differs(b, d, special, i)
    {
      assert !Differs(a, c, special, i);
      if a[i].CreateIndex? {
        SoftAlike(a[i], c, d, special);
        AlikeFirstMatch(c, d, a[i]);
      }
    }
  }

  /** Index words tell a unique index from one that is not. */
  lemma UniqueShows(a: Item, b: Item)
    requires a.CreateIndex? && b.CreateIndex? && a.unique != b.unique
    ensures IndexWords(a) != IndexWords(b)
  {
    assert IndexWords(a)[1] != IndexWords(b)[1];
  }

  /** ROUND TRIP.  From a table with exactly the lower release's indexes, the upgrade diff
      followed by the degrade diff runs if and only if the upgrade does and there is a way
      back.  It then keeps the old columns as a prefix, and restores the index map exactly
      if and only if no index of a statistics table is softened on the way; what stays
      behind are the added columns, each with a default if its line says NOT NULL. */
  lemma UpgradeThenDegrade(high: Group, low: Group, later: bool, t: Table) returns (t': Table)
    requires Sound(high) && Sound(low) && high.table == low.table
    requires Upgrade(high, Some(low)).Ok? && Degrade(high, Some(low), later).Ok?
    requires ColumnsAre(t.columns, low.sqls[0].def.items) && IndexesExactly(t.indexes, low.sqls)
    ensures Extends(high.sqls[0].def.items, low.sqls[0].def.items)
    ensures AllDefaulted(NewLines(high, low))
    ensures var script := Upgrade(high, Some(low)).value.diff + Degrade(high, Some(low), later).value.diff;
            if Runnable(high, low, t.rows != []) && Returns(high, low)
            then Run(high.table, script, Present(t)) == Some(Present(t'))
                 && t.columns <= t'.columns && ColumnsAre(t'.columns, high.sqls[0].def.items)
                 && (t'.indexes == t.indexes <==> Restores(high, low))
            else Run(high.table, script, Present(t)) == None
    ensures (low.table in SPECIAL_TABLES ==> Unsoftened(low.sqls, high.sqls)) ==> Restores(high, low)
  {
    ExactlyIsAre(t.indexes, low.sqls);
    UpgradeHasDefaults(high, low);
    RestoresOrdinary(high, low);
    var mid := UpgradePreservesMeaning(high, low, t);
    RunConcat(high.table, Upgrade(high, Some(low)).value.diff, Degrade(high, Some(low), later).value.diff, Present(t));
    if !Runnable(high, low, t.rows != []) {
      t' := t;
    } else if Returns(high, low) {
      t' := DegradeReturns(high, low, later, t, mid);
    } else {
      t' := t;
      DegradeStuck(high, low, later, t, mid);
    }
  }

  /** Where no index of the lower release can be softened, the indexes come back. */
  lemma RestoresOrdinary(high: Group, low: Group)
    requires Sound(high) && Sound(low) && high.table == low.table
    ensures (low.table in SPECIAL_TABLES ==> Unsoftened(low.sqls, high.sqls)) ==> Restores(high, low)
  {
    var special := low.table in SPECIAL_TABLES;
    if special ==> Unsoftened(low.sqls, high.sqls) {
      if SoftlySame(low.sqls, high.sqls, special) {
        SoftlyBothWays(low.sqls, high.sqls, special);
      } else {
        forall j | 0 <= j < |low.sqls|
          ensures Soft(low.sqls[j], high.sqls, special) == low.sqls[j]
        {
        }
      }
    }
  }

  lemma SoftlyBothWays(mine: seq<Item>, theirs: seq<Item>, special: bool)
    requires DistinctIndexes(mine) && DistinctIndexes(theirs) && (special ==> Unsoftened(mine, theirs))
    requires SoftlySame(mine, theirs, special)
    ensures SoftlySame(theirs, mine, special)
  {
    SoftlyIsSame(mine, theirs, special);
    SameIndexesSymmetric(mine, theirs);
    SameIsUnsoftened(theirs, mine);
    SoftlyIsSame(theirs, mine, special);
  }

  /** The indexes that are not unique are as the release has them. */
  ghost predicate PlainExactly(indexes: map<string, seq<string>>, sqls: seq<Item>) {
    indexes.Keys == IndexNames(sqls)
    && forall k :: 0 <= k < |sqls| && sqls[k].CreateIndex? && !sqls[k].unique ==> indexes[sqls[k].index] == IndexWords(sqls[k])
  }

  lemma ScanKeepsPlain(mine: seq<Item>, theirs: seq<Item>, special: bool, indexes: map<string, seq<string>>)
    requires IndexesExactly(indexes, Scan(mine, theirs, special, 0).sqls)
    ensures PlainExactly(indexes, mine)
  {
    ScanNames(mine, theirs, special);
    ScanEach(mine, theirs, special, 0);
    var after := Scan(mine, theirs, special, 0).sqls;
    forall k | 0 <= k < |mine| && mine[k].CreateIndex? && !mine[k].unique
      ensures indexes[mine[k].index] == IndexWords(mine[k])
    {
      assert after[k] == mine[k];
    }
  }

  lemma PlainAlike(indexes: map<string, seq<string>>, a: seq<Item>, b: seq<Item>)
    requires Alike(a, b) && PlainExactly(indexes, a)
    ensures PlainExactly(indexes, b)
  {
    AlikeMeans(a, b);
  }

  lemma UpgradedIndexes(high: Group, low: Group, t: Table, mid: Table)
    requires Sound(high) && Sound(low) && high.table == low.table
    requires Upgrade(high, Some(low)).Ok? && Realises(t, low.sqls) && Runnable(high, low, t.rows != [])
    requires Run(high.table, Upgrade(high, Some(low)).value.diff, Present(t)) == Some(Present(mid))
    ensures if SoftlySame(high.sqls, low.sqls, high.table in SPECIAL_TABLES) || !HasLoad(high.sqls)
            then mid.indexes == t.indexes else PlainExactly(mid.indexes, high.sqls)
  {
    var (mine, theirs) := Aligned(high, low);
    var special := high.table in SPECIAL_TABLES;
    UpgradeIsAligned(high, low);
    AlikeMeans(mine, high.sqls);
    AlikeMeans(theirs, low.sqls);
    UpgradeParts(special, mine, theirs);
    var _ := UpgradeAlignedRuns(high.table, special, mine, theirs, t);
    if !SoftlySame(high.sqls, low.sqls, special) && HasLoad(high.sqls) {
      ScanKeepsPlain(mine, theirs, special, mid.indexes);
      PlainAlike(mid.indexes, mine, high.sqls);
    }
  }

  lemma UpgradedNames(high: Group, low: Group, t: Table, mid: Table)
    requires Sound(high) && Sound(low) && high.table == low.table && Returns(high, low)
    requires Upgrade(high, Some(low)).Ok? && Realises(t, low.sqls) && Runnable(high, low, t.rows != [])
    requires Run(high.table, Upgrade(high, Some(low)).value.diff, Present(t)) == Some(Present(mid))
    ensures mid.indexes.Keys == IndexNames(high.sqls)
  {
    UpgradedIndexes(high, low, t, mid);
    SoftNames(high.sqls, low.sqls, high.table in SPECIAL_TABLES);
  }

  lemma DegradeReturns(high: Group, low: Group, later: bool, t: Table, mid: Table) returns (t': Table)
    requires Sound(high) && Sound(low) && high.table == low.table
    requires Upgrade(high, Some(low)).Ok? && Degrade(high, Some(low), later).Ok? && Runnable(high, low, t.rows != [])
    requires Realises(t, low.sqls) && IndexesExactly(t.indexes, low.sqls) && Returns(high, low)
    requires Run(high.table, Upgrade(high, Some(low)).value.diff, Present(t)) == Some(Present(mid))
    ensures Run(high.table, Degrade(high, Some(low), later).value.diff, Present(mid)) == Some(Present(t'))
    ensures t'.columns == mid.columns && (t'.indexes == t.indexes <==> Restores(high, low))
  {
    UpgradedNames(high, low, t, mid);
    t' := DegradeRestoresIndexes(high, low, later, mid);
    if !SoftlySame(low.sqls, high.sqls, low.table in SPECIAL_TABLES) {
      MadeAgain(high, low, later, t.indexes, t'.indexes);
    } else {
      KeptAsUpgraded(high, low, t, mid);
    }
  }

  /** Where a degrade rebuilds nothing, the indexes are the old ones exactly if the upgrade
      has rebuilt nothing either. */
  lemma KeptAsUpgraded(high: Group, low: Group, t: Table, mid: Table)
    requires Sound(high) && Sound(low) && high.table == low.table && Upgrade(high, Some(low)).Ok?
    requires Realises(t, low.sqls) && IndexesExactly(t.indexes, low.sqls) && Runnable(high, low, t.rows != [])
    requires Run(high.table, Upgrade(high, Some(low)).value.diff, Present(t)) == Some(Present(mid))
    requires SoftlySame(low.sqls, high.sqls, low.table in SPECIAL_TABLES)
    ensures mid.indexes == t.indexes
            <==> SoftlySame(high.sqls, low.sqls, low.table in SPECIAL_TABLES) || !HasLoad(high.sqls)
  {
    var special := low.table in SPECIAL_TABLES;
    UpgradedIndexes(high, low, t, mid);
    if !SoftlySame(high.sqls, low.sqls, special) && HasLoad(high.sqls) {
      if special ==> Unsoftened(low.sqls, high.sqls) {
        SoftlyBothWays(low.sqls, high.sqls, special);
      }
      var j, p :| 0 <= j < |low.sqls| && 0 <= p < |high.sqls| && low.sqls[j].CreateIndex? && high.sqls[p].CreateIndex?
                  && low.sqls[j].index == high.sqls[p].index && low.sqls[j].unique && !high.sqls[p].unique;
      UniqueShows(low.sqls[j], high.sqls[p]);
    }
  }

  /** What a degrade makes again is what was there exactly if none of it has been softened. */
  lemma MadeAgain(high: Group, low: Group, later: bool, was: map<string, seq<string>>, made: map<string, seq<string>>)
    requires Sound(high) && Sound(low) && high.table == low.table && Degrade(high, Some(low), later).Ok?
    requires IndexesExactly(was, low.sqls) && IndexesExactly(made, Degrade(high, Some(low), later).value.sqls)
    ensures made == was <==> !Softens(low.sqls, high.sqls, low.table in SPECIAL_TABLES, 0)
  {
    var (theirs, mine) := Aligned(high, low);
    var special := low.table in SPECIAL_TABLES;
    DegradeIsAligned(high, low, later);
    DegradeParts(high.table, later, theirs, mine, special);
    AlikeMeans(mine, low.sqls);
    SoftensAligned(mine, low.sqls, theirs, high.sqls, special);
    ScanLeaves(mine, theirs, special, 0);
    if Scan(mine, theirs, special, 0).sqls == mine {
      ExactlyUnique(made, was, mine);
    } else {
      SoftenedShows(mine, theirs, special, was, made);
    }
  }

  lemma SoftensAligned(a: seq<Item>, b: seq<Item>, c: seq<Item>, d: seq<Item>, special: bool)
    requires Alike(a, b) && Alike(c, d)
    ensures Softens(a, c, special, 0) <==> Softens(b, d, special, 0)
  {
    if Softens(a, c, special, 0) {
      AlikeSoftens(a, b, c, d, special);
    }
    if Softens(b, d, special, 0) {
      AlikeSoftens(b, a, d, c, special);
    }
  }

  lemma SoftenedShows(mine: seq<Item>, theirs: seq<Item>, special: bool, was: map<string, seq<string>>,
                      made: map<string, seq<string>>)
    requires IndexesExactly(was, mine) && IndexesExactly(made, Scan(mine, theirs, special, 0).sqls)
    requires Scan(mine, theirs, special, 0).sqls != mine
    ensures made != was
  {
    var after := Scan(mine, theirs, special, 0).sqls;
    ScanEach(mine, theirs, special, 0);
    var j :| 0 <= j < |mine| && after[j] != mine[j];
    UniqueShows(mine[j], after[j]);
  }

  lemma DegradeStuck(high: Group, low: Group, later: bool, t: Table, mid: Table)
    requires Sound(high) && Sound(low) && high.table == low.table
    requires Upgrade(high, Some(low)).Ok? && Degrade(high, Some(low), later).Ok? && Runnable(high, low, t.rows != [])
    requires Realises(t, low.sqls) && !Returns(high, low)
    requires Run(high.table, Upgrade(high, Some(low)).value.diff, Present(t)) == Some(Present(mid))
    ensures Run(high.table, Degrade(high, Some(low), later).value.diff, Present(mid)) == None
  {
    UpgradedIndexes(high, low, t, mid);
    var purge, made, theirs := DegradeRebuilds(high, low, later);
    RebuildNeeds(high.table, purge, made, theirs, mid);
  }

  /** A degrade that has indexes to rebuild is a purge, all drops and all creations. */
  lemma DegradeRebuilds(high: Group, low: Group, later: bool)
    returns (purge: seq<Stmt>, made: seq<Item>, theirs: seq<Item>)
    requires Sound(high) && Sound(low) && high.table == low.table
    requires Degrade(high, Some(low), later).Ok? && IndexNames(high.sqls) != IndexNames(low.sqls)
    ensures Degrade(high, Some(low), later).value.diff == purge + (Drops(theirs) + Creates(made))
    ensures forall s :: s in purge ==> s.DeleteRows? || s.Commit?
    ensures IndexNames(made) == IndexNames(low.sqls) && IndexNames(theirs) == IndexNames(high.sqls)
    ensures DistinctIndexes(theirs) && forall i :: 0 <= i < |theirs| ==> Refers(theirs[i].table, high.table)
  {
    var special := low.table in SPECIAL_TABLES;
    DegradeIsAligned(high, low, later);
    theirs := Aligned(high, low).0;
    var mine := Aligned(high, low).1;
    DegradeParts(high.table, later, theirs, mine, special);
    AlikeMeans(theirs, high.sqls);
    AlikeMeans(mine, low.sqls);
    ScanNames(mine, theirs, special);
    SoftNames(mine, theirs, special);
    ScanSoftens(mine, theirs, special, 0);
    var scanned := Scan(mine, theirs, special, 0);
    purge, made := PurgeFor(high.table, later, scanned), scanned.sqls;
    PurgeOnly(high.table, later, scanned);
  }

  lemma PurgeOnly(name: string, later: bool, scanned: Scanned)
    ensures forall s :: s in PurgeFor(name, later, scanned) ==> s.DeleteRows? || s.Commit?
  {
  }

  /** A table that only gains columns has something to run on the way up and nothing on the
      way down. */
  lemma GrowthIsOneWay(high: Group, low: Group, later: bool)
    requires Sound(high) && Sound(low) && high.table == low.table
    requires Upgrade(high, Some(low)).Ok? && Degrade(high, Some(low), later).Ok?
    requires SameIndexes(high.sqls, low.sqls) && |low.sqls[0].def.items| < |high.sqls[0].def.items|
    ensures Upgrade(high, Some(low)).value.diff != [] && Degrade(high, Some(low), later).value.diff == []
  {
    var (mine, theirs) := Aligned(high, low);
    var special := low.table in SPECIAL_TABLES;
    UpgradeIsAligned(high, low);
    UpgradeParts(special, mine, theirs);
    TableUpgradeIs(mine[0], theirs[0]);
    ChangesShape(mine[0].table, AddedLines(mine[0], theirs[0]));
    DegradeIsAligned(high, low, later);
    DegradeParts(high.table, later, mine, theirs, special);
    SameIndexesSymmetric(high.sqls, low.sqls);
    SameIsUnsoftened(low.sqls, high.sqls);
    SoftlyIsSame(low.sqls, high.sqls, special);
    ScanSoftens(theirs, mine, special, 0);
  }
}
