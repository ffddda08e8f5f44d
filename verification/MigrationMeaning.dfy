/** What the generated diffs do when they are run. */
module MigrationMeaning {
  import opened Wrappers
  import opened SqlText
  import opened CreateTableSql
  import opened Schema
  import opened Migration

  // ------------------------------------------- when a table is at a given release

  function IndexNames(sqls: seq<Item>): set<string> {
    set k | 0 <= k < |sqls| && sqls[k].CreateIndex? :: sqls[k].index
  }

  predicate DistinctIndexes(sqls: seq<Item>) {
    forall i, j :: 0 <= i < j < |sqls| && sqls[i].CreateIndex? && sqls[j].CreateIndex? ==> sqls[i].index != sqls[j].index
  }

  /** The indexes are those of the release, up to letter case and blanks. */
  ghost predicate IndexesAre(indexes: map<string, seq<string>>, sqls: seq<Item>) {
    indexes.Keys == IndexNames(sqls)
    && forall k :: 0 <= k < |sqls| && sqls[k].CreateIndex? ==> SameWords(indexes[sqls[k].index], IndexWords(sqls[k]))
  }

  /** The indexes are those of the release, word for word. */
  ghost predicate IndexesExactly(indexes: map<string, seq<string>>, sqls: seq<Item>) {
    indexes.Keys == IndexNames(sqls)
    && forall k :: 0 <= k < |sqls| && sqls[k].CreateIndex? ==> indexes[sqls[k].index] == IndexWords(sqls[k])
  }

  ghost predicate ColumnsAre(columns: seq<seq<string>>, items: seq<string>) {
    |columns| == |items| && forall i :: 0 <= i < |items| ==> SameWords(columns[i], ItemWords(items[i]))
  }

  /** The table has the columns and the indexes of the release. */
  ghost predicate Realises(t: Table, sqls: seq<Item>)
    requires |sqls| > 0 && sqls[0].CreateTable?
  {
    ColumnsAre(t.columns, sqls[0].def.items) && IndexesAre(t.indexes, sqls)
  }

  /** A release that a database accepts: no column and no index twice. */
  predicate Sound(g: Group) {
    ValidGroup(g) && DistinctIndexes(g.sqls) && Distinct(Names(Columns(g.sqls[0].def.items)))
  }

  // ------------------------------------------------------ running the index parts

  lemma {:induction false} DropsRun(name: string, sqls: seq<Item>, t: Table)
    requires DistinctIndexes(sqls) && IndexNames(sqls) <= t.indexes.Keys
    requires forall i :: 0 <= i < |sqls| ==> Refers(sqls[i].table, name)
    ensures Run(name, Drops(sqls), Present(t)) == Some(Present(t.(indexes := t.indexes - IndexNames(sqls))))
  {
    if sqls == [] {
      assert t.indexes - IndexNames(sqls) == t.indexes;
    } else {
      var rest := sqls[1..];
      if sqls[0].CreateIndex? {
        var n := sqls[0].index;
        assert n in IndexNames(sqls);
        IndexNamesStep(sqls);
        var t' := t.(indexes := t.indexes - {n});
        DropsRun(name, rest, t');
        assert t'.indexes - IndexNames(rest) == t.indexes - IndexNames(sqls);
        RunConcat(name, [DropIndex(sqls[0].table, n)], Drops(rest), Present(t));
        assert Run(name, [DropIndex(sqls[0].table, n)], Present(t)) == Some(Present(t'));
      } else {
        IndexNamesStep(sqls);
        assert IndexNames(sqls) == IndexNames(rest);
        DropsRun(name, rest, t);
        assert Drops(sqls) == Drops(rest);
      }
    }
  }

  lemma IndexNamesStep(sqls: seq<Item>)
    requires sqls != []
    ensures IndexNames(sqls) == IndexNames(sqls[1..]) + (if sqls[0].CreateIndex? then {sqls[0].index} else {})
    ensures DistinctIndexes(sqls) && sqls[0].CreateIndex? ==> sqls[0].index !in IndexNames(sqls[1..])
  {
    var rest := sqls[1..];
    forall n | n in IndexNames(sqls)
      ensures n in IndexNames(rest) || (sqls[0].CreateIndex? && n == sqls[0].index)
    {
      var k :| 0 <= k < |sqls| && sqls[k].CreateIndex? && sqls[k].index == n;
      if k > 0 {
        assert rest[k - 1] == sqls[k];
      }
    }
    forall n | n in IndexNames(rest)
      ensures n in IndexNames(sqls)
      ensures DistinctIndexes(sqls) && sqls[0].CreateIndex? ==> n != sqls[0].index
    {
      var k :| 0 <= k < |rest| && rest[k].CreateIndex? && rest[k].index == n;
      assert rest[k] == sqls[k + 1];
    }
  }

  lemma {:induction false} CreatesRun(name: string, sqls: seq<Item>, t: Table) returns (t': Table)
    requires DistinctIndexes(sqls) && IndexNames(sqls) !! t.indexes.Keys
    requires forall i :: 0 <= i < |sqls| ==> Refers(sqls[i].table, name)
    ensures Run(name, Creates(sqls), Present(t)) == Some(Present(t'))
    ensures t'.columns == t.columns && t'.rows == t.rows
    ensures t'.indexes.Keys == t.indexes.Keys + IndexNames(sqls)
    ensures forall n :: n in t.indexes ==> t'.indexes[n] == t.indexes[n]
    ensures forall k :: 0 <= k < |sqls| && sqls[k].CreateIndex? ==> t'.indexes[sqls[k].index] == IndexWords(sqls[k])
  {
    if sqls == [] {
      t' := t;
    } else {
      IndexNamesStep(sqls);
      var rest := sqls[1..];
      if sqls[0].CreateIndex? {
        var n := sqls[0].index;
        var make := MakeIndex(sqls[0].table, n, IndexWords(sqls[0]));
        assert n in IndexNames(sqls);
        var mid := t.(indexes := t.indexes[n := IndexWords(sqls[0])]);
        t' := CreatesRun(name, rest, mid);
        RunConcat(name, [make], Creates(rest), Present(t));
        assert Run(name, [make], Present(t)) == Some(Present(mid));
      } else {
        t' := CreatesRun(name, rest, t);
        assert Creates(sqls) == Creates(rest);
      }
      forall k | 0 <= k < |sqls| && sqls[k].CreateIndex?
        ensures t'.indexes[sqls[k].index] == IndexWords(sqls[k])
      {
        if k > 0 {
          assert rest[k - 1] == sqls[k];
        }
      }
    }
  }

  // -------------------------------------------------- running the column additions

  function Added(increment: seq<string>): (c: seq<seq<string>>)
    ensures |c| == |increment|
    ensures forall i :: 0 <= i < |c| ==> c[i] == Column(increment[i])
  {
    seq(|increment|, i requires 0 <= i < |increment| => Column(increment[i]))
  }

  function Name(item: string): string {
    ColumnName(Column(item))
  }

  /** A row after the columns have been added: each holds the default of its line. */
  function DefaultRow(row: Row, increment: seq<string>): Row {
    if increment == [] then row
    else
      var last := increment[|increment| - 1];
      DefaultRow(row, increment[..|increment| - 1])[Name(last) := DefaultValue(Column(last))]
  }

  /** A row after its NOT NULL columns have been set to their defaults. */
  function FilledRow(row: Row, increment: seq<string>): Row {
    if increment == [] then row
    else
      var last := increment[|increment| - 1];
      var r := FilledRow(row, increment[..|increment| - 1]);
      if NotNull(last) && DefaultOf(last).Ok? then r[ColumnName(Split(last)) := Eval(DefaultOf(last).value)] else r
  }

  function DefaultRows(rows: seq<Row>, increment: seq<string>): (r: seq<Row>)
    ensures |r| == |rows|
    ensures forall i :: 0 <= i < |r| ==> r[i] == DefaultRow(rows[i], increment)
  {
    seq(|rows|, i requires 0 <= i < |rows| => DefaultRow(rows[i], increment))
  }

  function FilledRows(rows: seq<Row>, increment: seq<string>): (r: seq<Row>)
    ensures |r| == |rows|
    ensures forall i :: 0 <= i < |r| ==> r[i] == FilledRow(rows[i], increment)
  {
    seq(|rows|, i requires 0 <= i < |rows| => FilledRow(rows[i], increment))
  }

  /** A column that a table with rows takes: it has a default if it refuses null. */
  predicate Addable(line: string) {
    Fits(DefaultValue(Column(line)), Column(line))
  }

  predicate AllAddable(lines: seq<string>) {
    forall i :: 0 <= i < |lines| ==> Addable(lines[i])
  }

  lemma AllAddableStep(lines: seq<string>)
    requires lines != []
    ensures AllAddable(lines) <==> AllAddable(lines[..|lines| - 1]) && Addable(lines[|lines| - 1])
  {
    var n := |lines| - 1;
    assert forall i :: 0 <= i < n ==> lines[..n][i] == lines[i];
  }

  /** The ALTER TABLE statements run exactly when there are no rows or every column is one
      that a table with rows takes. */
  lemma {:induction false} AddsRun(name: string, table: string, increment: seq<string>, t: Table)
    requires Refers(table, name) && Changes(table, increment).Ok?
    requires Distinct(Names(t.columns + Added(increment)))
    ensures Run(name, Changes(table, increment).value.adds, Present(t))
            == if t.rows == [] || AllAddable(increment)
               then Some(Present(Table(t.columns + Added(increment), t.indexes, DefaultRows(t.rows, increment)))) else None
  {
    if increment == [] {
      assert t.columns + Added(increment) == t.columns;
      assert DefaultRows(t.rows, increment) == t.rows;
    } else {
      var n := |increment| - 1;
      AddedStep(t.columns, increment);
      AddsRun(name, table, increment[..n], t);
      AllAddableStep(increment);
      AddRunsOn(name, table, Changes(table, increment[..n]).value.adds, increment[n], increment[..n], t);
      DefaultRowsStep(t.rows, increment);
    }
  }

  lemma AddedStep(columns: seq<seq<string>>, increment: seq<string>)
    requires increment != [] && Distinct(Names(columns + Added(increment)))
    ensures var init, last := increment[..|increment| - 1], increment[|increment| - 1];
            var before := columns + Added(init);
            columns + Added(increment) == before + [Column(last)]
            && Distinct(Names(before)) && ColumnName(Column(last)) !in Names(before)
  {
    var init, last := increment[..|increment| - 1], increment[|increment| - 1];
    var before, after := columns + Added(init), columns + Added(increment);
    assert after == before + [Column(last)];
    assert Names(after)[|after| - 1] == ColumnName(Column(last));
    assert forall i :: 0 <= i < |before| ==> Names(before)[i] == Names(after)[i];
  }

  lemma AddRunsOn(name: string, table: string, done: seq<Stmt>, last: string, init: seq<string>, t: Table)
    requires Refers(table, name) && Name(last) !in Names(t.columns + Added(init))
    requires Run(name, done, Present(t))
             == if t.rows == [] || AllAddable(init)
                then Some(Present(Table(t.columns + Added(init), t.indexes, DefaultRows(t.rows, init)))) else None
    ensures Run(name, done + [AddColumn(table, Column(last))], Present(t))
            == if t.rows == [] || (AllAddable(init) && Addable(last))
               then Some(Present(Table(t.columns + Added(init) + [Column(last)], t.indexes,
                                       SetAll(DefaultRows(t.rows, init), Name(last), DefaultValue(Column(last))))))
               else None
  {
    RunLast(name, done, AddColumn(table, Column(last)), Present(t));
  }

  lemma DefaultRowsStep(rows: seq<Row>, increment: seq<string>)
    requires increment != []
    ensures var init, last := increment[..|increment| - 1], increment[|increment| - 1];
            DefaultRows(rows, increment) == SetAll(DefaultRows(rows, init), Name(last), DefaultValue(Column(last)))
  {
  }

  /** The word that a backfill writes for the line, if it writes one, is a whole value, and
      one that the column may hold if there are rows. */
  predicate Writable(line: string, populated: bool) {
    NotNull(line) && DefaultOf(line).Ok? ==>
      IsValue(DefaultOf(line).value) && (populated ==> Fits(Eval(DefaultOf(line).value), Column(line)))
  }

  predicate AllWritable(lines: seq<string>, populated: bool) {
    forall i :: 0 <= i < |lines| ==> Writable(lines[i], populated)
  }

  lemma AllWritableStep(lines: seq<string>, populated: bool)
    requires lines != []
    ensures AllWritable(lines, populated)
            <==> AllWritable(lines[..|lines| - 1], populated) && Writable(lines[|lines| - 1], populated)
  {
    var n := |lines| - 1;
    assert forall i :: 0 <= i < n ==> lines[..n][i] == lines[i];
  }

  /** The line is that of a column of the table. */
  predicate IsColumn(line: string, columns: seq<seq<string>>) {
    ColumnName(Split(line)) in Names(columns) && ColumnCalled(columns, ColumnName(Split(line))) == Column(line)
  }

  lemma OneBackfillRuns(name: string, table: string, line: string, t: Table)
    requires Refers(table, name) && IsColumn(line, t.columns) && NotNull(line) && DefaultOf(line).Ok?
    ensures var column, value := ColumnName(Split(line)), DefaultOf(line).value;
            Run(name, [SetColumn(table, column, value), Commit], Present(t))
            == if Writable(line, t.rows != []) then Some(Present(t.(rows := SetAll(t.rows, column, Eval(value))))) else None
  {
    var script := [SetColumn(table, ColumnName(Split(line)), DefaultOf(line).value), Commit];
    assert script[1..] == [Commit];
    if Writable(line, t.rows != []) {
      var db := Exec(name, script[0], Present(t)).value;
      assert Run(name, [Commit], db) == Some(db);
    }
  }

  /** The UPDATE statements run exactly when every word they write is a whole value that
      its column may hold. */
  lemma {:induction false} BackfillsRun(name: string, table: string, increment: seq<string>, t: Table)
    requires Refers(table, name) && Changes(table, increment).Ok?
    requires forall i :: 0 <= i < |increment| ==> IsColumn(increment[i], t.columns)
    ensures Run(name, Changes(table, increment).value.backfills, Present(t))
            == if AllWritable(increment, t.rows != [])
               then Some(Present(t.(rows := FilledRows(t.rows, increment)))) else None
  {
    if increment == [] {
      assert FilledRows(t.rows, increment) == t.rows;
    } else {
      var n := |increment| - 1;
      var init, last := increment[..n], increment[n];
      AllWritableStep(increment, t.rows != []);
      BackfillsRun(name, table, init, t);
      var done := Changes(table, init).value.backfills;
      if NotNull(last) {
        BackfillRunsOn(name, table, done, last, init, t);
      } else {
        assert done + [] == done;
      }
      FilledRowsStep(t.rows, increment);
    }
  }

  lemma FilledRowsStep(rows: seq<Row>, increment: seq<string>)
    requires increment != []
    ensures var init, last := increment[..|increment| - 1], increment[|increment| - 1];
            FilledRows(rows, increment)
            == if NotNull(last) && DefaultOf(last).Ok?
               then SetAll(FilledRows(rows, init), ColumnName(Split(last)), Eval(DefaultOf(last).value))
               else FilledRows(rows, init)
  {
  }

  lemma BackfillRunsOn(name: string, table: string, done: seq<Stmt>, last: string, init: seq<string>, t: Table)
    requires Refers(table, name) && IsColumn(last, t.columns) && NotNull(last) && DefaultOf(last).Ok?
    requires Run(name, done, Present(t))
             == if AllWritable(init, t.rows != []) then Some(Present(t.(rows := FilledRows(t.rows, init)))) else None
    ensures var column, value := ColumnName(Split(last)), DefaultOf(last).value;
            Run(name, done + [SetColumn(table, column, value), Commit], Present(t))
            == if AllWritable(init, t.rows != []) && Writable(last, t.rows != [])
               then Some(Present(t.(rows := SetAll(FilledRows(t.rows, init), column, Eval(value))))) else None
  {
    RunConcat(name, done, [SetColumn(table, ColumnName(Split(last)), DefaultOf(last).value), Commit], Present(t));
    if AllWritable(init, t.rows != []) {
      OneBackfillRuns(name, table, last, t.(rows := FilledRows(t.rows, init)));
    }
  }

  // ----------------------------------------------------- what the index scan decides

  ghost predicate SameIndexes(mine: seq<Item>, theirs: seq<Item>) {
    IndexNames(mine) == IndexNames(theirs)
    && forall j, p | 0 <= j < |mine| && 0 <= p < |theirs| && mine[j].CreateIndex? && theirs[p].CreateIndex? ::
         mine[j].index == theirs[p].index ==> Same(mine[j], theirs[p])
  }

  /** Softening is the only thing a scan does to the items, and only a statistics
      table is softened. */
  lemma {:induction false} ScanShape(mine: seq<Item>, theirs: seq<Item>, special: bool, k: nat)
    requires k <= |mine|
    ensures var after := Scan(mine, theirs, special, k).sqls;
            |after| == |mine|
            && (forall j :: 0 <= j < |mine| ==> after[j].table == mine[j].table
                                                && (mine[j].CreateIndex? <==> after[j].CreateIndex?)
                                                && (if mine[j].CreateIndex? then after[j].index == mine[j].index
                                                    else after[j] == mine[j]))
            && (!special ==> after == mine)
            && forall j :: 0 <= j < k ==> after[j] == mine[j]
    decreases |mine| - k
  {
    if k < |mine| {
      if !mine[k].CreateIndex? {
        ScanShape(mine, theirs, special, k + 1);
      } else if FirstMatch(theirs, mine[k]).Some? {
        var p := FirstMatch(theirs, mine[k]).value;
        var mine' := mine[k := Softened(mine[k], theirs[p], special)];
        if Same(mine'[k], theirs[p]) {
          ScanShape(mine', theirs, special, k + 1);
        }
      }
    }
  }

  /** An index of a statistics table that is unique while its namesake is not counts as
      not unique. */
  function Soft(item: Item, theirs: seq<Item>, special: bool): Item {
    if item.CreateIndex? && FirstMatch(theirs, item).Some?
    then Softened(item, theirs[FirstMatch(theirs, item).value], special)
    else item
  }

  function SoftFrom(mine: seq<Item>, theirs: seq<Item>, special: bool, k: nat): (r: seq<Item>)
    ensures |r| == |mine|
    ensures forall j :: 0 <= j < |r| ==> r[j] == if j < k then mine[j] else Soft(mine[j], theirs, special)
  {
    seq(|mine|, j requires 0 <= j < |mine| => if j < k then mine[j] else Soft(mine[j], theirs, special))
  }

  /** The indexes are the same once those that may be are softened. */
  ghost predicate SoftlySame(mine: seq<Item>, theirs: seq<Item>, special: bool) {
    SameIndexes(SoftFrom(mine, theirs, special, 0), theirs)
  }

  /** No index is unique in `mine` and not in `theirs`. */
  ghost predicate Unsoftened(mine: seq<Item>, theirs: seq<Item>) {
    forall j, p | 0 <= j < |mine| && 0 <= p < |theirs| && mine[j].CreateIndex? && theirs[p].CreateIndex? ::
      mine[j].index == theirs[p].index && mine[j].unique ==> theirs[p].unique
  }

  lemma FoundByName(theirs: seq<Item>, wanted: Item, p: nat)
    requires DistinctIndexes(theirs) && p < |theirs|
    requires theirs[p].CreateIndex? && wanted.CreateIndex? && theirs[p].index == wanted.index
    ensures FirstMatch(theirs, wanted) == Some(p)
  {
    assert Matches(theirs[p], wanted);
  }

  ghost predicate Agrees(mine: seq<Item>, theirs: seq<Item>, j: nat)
    requires j < |mine|
  {
    mine[j].CreateIndex? ==>
      FirstMatch(theirs, mine[j]).Some? && Same(mine[j], theirs[FirstMatch(theirs, mine[j]).value])
  }

  /** The scan asks for a rebuild exactly when the two index sets differ. */
  lemma {:induction false} ScanDecides(mine: seq<Item>, theirs: seq<Item>, special: bool, k: nat)
    requires k <= |mine| && DistinctIndexes(mine) && DistinctIndexes(theirs)
    requires forall j :: 0 <= j < k ==> Agrees(mine, theirs, j)
    ensures var scanned := Scan(mine, theirs, special, k);
            !scanned.drop <==> SameIndexes(scanned.sqls, theirs)
    decreases |mine| - k
  {
    if k == |mine| {
      LeftoverMeans(mine, theirs);
    } else if !mine[k].CreateIndex? {
      ScanDecides(mine, theirs, special, k + 1);
    } else {
      match FirstMatch(theirs, mine[k])
      case None =>
        assert mine[k].index in IndexNames(mine);
        assert mine[k].index !in IndexNames(theirs);
      case Some(p) =>
        var mine' := mine[k := Softened(mine[k], theirs[p], special)];
        if Same(mine'[k], theirs[p]) {
          forall j | 0 <= j < k + 1
            ensures Agrees(mine', theirs, j)
          {
            if j == k {
              FoundByName(theirs, mine'[k], p);
            } else {
              assert Agrees(mine, theirs, j);
            }
          }
          ScanDecides(mine', theirs, special, k + 1);
        }
    }
  }

  lemma SoftStep(mine: seq<Item>, theirs: seq<Item>, special: bool, k: nat)
    requires k < |mine|
    ensures var mine' := mine[k := Soft(mine[k], theirs, special)];
            SoftFrom(mine', theirs, special, k + 1) == SoftFrom(mine, theirs, special, k)
  {
  }

  lemma NotSameAt(mine: seq<Item>, theirs: seq<Item>, k: nat)
    requires k < |mine| && mine[k].CreateIndex?
    requires match FirstMatch(theirs, mine[k]) case None => true case Some(p) => !Same(mine[k], theirs[p])
    ensures !SameIndexes(mine, theirs)
  {
    assert mine[k].index in IndexNames(mine);
    if FirstMatch(theirs, mine[k]).None? {
      assert mine[k].index !in IndexNames(theirs);
    }
  }

  lemma SoftKeepsName(item: Item, theirs: seq<Item>, special: bool)
    requires item.CreateIndex?
    ensures Soft(item, theirs, special).CreateIndex? && Soft(item, theirs, special).index == item.index
    ensures FirstMatch(theirs, Soft(item, theirs, special)) == FirstMatch(theirs, item)
  {
  }

  lemma AgreesNext(mine: seq<Item>, mine': seq<Item>, theirs: seq<Item>, k: nat)
    requires k < |mine| == |mine'| && mine' == mine[k := mine'[k]] && Agrees(mine', theirs, k)
    requires forall j :: 0 <= j < k ==> Agrees(mine, theirs, j)
    ensures forall j :: 0 <= j < k + 1 ==> Agrees(mine', theirs, j)
  {
    forall j | 0 <= j < k
      ensures Agrees(mine', theirs, j)
    {
      assert Agrees(mine, theirs, j) && mine'[j] == mine[j];
    }
  }

  /** The scan asks for a rebuild exactly when the indexes differ softly, and otherwise
      has softened every index that may be. */
  lemma {:induction false} ScanSoftens(mine: seq<Item>, theirs: seq<Item>, special: bool, k: nat)
    requires k <= |mine| && DistinctIndexes(theirs)
    requires forall j :: 0 <= j < k ==> Agrees(mine, theirs, j)
    ensures var scanned := Scan(mine, theirs, special, k);
            (!scanned.drop <==> SameIndexes(SoftFrom(mine, theirs, special, k), theirs))
            && (!scanned.drop ==> scanned.sqls == SoftFrom(mine, theirs, special, k))
    decreases |mine| - k
  {
    if k == |mine| {
      assert SoftFrom(mine, theirs, special, k) == mine;
      LeftoverMeans(mine, theirs);
    } else {
      var mine' := mine[k := Soft(mine[k], theirs, special)];
      SoftStep(mine, theirs, special, k);
      if !mine[k].CreateIndex? {
        assert mine' == mine;
        ScanSoftens(mine, theirs, special, k + 1);
      } else {
        SoftKeepsName(mine[k], theirs, special);
        if FirstMatch(theirs, mine[k]).Some? && Same(mine'[k], theirs[FirstMatch(theirs, mine[k]).value]) {
          AgreesNext(mine, mine', theirs, k);
          ScanSoftens(mine', theirs, special, k + 1);
        } else {
          NotSameAt(SoftFrom(mine, theirs, special, k), theirs, k);
        }
      }
    }
  }

  /** Each item comes out of the scan as it was or softened. */
  lemma {:induction false} ScanEach(mine: seq<Item>, theirs: seq<Item>, special: bool, k: nat)
    requires k <= |mine|
    ensures var after := Scan(mine, theirs, special, k).sqls;
            |after| == |mine|
            && forall j :: 0 <= j < |mine| ==> after[j] == mine[j] || after[j] == Soft(mine[j], theirs, special)
    decreases |mine| - k
  {
    if k < |mine| {
      if !mine[k].CreateIndex? {
        ScanEach(mine, theirs, special, k + 1);
      } else {
        var mine' := mine[k := Soft(mine[k], theirs, special)];
        SoftKeepsName(mine[k], theirs, special);
        ScanEach(mine', theirs, special, k + 1);
        assert Soft(mine'[k], theirs, special) == mine'[k];
      }
    }
  }

  /** Where nothing can be softened the scan of a statistics table is the ordinary one. */
  lemma {:induction false} ScanUnsoftened(mine: seq<Item>, theirs: seq<Item>, special: bool, k: nat)
    requires k <= |mine| && (special ==> Unsoftened(mine, theirs))
    ensures Scan(mine, theirs, special, k) == Scan(mine, theirs, false, k)
    decreases |mine| - k
  {
    if k < |mine| {
      ScanUnsoftened(mine, theirs, special, k + 1);
      if mine[k].CreateIndex? && FirstMatch(theirs, mine[k]).Some? {
        var p := FirstMatch(theirs, mine[k]).value;
        assert Softened(mine[k], theirs[p], special) == mine[k];
        assert mine[k := mine[k]] == mine;
      }
    }
  }

  lemma SoftNames(mine: seq<Item>, theirs: seq<Item>, special: bool)
    ensures IndexNames(SoftFrom(mine, theirs, special, 0)) == IndexNames(mine)
  {
    var soft := SoftFrom(mine, theirs, special, 0);
    forall j | 0 <= j < |mine|
      ensures mine[j].CreateIndex? <==> soft[j].CreateIndex?
      ensures mine[j].CreateIndex? ==> soft[j].index == mine[j].index
    {
      if mine[j].CreateIndex? {
        SoftKeepsName(mine[j], theirs, special);
      }
    }
    SameNamesBoth(mine, soft);
    SameNamesBoth(soft, mine);
  }

  lemma SameNamesBoth(a: seq<Item>, b: seq<Item>)
    requires |a| == |b| && forall j :: 0 <= j < |a| && a[j].CreateIndex? ==> b[j].CreateIndex? && b[j].index == a[j].index
    ensures IndexNames(a) <= IndexNames(b)
  {
    forall n | n in IndexNames(a)
      ensures n in IndexNames(b)
    {
      var j :| 0 <= j < |a| && a[j].CreateIndex? && a[j].index == n;
      assert b[j].CreateIndex? && b[j].index == n;
    }
  }

  lemma ScanNames(mine: seq<Item>, theirs: seq<Item>, special: bool)
    ensures IndexNames(Scan(mine, theirs, special, 0).sqls) == IndexNames(mine)
  {
    ScanShape(mine, theirs, special, 0);
    SameNamesBoth(mine, Scan(mine, theirs, special, 0).sqls);
    SameNamesBoth(Scan(mine, theirs, special, 0).sqls, mine);
  }

  /** Where nothing can be softened, softly the same is the same. */
  lemma SoftlyIsSame(mine: seq<Item>, theirs: seq<Item>, special: bool)
    requires DistinctIndexes(theirs) && (special ==> Unsoftened(mine, theirs))
    ensures SoftlySame(mine, theirs, special) <==> SameIndexes(mine, theirs)
  {
    var soft := SoftFrom(mine, theirs, special, 0);
    forall j | 0 <= j < |mine|
      ensures soft[j] == mine[j]
    {
    }
    assert soft == mine;
  }

  lemma SameIsUnsoftened(mine: seq<Item>, theirs: seq<Item>)
    requires SameIndexes(mine, theirs)
    ensures Unsoftened(mine, theirs)
  {
    forall j, p | 0 <= j < |mine| && 0 <= p < |theirs| && mine[j].CreateIndex? && theirs[p].CreateIndex?
                  && mine[j].index == theirs[p].index && mine[j].unique
      ensures theirs[p].unique
    {
      assert Same(mine[j], theirs[p]);
      assert IndexWords(mine[j])[1] == "UNIQUE";
      KeysDiffer();
    }
  }

  lemma KeysDiffer()
    ensures Key("UNIQUE") != Key("INDEX")
  {
    assert Strip("UNIQUE") == "UNIQUE" && Strip("INDEX") == "INDEX";
  }

  lemma SameIndexesSymmetric(a: seq<Item>, b: seq<Item>)
    requires SameIndexes(a, b)
    ensures SameIndexes(b, a)
  {
    forall j, p | 0 <= j < |b| && 0 <= p < |a| && b[j].CreateIndex? && a[p].CreateIndex? && b[j].index == a[p].index
      ensures Same(b[j], a[p])
    {
      assert Same(a[p], b[j]);
    }
  }

  lemma LeftoverMeans(mine: seq<Item>, theirs: seq<Item>)
    requires DistinctIndexes(theirs)
    requires forall j :: 0 <= j < |mine| ==> Agrees(mine, theirs, j)
    ensures !Leftover(mine, theirs) <==> SameIndexes(mine, theirs)
  {
    forall j, p | 0 <= j < |mine| && 0 <= p < |theirs| && mine[j].CreateIndex? && theirs[p].CreateIndex?
                  && mine[j].index == theirs[p].index
      ensures Same(mine[j], theirs[p]) && Claimed(mine, theirs, p)
    {
      FoundByName(theirs, mine[j], p);
      assert Agrees(mine, theirs, j);
    }
    forall n | n in IndexNames(mine)
      ensures n in IndexNames(theirs)
    {
      var j :| 0 <= j < |mine| && mine[j].CreateIndex? && mine[j].index == n;
      assert Agrees(mine, theirs, j);
      assert theirs[FirstMatch(theirs, mine[j]).value].index == n;
    }
    forall p | 0 <= p < |theirs| && theirs[p].CreateIndex?
      ensures Claimed(mine, theirs, p) <==> theirs[p].index in IndexNames(mine)
    {
      if Claimed(mine, theirs, p) {
        var j :| 0 <= j < |mine| && FirstMatch(theirs, mine[j]) == Some(p);
        assert mine[j].CreateIndex?;
      }
    }
    assert forall p :: 0 <= p < |theirs| && theirs[p].CreateIndex? ==> theirs[p].index in IndexNames(theirs);
  }

  /** A table at the index set of one release is at that of another exactly when
      the two sets agree. */
  lemma IndexesTransfer(indexes: map<string, seq<string>>, mine: seq<Item>, theirs: seq<Item>)
    requires IndexesAre(indexes, theirs)
    ensures IndexesAre(indexes, mine) <==> SameIndexes(mine, theirs)
  {
    forall j, p | 0 <= j < |mine| && 0 <= p < |theirs| && mine[j].CreateIndex? && theirs[p].CreateIndex?
                  && mine[j].index == theirs[p].index
      ensures Same(mine[j], theirs[p]) <==> SameWords(indexes[mine[j].index], IndexWords(mine[j]))
    {
      assert SameWords(indexes[theirs[p].index], IndexWords(theirs[p]));
    }
    if SameIndexes(mine, theirs) {
      forall j | 0 <= j < |mine| && mine[j].CreateIndex?
        ensures mine[j].index in indexes && SameWords(indexes[mine[j].index], IndexWords(mine[j]))
      {
        assert mine[j].index in IndexNames(mine);
        var p :| 0 <= p < |theirs| && theirs[p].CreateIndex? && theirs[p].index == mine[j].index;
      }
    }
  }

  // -------------------------------------------------------------- upgrade diffs run

  /** The column lines that `newer` has and `older` has not. */
  function AddedLines(newer: Item, older: Item): seq<string>
    requires newer.CreateTable? && older.CreateTable? && |older.def.items| <= |newer.def.items|
  {
    Trimmed(newer.def.items[|older.def.items|..])
  }

  lemma TableUpgradeIs(newer: Item, older: Item)
    requires newer.CreateTable? && older.CreateTable? && TableUpgrade(newer, older).Ok?
    ensures Extends(newer.def.items, older.def.items)
    ensures TableUpgrade(newer, older) == Changes(newer.table, AddedLines(newer, older))
  {
  }

  lemma {:induction false} ChangesShape(table: string, increment: seq<string>)
    requires Changes(table, increment).Ok?
    ensures |Changes(table, increment).value.adds| == |increment|
    ensures increment == [] ==> Changes(table, increment).value.backfills == []
  {
    if increment != [] {
      ChangesShape(table, increment[..|increment| - 1]);
    }
  }

  lemma ColumnOfLine(line: string)
    ensures Column(Trim(line)) == ItemWords(line) == Split(Trim(line))
  {
    StripTwice(Strip(line), c => c == ',');
  }

  /** Old columns followed by the added ones are the columns of the newer release. */
  lemma GrownColumns(columns: seq<seq<string>>, newer: Item, older: Item)
    requires newer.CreateTable? && older.CreateTable? && Extends(newer.def.items, older.def.items)
    requires ColumnsAre(columns, older.def.items)
    ensures ColumnsAre(columns + Added(AddedLines(newer, older)), newer.def.items)
    ensures Names(columns + Added(AddedLines(newer, older))) == Names(Columns(newer.def.items))
  {
    var lines := AddedLines(newer, older);
    var grown := columns + Added(lines);
    var items := newer.def.items;
    forall i | 0 <= i < |items|
      ensures SameWords(grown[i], ItemWords(items[i]))
      ensures ColumnName(grown[i]) == ColumnName(ItemWords(items[i]))
    {
      if i < |older.def.items| {
        assert SameItem(items[i], older.def.items[i]);
      } else {
        ColumnOfLine(items[i]);
      }
    }
  }

  /** The rows after the additions, and after the defaults if those were run. */
  function GrownRows(rows: seq<Row>, lines: seq<string>, filled: bool): seq<Row> {
    if filled then FilledRows(DefaultRows(rows, lines), lines) else DefaultRows(rows, lines)
  }

  /** The database takes the additions, and the defaults if those are written. */
  predicate Takes(lines: seq<string>, populated: bool, filled: bool) {
    (populated ==> AllAddable(lines)) && (filled ==> AllWritable(lines, populated))
  }

  lemma CalledAt(columns: seq<seq<string>>, k: nat)
    requires Distinct(Names(columns)) && k < |columns|
    ensures ColumnName(columns[k]) in Names(columns) && ColumnCalled(columns, ColumnName(columns[k])) == columns[k]
  {
    assert Names(columns)[k] == ColumnName(columns[k]);
  }

  lemma AddedIsColumn(columns: seq<seq<string>>, lines: seq<string>, i: nat)
    requires i < |lines| && Column(lines[i]) == Split(lines[i]) && Distinct(Names(columns + Added(lines)))
    ensures IsColumn(lines[i], columns + Added(lines))
  {
    var grown := columns + Added(lines);
    assert grown[|columns| + i] == Column(lines[i]);
    CalledAt(grown, |columns| + i);
  }

  lemma AddedAreColumns(columns: seq<seq<string>>, newer: Item, older: Item)
    requires newer.CreateTable? && older.CreateTable? && |older.def.items| <= |newer.def.items|
    requires Distinct(Names(columns + Added(AddedLines(newer, older))))
    ensures var lines := AddedLines(newer, older);
            forall i :: 0 <= i < |lines| ==> IsColumn(lines[i], columns + Added(lines))
  {
    var lines := AddedLines(newer, older);
    forall i | 0 <= i < |lines|
      ensures IsColumn(lines[i], columns + Added(lines))
    {
      ColumnOfLine(newer.def.items[|older.def.items| + i]);
      AddedIsColumn(columns, lines, i);
    }
  }

  lemma FilledRuns(name: string, table: string, lines: seq<string>, t: Table)
    requires Refers(table, name) && Changes(table, lines).Ok?
    requires Distinct(Names(t.columns + Added(lines)))
    requires forall i :: 0 <= i < |lines| ==> IsColumn(lines[i], t.columns + Added(lines))
    ensures var change := Changes(table, lines).value;
            Run(name, change.adds + change.backfills, Present(t))
            == if Takes(lines, t.rows != [], true)
               then Some(Present(Table(t.columns + Added(lines), t.indexes, FilledRows(DefaultRows(t.rows, lines), lines))))
               else None
  {
    var change := Changes(table, lines).value;
    AddsRun(name, table, lines, t);
    RunConcat(name, change.adds, change.backfills, Present(t));
    if t.rows == [] || AllAddable(lines) {
      BackfillsRun(name, table, lines, Table(t.columns + Added(lines), t.indexes, DefaultRows(t.rows, lines)));
    }
  }

  lemma ColumnsGrow(name: string, newer: Item, older: Item, t: Table, filled: bool)
    requires newer.CreateTable? && older.CreateTable? && Refers(newer.table, name)
    requires TableUpgrade(newer, older).Ok? && ColumnsAre(t.columns, older.def.items)
    requires Distinct(Names(Columns(newer.def.items)))
    ensures |older.def.items| <= |newer.def.items|
    ensures var lines := AddedLines(newer, older);
            Run(name, GrowScript(newer, older, filled), Present(t))
            == if Takes(lines, t.rows != [], filled)
               then Some(Present(Table(t.columns + Added(lines), t.indexes, GrownRows(t.rows, lines, filled)))) else None
  {
    TableUpgradeIs(newer, older);
    var lines := AddedLines(newer, older);
    GrownColumns(t.columns, newer, older);
    if filled {
      AddedAreColumns(t.columns, newer, older);
      FilledRuns(name, newer.table, lines, t);
    } else {
      AddsRun(name, newer.table, lines, t);
    }
  }

  /** Dropping every index of one set and making those of another. */
  lemma RebuildRuns(name: string, mine: seq<Item>, theirs: seq<Item>, t: Table) returns (t': Table)
    requires DistinctIndexes(mine) && DistinctIndexes(theirs) && t.indexes.Keys == IndexNames(theirs)
    requires forall i :: 0 <= i < |mine| ==> Refers(mine[i].table, name)
    requires forall i :: 0 <= i < |theirs| ==> Refers(theirs[i].table, name)
    ensures Run(name, Drops(theirs) + Creates(mine), Present(t)) == Some(Present(t'))
    ensures t'.columns == t.columns && t'.rows == t.rows && IndexesExactly(t'.indexes, mine)
  {
    DropsRun(name, theirs, t);
    var bare := t.(indexes := t.indexes - IndexNames(theirs));
    t' := CreatesRun(name, mine, bare);
    RunConcat(name, Drops(theirs), Creates(mine), Present(t));
  }

  ghost predicate Ready(name: string, mine: seq<Item>, theirs: seq<Item>) {
    ValidItems(name, mine) && ValidItems(name, theirs) && DistinctIndexes(mine) && DistinctIndexes(theirs)
    && Distinct(Names(Columns(mine[0].def.items)))
  }

  /** The table after an upgrade diff, apart from its indexes. */
  ghost function Grown(mine: Item, theirs: Item, t: Table, filled: bool): Table
    requires mine.CreateTable? && theirs.CreateTable? && |theirs.def.items| <= |mine.def.items|
  {
    var lines := AddedLines(mine, theirs);
    Table(t.columns + Added(lines), t.indexes, GrownRows(t.rows, lines, filled))
  }

  /** Additions and defaults, which bring columns and rows to the new release. */
  function GrowScript(mine: Item, theirs: Item, filled: bool): seq<Stmt>
    requires mine.CreateTable? && theirs.CreateTable? && TableUpgrade(mine, theirs).Ok?
  {
    var change := TableUpgrade(mine, theirs).value;
    if filled then change.adds + change.backfills else change.adds
  }

  /** After that script comes, if there is a rebuild, the index part alone. */
  lemma UpgradeParts(special: bool, mine: seq<Item>, theirs: seq<Item>)
    requires |mine| > 0 && mine[0].CreateTable? && |theirs| > 0 && theirs[0].CreateTable?
    requires UpgradeAligned(special, mine, theirs).Ok?
    ensures TableUpgrade(mine[0], theirs[0]).Ok?
    ensures var plan := UpgradeAligned(special, mine, theirs).value;
            plan.diff == GrowScript(mine[0], theirs[0], !plan.drop || HasLoad(mine))
                         + (if plan.drop && HasLoad(mine) then Drops(theirs) + Creates(plan.sqls) else [])
            && plan.drop == Scan(mine, theirs, special, 0).drop && plan.sqls == Scan(mine, theirs, special, 0).sqls
  {
    var plan := UpgradeAligned(special, mine, theirs).value;
    var change := TableUpgrade(mine[0], theirs[0]).value;
    TableUpgradeIs(mine[0], theirs[0]);
    ChangesShape(mine[0].table, AddedLines(mine[0], theirs[0]));
    assert plan.diff + [] == plan.diff;
  }

  /** The defaults are written: nothing is rebuilt, or the release loads its dictionary. */
  ghost predicate Fills(mine: seq<Item>, theirs: seq<Item>, special: bool) {
    SoftlySame(mine, theirs, special) || HasLoad(mine)
  }

  /** The database accepts the script. */
  ghost predicate Runs(mine: seq<Item>, theirs: seq<Item>, special: bool, populated: bool)
    requires |mine| > 0 && mine[0].CreateTable? && |theirs| > 0 && theirs[0].CreateTable?
    requires |theirs[0].def.items| <= |mine[0].def.items|
  {
    Takes(AddedLines(mine[0], theirs[0]), populated, Fills(mine, theirs, special))
  }

  lemma DropMeans(special: bool, mine: seq<Item>, theirs: seq<Item>)
    requires |mine| > 0 && mine[0].CreateTable? && |theirs| > 0 && theirs[0].CreateTable?
    requires UpgradeAligned(special, mine, theirs).Ok? && DistinctIndexes(theirs)
    ensures UpgradeAligned(special, mine, theirs).value.drop <==> !SoftlySame(mine, theirs, special)
    ensures Extends(mine[0].def.items, theirs[0].def.items)
  {
    UpgradeParts(special, mine, theirs);
    TableUpgradeIs(mine[0], theirs[0]);
    ScanSoftens(mine, theirs, special, 0);
  }

  lemma UpgradeAlignedRuns(name: string, special: bool, mine: seq<Item>, theirs: seq<Item>, t: Table)
    returns (t': Table)
    requires Ready(name, mine, theirs) && Realises(t, theirs)
    requires UpgradeAligned(special, mine, theirs).Ok?
    ensures Extends(mine[0].def.items, theirs[0].def.items)
    ensures var plan := UpgradeAligned(special, mine, theirs).value;
            if Runs(mine, theirs, special, t.rows != [])
            then Run(name, plan.diff, Present(t)) == Some(Present(t'))
                 && t' == Grown(mine[0], theirs[0], t, Fills(mine, theirs, special)).(indexes := t'.indexes)
                 && (if plan.drop && HasLoad(mine) then IndexesExactly(t'.indexes, plan.sqls)
                     else t'.indexes == t.indexes)
            else Run(name, plan.diff, Present(t)) == None
  {
    var plan := UpgradeAligned(special, mine, theirs).value;
    UpgradeParts(special, mine, theirs);
    DropMeans(special, mine, theirs);
    var filled := Fills(mine, theirs, special);
    var rest := if plan.drop && HasLoad(mine) then Drops(theirs) + Creates(plan.sqls) else [];
    ColumnsGrow(name, mine[0], theirs[0], t, filled);
    RunConcat(name, GrowScript(mine[0], theirs[0], filled), rest, Present(t));
    t' := Grown(mine[0], theirs[0], t, filled);
    if plan.drop && HasLoad(mine) && Runs(mine, theirs, special, t.rows != []) {
      ScanShape(mine, theirs, special, 0);
      t' := RebuildRuns(name, plan.sqls, theirs, t');
    }
  }

  /** The same in terms of releases: the columns always arrive, the indexes arrive
      exactly when there is nothing to rebuild or a dictionary load to rebuild at. */
  lemma UpgradeAlignedMeans(name: string, special: bool, mine: seq<Item>, theirs: seq<Item>, t: Table, t': Table)
    requires Ready(name, mine, theirs) && Realises(t, theirs)
    requires UpgradeAligned(special, mine, theirs).Ok?
    requires Run(name, UpgradeAligned(special, mine, theirs).value.diff, Present(t)) == Some(Present(t'))
    ensures ColumnsAre(t'.columns, mine[0].def.items) && t.columns <= t'.columns
    ensures var plan := UpgradeAligned(special, mine, theirs).value;
            IndexesAre(t'.indexes, plan.sqls) <==> Fills(mine, theirs, special)
  {
    var plan := UpgradeAligned(special, mine, theirs).value;
    var end := UpgradeAlignedRuns(name, special, mine, theirs, t);
    UpgradeParts(special, mine, theirs);
    DropMeans(special, mine, theirs);
    GrownColumns(t.columns, mine[0], theirs[0]);
    ScanDecides(mine, theirs, special, 0);
    if plan.drop && HasLoad(mine) {
      ExactlyIsAre(t'.indexes, plan.sqls);
    } else {
      IndexesTransfer(t.indexes, plan.sqls, theirs);
    }
  }

  lemma ExactlyIsAre(indexes: map<string, seq<string>>, sqls: seq<Item>)
    requires IndexesExactly(indexes, sqls)
    ensures IndexesAre(indexes, sqls)
  {
  }

  /** Two readings of a release that differ in the tail of CREATE TABLE only. */
  predicate Alike(a: seq<Item>, b: seq<Item>) {
    |a| == |b| && |a| > 0 && a[0].CreateTable? && b[0].CreateTable?
    && a[0].def.items == b[0].def.items && a[0].table == b[0].table
    && forall i :: 0 < i < |a| ==> a[i] == b[i]
  }

  lemma AlikeMeans(a: seq<Item>, b: seq<Item>)
    requires Alike(a, b)
    ensures IndexNames(a) == IndexNames(b) && HasLoad(a) == HasLoad(b)
    ensures DistinctIndexes(a) == DistinctIndexes(b)
    ensures forall m :: IndexesAre(m, a) <==> IndexesAre(m, b)
    ensures forall m :: IndexesExactly(m, a) <==> IndexesExactly(m, b)
    ensures forall name :: ValidItems(name, a) <==> ValidItems(name, b)
  {
    assert HasLoad(a) ==> HasLoad(b) by {
      if i :| 0 <= i < |a| && a[i].LoadDictionary? {
        assert b[i].LoadDictionary?;
      }
    }
    assert HasLoad(b) ==> HasLoad(a) by {
      if i :| 0 <= i < |b| && b[i].LoadDictionary? {
        assert a[i].LoadDictionary?;
      }
    }
  }

  lemma AlikeSameIndexes(a: seq<Item>, b: seq<Item>, c: seq<Item>, d: seq<Item>)
    requires Alike(a, b) && Alike(c, d)
    ensures SameIndexes(a, c) <==> SameIndexes(b, d)
  {
    AlikeMeans(a, b);
    AlikeMeans(c, d);
  }

  lemma FirstMatchSame(a: seq<Item>, b: seq<Item>, wanted: Item)
    requires |a| == |b| && forall j :: 0 <= j < |a| ==> (Matches(a[j], wanted) <==> Matches(b[j], wanted))
    ensures FirstMatch(a, wanted) == FirstMatch(b, wanted)
  {
  }

  lemma AlikeFirstMatch(a: seq<Item>, b: seq<Item>, wanted: Item)
    requires Alike(a, b) && wanted.CreateIndex?
    ensures FirstMatch(a, wanted) == FirstMatch(b, wanted)
  {
    forall j | 0 <= j < |a|
      ensures Matches(a[j], wanted) <==> Matches(b[j], wanted)
    {
      assert j > 0 ==> a[j] == b[j];
    }
    FirstMatchSame(a, b, wanted);
  }

  lemma AlikeSoftly(a: seq<Item>, b: seq<Item>, c: seq<Item>, d: seq<Item>, special: bool)
    requires Alike(a, b) && Alike(c, d)
    ensures SoftlySame(a, c, special) <==> SoftlySame(b, d, special)
    ensures Fills(a, c, special) <==> Fills(b, d, special)
    ensures Unsoftened(a, c) <==> Unsoftened(b, d)
  {
    var x, y := SoftFrom(a, c, special, 0), SoftFrom(b, d, special, 0);
    forall i | 0 <= i < |a|
      ensures i > 0 ==> x[i] == y[i]
    {
      if i > 0 && a[i].CreateIndex? {
        AlikeFirstMatch(c, d, a[i]);
      }
    }
    assert x[0] == a[0] && y[0] == b[0];
    AlikeSameIndexes(x, y, c, d);
    AlikeMeans(a, b);
  }

  /** The two releases as the generator reads them. */
  function Aligned(newer: Group, older: Group): (seq<Item>, seq<Item>)
    requires ValidGroup(newer) && ValidGroup(older)
  {
    var moved := MovesTablespace(newer.table, newer.sqls[0].def, older.sqls[0].def);
    if moved.Ok? && moved.value then (Realign(newer.sqls), Realign(older.sqls)) else (newer.sqls, older.sqls)
  }

  lemma AlignedAlike(newer: Group, older: Group)
    requires ValidGroup(newer) && ValidGroup(older)
    ensures Alike(Aligned(newer, older).0, newer.sqls) && Alike(Aligned(newer, older).1, older.sqls)
  {
    RealignAlike(newer.sqls);
    RealignAlike(older.sqls);
  }

  lemma RealignAlike(sqls: seq<Item>)
    requires |sqls| > 0 && sqls[0].CreateTable?
    ensures Alike(Realign(sqls), sqls)
  {
    forall i | 0 < i < |sqls|
      ensures Realign(sqls)[i] == sqls[i]
    {
      assert Realign(sqls)[1..][i - 1] == sqls[1..][i - 1];
    }
  }

  lemma AlignedReady(newer: Group, older: Group)
    requires Sound(newer) && Sound(older) && newer.table == older.table
    ensures Ready(newer.table, Aligned(newer, older).0, Aligned(newer, older).1)
  {
    AlignedAlike(newer, older);
    AlikeMeans(Aligned(newer, older).0, newer.sqls);
    AlikeMeans(Aligned(newer, older).1, older.sqls);
  }

  /** The defaults of the added columns are written: nothing is rebuilt, or the newer
      release loads its dictionary. */
  ghost predicate Filled(newer: Group, older: Group) {
    Fills(newer.sqls, older.sqls, newer.table in SPECIAL_TABLES)
  }

  /** The database accepts the upgrade of a table with or without rows. */
  ghost predicate Runnable(newer: Group, older: Group, populated: bool)
    requires ValidGroup(newer) && ValidGroup(older) && |older.sqls[0].def.items| <= |newer.sqls[0].def.items|
  {
    Takes(AddedLines(newer.sqls[0], older.sqls[0]), populated, Filled(newer, older))
  }

  lemma UpgradeIsAligned(newer: Group, older: Group)
    requires Sound(newer) && Sound(older) && newer.table == older.table && Upgrade(newer, Some(older)).Ok?
    ensures Extends(newer.sqls[0].def.items, older.sqls[0].def.items)
    ensures var (mine, theirs) := Aligned(newer, older);
            var special := newer.table in SPECIAL_TABLES;
            Upgrade(newer, Some(older)) == UpgradeAligned(special, mine, theirs)
            && Ready(newer.table, mine, theirs) && Alike(mine, newer.sqls) && Alike(theirs, older.sqls)
            && AddedLines(mine[0], theirs[0]) == AddedLines(newer.sqls[0], older.sqls[0])
            && (Filled(newer, older) <==> Fills(mine, theirs, special))
            && (forall populated :: Runnable(newer, older, populated) <==> Runs(mine, theirs, special, populated))
            && (Upgrade(newer, Some(older)).value.drop <==> !SoftlySame(newer.sqls, older.sqls, special))
  {
    var (mine, theirs) := Aligned(newer, older);
    var special := newer.table in SPECIAL_TABLES;
    AlignedReady(newer, older);
    AlignedAlike(newer, older);
    assert Upgrade(newer, Some(older)) == UpgradeAligned(special, mine, theirs);
    DropMeans(special, mine, theirs);
    AlikeSoftly(mine, newer.sqls, theirs, older.sqls, special);
  }

  /** UPGRADE.  Run on any table at the old release, the diff of an accepted upgrade is
      accepted by the database if and only if every default it writes is a whole value
      and, where the table has rows, none of them would be null in an added column that
      refuses null: neither by its declared default nor by the one written.
      It then ends with the columns of the new release, keeps every old column, and ends
      with the indexes of the new release (as the scan read it) exactly when no rebuild
      was needed or the new release loads its dictionary: the rebuild is emitted at that
      statement only. */
  lemma UpgradePreservesMeaning(newer: Group, older: Group, t: Table) returns (t': Table)
    requires Sound(newer) && Sound(older) && newer.table == older.table
    requires Upgrade(newer, Some(older)).Ok? && Realises(t, older.sqls)
    ensures Extends(newer.sqls[0].def.items, older.sqls[0].def.items)
    ensures var plan := Upgrade(newer, Some(older)).value;
            if Runnable(newer, older, t.rows != [])
            then Run(newer.table, plan.diff, Present(t)) == Some(Present(t'))
                 && ColumnsAre(t'.columns, newer.sqls[0].def.items) && t.columns <= t'.columns
                 && (IndexesAre(t'.indexes, plan.sqls) <==> Filled(newer, older))
            else Run(newer.table, plan.diff, Present(t)) == None
  {
    var (mine, theirs) := Aligned(newer, older);
    var special := newer.table in SPECIAL_TABLES;
    UpgradeIsAligned(newer, older);
    AlikeMeans(theirs, older.sqls);
    t' := UpgradeAlignedRuns(newer.table, special, mine, theirs, t);
    if Runnable(newer, older, t.rows != []) {
      UpgradeAlignedMeans(newer.table, special, mine, theirs, t, t');
    }
  }

  /** Where no index can be softened the scan changes nothing, so the diff takes a table
      at the old release to the new release exactly when the two releases have the same
      indexes or the new one loads its dictionary. */
  lemma UpgradeReachesRelease(newer: Group, older: Group, t: Table) returns (t': Table)
    requires Sound(newer) && Sound(older) && newer.table == older.table
    requires newer.table in SPECIAL_TABLES ==> Unsoftened(newer.sqls, older.sqls)
    requires Upgrade(newer, Some(older)).Ok? && Realises(t, older.sqls)
    ensures Upgrade(newer, Some(older)).value.drop <==> !SameIndexes(newer.sqls, older.sqls)
    ensures Filled(newer, older) <==> SameIndexes(newer.sqls, older.sqls) || HasLoad(newer.sqls)
    ensures Extends(newer.sqls[0].def.items, older.sqls[0].def.items)
    ensures Runnable(newer, older, t.rows != []) ==>
              Run(newer.table, Upgrade(newer, Some(older)).value.diff, Present(t)) == Some(Present(t'))
              && (Realises(t', newer.sqls) <==> SameIndexes(newer.sqls, older.sqls) || HasLoad(newer.sqls))
  {
    t' := UpgradePreservesMeaning(newer, older, t);
    UpgradeIsAligned(newer, older);
    PlanUnsoftened(newer, older);
    AlikeMeans(Aligned(newer, older).0, newer.sqls);
  }

  lemma PlanUnsoftened(newer: Group, older: Group)
    requires Sound(newer) && Sound(older) && newer.table == older.table && Upgrade(newer, Some(older)).Ok?
    requires newer.table in SPECIAL_TABLES ==> Unsoftened(newer.sqls, older.sqls)
    ensures Upgrade(newer, Some(older)).value.sqls == Aligned(newer, older).0
    ensures Upgrade(newer, Some(older)).value.drop <==> !SameIndexes(newer.sqls, older.sqls)
  {
    var (mine, theirs) := Aligned(newer, older);
    var special := newer.table in SPECIAL_TABLES;
    UpgradeIsAligned(newer, older);
    UpgradeParts(special, mine, theirs);
    AlikeSoftly(mine, newer.sqls, theirs, older.sqls, special);
    ScanUnsoftened(mine, theirs, special, 0);
    ScanShape(mine, theirs, false, 0);
    ScanDecides(mine, theirs, false, 0);
    AlikeSameIndexes(mine, newer.sqls, theirs, older.sqls);
  }

  /** A release with one column and no index. */
  function Unindexed(version: nat): Group {
    Group("T", version, [CreateTable(Permanent, "T", TableDef("CREATE TABLE T ", ["A"], ""))])
  }

  /** The same with an index, and without a dictionary load. */
  function Indexed(version: nat): Group {
    Group("T", version, Unindexed(version).sqls + [CreateIndex(true, "I", "T", ["T(A)"])])
  }

  lemma IndexedSound(version: nat)
    ensures Sound(Unindexed(version)) && Sound(Indexed(version))
  {
    var names := Names(Columns(["A"]));
    assert |names| == 1;
  }

  /** An index that only the newer release has is forgotten when that release does not
      load the dictionary: the script is empty. */
  lemma IndexForgotten(version: nat, next: nat)
    ensures var older, newer := Unindexed(version), Indexed(next);
            Sound(older) && Sound(newer) && !SameIndexes(newer.sqls, older.sqls)
            && Upgrade(newer, Some(older)).Ok? && Upgrade(newer, Some(older)).value.diff == []
  {
    IndexedSound(version);
    IndexedSound(next);
    var mine, theirs := Indexed(next).sqls, Unindexed(version).sqls;
    assert FirstMatch(theirs, mine[0]) == Some(0);
    assert Claimed(mine, theirs, 0);
    assert FirstMatch(theirs, mine[1]) == None;
    assert Scan(mine, theirs, false, 1) == Scanned(true, mine, false);
    assert "I" in IndexNames(mine) by { assert mine[1].CreateIndex?; }
    assert Split("") == [];
  }
}
