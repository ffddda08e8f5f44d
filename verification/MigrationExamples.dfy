/** Releases on which the migration compiler does not do what one would expect. */
module MigrationExamples {
  import opened Wrappers
  import opened SqlText
  import opened CreateTableSql
  import opened Schema
  import opened Migration
  import opened MigrationMeaning
  import opened MigrationRoundTrip
  import opened Defaults

  // ------------------------------------------------- a table that gains one column

  function WithColumns(version: nat, items: seq<string>): Group {
    Group("T", version, [CreateTable(Permanent, "T", TableDef("CREATE TABLE T ", items, ""))])
  }

  const OLDER := WithColumns(1, ["A"])

  function Newer(line: string): Group {
    WithColumns(2, ["A", line])
  }

  const NO_ROWS := Table([["A"]], map[], [])
  const ONE_ROW := Table([["A"]], map[], [map["A" := Text("1")]])

  lemma {:induction false} JoinEnds(words: seq<string>)
    requires AllWords(words) && words != []
    ensures var s, last := Join(words, " "), words[|words| - 1];
            s != "" && s[0] == words[0][0] && s[|s| - 1] == last[|last| - 1]
  {
    if |words| > 1 {
      JoinEnds(words[1..]);
    }
  }

  /** A line is not trimmed where it has neither a blank nor a comma at its ends. */
  lemma TrimKeeps(line: string)
    requires line != "" && !IsBlank(line[0]) && line[0] != ','
    requires !IsBlank(line[|line| - 1]) && line[|line| - 1] != ','
    ensures Trim(line) == line
  {
  }

  /** The column line of the given words. */
  lemma LineOf(words: seq<string>)
    requires AllWords(words) && words != [] && words[0][0] != ','
    requires var last := words[|words| - 1]; last[|last| - 1] != ','
    ensures Split(Join(words, " ")) == words && Trim(Join(words, " ")) == Join(words, " ")
  {
    SplitOfJoin(words);
    JoinEnds(words);
    assert IsWord(words[0]) && IsWord(words[|words| - 1]);
    TrimKeeps(Join(words, " "));
  }

  lemma OldColumn()
    ensures ItemWords("A") == ["A"] && Key("A") == "A"
  {
    assert AllWords(["A"]);
    SplitOfJoin(["A"]);
    TrimKeeps("A");
    assert Strip("A") == "A";
  }

  /** The two releases are sound, the old table is at the old one, and the upgrade between
      them is accepted exactly when a NOT NULL line has a default word. */
  lemma OneColumnMore(line: string)
    requires Trim(line) == line && Split(line) != [] && Key(Split(line)[0]) != "A"
    ensures Sound(Newer(line)) && Sound(OLDER) && Realises(ONE_ROW, OLDER.sqls) && Realises(NO_ROWS, OLDER.sqls)
    ensures NewLines(Newer(line), OLDER) == [line] && Filled(Newer(line), OLDER)
    ensures Upgrade(Newer(line), Some(OLDER)).Ok? <==> (NotNull(line) ==> HasDefaultWord(line))
    ensures Degrade(Newer(line), Some(OLDER), false).Ok? <==> (NotNull(line) ==> MentionsDefault(line))
  {
    SoundPair(line);
    NewLineIs(line);
    NoIndexes(Newer(line), OLDER);
    AlignedPair(line);
  }

  lemma SoundPair(line: string)
    requires Trim(line) == line && Split(line) != [] && Key(Split(line)[0]) != "A"
    ensures Sound(Newer(line)) && Sound(OLDER) && Realises(ONE_ROW, OLDER.sqls) && Realises(NO_ROWS, OLDER.sqls)
  {
    OldColumn();
    NamesOf(line);
  }

  lemma NewLineIs(line: string)
    requires Trim(line) == line
    ensures NewLines(Newer(line), OLDER) == [line]
  {
    assert Trimmed(["A", line][1..]) == [line];
  }

  lemma NoIndexes(a: Group, b: Group)
    requires |a.sqls| == 1 && |b.sqls| == 1 && a.sqls[0].CreateTable? && b.sqls[0].CreateTable?
    ensures Filled(a, b)
  {
    assert SameIndexes(SoftFrom(a.sqls, b.sqls, a.table in SPECIAL_TABLES, 0), b.sqls);
  }

  lemma NamesOf(line: string)
    requires Trim(line) == line && Split(line) != [] && Key(Split(line)[0]) != "A"
    ensures Distinct(Names(Columns(["A", line])))
  {
    OldColumn();
    var names := Names(Columns(["A", line]));
    assert names[0] == "A" && names[1] == Key(Split(line)[0]);
  }

  lemma EmptyTail()
    ensures SamePost("", "") == Ok(true) && TableSpace(TableDef("CREATE TABLE T ", ["A"], "")) == Ok("UNKNOWN") && Split("") == []
  {
    assert Find("", "STORAGE", 0) == None && Find("", "PCTFREE", 0) == None;
    assert Split("") == [];
  }

  lemma AlignedPair(line: string)
    requires Trim(line) == line
    ensures Upgrade(Newer(line), Some(OLDER)).Ok? <==> (NotNull(line) ==> HasDefaultWord(line))
    ensures Degrade(Newer(line), Some(OLDER), false).Ok? <==> (NotNull(line) ==> MentionsDefault(line))
  {
    var mine, theirs := Newer(line).sqls, OLDER.sqls;
    EmptyTail();
    assert FirstMatch(theirs, mine[0]) == Some(0) && Claimed(mine, theirs, 0);
    assert AllMatched(mine, theirs);
    OneLine(line);
  }

  lemma OneLine(line: string)
    requires Trim(line) == line
    ensures var mine, theirs := Newer(line).sqls[0], OLDER.sqls[0];
            (TableUpgrade(mine, theirs).Ok? <==> (NotNull(line) ==> HasDefaultWord(line)))
            && (TableDegrade(theirs, mine).Ok? <==> (NotNull(line) ==> MentionsDefault(line)))
  {
    var mine, theirs := Newer(line).sqls[0], OLDER.sqls[0];
    EmptyTail();
    assert TableIncrement(mine.def, theirs.def) == Ok([line]) by {
      assert Trimmed(["A", line][1..]) == [line];
    }
    ChangesAccept("T", [line]);
    AllDefaultedStep([line]);
    assert [line][..0] == [];
  }

  // --------------------------------------------------------------- what goes wrong

  const NULL_DEFAULT := ["B", "INT", "DEFAULT", "NULL", "NOT", "NULL"]
  const KEY_ADDED := ["B", "INT", "PRIMARY", "KEY"]
  const CUT_DEFAULT := ["B", "CHAR", "DEFAULT", "'a", "b'", "NOT", "NULL"]
  const DEFAULTED := ["DEFAULTED", "BINARY_INTEGER", "NOT", "NULL"]

  lemma PlainWords()
    ensures Upper("B") == "B" && Upper("INT") == "INT" && Upper("CHAR") == "CHAR" && Upper("DEFAULT") == "DEFAULT"
    ensures Upper("NOT") == "NOT" && Upper("NULL") == "NULL" && Upper("'a") == "'A" && Strip("B") == "B"
    ensures Upper("PRIMARY") == "PRIMARY" && Upper("KEY") == "KEY"
  {
  }

  predicate Unquoted(s: string) {
    forall i :: 0 <= i < |s| ==> s[i] != '\'' && s[i] != '(' && s[i] != ')'
  }

  lemma {:induction false} UnquotedIsClosed(s: string)
    requires Unquoted(s)
    ensures ClosedFrom(s, false, 0)
  {
    if s != "" {
      UnquotedIsClosed(s[1..]);
    }
  }

  lemma {:induction false} UnquotedJoin(words: seq<string>)
    requires forall i :: 0 <= i < |words| ==> Unquoted(words[i])
    ensures Unquoted(Join(words, " "))
  {
    if |words| > 1 {
      UnquotedJoin(words[1..]);
    }
  }

  /** A clause behind words without quotes and parentheses. */
  lemma ClauseBehind(column: seq<string>, k: nat, a: string, b: string)
    requires 0 < k && k + 1 < |column| && Upper(column[k]) == a && Upper(column[k + 1]) == b
    requires forall i :: 0 <= i < k ==> Unquoted(column[i])
    ensures HasClause(column, a, b)
  {
    UnquotedJoin(column[..k]);
    UnquotedIsClosed(Join(column[..k], " "));
    assert ClauseAt(column, k, a, b);
  }

  lemma NullIsValue()
    ensures IsValue("NULL")
  {
    UnquotedIsClosed("NULL");
  }

  /** What the compiler accepts and the database refuses for a table with rows, though not
      for one without. */
  ghost predicate RefusedWithRows(line: string) {
    ValidGroup(Newer(line)) && ValidGroup(OLDER) && Upgrade(Newer(line), Some(OLDER)).Ok?
    && Run("T", Upgrade(Newer(line), Some(OLDER)).value.diff, Present(ONE_ROW)) == None
    && Run("T", Upgrade(Newer(line), Some(OLDER)).value.diff, Present(NO_ROWS)).Some?
  }

  lemma NotAddable(line: string)
    requires Trim(line) == line && Split(line) != [] && Key(Split(line)[0]) != "A"
    requires NotNull(line) ==> HasDefaultWord(line)
    requires !Addable(line) && Writable(line, false)
    ensures RefusedWithRows(line)
  {
    OneColumnMore(line);
    assert !AllAddable([line]) by { assert !Addable([line][0]); }
    var _ := UpgradePreservesMeaning(Newer(line), OLDER, ONE_ROW);
    var _ := UpgradePreservesMeaning(Newer(line), OLDER, NO_ROWS);
  }

  lemma NullDefaultWords()
    ensures AllWords(NULL_DEFAULT) && forall i :: 0 <= i < 4 ==> Unquoted(NULL_DEFAULT[i])
  {
  }

  lemma NullDefaultAt(line: string)
    requires Split(line) == NULL_DEFAULT
    ensures DefaultOf(line) == Ok("NULL") && Declared(line) == Some(["NULL"])
  {
    PlainWords();
    NullIsValue();
    LineDefault(line, 2);
  }

  lemma NullNotAddable(line: string)
    requires Column(line) == Split(line) == NULL_DEFAULT
    requires DefaultOf(line) == Ok("NULL") && Declared(line) == Some(["NULL"])
    ensures !Addable(line) && Writable(line, false)
  {
    PlainWords();
    NullIsValue();
    NullDefaultWords();
    ClauseBehind(NULL_DEFAULT, 4, "NOT", "NULL");
    assert Join(["NULL"], " ") == "NULL";
  }

  lemma NullDefaultLine(line: string)
    requires Split(line) == NULL_DEFAULT && Trim(line) == line
    ensures HasDefaultWord(line) && Key(Split(line)[0]) != "A" && !Addable(line) && Writable(line, false)
  {
    PlainWords();
    NullDefaultAt(line);
    DefaultFound(line);
    ColumnOfLine(line);
    NullNotAddable(line);
  }

  /** A column NOT NULL DEFAULT NULL cannot be added to a table with rows. */
  lemma NullDefaultRefused()
    ensures RefusedWithRows(Join(NULL_DEFAULT, " "))
  {
    var line := Join(NULL_DEFAULT, " ");
    NullDefaultWords();
    LineOf(NULL_DEFAULT);
    NullDefaultLine(line);
    NotAddable(line);
  }

  lemma KeyWords()
    ensures AllWords(KEY_ADDED) && forall i :: 0 <= i < 2 ==> Unquoted(KEY_ADDED[i])
  {
  }

  lemma KeyPlain(line: string)
    requires Split(line) == KEY_ADDED
    ensures !NotNull(line) && Declared(line) == None
  {
    PlainWords();
    NotNullMeans(line);
    forall i | 0 <= i < 3
      ensures !NotBeforeNull(KEY_ADDED, i)
    {
      assert Upper(KEY_ADDED[i + 1]) == KEY_ADDED[i + 1];
    }
    assert forall i :: 0 <= i < 4 ==> UpperWords(KEY_ADDED)[i] == KEY_ADDED[i];
  }

  /** Nor can a primary key without a default, for which the compiler asks for none. */
  lemma KeyRefused()
    ensures RefusedWithRows(Join(KEY_ADDED, " "))
  {
    var line := Join(KEY_ADDED, " ");
    PlainWords();
    KeyWords();
    LineOf(KEY_ADDED);
    ClauseBehind(KEY_ADDED, 2, "PRIMARY", "KEY");
    KeyPlain(line);
    ColumnOfLine(line);
    NotAddable(line);
  }

  /** A default whose first word is not a whole value is accepted by the compiler and
      refused by the database. */
  lemma CutRefused(line: string)
    requires Trim(line) == line && Split(line) != [] && Key(Split(line)[0]) != "A"
    requires NotNull(line) && DefaultOf(line).Ok? && !IsValue(DefaultOf(line).value)
    ensures Upgrade(Newer(line), Some(OLDER)).Ok?
    ensures Run("T", Upgrade(Newer(line), Some(OLDER)).value.diff, Present(ONE_ROW)) == None
    ensures Run("T", Upgrade(Newer(line), Some(OLDER)).value.diff, Present(NO_ROWS)) == None
  {
    DefaultFound(line);
    OneColumnMore(line);
    assert !Writable([line][0], true) && !Writable([line][0], false);
    var _ := UpgradePreservesMeaning(Newer(line), OLDER, ONE_ROW);
    var _ := UpgradePreservesMeaning(Newer(line), OLDER, NO_ROWS);
  }

  lemma CutWords()
    ensures AllWords(CUT_DEFAULT)
  {
  }

  lemma CutIsOpen()
    ensures !IsValue("'A")
  {
  }

  lemma CutAt(line: string)
    requires var words := Split(line);
             |words| > 3 && Upper(words[0]) != "DEFAULT" && Upper(words[1]) != "DEFAULT" && Upper(words[2]) == "DEFAULT"
             && Upper(words[3]) == "'A"
    ensures DefaultOf(line) == Ok("'A")
  {
    var words := Split(line);
    assert HasDefaultWord(line);
    DefaultFound(line);
    var upper := UpperWords(words);
    assert upper[2] == "DEFAULT" && upper[0] != "DEFAULT" && upper[1] != "DEFAULT";
    assert WordIndex(upper, "DEFAULT") == Some(2);
  }

  /** A default with a blank in it is cut at the blank. */
  lemma LiteralCut()
    ensures var line := Join(CUT_DEFAULT, " ");
            DefaultOf(line) == Ok("'A") && Upgrade(Newer(line), Some(OLDER)).Ok?
            && Run("T", Upgrade(Newer(line), Some(OLDER)).value.diff, Present(ONE_ROW)) == None
            && Run("T", Upgrade(Newer(line), Some(OLDER)).value.diff, Present(NO_ROWS)) == None
  {
    var line := Join(CUT_DEFAULT, " ");
    PlainWords();
    CutWords();
    LineOf(CUT_DEFAULT);
    NotNullWords(line, 5);
    CutAt(line);
    CutIsOpen();
    CutRefused(line);
  }

  lemma SpoiledTaken(line: string, text: string)
    requires Column(line) == Split(line) && NotNull(line) && Declared(line) == Some([text])
    requires Upper(text) != text && Upper(text) != "NULL" && DefaultOf(line) == Ok(Upper(text)) && IsValue(Upper(text))
    ensures Takes([line], true, true) && DeclaredValue(line) == Text(text) && !Plain(line)
  {
    assert Addable(line) && Writable(line, true);
  }

  /** A literal that upper case changes is spoiled by the UPDATE. */
  lemma Spoiled(line: string) returns (t': Table)
    requires Trim(line) == line && Split(line) != [] && Key(Split(line)[0]) != "A" && NotNull(line)
    requires HasDefaultWord(line) && Takes([line], true, true) && !Plain(line)
    ensures Upgrade(Newer(line), Some(OLDER)).Ok?
    ensures Run("T", Upgrade(Newer(line), Some(OLDER)).value.diff, Present(ONE_ROW)) == Some(Present(t'))
    ensures !AllDeclared(t'.rows, line)
  {
    OneColumnMore(line);
    t' := UpgradePreservesMeaning(Newer(line), OLDER, ONE_ROW);
    BackfillsDeclared(Newer(line), OLDER, ONE_ROW, t', 0);
  }

  lemma VersionIsValue()
    ensures IsValue("'EC669C7'") && Strip("DB_VERSION") == "DB_VERSION" && Upper("DB_VERSION") == "DB_VERSION"
  {
  }

  /** The version column of the backup table, added to a table with a row: the row does not
      get the version that the column declares. */
  lemma VersionSpoiled() returns (t': Table)
    ensures var line := Join(["DB_VERSION", "VARCHAR(256)", "DEFAULT", "'ec669c7'", "NOT", "NULL"], " ");
            DeclaredValue(line) == Text("'ec669c7'") && Upgrade(Newer(line), Some(OLDER)).Ok?
            && Run("T", Upgrade(Newer(line), Some(OLDER)).value.diff, Present(ONE_ROW)) == Some(Present(t'))
            && !AllDeclared(t'.rows, line)
  {
    var words := ["DB_VERSION", "VARCHAR(256)", "DEFAULT", "'ec669c7'", "NOT", "NULL"];
    var line := Join(words, " ");
    VersionWords();
    VersionUpper();
    VersionColumn();
    VersionIsValue();
    LineOf(words);
    PlainWords();
    NotNullWords(line, 4);
    DefaultFound(line);
    ColumnOfLine(line);
    SpoiledTaken(line, "'ec669c7'");
    t' := Spoiled(line);
  }

  lemma DefaultedWords()
    ensures AllWords(DEFAULTED)
    ensures Upper("DEFAULTED") == "DEFAULTED" && Upper("BINARY_INTEGER") == "BINARY_INTEGER" && Strip("DEFAULTED") == "DEFAULTED"
  {
  }

  lemma DefaultedMentions(line: string)
    requires Split(line) == DEFAULTED
    ensures MentionsDefault(line)
  {
    DefaultedWords();
    var p := WordIsStretch(line, "", 0);
    assert "" + line == line;
    UpperOfStretch(line, p, p + 9);
    assert "DEFAULT" <= "DEFAULTED";
    assert Upper(line)[p..][..9] == "DEFAULTED";
    FoundBefore(Upper(line), "DEFAULT", 0, p);
  }

  lemma DefaultedHasNone(line: string)
    requires Split(line) == DEFAULTED
    ensures NotNull(line) && !HasDefaultWord(line) && Declared(line) == None
  {
    PlainWords();
    DefaultedWords();
    NotNullWords(line, 2);
    DefaultFound(line);
  }

  /** A NOT NULL column whose name begins with DEFAULT may be left behind by a degrade
      although it has no default; no upgrade may add it. */
  lemma DefaultedPasses()
    ensures var line := Join(DEFAULTED, " ");
            NotNull(line) && Declared(line) == None
            && Degrade(Newer(line), Some(OLDER), false).Ok? && Upgrade(Newer(line), Some(OLDER)).Err?
  {
    var line := Join(DEFAULTED, " ");
    DefaultedWords();
    LineOf(DEFAULTED);
    DefaultedMentions(line);
    DefaultedHasNone(line);
    OneColumnMore(line);
  }

  // ------------------------------------------------- an index that becomes unique

  /** A statistics table with one index, unique or not, with or without a dictionary load. */
  function Statistics(version: nat, unique: bool, load: bool): Group {
    Group("HIST_HEAD$", version,
          [CreateTable(Permanent, "HIST_HEAD$", TableDef("CREATE TABLE HIST_HEAD$ ", ["A"], "")),
           CreateIndex(unique, "I", "HIST_HEAD$", ["HIST_HEAD$(A)"])]
          + if load then [LoadDictionary("HIST_HEAD$")] else [])
  }

  lemma StatisticsSound(version: nat, unique: bool, load: bool)
    ensures Sound(Statistics(version, unique, load))
  {
    OldColumn();
    var names := Names(Columns(["A"]));
    assert |names| == 1;
  }

  lemma StatisticsMatch(high: Group, low: Group)
    requires exists v, u, l :: high == Statistics(v, u, l)
    requires exists v, u :: low == Statistics(v, u, false)
    ensures FirstMatch(low.sqls, high.sqls[0]) == Some(0) && FirstMatch(low.sqls, high.sqls[1]) == Some(1)
    ensures FirstMatch(high.sqls, low.sqls[1]) == Some(1)
    ensures AllMatched(high.sqls, low.sqls)
  {
    assert FirstMatch(low.sqls, high.sqls[0]) == Some(0);
    assert Claimed(high.sqls, low.sqls, 0);
  }

  lemma StatisticsAccepted(version: nat, unique: bool, load: bool, version': nat, unique': bool)
    ensures var high, low := Statistics(version, unique, load), Statistics(version', unique', false);
            Upgrade(high, Some(low)).Ok? && Degrade(high, Some(low), false).Ok?
  {
    var high, low := Statistics(version, unique, load), Statistics(version', unique', false);
    EmptyTail();
    StatisticsMatch(high, low);
    assert Same(high.sqls[0], low.sqls[0]) && Same(low.sqls[0], high.sqls[0]);
  }

  /** The softened release has the indexes of the other one; the other is not softened. */
  lemma StatisticsSoftly(version: nat, load: bool, version': nat, load': bool)
    ensures var unique, plain := Statistics(version, true, load), Statistics(version', false, load');
            SoftlySame(unique.sqls, plain.sqls, true) && !SoftlySame(plain.sqls, unique.sqls, true)
            && !SameIndexes(unique.sqls, plain.sqls)
  {
    var mine, theirs := Statistics(version, true, load).sqls, Statistics(version', false, load').sqls;
    assert FirstMatch(theirs, mine[1]) == Some(1) && FirstMatch(mine, theirs[1]) == Some(1);
    var soft, hard := SoftFrom(mine, theirs, true, 0), SoftFrom(theirs, mine, true, 0);
    assert soft[1] == theirs[1] && hard[1] == theirs[1];
    KeysDiffer();
    assert IndexWords(mine[1])[1] == "UNIQUE" && IndexWords(theirs[1])[1] == "INDEX";
    assert !Same(theirs[1], mine[1]) && !Same(mine[1], theirs[1]);
    OneName(soft);
    OneName(theirs);
  }

  lemma OneName(sqls: seq<Item>)
    requires |sqls| > 1 && sqls[1].CreateIndex? && forall i :: 0 <= i < |sqls| && i != 1 ==> !sqls[i].CreateIndex?
    ensures IndexNames(sqls) == {sqls[1].index}
  {
    assert sqls[1].index in IndexNames(sqls);
  }

  /** An index of a statistics table that has become unique is taken for the old one: the
      script is empty, dictionary load or not. */
  lemma UniquenessForgotten(load: bool)
    ensures var newer, older := Statistics(2, true, load), Statistics(1, false, false);
            Sound(newer) && Sound(older) && !SameIndexes(newer.sqls, older.sqls)
            && Upgrade(newer, Some(older)).Ok? && Upgrade(newer, Some(older)).value.diff == []
  {
    var newer, older := Statistics(2, true, load), Statistics(1, false, false);
    StatisticsSound(2, true, load);
    StatisticsSound(1, false, false);
    StatisticsAccepted(2, true, load, 1, false);
    StatisticsSoftly(2, load, 1, false);
    EmptyDiffOf(newer, older);
  }

  lemma EmptyDiffOf(newer: Group, older: Group)
    requires Sound(newer) && Sound(older) && newer.table == older.table && Upgrade(newer, Some(older)).Ok?
    requires SoftlySame(newer.sqls, older.sqls, newer.table in SPECIAL_TABLES)
    requires |newer.sqls[0].def.items| == |older.sqls[0].def.items|
    ensures Upgrade(newer, Some(older)).value.diff == []
  {
    var (mine, theirs) := Aligned(newer, older);
    UpgradeIsAligned(newer, older);
    UpgradeParts(newer.table in SPECIAL_TABLES, mine, theirs);
    TableUpgradeIs(mine[0], theirs[0]);
    ChangesShape(mine[0].table, AddedLines(mine[0], theirs[0]));
  }

  /** Where the way up rebuilds indexes that the way down takes for the old ones, they do not
      come back. */
  lemma NotRestored(high: Group, low: Group, t: Table) returns (t': Table)
    requires Sound(high) && Sound(low) && high.table == low.table
    requires Upgrade(high, Some(low)).Ok? && Degrade(high, Some(low), false).Ok?
    requires ColumnsAre(t.columns, low.sqls[0].def.items) && IndexesExactly(t.indexes, low.sqls)
    requires |high.sqls[0].def.items| == |low.sqls[0].def.items| && HasLoad(high.sqls)
    requires var special := low.table in SPECIAL_TABLES;
             SoftlySame(low.sqls, high.sqls, special) && !SoftlySame(high.sqls, low.sqls, special)
    ensures Run(high.table, Upgrade(high, Some(low)).value.diff + Degrade(high, Some(low), false).value.diff, Present(t))
            == Some(Present(t'))
    ensures t'.indexes != t.indexes
  {
    assert AddedLines(high.sqls[0], low.sqls[0]) == [];
    t' := UpgradeThenDegrade(high, low, false, t);
  }

  lemma LostConditions(high: Group, low: Group, t: Table)
    requires t.columns == [["A"]] && high == Statistics(2, false, true) && low == Statistics(1, true, false)
    ensures ColumnsAre(t.columns, low.sqls[0].def.items) && HasLoad(high.sqls)
    ensures SoftlySame(low.sqls, high.sqls, true) && !SoftlySame(high.sqls, low.sqls, true)
  {
    OldColumn();
    StatisticsSoftly(1, false, 2, true);
    assert high.sqls[2].LoadDictionary?;
  }

  /** An index of a statistics table that stops being unique at a dictionary load is rebuilt
      on the way up and left so on the way down. */
  lemma UniquenessLost(t: Table) returns (t': Table)
    requires t.columns == [["A"]] && IndexesExactly(t.indexes, Statistics(1, true, false).sqls)
    ensures var high, low := Statistics(2, false, true), Statistics(1, true, false);
            Upgrade(high, Some(low)).Ok? && Degrade(high, Some(low), false).Ok?
            && Run(high.table, Upgrade(high, Some(low)).value.diff + Degrade(high, Some(low), false).value.diff, Present(t))
               == Some(Present(t'))
            && t'.indexes != t.indexes
  {
    var high, low := Statistics(2, false, true), Statistics(1, true, false);
    StatisticsSound(2, false, true);
    StatisticsSound(1, true, false);
    StatisticsAccepted(2, false, true, 1, true);
    LostConditions(high, low, t);
    t' := NotRestored(high, low, t);
  }
}
