/** What TableGroup.generateUpgradeSql and generateDegradeSql leave in
    last_generated_diff(), as a function of the two releases of one table group.
    Class TableGroup computes it; module MigrationMeaning says what it means. */
module Migration {
  import opened Wrappers
  import opened Digits
  import opened SqlText
  import opened CreateTableSql
  import opened Schema

  const SPECIAL_TABLES := ["SYS_HISTGRAM_ABSTR", "HIST_HEAD$", "MON_MODS_ALL$", "SYS_DML_STATS"]
  const SYSAUX_TABLES := ["SYS_HISTGRAM_ABSTR", "HIST_HEAD$", "SYS_HISTGRAM", "HISTGRAM$"]

  /** One release of a table group: CREATE TABLE, then indexes and dictionary loads. */
  datatype Group = Group(table: string, version: nat, sqls: seq<Item>)

  predicate ValidGroup(g: Group) {
    ValidItems(g.table, g.sqls)
  }

  predicate ValidItems(table: string, sqls: seq<Item>) {
    |sqls| > 0 && sqls[0].CreateTable? && sqls[0].table == table
    && (forall i :: 0 < i < |sqls| ==> !sqls[i].CreateTable?)
    && (forall i :: 0 <= i < |sqls| ==> Refers(sqls[i].table, table))
  }

  // ---------------------------------------------------------------- matching

  /** Whether `mine` answers a search for `wanted`. */
  predicate Matches(mine: Item, wanted: Item) {
    match mine
    case CreateIndex(_, index, _, _) => wanted.CreateIndex? && index == wanted.index
    case CreateTable(kind, table, _) => wanted.CreateTable? && kind == wanted.kind && table == wanted.table
    case LoadDictionary(_) => wanted.LoadDictionary? && Same(mine, wanted)
  }

  function FirstMatch(sqls: seq<Item>, wanted: Item): (k: Option<nat>)
    ensures k.Some? ==> k.value < |sqls| && Matches(sqls[k.value], wanted)
                        && forall j :: 0 <= j < k.value ==> !Matches(sqls[j], wanted)
    ensures k.None? ==> forall j :: 0 <= j < |sqls| ==> !Matches(sqls[j], wanted)
  {
    if sqls == [] then None
    else if Matches(sqls[0], wanted) then Some(0)
    else match FirstMatch(sqls[1..], wanted)
      case None => None
      case Some(k) => Some(k + 1)
  }

  /** Position `p` of `theirs` is what the search for some item of `mine` returns. */
  predicate Claimed(mine: seq<Item>, theirs: seq<Item>, p: nat) {
    exists j :: 0 <= j < |mine| && FirstMatch(theirs, mine[j]) == Some(p)
  }

  predicate AllMatched(mine: seq<Item>, theirs: seq<Item>) {
    forall p: nat :: p < |theirs| && !theirs[p].CreateIndex? ==> Claimed(mine, theirs, p)
  }

  // ------------------------------------------------------------- tablespaces

  function TableSpace(def: TableDef): Result<string> {
    var words := Split(def.post);
    match WordIndex(words, "TABLESPACE")
    case None => Ok("UNKNOWN")
    case Some(k) => if k + 1 < |words| then Ok(words[k + 1]) else Err(NoTablespaceName)
  }

  function Realign(sqls: seq<Item>): (r: seq<Item>)
    requires |sqls| > 0 && sqls[0].CreateTable?
    ensures |r| == |sqls| && r[0].CreateTable? && r[0].kind == sqls[0].kind && r[0].table == sqls[0].table
    ensures r[0].def.items == sqls[0].def.items
    ensures r[1..] == sqls[1..]
  {
    var def := sqls[0].def;
    var post := ReplaceAll(def.post, "TABLESPACE SYSAUX", "TABLESPACE SYSTEM");
    sqls[0 := sqls[0].(def := def.(post := post))]
  }

  /** A statistics table may move between SYSTEM and SYSAUX: then both releases are
      read as if they said SYSTEM. */
  function MovesTablespace(table: string, mine: TableDef, theirs: TableDef): Result<bool> {
    match TableSpace(mine)
    case Err(e) => Err(e)
    case Ok(a) =>
      match TableSpace(theirs)
      case Err(e) => Err(e)
      case Ok(b) => Ok(((a == "SYSTEM" && b == "SYSAUX") || (a == "SYSAUX" && b == "SYSTEM")) && table in SYSAUX_TABLES)
  }

  // -------------------------------------------------- shall all indexes be rebuilt

  datatype Scanned = Scanned(drop: bool, sqls: seq<Item>, packageKeyShrinks: bool)

  predicate Leftover(mine: seq<Item>, theirs: seq<Item>) {
    exists p: nat :: p < |theirs| && theirs[p].CreateIndex? && !Claimed(mine, theirs, p)
  }

  function Softened(mine: Item, theirs: Item, special: bool): (r: Item)
    requires mine.CreateIndex? && theirs.CreateIndex?
    ensures r.CreateIndex? && r.index == mine.index && r.table == mine.table
    ensures !special ==> r == mine
  {
    if special && mine.unique && !theirs.unique then mine.(unique := false) else mine
  }

  function PackageKey(table: string, columns: seq<string>): Item {
    CreateIndex(true, "IX_PROCARGU_001", table, [table + "(USER#,", "OBJECT_NAME,"] + columns + ["TABLESPACE", "SYSTEM"])
  }

  /** `mine` is the short key of the procedure arguments and `theirs` the long one. */
  predicate ShrinksPackageKey(mine: Item, theirs: Item) {
    var long := ["PACKAGE,", "SEQUENCE,", "OVERLOAD)"];
    var short := ["SEQUENCE)"];
    (mine == PackageKey("SYS_PROC_ARGS", short) || mine == PackageKey("PROC_ARGS$", short))
    && (theirs == PackageKey("SYS_PROC_ARGS", long) || theirs == PackageKey("PROC_ARGS$", long))
  }

  /** Compares the indexes of `mine` from position `k` on with those of `theirs`; for
      a statistics table a unique index whose counterpart is normal becomes normal. */
  function Scan(mine: seq<Item>, theirs: seq<Item>, special: bool, k: nat): Scanned
    requires k <= |mine|
    decreases |mine| - k
  {
    if k == |mine| then Scanned(Leftover(mine, theirs), mine, false)
    else if !mine[k].CreateIndex? then Scan(mine, theirs, special, k + 1)
    else match FirstMatch(theirs, mine[k])
      case None => Scanned(true, mine, false)
      case Some(p) =>
        var mine' := mine[k := Softened(mine[k], theirs[p], special)];
        if Same(mine'[k], theirs[p]) then Scan(mine', theirs, special, k + 1)
        else Scanned(true, mine', ShrinksPackageKey(mine'[k], theirs[p]))
  }

  // ---------------------------------------------------- columns added to the table

  function IgnoreKeyInt(s: string, words: seq<string>, key: string, i: nat): Result<string>
    requires i <= |words|
    decreases |words| - i
  {
    if i == |words| then Ok(s)
    else if words[i] != key then IgnoreKeyInt(s, words, key, i + 1)
    else if i + 1 == |words| then Err(NoPctfreeValue)
    else if IsDigits(words[i + 1]) then Ok(Join(words[..i] + words[i + 2..], " "))
    else IgnoreKeyInt(s, words, key, i + 1)
  }

  function IgnoreStorage(s: string): string {
    match Find(s, "STORAGE", 0)
    case None => s
    case Some(p) =>
      match Find(s, ")", p)
      case None => s[..p] + s
      case Some(q) => s[..p] + s[q + 1..]
  }

  /** The tail of CREATE TABLE without its PCTFREE and STORAGE clauses. */
  function PostKey(post: string): Result<seq<string>> {
    var s := IgnoreStorage(post);
    match if Contains(s, "PCTFREE") then IgnoreKeyInt(s, Split(s), "PCTFREE", 0) else Ok(s)
    case Err(e) => Err(e)
    case Ok(t) => Ok(Split(t))
  }

  function SamePost(newer: string, older: string): Result<bool> {
    match PostKey(newer)
    case Err(e) => Err(e)
    case Ok(a) =>
      match PostKey(older)
      case Err(e) => Err(e)
      case Ok(b) => Ok(SameWords(a, b))
  }

  function TableIncrement(newer: TableDef, older: TableDef): Result<seq<string>> {
    if !SameWords(Split(newer.pre), Split(older.pre)) then Err(HeadChanged)
    else match SamePost(newer.post, older.post)
      case Err(e) => Err(e)
      case Ok(same) => if same then Increment(newer.items, older.items) else Err(TailChanged)
  }

  predicate NotNull(item: string) {
    Contains(Upper(Join(Split(item), " ")), "NOT NULL")
  }

  predicate MentionsDefault(item: string) {
    Contains(Upper(item), "DEFAULT")
  }

  /** The word after DEFAULT, which the rows already there are given. */
  function DefaultOf(item: string): Result<string> {
    var words := UpperWords(Split(item));
    if !MentionsDefault(item) then Err(NoDefault)
    else match WordIndex(words, "DEFAULT")
      case Some(k) => if k + 1 < |words| then Ok(words[k + 1]) else Err(DefaultNotAWord)
      case None => Err(DefaultNotAWord)
  }

  function Backfill(table: string, item: string): Result<seq<Stmt>> {
    if NotNull(item) then
      match DefaultOf(item)
      case Err(e) => Err(e)
      case Ok(value) => Ok([SetColumn(table, ColumnName(Split(item)), value), Commit])
    else Ok([])
  }

  /** The column an increment line stands for. */
  function Column(item: string): seq<string> {
    Split(StripCommas(item))
  }

  datatype Change = Change(adds: seq<Stmt>, backfills: seq<Stmt>)

  function Both(a: Change, b: Change): Change {
    Change(a.adds + b.adds, a.backfills + b.backfills)
  }

  function Changes(table: string, increment: seq<string>): Result<Change> {
    if increment == [] then Ok(Change([], []))
    else
      var last := increment[|increment| - 1];
      match Changes(table, increment[..|increment| - 1])
      case Err(e) => Err(e)
      case Ok(c) =>
        match Backfill(table, last)
        case Err(e) => Err(e)
        case Ok(fill) => Ok(Change(c.adds + [AddColumn(table, Column(last))], c.backfills + fill))
  }

  function TableUpgrade(newer: Item, older: Item): Result<Change>
    requires newer.CreateTable? && older.CreateTable?
  {
    if Same(newer, older) then Ok(Change([], []))
    else match TableIncrement(newer.def, older.def)
      case Err(e) => Err(e)
      case Ok(increment) => Changes(newer.table, increment)
  }

  /** An index that is not the same is dropped and made again. */
  function ItemChange(newer: Item, older: Item): Result<Change>
    requires (newer.CreateTable? && older.CreateTable?) || (newer.CreateIndex? && older.CreateIndex?)
  {
    if newer.CreateTable? then TableUpgrade(newer, older)
    else if Same(newer, older) then Ok(Change([], []))
    else Ok(Change([DropIndex(older.table, older.index), MakeIndex(newer.table, newer.index, IndexWords(newer))], []))
  }

  predicate Droppable(increment: seq<string>) {
    forall i :: 0 <= i < |increment| ==> NotNull(increment[i]) ==> MentionsDefault(increment[i])
  }

  /** A degrade leaves the added columns where they are, so it only asks that each
      of them can be left out of an INSERT. */
  function TableDegrade(low: Item, high: Item): Result<()>
    requires low.CreateTable? && high.CreateTable?
  {
    if Same(low, high) then Ok(())
    else match TableIncrement(high.def, low.def)
      case Err(e) => Err(e)
      case Ok(increment) => if Droppable(increment) then Ok(()) else Err(NoDefault)
  }

  // --------------------------------------------------------------- the two diffs

  function Drops(sqls: seq<Item>): seq<Stmt> {
    if sqls == [] then []
    else (if sqls[0].CreateIndex? then [DropIndex(sqls[0].table, sqls[0].index)] else []) + Drops(sqls[1..])
  }

  function Creates(sqls: seq<Item>): seq<Stmt> {
    if sqls == [] then []
    else (if sqls[0].CreateIndex? then [MakeIndex(sqls[0].table, sqls[0].index, IndexWords(sqls[0]))] else [])
         + Creates(sqls[1..])
  }

  predicate HasLoad(sqls: seq<Item>) {
    exists i :: 0 <= i < |sqls| && sqls[i].LoadDictionary?
  }

  function Columns(items: seq<string>): (c: seq<seq<string>>)
    ensures |c| == |items|
    ensures forall i :: 0 <= i < |c| ==> c[i] == ItemWords(items[i])
  {
    seq(|items|, i requires 0 <= i < |items| => ItemWords(items[i]))
  }

  function CreateAll(sqls: seq<Item>): seq<Stmt>
    requires |sqls| > 0 && sqls[0].CreateTable?
  {
    [MakeTable(sqls[0].table, Columns(sqls[0].def.items))] + Creates(sqls)
  }

  /** The diff, whether it rebuilds the indexes, the scanned release as the scan left
      it, and whether package rows are purged. */
  datatype Plan = Plan(diff: seq<Stmt>, drop: bool, sqls: seq<Item>, purges: bool)

  function UpgradeAligned(special: bool, mine: seq<Item>, theirs: seq<Item>): Result<Plan>
    requires |mine| > 0 && mine[0].CreateTable? && |theirs| > 0 && theirs[0].CreateTable?
  {
    if !AllMatched(mine, theirs) then Err(UnmatchedItem)
    else
      var scanned := Scan(mine, theirs, special, 0);
      match TableUpgrade(mine[0], theirs[0])
      case Err(e) => Err(e)
      case Ok(change) =>
        Ok(Plan(if !scanned.drop then (if change.adds == [] then [] else change.adds + change.backfills)
                else if HasLoad(mine) then (change.adds + change.backfills) + (Drops(theirs) + Creates(scanned.sqls))
                else change.adds,
                scanned.drop, scanned.sqls, false))
  }

  function Upgrade(newer: Group, older: Option<Group>): Result<Plan>
    requires ValidGroup(newer) && (older.Some? ==> ValidGroup(older.value))
  {
    match older
    case None => Ok(Plan(CreateAll(newer.sqls), false, newer.sqls, false))
    case Some(o) =>
      match MovesTablespace(newer.table, newer.sqls[0].def, o.sqls[0].def)
      case Err(e) => Err(e)
      case Ok(moved) =>
        UpgradeAligned(newer.table in SPECIAL_TABLES,
                       if moved then Realign(newer.sqls) else newer.sqls,
                       if moved then Realign(o.sqls) else o.sqls)
  }

  /** Rows deleted before the indexes of a statistics or package table are rebuilt;
      `later` says that the package key has shrunk in an earlier group. */
  function Purge(table: string, shrinks: bool, later: bool): seq<Stmt> {
    (if table in SPECIAL_TABLES then [DeleteRows(table, Everything), Commit] else [])
    + (if table == "SYS_PROC_ARGS" && shrinks then
         [DeleteRows("SYS_PROCS", OneOf(["TYPE"], ["'S'", "'B'"])), DeleteRows(table, LengthPositive("PACKAGE")), Commit]
       else [])
    + (if table == "PROC_ARGS$" && shrinks then
         [DeleteRows("PROC$", OneOf(["TYPE"], ["'S'", "'B'"])), DeleteRows(table, LengthPositive("PACKAGE")), Commit]
       else [])
    + (if (table == "SYS_DEPENDENCIES" || table == "DEPENDENCY$") && later then
         [DeleteRows(table, OneOf(["D_TYPE#", "P_TYPE#"], ["15", "16"])), Commit]
       else [])
  }

  predicate PurgesPackages(table: string, shrinks: bool) {
    shrinks && (table == "SYS_PROC_ARGS" || table == "PROC_ARGS$")
  }

  function DegradeAligned(table: string, later: bool, high: seq<Item>, low: seq<Item>, special: bool): Result<Plan>
    requires |high| > 0 && high[0].CreateTable? && |low| > 0 && low[0].CreateTable?
  {
    if !AllMatched(high, low) then Err(UnmatchedItem)
    else
      var scanned := Scan(low, high, special, 0);
      var shrinks := scanned.packageKeyShrinks;
      match TableDegrade(low[0], high[0])
      case Err(e) => Err(e)
      case Ok(_) =>
        Ok(Plan(if scanned.drop
                then Purge(table, shrinks, later || PurgesPackages(table, shrinks)) + (Drops(high) + Creates(scanned.sqls))
                else [],
                scanned.drop, scanned.sqls, scanned.drop && PurgesPackages(table, shrinks)))
  }

  function Degrade(high: Group, low: Option<Group>, later: bool): Result<Plan>
    requires ValidGroup(high) && (low.Some? ==> ValidGroup(low.value))
  {
    match low
    case None => Ok(Plan([DropTable(high.table)], false, high.sqls, false))
    case Some(l) =>
      match MovesTablespace(high.table, high.sqls[0].def, l.sqls[0].def)
      case Err(e) => Err(e)
      case Ok(moved) =>
        DegradeAligned(high.table, later,
                       if moved then Realign(high.sqls) else high.sqls,
                       if moved then Realign(l.sqls) else l.sqls,
                       l.table in SPECIAL_TABLES)
  }
}
