/** The object that compares two releases of a table and writes the diffs
    (classes SqlItem and TableGroup of sql_process.py).  The items of a group are
    reached by position: `fetched[p]` is the flag of the item `sqls[p]`, and the
    three kind lists hold positions. */
module TableGroups {
  import opened Wrappers
  import opened SqlText
  import opened CreateTableSql
  import opened Schema
  import opened Migration
  import opened MigrationMeaning

  datatype Sort = Tables | Indexes | Loads

  function SortOf(i: Item): Sort {
    if i.CreateTable? then Tables else if i.CreateIndex? then Indexes else Loads
  }

  /** The positions of the items of one sort, in order. */
  function PositionsOf(sqls: seq<Item>, sort: Sort): seq<nat> {
    if sqls == [] then []
    else
      var n := |sqls| - 1;
      PositionsOf(sqls[..n], sort) + (if SortOf(sqls[n]) == sort then [n] else [])
  }

  /** The kind lists partition the statements, each list in order. */
  lemma {:induction false} PositionsFacts(sqls: seq<Item>, sort: Sort)
    ensures var positions := PositionsOf(sqls, sort);
            (forall k :: 0 <= k < |positions| ==> positions[k] < |sqls| && SortOf(sqls[positions[k]]) == sort)
            && (forall j, k :: 0 <= j < k < |positions| ==> positions[j] < positions[k])
            && forall p: nat :: p < |sqls| && SortOf(sqls[p]) == sort ==> p in positions
  {
    if sqls != [] {
      PositionsFacts(sqls[..|sqls| - 1], sort);
    }
  }

  /** Where the n-th item of a sort stands, or the end of the list. */
  function Position(positions: seq<nat>, n: nat, end: nat): nat
    requires n <= |positions|
  {
    if n < |positions| then positions[n] else end
  }

  lemma NoneBetween(sqls: seq<Item>, sort: Sort, n: nat, p: nat)
    requires var positions := PositionsOf(sqls, sort);
             n <= |positions| && p < Position(positions, n, |sqls|) && (n == 0 || positions[n - 1] < p)
    ensures p < |sqls| && SortOf(sqls[p]) != sort
  {
    PositionsFacts(sqls, sort);
    var positions := PositionsOf(sqls, sort);
    assert n < |positions| ==> positions[n] < |sqls|;
    forall k | 0 <= k < |positions|
      ensures positions[k] != p
    {
      assert k < n - 1 ==> positions[k] < positions[n - 1];
      assert n < k ==> positions[n] < positions[k];
    }
    assert p !in positions;
  }

  lemma {:induction false} CreatesLast(sqls: seq<Item>, last: Item)
    ensures Creates(sqls + [last]) == Creates(sqls) + Creates([last])
  {
    if sqls != [] {
      assert (sqls + [last])[1..] == sqls[1..] + [last];
      CreatesLast(sqls[1..], last);
    } else {
      assert sqls + [last] == [last];
    }
  }

  lemma {:induction false} CreatesSkip(sqls: seq<Item>, a: nat, b: nat)
    requires a <= b <= |sqls| && forall p :: a <= p < b ==> !sqls[p].CreateIndex?
    ensures Creates(sqls[..a]) == Creates(sqls[..b])
  {
    if a < b {
      CreatesSkip(sqls, a, b - 1);
      assert sqls[..b] == sqls[..b - 1] + [sqls[b - 1]];
      CreatesLast(sqls[..b - 1], sqls[b - 1]);
    }
  }

  lemma {:induction false} ScanSkip(mine: seq<Item>, theirs: seq<Item>, special: bool, a: nat, b: nat)
    requires a <= b <= |mine| && forall p :: a <= p < b ==> !mine[p].CreateIndex?
    ensures Scan(mine, theirs, special, a) == Scan(mine, theirs, special, b)
    decreases b - a
  {
    if a < b {
      ScanSkip(mine, theirs, special, a + 1, b);
    }
  }

  /** Whether some item of `mine` before `n` that is not an index claims position `p`. */
  predicate ClaimedBefore(mine: seq<Item>, theirs: seq<Item>, n: nat, p: nat)
    requires n <= |mine|
  {
    exists j :: 0 <= j < n && !mine[j].CreateIndex? && FirstMatch(theirs, mine[j]) == Some(p)
  }

  lemma ClaimedOutsideIndexes(mine: seq<Item>, theirs: seq<Item>, p: nat)
    requires p < |theirs|
    ensures !theirs[p].CreateIndex? ==> (Claimed(mine, theirs, p) <==> ClaimedBefore(mine, theirs, |mine|, p))
  {
    if !theirs[p].CreateIndex? && Claimed(mine, theirs, p) {
      var j :| 0 <= j < |mine| && FirstMatch(theirs, mine[j]) == Some(p);
      assert !mine[j].CreateIndex?;
    }
  }

  /** Whether some index of `mine` before `n` claims position `p`. */
  predicate IndexClaims(mine: seq<Item>, theirs: seq<Item>, n: nat, p: nat)
    requires n <= |mine|
  {
    exists j :: 0 <= j < n && mine[j].CreateIndex? && FirstMatch(theirs, mine[j]) == Some(p)
  }

  lemma IndexClaimsAll(mine: seq<Item>, theirs: seq<Item>, p: nat)
    requires p < |theirs|
    ensures theirs[p].CreateIndex? ==> (Claimed(mine, theirs, p) <==> IndexClaims(mine, theirs, |mine|, p))
  {
    if theirs[p].CreateIndex? && Claimed(mine, theirs, p) {
      var j :| 0 <= j < |mine| && FirstMatch(theirs, mine[j]) == Some(p);
      assert mine[j].CreateIndex?;
    }
  }

  /** Looking up the index at `k` and skipping to `next` adds its match to the claims. */
  lemma ClaimsGrow(before: seq<Item>, after: seq<Item>, theirs: seq<Item>, k: nat, next: nat, p: nat)
    requires k < next <= |before| == |after| && before[k].CreateIndex? && after == before[k := after[k]]
    requires after[k].CreateIndex? && after[k].index == before[k].index
    requires forall q :: k < q < next ==> !after[q].CreateIndex?
    ensures IndexClaims(after, theirs, next, p)
            <==> IndexClaims(before, theirs, k, p) || FirstMatch(theirs, before[k]) == Some(p)
  {
    SameLookup(theirs, before[k], after[k]);
    if IndexClaims(after, theirs, next, p) {
      var j :| 0 <= j < next && after[j].CreateIndex? && FirstMatch(theirs, after[j]) == Some(p);
      assert j < k ==> before[j] == after[j];
      assert j <= k;
    }
    if IndexClaims(before, theirs, k, p) {
      var j :| 0 <= j < k && before[j].CreateIndex? && FirstMatch(theirs, before[j]) == Some(p);
      assert before[j] == after[j];
    }
    assert after[k].CreateIndex? && k < next;
  }

  /** The flags of the other release's indexes say which of them `mine` has claimed. */
  ghost predicate Flagged(flags: seq<bool>, mine: seq<Item>, theirs: seq<Item>, n: nat)
    requires n <= |mine|
  {
    |flags| == |theirs|
    && forall p: nat :: p < |theirs| && theirs[p].CreateIndex? ==> (flags[p] <==> IndexClaims(mine, theirs, n, p))
  }

  lemma FlagsGrow(flags: seq<bool>, flags': seq<bool>, before: seq<Item>, after: seq<Item>, theirs: seq<Item>,
                  k: nat, next: nat)
    requires k < next <= |before| == |after| && before[k].CreateIndex? && after == before[k := after[k]]
    requires after[k].CreateIndex? && after[k].index == before[k].index
    requires forall q :: k < q < next ==> !after[q].CreateIndex?
    requires Flagged(flags, before, theirs, k) && FirstMatch(theirs, before[k]).Some?
    requires flags' == flags[FirstMatch(theirs, before[k]).value := true]
    ensures Flagged(flags', after, theirs, next)
  {
    forall p: nat | p < |theirs| && theirs[p].CreateIndex?
      ensures flags'[p] <==> IndexClaims(after, theirs, next, p)
    {
      ClaimsGrow(before, after, theirs, k, next, p);
    }
  }

  /** No index of `theirs` is flagged. */
  ghost predicate Unflagged(flags: seq<bool>, theirs: seq<Item>) {
    |flags| == |theirs| && forall p :: 0 <= p < |theirs| && theirs[p].CreateIndex? ==> !flags[p]
  }

  /** What comparing the index at position `k` does to the items and to the flags. */
  ghost predicate Compared(before: seq<Item>, after: seq<Item>, flags: seq<bool>, flags': seq<bool>, theirs: seq<Item>,
                           special: bool, k: nat, same: bool, shrinks: bool) {
    k < |before| == |after| && |flags| == |flags'| == |theirs| && before[k].CreateIndex?
    && after == before[k := after[k]] && after[k].CreateIndex? && after[k].index == before[k].index
    && PositionsOf(after, Indexes) == PositionsOf(before, Indexes)
    && var matched := FirstMatch(theirs, before[k]);
       flags' == (if matched.Some? then flags[matched.value := true] else flags)
       && if same then matched.Some? && !shrinks && Scan(before, theirs, special, k) == Scan(after, theirs, special, k + 1)
          else Scan(before, theirs, special, k) == Scanned(true, after, shrinks)
  }

  /** The scan `start` after its first `n` indexes have been found equal. */
  ghost predicate Comparing(start: Scanned, flags: seq<bool>, mine: seq<Item>, theirs: seq<Item>, special: bool, n: nat) {
    n <= |PositionsOf(mine, Indexes)|
    && var at := Position(PositionsOf(mine, Indexes), n, |mine|);
       at <= |mine| && start == Scan(mine, theirs, special, at) && Flagged(flags, mine, theirs, at)
  }

  lemma CompareStart(flags: seq<bool>, mine: seq<Item>, theirs: seq<Item>, special: bool)
    requires Unflagged(flags, theirs)
    ensures Comparing(Scan(mine, theirs, special, 0), flags, mine, theirs, special, 0)
  {
    var at := Position(PositionsOf(mine, Indexes), 0, |mine|);
    FirstPosition(mine);
    ScanSkip(mine, theirs, special, 0, at);
    NoClaimsYet(flags, mine, theirs, at);
  }

  /** From one index to the next: nothing that lies between changes the scan. */
  lemma CompareScan(start: Scanned, before: seq<Item>, after: seq<Item>, theirs: seq<Item>, special: bool, k: nat, next: nat)
    requires k < |before| && k < next <= |after| && start == Scan(before, theirs, special, k)
    requires Scan(before, theirs, special, k) == Scan(after, theirs, special, k + 1)
    requires forall p :: k < p < next ==> !after[p].CreateIndex?
    ensures start == Scan(after, theirs, special, next)
  {
    ScanSkip(after, theirs, special, k + 1, next);
  }

  lemma CompareStepAt(start: Scanned, flags: seq<bool>, flags': seq<bool>, before: seq<Item>, after: seq<Item>,
                      theirs: seq<Item>, special: bool, k: nat, next: nat)
    requires Compared(before, after, flags, flags', theirs, special, k, true, false) && k < next <= |after|
    requires start == Scan(before, theirs, special, k) && Flagged(flags, before, theirs, k)
    requires forall p :: k < p < next ==> !after[p].CreateIndex?
    ensures start == Scan(after, theirs, special, next) && Flagged(flags', after, theirs, next)
  {
    CompareScan(start, before, after, theirs, special, k, next);
    FlagsGrow(flags, flags', before, after, theirs, k, next);
  }

  lemma CompareStep(start: Scanned, flags: seq<bool>, flags': seq<bool>, before: seq<Item>, after: seq<Item>,
                    theirs: seq<Item>, special: bool, n: nat)
    requires Comparing(start, flags, before, theirs, special, n) && n < |PositionsOf(before, Indexes)|
    requires Compared(before, after, flags, flags', theirs, special, PositionsOf(before, Indexes)[n], true, false)
    ensures Comparing(start, flags', after, theirs, special, n + 1)
  {
    NextPosition(after, n);
    CompareStepAt(start, flags, flags', before, after, theirs, special, PositionsOf(after, Indexes)[n],
                  Position(PositionsOf(after, Indexes), n + 1, |after|));
  }

  /** What one comparison means for the scan: it goes on, or it is over. */
  lemma CompareNext(start: Scanned, flags: seq<bool>, flags': seq<bool>, before: seq<Item>, after: seq<Item>,
                    theirs: seq<Item>, special: bool, n: nat, same: bool, shrinks: bool)
    requires Comparing(start, flags, before, theirs, special, n) && n < |PositionsOf(before, Indexes)|
    requires Compared(before, after, flags, flags', theirs, special, PositionsOf(before, Indexes)[n], same, shrinks)
    ensures PositionsOf(after, Indexes) == PositionsOf(before, Indexes) && |flags'| == |theirs|
    ensures if same then !shrinks && Comparing(start, flags', after, theirs, special, n + 1)
            else start == Scanned(true, after, shrinks)
  {
    if same {
      CompareStep(start, flags, flags', before, after, theirs, special, n);
    }
  }

  lemma IndexThere(sqls: seq<Item>, n: nat)
    requires n < |PositionsOf(sqls, Indexes)|
    ensures PositionsOf(sqls, Indexes)[n] < |sqls| && sqls[PositionsOf(sqls, Indexes)[n]].CreateIndex?
  {
    NextPosition(sqls, n);
  }

  lemma CompareEnd(start: Scanned, flags: seq<bool>, mine: seq<Item>, theirs: seq<Item>, special: bool)
    requires Comparing(start, flags, mine, theirs, special, |PositionsOf(mine, Indexes)|)
    ensures start == Scanned(Leftover(mine, theirs), mine, false) && Flagged(flags, mine, theirs, |mine|)
  {
  }

  lemma ScanKeepsValid(name: string, mine: seq<Item>, theirs: seq<Item>, special: bool, after: seq<Item>)
    requires ValidItems(name, mine) && after == Scan(mine, theirs, special, 0).sqls
    ensures |after| == |mine| && ValidItems(name, after) && after[0] == mine[0] && HasLoad(after) == HasLoad(mine)
    ensures PositionsOf(after, Tables) == PositionsOf(mine, Tables)
    ensures PositionsOf(after, Indexes) == PositionsOf(mine, Indexes)
    ensures PositionsOf(after, Loads) == PositionsOf(mine, Loads)
  {
    ScanShape(mine, theirs, special, 0);
    PositionsKept(mine, after, Tables);
    PositionsKept(mine, after, Indexes);
    PositionsKept(mine, after, Loads);
    HasLoadKept(mine, after);
  }

  lemma SameLookup(theirs: seq<Item>, a: Item, b: Item)
    requires a.CreateIndex? && b.CreateIndex? && a.index == b.index
    ensures FirstMatch(theirs, a) == FirstMatch(theirs, b)
  {
    assert forall j :: 0 <= j < |theirs| ==> (Matches(theirs[j], a) <==> Matches(theirs[j], b));
  }

  lemma CreatesNext(sqls: seq<Item>, n: nat)
    requires n < |PositionsOf(sqls, Indexes)|
    ensures var positions := PositionsOf(sqls, Indexes);
            var k, next := positions[n], Position(positions, n + 1, |sqls|);
            k < next <= |sqls| && sqls[k].CreateIndex?
            && Creates(sqls[..next]) == Creates(sqls[..k]) + [MakeIndex(sqls[k].table, sqls[k].index, IndexWords(sqls[k]))]
  {
    var k := PositionsOf(sqls, Indexes)[n];
    NextPosition(sqls, n);
    CreatesLast(sqls[..k], sqls[k]);
    assert sqls[..k + 1] == sqls[..k] + [sqls[k]];
    CreatesSkip(sqls, k + 1, Position(PositionsOf(sqls, Indexes), n + 1, |sqls|));
  }

  lemma {:induction false} PositionsKept(a: seq<Item>, b: seq<Item>, sort: Sort)
    requires |a| == |b| && forall i :: 0 <= i < |a| ==> SortOf(a[i]) == SortOf(b[i])
    ensures PositionsOf(a, sort) == PositionsOf(b, sort)
  {
    if a != [] {
      PositionsKept(a[..|a| - 1], b[..|b| - 1], sort);
    }
  }

  lemma FirstPosition(sqls: seq<Item>)
    ensures var first := Position(PositionsOf(sqls, Indexes), 0, |sqls|);
            first <= |sqls| && forall p :: 0 <= p < first ==> !sqls[p].CreateIndex?
  {
    PositionsFacts(sqls, Indexes);
    forall p: nat | p < Position(PositionsOf(sqls, Indexes), 0, |sqls|)
      ensures p < |sqls| && !sqls[p].CreateIndex?
    {
      NoneBetween(sqls, Indexes, 0, p);
    }
  }

  lemma NextPosition(sqls: seq<Item>, n: nat)
    requires n < |PositionsOf(sqls, Indexes)|
    ensures var here := PositionsOf(sqls, Indexes)[n];
            var next := Position(PositionsOf(sqls, Indexes), n + 1, |sqls|);
            here < next <= |sqls| && sqls[here].CreateIndex? && forall p :: here < p < next ==> !sqls[p].CreateIndex?
  {
    PositionsFacts(sqls, Indexes);
    forall p: nat | PositionsOf(sqls, Indexes)[n] < p < Position(PositionsOf(sqls, Indexes), n + 1, |sqls|)
      ensures p < |sqls| && !sqls[p].CreateIndex?
    {
      NoneBetween(sqls, Indexes, n + 1, p);
    }
  }

  lemma ClaimedStep(mine: seq<Item>, theirs: seq<Item>, n: nat, p: nat)
    requires n < |mine|
    ensures ClaimedBefore(mine, theirs, n + 1, p)
            <==> ClaimedBefore(mine, theirs, n, p)
                 || (!mine[n].CreateIndex? && FirstMatch(theirs, mine[n]) == Some(p))
  {
    if ClaimedBefore(mine, theirs, n + 1, p) && !ClaimedBefore(mine, theirs, n, p) {
      var j :| 0 <= j < n + 1 && !mine[j].CreateIndex? && FirstMatch(theirs, mine[j]) == Some(p);
      assert j == n;
    }
  }

  lemma NoClaimsYet(flags: seq<bool>, mine: seq<Item>, theirs: seq<Item>, n: nat)
    requires n <= |mine| && forall p :: 0 <= p < n ==> !mine[p].CreateIndex?
    requires |flags| == |theirs| && forall p :: 0 <= p < |theirs| && theirs[p].CreateIndex? ==> !flags[p]
    ensures Flagged(flags, mine, theirs, n)
  {
  }

  lemma {:induction false} ScanAgrees(mine: seq<Item>, theirs: seq<Item>, special: bool, k: nat)
    requires k <= |mine| && !Scan(mine, theirs, special, k).drop
    ensures var after := Scan(mine, theirs, special, k).sqls;
            |after| == |mine| && forall j :: k <= j < |mine| ==> Agrees(after, theirs, j)
    decreases |mine| - k
  {
    ScanShape(mine, theirs, special, k);
    if k < |mine| {
      if !mine[k].CreateIndex? {
        ScanAgrees(mine, theirs, special, k + 1);
      } else {
        var p := FirstMatch(theirs, mine[k]).value;
        var mine' := mine[k := Softened(mine[k], theirs[p], special)];
        ScanAgrees(mine', theirs, special, k + 1);
        ScanShape(mine', theirs, special, k + 1);
        SameLookup(theirs, mine[k], mine'[k]);
      }
    }
  }

  lemma CreateTableFound(name: string, mine: seq<Item>, other: string, theirs: seq<Item>)
    requires ValidItems(name, mine) && ValidItems(other, theirs) && AllMatched(mine, theirs)
    ensures FirstMatch(theirs, mine[0]) == Some(0) && FirstMatch(mine, theirs[0]) == Some(0)
  {
    assert Claimed(mine, theirs, 0);
    var j :| 0 <= j < |mine| && FirstMatch(theirs, mine[j]) == Some(0);
    assert mine[j].CreateTable?;
    assert Matches(mine[0], theirs[0]);
  }

  lemma RealignValid(name: string, sqls: seq<Item>)
    requires ValidItems(name, sqls)
    ensures ValidItems(name, Realign(sqls))
    ensures forall sort :: PositionsOf(Realign(sqls), sort) == PositionsOf(sqls, sort)
  {
    RealignAlike(sqls);
    AlikeMeans(Realign(sqls), sqls);
    forall sort
      ensures PositionsOf(Realign(sqls), sort) == PositionsOf(sqls, sort)
    {
      PositionsKept(Realign(sqls), sqls, sort);
    }
  }

  lemma HasLoadKept(a: seq<Item>, b: seq<Item>)
    requires |a| == |b| && forall i :: 0 <= i < |a| ==> (a[i].LoadDictionary? <==> b[i].LoadDictionary?)
    ensures HasLoad(a) == HasLoad(b)
  {
    if i :| 0 <= i < |a| && a[i].LoadDictionary? {
      assert b[i].LoadDictionary?;
    }
    if i :| 0 <= i < |b| && b[i].LoadDictionary? {
      assert a[i].LoadDictionary?;
    }
  }

  lemma BothWithNothing(c: Change)
    ensures Both(c, Change([], [])) == c == Both(Change([], []), c)
  {
  }

  method ItemUpgrade(newer: Item, older: Item) returns (r: Result<Change>)
    requires (newer.CreateTable? && older.CreateTable?) || (newer.CreateIndex? && older.CreateIndex?)
    ensures r == ItemChange(newer, older)
  {
    if Same(newer, older) {
      return Ok(Change([], []));
    }
    if newer.CreateIndex? {
      var drop := DropIndex(older.table, older.index);
      return Ok(Change([drop, MakeIndex(newer.table, newer.index, IndexWords(newer))], []));
    }
    var increment := ItemIncrement(newer.def, older.def);
    if increment.Err? {
      return Err(increment.error);
    }
    r := CollectChanges(newer.table, increment.value);
  }

  method CollectChanges(table: string, lines: seq<string>) returns (r: Result<Change>)
    ensures r == Changes(table, lines)
  {
    var adds: seq<Stmt>, backfills: seq<Stmt> := [], [];
    for i := 0 to |lines|
      invariant Changes(table, lines[..i]) == Ok(Change(adds, backfills))
    {
      var item := lines[i];
      assert lines[..i + 1][..i] == lines[..i];
      if NotNull(item) {
        var value := DefaultOf(item);
        if value.Err? {
          ChangesFail(table, lines, i + 1);
          return Err(value.error);
        }
        backfills := backfills + [SetColumn(table, ColumnName(Split(item)), value.value), Commit];
      } else {
        backfills := backfills + [];
      }
      adds := adds + [AddColumn(table, Column(item))];
    }
    assert lines[..|lines|] == lines;
    return Ok(Change(adds, backfills));
  }

  lemma {:induction false} ChangesFail(table: string, lines: seq<string>, n: nat)
    requires n <= |lines| && Changes(table, lines[..n]).Err?
    ensures Changes(table, lines) == Changes(table, lines[..n])
    decreases |lines|
  {
    if n == |lines| {
      assert lines[..n] == lines;
    } else {
      assert lines[..|lines| - 1][..n] == lines[..n];
      ChangesFail(table, lines[..|lines| - 1], n);
    }
  }

  method ItemIncrement(newer: TableDef, older: TableDef) returns (r: Result<seq<string>>)
    ensures r == TableIncrement(newer, older)
  {
    var samePre := IsSameSqlList(Split(newer.pre), Split(older.pre));
    if !samePre {
      return Err(HeadChanged);
    }
    var post := SamePost(newer.post, older.post);
    if post.Err? {
      return Err(post.error);
    }
    if !post.value {
      return Err(TailChanged);
    }
    r := IncrementItems(newer.items, older.items);
  }

  method ItemDegrade(low: Item, high: Item) returns (r: Result<()>)
    requires low.CreateTable? && high.CreateTable?
    ensures r == TableDegrade(low, high)
  {
    if Same(low, high) {
      return Ok(());
    }
    var decrement := ItemIncrement(high.def, low.def);
    if decrement.Err? {
      return Err(decrement.error);
    }
    var ok := IsDroppable(decrement.value);
    if !ok {
      return Err(NoDefault);
    }
    return Ok(());
  }

  method IsDroppable(lines: seq<string>) returns (ok: bool)
    ensures ok == Droppable(lines)
  {
    for i := 0 to |lines|
      invariant forall k :: 0 <= k < i ==> NotNull(lines[k]) ==> MentionsDefault(lines[k])
    {
      if NotNull(lines[i]) && !MentionsDefault(lines[i]) {
        return false;
      }
    }
    return true;
  }

  class TableGroup {
    var table: string
    var version: nat
    var sqls: seq<Item>
    var fetched: seq<bool>
    var tables: seq<nat>
    var indexes: seq<nat>
    var loads: seq<nat>
    var tableDiff: seq<Stmt>
    var packageKeyShrinks: bool

    ghost predicate Valid()
      reads this
    {
      |fetched| == |sqls| && ValidItems(table, sqls)
      && tables == PositionsOf(sqls, Tables)
      && indexes == PositionsOf(sqls, Indexes)
      && loads == PositionsOf(sqls, Loads)
    }

    ghost function View(): Group
      reads this
    {
      Group(table, version, sqls)
    }

    ghost predicate Fresh()
      reads this
    {
      forall p :: 0 <= p < |fetched| ==> !fetched[p]
    }

    constructor (create: Item, version: nat)
      requires create.CreateTable?
      ensures Valid() && Fresh() && View() == Group(create.table, version, [create])
      ensures tableDiff == [] && !packageKeyShrinks
    {
      this.table := create.table;
      this.version := version;
      this.sqls := [create];
      this.fetched := [false];
      this.tables, this.indexes, this.loads := [0], [], [];
      this.tableDiff := [];
      this.packageKeyShrinks := false;
    }

    /** Adds a statement about this table; refuses one about another table. */
    method Append(item: Item) returns (ok: bool)
      requires Valid() && !item.CreateTable?
      modifies this`sqls, this`fetched, this`indexes, this`loads
      ensures Valid() && ok == Refers(item.table, table)
      ensures View() == if ok then old(View()).(sqls := old(sqls) + [item]) else old(View())
      ensures fetched == if ok then old(fetched) + [false] else old(fetched)
      ensures !ok ==> indexes == old(indexes) && loads == old(loads)
    {
      if !(item.table == table || item.table == "SYS." + table) {
        return false;
      }
      var p := |sqls|;
      assert (sqls + [item])[..p] == sqls;
      sqls := sqls + [item];
      fetched := fetched + [false];
      if item.CreateIndex? {
        indexes := indexes + [p];
      } else {
        loads := loads + [p];
      }
      return true;
    }

    method Fetch(wanted: Item) returns (k: Option<nat>)
      requires |fetched| == |sqls|
      modifies this`fetched
      ensures k == FirstMatch(sqls, wanted)
      ensures fetched == if k.Some? then old(fetched)[k.value := true] else old(fetched)
    {
      for i := 0 to |sqls|
        invariant fetched == old(fetched)
        invariant forall j :: 0 <= j < i ==> !Matches(sqls[j], wanted)
      {
        if Matches(sqls[i], wanted) {
          fetched := fetched[i := true];
          return Some(i);
        }
      }
      return None;
    }

    /** Looks up every statement but the indexes in the other release. */
    method FetchAll(other: TableGroup)
      requires this != other && |other.fetched| == |other.sqls| && other.Fresh()
      modifies other`fetched
      ensures |other.fetched| == |other.sqls|
      ensures forall p: nat :: p < |other.sqls| ==> (other.fetched[p] <==> ClaimedBefore(sqls, other.sqls, |sqls|, p))
    {
      for n := 0 to |sqls|
        invariant |other.fetched| == |other.sqls|
        invariant forall p: nat :: p < |other.sqls| ==> (other.fetched[p] <==> ClaimedBefore(sqls, other.sqls, n, p))
      {
        ghost var before := other.fetched;
        if !sqls[n].CreateIndex? {
          var _ := other.Fetch(sqls[n]);
        }
        forall p: nat | p < |other.sqls|
          ensures other.fetched[p] <==> ClaimedBefore(sqls, other.sqls, n + 1, p)
        {
          ClaimedStep(sqls, other.sqls, n, p);
        }
      }
    }

    /** Whether every statement of the other release except its indexes is found. */
    method IsAllMatched(other: TableGroup) returns (all: bool)
      requires this != other && Valid() && other.Valid() && other.Fresh()
      modifies other`fetched
      ensures other.Valid() && all == AllMatched(sqls, other.sqls)
      ensures Unflagged(other.fetched, other.sqls)
    {
      FetchAll(other);
      ghost var after := other.fetched;
      for p := 0 to |other.sqls|
        invariant other.fetched == after
        invariant forall q: nat :: q < p && !other.sqls[q].CreateIndex? ==> Claimed(sqls, other.sqls, q)
      {
        ClaimedOutsideIndexes(sqls, other.sqls, p);
        if !other.sqls[p].CreateIndex? && !other.fetched[p] {
          return false;
        }
      }
      return true;
    }

    /** Compares the index at position `k` with its counterpart, softening it first. */
    method CompareIndex(other: TableGroup, k: nat) returns (same: bool)
      requires this != other && |other.fetched| == |other.sqls| && k < |sqls| && sqls[k].CreateIndex?
      requires !packageKeyShrinks
      modifies this`sqls, this`packageKeyShrinks, other`fetched
      ensures Compared(old(sqls), sqls, old(other.fetched), other.fetched, other.sqls, table in SPECIAL_TABLES, k,
                       same, packageKeyShrinks)
    {
      ghost var before := sqls;
      var matched := other.Fetch(sqls[k]);
      if matched.None? {
        assert before[k := sqls[k]] == before;
        return false;
      }
      var theirs := other.sqls[matched.value];
      sqls := sqls[k := Softened(sqls[k], theirs, table in SPECIAL_TABLES)];
      PositionsKept(before, sqls, Indexes);
      same := IsSameSqlList(IndexWords(sqls[k]), IndexWords(theirs));
      if !same && ShrinksPackageKey(sqls[k], theirs) {
        packageKeyShrinks := true;
      }
    }

    /** Compares index `n`, the indexes before it having been found the same. */
    method CompareNth(other: TableGroup, n: nat, ghost start: Scanned) returns (same: bool)
      requires this != other && indexes == PositionsOf(sqls, Indexes) && n < |indexes| && !packageKeyShrinks
      requires |other.fetched| == |other.sqls|
      requires Comparing(start, other.fetched, sqls, other.sqls, table in SPECIAL_TABLES, n)
      modifies this`sqls, this`packageKeyShrinks, other`fetched
      ensures indexes == PositionsOf(sqls, Indexes) && |other.fetched| == |other.sqls|
      ensures if same
              then !packageKeyShrinks
                   && Comparing(start, other.fetched, sqls, other.sqls, table in SPECIAL_TABLES, n + 1)
              else start == Scanned(true, sqls, packageKeyShrinks)
    {
      IndexThere(sqls, n);
      ghost var before, flags := sqls, other.fetched;
      same := CompareIndex(other, indexes[n]);
      CompareNext(start, flags, other.fetched, before, sqls, other.sqls, table in SPECIAL_TABLES, n, same, packageKeyShrinks);
    }

    method CompareIndexes(other: TableGroup) returns (differ: bool)
      requires this != other && indexes == PositionsOf(sqls, Indexes) && !packageKeyShrinks
      requires Unflagged(other.fetched, other.sqls)
      modifies this`sqls, this`packageKeyShrinks, other`fetched
      ensures |other.fetched| == |other.sqls|
      ensures Scan(old(sqls), other.sqls, table in SPECIAL_TABLES, 0)
              == Scanned(differ || Leftover(sqls, other.sqls), sqls, packageKeyShrinks)
      ensures !differ ==> Flagged(other.fetched, sqls, other.sqls, |sqls|)
    {
      ghost var special := table in SPECIAL_TABLES;
      ghost var start := Scan(sqls, other.sqls, special, 0);
      CompareStart(other.fetched, sqls, other.sqls, special);
      for n := 0 to |indexes|
        invariant indexes == PositionsOf(sqls, Indexes) && !packageKeyShrinks && |other.fetched| == |other.sqls|
        invariant Comparing(start, other.fetched, sqls, other.sqls, special, n)
      {
        var same := CompareNth(other, n, start);
        if !same {
          return true;
        }
      }
      CompareEnd(start, other.fetched, sqls, other.sqls, special);
      return false;
    }

    /** Whether an index of the other release was never asked for. */
    method HasLeftover(other: TableGroup) returns (leftover: bool)
      requires Flagged(other.fetched, sqls, other.sqls, |sqls|)
      ensures leftover == Leftover(sqls, other.sqls)
    {
      for p := 0 to |other.sqls|
        invariant forall q: nat :: q < p && other.sqls[q].CreateIndex? ==> Claimed(sqls, other.sqls, q)
      {
        IndexClaimsAll(sqls, other.sqls, p);
        if other.sqls[p].CreateIndex? && !other.fetched[p] {
          return true;
        }
      }
      return false;
    }

    /** Whether the indexes of this release and of the other differ, so that all have
        to be rebuilt. */
    method IsDropIndex(other: TableGroup) returns (drop: bool)
      requires this != other && Valid() && other.Valid() && !packageKeyShrinks
      requires Unflagged(other.fetched, other.sqls)
      modifies this`sqls, this`packageKeyShrinks, other`fetched
      ensures Valid() && other.Valid()
      ensures Scanned(drop, sqls, packageKeyShrinks) == Scan(old(sqls), other.sqls, table in SPECIAL_TABLES, 0)
    {
      drop := CompareIndexes(other);
      ScanKeepsValid(table, old(sqls), other.sqls, table in SPECIAL_TABLES, sqls);
      if !drop {
        drop := HasLeftover(other);
      }
    }

    method GeneDropAllIndexSqls() returns (drops: seq<Stmt>)
      ensures drops == Drops(sqls)
    {
      drops := [];
      for i := 0 to |sqls|
        invariant drops + Drops(sqls[i..]) == Drops(sqls)
      {
        if sqls[i].CreateIndex? {
          drops := drops + [DropIndex(sqls[i].table, sqls[i].index)];
        }
      }
    }

    method IndexSqls() returns (creates: seq<Stmt>)
      requires indexes == PositionsOf(sqls, Indexes)
      ensures creates == Creates(sqls)
    {
      creates := [];
      FirstPosition(sqls);
      CreatesSkip(sqls, 0, Position(indexes, 0, |sqls|));
      for n := 0 to |indexes|
        invariant Position(indexes, n, |sqls|) <= |sqls|
        invariant creates == Creates(sqls[..Position(indexes, n, |sqls|)])
      {
        CreatesNext(sqls, n);
        var k := indexes[n];
        creates := creates + [MakeIndex(sqls[k].table, sqls[k].index, IndexWords(sqls[k]))];
      }
      assert sqls[..|sqls|] == sqls;
    }

    /** The diff when all indexes are rebuilt; the rebuild itself is written when the
        first dictionary load is reached. */
    method UpgradeWithRebuild(other: TableGroup) returns (r: Result<()>)
      requires this != other && |other.fetched| == |other.sqls| > 0 && other.sqls[0].CreateTable?
      requires indexes == PositionsOf(sqls, Indexes) && tableDiff == []
      requires |sqls| > 0 && sqls[0].CreateTable? && forall k :: 0 < k < |sqls| ==> !sqls[k].CreateTable?
      requires FirstMatch(other.sqls, sqls[0]) == Some(0)
      modifies this`tableDiff, other`fetched
      ensures r.Ok? ==> TableUpgrade(sqls[0], other.sqls[0]).Ok?
                        && var change := TableUpgrade(sqls[0], other.sqls[0]).value;
                           tableDiff == if HasLoad(sqls)
                                        then (change.adds + change.backfills) + (Drops(other.sqls) + Creates(sqls))
                                        else change.adds
      ensures r.Err? ==> TableUpgrade(sqls[0], other.sqls[0]) == Err(r.error)
    {
      ghost var spec := TableUpgrade(sqls[0], other.sqls[0]);
      var extra: seq<Stmt> := [];
      for i := 0 to |sqls|
        invariant |other.fetched| == |other.sqls|
        invariant forall k :: 0 <= k < i ==> !sqls[k].LoadDictionary?
        invariant i == 0 ==> tableDiff == [] && extra == []
        invariant i > 0 ==> spec == Ok(Change(tableDiff, extra))
      {
        if sqls[i].LoadDictionary? {
          var rebuild := RebuildSqls(other);
          tableDiff := tableDiff + extra;
          tableDiff := tableDiff + rebuild;
          return Ok(());
        }
        if sqls[i].CreateTable? {
          var matched := other.Fetch(sqls[i]);
          var change := ItemUpgrade(sqls[i], other.sqls[matched.value]);
          if change.Err? {
            return Err(change.error);
          }
          tableDiff := change.value.adds;
          extra := change.value.backfills;
        }
      }
      return Ok(());
    }

    method RebuildSqls(other: TableGroup) returns (rebuild: seq<Stmt>)
      requires indexes == PositionsOf(sqls, Indexes)
      ensures rebuild == Drops(other.sqls) + Creates(sqls)
    {
      var drops := other.GeneDropAllIndexSqls();
      var creates := IndexSqls();
      rebuild := drops + creates;
    }

    /** The diff when no index has changed. */
    method UpgradeInPlace(other: TableGroup) returns (r: Result<()>)
      requires this != other && |other.fetched| == |other.sqls| > 0 && other.sqls[0].CreateTable?
      requires tableDiff == []
      requires |sqls| > 0 && sqls[0].CreateTable? && forall k :: 0 < k < |sqls| ==> !sqls[k].CreateTable?
      requires FirstMatch(other.sqls, sqls[0]) == Some(0)
      requires forall k :: 0 <= k < |sqls| ==> Agrees(sqls, other.sqls, k)
      modifies this`tableDiff, other`fetched
      ensures r.Ok? ==> TableUpgrade(sqls[0], other.sqls[0]).Ok?
                        && var change := TableUpgrade(sqls[0], other.sqls[0]).value;
                           tableDiff == if change.adds == [] then [] else change.adds + change.backfills
      ensures r.Err? ==> TableUpgrade(sqls[0], other.sqls[0]) == Err(r.error)
    {
      ghost var spec := TableUpgrade(sqls[0], other.sqls[0]);
      var all := Change([], []);
      var i := 0;
      while i < |sqls| && !sqls[i].LoadDictionary?
        invariant 0 <= i <= |sqls| && |other.fetched| == |other.sqls| && tableDiff == []
        invariant i == 0 ==> all == Change([], [])
        invariant i > 0 ==> spec == Ok(all)
      {
        var matched := other.Fetch(sqls[i]);
        assert Agrees(sqls, other.sqls, i);
        var change := ItemUpgrade(sqls[i], other.sqls[matched.value]);
        if change.Err? {
          return Err(change.error);
        }
        BothWithNothing(all);
        BothWithNothing(change.value);
        all := Both(all, change.value);
        i := i + 1;
      }
      if all.adds != [] {
        tableDiff := all.adds + all.backfills;
      }
      return Ok(());
    }

    method UpgradeFrom(other: TableGroup) returns (r: Result<()>)
      requires this != other && Valid() && other.Valid() && other.Fresh() && !packageKeyShrinks && tableDiff == []
      modifies this`sqls, this`packageKeyShrinks, this`tableDiff, other`sqls, other`fetched
      ensures var spec := Upgrade(old(View()), Some(old(other.View())));
              if r.Ok? then spec.Ok? && tableDiff == spec.value.diff && sqls == spec.value.sqls else spec == Err(r.error)
    {
      r := AlignTablespace(other);
      if r.Ok? {
        r := UpgradeAlignedFrom(other);
      }
    }

    /** A statistics table that moves between SYSTEM and SYSAUX is read as in SYSTEM. */
    method AlignTablespace(other: TableGroup) returns (r: Result<()>)
      requires this != other && Valid() && other.Valid()
      modifies this`sqls, other`sqls
      ensures Valid() && other.Valid()
      ensures match MovesTablespace(table, old(sqls)[0].def, old(other.sqls)[0].def)
              case Err(e) => r == Err(e)
              case Ok(moved) => r == Ok(()) && sqls == (if moved then Realign(old(sqls)) else old(sqls))
                                && other.sqls == (if moved then Realign(old(other.sqls)) else old(other.sqls))
    {
      var moved := MovesTablespace(table, sqls[0].def, other.sqls[0].def);
      if moved.Err? {
        return Err(moved.error);
      }
      if moved.value {
        RealignValid(table, sqls);
        RealignValid(other.table, other.sqls);
        sqls := Realign(sqls);
        other.sqls := Realign(other.sqls);
      }
      return Ok(());
    }

    method UpgradeAlignedFrom(other: TableGroup) returns (r: Result<()>)
      requires this != other && Valid() && other.Valid() && other.Fresh() && !packageKeyShrinks && tableDiff == []
      modifies this`sqls, this`packageKeyShrinks, this`tableDiff, other`fetched
      ensures var spec := UpgradeAligned(table in SPECIAL_TABLES, old(sqls), other.sqls);
              if r.Ok? then spec.Ok? && tableDiff == spec.value.diff && sqls == spec.value.sqls else spec == Err(r.error)
    {
      var all := IsAllMatched(other);
      if !all {
        return Err(UnmatchedItem);
      }
      CreateTableFound(table, sqls, other.table, other.sqls);
      var drop := IsDropIndex(other);
      ScanKeepsValid(table, old(sqls), other.sqls, table in SPECIAL_TABLES, sqls);
      if drop {
        r := UpgradeWithRebuild(other);
      } else {
        ScanAgrees(old(sqls), other.sqls, table in SPECIAL_TABLES, 0);
        r := UpgradeInPlace(other);
      }
    }

    method RecordNewTable()
      requires Valid() && tableDiff == []
      modifies this`tableDiff
      ensures tableDiff == CreateAll(sqls)
    {
      for i := 0 to |sqls|
        invariant tableDiff == if i == 0 then [] else [MakeTable(sqls[0].table, Columns(sqls[0].def.items))] + Creates(sqls[..i])
      {
        CreatesLast(sqls[..i], sqls[i]);
        assert sqls[..i + 1] == sqls[..i] + [sqls[i]];
        if sqls[i].CreateTable? {
          tableDiff := tableDiff + [MakeTable(sqls[i].table, Columns(sqls[i].def.items))];
        } else if sqls[i].CreateIndex? {
          tableDiff := tableDiff + [MakeIndex(sqls[i].table, sqls[i].index, IndexWords(sqls[i]))];
        }
      }
      assert sqls[..|sqls|] == sqls;
    }

    /** Writes the upgrade of this release from an older one, or from nothing. */
    method GenerateUpgrade(other: TableGroup?) returns (r: Result<()>)
      requires Valid() && !packageKeyShrinks
      requires other != null ==> this != other && other.Valid() && other.Fresh()
      modifies this, other
      ensures var spec := Upgrade(old(View()), if other == null then None else Some(old(other.View())));
              if r.Ok? then spec.Ok? && tableDiff == spec.value.diff && sqls == spec.value.sqls else spec == Err(r.error)
    {
      tableDiff := [];
      if other != null {
        r := UpgradeFrom(other);
        return;
      }
      RecordNewTable();
      return Ok(());
    }

    /** Checks that the lower release's CREATE TABLE is one the higher one extends. */
    method CheckDegrade(low: TableGroup) returns (r: Result<()>)
      requires this != low && |fetched| == |sqls| > 0 && sqls[0].CreateTable?
      requires |low.sqls| > 0 && low.sqls[0].CreateTable? && forall k :: 0 < k < |low.sqls| ==> !low.sqls[k].CreateTable?
      requires FirstMatch(sqls, low.sqls[0]) == Some(0)
      modifies this`fetched
      ensures |fetched| == |sqls| && r == TableDegrade(low.sqls[0], sqls[0])
    {
      var i := 0;
      while i < |low.sqls| && !low.sqls[i].LoadDictionary?
        invariant 0 <= i <= |low.sqls| && |fetched| == |sqls|
        invariant i > 0 ==> TableDegrade(low.sqls[0], sqls[0]) == Ok(())
      {
        if low.sqls[i].CreateTable? {
          var matched := Fetch(low.sqls[i]);
          var check := ItemDegrade(low.sqls[i], sqls[matched.value]);
          if check.Err? {
            return check;
          }
        }
        i := i + 1;
      }
      return Ok(());
    }

    method DegradeTo(low: TableGroup, later: bool) returns (r: Result<()>, later': bool)
      requires this != low && Valid() && low.Valid() && Fresh() && low.Fresh()
      requires !low.packageKeyShrinks && tableDiff == []
      modifies this`sqls, this`fetched, this`tableDiff, low`sqls, low`fetched, low`packageKeyShrinks
      ensures var spec := Degrade(old(View()), Some(old(low.View())), later);
              if r.Ok? then spec.Ok? && tableDiff == spec.value.diff && low.sqls == spec.value.sqls
                            && later' == (later || spec.value.purges)
              else spec == Err(r.error)
    {
      later' := later;
      r := AlignTablespace(low);
      if r.Ok? {
        r, later' := DegradeAlignedTo(low, later);
      }
    }

    method DegradeAlignedTo(low: TableGroup, later: bool) returns (r: Result<()>, later': bool)
      requires this != low && Valid() && low.Valid() && Fresh() && low.Fresh()
      requires !low.packageKeyShrinks && tableDiff == []
      modifies this`fetched, this`tableDiff, low`sqls, low`fetched, low`packageKeyShrinks
      ensures var spec := DegradeAligned(table, later, sqls, old(low.sqls), low.table in SPECIAL_TABLES);
              if r.Ok? then spec.Ok? && tableDiff == spec.value.diff && low.sqls == spec.value.sqls
                            && later' == (later || spec.value.purges)
              else spec == Err(r.error)
    {
      later' := later;
      ghost var lower := low.sqls;
      var all := IsAllMatched(low);
      if !all {
        return Err(UnmatchedItem), later;
      }
      CreateTableFound(table, sqls, low.table, lower);
      var drop := low.IsDropIndex(this);
      ScanKeepsValid(low.table, lower, sqls, low.table in SPECIAL_TABLES, low.sqls);
      if drop {
        later' := RecordRebuild(low, later);
      }
      r := CheckDegrade(low);
    }

    method RecordRebuild(low: TableGroup, later: bool) returns (later': bool)
      requires low.indexes == PositionsOf(low.sqls, Indexes)
      modifies this`tableDiff
      ensures later' == (later || PurgesPackages(table, low.packageKeyShrinks))
      ensures tableDiff == Purge(table, low.packageKeyShrinks, later') + (Drops(sqls) + Creates(low.sqls))
    {
      var shrinks := low.packageKeyShrinks;
      later' := later || PurgesPackages(table, shrinks);
      var rebuild := low.RebuildSqls(this);
      tableDiff := Purge(table, shrinks, later') + rebuild;
    }

    /** Writes the way back from this release to a lower one, or to nothing. */
    method GenerateDegrade(low: TableGroup?, later: bool) returns (r: Result<()>, later': bool)
      requires Valid() && Fresh()
      requires low != null ==> this != low && low.Valid() && low.Fresh() && !low.packageKeyShrinks
      modifies this, low
      ensures var spec := Degrade(old(View()), if low == null then None else Some(old(low.View())), later);
              if r.Ok? then spec.Ok? && tableDiff == spec.value.diff && later' == (later || spec.value.purges)
              else spec == Err(r.error)
    {
      tableDiff := [];
      if low != null {
        r, later' := DegradeTo(low, later);
        return;
      }
      tableDiff := [DropTable(table)];
      return Ok(()), later;
    }
  }
}
