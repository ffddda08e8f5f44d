/** The check that a table's version number moves exactly when its definition does
    (check_initdb, InitDbSqls.fetch and checkUnMatchedItem of sql_process.py). */
module ReleaseGate {
  import opened Wrappers
  import opened SqlText
  import opened CreateTableSql
  import opened Schema
  import opened Migration
  import opened MigrationMeaning
  import opened MigrationRoundTrip

  type Release = seq<Group>

  function FetchFrom(release: Release, table: string, k: nat): (p: Option<nat>)
    requires k <= |release|
    ensures p.Some? ==> k <= p.value < |release| && release[p.value].table == table
                        && forall j :: k <= j < p.value ==> release[j].table != table
    ensures p.None? ==> forall j :: k <= j < |release| ==> release[j].table != table
    decreases |release| - k
  {
    if k == |release| then None else if release[k].table == table then Some(k) else FetchFrom(release, table, k + 1)
  }

  /** The first group of that name. */
  function Fetch(release: Release, table: string): Option<nat> {
    FetchFrom(release, table, 0)
  }

  ghost predicate ValidRelease(release: Release) {
    forall i :: 0 <= i < |release| ==> ValidGroup(release[i])
  }

  function CheckOne(low: Group, high: Group, adjacent: bool): Result<()>
    requires ValidGroup(low) && ValidGroup(high)
  {
    match Upgrade(high, Some(low))
    case Err(e) => Err(e)
    case Ok(plan) =>
      if plan.diff != [] then
        if low.version == high.version then Err(VersionUnchanged)
        else if adjacent && low.version + 1 != high.version then Err(VersionNotNext)
        else Ok(())
      else if adjacent && low.version != high.version then Err(VersionMoved)
      else Ok(())
  }

  /** Group `i` of `high` is new, or passes against the group of its name in `low`. */
  predicate Passes(low: Release, high: Release, i: nat, adjacent: bool)
    requires i < |high| && ValidGroup(high[i])
  {
    match Fetch(low, high[i].table)
    case None => true
    case Some(k) => ValidGroup(low[k]) && CheckOne(low[k], high[i], adjacent).Ok?
  }

  /** Group `k` of `low` is what one of the first `n` groups of `high` finds. */
  predicate Wanted(low: Release, high: Release, n: nat, k: nat)
    requires n <= |high|
  {
    exists i :: 0 <= i < n && Fetch(low, high[i].table) == Some(k)
  }

  /** Everything the check asks of two versioned releases. */
  ghost predicate Accepted(low: Release, high: Release, adjacent: bool)
    requires ValidRelease(high)
  {
    (forall i :: 0 <= i < |high| ==> Passes(low, high, i, adjacent))
    && forall k :: 0 <= k < |low| ==> Wanted(low, high, |high|, k)
  }

  /** A loaded script has either no versions at all or a version everywhere. */
  predicate Unversioned(release: Release) {
    |release| > 0 && release[0].version == 0
  }

  method CheckInitdb(low: Release, high: Release, adjacent: bool) returns (r: Result<()>)
    requires ValidRelease(low) && ValidRelease(high)
    ensures r.Ok? <==> Unversioned(low) || (!Unversioned(high) && Accepted(low, high, adjacent))
  {
    if Unversioned(low) {
      return Ok(());
    }
    if Unversioned(high) {
      return Err(MixedVersions);
    }
    var compared, fetched := CompareAll(low, high, adjacent);
    if compared.Err? {
      return compared;
    }
    for k := 0 to |low|
      invariant forall j :: 0 <= j < k ==> Wanted(low, high, |high|, j)
    {
      if !fetched[k] {
        return Err(UnmatchedItem);
      }
    }
    return Ok(());
  }

  method CheckItem(low: Release, high: Release, i: nat, adjacent: bool) returns (found: Option<nat>, r: Result<()>)
    requires ValidRelease(low) && ValidRelease(high) && i < |high|
    ensures found == Fetch(low, high[i].table) && (r.Ok? <==> Passes(low, high, i, adjacent))
  {
    found := Fetch(low, high[i].table);
    r := if found.Some? then CheckOne(low[found.value], high[i], adjacent) else Ok(());
  }

  ghost predicate Flagged(fetched: seq<bool>, low: Release, high: Release, n: nat)
    requires n <= |high|
  {
    |fetched| == |low| && forall k :: 0 <= k < |low| ==> (fetched[k] <==> Wanted(low, high, n, k))
  }

  method CompareAll(low: Release, high: Release, adjacent: bool) returns (r: Result<()>, fetched: seq<bool>)
    requires ValidRelease(low) && ValidRelease(high)
    ensures r.Ok? <==> forall i :: 0 <= i < |high| ==> Passes(low, high, i, adjacent)
    ensures r.Ok? ==> Flagged(fetched, low, high, |high|)
  {
    fetched := seq(|low|, _ => false);
    for i := 0 to |high|
      invariant Flagged(fetched, low, high, i)
      invariant forall j :: 0 <= j < i ==> Passes(low, high, j, adjacent)
    {
      var found, check := CheckItem(low, high, i, adjacent);
      if check.Err? {
        return check, fetched;
      }
      FlagStep(fetched, low, high, i);
      if found.Some? {
        fetched := fetched[found.value := true];
      }
    }
    return Ok(()), fetched;
  }

  lemma FlagStep(fetched: seq<bool>, low: Release, high: Release, n: nat)
    requires n < |high| && Flagged(fetched, low, high, n)
    ensures var found := Fetch(low, high[n].table);
            Flagged(if found.Some? then fetched[found.value := true] else fetched, low, high, n + 1)
  {
    forall k | 0 <= k < |low|
      ensures Wanted(low, high, n + 1, k) <==> fetched[k] || Fetch(low, high[n].table) == Some(k)
    {
      WantedStep(low, high, n, k);
    }
  }

  lemma WantedStep(low: Release, high: Release, n: nat, k: nat)
    requires n < |high|
    ensures Wanted(low, high, n + 1, k) <==> Wanted(low, high, n, k) || Fetch(low, high[n].table) == Some(k)
  {
    if Wanted(low, high, n + 1, k) && !Wanted(low, high, n, k) {
      var i :| 0 <= i < n + 1 && Fetch(low, high[i].table) == Some(k);
      assert i == n;
    }
  }

  // -------------------------------------------------------- what an empty diff means

  /** The same columns, up to letter case and blanks. */
  ghost predicate SameColumns(a: Group, b: Group)
    requires ValidGroup(a) && ValidGroup(b)
  {
    |a.sqls[0].def.items| == |b.sqls[0].def.items| && Extends(a.sqls[0].def.items, b.sqls[0].def.items)
  }

  lemma {:induction false} NoIndexNoScript(sqls: seq<Item>)
    ensures Drops(sqls) == [] <==> IndexNames(sqls) == {}
    ensures Creates(sqls) == [] <==> IndexNames(sqls) == {}
  {
    if sqls != [] {
      NoIndexNoScript(sqls[1..]);
      IndexNamesStep(sqls);
      if sqls[0].CreateIndex? {
        assert sqls[0].index in IndexNames(sqls);
      }
    }
  }

  lemma NoNamesSame(a: seq<Item>, b: seq<Item>)
    requires IndexNames(a) == {} && IndexNames(b) == {}
    ensures SameIndexes(a, b)
  {
    assert forall j :: 0 <= j < |a| && a[j].CreateIndex? ==> a[j].index in IndexNames(a);
  }

  lemma EmptyAlignedDiff(name: string, special: bool, mine: seq<Item>, theirs: seq<Item>)
    requires Ready(name, mine, theirs) && UpgradeAligned(special, mine, theirs).Ok?
    ensures |theirs[0].def.items| <= |mine[0].def.items|
    ensures var plan := UpgradeAligned(special, mine, theirs).value;
            plan.diff == []
            <==> |mine[0].def.items| == |theirs[0].def.items| && (SoftlySame(mine, theirs, special) || !HasLoad(mine))
  {
    var plan := UpgradeAligned(special, mine, theirs).value;
    UpgradeParts(special, mine, theirs);
    DropMeans(special, mine, theirs);
    TableUpgradeIs(mine[0], theirs[0]);
    ChangesShape(mine[0].table, AddedLines(mine[0], theirs[0]));
    ScanNames(mine, theirs, special);
    NoIndexNoScript(plan.sqls);
    NoIndexNoScript(theirs);
    if IndexNames(mine) == {} && IndexNames(theirs) == {} {
      SoftNames(mine, theirs, special);
      NoNamesSame(SoftFrom(mine, theirs, special, 0), theirs);
    }
  }

  /** An accepted upgrade has nothing to do exactly if the columns are the same and the
      indexes are too, softened where a statistics table allows it, or have no dictionary
      load to be rebuilt at. */
  lemma EmptyDiffMeans(newer: Group, older: Group)
    requires Sound(newer) && Sound(older) && newer.table == older.table
    requires Upgrade(newer, Some(older)).Ok?
    ensures Upgrade(newer, Some(older)).value.diff == []
            <==> SameColumns(newer, older)
                 && (SoftlySame(newer.sqls, older.sqls, newer.table in SPECIAL_TABLES) || !HasLoad(newer.sqls))
  {
    var (mine, theirs) := Aligned(newer, older);
    var special := newer.table in SPECIAL_TABLES;
    UpgradeIsAligned(newer, older);
    EmptyAlignedDiff(newer.table, special, mine, theirs);
    AlikeMeans(mine, newer.sqls);
    AlikeSoftly(mine, newer.sqls, theirs, older.sqls, special);
  }

  // ------------------------------------------------------------- chains of releases

  ghost predicate SoundRelease(release: Release) {
    forall i :: 0 <= i < |release| ==> Sound(release[i])
  }

  /** Every release is accepted after the one before it, with adjacency on. */
  ghost predicate AcceptedChain(chain: seq<Release>) {
    (forall i :: 0 <= i < |chain| ==> SoundRelease(chain[i]))
    && forall i :: 0 < i < |chain| ==> Link(chain[i - 1], chain[i])
  }

  ghost predicate Link(low: Release, high: Release) {
    SoundRelease(low) && SoundRelease(high) && Accepted(low, high, true)
  }

  /** The group called `table` in a release, if the release has one. */
  predicate Has(release: Release, table: string) {
    Fetch(release, table).Some?
  }

  function The(release: Release, table: string): Group
    requires Has(release, table)
  {
    release[Fetch(release, table).value]
  }

  /** No table disappears. */
  lemma LinkKeeps(low: Release, high: Release, table: string)
    requires (forall k :: 0 <= k < |low| ==> Wanted(low, high, |high|, k)) && Has(low, table)
    ensures Has(high, table)
  {
    var k := Fetch(low, table).value;
    assert Wanted(low, high, |high|, k);
    var i :| 0 <= i < |high| && Fetch(low, high[i].table) == Some(k);
    assert high[i].table == table;
  }

  lemma LinkPasses(low: Release, high: Release, table: string)
    requires ValidRelease(low) && ValidRelease(high) && Has(low, table) && Has(high, table)
    requires forall i :: 0 <= i < |high| ==> Passes(low, high, i, true)
    ensures CheckOne(The(low, table), The(high, table), true).Ok?
  {
    var j := Fetch(high, table).value;
    assert Passes(low, high, j, true) && high[j].table == table;
  }

  lemma LinkStep(low: Release, high: Release, table: string)
    requires Link(low, high) && Has(low, table)
    ensures Has(high, table) && Upgrade(The(high, table), Some(The(low, table))).Ok?
    ensures The(high, table).version == The(low, table).version
            + (if Upgrade(The(high, table), Some(The(low, table))).value.diff != [] then 1 else 0)
  {
    LinkKeeps(low, high, table);
    LinkPasses(low, high, table);
  }

  /** How many links of the chain up to release `n` change the table. */
  ghost function Changed(chain: seq<Release>, table: string, n: nat): nat
    requires AcceptedChain(chain) && n < |chain| && Has(chain[0], table)
    ensures Has(chain[n], table)
  {
    if n == 0 then 0
    else
      var before := Changed(chain, table, n - 1);
      assert Link(chain[n - 1], chain[n]);
      LinkStep(chain[n - 1], chain[n], table);
      before + (if Upgrade(The(chain[n], table), Some(The(chain[n - 1], table))).value.diff != [] then 1 else 0)
  }

  /** VERSION LAW.  Along any chain of accepted releases a table of the first release is
      in every later one, and its version has risen by exactly the number of links whose
      diff was not empty. */
  lemma {:induction false} VersionLaw(chain: seq<Release>, table: string, n: nat)
    requires AcceptedChain(chain) && n < |chain| && Has(chain[0], table)
    ensures Has(chain[n], table)
    ensures The(chain[n], table).version == The(chain[0], table).version + Changed(chain, table, n)
  {
    if n > 0 {
      VersionLaw(chain, table, n - 1);
      assert Link(chain[n - 1], chain[n]);
      LinkStep(chain[n - 1], chain[n], table);
    }
  }

  ghost predicate SameSchema(a: Group, b: Group)
    requires ValidGroup(a) && ValidGroup(b)
  {
    SameColumns(a, b) && SameIndexes(a.sqls, b.sqls)
  }

  lemma SameColumnsTransitive(a: Group, b: Group, c: Group)
    requires ValidGroup(a) && ValidGroup(b) && ValidGroup(c)
    requires SameColumns(a, b) && SameColumns(b, c)
    ensures SameColumns(a, c)
  {
    var x, y, z := a.sqls[0].def.items, b.sqls[0].def.items, c.sqls[0].def.items;
    forall i | 0 <= i < |z|
      ensures SameItem(x[i], z[i])
    {
      assert SameItem(x[i], y[i]) && SameItem(y[i], z[i]);
    }
  }

  lemma SameSchemaTransitive(a: Group, b: Group, c: Group)
    requires ValidGroup(a) && ValidGroup(b) && ValidGroup(c)
    requires SameSchema(a, b) && SameSchema(b, c)
    ensures SameSchema(a, c)
  {
    SameColumnsTransitive(a, b, c);
    forall j, p | 0 <= j < |a.sqls| && 0 <= p < |c.sqls| && a.sqls[j].CreateIndex? && c.sqls[p].CreateIndex?
                  && a.sqls[j].index == c.sqls[p].index
      ensures Same(a.sqls[j], c.sqls[p])
    {
      assert a.sqls[j].index in IndexNames(b.sqls);
      var k :| 0 <= k < |b.sqls| && b.sqls[k].CreateIndex? && b.sqls[k].index == a.sqls[j].index;
      assert Same(a.sqls[j], b.sqls[k]) && Same(b.sqls[k], c.sqls[p]);
    }
  }

  lemma SameSchemaReflexive(a: Group)
    requires Sound(a)
    ensures SameSchema(a, a)
  {
    var x := a.sqls[0].def.items;
    forall i | 0 <= i < |x|
      ensures SameItem(x[i], x[i])
    {
    }
    forall j, p | 0 <= j < |a.sqls| && 0 <= p < |a.sqls| && a.sqls[j].CreateIndex? && a.sqls[p].CreateIndex?
                  && a.sqls[j].index == a.sqls[p].index
      ensures Same(a.sqls[j], a.sqls[p])
    {
      assert j == p;
    }
  }

  // ---------------------------------------------------- what equal versions guarantee

  /** What a pair with an empty diff has in common. */
  ghost predicate LooksSame(high: Group, low: Group)
    requires ValidGroup(high) && ValidGroup(low)
  {
    SameColumns(high, low)
    && (SoftlySame(high.sqls, low.sqls, high.table in SPECIAL_TABLES) || !HasLoad(high.sqls))
  }

  /** Across an accepted pair the version stays exactly if the columns are the same and the
      indexes are, softened where a statistics table allows it, or are never rebuilt. */
  lemma EqualVersionsAcross(low: Release, high: Release, table: string)
    requires Link(low, high) && Has(low, table)
    ensures Has(high, table)
    ensures The(high, table).version == The(low, table).version <==> LooksSame(The(high, table), The(low, table))
  {
    LinkStep(low, high, table);
    EmptyDiffMeans(The(high, table), The(low, table));
  }

  /** A pair that looks the same has the same schema if the newer release loads its
      dictionary and no index of a statistics table is softened. */
  ghost predicate Watched(high: Group, low: Group) {
    HasLoad(high.sqls) && (high.table in SPECIAL_TABLES ==> Unsoftened(high.sqls, low.sqls))
  }

  lemma WatchedIsSame(high: Group, low: Group)
    requires Sound(high) && Sound(low) && LooksSame(high, low) && Watched(high, low)
    ensures SameSchema(high, low)
  {
    SoftlyIsSame(high.sqls, low.sqls, high.table in SPECIAL_TABLES);
  }

  /** At link `i` the table looks the same on both sides. */
  ghost predicate LooksSameAt(chain: seq<Release>, table: string, i: nat)
    requires AcceptedChain(chain) && 0 < i < |chain| && Has(chain[0], table)
  {
    VersionLaw(chain, table, i - 1);
    VersionLaw(chain, table, i);
    LooksSame(The(chain[i], table), The(chain[i - 1], table))
  }

  ghost predicate WatchedAt(chain: seq<Release>, table: string, i: nat)
    requires AcceptedChain(chain) && 0 < i < |chain| && Has(chain[0], table)
  {
    VersionLaw(chain, table, i - 1);
    VersionLaw(chain, table, i);
    Watched(The(chain[i], table), The(chain[i - 1], table))
  }

  lemma LooksSameStep(chain: seq<Release>, table: string, n: nat)
    requires AcceptedChain(chain) && 0 < n < |chain| && Has(chain[0], table)
    ensures Has(chain[n], table) && Has(chain[n - 1], table)
    ensures The(chain[0], table).version <= The(chain[n - 1], table).version <= The(chain[n], table).version
    ensures LooksSameAt(chain, table, n) <==> The(chain[n], table).version == The(chain[n - 1], table).version
  {
    VersionLaw(chain, table, n);
    VersionLaw(chain, table, n - 1);
    assert Link(chain[n - 1], chain[n]);
    LinkStep(chain[n - 1], chain[n], table);
    EqualVersionsAcross(chain[n - 1], chain[n], table);
  }

  /** EQUAL VERSIONS.  Along any accepted chain the version of a table is the same at both
      ends if and only if the table looks the same at every link. */
  lemma {:induction false} EqualVersionsLookSame(chain: seq<Release>, table: string, n: nat)
    requires AcceptedChain(chain) && n < |chain| && Has(chain[0], table)
    ensures Has(chain[n], table)
    ensures The(chain[n], table).version == The(chain[0], table).version
            <==> forall i :: 0 < i <= n ==> LooksSameAt(chain, table, i)
  {
    if n > 0 {
      LooksSameStep(chain, table, n);
      EqualVersionsLookSame(chain, table, n - 1);
    }
  }

  lemma {:induction false} LookSameSchemas(chain: seq<Release>, table: string, n: nat)
    requires AcceptedChain(chain) && n < |chain| && Has(chain[0], table)
    requires forall i :: 0 < i <= n ==> LooksSameAt(chain, table, i)
    ensures Has(chain[n], table) && SameColumns(The(chain[n], table), The(chain[0], table))
    ensures (forall i :: 0 < i <= n ==> WatchedAt(chain, table, i)) ==>
              SameSchema(The(chain[n], table), The(chain[0], table))
  {
    VersionLaw(chain, table, n);
    if n == 0 {
      SameSchemaReflexive(The(chain[0], table));
    } else {
      LookSameSchemas(chain, table, n - 1);
      var a, b, c := The(chain[n], table), The(chain[n - 1], table), The(chain[0], table);
      assert LooksSameAt(chain, table, n);
      SameColumnsTransitive(a, b, c);
      if forall i :: 0 < i <= n ==> WatchedAt(chain, table, i) {
        assert WatchedAt(chain, table, n);
        WatchedIsSame(a, b);
        SameSchemaTransitive(a, b, c);
      }
    }
  }

  /** EQUAL SCHEMAS.  If the version of a table is the same at both ends of an accepted
      chain then so are its columns, and its indexes too if every link on the way loads
      the dictionary and softens nothing. */
  lemma EqualVersionsEqualSchemas(chain: seq<Release>, table: string, n: nat)
    requires AcceptedChain(chain) && n < |chain| && Has(chain[0], table)
    requires Has(chain[n], table) && The(chain[n], table).version == The(chain[0], table).version
    ensures SameColumns(The(chain[n], table), The(chain[0], table))
    ensures (forall i :: 0 < i <= n ==> WatchedAt(chain, table, i)) ==>
              SameSchema(The(chain[n], table), The(chain[0], table))
  {
    EqualVersionsLookSame(chain, table, n);
    LookSameSchemas(chain, table, n);
  }

  lemma OneFound(low: Release, high: Release)
    requires |low| == 1 && |high| == 1 && low[0].table == high[0].table
    ensures Fetch(low, high[0].table) == Some(0)
    ensures forall k :: 0 <= k < |low| ==> Wanted(low, high, |high|, k)
  {
    assert Fetch(low, high[0].table) == Some(0);
  }

  lemma OnePasses(low: Release, high: Release)
    requires |low| == 1 && |high| == 1 && Fetch(low, high[0].table) == Some(0)
    requires ValidGroup(low[0]) && ValidGroup(high[0]) && CheckOne(low[0], high[0], true).Ok?
    ensures forall i :: 0 <= i < |high| ==> ValidGroup(high[i]) && Passes(low, high, i, true)
  {
    forall i | 0 <= i < |high|
      ensures ValidGroup(high[i]) && Passes(low, high, i, true)
    {
      assert i == 0;
    }
  }

  /** Two releases of one version that differ in an index, which the gate accepts. */
  lemma EqualVersionsDiffer()
    ensures var low, high := Unindexed(1), Indexed(1);
            Sound(low) && Sound(high) && Link([low], [high]) && low.version == high.version && !SameSchema(high, low)
  {
    IndexForgotten(1, 1);
    OneFound([Unindexed(1)], [Indexed(1)]);
    OnePasses([Unindexed(1)], [Indexed(1)]);
  }

  // ------------------------------------------------- which releases the gate protects

  /** The gate lets the pair pass with its version as it is. */
  ghost predicate Unmoved(low: Group, high: Group) {
    Sound(low) && ValidGroup(high) && low.table == high.table && low.version == high.version
    && CheckOne(low, high, true).Ok?
  }

  /** The release loads its dictionary and, for a statistics table, has no unique index. */
  ghost predicate Guarded(high: Group) {
    HasLoad(high.sqls)
    && (high.table in SPECIAL_TABLES ==>
          forall j :: 0 <= j < |high.sqls| && high.sqls[j].CreateIndex? ==> !high.sqls[j].unique)
  }

  /** PROTECTION.  An unchanged version is proof of an unchanged schema, whatever release
      came before, if and only if the release loads its dictionary and is not a statistics
      table with a unique index. */
  lemma GateProtects(high: Group)
    requires Sound(high) && Upgrade(high, Some(high)).Ok?
    ensures (forall low :: Unmoved(low, high) ==> SameSchema(high, low)) <==> Guarded(high)
  {
    if Guarded(high) {
      forall low | Unmoved(low, high)
        ensures SameSchema(high, low)
      {
        EmptyDiffMeans(high, low);
        WatchedIsSame(high, low);
      }
    } else {
      var low := if HasLoad(high.sqls) then Relaxed(high, FirstUnique(high.sqls)) else WithIndex(high, NewName(high.sqls));
      if HasLoad(high.sqls) {
        RelaxedPasses(high, FirstUnique(high.sqls));
      } else {
        WithIndexPasses(high, NewName(high.sqls));
      }
      assert Unmoved(low, high) && !SameSchema(high, low);
    }
  }

  ghost function FirstUnique(sqls: seq<Item>): (k: nat)
    requires exists j :: 0 <= j < |sqls| && sqls[j].CreateIndex? && sqls[j].unique
    ensures k < |sqls| && sqls[k].CreateIndex? && sqls[k].unique
  {
    var j :| 0 <= j < |sqls| && sqls[j].CreateIndex? && sqls[j].unique; j
  }

  /** The release with index `k` not unique. */
  function Relaxed(g: Group, k: nat): Group
    requires k < |g.sqls| && g.sqls[k].CreateIndex?
  {
    g.(sqls := g.sqls[k := g.sqls[k].(unique := false)])
  }

  /** The release with one index more. */
  function WithIndex(g: Group, name: string): Group {
    g.(sqls := g.sqls + [CreateIndex(false, name, g.table, [])])
  }

  function Longest(sqls: seq<Item>): (n: nat)
    ensures forall j :: 0 <= j < |sqls| && sqls[j].CreateIndex? ==> |sqls[j].index| <= n
  {
    if sqls == [] then 0
    else
      var n := Longest(sqls[..|sqls| - 1]);
      var last := sqls[|sqls| - 1];
      if last.CreateIndex? && |last.index| > n then |last.index| else n
  }

  /** A name that no index of the release has. */
  function NewName(sqls: seq<Item>): (name: string)
    ensures name !in IndexNames(sqls)
  {
    seq(Longest(sqls) + 1, _ => 'I')
  }

  /** Same columns, no index lost and no statement unmatched: the pair can be compared. */
  lemma ComparedLike(high: Group, low: Group)
    requires Sound(high) && Upgrade(high, Some(high)).Ok? && ValidGroup(low) && low.table == high.table
    requires low.sqls[0] == high.sqls[0] && AllMatched(high.sqls, low.sqls)
    ensures Upgrade(high, Some(low)).Ok? && SameColumns(high, low)
  {
    SameSchemaReflexive(high);
  }

  lemma {:induction false} FirstMatchAppend(sqls: seq<Item>, last: Item, wanted: Item)
    requires FirstMatch(sqls, wanted).Some?
    ensures FirstMatch(sqls + [last], wanted) == FirstMatch(sqls, wanted)
  {
    var k := FirstMatch(sqls, wanted).value;
    assert (sqls + [last])[k] == sqls[k];
    assert forall j :: 0 <= j < k ==> (sqls + [last])[j] == sqls[j];
  }

  lemma WithIndexMatched(high: Group, name: string)
    requires AllMatched(high.sqls, high.sqls)
    ensures AllMatched(high.sqls, WithIndex(high, name).sqls)
  {
    var mine, theirs := high.sqls, WithIndex(high, name).sqls;
    forall p: nat | p < |theirs| && !theirs[p].CreateIndex?
      ensures Claimed(mine, theirs, p)
    {
      assert theirs[p] == mine[p] && Claimed(mine, mine, p);
      var j :| 0 <= j < |mine| && FirstMatch(mine, mine[j]) == Some(p);
      FirstMatchAppend(mine, theirs[|mine|], mine[j]);
    }
  }

  lemma SelfMatched(high: Group)
    requires Sound(high) && Upgrade(high, Some(high)).Ok?
    ensures AllMatched(high.sqls, high.sqls)
  {
  }

  lemma WithIndexPasses(high: Group, name: string)
    requires Sound(high) && Upgrade(high, Some(high)).Ok? && !HasLoad(high.sqls) && name !in IndexNames(high.sqls)
    ensures Unmoved(WithIndex(high, name), high) && !SameSchema(high, WithIndex(high, name))
  {
    var low := WithIndex(high, name);
    SelfMatched(high);
    WithIndexMatched(high, name);
    assert name in IndexNames(low.sqls) by { assert low.sqls[|high.sqls|].CreateIndex?; }
    WithIndexSound(high, name);
    ComparedLike(high, low);
    EmptyDiffMeans(high, low);
  }

  lemma WithIndexSound(high: Group, name: string)
    requires Sound(high) && name !in IndexNames(high.sqls)
    ensures Sound(WithIndex(high, name))
  {
    var sqls := WithIndex(high, name).sqls;
    assert forall i :: 0 <= i < |high.sqls| ==> sqls[i] == high.sqls[i];
    assert forall i :: 0 <= i < |high.sqls| && high.sqls[i].CreateIndex? ==> high.sqls[i].index in IndexNames(high.sqls);
  }

  lemma RelaxedMatch(high: Group, k: nat, wanted: Item)
    requires k < |high.sqls| && high.sqls[k].CreateIndex?
    ensures FirstMatch(Relaxed(high, k).sqls, wanted) == FirstMatch(high.sqls, wanted)
  {
    var sqls := Relaxed(high, k).sqls;
    forall j | 0 <= j < |sqls|
      ensures Matches(sqls[j], wanted) <==> Matches(high.sqls[j], wanted)
    {
      assert j != k ==> sqls[j] == high.sqls[j];
    }
    FirstMatchSame(sqls, high.sqls, wanted);
  }

  lemma RelaxedMatched(high: Group, k: nat)
    requires k < |high.sqls| && high.sqls[k].CreateIndex? && AllMatched(high.sqls, high.sqls)
    ensures AllMatched(high.sqls, Relaxed(high, k).sqls)
  {
    var mine, theirs := high.sqls, Relaxed(high, k).sqls;
    forall p: nat | p < |theirs| && !theirs[p].CreateIndex?
      ensures Claimed(mine, theirs, p)
    {
      assert Claimed(mine, mine, p);
      var j :| 0 <= j < |mine| && FirstMatch(mine, mine[j]) == Some(p);
      RelaxedMatch(high, k, mine[j]);
    }
  }

  /** Softening the release against the one with index `k` relaxed gives the latter. */
  lemma RelaxedIsSoft(high: Group, k: nat)
    requires Sound(high) && k < |high.sqls| && high.sqls[k].CreateIndex? && high.sqls[k].unique
    ensures SoftFrom(high.sqls, Relaxed(high, k).sqls, true, 0) == Relaxed(high, k).sqls
  {
    var mine, theirs := high.sqls, Relaxed(high, k).sqls;
    forall j | 0 <= j < |mine|
      ensures Soft(mine[j], theirs, true) == theirs[j]
    {
      if mine[j].CreateIndex? {
        FoundByName(theirs, mine[j], j);
      }
    }
  }

  lemma RelaxedSound(high: Group, k: nat)
    requires Sound(high) && k < |high.sqls| && high.sqls[k].CreateIndex?
    ensures Sound(Relaxed(high, k))
  {
  }

  lemma RelaxedDiffers(high: Group, k: nat)
    requires k < |high.sqls| && high.sqls[k].CreateIndex? && high.sqls[k].unique
    ensures !SameIndexes(high.sqls, Relaxed(high, k).sqls)
  {
    var theirs := Relaxed(high, k).sqls;
    assert theirs[k].CreateIndex? && !theirs[k].unique;
    if SameIndexes(high.sqls, theirs) {
      SameIsUnsoftened(high.sqls, theirs);
    }
  }

  lemma RelaxedPasses(high: Group, k: nat)
    requires Sound(high) && Upgrade(high, Some(high)).Ok? && high.table in SPECIAL_TABLES
    requires k < |high.sqls| && high.sqls[k].CreateIndex? && high.sqls[k].unique
    ensures Unmoved(Relaxed(high, k), high) && !SameSchema(high, Relaxed(high, k))
  {
    var low := Relaxed(high, k);
    RelaxedSound(high, k);
    SelfMatched(high);
    RelaxedMatched(high, k);
    ComparedLike(high, low);
    RelaxedIsSoft(high, k);
    SameSchemaReflexive(low);
    EmptyDiffMeans(high, low);
    RelaxedDiffers(high, k);
  }
}
