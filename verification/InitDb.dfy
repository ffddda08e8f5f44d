/** Reading a database script into table groups (class InitDbSqls of sql_process.py).
    Groups are reached by position; `latest` is the dictionary from table names, plain
    or with SYS. in front, to the group last created under that name. */
module InitDb {
  import opened Wrappers
  import opened SqlText
  import opened Schema
  import opened Migration
  import opened TableGroups

  /** A statement about a table with the version from its comment line, or any other
      versioned statement, of which only the version matters here. */
  datatype Statement = OfTable(version: nat, item: Item) | Single(version: nat)

  datatype Db = Db(groups: seq<Group>, latest: map<string, nat>, lastVersion: Option<nat>)

  const EMPTY := Db([], map[], None)

  function CheckVersion(last: Option<nat>, version: nat): Result<Option<nat>> {
    if last.None? then Ok(Some(version))
    else if (version == 0) != (last.value == 0) then Err(MixedVersions)
    else Ok(last)
  }

  function Append(db: Db, s: Statement): Result<Db> {
    if s.Single? then
      match CheckVersion(db.lastVersion, s.version)
      case Err(e) => Err(e)
      case Ok(last) => Ok(db.(lastVersion := last))
    else if s.item.CreateTable? then
      match CheckVersion(db.lastVersion, s.version)
      case Err(e) => Err(e)
      case Ok(last) =>
        var n, name := |db.groups|, s.item.table;
        Ok(Db(db.groups + [Group(name, s.version, [s.item])], Register(db.latest, name, n), last))
    else if s.item.table !in db.latest || db.latest[s.item.table] >= |db.groups| then Err(BeforeCreateTable)
    else
      var k := db.latest[s.item.table];
      var g := db.groups[k];
      if Refers(s.item.table, g.table) then Ok(db.(groups := db.groups[k := g.(sqls := g.sqls + [s.item])]))
      else Err(WrongTable)
  }

  /** The database after the first `n` statements. */
  function LoadTo(script: seq<Statement>, n: nat): Result<Db>
    requires n <= |script|
  {
    if n == 0 then Ok(EMPTY)
    else match LoadTo(script, n - 1)
      case Err(e) => Err(e)
      case Ok(db) => Append(db, script[n - 1])
  }

  function Load(script: seq<Statement>): Result<Db> {
    LoadTo(script, |script|)
  }

  class InitDbSqls {
    var groups: seq<TableGroup>
    var latest: map<string, nat>
    var lastVersion: Option<nat>

    ghost predicate Valid()
      reads this, groups
    {
      (forall i, j :: 0 <= i < j < |groups| ==> groups[i] != groups[j])
      && (forall i :: 0 <= i < |groups| ==> groups[i].Valid() && groups[i].Fresh())
      && forall name :: name in latest ==> latest[name] < |groups|
    }

    ghost function View(): Db
      reads this, groups
    {
      Db(seq(|groups|, i requires 0 <= i < |groups| reads this, groups => groups[i].View()), latest, lastVersion)
    }

    constructor ()
      ensures Valid() && View() == EMPTY && groups == []
    {
      groups, latest, lastVersion := [], map[], None;
    }

    method AppendStatement(s: Statement) returns (r: Result<()>)
      requires Valid()
      modifies this, groups
      ensures r.Ok? ==> Valid() && Append(old(View()), s) == Ok(View())
      ensures r.Err? ==> Append(old(View()), s) == Err(r.error)
      ensures forall g :: g in groups ==> g in old(groups) || fresh(g)
    {
      if s.OfTable? && !s.item.CreateTable? {
        r := AppendToGroup(s.item);
        return;
      }
      var last := CheckVersion(lastVersion, s.version);
      if last.Err? {
        return Err(last.error);
      }
      if s.OfTable? {
        AddGroup(s.item, s.version);
      }
      ghost var now := View().groups;
      lastVersion := last.value;
      assert View().groups == now;
      return Ok(());
    }

    method AppendToGroup(item: Item) returns (r: Result<()>)
      requires Valid() && !item.CreateTable?
      modifies groups
      ensures r.Ok? ==> Valid()
      ensures var was, name := old(View()), item.table;
              if name !in latest then r == Err(BeforeCreateTable)
              else if !Refers(name, was.groups[latest[name]].table) then r == Err(WrongTable)
              else r == Ok(())
                   && View().groups == was.groups[latest[name] := was.groups[latest[name]].(
                                                  sqls := was.groups[latest[name]].sqls + [item])]
    {
      if item.table !in latest {
        return Err(BeforeCreateTable);
      }
      var k := latest[item.table];
      var ok := groups[k].Append(item);
      if !ok {
        return Err(WrongTable);
      }
      return Ok(());
    }

    method AddGroup(create: Item, version: nat)
      requires Valid() && create.CreateTable?
      modifies this`groups, this`latest
      ensures Valid() && forall g :: g in groups ==> g in old(groups) || fresh(g)
      ensures View().groups == old(View()).groups + [Group(create.table, version, [create])]
      ensures latest == Register(old(latest), create.table, |old(groups)|)
    {
      var g := new TableGroup(create, version);
      var n := |groups|;
      groups := groups + [g];
      latest := Register(latest, create.table, n);
    }
  }

  // ----------------------------------------------------- what a loaded script looks like

  predicate Creates(s: Statement) {
    s.OfTable? && s.item.CreateTable?
  }

  /** How many groups the first `n` statements create. */
  function Created(script: seq<Statement>, n: nat): nat
    requires n <= |script|
  {
    if n == 0 then 0 else Created(script, n - 1) + (if Creates(script[n - 1]) then 1 else 0)
  }

  /** Statement `i` creates the group that `name` refers to before statement `n`: no
      later one before `n` does. */
  ghost predicate LastCreated(script: seq<Statement>, name: string, i: nat, n: nat)
    requires n <= |script|
  {
    i < n && Creates(script[i]) && Refers(name, script[i].item.table)
    && forall j :: i < j < n && Creates(script[j]) ==> !Refers(name, script[j].item.table)
  }

  lemma LastCreatedUnique(script: seq<Statement>, name: string, i: nat, j: nat, n: nat)
    requires n <= |script| && LastCreated(script, name, i, n) && LastCreated(script, name, j, n)
    ensures i == j
  {
  }

  /** Statement `i` belongs to group `k`: it creates it, or `k` is the group created
      last, before `i`, under the name that it mentions. */
  ghost predicate Belongs(script: seq<Statement>, i: nat, k: nat)
    requires i < |script|
  {
    script[i].OfTable?
    && if Creates(script[i]) then k == Created(script, i)
       else Leads(script, i, script[i].item.table, k)
  }

  /** The statements of group `k` among the first `n`, in script order. */
  ghost function Select(script: seq<Statement>, k: nat, n: nat): seq<Item>
    requires n <= |script|
  {
    if n == 0 then []
    else Select(script, k, n - 1) + (if Belongs(script, n - 1, k) then [script[n - 1].item] else [])
  }

  lemma {:induction false} CreatedGrows(script: seq<Statement>, m: nat, n: nat)
    requires m <= n <= |script|
    ensures Created(script, m) <= Created(script, n)
    ensures m < n && Creates(script[m]) ==> Created(script, m) < Created(script, n)
  {
    if m < n {
      CreatedGrows(script, m, n - 1);
    }
  }

  /** No statement belongs to a group that is not created yet. */
  lemma {:induction false} SelectBeyond(script: seq<Statement>, k: nat, n: nat)
    requires n <= |script| && Created(script, n) <= k
    ensures Select(script, k, n) == []
  {
    if n > 0 {
      CreatedGrows(script, n - 1, n);
      SelectBeyond(script, k, n - 1);
      if Belongs(script, n - 1, k) && !Creates(script[n - 1]) {
        var j: nat :| LastCreated(script, script[n - 1].item.table, j, n - 1) && k == Created(script, j);
        CreatedGrows(script, j, n);
      }
    }
  }

  ghost predicate NamesLead(script: seq<Statement>, n: nat, latest: map<string, nat>)
    requires n <= |script|
  {
    (forall name :: name in latest ==> Leads(script, n, name, latest[name]))
    && forall i, name :: 0 <= i < n && Creates(script[i]) && Refers(name, script[i].item.table) ==> name in latest
  }

  ghost predicate GroupsHold(script: seq<Statement>, n: nat, groups: seq<Group>)
    requires n <= |script|
  {
    |groups| == Created(script, n)
    && (forall k :: 0 <= k < |groups| ==> groups[k].sqls == Select(script, k, n) && ValidGroup(groups[k]))
    && forall i :: 0 <= i < n && Creates(script[i]) ==>
         Created(script, i) < |groups|
         && groups[Created(script, i)].table == script[i].item.table
         && groups[Created(script, i)].version == script[i].version
  }

  lemma AppendSingle(script: seq<Statement>, n: nat, db: Db)
    requires n < |script| && script[n].Single?
    requires NamesLead(script, n, db.latest) && GroupsHold(script, n, db.groups)
    ensures NamesLead(script, n + 1, db.latest) && GroupsHold(script, n + 1, db.groups)
  {
    SameNames(script, n, db.latest);
    assert forall k: nat :: Select(script, k, n + 1) == Select(script, k, n);
  }

  lemma SameNames(script: seq<Statement>, n: nat, latest: map<string, nat>)
    requires n < |script| && !Creates(script[n]) && NamesLead(script, n, latest)
    ensures NamesLead(script, n + 1, latest)
  {
    forall name | name in latest
      ensures Leads(script, n + 1, name, latest[name])
    {
      LeadsOn(script, n, name, latest[name]);
    }
  }

  /** Registering `k` under the plain and the prefixed name. */
  function Register(latest: map<string, nat>, name: string, k: nat): (after: map<string, nat>)
    ensures forall x :: x in after <==> x in latest || Refers(x, name)
    ensures forall x :: x in after ==> after[x] == if Refers(x, name) then k else latest[x]
  {
    latest[name := k]["SYS." + name := k]
  }

  /** The group that `name` leads to, if it leads anywhere, is the one created last. */
  ghost predicate Leads(script: seq<Statement>, n: nat, name: string, k: nat)
    requires n <= |script|
  {
    exists i: nat :: LastCreated(script, name, i, n) && k == Created(script, i)
  }

  lemma LeadsOn(script: seq<Statement>, n: nat, name: string, k: nat)
    requires n < |script| && Leads(script, n, name, k)
    requires Creates(script[n]) ==> !Refers(name, script[n].item.table)
    ensures Leads(script, n + 1, name, k)
  {
    var i: nat :| LastCreated(script, name, i, n) && k == Created(script, i);
    assert LastCreated(script, name, i, n + 1);
  }

  lemma LeadsHere(script: seq<Statement>, n: nat, name: string)
    requires n < |script| && Creates(script[n]) && Refers(name, script[n].item.table)
    ensures Leads(script, n + 1, name, Created(script, n))
  {
    assert LastCreated(script, name, n, n + 1);
  }

  lemma NewNames(script: seq<Statement>, n: nat, latest: map<string, nat>)
    requires n < |script| && Creates(script[n]) && NamesLead(script, n, latest)
    ensures NamesLead(script, n + 1, Register(latest, script[n].item.table, Created(script, n)))
  {
    var name := script[n].item.table;
    var after := Register(latest, name, Created(script, n));
    forall x | x in after
      ensures Leads(script, n + 1, x, after[x])
    {
      if Refers(x, name) {
        LeadsHere(script, n, x);
      } else {
        LeadsOn(script, n, x, latest[x]);
      }
    }
  }

  lemma NewGroup(script: seq<Statement>, n: nat, groups: seq<Group>)
    requires n < |script| && Creates(script[n]) && GroupsHold(script, n, groups)
    ensures GroupsHold(script, n + 1, groups + [Group(script[n].item.table, script[n].version, [script[n].item])])
  {
    var after := groups + [Group(script[n].item.table, script[n].version, [script[n].item])];
    SelectBeyond(script, Created(script, n), n);
    forall k | 0 <= k < |after|
      ensures after[k].sqls == Select(script, k, n + 1) && ValidGroup(after[k])
    {
      assert Belongs(script, n, k) <==> k == |groups|;
    }
  }

  lemma GrownGroup(script: seq<Statement>, n: nat, groups: seq<Group>, k: nat)
    requires n < |script| && script[n].OfTable? && !Creates(script[n]) && GroupsHold(script, n, groups)
    requires k < |groups| && Belongs(script, n, k) && Refers(script[n].item.table, groups[k].table)
    ensures GroupsHold(script, n + 1, groups[k := groups[k].(sqls := groups[k].sqls + [script[n].item])])
  {
    var after := groups[k := groups[k].(sqls := groups[k].sqls + [script[n].item])];
    forall h | 0 <= h < |after|
      ensures after[h].sqls == Select(script, h, n + 1) && ValidGroup(after[h])
    {
      if h != k && Belongs(script, n, h) {
        BelongsUnique(script, n, h, k);
      }
    }
  }

  lemma BelongsUnique(script: seq<Statement>, i: nat, h: nat, k: nat)
    requires i < |script| && Belongs(script, i, h) && Belongs(script, i, k)
    ensures h == k
  {
    if !Creates(script[i]) {
      var name := script[i].item.table;
      var a: nat :| LastCreated(script, name, a, i) && h == Created(script, a);
      var b: nat :| LastCreated(script, name, b, i) && k == Created(script, b);
      LastCreatedUnique(script, name, a, b, i);
    }
  }

  ghost predicate Holds(script: seq<Statement>, n: nat, db: Db)
    requires n <= |script|
  {
    GroupsHold(script, n, db.groups) && NamesLead(script, n, db.latest)
  }

  lemma AppendOther(script: seq<Statement>, n: nat, db: Db)
    requires n < |script| && script[n].OfTable? && !Creates(script[n]) && Holds(script, n, db)
    ensures Append(db, script[n]) != Err(WrongTable)
    ensures Append(db, script[n]).Ok? ==> Holds(script, n + 1, Append(db, script[n]).value)
  {
    var name := script[n].item.table;
    if name in db.latest {
      var k := db.latest[name];
      var i: nat :| LastCreated(script, name, i, n) && k == Created(script, i);
      CreatedGrows(script, i, n);
      assert Belongs(script, n, k);
      GrownGroup(script, n, db.groups, k);
      SameNames(script, n, db.latest);
    }
  }

  lemma AppendCreate(script: seq<Statement>, n: nat, db: Db)
    requires n < |script| && Creates(script[n]) && Holds(script, n, db) && Append(db, script[n]).Ok?
    ensures Holds(script, n + 1, Append(db, script[n]).value)
  {
    NewNames(script, n, db.latest);
    NewGroup(script, n, db.groups);
  }

  /** One statement, whatever its kind, keeps what the groups and the names say. */
  lemma AppendAny(script: seq<Statement>, n: nat, next: nat, db: Db, after: Result<Db>)
    requires n < |script| && next == n + 1 && Holds(script, n, db) && after == Append(db, script[n])
    ensures after != Err(WrongTable)
    ensures after.Ok? ==> Holds(script, next, after.value)
  {
    if script[n].Single? {
      AppendSingle(script, n, db);
    } else if !Creates(script[n]) {
      AppendOther(script, n, db);
    } else if Append(db, script[n]).Ok? {
      AppendCreate(script, n, db);
    }
  }

  /** After any accepted prefix the groups hold exactly the statements that belong to
      them, in script order, and every name leads to the group created last under it;
      and the group that the dictionary leads to never refuses the statement. */
  lemma {:induction false} LoadedGroups(script: seq<Statement>, n: nat)
    requires n <= |script|
    ensures LoadTo(script, n) != Err(WrongTable)
    ensures LoadTo(script, n).Ok? ==> Holds(script, n, LoadTo(script, n).value)
  {
    if n == 0 {
      EmptyHolds(script);
    } else {
      LoadedGroups(script, n - 1);
      if LoadTo(script, n - 1).Ok? {
        AppendAny(script, n - 1, n, LoadTo(script, n - 1).value, LoadTo(script, n));
      }
    }
  }

  lemma EmptyHolds(script: seq<Statement>)
    ensures Holds(script, 0, EMPTY)
  {
  }

  /** GROUPING.  In a loaded script every statement about a table belongs to exactly one
      group, and the groups hold the statements that belong to them in script order. */
  lemma EveryStatementGrouped(script: seq<Statement>, i: nat) returns (k: nat)
    requires Load(script).Ok? && i < |script| && script[i].OfTable?
    ensures var groups := Load(script).value.groups;
            k < |groups| && Belongs(script, i, k) && (forall h: nat :: Belongs(script, i, h) ==> h == k)
            && groups[k].sqls == Select(script, k, |script|) && script[i].item in groups[k].sqls
  {
    LoadedGroups(script, |script|);
    LoadedBefore(script, i, |script|);
    LoadedGroups(script, i);
    if Creates(script[i]) {
      k := Created(script, i);
      CreatedGrows(script, i, |script|);
    } else {
      LoadedBefore(script, i + 1, |script|);
      var db, name := LoadTo(script, i).value, script[i].item.table;
      var j: nat :| LastCreated(script, name, j, i) && db.latest[name] == Created(script, j);
      k := Created(script, j);
      CreatedGrows(script, j, |script|);
    }
    forall h: nat | Belongs(script, i, h)
      ensures h == k
    {
      BelongsUnique(script, i, h, k);
    }
    SelectKeeps(script, k, i, |script|);
  }

  lemma {:induction false} LoadedBefore(script: seq<Statement>, m: nat, n: nat)
    requires m <= n <= |script| && LoadTo(script, n).Ok?
    ensures LoadTo(script, m).Ok?
  {
    if m < n {
      LoadedBefore(script, m, n - 1);
    }
  }

  lemma {:induction false} SelectKeeps(script: seq<Statement>, k: nat, i: nat, n: nat)
    requires i < n <= |script| && Belongs(script, i, k)
    ensures script[i].item in Select(script, k, n)
  {
    if i < n - 1 {
      SelectKeeps(script, k, i, n - 1);
    }
  }

  /** A loaded script is either unversioned throughout or versioned throughout. */
  lemma {:induction false} VersionsUniform(script: seq<Statement>, n: nat)
    requires n <= |script| && LoadTo(script, n).Ok?
    ensures var db := LoadTo(script, n).value;
            (db.lastVersion.None? ==> db.groups == [])
            && forall k :: 0 <= k < |db.groups| ==> (db.groups[k].version == 0 <==> db.lastVersion.value == 0)
  {
    if n > 0 {
      VersionsUniform(script, n - 1);
    }
  }
}
