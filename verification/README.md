# Cantian: verified models

Dafny models of the parts of the Cantian storage engine and its deployment tooling whose
results depend on several pieces of state at once, with proofs of what they guarantee.
`dafny verify dfyconfig.toml` checks the whole project.

**The distributed latch** (`DistributedLatch.dfy`). Instances of a cluster share one
latch. A master keeps, per latch, the granted mode, the map of owners, the request being
served and a queue; every instance keeps its own mode, status and reader count. The
model is a state machine: one step for every critical section of the source, for any
number of instances and any interleaving. One invariant carries the main theorems:
mutual exclusion over every run, the granted map exact in every state, the internal
checks of the source never firing, requests answered in exactly the order in which they
joined the line, and no deadlock (from every reachable state every waiting request can be
granted and every instance can be brought to write). The source has one branch that
breaks the invariant: a *forced* share latch joins an announced writer without looking at
the mode, which may have been given up. `CoveredExactly` says that a step keeps every use
covered if and only if it is not that one, `ForcedShareBreaks` gives a run that ends with
a reader beside a writer, and `UnforcedIsCareful` says that callers that leave `is_force`
off, as every call in the source does, are safe.

**The schema migration compiler** (`SqlText`, `CreateTableSql`, `Schema`, `Migration`,
`MigrationMeaning`, `Defaults`, `MigrationRoundTrip`, `MigrationExamples`, `TableGroup`,
`InitDb`, `ReleaseGate`, `VersionFiles`, `IncreaseView`). `sql_process.py` compares two
releases of the system tables and writes the SQL that turns one into the other. `Schema`
gives the written SQL a meaning: an interpreter over a table's columns, indexes and rows
in which dropping a missing index, creating an existing one or writing a value with an
open quote or parenthesis is an error. As in the engine (`db_altable_add_column` of
knl_table.c, `sql_set_table_value` of ctsql_update.c) an added column holds its declared
default in every row already there, and a row is never null in a column that is NOT NULL
or PRIMARY KEY: the statement that would make it so is refused.
`TableGroup` is the source's class, with its `fetched` flags, its kind lists and its
in-place scans, proved equal to the functions of `Migration`; the other modules say what
those functions mean.

**Repair, installation and housekeeping** (`PageFinder`, `Expect`, `ParameterContainer`,
`SgaBuffer`, `Lsid`, `LogEviction`). A cursor machine that finds the page a broken chain
should be joined to, an expect engine over a byte stream, an ordered multi-map, a
running memory total, a bit-packed identifier and oldest-first eviction of logs.

## What turned out false

Where the source does not do what one would expect of it, the model keeps the source's
behaviour, one lemma shows an input on which it fails, and another gives the exact
condition.

- A release without `ALTER SYSTEM LOAD DICTIONARY` never rebuilds its indexes:
  `IndexForgotten`; exactly when an upgrade reaches the release: `UpgradeReachesRelease`.
- In a statistics table an index that has become unique is taken for the old one:
  `UniquenessForgotten`; the scan in all cases: `ScanSoftens`.
- The ALTER TABLE gives the rows already there the declared default, and the UPDATE behind
  it overwrites that with the upper-cased first word after DEFAULT: `VersionSpoiled`, a
  line of the repository's own initdb.sql; exactly when the two agree: `DefaultIsDeclared`
  for a line, `BackfillsDeclared` for the rows of a run.
- A default with a blank in it is cut at the blank, and the database refuses the script:
  `LiteralCut`. A column NOT NULL DEFAULT NULL, or a primary key without a default, passes
  the compiler and is refused for a table with rows: `NullDefaultRefused`, `KeyRefused`.
  Exactly when a script runs: `UpgradePreservesMeaning`, and which lines stop it:
  `AddableWhen`.
- A degrade takes a NOT NULL column called DEFAULTED for one that has a default:
  `DefaultedPasses`, a column of initdb.sql; exactly when the columns left behind have
  one: `LeftoversHaveDefaults`.
- Without a dictionary load the way back of an upgrade may be blocked, and an index of a
  statistics table that stops being unique does not come back: `UniquenessLost`; exactly
  when the round trip runs and when it restores the indexes: `UpgradeThenDegrade`.
- A table whose version has not moved may have other indexes than before:
  `EqualVersionsDiffer`; exactly when the version stays: `EqualVersionsAcross`,
  `EqualVersionsLookSame`; exactly for which releases an unmoved version is proof of an
  unchanged schema: `GateProtects`.
- The search for an old include file starts behind the first parameter: `SameIfileAgain`;
  exactly when setting a parameter works: `SettingWorks`.
- A read that fails drops the bytes its call had read: `FailureLosesByte`; exactly which
  inputs are conserved whatever calls are made: `InputConserves`.
- The file of the first step is run again by every upgrade that finds it:
  `FirstStepTwice`; exactly when chains compose: `ChainsCompose`.
- The degrade need not mirror the upgrade, because each direction generates its own file
  of the first step and only if it has something to run: `LoneFirstFile`,
  `GrowthIsOneWay`; exactly when it mirrors, is accepted, and undoes: `DegradeMirrors`,
  `DegradeAccepted`, `ScriptsInverse`.
- The check of the first degrade step looks for the degrade file twice and never for the
  upgrade file: `UpgradeFileNotChecked`; exactly when both directions exist:
  `DegradeAccepted`.
- A field of an identifier that is too wide moves into its neighbour: `ClusterOverflows`;
  exactly when an identifier decodes: `LsidDecodes`.

## Model

| member | source | states |
|---|---|---|
| DistributedLatch.MutualExclusion | pkg/src/cluster/dtc_dls.c:1466-1584 | On every run of any number of instances (without the forced join below), a writer shuts out every other writer and every reader of the cluster, every use is covered by its instance's mode, and the granted map is exactly the instances that have a mode |
| DistributedLatch.CallsExclude | pkg/src/cluster/dtc_dls.c:1466-1749 | The same told by the calls alone: counting on every run the latches given to threads less those given back, an instance has at most one writer, never fewer than no readers, and while one thread has the latch exclusively no other thread of the cluster has it |
| DistributedLatch.RunCounts | pkg/src/cluster/dtc_dls.c:1720-1749 | The reader count and the held status of an instance equal what its calls add up to, so no unlatch loses or invents a reader |
| DistributedLatch.RunInLine | pkg/src/cluster/dtc_drc.c:2288-2322 | Over every run the requests answered, in order, followed by the line at the end are the line at the start followed by the requests that joined, in order; so requests are answered in exactly the order in which they came, none is lost or answered twice, and the line is what is left after as many as were claimed or given up |
| DistributedLatch.AnsweredInOrder | pkg/src/cluster/dtc_drc.c:2288-2472 | From the start, the requests answered so far are the first of those that joined and the line is the rest |
| DistributedLatch.JoinsAndLeaves | pkg/src/cluster/dtc_drc.c:2324-2472 | A request joins the line exactly when its sender comes to wait and leaves it exactly when its waiting sender gets its answer, a grant exactly if it was claimed |
| DistributedLatch.StepKeeps | pkg/src/cluster/dtc_dls.c:260-364 | Each step of an instance or of the master keeps the invariant that ties the granted map, the master's mode, the request being served, the queue and all local states together |
| DistributedLatch.CoveredExactly | pkg/src/cluster/dtc_dls.c:1560-1565 | A step leaves every use of the latch covered by a mode if and only if it is not a forced share latch on an announced writer whose mode is gone |
| DistributedLatch.ForcedShareBreaks | pkg/src/cluster/dtc_dls.c:1560-1565 | A run that ends with a reader on one instance beside a writer on another, through the forced join |
| DistributedLatch.UnforcedIsCareful | pkg/src/cluster/dtc_dls.c:1525-1584 | A run in which no share latch is forced never takes that step |
| DistributedLatch.NoDeadlock | pkg/src/cluster/dtc_drc.c:2409-2425 | From every reachable state, any waiting request is granted by some further run: refusing owners while another request is served leaves no cycle of waits |
| DistributedLatch.EveryoneCanWrite | pkg/src/cluster/dtc_drc.c:2409-2425 | From every reachable state, with requests waiting, refused or on their way, every instance can be brought to hold the latch exclusively |
| DistributedLatch.ServedCanBeGranted | pkg/src/cluster/dtc_dls.c:514-590 | The request being served can be brought to its claim whatever its owners are doing, and then the head of the queue is the next one served |
| DistributedLatch.OwnerCanRelease | pkg/src/cluster/dtc_dls.c:320-345 | Every owner that is asked can come to release its mode by steps of its own |
| DistributedLatch.ChecksNeverFire | pkg/src/cluster/dtc_drc.c:2647-2700 | On every run an idle master has an empty queue, an owner asked to release has a mode, and a shared mode is claimed only for an instance that does not own one |
| DistributedLatch.ClaimedKeeps | pkg/src/cluster/dtc_drc.c:2564-2700 | Claiming keeps the invariant: an exclusive claim finds no other instance with a mode, a shared one no instance with an exclusive mode |
| DistributedLatch.ReceivedKeeps | pkg/src/cluster/dtc_drc.c:2324-2472 | A request that is served at once, refused because its sender is an owner, or queued keeps the invariant |
| DistributedLatch.ReleasedKeeps | pkg/src/cluster/dtc_dls.c:320-345 | An owner that releases has a mode to release, and giving it up or sharing it keeps the invariant |
| DistributedLatch.StruckKeeps | pkg/src/cluster/dtc_drc.c:2258-2286 | Striking an owner off the granted map keeps the invariant, the master's mode falling to none with the last owner |
| SqlText.IsSameSqlList | pkg/install/sql_process.py:133-145 | Two word lists are the same exactly when they have the same length and agree word by word up to letter case and outer blanks |
| SqlText.SameWordsTransitive | pkg/install/sql_process.py:133-145 | The comparison is transitive, so sameness carries over chains of releases |
| CreateTableSql.FindRightParenthesis | pkg/install/sql_process.py:186-216 | Returns a position that closes the parenthesis with a balanced body between, or -1 exactly when there is none |
| CreateTableSql.ClosesUnique | pkg/install/sql_process.py:186-216 | At most one position closes a parenthesis |
| CreateTableSql.Cut | pkg/install/sql_process.py:169-177 | The cut into head, body and tail rebuilds the statement, and fails exactly when there is no left parenthesis |
| CreateTableSql.Parse | pkg/install/sql_process.py:153-184 | An accepted statement is cut and its items are the non-empty lines of its body; it is refused for a missing parenthesis or for having no items |
| CreateTableSql.IncrementItems | pkg/install/sql_process.py:300-344 | Equals the increment: refused unless the older items are a prefix up to case, blanks and trailing commas, else the remaining lines |
| CreateTableSql.IncrementsCompose | pkg/install/sql_process.py:300-344 | Increments accepted between a, b and b, c are accepted between a and c, and the latter is the first followed by the second |
| MigrationMeaning.UpgradePreservesMeaning | pkg/install/sql_process.py:1460-1556 | On any table of the old release an accepted upgrade script runs if and only if each default it writes is a whole value and, if the table has rows, no added column that refuses null has a null default, declared or written; it then gives the new columns with the old ones in front, and the indexes of the scanned release exactly when nothing had to be rebuilt or the release loads the dictionary |
| MigrationMeaning.UpgradeReachesRelease | pkg/install/sql_process.py:1460-1556 | Where no index of a statistics table is softened, a script that runs realises the new release if and only if the indexes did not change or the release loads the dictionary |
| MigrationMeaning.IndexForgotten | pkg/install/sql_process.py:1508-1533 | A new index in a release without a dictionary load gives an empty script |
| MigrationMeaning.ScanDecides | pkg/install/sql_process.py:1268-1304 | The scan asks for a rebuild exactly when the items as it leaves them do not have the indexes of the other release |
| MigrationMeaning.ScanSoftens | pkg/install/sql_process.py:1268-1304 | Told by the two releases alone: a rebuild is asked for exactly when the indexes differ once those of a statistics table that may be are read as not unique, and otherwise exactly those have been softened |
| MigrationMeaning.UpgradeParts | pkg/install/sql_process.py:1508-1550 | The script is the column part, backfilled unless the rebuild is lost, followed by all drops and then all creations |
| MigrationMeaning.RebuildRuns | pkg/install/sql_process.py:1306-1317 | Dropping all old indexes and creating all new ones succeeds and leaves exactly the new ones, columns and rows untouched |
| MigrationMeaning.AddsRun | pkg/src/kernel/table/knl_table.c:8541-8588 | The ALTER TABLE statements run if and only if there are no rows or every column that refuses null has a default that is not null, and then append the increment's columns with the declared default in every row |
| MigrationMeaning.BackfillsRun | pkg/install/sql_process.py:806-826 | The UPDATE statements run if and only if each word they write is a whole value that its column may hold, and then set the column of each line taken for NOT NULL to the upper-cased first word after DEFAULT in every row |
| Defaults.DefaultFound | pkg/install/sql_process.py:809-817 | A default is found exactly where the word DEFAULT stands before another word, which is where the line declares one, and what is found is the upper-cased first word of the declared expression |
| Defaults.DefaultIsDeclared | pkg/install/sql_process.py:809-817 | For every line the word written is the declared expression, as the engine's column parser delimits it, if and only if that is one word which upper case leaves alone |
| Defaults.VersionColumn | pkg/admin/scripts/initdb.sql:651 | The version column declares 'ec669c7' and 'EC669C7' is written |
| Defaults.NotNullMeans | pkg/install/sql_process.py:809 | A line is taken for NOT NULL if and only if somewhere, be it in a literal, a word that ends with NOT stands before one that begins with NULL, in any case and with any blanks |
| MigrationRoundTrip.NewTableScript | pkg/install/sql_process.py:1471-1484 | The script of a table that is new runs exactly when no column or index is named twice, and then makes exactly the release, without rows |
| MigrationRoundTrip.BackfillPrecedesIndexes | pkg/install/sql_process.py:1508-1533 | The script splits into a column part and an index part; the column part runs exactly when the whole does, and after it every row already has its final values: in each added column the word written, or the declared default where none is, all other values unchanged |
| MigrationRoundTrip.AddedNotNull | pkg/src/kernel/table/knl_table.c:9664-9684 | After every upgrade script that runs, no row is null in an added column that is NOT NULL or PRIMARY KEY, whether or not its default was written |
| MigrationRoundTrip.AddableWhen | pkg/install/sql_process.py:806-826 | Of the lines that an upgrade accepts, those that a table with rows does not take are exactly the ones that refuse null with the default NULL and the primary keys without a default |
| MigrationRoundTrip.BackfillsDeclared | pkg/install/sql_process.py:806-826 | After an upgrade has run, every row holds the declared default of an added column if and only if no UPDATE is written for it, or its default is one word that upper case leaves alone, or NULL |
| MigrationRoundTrip.ChangesAccept | pkg/install/sql_process.py:806-826 | Added columns are accepted exactly when every NOT NULL one has the word DEFAULT before another word |
| MigrationExamples.NullDefaultRefused | pkg/src/kernel/table/knl_table.c:8435-8444 | Two releases whose accepted upgrade adds a column NOT NULL DEFAULT NULL: it runs on a table without rows and is refused on one with a row |
| MigrationExamples.KeyRefused | pkg/src/kernel/table/knl_table.c:9679-9683 | The same for a primary key without a default, for which the compiler asks for none |
| MigrationExamples.VersionSpoiled | pkg/admin/scripts/initdb.sql:651 | Two releases and a table with a row that, after the upgrade that adds the version column, does not hold the declared version |
| MigrationExamples.LiteralCut | pkg/install/sql_process.py:811-817 | Two releases whose accepted upgrade script writes an open literal and is refused, with or without rows |
| MigrationRoundTrip.DegradeRestoresIndexes | pkg/install/sql_process.py:1341-1458 | For every table an accepted degrade script runs, keeps the columns, leaves the table untouched when the indexes do not differ, and otherwise leaves exactly the indexes of the low release, which come back as not unique only where a statistics table has them so in the high one |
| MigrationRoundTrip.DegradeAccepts | pkg/install/sql_process.py:713-772 | The degrade of a CREATE TABLE is accepted if and only if the heads are the same, the tails are (up to PCTFREE and STORAGE if columns are compared), the low columns stand in front and each NOT NULL column left behind has the letters DEFAULT somewhere |
| MigrationRoundTrip.LeftoversHaveDefaults | pkg/install/sql_process.py:713-837 | The NOT NULL columns that an accepted degrade leaves behind all have the word DEFAULT before another word if and only if the upgrade that adds them is accepted |
| MigrationExamples.DefaultedPasses | pkg/admin/scripts/initdb.sql:802 | The column DEFAULTED NOT NULL declares no default, is accepted by a degrade and refused by an upgrade |
| MigrationRoundTrip.UpgradeThenDegrade | pkg/install/sql_process.py:1341-1552 | For every table the two scripts one after the other run if and only if the upgrade does and the indexes are rebuilt at a dictionary load or keep their names; they then keep the old columns in front, and restore the index map exactly if and only if nothing is rebuilt on either way, or what the way down rebuilds has not been softened before; every line left behind that says NOT NULL has the word DEFAULT before another word |
| MigrationRoundTrip.ScanLeaves | pkg/install/sql_process.py:1268-1304 | A scan leaves the items as they are if and only if no index that it would soften comes before the first one that differs |
| MigrationRoundTrip.GrowthIsOneWay | pkg/install/sql_process.py:2378-2440 | A table that only gains columns has an upgrade to run and no degrade |
| MigrationExamples.UniquenessForgotten | pkg/install/sql_process.py:1287-1290 | Two releases of a statistics table of which an index has become unique: the upgrade is accepted and empty, dictionary load or not |
| MigrationExamples.UniquenessLost | pkg/install/sql_process.py:1287-1290 | Two releases of a statistics table whose index stops being unique: upgrade and degrade run, and the index map is not the old one |
| TableGroups.ItemUpgrade | pkg/install/sql_process.py:774-837 | The statements for a changed CREATE TABLE or CREATE INDEX equal the specified ones, with the same refusals |
| TableGroups.ItemIncrement | pkg/install/sql_process.py:695-711 | The increment of two CREATE TABLE statements, ignoring PCTFREE and STORAGE, equals its specification with the same refusals |
| TableGroups.ItemDegrade | pkg/install/sql_process.py:713-772 | The degrade check of one CREATE TABLE equals its specification with the same refusals |
| TableGroups.PositionsFacts | pkg/install/sql_process.py:1164-1183 | The list of one kind holds the positions of that kind, all of them, in order: the kind lists partition the statements |
| TableGroups.ScanAgrees | pkg/install/sql_process.py:1268-1304 | When the scan finds nothing to rebuild, every index it passed equals its counterpart, which is why none adds a statement in place |
| TableGroups.TableGroup.constructor | pkg/install/sql_process.py:1077-1115 | A new group holds its CREATE TABLE alone, nothing fetched, no diff |
| TableGroups.TableGroup.Append | pkg/install/sql_process.py:1164-1183 | A statement of this table is added to the statements and to the list of its kind; any other is refused and changes nothing |
| TableGroups.TableGroup.Fetch | pkg/install/sql_process.py:1240-1251 | Returns the first match and flags it and nothing else |
| TableGroups.TableGroup.IsAllMatched | pkg/install/sql_process.py:1253-1266 | Says whether every statement of the other release except its indexes is matched, and flags no index |
| TableGroups.TableGroup.HasLeftover | pkg/install/sql_process.py:1298-1304 | Reads off the flags whether an index of the other release is matched by none of this one |
| TableGroups.TableGroup.IsDropIndex | pkg/install/sql_process.py:1268-1304 | With the flags of the other group's indexes clear, the flag-driven scan equals the specified one, softened statements and package key included |
| TableGroups.TableGroup.GeneDropAllIndexSqls | pkg/install/sql_process.py:1306-1317 | Equals the drops of all indexes in order |
| TableGroups.TableGroup.UpgradeWithRebuild | pkg/install/sql_process.py:1508-1533 | The loop over the statements leaves the additions, and the backfills and the rebuild only when it meets a dictionary load |
| TableGroups.TableGroup.UpgradeInPlace | pkg/install/sql_process.py:1534-1550 | Without a rebuild the loop over all statements, indexes included, leaves the additions and the backfills |
| TableGroups.TableGroup.GenerateUpgrade | pkg/install/sql_process.py:1460-1556 | The recorded diff and the scanned statements equal the specified upgrade of the two releases, with the same refusals |
| TableGroups.TableGroup.GenerateDegrade | pkg/install/sql_process.py:1341-1458 | The recorded diff and the package-key state handed on equal the specified degrade, with the same refusals |
| InitDb.InitDbSqls.AppendStatement | pkg/install/sql_process.py:1842-1887 | One statement takes the list of groups and the name index to what the specification gives, with the same refusals |
| InitDb.LoadedGroups | pkg/install/sql_process.py:1842-1887 | After any accepted script each name leads to the group last created under it, plain or with the SYS prefix, each group holds exactly its statements in order, and no group ever refuses what the index sends it |
| InitDb.EveryStatementGrouped | pkg/install/sql_process.py:1842-1887 | Every table statement of an accepted script is in exactly one group |
| InitDb.VersionsUniform | pkg/install/sql_process.py:1828-1840 | Either all groups of an accepted script have version 0 or none has |
| ReleaseGate.CheckInitdb | pkg/install/sql_process.py:2907-2981 | Accepts exactly when the low release is unversioned, or both are versioned, every high item passes its version check and every low item is wanted |
| ReleaseGate.EmptyDiffMeans | pkg/install/sql_process.py:2957-2975 | For every table the diff that the gate looks at is empty exactly when the columns are the same and the indexes are, softened where a statistics table allows it, or are never rebuilt |
| ReleaseGate.LinkStep | pkg/install/sql_process.py:2957-2975 | Across an accepted adjacent pair a table survives and its version rises by one if its diff is not empty and by nothing else |
| ReleaseGate.VersionLaw | pkg/install/sql_process.py:2907-2981 | Along any accepted chain no table disappears and its version rises by exactly the number of links that changed it |
| ReleaseGate.EqualVersionsAcross | pkg/install/sql_process.py:2957-2975 | Across an accepted pair the version of a table stays if and only if the columns are the same and the indexes are, softened where a statistics table allows it, or the newer release never loads its dictionary |
| ReleaseGate.EqualVersionsLookSame | pkg/install/sql_process.py:2907-2981 | Along any accepted chain the version of a table is the same at both ends if and only if that holds at every link |
| ReleaseGate.EqualVersionsEqualSchemas | pkg/install/sql_process.py:2907-2981 | Along any accepted chain equal versions of a table mean the same columns, and the same indexes too if every link loads the dictionary and softens no index |
| ReleaseGate.EqualVersionsDiffer | pkg/install/sql_process.py:2957-2975 | Two releases of one version, accepted by the gate, of which one has an index more |
| ReleaseGate.GateProtects | pkg/install/sql_process.py:2957-2975 | For every release that can be compared with itself: whatever release came before, an unmoved version means an unchanged schema, if and only if the release loads its dictionary and is not a statistics table with a unique index |
| VersionFiles.GenerateFileName | pkg/install/sql_process.py:2673-2726 | The list of step files, or the refusal for a missing one, equals the specified chain |
| VersionFiles.GenerateDegreFiles | pkg/install/sql_process.py:2513-2584 | The list of degrade files, or the refusal, equals the specified chain |
| VersionFiles.ChainsCompose | pkg/install/sql_process.py:2673-2702 | A chain from a to c exists exactly when those through b do, and is one after the other if and only if the file of the first step is not there |
| VersionFiles.FirstStepTwice | pkg/install/sql_process.py:2673-2702 | Versions and files for which the two halves run the first step twice |
| VersionFiles.DegradeMirrors | pkg/install/sql_process.py:2513-2584 | Where both chains exist the degrade chain is the exact mirror of the upgrade chain in reverse order if and only if the item is new or the two directions agree on the generated file of the first step |
| VersionFiles.DegradeAccepted | pkg/install/sql_process.py:2513-2726 | An upgrade chain has a degrade chain, and a degrade chain an upgrade chain, exactly under stated conditions on the item and its two files of the first step |
| VersionFiles.LoneFirstFile | pkg/install/sql_process.py:2378-2440 | Files for which the degrade of a changed item does nothing and that of a new item is refused |
| VersionFiles.UpgradeFileNotChecked | pkg/install/sql_process.py:2513-2535 | A degrade that is accepted with that upgrade file missing |
| VersionFiles.ScriptsInverse | pkg/install/sql_process.py:2538-2702 | If each degrade step undoes its upgrade step, the degrade chain undoes the upgrade chain, except for exactly the first step where only one direction has a file for it |
| IncreaseView.InitIncreaseView.Init | pkg/install/sql_process.py:1980-1998 | The modules read from numbered lines equal the specified reading, with the same refusals |
| IncreaseView.ReadMeans | pkg/install/sql_process.py:1980-1998 | A file is read if and only if it begins with the first header and only a section numbered 0 is without text, and what is read are its sections with text: each header with all lines up to the next one |
| IncreaseView.InitIncreaseView.CheckSequence | pkg/install/sql_process.py:2013-2030 | Accepts exactly the numbers 1, 2, 3 and so on |
| IncreaseView.InitIncreaseView.Fetch | pkg/install/sql_process.py:2005-2011 | Finds a module exactly when one of the same number and text is there |
| IncreaseView.GenerateIncreaseView | pkg/install/sql_process.py:2857-2883 | Emits the patch exactly when both files read, both are in sequence and no module was removed |
| IncreaseView.PatchMakesNew | pkg/install/sql_process.py:2857-2883 | The patch laid over the old file gives the new file module by module, and is exactly the modules that changed or are new, each once and in the order of the new file |
| PageFinder.Finder.HandlePage | pkg/deploy/action/find_next_page.py:74-102 | The nested scan moves the cursor forward within its page and takes the search to what one fold step on the parsed page gives |
| PageFinder.Finder.HandleBadPage | pkg/deploy/action/find_next_page.py:104-129 | The same for a search that follows the chain behind a damaged page |
| PageFinder.Finder.IsIntact | pkg/deploy/action/find_next_page.py:67-72 | Says whether the page is undamaged with equal checksums, and moves the cursor over what it reads |
| PageFinder.Finder.Get | pkg/deploy/action/find_next_page.py:131-143 | The cursor machine ends, and with the result of one left-to-right fold over the parsed pages |
| PageFinder.FinderMeaning | pkg/deploy/action/find_next_page.py:67-143 | A suggested repair joins an intact heap page that linked to the wanted one to an intact page reached from it over damaged pages, each later in the dump; where page ids are distinct every such repair is found |
| Expect.Searcher.constructor | pkg/install/funclib.py:1099-1114 | Splits the caller's patterns into the end-of-file, timeout and regular ones and remembers the caller's indexes |
| Expect.Searcher.Find | pkg/install/funclib.py:1136-1153 | Returns the caller's index and the span of the best match, or nothing when no pattern matches |
| Expect.BestIsLeftmost | pkg/install/funclib.py:1136-1153 | The best match starts leftmost, ties going to the lowest index, and there is none exactly when no pattern matches |
| Expect.Execution.LoopExpect | pkg/install/funclib.py:1016-1075 | The loop leaves the buffer, the text before and after, the index and the exception of the specified call for every order of reads, timeouts, end of file and failures |
| Expect.AwaitStops | pkg/install/funclib.py:1016-1069 | A call uses a stretch of the input, stops at the first buffer with a match, and there chooses the leftmost |
| Expect.OneCallConserves | pkg/install/funclib.py:1016-1069 | What a call hands over and what it keeps is what it had and what it read; end of file hands over everything; a failure keeps the old buffer |
| Expect.SessionConserves | pkg/install/funclib.py:1016-1075 | Over any sequence of calls the delivered text and the buffer equal the buffer at the start and all bytes read, if and only if no failing call had read anything |
| Expect.InputConserves | pkg/install/funclib.py:1016-1075 | For every engine, all bytes are conserved whatever calls are made if and only if the input has no failure right after an unbroken run of reads in time that brought a byte |
| Expect.NoFailureConserves | pkg/install/funclib.py:1016-1069 | An input without failures is conserved by every sequence of calls |
| Expect.FailureLosesByte | pkg/install/funclib.py:1070-1075 | A byte read by a call that fails is in no later buffer |
| Parameters.ParameterContainer.SetItem | pkg/install/install.py:927-947 | Setting a parameter takes the two lists and the dictionary to the specified value, or raises and changes nothing |
| Parameters.ParameterContainer.Items | pkg/install/install.py:964-971 | Yields the pairs in order and never runs out of range |
| Parameters.AlwaysValid | pkg/install/install.py:927-947 | After any sequence of calls, raising ones included, keys are unique, the include files are as many as their keys and distinct, and every other key has a value |
| Parameters.SettingWorks | pkg/install/install.py:927-947 | Setting moves exactly the old pair to the end with its new value if and only if it is not an include file listed already while the first parameter is one, unless the parameter after it is one as well |
| Parameters.SameIfileAgain | pkg/install/install.py:932-936 | Naming the only include file again raises |
| Lsid.LsidIsPositional | pkg/deploy/action/obtains_lsid.py:46-52 | For fields in range the number read back from the joined binary texts is the sum of the shifted fields |
| Lsid.LsidDecodes | pkg/deploy/action/obtains_lsid.py:46-52 | The identifier decodes to its five fields if and only if they are in range, and fits 32 bits exactly when the type is below 4 |
| Lsid.ClusterOverflows | pkg/deploy/action/obtains_lsid.py:46-52 | A cluster number of nine bits does not decode |
| LogEviction.LogDirectory.GetTotalLog | common/script/logs_handler/do_compress_and_archive.py:56-63 | The loop sums the sizes of the files with the prefix |
| LogEviction.LogDirectory.DeleteOldBakLogs | common/script/logs_handler/do_compress_and_archive.py:66-81 | Deletes the shortest oldest-first run of archives that brings the total to the limit, or all of them, and nothing else |
| LogEviction.QueueFacts | common/script/logs_handler/do_compress_and_archive.py:71-75 | The queue holds exactly the archives with the prefix, once each, oldest first |
| LogEviction.EvictOne | common/script/logs_handler/do_compress_and_archive.py:77-81 | Deleting the next archive lowers the total of the remaining files by its size |
| SgaBuffer.CheckConfigOptions | pkg/install/install.py:2177-2207 | In any order of the parameters the corrected total is the sum over the four buffers of the configured size or the default |
| SgaBuffer.ShareIsSetting | pkg/install/install.py:2294-2318 | A configured buffer counts with its parsed size, and with nothing when it does not parse |

## Left out

- Loss, delay and repetition of messages between instances, requests given up by their sender, reforming after a node fails, remastering, exhausted item pools, and the recycling of idle latch records: a request of the model stays with its sender until the master answers it.
- Spin locks, table locks and the try variants of `dtc_dls.c`, which use the same master record with fewer modes.
- The page cache protocol of `dtc_drc.c` and `dtc_dcs.c`.
- Fairness: `NoDeadlock` and `EveryoneCanWrite` say that a grant is always possible, not that the scheduler reaches it.
- TableGroups.ItemUpgrade: a CREATE TABLE is compared by head, column lines and tail, one column per line, so a pair of releases that differ only in how their lines are joined is refused here and the same in the source.
- TableGroups.TableGroup.GenerateUpgrade: the lists of new tables and of changed unique indexes kept for reports, and the statement lists that every caller throws away, are not modelled; only what `last_generated_diff` returns is.
- ReleaseGate.CheckInitdb: covers table groups, each compared with fresh flags, so two groups of one name in the high release, which share the flags and softened items of one low group in the source, are not modelled; nor is the exit that the degrade option takes for new or changed unique indexes; roles, sequences and profiles go through the same gate with simpler statements.
- Uniqueness of values: CREATE UNIQUE INDEX, UNIQUE and PRIMARY KEY never fail on rows that are equal in the model, so "runs if and only if" is up to that.
- MigrationMeaning.AddsRun: a database in maintenance mode, in which the upgrade scripts are run; otherwise the engine refuses every NOT NULL column added to a system table. AUTO_INCREMENT columns, which are filled from a counter, are read as columns without a default.
- MigrationRoundTrip.BackfillsDeclared: the value of a default is its text, and null exactly if that is the word NULL; what the engine computes for an expression, such as the empty string or SYSDATE, is not modelled.
- Defaults.DefaultIsDeclared: the default clause begins at the first word DEFAULT of the line, so a comment that contains that word is not told apart from the clause.
- PageFinder.FinderMeaning: covers dumps in which every page has its head, its tail and its links in the order the dump tool writes them.
- Expect.OneCallConserves: the text a failing call shows before it raises is not counted as delivered, since the source keeps the old buffer.
- `RoleGroup`, view drops, the whitelist, the renaming of tables, name style checks, the command line and all file reading and writing of `sql_process.py`.
- The regular expression engine and the process side of `Execution`, which are an oracle and a list of events here.
- The password generator and its validator in `install.py`, which would only add easy members, and the hash and the random seed of `obtains_lsid.py`.
- The rest of the kernel, the deployment scripts and the clients of other services.
