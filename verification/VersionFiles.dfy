/** Stitching the per-version step files of one table, role or sequence into an
    upgrade or a degrade script (generateFileName, generateDegreFiles,
    checkFileExist and checkDegredFile of sql_process.py). */
module VersionFiles {
  import opened Wrappers

  /** A step file of the item at hand: shipped with the release, or written by the
      comparison of a version-0 database with version 1. */
  datatype File = Up(step: nat) | Down(step: nat) | FirstUp | FirstDown

  function Mirror(f: File): File {
    match f
    case Up(t) => Down(t)
    case Down(t) => Up(t)
    case FirstUp => FirstDown
    case FirstDown => FirstUp
  }

  predicate Complete(present: set<File>, first: nat, last: int) {
    forall t :: first <= t <= last ==> Up(t) in present && Down(t) in present
  }

  function Steps(first: nat, last: int): seq<File>
    decreases last + 1 - first
  {
    if first > last then [] else Steps(first, last - 1) + [Up(last)]
  }

  function StartAfter(version: nat): nat {
    if version + 1 > 2 then version + 1 else 2
  }

  /** The file for the step from version 0 to 1.  An item the old database does not
      have must have one; for an item it has, the file is used if it is there.
      `listed` says that the item is in the version-1 database script. */
  function FirstFile(older: Option<nat>, listed: bool, present: set<File>): Option<seq<File>> {
    if older.Some? then Some(if FirstUp in present then [FirstUp] else [])
    else if listed then (if FirstUp in present then Some([FirstUp]) else None)
    else if Up(1) in present && Down(1) in present then Some([Up(1)])
    else None
  }

  function Upgrade(older: Option<nat>, newer: nat, listed: bool, present: set<File>): Option<seq<File>> {
    var start := StartAfter(if older.Some? then older.value else 0);
    match FirstFile(older, listed, present)
    case None => None
    case Some(first) => if Complete(present, start, newer) then Some(first + Steps(start, newer)) else None
  }

  /** The way down checks the same step files, but for an item that the old database
      does not have and version 1 does not list it looks for the degrade file only. */
  function LastFile(low: Option<nat>, listed: bool, present: set<File>): Option<seq<File>> {
    if low.Some? then Some(if FirstDown in present then [FirstDown] else [])
    else if listed then (if FirstDown in present then Some([FirstDown]) else None)
    else if Down(1) in present then Some([Down(1)])
    else None
  }

  function Mirrored(files: seq<File>): (m: seq<File>)
    ensures |m| == |files| && forall i :: 0 <= i < |m| ==> m[i] == Mirror(files[i])
  {
    seq(|files|, i requires 0 <= i < |files| => Mirror(files[i]))
  }

  function Reverse<T>(s: seq<T>): (r: seq<T>)
    ensures |r| == |s| && forall i :: 0 <= i < |r| ==> r[i] == s[|s| - 1 - i]
  {
    seq(|s|, i requires 0 <= i < |s| => s[|s| - 1 - i])
  }

  function Degrade(low: Option<nat>, high: nat, listed: bool, present: set<File>): Option<seq<File>> {
    var start := StartAfter(if low.Some? then low.value else 0);
    match LastFile(low, listed, present)
    case None => None
    case Some(last) =>
      if Complete(present, start, high) then Some(Reverse(last + Mirrored(Steps(start, high)))) else None
  }

  method GenerateFileName(older: Option<nat>, newer: nat, listed: bool, present: set<File>) returns (r: Option<seq<File>>)
    ensures r == Upgrade(older, newer, listed, present)
  {
    var first := FirstFile(older, listed, present);
    if first.None? {
      return None;
    }
    var start := StartAfter(if older.Some? then older.value else 0);
    var files := first.value;
    var t := start;
    while t <= newer
      invariant start <= t && (t <= newer + 1 || t == start)
      invariant Complete(present, start, t - 1)
      invariant files == first.value + Steps(start, t - 1)
      decreases newer + 1 - t
    {
      if Up(t) !in present || Down(t) !in present {
        return None;
      }
      files := files + [Up(t)];
      t := t + 1;
    }
    StepsEmpty(start, newer, t, present);
    return Some(files);
  }

  method GenerateDegreFiles(low: Option<nat>, high: nat, listed: bool, present: set<File>) returns (r: Option<seq<File>>)
    ensures r == Degrade(low, high, listed, present)
  {
    var last := LastFile(low, listed, present);
    if last.None? {
      return None;
    }
    var start := StartAfter(if low.Some? then low.value else 0);
    var files := last.value;
    var t := start;
    while t <= high
      invariant start <= t && (t <= high + 1 || t == start)
      invariant Complete(present, start, t - 1)
      invariant files == last.value + Mirrored(Steps(start, t - 1))
      decreases high + 1 - t
    {
      if Down(t) !in present || Up(t) !in present {
        return None;
      }
      MirroredStep(last.value, files, start, t);
      files := files + [Down(t)];
      t := t + 1;
    }
    StepsEmpty(start, high, t, present);
    return Some(Reverse(files));
  }

  lemma StepsEmpty(start: nat, last: nat, t: nat, present: set<File>)
    requires start > 0 && start <= t && (t == last + 1 || (t == start && last < t))
    ensures Steps(start, last) == Steps(start, t - 1)
    ensures Complete(present, start, last) <==> Complete(present, start, t - 1)
  {
  }

  lemma MirroredStep(last: seq<File>, files: seq<File>, start: nat, t: nat)
    requires start <= t && files == last + Mirrored(Steps(start, t - 1))
    ensures files + [Down(t)] == last + Mirrored(Steps(start, t))
  {
    assert Mirrored(Steps(start, t)) == Mirrored(Steps(start, t - 1)) + [Down(t)];
  }

  lemma {:induction false} StepsSplit(first: nat, mid: nat, last: nat)
    requires 0 < first <= mid + 1 <= last + 1
    ensures Steps(first, last) == Steps(first, mid) + Steps(mid + 1, last)
    decreases last
  {
    if mid < last {
      StepsSplit(first, mid, last - 1);
    } else {
      assert Steps(first, mid) + [] == Steps(first, mid);
    }
  }

  /** COMPOSITION.  For a <= b <= c the script from a to c is accepted exactly if those
      from a to b and from b to c are, and it is the one followed by the other exactly
      if no file for the first step lies around; with one, both halves would run it. */
  lemma ChainsCompose(a: nat, b: nat, c: nat, listed: bool, present: set<File>)
    requires a <= b <= c
    ensures var whole := Upgrade(Some(a), c, listed, present);
            var lower := Upgrade(Some(a), b, listed, present);
            var upper := Upgrade(Some(b), c, listed, present);
            (whole.Some? <==> lower.Some? && upper.Some?)
            && (whole.Some? ==> (whole.value == lower.value + upper.value <==> FirstUp !in present))
  {
    var start, mid := StartAfter(a), StartAfter(b);
    if c + 1 >= mid {
      StepsSplit(start, mid - 1, c);
    }
    assert b + 1 < mid ==> Steps(start, b) == [] && start == mid;
    assert Steps(start, c) == Steps(start, b) + Steps(mid, c) by {
      if c + 1 < mid {
        assert Steps(start, c) == Steps(start, b) == Steps(mid, c) == [];
      }
    }
    var whole, lower, upper := Upgrade(Some(a), c, listed, present), Upgrade(Some(a), b, listed, present),
                               Upgrade(Some(b), c, listed, present);
    if whole.Some? {
      if FirstUp in present {
        assert |lower.value + upper.value| == |whole.value| + 1;
      } else {
        assert [] + Steps(start, c) == Steps(start, c);
        assert [] + Steps(start, b) == Steps(start, b);
        assert [] + Steps(mid, c) == Steps(mid, c);
      }
    }
  }

  /** The files at hand on the way up and on the way down: the shipped steps are the same,
      but each direction generates its own file of the first step, and only if it has
      something to run. */
  ghost predicate SameShipped(atUp: set<File>, atDown: set<File>) {
    forall t :: (Up(t) in atUp <==> Up(t) in atDown) && (Down(t) in atUp <==> Down(t) in atDown)
  }

  /** The two directions agree on the first step of an item that the old database has. */
  ghost predicate FirstsPair(low: Option<nat>, atUp: set<File>, atDown: set<File>) {
    low.Some? ==> (FirstUp in atUp <==> FirstDown in atDown)
  }

  lemma DegradeStart(low: Option<nat>, high: nat, listed: bool, atUp: set<File>, atDown: set<File>)
    requires SameShipped(atUp, atDown)
    ensures var start := StartAfter(if low.Some? then low.value else 0);
            Complete(atUp, start, high) <==> Complete(atDown, start, high)
  {
  }

  /** ACCEPTANCE.  An accepted upgrade has an accepted degrade exactly if the item is not a
      listed one that is new, or its generated degrade file is there; an accepted degrade
      has an accepted upgrade exactly if the item is not new, or the first upgrade file,
      generated for a listed item and shipped for an unlisted one, is there. */
  lemma DegradeAccepted(low: Option<nat>, high: nat, listed: bool, atUp: set<File>, atDown: set<File>)
    requires SameShipped(atUp, atDown)
    ensures Upgrade(low, high, listed, atUp).Some? ==>
              (Degrade(low, high, listed, atDown).Some? <==> low.Some? || !listed || FirstDown in atDown)
    ensures Degrade(low, high, listed, atDown).Some? ==>
              (Upgrade(low, high, listed, atUp).Some?
               <==> low.Some? || (if listed then FirstUp in atUp else Up(1) in atUp))
  {
    DegradeStart(low, high, listed, atUp, atDown);
  }

  /** MIRROR.  Where both are accepted the degrade is the upgrade's files turned to their
      partners in reverse, if and only if the two directions agree on the first step. */
  lemma DegradeMirrors(low: Option<nat>, high: nat, listed: bool, atUp: set<File>, atDown: set<File>)
    requires SameShipped(atUp, atDown)
    requires Upgrade(low, high, listed, atUp).Some? && Degrade(low, high, listed, atDown).Some?
    ensures Degrade(low, high, listed, atDown).value == Reverse(Mirrored(Upgrade(low, high, listed, atUp).value))
            <==> FirstsPair(low, atUp, atDown)
  {
    var steps := Steps(StartAfter(if low.Some? then low.value else 0), high);
    var up, down := Upgrade(low, high, listed, atUp).value, Degrade(low, high, listed, atDown).value;
    var first, last := FirstFile(low, listed, atUp).value, LastFile(low, listed, atDown).value;
    assert Mirrored(first + steps) == Mirrored(first) + Mirrored(steps);
    if FirstsPair(low, atUp, atDown) {
      assert Mirrored(first) == last;
    } else {
      assert |up| != |down|;
    }
  }

  // ------------------------------------------------------------ running the scripts

  function Exec<S>(run: (File, S) -> S, files: seq<File>, s: S): S {
    if files == [] then s else Exec(run, files[1..], run(files[0], s))
  }

  /** Along this run every step is undone by its partner. */
  ghost predicate Undone<S>(run: (File, S) -> S, files: seq<File>, s: S) {
    files != [] ==>
      run(Mirror(files[0]), run(files[0], s)) == s && Undone(run, files[1..], run(files[0], s))
  }

  lemma {:induction false} ExecConcat<S>(run: (File, S) -> S, a: seq<File>, b: seq<File>, s: S)
    ensures Exec(run, a + b, s) == Exec(run, b, Exec(run, a, s))
  {
    if a == [] {
      assert a + b == b;
    } else {
      assert (a + b)[1..] == a[1..] + b;
      ExecConcat(run, a[1..], b, run(a[0], s));
    }
  }

  lemma {:induction false} MirrorUndoes<S>(run: (File, S) -> S, files: seq<File>, s: S)
    requires Undone(run, files, s)
    ensures Exec(run, Reverse(Mirrored(files)), Exec(run, files, s)) == s
  {
    if files != [] {
      var rest := files[1..];
      MirrorUndoes(run, rest, run(files[0], s));
      assert Reverse(Mirrored(files)) == Reverse(Mirrored(rest)) + [Mirror(files[0])];
      ExecConcat(run, Reverse(Mirrored(rest)), [Mirror(files[0])], Exec(run, files, s));
    }
  }

  /** INVERSE.  If along the upgrade every step file is undone by its degrade file, the
      whole degrade script undoes the whole upgrade script wherever the two directions
      agree on the first step; otherwise it leaves exactly the step that has no partner. */
  lemma ScriptsInverse<S>(run: (File, S) -> S, low: Option<nat>, high: nat, listed: bool, atUp: set<File>,
                          atDown: set<File>, s: S)
    requires SameShipped(atUp, atDown)
    requires Upgrade(low, high, listed, atUp).Some? && Degrade(low, high, listed, atDown).Some?
    requires Undone(run, Upgrade(low, high, listed, atUp).value, s)
    ensures Exec(run, Degrade(low, high, listed, atDown).value, Exec(run, Upgrade(low, high, listed, atUp).value, s))
            == if FirstsPair(low, atUp, atDown) then s
               else if FirstUp in atUp then run(FirstUp, s)
               else run(FirstDown, s)
  {
    var up := Upgrade(low, high, listed, atUp).value;
    if FirstsPair(low, atUp, atDown) {
      DegradeMirrors(low, high, listed, atUp, atDown);
      MirrorUndoes(run, up, s);
    } else {
      var steps := Steps(StartAfter(low.value), high);
      LoneShapes(low, high, listed, atUp, atDown);
      if FirstUp in atUp {
        LoneUpStays(run, steps, s);
      } else {
        LoneDownRuns(run, steps, s);
      }
    }
  }

  lemma LoneShapes(low: Option<nat>, high: nat, listed: bool, atUp: set<File>, atDown: set<File>)
    requires Upgrade(low, high, listed, atUp).Some? && Degrade(low, high, listed, atDown).Some?
    requires !FirstsPair(low, atUp, atDown)
    ensures var steps := Steps(StartAfter(low.value), high);
            var up, down := Upgrade(low, high, listed, atUp).value, Degrade(low, high, listed, atDown).value;
            if FirstUp in atUp then up == [FirstUp] + steps && down == Reverse(Mirrored(steps))
            else up == steps && down == Reverse(Mirrored(steps)) + [FirstDown]
  {
    var steps := Steps(StartAfter(low.value), high);
    if FirstUp in atUp {
      NothingBefore(Mirrored(steps));
    } else {
      NothingBefore(steps);
      ReverseFirst(FirstDown, Mirrored(steps));
    }
  }

  lemma NothingBefore<T>(s: seq<T>)
    ensures [] + s == s
  {
  }

  lemma ReverseFirst<T>(x: T, s: seq<T>)
    ensures Reverse([x] + s) == Reverse(s) + [x]
  {
  }

  lemma LoneUpStays<S>(run: (File, S) -> S, steps: seq<File>, s: S)
    requires Undone(run, [FirstUp] + steps, s)
    ensures Exec(run, Reverse(Mirrored(steps)), Exec(run, [FirstUp] + steps, s)) == run(FirstUp, s)
  {
    assert ([FirstUp] + steps)[1..] == steps;
    MirrorUndoes(run, steps, run(FirstUp, s));
  }

  lemma LoneDownRuns<S>(run: (File, S) -> S, steps: seq<File>, s: S)
    requires Undone(run, steps, s)
    ensures Exec(run, Reverse(Mirrored(steps)) + [FirstDown], Exec(run, steps, s)) == run(FirstDown, s)
  {
    MirrorUndoes(run, steps, s);
    ExecConcat(run, Reverse(Mirrored(steps)), [FirstDown], Exec(run, steps, s));
    assert Exec(run, [FirstDown], s) == Exec(run, [FirstDown][1..], run(FirstDown, s));
  }

  /** With the file of the first step still there, going from 2 to 4 by way of 3 runs it
      twice. */
  lemma FirstStepTwice()
    ensures var present := {FirstUp, Up(3), Down(3), Up(4), Down(4)};
            Upgrade(Some(2), 3, true, present) == Some([FirstUp, Up(3)])
            && Upgrade(Some(3), 4, true, present) == Some([FirstUp, Up(4)])
            && Upgrade(Some(2), 4, true, present) == Some([FirstUp, Up(3), Up(4)])
  {
    assert Steps(3, 3) == Steps(3, 2) + [Up(3)] == [Up(3)];
    assert Steps(4, 4) == Steps(4, 3) + [Up(4)] == [Up(4)];
    assert Steps(3, 4) == Steps(3, 3) + [Up(4)] == [Up(3), Up(4)];
    assert [FirstUp] + [Up(3)] == [FirstUp, Up(3)] && [FirstUp] + [Up(4)] == [FirstUp, Up(4)];
    assert [FirstUp] + [Up(3), Up(4)] == [FirstUp, Up(3), Up(4)];
  }

  /** A table that gained columns on the way to version 1 has a first file up and none
      down: the degrade is accepted and does nothing.  A listed item that is new and has
      none down cannot be degraded at all. */
  lemma LoneFirstFile()
    ensures Upgrade(Some(1), 1, true, {FirstUp}) == Some([FirstUp]) && Degrade(Some(1), 1, true, {}) == Some([])
    ensures Upgrade(None, 1, true, {FirstUp}) == Some([FirstUp]) && Degrade(None, 1, true, {}) == None
  {
    assert Steps(2, 1) == [];
    assert [FirstUp] + [] == [FirstUp];
    assert Reverse([] + Mirrored([])) == [];
  }

  /** The way down is accepted with the upgrade file of the first step missing. */
  lemma UpgradeFileNotChecked()
    ensures Degrade(None, 1, false, {Down(1)}).Some? && Upgrade(None, 1, false, {Down(1)}) == None
  {
    DegradeAccepted(None, 1, false, {Down(1)}, {Down(1)});
  }
}
