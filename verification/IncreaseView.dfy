/** The incremental patch between two numbered view files (ViewGroup,
    InitIncreaseView and generate_increase_view of sql_process.py). */
module IncreaseView {
  import opened Wrappers
  import opened Digits
  import opened SqlText

  datatype Module = Module(number: nat, sqls: string)

  function RStrip(s: string): string {
    StripRight(s, IsBlank)
  }

  /** A line that opens a module: two dashes and a number. */
  predicate IsHeader(line: string) {
    "--" <= RStrip(line) && IsDigits(RStrip(line)[2..])
  }

  /** A module without text is refused, except for the unnumbered one before the first
      header, which is dropped. */
  function AddGroup(modules: seq<Module>, m: Module): Option<seq<Module>> {
    if RStrip(m.sqls) != "" then Some(modules + [m])
    else if m.number != 0 then None
    else Some(modules)
  }

  /** The modules closed within the first `n` lines, and the one still open. */
  function ReadTo(lines: seq<string>, n: nat): Option<(seq<Module>, Module)>
    requires n <= |lines|
  {
    if n == 0 then Some(([], Module(0, "")))
    else match ReadTo(lines, n - 1)
      case None => None
      case Some((modules, open)) =>
        var line := lines[n - 1];
        if IsHeader(line) then
          match AddGroup(modules, open)
          case None => None
          case Some(more) => Some((more, Module(Number(RStrip(line)[2..]), "")))
        else Some((modules, open.(sqls := open.sqls + ReplaceAll(line, "\r\n", "\n"))))
  }

  function Read(lines: seq<string>): Option<seq<Module>> {
    if lines == [] || RStrip(lines[0]) != "--01" then None
    else match ReadTo(lines, |lines|)
      case None => None
      case Some((modules, open)) => AddGroup(modules, open)
  }

  // ------------------------------------------------------------------ what is read

  /** The lines from `a` up to `b`, one after the other. */
  function TextOf(lines: seq<string>, a: nat, b: nat): string
    requires a <= b <= |lines|
  {
    if a == b then "" else TextOf(lines, a, b - 1) + ReplaceAll(lines[b - 1], "\r\n", "\n")
  }

  /** The positions of the headers among the first `n` lines. */
  function Headers(lines: seq<string>, n: nat): (h: seq<nat>)
    requires n <= |lines|
    ensures forall i :: 0 <= i < |h| ==> h[i] < n && IsHeader(lines[h[i]])
    ensures forall i, j :: 0 <= i < j < |h| ==> h[i] < h[j]
    ensures forall p: nat :: p < n && IsHeader(lines[p]) ==> p in h
  {
    if n == 0 then [] else Headers(lines, n - 1) + (if IsHeader(lines[n - 1]) then [n - 1] else [])
  }

  /** The module from the header at `a` up to line `b`. */
  function ModuleAt(lines: seq<string>, a: nat, b: nat): Module
    requires a < b <= |lines| && IsHeader(lines[a])
  {
    Module(Number(RStrip(lines[a])[2..]), TextOf(lines, a + 1, b))
  }

  /** Where the section of the i-th header ends within the first `n` lines. */
  function EndOf(h: seq<nat>, i: nat, n: nat): nat {
    if i + 1 < |h| then h[i + 1] else n
  }

  /** The sections of the first `n` lines: each header with the lines up to the next one. */
  function Sections(lines: seq<string>, n: nat): (m: seq<Module>)
    requires n <= |lines|
    ensures |m| == |Headers(lines, n)|
    ensures forall i :: 0 <= i < |m| ==> m[i] == ModuleAt(lines, Headers(lines, n)[i], EndOf(Headers(lines, n), i, n))
  {
    var h := Headers(lines, n);
    seq(|h|, i requires 0 <= i < |h| => ModuleAt(lines, h[i], EndOf(h, i, n)))
  }

  predicate Blank(m: Module) {
    RStrip(m.sqls) == ""
  }

  function NonBlank(modules: seq<Module>): seq<Module> {
    if modules == [] then []
    else
      var n := |modules| - 1;
      NonBlank(modules[..n]) + (if Blank(modules[n]) then [] else [modules[n]])
  }

  /** Only a section numbered 0 may be without text. */
  predicate AllWritten(modules: seq<Module>) {
    forall i :: 0 <= i < |modules| ==> Blank(modules[i]) ==> modules[i].number == 0
  }

  lemma SectionOpened(lines: seq<string>, n: nat)
    requires 0 < n <= |lines| && IsHeader(lines[n - 1])
    ensures Sections(lines, n) == Sections(lines, n - 1) + [Module(Number(RStrip(lines[n - 1])[2..]), "")]
  {
    var h, h', before, after := Headers(lines, n - 1), Headers(lines, n), Sections(lines, n - 1), Sections(lines, n);
    assert h' == h + [n - 1];
    forall i | 0 <= i < |before|
      ensures after[i] == before[i]
    {
      assert EndOf(h', i, n) == EndOf(h, i, n - 1) && h'[i] == h[i];
    }
    assert h'[|h|] == n - 1 && EndOf(h', |h|, n) == n && TextOf(lines, n, n) == "";
  }

  /** The section with one more line. */
  function Longer(m: Module, line: string): Module {
    m.(sqls := m.sqls + ReplaceAll(line, "\r\n", "\n"))
  }

  lemma SectionGrown(lines: seq<string>, n: nat)
    requires 0 < n <= |lines| && !IsHeader(lines[n - 1]) && Headers(lines, n - 1) != []
    ensures var before := Sections(lines, n - 1);
            var last := |before| - 1;
            Sections(lines, n) == before[last := Longer(before[last], lines[n - 1])]
  {
    var h, before, after := Headers(lines, n - 1), Sections(lines, n - 1), Sections(lines, n);
    assert Headers(lines, n) == h;
    var last := |h| - 1;
    forall i | 0 <= i < last
      ensures after[i] == before[i]
    {
      assert EndOf(h, i, n) == EndOf(h, i, n - 1);
    }
    assert TextOf(lines, h[last] + 1, n) == TextOf(lines, h[last] + 1, n - 1) + ReplaceAll(lines[n - 1], "\r\n", "\n");
  }

  /** What has been read after `n` lines, told by the sections alone. */
  function Told(sections: seq<Module>): Option<(seq<Module>, Module)>
    requires sections != []
  {
    var n := |sections| - 1;
    if AllWritten(sections[..n]) then Some((NonBlank(sections[..n]), sections[n])) else None
  }

  lemma ToldClosed(sections: seq<Module>, next: Module)
    requires sections != []
    ensures Told(sections + [next])
            == match Told(sections)
               case None => None
               case Some((modules, open)) =>
                 match AddGroup(modules, open)
                 case None => None
                 case Some(more) => Some((more, next))
  {
    var n := |sections| - 1;
    assert (sections + [next])[..n + 1] == sections;
    assert sections == sections[..n] + [sections[n]];
    assert AllWritten(sections) <==> AllWritten(sections[..n]) && (Blank(sections[n]) ==> sections[n].number == 0);
    assert NonBlank(sections[..n]) + [] == NonBlank(sections[..n]);
  }

  lemma ToldLonger(sections: seq<Module>, last: Module)
    requires sections != []
    ensures var n := |sections| - 1;
            Told(sections[n := last])
            == match Told(sections)
               case None => None
               case Some((modules, open)) => Some((modules, last))
  {
    var n := |sections| - 1;
    assert sections[n := last][..n] == sections[..n];
  }

  lemma ReadHeader(lines: seq<string>, n: nat, before: seq<Module>)
    requires 0 < n <= |lines| && IsHeader(lines[n - 1]) && before != [] && ReadTo(lines, n - 1) == Told(before)
    ensures ReadTo(lines, n) == Told(before + [Module(Number(RStrip(lines[n - 1])[2..]), "")])
  {
    ToldClosed(before, Module(Number(RStrip(lines[n - 1])[2..]), ""));
  }

  lemma ReadText(lines: seq<string>, n: nat, before: seq<Module>)
    requires 0 < n <= |lines| && !IsHeader(lines[n - 1]) && before != [] && ReadTo(lines, n - 1) == Told(before)
    ensures var last := |before| - 1;
            ReadTo(lines, n) == Told(before[last := Longer(before[last], lines[n - 1])])
  {
    ToldLonger(before, Longer(before[|before| - 1], lines[n - 1]));
  }

  lemma ReadToStep(lines: seq<string>, n: nat, before: seq<Module>)
    requires 1 < n <= |lines| && Headers(lines, n - 1) != [] && before == Sections(lines, n - 1)
    requires ReadTo(lines, n - 1) == Told(before)
    ensures Headers(lines, n) != [] && ReadTo(lines, n) == Told(Sections(lines, n))
  {
    if IsHeader(lines[n - 1]) {
      SectionOpened(lines, n);
      ReadHeader(lines, n, before);
    } else {
      SectionGrown(lines, n);
      ReadText(lines, n, before);
    }
  }

  lemma {:induction false} ReadToMeans(lines: seq<string>, n: nat)
    requires 0 < n <= |lines| && IsHeader(lines[0])
    ensures Headers(lines, n) != [] && ReadTo(lines, n) == Told(Sections(lines, n))
  {
    if n == 1 {
      FirstSection(lines);
    } else {
      ReadToMeans(lines, n - 1);
      ReadToStep(lines, n, Sections(lines, n - 1));
    }
  }

  lemma FirstSection(lines: seq<string>)
    requires |lines| > 0 && IsHeader(lines[0])
    ensures Headers(lines, 1) == [0] && ReadTo(lines, 1) == Told(Sections(lines, 1))
  {
    assert Headers(lines, 0) == [];
    assert ReadTo(lines, 0) == Some(([], Module(0, ""))) && RStrip("") == "";
    assert Sections(lines, 1) == [Module(Number(RStrip(lines[0])[2..]), "")];
    assert Sections(lines, 1)[..0] == [];
  }

  /** READING.  A file is read if and only if it begins with the first header and only a
      section numbered 0 is without text; what is read are its sections with text, each a
      header and all lines up to the next one. */
  lemma ReadMeans(lines: seq<string>)
    ensures Read(lines).Some?
            <==> lines != [] && RStrip(lines[0]) == "--01" && AllWritten(Sections(lines, |lines|))
    ensures Read(lines).Some? ==> Read(lines).value == NonBlank(Sections(lines, |lines|))
  {
    if lines != [] && RStrip(lines[0]) == "--01" {
      FirstIsHeader(lines[0]);
      ReadToMeans(lines, |lines|);
      ToldClosed(Sections(lines, |lines|), Module(0, ""));
      var sections := Sections(lines, |lines|);
      assert (sections + [Module(0, "")])[..|sections|] == sections;
    }
  }

  lemma FirstIsHeader(line: string)
    requires RStrip(line) == "--01"
    ensures IsHeader(line)
  {
    assert "--01"[2..] == "01" && "--" <= "--01";
  }

  predicate InSequence(modules: seq<Module>) {
    |modules| > 0 && forall i :: 0 <= i < |modules| ==> modules[i].number == i + 1
  }

  predicate IsSame(a: Module, b: Module) {
    a.number == b.number && Strip(a.sqls) == Strip(b.sqls)
  }

  predicate Matched(m: Module, modules: seq<Module>) {
    exists i :: 0 <= i < |modules| && IsSame(modules[i], m)
  }

  /** The modules of the new file that the old file does not have, in order. */
  function Patch(older: seq<Module>, newer: seq<Module>): seq<Module> {
    if newer == [] then []
    else
      var n := |newer| - 1;
      Patch(older, newer[..n]) + (if Matched(newer[n], older) then [] else [newer[n]])
  }

  class InitIncreaseView {
    var viewGroups: seq<Module>
    var numberList: seq<nat>

    ghost predicate Valid()
      reads this
    {
      |numberList| == |viewGroups| && forall i :: 0 <= i < |viewGroups| ==> numberList[i] == viewGroups[i].number
    }

    constructor ()
      ensures Valid() && viewGroups == []
    {
      viewGroups, numberList := [], [];
    }

    method Add(m: Module) returns (ok: bool)
      requires Valid()
      modifies this
      ensures Valid() && ok == AddGroup(old(viewGroups), m).Some?
      ensures viewGroups == if ok then AddGroup(old(viewGroups), m).value else old(viewGroups)
    {
      if RStrip(m.sqls) != "" {
        numberList := numberList + [m.number];
        viewGroups := viewGroups + [m];
      } else if m.number != 0 {
        return false;
      }
      return true;
    }

    method Init(lines: seq<string>) returns (ok: bool)
      requires Valid() && viewGroups == []
      modifies this
      ensures Valid() && ok == Read(lines).Some? && (ok ==> viewGroups == Read(lines).value)
    {
      if lines == [] || RStrip(lines[0]) != "--01" {
        return false;
      }
      var open := Module(0, "");
      for n := 0 to |lines|
        invariant Valid() && ReadTo(lines, n) == Some((viewGroups, open))
      {
        var line := lines[n];
        if IsHeader(line) {
          var added := Add(open);
          if !added {
            ReadFails(lines, n + 1, |lines|);
            return false;
          }
          open := Module(Number(RStrip(line)[2..]), "");
        } else {
          open := open.(sqls := open.sqls + ReplaceAll(line, "\r\n", "\n"));
        }
      }
      ok := Add(open);
    }

    /** Whether the modules are numbered 1, 2, 3 and so on. */
    method CheckSequence() returns (ok: bool)
      requires Valid()
      ensures ok <==> InSequence(viewGroups)
    {
      if |numberList| == 0 || numberList[0] != 1 {
        return false;
      }
      var next := 1;
      for i := 0 to |viewGroups|
        invariant next == i + 1 && forall j :: 0 <= j < i ==> viewGroups[j].number == j + 1
      {
        if viewGroups[i].number != next {
          return false;
        }
        next := next + 1;
      }
      return true;
    }

    method Fetch(m: Module) returns (found: bool)
      ensures found <==> Matched(m, viewGroups)
    {
      for i := 0 to |viewGroups|
        invariant forall j :: 0 <= j < i ==> !IsSame(viewGroups[j], m)
      {
        if IsSame(viewGroups[i], m) {
          return true;
        }
      }
      return false;
    }
  }

  lemma {:induction false} ReadFails(lines: seq<string>, m: nat, n: nat)
    requires m <= n <= |lines| && ReadTo(lines, m).None?
    ensures ReadTo(lines, n).None?
  {
    if m < n {
      ReadFails(lines, m, n - 1);
    }
  }

  /** The patch from one file to another; None when a file or the pair is refused. */
  method GenerateIncreaseView(oldLines: seq<string>, newLines: seq<string>) returns (patch: Option<seq<Module>>)
    ensures var older, newer := Read(oldLines), Read(newLines);
            patch.Some? <==> older.Some? && newer.Some? && InSequence(older.value) && InSequence(newer.value)
                             && |older.value| <= |newer.value|
    ensures patch.Some? ==> patch.value == Patch(Read(oldLines).value, Read(newLines).value)
  {
    var oldView := new InitIncreaseView();
    var newView := new InitIncreaseView();
    var ok := oldView.Init(oldLines);
    if !ok {
      return None;
    }
    ok := newView.Init(newLines);
    if !ok {
      return None;
    }
    ok := oldView.CheckSequence();
    if !ok {
      return None;
    }
    ok := newView.CheckSequence();
    if !ok || |oldView.numberList| > |newView.numberList| {
      return None;
    }
    var emitted := Emit(oldView, newView.viewGroups);
    return Some(emitted);
  }

  method Emit(oldView: InitIncreaseView, modules: seq<Module>) returns (emitted: seq<Module>)
    ensures emitted == Patch(oldView.viewGroups, modules)
  {
    emitted := [];
    for i := 0 to |modules|
      invariant emitted == Patch(oldView.viewGroups, modules[..i])
    {
      assert modules[..i + 1][..i] == modules[..i];
      var found := oldView.Fetch(modules[i]);
      if !found {
        emitted := emitted + [modules[i]];
      }
    }
    assert modules[..|modules|] == modules;
  }

  // ------------------------------------------------------------ what the patch does

  /** The module of that number in a patch, if it has one. */
  function Lookup(patch: seq<Module>, number: nat): Option<Module> {
    if patch == [] then None
    else if patch[|patch| - 1].number == number then Some(patch[|patch| - 1])
    else Lookup(patch[..|patch| - 1], number)
  }

  /** A file of `size` modules after a patch: a patched module replaces the old one of
      its number. */
  function Overlay(older: seq<Module>, patch: seq<Module>, size: nat): (r: seq<Option<Module>>)
    ensures |r| == size
  {
    seq(size, i requires 0 <= i < size =>
      if Lookup(patch, i + 1).Some? then Lookup(patch, i + 1) else if i < |older| then Some(older[i]) else None)
  }

  predicate Numbered(modules: seq<Module>) {
    forall k :: 0 <= k < |modules| ==> modules[k].number == k + 1
  }

  // Module `i` of the new file, if it is there and the old file does not have it.
  function Fresh(older: seq<Module>, newer: seq<Module>, i: nat): Option<Module> {
    if i < |newer| && !Matched(newer[i], older) then Some(newer[i]) else None
  }

  lemma FreshStep(older: seq<Module>, newer: seq<Module>, i: nat)
    requires newer != []
    ensures var n := |newer| - 1;
            Fresh(older, newer, i)
            == if i != n then Fresh(older, newer[..n], i) else if Matched(newer[n], older) then None else Some(newer[n])
  {
  }

  lemma {:induction false} LookupPatch(older: seq<Module>, newer: seq<Module>, i: nat)
    requires Numbered(newer)
    ensures Lookup(Patch(older, newer), i + 1) == Fresh(older, newer, i)
  {
    if newer != [] {
      var n := |newer| - 1;
      assert newer[n].number == n + 1;
      LookupPatch(older, newer[..n], i);
      FreshStep(older, newer, i);
      LookupStep(Patch(older, newer[..n]), Patch(older, newer), newer[n], Matched(newer[n], older), i + 1);
    }
  }

  lemma LookupStep(before: seq<Module>, after: seq<Module>, last: Module, matched: bool, number: nat)
    requires after == before + (if matched then [] else [last])
    ensures Lookup(after, number)
            == if !matched && last.number == number then Some(last) else Lookup(before, number)
  {
    if matched {
      assert after == before;
    } else {
      LookupLast(before, last, number);
    }
  }

  lemma LookupLast(modules: seq<Module>, last: Module, number: nat)
    ensures Lookup(modules + [last], number) == if last.number == number then Some(last) else Lookup(modules, number)
  {
    assert (modules + [last])[..|modules|] == modules;
  }

  /** In two numbered files a module is matched exactly by the one in its own place. */
  lemma MatchedInPlace(older: seq<Module>, newer: seq<Module>, i: nat)
    requires InSequence(older) && InSequence(newer) && i < |newer|
    ensures Matched(newer[i], older) <==> i < |older| && Strip(older[i].sqls) == Strip(newer[i].sqls)
  {
    if i < |older| && Strip(older[i].sqls) == Strip(newer[i].sqls) {
      assert IsSame(older[i], newer[i]);
    }
  }

  lemma OverlayAt(older: seq<Module>, patch: seq<Module>, size: nat, i: nat, changed: Option<Module>)
    requires i < size && Lookup(patch, i + 1) == changed
    ensures Overlay(older, patch, size)[i]
            == if changed.Some? then changed else if i < |older| then Some(older[i]) else None
  {
  }

  /** Whether module `i` is new or has another text. */
  predicate HasChanged(older: seq<Module>, newer: seq<Module>, i: nat)
    requires i < |newer|
  {
    i >= |older| || Strip(older[i].sqls) != Strip(newer[i].sqls)
  }

  /** `picked` are the places of the changed modules, in ascending order. */
  ghost predicate PicksChanged(older: seq<Module>, newer: seq<Module>, picked: seq<nat>) {
    (forall k :: 0 <= k < |picked| ==> picked[k] < |newer| && HasChanged(older, newer, picked[k]))
    && (forall j, k :: 0 <= j < k < |picked| ==> picked[j] < picked[k])
    && forall i: nat :: i < |newer| && HasChanged(older, newer, i) ==> i in picked
  }

  /** The places of the modules that no old one matches. */
  function Unmatched(older: seq<Module>, newer: seq<Module>): (picked: seq<nat>)
    ensures forall k :: 0 <= k < |picked| ==> picked[k] < |newer| && !Matched(newer[picked[k]], older)
    ensures forall j, k :: 0 <= j < k < |picked| ==> picked[j] < picked[k]
    ensures forall i: nat :: i < |newer| && !Matched(newer[i], older) ==> i in picked
  {
    if newer == [] then []
    else
      var n := |newer| - 1;
      Unmatched(older, newer[..n]) + (if Matched(newer[n], older) then [] else [n])
  }

  function At(newer: seq<Module>, picked: seq<nat>): (r: seq<Module>)
    requires forall k :: 0 <= k < |picked| ==> picked[k] < |newer|
    ensures |r| == |picked| && forall k :: 0 <= k < |r| ==> r[k] == newer[picked[k]]
  {
    seq(|picked|, k requires 0 <= k < |picked| => newer[picked[k]])
  }

  lemma AtPrefix(newer: seq<Module>, n: nat, picked: seq<nat>)
    requires n < |newer| && forall k :: 0 <= k < |picked| ==> picked[k] < n
    ensures At(newer[..n], picked) == At(newer, picked)
    ensures At(newer, picked + [n]) == At(newer, picked) + [newer[n]]
  {
  }

  lemma {:induction false} PatchInOrder(older: seq<Module>, newer: seq<Module>)
    ensures Patch(older, newer) == At(newer, Unmatched(older, newer))
  {
    if newer != [] {
      var n := |newer| - 1;
      PatchInOrder(older, newer[..n]);
      AtPrefix(newer, n, Unmatched(older, newer[..n]));
      assert Unmatched(older, newer[..n]) + [] == Unmatched(older, newer[..n]);
    }
  }

  /** PATCH.  Overlaying the patch on the old file gives the new file, module by module
      up to outer blanks, and the patch is the modules that are new or have another text,
      each once and in the order of the new file. */
  lemma PatchMakesNew(older: seq<Module>, newer: seq<Module>) returns (picked: seq<nat>)
    requires InSequence(older) && InSequence(newer) && |older| <= |newer|
    ensures forall i :: 0 <= i < |newer| ==>
              var made := Overlay(older, Patch(older, newer), |newer|)[i];
              made.Some? && IsSame(made.value, newer[i])
    ensures PicksChanged(older, newer, picked) && Patch(older, newer) == At(newer, picked)
  {
    picked := Unmatched(older, newer);
    PatchInOrder(older, newer);
    forall i: nat | i < |newer|
      ensures Matched(newer[i], older) <==> !HasChanged(older, newer, i)
    {
      MatchedInPlace(older, newer, i);
    }
    forall i | 0 <= i < |newer|
      ensures var made := Overlay(older, Patch(older, newer), |newer|)[i];
              made.Some? && IsSame(made.value, newer[i])
    {
      LookupPatch(older, newer, i);
      OverlayAt(older, Patch(older, newer), |newer|, i, Fresh(older, newer, i));
      MatchedInPlace(older, newer, i);
    }
  }
}
