/** Finding the page that a damaged heap page should be replaced by in its chain, by
    one pass over the text dump of a data file (find_next_page.py). */
module PageFinder {

  type PageId = string
  const NO_PAGE: PageId := "0-0"
  const PCR_HEAP := "pcr_heap"

  /** A line of the dump, as the scanners see it. */
  datatype Line =
    | Start
    | Head(id: PageId, kind: string, damage: string)
    | Tail(checksum: string)
    | Next(next: PageId)
    | Other

  // ------------------------------------------------------------------- parsed pages

  datatype Page = Page(id: PageId, kind: string, intact: bool, nexts: seq<PageId>)

  /** A page head is followed by a filler line and the tail line that holds its
      checksum, and the page ends before the next head. */
  predicate WellFormed(lines: seq<Line>) {
    forall k :: 0 <= k < |lines| && lines[k].Head? ==> ShapedAt(lines, k)
  }

  /** A page begins at line `k`: its head, a line between, its tail, and no other head
      before the next page. */
  predicate ShapedAt(lines: seq<Line>, k: nat) {
    k + 2 < |lines| && lines[k].Head? && lines[k + 1].Other? && lines[k + 2].Tail? && NoHead(lines, k + 1, End(lines, k + 1))
  }

  predicate NoHead(lines: seq<Line>, a: nat, b: nat) {
    forall k :: a <= k < b && k < |lines| ==> !lines[k].Head?
  }

  /** The first Start at or after `n`, or the end of the dump. */
  function End(lines: seq<Line>, n: nat): (e: nat)
    requires n <= |lines|
    ensures n <= e <= |lines| && (e == |lines| || lines[e].Start?)
    ensures forall k :: n <= k < e ==> !lines[k].Start?
    decreases |lines| - n
  {
    if n == |lines| || lines[n].Start? then n else End(lines, n + 1)
  }

  function NextsIn(lines: seq<Line>, a: nat, b: nat): seq<PageId>
    requires a <= b <= |lines|
    decreases b - a
  {
    if a == b then []
    else (if lines[a].Next? then [lines[a].next] else []) + NextsIn(lines, a + 1, b)
  }

  function PageAt(lines: seq<Line>, k: nat): Page
    requires k + 2 < |lines| && lines[k].Head? && lines[k + 2].Tail?
  {
    Page(lines[k].id, lines[k].kind, lines[k].damage == "0" && lines[k + 2].checksum == "success",
         NextsIn(lines, k + 1, End(lines, k + 1)))
  }

  /** The pages whose head stands at or after line `n`. */
  function PagesFrom(lines: seq<Line>, n: nat): seq<Page>
    requires WellFormed(lines) && n <= |lines|
    decreases |lines| - n
  {
    if n == |lines| then []
    else if lines[n].Head? then [PageAt(lines, n)] + PagesFrom(lines, End(lines, n + 1))
    else PagesFrom(lines, n + 1)
  }

  // ------------------------------------------------------------ a fold over pages

  datatype Search = Search(prev: PageId, correct: PageId, target: PageId)

  function Step(s: Search, p: Page): Search {
    if s.correct != NO_PAGE then s
    else if s.prev == NO_PAGE then
      if p.kind == PCR_HEAP && p.intact && s.target in p.nexts then s.(prev := p.id) else s
    else if p.id != s.target then s
    else if p.intact then s.(correct := p.id)
    else if p.nexts != [] then s.(target := p.nexts[0])
    else s
  }

  function Fold(s: Search, pages: seq<Page>): Search
    decreases |pages|
  {
    if pages == [] then s else Fold(Step(s, pages[0]), pages[1..])
  }

  // -------------------------------------------------------------- facts about lines

  lemma {:induction false} SkipToEnd(lines: seq<Line>, n: nat, e: nat)
    requires WellFormed(lines) && n <= e <= |lines| && NoHead(lines, n, e)
    ensures PagesFrom(lines, n) == PagesFrom(lines, e)
    decreases e - n
  {
    if n < e {
      SkipToEnd(lines, n + 1, e);
    }
  }

  lemma {:induction false} NextsSplit(lines: seq<Line>, a: nat, mid: nat, b: nat)
    requires a <= mid <= b <= |lines|
    ensures NextsIn(lines, a, b) == NextsIn(lines, a, mid) + NextsIn(lines, mid, b)
    decreases mid - a
  {
    if a < mid {
      NextsSplit(lines, a + 1, mid, b);
    }
  }

  lemma {:induction false} EndFrom(lines: seq<Line>, n: nat, k: nat)
    requires n <= |lines| && n <= k <= End(lines, n)
    ensures End(lines, k) == End(lines, n)
    decreases k - n
  {
    if n < k {
      EndFrom(lines, n + 1, k);
    }
  }

  /** The scan for a link to `wanted` in the page at `head` has come to line `at`. */
  ghost predicate Looking(lines: seq<Line>, head: nat, at: nat, id: PageId, usable: bool, wanted: PageId) {
    ShapedAt(lines, head) && head <= at <= End(lines, head + 1)
    && (at == head ==> !usable)
    && (at > head ==> id == lines[head].id
                      && usable == (PageAt(lines, head).kind == PCR_HEAP && PageAt(lines, head).intact))
    && (at > head && usable ==> wanted !in NextsIn(lines, head + 1, at))
  }

  /** The line of the head, or of the checksum if the cursor went there, is done with. */
  lemma LookedAtHead(lines: seq<Line>, head: nat, at: nat, usable: bool, wanted: PageId)
    requires ShapedAt(lines, head) && (at == head || at == head + 2)
    requires usable == (PageAt(lines, head).kind == PCR_HEAP && PageAt(lines, head).intact)
    ensures !lines[at].Next? && !lines[at].Start? && Looking(lines, head, at + 1, lines[head].id, usable, wanted)
  {
    EndBeyondTail(lines, head);
    HeadHasNoNext(lines, head);
  }

  lemma LookedOn(lines: seq<Line>, head: nat, at: nat, id: PageId, usable: bool, wanted: PageId)
    requires Looking(lines, head, at, id, usable, wanted) && head < at < |lines| && !lines[at].Start?
    requires !(usable && lines[at].Next? && lines[at].next == wanted)
    ensures Looking(lines, head, at + 1, id, usable, wanted)
  {
    NextsSplit(lines, head + 1, at, at + 1);
    assert NextsIn(lines, at + 1, at + 1) == [];
  }

  lemma LookedFound(lines: seq<Line>, head: nat, at: nat, id: PageId, s: Search)
    requires Looking(lines, head, at, id, true, s.target) && head < at < |lines| && s.prev == s.correct == NO_PAGE
    requires lines[at].Next? && lines[at].next == s.target
    ensures Step(s, PageAt(lines, head)) == s.(prev := id) && at < End(lines, head + 1)
  {
    NextsSplit(lines, head + 1, at, End(lines, head + 1));
  }

  lemma LookedInVain(lines: seq<Line>, head: nat, at: nat, id: PageId, usable: bool, s: Search)
    requires Looking(lines, head, at, id, usable, s.target) && s.prev == s.correct == NO_PAGE
    requires head < at && (at == |lines| || lines[at].Start?)
    ensures Step(s, PageAt(lines, head)) == s
  {
  }

  /** The scan that follows `wanted` through the page at `head` has come to line `at`. */
  ghost predicate Following(lines: seq<Line>, head: nat, at: nat, found: bool, wanted: PageId) {
    ShapedAt(lines, head) && head <= at <= End(lines, head + 1)
    && (at == head ==> !found)
    && (at > head ==> found == (lines[head].id == wanted) && (found ==> !PageAt(lines, head).intact))
    && (at > head && found ==> NextsIn(lines, head + 1, at) == [])
  }

  lemma FollowedHead(lines: seq<Line>, head: nat, at: nat, found: bool, wanted: PageId)
    requires ShapedAt(lines, head) && (at == head || at == head + 2)
    requires found == (lines[head].id == wanted) && (found ==> !PageAt(lines, head).intact)
    ensures !lines[at].Next? && !lines[at].Start? && Following(lines, head, at + 1, found, wanted)
  {
    EndBeyondTail(lines, head);
    HeadHasNoNext(lines, head);
  }

  lemma FollowedOn(lines: seq<Line>, head: nat, at: nat, found: bool, wanted: PageId)
    requires Following(lines, head, at, found, wanted) && head < at < |lines| && !lines[at].Start?
    requires !(found && lines[at].Next?)
    ensures Following(lines, head, at + 1, found, wanted)
  {
    if found {
      NoNextYet(lines, head + 1, at);
    }
  }

  lemma FollowedNext(lines: seq<Line>, head: nat, at: nat, s: Search)
    requires Following(lines, head, at, true, s.target) && head < at < |lines| && lines[at].Next?
    requires s.prev != NO_PAGE && s.correct == NO_PAGE
    ensures Step(s, PageAt(lines, head)) == s.(target := lines[at].next) && at < End(lines, head + 1)
  {
    FirstNext(lines, head + 1, at, End(lines, head + 1));
  }

  lemma FollowedInVain(lines: seq<Line>, head: nat, at: nat, found: bool, s: Search)
    requires Following(lines, head, at, found, s.target) && s.prev != NO_PAGE && s.correct == NO_PAGE
    requires head < at && (at == |lines| || lines[at].Start?)
    ensures Step(s, PageAt(lines, head)) == s
  {
  }

  lemma FirstNext(lines: seq<Line>, a: nat, k: nat, e: nat)
    requires a <= k < e <= |lines| && NextsIn(lines, a, k) == [] && lines[k].Next?
    ensures NextsIn(lines, a, e) != [] && NextsIn(lines, a, e)[0] == lines[k].next
  {
    NextsSplit(lines, a, k, e);
  }

  lemma NoNextYet(lines: seq<Line>, a: nat, k: nat)
    requires a <= k < |lines| && NextsIn(lines, a, k) == [] && !lines[k].Next?
    ensures NextsIn(lines, a, k + 1) == []
  {
    NextsSplit(lines, a, k, k + 1);
  }

  lemma OnlyHead(lines: seq<Line>, head: nat, k: nat)
    requires ShapedAt(lines, head) && head <= k < |lines| && lines[k].Head? && k <= End(lines, head + 1)
    ensures k == head
  {
    assert NoHead(lines, head + 1, End(lines, head + 1));
  }

  /** A cursor that has left the head of a page but not the page stands before the rest. */
  lemma PageThenRest(lines: seq<Line>, head: nat, at: nat, s: Search)
    requires WellFormed(lines) && head < at <= |lines| && lines[head].Head? && at <= End(lines, head + 1)
    ensures at < |lines| ==> !lines[at].Head?
    ensures Fold(s, PagesFrom(lines, head)) == Fold(Step(s, PageAt(lines, head)), PagesFrom(lines, at))
  {
    var e := End(lines, head + 1);
    assert NoHead(lines, head + 1, e);
    SkipToEnd(lines, at, e);
    var rest := PagesFrom(lines, e);
    assert ([PageAt(lines, head)] + rest)[1..] == rest;
  }

  // ------------------------------------------------------------------ the scanners

  class Finder {
    const lines: seq<Line>
    var prev: PageId
    var correct: PageId
    var target: PageId
    var lineNum: nat

    constructor (lines: seq<Line>, target: PageId)
      ensures this.lines == lines && State() == Search(NO_PAGE, NO_PAGE, target) && lineNum == 0
    {
      this.lines := lines;
      this.prev, this.correct, this.target, this.lineNum := NO_PAGE, NO_PAGE, target, 0;
    }

    ghost function State(): Search
      reads this
    {
      Search(prev, correct, target)
    }

    /** Reads damage flag and checksum of the page whose head the cursor is on, and
        leaves the cursor on the checksum line if it got that far. */
    method IsIntact() returns (intact: bool)
      requires ShapedAt(lines, lineNum)
      modifies this`lineNum
      ensures lineNum == old(lineNum) + (if lines[old(lineNum)].damage == "0" then 2 else 0) < |lines|
      ensures intact == PageAt(lines, old(lineNum)).intact
    {
      if lines[lineNum].damage == "0" {
        lineNum := lineNum + 2;
        if lines[lineNum].checksum == "success" {
          return true;
        }
      }
      return false;
    }

    /** Looks in the page under the cursor for a link to the wanted page. */
    method HandlePage()
      requires ShapedAt(lines, lineNum)
      requires prev == NO_PAGE && correct == NO_PAGE
      modifies this`lineNum, this`prev
      ensures State() == Step(old(State()), PageAt(lines, old(lineNum)))
      ensures old(lineNum) < lineNum <= End(lines, old(lineNum) + 1)
    {
      ghost var head, was := lineNum, State();
      var id := NO_PAGE;
      var usable := false;
      while lineNum < |lines|
        invariant State() == was && Looking(lines, head, lineNum, id, usable, target)
        decreases |lines| - lineNum
      {
        ghost var top := lineNum;
        if lines[lineNum].Head? {
          OnlyHead(lines, head, lineNum);
          id := lines[lineNum].id;
          if lines[lineNum].kind == PCR_HEAP {
            usable := IsIntact();
          }
          LookedAtHead(lines, head, lineNum, usable, target);
        }
        if usable && lines[lineNum].Next? {
          if lines[lineNum].next == target {
            LookedFound(lines, head, lineNum, id, was);
            prev := id;
            return;
          }
        }
        if lines[lineNum].Start? {
          LookedInVain(lines, head, lineNum, id, usable, was);
          return;
        }
        if top > head {
          LookedOn(lines, head, lineNum, id, usable, target);
        }
        lineNum := lineNum + 1;
      }
      LookedInVain(lines, head, lineNum, id, usable, was);
    }

    /** Follows the wanted page: done if it is intact, else on to the page it names. */
    method HandleBadPage()
      requires ShapedAt(lines, lineNum)
      requires prev != NO_PAGE && correct == NO_PAGE
      modifies this`lineNum, this`correct, this`target
      ensures State() == Step(old(State()), PageAt(lines, old(lineNum)))
      ensures old(lineNum) < lineNum <= End(lines, old(lineNum) + 1)
    {
      ghost var head, was := lineNum, State();
      var found := false;
      while lineNum < |lines|
        invariant State() == was && Following(lines, head, lineNum, found, target)
        decreases |lines| - lineNum
      {
        ghost var top := lineNum;
        if lines[lineNum].Head? && lines[lineNum].id == target {
          OnlyHead(lines, head, lineNum);
          found := true;
          var id := lines[lineNum].id;
          var intact := IsIntact();
          if intact {
            EndBeyondTail(lines, head);
            correct := id;
            return;
          }
        }
        if top == head {
          FollowedHead(lines, head, lineNum, found, target);
        }
        if found && lines[lineNum].Next? {
          FollowedNext(lines, head, lineNum, was);
          target := lines[lineNum].next;
          return;
        }
        if lines[lineNum].Start? {
          FollowedInVain(lines, head, lineNum, found, was);
          return;
        }
        if top > head {
          FollowedOn(lines, head, lineNum, found, target);
        }
        lineNum := lineNum + 1;
      }
      FollowedInVain(lines, head, lineNum, found, was);
    }

    /** The page at the cursor, if one begins there. */
    method VisitLine()
      requires WellFormed(lines) && lineNum < |lines| && correct == NO_PAGE
      modifies this`lineNum, this`prev, this`correct, this`target
      ensures old(lineNum) <= lineNum <= |lines| && (lineNum < |lines| ==> !lines[lineNum].Head?)
      ensures Fold(State(), PagesFrom(lines, lineNum)) == Fold(old(State()), PagesFrom(lines, old(lineNum)))
    {
      if lines[lineNum].Head? {
        ghost var head := lineNum;
        if prev == NO_PAGE {
          HandlePage();
        } else {
          HandleBadPage();
        }
        PageThenRest(lines, head, lineNum, old(State()));
      }
    }

    /** The pass over the dump; the cursor only moves forward, in all three loops. */
    method Get()
      requires WellFormed(lines) && lineNum == 0 && correct == NO_PAGE
      modifies this
      ensures State() == Fold(old(State()), PagesFrom(lines, 0))
    {
      while lineNum < |lines|
        invariant lineNum <= |lines| + 1 && correct == NO_PAGE
        invariant Fold(State(), PagesFrom(lines, if lineNum <= |lines| then lineNum else |lines|))
                  == Fold(old(State()), PagesFrom(lines, 0))
        decreases |lines| - lineNum
      {
        VisitLine();
        if correct != NO_PAGE {
          FoldDone(State(), PagesFrom(lines, lineNum));
          return;
        }
        lineNum := lineNum + 1;
      }
    }
  }

  lemma EndBeyondTail(lines: seq<Line>, k: nat)
    requires ShapedAt(lines, k)
    ensures k + 2 < End(lines, k + 1)
  {
    assert End(lines, k + 1) == End(lines, k + 2) == End(lines, k + 3);
  }

  lemma HeadHasNoNext(lines: seq<Line>, k: nat)
    requires ShapedAt(lines, k)
    ensures NextsIn(lines, k + 1, k + 1) == NextsIn(lines, k + 1, k + 2) == NextsIn(lines, k + 1, k + 3) == []
  {
    NextsSplit(lines, k + 1, k + 2, k + 3);
  }

  lemma {:induction false} FoldDone(s: Search, pages: seq<Page>)
    requires s.correct != NO_PAGE
    ensures Fold(s, pages) == s
    decreases |pages|
  {
    if pages != [] {
      FoldDone(s, pages[1..]);
    }
  }

  // ------------------------------------------------------- what a suggestion means

  /** Pages at ascending positions from `n` on, the first called `id`, all damaged but
      the last, and each naming the one after it as its next. */
  ghost predicate Chain(pages: seq<Page>, n: nat, id: PageId, at: seq<nat>)
    decreases |at|
  {
    |at| > 0 && n <= at[0] && at[0] < |pages| && pages[at[0]].id == id
    && if |at| == 1 then pages[at[0]].intact
       else !pages[at[0]].intact && pages[at[0]].nexts != []
            && Chain(pages, at[0] + 1, pages[at[0]].nexts[0], at[1..])
  }

  ghost predicate LinksTo(p: Page, id: PageId) {
    p.kind == PCR_HEAP && p.intact && id in p.nexts
  }

  /** An intact heap page that links to the wanted page, and after it in the dump a
      chain of damaged pages from the wanted page to an intact one. */
  ghost predicate Repair(pages: seq<Page>, wanted: PageId, prev: PageId, correct: PageId, from: nat, at: seq<nat>) {
    from < |pages| && LinksTo(pages[from], wanted) && pages[from].id == prev
    && Chain(pages, from + 1, wanted, at) && LastId(pages, at) == correct
  }

  function LastId(pages: seq<Page>, at: seq<nat>): PageId {
    if |at| > 0 && at[|at| - 1] < |pages| then pages[at[|at| - 1]].id else NO_PAGE
  }

  lemma {:induction false} FollowSound(pages: seq<Page>, n: nat, s: Search) returns (at: seq<nat>)
    requires n <= |pages| && s.prev != NO_PAGE && s.correct == NO_PAGE
    requires Fold(s, pages[n..]).correct != NO_PAGE
    ensures var r := Fold(s, pages[n..]);
            Chain(pages, n, s.target, at) && LastId(pages, at) == r.correct == r.target && r.prev == s.prev
    decreases |pages| - n
  {
    if n == |pages| {
      assert false;
    } else {
      var p := pages[n];
      assert pages[n..][1..] == pages[n + 1..];
      var next := Step(s, p);
      if next.correct != NO_PAGE {
        FoldDone(next, pages[n + 1..]);
        at := [n];
      } else {
        at := FollowSound(pages, n + 1, next);
        if next.target != s.target || (p.id == s.target && !p.intact && p.nexts != []) {
          assert ([n] + at)[1..] == at;
          at := [n] + at;
        }
      }
    }
  }

  lemma {:induction false} SearchSound(pages: seq<Page>, n: nat, wanted: PageId) returns (from: nat, at: seq<nat>)
    requires n <= |pages|
    requires Fold(Search(NO_PAGE, NO_PAGE, wanted), pages[n..]).correct != NO_PAGE
    ensures var r := Fold(Search(NO_PAGE, NO_PAGE, wanted), pages[n..]);
            n <= from && Repair(pages, wanted, r.prev, r.correct, from, at) && r.target == r.correct
    decreases |pages| - n
  {
    if n == |pages| {
      assert false;
    } else {
      assert pages[n..][1..] == pages[n + 1..];
      var next := Step(Search(NO_PAGE, NO_PAGE, wanted), pages[n]);
      if next.prev != NO_PAGE {
        from := n;
        at := FollowSound(pages, n + 1, next);
      } else {
        from, at := SearchSound(pages, n + 1, wanted);
      }
    }
  }

  predicate DistinctIds(pages: seq<Page>) {
    (forall i, j :: 0 <= i < j < |pages| ==> pages[i].id != pages[j].id)
    && forall i :: 0 <= i < |pages| ==> pages[i].id != NO_PAGE
  }

  lemma {:induction false} FollowComplete(pages: seq<Page>, n: nat, s: Search, at: seq<nat>)
    requires DistinctIds(pages) && n <= |pages| && s.prev != NO_PAGE && s.correct == NO_PAGE
    requires Chain(pages, n, s.target, at)
    ensures Fold(s, pages[n..]).correct == LastId(pages, at) != NO_PAGE
    decreases |pages| - n
  {
    assert pages[n..][1..] == pages[n + 1..];
    var next := Step(s, pages[n]);
    if n < at[0] {
      FollowComplete(pages, n + 1, s, at);
    } else if |at| == 1 {
      FoldDone(next, pages[n + 1..]);
    } else {
      FollowComplete(pages, n + 1, next, at[1..]);
    }
  }

  lemma {:induction false} SearchComplete(pages: seq<Page>, n: nat, wanted: PageId, from: nat, at: seq<nat>)
    requires DistinctIds(pages) && n <= from < |pages| && LinksTo(pages[from], wanted)
    requires Chain(pages, from + 1, wanted, at)
    ensures Fold(Search(NO_PAGE, NO_PAGE, wanted), pages[n..]).correct == LastId(pages, at) != NO_PAGE
    decreases |pages| - n
  {
    assert pages[n..][1..] == pages[n + 1..];
    var s := Search(NO_PAGE, NO_PAGE, wanted);
    if LinksTo(pages[n], wanted) {
      FollowComplete(pages, n + 1, Step(s, pages[n]), at);
    } else {
      SearchComplete(pages, n + 1, wanted, from, at);
    }
  }

  /** A repair is suggested exactly when the dump holds one.  That a suggestion is
      sound needs nothing; that none is missed needs that no page is dumped twice and
      none is called 0-0.  The suggested page is then the only candidate. */
  lemma FinderMeaning(lines: seq<Line>, wanted: PageId)
    requires WellFormed(lines)
    ensures var pages := PagesFrom(lines, 0);
            var r := Fold(Search(NO_PAGE, NO_PAGE, wanted), pages);
            (r.correct != NO_PAGE ==>
               r.target == r.correct && exists from, at :: Repair(pages, wanted, r.prev, r.correct, from, at))
            && (DistinctIds(pages) ==>
                  forall prev, correct, from, at :: Repair(pages, wanted, prev, correct, from, at) ==>
                    r.correct == correct != NO_PAGE)
  {
    var pages := PagesFrom(lines, 0);
    var r := Fold(Search(NO_PAGE, NO_PAGE, wanted), pages);
    assert pages[0..] == pages;
    if r.correct != NO_PAGE {
      var from, at := SearchSound(pages, 0, wanted);
    }
    if DistinctIds(pages) {
      forall prev, correct, from, at | Repair(pages, wanted, prev, correct, from, at)
        ensures r.correct == correct != NO_PAGE
      {
        SearchComplete(pages, 0, wanted, from, at);
      }
    }
  }
}
