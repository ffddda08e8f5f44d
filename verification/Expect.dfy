/** Waiting for a child process to print one of several patterns (classes
    RESearcher and Execution of funclib.py).  The regular-expression engine is a
    parameter, and so is what the child prints: a list of read results. */
module Expect {
  import opened Wrappers

  type Bytes = seq<bv8>

  datatype Pattern = Regex(id: nat) | EofPattern | TimeoutPattern
  datatype Span = Span(start: nat, end: nat)
  type Engine = (nat, Bytes) -> Option<Span>

  ghost predicate Sane(find: Engine) {
    forall r, b :: find(r, b).Some? ==> find(r, b).value.start <= find(r, b).value.end <= |b|
  }

  datatype Match = Match(index: nat, span: Span)

  /** The match that a left-to-right pass over the first `n` patterns keeps. */
  function Best(patterns: seq<Pattern>, find: Engine, content: Bytes, n: nat): Option<Match>
    requires n <= |patterns|
  {
    if n == 0 then None
    else
      var best := Best(patterns, find, content, n - 1);
      match patterns[n - 1]
      case EofPattern => best
      case TimeoutPattern => best
      case Regex(r) =>
        match find(r, content)
        case None => best
        case Some(s) => if best.None? || s.start < best.value.span.start then Some(Match(n - 1, s)) else best
  }

  function Search(patterns: seq<Pattern>, find: Engine, content: Bytes): Option<Match> {
    Best(patterns, find, content, |patterns|)
  }

  ghost predicate Hits(patterns: seq<Pattern>, find: Engine, content: Bytes, k: nat, s: Span) {
    k < |patterns| && patterns[k].Regex? && find(patterns[k].id, content) == Some(s)
  }

  /** `m` is a leftmost match, and the first in the caller's list among those. */
  ghost predicate Leftmost(patterns: seq<Pattern>, find: Engine, content: Bytes, m: Match, n: nat) {
    m.index < n && Hits(patterns, find, content, m.index, m.span)
    && forall k: nat, s :: k < n && Hits(patterns, find, content, k, s) ==>
         m.span.start <= s.start && (m.span.start == s.start ==> m.index <= k)
  }

  /** The pass finds nothing exactly when no pattern matches, and otherwise the
      leftmost match, ties going to the lowest index. */
  lemma {:induction false} BestIsLeftmost(patterns: seq<Pattern>, find: Engine, content: Bytes, n: nat)
    requires n <= |patterns|
    ensures match Best(patterns, find, content, n)
            case None => forall k: nat, s :: k < n ==> !Hits(patterns, find, content, k, s)
            case Some(m) => Leftmost(patterns, find, content, m, n)
  {
    if n > 0 {
      BestIsLeftmost(patterns, find, content, n - 1);
    }
  }

  function LastIndex(patterns: seq<Pattern>, p: Pattern, n: nat): Option<nat>
    requires n <= |patterns|
  {
    if n == 0 then None else if patterns[n - 1] == p then Some(n - 1) else LastIndex(patterns, p, n - 1)
  }

  /** The patterns to search for, with their places in the caller's list. */
  function Searches(patterns: seq<Pattern>, n: nat): seq<(nat, nat)>
    requires n <= |patterns|
  {
    if n == 0 then []
    else Searches(patterns, n - 1) + (if patterns[n - 1].Regex? then [(n - 1, patterns[n - 1].id)] else [])
  }

  class Searcher {
    ghost const patterns: seq<Pattern>
    var eofIndex: Option<nat>
    var timeoutIndex: Option<nat>
    var searches: seq<(nat, nat)>
    var start: nat
    var end: nat

    ghost predicate Valid()
      reads this
    {
      searches == Searches(patterns, |patterns|)
      && eofIndex == LastIndex(patterns, EofPattern, |patterns|)
      && timeoutIndex == LastIndex(patterns, TimeoutPattern, |patterns|)
    }

    constructor (patternList: seq<Pattern>)
      ensures Valid() && patterns == patternList
    {
      patterns := patternList;
      eofIndex, timeoutIndex, searches, start, end := None, None, [], 0, 0;
      new;
      for index := 0 to |patternList|
        invariant searches == Searches(patternList, index)
        invariant eofIndex == LastIndex(patternList, EofPattern, index)
        invariant timeoutIndex == LastIndex(patternList, TimeoutPattern, index)
      {
        match patternList[index]
        case EofPattern => eofIndex := Some(index);
        case TimeoutPattern => timeoutIndex := Some(index);
        case Regex(id) => searches := searches + [(index, id)];
      }
    }

    method Find(find: Engine, content: Bytes) returns (index: Option<nat>)
      requires Valid()
      modifies this`start, this`end
      ensures match Search(patterns, find, content)
              case None => index == None
              case Some(m) => index == Some(m.index) && start == m.span.start && end == m.span.end
    {
      var best: Option<Match> := None;
      for i := 0 to |searches|
        invariant searches == Searches(patterns, |patterns|)
        invariant best == BestListed(searches[..i], find, content)
      {
        var (k, r) := searches[i];
        assert searches[..i + 1][..i] == searches[..i];
        match find(r, content)
        case None =>
        case Some(s) =>
          if best.None? || s.start < best.value.span.start {
            best := Some(Match(k, s));
          }
      }
      assert searches[..|searches|] == searches;
      ListedIsBest(patterns, find, content, |patterns|);
      if best.None? {
        return None;
      }
      start := best.value.span.start;
      end := best.value.span.end;
      return Some(best.value.index);
    }
  }

  function BestListed(searches: seq<(nat, nat)>, find: Engine, content: Bytes): Option<Match> {
    if searches == [] then None
    else
      var n := |searches| - 1;
      var best := BestListed(searches[..n], find, content);
      match find(searches[n].1, content)
      case None => best
      case Some(s) => if best.None? || s.start < best.value.span.start then Some(Match(searches[n].0, s)) else best
  }

  lemma {:induction false} ListedIsBest(patterns: seq<Pattern>, find: Engine, content: Bytes, n: nat)
    requires n <= |patterns|
    ensures BestListed(Searches(patterns, n), find, content) == Best(patterns, find, content, n)
  {
    if n > 0 {
      ListedIsBest(patterns, find, content, n - 1);
      if patterns[n - 1].Regex? {
        assert Searches(patterns, n)[..|Searches(patterns, n)| - 1] == Searches(patterns, n - 1);
      } else {
        assert Searches(patterns, n) == Searches(patterns, n - 1);
      }
    }
  }

  // ------------------------------------------------------------------- one call

  /** The result of one read: bytes (and whether the time is up after them), the end
      of the output, silence until the time is up, or any other exception. */
  datatype Event = Data(bytes: Bytes, late: bool) | Eof | Silence | Failure

  datatype Ending =
    | Matched(index: nat, before: Bytes, after: Bytes)
    | AtEof(before: Bytes)
    | AtTimeout(before: Bytes)
    | Failed(before: Bytes)

  /** How a call ends, the buffer it leaves, what it read and what is still to come. */
  datatype Outcome = Outcome(ending: Ending, buffer: Bytes, read: Bytes, rest: seq<Event>)

  /** A call that has read `read` since it started with `buffer`.  When nothing more is
      listed the output is at its end. */
  function Await(patterns: seq<Pattern>, find: Engine, buffer: Bytes, read: Bytes, late: bool, events: seq<Event>): Outcome
    requires Sane(find)
    decreases |events|
  {
    var seen := buffer + read;
    match Search(patterns, find, seen)
    case Some(m) =>
      SearchInRange(patterns, find, seen);
      Outcome(Matched(m.index, seen[..m.span.start], seen[m.span.start..m.span.end]), seen[m.span.end..], read, events)
    case None =>
      if late then Outcome(AtTimeout(seen), seen, read, events)
      else if events == [] then Outcome(AtEof(seen), [], read, [])
      else match events[0]
        case Data(bytes, up) => Await(patterns, find, buffer, read + bytes, up, events[1..])
        case Eof => Outcome(AtEof(seen), [], read, events[1..])
        case Silence => Outcome(AtTimeout(seen), seen, read, events[1..])
        case Failure => Outcome(Failed(seen), buffer, read, events[1..])
  }

  lemma SearchInRange(patterns: seq<Pattern>, find: Engine, content: Bytes)
    requires Sane(find) && Search(patterns, find, content).Some?
    ensures var m := Search(patterns, find, content).value;
            m.index < |patterns| && m.span.start <= m.span.end <= |content|
  {
    BestIsLeftmost(patterns, find, content, |patterns|);
  }

  datatype After = Nothing | Text(bytes: Bytes) | EofMark | TimeoutMark

  class Execution {
    var buffer: Bytes
    var before: Bytes
    var after: After
    var matchIndex: Option<nat>
    var input: seq<Event>

    constructor (input: seq<Event>)
      ensures buffer == [] && before == [] && after == Nothing && matchIndex == None && this.input == input
    {
      buffer, before, after, matchIndex, this.input := [], [], Nothing, None, input;
    }

    /** Reads until a pattern matches.  `raised` tells whether the call ends in an
        exception: at the end of the output or of the time without a pattern for it,
        and on any other exception. */
    method LoopExpect(searcher: Searcher, find: Engine, expired: bool) returns (raised: bool)
      requires Sane(find) && searcher.Valid()
      modifies this, searcher`start, searcher`end
      ensures var out := Await(searcher.patterns, find, old(buffer), [], expired, old(input));
              buffer == out.buffer && input == out.rest
              && match out.ending
                 case Matched(index, b, a) => !raised && matchIndex == Some(index) && before == b && after == Text(a)
                 case AtEof(b) => before == b && after == EofMark && matchIndex == searcher.eofIndex
                                  && raised == searcher.eofIndex.None?
                 case AtTimeout(b) => before == b && after == TimeoutMark && matchIndex == searcher.timeoutIndex
                                      && raised == searcher.timeoutIndex.None?
                 case Failed(b) => before == b && after == Nothing && matchIndex == None && raised
    {
      var seen := buffer;
      ghost var read: Bytes := [];
      var late := expired;
      assert buffer + read == buffer;
      while true
        invariant buffer == old(buffer) && seen == buffer + read
        invariant searcher.Valid()
        invariant Await(searcher.patterns, find, old(buffer), [], expired, old(input))
                  == Await(searcher.patterns, find, old(buffer), read, late, input)
        decreases |input|
      {
        var index := searcher.Find(find, seen);
        if index.Some? {
          SearchInRange(searcher.patterns, find, seen);
          buffer := seen[searcher.end..];
          before := seen[..searcher.start];
          after := Text(seen[searcher.start..searcher.end]);
          matchIndex := index;
          return false;
        }
        if late {
          Stop(seen, seen, TimeoutMark, searcher.timeoutIndex);
          return searcher.timeoutIndex.None?;
        }
        if input == [] {
          Stop([], seen, EofMark, searcher.eofIndex);
          return searcher.eofIndex.None?;
        }
        var event := input[0];
        input := input[1..];
        match event
        case Data(bytes, up) =>
          assert buffer + (read + bytes) == seen + bytes;
          seen := seen + bytes;
          read := read + bytes;
          late := up;
        case Eof =>
          Stop([], seen, EofMark, searcher.eofIndex);
          return searcher.eofIndex.None?;
        case Silence =>
          Stop(seen, seen, TimeoutMark, searcher.timeoutIndex);
          return searcher.timeoutIndex.None?;
        case Failure =>
          Stop(buffer, seen, Nothing, None);
          return true;
      }
    }

    method Stop(left: Bytes, handed: Bytes, mark: After, index: Option<nat>)
      modifies this`buffer, this`before, this`after, this`matchIndex
      ensures buffer == left && before == handed && after == mark && matchIndex == index
    {
      buffer, before, after, matchIndex := left, handed, mark, index;
    }
  }

  // ---------------------------------------------------- what a call has looked at

  function BytesOf(events: seq<Event>): Bytes
    decreases |events|
  {
    if events == [] then []
    else (if events[0].Data? then events[0].bytes else []) + BytesOf(events[1..])
  }

  /** The reads of a call are a prefix of the events; a call that matches has found no
      pattern in any earlier state of its buffer, and what it hands over is the best
      match in the state it stopped in. */
  lemma {:induction false} AwaitStops(patterns: seq<Pattern>, find: Engine, buffer: Bytes, read: Bytes, late: bool,
                                      events: seq<Event>)
    returns (used: nat)
    requires Sane(find)
    ensures var out := Await(patterns, find, buffer, read, late, events);
            used <= |events| && out.rest == events[used..] && out.read == read + BytesOf(events[..used])
            && (out.ending.Matched? ==>
                  (forall j :: 0 <= j < used ==> Search(patterns, find, buffer + read + BytesOf(events[..j])).None?)
                  && var seen := buffer + out.read;
                     seen == out.ending.before + out.ending.after + out.buffer
                     && Leftmost(patterns, find, seen,
                                 Match(out.ending.index, Span(|out.ending.before|, |out.ending.before + out.ending.after|)),
                                 |patterns|))
    decreases |events|
  {
    var seen := buffer + read;
    BestIsLeftmost(patterns, find, seen, |patterns|);
    assert BytesOf(events[..0]) == [];
    assert read + [] == read && seen + [] == seen;
    if Search(patterns, find, seen).Some? || late || events == [] {
      used := 0;
    } else if events[0].Data? {
      var rest := AwaitStops(patterns, find, buffer, read + events[0].bytes, events[0].late, events[1..]);
      used := rest + 1;
      assert events[1..][rest..] == events[used..];
      BytesOfPrefix(events, rest);
      forall j | 0 <= j < used
        ensures Await(patterns, find, buffer, read, late, events).ending.Matched? ==>
                  Search(patterns, find, buffer + read + BytesOf(events[..j])).None?
      {
        if j > 0 {
          BytesOfPrefix(events, j - 1);
          assert buffer + (read + events[0].bytes) + BytesOf(events[1..][..j - 1]) == buffer + read + BytesOf(events[..j]);
        }
      }
      assert read + events[0].bytes + BytesOf(events[1..][..rest]) == read + BytesOf(events[..used]);
    } else {
      used := 1;
      assert events[..1][1..] == [];
      assert BytesOf(events[..1]) == [];
    }
  }

  lemma BytesOfPrefix(events: seq<Event>, n: nat)
    requires events != [] && n < |events| && events[0].Data?
    ensures BytesOf(events[..n + 1]) == events[0].bytes + BytesOf(events[1..][..n])
  {
    assert events[..n + 1][1..] == events[1..][..n];
  }

  // ------------------------------------------------------------------ whole sessions

  /** One call of a session: its pattern list, and whether its time is already up. */
  datatype Call = Call(patterns: seq<Pattern>, expired: bool)

  datatype Session = Session(log: seq<Outcome>, buffer: Bytes, events: seq<Event>)

  function Talk(find: Engine, calls: seq<Call>, buffer: Bytes, events: seq<Event>): Session
    requires Sane(find)
    decreases |calls|
  {
    if calls == [] then Session([], buffer, events)
    else
      var out := Await(calls[0].patterns, find, buffer, [], calls[0].expired, events);
      var rest := Talk(find, calls[1..], out.buffer, out.rest);
      rest.(log := [out] + rest.log)
  }

  /** What a call hands to its caller for good: a timeout hands over nothing, since the
      bytes it shows stay in the buffer. */
  function HandedOver(out: Outcome): Bytes {
    match out.ending
    case Matched(_, before, after) => before + after
    case AtEof(before) => before
    case AtTimeout(_) => []
    case Failed(_) => []
  }

  function Delivered(log: seq<Outcome>): Bytes
    decreases |log|
  {
    if log == [] then [] else HandedOver(log[0]) + Delivered(log[1..])
  }

  function AllRead(log: seq<Outcome>): Bytes
    decreases |log|
  {
    if log == [] then [] else log[0].read + AllRead(log[1..])
  }

  /** What was read by calls that did not fail. */
  function Kept(log: seq<Outcome>): Bytes
    decreases |log|
  {
    if log == [] then [] else (if log[0].ending.Failed? then [] else log[0].read) + Kept(log[1..])
  }

  /** No call failed after it had read something. */
  predicate FailsEmpty(log: seq<Outcome>) {
    forall i :: 0 <= i < |log| && log[i].ending.Failed? ==> log[i].read == []
  }

  lemma {:induction false} OneCallConserves(patterns: seq<Pattern>, find: Engine, buffer: Bytes, read: Bytes,
                                            late: bool, events: seq<Event>)
    requires Sane(find)
    ensures var out := Await(patterns, find, buffer, read, late, events);
            if out.ending.Failed? then out.buffer == buffer
            else HandedOver(out) + out.buffer == buffer + out.read
    ensures var out := Await(patterns, find, buffer, read, late, events);
            out.ending.AtEof? ==> out.buffer == []
    decreases |events|
  {
    var seen := buffer + read;
    var found := Search(patterns, find, seen);
    if found.Some? {
      SearchInRange(patterns, find, seen);
      var s := found.value.span;
      assert seen[..s.start] + seen[s.start..s.end] + seen[s.end..] == seen;
    } else if !late && events != [] && events[0].Data? {
      OneCallConserves(patterns, find, buffer, read + events[0].bytes, events[0].late, events[1..]);
    }
  }

  lemma {:induction false} KeptConserves(find: Engine, calls: seq<Call>, buffer: Bytes, events: seq<Event>)
    requires Sane(find)
    ensures var s := Talk(find, calls, buffer, events);
            Delivered(s.log) + s.buffer == buffer + Kept(s.log)
    decreases |calls|
  {
    if calls == [] {
      assert buffer + [] == buffer;
    } else {
      var out := Await(calls[0].patterns, find, buffer, [], calls[0].expired, events);
      OneCallConserves(calls[0].patterns, find, buffer, [], calls[0].expired, events);
      KeptConserves(find, calls[1..], out.buffer, out.rest);
      var rest := Talk(find, calls[1..], out.buffer, out.rest);
      var s := Talk(find, calls, buffer, events);
      assert s.log[1..] == rest.log;
      calc {
        Delivered(s.log) + s.buffer;
        (HandedOver(out) + Delivered(rest.log)) + rest.buffer;
        { Assoc(HandedOver(out), Delivered(rest.log), rest.buffer); }
        HandedOver(out) + (out.buffer + Kept(rest.log));
        { Assoc(HandedOver(out), out.buffer, Kept(rest.log)); }
        (HandedOver(out) + out.buffer) + Kept(rest.log);
        { if out.ending.Failed? {
            assert HandedOver(out) + out.buffer == buffer;
            assert Kept(s.log) == [] + Kept(rest.log) == Kept(rest.log);
          } else {
            Assoc(buffer, out.read, Kept(rest.log));
          } }
        buffer + Kept(s.log);
      }
    }
  }

  lemma Assoc(a: Bytes, b: Bytes, c: Bytes)
    ensures (a + b) + c == a + (b + c)
  {
  }

  lemma {:induction false} ReadIsInput(find: Engine, calls: seq<Call>, buffer: Bytes, events: seq<Event>)
    returns (used: nat)
    requires Sane(find)
    ensures var s := Talk(find, calls, buffer, events);
            used <= |events| && s.events == events[used..] && AllRead(s.log) == BytesOf(events[..used])
    decreases |calls|
  {
    used := 0;
    if calls == [] {
      assert events[..0] == [];
    } else {
      var out := Await(calls[0].patterns, find, buffer, [], calls[0].expired, events);
      var first := AwaitUses(calls[0].patterns, find, buffer, calls[0].expired, events);
      var rest := ReadIsInput(find, calls[1..], out.buffer, out.rest);
      used := first + rest;
      var s := Talk(find, calls, buffer, events);
      assert s.log[1..] == Talk(find, calls[1..], out.buffer, out.rest).log;
      TwoStretches(events, first, rest);
    }
  }

  lemma AwaitUses(patterns: seq<Pattern>, find: Engine, buffer: Bytes, late: bool, events: seq<Event>) returns (used: nat)
    requires Sane(find)
    ensures var out := Await(patterns, find, buffer, [], late, events);
            used <= |events| && out.rest == events[used..] && out.read == BytesOf(events[..used])
  {
    used := AwaitStops(patterns, find, buffer, [], late, events);
  }

  lemma TwoStretches(events: seq<Event>, first: nat, rest: nat)
    requires first + rest <= |events|
    ensures events[first..][rest..] == events[first + rest..]
    ensures BytesOf(events[..first + rest]) == BytesOf(events[..first]) + BytesOf(events[first..][..rest])
  {
    var both := events[..first + rest];
    BytesOfSplit(both, first);
    assert both[..first] == events[..first] && both[first..] == events[first..][..rest];
  }

  lemma {:induction false} BytesOfSplit(events: seq<Event>, n: nat)
    requires n <= |events|
    ensures BytesOf(events) == BytesOf(events[..n]) + BytesOf(events[n..])
  {
    if n == 0 {
      assert events[..0] == [] && events[0..] == events;
    } else {
      BytesOfSplit(events[1..], n - 1);
      assert events[..n][1..] == events[1..][..n - 1] && events[n..] == events[1..][n - 1..];
      Assoc(if events[0].Data? then events[0].bytes else [], BytesOf(events[1..][..n - 1]), BytesOf(events[n..]));
    }
  }

  lemma {:induction false} KeptLength(log: seq<Outcome>)
    ensures |Kept(log)| <= |AllRead(log)|
    ensures |Kept(log)| == |AllRead(log)| <==> FailsEmpty(log)
    ensures FailsEmpty(log) ==> Kept(log) == AllRead(log)
    decreases |log|
  {
    if log != [] {
      KeptLength(log[1..]);
      assert FailsEmpty(log) <==> (log[0].ending.Failed? ==> log[0].read == []) && FailsEmpty(log[1..]) by {
        assert forall i :: 0 <= i < |log[1..]| ==> log[1..][i] == log[i + 1];
        assert forall i :: 0 < i < |log| ==> log[i] == log[1..][i - 1];
      }
    }
  }

  /** CONSERVATION.  Over any session, what was handed over followed by what is still
      buffered is what was buffered at the start followed by every byte read, exactly
      if no call failed after reading: a failing call leaves the old buffer behind and
      drops what it read. */
  lemma SessionConserves(find: Engine, calls: seq<Call>, buffer: Bytes, events: seq<Event>) returns (used: nat)
    requires Sane(find)
    ensures var s := Talk(find, calls, buffer, events);
            used <= |events| && s.events == events[used..]
            && (Delivered(s.log) + s.buffer == buffer + BytesOf(events[..used]) <==> FailsEmpty(s.log))
  {
    var s := Talk(find, calls, buffer, events);
    used := ReadIsInput(find, calls, buffer, events);
    KeptConserves(find, calls, buffer, events);
    KeptLength(s.log);
    if Delivered(s.log) + s.buffer == buffer + BytesOf(events[..used]) {
      assert |buffer + Kept(s.log)| == |buffer + AllRead(s.log)|;
    }
  }

  // --------------------------------------------------- conservation told by the input

  /** A read that returned in time. */
  predicate InTime(e: Event) {
    e.Data? && !e.late
  }

  /** How many reads in time the input begins with. */
  function Leading(events: seq<Event>): (d: nat)
    ensures d <= |events| && (forall k :: 0 <= k < d ==> InTime(events[k])) && (d < |events| ==> !InTime(events[d]))
    decreases |events|
  {
    if events != [] && InTime(events[0]) then 1 + Leading(events[1..]) else 0
  }

  /** A failure at `j` comes right after reads in time from `i` on, one of which, `k`, brought
      a byte. */
  predicate FailsAfter(events: seq<Event>, i: int, k: int, j: int) {
    0 <= i <= k < j < |events| && events[j].Failure?
    && (forall x :: i <= x < j ==> InTime(events[x])) && events[k].bytes != []
  }

  ghost predicate Risky(events: seq<Event>) {
    exists i, k, j :: FailsAfter(events, i, k, j)
  }

  lemma RiskyLater(events: seq<Event>, n: nat)
    requires n <= |events| && Risky(events[n..])
    ensures Risky(events)
  {
    var i, k, j :| FailsAfter(events[n..], i, k, j);
    assert FailsAfter(events, i + n, k + n, j + n);
  }

  lemma {:induction false} NoBytes(events: seq<Event>, n: nat)
    requires n <= |events| && forall k :: 0 <= k < n ==> events[k].Data? && events[k].bytes == []
    ensures BytesOf(events[..n]) == []
    decreases n
  {
    if n > 0 {
      NoBytes(events[1..], n - 1);
      BytesOfPrefix(events, n - 1);
    } else {
      assert events[..0] == [];
    }
  }

  lemma SomeBytes(events: seq<Event>, n: nat, k: nat)
    requires k < n <= |events| && events[k].Data? && events[k].bytes != []
    ensures BytesOf(events[..n]) != []
  {
    BytesOfSplit(events[..n], k);
    assert events[..n][k..][0] == events[k];
  }

  /** A call that fails has read a stretch of reads in time and then the failure. */
  lemma {:induction false} FailureShape(patterns: seq<Pattern>, find: Engine, buffer: Bytes, read: Bytes, late: bool,
                                        events: seq<Event>)
    requires Sane(find) && Await(patterns, find, buffer, read, late, events).ending.Failed?
    ensures var d := Leading(events);
            d < |events| && events[d].Failure?
            && Await(patterns, find, buffer, read, late, events).read == read + BytesOf(events[..d])
    decreases |events|
  {
    if events[0].Data? {
      FailureShape(patterns, find, buffer, read + events[0].bytes, events[0].late, events[1..]);
      var d := Leading(events[1..]);
      assert InTime(events[0]);
      BytesOfPrefix(events, d);
    } else {
      assert events[..0] == [] && read + [] == read;
    }
  }

  /** Without a risky stretch no failing call has read anything. */
  lemma {:induction false} SafeInput(find: Engine, calls: seq<Call>, buffer: Bytes, events: seq<Event>)
    requires Sane(find) && !Risky(events)
    ensures FailsEmpty(Talk(find, calls, buffer, events).log)
    decreases |calls|
  {
    if calls != [] {
      var c := calls[0];
      var out := Await(c.patterns, find, buffer, [], c.expired, events);
      var used := AwaitUses(c.patterns, find, buffer, c.expired, events);
      if Risky(out.rest) {
        RiskyLater(events, used);
      }
      SafeInput(find, calls[1..], out.buffer, out.rest);
      if out.ending.Failed? {
        FailureShape(c.patterns, find, buffer, [], c.expired, events);
        QuietFailure(events);
        assert out.read == [];
      }
    }
  }

  lemma QuietFailure(events: seq<Event>)
    requires !Risky(events) && Leading(events) < |events| && events[Leading(events)].Failure?
    ensures BytesOf(events[..Leading(events)]) == []
  {
    var d := Leading(events);
    forall k | 0 <= k < d
      ensures events[k].bytes == []
    {
      assert !FailsAfter(events, 0, k, d);
    }
    NoBytes(events, d);
  }

  /** What a call without patterns does: it reads as long as data comes in time. */
  lemma {:induction false} PlainCall(find: Engine, buffer: Bytes, read: Bytes, events: seq<Event>)
    requires Sane(find) && Leading(events) < |events|
    ensures var out, d := Await([], find, buffer, read, false, events), Leading(events);
            out.rest == events[d + 1..] && (out.ending.Failed? <==> events[d].Failure?)
            && (events[d].Failure? ==> out.read == read + BytesOf(events[..d]))
    decreases |events|
  {
    assert Search([], find, buffer + read) == None;
    if InTime(events[0]) {
      PlainCall(find, buffer, read + events[0].bytes, events[1..]);
      BytesOfPrefix(events, Leading(events[1..]));
    } else if events[0].Data? {
      assert Search([], find, buffer + (read + events[0].bytes)) == None;
    } else {
      assert events[..0] == [] && read + [] == read;
    }
  }

  lemma RiskyRest(events: seq<Event>)
    requires Risky(events)
    ensures var d := Leading(events);
            d < |events| && ((events[d].Failure? && BytesOf(events[..d]) != []) || Risky(events[d + 1..]))
  {
    var d := Leading(events);
    var i, k, j :| FailsAfter(events, i, k, j);
    assert d <= j;
    if j == d {
      SomeBytes(events, d, k);
    } else {
      assert i > d;
      assert FailsAfter(events[d + 1..], i - d - 1, k - d - 1, j - d - 1);
    }
  }

  /** With a risky stretch enough calls without patterns run into it. */
  lemma {:induction false} RiskyInput(find: Engine, buffer: Bytes, events: seq<Event>) returns (calls: seq<Call>)
    requires Sane(find) && Risky(events)
    ensures !FailsEmpty(Talk(find, calls, buffer, events).log)
    decreases |events|
  {
    var d := Leading(events);
    RiskyRest(events);
    PlainCall(find, buffer, [], events);
    var out := Await([], find, buffer, [], false, events);
    if events[d].Failure? && BytesOf(events[..d]) != [] {
      calls := [Call([], false)];
      assert Talk(find, calls, buffer, events).log[0] == out;
    } else {
      var rest := RiskyInput(find, out.buffer, out.rest);
      calls := [Call([], false)] + rest;
      assert calls[1..] == rest;
      var log, later := Talk(find, calls, buffer, events).log, Talk(find, rest, out.buffer, out.rest).log;
      assert log == [out] + later;
      var i :| 0 <= i < |later| && later[i].ending.Failed? && later[i].read != [];
      assert log[i + 1] == later[i];
    }
  }

  /** Everything that was read is delivered or still in the buffer. */
  ghost predicate Conserved(find: Engine, calls: seq<Call>, buffer: Bytes, events: seq<Event>)
    requires Sane(find)
  {
    var s := Talk(find, calls, buffer, events);
    |s.events| <= |events| && Delivered(s.log) + s.buffer == buffer + BytesOf(events[..|events| - |s.events|])
  }

  lemma ConservedExactly(find: Engine, calls: seq<Call>, buffer: Bytes, events: seq<Event>)
    requires Sane(find)
    ensures Conserved(find, calls, buffer, events) <==> FailsEmpty(Talk(find, calls, buffer, events).log)
  {
    var used := SessionConserves(find, calls, buffer, events);
  }

  /** CONSERVATION.  Whatever calls are made, with whatever buffer, all bytes are conserved
      if and only if no failure comes right after reads in time that brought a byte. */
  lemma InputConserves(find: Engine, events: seq<Event>)
    requires Sane(find)
    ensures (forall calls, buffer :: Conserved(find, calls, buffer, events)) <==> !Risky(events)
  {
    if Risky(events) {
      var calls := RiskyInput(find, [], events);
      ConservedExactly(find, calls, [], events);
      assert !Conserved(find, calls, [], events);
    } else {
      forall calls, buffer
        ensures Conserved(find, calls, buffer, events)
      {
        SafeInput(find, calls, buffer, events);
        ConservedExactly(find, calls, buffer, events);
      }
    }
  }

  /** In particular an input without failures is always conserved. */
  lemma NoFailureConserves(find: Engine, calls: seq<Call>, buffer: Bytes, events: seq<Event>)
    requires Sane(find) && Failure !in events
    ensures Conserved(find, calls, buffer, events)
  {
    assert !Risky(events);
    InputConserves(find, events);
  }

  /** A byte read by a call that then fails is not put back: no later call sees it. */
  lemma FailureLosesByte(find: Engine, b: bv8)
    requires Sane(find)
    ensures var s := Talk(find, [Call([], false)], [], [Data([b], false), Failure]);
            s.events == [] && Delivered(s.log) + s.buffer == []
  {
    var events := [Data([b], false), Failure];
    assert events[1..] == [Failure] && events[1..][1..] == [];
    var out := Await([], find, [], [], false, events);
    assert Search([], find, [] + []) == None && Search([], find, [] + ([] + [b])) == None;
    assert out == Await([], find, [], [] + [b], false, [Failure]);
    assert out.ending.Failed? && out.buffer == [] && out.rest == [Failure][1..] == [];
    var calls := [Call([], false)];
    assert calls[1..] == [] && Talk(find, [], out.buffer, out.rest) == Session([], [], []);
    assert Delivered([out]) == HandedOver(out) + Delivered([out][1..]);
  }
}
