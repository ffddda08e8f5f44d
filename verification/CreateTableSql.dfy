/** The three parts of a CREATE TABLE statement and the column lines that one
    release adds to another (class CreateTableSql of sql_process.py). */
module CreateTableSql {
  import opened SqlText

  function Weight(c: char): int {
    if c == '(' then 1 else if c == ')' then -1 else 0
  }

  /** Nesting depth after the first `k` characters. */
  function Level(s: string, k: nat): int
    requires k <= |s|
  {
    if k == 0 then 0 else Level(s, k - 1) + Weight(s[k - 1])
  }

  ghost predicate Balanced(s: string) {
    Level(s, |s|) == 0 && forall k :: 0 <= k <= |s| ==> Level(s, k) >= 0
  }

  /** `p` closes the parenthesis opened at `left`. */
  ghost predicate Closes(s: string, left: nat, p: nat)
    requires left < |s|
  {
    left < p < |s| && s[p] == ')' && Balanced(s[left + 1..p])
  }

  lemma {:induction false} LevelOfPrefix(s: string, n: nat, k: nat)
    requires k <= n <= |s|
    ensures Level(s[..n], k) == Level(s, k)
  {
    if k > 0 {
      LevelOfPrefix(s, n, k - 1);
    }
  }

  lemma BalancedPrefix(s: string, n: nat)
    requires n <= |s|
    ensures Balanced(s[..n]) <==> Level(s, n) == 0 && forall k :: 0 <= k <= n ==> Level(s, k) >= 0
  {
    var t := s[..n];
    LevelOfPrefix(s, n, n);
    if Balanced(t) {
      forall k | 0 <= k <= n
        ensures Level(s, k) >= 0
      {
        LevelOfPrefix(s, n, k);
      }
    } else if Level(s, n) == 0 {
      var k :| 0 <= k <= |t| && Level(t, k) < 0;
      LevelOfPrefix(s, n, k);
    }
  }

  /** There is at most one closing position. */
  lemma ClosesUnique(s: string, left: nat, p: nat, q: nat)
    requires left < |s|
    requires Closes(s, left, p) && Closes(s, left, q)
    ensures p == q
  {
    if p < q {
      ClosesFirst(s, left, p, q);
    } else if q < p {
      ClosesFirst(s, left, q, p);
    }
  }

  lemma ClosesFirst(s: string, left: nat, p: nat, q: nat)
    requires left < |s|
    requires Closes(s, left, p) && Closes(s, left, q)
    ensures q <= p
  {
    var tail := s[left + 1..];
    assert s[left + 1..p] == tail[..p - left - 1];
    assert s[left + 1..q] == tail[..q - left - 1];
    BalancedPrefix(tail, p - left - 1);
    BalancedPrefix(tail, q - left - 1);
    if p < q {
      assert Level(tail, p - left) == -1;
    }
  }

  method FindRightParenthesis(content: string, left: nat) returns (right: int)
    requires left < |content|
    ensures right == -1 || (content[left] == '(' && right >= 0 && Closes(content, left, right))
    ensures right == -1 <==> content[left] != '(' || forall p: nat :: !Closes(content, left, p)
  {
    if content[left] != '(' {
      return -1;
    }
    var level := 0;
    var tail := content[left + 1..];
    for count := 0 to |tail|
      invariant level == Level(tail, count)
      invariant forall k :: 0 <= k <= count ==> Level(tail, k) >= 0
      invariant forall p: nat :: p <= left + count ==> !Closes(content, left, p)
    {
      BalancedPrefix(tail, count);
      assert content[left + 1..left + 1 + count] == tail[..count];
      if tail[count] == '(' {
        level := level + 1;
      } else if tail[count] == ')' {
        if level == 0 {
          assert Closes(content, left, left + 1 + count);
          return left + 1 + count;
        }
        level := level - 1;
      }
    }
    return -1;
  }

  datatype Parts = Parts(pre: string, body: string, post: string)

  /** The parts of a statement that has a parenthesis: everything before the first
      one, what stands between it and the one that closes it, and the rest.  An
      unclosed statement is not refused; its bounds come from the "not found"
      value -1, so the body stops one short of the end and the tail is the whole
      text. */
  ghost predicate IsCut(sql: string, parts: Parts) {
    var left := |parts.pre|;
    left < |sql| && parts.pre == sql[..left] && '(' !in parts.pre && sql[left] == '('
    && if exists p: nat :: Closes(sql, left, p)
       then sql == parts.pre + "(" + parts.body + ")" + parts.post && Balanced(parts.body)
       else parts.post == sql && parts.body == if left + 2 <= |sql| then sql[left + 1..|sql| - 1] else ""
  }

  method Cut(sql: string) returns (r: Result<Parts>)
    ensures r.Ok? <==> '(' in sql
    ensures r.Ok? ==> IsCut(sql, r.value)
    ensures r.Err? ==> r.error == NoParenthesis
  {
    var left := 0;
    while left < |sql| && sql[left] != '('
      invariant 0 <= left <= |sql|
      invariant '(' !in sql[..left]
    {
      left := left + 1;
    }
    if left == |sql| {
      assert sql[..left] == sql;
      return Err(NoParenthesis);
    }
    var right := FindRightParenthesis(sql, left);
    if right == -1 {
      var stop := if left + 2 <= |sql| then |sql| - 1 else left + 1;
      return Ok(Parts(sql[..left], sql[left + 1..stop], sql));
    }
    assert Closes(sql, left, right);
    return Ok(Parts(sql[..left], sql[left + 1..right], sql[right + 1..]));
  }

  function Trim(line: string): string {
    StripCommas(Strip(line))
  }

  /** The words of one column line, which is how two lines are compared. */
  function ItemWords(item: string): seq<string> {
    Split(Trim(item))
  }

  function ItemsOf(lines: seq<string>): (items: seq<string>) {
    if lines == [] then []
    else (if Trim(lines[0]) == "" then [] else [Trim(lines[0])]) + ItemsOf(lines[1..])
  }

  method CollectItems(lines: seq<string>) returns (items: seq<string>)
    ensures items == ItemsOf(lines)
  {
    items := [];
    for i := 0 to |lines|
      invariant items + ItemsOf(lines[i..]) == ItemsOf(lines)
    {
      if Trim(lines[i]) != "" {
        items := items + [Trim(lines[i])];
      }
    }
  }

  /** Head text, column lines, tail text. */
  datatype TableDef = TableDef(pre: string, items: seq<string>, post: string)

  function DropComment(sql: string): string {
    var lines := SplitLines(sql);
    if |lines| > 0 && "--" <= lines[0] then Join(lines[1..], "\n") else Join(lines, "\n")
  }

  method Parse(sql: string) returns (r: Result<TableDef>)
    ensures r.Ok? ==> exists body ::
                        IsCut(DropComment(sql), Parts(r.value.pre, body, r.value.post))
                        && r.value.items == ItemsOf(SplitLines(body)) != []
    ensures r.Err? ==> '(' !in DropComment(sql)
                       || exists cut :: IsCut(DropComment(sql), cut) && ItemsOf(SplitLines(cut.body)) == []
  {
    var cut := Cut(DropComment(sql));
    if cut.Err? {
      return Err(cut.error);
    }
    var items := CollectItems(SplitLines(cut.value.body));
    if items == [] {
      return Err(NoItems);
    }
    assert Parts(cut.value.pre, cut.value.body, cut.value.post) == cut.value;
    return Ok(TableDef(cut.value.pre, items, cut.value.post));
  }

  predicate SameItem(a: string, b: string) {
    SameWords(ItemWords(a), ItemWords(b))
  }

  predicate Extends(newer: seq<string>, older: seq<string>) {
    |older| <= |newer| && forall i :: 0 <= i < |older| ==> SameItem(newer[i], older[i])
  }

  function Trimmed(items: seq<string>): (t: seq<string>)
    ensures |t| == |items|
    ensures forall i :: 0 <= i < |t| ==> t[i] == Trim(items[i])
  {
    seq(|items|, i requires 0 <= i < |items| => Trim(items[i]))
  }

  /** The lines of `newer` beyond those of `older`, provided that those agree. */
  function Increment(newer: seq<string>, older: seq<string>): Result<seq<string>> {
    if Extends(newer, older) then Ok(Trimmed(newer[|older|..])) else Err(Decrement)
  }

  method IncrementItems(newer: seq<string>, older: seq<string>) returns (r: Result<seq<string>>)
    ensures r == Increment(newer, older)
  {
    if |newer| == |older| {
      for i := 0 to |newer|
        invariant forall j :: 0 <= j < i ==> SameItem(newer[j], older[j])
      {
        var same := IsSameSqlList(ItemWords(newer[i]), ItemWords(older[i]));
        if !same {
          assert !SameItem(newer[i], older[i]);
          return Err(Decrement);
        }
      }
      return Ok([]);
    }
    if |newer| < |older| {
      return Err(Decrement);
    }
    for i := 0 to |older|
      invariant forall j :: 0 <= j < i ==> SameItem(newer[j], older[j])
    {
      var same := IsSameSqlList(ItemWords(newer[i]), ItemWords(older[i]));
      if !same {
        assert !SameItem(newer[i], older[i]);
        return Err(Decrement);
      }
    }
    var increment: seq<string> := [];
    for i := |older| to |newer|
      invariant increment == Trimmed(newer[|older|..i])
    {
      increment := increment + [Trim(newer[i])];
    }
    assert newer[|older|..|newer|] == newer[|older|..];
    return Ok(increment);
  }

  /** Increments compose: if each of two steps is accepted then so is the step
      that skips the middle release, and what it adds is what the two steps add. */
  lemma IncrementsCompose(c: seq<string>, b: seq<string>, a: seq<string>)
    requires Increment(c, b).Ok? && Increment(b, a).Ok?
    ensures Increment(c, a).Ok?
    ensures var both := Increment(c, a).value;
            var first := Increment(b, a).value;
            |first| <= |both|
            && both[|first|..] == Increment(c, b).value
            && forall i :: 0 <= i < |first| ==> SameWords(Split(both[i]), Split(first[i]))
  {
    forall i | 0 <= i < |a|
      ensures SameItem(c[i], a[i])
    {
      assert SameItem(c[i], b[i]) && SameItem(b[i], a[i]);
      SameWordsTransitive(ItemWords(c[i]), ItemWords(b[i]), ItemWords(a[i]));
    }
    var both, first := Increment(c, a).value, Increment(b, a).value;
    forall i | 0 <= i < |first|
      ensures SameWords(Split(both[i]), Split(first[i]))
    {
      assert SameItem(c[|a| + i], b[|a| + i]);
      assert both[i] == Trim(c[|a| + i]) && first[i] == Trim(b[|a| + i]);
    }
    assert both[|first|..] == Increment(c, b).value;
  }
}
