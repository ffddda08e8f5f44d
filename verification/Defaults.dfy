/** The default that a column line declares, and the word that an upgrade writes into the
    rows already there (generateUpgradeSql of SqlItem in sql_process.py, beside the
    column parser of the engine in ddl_column_parser.c). */
module Defaults {
  import opened Wrappers
  import opened SqlText
  import opened CreateTableSql
  import opened Schema
  import opened Migration

  // ------------------------------------------------------------------ words of a line

  predicate NoBlank(w: string) {
    forall i :: 0 <= i < |w| ==> !IsBlank(w[i])
  }

  predicate IsWord(w: string) {
    w != "" && NoBlank(w)
  }

  predicate AllWords(words: seq<string>) {
    forall i :: 0 <= i < |words| ==> IsWord(words[i])
  }

  /** Splitting yields words. */
  lemma {:induction false} SplitYieldsWords(s: string, word: string)
    requires NoBlank(word)
    ensures AllWords(SplitFrom(s, word))
    decreases |s|
  {
    if s != "" {
      if IsBlank(s[0]) {
        SplitYieldsWords(s[1..], "");
      } else {
        SplitYieldsWords(s[1..], word + [s[0]]);
      }
    }
  }

  lemma {:induction false} SplitLetters(w: string, s: string, word: string)
    requires NoBlank(w)
    ensures SplitFrom(w + s, word) == SplitFrom(s, word + w)
    decreases |w|
  {
    if w == "" {
      assert w + s == s && word + w == word;
    } else {
      assert (w + s)[1..] == w[1..] + s;
      SplitLetters(w[1..], s, word + [w[0]]);
      assert word + [w[0]] + w[1..] == word + w;
    }
  }

  /** Splitting undoes joining. */
  lemma {:induction false} SplitOfJoin(words: seq<string>)
    requires AllWords(words)
    ensures Split(Join(words, " ")) == words
    decreases |words|
  {
    if words != [] {
      var w := words[0];
      if |words| == 1 {
        SplitLetters(w, "", "");
        assert w + "" == w && "" + w == w;
      } else {
        var rest := " " + Join(words[1..], " ");
        assert Join(words, " ") == w + rest;
        SplitLetters(w, rest, "");
        assert "" + w == w && rest[1..] == Join(words[1..], " ");
        SplitOfJoin(words[1..]);
      }
    }
  }

  predicate StandsAt(text: string, p: nat, w: string) {
    p + |w| <= |text| && text[p..p + |w|] == w
  }

  lemma StandsBehind(a: string, b: string, p: nat, w: string)
    requires StandsAt(b, p, w)
    ensures StandsAt(a + b, |a| + p, w)
  {
    assert (a + b)[|a| + p..|a| + p + |w|] == b[p..p + |w|];
  }

  /** A word of a line is a stretch of its text. */
  lemma {:induction false} WordIsStretch(s: string, word: string, i: nat) returns (p: nat)
    requires i < |SplitFrom(s, word)|
    ensures StandsAt(word + s, p, SplitFrom(s, word)[i])
    decreases |s|
  {
    p := 0;
    if s != "" {
      assert word + [s[0]] + s[1..] == word + s;
      if IsBlank(s[0]) {
        var done: nat := if word == "" then 0 else 1;
        if i >= done {
          var q := WordIsStretch(s[1..], "", i - done);
          assert "" + s[1..] == s[1..];
          StandsBehind(word + [s[0]], s[1..], q, SplitFrom(s, word)[i]);
          p := |word| + 1 + q;
        }
      } else {
        p := WordIsStretch(s[1..], word + [s[0]], i);
      }
    }
  }

  lemma {:induction false} FoundBefore(s: string, needle: string, from: nat, p: nat)
    requires from <= p <= |s| && needle <= s[p..]
    ensures Find(s, needle, from).Some?
    decreases p - from
  {
    if from < p {
      FoundBefore(s, needle, from + 1, p);
    }
  }

  lemma StandsIsFound(s: string, p: nat, w: string)
    requires StandsAt(s, p, w)
    ensures Contains(s, w)
  {
    assert s[p..][..|w|] == s[p..p + |w|];
    FoundBefore(s, w, 0, p);
  }

  lemma UpperOfStretch(s: string, p: nat, q: nat)
    requires p <= q <= |s|
    ensures Upper(s[p..q]) == Upper(s)[p..q]
  {
  }

  /** A line with the word DEFAULT, in any case, mentions DEFAULT. */
  lemma WordIsMentioned(line: string, i: nat)
    requires i < |Split(line)| && Upper(Split(line)[i]) == "DEFAULT"
    ensures MentionsDefault(line)
  {
    var p := WordIsStretch(line, "", i);
    assert "" + line == line;
    var q := p + |Split(line)[i]|;
    UpperOfStretch(line, p, q);
    assert Upper(line)[p..][..q - p] == "DEFAULT";
    FoundBefore(Upper(line), "DEFAULT", 0, p);
  }

  // ----------------------------------------------------------------- the default clause

  /** The expression after the word DEFAULT of a column line; None without one. */
  function Declared(line: string): (clause: Option<seq<string>>)
    ensures clause.Some? ==> clause.value != []
  {
    DefaultClause(Split(line))
  }

  /** The word DEFAULT stands before another word. */
  predicate HasDefaultWord(line: string) {
    var words := Split(line);
    exists k :: 0 <= k < |words| - 1 && Upper(words[k]) == "DEFAULT"
  }

  /** An upgrade finds a default exactly where the line has the word DEFAULT before another
      word, which is where the line declares one. */
  lemma DefaultFound(line: string)
    ensures DefaultOf(line).Ok? <==> HasDefaultWord(line)
    ensures DefaultOf(line).Ok? <==> Declared(line).Some?
    ensures DefaultOf(line).Ok? ==> DefaultOf(line).value == Upper(Declared(line).value[0])
  {
    var words := Split(line);
    match WordIndex(UpperWords(words), "DEFAULT")
    case None =>
    case Some(k) =>
      WordIsMentioned(line, k);
      if j :| 0 <= j < |words| - 1 && Upper(words[j]) == "DEFAULT" {
        assert UpperWords(words)[j] == "DEFAULT";
        assert forall i :: 0 <= i < k ==> UpperWords(words)[..k][i] != "DEFAULT";
      }
  }

  lemma JoinHasBlank(words: seq<string>)
    requires |words| > 1
    ensures !NoBlank(Join(words, " "))
  {
    assert Join(words, " ")[|words[0]|] == ' ';
  }

  lemma UpperKeepsBlanks(s: string)
    ensures NoBlank(Upper(s)) <==> NoBlank(s)
  {
    forall i | 0 <= i < |s|
      ensures IsBlank(Upper(s)[i]) <==> IsBlank(s[i])
    {
      assert Upper(s)[i] == UpperChar(s[i]);
    }
  }

  lemma ClauseIsWords(line: string)
    requires Declared(line).Some?
    ensures AllWords(Declared(line).value)
  {
    SplitYieldsWords(line, "");
  }

  /** DEFAULT.  For every line the word that an upgrade writes is the declared expression
      if and only if that is a single word which upper case leaves alone. */
  lemma DefaultIsDeclared(line: string)
    requires DefaultOf(line).Ok?
    ensures Declared(line).Some?
    ensures DefaultOf(line).value == Join(Declared(line).value, " ")
            <==> |Declared(line).value| == 1 && Upper(Declared(line).value[0]) == Declared(line).value[0]
  {
    DefaultFound(line);
    ClauseIsWords(line);
    var clause := Declared(line).value;
    if |clause| > 1 {
      JoinHasBlank(clause);
      assert IsWord(clause[0]);
      UpperKeepsBlanks(clause[0]);
    }
  }

  /** The value that the declared expression stands for. */
  function DeclaredValue(line: string): Value {
    DefaultValue(Split(line))
  }

  /** The declared expression is one word, NULL or untouched by upper case. */
  predicate Plain(line: string) {
    Declared(line).Some?
    && var clause := Declared(line).value;
       |clause| == 1 && (Upper(clause[0]) == clause[0] || Upper(clause[0]) == "NULL")
  }

  /** The value written is the declared one exactly for such lines. */
  lemma ValueIsDeclared(line: string)
    requires DefaultOf(line).Ok?
    ensures Eval(DefaultOf(line).value) == DeclaredValue(line) <==> Plain(line)
  {
    DefaultFound(line);
    ClauseIsWords(line);
    var clause := Declared(line).value;
    assert IsWord(clause[0]);
    UpperKeepsBlanks(clause[0]);
    if |clause| > 1 {
      JoinHasBlank(clause);
      UpperKeepsBlanks(Join(clause, " "));
      assert NoBlank("NULL");
    }
  }

  // ---------------------------------------------------------------------- NOT NULL

  /** Word `i` ends with NOT and the next one begins with NULL, in any case. */
  predicate NotBeforeNull(words: seq<string>, i: nat) {
    i + 1 < |words| && |words[i]| >= 3 && |words[i + 1]| >= 4
    && Upper(words[i])[|words[i]| - 3..] == "NOT" && Upper(words[i + 1])[..4] == "NULL"
  }

  lemma {:induction false} PairInJoin(words: seq<string>, i: nat) returns (p: nat)
    requires i + 1 < |words|
    ensures StandsAt(Join(words, " "), p, words[i] + " " + words[i + 1])
    decreases |words|
  {
    var rest := Join(words[1..], " ");
    assert Join(words, " ") == words[0] + " " + rest;
    if i == 0 {
      p := 0;
      assert words[1] <= rest;
    } else {
      var q := PairInJoin(words[1..], i - 1);
      StandsBehind(words[0] + " ", rest, q, words[i] + " " + words[i + 1]);
      p := |words[0]| + 1 + q;
    }
  }

  lemma NotNullInPair(a: string, b: string)
    requires NotBeforeNull([a, b], 0)
    ensures StandsAt(Upper(a + " " + b), |a| - 3, "NOT NULL")
  {
    var pair := Upper(a + " " + b);
    assert pair[|a| - 3..|a|] == Upper(a)[|a| - 3..] && pair[|a|] == ' ';
    assert pair[|a| + 1..|a| + 5] == Upper(b)[..4];
    assert pair[|a| - 3..|a| + 5] == pair[|a| - 3..|a|] + [pair[|a|]] + pair[|a| + 1..|a| + 5];
  }

  /** The letters NOT NULL at `p` of the joined words stand across the end of a word. */
  lemma {:induction false} PairAt(words: seq<string>, p: nat) returns (i: nat)
    requires AllWords(words) && StandsAt(Upper(Join(words, " ")), p, "NOT NULL")
    ensures NotBeforeNull(words, i)
    decreases |words|
  {
    var text := Join(words, " ");
    var upper := Upper(text);
    assert upper[p..p + 8][3] == upper[p + 3] == ' ' && IsBlank(text[p + 3]);
    var w := words[0];
    assert IsWord(w);
    i := 0;
    if |words| > 1 {
      var rest := Join(words[1..], " ");
      assert text == w + " " + rest;
      BlankBehind(w, rest, p);
      if p + 3 == |w| {
        PairAtEnd(words, p);
      } else {
        assert Upper(rest)[p - |w| - 1..p - |w| + 7] == upper[p..p + 8];
        i := PairAt(words[1..], p - |w| - 1);
        i := i + 1;
      }
    }
  }

  /** The blank of NOT NULL is the one behind the first word or stands behind that. */
  lemma BlankBehind(w: string, rest: string, p: nat)
    requires IsWord(w) && StandsAt(Upper(w + " " + rest), p, "NOT NULL")
    ensures p + 3 == |w| || p > |w|
  {
    var text := w + " " + rest;
    var upper := Upper(text);
    assert upper[p..p + 8][3] == ' ' && upper[p..p + 8][0] == 'N' && upper[p..p + 8][1] == 'O' && upper[p..p + 8][2] == 'T';
    assert upper[|w|] == ' ';
    assert forall q :: 0 <= q < |w| ==> upper[q] == UpperChar(w[q]) && !IsBlank(upper[q]);
  }

  lemma NullBegins(next: string, rest: string)
    requires next <= rest && (|next| < |rest| ==> rest[|next|] == ' ') && |rest| >= 4 && Upper(rest)[..4] == "NULL"
    ensures |next| >= 4 && Upper(next)[..4] == "NULL"
  {
    forall q | 0 <= q < 4
      ensures rest[q] != ' '
    {
      assert Upper(rest)[..4][q] == UpperChar(rest[q]);
    }
    assert Upper(next)[..4] == Upper(rest)[..4];
  }

  lemma UpperParts(w: string, rest: string, p: nat)
    requires p + 3 == |w| && |rest| >= 4
    ensures Upper(w + " " + rest)[p..p + 3] == Upper(w)[p..]
    ensures Upper(w + " " + rest)[p + 4..p + 8] == Upper(rest)[..4]
  {
  }

  lemma NotNullParts(upper: string, p: nat)
    requires StandsAt(upper, p, "NOT NULL")
    ensures upper[p..p + 3] == "NOT" && upper[p + 4..p + 8] == "NULL"
  {
    var stretch := upper[p..p + 8];
    assert stretch == "NOT NULL";
    assert upper[p..p + 3] == stretch[..3] && upper[p + 4..p + 8] == stretch[4..];
  }

  lemma PairAtEnd(words: seq<string>, p: nat)
    requires |words| > 1 && p + 3 == |words[0]| && StandsAt(Upper(Join(words, " ")), p, "NOT NULL")
    ensures NotBeforeNull(words, 0)
  {
    var w, rest := words[0], Join(words[1..], " ");
    assert Join(words, " ") == w + " " + rest;
    NotNullParts(Upper(w + " " + rest), p);
    UpperParts(w, rest, p);
    NullBegins(words[1], rest);
  }

  /** A line is taken for NOT NULL exactly when somewhere a word that ends with NOT stands
      before one that begins with NULL, be it in a literal or in a comment. */
  lemma NotNullMeans(line: string)
    ensures NotNull(line) <==> exists i :: NotBeforeNull(Split(line), i)
  {
    var words := Split(line);
    var upper := Upper(Join(words, " "));
    SplitYieldsWords(line, "");
    if NotNull(line) {
      var p := Find(upper, "NOT NULL", 0).value;
      assert upper[p..][..8] == "NOT NULL";
      var _ := PairAt(words, p);
    }
    if i :| NotBeforeNull(words, i) {
      NotNullFound(words, i);
    }
  }

  lemma StandsInside(text: string, p: nat, part: string, q: nat, w: string)
    requires StandsAt(text, p, part) && StandsAt(part, q, w)
    ensures StandsAt(text, p + q, w)
  {
    var stretch := text[p..p + |part|];
    forall k | 0 <= k < |w|
      ensures text[p + q + k] == w[k]
    {
      assert w[k] == part[q..q + |w|][k] == part[q + k] == stretch[q + k];
    }
    assert text[p + q..p + q + |w|] == w;
  }

  lemma NotNullFound(words: seq<string>, i: nat)
    requires NotBeforeNull(words, i)
    ensures Contains(Upper(Join(words, " ")), "NOT NULL")
  {
    var pair := words[i] + " " + words[i + 1];
    var upper := Upper(Join(words, " "));
    var p := PairInJoin(words, i);
    NotNullInPair(words[i], words[i + 1]);
    UpperOfStretch(Join(words, " "), p, p + |pair|);
    StandsInside(upper, p, Upper(pair), |words[i]| - 3, "NOT NULL");
    StandsIsFound(upper, p + |words[i]| - 3, "NOT NULL");
  }

  /** The words NOT NULL, wherever they stand, are seen. */
  lemma NotNullWords(line: string, i: nat)
    requires i + 1 < |Split(line)| && Upper(Split(line)[i]) == "NOT" && Upper(Split(line)[i + 1]) == "NULL"
    ensures NotNull(line)
  {
    assert NotBeforeNull(Split(line), i);
    NotNullMeans(line);
  }

  // ------------------------------------------------------------------- lines at hand

  lemma LineWords(line: string, words: seq<string>)
    requires AllWords(words) && line == Join(words, " ")
    ensures Split(line) == words
  {
    SplitOfJoin(words);
  }

  /** Where the word DEFAULT first stands at `k` and a clause of one word follows it. */
  lemma LineDefault(line: string, k: nat)
    requires var words := Split(line);
             k + 1 < |words| && Upper(words[k]) == "DEFAULT" && (forall i :: 0 <= i < k ==> Upper(words[i]) != "DEFAULT")
             && (k + 2 < |words| ==> Upper(words[k + 2]) in CLAUSES && ClosedFrom(words[k + 1], false, 0))
    ensures DefaultOf(line) == Ok(Upper(Split(line)[k + 1])) && Declared(line) == Some([Split(line)[k + 1]])
  {
    var words := Split(line);
    var upper := UpperWords(words);
    assert WordIndex(upper, "DEFAULT") == Some(k) by {
      assert upper[k] == "DEFAULT";
      assert forall i :: 0 <= i < k ==> upper[i] != "DEFAULT";
    }
    assert words[k + 1..k + 2] == [words[k + 1]];
    DefaultFound(line);
  }

  lemma VersionWords()
    ensures var words := ["DB_VERSION", "VARCHAR(256)", "DEFAULT", "'ec669c7'", "NOT", "NULL"];
            AllWords(words)
  {
  }

  lemma VersionUpper()
    ensures Upper("DB_VERSION") != "DEFAULT" && Upper("VARCHAR(256)") != "DEFAULT" && Upper("DEFAULT") == "DEFAULT"
    ensures Upper("'ec669c7'") == "'EC669C7'" && Upper("NOT") == "NOT"
  {
  }

  lemma VersionClosed()
    ensures ClosedFrom("'ec669c7'", false, 0)
  {
  }

  /** The version column of the backup table declares 'ec669c7', and 'EC669C7' is written. */
  lemma VersionColumn()
    ensures var line := Join(["DB_VERSION", "VARCHAR(256)", "DEFAULT", "'ec669c7'", "NOT", "NULL"], " ");
            Declared(line) == Some(["'ec669c7'"]) && DefaultOf(line) == Ok("'EC669C7'")
  {
    var words := ["DB_VERSION", "VARCHAR(256)", "DEFAULT", "'ec669c7'", "NOT", "NULL"];
    VersionWords();
    VersionUpper();
    VersionClosed();
    LineWords(Join(words, " "), words);
    LineDefault(Join(words, " "), 2);
  }
}
