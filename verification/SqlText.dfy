/** Text operations that the schema tooling applies to SQL, and the word-list
    comparison on which every "is it the same statement" decision rests. */
module SqlText {
  import opened Wrappers

  /** Why the tooling refuses its input (an exception or an exit in the scripts). */
  datatype Error =
    | NoParenthesis | NoItems
    | HeadChanged | TailChanged | Decrement
    | NoDefault | DefaultNotAWord
    | UnmatchedItem | NoTablespaceName | NoPctfreeValue
    | BeforeCreateTable | WrongTable | MixedVersions
    | VersionUnchanged | VersionNotNext | VersionMoved

  datatype Result<+T> = Ok(value: T) | Err(error: Error)

  predicate IsBlank(c: char) {
    c == ' ' || c == '\t' || c == '\n' || c == '\r'
  }

  function UpperChar(c: char): char {
    if 'a' <= c <= 'z' then ((c as int) - 32) as char else c
  }

  function Upper(s: string): (u: string)
    ensures |u| == |s|
  {
    seq(|s|, i requires 0 <= i < |s| => UpperChar(s[i]))
  }

  function UpperWords(words: seq<string>): (u: seq<string>)
    ensures |u| == |words|
    ensures forall i :: 0 <= i < |u| ==> u[i] == Upper(words[i])
  {
    seq(|words|, i requires 0 <= i < |words| => Upper(words[i]))
  }

  function StripLeft(s: string, drop: char -> bool): string {
    if s != "" && drop(s[0]) then StripLeft(s[1..], drop) else s
  }

  function StripRight(s: string, drop: char -> bool): string {
    if s != "" && drop(s[|s| - 1]) then StripRight(s[..|s| - 1], drop) else s
  }

  function StripBy(s: string, drop: char -> bool): string {
    StripRight(StripLeft(s, drop), drop)
  }

  function Strip(s: string): string {
    StripBy(s, IsBlank)
  }

  lemma {:induction false} StripTwice(s: string, drop: char -> bool)
    ensures StripBy(StripBy(s, drop), drop) == StripBy(s, drop)
  {
    var left := StripLeft(s, drop);
    StripLeftStops(s, drop);
    StripRightStops(left, drop);
  }

  lemma {:induction false} StripLeftStops(s: string, drop: char -> bool)
    ensures var r := StripLeft(s, drop); r == "" || !drop(r[0])
  {
    if s != "" && drop(s[0]) {
      StripLeftStops(s[1..], drop);
    }
  }

  lemma {:induction false} StripRightStops(s: string, drop: char -> bool)
    ensures var r := StripRight(s, drop);
            (r == "" || !drop(r[|r| - 1])) && (s != "" && !drop(s[0]) ==> r != "" && r[0] == s[0])
  {
    if s != "" && drop(s[|s| - 1]) {
      StripRightStops(s[..|s| - 1], drop);
    }
  }

  function StripCommas(s: string): string {
    StripBy(s, c => c == ',')
  }

  /** The maximal runs of non-blank characters; `word` is the run being read. */
  function SplitFrom(s: string, word: string): seq<string> {
    var done := if word == "" then [] else [word];
    if s == "" then done
    else if IsBlank(s[0]) then done + SplitFrom(s[1..], "")
    else SplitFrom(s[1..], word + [s[0]])
  }

  function Split(s: string): seq<string> {
    SplitFrom(s, "")
  }

  function SplitLinesFrom(s: string, line: string): seq<string> {
    if s == "" then [line]
    else if s[0] == '\n' then [line] + SplitLinesFrom(s[1..], "")
    else SplitLinesFrom(s[1..], line + [s[0]])
  }

  function SplitLines(s: string): seq<string> {
    SplitLinesFrom(s, "")
  }

  function Join(words: seq<string>, separator: string): string {
    if words == [] then ""
    else if |words| == 1 then words[0]
    else words[0] + separator + Join(words[1..], separator)
  }

  /** First position of `needle` at or after `from`. */
  function Find(s: string, needle: string, from: nat): (p: Option<nat>)
    ensures p.Some? ==> from <= p.value <= |s| && needle <= s[p.value..]
    decreases |s| - from
  {
    if from > |s| then None
    else if needle <= s[from..] then Some(from)
    else if from == |s| then None
    else Find(s, needle, from + 1)
  }

  predicate Contains(s: string, needle: string) {
    Find(s, needle, 0).Some?
  }

  function ReplaceAll(s: string, what: string, with: string): string
    requires what != ""
  {
    if s == "" then ""
    else if what <= s then with + ReplaceAll(s[|what|..], what, with)
    else [s[0]] + ReplaceAll(s[1..], what, with)
  }

  /** Position of the first word equal to `w`. */
  function WordIndex(words: seq<string>, w: string): (k: Option<nat>)
    ensures k.Some? ==> k.value < |words| && words[k.value] == w && w !in words[..k.value]
    ensures k.None? ==> w !in words
  {
    if words == [] then None
    else if words[0] == w then Some(0)
    else match WordIndex(words[1..], w)
      case None => None
      case Some(k) => assert words[..k + 1] == [words[0]] + words[1..][..k]; Some(k + 1)
  }

  function Key(w: string): string {
    Upper(Strip(w))
  }

  /** Two word lists that differ at most in letter case and outer blanks. */
  predicate SameWords(a: seq<string>, b: seq<string>) {
    |a| == |b| && forall i :: 0 <= i < |a| ==> Key(a[i]) == Key(b[i])
  }

  method IsSameSqlList(list1: seq<string>, list2: seq<string>) returns (same: bool)
    ensures same <==> SameWords(list1, list2)
  {
    if |list1| != |list2| {
      return false;
    }
    for i := 0 to |list1|
      invariant forall j :: 0 <= j < i ==> Key(list1[j]) == Key(list2[j])
    {
      if Key(list1[i]) != Key(list2[i]) {
        return false;
      }
    }
    return true;
  }

  lemma SameWordsTransitive(a: seq<string>, b: seq<string>, c: seq<string>)
    requires SameWords(a, b) && SameWords(b, c)
    ensures SameWords(a, c)
  {
  }
}
