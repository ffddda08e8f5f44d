/** The ordered parameter list of the installer, in which only IFILE may be given
    more than once (class ParameterContainer of install.py). */
module Parameters {
  import opened Wrappers

  /** A parameter name: IFILE, or any other. */
  datatype Key = IFILE | Named(name: string)

  datatype Params = Params(keys: seq<Key>, ifiles: seq<string>, values: map<Key, string>)

  /** The number of IFILE entries before position `n`. */
  function Rank(keys: seq<Key>, n: nat): (r: nat)
    requires n <= |keys|
    ensures r <= n
  {
    if n == 0 then 0 else Rank(keys, n - 1) + (if keys[n - 1] == IFILE then 1 else 0)
  }

  predicate Unique(keys: seq<Key>) {
    forall i, j :: 0 <= i < j < |keys| && keys[i] == keys[j] ==> keys[i] == IFILE
  }

  ghost predicate Valued(keys: seq<Key>, values: map<Key, string>) {
    forall k :: k in values <==> k in keys && k != IFILE
  }

  ghost predicate Valid(c: Params) {
    Unique(c.keys) && Valued(c.keys, c.values) && Distinct(c.ifiles) && Rank(c.keys, |c.keys|) == |c.ifiles|
  }

  function RemoveAt<T>(s: seq<T>, i: nat): (r: seq<T>)
    requires i < |s|
    ensures |r| == |s| - 1
    ensures forall j :: 0 <= j < |r| ==> r[j] == if j < i then s[j] else s[j + 1]
  {
    s[..i] + s[i + 1..]
  }

  /** The first position at or after `start` that holds `x`. */
  function IndexFrom<T(==)>(s: seq<T>, x: T, start: nat): (p: Option<nat>)
    ensures p.Some? ==> start <= p.value < |s| && s[p.value] == x && forall j :: start <= j < p.value ==> s[j] != x
    ensures p.None? ==> forall j :: start <= j < |s| ==> s[j] != x
    decreases |s| - start
  {
    if start >= |s| then None else if s[start] == x then Some(start) else IndexFrom(s, x, start + 1)
  }

  /** Looks for IFILE `times` times, each time beyond the position found last. */
  function Skip(keys: seq<Key>, at: nat, times: nat): (p: Option<nat>)
    ensures p.Some? && times > 0 ==> p.value < |keys| && keys[p.value] == IFILE
  {
    if times == 0 then Some(at)
    else match Skip(keys, at, times - 1)
      case None => None
      case Some(p) => IndexFrom(keys, IFILE, p + 1)
  }

  /** What setting a parameter does; None when the search for the old entry raises. */
  function Set(c: Params, key: Key, value: string): Option<Params> {
    if key == IFILE then
      match IndexFrom(c.ifiles, value, 0)
      case None => Some(c.(keys := c.keys + [key], ifiles := c.ifiles + [value]))
      case Some(k) =>
        match Skip(c.keys, 0, k + 1)
        case None => None
        case Some(p) =>
          Some(c.(keys := RemoveAt(c.keys, p) + [key], ifiles := RemoveAt(c.ifiles, k) + [value]))
    else
      match IndexFrom(c.keys, key, 0)
      case None => Some(c.(keys := c.keys + [key], values := c.values[key := value]))
      case Some(p) => Some(c.(keys := RemoveAt(c.keys, p) + [key], values := c.values[key := value]))
  }

  class ParameterContainer {
    var ifiles: seq<string>
    var parameters: seq<Key>
    var values: map<Key, string>

    ghost function View(): Params
      reads this
    {
      Params(parameters, ifiles, values)
    }

    constructor ()
      ensures View() == Params([], [], map[]) && Valid(View())
    {
      ifiles, parameters, values := [], [], map[];
    }

    /** The IFILE entry that belongs to the file name at position `k`; None raises. */
    method FindIfile(k: nat) returns (at: Option<nat>)
      ensures at == Skip(parameters, 0, k + 1)
    {
      var p := 0;
      for n := 0 to k + 1
        invariant Skip(parameters, 0, n) == Some(p)
      {
        SkipNext(parameters, n, p);
        var next := IndexFrom(parameters, IFILE, p + 1);
        if next.None? {
          SkipFails(parameters, 0, n + 1, k + 1);
          return None;
        }
        p := next.value;
      }
      return Some(p);
    }

    method SetItem(key: Key, value: string) returns (ok: bool)
      modifies this
      ensures ok == Set(old(View()), key, value).Some?
      ensures View() == if ok then Set(old(View()), key, value).value else old(View())
    {
      if key == IFILE {
        var found := IndexFrom(ifiles, value, 0);
        if found.Some? {
          var at := FindIfile(found.value);
          if at.None? {
            return false;
          }
          parameters := RemoveAt(parameters, at.value);
          ifiles := RemoveAt(ifiles, found.value);
        }
        parameters := parameters + [key];
        ifiles := ifiles + [value];
      } else {
        var found := IndexFrom(parameters, key, 0);
        if found.Some? {
          parameters := RemoveAt(parameters, found.value);
        }
        parameters := parameters + [key];
        values := values[key := value];
      }
      return true;
    }

    /** All pairs in order; the i-th IFILE entry takes the i-th file name. */
    method Items() returns (pairs: seq<(Key, string)>)
      requires Valid(View())
      ensures pairs == Pairs(View())
    {
      pairs := [];
      var index := 0;
      for i := 0 to |parameters|
        invariant index == Rank(parameters, i) && |pairs| == i
        invariant forall j :: 0 <= j < i ==> pairs[j] == PairAt(View(), j)
      {
        RankGrows(parameters, i + 1, |parameters|);
        if parameters[i] == IFILE {
          pairs := pairs + [(IFILE, ifiles[index])];
          index := index + 1;
        } else {
          pairs := pairs + [(parameters[i], values[parameters[i]])];
        }
      }
    }
  }

  lemma SkipNext(keys: seq<Key>, n: nat, p: nat)
    requires Skip(keys, 0, n) == Some(p)
    ensures Skip(keys, 0, n + 1) == IndexFrom(keys, IFILE, p + 1)
  {
  }

  lemma {:induction false} SkipFails(keys: seq<Key>, at: nat, m: nat, n: nat)
    requires m <= n && Skip(keys, at, m).None?
    ensures Skip(keys, at, n).None?
  {
    if m < n {
      SkipFails(keys, at, m, n - 1);
    }
  }

  // --------------------------------------------------------------- facts about ranks

  lemma {:induction false} RankGrows(keys: seq<Key>, m: nat, n: nat)
    requires m <= n <= |keys|
    ensures Rank(keys, m) <= Rank(keys, n)
  {
    if m < n {
      RankGrows(keys, m, n - 1);
    }
  }

  lemma {:induction false} RankFlat(keys: seq<Key>, m: nat, n: nat)
    requires m <= n <= |keys| && forall i :: m <= i < n ==> keys[i] != IFILE
    ensures Rank(keys, m) == Rank(keys, n)
  {
    if m < n {
      RankFlat(keys, m, n - 1);
    }
  }

  lemma {:induction false} RankPrefix(a: seq<Key>, b: seq<Key>, n: nat)
    requires n <= |a| && n <= |b| && forall i :: 0 <= i < n ==> a[i] == b[i]
    ensures Rank(a, n) == Rank(b, n)
  {
    if n > 0 {
      RankPrefix(a, b, n - 1);
    }
  }

  lemma {:induction false} RankRemoved(keys: seq<Key>, q: nat, n: nat)
    requires q < |keys| && n < |keys|
    ensures Rank(RemoveAt(keys, q), n)
            == if n <= q then Rank(keys, n) else Rank(keys, n + 1) - (if keys[q] == IFILE then 1 else 0)
  {
    if n <= q {
      RankPrefix(RemoveAt(keys, q), keys, n);
    } else {
      RankRemoved(keys, q, n - 1);
    }
  }

  /** Since the search starts at position 1, an IFILE in first place is never seen. */
  lemma {:induction false} SkipMeans(keys: seq<Key>, times: nat)
    requires keys != []
    ensures var unseen := Rank(keys, 1);
            match Skip(keys, 0, times)
            case None => times > 0 && Rank(keys, |keys|) < unseen + times
            case Some(p) => p < |keys| && Rank(keys, p + 1) == unseen + times && (times > 0 ==> keys[p] == IFILE)
  {
    if times > 0 {
      SkipMeans(keys, times - 1);
      match Skip(keys, 0, times - 1)
      case None =>
      case Some(p) =>
        SkipNext(keys, times - 1, p);
        NextRank(keys, p);
    }
  }

  lemma NextRank(keys: seq<Key>, p: nat)
    requires p < |keys|
    ensures match IndexFrom(keys, IFILE, p + 1)
            case None => Rank(keys, |keys|) == Rank(keys, p + 1)
            case Some(q) => q < |keys| && keys[q] == IFILE && Rank(keys, q + 1) == Rank(keys, p + 1) + 1
  {
    match IndexFrom(keys, IFILE, p + 1)
    case None => RankFlat(keys, p + 1, |keys|);
    case Some(q) => RankFlat(keys, p + 1, q);
  }

  // ----------------------------------------------------------- the invariant of a run

  /** Setting is dropping the old entry, if there is one, and adding the new one. */
  function DropIfile(c: Params, p: nat, k: nat): Params
    requires p < |c.keys| && k < |c.ifiles|
  {
    Params(RemoveAt(c.keys, p), RemoveAt(c.ifiles, k), c.values)
  }

  function DropKey(c: Params, p: nat): Params
    requires p < |c.keys|
  {
    Params(RemoveAt(c.keys, p), c.ifiles, c.values - {c.keys[p]})
  }

  function Add(c: Params, key: Key, value: string): Params {
    if key == IFILE then Params(c.keys + [key], c.ifiles + [value], c.values)
    else Params(c.keys + [key], c.ifiles, c.values[key := value])
  }

  lemma UniqueRemoved(keys: seq<Key>, p: nat)
    requires Unique(keys) && p < |keys|
    ensures Unique(RemoveAt(keys, p)) && (keys[p] != IFILE ==> keys[p] !in RemoveAt(keys, p))
  {
  }

  lemma DropIfileValid(c: Params, p: nat, k: nat)
    requires Valid(c) && p < |c.keys| && c.keys[p] == IFILE && k < |c.ifiles|
    ensures Valid(DropIfile(c, p, k)) && c.ifiles[k] !in DropIfile(c, p, k).ifiles
  {
    RankRemoved(c.keys, p, |c.keys| - 1);
    KeysRemoved(c.keys, p);
    UniqueRemoved(c.keys, p);
  }

  lemma DropKeyValued(c: Params, p: nat)
    requires Unique(c.keys) && Valued(c.keys, c.values) && p < |c.keys| && c.keys[p] != IFILE
    ensures Valued(DropKey(c, p).keys, DropKey(c, p).values)
  {
    KeysRemoved(c.keys, p);
    UniqueRemoved(c.keys, p);
  }

  lemma DropKeyValid(c: Params, p: nat)
    requires Valid(c) && p < |c.keys| && c.keys[p] != IFILE
    ensures Valid(DropKey(c, p)) && c.keys[p] !in DropKey(c, p).keys
  {
    RankRemoved(c.keys, p, |c.keys| - 1);
    DropKeyValued(c, p);
    UniqueRemoved(c.keys, p);
  }

  lemma AddValid(c: Params, key: Key, value: string)
    requires Valid(c) && (if key == IFILE then value !in c.ifiles else key !in c.keys)
    ensures Valid(Add(c, key, value))
  {
    RankPrefix(Add(c, key, value).keys, c.keys, |c.keys|);
  }

  /** The container that the new entry is added to. */
  function Cleared(c: Params, key: Key, value: string): Params
    requires Set(c, key, value).Some?
  {
    if key == IFILE then
      match IndexFrom(c.ifiles, value, 0)
      case None => c
      case Some(k) => DropIfile(c, Skip(c.keys, 0, k + 1).value, k)
    else
      match IndexFrom(c.keys, key, 0)
      case None => c
      case Some(p) => DropKey(c, p)
  }

  lemma SetKeyIsAdd(c: Params, key: Key, value: string)
    requires Valid(c) && key != IFILE
    ensures var base := Cleared(c, key, value);
            Valid(base) && key !in base.keys && Set(c, key, value).value == Add(base, key, value)
  {
    match IndexFrom(c.keys, key, 0)
    case None =>
    case Some(p) =>
      DropKeyValid(c, p);
      assert (c.values - {key})[key := value] == c.values[key := value];
  }

  lemma SetIsAdd(c: Params, key: Key, value: string)
    requires Valid(c) && Set(c, key, value).Some?
    ensures var base := Cleared(c, key, value);
            Valid(base) && Set(c, key, value).value == Add(base, key, value)
            && (if key == IFILE then value !in base.ifiles else key !in base.keys)
  {
    if key == IFILE {
      match IndexFrom(c.ifiles, value, 0)
      case None =>
      case Some(k) => DropIfileValid(c, Skip(c.keys, 0, k + 1).value, k);
    } else {
      SetKeyIsAdd(c, key, value);
    }
  }

  lemma SetKeepsValid(c: Params, key: Key, value: string)
    requires Valid(c) && Set(c, key, value).Some?
    ensures Valid(Set(c, key, value).value)
  {
    SetIsAdd(c, key, value);
    AddValid(Cleared(c, key, value), key, value);
  }

  lemma KeysRemoved(keys: seq<Key>, p: nat)
    requires p < |keys|
    ensures forall k :: k in keys <==> k in RemoveAt(keys, p) || k == keys[p]
  {
    var r := RemoveAt(keys, p);
    forall k | k in keys && k != keys[p]
      ensures k in r
    {
      var i :| 0 <= i < |keys| && keys[i] == k;
      assert if i < p then r[i] == k else r[i - 1] == k;
    }
    forall k | k in r
      ensures k in keys
    {
      var i :| 0 <= i < |r| && r[i] == k;
    }
  }

  /** A call that raises leaves the container as it was. */
  function After(calls: seq<(Key, string)>): Params
    decreases |calls|
  {
    if calls == [] then Params([], [], map[])
    else
      var n := |calls| - 1;
      var c := After(calls[..n]);
      match Set(c, calls[n].0, calls[n].1)
      case None => c
      case Some(d) => d
  }

  /** Whatever is set in whatever order, and whether or not a call raises: every key but
      IFILE occurs once and has a value, and there are as many IFILE entries as file
      names, all different; so listing the pairs never runs out of names. */
  lemma {:induction false} AlwaysValid(calls: seq<(Key, string)>)
    ensures Valid(After(calls))
    decreases |calls|
  {
    if calls != [] {
      var n := |calls| - 1;
      AlwaysValid(calls[..n]);
      if Set(After(calls[..n]), calls[n].0, calls[n].1).Some? {
        SetKeepsValid(After(calls[..n]), calls[n].0, calls[n].1);
      }
    }
  }

  // ------------------------------------------------------------ what setting is meant to do

  function PairAt(c: Params, i: nat): (Key, string)
    requires i < |c.keys|
  {
    var k := Rank(c.keys, i);
    (c.keys[i],
     if c.keys[i] == IFILE then (if k < |c.ifiles| then c.ifiles[k] else "")
     else if c.keys[i] in c.values then c.values[c.keys[i]] else "")
  }

  function Pairs(c: Params): (pairs: seq<(Key, string)>)
    ensures |pairs| == |c.keys|
    ensures forall i :: 0 <= i < |pairs| ==> pairs[i] == PairAt(c, i)
  {
    seq(|c.keys|, i requires 0 <= i < |c.keys| => PairAt(c, i))
  }

  predicate Replaced(pair: (Key, string), key: Key, value: string) {
    pair.0 == key && (key == IFILE ==> pair.1 == value)
  }

  function Without(pairs: seq<(Key, string)>, key: Key, value: string): seq<(Key, string)> {
    if pairs == [] then []
    else (if Replaced(pairs[0], key, value) then [] else [pairs[0]]) + Without(pairs[1..], key, value)
  }

  /** The listing after a parameter is set: an earlier setting of the same name (for
      IFILE: of the same file) is gone, and the new one comes last. */
  function Wanted(c: Params, key: Key, value: string): seq<(Key, string)> {
    Without(Pairs(c), key, value) + [(key, value)]
  }

  lemma AddedPairs(c: Params, key: Key, value: string)
    requires Valid(c) && (if key == IFILE then value !in c.ifiles else key !in c.keys)
    ensures Pairs(Add(c, key, value)) == Pairs(c) + [(key, value)]
  {
    var d := Add(c, key, value);
    RankPrefix(d.keys, c.keys, |c.keys|);
    forall i | 0 <= i < |c.keys|
      ensures PairAt(d, i) == PairAt(c, i)
    {
      RankPrefix(d.keys, c.keys, i);
      RankGrows(c.keys, i + 1, |c.keys|);
    }
  }

  lemma DroppedKeyPair(c: Params, p: nat, i: nat)
    requires Unique(c.keys) && p < |c.keys| && c.keys[p] != IFILE && i < |c.keys| - 1
    ensures PairAt(DropKey(c, p), i) == PairAt(c, if i < p then i else i + 1)
  {
    RankRemoved(c.keys, p, i);
    var j := if i < p then i else i + 1;
    assert RemoveAt(c.keys, p)[i] == c.keys[j] != c.keys[p];
  }

  lemma DroppedKeyPairs(c: Params, p: nat)
    requires Valid(c) && p < |c.keys| && c.keys[p] != IFILE
    ensures Pairs(DropKey(c, p)) == RemoveAt(Pairs(c), p)
  {
    forall i | 0 <= i < |c.keys| - 1
      ensures Pairs(DropKey(c, p))[i] == RemoveAt(Pairs(c), p)[i]
    {
      DroppedKeyPair(c, p, i);
    }
  }

  lemma DroppedIfilePair(c: Params, p: nat, i: nat)
    requires Rank(c.keys, |c.keys|) == |c.ifiles| && p < |c.keys| && c.keys[p] == IFILE && i < |c.keys| - 1
    requires Rank(c.keys, p) < |c.ifiles|
    ensures PairAt(DropIfile(c, p, Rank(c.keys, p)), i) == PairAt(c, if i < p then i else i + 1)
  {
    if RemoveAt(c.keys, p)[i] == IFILE {
      IfileNameKept(c.keys, c.ifiles, p, i);
    }
  }

  lemma IfileNameKept(keys: seq<Key>, ifiles: seq<string>, p: nat, i: nat)
    requires p < |keys| && keys[p] == IFILE && i < |keys| - 1 && RemoveAt(keys, p)[i] == IFILE
    requires Rank(keys, |keys|) == |ifiles| && Rank(keys, p) < |ifiles|
    ensures var r, s := Rank(RemoveAt(keys, p), i), Rank(keys, if i < p then i else i + 1);
            r < |ifiles| - 1 && s < |ifiles| && RemoveAt(ifiles, Rank(keys, p))[r] == ifiles[s]
  {
    IfileRanks(keys, p, i);
    RankGrows(keys, if i < p then i + 1 else i + 2, |keys|);
  }

  /** Dropping an IFILE entry keeps the number of those before it and takes one off for
      those after it, so each still points at its own file name. */
  lemma IfileRanks(keys: seq<Key>, p: nat, i: nat)
    requires p < |keys| && keys[p] == IFILE && i < |keys| - 1 && RemoveAt(keys, p)[i] == IFILE
    ensures var k := Rank(keys, p);
            if i < p then Rank(RemoveAt(keys, p), i) == Rank(keys, i) < k
            else k < Rank(keys, i + 1) == Rank(RemoveAt(keys, p), i) + 1
  {
    RankRemoved(keys, p, i);
    if i < p {
      RankGrows(keys, i + 1, p);
    } else {
      RankGrows(keys, p + 1, i + 1);
    }
  }

  lemma DroppedIfilePairs(c: Params, p: nat)
    requires Valid(c) && p < |c.keys| && c.keys[p] == IFILE && Rank(c.keys, p) < |c.ifiles|
    ensures Pairs(DropIfile(c, p, Rank(c.keys, p))) == RemoveAt(Pairs(c), p)
  {
    forall i | 0 <= i < |c.keys| - 1
      ensures Pairs(DropIfile(c, p, Rank(c.keys, p)))[i] == RemoveAt(Pairs(c), p)[i]
    {
      DroppedIfilePair(c, p, i);
    }
  }

  /** Filtering out the one pair that is replaced is removing it. */
  lemma {:induction false} WithoutOne(pairs: seq<(Key, string)>, key: Key, value: string, p: nat)
    requires p < |pairs| && Replaced(pairs[p], key, value)
    requires forall i :: 0 <= i < |pairs| && i != p ==> !Replaced(pairs[i], key, value)
    ensures Without(pairs, key, value) == RemoveAt(pairs, p)
  {
    var rest := pairs[1..];
    if p == 0 {
      WithoutNone(rest, key, value);
    } else {
      WithoutOne(rest, key, value, p - 1);
    }
  }

  lemma {:induction false} WithoutNone(pairs: seq<(Key, string)>, key: Key, value: string)
    requires forall i :: 0 <= i < |pairs| ==> !Replaced(pairs[i], key, value)
    ensures Without(pairs, key, value) == pairs
  {
    if pairs != [] {
      WithoutNone(pairs[1..], key, value);
    }
  }

  /** The IFILE entry with `k` others before it. */
  lemma {:induction false} IfileAt(keys: seq<Key>, k: nat, n: nat) returns (q: nat)
    requires n <= |keys| && k < Rank(keys, n)
    ensures q < n && keys[q] == IFILE && Rank(keys, q) == k
  {
    if Rank(keys, n - 1) == k {
      q := n - 1;
    } else {
      q := IfileAt(keys, k, n - 1);
    }
  }

  lemma RankInjective(keys: seq<Key>, p: nat, q: nat)
    requires p < |keys| && q < |keys| && keys[p] == IFILE && keys[q] == IFILE && Rank(keys, p) == Rank(keys, q)
    ensures p == q
  {
    var low, high := if p <= q then p else q, if p <= q then q else p;
    if low < high {
      RankGrows(keys, low + 1, high);
    }
  }

  /** The entry of a file that is already listed is the one pair that is replaced. */
  lemma OldIfile(c: Params, k: nat, q: nat)
    requires Valid(c) && k < |c.ifiles| && q < |c.keys| && c.keys[q] == IFILE && Rank(c.keys, q) == k
    ensures Without(Pairs(c), IFILE, c.ifiles[k]) == RemoveAt(Pairs(c), q)
  {
    var pairs := Pairs(c);
    forall i | 0 <= i < |pairs| && i != q
      ensures !Replaced(pairs[i], IFILE, c.ifiles[k])
    {
      if c.keys[i] == IFILE {
        RankGrows(c.keys, i + 1, |c.keys|);
        if Rank(c.keys, i) == k {
          RankInjective(c.keys, i, q);
        }
      }
    }
    WithoutOne(pairs, IFILE, c.ifiles[k], q);
  }

  /** Setting any other key always does what it is meant to. */
  lemma SetOther(c: Params, key: Key, value: string)
    requires Valid(c) && key != IFILE
    ensures Set(c, key, value).Some? && Pairs(Set(c, key, value).value) == Wanted(c, key, value)
  {
    SetIsAdd(c, key, value);
    AddedPairs(Cleared(c, key, value), key, value);
    match IndexFrom(c.keys, key, 0)
    case None => WithoutNone(Pairs(c), key, value);
    case Some(p) =>
      DroppedKeyPairs(c, p);
      WithoutOne(Pairs(c), key, value, p);
  }

  lemma SetNewIfile(c: Params, value: string)
    requires Valid(c) && value !in c.ifiles
    ensures Set(c, IFILE, value).Some? && Pairs(Set(c, IFILE, value).value) == Wanted(c, IFILE, value)
  {
    SetIsAdd(c, IFILE, value);
    AddedPairs(c, IFILE, value);
    forall i | 0 <= i < |c.keys|
      ensures !Replaced(Pairs(c)[i], IFILE, value)
    {
      RankGrows(c.keys, i + 1, |c.keys|);
    }
    WithoutNone(Pairs(c), IFILE, value);
  }

  lemma SkippedRight(c: Params, k: nat, q: nat)
    requires Valid(c) && k < |c.ifiles| && q < |c.keys| && c.keys[q] == IFILE && Rank(c.keys, q) == k
    requires c.keys[0] != IFILE
    ensures Skip(c.keys, 0, k + 1) == Some(q)
  {
    SkipMeans(c.keys, k + 1);
    RankGrows(c.keys, q + 1, |c.keys|);
    RankInjective(c.keys, Skip(c.keys, 0, k + 1).value, q);
  }

  /** With an IFILE in first place the search ends one entry too far, or nowhere. */
  lemma SkippedWrong(c: Params, k: nat)
    requires Valid(c) && k < |c.ifiles| && c.keys != [] && c.keys[0] == IFILE
    ensures var at := Skip(c.keys, 0, k + 1);
            (at.None? <==> k == |c.ifiles| - 1) && (at.Some? ==> Rank(c.keys, at.value) == k + 1)
  {
    SkipMeans(c.keys, k + 1);
    if Skip(c.keys, 0, k + 1).Some? {
      RankGrows(c.keys, Skip(c.keys, 0, k + 1).value + 1, |c.keys|);
    }
  }

  /** If the entry found is the right one, or equal to it, the right pair moves. */
  lemma SetFound(c: Params, k: nat, q: nat, at: nat)
    requires Valid(c) && k < |c.ifiles| && q < |c.keys| && c.keys[q] == IFILE && Rank(c.keys, q) == k
    requires Skip(c.keys, 0, k + 1) == Some(at) && RemoveAt(c.keys, at) == RemoveAt(c.keys, q)
    ensures var done := Set(c, IFILE, c.ifiles[k]);
            done.Some? && Pairs(done.value) == RemoveAt(Pairs(c), q) + [(IFILE, c.ifiles[k])]
  {
    assert IndexFrom(c.ifiles, c.ifiles[k], 0) == Some(k);
    SetIsAdd(c, IFILE, c.ifiles[k]);
    DroppedIfilePairs(c, q);
    AddedPairs(Cleared(c, IFILE, c.ifiles[k]), IFILE, c.ifiles[k]);
  }

  /** Giving a listed file again works exactly if the first parameter is not an IFILE
      or the entry right after the old one is an IFILE too. */
  lemma SetListedIfile(c: Params, k: nat, q: nat)
    requires Valid(c) && k < |c.ifiles| && q < |c.keys| && c.keys[q] == IFILE && Rank(c.keys, q) == k
    ensures var done := Set(c, IFILE, c.ifiles[k]);
            (done.Some? && Pairs(done.value) == Wanted(c, IFILE, c.ifiles[k]))
            <==> c.keys[0] != IFILE || (q + 1 < |c.keys| && c.keys[q + 1] == IFILE)
  {
    OldIfile(c, k, q);
    if c.keys[0] != IFILE {
      SkippedRight(c, k, q);
      SetFound(c, k, q, q);
    } else if q + 1 < |c.keys| && c.keys[q + 1] == IFILE {
      SkippedNeighbour(c, k, q);
      SetFound(c, k, q, q + 1);
    } else {
      SetMissed(c, k, q);
    }
  }

  lemma SetMissed(c: Params, k: nat, q: nat)
    requires Valid(c) && k < |c.ifiles| && q < |c.keys| && c.keys[q] == IFILE && Rank(c.keys, q) == k
    requires c.keys[0] == IFILE && (q + 1 == |c.keys| || c.keys[q + 1] != IFILE)
    ensures var done := Set(c, IFILE, c.ifiles[k]);
            done.Some? ==> Pairs(done.value) != RemoveAt(Pairs(c), q) + [(IFILE, c.ifiles[k])]
  {
    SkippedWrong(c, k);
    assert IndexFrom(c.ifiles, c.ifiles[k], 0) == Some(k);
    if Set(c, IFILE, c.ifiles[k]).Some? {
      WrongEntry(c, q, Skip(c.keys, 0, k + 1).value);
    }
  }

  lemma SkippedNeighbour(c: Params, k: nat, q: nat)
    requires Valid(c) && k < |c.ifiles| && q + 1 < |c.keys| && c.keys[q] == IFILE && Rank(c.keys, q) == k
    requires c.keys[0] == IFILE && c.keys[q + 1] == IFILE
    ensures Skip(c.keys, 0, k + 1) == Some(q + 1) && RemoveAt(c.keys, q + 1) == RemoveAt(c.keys, q)
  {
    SkippedWrong(c, k);
    RankGrows(c.keys, q + 2, |c.keys|);
    RankInjective(c.keys, Skip(c.keys, 0, k + 1).value, q + 1);
  }

  /** Dropping a later IFILE entry instead moves the key that follows the old one. */
  lemma WrongEntry(c: Params, q: nat, at: nat)
    requires Valid(c) && q < |c.keys| && at < |c.keys| && c.keys[q] == IFILE && c.keys[at] == IFILE
    requires Rank(c.keys, at) == Rank(c.keys, q) + 1
    requires q + 1 == |c.keys| || c.keys[q + 1] != IFILE
    ensures q + 1 < at
    ensures forall d: Params, tail :: d.keys == RemoveAt(c.keys, at) + [IFILE] ==> Pairs(d) != RemoveAt(Pairs(c), q) + [tail]
  {
    if at <= q {
      RankGrows(c.keys, at, q);
    }
    forall d: Params, tail | d.keys == RemoveAt(c.keys, at) + [IFILE]
      ensures Pairs(d) != RemoveAt(Pairs(c), q) + [tail]
    {
      assert Pairs(d)[q].0 == IFILE;
      assert (RemoveAt(Pairs(c), q) + [tail])[q].0 == c.keys[q + 1];
    }
  }

  /** The old entry of the file is followed by another IFILE entry. */
  ghost predicate NextIsIfile(c: Params, value: string) {
    exists q: nat :: q + 1 < |c.keys| && c.keys[q] == IFILE && c.keys[q + 1] == IFILE
                     && Rank(c.keys, q) < |c.ifiles| && c.ifiles[Rank(c.keys, q)] == value
  }

  /** SETTING.  For every valid container, setting a parameter moves exactly its old pair
      to the end, or appends it if there is none, if and only if it is not a listed
      IFILE, or the first parameter is not an IFILE, or the old entry is followed by
      another IFILE entry.  Otherwise the call raises or moves a different key. */
  lemma SettingWorks(c: Params, key: Key, value: string)
    requires Valid(c)
    ensures var done := Set(c, key, value);
            (done.Some? && Pairs(done.value) == Wanted(c, key, value))
            <==> key != IFILE || value !in c.ifiles || c.keys[0] != IFILE || NextIsIfile(c, value)
  {
    if key != IFILE {
      SetOther(c, key, value);
    } else if value !in c.ifiles {
      SetNewIfile(c, value);
    } else {
      var k :| 0 <= k < |c.ifiles| && c.ifiles[k] == value;
      var q := IfileAt(c.keys, k, |c.keys|);
      SetListedIfile(c, k, q);
      NextMeans(c, k, q);
    }
  }

  lemma NextMeans(c: Params, k: nat, q: nat)
    requires Distinct(c.ifiles) && k < |c.ifiles| && q < |c.keys| && c.keys[q] == IFILE && Rank(c.keys, q) == k
    ensures NextIsIfile(c, c.ifiles[k]) <==> q + 1 < |c.keys| && c.keys[q + 1] == IFILE
  {
    if NextIsIfile(c, c.ifiles[k]) {
      var r: nat :| r + 1 < |c.keys| && c.keys[r] == IFILE && c.keys[r + 1] == IFILE
                    && Rank(c.keys, r) < |c.ifiles| && c.ifiles[Rank(c.keys, r)] == c.ifiles[k];
      RankInjective(c.keys, q, r);
    }
  }

  /** Naming the same include file twice, and nothing else, is an error. */
  lemma SameIfileAgain(name: string)
    ensures After([(IFILE, name)]).keys == [IFILE]
    ensures Set(After([(IFILE, name)]), IFILE, name) == None
  {
    var c := After([(IFILE, name)]);
    assert After([(IFILE, name)][..0]) == Params([], [], map[]);
    assert c == Params([IFILE], [name], map[]);
    AlwaysValid([(IFILE, name)]);
    SkippedWrong(c, 0);
  }
}
