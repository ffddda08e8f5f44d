/** Deleting the oldest compressed logs until the logs of one kind fit their limit
    (get_total_log and delete_old_bak_logs of do_compress_and_archive.py). */
module LogEviction {
  import opened Wrappers

  datatype LogFile = LogFile(name: string, size: nat, created: int)

  predicate OfKind(f: LogFile, prefix: string) {
    prefix <= f.name
  }

  predicate IsArchive(f: LogFile, prefix: string) {
    OfKind(f, prefix) && |f.name| >= 6 && f.name[|f.name| - 6..] == "tar.gz"
  }

  function Total(files: seq<LogFile>, prefix: string): nat {
    if files == [] then 0
    else Total(files[..|files| - 1], prefix)
         + (if OfKind(files[|files| - 1], prefix) then files[|files| - 1].size else 0)
  }

  function Archives(files: seq<LogFile>, prefix: string): seq<LogFile> {
    if files == [] then []
    else Archives(files[..|files| - 1], prefix)
         + (if IsArchive(files[|files| - 1], prefix) then [files[|files| - 1]] else [])
  }

  /** A stable sort by creation time. */
  function Insert(sorted: seq<LogFile>, f: LogFile): seq<LogFile> {
    if sorted == [] || sorted[|sorted| - 1].created <= f.created then sorted + [f]
    else Insert(sorted[..|sorted| - 1], f) + [sorted[|sorted| - 1]]
  }

  function Sort(files: seq<LogFile>): seq<LogFile> {
    if files == [] then [] else Insert(Sort(files[..|files| - 1]), files[|files| - 1])
  }

  function Sizes(files: seq<LogFile>): nat {
    if files == [] then 0 else Sizes(files[..|files| - 1]) + files[|files| - 1].size
  }

  /** The directory without one file. */
  function Without(files: seq<LogFile>, gone: LogFile): seq<LogFile> {
    if files == [] then []
    else Without(files[..|files| - 1], gone) + (if files[|files| - 1] == gone then [] else [files[|files| - 1]])
  }

  function WithoutAll(files: seq<LogFile>, gone: seq<LogFile>): seq<LogFile> {
    if gone == [] then files else Without(WithoutAll(files, gone[..|gone| - 1]), gone[|gone| - 1])
  }

  predicate OldestFirst(files: seq<LogFile>) {
    forall i, j :: 0 <= i < j < |files| ==> files[i].created <= files[j].created
  }

  lemma {:induction false} InsertMembers(sorted: seq<LogFile>, f: LogFile)
    ensures multiset(Insert(sorted, f)) == multiset(sorted) + multiset{f}
  {
    if sorted != [] {
      var n := |sorted| - 1;
      InsertMembers(sorted[..n], f);
      assert sorted == sorted[..n] + [sorted[n]];
    }
  }

  lemma {:induction false} InsertOrdered(sorted: seq<LogFile>, f: LogFile)
    requires OldestFirst(sorted)
    ensures OldestFirst(Insert(sorted, f))
  {
    if sorted != [] && sorted[|sorted| - 1].created > f.created {
      var n := |sorted| - 1;
      InsertOrdered(sorted[..n], f);
      InsertBounded(sorted[..n], f, sorted[n].created);
      YoungestLast(Insert(sorted[..n], f), sorted[n]);
    }
  }

  lemma {:induction false} InsertBounded(sorted: seq<LogFile>, f: LogFile, bound: int)
    requires f.created <= bound && forall i :: 0 <= i < |sorted| ==> sorted[i].created <= bound
    ensures forall i :: 0 <= i < |Insert(sorted, f)| ==> Insert(sorted, f)[i].created <= bound
  {
    if sorted != [] {
      InsertBounded(sorted[..|sorted| - 1], f, bound);
    }
  }

  lemma YoungestLast(sorted: seq<LogFile>, f: LogFile)
    requires OldestFirst(sorted) && forall i :: 0 <= i < |sorted| ==> sorted[i].created <= f.created
    ensures OldestFirst(sorted + [f])
  {
  }

  lemma {:induction false} SortFacts(files: seq<LogFile>)
    ensures OldestFirst(Sort(files)) && multiset(Sort(files)) == multiset(files)
  {
    if files != [] {
      var n := |files| - 1;
      SortFacts(files[..n]);
      InsertMembers(Sort(files[..n]), files[n]);
      InsertOrdered(Sort(files[..n]), files[n]);
      assert files == files[..n] + [files[n]];
    }
  }

  lemma {:induction false} WithoutMembers(files: seq<LogFile>, gone: LogFile)
    requires Distinct(files)
    ensures Distinct(Without(files, gone))
    ensures forall f :: f in Without(files, gone) <==> f in files && f != gone
  {
    if files != [] {
      var n := |files| - 1;
      WithoutMembers(files[..n], gone);
      assert files == files[..n] + [files[n]];
      assert files[n] !in files[..n];
    }
  }

  lemma {:induction false} WithoutAbsent(files: seq<LogFile>, gone: LogFile)
    requires gone !in files
    ensures Without(files, gone) == files
  {
    if files != [] {
      var n := |files| - 1;
      WithoutAbsent(files[..n], gone);
      assert files == files[..n] + [files[n]];
    }
  }

  lemma TotalLast(files: seq<LogFile>, last: LogFile, prefix: string)
    ensures Total(files + [last], prefix) == Total(files, prefix) + (if OfKind(last, prefix) then last.size else 0)
  {
    assert (files + [last])[..|files|] == files;
  }

  lemma WithoutLast(files: seq<LogFile>, gone: LogFile, prefix: string)
    requires files != [] && files[|files| - 1] != gone
    ensures var n := |files| - 1;
            Total(Without(files, gone), prefix)
            == Total(Without(files[..n], gone), prefix) + (if OfKind(files[n], prefix) then files[n].size else 0)
  {
    var n := |files| - 1;
    TotalLast(Without(files[..n], gone), files[n], prefix);
  }

  lemma {:induction false} TotalWithout(files: seq<LogFile>, gone: LogFile, prefix: string)
    requires Distinct(files) && gone in files && OfKind(gone, prefix)
    ensures Total(Without(files, gone), prefix) + gone.size == Total(files, prefix)
  {
    var n := |files| - 1;
    if files[n] == gone {
      WithoutAbsent(files[..n], gone);
      assert files[..n] + [] == files[..n];
    } else {
      WithoutLast(files, gone, prefix);
      TotalWithout(files[..n], gone, prefix);
    }
  }

  lemma {:induction false} ArchivesFacts(files: seq<LogFile>, prefix: string)
    requires Distinct(files)
    ensures Distinct(Archives(files, prefix))
    ensures forall f :: f in Archives(files, prefix) <==> f in files && IsArchive(f, prefix)
  {
    if files != [] {
      var n := |files| - 1;
      ArchivesFacts(files[..n], prefix);
      assert files == files[..n] + [files[n]];
    }
  }

  lemma DistinctPermutation(a: seq<LogFile>, b: seq<LogFile>)
    requires Distinct(a) && multiset(a) == multiset(b)
    ensures Distinct(b) && forall f :: f in a <==> f in b
  {
    forall f
      ensures f in a <==> f in b
    {
      assert f in multiset(a) <==> f in multiset(b);
    }
    forall i, j | 0 <= i < j < |b|
      ensures b[i] != b[j]
    {
      if b[i] == b[j] {
        Twice(b, i, j);
        Once(a, b[i]);
      }
    }
  }

  lemma Twice(s: seq<LogFile>, i: nat, j: nat)
    requires i < j < |s| && s[i] == s[j]
    ensures multiset(s)[s[i]] >= 2
  {
    assert s == s[..j] + s[j..];
    assert s[i] in multiset(s[..j]) && s[j] in multiset(s[j..]) by {
      assert s[..j][i] == s[i] && s[j..][0] == s[j];
    }
  }

  lemma {:induction false} Once(s: seq<LogFile>, f: LogFile)
    requires Distinct(s)
    ensures multiset(s)[f] <= 1
  {
    if s != [] {
      var n := |s| - 1;
      Once(s[..n], f);
      assert s == s[..n] + [s[n]];
      if f == s[n] {
        assert f !in s[..n];
      }
    }
  }

  lemma {:induction false} WithoutAllMembers(files: seq<LogFile>, gone: seq<LogFile>)
    requires Distinct(files)
    ensures Distinct(WithoutAll(files, gone))
    ensures forall f :: f in WithoutAll(files, gone) <==> f in files && f !in gone
  {
    if gone != [] {
      var n := |gone| - 1;
      WithoutAllMembers(files, gone[..n]);
      WithoutMembers(WithoutAll(files, gone[..n]), gone[n]);
      assert forall f :: f in gone <==> f in gone[..n] || f == gone[n];
    }
  }

  /** The archives in the order in which they are deleted. */
  function Queue(files: seq<LogFile>, prefix: string): seq<LogFile> {
    Sort(Archives(files, prefix))
  }

  lemma QueueFacts(files: seq<LogFile>, prefix: string)
    requires Distinct(files)
    ensures OldestFirst(Queue(files, prefix)) && Distinct(Queue(files, prefix))
    ensures forall f :: f in Queue(files, prefix) <==> f in files && IsArchive(f, prefix)
  {
    ArchivesFacts(files, prefix);
    SortFacts(Archives(files, prefix));
    DistinctPermutation(Archives(files, prefix), Queue(files, prefix));
  }

  /** What deleting the first `k` files of the queue leaves. */
  ghost predicate Evicted(files: seq<LogFile>, prefix: string, queue: seq<LogFile>, k: nat, left: seq<LogFile>) {
    k <= |queue| && left == WithoutAll(files, queue[..k])
    && Total(left, prefix) + Sizes(queue[..k]) == Total(files, prefix)
  }

  /** Files of the directory and of the kind, none of them twice. */
  ghost predicate Evictable(files: seq<LogFile>, prefix: string, queue: seq<LogFile>) {
    Distinct(files) && Distinct(queue) && forall i :: 0 <= i < |queue| ==> queue[i] in files && OfKind(queue[i], prefix)
  }

  lemma QueueEvictable(files: seq<LogFile>, prefix: string)
    requires Distinct(files)
    ensures Evictable(files, prefix, Queue(files, prefix))
  {
    QueueFacts(files, prefix);
  }

  lemma EvictNone(files: seq<LogFile>, prefix: string, queue: seq<LogFile>)
    ensures Evicted(files, prefix, queue, 0, files)
  {
    assert queue[..0] == [];
  }

  lemma StillThere(start: seq<LogFile>, prefix: string, queue: seq<LogFile>, k: nat)
    requires Evictable(start, prefix, queue) && k < |queue|
    ensures queue[k] in WithoutAll(start, queue[..k]) && Distinct(WithoutAll(start, queue[..k]))
  {
    assert queue[k] !in queue[..k];
    WithoutAllMembers(start, queue[..k]);
  }

  lemma OneMoreGone(files: seq<LogFile>, queue: seq<LogFile>, k: nat)
    requires k < |queue|
    ensures WithoutAll(files, queue[..k + 1]) == Without(WithoutAll(files, queue[..k]), queue[k])
    ensures Sizes(queue[..k + 1]) == Sizes(queue[..k]) + queue[k].size
  {
    assert queue[..k + 1][..k] == queue[..k];
  }

  lemma EvictOne(start: seq<LogFile>, prefix: string, queue: seq<LogFile>, k: nat, files: seq<LogFile>)
    requires Evictable(start, prefix, queue) && k < |queue| && Evicted(start, prefix, queue, k, files)
    ensures Evicted(start, prefix, queue, k + 1, Without(files, queue[k]))
    ensures Total(Without(files, queue[k]), prefix) + queue[k].size == Total(files, prefix)
  {
    StillThere(start, prefix, queue, k);
    TotalWithout(files, queue[k], prefix);
    OneMoreGone(start, queue, k);
  }

  /** Before each of the first `k` deletions the total was over the limit. */
  ghost predicate Needed(files: seq<LogFile>, prefix: string, queue: seq<LogFile>, limit: nat, k: nat)
    requires k <= |queue|
  {
    forall j :: 0 <= j < k ==> Total(files, prefix) > limit + Sizes(queue[..j])
  }

  lemma EvictNext(start: seq<LogFile>, prefix: string, queue: seq<LogFile>, k: nat, files: seq<LogFile>, limit: nat)
    requires Distinct(start) && queue == Queue(start, prefix) && k < |queue|
    requires Evicted(start, prefix, queue, k, files) && Needed(start, prefix, queue, limit, k)
    requires Total(files, prefix) > limit
    ensures Evicted(start, prefix, queue, k + 1, Without(files, queue[k]))
    ensures Total(Without(files, queue[k]), prefix) + queue[k].size == Total(files, prefix)
    ensures Needed(start, prefix, queue, limit, k + 1)
  {
    QueueEvictable(start, prefix);
    EvictOne(start, prefix, queue, k, files);
  }

  class LogDirectory {
    var files: seq<LogFile>

    constructor (files: seq<LogFile>)
      ensures this.files == files
    {
      this.files := files;
    }

    method GetTotalLog(prefix: string) returns (total: nat)
      ensures total == Total(files, prefix)
    {
      total := 0;
      for i := 0 to |files|
        invariant total == Total(files[..i], prefix)
      {
        assert files[..i + 1][..i] == files[..i];
        if OfKind(files[i], prefix) {
          total := total + files[i].size;
        }
      }
      assert files[..|files|] == files;
    }

    /** Deletes the shortest oldest-first run of archives that brings the total to the
        limit, or all archives; the running total is that of the files left. */
    method DeleteOldBakLogs(prefix: string, limit: nat) returns (k: nat)
      requires Distinct(files)
      modifies this
      ensures var queue := Queue(old(files), prefix);
              Evicted(old(files), prefix, queue, k, files)
              && (Total(files, prefix) <= limit || k == |queue|)
              && Needed(old(files), prefix, queue, limit, k)
    {
      ghost var start := files;
      var total := GetTotalLog(prefix);
      var queue := Queue(files, prefix);
      EvictNone(files, prefix, queue);
      k := 0;
      while k < |queue| && total > limit
        invariant k <= |queue| && total == Total(files, prefix)
        invariant Evicted(start, prefix, queue, k, files)
        invariant Needed(start, prefix, queue, limit, k)
      {
        EvictNext(start, prefix, queue, k, files, limit);
        total := total - queue[k].size;
        files := Without(files, queue[k]);
        k := k + 1;
      }
    }
  }
}
