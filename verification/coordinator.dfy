/** The driver: the paths of a directory are cut into 16 contiguous shards,
    one per worker thread; each worker scans the `.java` files of its shard
    and appends what it found to the shared list under a lock. Files are
    given as a map from path to content (a path missing from the map is a
    file that cannot be opened), and the workers' appends happen one after
    the other, in an order given as a parameter. */
module Coordinator {
  import opened Text
  import opened Scanner

  /** The number of worker threads main starts. */
  const NumThreads: nat := 16

  /* ---------- File names ---------- */

  /** The position of the last `c` in `s[..upto]`, if any. */
  function LastIndexOf(s: string, c: char, upto: nat): (r: Option<nat>)
    requires upto <= |s|
    ensures r.Some? ==> r.value < upto && s[r.value] == c
    decreases upto
  {
    if upto == 0 then None
    else if s[upto - 1] == c then Some(upto - 1)
    else LastIndexOf(s, c, upto - 1)
  }

  /** Nothing after the reported position, below `upto`, is a `c`. */
  lemma {:induction false} LastIndexOfLast(s: string, c: char, upto: nat, k: nat)
    requires upto <= |s| && k < upto && s[k] == c
    ensures LastIndexOf(s, c, upto).Some? && k <= LastIndexOf(s, c, upto).value
    decreases upto
  {
    if s[upto - 1] != c {
      LastIndexOfLast(s, c, upto - 1, k);
    }
  }

  /** `fs::path(path).extension()`, simplified: the part of the file name
      from its last `.` on; nothing when the name has no `.`, when its only
      `.` is the first character (a hidden file), or when it is `.` or
      `..`. */
  function Extension(path: string): (r: string)
    ensures |r| <= |BaseName(path)|
  {
    var name := BaseName(path);
    if IsDotName(name) then ""
    else
      match LastIndexOf(name, '.', |name|)
      case None => ""
      case Some(i) => if i == 0 then "" else name[i..]
  }

  /** The names `.` and `..`. */
  predicate IsDotName(name: string) {
    (|name| == 1 || |name| == 2) && name[0] == '.' && name[|name| - 1] == '.'
  }

  /** The test that picks the files a worker scans. */
  predicate IsJava(path: string) {
    Extension(path) == ".java"
  }

  /** A file name that ends in `.java` after at least one other character
      has the extension `.java`. */
  lemma JavaSuffixIsExtension(path: string)
    requires var name := BaseName(path); |name| > 5 && name[|name| - 5..] == ".java"
    ensures IsJava(path)
  {
    var name := BaseName(path);
    var d := |name| - 5;
    assert name[d] == name[d..][0] == '.';
    LastIndexOfLast(name, '.', |name|, d);
    var i := LastIndexOf(name, '.', |name|).value;
    assert i == d;
  }

  /** The extension `.java` is the last five characters of a file name
      that has at least one more. */
  lemma ExtensionIsJavaSuffix(path: string)
    requires IsJava(path)
    ensures var name := BaseName(path); |name| > 5 && name[|name| - 5..] == ".java"
  {
    var name := BaseName(path);
    var i := LastIndexOf(name, '.', |name|).value;
    assert name[i..] == ".java";
  }

  /** A path is scanned exactly when its file name is longer than `.java`
      and ends with it. */
  lemma IsJavaIff(path: string)
    ensures IsJava(path) <==> var name := BaseName(path); |name| > 5 && name[|name| - 5..] == ".java"
  {
    var name := BaseName(path);
    if |name| > 5 && name[|name| - 5..] == ".java" {
      JavaSuffixIsExtension(path);
    }
    if IsJava(path) {
      ExtensionIsJavaSuffix(path);
    }
  }

  /* ---------- One worker ---------- */

  /** What the program reads for a path: its content, or nothing when the
      file cannot be opened. */
  function ReadFile(files: map<string, string>, path: string): (r: Option<string>)
    ensures r.Some? <==> path in files
  {
    if path in files then Some(files[path]) else None
  }

  /** What one path contributes: processFile's records when it is a
      `.java` file that can be opened, nothing otherwise. */
  function PathCalls(path: string, files: map<string, string>): (r: seq<FunctionCall>)
    ensures !IsJava(path) || path !in files ==> r == []
  {
    if IsJava(path) && path in files then ScanContent(path, files[path]) else []
  }

  /** The contribution of every path, by index. */
  function FileResults(paths: seq<string>, files: map<string, string>): (rs: seq<seq<FunctionCall>>)
    ensures |rs| == |paths|
    decreases |paths|
  {
    if paths == [] then []
    else FileResults(paths[..|paths| - 1], files) + [PathCalls(paths[|paths| - 1], files)]
  }

  lemma {:induction false} FileResultsAt(paths: seq<string>, files: map<string, string>, i: nat)
    requires i < |paths|
    ensures FileResults(paths, files)[i] == PathCalls(paths[i], files)
    decreases |paths|
  {
    if i < |paths| - 1 {
      var init := paths[..|paths| - 1];
      FileResultsAt(init, files, i);
      assert init[i] == paths[i];
    }
  }

  /** The contributions with indices in `[lo, hi)`, one after the other. */
  function Concat(rs: seq<seq<FunctionCall>>, lo: nat, hi: nat): seq<FunctionCall>
    requires hi <= |rs|
    decreases hi
  {
    if hi <= lo then [] else Concat(rs, lo, hi - 1) + rs[hi - 1]
  }

  /** The contributions of a range are those of its two halves, in order. */
  lemma {:induction false} ConcatSplit(rs: seq<seq<FunctionCall>>, lo: nat, mid: nat, hi: nat)
    requires lo <= mid <= hi <= |rs|
    ensures Concat(rs, lo, hi) == Concat(rs, lo, mid) + Concat(rs, mid, hi)
    decreases hi
  {
    if mid < hi {
      ConcatSplit(rs, lo, mid, hi - 1);
    }
  }

  /** A range of paths none of which is a readable `.java` file adds no
      records: the filter of processFiles skips each one. */
  lemma {:induction false} SkippedPathsAddNothing(paths: seq<string>, files: map<string, string>, lo: nat, hi: nat)
    requires lo <= hi <= |paths|
    requires forall i :: lo <= i < hi ==> !IsJava(paths[i]) || paths[i] !in files
    ensures Concat(FileResults(paths, files), lo, hi) == []
  {
    var rs := FileResults(paths, files);
    forall i | lo <= i < hi
      ensures rs[i] == []
    {
      FileResultsAt(paths, files, i);
    }
    ConcatEmpty(rs, lo, hi);
  }

  /** A range of empty contributions concatenates to nothing. */
  lemma {:induction false} ConcatEmpty(rs: seq<seq<FunctionCall>>, lo: nat, hi: nat)
    requires hi <= |rs|
    requires forall i :: lo <= i < hi ==> rs[i] == []
    ensures Concat(rs, lo, hi) == []
    decreases hi
  {
    if lo < hi {
      ConcatEmpty(rs, lo, hi - 1);
    }
  }

  /** Every record of a range comes from one path of the range. */
  lemma {:induction false} ConcatFrom(rs: seq<seq<FunctionCall>>, lo: nat, hi: nat, c: FunctionCall)
    requires hi <= |rs| && c in Concat(rs, lo, hi)
    ensures exists i :: lo <= i < hi && c in rs[i]
    decreases hi
  {
    if c !in rs[hi - 1] {
      ConcatFrom(rs, lo, hi - 1, c);
    }
  }

  /** The records of a sequential scan of every path, in order. */
  function AllCalls(paths: seq<string>, files: map<string, string>): seq<FunctionCall> {
    Concat(FileResults(paths, files), 0, |paths|)
  }

  /** Only `.java` paths that can be opened contribute records. */
  lemma OnlyJavaFiles(paths: seq<string>, files: map<string, string>, c: FunctionCall)
    requires c in AllCalls(paths, files)
    ensures exists i :: 0 <= i < |paths| && IsJava(paths[i]) && paths[i] in files && c in ScanContent(paths[i], files[paths[i]])
  {
    var rs := FileResults(paths, files);
    ConcatFrom(rs, 0, |paths|, c);
    var i :| 0 <= i < |paths| && c in rs[i];
    FileResultsAt(paths, files, i);
  }

  /** The list every worker appends to (`allCalls`). */
  class SharedCalls {
    var calls: seq<FunctionCall>

    constructor()
      ensures calls == []
    {
      calls := [];
    }
  }

  lemma CollectStep(paths: seq<string>, files: map<string, string>, lo: nat, i: nat, path: string)
    requires lo <= i < |paths| && path == paths[i]
    ensures Concat(FileResults(paths, files), lo, i + 1) == Concat(FileResults(paths, files), lo, i) + PathCalls(path, files)
  {
    FileResultsAt(paths, files, i);
  }

  /** One iteration of processFiles' loop. */
  method ScanPath(path: string, files: map<string, string>) returns (fileCalls: seq<FunctionCall>)
    ensures fileCalls == PathCalls(path, files)
  {
    fileCalls := [];
    if IsJava(path) {
      fileCalls := ProcessFile(path, ReadFile(files, path));
    }
  }

  /** The first half of processFiles: scan the `.java` paths with indices
      from `startIdx` up to `endIdx` (and not past the end of the list),
      collecting their records locally, in index order. */
  method CollectRange(paths: seq<string>, files: map<string, string>, startIdx: nat, endIdx: nat)
    returns (localCalls: seq<FunctionCall>)
    ensures localCalls == Concat(FileResults(paths, files), startIdx, Min(endIdx, |paths|))
  {
    ghost var rs := FileResults(paths, files);
    localCalls := [];
    var i := startIdx;
    while i < endIdx && i < |paths|
      invariant startIdx <= i
      invariant i <= Min(endIdx, |paths|) || i == startIdx
      invariant i <= |paths| ==> localCalls == Concat(rs, startIdx, i)
      invariant i > |paths| ==> localCalls == []
      decreases |paths| - i
    {
      var path := paths[i];
      CollectStep(paths, files, startIdx, i, path);
      var fileCalls := ScanPath(path, files);
      localCalls := localCalls + fileCalls;
      i := i + 1;
    }
    if i > Min(endIdx, |paths|) {
      assert Concat(rs, startIdx, Min(endIdx, |paths|)) == [];
    }
  }

  /** processFiles: collect the records of the shard, then append them to
      the shared list under the lock. What the list held before stays in
      front, untouched. */
  method ProcessFiles(paths: seq<string>, files: map<string, string>, all: SharedCalls, startIdx: nat, endIdx: nat)
    modifies all
    ensures all.calls == old(all.calls) + Concat(FileResults(paths, files), startIdx, Min(endIdx, |paths|))
  {
    var localCalls := CollectRange(paths, files, startIdx, endIdx);
    all.calls := all.calls + localCalls;
  }

  /* ---------- Shards ---------- */

  /** `filesPerThread`: the size of every shard but the last. */
  function PerThread(n: nat): nat {
    n / NumThreads
  }

  /** `startIdx` of worker `i`. */
  function ShardStart(n: nat, i: nat): nat {
    i * PerThread(n)
  }

  /** `endIdx` of worker `i`: the last worker takes everything up to `n`. */
  function ShardEnd(n: nat, i: nat): nat {
    if i == NumThreads - 1 then n else (i + 1) * PerThread(n)
  }

  lemma MulMono(a: nat, b: nat, f: nat)
    requires a <= b
    ensures a * f <= b * f
  {
  }

  /** Each shard is a range inside `[0, n)`; all but the last hold exactly
      `n / 16` paths and the last one also takes the `n % 16` left over. */
  lemma ShardBounds(n: nat, i: nat)
    requires i < NumThreads
    ensures ShardStart(n, i) <= ShardEnd(n, i) <= n
    ensures i < NumThreads - 1 ==> ShardEnd(n, i) - ShardStart(n, i) == PerThread(n)
    ensures i == NumThreads - 1 ==> ShardEnd(n, i) - ShardStart(n, i) == PerThread(n) + n % NumThreads
  {
    var f := PerThread(n);
    assert n == NumThreads * f + n % NumThreads;
    if i < NumThreads - 1 {
      MulMono(i + 1, NumThreads, f);
    }
  }

  /** The shards follow each other without gap or overlap, from 0 to `n`. */
  lemma ShardsContiguous(n: nat, i: nat)
    requires i < NumThreads - 1
    ensures ShardStart(n, 0) == 0 && ShardEnd(n, NumThreads - 1) == n
    ensures ShardEnd(n, i) == ShardStart(n, i + 1)
  {
  }

  /** The worker that handles index `k`. */
  function ShardOf(n: nat, k: nat): (i: nat)
    ensures i < NumThreads
  {
    if PerThread(n) == 0 then NumThreads - 1 else Min(k / PerThread(n), NumThreads - 1)
  }

  /** Every index below `n` lies in exactly one shard: the one ShardOf
      names. */
  lemma ShardOfIff(n: nat, k: nat, i: nat)
    requires k < n && i < NumThreads
    ensures ShardStart(n, i) <= k < ShardEnd(n, i) <==> i == ShardOf(n, k)
  {
    var f := PerThread(n);
    if f > 0 {
      var q := k / f;
      assert q * f <= k < (q + 1) * f;
      if i < q {
        MulMono(i + 1, q, f);
      } else if q < i {
        MulMono(q + 1, i, f);
      }
      if q >= NumThreads - 1 {
        MulMono(NumThreads - 1, q, f);
        if i < NumThreads - 1 {
          MulMono(i + 1, NumThreads - 1, f);
        }
      }
    }
  }

  /** With fewer paths than workers, the first fifteen shards are empty
      and the last worker gets every path. */
  lemma SmallInputLastShard(n: nat, i: nat)
    requires n < NumThreads && i < NumThreads
    ensures i < NumThreads - 1 ==> ShardStart(n, i) == ShardEnd(n, i) == 0
    ensures i == NumThreads - 1 ==> ShardStart(n, i) == 0 && ShardEnd(n, i) == n
  {
  }

  /* ---------- Merging the workers ---------- */

  /** What worker `i` appends. */
  function ShardCalls(rs: seq<seq<FunctionCall>>, i: nat): seq<FunctionCall>
    requires i < NumThreads
  {
    ShardBounds(|rs|, i);
    Concat(rs, ShardStart(|rs|, i), ShardEnd(|rs|, i))
  }

  /** What each of the sixteen workers appends, by worker index. */
  function ShardOutputs(rs: seq<seq<FunctionCall>>): (outs: seq<seq<FunctionCall>>)
    ensures |outs| == NumThreads
  {
    seq(NumThreads, i requires 0 <= i < NumThreads => ShardCalls(rs, i))
  }

  /** Worker indices that all name one of the sixteen workers. */
  predicate AreWorkers(ids: seq<nat>) {
    forall k :: 0 <= k < |ids| ==> ids[k] < NumThreads
  }

  /** The shared list after the workers in `ids` have appended their
      outputs `outs`, in that order. */
  function Merged(outs: seq<seq<FunctionCall>>, ids: seq<nat>): seq<FunctionCall>
    requires |outs| == NumThreads && AreWorkers(ids)
    decreases |ids|
  {
    if ids == [] then []
    else Merged(outs, ids[..|ids| - 1]) + outs[ids[|ids| - 1]]
  }

  lemma {:induction false} MergedAppend(outs: seq<seq<FunctionCall>>, a: seq<nat>, b: seq<nat>)
    requires |outs| == NumThreads && AreWorkers(a) && AreWorkers(b)
    ensures AreWorkers(a + b) && Merged(outs, a + b) == Merged(outs, a) + Merged(outs, b)
    decreases |b|
  {
    var ab := a + b;
    if b != [] {
      var b' := b[..|b| - 1];
      assert ab[..|ab| - 1] == a + b';
      MergedAppend(outs, a, b');
    } else {
      assert ab == a;
    }
  }

  /** `[0, 1, ..., k - 1]`. */
  function Upto(k: nat): (r: seq<nat>)
    ensures |r| == k && forall j :: 0 <= j < k ==> r[j] == j
  {
    seq(k, j => j)
  }

  /** The first `k` workers, taken in index order, append the records of
      the paths below the end of shard `k - 1`. */
  lemma {:induction false} MergedInOrder(rs: seq<seq<FunctionCall>>, k: nat)
    requires 0 < k <= NumThreads
    ensures Merged(ShardOutputs(rs), Upto(k)) == Concat(rs, 0, ShardEnd(|rs|, k - 1))
  {
    var n := |rs|;
    var outs := ShardOutputs(rs);
    ShardBounds(n, k - 1);
    assert Upto(k)[..k - 1] == Upto(k - 1);
    assert outs[k - 1] == ShardCalls(rs, k - 1);
    if k == 1 {
      assert Merged(outs, Upto(0)) == [];
    } else {
      MergedInOrder(rs, k - 1);
      ShardsContiguous(n, k - 2);
      ShardBounds(n, k - 2);
      ConcatSplit(rs, 0, ShardEnd(n, k - 2), ShardEnd(n, k - 1));
    }
  }

  /** Run in index order, the workers produce exactly the sequential scan
      of every path. */
  lemma MergedAll(rs: seq<seq<FunctionCall>>)
    ensures Merged(ShardOutputs(rs), Upto(NumThreads)) == Concat(rs, 0, |rs|)
  {
    MergedInOrder(rs, NumThreads);
  }

  lemma RemoveAt(b: seq<nat>, j: nat)
    requires AreWorkers(b) && j < |b|
    ensures b == b[..j] + [b[j]] + b[j + 1..]
    ensures AreWorkers(b[..j]) && AreWorkers(b[j + 1..]) && AreWorkers(b[..j] + b[j + 1..])
    ensures multiset(b[..j] + b[j + 1..]) == multiset(b) - multiset{b[j]}
  {
    assert b == b[..j] + [b[j]] + b[j + 1..];
  }

  lemma MergedSingle(outs: seq<seq<FunctionCall>>, x: nat)
    requires |outs| == NumThreads && x < NumThreads
    ensures AreWorkers([x]) && Merged(outs, [x]) == outs[x]
  {
    assert [x][..0] == [];
  }

  /** Taking the worker at position `j` out of an order takes its records
      out of the list, wherever they were. */
  lemma MergedRemove(outs: seq<seq<FunctionCall>>, b: seq<nat>, j: nat)
    requires |outs| == NumThreads && AreWorkers(b) && j < |b|
    ensures AreWorkers(b[..j] + b[j + 1..])
    ensures multiset(Merged(outs, b)) == multiset(Merged(outs, b[..j] + b[j + 1..])) + multiset(outs[b[j]])
  {
    var x := b[j];
    var b1, b2 := b[..j], b[j + 1..];
    RemoveAt(b, j);
    MergedSingle(outs, x);
    var b1x := b1 + [x];
    MergedAppend(outs, b1, [x]);
    MergedAppend(outs, b1x, b2);
    MergedAppend(outs, b1, b2);
    assert b == b1x + b2;
  }

  lemma IndexOf(b: seq<nat>, x: nat) returns (j: nat)
    requires x in multiset(b)
    ensures j < |b| && b[j] == x
  {
    assert x in b;
    j :| 0 <= j < |b| && b[j] == x;
  }

  /** Dropping the last worker of `a` and the same worker from `b` keeps
      the two orders permutations of each other. */
  lemma DropBoth(a: seq<nat>, b: seq<nat>, j: nat)
    requires AreWorkers(a) && AreWorkers(b) && multiset(a) == multiset(b)
    requires a != [] && j < |b| && b[j] == a[|a| - 1]
    ensures AreWorkers(a[..|a| - 1]) && AreWorkers(b[..j] + b[j + 1..])
    ensures multiset(a[..|a| - 1]) == multiset(b[..j] + b[j + 1..])
  {
    assert a == a[..|a| - 1] + [a[|a| - 1]];
    RemoveAt(b, j);
  }

  /** Two orders that run the same workers, each as often, leave the same
      records in the list, each as often. */
  lemma {:induction false} MergedPermutation(outs: seq<seq<FunctionCall>>, a: seq<nat>, b: seq<nat>)
    requires |outs| == NumThreads && AreWorkers(a) && AreWorkers(b) && multiset(a) == multiset(b)
    ensures multiset(Merged(outs, a)) == multiset(Merged(outs, b))
    decreases |a|
  {
    if a != [] {
      var x := a[|a| - 1];
      var a' := a[..|a| - 1];
      assert x in multiset(b) by {
        assert x in multiset(a);
      }
      var j := IndexOf(b, x);
      var b' := b[..j] + b[j + 1..];
      DropBoth(a, b, j);
      MergedPermutation(outs, a', b');
      MergedRemove(outs, b, j);
    } else {
      assert |b| == |multiset(b)| == 0;
    }
  }

  /** `order` runs each of the sixteen workers exactly once. */
  predicate IsWorkerOrder(order: seq<nat>) {
    multiset(order) == multiset(Upto(NumThreads))
  }

  lemma WorkerOrderBound(order: seq<nat>)
    requires IsWorkerOrder(order)
    ensures |order| == NumThreads && AreWorkers(order)
  {
    assert |order| == |multiset(order)| == NumThreads;
    forall k | 0 <= k < |order| ensures order[k] < NumThreads {
      assert order[k] in multiset(Upto(NumThreads));
    }
  }

  /** main's worker loop, with the threads run one after the other in
      `order`: worker `i` gets the shard `[i * (n / 16), (i + 1) * (n / 16))`,
      the last one up to `n`, and appends its records to the shared list.
      Whatever the order, the list ends up holding the records of the
      sequential scan of every path, each as often; in index order it is
      that scan. */
  method ScanDirectory(paths: seq<string>, files: map<string, string>, order: seq<nat>) returns (allCalls: seq<FunctionCall>)
    requires IsWorkerOrder(order)
    ensures AreWorkers(order) && allCalls == Merged(ShardOutputs(FileResults(paths, files)), order)
    ensures multiset(allCalls) == multiset(AllCalls(paths, files))
    ensures order == Upto(NumThreads) ==> allCalls == AllCalls(paths, files)
  {
    WorkerOrderBound(order);
    ghost var rs := FileResults(paths, files);
    ghost var outs := ShardOutputs(rs);
    var shared := new SharedCalls();
    for k := 0 to NumThreads
      invariant shared.calls == Merged(outs, order[..k])
    {
      var i := order[k];
      var startIdx := ShardStart(|paths|, i);
      var endIdx := ShardEnd(|paths|, i);
      ShardBounds(|paths|, i);
      assert outs[i] == ShardCalls(rs, i);
      ProcessFiles(paths, files, shared, startIdx, endIdx);
      assert order[..k + 1][..k] == order[..k];
    }
    assert order[..NumThreads] == order;
    allCalls := shared.calls;
    MergedAll(rs);
    MergedPermutation(outs, order, Upto(NumThreads));
  }
}
