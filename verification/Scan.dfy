/**
  The capped breadth-first folder scan of Quick Open (quick_open.rs, scan and children).

  The file system is a parameter: for each path the children its listing would show, or nothing
  where the folder cannot be read. Standalone roots come first at depth 0; then the levels below
  the scan roots, each folder once, down to a depth limit and up to a cap on all entries. The
  reference is the scan without the cap, of which the capped one is a prefix, and the reference for
  that is distance from the roots, by walks.
 */
module QuickOpen {
  import opened Common

  type Path = string

  const MAX_DEPTH := 4
  const INDEX_CAP := 20000
  const SKIP_NAMES := ["node_modules", ".build", "dist", "build", "DerivedData", "Library", ".Trash",
                       "vendor", "target", "Pods"]

  /** A child as the folder lists it; its type may be unreadable. */
  datatype Child = Child(name: string, path: Path, kind: Option<Kind>)
  datatype Kind = Folder | Symlink | Other

  /** The file system: which paths are folders, and what a folder lists, if it can be read. */
  datatype FileSystem = FileSystem(isDir: Path -> bool, listing: Path -> Option<seq<Child>>)

  datatype Entry = Entry(path: Path, depth: nat)

  predicate Indexable(child: Child) {
    !("." <= child.name) && child.name !in SKIP_NAMES && child.kind == Some(Folder)
  }

  function Kept(children: seq<Child>): seq<Path> {
    if children == [] then []
    else
      var n := |children| - 1;
      Kept(children[..n]) + if Indexable(children[n]) then [children[n].path] else []
  }

  /** The indexable subfolders of a folder. */
  function Subfolders(fs: FileSystem, path: Path): seq<Path> {
    match fs.listing(path)
    case None => []
    case Some(children) => Kept(children)
  }

  method Children(fs: FileSystem, path: Path, out: seq<Path>) returns (out': seq<Path>)
    ensures out' == out + Subfolders(fs, path)
  {
    out' := out;
    var listing := fs.listing(path);
    if listing.None? {
      return;
    }
    var children := listing.value;
    for i := 0 to |children|
      invariant out' == out + Kept(children[..i])
    {
      assert children[..i + 1][..i] == children[..i];
      if "." <= children[i].name || children[i].name in SKIP_NAMES {
        continue;
      }
      if children[i].kind == Some(Folder) {
        out' := out' + [children[i].path];
      }
    }
    assert children[..|children|] == children;
  }

  // ---------------------------------------------------------------- the uncapped scan

  function Expand(fs: FileSystem, paths: seq<Path>): seq<Path> {
    if paths == [] then []
    else Expand(fs, paths[..|paths| - 1]) + Subfolders(fs, paths[|paths| - 1])
  }

  /** The folders `d` steps below the roots, with repetitions, in visiting order. */
  function Level(fs: FileSystem, roots: seq<Path>, d: nat): seq<Path> {
    if d == 0 then Filter(fs.isDir, roots) else Expand(fs, Level(fs, roots, d - 1))
  }

  predicate OnLevel(fs: FileSystem, roots: seq<Path>, d: nat, p: Path) {
    p in Level(fs, roots, d)
  }

  function Tagged(paths: seq<Path>, depth: nat): (r: seq<Entry>)
    ensures |r| == |paths|
  {
    seq(|paths|, i requires 0 <= i < |paths| => Entry(paths[i], depth))
  }

  /** All that the scan would visit above depth `n`: the standalone roots, then level by level. */
  function Candidates(fs: FileSystem, standalone: seq<Path>, roots: seq<Path>, n: nat): seq<Entry> {
    if n == 0 then Tagged(Filter(fs.isDir, standalone), 0)
    else Candidates(fs, standalone, roots, n - 1) + Tagged(Level(fs, roots, n - 1), n - 1)
  }

  function Paths(entries: seq<Entry>): set<Path> {
    set i | 0 <= i < |entries| :: entries[i].path
  }

  /** The first entry of each path. */
  function Dedupe(entries: seq<Entry>): seq<Entry> {
    if entries == [] then []
    else
      var n := |entries| - 1;
      var before := Dedupe(entries[..n]);
      if entries[n].path in Paths(before) then before else before + [entries[n]]
  }

  function Capped(entries: seq<Entry>): seq<Entry> {
    if |entries| > INDEX_CAP then entries[..INDEX_CAP] else entries
  }

  /** What a capped scan to `maxDepth` must answer: the first entries of the uncapped one. */
  function Scanned(fs: FileSystem, standalone: seq<Path>, roots: seq<Path>, maxDepth: nat): seq<Entry> {
    Capped(Dedupe(Candidates(fs, standalone, roots, maxDepth + 1)))
  }

  lemma {:induction false} DedupeGrows(a: seq<Entry>, b: seq<Entry>)
    ensures Dedupe(a) <= Dedupe(a + b)
  {
    if b == [] {
      assert a + b == a;
    } else {
      assert (a + b)[..|a + b| - 1] == a + b[..|b| - 1];
      DedupeGrows(a, b[..|b| - 1]);
    }
  }

  lemma DedupeSnoc(entries: seq<Entry>, e: Entry)
    ensures Dedupe(entries + [e])
            == if e.path in Paths(Dedupe(entries)) then Dedupe(entries) else Dedupe(entries) + [e]
  {
    assert (entries + [e])[..|entries|] == entries;
  }

  lemma PathsSnoc(entries: seq<Entry>, e: Entry)
    ensures Paths(entries + [e]) == Paths(entries) + {e.path}
  {
    forall p | p in Paths(entries) + {e.path} ensures p in Paths(entries + [e]) {
      if p in Paths(entries) {
        var i :| 0 <= i < |entries| && entries[i].path == p;
        assert (entries + [e])[i].path == p;
      } else {
        assert (entries + [e])[|entries|].path == p;
      }
    }
  }

  /** A full result stays the answer however many candidates follow. */
  lemma FullIsFinal(done: seq<Entry>, more: seq<Entry>, all: seq<Entry>)
    requires |Dedupe(done)| == INDEX_CAP && all == done + more
    ensures Capped(Dedupe(all)) == Dedupe(done)
  {
    DedupeGrows(done, more);
  }

  lemma {:induction false} CandidatesGrow(fs: FileSystem, standalone: seq<Path>, roots: seq<Path>, n: nat, m: nat)
    returns (more: seq<Entry>)
    requires n <= m
    ensures Candidates(fs, standalone, roots, m) == Candidates(fs, standalone, roots, n) + more
    decreases m
  {
    if n == m {
      more := [];
    } else {
      var front := CandidatesGrow(fs, standalone, roots, n, m - 1);
      var level := Tagged(Level(fs, roots, m - 1), m - 1);
      more := front + level;
      assert (Candidates(fs, standalone, roots, n) + front) + level == Candidates(fs, standalone, roots, n) + more;
    }
  }

  /** Below an empty level there is nothing. */
  lemma {:induction false} EmptyLevelIsLast(fs: FileSystem, standalone: seq<Path>, roots: seq<Path>, n: nat, m: nat)
    requires n <= m && Level(fs, roots, n) == []
    ensures Level(fs, roots, m) == []
    ensures Candidates(fs, standalone, roots, m) == Candidates(fs, standalone, roots, n)
    decreases m
  {
    if n < m {
      EmptyLevelIsLast(fs, standalone, roots, n, m - 1);
    }
  }

  // ---------------------------------------------------------------- the loops

  /** One path: recorded unless its path was seen. */
  method Visit(result: seq<Entry>, seen: set<Path>, path: Path, depth: nat, ghost done: seq<Entry>)
    returns (result': seq<Entry>, seen': set<Path>)
    requires result == Dedupe(done) && seen == Paths(result)
    ensures result' == Dedupe(done + [Entry(path, depth)]) && seen' == Paths(result')
    ensures |result| <= |result'| <= |result| + 1
  {
    DedupeSnoc(done, Entry(path, depth));
    result', seen' := result, seen;
    if path !in seen {
      PathsSnoc(result, Entry(path, depth));
      seen' := seen + {path};
      result' := result + [Entry(path, depth)];
    }
  }

  lemma StandaloneStop(fs: FileSystem, standalone: seq<Path>, i: nat)
    requires i <= |standalone| && |Dedupe(Tagged(Filter(fs.isDir, standalone[..i]), 0))| == INDEX_CAP
    ensures Capped(Dedupe(Tagged(Filter(fs.isDir, standalone), 0)))
            == Dedupe(Tagged(Filter(fs.isDir, standalone[..i]), 0))
  {
    var kept, others := Filter(fs.isDir, standalone[..i]), Filter(fs.isDir, standalone[i..]);
    FilterConcat(fs.isDir, standalone[..i], standalone[i..]);
    assert standalone == standalone[..i] + standalone[i..];
    TaggedConcat(kept, others, 0);
    FullIsFinal(Tagged(kept, 0), Tagged(others, 0), Tagged(Filter(fs.isDir, standalone), 0));
  }

  lemma TaggedConcat(a: seq<Path>, b: seq<Path>, depth: nat)
    ensures Tagged(a + b, depth) == Tagged(a, depth) + Tagged(b, depth)
  {
  }

  lemma StandaloneStep(fs: FileSystem, standalone: seq<Path>, i: nat)
    requires i < |standalone|
    ensures var kept := Filter(fs.isDir, standalone[..i]);
            Tagged(Filter(fs.isDir, standalone[..i + 1]), 0)
            == if fs.isDir(standalone[i]) then Tagged(kept, 0) + [Entry(standalone[i], 0)] else Tagged(kept, 0)
  {
    var kept := Filter(fs.isDir, standalone[..i]);
    FilterConcat(fs.isDir, standalone[..i], [standalone[i]]);
    assert standalone[..i + 1] == standalone[..i] + [standalone[i]];
    if fs.isDir(standalone[i]) {
      assert Filter(fs.isDir, [standalone[i]]) == [standalone[i]];
    } else {
      assert kept + [] == kept;
    }
  }

  method ScanStandalone(fs: FileSystem, standalone: seq<Path>) returns (result: seq<Entry>, seen: set<Path>)
    ensures result == Capped(Dedupe(Tagged(Filter(fs.isDir, standalone), 0)))
    ensures |result| < INDEX_CAP ==>
              result == Dedupe(Tagged(Filter(fs.isDir, standalone), 0)) && seen == Paths(result)
  {
    result, seen := [], {};
    for i := 0 to |standalone|
      invariant |result| <= INDEX_CAP && seen == Paths(result)
      invariant result == Dedupe(Tagged(Filter(fs.isDir, standalone[..i]), 0))
    {
      if |result| >= INDEX_CAP {
        StandaloneStop(fs, standalone, i);
        return;
      }
      StandaloneStep(fs, standalone, i);
      if fs.isDir(standalone[i]) {
        result, seen := Visit(result, seen, standalone[i], 0, Tagged(Filter(fs.isDir, standalone[..i]), 0));
      }
    }
    assert standalone[..|standalone|] == standalone;
  }

  lemma LevelStop(done: seq<Entry>, frontier: seq<Path>, i: nat, depth: nat)
    requires i <= |frontier| && |Dedupe(done + Tagged(frontier[..i], depth))| == INDEX_CAP
    ensures Capped(Dedupe(done + Tagged(frontier, depth))) == Dedupe(done + Tagged(frontier[..i], depth))
  {
    var before, after := Tagged(frontier[..i], depth), Tagged(frontier[i..], depth);
    assert Tagged(frontier, depth) == before + after by {
      TaggedConcat(frontier[..i], frontier[i..], depth);
      assert frontier == frontier[..i] + frontier[i..];
    }
    assert (done + before) + after == done + Tagged(frontier, depth);
    FullIsFinal(done + before, after, done + Tagged(frontier, depth));
  }

  lemma LevelOneMore(fs: FileSystem, done: seq<Entry>, frontier: seq<Path>, i: nat, depth: nat)
    requires i < |frontier|
    ensures done + Tagged(frontier[..i + 1], depth)
         == done + Tagged(frontier[..i], depth) + [Entry(frontier[i], depth)]
    ensures Expand(fs, frontier[..i + 1]) == Expand(fs, frontier[..i]) + Subfolders(fs, frontier[i])
  {
    assert Tagged(frontier[..i + 1], depth) == Tagged(frontier[..i], depth) + [Entry(frontier[i], depth)];
    assert frontier[..i + 1][..i] == frontier[..i];
  }

  method ScanLevel(fs: FileSystem, frontier: seq<Path>, depth: nat, maxDepth: nat, result: seq<Entry>, seen: set<Path>,
                   ghost done: seq<Entry>)
    returns (result': seq<Entry>, seen': set<Path>, next: seq<Path>)
    requires |result| < INDEX_CAP && result == Dedupe(done) && seen == Paths(result)
    ensures result' == Capped(Dedupe(done + Tagged(frontier, depth)))
    ensures |result'| < INDEX_CAP ==>
              && result' == Dedupe(done + Tagged(frontier, depth)) && seen' == Paths(result')
              && (depth < maxDepth ==> next == Expand(fs, frontier))
  {
    result', seen', next := result, seen, [];
    assert done + Tagged(frontier[..0], depth) == done;
    for i := 0 to |frontier|
      invariant |result'| <= INDEX_CAP && seen' == Paths(result')
      invariant result' == Dedupe(done + Tagged(frontier[..i], depth))
      invariant depth < maxDepth ==> next == Expand(fs, frontier[..i])
    {
      if |result'| >= INDEX_CAP {
        LevelStop(done, frontier, i, depth);
        return;
      }
      LevelOneMore(fs, done, frontier, i, depth);
      result', seen' := Visit(result', seen', frontier[i], depth, done + Tagged(frontier[..i], depth));
      if depth < maxDepth {
        next := Children(fs, frontier[i], next);
      }
    }
    assert frontier[..|frontier|] == frontier;
  }

  /** The candidates of the levels before `depth` have been taken; the scan is full, or all of them are listed. */
  ghost predicate ScannedTo(fs: FileSystem, standalone: seq<Path>, roots: seq<Path>, maxDepth: nat, depth: nat,
                            result: seq<Entry>, seen: set<Path>, frontier: seq<Path>)
  {
    var found := Dedupe(Candidates(fs, standalone, roots, depth));
    && result == Capped(found)
    && (|result| < INDEX_CAP ==>
          && result == found && seen == Paths(result)
          && (depth <= maxDepth ==> frontier == Level(fs, roots, depth)))
  }

  /** Stopping early, full or with nothing below, gives the whole answer. */
  lemma StopEarly(fs: FileSystem, standalone: seq<Path>, roots: seq<Path>, depth: nat, maxDepth: nat,
                  result: seq<Entry>, seen: set<Path>, frontier: seq<Path>)
    requires depth <= maxDepth && ScannedTo(fs, standalone, roots, maxDepth, depth, result, seen, frontier)
    requires frontier == [] || |result| >= INDEX_CAP
    ensures result == Scanned(fs, standalone, roots, maxDepth)
  {
    if |result| >= INDEX_CAP {
      FullStays(fs, standalone, roots, depth, maxDepth + 1);
    } else {
      EmptyLevelIsLast(fs, standalone, roots, depth, maxDepth + 1);
    }
  }

  lemma FullStays(fs: FileSystem, standalone: seq<Path>, roots: seq<Path>, n: nat, m: nat)
    requires n <= m && |Capped(Dedupe(Candidates(fs, standalone, roots, n)))| >= INDEX_CAP
    ensures Capped(Dedupe(Candidates(fs, standalone, roots, m))) == Capped(Dedupe(Candidates(fs, standalone, roots, n)))
  {
    var more := CandidatesGrow(fs, standalone, roots, n, m);
    DedupeGrows(Candidates(fs, standalone, roots, n), more);
  }

  /** Before the first level. */
  method ScanStart(fs: FileSystem, roots: seq<Path>, standalone: seq<Path>, ghost maxDepth: nat)
    returns (result: seq<Entry>, seen: set<Path>, frontier: seq<Path>)
    ensures ScannedTo(fs, standalone, roots, maxDepth, 0, result, seen, frontier)
  {
    result, seen := ScanStandalone(fs, standalone);
    frontier := Filter(fs.isDir, roots);
    assert Candidates(fs, standalone, roots, 0) == Tagged(Filter(fs.isDir, standalone), 0);
    assert Level(fs, roots, 0) == frontier;
  }

  /** One level, in terms of the whole scan. */
  method ScanDepth(fs: FileSystem, frontier: seq<Path>, depth: nat, maxDepth: nat, result: seq<Entry>, seen: set<Path>,
                   ghost standalone: seq<Path>, ghost roots: seq<Path>)
    returns (result': seq<Entry>, seen': set<Path>, next: seq<Path>)
    requires depth <= maxDepth && |result| < INDEX_CAP
    requires ScannedTo(fs, standalone, roots, maxDepth, depth, result, seen, frontier)
    ensures ScannedTo(fs, standalone, roots, maxDepth, depth + 1, result', seen', next)
  {
    result', seen', next :=
      ScanLevel(fs, frontier, depth, maxDepth, result, seen, Candidates(fs, standalone, roots, depth));
  }

  method ScanTo(fs: FileSystem, roots: seq<Path>, standalone: seq<Path>, maxDepth: nat) returns (result: seq<Entry>)
    ensures result == Scanned(fs, standalone, roots, maxDepth)
  {
    var seen, frontier;
    result, seen, frontier := ScanStart(fs, roots, standalone, maxDepth);
    for depth := 0 to maxDepth + 1
      invariant ScannedTo(fs, standalone, roots, maxDepth, depth, result, seen, frontier)
    {
      if frontier == [] || |result| >= INDEX_CAP {
        StopEarly(fs, standalone, roots, depth, maxDepth, result, seen, frontier);
        return;
      }
      result, seen, frontier := ScanDepth(fs, frontier, depth, maxDepth, result, seen, standalone, roots);
    }
  }

  /** The capped scan is exactly the first `INDEX_CAP` entries of the uncapped one. */
  method Scan(fs: FileSystem, roots: seq<Path>, standalone: seq<Path>) returns (result: seq<Entry>)
    ensures result == Scanned(fs, standalone, roots, MAX_DEPTH)
  {
    result := ScanTo(fs, roots, standalone, MAX_DEPTH);
  }

  // ---------------------------------------------------------------- what the answer is worth

  /** Entry `k` of a deduplicated list is the first candidate with its path. */
  lemma {:induction false} FirstOfItsPath(entries: seq<Entry>, k: nat) returns (i: nat)
    requires k < |Dedupe(entries)|
    ensures i < |entries| && entries[i] == Dedupe(entries)[k]
    ensures Dedupe(entries[..i]) == Dedupe(entries)[..k]
    ensures forall j :: 0 <= j < i ==> entries[j].path != entries[i].path
  {
    var n := |entries| - 1;
    var before := Dedupe(entries[..n]);
    if k < |before| {
      i := FirstOfItsPath(entries[..n], k);
      assert entries[..n][..i] == entries[..i];
      assert forall j :: 0 <= j < i ==> entries[j] == entries[..n][j];
    } else {
      i := n;
      forall j | 0 <= j < n ensures entries[j].path != entries[n].path {
        EveryPathIsKept(entries[..n], j);
        assert entries[..n][j] == entries[j];
      }
    }
  }

  lemma {:induction false} EveryPathIsKept(entries: seq<Entry>, j: nat)
    requires j < |entries|
    ensures entries[j].path in Paths(Dedupe(entries))
  {
    var n := |entries| - 1;
    DedupeSnoc(entries[..n], entries[n]);
    assert entries == entries[..n] + [entries[n]];
    PathsSnoc(Dedupe(entries[..n]), entries[n]);
    if j < n {
      EveryPathIsKept(entries[..n], j);
    }
  }

  /** No path is listed twice, and at most `INDEX_CAP` are listed. */
  lemma ScannedAreDistinct(fs: FileSystem, standalone: seq<Path>, roots: seq<Path>, maxDepth: nat)
    ensures |Scanned(fs, standalone, roots, maxDepth)| <= INDEX_CAP
    ensures forall k, l :: 0 <= k < l < |Scanned(fs, standalone, roots, maxDepth)| ==>
              Scanned(fs, standalone, roots, maxDepth)[k].path != Scanned(fs, standalone, roots, maxDepth)[l].path
  {
    var entries := Candidates(fs, standalone, roots, maxDepth + 1);
    forall k, l | 0 <= k < l < |Scanned(fs, standalone, roots, maxDepth)|
      ensures Dedupe(entries)[k].path != Dedupe(entries)[l].path
    {
      var i := FirstOfItsPath(entries, l);
      var j := FirstOfItsPath(entries[..i], k);
      assert entries[..i][j] == entries[j];
    }
  }

  /** Where the candidates of level `d` lie. */
  lemma LevelPosition(fs: FileSystem, standalone: seq<Path>, roots: seq<Path>, d: nat, n: nat, j: nat)
    requires d < n && j < |Level(fs, roots, d)|
    ensures var at := |Candidates(fs, standalone, roots, d)| + j;
            && at < |Candidates(fs, standalone, roots, d + 1)| <= |Candidates(fs, standalone, roots, n)|
            && Candidates(fs, standalone, roots, n)[at] == Entry(Level(fs, roots, d)[j], d)
  {
    var more := CandidatesGrow(fs, standalone, roots, d + 1, n);
  }

  lemma CandidatesSnoc(fs: FileSystem, standalone: seq<Path>, roots: seq<Path>, n: nat)
    ensures var before, all := Candidates(fs, standalone, roots, n), Candidates(fs, standalone, roots, n + 1);
            && |all| >= |before| && all[..|before|] == before
            && forall i :: |before| <= i < |all| ==> all[i].depth == n && OnLevel(fs, roots, n, all[i].path)
  {
  }

  /** A candidate past the standalone roots comes from the level of its depth. */
  ghost predicate FromItsLevel(fs: FileSystem, standalone: seq<Path>, roots: seq<Path>, n: nat, i: nat, e: Entry) {
    && e.depth < n && OnLevel(fs, roots, e.depth, e.path)
    && i >= |Candidates(fs, standalone, roots, e.depth)|
  }

  function CandidateCount(fs: FileSystem, standalone: seq<Path>, roots: seq<Path>, n: nat): nat {
    |Candidates(fs, standalone, roots, n)|
  }

  /** The level whose candidates include position `i`. */
  lemma LevelOf(count: nat -> nat, n: nat, i: nat) returns (d: nat)
    requires count(0) <= i < count(n)
    ensures d < n && count(d) <= i < count(d + 1)
  {
    d := 0;
    while count(d + 1) <= i
      invariant d < n && count(d) <= i
      decreases n - d
    {
      d := d + 1;
    }
  }

  lemma AtLevel(fs: FileSystem, standalone: seq<Path>, roots: seq<Path>, d: nat, n: nat, i: nat)
    requires d < n && CandidateCount(fs, standalone, roots, d) <= i < CandidateCount(fs, standalone, roots, d + 1)
    ensures i < CandidateCount(fs, standalone, roots, n)
    ensures FromItsLevel(fs, standalone, roots, n, i, Candidates(fs, standalone, roots, n)[i])
  {
    var upTo, all := Candidates(fs, standalone, roots, d + 1), Candidates(fs, standalone, roots, n);
    CandidatesSnoc(fs, standalone, roots, d);
    var more := CandidatesGrow(fs, standalone, roots, d + 1, n);
    assert all[i] == upTo[i];
  }

  /** An earlier candidate than the `i`-th has this path. */
  ghost predicate Earlier(entries: seq<Entry>, i: nat, p: Path) {
    exists j :: 0 <= j < i && j < |entries| && entries[j].path == p
  }

  lemma NearerIsEarlier(fs: FileSystem, standalone: seq<Path>, roots: seq<Path>, d: nat, p: Path, n: nat, i: nat)
    requires d < n && OnLevel(fs, roots, d, p)
    requires i < |Candidates(fs, standalone, roots, n)|
    requires d < Candidates(fs, standalone, roots, n)[i].depth
    requires i >= |Candidates(fs, standalone, roots, Candidates(fs, standalone, roots, n)[i].depth)|
    ensures Earlier(Candidates(fs, standalone, roots, n), i, p)
  {
    var all := Candidates(fs, standalone, roots, n);
    var j :| 0 <= j < |Level(fs, roots, d)| && Level(fs, roots, d)[j] == p;
    LevelPosition(fs, standalone, roots, d, n, j);
    var more := CandidatesGrow(fs, standalone, roots, d + 1, all[i].depth);
    assert all[|Candidates(fs, standalone, roots, d)| + j].path == p;
  }

  /** The entry's depth is its least distance from a root, and every nearer folder is in `before`. */
  ghost predicate AtLeastDistance(fs: FileSystem, roots: seq<Path>, e: Entry, before: seq<Entry>) {
    && OnLevel(fs, roots, e.depth, e.path)
    && forall d: nat, p :: d < e.depth && OnLevel(fs, roots, d, p) ==> p != e.path && p in Paths(before)
  }

  /** Entry `i` of the candidates is the first of its path; `before` is what precedes it deduplicated. */
  ghost predicate FirstAt(all: seq<Entry>, i: nat, before: seq<Entry>) {
    && i < |all| && Dedupe(all[..i]) == before
    && forall j :: 0 <= j < i ==> all[j].path != all[i].path
  }

  lemma NearerIsListed(fs: FileSystem, standalone: seq<Path>, roots: seq<Path>, n: nat, i: nat, before: seq<Entry>,
                       e: Entry)
    requires |Candidates(fs, standalone, roots, 0)| <= i && FirstAt(Candidates(fs, standalone, roots, n), i, before)
    requires e == Candidates(fs, standalone, roots, n)[i]
    ensures e.depth < n && AtLeastDistance(fs, roots, e, before)
  {
    var d0 := LevelOf(m => CandidateCount(fs, standalone, roots, m), n, i);
    AtLevel(fs, standalone, roots, d0, n, i);
    forall d: nat, p | d < e.depth && OnLevel(fs, roots, d, p) ensures p != e.path && p in Paths(before) {
      NearerIsEarlier(fs, standalone, roots, d, p, n, i);
      EarlierIsListed(Candidates(fs, standalone, roots, n), i, before, p);
    }
  }

  lemma EarlierIsListed(all: seq<Entry>, i: nat, before: seq<Entry>, p: Path)
    requires FirstAt(all, i, before) && Earlier(all, i, p)
    ensures p != all[i].path && p in Paths(before)
  {
    var j :| 0 <= j < i && all[j].path == p;
    EveryPathIsKept(all[..i], j);
    assert all[..i][j] == all[j];
  }

  lemma OwnCandidates(fs: FileSystem, standalone: seq<Path>, roots: seq<Path>, n: nat, i: nat)
    requires i < |Candidates(fs, standalone, roots, 0)|
    ensures i < |Candidates(fs, standalone, roots, n)|
    ensures var e := Candidates(fs, standalone, roots, n)[i];
            e.path in standalone && fs.isDir(e.path) && e.depth == 0
  {
    var more := CandidatesGrow(fs, standalone, roots, 0, n);
    assert Filter(fs.isDir, standalone)[i] in Filter(fs.isDir, standalone);
  }

  lemma CappedAt(entries: seq<Entry>, k: nat)
    requires k < |Capped(entries)|
    ensures k < |entries| && Capped(entries)[k] == entries[k] && Capped(entries)[..k] == entries[..k]
  {
  }

  /**
    Each entry is a standalone root at depth 0, or its depth is its least distance from a root, and
    then every folder nearer to a root is listed before it.
   */
  lemma DepthIsLeastDistance(fs: FileSystem, standalone: seq<Path>, roots: seq<Path>, maxDepth: nat, k: nat)
    requires k < |Scanned(fs, standalone, roots, maxDepth)|
    ensures var result := Scanned(fs, standalone, roots, maxDepth);
            var e := result[k];
            || (e.path in standalone && fs.isDir(e.path) && e.depth == 0)
            || (e.depth <= maxDepth && AtLeastDistance(fs, roots, e, result[..k]))
  {
    var all := Candidates(fs, standalone, roots, maxDepth + 1);
    CappedAt(Dedupe(all), k);
    var i := FirstOfItsPath(all, k);
    if i < |Candidates(fs, standalone, roots, 0)| {
      OwnCandidates(fs, standalone, roots, maxDepth + 1, i);
    } else {
      NearerIsListed(fs, standalone, roots, maxDepth + 1, i, Dedupe(all)[..k], Dedupe(all)[k]);
    }
  }

  lemma OnLevelIsCandidate(fs: FileSystem, standalone: seq<Path>, roots: seq<Path>, d: nat, n: nat, p: Path)
    returns (at: nat)
    requires d < n && OnLevel(fs, roots, d, p)
    ensures at < |Candidates(fs, standalone, roots, n)| && Candidates(fs, standalone, roots, n)[at].path == p
  {
    var j :| 0 <= j < |Level(fs, roots, d)| && Level(fs, roots, d)[j] == p;
    LevelPosition(fs, standalone, roots, d, n, j);
    at := |Candidates(fs, standalone, roots, d)| + j;
  }

  /** A scan that stays below the cap lists every folder down to the depth limit. */
  lemma BelowTheCapIsComplete(fs: FileSystem, standalone: seq<Path>, roots: seq<Path>, maxDepth: nat, d: nat, p: Path)
    requires |Scanned(fs, standalone, roots, maxDepth)| < INDEX_CAP && d <= maxDepth && OnLevel(fs, roots, d, p)
    ensures p in Paths(Scanned(fs, standalone, roots, maxDepth))
  {
    var at := OnLevelIsCandidate(fs, standalone, roots, d, maxDepth + 1, p);
    var all := Candidates(fs, standalone, roots, maxDepth + 1);
    EveryPathIsKept(all, at);
    assert Scanned(fs, standalone, roots, maxDepth) == Dedupe(all);
  }

  /** A chain of indexable subfolders from a root. */
  ghost predicate Walk(fs: FileSystem, roots: seq<Path>, walk: seq<Path>) {
    && walk != [] && walk[0] in roots && fs.isDir(walk[0])
    && forall i :: 0 <= i < |walk| - 1 ==> walk[i + 1] in Subfolders(fs, walk[i])
  }

  lemma {:induction false} ExpandHas(fs: FileSystem, paths: seq<Path>, p: Path)
    ensures p in Expand(fs, paths) <==> exists i :: 0 <= i < |paths| && p in Subfolders(fs, paths[i])
  {
    if paths != [] {
      var n := |paths| - 1;
      ExpandHas(fs, paths[..n], p);
      assert Expand(fs, paths) == Expand(fs, paths[..n]) + Subfolders(fs, paths[n]);
      assert forall i :: 0 <= i < n ==> paths[..n][i] == paths[i];
    }
  }

  ghost predicate WalkTo(fs: FileSystem, roots: seq<Path>, walk: seq<Path>, d: nat, p: Path) {
    Walk(fs, roots, walk) && |walk| == d + 1 && walk[d] == p
  }

  lemma LevelParent(fs: FileSystem, roots: seq<Path>, d: nat, p: Path) returns (q: Path)
    requires d > 0 && OnLevel(fs, roots, d, p)
    ensures OnLevel(fs, roots, d - 1, q) && p in Subfolders(fs, q)
  {
    var above := Level(fs, roots, d - 1);
    ExpandHas(fs, above, p);
    var i :| 0 <= i < |above| && p in Subfolders(fs, above[i]);
    q := above[i];
  }

  lemma {:induction false} LevelHasWalk(fs: FileSystem, roots: seq<Path>, d: nat, p: Path) returns (walk: seq<Path>)
    requires OnLevel(fs, roots, d, p)
    ensures WalkTo(fs, roots, walk, d, p)
  {
    if d == 0 {
      walk := [p];
    } else {
      var q := LevelParent(fs, roots, d, p);
      walk := LevelHasWalk(fs, roots, d - 1, q);
      walk := walk + [p];
    }
  }

  lemma {:induction false} WalkIsOnLevel(fs: FileSystem, roots: seq<Path>, walk: seq<Path>, d: nat, p: Path)
    requires WalkTo(fs, roots, walk, d, p)
    ensures OnLevel(fs, roots, d, p)
  {
    if d > 0 {
      assert walk[d - 1 + 1] in Subfolders(fs, walk[d - 1]);
      WalkIsOnLevel(fs, roots, walk[..d], d - 1, walk[d - 1]);
      ExpandHas(fs, Level(fs, roots, d - 1), p);
    }
  }

  /** A path is on level `d` exactly when some walk of `d` steps from a root ends there. */
  lemma LevelIsWalks(fs: FileSystem, roots: seq<Path>, d: nat, p: Path)
    ensures OnLevel(fs, roots, d, p) <==> exists walk :: WalkTo(fs, roots, walk, d, p)
  {
    if OnLevel(fs, roots, d, p) {
      var walk := LevelHasWalk(fs, roots, d, p);
    }
    if walk :| WalkTo(fs, roots, walk, d, p) {
      WalkIsOnLevel(fs, roots, walk, d, p);
    }
  }

  /** A child that Quick Open may list: a folder, not hidden and not of a skipped name. */
  predicate MayBeListed(child: Child) {
    child.kind == Some(Folder) && (child.name == "" || child.name[0] != '.')
    && forall i :: 0 <= i < |SKIP_NAMES| ==> child.name != SKIP_NAMES[i]
  }

  ghost predicate IsListedChild(fs: FileSystem, parent: Path, p: Path) {
    fs.listing(parent).Some? &&
    exists child :: child in fs.listing(parent).value && child.path == p && MayBeListed(child)
  }

  lemma {:induction false} KeptAre(children: seq<Child>, p: Path)
    ensures p in Kept(children) <==> exists child :: child in children && child.path == p && MayBeListed(child)
  {
    if children != [] {
      var n := |children| - 1;
      KeptAre(children[..n], p);
      assert children == children[..n] + [children[n]];
      assert Indexable(children[n]) <==> MayBeListed(children[n]);
      assert p in Kept(children) <==> p in Kept(children[..n]) || (MayBeListed(children[n]) && children[n].path == p);
    }
  }

  /** Each step of a walk goes to a child that may be listed, of a folder that can be read. */
  lemma SubfoldersAre(fs: FileSystem, parent: Path, p: Path)
    ensures p in Subfolders(fs, parent) <==> IsListedChild(fs, parent, p)
  {
    if fs.listing(parent).Some? {
      KeptAre(fs.listing(parent).value, p);
    }
  }
}
