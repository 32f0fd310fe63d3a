/** What the contract of `StorageWalk.Walk` means for the blobs of a container. */
module StorageWalkTheorems {
  import opened Common
  import opened StorageWalk

  /** The folder expression, if there is one and it is meant for this depth, finds the name. */
  predicate FolderMatches(o: Options, depth: int, name: string) {
    o.folderPattern.Some? && (o.folderMatchesAtDepth.None? || depth == o.folderMatchesAtDepth.value) ==>
      o.folderPattern.value(name)
  }

  /** Every folder segment of `n` below the start is non-empty and passes the folder filter. */
  ghost predicate FoldersPass(w: Request, n: Path, end: nat)
    requires end <= |n|
  {
    forall k :: |w.start| <= k < end ==> n[k] != "" && FolderMatches(w.o, k + 1 - w.base, n[k])
  }

  /** A folder below the start is reachable exactly when some blob lies under it and every
      segment on the way is non-empty and passes the folder filter. */
  lemma ReachMeans(w: Request, p: Path)
    requires |p| > |w.start|
    ensures w.Reach(p) <==>
            && p[..|w.start|] == w.start
            && FoldersPass(w, p, |p|)
            && exists b :: b in w.blobs && Under(p, b.name)
  {
    if w.Reach(p) {
      forall k | |w.start| <= k < |p|
        ensures p[k] != "" && FolderMatches(w.o, k + 1 - w.base, p[k])
      {
        assert w.Step(p, k);
      }
      var i := |p| - 1;
      assert w.Step(p, i);
      var b :| b in w.blobs && Under(p[..i], b.name) && |b.name| > i + 1 && b.name[i] == p[i];
      assert b.name[..|p|] == p;
    }
    if p[..|w.start|] == w.start && FoldersPass(w, p, |p|) && exists b :: b in w.blobs && Under(p, b.name) {
      var b :| b in w.blobs && Under(p, b.name);
      forall i | |w.start| <= i < |p|
        ensures w.Step(p, i)
      {
        assert b.name[..i] == b.name[..|p|][..i] == p[..i];
        assert b.name[i] == b.name[..|p|][i] == p[i];
      }
    }
  }

  /** What a file name is matched on: the name alone, or the path with no slashes at the end of its
      folder, which is "/" and the name for a blob with no other folder. */
  function MatchedPath(o: Options, n: Path): Path
    requires |n| > 0
  {
    var folder, file := TrimEnd(n[..|n| - 1]), n[|n| - 1];
    if !o.matchFullPath then [file] else if folder == [] then ["", file] else folder + [file]
  }

  /** When a walk without limits reports the blob `b`: it is not empty, not older than the date, its path
      matches, its folders pass, and it is not below the maximum depth. */
  ghost predicate Wanted(w: Request, b: Blob)
    requires |b.name| > 0
  {
    var last := |b.name| - 1;
    && b.size > 0
    && (w.o.sinceDate.Some? ==> w.o.sinceDate.value <= b.lastModified)
    && w.o.pathFilter(MatchedPath(w.o, b.name))
    && FoldersPass(w, b.name, last)
    && (w.o.maxDepth != 0 ==> last - w.base <= w.o.maxDepth)
  }

  lemma SameNameSameBlob(w: Request, b: Blob, c: Blob)
    requires w.Valid() && b in w.blobs && c in w.blobs && b.name == c.name
    ensures b == c
  {
    var i :| 0 <= i < |w.blobs| && w.blobs[i] == b;
    var j :| 0 <= j < |w.blobs| && w.blobs[j] == c;
  }

  lemma FileMeans(w: Request, b: Blob, p: Path, f: string)
    requires w.Valid() && b in w.blobs && b.name == p + [f]
    ensures f in w.FilesOf(p) <==>
            b.size > 0 && Recent(w.o.sinceDate, b) && w.o.pathFilter(w.MatchOn(p, f))
  {
    ListedIn(w.blobs, p, w.o.sinceDate, f);
    FilteredIn(w, p, Listed(w.blobs, p, w.o.sinceDate));
    forall c | c in w.blobs && c.name == p + [f]
      ensures c == b
    {
      SameNameSameBlob(w, b, c);
    }
  }

  lemma ParentMeans(w: Request, b: Blob)
    requires b in w.blobs && Under(w.start, b.name)
    ensures w.Reach(b.name[..|b.name| - 1]) <==> FoldersPass(w, b.name, |b.name| - 1)
  {
    var p := b.name[..|b.name| - 1];
    assert p[..|w.start|] == b.name[..|w.start|];
    assert FoldersPass(w, p, |p|) <==> FoldersPass(w, b.name, |p|);
    if |p| > |w.start| {
      assert Under(p, b.name);
      ReachMeans(w, p);
    }
  }

  lemma MatchingSplit(w: Request, p: Path, f: string)
    ensures p + [f] in w.MatchingFiles() <==> p in w.WalkedSet() && f in w.FilesOf(p)
  {
    var n := p + [f];
    if n in w.MatchingFiles() {
      var q, g :| q in w.WalkedSet() && g in w.FilesOf(q) && n == q + [g];
      assert q == n[..|n| - 1] == p && g == n[|n| - 1] == f;
    }
  }

  lemma MatchedPathIs(w: Request, p: Path, f: string)
    ensures w.MatchOn(p, f) == MatchedPath(w.o, p + [f])
  {
    assert (p + [f])[..|p + [f]| - 1] == p && [""] + [f] == ["", f];
  }

  lemma MatchingMeans(w: Request, b: Blob)
    requires w.Valid() && b in w.blobs && Under(w.start, b.name)
    ensures b.name in w.MatchingFiles() <==> Wanted(w, b)
  {
    var last := |b.name| - 1;
    var p := b.name[..last];
    var f := b.name[last];
    assert b.name == p + [f];
    MatchedPathIs(w, p, f);
    MatchingSplit(w, p, f);
    FileMeans(w, b, p, f);
    ParentMeans(w, b);
    if w.Reach(p) {
      ReachIsFolder(w, p);
    }
  }

  /** The `j`-th file of the `i`-th entry is the blob named `n`. */
  ghost predicate Places(es: seq<Entry>, i: nat, j: nat, n: Path) {
    i < |es| && j < |es[i].files| && es[i].root + [es[i].files[j]] == n
  }

  /** A walk without limits puts each blob below the start into exactly one file list if it is
      wanted and into none otherwise; an empty folder name on the way hides a blob. */
  lemma EveryWantedBlobOnce(w: Request, visited: seq<Entry>, fileCount: nat, b: Blob)
    requires w.Valid() && b in w.blobs && Under(w.start, b.name)
    requires Sound(w, visited, fileCount) && AllFiles(w, visited) && RootSet(visited) == w.WalkedSet()
    ensures (exists i, j :: Places(visited, i, j, b.name)) <==> Wanted(w, b)
    ensures forall i, j, i', j' :: Places(visited, i, j, b.name) && Places(visited, i', j', b.name) ==>
              i == i' && j == j'
  {
    MatchingMeans(w, b);
    AllFilesMatch(w, visited);
    if b.name in FileNames(visited) {
      var i, f :| 0 <= i < |visited| && f in visited[i].files && b.name == visited[i].root + [f];
      var j :| 0 <= j < |visited[i].files| && visited[i].files[j] == f;
      assert Places(visited, i, j, b.name);
    }
    forall i: nat, j: nat, i': nat, j': nat | Places(visited, i, j, b.name) && Places(visited, i', j', b.name)
      ensures i == i' && j == j'
    {
      assert visited[i].root == b.name[..|b.name| - 1] == visited[i'].root;
      assert visited[i].files[j] == b.name[|b.name| - 1] == visited[i'].files[j'];
      assert visited[i] in visited;
      FilesOfNoDup(w, visited[i].root);
    }
  }

  /** Hence with default options a non-empty blob is found exactly when every folder segment of
      its name below the start is non-empty. */
  lemma DefaultWalkFinds(w: Request, visited: seq<Entry>, fileCount: nat, b: Blob)
    requires w.Valid() && b in w.blobs && Under(w.start, b.name) && b.size > 0
    requires w.o.maxDepth == 0 && w.o.sinceDate.None? && w.o.folderPattern.None?
    requires forall p :: w.o.pathFilter(p)
    requires Sound(w, visited, fileCount) && AllFiles(w, visited) && RootSet(visited) == w.WalkedSet()
    ensures (exists i, j :: Places(visited, i, j, b.name)) <==>
            forall k :: |w.start| <= k < |b.name| - 1 ==> b.name[k] != ""
  {
    EveryWantedBlobOnce(w, visited, fileCount, b);
  }

  /** A container with the single blob a//b, walked with default options. */
  ghost function EmptySegment(): Request {
    Request([Blob(["a", "", "b"], 1, 0)], 0, false, [], (p: Path) => |p|,
            Options(0, 0, None, 0, 0, (p: Path) => true, false, None, None))
  }

  /** No walk finds it. */
  lemma EmptySegmentHides(visited: seq<Entry>, fileCount: nat)
    requires Sound(EmptySegment(), visited, fileCount) && AllFiles(EmptySegment(), visited)
    requires RootSet(visited) == EmptySegment().WalkedSet()
    ensures EmptySegment().Valid()
    ensures !exists i, j :: Places(visited, i, j, ["a", "", "b"])
  {
    var w := EmptySegment();
    DefaultWalkFinds(w, visited, fileCount, w.blobs[0]);
    assert w.blobs[0].name[1] == "";
  }

  lemma {:induction false} ShownIn(w: Request, es: seq<Entry>, e: Entry)
    ensures e in Shown(w, es) <==> e in es && (w.o.minDepth == 0 || w.Depth(e.root) >= w.o.minDepth)
  {
    if es != [] {
      ShownIn(w, es[..|es| - 1], e);
      assert es == es[..|es| - 1] + [es[|es| - 1]];
    }
  }

  /** The start, or a folder below it with a blob, whose names pass. */
  ghost predicate IsFolderOfWalk(w: Request, p: Path) {
    p == w.start ||
    (&& |p| > |w.start| && p[..|w.start|] == w.start && FoldersPass(w, p, |p|)
     && exists b :: b in w.blobs && Under(p, b.name))
  }

  lemma WalkedMeans(w: Request, p: Path)
    ensures w.Walked(p) <==> IsFolderOfWalk(w, p) && (w.o.maxDepth != 0 ==> |p| - w.base <= w.o.maxDepth)
  {
    if |p| > |w.start| {
      ReachMeans(w, p);
    } else if p == w.start {
      assert p[..|w.start|] == w.start;
    } else if |p| == |w.start| {
      assert p[..|w.start|] == p;
    }
  }

  /** Without file and walk limits the yielded roots are exactly the start and the folders below it that
      pass, between the minimum and the maximum depth. */
  lemma YieldedRoots(w: Request, visited: seq<Entry>, p: Path)
    requires RootSet(visited) == w.WalkedSet()
    ensures (exists e :: e in Shown(w, visited) && e.root == p) <==>
            && IsFolderOfWalk(w, p)
            && (w.o.maxDepth != 0 ==> |p| - w.base <= w.o.maxDepth)
            && (w.o.minDepth != 0 ==> w.o.minDepth <= |p| - w.base)
  {
    WalkedMeans(w, p);
    forall e
      ensures e in Shown(w, visited) <==> e in visited && (w.o.minDepth == 0 || w.Depth(e.root) >= w.o.minDepth)
    {
      ShownIn(w, visited, e);
    }
    if w.Walked(p) {
      ReachIsFolder(w, p);
      assert p in RootSet(visited);
      var i :| 0 <= i < |visited| && visited[i].root == p;
      assert visited[i] in visited;
    }
    forall e | e in visited
      ensures e.root in RootSet(visited)
    {
    }
  }

  /** A blob two or more levels below the root, in its folder `f`. */
  ghost predicate InFolder(b: Blob, root: Path, f: string) {
    |b.name| > |root| + 1 && b.name[..|root|] == root && b.name[|root|] == f
  }

  /** An entry lists each non-empty folder name below its root once, whether the folder passes the filter
      or not. */
  lemma YieldedFolders(w: Request, visited: seq<Entry>, fileCount: nat, e: Entry, f: string)
    requires Sound(w, visited, fileCount) && e in visited
    ensures f in e.folders <==> f != "" && exists b :: b in w.blobs && InFolder(b, e.root, f)
    ensures NoDup(e.folders)
  {
    assert EntryOk(w, e);
    assert forall b :: b in w.blobs && InFolder(b, e.root, f) ==> Under(e.root, b.name);
  }

  // ---------------------------------------------------------------- file_limit

  function Unlimited(w: Request): Request {
    w.(o := w.o.(fileLimit := 0, walkLimit := 0, minDepth := 0))
  }

  lemma {:induction false} FilteredUnlimited(w: Request, p: Path, names: seq<string>)
    ensures Unlimited(w).Filtered(p, names) == w.Filtered(p, names)
  {
    if names != [] {
      FilteredUnlimited(w, p, names[..|names| - 1]);
    }
  }

  lemma MatchingUnlimited(w: Request)
    ensures Unlimited(w).WalkedSet() == w.WalkedSet()
    ensures Unlimited(w).MatchingFiles() == w.MatchingFiles()
  {
    var u := Unlimited(w);
    forall p
      ensures u.Reach(p) <==> w.Reach(p)
    {
      assert forall i: nat | i < |p| :: u.Step(p, i) <==> w.Step(p, i);
    }
    forall p
      ensures u.FilesOf(p) == w.FilesOf(p)
    {
      FilteredUnlimited(w, p, Listed(w.blobs, p, w.o.sinceDate));
    }
    assert u.AllFolders() == w.AllFolders();
    assert u.WalkedSet() == w.WalkedSet();
  }

  /** Compared with any walk of the same request without limits, a walk with only a file limit
      counts the smaller of the limit and all files that walk yields, and yields no more files
      than it counts. */
  lemma FileLimitIsExact(w: Request, visited: seq<Entry>, fileCount: nat, all: seq<Entry>, allCount: nat)
    requires w.o.fileLimit > 0
    requires Sound(w, visited, fileCount) && fileCount == Min(w.o.fileLimit, |w.MatchingFiles()|)
    requires Sound(Unlimited(w), all, allCount) && AllFiles(Unlimited(w), all)
    requires RootSet(all) == Unlimited(w).WalkedSet()
    ensures fileCount == Min(w.o.fileLimit, TotalFiles(Shown(Unlimited(w), all)))
    ensures TotalFiles(Shown(w, visited)) <= fileCount <= w.o.fileLimit
  {
    MatchingUnlimited(w);
    AllFilesMatch(Unlimited(w), all);
    ShownFilesWithinCounted(w, visited);
    ShownAll(Unlimited(w), all);
  }

  lemma {:induction false} ShownAll(w: Request, es: seq<Entry>)
    requires w.o.minDepth == 0
    ensures Shown(w, es) == es
  {
    if es != [] {
      ShownAll(w, es[..|es| - 1]);
    }
  }

  // ---------------------------------------------------------------- walk_limit

  lemma {:induction false} WalkedUpToMonotone(w: Request, j: nat, k: nat)
    requires j <= k
    ensures w.WalkedUpTo(j) <= w.WalkedUpTo(k) <= w.WalkedSet()
    ensures |w.WalkedUpTo(j)| <= |w.WalkedUpTo(k)| <= |w.WalkedSet()|
  {
    SubsetSize(w.WalkedUpTo(j), w.WalkedUpTo(k));
    SubsetSize(w.WalkedUpTo(k), w.WalkedSet());
  }

  ghost predicate Deep(w: Request, p: Path) {
    w.o.minDepth == 0 || w.Depth(p) >= w.o.minDepth
  }

  /** The folders that are yielded when the first `level` levels are visited. */
  ghost function YieldedUpTo(w: Request, level: nat): set<Path> {
    set p | p in w.WalkedUpTo(level) && Deep(w, p)
  }

  ghost function YieldedSet(w: Request): set<Path> {
    set p | p in w.WalkedSet() && Deep(w, p)
  }

  ghost function DeepRoots(w: Request, es: seq<Entry>): set<Path> {
    set p | p in RootSet(es) && Deep(w, p)
  }

  lemma DeepRootsSnoc(w: Request, front: seq<Entry>, e: Entry)
    requires e.root !in RootSet(front)
    ensures |DeepRoots(w, front + [e])| == |DeepRoots(w, front)| + if Deep(w, e.root) then 1 else 0
  {
    RootSetSnoc(front, e);
    var before, after := DeepRoots(w, front), DeepRoots(w, front + [e]);
    if Deep(w, e.root) {
      assert after == before + {e.root} && e.root !in before;
    } else {
      assert after == before;
    }
  }

  lemma {:induction false} ShownCount(w: Request, es: seq<Entry>)
    requires DistinctRoots(es)
    ensures |Shown(w, es)| == |DeepRoots(w, es)|
  {
    if es != [] {
      var front, e := es[..|es| - 1], es[|es| - 1];
      ShownCount(w, front);
      assert es == front + [e];
      assert e.root !in RootSet(front);
      DeepRootsSnoc(w, front, e);
      ShownSnoc(w, front, e);
    } else {
      assert RootSet(es) == {} && DeepRoots(w, es) == {};
    }
  }

  lemma YieldedMonotone(w: Request, j: nat, k: nat)
    requires j <= k
    ensures |YieldedUpTo(w, j)| <= |YieldedUpTo(w, k)| <= |YieldedSet(w)|
  {
    WalkedUpToMonotone(w, j, k);
    SubsetSize(YieldedUpTo(w, j), YieldedUpTo(w, k));
    SubsetSize(YieldedUpTo(w, k), YieldedSet(w));
  }

  /** `walk_limit` is documented as a limit on the number of yields. It is kept exactly when all
      folders the walk would yield are within it, or some whole number of levels has at least that
      many folders and yields no more than that many. */
  lemma WalkLimitKept(w: Request, visited: seq<Entry>, level: nat)
    requires w.o.walkLimit > 0 && DistinctRoots(visited) && StoppedAfter(w, visited, level)
    ensures |Shown(w, visited)| <= w.o.walkLimit <==>
            || |YieldedSet(w)| <= w.o.walkLimit
            || exists k: nat :: |w.WalkedUpTo(k)| >= w.o.walkLimit && |YieldedUpTo(w, k)| <= w.o.walkLimit
  {
    ShownCount(w, visited);
    assert DeepRoots(w, visited) == YieldedUpTo(w, level);
    YieldedMonotone(w, level, level);
    if k: nat :| |w.WalkedUpTo(k)| >= w.o.walkLimit && |YieldedUpTo(w, k)| <= w.o.walkLimit {
      assert level <= k;
      YieldedMonotone(w, level, k);
    }
    assert w.WalkedUpTo(level) == w.WalkedSet() ==> YieldedUpTo(w, level) == YieldedSet(w);
  }

  /** With a file limit as well the walk may stop earlier, and in these cases it yields no more than the
      walk limit, too. */
  lemma WalkLimitKeptEither(w: Request, visited: seq<Entry>, fileCount: nat, level: nat)
    requires w.o.walkLimit > 0 && DistinctRoots(visited) && StoppedByEither(w, visited, fileCount, level)
    requires || |YieldedSet(w)| <= w.o.walkLimit
             || exists k: nat :: |w.WalkedUpTo(k)| >= w.o.walkLimit && |YieldedUpTo(w, k)| <= w.o.walkLimit
    ensures |Shown(w, visited)| <= w.o.walkLimit
  {
    ShownCount(w, visited);
    SubsetSize(DeepRoots(w, visited), YieldedUpTo(w, level));
    YieldedMonotone(w, level, level);
    if k: nat :| |w.WalkedUpTo(k)| >= w.o.walkLimit && |YieldedUpTo(w, k)| <= w.o.walkLimit {
      assert level <= k;
      YieldedMonotone(w, level, k);
    }
  }

  /** A container with the two blobs a/x and b/x, walked with `walk_limit` 2. */
  ghost function TwoFolders(): Request {
    Request([Blob(["a", "x"], 1, 0), Blob(["b", "x"], 1, 0)], 0, false, [], (p: Path) => |p|,
            Options(0, 0, None, 2, 0, (p: Path) => true, false, None, None))
  }

  lemma TwoFoldersReach(p: Path)
    ensures TwoFolders().Walked(p) <==> p == [] || p == ["a"] || p == ["b"]
  {
    var w := TwoFolders();
    if p != [] {
      ReachMeans(w, p);
      assert Under(["a"], w.blobs[0].name) && Under(["b"], w.blobs[1].name);
      if b :| b in w.blobs && Under(p, b.name) {
        assert p == [b.name[0]];
      }
    }
  }

  lemma TwoFoldersLevels(level: nat)
    ensures |TwoFolders().WalkedUpTo(level)| == if level == 0 then 0 else if level == 1 then 1 else 3
    ensures |TwoFolders().WalkedSet()| == 3
  {
    var w := TwoFolders();
    forall p
      ensures p in w.WalkedSet() <==> p == [] || p == ["a"] || p == ["b"]
    {
      TwoFoldersReach(p);
      if w.Walked(p) {
        ReachIsFolder(w, p);
      }
    }
    assert w.WalkedSet() == {[], ["a"], ["b"]};
    assert w.WalkedUpTo(level) == if level == 0 then {} else if level == 1 then {[]} else w.WalkedSet();
  }

  /** The documented limit fails: three folders are yielded under a limit of two. */
  lemma WalkLimitExceeded(visited: seq<Entry>, level: nat)
    requires DistinctRoots(visited) && StoppedAfter(TwoFolders(), visited, level)
    ensures TwoFolders().Valid()
    ensures |Shown(TwoFolders(), visited)| == 3 > TwoFolders().o.walkLimit
  {
    TwoFoldersLevels(level);
    ShownAll(TwoFolders(), visited);
  }
}
