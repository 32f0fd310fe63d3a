/** The level-by-level walk of a blob container (`BlobStorage.walk`).

    Blob names are taken as already split at '/'; module `WalkStrings` proves that this
    loses nothing and that the string operations of the walk (prefix test, slice, join,
    depth) are the segment operations used here. */
module StorageWalk {
  import opened Common

  type Path = seq<string>

  datatype Blob = Blob(name: Path, size: nat, lastModified: int)

  /** What one delimiter listing returns: a folder below the prefix, or a blob directly under it. */
  datatype Item = BlobPrefix(folder: string) | BlobItem(blob: Blob)

  /** One yielded triple; `root` is the full prefix before the storage prefix is stripped. */
  datatype Entry = Entry(root: Path, folders: seq<string>, files: seq<string>)

  /** The arguments of `walk`. For the integer options 0 stands for None: both are falsy. */
  datatype Options = Options(
    maxDepth: int,
    minDepth: int,
    sinceDate: Option<int>,
    walkLimit: int,
    fileLimit: nat,
    pathFilter: Path -> bool,
    matchFullPath: bool,
    folderPattern: Option<string -> bool>,
    folderMatchesAtDepth: Option<int>)

  /** `p` is a proper prefix of the blob name `n`. */
  predicate Under(p: Path, n: Path) {
    |p| < |n| && n[..|p|] == p
  }

  // ---------------------------------------------------------------- listing one prefix

  /** The delimiter listing of the service: every blob directly under `p` and every folder
      below `p` once. */
  function WalkBlobs(blobs: seq<Blob>, p: Path): (items: seq<Item>)
  {
    if blobs == [] then []
    else
      var rest := WalkBlobs(blobs[..|blobs| - 1], p);
      var b := blobs[|blobs| - 1];
      if !Under(p, b.name) then rest
      else if |b.name| == |p| + 1 then rest + [BlobItem(b)]
      else if BlobPrefix(b.name[|p|]) in rest then rest
      else rest + [BlobPrefix(b.name[|p|])]
  }

  predicate Recent(since: Option<int>, b: Blob) {
    since.None? || b.lastModified >= since.value
  }

  /** The files a prefix lists: blobs directly under it, neither empty nor too old. */
  function Listed(blobs: seq<Blob>, p: Path, since: Option<int>): seq<string> {
    if blobs == [] then []
    else
      var b := blobs[|blobs| - 1];
      Listed(blobs[..|blobs| - 1], p, since) +
      if Under(p, b.name) && |b.name| == |p| + 1 && b.size > 0 && Recent(since, b)
      then [b.name[|p|]] else []
  }

  /** `f` is the non-empty name of a folder directly under `p`. */
  ghost predicate IsChild(blobs: seq<Blob>, p: Path, f: string) {
    f != "" && exists b :: b in blobs && Under(p, b.name) && |b.name| > |p| + 1 && b.name[|p|] == f
  }

  function FilesOfItems(items: seq<Item>, since: Option<int>): seq<string> {
    if items == [] then []
    else
      var it := items[|items| - 1];
      FilesOfItems(items[..|items| - 1], since) +
      if it.BlobItem? && it.blob.size > 0 && Recent(since, it.blob) && |it.blob.name| > 0
      then [it.blob.name[|it.blob.name| - 1]] else []
  }

  lemma FilesOfItemsSnoc(items: seq<Item>, it: Item, since: Option<int>)
    ensures FilesOfItems(items + [it], since) == FilesOfItems(items, since) +
            if it.BlobItem? && it.blob.size > 0 && Recent(since, it.blob) && |it.blob.name| > 0
            then [it.blob.name[|it.blob.name| - 1]] else []
  {
    assert (items + [it])[..|items|] == items;
  }

  lemma {:induction false} WalkBlobsFiles(blobs: seq<Blob>, p: Path, since: Option<int>)
    ensures FilesOfItems(WalkBlobs(blobs, p), since) == Listed(blobs, p, since)
  {
    if blobs != [] {
      var front := blobs[..|blobs| - 1];
      var b := blobs[|blobs| - 1];
      WalkBlobsFiles(front, p, since);
      FilesOfItemsSnoc(WalkBlobs(front, p), BlobItem(b), since);
      if Under(p, b.name) && |b.name| > |p| + 1 {
        FilesOfItemsSnoc(WalkBlobs(front, p), BlobPrefix(b.name[|p|]), since);
      }
    }
  }

  lemma {:induction false} WalkBlobsFolders(blobs: seq<Blob>, p: Path)
    ensures NoDupPrefixes(WalkBlobs(blobs, p))
    ensures forall f :: BlobPrefix(f) in WalkBlobs(blobs, p) && f != "" <==> IsChild(blobs, p, f)
  {
    if blobs != [] {
      var front := blobs[..|blobs| - 1];
      var b := blobs[|blobs| - 1];
      WalkBlobsFolders(front, p);
      assert blobs == front + [b];
      forall f
        ensures IsChild(blobs, p, f) <==>
                IsChild(front, p, f) || (f != "" && Under(p, b.name) && |b.name| > |p| + 1 && b.name[|p|] == f)
      {
        if IsChild(front, p, f) {
          var c :| c in front && Under(p, c.name) && |c.name| > |p| + 1 && c.name[|p|] == f;
          assert c in blobs;
        }
      }
    }
  }

  ghost predicate NoDupPrefixes(items: seq<Item>) {
    forall i, j :: 0 <= i < j < |items| && items[i].BlobPrefix? ==> items[i] != items[j]
  }

  function FoldersOfItems(items: seq<Item>): seq<string> {
    if items == [] then []
    else
      var it := items[|items| - 1];
      FoldersOfItems(items[..|items| - 1]) + if it.BlobPrefix? && it.folder != "" then [it.folder] else []
  }

  lemma FoldersOfItemsSnoc(items: seq<Item>, it: Item)
    ensures FoldersOfItems(items + [it]) ==
            FoldersOfItems(items) + if it.BlobPrefix? && it.folder != "" then [it.folder] else []
  {
    assert (items + [it])[..|items|] == items;
  }

  lemma {:induction false} FoldersOfItemsIn(items: seq<Item>)
    ensures forall f :: f in FoldersOfItems(items) <==> BlobPrefix(f) in items && f != ""
    ensures NoDupPrefixes(items) ==> NoDup(FoldersOfItems(items))
  {
    if items != [] {
      var front := items[..|items| - 1];
      FoldersOfItemsIn(front);
      assert items == front + [items[|items| - 1]];
      assert NoDupPrefixes(items) ==> NoDupPrefixes(front);
    }
  }

  /** `_get_prefix_content`: splits one listing into folder names and file names. A folder
      whose name is empty after stripping slashes is skipped. */
  method GetPrefixContent(blobs: seq<Blob>, p: Path, since: Option<int>)
    returns (folders: seq<string>, files: seq<string>)
    ensures NoDup(folders)
    ensures forall f :: f in folders <==> IsChild(blobs, p, f)
    ensures files == Listed(blobs, p, since)
  {
    var items := WalkBlobs(blobs, p);
    WalkBlobsNames(blobs, p);
    folders, files := SplitItems(items, since);
    WalkBlobsFiles(blobs, p, since);
    WalkBlobsFolders(blobs, p);
    FoldersOfItemsIn(items);
  }

  /** The loop of `_get_prefix_content` over the listed items. */
  method SplitItems(items: seq<Item>, since: Option<int>) returns (folders: seq<string>, files: seq<string>)
    requires forall it :: it in items && it.BlobItem? ==> it.blob.name != []
    ensures folders == FoldersOfItems(items)
    ensures files == FilesOfItems(items, since)
  {
    folders, files := [], [];
    for i := 0 to |items|
      invariant folders == FoldersOfItems(items[..i])
      invariant files == FilesOfItems(items[..i], since)
    {
      var item := items[i];
      assert items[..i + 1] == items[..i] + [item];
      FilesOfItemsSnoc(items[..i], item, since);
      FoldersOfItemsSnoc(items[..i], item);
      match item {
        case BlobPrefix(f) =>
          if f != "" {
            folders := folders + [f];
          }
        case BlobItem(b) =>
          if b.size == 0 {
            continue;
          }
          if since.Some? && b.lastModified < since.value {
            continue;
          }
          assert item in items;
          files := files + [b.name[|b.name| - 1]];
      }
    }
    assert items[..|items|] == items;
  }

  lemma {:induction false} WalkBlobsNames(blobs: seq<Blob>, p: Path)
    ensures forall it :: it in WalkBlobs(blobs, p) && it.BlobItem? ==>
              it.blob in blobs && Under(p, it.blob.name) && |it.blob.name| == |p| + 1
  {
    if blobs != [] {
      WalkBlobsNames(blobs[..|blobs| - 1], p);
    }
  }

  // ---------------------------------------------------------------- what a walk should visit

  /** One call of `walk`: the container, the number of segments of the storage prefix, the
      prefix the walk starts from (storage prefix and `name_starts_with` joined) and the options.
      `emptyPrefix` tells of a storage prefix that is empty but not missing, and `depthOf` is what
      `_get_depth` computes from the string of a folder. */
  datatype Request = Request(
    blobs: seq<Blob>,
    base: nat,
    emptyPrefix: bool,
    start: Path,
    depthOf: Path -> int,
    o: Options)
  {

    ghost predicate Valid() {
      && base <= |start|
      && (emptyPrefix ==> base == 0)
      && (forall b :: b in blobs ==> b.name != [])
      && (forall i, j :: 0 <= i < j < |blobs| ==> blobs[i].name != blobs[j].name)
      && (UsesDepth() ==> DepthsCount())
    }

    /** An option looks at depths. */
    predicate UsesDepth() {
      o.maxDepth != 0 || o.minDepth != 0 || (o.folderPattern.Some? && o.folderMatchesAtDepth.Some?)
    }

    /** The computed depth of every folder is its number of segments below the storage prefix.
        `WalkStrings.DepthsCountExactly` says when. */
    ghost predicate DepthsCount() {
      forall p :: Reach(p) && HasDepth(p) ==> depthOf(p) == Depth(p)
    }

    /** `_get_depth` raises for nothing but slashes below an empty prefix. */
    predicate HasDepth(p: Path) {
      emptyPrefix && p != [] ==> TrimStart(p) != []
    }

    /** Below an empty prefix, a walk that starts from nothing but slashes raises when it computes
        their depth, and one that starts at the top when it strips the prefix, unless `max_depth`
        keeps it from listing the top. */
    predicate RaisesAtTop() {
      RaisesFirst() && o.walkLimit >= 0
    }

    predicate RaisesFirst() {
      emptyPrefix && TrimStart(start) == [] && (start != [] || o.maxDepth >= 0)
    }

    /** Segments below the storage prefix. */
    function Depth(p: Path): int {
      |p| - base
    }

    /** Whether a folder `f` whose depth is `depth` passes the folder filter. */
    predicate FolderOk(depth: int, f: string) {
      o.folderPattern.None?
      || (o.folderMatchesAtDepth.Some? && o.folderMatchesAtDepth.value != depth)
      || o.folderPattern.value(f)
    }

    /** The path a file is matched on. Slashes at the end of the folder are stripped; a full path
        at the container root starts with "/". */
    function MatchOn(p: Path, file: string): Path {
      var q := TrimEnd(p);
      if o.matchFullPath then (if q == [] then [""] else q) + [file] else [file]
    }

    function Filtered(p: Path, names: seq<string>): seq<string> {
      if names == [] then []
      else
        var n := names[|names| - 1];
        Filtered(p, names[..|names| - 1]) + if o.pathFilter(MatchOn(p, n)) then [n] else []
    }

    /** The files of folder `p` that an unlimited walk reports. */
    function FilesOf(p: Path): seq<string> {
      Filtered(p, Listed(blobs, p, o.sinceDate))
    }

    /** `p` is a folder below the start whose every step exists, has a non-empty name and
        passes the folder filter. */
    ghost predicate Reach(p: Path) {
      && |start| <= |p|
      && p[..|start|] == start
      && forall i :: |start| <= i < |p| ==> Step(p, i)
    }

    ghost predicate Step(p: Path, i: nat)
      requires i < |p|
    {
      IsChild(blobs, p[..i], p[i]) && FolderOk(i + 1 - base, p[i])
    }

    ghost predicate WithinDepth(depth: int) {
      o.maxDepth == 0 || depth <= o.maxDepth
    }

    /** The folders a walk without limits visits. */
    ghost predicate Walked(p: Path) {
      Reach(p) && WithinDepth(Depth(p))
    }

    /** The prefixes listed `level` rounds after the start. */
    ghost predicate InLevel(level: nat, p: Path) {
      |p| == |start| + level && Reach(p) && (level == 0 || WithinDepth(Depth(p) - 1))
    }

    ghost function AllFolders(): set<Path> {
      {start} + set b, i | b in blobs && 0 <= i < |b.name| :: b.name[..i]
    }

    /** The folders at most `level - 1` rounds below the start. */
    ghost function WalkedUpTo(level: nat): set<Path> {
      set p | p in AllFolders() && Walked(p) && |p| < |start| + level
    }

    ghost function WalkedSet(): set<Path> {
      set p | p in AllFolders() && Walked(p)
    }

    /** The full names of all files that a walk without limits reports. */
    ghost function MatchingFiles(): set<Path> {
      set p, f | p in WalkedSet() && f in FilesOf(p) :: p + [f]
    }
  }

  function MaxLength(blobs: seq<Blob>): nat {
    if blobs == [] then 0
    else Max(MaxLength(blobs[..|blobs| - 1]), |blobs[|blobs| - 1].name|)
  }

  lemma {:induction false} NameWithinMaxLength(blobs: seq<Blob>, b: Blob)
    requires b in blobs
    ensures |b.name| <= MaxLength(blobs)
  {
    if b != blobs[|blobs| - 1] {
      NameWithinMaxLength(blobs[..|blobs| - 1], b);
    }
  }

  lemma ReachIsFolder(w: Request, p: Path)
    requires w.Reach(p)
    ensures p in w.AllFolders()
    ensures |p| <= Max(|w.start|, MaxLength(w.blobs))
  {
    if |p| > |w.start| {
      var i := |p| - 1;
      assert w.Step(p, i);
      var b :| b in w.blobs && Under(p[..i], b.name) && |b.name| > i + 1 && b.name[i] == p[i];
      assert b.name[..|p|] == p;
      NameWithinMaxLength(w.blobs, b);
    } else {
      assert p == w.start;
    }
  }

  lemma ReachChild(w: Request, p: Path, f: string)
    requires w.Reach(p) && IsChild(w.blobs, p, f) && w.FolderOk(w.Depth(p) + 1, f)
    ensures w.Reach(p + [f])
  {
    var q := p + [f];
    assert q[..|w.start|] == p[..|w.start|];
    forall i | |w.start| <= i < |q|
      ensures w.Step(q, i)
    {
      if i < |p| {
        assert w.Step(p, i);
        assert q[..i] == p[..i] && q[i] == p[i];
      } else {
        assert q[..i] == p;
      }
    }
  }

  lemma ReachParent(w: Request, q: Path)
    requires w.Reach(q) && |q| > |w.start|
    ensures w.Reach(q[..|q| - 1])
    ensures IsChild(w.blobs, q[..|q| - 1], q[|q| - 1])
    ensures w.FolderOk(w.Depth(q), q[|q| - 1])
  {
    var p := q[..|q| - 1];
    assert p[..|w.start|] == q[..|w.start|];
    forall i | |w.start| <= i < |p|
      ensures w.Step(p, i)
    {
      assert w.Step(q, i);
      assert q[..i] == p[..i] && q[i] == p[i];
    }
    assert w.Step(q, |q| - 1);
  }

  // ---------------------------------------------------------------- entries

  ghost function RootSet(es: seq<Entry>): set<Path> {
    set i | 0 <= i < |es| :: es[i].root
  }

  lemma RootSetSnoc(es: seq<Entry>, e: Entry)
    ensures RootSet(es + [e]) == RootSet(es) + {e.root}
  {
    assert forall i | 0 <= i < |es| :: (es + [e])[i] == es[i];
    assert (es + [e])[|es|] == e;
    forall p | p in RootSet(es)
      ensures p in RootSet(es + [e])
    {
      var i :| 0 <= i < |es| && es[i].root == p;
      assert (es + [e])[i].root == p;
    }
  }

  /** The entries that `min_depth` lets through. */
  function Shown(w: Request, es: seq<Entry>): seq<Entry> {
    if es == [] then []
    else
      var e := es[|es| - 1];
      Shown(w, es[..|es| - 1]) +
      if w.o.minDepth == 0 || w.Depth(e.root) >= w.o.minDepth then [e] else []
  }

  lemma ShownSnoc(w: Request, es: seq<Entry>, e: Entry)
    ensures Shown(w, es + [e]) ==
            Shown(w, es) + if w.o.minDepth == 0 || w.Depth(e.root) >= w.o.minDepth then [e] else []
  {
    assert (es + [e])[..|es|] == es;
  }

  ghost function FileNames(es: seq<Entry>): set<Path> {
    set i, f | 0 <= i < |es| && f in es[i].files :: es[i].root + [f]
  }

  function TotalFiles(es: seq<Entry>): nat {
    if es == [] then 0 else TotalFiles(es[..|es| - 1]) + |es[|es| - 1].files|
  }

  lemma TotalFilesSnoc(es: seq<Entry>, e: Entry)
    ensures TotalFiles(es + [e]) == TotalFiles(es) + |e.files|
  {
    assert (es + [e])[..|es|] == es;
  }

  /** `min_depth` hides entries after they were counted. */
  lemma {:induction false} ShownFilesWithinCounted(w: Request, es: seq<Entry>)
    ensures TotalFiles(Shown(w, es)) <= TotalFiles(es)
  {
    if es != [] {
      var front := es[..|es| - 1];
      ShownFilesWithinCounted(w, front);
      TotalFilesSnoc(Shown(w, front), es[|es| - 1]);
      assert Shown(w, front) + [] == Shown(w, front);
    }
  }

  ghost predicate DistinctRoots(es: seq<Entry>) {
    forall i, j :: 0 <= i < j < |es| ==> es[i].root != es[j].root
  }

  ghost predicate DepthOrdered(es: seq<Entry>) {
    forall i, j :: 0 <= i < j < |es| ==> |es[i].root| <= |es[j].root|
  }

  /** An entry describes a folder the walk may visit: all its subfolders, unfiltered, and an
      initial part of its files. */
  ghost predicate EntryOk(w: Request, e: Entry) {
    && w.Walked(e.root)
    && NoDup(e.folders)
    && (forall f :: f in e.folders <==> IsChild(w.blobs, e.root, f))
    && e.files <= w.FilesOf(e.root)
  }

  /** What every walk keeps, whatever the limits and the completion order. */
  ghost predicate Sound(w: Request, es: seq<Entry>, fileCount: nat) {
    && (forall e :: e in es ==> EntryOk(w, e))
    && DistinctRoots(es)
    && DepthOrdered(es)
    && Counted(w, es, fileCount)
  }

  /** The file counter is the number of different matching files in the entries so far, and
      stays within the limit. */
  ghost predicate Counted(w: Request, es: seq<Entry>, fileCount: nat) {
    && fileCount == TotalFiles(es) == |FileNames(es)|
    && FileNames(es) <= w.MatchingFiles()
    && (w.o.fileLimit > 0 ==> fileCount <= w.o.fileLimit)
  }

  ghost predicate AllFiles(w: Request, es: seq<Entry>) {
    forall e :: e in es ==> e.files == w.FilesOf(e.root)
  }

  lemma {:induction false} ListedIn(blobs: seq<Blob>, p: Path, since: Option<int>, f: string)
    ensures f in Listed(blobs, p, since) <==>
            exists b :: b in blobs && b.name == p + [f] && b.size > 0 && Recent(since, b)
  {
    if blobs != [] {
      var front := blobs[..|blobs| - 1];
      var b := blobs[|blobs| - 1];
      ListedIn(front, p, since, f);
      assert blobs == front + [b];
      if Under(p, b.name) && |b.name| == |p| + 1 {
        assert b.name == p + [b.name[|p|]];
      }
      if b.name == p + [f] {
        assert b.name[..|p|] == p && b.name[|p|] == f;
      }
    }
  }

  lemma {:induction false} ListedNoDup(blobs: seq<Blob>, p: Path, since: Option<int>)
    requires forall i, j :: 0 <= i < j < |blobs| ==> blobs[i].name != blobs[j].name
    ensures NoDup(Listed(blobs, p, since))
  {
    if blobs != [] {
      var front := blobs[..|blobs| - 1];
      var b := blobs[|blobs| - 1];
      ListedNoDup(front, p, since);
      if Under(p, b.name) && |b.name| == |p| + 1 {
        ListedIn(front, p, since, b.name[|p|]);
        assert b.name == p + [b.name[|p|]];
      }
    }
  }

  lemma {:induction false} FilteredIn(w: Request, p: Path, names: seq<string>)
    ensures forall f :: f in w.Filtered(p, names) <==> f in names && w.o.pathFilter(w.MatchOn(p, f))
    ensures NoDup(names) ==> NoDup(w.Filtered(p, names))
  {
    if names != [] {
      FilteredIn(w, p, names[..|names| - 1]);
    }
  }

  lemma FilesOfNoDup(w: Request, p: Path)
    requires w.Valid()
    ensures NoDup(w.FilesOf(p))
  {
    ListedNoDup(w.blobs, p, w.o.sinceDate);
    FilteredIn(w, p, Listed(w.blobs, p, w.o.sinceDate));
  }

  /** The full names of the files of one entry. */
  ghost function EntryNames(e: Entry): set<Path> {
    set f | f in e.files :: e.root + [f]
  }

  lemma EntryNamesSize(e: Entry)
    requires NoDup(e.files)
    ensures |EntryNames(e)| == |e.files|
  {
    var full := seq(|e.files|, i requires 0 <= i < |e.files| => e.root + [e.files[i]]);
    forall i, j | 0 <= i < j < |full|
      ensures full[i] != full[j]
    {
      assert full[i][|e.root|] == e.files[i] && full[j][|e.root|] == e.files[j];
    }
    NoDupSize(full);
    forall n | n in EntryNames(e)
      ensures n in full
    {
      var f :| f in e.files && n == e.root + [f];
      var i :| 0 <= i < |e.files| && e.files[i] == f;
      assert full[i] == n;
    }
    assert EntryNames(e) == set x | x in full;
  }

  lemma FileNamesSnoc(es: seq<Entry>, e: Entry)
    ensures FileNames(es + [e]) == FileNames(es) + EntryNames(e)
  {
    var es' := es + [e];
    forall n | n in FileNames(es) + EntryNames(e)
      ensures n in FileNames(es')
    {
      if n in FileNames(es) {
        var i, f :| 0 <= i < |es| && f in es[i].files && n == es[i].root + [f];
        assert es'[i] == es[i];
      } else {
        assert es'[|es|] == e;
      }
    }
  }

  lemma FileNamesDisjoint(es: seq<Entry>, e: Entry)
    requires e.root !in RootSet(es)
    ensures FileNames(es) !! EntryNames(e)
  {
    forall n | n in FileNames(es)
      ensures n != [] && n[..|n| - 1] in RootSet(es)
    {
      var i, f :| 0 <= i < |es| && f in es[i].files && n == es[i].root + [f];
      assert n[..|n| - 1] == es[i].root;
    }
    forall n | n in EntryNames(e)
      ensures n != [] && n[..|n| - 1] == e.root
    {
    }
  }

  lemma EntryNamesMatch(w: Request, e: Entry)
    requires EntryOk(w, e)
    ensures EntryNames(e) <= w.MatchingFiles()
  {
    ReachIsFolder(w, e.root);
    assert forall f | f in e.files :: f in w.FilesOf(e.root);
  }

  lemma CountedSnoc(w: Request, es: seq<Entry>, fileCount: nat, e: Entry)
    requires w.Valid()
    requires Counted(w, es, fileCount) && EntryOk(w, e) && e.root !in RootSet(es)
    requires w.o.fileLimit > 0 ==> fileCount + |e.files| <= w.o.fileLimit
    ensures Counted(w, es + [e], fileCount + |e.files|)
  {
    TotalFilesSnoc(es, e);
    FilesOfNoDup(w, e.root);
    PrefixNoDup(e.files, w.FilesOf(e.root));
    EntryNamesSize(e);
    FileNamesSnoc(es, e);
    FileNamesDisjoint(es, e);
    DisjointUnionSize(FileNames(es), EntryNames(e));
    EntryNamesMatch(w, e);
  }

  /** Adding one newly visited folder keeps a walk sound. */
  lemma SoundSnoc(w: Request, es: seq<Entry>, fileCount: nat, e: Entry)
    requires w.Valid()
    requires Sound(w, es, fileCount) && EntryOk(w, e) && e.root !in RootSet(es)
    requires forall x :: x in es ==> |x.root| <= |e.root|
    requires w.o.fileLimit > 0 ==> fileCount + |e.files| <= w.o.fileLimit
    ensures Sound(w, es + [e], fileCount + |e.files|)
  {
    CountedSnoc(w, es, fileCount, e);
    forall i | 0 <= i < |es|
      ensures es[i].root != e.root && |es[i].root| <= |e.root|
    {
      assert es[i].root in RootSet(es) && es[i] in es;
    }
    assert forall x | x in es + [e] :: x in es || x == e;
  }

  // ---------------------------------------------------------------- levels

  lemma {:induction false} WalkedAncestor(w: Request, p: Path, level: nat)
    requires w.Walked(p) && |p| >= |w.start| + level
    ensures w.InLevel(level, p[..|w.start| + level])
    decreases |p|
  {
    if |p| == |w.start| + level {
      assert p[..|p|] == p;
    } else {
      ReachParent(w, p);
      WalkedAncestor(w, p[..|p| - 1], level);
      assert p[..|p| - 1][..|w.start| + level] == p[..|w.start| + level];
    }
  }

  /** An empty level ends the walk: everything was visited. */
  lemma EmptyLevelEnds(w: Request, level: nat)
    requires forall p :: !w.InLevel(level, p)
    ensures w.WalkedUpTo(level) == w.WalkedSet()
  {
    forall p | w.Walked(p)
      ensures |p| < |w.start| + level
    {
      if |p| >= |w.start| + level {
        WalkedAncestor(w, p, level);
      }
    }
  }

  /** The visited folders are exactly the walkable ones of the first `level` levels. */
  ghost predicate VisitedLevels(w: Request, es: seq<Entry>, level: nat) {
    forall p :: p in RootSet(es) <==> w.Walked(p) && |p| < |w.start| + level
  }

  lemma VisitedLevelsSet(w: Request, es: seq<Entry>, level: nat)
    requires VisitedLevels(w, es, level) && DistinctRoots(es)
    ensures RootSet(es) == w.WalkedUpTo(level)
    ensures |es| == |w.WalkedUpTo(level)|
  {
    forall p | p in RootSet(es)
      ensures p in w.WalkedUpTo(level)
    {
      ReachIsFolder(w, p);
    }
    assert RootSet(es) == w.WalkedUpTo(level);
    var roots := seq(|es|, i requires 0 <= i < |es| => es[i].root);
    NoDupSize(roots);
    forall p | p in RootSet(es)
      ensures p in roots
    {
      var i :| 0 <= i < |es| && es[i].root == p;
      assert roots[i] == p;
    }
    assert RootSet(es) == set x | x in roots;
  }

  /** `q` is a folder that the visited entries pass on to the next level. */
  ghost predicate Passed(w: Request, es: seq<Entry>, level: nat, q: Path) {
    && |q| == |w.start| + level + 1
    && q[..|q| - 1] in RootSet(es)
    && IsChild(w.blobs, q[..|q| - 1], q[|q| - 1])
    && w.FolderOk(w.Depth(q), q[|q| - 1])
  }

  lemma NextLevel(w: Request, es: seq<Entry>, level: nat, q: Path)
    requires VisitedLevels(w, es, level + 1)
    ensures Passed(w, es, level, q) <==> w.InLevel(level + 1, q)
  {
    if Passed(w, es, level, q) {
      ReachChild(w, q[..|q| - 1], q[|q| - 1]);
      assert q[..|q| - 1] + [q[|q| - 1]] == q;
    }
    if w.InLevel(level + 1, q) {
      ReachParent(w, q);
    }
  }

  lemma AllFilesMatch(w: Request, es: seq<Entry>)
    requires forall e :: e in es ==> EntryOk(w, e)
    requires AllFiles(w, es) && RootSet(es) == w.WalkedSet()
    ensures FileNames(es) == w.MatchingFiles()
  {
    forall p, f | p in w.WalkedSet() && f in w.FilesOf(p)
      ensures p + [f] in FileNames(es)
    {
      var i :| 0 <= i < |es| && es[i].root == p;
      assert es[i] in es;
    }
    forall n | n in FileNames(es)
      ensures n in w.MatchingFiles()
    {
      var i, f :| 0 <= i < |es| && f in es[i].files && n == es[i].root + [f];
      assert es[i] in es && es[i].root in RootSet(es);
    }
  }

  // ---------------------------------------------------------------- the walk

  method FilterFiles(w: Request, p: Path, unfiltered: seq<string>) returns (files: seq<string>)
    ensures files == w.Filtered(p, unfiltered)
  {
    files := [];
    for i := 0 to |unfiltered|
      invariant files == w.Filtered(p, unfiltered[..i])
    {
      assert unfiltered[..i + 1][..i] == unfiltered[..i];
      if w.o.pathFilter(w.MatchOn(p, unfiltered[i])) {
        files := files + [unfiltered[i]];
      }
    }
    assert unfiltered[..|unfiltered|] == unfiltered;
  }

  /** `q` is a folder that `e` passes on. */
  ghost predicate ChildOf(w: Request, e: Entry, q: Path) {
    && |q| == |e.root| + 1 && q[..|e.root|] == e.root && q[|e.root|] in e.folders
    && w.FolderOk(w.Depth(e.root) + 1, q[|e.root|])
  }

  /** The folders of `e` to descend into, as full prefixes. `prefixDepth` is the variable that
      the submitting loop left behind; that it is the depth of `e` is the caller's duty. */
  method NextPrefixes(w: Request, e: Entry, prefixDepth: int) returns (next: seq<Path>)
    requires NoDup(e.folders)
    requires w.UsesDepth() ==> prefixDepth == w.Depth(e.root)
    ensures NoDup(next)
    ensures forall q :: q in next <==> ChildOf(w, e, q)
  {
    next := [];
    var p := e.root;
    var nextDepth := prefixDepth + 1;
    for i := 0 to |e.folders|
      invariant NoDup(next)
      invariant forall q :: q in next <==> ChildOf(w, e, q) && q[|p|] in e.folders[..i]
    {
      var f := e.folders[i];
      var keep := true;
      if w.o.folderPattern.Some? {
        if w.o.folderMatchesAtDepth.None? || nextDepth == w.o.folderMatchesAtDepth.value {
          keep := w.o.folderPattern.value(f);
        }
      }
      assert e.folders[..i + 1] == e.folders[..i] + [f];
      assert f !in e.folders[..i];
      if keep {
        assert (p + [f])[..|p|] == p && (p + [f])[|p|] == f;
        assert forall q | |q| == |p| + 1 && q[..|p|] == p && q[|p|] == f :: q == p + [f];
        next := next + [p + [f]];
      }
    }
    assert e.folders[..|e.folders|] == e.folders;
  }

  /** The first loop of a round: submit the prefixes of a level until a limit or `max_depth`
      stops it. `prefixDepth` is the leftover loop variable that the second loop reuses. */
  method SubmitLevel(w: Request, fullPrefixes: seq<Path>, walkCount: nat, oldDepth: int, ghost depth: int)
    returns (futures: seq<Path>, prefixDepth: int, limitBreak: bool)
    requires w.o.walkLimit == 0 || walkCount < w.o.walkLimit
    requires w.UsesDepth() ==> forall p :: p in fullPrefixes ==> w.depthOf(p) == depth
    ensures !limitBreak
    ensures w.UsesDepth() && fullPrefixes != [] ==> prefixDepth == depth
    ensures futures == if w.WithinDepth(depth) then fullPrefixes else []
  {
    futures, prefixDepth, limitBreak := [], oldDepth, false;
    var i := 0;
    while i < |fullPrefixes|
      invariant 0 <= i <= |fullPrefixes|
      invariant !limitBreak
      invariant futures == fullPrefixes[..i]
      invariant i > 0 ==> w.WithinDepth(depth)
      invariant w.UsesDepth() && i > 0 ==> prefixDepth == depth
    {
      if w.o.walkLimit != 0 && walkCount >= w.o.walkLimit {
        limitBreak := true;
        break;
      }
      if limitBreak {
        break;
      }
      var fullPrefix := fullPrefixes[i];
      prefixDepth := w.depthOf(fullPrefix);
      if w.o.maxDepth != 0 && prefixDepth > w.o.maxDepth {
        break;
      }
      futures := futures + [fullPrefix];
      i := i + 1;
    }
  }

  /** The state of the second loop of a round: `pending` futures are still to be consumed. */
  ghost predicate LevelState(w: Request, level: nat, before: seq<Entry>, futures: seq<Path>, pending: seq<Path>,
                             es: seq<Entry>, fileCount: nat, limitBreak: bool)
  {
    && Sound(w, es, fileCount)
    && (limitBreak ==> w.o.fileLimit > 0 && fileCount == w.o.fileLimit)
    && (!limitBreak ==> AllFiles(w, es))
    && NoDup(pending)
    && (forall p :: p in pending ==> p in futures && p !in RootSet(es))
    && (forall p :: p in RootSet(es) <==> p in RootSet(before) || (p in futures && p !in pending))
    && (forall e :: e in es ==> |e.root| <= |w.start| + level)
  }

  /** One consumed future keeps the loop state. */
  lemma LevelStateStep(w: Request, level: nat, before: seq<Entry>, futures: seq<Path>, pending: seq<Path>, i: nat,
                       es: seq<Entry>, fileCount: nat, limitBreak: bool, e: Entry, limitBreak': bool)
    requires w.Valid()
    requires LevelState(w, level, before, futures, pending, es, fileCount, limitBreak)
    requires i < |pending| && e.root == pending[i] && |e.root| == |w.start| + level
    requires EntryOk(w, e)
    requires w.o.fileLimit > 0 ==> fileCount + |e.files| <= w.o.fileLimit
    requires limitBreak ==> limitBreak'
    requires limitBreak' ==> w.o.fileLimit > 0 && fileCount + |e.files| == w.o.fileLimit
    requires !limitBreak' ==> e.files == w.FilesOf(e.root)
    ensures LevelState(w, level, before, futures, RemoveAt(pending, i),
                       es + [e], fileCount + |e.files|, limitBreak')
  {
    assert forall x | x in es :: |x.root| <= |e.root|;
    SoundSnoc(w, es, fileCount, e);
    RootSetSnoc(es, e);
    RemoveAtMembers(pending, i);
    assert forall x | x in es + [e] :: x in es || x == e;
  }

  /** The folders passed on after one more entry: those of before and the entry's own. */
  lemma PassedSnoc(w: Request, es: seq<Entry>, e: Entry, level: nat, q: Path)
    requires EntryOk(w, e) && e.root !in RootSet(es) && |e.root| == |w.start| + level
    ensures Passed(w, es + [e], level, q) <==> Passed(w, es, level, q) || ChildOf(w, e, q)
    ensures !(Passed(w, es, level, q) && ChildOf(w, e, q))
  {
    RootSetSnoc(es, e);
  }

  /** What the second loop has produced so far. */
  ghost predicate Produced(w: Request, level: nat, es: seq<Entry>, yielded: seq<Entry>, next: seq<Path>) {
    && yielded == Shown(w, es)
    && NoDup(next)
    && (forall q :: q in next <==> Passed(w, es, level, q))
  }

  lemma ProducedStep(w: Request, level: nat, es: seq<Entry>, yielded: seq<Entry>, next: seq<Path>, e: Entry,
                     children: seq<Path>)
    requires Produced(w, level, es, yielded, next)
    requires EntryOk(w, e) && e.root !in RootSet(es) && |e.root| == |w.start| + level
    requires NoDup(children)
    requires forall q :: q in children <==> ChildOf(w, e, q)
    ensures Produced(w, level, es + [e], Shown(w, es + [e]), next + children)
  {
    forall q
      ensures Passed(w, es + [e], level, q) <==> Passed(w, es, level, q) || ChildOf(w, e, q)
      ensures !(Passed(w, es, level, q) && ChildOf(w, e, q))
    {
      PassedSnoc(w, es, e, level, q);
    }
    NoDupAppend(next, children);
  }

  /** One round of the second loop, for the future `pending[i]`. */
  lemma ConsumeStep(w: Request, level: nat, before: seq<Entry>, futures: seq<Path>, pending: seq<Path>, i: nat,
                    es: seq<Entry>, fileCount: nat, limitBreak: bool, yielded: seq<Entry>, next: seq<Path>,
                    e: Entry, children: seq<Path>, limitBreak': bool)
    requires w.Valid()
    requires LevelState(w, level, before, futures, pending, es, fileCount, limitBreak)
    requires Produced(w, level, es, yielded, next)
    requires i < |pending| && e.root == pending[i] && |e.root| == |w.start| + level
    requires EntryOk(w, e)
    requires w.o.fileLimit > 0 ==> fileCount + |e.files| <= w.o.fileLimit
    requires limitBreak ==> limitBreak'
    requires limitBreak' ==> w.o.fileLimit > 0 && fileCount + |e.files| == w.o.fileLimit
    requires !limitBreak' ==> e.files == w.FilesOf(e.root)
    requires NoDup(children) && forall q :: q in children <==> ChildOf(w, e, q)
    ensures LevelState(w, level, before, futures, RemoveAt(pending, i), es + [e], fileCount + |e.files|, limitBreak')
    ensures Produced(w, level, es + [e],
                     yielded + if w.o.minDepth == 0 || w.Depth(e.root) >= w.o.minDepth then [e] else [],
                     next + children)
  {
    assert e.root in pending;
    LevelStateStep(w, level, before, futures, pending, i, es, fileCount, limitBreak, e, limitBreak');
    ProducedStep(w, level, es, yielded, next, e, children);
    ShownSnoc(w, es, e);
  }

  /** Lists one folder, filters its files and truncates them to the limit; `stop` says that
      the limit left nothing of them. */
  method TakeFiles(w: Request, fullPrefix: Path, fileCount: nat, limitBreak: bool)
    returns (e: Entry, limitBreak': bool, stop: bool)
    requires w.o.fileLimit > 0 ==> fileCount <= w.o.fileLimit
    requires w.Walked(fullPrefix)
    ensures EntryOk(w, e) && e.root == fullPrefix
    ensures w.o.fileLimit > 0 ==> fileCount + |e.files| <= w.o.fileLimit
    ensures !limitBreak' ==> !limitBreak && e.files == w.FilesOf(fullPrefix)
    ensures limitBreak' && !limitBreak ==> w.o.fileLimit > 0 && fileCount + |e.files| == w.o.fileLimit
    ensures limitBreak ==> limitBreak'
    ensures stop <==> w.o.fileLimit > 0 && fileCount == w.o.fileLimit && w.FilesOf(fullPrefix) != []
  {
    var folders, unfilteredFiles := GetPrefixContent(w.blobs, fullPrefix, w.o.sinceDate);
    var files := FilterFiles(w, fullPrefix, unfilteredFiles);
    limitBreak', stop := limitBreak, false;
    if w.o.fileLimit != 0 && fileCount + |files| > w.o.fileLimit {
      files := files[..w.o.fileLimit - fileCount];
      limitBreak' := true;
      stop := files == [];
    }
    e := Entry(fullPrefix, folders, files);
  }

  /** What the second loop makes of one completed future: the entry, the prefixes of the next
      level, and whether the entry is yielded. `stop` says that the loop breaks. */
  method ListFolder(w: Request, fullPrefix: Path, prefixDepth: int, fileCount: nat, limitBreak: bool)
    returns (e: Entry, children: seq<Path>, shown: bool, limitBreak': bool, stop: bool)
    requires w.o.fileLimit > 0 ==> fileCount <= w.o.fileLimit
    requires w.Walked(fullPrefix)
    requires w.UsesDepth() ==> prefixDepth == w.Depth(fullPrefix)
    ensures EntryOk(w, e) && e.root == fullPrefix
    ensures NoDup(children) && forall q :: q in children <==> ChildOf(w, e, q)
    ensures shown <==> w.o.minDepth == 0 || w.Depth(e.root) >= w.o.minDepth
    ensures w.o.fileLimit > 0 ==> fileCount + |e.files| <= w.o.fileLimit
    ensures !limitBreak' ==> !limitBreak && e.files == w.FilesOf(fullPrefix)
    ensures limitBreak' && !limitBreak ==> w.o.fileLimit > 0 && fileCount + |e.files| == w.o.fileLimit
    ensures limitBreak ==> limitBreak'
    ensures stop <==> w.o.fileLimit > 0 && fileCount == w.o.fileLimit && w.FilesOf(fullPrefix) != []
  {
    e, limitBreak', stop := TakeFiles(w, fullPrefix, fileCount, limitBreak);
    children := NextPrefixes(w, e, prefixDepth);
    shown := w.o.minDepth == 0 || prefixDepth >= w.o.minDepth;
  }

  /** All submitted prefixes are walkable folders of this level. */
  ghost predicate Submitted(w: Request, level: nat, futures: seq<Path>) {
    forall p :: p in futures ==> w.InLevel(level, p) && w.Walked(p)
  }

  lemma PendingIsSubmitted(w: Request, level: nat, before: seq<Entry>, futures: seq<Path>, pending: seq<Path>,
                           i: nat, es: seq<Entry>, fileCount: nat, limitBreak: bool)
    requires LevelState(w, level, before, futures, pending, es, fileCount, limitBreak)
    requires Submitted(w, level, futures) && i < |pending|
    ensures futures != [] && w.Walked(pending[i]) && |pending[i]| == |w.start| + level
  {
    assert pending[i] in pending;
  }

  lemma NothingProduced(w: Request, level: nat, before: seq<Entry>)
    requires forall p :: p in RootSet(before) ==> |p| < |w.start| + level
    ensures Produced(w, level, before, Shown(w, before), [])
  {
  }

  /** The second loop of a round: consume the futures in any order. The choice of `i` is the
      completion order. */
  method ConsumeLevel(w: Request, ghost level: nat, before: seq<Entry>, futures: seq<Path>, prefixDepth: int,
                      fileCount0: nat, yielded0: seq<Entry>)
    returns (next: seq<Path>, es: seq<Entry>, yielded: seq<Entry>, fileCount: nat, limitBreak: bool)
    requires w.Valid()
    requires LevelState(w, level, before, futures, futures, before, fileCount0, false)
    requires Submitted(w, level, futures)
    requires forall p :: p in RootSet(before) ==> |p| < |w.start| + level
    requires w.UsesDepth() && futures != [] ==> prefixDepth == |w.start| + level - w.base
    requires yielded0 == Shown(w, before)
    ensures Sound(w, es, fileCount)
    ensures limitBreak ==> w.o.fileLimit > 0 && fileCount == w.o.fileLimit
    ensures !limitBreak ==> LevelState(w, level, before, futures, [], es, fileCount, false)
    ensures Produced(w, level, es, yielded, next)
    ensures forall e :: e in es ==> |e.root| <= |w.start| + level
  {
    next, es, yielded, fileCount, limitBreak := [], before, yielded0, fileCount0, false;
    NothingProduced(w, level, before);
    var pending := futures;
    while pending != []
      invariant LevelState(w, level, before, futures, pending, es, fileCount, limitBreak)
      invariant Produced(w, level, es, yielded, next)
      decreases |pending|
    {
      var i: nat :| i < |pending|;
      PendingIsSubmitted(w, level, before, futures, pending, i, es, fileCount, limitBreak);
      var e, children, shown, hitLimit, stop := ListFolder(w, pending[i], prefixDepth, fileCount, limitBreak);
      if stop {
        limitBreak := true;
        break;
      }
      ConsumeStep(w, level, before, futures, pending, i, es, fileCount, limitBreak, yielded, next,
                  e, children, hitLimit);
      limitBreak := hitLimit;
      pending := RemoveAt(pending, i);
      next := next + children;
      fileCount := fileCount + |e.files|;
      es := es + [e];
      yielded := yielded + if shown then [e] else [];
    }
  }

  /** At the head of a round that no limit stopped: the prefixes are the distinct folders of
      one level, and all shallower folders were visited with all their files. */
  ghost predicate LevelHead(w: Request, level: nat, fullPrefixes: seq<Path>, visited: seq<Entry>) {
    && NoDup(fullPrefixes)
    && (forall p :: p in fullPrefixes <==> w.InLevel(level, p))
    && VisitedLevels(w, visited, level)
    && AllFiles(w, visited)
    && (w.o.walkLimit != 0 ==> BelowWalkLimit(w, level))
  }

  /** No initial run of fewer levels reaches the walk limit. */
  ghost predicate BelowWalkLimit(w: Request, level: nat) {
    forall k: nat :: k < level ==> |w.WalkedUpTo(k)| < w.o.walkLimit
  }

  /** With only `walk_limit` set, the walk visits whole levels: the fewest whose folders
      number at least the limit, or all of them. */
  ghost predicate StoppedAfter(w: Request, visited: seq<Entry>, level: nat) {
    && RootSet(visited) == w.WalkedUpTo(level)
    && |visited| == |w.WalkedUpTo(level)|
    && BelowWalkLimit(w, level)
    && (|visited| >= w.o.walkLimit || w.WalkedUpTo(level) == w.WalkedSet())
  }

  lemma LevelStart(w: Request, level: nat, fullPrefixes: seq<Path>, visited: seq<Entry>, fileCount: nat,
                   futures: seq<Path>)
    requires Sound(w, visited, fileCount) && LevelHead(w, level, fullPrefixes, visited)
    requires futures == if w.WithinDepth(|w.start| + level - w.base) then fullPrefixes else []
    ensures LevelState(w, level, visited, futures, futures, visited, fileCount, false)
    ensures Submitted(w, level, futures)
  {
    forall e | e in visited
      ensures |e.root| <= |w.start| + level
    {
      assert e.root in RootSet(visited);
    }
  }

  lemma LevelVisited(w: Request, level: nat, fullPrefixes: seq<Path>, before: seq<Entry>, futures: seq<Path>,
                     visited: seq<Entry>, fileCount: nat)
    requires LevelHead(w, level, fullPrefixes, before)
    requires futures == if w.WithinDepth(|w.start| + level - w.base) then fullPrefixes else []
    requires LevelState(w, level, before, futures, [], visited, fileCount, false)
    ensures VisitedLevels(w, visited, level + 1)
  {
    forall p
      ensures p in RootSet(visited) <==> w.Walked(p) && |p| < |w.start| + level + 1
    {
      if w.Walked(p) && |p| == |w.start| + level {
        WalkedAncestor(w, p, level);
        assert p[..|p|] == p;
      }
    }
  }

  lemma NextIsLevel(w: Request, level: nat, visited: seq<Entry>, next: seq<Path>)
    requires VisitedLevels(w, visited, level + 1)
    requires forall q :: q in next <==> Passed(w, visited, level, q)
    ensures forall q :: q in next <==> w.InLevel(level + 1, q)
  {
    forall q
      ensures q in next <==> w.InLevel(level + 1, q)
    {
      NextLevel(w, visited, level, q);
    }
  }

  lemma StillBelowWalkLimit(w: Request, level: nat, visited: seq<Entry>)
    requires DistinctRoots(visited) && VisitedLevels(w, visited, level)
    requires BelowWalkLimit(w, level) && |visited| < w.o.walkLimit
    ensures BelowWalkLimit(w, level + 1)
  {
    VisitedLevelsSet(w, visited, level);
  }

  lemma LevelDone(w: Request, level: nat, fullPrefixes: seq<Path>, before: seq<Entry>, futures: seq<Path>,
                  visited: seq<Entry>, yielded: seq<Entry>, next: seq<Path>, fileCount: nat)
    requires DistinctRoots(before) && LevelHead(w, level, fullPrefixes, before)
    requires w.o.walkLimit != 0 ==> |before| < w.o.walkLimit
    requires futures == if w.WithinDepth(|w.start| + level - w.base) then fullPrefixes else []
    requires LevelState(w, level, before, futures, [], visited, fileCount, false)
    requires Produced(w, level, visited, yielded, next)
    ensures LevelHead(w, level + 1, next, visited)
  {
    LevelVisited(w, level, fullPrefixes, before, futures, visited, fileCount);
    NextIsLevel(w, level, visited, next);
    if w.o.walkLimit != 0 {
      StillBelowWalkLimit(w, level, before);
    }
  }

  /** The loop invariant of the walk. */
  ghost predicate WalkInv(w: Request, level: nat, fullPrefixes: seq<Path>, visited: seq<Entry>,
                          yielded: seq<Entry>, fileCount: nat, limitBreak: bool)
  {
    && Sound(w, visited, fileCount)
    && yielded == Shown(w, visited)
    && (limitBreak ==> w.o.fileLimit > 0 && fileCount == w.o.fileLimit)
    && (!limitBreak ==> LevelHead(w, level, fullPrefixes, visited))
    && (forall e :: e in visited ==> |e.root| < |w.start| + level)
    && (w.o.walkLimit != 0 ==> BelowWalkLimit(w, level))
  }

  lemma WalkStart(w: Request)
    ensures WalkInv(w, 0, [w.start], [], [], 0, false)
  {
    assert w.start[..|w.start|] == w.start;
    assert forall p | w.InLevel(0, p) :: p == w.start;
    assert FileNames([]) == {};
    assert RootSet([]) == {};
  }

  lemma LevelBound(w: Request, level: nat, fullPrefixes: seq<Path>, visited: seq<Entry>)
    requires LevelHead(w, level, fullPrefixes, visited) && fullPrefixes != []
    ensures |w.start| + level <= Max(|w.start|, MaxLength(w.blobs))
    ensures forall p :: p in fullPrefixes ==> |p| == |w.start| + level
  {
    assert fullPrefixes[0] in fullPrefixes;
    ReachIsFolder(w, fullPrefixes[0]);
  }

  /** One round: submit the prefixes of a level, then consume the futures. Nothing but slashes
      below an empty prefix can only be the first and only prefix; computing its depth, or naming
      its root, raises before anything is yielded. */
  method WalkLevel(w: Request, ghost level: nat, fullPrefixes: seq<Path>, visited0: seq<Entry>,
                   yielded0: seq<Entry>, fileCount0: nat, prefixDepth0: int)
    returns (next: seq<Path>, visited: seq<Entry>, yielded: seq<Entry>, fileCount: nat, prefixDepth: int,
             limitBreak: bool, raised: bool)
    requires w.Valid()
    requires WalkInv(w, level, fullPrefixes, visited0, yielded0, fileCount0, false)
    requires fullPrefixes != []
    requires w.o.walkLimit == 0 || |visited0| < w.o.walkLimit
    ensures !raised ==> WalkInv(w, level + 1, next, visited, yielded, fileCount, limitBreak)
    ensures raised <==> level == 0 && w.RaisesFirst()
    ensures raised ==> visited == visited0 && yielded == yielded0 && fileCount == fileCount0
  {
    LevelBound(w, level, fullPrefixes, visited0);
    TopLevel(w, level, fullPrefixes, visited0);
    next, visited, yielded, fileCount := [], visited0, yielded0, fileCount0;
    raised := exists p :: p in fullPrefixes && !w.HasDepth(p);
    prefixDepth, limitBreak := prefixDepth0, false;
    if raised {
      return;
    }
    var futures;
    futures, prefixDepth, limitBreak :=
      SubmitLevel(w, fullPrefixes, |visited0|, prefixDepth0, |w.start| + level - w.base);
    raised := w.emptyPrefix && [] in futures;
    if raised {
      return;
    }
    LevelStart(w, level, fullPrefixes, visited0, fileCount0, futures);
    next, visited, yielded, fileCount, limitBreak :=
      ConsumeLevel(w, level, visited0, futures, prefixDepth, fileCount0, yielded0);
    if w.o.walkLimit != 0 {
      StillBelowWalkLimit(w, level, visited0);
    }
    if !limitBreak {
      LevelDone(w, level, fullPrefixes, visited0, futures, visited, yielded, next, fileCount);
    }
  }

  /** Only the start can consist of nothing but slashes. */
  lemma TopLevel(w: Request, level: nat, fullPrefixes: seq<Path>, visited: seq<Entry>)
    requires w.Valid() && LevelHead(w, level, fullPrefixes, visited)
    ensures [] in fullPrefixes <==> level == 0 && w.start == []
    ensures (exists p :: p in fullPrefixes && !w.HasDepth(p)) <==> level == 0 && !w.HasDepth(w.start)
    ensures w.UsesDepth() ==>
              forall p :: p in fullPrefixes && w.HasDepth(p) ==> w.depthOf(p) == |w.start| + level - w.base
  {
    assert w.start in fullPrefixes <==> level == 0 by {
      assert w.start[..|w.start|] == w.start;
      assert w.InLevel(0, w.start);
    }
    forall p | p in fullPrefixes && level > 0
      ensures w.HasDepth(p)
    {
      ReachParent(w, p);
      LastStays(p);
    }
    assert level == 0 ==> forall p :: p in fullPrefixes ==> p == w.start;
  }

  lemma {:induction false} LastStays(p: Path)
    requires p != [] && p[|p| - 1] != ""
    ensures TrimStart(p) != []
  {
    if p[0] == "" {
      LastStays(p[1..]);
    }
  }

  /** With both limits set: whole levels up to the walk limit, or as many files as the file
      limit allows, from levels above it. */
  ghost predicate StoppedByEither(w: Request, visited: seq<Entry>, fileCount: nat, level: nat) {
    && BelowWalkLimit(w, level)
    && RootSet(visited) <= w.WalkedUpTo(level)
    && (fileCount == w.o.fileLimit || (StoppedAfter(w, visited, level) && AllFiles(w, visited)))
  }

  /** What a walk has done when it ends. Without a file limit all files of the visited folders
      are reported; without any limit every folder is visited; without a walk limit the counter
      is the number of matching files, or the file limit if that is smaller; a walk limit alone
      stops after whole levels. */
  ghost predicate Complete(w: Request, visited: seq<Entry>, fileCount: nat, levels: nat) {
    && (w.o.fileLimit == 0 ==> AllFiles(w, visited))
    && (w.o.walkLimit == 0 && w.o.fileLimit == 0 ==> RootSet(visited) == w.WalkedSet())
    && (w.o.walkLimit == 0 && w.o.fileLimit == 0 ==> fileCount == |w.MatchingFiles()|)
    && (w.o.walkLimit == 0 && w.o.fileLimit != 0 ==> fileCount == Min(w.o.fileLimit, |w.MatchingFiles()|))
    && (w.o.walkLimit != 0 && w.o.fileLimit == 0 ==> StoppedAfter(w, visited, levels))
    && (w.o.walkLimit != 0 && w.o.fileLimit != 0 ==> StoppedByEither(w, visited, fileCount, levels))
  }

  lemma LevelEnds(w: Request, level: nat, fullPrefixes: seq<Path>, visited: seq<Entry>, fileCount: nat)
    requires Sound(w, visited, fileCount) && LevelHead(w, level, fullPrefixes, visited)
    requires fullPrefixes == [] || (w.o.walkLimit != 0 && |visited| >= w.o.walkLimit)
    ensures w.o.walkLimit == 0 ==> RootSet(visited) == w.WalkedSet() && fileCount == |w.MatchingFiles()|
    ensures w.o.walkLimit != 0 ==> StoppedAfter(w, visited, level)
  {
    VisitedLevelsSet(w, visited, level);
    if fullPrefixes == [] {
      EmptyLevelEnds(w, level);
      AllFilesMatch(w, visited);
    }
  }

  lemma WithinLevels(w: Request, visited: seq<Entry>, fileCount: nat, level: nat)
    requires Sound(w, visited, fileCount) && forall e :: e in visited ==> |e.root| < |w.start| + level
    ensures RootSet(visited) <= w.WalkedUpTo(level)
  {
    forall i | 0 <= i < |visited|
      ensures visited[i].root in w.WalkedUpTo(level)
    {
      assert visited[i] in visited;
      ReachIsFolder(w, visited[i].root);
    }
  }

  /** What the loop has established when it ends, by whichever exit. */
  lemma WalkEnds(w: Request, level: nat, fullPrefixes: seq<Path>, visited: seq<Entry>, yielded: seq<Entry>,
                 fileCount: nat, limitBreak: bool)
    requires WalkInv(w, level, fullPrefixes, visited, yielded, fileCount, limitBreak)
    requires limitBreak || fullPrefixes == [] || (w.o.walkLimit != 0 && |visited| >= w.o.walkLimit)
    ensures Complete(w, visited, fileCount, level)
  {
    WithinLevels(w, visited, fileCount, level);
    SubsetSize(FileNames(visited), w.MatchingFiles());
    if !limitBreak {
      LevelEnds(w, level, fullPrefixes, visited, fileCount);
      assert w.o.walkLimit != 0 ==> StoppedAfter(w, visited, level);
    }
    assert w.o.walkLimit != 0 && w.o.fileLimit != 0 ==> StoppedByEither(w, visited, fileCount, level);
  }

  lemma NoElements(es: seq<Entry>)
    ensures es == [] <==> forall e :: e !in es
  {
    assert es != [] ==> es[0] in es;
  }

  /** Before the first round nothing has happened. */
  lemma BeforeFirstRound(w: Request, fullPrefixes: seq<Path>, visited: seq<Entry>, yielded: seq<Entry>,
                         fileCount: nat, limitBreak: bool)
    requires WalkInv(w, 0, fullPrefixes, visited, yielded, fileCount, limitBreak)
    ensures fullPrefixes != [] && visited == [] && yielded == [] && !limitBreak
  {
    NoElements(visited);
    if !limitBreak {
      assert w.start[..|w.start|] == w.start;
      assert w.start in fullPrefixes;
    }
  }

  /** `BlobStorage.walk`. Besides what it yields, the method returns its final counters:
      `visited` (whose length is `walk_count`) and `fileCount`; `levels` rounds were begun. The contract holds for every
      completion order of the futures of every level. */
  method Walk(w: Request)
    returns (yielded: seq<Entry>, visited: seq<Entry>, fileCount: nat, raised: bool, levels: nat)
    requires w.Valid()
    ensures !raised ==> Complete(w, visited, fileCount, levels)
    ensures Sound(w, visited, fileCount) && yielded == Shown(w, visited)
    ensures raised <==> w.RaisesAtTop()
    ensures raised ==> yielded == [] && visited == []
  {
    yielded, visited, fileCount, raised := [], [], 0, false;
    var limitBreak := false;
    var prefixDepth := 0;
    var fullPrefixes := [w.start];
    levels := 0;
    WalkStart(w);
    while fullPrefixes != []
      invariant WalkInv(w, levels, fullPrefixes, visited, yielded, fileCount, limitBreak)
      invariant levels > 0 ==> !w.RaisesAtTop()
      decreases if limitBreak then 0 else 1, Max(|w.start|, MaxLength(w.blobs)) - levels
    {
      if w.o.walkLimit != 0 && |visited| >= w.o.walkLimit {
        break;
      }
      if limitBreak {
        break;
      }
      LevelBound(w, levels, fullPrefixes, visited);
      if levels == 0 {
        BeforeFirstRound(w, fullPrefixes, visited, yielded, fileCount, limitBreak);
      }
      fullPrefixes, visited, yielded, fileCount, prefixDepth, limitBreak, raised :=
        WalkLevel(w, levels, fullPrefixes, visited, yielded, fileCount, prefixDepth);
      if raised {
        return;
      }
      levels := levels + 1;
    }
    if levels == 0 {
      BeforeFirstRound(w, fullPrefixes, visited, yielded, fileCount, limitBreak);
    }
    WalkEnds(w, levels, fullPrefixes, visited, yielded, fileCount, limitBreak);
  }
}
