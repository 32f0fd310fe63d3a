/** The string operations of `BlobStorage.walk` are the segment operations of `StorageWalk`:
    a folder is the string of its segments, each followed by a slash, and a blob name is
    represented by its split at '/'. */
module WalkStrings {
  import opened Common
  import opened Text
  import opened PosixPath
  import opened BlobUris
  import opened StoragePaths
  import opened StorageWalk

  /** The full prefix string of a folder. */
  function FolderString(p: Path): string {
    if p == [] then "" else FolderString(p[..|p| - 1]) + p[|p| - 1] + "/"
  }

  function Segments(name: string): Path {
    Split(name, '/')
  }

  /** What one `walk_blobs` listing makes of a blob name: nothing, a folder item with a final
      slash, or the blob itself. */
  datatype Listing = Hidden | Folder(name: string) | File(name: string)

  function ListName(fullPrefix: string, name: string): Listing {
    if !(fullPrefix <= name) then Hidden
    else
      var rest := name[|fullPrefix|..];
      var first := Before(rest, {'/'});
      if |first| < |rest| then Folder(fullPrefix + first + "/") else File(name)
  }

  /** `_get_prefix_content`: the slice after the prefix, stripped of slashes for a folder. */
  function ItemName(fullPrefix: string, item: Listing): string
    requires item != Hidden && |fullPrefix| <= |item.name|
  {
    var name := item.name[|fullPrefix|..];
    if item.Folder? then Strip(name, '/') else name
  }

  /** `_get_name_starts_with` of the argument with its final slash. */
  function StartPrefix(st: Storage, nameStartsWith: Option<string>): string {
    var n := if nameStartsWith.None? then "" else nameStartsWith.value;
    var slashed := if n != "" && !EndsWithSlash(n) then n + "/" else n;
    if st.prefix.Some? then PathJoin(st.prefix.value, slashed) else slashed
  }

  /** `os.path.join(full_prefix, f)` with a slash. */
  function Descend(fullPrefix: string, f: string): string {
    PathJoin(fullPrefix, f) + "/"
  }

  /** `_get_depth`; the ValueError of `relpath` is None. */
  function GetDepth(cwd: seq<string>, st: Storage, fullPrefix: string): Option<nat> {
    if fullPrefix == "" then Some(0)
    else
      var path := Strip(fullPrefix, '/');
      if st.prefix.Some? then
        match RelPath(cwd, path, st.prefix.value)
        case None => None
        case Some(r) => Some(if r == "." then 0 else |Split(r, '/')|)
      else Some(if path == "" then 0 else |Split(path, '/')|)
  }

  /** The yielded root. */
  function Root(cwd: seq<string>, st: Storage, fullPrefix: string): Result<string> {
    match StripPrefix(cwd, st, fullPrefix)
    case Ok(r) => Ok(if r == "" then "." else r)
    case IndexError => IndexError
    case ValueError => ValueError
  }

  /** The string a file is matched on when `match_full_path` is set. */
  function FullMatch(fullPrefix: string, file: string): string {
    Join([RStrip(fullPrefix, '/'), file], '/')
  }

  // ---------------------------------------------------------------- prefixes

  lemma {:induction false} SplitFolder(p: Path, rest: string)
    requires AllFree(p, '/')
    ensures Split(FolderString(p) + rest, '/') == p + Split(rest, '/')
  {
    if p == [] {
      assert FolderString(p) + rest == rest;
    } else {
      var front, last := p[..|p| - 1], p[|p| - 1];
      assert last in p;
      SplitFolder(front, last + "/" + rest);
      SplitFree(last, '/');
      SplitConcat(last, rest, '/');
      Assoc(FolderString(front), last, "/");
      Assoc(FolderString(front), last + "/", rest);
      Assoc(front, [last], Split(rest, '/'));
      assert p == front + [last];
    }
  }

  /** Different folders have different strings. */
  lemma FolderStringInjective(p: Path, q: Path)
    requires AllFree(p, '/') && AllFree(q, '/')
    ensures FolderString(p) == FolderString(q) <==> p == q
  {
    SplitFolder(p, "");
    SplitFolder(q, "");
    if FolderString(p) == FolderString(q) {
      assert p == (p + [""])[..|p + [""]| - 1];
      assert q == (q + [""])[..|q + [""]| - 1];
    }
  }

  lemma {:induction false} FolderIsPrefix(p: Path, rest: Path)
    requires rest != []
    ensures Join(p + rest, '/') == FolderString(p) + Join(rest, '/')
  {
    if p == [] {
      assert p + rest == rest;
    } else {
      var front, last := p[..|p| - 1], p[|p| - 1];
      FolderIsPrefix(front, [last] + rest);
      assert p + rest == front + ([last] + rest);
      assert ([last] + rest)[1..] == rest;
      assert FolderString(p) + Join(rest, '/') == FolderString(front) + (last + "/" + Join(rest, '/'));
    }
  }

  /** The prefix test on strings is the test on segments, and the slice after the prefix is what
      the remaining segments spell. */
  lemma PrefixIsUnder(p: Path, name: string)
    requires AllFree(p, '/')
    ensures FolderString(p) <= name <==> Under(p, Segments(name))
    ensures Under(p, Segments(name)) ==> name[|FolderString(p)|..] == Join(Segments(name)[|p|..], '/')
  {
    var n := Segments(name);
    if Under(p, n) {
      JoinSplit(name, '/');
      FolderIsPrefix(p, n[|p|..]);
      assert n == p + n[|p|..];
    }
    if FolderString(p) <= name {
      var rest := name[|FolderString(p)|..];
      assert name == FolderString(p) + rest;
      SplitFolder(p, rest);
      JoinSplit(rest, '/');
      assert n[|p|..] == Split(rest, '/');
    }
  }

  lemma {:induction false} FirstSegment(s: string)
    ensures Before(s, {'/'}) == Split(s, '/')[0]
    ensures |Before(s, {'/'})| < |s| <==> |Split(s, '/')| > 1
  {
    if s != "" {
      FirstSegment(s[1..]);
    }
  }

  lemma StripSlashAfter(f: string)
    requires '/' !in f
    ensures Strip(f + "/", '/') == f
  {
    if f == "" {
      assert f + "/" == "/" && "/"[1..] == "";
    } else {
      assert f[0] in f && f[|f| - 1] in f;
      assert (f + "/")[..|f|] == f;
      RStripMeans(f);
    }
  }

  /** The part of a name up to the next slash is its next segment, and there is such a slash if
      more segments follow. */
  lemma NextSegment(p: Path, name: string)
    requires AllFree(p, '/') && Under(p, Segments(name))
    ensures FolderString(p) <= name
    ensures var n, rest := Segments(name), name[|FolderString(p)|..];
      && Before(rest, {'/'}) == n[|p|] && '/' !in n[|p|]
      && (|Before(rest, {'/'})| < |rest| <==> |n| > |p| + 1)
      && (|n| == |p| + 1 ==> rest == n[|p|])
  {
    PrefixIsUnder(p, name);
    var n, rest := Segments(name), name[|FolderString(p)|..];
    SplitFolder(p, rest);
    assert name == FolderString(p) + rest;
    assert Split(rest, '/') == n[|p|..];
    FirstSegment(rest);
    SplitParts(rest, '/');
    assert Split(rest, '/')[0] in Split(rest, '/');
    BeforeIsPrefix(rest, {'/'});
  }

  /** Listing a name below a folder, slicing off the prefix and stripping slashes gives the next
      segment: of a folder if more follow, of the file itself if it is the last. */
  lemma ListingIsSegment(p: Path, name: string)
    requires AllFree(p, '/')
    ensures var n, item := Segments(name), ListName(FolderString(p), name);
      && (item.Hidden? <==> !Under(p, n))
      && (item.Folder? <==> Under(p, n) && |n| > |p| + 1)
      && (item.File? <==> Under(p, n) && |n| == |p| + 1)
      && (Under(p, n) ==> |FolderString(p)| <= |item.name| && ItemName(FolderString(p), item) == n[|p|])
  {
    PrefixIsUnder(p, name);
    var n, prefix := Segments(name), FolderString(p);
    if Under(p, n) {
      NextSegment(p, name);
      StripSlashAfter(n[|p|]);
      assert (prefix + n[|p|] + "/")[|prefix|..] == n[|p|] + "/";
    }
  }

  lemma FolderStringEnds(p: Path)
    ensures p != [] ==> EndsWithSlash(FolderString(p))
  {
  }

  /** Joining a folder name to the prefix makes the prefix of that folder. */
  lemma DescendIsChild(p: Path, f: string)
    requires f != "" && '/' !in f
    ensures Descend(FolderString(p), f) == FolderString(p + [f])
  {
    assert (p + [f])[..|p|] == p;
    assert f[0] in f;
    FolderStringEnds(p);
  }

  /** Every string that is empty or ends with a slash is the prefix string of a folder. */
  lemma IsFolderString(s: string)
    requires s == "" || EndsWithSlash(s)
    ensures exists p: Path :: AllFree(p, '/') && FolderString(p) == s
  {
    if s == "" {
      assert AllFree([], '/') && FolderString([]) == s;
    } else {
      var body := s[..|s| - 1];
      var p := Split(body, '/');
      SplitParts(body, '/');
      JoinSplit(body, '/');
      FolderIsPrefix(p, [""]);
      JoinConcat(p, [""], '/');
      assert s == body + "/" && body + "/" + "" == s;
      assert FolderString(p) + "" == FolderString(p);
      assert AllFree(p, '/') && FolderString(p) == s;
    }
  }

  /** So the walk always starts at a folder. */
  lemma StartIsFolder(st: Storage, nameStartsWith: Option<string>)
    ensures exists p: Path :: AllFree(p, '/') && FolderString(p) == StartPrefix(st, nameStartsWith)
  {
    IsFolderString(StartPrefix(st, nameStartsWith));
  }

  // ---------------------------------------------------------------- the start of a walk

  /** The segments of the storage prefix. */
  function BaseSegments(st: Storage): Path {
    if PrefixOf(st) == "" then [] else Split(PrefixOf(st), '/')
  }

  /** Without one slash at its end. */
  function WithoutSlash(n: string): string {
    if EndsWithSlash(n) then n[..|n| - 1] else n
  }

  /** The folder the argument names: below the storage prefix, or from the top if it is absolute. */
  function StartSegments(st: Storage, nameStartsWith: Option<string>): Path {
    if nameStartsWith.None? || nameStartsWith.value == "" then BaseSegments(st)
    else
      var n := nameStartsWith.value;
      (if StartsWithSlash(n) then [] else BaseSegments(st)) + Segments(WithoutSlash(n))
  }

  lemma SegmentsString(n: string)
    ensures AllFree(Segments(n), '/') && FolderString(Segments(n)) == n + "/"
  {
    SplitParts(n, '/');
    JoinSplit(n, '/');
    FolderJoin(Segments(n));
  }

  lemma BaseString(st: Storage)
    ensures AllFree(BaseSegments(st), '/')
    ensures FolderString(BaseSegments(st)) == if PrefixOf(st) == "" then "" else PrefixOf(st) + "/"
  {
    SegmentsString(PrefixOf(st));
  }

  /** What the names below the start begin with: the prefix and the argument, if there are any, each
      followed by one slash; an absolute argument stands alone. */
  function StartText(st: Storage, nameStartsWith: Option<string>): string {
    var n := if nameStartsWith.None? then "" else nameStartsWith.value;
    var argument := if n == "" then "" else WithoutSlash(n) + "/";
    if PrefixOf(st) == "" || StartsWithSlash(n) then argument else PrefixOf(st) + "/" + argument
  }

  lemma StartTextMeans(st: Storage, nameStartsWith: Option<string>)
    requires Stripped(PrefixOf(st))
    ensures StartPrefix(st, nameStartsWith) == StartText(st, nameStartsWith)
  {
    var n := if nameStartsWith.None? then "" else nameStartsWith.value;
    assert n != "" ==> WithoutSlash(n) + "/" == if EndsWithSlash(n) then n else n + "/";
  }

  lemma SegmentsText(st: Storage, n: string)
    requires n != ""
    ensures var p := StartSegments(st, Some(n)); AllFree(p, '/') && FolderString(p) == StartText(st, Some(n))
  {
    var body := WithoutSlash(n);
    SegmentsString(body);
    BaseString(st);
    FolderStringConcat(BaseSegments(st), Segments(body));
    assert [] + Segments(body) == Segments(body);
    assert "" + (body + "/") == body + "/";
  }

  /** The walk starts at the folder of the storage prefix, or at the one the argument names below it;
      an absolute argument names it alone. */
  lemma StartPrefixMeans(st: Storage, nameStartsWith: Option<string>)
    requires Stripped(PrefixOf(st))
    ensures AllFree(StartSegments(st, nameStartsWith), '/')
    ensures StartPrefix(st, nameStartsWith) == FolderString(StartSegments(st, nameStartsWith))
  {
    StartTextMeans(st, nameStartsWith);
    if nameStartsWith.Some? && nameStartsWith.value != "" {
      SegmentsText(st, nameStartsWith.value);
    } else {
      BaseString(st);
      assert PrefixOf(st) + "/" + "" == PrefixOf(st) + "/";
    }
  }

  /** `w` is a walk of the storage with this argument. */
  ghost predicate StartsAt(st: Storage, nameStartsWith: Option<string>, w: Request) {
    && Stripped(PrefixOf(st)) && AllFree(w.start, '/')
    && FolderString(w.start) == StartPrefix(st, nameStartsWith)
  }

  /** So that is where such a walk starts. */
  lemma StartIs(st: Storage, nameStartsWith: Option<string>, w: Request)
    requires StartsAt(st, nameStartsWith, w)
    ensures w.start == StartSegments(st, nameStartsWith)
  {
    StartPrefixMeans(st, nameStartsWith);
    FolderStringInjective(w.start, StartSegments(st, nameStartsWith));
  }

  /** A blob is below the start of the walk exactly when its name begins with that text. */
  lemma BelowStart(st: Storage, nameStartsWith: Option<string>, w: Request, name: string)
    requires StartsAt(st, nameStartsWith, w)
    ensures Under(w.start, Segments(name)) <==> StartText(st, nameStartsWith) <= name
  {
    StartTextMeans(st, nameStartsWith);
    PrefixIsUnder(w.start, name);
  }

  /** Every file of a walk is that of a blob whose name begins with the prefix and the argument. */
  lemma FilesBelowStart(st: Storage, nameStartsWith: Option<string>, w: Request, visited: seq<Entry>, fileCount: nat,
                        e: Entry, file: string)
    requires StartsAt(st, nameStartsWith, w) && (forall b :: b in w.blobs ==> AllFree(b.name, '/'))
    requires Sound(w, visited, fileCount) && e in visited && file in e.files
    ensures StartText(st, nameStartsWith) <= FolderString(e.root) + file
    ensures exists b :: b in w.blobs && Join(b.name, '/') == FolderString(e.root) + file
  {
    assert EntryOk(w, e);
    ListedIn(w.blobs, e.root, w.o.sinceDate, file);
    FilteredIn(w, e.root, Listed(w.blobs, e.root, w.o.sinceDate));
    assert file in w.FilesOf(e.root);
    var b :| b in w.blobs && b.name == e.root + [file];
    FolderIsPrefix(e.root, [file]);
    SplitJoin(b.name, '/');
    assert b.name[..|w.start|] == e.root[..|w.start|] == w.start;
    BelowStart(st, nameStartsWith, w, Join(b.name, '/'));
  }

  // ---------------------------------------------------------------- depth and root

  lemma {:induction false} FolderStringConcat(p: Path, q: Path)
    ensures FolderString(p + q) == FolderString(p) + FolderString(q)
  {
    if q == [] {
      assert p + q == p;
    } else {
      var front, last := q[..|q| - 1], q[|q| - 1];
      FolderStringConcat(p, front);
      assert (p + q)[..|p + q| - 1] == p + front;
      Assoc(FolderString(p), FolderString(front), last + "/");
      Assoc(FolderString(p) + FolderString(front), last, "/");
      Assoc(FolderString(front), last, "/");
    }
  }

  lemma FolderJoin(p: Path)
    requires p != []
    ensures FolderString(p) == Join(p, '/') + "/"
  {
    FolderIsPrefix(p, [""]);
    JoinConcat(p, [""], '/');
    assert FolderString(p) + "" == FolderString(p);
    assert Join(p, '/') + "/" + "" == Join(p, '/') + "/";
  }

  lemma {:induction false} JoinEnds(q: Path)
    requires q != [] && AllFree(q, '/') && q[|q| - 1] != ""
    ensures Join(q, '/') != "" && !EndsWithSlash(Join(q, '/'))
  {
    if |q| == 1 {
      assert q[0] in q && q[0][|q[0]| - 1] in q[0];
    } else {
      JoinEnds(q[1..]);
    }
  }

  lemma JoinStripped(q: Path)
    requires q != [] && AllFree(q, '/') && q[0] != "" && q[|q| - 1] != ""
    ensures Stripped(Join(q, '/')) && Join(q, '/') != ""
  {
    JoinStarts(q);
    JoinEnds(q);
  }

  lemma {:induction false} StripEndOfFolder(p: Path)
    requires AllFree(p, '/')
    ensures RStrip(FolderString(p), '/') == Join(TrimEnd(p), '/')
  {
    if p != [] {
      var front, last := p[..|p| - 1], p[|p| - 1];
      assert FolderString(p)[..|FolderString(p)| - 1] == FolderString(front) + last;
      if last == "" {
        assert FolderString(front) + "" == FolderString(front);
        StripEndOfFolder(front);
      } else {
        FolderJoin(p);
        JoinEnds(p);
        RStripMeans(Join(p, '/'));
        assert FolderString(p)[..|Join(p, '/')|] == Join(p, '/');
      }
    }
  }

  lemma FolderStringCons(p: Path)
    requires p != []
    ensures FolderString(p) == p[0] + "/" + FolderString(p[1..])
  {
    FolderStringConcat([p[0]], p[1..]);
    assert p == [p[0]] + p[1..];
    assert [p[0]][..0] == [] && FolderString([p[0]]) == "" + p[0] + "/";
    assert "" + p[0] == p[0];
  }

  lemma {:induction false} StripStartOfFolder(p: Path)
    requires AllFree(p, '/')
    ensures LStrip(FolderString(p), '/') == FolderString(TrimStart(p))
  {
    if p != [] {
      FolderStringCons(p);
      if p[0] == "" {
        assert FolderString(p)[1..] == FolderString(p[1..]);
        StripStartOfFolder(p[1..]);
      } else {
        assert p[0] in p && p[0][0] in p[0];
        assert FolderString(p)[0] == p[0][0];
      }
    }
  }

  /** The segments that are left when slashes are stripped at both ends. */
  function Trimmed(p: Path): Path {
    TrimEnd(TrimStart(p))
  }

  lemma StripFolder(p: Path)
    requires AllFree(p, '/')
    ensures Strip(FolderString(p), '/') == Join(Trimmed(p), '/')
    ensures AllFree(Trimmed(p), '/')
    ensures Trimmed(p) != [] ==> Stripped(Join(Trimmed(p), '/')) && Join(Trimmed(p), '/') != ""
    ensures TrimStart(p) != [] <==> Trimmed(p) != []
  {
    var x := TrimStart(p);
    TrimStartMeans(p);
    StripStartOfFolder(p);
    TrimEndMeans(x);
    StripEndOfFolder(x);
    if x != [] {
      FirstStays(x);
    }
    if Trimmed(p) != [] {
      JoinStripped(Trimmed(p));
    }
  }

  lemma {:induction false} FirstStays(x: Path)
    requires x != [] && x[0] != ""
    ensures TrimEnd(x) != [] && TrimEnd(x)[0] == x[0]
  {
    if x[|x| - 1] == "" {
      FirstStays(x[..|x| - 1]);
    }
  }

  /** Without a storage prefix the depth is the number of segments without the empty ones at both
      ends, so it is that of all segments exactly when there are none at the ends. */
  lemma DepthWithoutPrefix(cwd: seq<string>, st: Storage, p: Path)
    requires st.prefix.None? && AllFree(p, '/')
    ensures GetDepth(cwd, st, FolderString(p)) == Some(|Trimmed(p)|)
    ensures |Trimmed(p)| == |p| <==> p == [] || (p[0] != "" && p[|p| - 1] != "")
  {
    StripFolder(p);
    TrimStartMeans(p);
    TrimEndMeans(TrimStart(p));
    if Trimmed(p) != [] {
      SplitJoin(Trimmed(p), '/');
    }
    if p != [] {
      FolderJoin(p);
    }
  }

  // ---------------------------------------------------------------- below a storage prefix

  function Here(cwd: seq<string>, st: Storage): seq<string> {
    Absolute(cwd, PrefixOf(st))
  }

  /** The way from the storage prefix to a folder below it, normalised. */
  function Way(cwd: seq<string>, st: Storage, q: Path): Path {
    RelativeSegments(Here(cwd, st), Normalise(Here(cwd, st), q))
  }

  lemma WayOfNames(cwd: seq<string>, st: Storage, q: Path)
    requires Names(q)
    ensures Way(cwd, st, q) == q
  {
    NormaliseNames(Here(cwd, st), q);
    RelativeBelow(Here(cwd, st), q);
  }

  lemma WayIsProper(cwd: seq<string>, st: Storage, q: Path)
    requires AllFree(cwd, '/') && AllFree(q, '/')
    ensures var r := Way(cwd, st, q);
      && AllFree(r, '/') && (forall s :: s in r ==> s != "" && s != ".")
      && (r != [] ==> Split(Join(r, '/'), '/') == r && Join(r, '/') != "." && Join(r, '/') != "")
  {
    AbsoluteNames(cwd, PrefixOf(st));
    NormalisedAreNames(Here(cwd, st), q);
    RelativeFree(Here(cwd, st), Normalise(Here(cwd, st), q));
    RelativeProper(Here(cwd, st), Normalise(Here(cwd, st), q));
    ProperSegments(Way(cwd, st, q));
  }

  /** A path that normalises like the segments of a folder is the absolute path of the folder. */
  lemma AbsoluteFolderBelow(cwd: seq<string>, st: Storage, q: Path, path: string)
    requires Stripped(PrefixOf(st)) && !StartsWithSlash(path)
    requires Normalise(Normalise([], cwd), Split(path, '/')) == Normalise(Normalise([], cwd), BaseSegments(st) + q)
    ensures Absolute(cwd, path) == Normalise(Here(cwd, st), q)
  {
    var top := Normalise([], cwd);
    AbsoluteRelative(cwd, path);
    AbsoluteRelative(cwd, PrefixOf(st));
    NormaliseAppend(top, BaseSegments(st), q);
    NormaliseEmpty(top);
  }

  lemma BaseFirst(st: Storage, q: Path)
    requires PrefixOf(st) != "" && Stripped(PrefixOf(st))
    ensures TrimStart(BaseSegments(st) + q) == BaseSegments(st) + q != []
  {
    FirstSegment(PrefixOf(st));
    TrimStartMeans(BaseSegments(st) + q);
  }

  /** A folder of which nothing is left when slashes are stripped: only below an empty prefix. */
  predicate OnlySlashes(st: Storage, q: Path) {
    PrefixOf(st) == "" && TrimStart(q) == []
  }

  lemma FolderBelow(st: Storage, q: Path)
    requires Stripped(PrefixOf(st)) && AllFree(q, '/')
    ensures AllFree(BaseSegments(st) + q, '/')
    ensures TrimStart(BaseSegments(st) + q) == [] <==> OnlySlashes(st, q)
  {
    SplitParts(PrefixOf(st), '/');
    if PrefixOf(st) != "" {
      BaseFirst(st, q);
    } else {
      assert BaseSegments(st) + q == q;
    }
  }

  /** Below a storage prefix the depth of a folder is the number of segments of the normalised
      way to it; the call raises below an empty prefix when only slashes follow. */
  lemma DepthBelowPrefix(cwd: seq<string>, st: Storage, q: Path)
    requires st.prefix.Some? && Stripped(PrefixOf(st)) && AllFree(cwd, '/') && AllFree(q, '/')
    ensures GetDepth(cwd, st, FolderString(BaseSegments(st) + q)) ==
            if OnlySlashes(st, q) && q != [] then None else Some(|Way(cwd, st, q)|)
    ensures Names(q) ==> Way(cwd, st, q) == q
  {
    var y := BaseSegments(st) + q;
    var x, top := Trimmed(y), Normalise([], cwd);
    FolderBelow(st, q);
    StripFolder(y);
    WayIsProper(cwd, st, q);
    if Names(q) {
      WayOfNames(cwd, st, q);
    }
    if x != [] {
      SplitJoin(x, '/');
      NormaliseTrimStart(top, y);
      NormaliseTrimEnd(top, TrimStart(y));
      AbsoluteFolderBelow(cwd, st, q, Join(x, '/'));
    }
    FolderStringEmpty(y);
    if y == [] {
      WayOfNames(cwd, st, []);
    }
  }

  lemma FolderStringEmpty(p: Path)
    ensures FolderString(p) == "" <==> p == []
  {
  }

  /** The root of a folder below the storage prefix is the normalised way to it, "." for the
      prefix itself. The walk fails when nothing is left to strip the prefix from, as at the top
      of an empty prefix. */
  lemma RootBelowPrefix(cwd: seq<string>, st: Storage, q: Path)
    requires st.prefix.Some? && Stripped(PrefixOf(st)) && AllFree(cwd, '/') && AllFree(q, '/')
    ensures Root(cwd, st, FolderString(BaseSegments(st) + q)) ==
            if OnlySlashes(st, q) then ValueError else Ok(DotOr(Way(cwd, st, q)))
    ensures Names(q) ==> Way(cwd, st, q) == q
  {
    var y := BaseSegments(st) + q;
    var x, top := TrimStart(y), Normalise([], cwd);
    FolderBelow(st, q);
    StripStartOfFolder(y);
    LStripMeans(FolderString(y));
    WayIsProper(cwd, st, q);
    FolderStringEmpty(x);
    if Names(q) {
      WayOfNames(cwd, st, q);
    }
    if x != [] {
      RelativeRoot(cwd, st, q);
    }
  }

  lemma RelativeRoot(cwd: seq<string>, st: Storage, q: Path)
    requires st.prefix.Some? && Stripped(PrefixOf(st)) && AllFree(cwd, '/') && AllFree(q, '/')
    requires TrimStart(BaseSegments(st) + q) != []
    ensures RelPath(cwd, FolderString(TrimStart(BaseSegments(st) + q)), PrefixOf(st)) == Some(DotOr(Way(cwd, st, q)))
  {
    var y := BaseSegments(st) + q;
    var x, top := TrimStart(y), Normalise([], cwd);
    FolderBelow(st, q);
    StripStartOfFolder(y);
    LStripMeans(FolderString(y));
    TrimStartMeans(y);
    SplitFolder(x, "");
    assert FolderString(x) + "" == FolderString(x);
    NormaliseAppend(top, x, [""]);
    NormaliseEmpty(Normalise(top, x));
    NormaliseTrimStart(top, y);
    AbsoluteFolderBelow(cwd, st, q, FolderString(x));
  }

  /** Two folders are yielded under the same root if and only if they are the same, or, below a
      storage prefix, the normalised ways to them are; for folders of proper names the two are
      one. */
  lemma RootsDistinct(cwd: seq<string>, st: Storage, p: Path, q: Path)
    requires st.prefix.Some? ==> Stripped(PrefixOf(st))
    requires AllFree(cwd, '/') && AllFree(p, '/') && AllFree(q, '/')
    ensures Root(cwd, st, FolderString(BaseSegments(st) + p)) == Root(cwd, st, FolderString(BaseSegments(st) + q)) <==>
            if st.prefix.None? then p == q
            else Way(cwd, st, p) == Way(cwd, st, q) && (OnlySlashes(st, p) <==> OnlySlashes(st, q))
    ensures Names(p) && Names(q) ==> Way(cwd, st, p) == p && Way(cwd, st, q) == q
  {
    if Names(p) && Names(q) {
      WayOfNames(cwd, st, p);
      WayOfNames(cwd, st, q);
    }
    if st.prefix.Some? {
      RootBelowPrefix(cwd, st, p);
      RootBelowPrefix(cwd, st, q);
      WayIsProper(cwd, st, p);
      WayIsProper(cwd, st, q);
      SlashesGoNowhere(cwd, st, p);
      SlashesGoNowhere(cwd, st, q);
    } else {
      assert BaseSegments(st) + p == p && BaseSegments(st) + q == q;
      FolderStringInjective(p, q);
      FolderStringEnds(p);
      FolderStringEnds(q);
    }
  }

  lemma SlashesGoNowhere(cwd: seq<string>, st: Storage, q: Path)
    ensures OnlySlashes(st, q) ==> Way(cwd, st, q) == []
  {
    NormaliseTrimStart(Here(cwd, st), q);
    WayOfNames(cwd, st, []);
  }

  /** With `match_full_path` a file is matched on the path `StorageWalk` gives. */
  lemma FullMatchIsPath(w: Request, p: Path, file: string)
    requires w.o.matchFullPath && AllFree(p, '/')
    ensures FullMatch(FolderString(p), file) == Join(w.MatchOn(p, file), '/')
  {
    StripEndOfFolder(p);
    if TrimEnd(p) != [] {
      JoinConcat(TrimEnd(p), [file], '/');
    }
  }

  // ---------------------------------------------------------------- depths of the folders of a walk

  /** `w` is a walk of storage `st` with this argument, below its prefix, with the depths that
      `_get_depth` computes. */
  ghost predicate OfStorage(cwd: seq<string>, st: Storage, nameStartsWith: Option<string>, w: Request) {
    && AllFree(cwd, '/')
    && (w.emptyPrefix <==> st.prefix == Some(""))
    && StartsAt(st, nameStartsWith, w)
    && w.base == |BaseSegments(st)| <= |w.start| && w.start[..w.base] == BaseSegments(st)
    && (forall b :: b in w.blobs ==> AllFree(b.name, '/'))
    && (forall p :: DepthComputed(cwd, st, w, p))
  }

  ghost predicate DepthComputed(cwd: seq<string>, st: Storage, w: Request, p: Path) {
    var d := GetDepth(cwd, st, FolderString(p));
    d.Some? ==> w.depthOf(p) == d.value
  }

  lemma ReachFree(w: Request, p: Path)
    requires w.Reach(p) && AllFree(w.start, '/') && forall b :: b in w.blobs ==> AllFree(b.name, '/')
    ensures AllFree(p, '/')
  {
    forall i | 0 <= i < |p|
      ensures '/' !in p[i]
    {
      if i < |w.start| {
        assert p[i] == p[..|w.start|][i] && w.start[i] in w.start;
      } else {
        assert w.Step(p, i);
        var b :| b in w.blobs && Under(p[..i], b.name) && |b.name| > |p[..i]| + 1 && b.name[|p[..i]|] == p[i];
        assert b.name[i] in b.name;
      }
    }
  }

  /** The depth that is computed for a folder of the walk. */
  function ComputedDepth(cwd: seq<string>, st: Storage, p: Path): nat
    requires |BaseSegments(st)| <= |p|
  {
    if st.prefix.None? then |Trimmed(p)| else |Way(cwd, st, p[|BaseSegments(st)|..])|
  }

  lemma DepthOfFolder(cwd: seq<string>, st: Storage, n: Option<string>, w: Request, p: Path)
    requires OfStorage(cwd, st, n, w) && w.Reach(p) && w.HasDepth(p)
    ensures w.base <= |p| && w.depthOf(p) == ComputedDepth(cwd, st, p)
  {
    ReachFree(w, p);
    assert DepthComputed(cwd, st, w, p);
    if st.prefix.None? {
      DepthWithoutPrefix(cwd, st, p);
    } else {
      var q := p[w.base..];
      assert p[..w.base] == p[..|w.start|][..w.base] == BaseSegments(st);
      assert p == BaseSegments(st) + q;
      assert AllFree(q, '/') by {
        assert forall s | s in q :: s in p;
      }
      DepthBelowPrefix(cwd, st, q);
    }
  }

  /** The computed depths are the numbers of segments below the storage prefix if and only if, for
      every folder of the walk, trimming takes no segment away, or normalising the way from the
      prefix leaves as many as there were. */
  lemma DepthsCountExactly(cwd: seq<string>, st: Storage, n: Option<string>, w: Request)
    requires OfStorage(cwd, st, n, w)
    ensures w.DepthsCount() <==>
            forall p :: w.Reach(p) && w.HasDepth(p) ==> w.base <= |p| && ComputedDepth(cwd, st, p) == |p| - w.base
  {
    forall p | w.Reach(p) && w.HasDepth(p)
      ensures w.base <= |p| && w.depthOf(p) == ComputedDepth(cwd, st, p)
    {
      DepthOfFolder(cwd, st, n, w, p);
    }
  }

  /** So they are when the names of all folders below the storage prefix are proper: neither empty
      nor "." nor "..". */
  lemma DepthsOfNames(cwd: seq<string>, st: Storage, n: Option<string>, w: Request)
    requires OfStorage(cwd, st, n, w) && Names(w.start[w.base..])
    requires forall b, k :: b in w.blobs && 0 <= k < |b.name| - 1 ==> b.name[k] == "" || IsName(b.name[k]) || k < w.base
    ensures w.DepthsCount()
  {
    forall p | w.Reach(p) && w.HasDepth(p)
      ensures w.base <= |p| && ComputedDepth(cwd, st, p) == |p| - w.base
    {
      ReachFree(w, p);
      ReachNames(w, p);
      DepthOfFolder(cwd, st, n, w, p);
      var q := p[w.base..];
      if st.prefix.None? {
        assert q == p;
        if p != [] {
          assert p[0] in p && p[|p| - 1] in p;
        }
        DepthWithoutPrefix(cwd, st, p);
      } else {
        WayOfNames(cwd, st, q);
      }
    }
    DepthsCountExactly(cwd, st, n, w);
  }

  lemma ReachNames(w: Request, p: Path)
    requires w.Reach(p) && w.base <= |w.start| && Names(w.start[w.base..])
    requires forall b, k :: b in w.blobs && 0 <= k < |b.name| - 1 ==> b.name[k] == "" || IsName(b.name[k]) || k < w.base
    ensures w.base <= |p| && Names(p[w.base..])
  {
    forall i | w.base <= i < |p|
      ensures IsName(p[i])
    {
      if i < |w.start| {
        assert p[i] == p[..|w.start|][i] && w.start[w.base..][i - w.base] in w.start[w.base..];
      } else {
        assert w.Step(p, i);
        var b :| b in w.blobs && Under(p[..i], b.name) && |b.name| > |p[..i]| + 1 && b.name[|p[..i]|] == p[i];
        assert b.name[i] == p[i];
      }
    }
  }

  /** Two folders of one level with different depths: below any storage prefix, a folder "." has
      the depth of the prefix, and one with a proper name is a level deeper. */
  lemma DotFolderDepths(cwd: seq<string>, st: Storage, name: string)
    requires AllFree(cwd, '/') && st.prefix.Some? && Stripped(PrefixOf(st)) && PrefixOf(st) != ""
    requires IsName(name) && '/' !in name
    ensures GetDepth(cwd, st, FolderString(BaseSegments(st) + ["."])) == Some(0)
    ensures GetDepth(cwd, st, FolderString(BaseSegments(st) + [name])) == Some(1)
  {
    var here := Here(cwd, st);
    DepthBelowPrefix(cwd, st, ["."]);
    DepthBelowPrefix(cwd, st, [name]);
    assert ["."][..0] == [] && Normalise(here, []) == here;
    assert Normalise(here, ["."]) == here == here + [];
    RelativeBelow(here, []);
  }
}
