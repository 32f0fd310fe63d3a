/** The paths of a storage and the URIs they stand for (`BlobStorage.get_uri`, `get_path`,
    `get_substorage`, `_add_prefix`, `_strip_prefix`). */
module StoragePaths {
  import opened Common
  import opened Text
  import opened PosixPath
  import opened BlobUris

  /** A storage; `prefix` is stored without slashes at its ends. */
  datatype Storage = Storage(account: string, container: string, prefix: Option<string>)

  /** The constructor. */
  function Make(account: string, container: string, prefix: Option<string>): Storage {
    Storage(account, container, if prefix.Some? then Some(Strip(prefix.value, '/')) else None)
  }

  function AddPrefix(st: Storage, path: string): string {
    if st.prefix.Some? then PathJoin(st.prefix.value, path) else path
  }

  function StripPrefix(cwd: seq<string>, st: Storage, path: string): Result<string> {
    if st.prefix.None? then Ok(path)
    else
      match RelPath(cwd, LStrip(path, '/'), st.prefix.value)
      case None => ValueError
      case Some(r) => Ok(if r == "." then "" else r)
  }

  function RootUri(st: Storage): string {
    var container := ContainerUri(st.account, st.container);
    if st.prefix.None? then container else PathJoin(container, st.prefix.value)
  }

  function GetUri(st: Storage, path: Option<string>): string {
    if path.None? then RootUri(st) else PathJoin(RootUri(st), path.value)
  }

  predicate Contains(s: string, part: string) {
    part <= s || (s != "" && Contains(s[1..], part))
  }

  function GetPath(netlocOk: string -> bool, cwd: seq<string>, st: Storage, uri: string): Result<string> {
    match Parse(netlocOk, uri)
    case IndexError => IndexError
    case ValueError => ValueError
    case Ok(u) =>
      var name := if u.blobName.Some? then u.blobName.value else "";
      if u.account != st.account || u.container != st.container then ValueError
      else if st.prefix.Some? && st.prefix.value != "" then
        if name == "" || !Contains(name, st.prefix.value) then ValueError
        else StripPrefix(cwd, st, name)
      else Ok(name)
  }

  function GetSubstorage(st: Storage, path: string): Storage {
    Make(st.account, st.container, Some(AddPrefix(st, path)))
  }

  // ---------------------------------------------------------------- storages as constructed

  predicate Stripped(s: string) {
    !StartsWithSlash(s) && !EndsWithSlash(s)
  }

  lemma {:induction false} LStripMeans(s: string)
    ensures !StartsWithSlash(LStrip(s, '/'))
    ensures !StartsWithSlash(s) ==> LStrip(s, '/') == s
    ensures s != "" && !EndsWithSlash(s) ==> LStrip(s, '/') != "" && !EndsWithSlash(LStrip(s, '/'))
  {
    if StartsWithSlash(s) {
      LStripMeans(s[1..]);
    }
  }

  lemma {:induction false} RStripMeans(s: string)
    ensures !EndsWithSlash(RStrip(s, '/')) && RStrip(s, '/') <= s
    ensures !EndsWithSlash(s) ==> RStrip(s, '/') == s
  {
    if EndsWithSlash(s) {
      RStripMeans(s[..|s| - 1]);
    }
  }

  lemma StripMeans(s: string)
    ensures Stripped(Strip(s, '/'))
    ensures Stripped(s) ==> Strip(s, '/') == s
  {
    LStripMeans(s);
    RStripMeans(LStrip(s, '/'));
  }

  /** Account and container fit into a URI, and the prefix, if any, is stripped and plain. */
  ghost predicate Usable(netlocOk: string -> bool, st: Storage) {
    PlainContainer(netlocOk, st.account, st.container)
    && (st.prefix.Some? ==> Stripped(st.prefix.value) && Plain(st.prefix.value))
  }

  function PrefixOf(st: Storage): string {
    if st.prefix.Some? then st.prefix.value else ""
  }

  /** The blob name of a relative path. */
  function NameOf(prefix: string, path: string): string {
    if prefix == "" then path else prefix + "/" + path
  }

  /** A normalised relative path: empty, or names separated by single slashes. */
  ghost predicate Normal(path: string) {
    path == "" || Names(Split(path, '/'))
  }

  /** The container can be followed by a path, and the prefix, if any, is stripped. */
  ghost predicate Placed(st: Storage) {
    st.container != "" && !EndsWithSlash(st.container) && Stripped(PrefixOf(st))
  }

  lemma UsableIsPlaced(netlocOk: string -> bool, st: Storage)
    requires Usable(netlocOk, st)
    ensures Placed(st) && Plain(PrefixOf(st))
  {
    assert st.container[|st.container| - 1] in st.container;
  }

  /** The URI of a path: an absolute path itself, otherwise the container, then the prefix if it
      is not empty, then the path. */
  lemma UriOf(st: Storage, path: string)
    requires Placed(st)
    ensures GetUri(st, Some(path)) ==
            if StartsWithSlash(path) then path
            else ContainerUri(st.account, st.container) + "/" + NameOf(PrefixOf(st), path)
  {
    var container, prefix := ContainerUri(st.account, st.container), PrefixOf(st);
    assert container[|container| - 1] == st.container[|st.container| - 1];
    if prefix != "" {
      var root := container + "/" + prefix;
      assert root[|root| - 1] == prefix[|prefix| - 1];
      assert RootUri(st) == root;
      Assoc(container + "/", prefix, "/");
      Assoc(container + "/", prefix + "/", path);
    } else {
      assert container + "/" + "" == container + "/";
    }
  }

  lemma NameOfMeans(prefix: string, path: string)
    requires Plain(prefix)
    ensures Effective(NameOf(prefix, path)) == NameOf(prefix, Effective(path))
    ensures Contains(NameOf(prefix, path), prefix)
  {
    if prefix != "" {
      EffectiveAppend(prefix + "/", path);
    }
    assert prefix <= NameOf(prefix, path);
  }

  /** Reading back the URI of a relative path comes down to stripping the prefix from what is
      left of the path. */
  lemma PathOfUri(netlocOk: string -> bool, cwd: seq<string>, st: Storage, path: string)
    requires Usable(netlocOk, st) && !StartsWithSlash(path)
    ensures GetPath(netlocOk, cwd, st, GetUri(st, Some(path))) ==
            if PrefixOf(st) == "" then Ok(Effective(path))
            else StripPrefix(cwd, st, NameOf(PrefixOf(st), Effective(path)))
  {
    UsableIsPlaced(netlocOk, st);
    UriOf(st, path);
    NameOfMeans(PrefixOf(st), path);
    NameOfMeans(PrefixOf(st), Effective(path));
    ParseName(netlocOk, st.account, st.container, NameOf(PrefixOf(st), path));
  }

  lemma NormalIsNotDot(path: string)
    ensures path == "." ==> !Normal(path)
  {
    if path == "." {
      SplitFree(path, '/');
      assert Split(path, '/')[0] in Split(path, '/');
    }
  }

  lemma StripsBelow(cwd: seq<string>, st: Storage, path: string)
    requires PrefixOf(st) != "" && !StartsWithSlash(PrefixOf(st)) && Normal(path)
    ensures StripPrefix(cwd, st, NameOf(PrefixOf(st), path)) == Ok(path)
  {
    var name := PrefixOf(st) + "/" + path;
    LStripMeans(name);
    NormalIsNotDot(path);
    if path == "" {
      RelPathBelow(cwd, PrefixOf(st), []);
    } else {
      var parts := Split(path, '/');
      SplitParts(path, '/');
      JoinSplit(path, '/');
      RelPathBelow(cwd, PrefixOf(st), parts);
    }
  }

  lemma NormalIsRelative(path: string)
    ensures StartsWithSlash(path) ==> !Normal(path)
  {
    if StartsWithSlash(path) {
      assert Split(path, '/')[0] == "";
      assert Split(path, '/')[0] in Split(path, '/');
    }
  }

  /** Paths and URIs undo each other: with or without a prefix, `get_path(get_uri(p))` is `p`
      for every plain normalised relative path. */
  lemma PathUriPath(netlocOk: string -> bool, cwd: seq<string>, st: Storage, path: string)
    requires Usable(netlocOk, st) && Normal(path) && Plain(path)
    ensures GetPath(netlocOk, cwd, st, GetUri(st, Some(path))) == Ok(path)
  {
    NormalIsRelative(path);
    PathOfUri(netlocOk, cwd, st, path);
    EffectiveMeans(path);
    if PrefixOf(st) != "" {
      StripsBelow(cwd, st, path);
    }
  }

  /** Stripping never yields "." or an empty segment. */
  lemma StrippedShape(cwd: seq<string>, st: Storage, name: string, path: string)
    requires AllFree(cwd, '/') && st.prefix.Some? && StripPrefix(cwd, st, name) == Ok(path) && path != ""
    ensures path != "." && !StartsWithSlash(path)
  {
    RelPathShape(cwd, LStrip(name, '/'), st.prefix.value);
    assert Split(path, '/')[0] in Split(path, '/');
  }

  /** Seen from the absolute prefix, the path climbs some levels and goes down again, without a
      detour: no empty segment, no ".", no ".." after a name, and not back into the folder it
      just left. */
  ghost predicate Direct(cwd: seq<string>, st: Storage, path: string) {
    path == "" || ClimbsSome(Absolute(cwd, PrefixOf(st)), Split(path, '/'))
  }

  lemma DirectShape(cwd: seq<string>, st: Storage, path: string)
    ensures path == "." || StartsWithSlash(path) ==> !Direct(cwd, st, path)
  {
    var segments := Split(path, '/');
    if path == "." {
      SplitFree(path, '/');
    }
    if k: nat :| path != "" && Climbs(Absolute(cwd, PrefixOf(st)), segments, k) {
      assert k > 0 ==> Ups(k)[0] in Ups(k) && segments[..k][0] == segments[0];
      assert k == 0 ==> segments[k..] == segments && segments[0] in segments;
    }
  }

  /** Under a non-empty prefix a path is read back from its URI in exactly these cases. */
  lemma PathUriPathDirect(netlocOk: string -> bool, cwd: seq<string>, st: Storage, path: string)
    requires Usable(netlocOk, st) && PrefixOf(st) != "" && AllFree(cwd, '/')
    ensures GetPath(netlocOk, cwd, st, GetUri(st, Some(path))) == Ok(path) <==>
            Plain(path) && Direct(cwd, st, path)
  {
    DirectShape(cwd, st, path);
    assert Direct(cwd, st, "");
    EffectiveMeans(path);
    if path == "" {
      PathUriPath(netlocOk, cwd, st, path);
    } else if path == "." || StartsWithSlash(path) {
      NotReadBack(netlocOk, cwd, st, GetUri(st, Some(path)), path);
    } else {
      PathOfUri(netlocOk, cwd, st, path);
      if Plain(path) {
        StripsDirect(cwd, st, path);
      } else {
        StripsPlain(cwd, st, Effective(path));
      }
    }
  }

  lemma StripsDirect(cwd: seq<string>, st: Storage, path: string)
    requires PrefixOf(st) != "" && !StartsWithSlash(PrefixOf(st)) && AllFree(cwd, '/')
    requires path != "" && path != "."
    ensures StripPrefix(cwd, st, NameOf(PrefixOf(st), path)) == Ok(path) <==> Direct(cwd, st, path)
  {
    var name := PrefixOf(st) + "/" + path;
    assert name[0] == PrefixOf(st)[0];
    LStripMeans(name);
    AbsoluteConcat(cwd, PrefixOf(st), path);
    RelPathKept(cwd, PrefixOf(st), name, path);
    var r := RelPath(cwd, name, PrefixOf(st));
    assert r.Some? && StripPrefix(cwd, st, name) == Ok(if r.value == "." then "" else r.value);
  }

  /** Stripping the prefix from a plain path below it gives a plain path. */
  lemma StripsPlain(cwd: seq<string>, st: Storage, path: string)
    requires PrefixOf(st) != "" && !StartsWithSlash(PrefixOf(st)) && Plain(path)
    ensures var r := StripPrefix(cwd, st, NameOf(PrefixOf(st), path)); r.Ok? && Plain(r.value)
  {
    var name := PrefixOf(st) + "/" + path;
    var here := Absolute(cwd, PrefixOf(st));
    assert name[0] == PrefixOf(st)[0];
    LStripMeans(name);
    AbsoluteConcat(cwd, PrefixOf(st), path);
    RelativeOrigin(here, Split(path, '/'));
    SplitParts(path, '/');
    JoinFree(RelativeSegments(here, Normalise(here, Split(path, '/'))), PATH_STOPS);
  }

  lemma NotReadBack(netlocOk: string -> bool, cwd: seq<string>, st: Storage, uri: string, path: string)
    requires PrefixOf(st) != "" && AllFree(cwd, '/') && (path == "." || StartsWithSlash(path))
    ensures GetPath(netlocOk, cwd, st, uri) != Ok(path)
  {
    if Parse(netlocOk, uri).Ok? && Parse(netlocOk, uri).value.blobName.Some? {
      var name := Parse(netlocOk, uri).value.blobName.value;
      if StripPrefix(cwd, st, name) == Ok(path) {
        StrippedShape(cwd, st, name, path);
      }
    }
  }

  lemma ParsedNameShorter(netlocOk: string -> bool, uri: string)
    requires Parse(netlocOk, uri).Ok?
    ensures var u := Parse(netlocOk, uri).value;
      u.blobName.Some? ==> Plain(u.blobName.value) && |u.blobName.value| < |uri|
  {
    UrlParts(netlocOk, uri);
    var (netloc, path) := UrlParse(netlocOk, uri).value;
    PartsPlain(netloc, path);
  }

  /** Without a prefix, or with an empty one, the paths that are read back are exactly the
      plain ones that do not start with a slash, normalised or not. */
  lemma PathUriPathNoPrefix(netlocOk: string -> bool, cwd: seq<string>, st: Storage, path: string)
    requires Usable(netlocOk, st) && PrefixOf(st) == ""
    ensures GetPath(netlocOk, cwd, st, GetUri(st, Some(path))) == Ok(path) <==>
            Plain(path) && !StartsWithSlash(path)
  {
    var uri := GetUri(st, Some(path));
    EffectiveMeans(path);
    if Plain(path) && !StartsWithSlash(path) {
      PathOfUri(netlocOk, cwd, st, path);
    } else {
      assert StartsWithSlash(path) ==> uri == path;
      if Parse(netlocOk, uri).Ok? {
        ParsedNameShorter(netlocOk, uri);
      }
    }
  }

  lemma AddsNothing(prefix: string)
    ensures prefix + "/" + "" == prefix + "/"
  {
  }

  /** Adding and stripping the prefix undo each other without a prefix, and otherwise for exactly
      the direct paths; below an empty prefix the empty path fails. */
  lemma AddStripPrefix(cwd: seq<string>, st: Storage, path: string)
    requires Stripped(PrefixOf(st)) && AllFree(cwd, '/')
    ensures StripPrefix(cwd, st, AddPrefix(st, path)) == Ok(path) <==>
            st.prefix.None? || (Direct(cwd, st, path) && (PrefixOf(st) == "" ==> path != ""))
  {
    DirectShape(cwd, st, path);
    if st.prefix.Some? {
      if path == "" {
        StripsEmpty(cwd, st);
      } else if path == "." || StartsWithSlash(path) {
        if StripPrefix(cwd, st, AddPrefix(st, path)) == Ok(path) {
          StrippedShape(cwd, st, AddPrefix(st, path), path);
        }
      } else if PrefixOf(st) != "" {
        StripsDirect(cwd, st, path);
      } else {
        assert "" + path == path;
        LStripMeans(path);
        AbsoluteRelative(cwd, path);
        AbsoluteRelative(cwd, "");
        NormaliseEmpty(Normalise([], cwd));
        RelPathKept(cwd, "", path, path);
      }
    }
  }

  lemma StripsEmpty(cwd: seq<string>, st: Storage)
    requires st.prefix.Some? && Stripped(PrefixOf(st))
    ensures StripPrefix(cwd, st, AddPrefix(st, "")) == if PrefixOf(st) == "" then ValueError else Ok("")
  {
    if PrefixOf(st) != "" {
      AddsNothing(PrefixOf(st));
      StripsBelow(cwd, st, "");
    }
  }

  /** Stripping fails exactly when there is a prefix and nothing but slashes to strip it from.
      So a storage whose prefix is empty, but not missing, cannot name its own root. */
  lemma StripPrefixFails(cwd: seq<string>, st: Storage, path: string)
    ensures !StripPrefix(cwd, st, path).Ok? <==> st.prefix.Some? && LStrip(path, '/') == ""
    ensures StripPrefix(cwd, Make(st.account, st.container, Some("/")), "") == ValueError
  {
    assert Strip("/", '/') == "" by {
      assert "/"[1..] == "";
    }
  }

  /** The path does not start with a slash and ends with at most one. */
  predicate EndsOnce(path: string) {
    !StartsWithSlash(path) && |path| <= |RStrip(path, '/')| + 1
  }

  /** A substorage stands for the same blobs: a path in it has the URI of the joined path in the
      storage it was made from, if and only if that path is absolute, or the one of the
      substorage is relative and ends with at most one slash. */
  lemma SubstorageUri(st: Storage, path: string, p: string)
    requires Placed(st)
    ensures Placed(GetSubstorage(st, path))
    ensures GetUri(GetSubstorage(st, path), Some(p)) == GetUri(st, Some(PathJoin(path, p))) <==>
            StartsWithSlash(p) || EndsOnce(path)
  {
    SubstoragePlaced(st, path);
    if !StartsWithSlash(p) {
      if StartsWithSlash(path) {
        SubstorageAbsolute(st, path, p);
      } else {
        SubstorageRelative(st, path, p);
      }
    }
  }

  lemma SubstorageRelative(st: Storage, path: string, p: string)
    requires Placed(st) && !StartsWithSlash(path) && !StartsWithSlash(p)
    ensures GetUri(GetSubstorage(st, path), Some(p)) == GetUri(st, Some(PathJoin(path, p))) <==> EndsOnce(path)
  {
    SubstoragePlaced(st, path);
    UriOf(GetSubstorage(st, path), p);
    UriOf(st, PathJoin(path, p));
    JoinStaysRelative(path, p);
    SubstorageName(st, path, p);
  }

  lemma JoinStaysRelative(path: string, p: string)
    requires !StartsWithSlash(path) && !StartsWithSlash(p)
    ensures !StartsWithSlash(PathJoin(path, p))
  {
  }

  lemma SubstoragePlaced(st: Storage, path: string)
    requires Placed(st)
    ensures Placed(GetSubstorage(st, path))
  {
    StripMeans(AddPrefix(st, path));
  }

  /** A path below an absolute one stays absolute, and is not the URI of a relative one. */
  lemma SubstorageAbsolute(st: Storage, path: string, p: string)
    requires Placed(st) && StartsWithSlash(path) && !StartsWithSlash(p)
    ensures GetUri(GetSubstorage(st, path), Some(p)) != GetUri(st, Some(PathJoin(path, p)))
  {
    SubstoragePlaced(st, path);
    UriOf(GetSubstorage(st, path), p);
    UriOf(st, PathJoin(path, p));
    assert PathJoin(path, p)[0] == '/';
  }

  lemma SameEnds(start: string, a: string, b: string)
    ensures start + a == start + b <==> a == b
  {
    assert (start + a)[|start|..] == a && (start + b)[|start|..] == b;
  }

  lemma NameOfLength(prefix: string, a: string, b: string)
    ensures NameOf(prefix, a) == NameOf(prefix, b) <==> a == b
  {
    SameEnds(prefix + "/", a, b);
  }

  /** Relative paths: the blob names agree exactly when the joins do. */
  lemma SubstorageName(st: Storage, path: string, p: string)
    requires Placed(st) && !StartsWithSlash(path) && !StartsWithSlash(p)
    ensures var start := ContainerUri(st.account, st.container) + "/";
      start + NameOf(PrefixOf(GetSubstorage(st, path)), p) == start + NameOf(PrefixOf(st), PathJoin(path, p)) <==>
      EndsOnce(path)
  {
    var body, start := RStrip(path, '/'), ContainerUri(st.account, st.container) + "/";
    RStripMeans(path);
    SubstoragePrefix(st, path);
    NameOfNested(PrefixOf(st), body, p);
    NameOfLength(PrefixOf(st), PathJoin(body, p), PathJoin(path, p));
    SameEnds(start, NameOf(PrefixOf(GetSubstorage(st, path)), p), NameOf(PrefixOf(st), PathJoin(path, p)));
    JoinedOnce(path, p);
  }

  lemma JoinedOnce(path: string, p: string)
    requires !StartsWithSlash(path) && !StartsWithSlash(p)
    ensures PathJoin(RStrip(path, '/'), p) == PathJoin(path, p) <==> EndsOnce(path)
    ensures |PathJoin(RStrip(path, '/'), p)| == |PathJoin(path, p)| <==> EndsOnce(path)
  {
    var body := RStrip(path, '/');
    RStripMeans(path);
    if path != body {
      RStripRest(path);
      assert path == body + path[|body|..];
      if |path| == |body| + 1 {
        assert path == body + "/";
      }
    }
  }

  /** Only slashes are stripped. */
  lemma {:induction false} RStripRest(s: string)
    ensures RStrip(s, '/') <= s && forall i :: |RStrip(s, '/')| <= i < |s| ==> s[i] == '/'
  {
    if EndsWithSlash(s) {
      RStripRest(s[..|s| - 1]);
    }
  }

  lemma NameOfNested(prefix: string, path: string, p: string)
    requires !EndsWithSlash(path) && !StartsWithSlash(p)
    ensures NameOf(prefix, PathJoin(path, p)) == NameOf(if path == "" then prefix else NameOf(prefix, path), p)
  {
    if prefix != "" && path != "" {
      Assoc(prefix + "/", path + "/", p);
      Assoc(prefix + "/", path, "/");
    } else if path == "" {
      assert "" + p == p;
    }
  }

  lemma {:induction false} RStripAppend(a: string, b: string)
    requires RStrip(b, '/') != ""
    ensures RStrip(a + b, '/') == a + RStrip(b, '/')
  {
    if EndsWithSlash(b) {
      RStripAppend(a, b[..|b| - 1]);
      assert (a + b)[..|a + b| - 1] == a + b[..|b| - 1];
    }
  }

  lemma SubstoragePrefix(st: Storage, path: string)
    requires Placed(st) && !StartsWithSlash(path)
    ensures var body := RStrip(path, '/');
      PrefixOf(GetSubstorage(st, path)) == if body == "" then PrefixOf(st) else NameOf(PrefixOf(st), body)
  {
    var prefix, body := PrefixOf(st), RStrip(path, '/');
    RStripRest(path);
    LStripMeans(AddPrefix(st, path));
    if body == "" {
      assert path == "";
      AddsNothing(prefix);
      RStripMeans(prefix);
      assert (prefix + "/")[..|prefix|] == prefix;
    } else if prefix == "" {
      assert "" + path == path;
    } else {
      RStripAppend(prefix + "/", path);
    }
  }
}
