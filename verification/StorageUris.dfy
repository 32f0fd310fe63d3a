/** The URIs that a storage accepts and what it makes of them (`BlobStorage.get_path`). */
module StorageUris {
  import opened Common
  import opened Text
  import opened PosixPath
  import opened BlobUris
  import opened StoragePaths

  /** The URI names a blob, or the container, of the storage's own container. */
  ghost predicate OwnContainer(netlocOk: string -> bool, st: Storage, uri: string) {
    var u := Parse(netlocOk, uri);
    u.Ok? && u.value.account == st.account && u.value.container == st.container
  }

  function BlobNameOf(netlocOk: string -> bool, uri: string): string {
    var u := Parse(netlocOk, uri);
    if u.Ok? && u.value.blobName.Some? then u.value.blobName.value else ""
  }

  lemma {:induction false} ContainsMore(s: string, part: string)
    requires Contains(s, part) && part != "" && part[0] != '/'
    ensures LStrip(s, '/') != ""
  {
    if StartsWithSlash(s) {
      assert !(part <= s);
      ContainsMore(s[1..], part);
    }
  }

  /** `get_path` accepts exactly the URIs of the container whose blob name contains the prefix
      somewhere. */
  lemma AcceptedUris(netlocOk: string -> bool, cwd: seq<string>, st: Storage, uri: string)
    requires Stripped(PrefixOf(st))
    ensures GetPath(netlocOk, cwd, st, uri).Ok? <==>
            OwnContainer(netlocOk, st, uri) && Contains(BlobNameOf(netlocOk, uri), PrefixOf(st))
  {
    var name, prefix := BlobNameOf(netlocOk, uri), PrefixOf(st);
    if prefix == "" {
      assert prefix <= name;
    } else if Contains(name, prefix) {
      ContainsMore(name, prefix);
    }
  }

  /** The folder of the prefix does not hold the blob. */
  ghost predicate Outside(cwd: seq<string>, prefix: string, name: string) {
    !(Absolute(cwd, prefix) <= Absolute(cwd, LStrip(name, '/')))
  }

  ghost predicate ClimbsOut(path: string) {
    Split(path, '/')[0] == ".."
  }

  lemma {:induction false} CommonIsAll(from: seq<string>, to: seq<string>)
    ensures CommonLength(from, to) == |from| <==> from <= to
  {
    if from != [] && to != [] && from[0] == to[0] {
      CommonIsAll(from[1..], to[1..]);
      assert from == [from[0]] + from[1..] && to == [to[0]] + to[1..];
    }
  }

  /** A relative path starts with ".." exactly when the target is not below the start. */
  lemma RelativeOutside(from: seq<string>, to: seq<string>)
    requires Names(to)
    ensures var r := RelativeSegments(from, to); r != [] && r[0] == ".." <==> !(from <= to)
  {
    CommonIsAll(from, to);
    var i := CommonLength(from, to);
    var r := RelativeSegments(from, to);
    if i < |from| {
      assert r[0] == Ups(|from| - i)[0] && Ups(|from| - i)[0] in Ups(|from| - i);
    } else if r != [] {
      assert r[0] == to[i] && to[i] in to;
    }
  }

  /** Of the accepted URIs, those of blobs outside the prefix are given a path that climbs out of it;
      and only those. */
  lemma OutsideClimbs(netlocOk: string -> bool, cwd: seq<string>, st: Storage, uri: string)
    requires Stripped(PrefixOf(st)) && PrefixOf(st) != "" && AllFree(cwd, '/')
    requires GetPath(netlocOk, cwd, st, uri).Ok?
    ensures ClimbsOut(GetPath(netlocOk, cwd, st, uri).value) <==>
            Outside(cwd, PrefixOf(st), BlobNameOf(netlocOk, uri))
  {
    var name := LStrip(BlobNameOf(netlocOk, uri), '/');
    var from, to := Absolute(cwd, PrefixOf(st)), Absolute(cwd, name);
    var r := RelativeSegments(from, to);
    AbsoluteNames(cwd, name);
    RelativeOutside(from, to);
    RelativeFree(from, to);
    if r == [] {
      assert Split("", '/') == [""];
    } else {
      SplitJoin(r, '/');
      RelativeProper(from, to);
      NotOneDot(r);
    }
  }

  lemma NotOneDot(parts: seq<string>)
    requires parts != [] && AllFree(parts, '/') && "." !in parts
    ensures Join(parts, '/') != "."
  {
    SplitJoin(parts, '/');
    SplitFree(".", '/');
    assert parts[0] in parts;
  }

  lemma {:induction false} ContainsInside(a: string, part: string, b: string)
    ensures Contains(a + part + b, part)
  {
    if a == "" {
      assert a + part + b == part + b;
    } else {
      ContainsInside(a[1..], part, b);
      assert (a + part + b)[1..] == a[1..] + part + b;
    }
  }

  lemma SideSegments(top: seq<string>, folder: string, parts: seq<string>)
    requires parts != [] && parts[0] != folder
    ensures RelativeSegments(top + [folder], top + parts) == [".."] + parts
  {
    var from, to := top + [folder], top + parts;
    CommonIs(from, to, |top|);
    assert to[|top|..] == parts && Ups(1) == [".."] + Ups(0);
  }

  /** The way from one folder to something below another one beside it. */
  lemma SideFolder(cwd: seq<string>, folder: string, parts: seq<string>)
    requires IsName(folder) && '/' !in folder && Names(parts) && AllFree(parts, '/')
    requires parts != [] && parts[0] != folder
    ensures RelativeSegments(Absolute(cwd, folder), Absolute(cwd, Join(parts, '/'))) == [".."] + parts
  {
    var top := Normalise([], cwd);
    assert parts[0] in parts;
    JoinStarts(parts);
    AbsoluteRelative(cwd, folder);
    AbsoluteRelative(cwd, Join(parts, '/'));
    SplitFree(folder, '/');
    SplitJoin(parts, '/');
    NormaliseNames(top, [folder]);
    NormaliseNames(top, parts);
    SideSegments(top, folder, parts);
  }

  ghost predicate FolderName(s: string) {
    IsName(s) && '/' !in s && Plain(s)
  }

  lemma JoinOfThree(a: string, b: string, c: string)
    ensures Join([a, b, c], '/') == (a + ['/']) + b + (['/'] + c)
  {
    var parts := [a, b, c];
    assert parts[1..] == [b, c] && parts[1..][1..] == [c];
    assert Join([b, c], '/') == b + ['/'] + c;
  }

  /** A storage accepts a blob of another folder when a folder on its way has the name of the prefix:
      below "a", the blob "b/a/x" is the path "../b/a/x". */
  lemma OutsideAccepted(netlocOk: string -> bool, cwd: seq<string>, st: Storage, other: string, x: string)
    requires PlainContainer(netlocOk, st.account, st.container) && st.prefix.Some? && other != st.prefix.value
    requires FolderName(st.prefix.value) && FolderName(other) && FolderName(x)
    ensures var parts := [other, st.prefix.value, x];
      GetPath(netlocOk, cwd, st, ContainerUri(st.account, st.container) + "/" + Join(parts, '/')) ==
      Ok(Join([".."] + parts, '/'))
  {
    var parts := [other, st.prefix.value, x];
    var name := Join(parts, '/');
    OutsideName(other, st.prefix.value, x);
    AcceptedName(netlocOk, cwd, st, name);
    ThreeNames(other, st.prefix.value, x);
    OutsideStripped(cwd, st, parts);
  }

  lemma AcceptedName(netlocOk: string -> bool, cwd: seq<string>, st: Storage, name: string)
    requires PlainContainer(netlocOk, st.account, st.container) && PrefixOf(st) != ""
    requires Plain(name) && name != "" && Contains(name, PrefixOf(st))
    ensures GetPath(netlocOk, cwd, st, ContainerUri(st.account, st.container) + "/" + name) ==
            StripPrefix(cwd, st, name)
  {
    ParseName(netlocOk, st.account, st.container, name);
  }

  lemma ThreeNames(a: string, b: string, c: string)
    requires FolderName(a) && FolderName(b) && FolderName(c)
    ensures Names([a, b, c]) && AllFree([a, b, c], '/')
  {
  }

  lemma OutsideName(a: string, b: string, c: string)
    requires FolderName(a) && FolderName(b) && FolderName(c)
    ensures var name := Join([a, b, c], '/'); Plain(name) && name != "" && Contains(name, b)
  {
    var parts := [a, b, c];
    JoinFree(parts, PATH_STOPS);
    JoinOfThree(a, b, c);
    ContainsInside(a + ['/'], b, ['/'] + c);
  }

  lemma OutsideStripped(cwd: seq<string>, st: Storage, parts: seq<string>)
    requires st.prefix.Some? && FolderName(st.prefix.value) && parts != [] && parts[0] != st.prefix.value
    requires Names(parts) && AllFree(parts, '/')
    ensures StripPrefix(cwd, st, Join(parts, '/')) == Ok(Join([".."] + parts, '/'))
  {
    var name := Join(parts, '/');
    assert parts[0] in parts;
    JoinStarts(parts);
    LStripMeans(name);
    SideFolder(cwd, st.prefix.value, parts);
    NotOneDot([".."] + parts);
  }

  /** What every URI of the storage starts with. */
  function Head(st: Storage): string {
    ContainerUri(st.account, st.container) + "/" + NameOf(PrefixOf(st), "")
  }

  lemma HeadPath(st: Storage, path: string)
    requires Placed(st) && !StartsWithSlash(path)
    ensures GetUri(st, Some(path)) == Head(st) + path
  {
    UriOf(st, path);
    var start := ContainerUri(st.account, st.container) + "/";
    if PrefixOf(st) != "" {
      AddsNothing(PrefixOf(st));
      Assoc(start, PrefixOf(st) + "/", path);
    } else {
      assert start + "" == start;
    }
  }

  /** A path that is read back from its URI. */
  ghost predicate ReadBack(cwd: seq<string>, st: Storage, path: string) {
    Plain(path) && if PrefixOf(st) == "" then !StartsWithSlash(path) else Direct(cwd, st, path)
  }

  lemma ReadBackMeans(netlocOk: string -> bool, cwd: seq<string>, st: Storage, path: string)
    requires Usable(netlocOk, st) && AllFree(cwd, '/')
    ensures GetPath(netlocOk, cwd, st, GetUri(st, Some(path))) == Ok(path) <==> ReadBack(cwd, st, path)
    ensures ReadBack(cwd, st, path) ==> GetUri(st, Some(path)) == Head(st) + path
  {
    UsableIsPlaced(netlocOk, st);
    if PrefixOf(st) == "" {
      PathUriPathNoPrefix(netlocOk, cwd, st, path);
    } else {
      PathUriPathDirect(netlocOk, cwd, st, path);
      DirectShape(cwd, st, path);
    }
    if ReadBack(cwd, st, path) {
      HeadPath(st, path);
    }
  }

  /** URIs and paths undo each other the other way round, too: `get_uri(get_path(u))` is `u` if and only
      if `u` continues the URI of the storage with a path that is read back. */
  lemma UriPathUri(netlocOk: string -> bool, cwd: seq<string>, st: Storage, uri: string)
    requires Usable(netlocOk, st) && AllFree(cwd, '/')
    ensures var p := GetPath(netlocOk, cwd, st, uri);
      p.Ok? && GetUri(st, Some(p.value)) == uri <==> Head(st) <= uri && ReadBack(cwd, st, uri[|Head(st)|..])
  {
    var p := GetPath(netlocOk, cwd, st, uri);
    if p.Ok? && GetUri(st, Some(p.value)) == uri {
      ReadBackMeans(netlocOk, cwd, st, p.value);
      assert uri[|Head(st)|..] == p.value;
    }
    if Head(st) <= uri {
      var path := uri[|Head(st)|..];
      ReadBackMeans(netlocOk, cwd, st, path);
      assert uri == Head(st) + path;
    }
  }
}
