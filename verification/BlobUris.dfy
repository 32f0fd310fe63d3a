/** Blob URIs and the paths of a storage (`BlobUri`, `BlobStorage.get_uri`, `get_path`,
    `get_substorage`). */
module BlobUris {
  import opened Common
  import opened Text

  /** What Python raises: an index out of range, or a `ValueError`. */
  datatype Result<+T> = Ok(value: T) | IndexError | ValueError

  datatype BlobUri = BlobUri(account: string, container: string, blobName: Option<string>)

  // ---------------------------------------------------------------- urlparse

  const UNSAFE: set<char> := {'\t', '\r', '\n'}

  /** `urlsplit` drops these characters wherever they stand. */
  function RemoveUnsafe(s: string): string {
    if s == "" then "" else (if s[0] in UNSAFE then "" else [s[0]]) + RemoveUnsafe(s[1..])
  }

  /** Leading control characters and spaces. */
  function StripControls(s: string): string {
    if s != "" && s[0] <= ' ' then StripControls(s[1..]) else s
  }

  /** The part of `s` before the first of the characters `stops`. */
  function Before(s: string, stops: set<char>): string {
    if s == "" || s[0] in stops then "" else [s[0]] + Before(s[1..], stops)
  }

  predicate Letter(c: char) {
    'a' <= c <= 'z' || 'A' <= c <= 'Z'
  }

  predicate SchemeChar(c: char) {
    Letter(c) || '0' <= c <= '9' || c in {'+', '-', '.'}
  }

  function Lower(s: string): string {
    if s == "" then ""
    else [if 'A' <= s[0] <= 'Z' then (s[0] as int + 32) as char else s[0]] + Lower(s[1..])
  }

  predicate UsesParams(scheme: string) {
    scheme in {"", "ftp", "hdl", "prospero", "http", "https", "shttp", "rtsp", "rtspu", "sip", "sips", "mms", "sftp",
      "tel"}
  }

  /** The scheme, and what follows it. */
  function SplitScheme(url: string): (string, string) {
    var scheme := Before(url, {':'});
    if 0 < |scheme| < |url| && Letter(scheme[0]) && forall c :: c in scheme ==> SchemeChar(c)
    then (BeforeIsPrefix(url, {':'}); (Lower(scheme), url[|scheme| + 1..]))
    else ("", url)
  }

  /** `_splitparams`: the parameters of the last path segment are not part of the path. */
  function DropParams(path: string): string {
    var parts := Split(path, '/');
    Join(parts[..|parts| - 1] + [Before(parts[|parts| - 1], {';'})], '/')
  }

  const NETLOC_ENDS: set<char> := {'/', '?', '#'}

  function Netloc(url: string): string {
    if "//" <= url then Before(url[2..], NETLOC_ENDS) else ""
  }

  function AfterNetloc(url: string): string {
    if "//" <= url then (BeforeIsPrefix(url[2..], NETLOC_ENDS); url[2..][|Netloc(url)|..]) else url
  }

  /** Without the fragment and then without the query. */
  function WithoutQuery(s: string): string {
    Before(Before(s, {'#'}), {'?'})
  }

  /** The netloc and the path of a URL. `netlocOk` is the test of brackets and of characters
      that `urlsplit` applies to a netloc. */
  function UrlParse(netlocOk: string -> bool, uri: string): Result<(string, string)> {
    var (scheme, url) := SplitScheme(RemoveUnsafe(StripControls(uri)));
    if "//" <= url && !netlocOk(Netloc(url)) then ValueError
    else
      var path := WithoutQuery(AfterNetloc(url));
      Ok((Netloc(url), if UsesParams(scheme) then DropParams(path) else path))
  }

  function NonEmpty(s: string): Option<string> {
    if s == "" then None else Some(s)
  }

  /** `BlobUri.__init__`. */
  function Parse(netlocOk: string -> bool, uri: string): Result<BlobUri> {
    match UrlParse(netlocOk, uri)
    case Ok((netloc, path)) => FromPath(netloc, path)
    case IndexError => IndexError
    case ValueError => ValueError
  }

  function FromPath(netloc: string, path: string): Result<BlobUri> {
    var parts := Split(path, '/');
    if |parts| < 2 then IndexError
    else if parts[1] == "" then ValueError
    else Ok(BlobUri(netloc, parts[1], NonEmpty(Join(parts[2..], '/'))))
  }

  function ContainerUri(account: string, container: string): string {
    "blob://" + account + ("/" + container)
  }

  /** `BlobUri.__str__`. */
  function Show(u: BlobUri): string {
    ContainerUri(u.account, u.container) +
    if u.blobName.Some? && u.blobName.value != "" then "/" + u.blobName.value else ""
  }

  // ---------------------------------------------------------------- cutting lemmas

  lemma {:induction false} BeforeIsPrefix(s: string, stops: set<char>)
    ensures Before(s, stops) <= s
    ensures forall c :: c in Before(s, stops) ==> c !in stops
  {
    if s != "" && s[0] !in stops {
      BeforeIsPrefix(s[1..], stops);
    }
  }

  /** A front without stops ends at the first stop. */
  lemma {:induction false} BeforeStops(a: string, b: string, stops: set<char>)
    requires forall c :: c in a ==> c !in stops
    requires b == "" || b[0] in stops
    ensures Before(a + b, stops) == a
  {
    if a == "" {
      assert a + b == b;
    } else {
      assert a[0] in a && (a + b)[1..] == a[1..] + b;
      BeforeStops(a[1..], b, stops);
    }
  }

  ghost predicate Free(s: string, chars: set<char>) {
    forall c :: c in s ==> c !in chars
  }

  lemma {:induction false} RemoveUnsafeMeans(s: string)
    ensures Free(RemoveUnsafe(s), UNSAFE)
    ensures |RemoveUnsafe(s)| <= |s|
    ensures Free(s, UNSAFE) ==> RemoveUnsafe(s) == s
  {
    if s != "" {
      RemoveUnsafeMeans(s[1..]);
      assert s[0] in s;
    }
  }

  lemma {:induction false} StripControlsShorter(s: string)
    ensures |StripControls(s)| <= |s|
  {
    if s != "" && s[0] <= ' ' {
      StripControlsShorter(s[1..]);
    }
  }

  lemma {:induction false} JoinFree(parts: seq<string>, chars: set<char>)
    requires '/' !in chars && forall p :: p in parts ==> Free(p, chars)
    ensures Free(Join(parts, '/'), chars)
  {
    if parts != [] {
      assert parts[0] in parts;
      JoinFree(parts[1..], chars);
    }
  }

  lemma {:induction false} JoinLastShorter(front: seq<string>, a: string, b: string)
    requires |a| <= |b|
    ensures |Join(front + [a], '/')| <= |Join(front + [b], '/')|
  {
    if front == [] {
      assert front + [a] == [a] && front + [b] == [b];
    } else {
      JoinLastShorter(front[1..], a, b);
      assert (front + [a])[1..] == front[1..] + [a] && (front + [b])[1..] == front[1..] + [b];
    }
  }

  lemma DropParamsMeans(path: string, chars: set<char>)
    requires '/' !in chars && Free(path, chars)
    ensures Free(DropParams(path), chars) && |DropParams(path)| <= |path|
  {
    var parts := Split(path, '/');
    var last := parts[|parts| - 1];
    var cut := Before(last, {';'});
    BeforeIsPrefix(last, {';'});
    SplitParts(path, '/');
    assert last in parts;
    JoinFree(parts[..|parts| - 1] + [cut], chars);
    JoinSplit(path, '/');
    JoinLastShorter(parts[..|parts| - 1], cut, last);
    assert parts == parts[..|parts| - 1] + [last];
  }

  // ---------------------------------------------------------------- printing and parsing

  const PATH_STOPS: set<char> := {'?', '#', '\t', '\r', '\n'}
  const NETLOC_STOPS: set<char> := {'/', '?', '#', '\t', '\r', '\n'}

  /** The path survives being put into a URI. */
  ghost predicate Plain(s: string) {
    Free(s, PATH_STOPS)
  }

  ghost predicate PlainContainer(netlocOk: string -> bool, account: string, container: string) {
    Free(account, NETLOC_STOPS) && netlocOk(account) && container != "" && Free(container, NETLOC_STOPS)
  }

  ghost predicate Printable(netlocOk: string -> bool, u: BlobUri) {
    PlainContainer(netlocOk, u.account, u.container)
    && (u.blobName.Some? ==> u.blobName.value != "" && Plain(u.blobName.value))
  }

  lemma SchemeIsBlob(rest: string)
    ensures SplitScheme("blob:" + rest) == ("blob", rest)
  {
    assert "blob:" + rest == "blob" + (":" + rest);
    BeforeStops("blob", ":" + rest, {':'});
    assert Lower("blob") == "blob" by {
      assert "blob"[1..] == "lob" && "lob"[1..] == "ob" && "ob"[1..] == "b" && "b"[1..] == "";
    }
  }

  lemma NetlocSplits(account: string, tail: string)
    requires Free(account, NETLOC_STOPS) && (tail == "" || tail[0] == '/')
    ensures Netloc("//" + account + tail) == account && AfterNetloc("//" + account + tail) == tail
  {
    BeforeStops(account, tail, NETLOC_ENDS);
    assert ("//" + account + tail)[2..] == account + tail;
  }

  lemma WithoutQueryMeans(s: string)
    ensures WithoutQuery(s) <= s && Free(WithoutQuery(s), {'?', '#'})
    ensures Plain(s) ==> WithoutQuery(s) == s
  {
    BeforeIsPrefix(s, {'#'});
    BeforeIsPrefix(Before(s, {'#'}), {'?'});
    if Plain(s) {
      BeforeStops(s, "", {'#'});
      BeforeStops(s, "", {'?'});
      assert s + "" == s;
    }
  }

  lemma {:induction false} RemoveUnsafeAppend(a: string, b: string)
    requires Free(a, UNSAFE)
    ensures RemoveUnsafe(a + b) == a + RemoveUnsafe(b)
  {
    if a == "" {
      assert a + b == b;
    } else {
      assert a[0] in a && (a + b)[1..] == a[1..] + b;
      RemoveUnsafeAppend(a[1..], b);
    }
  }

  lemma {:induction false} BeforeAppend(a: string, b: string, stops: set<char>)
    requires Free(a, stops)
    ensures Before(a + b, stops) == a + Before(b, stops)
  {
    if a == "" {
      assert a + b == b;
    } else {
      assert a[0] in a && (a + b)[1..] == a[1..] + b;
      BeforeAppend(a[1..], b, stops);
    }
  }

  lemma BlobUrl(rest: string)
    ensures SplitScheme(RemoveUnsafe(StripControls("blob:" + rest))) == ("blob", RemoveUnsafe(rest))
  {
    var uri := "blob:" + rest;
    RemoveUnsafeAppend("blob:", rest);
    assert uri[0] == 'b';
    SchemeIsBlob(RemoveUnsafe(rest));
  }

  /** What is left of a name that is put into a URI: no dropped characters, no query and no
      fragment. */
  function Effective(name: string): string {
    WithoutQuery(RemoveUnsafe(name))
  }

  lemma EffectiveMeans(name: string)
    ensures Plain(Effective(name)) && |Effective(name)| <= |name|
    ensures Plain(name) <==> Effective(name) == name
  {
    RemoveUnsafeMeans(name);
    WithoutQueryMeans(RemoveUnsafe(name));
  }

  lemma EffectiveAppend(a: string, b: string)
    requires Plain(a)
    ensures Effective(a + b) == a + Effective(b)
  {
    RemoveUnsafeAppend(a, b);
    BeforeAppend(a, RemoveUnsafe(b), {'#'});
    BeforeAppend(a, Before(RemoveUnsafe(b), {'#'}), {'?'});
  }

  lemma ParseBlob(netlocOk: string -> bool, account: string, tail: string)
    requires Free(account, NETLOC_STOPS) && netlocOk(account)
    requires tail == "" || tail[0] == '/'
    ensures Parse(netlocOk, "blob://" + account + tail) == FromPath(account, Effective(tail))
  {
    var rest := "//" + account + tail;
    assert "blob://" + account + tail == "blob:" + rest;
    BlobUrl(rest);
    RemoveUnsafeAppend("//" + account, tail);
    NetlocSplits(account, RemoveUnsafe(tail));
  }

  lemma ContainerParts(container: string, name: string)
    requires Free(container, NETLOC_STOPS)
    ensures Split("/" + container + ("/" + name), '/') == ["", container] + Split(name, '/')
    ensures Split("/" + container, '/') == ["", container]
  {
    SplitFree(container, '/');
    SplitFree("", '/');
    SplitConcat("", container, '/');
    assert "" + ['/'] + container == "/" + container;
    SplitConcat("/" + container, name, '/');
    assert "/" + container + ['/'] + name == "/" + container + ("/" + name);
  }

  /** What is left of the path of a URI after its container is the blob name; an empty one counts
      as none. */
  lemma ParseName(netlocOk: string -> bool, account: string, container: string, name: string)
    requires PlainContainer(netlocOk, account, container)
    ensures Parse(netlocOk, ContainerUri(account, container) + "/" + name) ==
            Ok(BlobUri(account, container, NonEmpty(Effective(name))))
    ensures Plain(name) ==> Effective(name) == name
  {
    var start := "/" + container;
    var tail := start + ("/" + name);
    assert ContainerUri(account, container) + "/" + name == "blob://" + account + tail;
    ParseBlob(netlocOk, account, tail);
    EffectiveAppend(start, "/" + name);
    EffectiveAppend("/", name);
    ContainerParts(container, Effective(name));
    JoinSplit(Effective(name), '/');
    assert (["", container] + Split(Effective(name), '/'))[2..] == Split(Effective(name), '/');
    EffectiveMeans(name);
  }

  lemma ParseContainer(netlocOk: string -> bool, account: string, container: string)
    requires PlainContainer(netlocOk, account, container)
    ensures Parse(netlocOk, ContainerUri(account, container)) == Ok(BlobUri(account, container, None))
  {
    ParseBlob(netlocOk, account, "/" + container);
    EffectiveMeans("/" + container);
    ContainerParts(container, "");
  }

  lemma PartsPlain(netloc: string, path: string)
    requires Plain(path) && FromPath(netloc, path).Ok?
    ensures var u := FromPath(netloc, path).value;
      && u.account == netloc && u.container != "" && Free(u.container, NETLOC_STOPS)
      && (u.blobName.Some? ==> u.blobName.value != "" && Plain(u.blobName.value) && |u.blobName.value| < |path|)
  {
    var parts := Split(path, '/');
    SplitParts(path, '/');
    assert parts[1] in parts;
    JoinFree(parts[2..], PATH_STOPS);
    JoinSplit(path, '/');
    if |parts| > 2 {
      JoinConcat(parts[..2], parts[2..], '/');
      assert parts == parts[..2] + parts[2..];
    }
  }

  lemma UrlParts(netlocOk: string -> bool, uri: string)
    requires UrlParse(netlocOk, uri).Ok?
    ensures var (netloc, path) := UrlParse(netlocOk, uri).value;
      && Free(netloc, NETLOC_STOPS) && Plain(path) && |path| <= |uri|
      && (netloc == "" || netlocOk(netloc))
  {
    var url := SplitScheme(RemoveUnsafe(StripControls(uri))).1;
    UrlShorter(uri);
    NetlocParts(url);
    WithoutQueryMeans(AfterNetloc(url));
    var path := WithoutQuery(AfterNetloc(url));
    DropParamsMeans(path, PATH_STOPS);
  }

  lemma UrlShorter(uri: string)
    ensures var url := SplitScheme(RemoveUnsafe(StripControls(uri))).1; Free(url, UNSAFE) && |url| <= |uri|
  {
    StripControlsShorter(uri);
    RemoveUnsafeMeans(StripControls(uri));
  }

  lemma NetlocParts(url: string)
    requires Free(url, UNSAFE)
    ensures Free(Netloc(url), NETLOC_STOPS)
    ensures Free(AfterNetloc(url), UNSAFE) && |AfterNetloc(url)| <= |url|
  {
    if "//" <= url {
      BeforeIsPrefix(url[2..], NETLOC_ENDS);
    }
  }

  /** Whatever `BlobUri` accepts can be printed and read back; an account without characters is
      allowed, so the test of the netloc must accept the empty string. */
  lemma ParsedIsPrintable(netlocOk: string -> bool, uri: string)
    requires netlocOk("")
    ensures Parse(netlocOk, uri).Ok? ==> Printable(netlocOk, Parse(netlocOk, uri).value)
  {
    if Parse(netlocOk, uri).Ok? {
      UrlParts(netlocOk, uri);
      var (netloc, path) := UrlParse(netlocOk, uri).value;
      PartsPlain(netloc, path);
    }
  }

  lemma PrintedParses(netlocOk: string -> bool, u: BlobUri)
    requires Printable(netlocOk, u)
    ensures Parse(netlocOk, Show(u)) == Ok(u)
  {
    var container := ContainerUri(u.account, u.container);
    if u.blobName.Some? {
      var name := u.blobName.value;
      ParseName(netlocOk, u.account, u.container, name);
      Assoc(container, "/", name);
    } else {
      ParseContainer(netlocOk, u.account, u.container);
      assert container + "" == container;
    }
  }

  /** Printing and parsing undo each other for exactly the printable values: no separators in
      the account and the container, no query, fragment or dropped characters in the name, and
      no empty container or name. */
  lemma ShowParse(netlocOk: string -> bool, u: BlobUri)
    requires netlocOk("")
    ensures Parse(netlocOk, Show(u)) == Ok(u) <==> Printable(netlocOk, u)
  {
    if Printable(netlocOk, u) {
      PrintedParses(netlocOk, u);
    } else if Parse(netlocOk, Show(u)) == Ok(u) {
      ParsedIsPrintable(netlocOk, Show(u));
    }
  }

  /** Re-parsing the printed form of any accepted URI, in whatever form it was written, gives
      the same account, container and blob name. */
  lemma Reparse(netlocOk: string -> bool, uri: string)
    requires netlocOk("")
    ensures var r := Parse(netlocOk, uri); r.Ok? ==> Parse(netlocOk, Show(r.value)) == r
  {
    var r := Parse(netlocOk, uri);
    if r.Ok? {
      ParsedIsPrintable(netlocOk, uri);
      ShowParse(netlocOk, r.value);
    }
  }

  /** `base_uri` of any accepted URI is its account and container alone. */
  lemma BaseUri(netlocOk: string -> bool, uri: string)
    requires netlocOk("")
    ensures var r := Parse(netlocOk, uri);
      r.Ok? ==> Parse(netlocOk, ContainerUri(r.value.account, r.value.container)) == Ok(r.value.(blobName := None))
  {
    var r := Parse(netlocOk, uri);
    if r.Ok? {
      ParsedIsPrintable(netlocOk, uri);
      ParseContainer(netlocOk, r.value.account, r.value.container);
    }
  }
}
