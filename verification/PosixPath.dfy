/** The two `os.path` functions the blob storage relies on. A path is normalised as a list of
    segments; `cwd` is the working directory as such a list. */
module PosixPath {
  import opened Common
  import opened Text

  /** A segment that normalisation keeps. */
  predicate IsName(s: string) {
    s != "" && s != "." && s != ".."
  }

  ghost predicate Names(segments: seq<string>) {
    forall s :: s in segments ==> IsName(s)
  }

  predicate StartsWithSlash(s: string) {
    s != "" && s[0] == '/'
  }

  predicate EndsWithSlash(s: string) {
    s != "" && s[|s| - 1] == '/'
  }

  /** `os.path.join(a, b)`. */
  function PathJoin(a: string, b: string): string {
    if StartsWithSlash(b) then b
    else if a == "" || EndsWithSlash(a) then a + b
    else a + "/" + b
  }

  function Visit(done: seq<string>, s: string): seq<string> {
    if s == "" || s == "." then done
    else if s == ".." then (if done == [] then [] else done[..|done| - 1])
    else done + [s]
  }

  function Normalise(done: seq<string>, segments: seq<string>): seq<string> {
    if segments == [] then done
    else Visit(Normalise(done, segments[..|segments| - 1]), segments[|segments| - 1])
  }

  /** The segments of `os.path.abspath(path)`. */
  function Absolute(cwd: seq<string>, path: string): seq<string> {
    Normalise([], (if StartsWithSlash(path) then [] else cwd) + Split(path, '/'))
  }

  function CommonLength(a: seq<string>, b: seq<string>): (n: nat)
    ensures n <= |a| && n <= |b|
  {
    if a == [] || b == [] || a[0] != b[0] then 0 else 1 + CommonLength(a[1..], b[1..])
  }

  function Ups(n: nat): (r: seq<string>)
    ensures |r| == n && forall s :: s in r ==> s == ".."
  {
    if n == 0 then [] else [".."] + Ups(n - 1)
  }

  function RelativeSegments(from: seq<string>, to: seq<string>): seq<string> {
    var i := CommonLength(from, to);
    Ups(|from| - i) + to[i..]
  }

  /** `os.path.relpath(path, start)`; None stands for the ValueError on an empty path. */
  function RelPath(cwd: seq<string>, path: string, start: string): Option<string> {
    if path == "" then None
    else
      var r := RelativeSegments(Absolute(cwd, start), Absolute(cwd, path));
      Some(if r == [] then "." else Join(r, '/'))
  }

  // ---------------------------------------------------------------- what they do

  lemma {:induction false} NormaliseAppend(done: seq<string>, a: seq<string>, b: seq<string>)
    ensures Normalise(done, a + b) == Normalise(Normalise(done, a), b)
  {
    if b == [] {
      assert a + b == a;
    } else {
      var front := b[..|b| - 1];
      NormaliseAppend(done, a, front);
      assert (a + b)[..|a + b| - 1] == a + front;
    }
  }

  lemma {:induction false} NormaliseNames(done: seq<string>, segments: seq<string>)
    requires Names(segments)
    ensures Normalise(done, segments) == done + segments
  {
    if segments != [] {
      var front := segments[..|segments| - 1];
      NormaliseNames(done, front);
      assert segments == front + [segments[|segments| - 1]];
      assert segments[|segments| - 1] in segments;
    }
  }

  lemma {:induction false} NormalisedAreNames(done: seq<string>, segments: seq<string>)
    requires Names(done) && AllFree(done, '/') && AllFree(segments, '/')
    ensures Names(Normalise(done, segments)) && AllFree(Normalise(done, segments), '/')
  {
    if segments != [] {
      NormalisedAreNames(done, segments[..|segments| - 1]);
    }
  }

  lemma {:induction false} CommonPrefix(a: seq<string>, b: seq<string>)
    ensures CommonLength(a, a + b) == |a|
  {
    if a != [] {
      assert (a + b)[1..] == a[1..] + b;
      CommonPrefix(a[1..], b);
    }
  }

  lemma AbsoluteConcat(cwd: seq<string>, start: string, tail: string)
    requires start != ""
    ensures Absolute(cwd, start + "/" + tail) == Normalise(Absolute(cwd, start), Split(tail, '/'))
  {
    var top := if StartsWithSlash(start) then [] else cwd;
    SplitConcat(start, tail, '/');
    assert start + "/" + tail == start + ['/'] + tail;
    NormaliseAppend([], top + Split(start, '/'), Split(tail, '/'));
    Assoc(top, Split(start, '/'), Split(tail, '/'));
  }

  lemma NormaliseEmpty(done: seq<string>)
    ensures Normalise(done, [""]) == done
  {
    assert [""][..0] == [] && Normalise(done, []) == done;
  }

  /** The segments below the start of a path that continues it with names only. An empty `rest`
      is the start itself. */
  lemma AbsoluteBelow(cwd: seq<string>, start: string, rest: seq<string>)
    requires start != "" && Names(rest) && AllFree(rest, '/')
    ensures Absolute(cwd, start + "/" + Join(rest, '/')) == Absolute(cwd, start) + rest
  {
    AbsoluteConcat(cwd, start, Join(rest, '/'));
    if rest == [] {
      NormaliseEmpty(Absolute(cwd, start));
    } else {
      SplitJoin(rest, '/');
      NormaliseNames(Absolute(cwd, start), rest);
    }
  }

  lemma JoinStarts(rest: seq<string>)
    requires rest != [] && rest[0] != "" && AllFree(rest, '/')
    ensures Join(rest, '/') != "" && Join(rest, '/')[0] == rest[0][0] != '/'
  {
    assert rest[0][0] in rest[0];
  }

  lemma RelativeBelow(from: seq<string>, rest: seq<string>)
    ensures RelativeSegments(from, from + rest) == rest
  {
    CommonPrefix(from, rest);
    assert Ups(0) == [];
    assert (from + rest)[|from|..] == rest;
  }

  function DotOr(rest: seq<string>): string {
    if rest == [] then "." else Join(rest, '/')
  }

  lemma RelPathBelow(cwd: seq<string>, start: string, rest: seq<string>)
    requires start != "" && Names(rest) && AllFree(rest, '/')
    ensures RelPath(cwd, start + "/" + Join(rest, '/'), start) == Some(DotOr(rest))
    ensures RelPath(cwd, start, start) == Some(".")
  {
    AbsoluteBelow(cwd, start, rest);
    RelativeBelow(Absolute(cwd, start), rest);
    RelativeBelow(Absolute(cwd, start), []);
    assert Absolute(cwd, start) + [] == Absolute(cwd, start);
  }

  lemma AbsoluteRelative(cwd: seq<string>, path: string)
    requires !StartsWithSlash(path)
    ensures Absolute(cwd, path) == Normalise(Normalise([], cwd), Split(path, '/'))
  {
    NormaliseAppend([], cwd, Split(path, '/'));
  }

  lemma {:induction false} NormaliseTrimEnd(done: seq<string>, segments: seq<string>)
    ensures Normalise(done, TrimEnd(segments)) == Normalise(done, segments)
  {
    if segments != [] && segments[|segments| - 1] == "" {
      NormaliseTrimEnd(done, segments[..|segments| - 1]);
    }
  }

  lemma {:induction false} NormaliseTrimStart(done: seq<string>, segments: seq<string>)
    ensures Normalise(done, TrimStart(segments)) == Normalise(done, segments)
  {
    if segments != [] && segments[0] == "" {
      NormaliseTrimStart(done, segments[1..]);
      NormaliseAppend(done, [""], segments[1..]);
      NormaliseEmpty(done);
      assert segments == [""] + segments[1..];
    }
  }

  lemma ProperSegments(r: seq<string>)
    requires AllFree(r, '/') && forall s :: s in r ==> s != "" && s != "."
    ensures r != [] ==> Split(Join(r, '/'), '/') == r && Join(r, '/') != "." && Join(r, '/') != ""
  {
    if r != [] {
      SplitJoin(r, '/');
      assert r[0] in r;
      JoinStarts(r);
      SplitFree(".", '/');
    }
  }

  // ---------------------------------------------------------------- which paths survive

  lemma {:induction false} CommonIs(a: seq<string>, b: seq<string>, j: nat)
    requires j <= |a| && j <= |b|
    ensures CommonLength(a, b) == j <==> a[..j] == b[..j] && (j == |a| || j == |b| || a[j] != b[j])
  {
    if a != [] && b != [] && j > 0 {
      assert a[..j] == [a[0]] + a[1..][..j - 1] && b[..j] == [b[0]] + b[1..][..j - 1];
      if a[0] == b[0] {
        CommonIs(a[1..], b[1..], j - 1);
      }
    }
  }

  lemma {:induction false} NormaliseUps(here: seq<string>, k: nat)
    requires k <= |here|
    ensures Normalise(here, Ups(k)) == here[..|here| - k]
  {
    if k > 0 {
      assert Ups(k)[k - 1] in Ups(k);
      assert Ups(k)[..k - 1] == Ups(k - 1) by {
        assert forall i | 0 <= i < k - 1 :: Ups(k)[i] in Ups(k) && Ups(k - 1)[i] in Ups(k - 1);
      }
      NormaliseUps(here, k - 1);
    }
  }

  /** Seen from `here`, the segments climb `k` levels, not above the root, and then go down
      names, the first of which is not the one they just left. */
  ghost predicate Climbs(here: seq<string>, segments: seq<string>, k: nat) {
    && k <= |here| && k <= |segments|
    && segments[..k] == Ups(k) && Names(segments[k..])
    && (0 < k < |segments| ==> segments[k] != here[|here| - k])
  }

  ghost predicate ClimbsSome(here: seq<string>, segments: seq<string>) {
    exists k: nat :: Climbs(here, segments, k)
  }

  lemma NormaliseClimb(here: seq<string>, segments: seq<string>, k: nat)
    requires Climbs(here, segments, k)
    ensures Normalise(here, segments) == here[..|here| - k] + segments[k..]
  {
    assert segments == Ups(k) + segments[k..];
    NormaliseAppend(here, Ups(k), segments[k..]);
    NormaliseUps(here, k);
    NormaliseNames(here[..|here| - k], segments[k..]);
  }

  lemma CommonAfterClimb(here: seq<string>, i: nat, rest: seq<string>)
    requires i <= |here| && (i < |here| && rest != [] ==> rest[0] != here[i])
    ensures CommonLength(here, here[..i] + rest) == i
    ensures (here[..i] + rest)[i..] == rest
  {
    var to := here[..i] + rest;
    assert to[..i] == here[..i];
    assert rest != [] ==> to[i] == rest[0];
    CommonIs(here, to, i);
  }

  lemma ClimbsRelative(here: seq<string>, segments: seq<string>, k: nat)
    requires Climbs(here, segments, k)
    ensures RelativeSegments(here, Normalise(here, segments)) == segments
  {
    NormaliseClimb(here, segments, k);
    CommonAfterClimb(here, |here| - k, segments[k..]);
    assert segments == Ups(k) + segments[k..];
  }

  lemma RelativeClimbs(here: seq<string>, to: seq<string>)
    requires Names(to)
    ensures Climbs(here, RelativeSegments(here, to), |here| - CommonLength(here, to))
  {
    var i := CommonLength(here, to);
    var segments := RelativeSegments(here, to);
    CommonIs(here, to, i);
    assert segments[..|here| - i] == Ups(|here| - i) && segments[|here| - i..] == to[i..];
    assert forall s | s in to[i..] :: s in to;
  }

  /** The relative path of a path below the start is that path in exactly these cases. */
  lemma RelativeKept(here: seq<string>, segments: seq<string>)
    requires Names(here) && AllFree(here, '/') && AllFree(segments, '/')
    ensures RelativeSegments(here, Normalise(here, segments)) == segments <==> ClimbsSome(here, segments)
  {
    NormalisedAreNames(here, segments);
    RelativeClimbs(here, Normalise(here, segments));
    if k: nat :| Climbs(here, segments, k) {
      ClimbsRelative(here, segments, k);
    }
  }

  lemma AbsoluteNames(cwd: seq<string>, path: string)
    requires AllFree(cwd, '/')
    ensures Names(Absolute(cwd, path)) && AllFree(Absolute(cwd, path), '/')
  {
    SplitParts(path, '/');
    NormalisedAreNames([], (if StartsWithSlash(path) then [] else cwd) + Split(path, '/'));
  }

  lemma RelativeFree(here: seq<string>, to: seq<string>)
    requires AllFree(to, '/')
    ensures AllFree(RelativeSegments(here, to), '/')
  {
  }

  lemma RelativeProper(here: seq<string>, to: seq<string>)
    requires Names(to)
    ensures forall s :: s in RelativeSegments(here, to) ==> s != "" && s != "."
  {
    assert forall s | s in to[CommonLength(here, to)..] :: s in to;
  }

  /** `relpath` of a path that normalises like `path` below the start gives `path` back in
      exactly these cases. */
  lemma RelPathKept(cwd: seq<string>, start: string, name: string, path: string)
    requires AllFree(cwd, '/') && name != "" && path != "" && path != "."
    requires Absolute(cwd, name) == Normalise(Absolute(cwd, start), Split(path, '/'))
    ensures RelPath(cwd, name, start) == Some(path) <==> ClimbsSome(Absolute(cwd, start), Split(path, '/'))
  {
    var here := Absolute(cwd, start);
    var r := RelativeSegments(here, Normalise(here, Split(path, '/')));
    AbsoluteNames(cwd, start);
    SplitParts(path, '/');
    JoinSplit(path, '/');
    RelativeKept(here, Split(path, '/'));
    NormalisedAreNames(here, Split(path, '/'));
    RelativeFree(here, Normalise(here, Split(path, '/')));
    if r != [] {
      SplitJoin(r, '/');
    }
  }

  /** `now` starts with `j` of the old segments; the rest are from `segments`. */
  ghost predicate Kept(here: seq<string>, now: seq<string>, j: nat, segments: seq<string>) {
    j <= |here| && j <= |now| && now[..j] == here[..j] && forall i :: j <= i < |now| ==> now[i] in segments
  }

  lemma KeptVisit(here: seq<string>, before: seq<string>, j: nat, front: seq<string>, last: string) returns (k: nat)
    requires Kept(here, before, j, front)
    ensures Kept(here, Visit(before, last), k, front + [last])
  {
    k := j;
    if last == ".." && before != [] && j == |before| {
      k := j - 1;
    }
    var now := Visit(before, last);
    assert now[..k] == here[..k];
    assert forall i | k <= i < |now| :: now[i] in front + [last];
  }

  /** Normalising keeps a front of what was there and adds some of the segments. */
  lemma {:induction false} NormaliseOrigin(here: seq<string>, segments: seq<string>) returns (j: nat)
    ensures Kept(here, Normalise(here, segments), j, segments)
  {
    if segments == [] {
      j := |here|;
    } else {
      var front, last := segments[..|segments| - 1], segments[|segments| - 1];
      j := NormaliseOrigin(here, front);
      j := KeptVisit(here, Normalise(here, front), j, front, last);
      assert segments == front + [last];
    }
  }

  lemma {:induction false} CommonAtLeast(a: seq<string>, b: seq<string>, j: nat)
    requires j <= |a| && j <= |b| && a[..j] == b[..j]
    ensures CommonLength(a, b) >= j
  {
    if j > 0 {
      assert a[0] == a[..j][0] == b[..j][0] == b[0];
      assert a[1..][..j - 1] == a[..j][1..] && b[1..][..j - 1] == b[..j][1..];
      CommonAtLeast(a[1..], b[1..], j - 1);
    }
  }

  /** A relative path to somewhere below the start is made of ".." and of its own segments. */
  lemma RelativeOrigin(here: seq<string>, segments: seq<string>)
    ensures forall s :: s in RelativeSegments(here, Normalise(here, segments)) ==> s == ".." || s in segments
  {
    var to := Normalise(here, segments);
    var j := NormaliseOrigin(here, segments);
    CommonAtLeast(here, to, j);
    var i := CommonLength(here, to);
    assert forall k | 0 <= k < |to| - i :: to[i..][k] == to[i + k];
  }

  /** A relative path other than "." consists of non-empty segments, none of them ".". */
  lemma RelPathShape(cwd: seq<string>, path: string, start: string)
    requires AllFree(cwd, '/') && path != ""
    ensures var r := RelPath(cwd, path, start).value;
      r == "." || forall s :: s in Split(r, '/') ==> IsName(s) || s == ".."
  {
    var r := RelativeSegments(Absolute(cwd, start), Absolute(cwd, path));
    if r != [] {
      SplitParts(path, '/');
      NormalisedAreNames([], (if StartsWithSlash(path) then [] else cwd) + Split(path, '/'));
      SplitJoin(r, '/');
    }
  }
}
