/** What `BlobUri` makes of leading blanks, of upper-case schemes and of parameters in other URLs. */
module UrlForms {
  import opened Common
  import opened Text
  import opened BlobUris

  /** The same letters, but for upper case in the first. */
  ghost predicate SameLetters(s: string, lower: string) {
    |s| == |lower| && forall i :: 0 <= i < |s| ==>
      'a' <= lower[i] <= 'z' && (s[i] == lower[i] || (s[i] as int) + 32 == lower[i] as int)
  }

  ghost predicate Blanks(s: string) {
    forall c :: c in s ==> c <= ' '
  }

  lemma {:induction false} StripBlanks(lead: string, s: string)
    requires Blanks(lead) && s != "" && s[0] > ' '
    ensures StripControls(lead + s) == s
  {
    if lead == "" {
      assert lead + s == s;
    } else {
      assert forall c :: c in lead[1..] ==> c in lead;
      assert lead[0] in lead && (lead + s)[1..] == lead[1..] + s;
      StripBlanks(lead[1..], s);
    }
  }

  lemma {:induction false} LowerMeans(s: string, lower: string)
    requires SameLetters(s, lower)
    ensures Lower(s) == lower
    ensures forall c :: c in s ==> Letter(c)
  {
    if s != "" {
      LowerMeans(s[1..], lower[1..]);
      assert [lower[0]] + lower[1..] == lower;
    }
  }

  /** The scheme is found and put into lower case. */
  lemma SchemeSplits(lead: string, scheme: string, lower: string, rest: string)
    requires Blanks(lead) && scheme != "" && SameLetters(scheme, lower)
    ensures SplitScheme(RemoveUnsafe(StripControls(lead + (scheme + ":" + rest)))) == (lower, RemoveUnsafe(rest))
  {
    LowerMeans(scheme, lower);
    assert scheme[0] in scheme;
    StripBlanks(lead, scheme + ":" + rest);
    RemoveUnsafeAppend(scheme + ":", rest);
    var url := scheme + ":" + RemoveUnsafe(rest);
    assert url == scheme + (":" + RemoveUnsafe(rest));
    BeforeStops(scheme, ":" + RemoveUnsafe(rest), {':'});
  }

  lemma {:induction false} SplitAppend(s: string, t: string, c: char)
    requires c !in t
    ensures var parts := Split(s, c);
      Split(s + t, c) == parts[..|parts| - 1] + [parts[|parts| - 1] + t]
  {
    if s == "" {
      assert s + t == t;
      SplitFree(t, c);
    } else {
      SplitAppend(s[1..], t, c);
      assert s + t == [s[0]] + (s[1..] + t);
      SplitCons(s[0], s[1..] + t, c);
      AttachLast(s[0], Split(s[1..], c), t, c);
    }
  }

  lemma AttachLast(x: char, parts: seq<string>, t: string, c: char)
    requires parts != []
    ensures var grown, r := parts[..|parts| - 1] + [parts[|parts| - 1] + t], Attach(x, parts, c);
      Attach(x, grown, c) == r[..|r| - 1] + [r[|r| - 1] + t]
  {
    var grown := parts[..|parts| - 1] + [parts[|parts| - 1] + t];
    if x != c && |parts| == 1 {
      assert [x] + (parts[0] + t) == [x] + parts[0] + t;
    } else if x != c {
      assert grown[0] == parts[0] && grown[1..] == parts[1..][..|parts| - 2] + [parts[|parts| - 1] + t];
    }
  }

  /** The parameters of the last segment are cut off. */
  lemma ParamsDropped(start: string, a: string, b: string)
    requires '/' !in b && ';' !in a
    ensures DropParams(start + "/" + a + ";" + b) == start + "/" + a
  {
    var path := start + "/" + a;
    var parts := Split(path, '/');
    SplitConcat(start, a, '/');
    SplitParts(a, '/');
    var last := parts[|parts| - 1];
    assert last in Split(a, '/') && ';' !in last;
    SplitAppend(path, ";" + b, '/');
    assert path + ";" + b == path + (";" + b);
    BeforeStops(last, ";" + b, {';'});
    JoinSplit(path, '/');
    assert parts == parts[..|parts| - 1] + [last];
  }

  lemma OtherUrl(netlocOk: string -> bool, lead: string, scheme: string, lower: string, account: string, tail: string)
    requires Blanks(lead) && scheme != "" && SameLetters(scheme, lower)
    requires Free(account, NETLOC_STOPS) && netlocOk(account) && tail != "" && tail[0] == '/' && Plain(tail)
    ensures Parse(netlocOk, lead + (scheme + ":" + ("//" + account + tail))) ==
            FromPath(account, if UsesParams(lower) then DropParams(tail) else tail)
  {
    var rest := "//" + account + tail;
    SchemeSplits(lead, scheme, lower, rest);
    RemoveUnsafeAppend("//" + account, tail);
    RemoveUnsafeMeans(tail);
    NetlocSplits(account, tail);
    WithoutQueryMeans(tail);
  }

  /** Leading blanks and upper-case letters of the scheme do not matter. In a web URL what follows a
      semicolon in the last segment is not part of the name; in a blob URI it is. */
  lemma SchemeDecidesParams(netlocOk: string -> bool, lead: string, scheme: string, account: string,
                            container: string, a: string, b: string)
    requires Blanks(lead) && PlainContainer(netlocOk, account, container) && Plain(a) && Plain(b)
    requires '/' !in b && ';' !in a
    ensures var uri := lead + (scheme + ":" + ("//" + account + ("/" + container + "/" + a + ";" + b)));
      && (SameLetters(scheme, "https") || SameLetters(scheme, "http") ==>
            Parse(netlocOk, uri) == Ok(BlobUri(account, container, NonEmpty(a))))
      && (SameLetters(scheme, "blob") ==>
            Parse(netlocOk, uri) == Ok(BlobUri(account, container, Some(a + ";" + b))))
  {
    if SameLetters(scheme, "https") {
      ParamsOf(netlocOk, lead, scheme, "https", account, container, a, b);
    }
    if SameLetters(scheme, "http") {
      ParamsOf(netlocOk, lead, scheme, "http", account, container, a, b);
    }
    if SameLetters(scheme, "blob") {
      ParamsOf(netlocOk, lead, scheme, "blob", account, container, a, b);
    }
  }

  lemma ParamsOf(netlocOk: string -> bool, lead: string, scheme: string, lower: string, account: string,
                 container: string, a: string, b: string)
    requires Blanks(lead) && PlainContainer(netlocOk, account, container) && Plain(a) && Plain(b)
    requires '/' !in b && ';' !in a && scheme != "" && SameLetters(scheme, lower)
    ensures Parse(netlocOk, lead + (scheme + ":" + ("//" + account + ("/" + container + "/" + a + ";" + b)))) ==
            Ok(BlobUri(account, container, NonEmpty(if UsesParams(lower) then a else a + ";" + b)))
  {
    var tail := "/" + container + "/" + a + ";" + b;
    PlainTail(container, a, b);
    OtherUrl(netlocOk, lead, scheme, lower, account, tail);
    if UsesParams(lower) {
      ParamsDropped("/" + container, a, b);
      NameParts(account, container, a);
    } else {
      NameParts(account, container, a + ";" + b);
      TailName(container, a, b);
    }
  }

  lemma PlainTail(container: string, a: string, b: string)
    requires Free(container, NETLOC_STOPS) && Plain(a) && Plain(b)
    ensures Plain("/" + container + "/" + a + ";" + b)
  {
  }

  lemma TailName(container: string, a: string, b: string)
    ensures "/" + container + "/" + a + ";" + b == "/" + container + "/" + (a + ";" + b)
  {
  }

  lemma NameParts(account: string, container: string, name: string)
    requires container != "" && Free(container, NETLOC_STOPS)
    ensures FromPath(account, "/" + container + "/" + name) == Ok(BlobUri(account, container, NonEmpty(name)))
  {
    ContainerParts(container, name);
    JoinSplit(name, '/');
    assert "/" + container + ("/" + name) == "/" + container + "/" + name;
    assert (["", container] + Split(name, '/'))[2..] == Split(name, '/');
  }
}
