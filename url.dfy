/**
 * The URL handling behind the scraper's `resolveURL`: Go's `url.Parse`, the
 * `ResolveReference` method with its `resolvePath` helper, and the `String` method,
 * all on the fields of Go's `url.URL`.  Percent-encoding is not modelled.  Go decodes
 * escapes when it parses and re-escapes when it prints; here every path, fragment,
 * user information and host is kept as written.
 */
module NetUrl {
  import opened Wrappers
  import opened Text

  /**
   * The fields of Go's `url.URL` that `Parse` fills in.
   * - An empty string is Go's empty field.
   * - `user` is `None` for a nil `User`.
   * - `query` is `None` when there is no `?`, `Some("")` for `ForceQuery`, and
   *   `Some(q)` for a non-empty `RawQuery`.
   */
  datatype Url = Url(
    scheme: string,
    opaquePart: string,
    user: Option<string>,
    host: string,
    omitHost: bool,
    path: string,
    query: Option<string>,
    fragment: string)

  // ---------------------------------------------------------------------------
  // String helpers

  /** `strings.Cut`: the text before the first `c` and, when there is a `c`, the text after it. */
  function Cut(s: string, c: char): (r: (string, Option<string>))
    ensures c !in r.0
    ensures r.1.None? ==> r.0 == s
    ensures r.1.Some? ==> s == r.0 + [c] + r.1.value
  {
    if s == [] then ([], None)
    else if s[0] == c then ([], Some(s[1..]))
    else
      var (before, after) := Cut(s[1..], c);
      assert after.Some? ==> s == [s[0]] + before + [c] + after.value;
      ([s[0]] + before, after)
  }

  /** `Cut` splits at the first separator. */
  lemma {:induction false} CutJoin(a: string, c: char, b: string)
    requires c !in a
    ensures Cut(a + [c] + b, c) == (a, Some(b))
  {
    if a != [] {
      assert (a + [c] + b)[0] == a[0] != c;
      assert (a + [c] + b)[1..] == a[1..] + [c] + b;
      CutJoin(a[1..], c, b);
      assert [a[0]] + a[1..] == a;
    }
  }

  /** `Cut` of a string without the separator keeps the whole string. */
  lemma CutAbsent(s: string, c: char)
    requires c !in s
    ensures Cut(s, c) == (s, None)
  {
  }

  /** `strings.LastIndex` for one character: its last position, or -1. */
  function LastIndex(s: string, c: char): (i: int)
    ensures -1 <= i < |s|
    ensures i >= 0 ==> s[i] == c && c !in s[i + 1..]
    ensures i < 0 ==> c !in s
  {
    if s == [] then -1
    else if s[|s| - 1] == c then |s| - 1
    else LastIndex(s[..|s| - 1], c)
  }

  predicate IsLetter(c: char) { 'a' <= c <= 'z' || 'A' <= c <= 'Z' }

  predicate IsDigit(c: char) { '0' <= c <= '9' }

  predicate IsSchemeChar(c: char)
  {
    IsLetter(c) || IsDigit(c) || c == '+' || c == '-' || c == '.'
  }

  /** An ASCII control character, which `url.Parse` refuses outside the fragment. */
  predicate IsControl(c: char) { c < ' ' || c == '\U{7F}' }

  predicate NoControl(s: string)
  {
    forall k :: 0 <= k < |s| ==> !IsControl(s[k])
  }

  lemma NoControlAppend(a: string, b: string)
    requires NoControl(a) && NoControl(b)
    ensures NoControl(a + b)
  {
    assert forall k :: |a| <= k < |a + b| ==> (a + b)[k] == b[k - |a|];
  }

  /** A scheme as `getScheme` recognises one: a letter, then letters, digits, `+`, `-`, `.`. */
  predicate ValidScheme(s: string)
  {
    |s| > 0 && IsLetter(s[0]) && forall i :: 0 <= i < |s| ==> IsSchemeChar(s[i])
  }

  // ---------------------------------------------------------------------------
  // Parsing

  datatype SchemeSplit = NoScheme | HasScheme(name: string, rest: string) | MissingScheme

  /** The loop of `getScheme` from position `i`, every earlier character being a scheme character. */
  function SchemeFrom(s: string, i: nat): (r: SchemeSplit)
    requires 0 < i <= |s| && IsLetter(s[0])
    requires forall k :: 0 <= k < i ==> IsSchemeChar(s[k])
    ensures r.HasScheme? ==> ValidScheme(r.name) && s == r.name + ":" + r.rest
    ensures !r.MissingScheme?
    decreases |s| - i
  {
    if i == |s| then NoScheme
    else if IsSchemeChar(s[i]) then SchemeFrom(s, i + 1)
    else if s[i] == ':' then
      assert s == s[..i] + ":" + s[i + 1..];
      HasScheme(s[..i], s[i + 1..])
    else NoScheme
  }

  /**
   * `getScheme`: a leading `:` is the "missing protocol scheme" error; a reference
   * that does not start with a scheme and `:` has no scheme.
   */
  function SplitScheme(s: string): (r: SchemeSplit)
    ensures r.MissingScheme? <==> StartsWith(s, ":")
    ensures r.HasScheme? ==> ValidScheme(r.name) && s == r.name + ":" + r.rest
  {
    if |s| > 0 && s[0] == ':' then MissingScheme
    else if |s| == 0 || !IsLetter(s[0]) then NoScheme
    else SchemeFrom(s, 1)
  }

  lemma {:induction false} SchemeFromFinds(name: string, rest: string, i: nat)
    requires ValidScheme(name) && 0 < i <= |name|
    ensures SchemeFrom(name + ":" + rest, i) == HasScheme(name, rest)
    decreases |name| - i
  {
    var s := name + ":" + rest;
    assert s[i] == if i < |name| then name[i] else ':';
    if i == |name| {
      assert s[..i] == name && s[i + 1..] == rest;
    } else {
      SchemeFromFinds(name, rest, i + 1);
    }
  }

  /** A valid scheme followed by `:` is always found, with everything after the colon as the rest. */
  lemma SplitSchemeFinds(name: string, rest: string)
    requires ValidScheme(name)
    ensures SplitScheme(name + ":" + rest) == HasScheme(name, rest)
  {
    SchemeFromFinds(name, rest, 1);
  }

  /** The authority split of `parse` for a text starting with `//`: up to the next `/`, and the rest. */
  function SplitAuthority(s: string): (r: (string, string))
    requires StartsWith(s, "//")
    ensures '/' !in r.0 && s == "//" + r.0 + r.1
    ensures r.1 == [] || r.1[0] == '/'
  {
    var (authority, rest) := Cut(s[2..], '/');
    assert s == "//" + s[2..];
    if rest.Some? then (authority, "/" + rest.value) else (authority, [])
  }

  /** `validOptionalPort`: empty, or a colon followed by digits only. */
  predicate ValidOptionalPort(port: string)
  {
    port == [] || (port[0] == ':' && forall k :: 1 <= k < |port| ==> IsDigit(port[k]))
  }

  /**
   * The checks of `parseHost`: a bracketed literal needs a `]` and only an optional port
   * after it; any other host needs only digits after its last `:`.
   */
  predicate ValidHost(host: string)
  {
    if StartsWith(host, "[") then
      var i := LastIndex(host, ']');
      i >= 0 && ValidOptionalPort(host[i + 1..])
    else
      var i := LastIndex(host, ':');
      i < 0 || ValidOptionalPort(host[i..])
  }

  predicate IsUserinfoChar(c: char)
  {
    IsLetter(c) || IsDigit(c) || c in "-._:~!$&'()*+,;=%@"
  }

  /** `validUserinfo`: the characters allowed before the `@`. */
  predicate ValidUserinfo(s: string)
  {
    forall k :: 0 <= k < |s| ==> IsUserinfoChar(s[k])
  }

  datatype Authority = Authority(user: Option<string>, host: string)

  /** `parseAuthority`: the user information is everything before the last `@`. */
  function ParseAuthority(authority: string): (r: Option<Authority>)
    ensures r.Some? ==> authority == (if r.value.user.Some? then r.value.user.value + "@" else []) + r.value.host
  {
    var i := LastIndex(authority, '@');
    if i < 0 then
      if ValidHost(authority) then Some(Authority(None, authority)) else None
    else
      var host := authority[i + 1..];
      var userinfo := authority[..i];
      assert authority == userinfo + "@" + host;
      if !ValidHost(host) || !ValidUserinfo(userinfo) then None
      else Some(Authority(Some(userinfo), host))
  }

  /**
   * `url.Parse`: the fragment is cut off first, then `parse` runs on the rest.
   * `parse` refuses a control character, then handles, in order:
   * - the scheme;
   * - the query;
   * - the opaque form;
   * - the colon rule for relative paths;
   * - the authority.
   * Its special case for `*` gives the same result as the general path, so it is not
   * written out.
   */
  function Parse(s: string): (r: Option<Url>)
    ensures StartsWith(s, ":") ==> r.None?
    ensures r.Some? ==> ToLower(r.value.scheme) == r.value.scheme
    ensures r.Some? && r.value.opaquePart != [] ==> r.value.scheme != []
  {
    var (beforeFragment, fragment) := Cut(s, '#');
    var frag := if fragment.Some? then fragment.value else [];
    if !NoControl(beforeFragment) then None
    else
      match SplitScheme(beforeFragment)
      case MissingScheme => None
      case NoScheme => ParseRest([], beforeFragment, frag)
      case HasScheme(name, rest) =>
        ToLowerIdempotent(name);
        ParseRest(ToLower(name), rest, frag)
  }

  /** `parse` after the scheme: query, opaque form, colon rule, authority and path. */
  function ParseRest(scheme: string, rest: string, fragment: string): (r: Option<Url>)
    ensures r.Some? ==> r.value.scheme == scheme && r.value.fragment == fragment
    ensures r.Some? && r.value.opaquePart != [] ==> scheme != []
  {
    var (hier, query) := Cut(rest, '?');
    if !StartsWith(hier, "/") && scheme != [] then
      Some(Url(scheme, hier, None, [], false, [], query, fragment))
    else if !StartsWith(hier, "/") && ':' in Cut(hier, '/').0 then
      None
    else if (scheme != [] || !StartsWith(hier, "///")) && StartsWith(hier, "//") then
      var (authority, path) := SplitAuthority(hier);
      match ParseAuthority(authority)
      case None => None
      case Some(a) => Some(Url(scheme, [], a.user, a.host, false, path, query, fragment))
    else
      Some(Url(scheme, [], None, [], scheme != [] && StartsWith(hier, "/"), hier, query, fragment))
  }

  // ---------------------------------------------------------------------------
  // Printing

  /**
   * Go's `String`.
   * - It writes `//` only for a non-empty host, a user, or a non-empty path after a scheme.
   * - It writes `?` for a query that is present.
   * - It writes `#` only for a non-empty fragment.
   * The result is empty exactly when every field is.
   */
  function UrlString(u: Url): (r: string)
    ensures r == [] <==>
      u.scheme == [] && u.opaquePart == [] && u.user.None? && u.host == [] && u.path == []
      && u.query.None? && u.fragment == []
  {
    SchemePart(u.scheme) + (if u.opaquePart != [] then u.opaquePart else HierarchyPart(u))
    + QueryPart(u.query) + FragmentPart(u.fragment)
  }

  function SchemePart(scheme: string): string
  {
    if scheme != [] then scheme + ":" else []
  }

  /** The authority `String` writes: `//`, the user and the host, when any of them is due. */
  function AuthorityPart(u: Url): string
  {
    if (u.scheme != [] || u.host != [] || u.user.Some?) && !(u.omitHost && u.host == [] && u.user.None?) then
      (if u.host != [] || u.path != [] || u.user.Some? then "//" else [])
      + (if u.user.Some? then u.user.value + "@" else []) + u.host
    else []
  }

  /**
   * The authority and the path.  A `/` goes between a host and a relative path, and `./`
   * goes before a lone relative path whose first segment has a colon.
   */
  function HierarchyPart(u: Url): (r: string)
    ensures u.path != [] ==> r != []
    ensures |u.path| <= |r| && r[|r| - |u.path|..] == u.path
    ensures u.scheme == [] && u.host == [] && u.user.None? && u.path == [] ==> r == []
  {
    var authority := AuthorityPart(u);
    var slash := if u.path != [] && u.path[0] != '/' && u.host != [] then "/" else [];
    var dot := if SchemePart(u.scheme) + authority == [] && ':' in Cut(u.path, '/').0 then "./" else [];
    authority + slash + dot + u.path
  }

  function QueryPart(query: Option<string>): string
  {
    if query.Some? then "?" + query.value else []
  }

  function FragmentPart(fragment: string): string
  {
    if fragment != [] then "#" + fragment else []
  }

  // ---------------------------------------------------------------------------
  // resolvePath

  /** `strings.Split(s, "/")`, as the loop of `resolvePath` walks it with `strings.Cut`. */
  function Split(s: string): (r: seq<string>)
    ensures |r| > 0
    decreases |s|
  {
    var (elem, rest) := Cut(s, '/');
    if rest.None? then [elem] else [elem] + Split(rest.value)
  }

  /** The two variables of the `resolvePath` loop: the builder `dst` and the flag `first`. */
  datatype PathBuilder = PathBuilder(dst: string, first: bool)

  /** One pass of the `resolvePath` loop: `.` is dropped, `..` drops the last element written. */
  function StepElem(b: PathBuilder, elem: string): (r: PathBuilder)
    requires StartsWith(b.dst, "/")
    ensures StartsWith(r.dst, "/")
  {
    if elem == "." then PathBuilder(b.dst, false)
    else if elem == ".." then
      var str := b.dst[1..];
      var index := LastIndex(str, '/');
      if index < 0 then PathBuilder("/", true) else PathBuilder("/" + str[..index], b.first)
    else PathBuilder(b.dst + (if b.first then [] else "/") + elem, false)
  }

  function WalkElems(b: PathBuilder, elems: seq<string>): (r: PathBuilder)
    requires StartsWith(b.dst, "/")
    ensures StartsWith(r.dst, "/")
    decreases |elems|
  {
    if elems == [] then b else WalkElems(StepElem(b, elems[0]), elems[1..])
  }

  /** The element loop of `resolvePath` over a non-empty path, and its final fix-ups. */
  function CleanPath(full: string): (r: string)
    requires full != []
    ensures StartsWith(r, "/")
  {
    var elems := Split(full);
    var last := elems[|elems| - 1];
    var dst := WalkElems(PathBuilder("/", true), elems).dst;
    var dst' := if last == "." || last == ".." then dst + "/" else dst;
    if |dst'| > 1 && dst'[1] == '/' then dst'[1..] else dst'
  }

  /** Everything of the path up to and including its last `/`: `base[:LastIndex(base, "/")+1]`. */
  function Directory(path: string): (d: string)
    ensures |d| <= |path| && d == path[..|d|]
    ensures d == [] || d[|d| - 1] == '/'
    ensures '/' !in path[|d|..]
  {
    path[..LastIndex(path, '/') + 1]
  }

  /** `resolvePath`: the reference path merged with the base path; the result is empty or absolute. */
  function ResolvePath(base: string, ref: string): (r: string)
    ensures r == [] || StartsWith(r, "/")
  {
    var full := if ref == [] then base else if ref[0] != '/' then Directory(base) + ref else ref;
    if full == [] then [] else CleanPath(full)
  }

  /** No element of the path is `.` or `..`. */
  predicate DotFree(path: string)
  {
    forall k :: 0 <= k < |Split(path)| ==> Split(path)[k] != "." && Split(path)[k] != ".."
  }

  /** The elements joined back, each after a `/`. */
  function JoinSlash(elems: seq<string>): string
  {
    if elems == [] then [] else "/" + elems[0] + JoinSlash(elems[1..])
  }

  lemma {:induction false} SplitJoin(s: string)
    ensures JoinSlash(Split(s)) == "/" + s
    decreases |s|
  {
    var (elem, rest) := Cut(s, '/');
    if rest.Some? {
      SplitJoin(rest.value);
      assert Split(s)[1..] == Split(rest.value);
    }
  }

  lemma {:induction false} WalkPlain(d: string, elems: seq<string>)
    requires StartsWith(d, "/")
    requires forall k :: 0 <= k < |elems| ==> elems[k] != "." && elems[k] != ".."
    ensures WalkElems(PathBuilder(d, false), elems) == PathBuilder(d + JoinSlash(elems), false)
    decreases |elems|
  {
    if elems != [] {
      var d' := d + "/" + elems[0];
      assert StepElem(PathBuilder(d, false), elems[0]) == PathBuilder(d', false);
      assert d'[..1] == d[..1];
      assert forall k :: 0 <= k < |elems[1..]| ==> elems[1..][k] == elems[k + 1];
      WalkPlain(d', elems[1..]);
      assert JoinSlash(elems) == "/" + elems[0] + JoinSlash(elems[1..]);
      assert d + JoinSlash(elems) == d' + JoinSlash(elems[1..]);
    }
  }

  /** An absolute path without `.` or `..` elements comes out of `resolvePath` unchanged. */
  lemma CleanPathDotFree(path: string)
    requires StartsWith(path, "/") && DotFree(path)
    ensures CleanPath(path) == path
  {
    var elems := Split(path);
    CutJoin([], '/', path[1..]);
    assert path == [] + ['/'] + path[1..];
    var rest := Split(path[1..]);
    assert elems == [[]] + rest;
    assert forall k :: 0 <= k < |rest| ==> rest[k] == elems[k + 1];
    assert StepElem(PathBuilder("/", true), []) == PathBuilder("/", false);
    assert WalkElems(PathBuilder("/", true), elems) == WalkElems(PathBuilder("/", false), rest);
    WalkPlain("/", rest);
    SplitJoin(path[1..]);
    assert WalkElems(PathBuilder("/", true), elems).dst == "/" + path;
  }

  /** Splitting at a `/` splits the elements there. */
  lemma {:induction false} SplitAppend(a: string, b: string)
    ensures Split(a + "/" + b) == Split(a) + Split(b)
    decreases |a|
  {
    var (a1, a2) := Cut(a, '/');
    if a2.None? {
      CutJoin(a, '/', b);
    } else {
      assert a + "/" + b == a1 + "/" + (a2.value + "/" + b);
      CutJoin(a1, '/', a2.value + "/" + b);
      SplitAppend(a2.value, b);
    }
  }

  lemma SplitNoSlash(elem: string)
    requires '/' !in elem
    ensures Split(elem) == [elem]
  {
    CutAbsent(elem, '/');
  }

  lemma DotFreeAppend(a: string, b: string)
    ensures DotFree(a + "/" + b) <==> DotFree(a) && DotFree(b)
  {
    SplitAppend(a, b);
    var sa, sb := Split(a), Split(b);
    assert forall k :: 0 <= k < |sa| ==> (sa + sb)[k] == sa[k];
    assert forall k :: 0 <= k < |sb| ==> (sa + sb)[|sa| + k] == sb[k];
  }

  /**
   * What the `resolvePath` loop keeps: the builder holds `/` followed by elements none
   * of which is `.` or `..`, and it is exactly `/` while `first` is set.
   */
  predicate BuilderClean(b: PathBuilder)
  {
    StartsWith(b.dst, "/") && DotFree(b.dst[1..]) && (b.first ==> b.dst == "/")
  }

  lemma StepElemClean(b: PathBuilder, elem: string)
    requires BuilderClean(b) && '/' !in elem
    ensures BuilderClean(StepElem(b, elem))
  {
    var str := b.dst[1..];
    if elem == ".." {
      var index := LastIndex(str, '/');
      if index >= 0 {
        assert str == str[..index] + "/" + str[index + 1..];
        DotFreeAppend(str[..index], str[index + 1..]);
        assert ("/" + str[..index])[1..] == str[..index];
      } else {
        SplitNoSlash([]);
      }
    } else if elem != "." {
      SplitNoSlash(elem);
      var r := StepElem(b, elem);
      if b.first {
        assert r.dst[1..] == elem;
      } else {
        assert r.dst[1..] == str + "/" + elem;
        DotFreeAppend(str, elem);
      }
    }
  }

  lemma SplitElemsNoSlash(s: string)
    ensures forall k :: 0 <= k < |Split(s)| ==> '/' !in Split(s)[k]
    decreases |s|
  {
    var (elem, rest) := Cut(s, '/');
    if rest.Some? {
      SplitElemsNoSlash(rest.value);
      assert Split(s) == [elem] + Split(rest.value);
    }
  }

  lemma {:induction false} WalkElemsClean(b: PathBuilder, elems: seq<string>)
    requires BuilderClean(b)
    requires forall k :: 0 <= k < |elems| ==> '/' !in elems[k]
    ensures BuilderClean(WalkElems(b, elems))
    decreases |elems|
  {
    if elems != [] {
      StepElemClean(b, elems[0]);
      assert forall k :: 0 <= k < |elems[1..]| ==> elems[1..][k] == elems[k + 1];
      WalkElemsClean(StepElem(b, elems[0]), elems[1..]);
    }
  }

  /** `resolvePath` removes every `.` and `..` element of the merged path. */
  lemma ResolvePathDotFree(base: string, ref: string)
    ensures DotFree(ResolvePath(base, ref))
  {
    var full := if ref == [] then base else if ref[0] != '/' then Directory(base) + ref else ref;
    if full == [] {
      SplitNoSlash([]);
    } else {
      var elems := Split(full);
      var last := elems[|elems| - 1];
      SplitElemsNoSlash(full);
      SplitNoSlash([]);
      assert BuilderClean(PathBuilder("/", true));
      WalkElemsClean(PathBuilder("/", true), elems);
      var dst := WalkElems(PathBuilder("/", true), elems).dst;
      var dst' := if last == "." || last == ".." then dst + "/" else dst;
      if last == "." || last == ".." {
        assert dst'[1..] == dst[1..] + "/" + [];
        DotFreeAppend(dst[1..], []);
      }
      assert dst' == [] + "/" + dst'[1..];
      DotFreeAppend([], dst'[1..]);
    }
  }

  lemma LastIndexAfter(x: string, e: string)
    requires '/' !in e
    ensures LastIndex(x + "/" + e, '/') == |x|
    decreases |e|
  {
    if e != [] {
      assert (x + "/" + e)[..|x + "/" + e| - 1] == x + "/" + e[..|e| - 1];
      LastIndexAfter(x, e[..|e| - 1]);
    }
  }

  /** A `..` right after an element undoes that element: the builder is back where it was. */
  lemma ParentUndoes(b: PathBuilder, e: string)
    requires StartsWith(b.dst, "/") && (b.first ==> b.dst == "/")
    requires '/' !in e && e != "." && e != ".."
    ensures StepElem(StepElem(b, e), "..") == b
  {
    var b1 := StepElem(b, e);
    var str := b1.dst[1..];
    if b.first {
      assert str == e;
    } else {
      assert str == b.dst[1..] + "/" + e;
      LastIndexAfter(b.dst[1..], e);
      assert str[..|b.dst[1..]|] == b.dst[1..];
      assert "/" + b.dst[1..] == b.dst;
    }
  }

  lemma SplitExample()
    ensures Split("a/b/../c") == ["a", "b", "..", "c"]
  {
    CutJoin("a", '/', "b/../c");
    CutJoin("b", '/', "../c");
    CutJoin("..", '/', "c");
    CutAbsent("c", '/');
  }

  lemma WalkExample()
    ensures WalkElems(PathBuilder("/", true), ["a", "b", "..", "c"]) == PathBuilder("/a/c", false)
  {
    var elems: seq<string> := ["a", "b", "..", "c"];
    var b1 := PathBuilder("/a", false);
    var b2 := PathBuilder("/a/b", false);
    assert StepElem(PathBuilder("/", true), "a") == b1;
    assert StepElem(b1, "b") == b2;
    ParentUndoes(b1, "b");
    assert elems[1..] == ["b", "..", "c"] && elems[1..][1..] == ["..", "c"] && elems[1..][1..][1..] == ["c"];
    assert WalkElems(b1, ["c"]) == PathBuilder("/a/c", false);
  }

  /** An example of the law above: `a/b/../c` resolves to `/a/c`, since `..` removes only `b`. */
  lemma ResolvePathParent()
    ensures ResolvePath([], "a/b/../c") == "/a/c"
  {
    var full := "a/b/../c";
    assert Directory([]) + full == full;
    SplitExample();
    WalkExample();
  }

  // ---------------------------------------------------------------------------
  // ResolveReference

  /**
   * `ResolveReference`: the result starts as a copy of the reference.
   * - A reference with a scheme, a host or a user keeps everything except that its path
   *   is cleaned.
   * - Any other reference takes the base's host and user, and merges its path with the
   *   base's.
   * - An empty path with no query inherits the base's query; if the fragment is also
   *   empty, it inherits the base's fragment too.
   * A resolved path is always empty or absolute.
   */
  function ResolveReference(base: Url, ref: Url): (t: Url)
    ensures t.path == [] || StartsWith(t.path, "/")
  {
    var scheme := if ref.scheme == [] then base.scheme else ref.scheme;
    if ref.scheme != [] || ref.host != [] || ref.user.Some? then
      ref.(scheme := scheme, path := ResolvePath(ref.path, []))
    else if ref.opaquePart != [] then
      ref.(scheme := scheme, user := None, host := [], path := [])
    else
      var inherits := ref.path == [] && ref.query.None?;
      var query := if !inherits then ref.query else if base.query == Some([]) then None else base.query;
      var fragment := if inherits && ref.fragment == [] then base.fragment else ref.fragment;
      if ref.path == [] && base.opaquePart != [] then
        ref.(scheme := scheme, query := query, fragment := fragment,
             opaquePart := base.opaquePart, user := None, host := [], path := [])
      else
        ref.(scheme := scheme, query := query, fragment := fragment,
             user := base.user, host := base.host, path := ResolvePath(base.path, ref.path))
  }

  /** A reference that has a scheme, a host or a user resolves the same against every base, and only its path changes. */
  lemma ResolveAbsolute(base: Url, other: Url, r: Url)
    requires r.scheme != [] || r.host != [] || r.user.Some?
    ensures ResolveReference(base, r) == ResolveReference(other, r).(scheme := ResolveReference(base, r).scheme)
    ensures r.scheme != [] ==> ResolveReference(base, r) == ResolveReference(other, r)
    ensures ResolveReference(base, r) == r.(scheme := ResolveReference(base, r).scheme, path := ResolvePath(r.path, []))
  {
  }

  /** What is neither a scheme nor a host nor a user nor opaquePart: a path, query or fragment only. */
  predicate IsRelative(r: Url)
  {
    r.scheme == [] && r.host == [] && r.user.None? && r.opaquePart == []
  }

  /**
   * The scheme comes from the reference when it has one, from the base otherwise.  A
   * relative reference takes the base's host and user (also for an empty `//`).  It
   * keeps its own query and fragment, unless it has neither a path nor a query: then
   * it inherits the base's query, and for an empty fragment also the base's fragment.
   */
  lemma ResolveInherits(base: Url, r: Url)
    ensures ResolveReference(base, r).scheme == if r.scheme != [] then r.scheme else base.scheme
    ensures IsRelative(r) && (r.path != [] || base.opaquePart == []) ==>
      ResolveReference(base, r).host == base.host && ResolveReference(base, r).user == base.user
    ensures IsRelative(r) && (r.path != [] || r.query.Some?) ==>
      ResolveReference(base, r).query == r.query && ResolveReference(base, r).fragment == r.fragment
    ensures IsRelative(r) && r.path == [] && r.query.None? ==>
      ResolveReference(base, r).query == (if base.query == Some([]) then None else base.query)
      && ResolveReference(base, r).fragment == (if r.fragment == [] then base.fragment else r.fragment)
  {
  }

  // ---------------------------------------------------------------------------
  // resolveURL

  /**
   * `resolveURL`: an empty or unparsable `href` gives `""`; otherwise the text of the
   * reference resolved against the (already parsed) base.
   */
  function ResolveURL(base: Url, href: string): (r: string)
    ensures href == [] ==> r == []
    ensures Parse(href).None? ==> r == []
  {
    if href == [] then []
    else match Parse(href)
      case None => []
      case Some(ref) => UrlString(ResolveReference(base, ref))
  }

  /** A base with a scheme gives every non-empty, parsable `href` a non-empty resolution. */
  lemma ResolveURLNonEmpty(base: Url, href: string)
    requires base.scheme != [] && href != [] && Parse(href).Some?
    ensures ResolveURL(base, href) != []
  {
    var t := ResolveReference(base, Parse(href).value);
    assert t.scheme != [];
    assert ResolveURL(base, href) == UrlString(t);
  }

  /** A `#` with nothing after it is dropped: it changes neither the parse nor the resolution. */
  lemma ResolveURLTrailingHash(base: Url, href: string)
    requires href != [] && '#' !in href
    ensures Parse(href + "#") == Parse(href)
    ensures ResolveURL(base, href + "#") == ResolveURL(base, href)
  {
    CutJoin(href, '#', []);
    assert href + "#" == href + ['#'] + [];
    CutAbsent(href, '#');
  }

  /**
   * A same-page link `#f` resolves to the page itself, with fragment `f`.  For `#` alone
   * it keeps the page's own fragment.  The page must be hierarchical, with a clean path and
   * no bare `?`.
   */
  lemma ResolveURLSamePage(base: Url, f: string)
    requires base.opaquePart == [] && !base.omitHost && base.query != Some([])
    requires base.path == [] || (StartsWith(base.path, "/") && DotFree(base.path))
    ensures ResolveURL(base, "#" + f) == UrlString(base.(fragment := if f == [] then base.fragment else f))
  {
    CutJoin([], '#', f);
    assert "#" + f == [] + ['#'] + f;
    var ref := Url([], [], None, [], false, [], None, f);
    assert Parse("#" + f) == Some(ref);
    if base.path != [] {
      CleanPathDotFree(base.path);
    }
    assert ResolveReference(base, ref) == base.(fragment := if f == [] then base.fragment else f);
  }

  // ---------------------------------------------------------------------------
  // Links written out in full

  /**
   * The components of an absolute link in the form `scheme://authority/path?query#fragment`:
   * no piece holds a control character or a separator that would end it early.
   */
  predicate AbsoluteParts(scheme: string, authority: string, path: string, query: Option<string>)
  {
    ValidScheme(scheme)
    && NoControl(authority) && '/' !in authority && '?' !in authority && '#' !in authority
    && NoControl(path) && '?' !in path && '#' !in path && (path == [] || path[0] == '/')
    && (query.Some? ==> NoControl(query.value) && '#' !in query.value)
  }

  function AbsoluteHref(scheme: string, authority: string, path: string, query: Option<string>, fragment: string): string
  {
    scheme + "://" + authority + path + QueryPart(query) + FragmentPart(fragment)
  }

  /** Cutting off the query of a link written out in full. */
  lemma CutQuery(pre: string, query: Option<string>)
    requires '?' !in pre
    ensures Cut(pre + QueryPart(query), '?') == (pre, query)
  {
    if query.Some? {
      CutJoin(pre, '?', query.value);
      assert pre + QueryPart(query) == pre + ['?'] + query.value;
    } else {
      CutAbsent(pre, '?');
      assert pre + QueryPart(query) == pre;
    }
  }

  /** Cutting off the fragment of a link written out in full. */
  lemma CutFragment(pre: string, fragment: string)
    requires '#' !in pre
    ensures Cut(pre + FragmentPart(fragment), '#') == (pre, if fragment != [] then Some(fragment) else None)
  {
    if fragment != [] {
      CutJoin(pre, '#', fragment);
      assert pre + FragmentPart(fragment) == pre + ['#'] + fragment;
    } else {
      CutAbsent(pre, '#');
      assert pre + FragmentPart(fragment) == pre;
    }
  }

  /** A query part is free of control characters and of `#` when the query is. */
  lemma CleanQueryPart(query: Option<string>)
    requires query.Some? ==> NoControl(query.value) && '#' !in query.value
    ensures NoControl(QueryPart(query)) && '#' !in QueryPart(query)
  {
    if query.Some? {
      NoControlAppend("?", query.value);
    }
  }

  /** The authority of `//authority/path` runs up to the path. */
  lemma SplitAuthorityOf(authority: string, path: string)
    requires '/' !in authority && (path == [] || path[0] == '/')
    ensures SplitAuthority("//" + authority + path) == (authority, path)
  {
    var hier := "//" + authority + path;
    assert hier[2..] == authority + path;
    if path == [] {
      CutAbsent(authority, '/');
      assert authority + path == authority;
    } else {
      CutJoin(authority, '/', path[1..]);
      assert authority + path == authority + ['/'] + path[1..];
      assert "/" + path[1..] == path;
    }
  }

  /** `parse` of `//authority/path?query` after a scheme. */
  lemma ParseRestAbsolute(scheme: string, authority: string, path: string, query: Option<string>, fragment: string)
    requires scheme != [] && '/' !in authority && '?' !in authority && '?' !in path && (path == [] || path[0] == '/')
    ensures ParseRest(scheme, "//" + authority + path + QueryPart(query), fragment)
         == match ParseAuthority(authority)
            case None => None
            case Some(a) => Some(Url(scheme, [], a.user, a.host, false, path, query, fragment))
  {
    var hier := "//" + authority + path;
    CutQuery(hier, query);
    assert StartsWith(hier, "//") && StartsWith(hier, "/");
    SplitAuthorityOf(authority, path);
  }

  /** A link written out in full has no control character and no `#` before its fragment. */
  lemma CleanAbsolute(scheme: string, authority: string, path: string, query: Option<string>, fragment: string)
    requires AbsoluteParts(scheme, authority, path, query)
    ensures var pre := scheme + ":" + ("//" + authority + path + QueryPart(query));
      AbsoluteHref(scheme, authority, path, query, fragment) == pre + FragmentPart(fragment)
      && '#' !in pre && NoControl(pre)
  {
    assert NoControl(scheme) && '#' !in scheme by {
      assert forall k :: 0 <= k < |scheme| ==> IsSchemeChar(scheme[k]);
    }
    NoControlAppend(scheme, "://");
    NoControlAppend(scheme + "://", authority);
    NoControlAppend(scheme + "://" + authority, path);
    CleanQueryPart(query);
    NoControlAppend(scheme + "://" + authority + path, QueryPart(query));
    assert scheme + ":" + ("//" + authority + path + QueryPart(query))
        == scheme + "://" + authority + path + QueryPart(query);
  }

  /**
   * `url.Parse` of an absolute link written out in full.  It succeeds exactly when the
   * authority passes `parseAuthority`.  The scheme comes out lower-cased, and every other
   * piece comes out as written.
   */
  lemma ParseAbsolute(scheme: string, authority: string, path: string, query: Option<string>, fragment: string)
    requires AbsoluteParts(scheme, authority, path, query)
    ensures Parse(AbsoluteHref(scheme, authority, path, query, fragment))
         == match ParseAuthority(authority)
            case None => None
            case Some(a) => Some(Url(ToLower(scheme), [], a.user, a.host, false, path, query, fragment))
  {
    var rest := "//" + authority + path + QueryPart(query);
    var pre := scheme + ":" + rest;
    CleanAbsolute(scheme, authority, path, query, fragment);
    CutFragment(pre, fragment);
    SplitSchemeFinds(scheme, rest);
    ParseSteps(AbsoluteHref(scheme, authority, path, query, fragment), pre, fragment);
    ParseRestAbsolute(ToLower(scheme), authority, path, query, fragment);
  }

  /** `url.Parse` of a link whose fragment is cut off and whose remainder has no control character. */
  lemma ParseSteps(s: string, pre: string, fragment: string)
    requires Cut(s, '#').0 == pre && NoControl(pre)
    requires fragment == if Cut(s, '#').1.Some? then Cut(s, '#').1.value else []
    ensures Parse(s) == match SplitScheme(pre)
      case MissingScheme => None
      case NoScheme => ParseRest([], pre, fragment)
      case HasScheme(name, rest) => ParseRest(ToLower(name), rest, fragment)
  {
  }

  /** `String` writes the authority of such a link as `//` and the authority text. */
  lemma AuthorityOfAbsolute(u: Url, authority: string)
    requires u.scheme != [] && !u.omitHost
    requires authority == (if u.user.Some? then u.user.value + "@" else []) + u.host
    requires authority != [] || u.path != []
    ensures AuthorityPart(u) == "//" + authority
  {
    assert u.host != [] || u.user.Some? || u.path != [] by {
      if u.host == [] && u.user.None? {
        assert authority == [];
      }
    }
  }

  lemma HierarchyOfAbsolute(u: Url, authority: string)
    requires u.scheme != [] && !u.omitHost && (u.path == [] || u.path[0] == '/')
    requires authority == (if u.user.Some? then u.user.value + "@" else []) + u.host
    requires authority != [] || u.path != []
    ensures HierarchyPart(u) == "//" + authority + u.path
  {
    AuthorityOfAbsolute(u, authority);
    assert SchemePart(u.scheme) != [];
  }

  /** `String` writes such a link back as it was written, once the scheme is lower-case. */
  lemma StringOfAbsolute(scheme: string, authority: string, a: Authority, path: string, query: Option<string>, fragment: string)
    requires scheme != [] && (path == [] || path[0] == '/')
    requires authority == (if a.user.Some? then a.user.value + "@" else []) + a.host
    requires authority != [] || path != []
    ensures UrlString(Url(scheme, [], a.user, a.host, false, path, query, fragment))
         == AbsoluteHref(scheme, authority, path, query, fragment)
  {
    var u := Url(scheme, [], a.user, a.host, false, path, query, fragment);
    HierarchyOfAbsolute(u, authority);
    assert SchemePart(scheme) + HierarchyPart(u) == scheme + "://" + authority + path;
  }

  /**
   * An absolute link written out in full, with a lower-case scheme, a valid authority and
   * no `.` or `..` elements, resolves to itself whatever the page.  Its scheme and host are
   * kept.
   */
  lemma ResolveURLAbsoluteUnchanged(base: Url, scheme: string, authority: string, path: string, query: Option<string>, fragment: string)
    requires AbsoluteParts(scheme, authority, path, query) && ToLower(scheme) == scheme
    requires ParseAuthority(authority).Some? && DotFree(path) && (authority != [] || path != [])
    ensures ResolveURL(base, AbsoluteHref(scheme, authority, path, query, fragment))
         == AbsoluteHref(scheme, authority, path, query, fragment)
  {
    var href := AbsoluteHref(scheme, authority, path, query, fragment);
    var a := ParseAuthority(authority).value;
    ParseAbsolute(scheme, authority, path, query, fragment);
    var u := Url(scheme, [], a.user, a.host, false, path, query, fragment);
    assert Parse(href) == Some(u);
    if path != [] {
      CleanPathDotFree(path);
    }
    assert ResolveReference(base, u) == u;
    StringOfAbsolute(scheme, authority, a, path, query, fragment);
  }

  /** The pieces of a root-relative link `/path?query#fragment`. */
  predicate RootRelativeParts(path: string, query: Option<string>)
  {
    NoControl(path) && '?' !in path && '#' !in path && StartsWith(path, "/") && !StartsWith(path, "//")
    && (query.Some? ==> NoControl(query.value) && '#' !in query.value)
  }

  /** `url.Parse` of a root-relative link `/path?query#fragment`: every piece comes out as written. */
  lemma ParseRootRelative(path: string, query: Option<string>, fragment: string)
    requires RootRelativeParts(path, query)
    ensures Parse(path + QueryPart(query) + FragmentPart(fragment))
         == Some(Url([], [], None, [], false, path, query, fragment))
  {
    var pre := path + QueryPart(query);
    CleanQueryPart(query);
    NoControlAppend(path, QueryPart(query));
    CutFragment(pre, fragment);
    assert SplitScheme(pre) == NoScheme;
    ParseSteps(pre + FragmentPart(fragment), pre, fragment);
    CutQuery(path, query);
  }

  /**
   * A root-relative link `/path?query#fragment` keeps the page's scheme, user and host.
   * Its path, query and fragment replace the page's.
   */
  lemma ResolveURLRootRelative(base: Url, path: string, query: Option<string>, fragment: string)
    requires RootRelativeParts(path, query) && DotFree(path)
    ensures ResolveURL(base, path + QueryPart(query) + FragmentPart(fragment))
         == UrlString(Url(base.scheme, [], base.user, base.host, false, path, query, fragment))
  {
    ParseRootRelative(path, query, fragment);
    var ref := Url([], [], None, [], false, path, query, fragment);
    CleanPathDotFree(path);
    assert ResolvePath(base.path, path) == path;
    assert ResolveReference(base, ref) == Url(base.scheme, [], base.user, base.host, false, path, query, fragment);
  }

  /** Cutting at a character the prefix does not contain keeps the prefix. */
  lemma CutKeepsPrefix(s: string, c: char, prefix: string)
    requires StartsWith(s, prefix) && c !in prefix
    ensures StartsWith(Cut(s, c).0, prefix)
  {
    var (before, after) := Cut(s, c);
    if after.Some? {
      assert s[|before|] == c;
      assert forall k :: 0 <= k < |prefix| ==> s[k] == prefix[k];
      assert |before| >= |prefix|;
      assert s[..|prefix|] == before[..|prefix|];
    }
  }

  /** A link starting with `///` and no scheme is all path: Go splits no empty authority off it. */
  lemma ParseTripleSlash(s: string)
    requires StartsWith(s, "///")
    ensures Parse(s).Some? ==> Parse(s).value.host == [] && Parse(s).value.user.None? && Parse(s).value.scheme == []
    ensures Parse(s).Some? ==> StartsWith(Parse(s).value.path, "///")
  {
    CutKeepsPrefix(s, '#', "///");
    var (pre, fragment) := Cut(s, '#');
    if NoControl(pre) {
      ParseSteps(s, pre, if fragment.Some? then fragment.value else []);
      assert pre[0] == '/';
      assert SplitScheme(pre) == NoScheme;
      CutKeepsPrefix(pre, '?', "///");
    } else {
      assert Parse(s).None?;
    }
  }

  /** A control character before the fragment makes `url.Parse` fail. */
  lemma ParseRejectsControl(s: string, i: nat)
    requires i < |s| && IsControl(s[i]) && '#' !in s[..i]
    ensures Parse(s).None?
  {
    assert s[..i + 1] == s[..i] + [s[i]];
    CutKeepsPrefix(s, '#', s[..i + 1]);
    assert Cut(s, '#').0[i] == s[i];
  }

  /** `//` alone has an empty authority, so it names the page itself, as `#` does. */
  lemma ResolveURLEmptyAuthority(base: Url)
    requires base.opaquePart == [] && !base.omitHost && base.query != Some([])
    requires base.path == [] || (StartsWith(base.path, "/") && DotFree(base.path))
    ensures Parse("//") == Some(Url([], [], None, [], false, [], None, []))
    ensures ResolveURL(base, "//") == UrlString(base)
  {
    CutAbsent("//", '#');
    assert NoControl("//") && SplitScheme("//") == NoScheme;
    ParseSteps("//", "//", []);
    CutAbsent("//", '?');
    SplitAuthorityOf([], []);
    assert ParseAuthority([]) == Some(Authority(None, []));
    assert ParseRest([], "//", []) == Some(Url([], [], None, [], false, [], None, []));
    if base.path != [] {
      CleanPathDotFree(base.path);
    }
  }
}
