/**
 * The path handling the URL-include plugin relies on, as Python 2.7 does it
 * on Windows: the path component of `urlparse.urlsplit`, and `ntpath`'s
 * `splitdrive`, `basename` and two-argument `join` (the 2.7.8 and later
 * versions, which know UNC drives).
 */
module PyPath {
  import opened Wrappers
  import opened PyText
  import FileUtil

  /** The first index at or after `from` where `s` holds a character of `cs`. */
  function FindAny(s: string, cs: set<char>, from: nat): (i: Option<nat>)
    decreases |s| - from
    ensures i.Some? ==> from <= i.value < |s| && s[i.value] in cs
    ensures i.Some? ==> forall k :: from <= k < i.value ==> s[k] !in cs
    ensures i.None? ==> forall k :: from <= k < |s| ==> s[k] !in cs
  {
    if from >= |s| then None
    else if s[from] in cs then Some(from)
    else FindAny(s, cs, from + 1)
  }

  // ---------------------------------------------------------------------
  // urlparse.urlsplit, path component
  // ---------------------------------------------------------------------

  /** `urlparse.scheme_chars`: letters, digits, `+`, `-` and `.`. */
  predicate IsSchemeChar(c: char)
  {
    'a' <= c <= 'z' || 'A' <= c <= 'Z' || '0' <= c <= '9' || c == '+' || c == '-' || c == '.'
  }

  /**
   * What `urlsplit` goes on parsing once a scheme is split off: everything
   * after the first `:` when the text before it is `http`, or is made of
   * scheme characters and what follows is not a port number; otherwise
   * the whole URL.
   */
  function AfterScheme(url: string): (rest: string)
    ensures |rest| <= |url| && rest == url[|url| - |rest|..]
  {
    match FindAny(url, {':'}, 0)
    case None => url
    case Some(i) =>
      if i == 0 then url
      else if url[..i] == "http" then url[i + 1..]
      else if (forall k :: 0 <= k < i ==> IsSchemeChar(url[k]))
           && (url[i + 1..] == [] || !FileUtil.AllDigits(url[i + 1..])) then url[i + 1..]
      else url
  }

  /** `_splitnetloc(url, 2)`: the network location runs to the first `/`, `?` or `#`. */
  function SplitNetloc(u: string): (r: (string, string))
    requires "//" <= u
    ensures "//" + r.0 + r.1 == u
    ensures forall k :: 0 <= k < |r.0| ==> r.0[k] !in {'/', '?', '#'}
    ensures r.1 == [] || r.1[0] in {'/', '?', '#'}
  {
    var delim := match FindAny(u, {'/', '?', '#'}, 2) case None => |u| case Some(d) => d;
    assert u == u[..2] + u[2..delim] + u[delim..];
    (u[2..delim], u[delim..])
  }

  /** A network location with a `[` and no `]`, or the reverse, is an invalid IPv6 literal. */
  predicate UnbalancedBrackets(netloc: string)
  {
    ('[' in netloc) != (']' in netloc)
  }

  /** The path is what precedes the fragment (`#`) and the query (`?`). */
  function PathPart(r: string): (p: string)
    ensures p <= r
    ensures '?' !in p && '#' !in p
    ensures p < r ==> r[|p|] in {'?', '#'}
  {
    match FindAny(r, {'?', '#'}, 0)
    case None => r
    case Some(i) => r[..i]
  }

  /** A URL has a network location when what follows its scheme starts with `//`. */
  predicate HasNetloc(url: string)
  {
    "//" <= AfterScheme(url)
  }

  /** The text after the scheme and the network location: the path, query and fragment. */
  function PathRest(url: string): (rest: string)
    ensures |rest| <= |url| && rest == url[|url| - |rest|..]
    ensures HasNetloc(url) ==> AfterScheme(url) == "//" + SplitNetloc(AfterScheme(url)).0 + rest
    ensures !HasNetloc(url) ==> rest == AfterScheme(url)
  {
    var u := AfterScheme(url);
    if "//" <= u then SplitNetloc(u).1 else u
  }

  /**
   * `urlsplit(url)[2]`, or `None` where `urlsplit` raises `ValueError`
   * (an unbalanced IPv6 bracket in the network location).
   */
  function UrlPath(url: string): (p: Option<string>)
    ensures p.None? <==> HasNetloc(url) && UnbalancedBrackets(SplitNetloc(AfterScheme(url)).0)
    ensures p.Some? ==> p.value <= PathRest(url) && '?' !in p.value && '#' !in p.value
    ensures p.Some? && p.value < PathRest(url) ==> PathRest(url)[|p.value|] in {'?', '#'}
  {
    var u := AfterScheme(url);
    if "//" <= u then
      var (netloc, rest) := SplitNetloc(u);
      if UnbalancedBrackets(netloc) then None else Some(PathPart(rest))
    else Some(PathPart(u))
  }

  lemma FindAnyFirst(s: string, cs: set<char>, from: nat, i: nat)
    requires from <= i < |s| && s[i] in cs
    requires forall k :: from <= k < i ==> s[k] !in cs
    ensures FindAny(s, cs, from) == Some(i)
  {
  }

  /** The query or fragment that follows a path is cut off. */
  lemma PathPartOf(path: string, tail: string)
    requires '?' !in path && '#' !in path
    requires tail == [] || tail[0] in {'?', '#'}
    ensures PathPart(path + tail) == path
  {
    var s := path + tail;
    assert forall k :: 0 <= k < |path| ==> s[k] == path[k] && s[k] !in {'?', '#'};
    if tail != [] {
      FindAnyFirst(s, {'?', '#'}, 0, |path|);
      assert s[..|path|] == path;
    } else {
      assert s == path;
    }
  }

  /** The network location of `//host rest` is `host` when `host` holds no delimiter. */
  lemma NetlocOf(host: string, rest: string)
    requires forall k :: 0 <= k < |host| ==> host[k] !in {'/', '?', '#'}
    requires rest == [] || rest[0] in {'/', '?', '#'}
    ensures SplitNetloc("//" + host + rest) == (host, rest)
  {
    var u := "//" + host + rest;
    var r := SplitNetloc(u);
    assert forall k :: 2 <= k < 2 + |host| ==> u[k] == host[k - 2];
    if rest != [] {
      assert u[2 + |host|] == rest[0];
      FindAnyFirst(u, {'/', '?', '#'}, 2, 2 + |host|);
    }
    assert u[2..2 + |host|] == host;
  }

  /**
   * The path of an `http` URL is what follows the host, up to the query or
   * fragment.
   */
  lemma HttpUrlPath(host: string, path: string, tail: string)
    requires forall k :: 0 <= k < |host| ==> host[k] !in {'/', '?', '#', '[', ']'}
    requires path == [] || path[0] == '/'
    requires '?' !in path && '#' !in path
    requires tail == [] || tail[0] in {'?', '#'}
    ensures UrlPath("http://" + host + path + tail) == Some(path)
  {
    var url := "http://" + host + path + tail;
    assert url[..5] == "http:" && url[5..] == "//" + host + (path + tail);
    HttpAfterScheme(url);
    UrlPathAfterNetloc(url, host, path + tail);
    PathPartOf(path, tail);
  }

  /** After `http:` the rest of the URL is kept whole. */
  lemma HttpAfterScheme(url: string)
    requires |url| >= 5 && url[..5] == "http:"
    ensures AfterScheme(url) == url[5..]
  {
    FindAnyFirst(url, {':'}, 0, 4);
    assert url[..4] == "http";
  }

  /** With a network location free of delimiters and brackets, the path is cut from what follows it. */
  lemma UrlPathAfterNetloc(url: string, host: string, rest: string)
    requires forall k :: 0 <= k < |host| ==> host[k] !in {'/', '?', '#', '[', ']'}
    requires rest == [] || rest[0] in {'/', '?', '#'}
    requires AfterScheme(url) == "//" + host + rest
    ensures UrlPath(url) == Some(PathPart(rest))
  {
    NetlocOf(host, rest);
    assert !UnbalancedBrackets(host) by {
      assert forall k :: 0 <= k < |host| ==> host[k] != '[' && host[k] != ']';
    }
  }

  // ---------------------------------------------------------------------
  // ntpath
  // ---------------------------------------------------------------------

  /** Windows accepts both `/` and `\` as separators. */
  predicate IsSep(c: char)
  {
    c == '/' || c == '\\'
  }

  const Seps: set<char> := {'/', '\\'}

  /** `os.sep`. */
  const Sep: string := "\\"

  predicate NoSep(s: string)
  {
    forall k :: 0 <= k < |s| ==> !IsSep(s[k])
  }

  /**
   * `ntpath.splitdrive`: a `\\host\share` UNC prefix, or a drive letter
   * and colon, is split off; anything else has an empty drive.
   */
  function SplitDrive(p: string): (r: (string, string))
    ensures r.0 + r.1 == p
    ensures |p| > 1 && p[1] == ':' ==> r == (p[..2], p[2..])
    ensures NoSep(p) && !(|p| > 1 && p[1] == ':') ==> r == ([], p)
  {
    if |p| > 1 && IsSep(p[0]) && IsSep(p[1]) && !(|p| > 2 && IsSep(p[2])) then
      match FindAny(p, Seps, 2)
      case None => ([], p)
      case Some(index) =>
        match FindAny(p, Seps, index + 1)
        case None => (p, [])
        case Some(index2) =>
          if index2 == index + 1 then ([], p)
          else
            assert p == p[..index2] + p[index2..];
            (p[..index2], p[index2..])
    else if |p| > 1 && p[1] == ':' then
      assert p == p[..2] + p[2..];
      (p[..2], p[2..])
    else ([], p)
  }

  /** Where the last path component starts: just after the last separator. */
  function TailStart(s: string): (i: nat)
    ensures i <= |s|
    ensures NoSep(s[i..])
    ensures i > 0 ==> IsSep(s[i - 1])
  {
    if s == [] || IsSep(s[|s| - 1]) then |s|
    else
      var i := TailStart(s[..|s| - 1]);
      assert s[i..] == s[..|s| - 1][i..] + [s[|s| - 1]];
      i
  }

  /** `ntpath.basename`: the last component of the path after its drive. */
  function Basename(p: string): (b: string)
    ensures NoSep(b)
    ensures |b| <= |p| - |SplitDrive(p).0| && b == p[|p| - |b|..]
    ensures |p| - |b| > |SplitDrive(p).0| ==> IsSep(p[|p| - |b| - 1])
  {
    var d := SplitDrive(p);
    var t := TailStart(d.1);
    assert p[|d.0| + t..] == d.1[t..] by {
      assert p == d.0 + d.1;
    }
    p[|d.0| + t..]
  }

  /** The last component of a path whose name follows a separator is that name. */
  lemma BasenameAfterSep(dir: string, name: string)
    requires dir != [] && IsSep(dir[|dir| - 1]) && NoSep(name)
    requires |dir + name| > 1 ==> !IsSep((dir + name)[1]) && (dir + name)[1] != ':'
    requires IsSep(dir[0])
    ensures Basename(dir + name) == name
  {
    var p := dir + name;
    assert SplitDrive(p) == ([], p);
    TailStartAfterSep(dir, name);
    assert p[|dir|..] == name;
  }

  lemma {:induction false} TailStartAfterSep(dir: string, name: string)
    requires dir != [] && IsSep(dir[|dir| - 1]) && NoSep(name)
    ensures TailStart(dir + name) == |dir|
    decreases |name|
  {
    if name == [] {
      assert dir + name == dir;
    } else {
      var p := dir + name;
      assert p[..|p| - 1] == dir + name[..|name| - 1];
      assert !IsSep(p[|p| - 1]);
      TailStartAfterSep(dir, name[..|name| - 1]);
    }
  }

  /** `ntpath.join(a, b)`. */
  function Join(a: string, b: string): (j: string)
  {
    var (rd, rp) := SplitDrive(a);
    var (pd, pp) := SplitDrive(b);
    var (drive, path) :=
      if pp != [] && IsSep(pp[0]) then
        // the second path is absolute
        (if pd != [] || rd == [] then pd else rd, pp)
      else if pd != [] && pd != rd && Lower(pd) != Lower(rd) then
        // a different drive: the first path is dropped
        (pd, pp)
      else
        ((if pd != [] && pd != rd then pd else rd),
         (if rp != [] && !IsSep(rp[|rp| - 1]) then rp + Sep else rp) + pp);
    if path != [] && !IsSep(path[0]) && drive != [] && drive[|drive| - 1] != ':' then drive + Sep + path
    else drive + path
  }

  /**
   * Joining a name on another drive letter discards the first path: the
   * result is the drive-relative name itself.
   */
  lemma JoinOtherDrive(a: string, b: string)
    requires IsDriveDir(a)
    requires NoSep(b) && |b| >= 2 && b[1] == ':'
    requires Lower(b[..2]) != Lower(a[..2])
    ensures Join(a, b) == b
  {
    assert SplitDrive(a) == (a[..2], a[2..]);
    assert SplitDrive(b) == (b[..2], b[2..]);
    if |b| > 2 {
      assert !IsSep(b[2..][0]) by {
        assert b[2..][0] == b[2];
      }
    }
    assert b[..2] + b[2..] == b;
  }

  /**
   * Joining a drive-relative name on the directory's own drive letter
   * drops the letter: the rest of the name becomes one more component.
   */
  lemma JoinSameDrive(a: string, b: string)
    requires IsDriveDir(a)
    requires NoSep(b) && |b| >= 2 && b[1] == ':' && b[..2] == a[..2]
    ensures Join(a, b) == WithSep(a) + b[2..]
  {
    assert SplitDrive(a) == (a[..2], a[2..]);
    assert SplitDrive(b) == (b[..2], b[2..]);
    if |b| > 2 {
      assert !IsSep(b[2..][0]) by {
        assert b[2..][0] == b[2];
      }
    }
    var rp := a[2..];
    assert rp[|rp| - 1] == a[|a| - 1];
    var path := (if !IsSep(rp[|rp| - 1]) then rp + Sep else rp) + b[2..];
    assert path[0] == a[2];
    assert a[..2] + path == WithSep(a) + b[2..];
  }

  /** A directory path on a drive letter: `X:` followed by an absolute path. */
  predicate IsDriveDir(a: string)
  {
    |a| >= 3 && a[1] == ':' && IsSep(a[2])
  }

  /** `a` followed by a separator unless it already ends with one. */
  function WithSep(a: string): (r: string)
    ensures a <= r
  {
    if a != [] && IsSep(a[|a| - 1]) then a else a + Sep
  }

  /**
   * Joining a drive directory with a name that has no separator and no
   * drive appends the name as one more component.
   */
  lemma JoinComponent(a: string, b: string)
    requires IsDriveDir(a) && NoSep(b) && !(|b| > 1 && b[1] == ':')
    ensures Join(a, b) == WithSep(a) + b
  {
    assert SplitDrive(a) == (a[..2], a[2..]);
    assert SplitDrive(b) == ([], b);
    if b != [] {
      assert !IsSep(b[0]);
    }
    var rp := a[2..];
    assert rp[|rp| - 1] == a[|a| - 1];
    var path := (if rp != [] && !IsSep(rp[|rp| - 1]) then rp + Sep else rp) + b;
    assert path[0] == a[2];
    assert a[..2] + path == WithSep(a) + b;
  }

  /** A drive directory extended by one non-empty component is still a drive directory. */
  lemma WithComponentIsDriveDir(a: string, b: string)
    requires IsDriveDir(a) && NoSep(b) && b != []
    ensures IsDriveDir(WithSep(a) + b)
    ensures var r := WithSep(a) + b; !IsSep(r[|r| - 1])
  {
    var r := WithSep(a) + b;
    assert r[..|a|] == a;
    assert r[|r| - 1] == b[|b| - 1];
  }
}
