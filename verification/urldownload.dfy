/**
 * The URL-include user-data plugin (`URLDownloadPlugin`, content type
 * `text/x-download-url`). Its payload lists URLs, one per line; each URL
 * is fetched, the content is saved under `<tmp>\openstack` by the base name
 * of the URL's path, and an archive is unpacked there and removed.
 *
 * The fetch, the file write and the unpacking are collaborators (`Io`);
 * what the plugin does with them is recorded as a sequence of `Action`s.
 */
module UrlDownload {
  import opened Wrappers
  import opened PyText
  import opened PyPath
  import FileUtil
  import UserData

  /** `DECOMP_TYPES`: the content types that are unpacked after saving. */
  const DecompTypes: seq<string> := [
    "application/zip",
    "application/gzip",
    "application/gzip-compressed",
    "application/gzipped",
    "application/x-compress",
    "application/x-compressed",
    "application/x-gunzip",
    "application/x-gzip",
    "application/x-gzip-compressed"
  ]

  /** `DOWNLOAD_DIR`, under the temporary directory. */
  const DownloadDir: string := "openstack"

  /** The content type the plugin declares. */
  const UrlDownloadContentType: string := "text/x-download-url"

  /** The response header consulted for the content type. */
  const ContentTypeHeader: string := "content-type"

  // ---------------------------------------------------------------------
  // Which lines are URLs
  // ---------------------------------------------------------------------

  /** A comment is a line whose first raw character is `#`; the test precedes stripping. */
  predicate IsComment(line: string)
  {
    "#" <= line
  }

  /** The URL a line contributes: none for a comment or a blank line, else the stripped line. */
  function UrlOfLine(line: string): (u: Option<string>)
    ensures u.Some? <==> !IsComment(line) && !IsBlank(line)
    ensures u.Some? ==> u.value == Strip(line) && u.value != []
  {
    if IsComment(line) then None
    else
      var url := Strip(line);
      if url == [] then None else Some(url)
  }

  /** An indented `#` line is fetched, `#` included. */
  lemma IndentedHashIsNotComment()
    ensures UrlOfLine("  #x") == Some("#x")
    ensures UrlOfLine("#x") == None
  {
    StripPadded("  ", "#x", "");
    assert "  " + "#x" + "" == "  #x";
  }

  /** The URLs of the lines, in order. */
  function UrlsOf(lines: seq<string>): (urls: seq<string>)
    ensures |urls| <= |lines|
    ensures forall k :: 0 <= k < |urls| ==> urls[k] != [] && !IsSpace(urls[k][0]) && !IsSpace(urls[k][|urls[k]| - 1])
  {
    if lines == [] then []
    else
      var init := UrlsOf(lines[..|lines| - 1]);
      match UrlOfLine(lines[|lines| - 1])
      case None => init
      case Some(u) => init + [u]
  }

  lemma {:induction false} UrlsOfAppend(a: seq<string>, b: seq<string>)
    ensures UrlsOf(a + b) == UrlsOf(a) + UrlsOf(b)
    decreases |b|
  {
    if b != [] {
      var last := b[|b| - 1];
      assert (a + b)[..|a + b| - 1] == a + b[..|b| - 1];
      UrlsOfAppend(a, b[..|b| - 1]);
    } else {
      assert a + b == a;
    }
  }

  /** A line that is already a URL: no leading `#`, no surrounding blanks, no line break. */
  predicate IsUrlLine(u: string)
  {
    u != [] && u[0] != '#' && !IsSpace(u[0]) && !IsSpace(u[|u| - 1]) && NoLineBreak(u)
  }

  /** Every line that is already a URL is fetched as it is, in order. */
  lemma {:induction false} UrlsOfUrlLines(urls: seq<string>)
    requires forall k :: 0 <= k < |urls| ==> IsUrlLine(urls[k])
    ensures UrlsOf(urls) == urls
  {
    if urls != [] {
      var init, last := urls[..|urls| - 1], urls[|urls| - 1];
      UrlsOfUrlLines(init);
      UrlOfUrlLine(last);
      assert urls == init + [last];
    }
  }

  lemma UrlOfUrlLine(u: string)
    requires IsUrlLine(u)
    ensures UrlOfLine(u) == Some(u)
  {
    StripUnpadded(u);
    assert !IsComment(u);
  }

  /** A payload written one URL per line yields exactly those URLs. */
  lemma IncludeListRoundTrip(urls: seq<string>)
    requires forall k :: 0 <= k < |urls| ==> IsUrlLine(urls[k])
    ensures UrlsOf(SplitLines(JoinLines(urls))) == urls
  {
    SplitJoinLines(urls);
    UrlsOfUrlLines(urls);
  }

  // ---------------------------------------------------------------------
  // Where a download is saved
  // ---------------------------------------------------------------------

  /** `os.path.join(tempfile.gettempdir(), DOWNLOAD_DIR)`. */
  function DestDir(tmp: string): string
  {
    Join(tmp, DownloadDir)
  }

  /** `os.path.join(dest_dir, os.path.basename(url_path))`, as the plugin computes it. */
  function LocalFilenameAsWritten(dest: string, urlPath: string): string
  {
    Join(dest, Basename(urlPath))
  }

  /** The saved file: the base name of the URL path as one more component of the download directory. */
  function LocalFilename(dest: string, urlPath: string): (f: string)
    ensures WithSep(dest) <= f && NoSep(f[|WithSep(dest)|..])
  {
    WithSep(dest) + Basename(urlPath)
  }

  /** For a drive directory, the download directory is `<tmp>\openstack`. */
  lemma DestDirUnderTmp(tmp: string)
    requires IsDriveDir(tmp)
    ensures DestDir(tmp) == WithSep(tmp) + DownloadDir
    ensures IsDriveDir(DestDir(tmp))
    ensures var d := DestDir(tmp); !IsSep(d[|d| - 1])
  {
    DownloadDirIsName();
    JoinComponent(tmp, DownloadDir);
    WithComponentIsDriveDir(tmp, DownloadDir);
  }

  /** `openstack` is a single path component without a drive. */
  lemma DownloadDirIsName()
    ensures DownloadDir != [] && NoSep(DownloadDir) && DownloadDir[1] != ':'
  {
  }

  /** The saved file is `<tmp>\openstack\<basename of the URL path>`. */
  lemma SavedUnderDownloadDir(tmp: string, urlPath: string)
    requires IsDriveDir(tmp)
    ensures LocalFilename(DestDir(tmp), urlPath) == WithSep(tmp) + DownloadDir + Sep + Basename(urlPath)
  {
    DestDirUnderTmp(tmp);
    LocalFilenameInDir(DestDir(tmp), urlPath);
  }

  /** In a directory named without a trailing separator, the saved file is `<dir>\<basename>`. */
  lemma LocalFilenameInDir(dest: string, urlPath: string)
    requires dest != [] && !IsSep(dest[|dest| - 1])
    ensures LocalFilename(dest, urlPath) == dest + Sep + Basename(urlPath)
  {
    assert WithSep(dest) == dest + Sep;
  }

  /** Where the base name has no drive, the code as written saves to the same place. */
  lemma LocalFilenameAgrees(tmp: string, urlPath: string)
    requires IsDriveDir(tmp)
    requires var b := Basename(urlPath); !(|b| > 1 && b[1] == ':')
    ensures LocalFilenameAsWritten(DestDir(tmp), urlPath) == LocalFilename(DestDir(tmp), urlPath)
  {
    DestDirUnderTmp(tmp);
    JoinComponent(DestDir(tmp), Basename(urlPath));
  }

  /**
   * As written, a URL whose last path segment starts with a drive letter
   * other than the temporary directory's is saved outside the download
   * directory, to that drive-relative name.
   */
  lemma DriveLetterNameEscapes(tmp: string, name: string)
    requires IsDriveDir(tmp)
    requires NoSep(name) && |name| >= 2 && name[0] != ':' && name[1] == ':'
    requires Lower(name[..2]) != Lower(tmp[..2])
    ensures LocalFilenameAsWritten(DestDir(tmp), "/" + name) == name
    ensures !(DestDir(tmp) <= name)
    ensures LocalFilename(DestDir(tmp), "/" + name) == WithSep(tmp) + DownloadDir + Sep + name
  {
    var dest := DestDir(tmp);
    DestDirUnderTmp(tmp);
    assert dest[..2] == tmp[..2];
    RootNameBasename(name);
    JoinOtherDrive(dest, name);
    SavedUnderDownloadDir(tmp, "/" + name);
  }

  /**
   * As written, a URL whose last path segment starts with the temporary
   * directory's own drive letter loses that letter: it is saved in the
   * download directory, but under the rest of the name.
   */
  lemma DriveLetterSameDrive(tmp: string, name: string)
    requires IsDriveDir(tmp)
    requires NoSep(name) && |name| >= 2 && name[0] != ':' && name[1] == ':'
    requires name[..2] == tmp[..2]
    ensures LocalFilenameAsWritten(DestDir(tmp), "/" + name) == WithSep(tmp) + DownloadDir + Sep + name[2..]
    ensures LocalFilename(DestDir(tmp), "/" + name) == WithSep(tmp) + DownloadDir + Sep + name
  {
    var dest := DestDir(tmp);
    DestDirUnderTmp(tmp);
    assert dest[..2] == tmp[..2];
    RootNameBasename(name);
    JoinSameDrive(dest, name);
    assert WithSep(dest) == dest + Sep;
    SavedUnderDownloadDir(tmp, "/" + name);
  }

  lemma RootNameBasename(name: string)
    requires NoSep(name) && name != [] && name[0] != ':'
    ensures Basename("/" + name) == name
  {
    assert ("/" + name)[1] == name[0];
    BasenameAfterSep("/", name);
  }

  /** `http://host/d:evil`, with the temporary directory `c:\temp`, is saved as `d:evil`. */
  lemma DriveLetterUrlEscapes()
    ensures UrlPath("http://host/d:evil") == Some("/d:evil")
    ensures LocalFilenameAsWritten(DestDir("c:\\temp"), "/d:evil") == "d:evil"
  {
    DriveLetterUrlPath();
    DriveLetterSavePath();
  }

  lemma DriveLetterUrlPath()
    ensures UrlPath("http://host/d:evil") == Some("/d:evil")
  {
    var host, path := "host", "/d:evil";
    assert forall k :: 0 <= k < |host| ==> host[k] !in {'/', '?', '#', '[', ']'};
    assert '?' !in path && '#' !in path;
    HttpUrlPath(host, path, "");
    UrlSpelling();
  }

  lemma DriveLetterSavePath()
    ensures LocalFilenameAsWritten(DestDir("c:\\temp"), "/d:evil") == "d:evil"
  {
    var tmp, name := "c:\\temp", "d:evil";
    assert IsDriveDir(tmp) && NoSep(name);
    assert Lower(name[..2])[0] == 'd' && Lower(tmp[..2])[0] == 'c';
    DriveLetterNameEscapes(tmp, name);
    SlashSpelling();
  }

  lemma SlashSpelling()
    ensures "/" + "d:evil" == "/d:evil"
  {
  }

  lemma UrlSpelling()
    ensures "http://" + "host" + "/d:evil" + "" == "http://host/d:evil"
  {
  }

  // ---------------------------------------------------------------------
  // One URL
  // ---------------------------------------------------------------------

  /** What the plugin does with the outside world. */
  datatype Action =
    | Fetch(url: string)
    | Save(file: string, contents: string)
    | Unzip(file: string, dir: string)
    | Remove(file: string)

  /** The exceptions that end the include: none of them is swallowed. */
  datatype IncludeError =
    | ReadFailed(error: FileUtil.ReadError)
    | InvalidUrl
    | WriteFailed(file: string)
    | UnzipFailed(file: string)

  /**
   * The collaborators: the temporary directory, the file and network
   * readers, and whether writing or unpacking a given file succeeds.
   */
  datatype Io = Io(
    tmpDir: string,
    open: string -> FileUtil.FileRead,
    readurl: string -> Result<Option<FileUtil.Response>, string>,
    writes: string -> bool,
    unzips: string -> bool)

  /** The actions taken and the exception raised, if any. */
  datatype Outcome = Outcome(actions: seq<Action>, error: Option<IncludeError>)

  /** A response is unpacked when its content type is one of `DECOMP_TYPES`. */
  predicate IsArchive(resp: FileUtil.Response)
  {
    ContentTypeHeader in resp.headers && resp.headers[ContentTypeHeader] in DecompTypes
  }

  predicate Unzips(actions: seq<Action>)
  {
    exists k :: 0 <= k < |actions| && actions[k].Unzip?
  }

  /** The file a response for `url` is saved to, when its URL path is non-empty. */
  function SavePath(io: Io, url: string): Option<string>
  {
    match UrlPath(url)
    case Some(path) => if path == [] then None else Some(LocalFilename(DestDir(io.tmpDir), path))
    case None => None
  }

  /**
   * Saving a fetched response to `f`: write it; an archive is then unpacked
   * into `dest` and removed, whether or not the unpacking succeeded.
   */
  function SaveTo(io: Io, f: string, dest: string, resp: FileUtil.Response): (o: Outcome)
    ensures o.actions != [] && o.actions[0] == Save(f, resp.contents)
    ensures Unzips(o.actions) <==> io.writes(f) && IsArchive(resp)
    ensures Unzips(o.actions) ==> o.actions[|o.actions| - 1] == Remove(f)
    ensures !io.writes(f) ==> o.error == Some(WriteFailed(f))
    ensures io.writes(f) && IsArchive(resp) && !io.unzips(f) ==> o.error == Some(UnzipFailed(f))
    ensures o.error.None? <==> io.writes(f) && (IsArchive(resp) ==> io.unzips(f))
    ensures forall k :: 0 <= k < |o.actions| ==> !o.actions[k].Fetch?
  {
    if !io.writes(f) then Outcome([Save(f, resp.contents)], Some(WriteFailed(f)))
    else if !IsArchive(resp) then Outcome([Save(f, resp.contents)], None)
    else
      var actions := [Save(f, resp.contents), Unzip(f, dest), Remove(f)];
      assert actions[1].Unzip?;
      Outcome(actions, if io.unzips(f) then None else Some(UnzipFailed(f)))
  }

  /**
   * A fetched response is saved to its file when the URL path is non-empty;
   * a URL that `urlsplit` rejects raises.
   */
  function SaveResponse(io: Io, url: string, resp: FileUtil.Response): (o: Outcome)
    ensures UrlPath(url).None? ==> o == Outcome([], Some(InvalidUrl))
    ensures UrlPath(url).Some? && SavePath(io, url).None? ==> o == Outcome([], None)
    ensures SavePath(io, url).Some? ==> o == SaveTo(io, SavePath(io, url).value, DestDir(io.tmpDir), resp)
    ensures forall k :: 0 <= k < |o.actions| ==> !o.actions[k].Fetch?
  {
    match UrlPath(url)
    case None => Outcome([], Some(InvalidUrl))
    case Some(path) =>
      if path == [] then Outcome([], None)
      else SaveTo(io, LocalFilename(DestDir(io.tmpDir), path), DestDir(io.tmpDir), resp)
  }

  /** One URL: fetch it, and save whatever comes back. */
  function ProcessUrl(io: Io, url: string): (o: Outcome)
    ensures o.actions != [] && o.actions[0] == Fetch(url)
    ensures forall k :: 1 <= k < |o.actions| ==> !o.actions[k].Fetch?
  {
    match FileUtil.ReadFileOrUrl(url, io.open, io.readurl)
    case Failure(e) => Outcome([Fetch(url)], Some(ReadFailed(e)))
    case Success(None) => Outcome([Fetch(url)], None)
    case Success(Some(resp)) =>
      var s := SaveResponse(io, url, resp);
      Outcome([Fetch(url)] + s.actions, s.error)
  }

  /** When the fetch yields nothing, nothing is saved or unpacked. */
  lemma NoResponseNoSave(io: Io, url: string)
    requires FileUtil.ReadFileOrUrl(url, io.open, io.readurl) == Success(None)
    ensures ProcessUrl(io, url) == Outcome([Fetch(url)], None)
  {
  }

  /** A response read from a file has no headers, so it is never unpacked. */
  lemma FileUrlNeverUnzips(io: Io, url: string)
    requires FileUtil.RouteOf(url).FileRoute?
    ensures !Unzips(ProcessUrl(io, url).actions)
  {
    var o := ProcessUrl(io, url);
    match FileUtil.ReadFileOrUrl(url, io.open, io.readurl)
    case Failure(_) =>
    case Success(None) =>
    case Success(Some(resp)) =>
      assert resp.headers == map[];
      var s := SaveResponse(io, url, resp);
      assert !Unzips(s.actions);
  }

  // ---------------------------------------------------------------------
  // The whole payload
  // ---------------------------------------------------------------------

  /** The step the plugin takes for each URL. */
  function Step(io: Io): string -> Outcome
  {
    (url: string) => ProcessUrl(io, url)
  }

  /** Each URL in order through `step`, until one of them raises. */
  function Include(step: string -> Outcome, urls: seq<string>): (o: Outcome)
    ensures o.error.None? ==> forall k :: 0 <= k < |urls| ==> step(urls[k]).error.None?
    ensures o.error.Some? ==> exists k :: 0 <= k < |urls| && step(urls[k]).error == o.error
  {
    if urls == [] then Outcome([], None)
    else
      var prev := Include(step, urls[..|urls| - 1]);
      if prev.error.Some? then prev
      else
        var last := step(urls[|urls| - 1]);
        Outcome(prev.actions + last.actions, last.error)
  }

  /** Once a URL has raised, no later URL is processed. */
  lemma {:induction false} IncludeStopsAtError(step: string -> Outcome, urls: seq<string>, more: seq<string>)
    requires Include(step, urls).error.Some?
    ensures Include(step, urls + more) == Include(step, urls)
    decreases |more|
  {
    if more == [] {
      assert urls + more == urls;
    } else {
      assert (urls + more)[..|urls + more| - 1] == urls + more[..|more| - 1];
      IncludeStopsAtError(step, urls, more[..|more| - 1]);
    }
  }

  /** The URLs fetched by a sequence of actions, in order. */
  function Fetched(actions: seq<Action>): seq<string>
  {
    if actions == [] then []
    else
      var init := Fetched(actions[..|actions| - 1]);
      match actions[|actions| - 1]
      case Fetch(u) => init + [u]
      case _ => init
  }

  lemma {:induction false} FetchedAppend(a: seq<Action>, b: seq<Action>)
    ensures Fetched(a + b) == Fetched(a) + Fetched(b)
    decreases |b|
  {
    if b == [] {
      assert a + b == a;
    } else {
      assert (a + b)[..|a + b| - 1] == a + b[..|b| - 1];
      FetchedAppend(a, b[..|b| - 1]);
    }
  }

  lemma {:induction false} FetchedNoFetch(a: seq<Action>)
    requires forall k :: 0 <= k < |a| ==> !a[k].Fetch?
    ensures Fetched(a) == []
  {
    if a != [] {
      FetchedNoFetch(a[..|a| - 1]);
    }
  }

  /** A step that starts by fetching its URL and fetches nothing else. */
  ghost predicate FetchesOnlyItsUrl(step: string -> Outcome)
  {
    forall url :: step(url).actions != [] && step(url).actions[0] == Fetch(url)
      && forall k :: 1 <= k < |step(url).actions| ==> !step(url).actions[k].Fetch?
  }

  lemma StepFetchesOnlyItsUrl(io: Io)
    ensures FetchesOnlyItsUrl(Step(io))
  {
  }

  lemma FetchedOfStep(step: string -> Outcome, url: string)
    requires FetchesOnlyItsUrl(step)
    ensures Fetched(step(url).actions) == [url]
  {
    var a := step(url).actions;
    FetchedAppend([a[0]], a[1..]);
    assert a == [a[0]] + a[1..];
    FetchedNoFetch(a[1..]);
    assert [a[0]][..0] == [];
  }

  /** Each URL is fetched once, in order: all of them, or up to and including the one that raised. */
  lemma {:induction false} FetchesFollowUrls(step: string -> Outcome, urls: seq<string>)
    requires FetchesOnlyItsUrl(step)
    ensures var o := Include(step, urls);
      && (o.error.None? ==> Fetched(o.actions) == urls)
      && (o.error.Some? ==> Fetched(o.actions) <= urls && Fetched(o.actions) != [])
  {
    if urls != [] {
      var init := urls[..|urls| - 1];
      var last := urls[|urls| - 1];
      FetchesFollowUrls(step, init);
      var prev := Include(step, init);
      if prev.error.None? {
        FetchedAppend(prev.actions, step(last).actions);
        FetchedOfStep(step, last);
        assert init + [last] == urls;
      }
    }
  }

  /** The plugin fetches the payload's URLs in order, each once. */
  lemma PayloadFetches(io: Io, content: string)
    ensures var o := Include(Step(io), UrlsOf(SplitLines(content)));
      && (o.error.None? ==> Fetched(o.actions) == UrlsOf(SplitLines(content)))
      && (o.error.Some? ==> Fetched(o.actions) <= UrlsOf(SplitLines(content)))
  {
    StepFetchesOnlyItsUrl(io);
    FetchesFollowUrls(Step(io), UrlsOf(SplitLines(content)));
  }

  /** The URLs of one more line: those of the lines before, and that line's URL if it has one. */
  lemma UrlsOfNextLine(lines: seq<string>, i: nat)
    requires i < |lines|
    ensures UrlsOf(lines[..i + 1]) ==
      match UrlOfLine(lines[i])
      case None => UrlsOf(lines[..i])
      case Some(u) => UrlsOf(lines[..i]) + [u]
  {
    assert lines[..i + 1][..i] == lines[..i];
  }

  /** One more URL after no error: its actions are appended and its error becomes the outcome's. */
  lemma IncludeNextUrl(step: string -> Outcome, urls: seq<string>, u: string)
    requires Include(step, urls).error.None?
    ensures Include(step, urls + [u]) == Outcome(Include(step, urls).actions + step(u).actions, step(u).error)
  {
    assert (urls + [u])[..|urls|] == urls;
  }

  /** One more line: nothing for a comment or a blank line, else one more URL's step. */
  lemma IncludeLine(step: string -> Outcome, lines: seq<string>, i: nat)
    requires i < |lines| && Include(step, UrlsOf(lines[..i])).error.None?
    ensures var prev := Include(step, UrlsOf(lines[..i]));
      Include(step, UrlsOf(lines[..i + 1])) ==
        match UrlOfLine(lines[i])
        case None => prev
        case Some(u) => Outcome(prev.actions + step(u).actions, step(u).error)
  {
    UrlsOfNextLine(lines, i);
    match UrlOfLine(lines[i])
    case None =>
    case Some(u) => IncludeNextUrl(step, UrlsOf(lines[..i]), u);
  }

  /** Once a line's URL has raised, the lines after it change nothing. */
  lemma IncludeEndsAtLine(step: string -> Outcome, lines: seq<string>, i: nat)
    requires i < |lines| && Include(step, UrlsOf(lines[..i + 1])).error.Some?
    ensures Include(step, UrlsOf(lines)) == Include(step, UrlsOf(lines[..i + 1]))
  {
    UrlsOfSplit(lines, i + 1);
    IncludeStopsAtError(step, UrlsOf(lines[..i + 1]), UrlsOf(lines[i + 1..]));
  }

  /** The URLs of the lines are those of the lines before a point, then those after it. */
  lemma UrlsOfSplit(lines: seq<string>, n: nat)
    requires n <= |lines|
    ensures UrlsOf(lines) == UrlsOf(lines[..n]) + UrlsOf(lines[n..])
  {
    assert lines == lines[..n] + lines[n..];
    UrlsOfAppend(lines[..n], lines[n..]);
  }

  /**
   * `_do_include(content)`: for each line of the payload, skip comments and
   * blank lines, and process the stripped URL; an exception ends the loop.
   */
  method DoInclude(io: Io, content: string) returns (actions: seq<Action>, error: Option<IncludeError>)
    ensures Outcome(actions, error) == Include(Step(io), UrlsOf(SplitLines(content)))
  {
    var lines := SplitLines(content);
    var process := Step(io);
    actions, error := [], None;
    for i := 0 to |lines|
      invariant Outcome(actions, error) == Include(process, UrlsOf(lines[..i]))
      invariant error.None?
    {
      IncludeLine(process, lines, i);
      var line := lines[i];
      if IsComment(line) {
        continue;
      }
      var url := Strip(line);
      if url == [] {
        continue;
      }
      var o := process(url);
      actions := actions + o.actions;
      if o.error.Some? {
        error := o.error;
        IncludeEndsAtLine(process, lines, i);
        return;
      }
    }
    assert lines[..|lines|] == lines;
  }

  /**
   * `process(part)`: include the part's payload. It returns `None`, which the
   * user-data plugin takes as done, without reboot, unless the include raised.
   */
  method Process(io: Io, part: UserData.Part) returns (ret: UserData.Raising<Option<UserData.ExecutionResult>>, actions: seq<Action>, error: Option<IncludeError>)
    ensures ret.Raised? <==> error.Some?
    ensures ret.Returned? ==> ret.value == None && UserData.Normalise(ret.value) == UserData.Done
    ensures Outcome(actions, error) == Include(Step(io), UrlsOf(SplitLines(part.payload)))
    ensures ret == Plugin(io).run(part)
  {
    actions, error := DoInclude(io, part.payload);
    ret := if error.Some? then UserData.Raised else UserData.Returned(None);
  }

  /** The plugin as the registry holds it: the include, seen from the user-data plugin. */
  function Plugin(io: Io): (plugin: UserData.Plugin)
    ensures plugin.LeafPlugin?
    ensures forall p: UserData.Part :: plugin.run(p).Returned? ==> plugin.run(p).value.None?
  {
    UserData.LeafPlugin((p: UserData.Part) =>
      if Include(Step(io), UrlsOf(SplitLines(p.payload))).error.None? then UserData.Returned(None) else UserData.Raised)
  }

  /**
   * A URL-include part that no declared handler claims is processed by the
   * plugin; it is done when every URL was included, and otherwise its
   * exception ends the walk.
   */
  lemma UrlDownloadPartOutcome(io: Io, reg: UserData.Registry, table: map<string, UserData.Handler>, part: UserData.Part)
    requires UserData.WellFormed(reg)
    requires part.contentType == UrlDownloadContentType && part.contentType !in table
    requires UrlDownloadContentType in reg && reg[UrlDownloadContentType] == Plugin(io)
    ensures var o := UserData.DispatchPart(reg, table, part);
      && o.table == table && o.effects == [UserData.PluginProcessed(part)]
      && (Include(Step(io), UrlsOf(SplitLines(part.payload))).error.None? ==> o.result == Success(UserData.Done))
      && (Include(Step(io), UrlsOf(SplitLines(part.payload))).error.Some? ==> o.result == Failure(UserData.PluginFailure(part)))
  {
  }
}
