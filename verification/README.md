# cloudbase-init user data: a verified model

This project models three parts of cloudbase-init, the Windows guest agent that configures an
instance from the metadata service, and proves properties about them:

- **The user-data dispatch engine** (`UserDataPlugin`, module `UserData`, `userdata.dfy`).
  - A payload that starts with `Content-Type: multipart` is walked part by part. The walk starts
    with a fresh, empty handler table. Any other payload runs as a single script.
  - Each part goes first to a handler declared earlier in the walk, then to a built-in plugin.
  - The part-handler plugin's output installs new handlers; it does not produce a result. A
    handler is installed only for a content type that no built-in plugin owns, and it is sent a
    begin event when installed.
  - At the end of the walk, every entry left in the table is sent one end event, to its
    handler.
  - An exception raised by a plugin is modelled as not caught: it ends the walk at that part,
    no end event is sent, and the exception is what the run yields. This propagation is a
    modelling choice, not something the tests assert; see "## Left out".
  - A missing result becomes `(PLUGIN_EXECUTION_DONE, False)`.
  - The walk is the class `UserData.Walk`, whose handler table and call log are fields updated
    in place. Each of its methods is proved against the pure specification `DispatchPart` /
    `WalkParts`, and keeps the invariant that a handler receives its begin event before any part.
- **The URL-include plugin** (`URLDownloadPlugin`, module `UrlDownload`, `urldownload.dfy`).
  - The plugin decides which payload lines are URLs: a line whose raw first character is `#`
    is a comment, and a line that is blank after `strip()` is skipped.
  - It fetches each remaining URL in order.
  - It decides where a response is saved, from the basename of the URL path.
  - It decides whether the saved file is unpacked and removed: only when the response's
    content type is one of `DECOMP_TYPES`.
  - A failed read, a URL `urlsplit` rejects, a failed write and a failed unpack all raise, and
    the exception ends the include: `urldownload.py` logs and re-raises write and unpack
    failures and lets the others through. In the model the exception then also stops the
    user-data walk at the URL-include part, by the propagation choice above.
  - `_do_include` is a method with a `for` loop, proved equal to the fold `Include`.
- **The file and URL helpers** of `cloudbaseinit/utils/file.py` (module `FileUtil`,
  `fileutil.dfy`):
  - `safe_int`, the `chmod` guard and `ensure_dir`;
  - the chunked copy loop `pipe_in_out`, a method with its loop invariants;
  - the rewriting and routing in `read_file_or_url`;
  - the error policy of `load_file`;
  - `StringResponse` / `FileResponse`;
  - the truncation in `hash_blob`.

Three support modules hold library behaviour the core depends on:

- `PyText` (`pytext.dfy`): Python 2 `str.strip`, `lower` and `splitlines` over ASCII.
- `PyPath` (`pypath.dfy`): the path component of Python 2.7's `urlparse.urlsplit`, and Windows
  `ntpath` `splitdrive`, `basename` and two-argument `join`. The plugin runs on Windows, so
  `os.path` is `ntpath`.
- `Wrappers` (`wrappers.dfy`): `Option` and `Result`.

The multi-part result fold is a modelling choice:

- the run asks for the next boot if any part does;
- it reboots if any part does;
- a single part's result is returned unchanged, as the tests assert.

## Model

| member | source | states |
|---|---|---|
| UserData.Execute | cloudbaseinit/tests/plugins/windows/test_userdata.py:38-60 | No user data, or metadata that does not exist, gives `(DONE, False)` with no calls. Otherwise the result or exception is exactly `_process_user_data`'s, and so are the calls: a non-multipart payload runs the script once; a multipart one makes the walk's calls, then one end event per table entry, or none after an exception. Handlers get their begin event before any part |
| UserData.UserDataResult | cloudbaseinit/tests/plugins/windows/test_userdata.py:79-96 | A non-multipart payload never raises; an exception comes from one of the payload's parts |
| UserData.IsMultipart | cloudbaseinit/tests/plugins/windows/test_userdata.py:88 | The test `user_data.startswith('Content-Type: multipart')`; what each side does is stated by ProcessUserData and NonMultipartResult |
| UserData.ProcessUserData | cloudbaseinit/tests/plugins/windows/test_userdata.py:79-96 | A multipart payload yields the walk's calls, then exactly one end event per entry left in the table, or no end event at all when a plugin raised; any other payload runs the script once; the result or exception is `UserDataResult` |
| UserData.MultipartSinglePartResult | cloudbaseinit/tests/plugins/windows/test_userdata.py:83-104 | A single-part multipart payload returns that part's result, reboot flag included, or raises its exception, dispatched against an empty table |
| UserData.NonMultipartResult | cloudbaseinit/tests/plugins/windows/test_userdata.py:94-96 | A non-multipart payload's result is the script's result, normalised (`None` becomes DONE) |
| UserData.ProcessNonMultiPart | cloudbaseinit/tests/plugins/windows/test_userdata.py:224-231 | The script is executed once with the payload and its result normalised |
| UserData.Normalise | cloudbaseinit/tests/plugins/windows/test_userdata.py:151-155 | `None` becomes `(DONE, False)`; a plugin's result is kept |
| UserData.AggregateReboot | cloudbaseinit/tests/plugins/windows/test_userdata.py:84-93 | The run reboots if and only if some part asked for a reboot |
| UserData.AggregateStatus | cloudbaseinit/tests/plugins/windows/test_userdata.py:84-93 | The run asks for the next boot if and only if some part did |
| UserData.AggregateSingle | cloudbaseinit/tests/plugins/windows/test_userdata.py:84-93 | One part's result is returned unchanged |
| UserData.AggregateIgnoresDone | cloudbaseinit/tests/plugins/windows/test_userdata.py:84-93 | A part that is done without reboot does not change the run's result |
| UserData.Walk.constructor | cloudbaseinit/tests/plugins/windows/test_userdata.py:91-92 | A walk starts with the registry and an empty handler table `{}` and no calls |
| UserData.DispatchPart | cloudbaseinit/tests/plugins/windows/test_userdata.py:114-155 | What `_process_part` does to the table, the calls it makes, and its result or exception; DispatchPartRouting states how it routes a part |
| UserData.DispatchPartRouting | cloudbaseinit/tests/plugins/windows/test_userdata.py:114-155 | A part a declared handler claims goes to that handler only, with its content type, filename and payload; otherwise a built-in plugin that owns the type is called first; a part neither knows is ignored. Only the part-handler plugin changes the table, and only by adding or replacing entries; a plugin that raises leaves it as it was, and the exception names the part |
| UserData.WalkParts | cloudbaseinit/tests/plugins/windows/test_userdata.py:84-93 | Without an exception there is one result per part; with one, the exception is the part after the last result |
| UserData.AddHandlers | cloudbaseinit/tests/plugins/windows/test_userdata.py:176-197 | Installing only adds content types, never one a built-in plugin owns, with at most one begin event per declaration |
| UserData.Walk.ProcessPart | cloudbaseinit/tests/plugins/windows/test_userdata.py:114-155 | The table, log and result or exception are exactly those `DispatchPart` gives, and the lifecycle invariant is kept |
| UserData.BuiltinPrecedence | cloudbaseinit/tests/plugins/windows/test_userdata.py:145-155 | Whatever earlier parts declared, a part whose content type a built-in plugin owns reaches that plugin; any plugin but the part-handler one has its result normalised and returned, or its exception passed on |
| UserData.UnknownPartScenario | cloudbaseinit/tests/plugins/windows/test_userdata.py:145-146 | A part that neither the table nor the registry knows is ignored: no call, empty table, DONE |
| UserData.DeclaredHandlerScenario | cloudbaseinit/tests/plugins/windows/test_userdata.py:132-204 | A declared handler is installed, sent its begin event, then the later part `(None, ct, filename, payload)`, and at the end exactly one end event |
| UserData.ArgsRoundTrip | cloudbaseinit/tests/plugins/windows/test_userdata.py:139-141 | Handlers decode every call the engine makes back into the event it stands for (begin, end, or a part's content type, filename and payload) |
| UserData.Args | cloudbaseinit/tests/plugins/windows/test_userdata.py:206-218 | Begin is `(None, "__begin__", None, None)`, end is `(None, "__end__", None, None)`, a part is `(None, ct, filename, payload)` |
| UserData.Walk.BeginPartProcessEvent | cloudbaseinit/tests/plugins/windows/test_userdata.py:206-211 | Exactly one call `handler(None, "__begin__", None, None)`; the table is unchanged |
| UserData.Walk.EndPartProcessEvent | cloudbaseinit/tests/plugins/windows/test_userdata.py:213-218 | Exactly one call `handler(None, "__end__", None, None)`; the table is unchanged |
| UserData.Walk.AddPartHandlers | cloudbaseinit/tests/plugins/windows/test_userdata.py:176-197 | The table and log become those of the fold `AddHandlers`, keeping the lifecycle invariant |
| UserData.AddHandlersPrecedence | cloudbaseinit/tests/plugins/windows/test_userdata.py:184-204 | Declarations add exactly the content types no built-in plugin owns; entries for owned types are left as they were |
| UserData.AddHandlersOnlyBegins | cloudbaseinit/tests/plugins/windows/test_userdata.py:194-197 | Every call made while installing is a begin event to an accepted handler |
| UserData.AddHandlersBeginCount | cloudbaseinit/tests/plugins/windows/test_userdata.py:194-204 | One begin event per declaration whose content type no plugin owns, none for the others |
| UserData.AddHandlersBeginsInstalled | cloudbaseinit/tests/plugins/windows/test_userdata.py:194-197 | Every handler installed or replaced has received its begin event |
| UserData.AddHandlersKeepsInvariant | cloudbaseinit/tests/plugins/windows/test_userdata.py:184-197 | Installing keeps the table off owned content types and every handler begun before it is sent a part |
| UserData.DispatchKeepsInvariant | cloudbaseinit/tests/plugins/windows/test_userdata.py:132-155 | Dispatching one part keeps the walk's invariant |
| UserData.WalkKeepsInvariant | cloudbaseinit/tests/plugins/windows/test_userdata.py:88-93 | After any walk, no handler serves an owned type, every handler in the table was begun, and no part reaches a handler before its begin event; without an exception there is one result per part, and with one the walk stopped at the part after the last result |
| UserData.WalkStopsAtFailure | cloudbaseinit/tests/plugins/windows/test_userdata.py:88-93 | Once a plugin has raised, later parts change nothing: the exception propagates |
| UserData.PluginFailureAbortsWalk | cloudbaseinit/tests/plugins/windows/test_userdata.py:145-155 | A plugin that raises is the last call of the walk: the calls before it stand and no later part reaches a handler or plugin |
| UserData.EmptyWalk | cloudbaseinit/tests/plugins/windows/test_userdata.py:88-93 | A walk over no parts makes no calls and is done |
| UserData.SinglePartWalk | cloudbaseinit/tests/plugins/windows/test_userdata.py:88-93 | A walk over one part is that part dispatched against the empty table: its result, or its exception |
| UserData.Walk.EndAll | cloudbaseinit/tests/plugins/windows/test_userdata.py:75-76 | Each entry in the table gets exactly one end event, to its handler, in some order; as many end events as entries, and nothing else is called |
| UserData.EndsForOne | cloudbaseinit/tests/plugins/windows/test_userdata.py:213-218 | With one entry, the end events are its handler's single `__end__` call |
| FileUtil.SafeInt | cloudbaseinit/utils/file.py:49-53 | `None` gives `None`, the TypeError being swallowed; an int gives itself; a `str` gives what `int` reads from it, as ParseIntAccepts and ParseIntShape state |
| FileUtil.ParseInt | cloudbaseinit/utils/file.py:51 | A blank string does not parse |
| FileUtil.ParseIntAccepts | cloudbaseinit/utils/file.py:51 | Blanks, an optional `+` or `-`, blanks, at least one digit, then blanks: such a string converts, to the signed value of its digits |
| FileUtil.ParseIntShape | cloudbaseinit/utils/file.py:51 | Conversely, every string that converts has that shape, and its value is the signed value of its digits |
| FileUtil.ParseIntRejects | cloudbaseinit/utils/file.py:49-53 | A string holding any character other than a digit, a sign or whitespace, or holding no digit, does not convert, so `safe_int` gives `None` |
| FileUtil.SafeIntRoundTrip | cloudbaseinit/utils/file.py:49-53 | Any integer written by `str`, with any surrounding whitespace, converts back to itself |
| FileUtil.ParseSignedOfStr | cloudbaseinit/utils/file.py:51 | The signed-number parser reads back every integer `str` writes, negative ones included |
| FileUtil.DecimalRoundTrip | cloudbaseinit/utils/file.py:51 | The digits of a natural number denote that number |
| FileUtil.ParseDigits | cloudbaseinit/utils/file.py:51 | A digit string parses if and only if it is non-empty and all ASCII digits |
| FileUtil.Chmod | cloudbaseinit/utils/file.py:44-47 | `os.chmod` is called with the converted mode exactly when the path is non-empty and the mode converts to a non-zero int |
| FileUtil.ChmodDefaultModeSkips | cloudbaseinit/utils/file.py:36-47 | The default mode `None` never changes permissions |
| FileUtil.EnsureDirAsWritten | cloudbaseinit/utils/file.py:36-42 | As written: the directories are unchanged and the chmod is applied on both branches |
| FileUtil.EnsureDirAsWrittenLeavesDirMissing | cloudbaseinit/utils/file.py:37-39 | As written, a missing directory stays missing |
| FileUtil.EnsureDir | cloudbaseinit/utils/file.py:36-42 | As intended: the directory exists afterwards, no other directory changes, and the same chmod is applied |
| FileUtil.EnsureDirSameChmod | cloudbaseinit/utils/file.py:36-42 | Both branches apply the same permissions |
| FileUtil.PipeInOut | cloudbaseinit/utils/file.py:55-67 | Writes the concatenation of the chunks up to the first empty read, returns the sum of their lengths, and reports the running total after each chunk when a callback is given |
| FileUtil.RunningTotalsIncrease | cloudbaseinit/utils/file.py:63-65 | The totals reported grow strictly and the last is the total returned |
| FileUtil.ConcatLength | cloudbaseinit/utils/file.py:62-67 | The count returned is the length of what was written |
| FileUtil.FirstEmpty | cloudbaseinit/utils/file.py:57-60 | The loop stops at the first empty read: every chunk before it is non-empty |
| FileUtil.RunningTotals | cloudbaseinit/utils/file.py:63-65 | The k-th report is the number of bytes piped after the k-th chunk |
| FileUtil.ConcatChunks | cloudbaseinit/utils/file.py:55-67 | Reading a file in chunks of any positive size and concatenating them gives the file back |
| FileUtil.ChunksOf | cloudbaseinit/utils/file.py:58 | Reads return non-empty chunks of at most the chunk size |
| FileUtil.PipeCopiesFile | cloudbaseinit/utils/file.py:55-67 | Whatever the chunk size, copying a regular file reaches its end and writes its contents whole |
| FileUtil.LoadFile | cloudbaseinit/utils/file.py:90-103 | An IOError is re-raised unless `quiet` is set and errno is ENOENT; otherwise the contents read so far are returned |
| FileUtil.LoadMissingFile | cloudbaseinit/utils/file.py:96-103 | A missing file reads as empty under `quiet`; without `quiet`, or with another errno, it raises |
| FileUtil.NormaliseUrl | cloudbaseinit/utils/file.py:72-74 | The result never starts with whitespace; a URL whose stripped form starts with `/` becomes `file://` followed by that stripped form; any other URL is just stripped |
| FileUtil.NormaliseUrlIdempotent | cloudbaseinit/utils/file.py:72-74 | Rewriting an already rewritten URL changes nothing |
| FileUtil.RouteOf | cloudbaseinit/utils/file.py:72-81 | A URL goes to the file system if and only if the rewritten URL passes the case-insensitive `file://` test; the path is what follows the 7 scheme characters; a network URL is the input with leading whitespace stripped |
| FileUtil.AbsolutePathIsFile | cloudbaseinit/utils/file.py:72-79 | An absolute path is read from that path, unchanged |
| FileUtil.FileSchemeIgnoresCase | cloudbaseinit/utils/file.py:75-78 | Any spelling of `file://` in upper or lower case leads to the file named by the rest |
| FileUtil.ReadFileOrUrl | cloudbaseinit/utils/file.py:69-88 | A network URL is answered by `readurl` alone, and raises exactly when `readurl` raises; a file URL never reaches it and yields a `FileResponse` of the loaded contents, or raises the IOError's errno exactly when `load_file` does |
| FileUtil.StringResponse | cloudbaseinit/utils/file.py:109-114 | Code defaults to 200, headers are empty, url is `None` |
| FileUtil.FileResponse | cloudbaseinit/utils/file.py:124-127 | A `StringResponse` whose url is the given path |
| FileUtil.ResponseOkDefault | cloudbaseinit/utils/file.py:116-119 | `ok()` holds if and only if the code is 200, and holds for the default code |
| FileUtil.HashBlob | cloudbaseinit/utils/file.py:129-137 | The result is a prefix of the digest: all of it without `mlen`, else `digest[0:mlen]` with Python's slice rules for negative or oversized `mlen` |
| UrlDownload.UrlsOf | cloudbaseinit/plugins/windows/userdataplugins/urldownload.py:68-73 | At most one URL per line, each non-empty and without surrounding whitespace |
| UrlDownload.UrlOfLine | cloudbaseinit/plugins/windows/userdataplugins/urldownload.py:70-75 | A line yields a URL if and only if its raw first character is not `#` and it is not blank; the URL is the stripped line |
| UrlDownload.IndentedHashIsNotComment | cloudbaseinit/plugins/windows/userdataplugins/urldownload.py:71-73 | `"  #x"` is fetched as `#x`, and `"#x"` is a comment |
| UrlDownload.UrlsOfAppend | cloudbaseinit/plugins/windows/userdataplugins/urldownload.py:70-75 | The URLs of a payload are those of its lines, in order |
| UrlDownload.UrlsOfUrlLines | cloudbaseinit/plugins/windows/userdataplugins/urldownload.py:70-75 | A list of URL lines is its own URL list |
| UrlDownload.UrlOfUrlLine | cloudbaseinit/plugins/windows/userdataplugins/urldownload.py:71-75 | A URL line is fetched as written |
| UrlDownload.IncludeListRoundTrip | cloudbaseinit/plugins/windows/userdataplugins/urldownload.py:67-75 | A payload written one URL per line yields exactly those URLs |
| UrlDownload.DoInclude | cloudbaseinit/plugins/windows/userdataplugins/urldownload.py:66-106 | The loop's actions and exception are those of the fold `Include` over the payload's URLs |
| UrlDownload.Include | cloudbaseinit/plugins/windows/userdataplugins/urldownload.py:68-106 | Without an exception every URL was processed without one; an exception is the one some URL raised |
| UrlDownload.IncludeStopsAtError | cloudbaseinit/plugins/windows/userdataplugins/urldownload.py:88-102 | Once a URL raises, no later URL is processed |
| UrlDownload.FetchesFollowUrls | cloudbaseinit/plugins/windows/userdataplugins/urldownload.py:75-78 | Including URLs fetches them in order, each once: all without an error, a non-empty prefix with one |
| UrlDownload.IncludeLine | cloudbaseinit/plugins/windows/userdataplugins/urldownload.py:70-78 | A comment or blank line adds nothing; any other line adds its URL's processing |
| UrlDownload.IncludeEndsAtLine | cloudbaseinit/plugins/windows/userdataplugins/urldownload.py:88-102 | Once a line's URL has raised, the later lines change nothing |
| UrlDownload.PayloadFetches | cloudbaseinit/plugins/windows/userdataplugins/urldownload.py:70-78 | Each URL is fetched once, in input order: all of them, or a prefix when one raises |
| UrlDownload.ProcessUrl | cloudbaseinit/plugins/windows/userdataplugins/urldownload.py:77-105 | A URL's processing starts with its fetch and fetches nothing else |
| UrlDownload.NoResponseNoSave | cloudbaseinit/plugins/windows/userdataplugins/urldownload.py:78-79 | A `None` response saves and unpacks nothing |
| UrlDownload.SaveResponse | cloudbaseinit/plugins/windows/userdataplugins/urldownload.py:81-92 | An empty URL path saves nothing; a URL `urlsplit` rejects raises; otherwise the response is saved to its file |
| UrlDownload.SaveTo | cloudbaseinit/plugins/windows/userdataplugins/urldownload.py:88-105 | The response is written; it is unpacked if and only if the write succeeded and its content type is in `DECOMP_TYPES`; the archive is then removed whether or not unpacking worked; write and unpack failures are raised |
| UrlDownload.IsArchive | cloudbaseinit/plugins/windows/userdataplugins/urldownload.py:94-95 | The test `content_type in DECOMP_TYPES` on the `content-type` header; what follows from it is stated by SaveTo and FileUrlNeverUnzips |
| UrlDownload.FileUrlNeverUnzips | cloudbaseinit/plugins/windows/userdataplugins/urldownload.py:94-95 | A response read from a file has no content type, so it is never unpacked |
| UrlDownload.DestDirUnderTmp | cloudbaseinit/plugins/windows/userdataplugins/urldownload.py:83 | The download directory is `openstack` inside the temporary directory |
| UrlDownload.LocalFilename | cloudbaseinit/plugins/windows/userdataplugins/urldownload.py:85-86 | As intended: the saved file lies directly inside the download directory |
| UrlDownload.LocalFilenameAsWritten | cloudbaseinit/plugins/windows/userdataplugins/urldownload.py:85-86 | Line 86 as written, `os.path.join(dest_dir, basename(url_path))`; LocalFilenameAgrees, DriveLetterNameEscapes and DriveLetterSameDrive state where it agrees with LocalFilename and where it does not |
| UrlDownload.LocalFilenameInDir | cloudbaseinit/plugins/windows/userdataplugins/urldownload.py:85-86 | In a directory without a trailing separator, the file is the directory, one separator and the base name |
| UrlDownload.SavedUnderDownloadDir | cloudbaseinit/plugins/windows/userdataplugins/urldownload.py:81-87 | The saved file is `<tmp>\openstack\<basename of the URL path>` |
| UrlDownload.LocalFilenameAgrees | cloudbaseinit/plugins/windows/userdataplugins/urldownload.py:85-86 | Where the basename has no drive letter, the code as written saves to that same file |
| UrlDownload.DriveLetterNameEscapes | cloudbaseinit/plugins/windows/userdataplugins/urldownload.py:85-86 | As written, a last segment `x:name` on another drive is saved to `x:name`, outside the download directory |
| UrlDownload.DriveLetterSameDrive | cloudbaseinit/plugins/windows/userdataplugins/urldownload.py:85-86 | As written, a last segment `x:name` on the temporary directory's own drive is saved as `<tmp>\openstack\name`, losing `x:`; the intended file is `<tmp>\openstack\x:name` |
| UrlDownload.DriveLetterUrlEscapes | cloudbaseinit/plugins/windows/userdataplugins/urldownload.py:82-86 | `http://host/d:evil` with temporary directory `c:\temp` is saved as `d:evil` |
| UrlDownload.Process | cloudbaseinit/plugins/windows/userdataplugins/urldownload.py:62-64 | `process` includes the payload; it raises exactly when the include raised, and otherwise returns `None`, which normalises to `(DONE, False)`; this is what the registered plugin returns |
| UrlDownload.Plugin | cloudbaseinit/plugins/windows/userdataplugins/urldownload.py:55-62 | The registered plugin is a leaf plugin that never returns a result other than `None`; it raises exactly when the include raises, as Process states |
| UrlDownload.UrlDownloadPartOutcome | cloudbaseinit/plugins/windows/userdataplugins/urldownload.py:62-64 | A URL-include part that no declared handler claims is processed by the plugin; the part is done when every URL was included, and otherwise its exception ends the walk |
| PyText.StripPadded | cloudbaseinit/plugins/windows/userdataplugins/urldownload.py:73 | `strip()` removes exactly the surrounding whitespace |
| PyText.SplitJoinLines | cloudbaseinit/plugins/windows/userdataplugins/urldownload.py:70 | `splitlines()` gives back the lines a payload was joined from |
| PyPath.HttpUrlPath | cloudbaseinit/plugins/windows/userdataplugins/urldownload.py:82 | `urlsplit(url)[2]` of `http://host/path?query#fragment` is `/path` |
| PyPath.BasenameAfterSep | cloudbaseinit/plugins/windows/userdataplugins/urldownload.py:85 | `basename` of a path ending in `\name` or `/name` is `name` |
| PyPath.JoinComponent | cloudbaseinit/plugins/windows/userdataplugins/urldownload.py:83 | Joining a drive directory and a plain name puts exactly one separator between them |
| PyPath.WithComponentIsDriveDir | cloudbaseinit/plugins/windows/userdataplugins/urldownload.py:83 | A drive directory joined with a plain name is again a drive directory, not ending in a separator |
| PyPath.SplitDrive | cloudbaseinit/plugins/windows/userdataplugins/urldownload.py:85-86 | The drive and the rest make up the path; a drive is the two characters `x:`; a plain name has no drive |
| PyPath.TailStart | cloudbaseinit/plugins/windows/userdataplugins/urldownload.py:85 | The tail starts after the last separator and holds none |
| PyPath.Basename | cloudbaseinit/plugins/windows/userdataplugins/urldownload.py:85 | The base name is the longest suffix of the path after its drive that holds no separator |
| PyPath.UrlPath | cloudbaseinit/plugins/windows/userdataplugins/urldownload.py:82 | `urlsplit` raises exactly when the URL has a network location with unbalanced brackets; otherwise the path is the text after the network location up to the first `?` or `#` |
| PyPath.PathRest | cloudbaseinit/plugins/windows/userdataplugins/urldownload.py:82 | The text after the scheme is `//`, the network location, then this rest; without `//` it is all rest |
| PyPath.SplitNetloc | cloudbaseinit/plugins/windows/userdataplugins/urldownload.py:82 | The network location runs from `//` to the first `/`, `?` or `#` |
| PyPath.PathPart | cloudbaseinit/plugins/windows/userdataplugins/urldownload.py:82 | The path is the longest prefix before a `?` or `#` |
| PyText.Strip | cloudbaseinit/plugins/windows/userdataplugins/urldownload.py:73 | The stripped text neither starts nor ends with whitespace, and is empty exactly when the line is blank |
| PyText.Lower | cloudbaseinit/utils/file.py:75 | Lower-casing maps each character, changing only `A`-`Z` |
| PyText.SplitLines | cloudbaseinit/plugins/windows/userdataplugins/urldownload.py:70 | No line holds a line break, and only the empty text has no lines |
| PyText.SplitLinesOne | cloudbaseinit/plugins/windows/userdataplugins/urldownload.py:70 | Text without a line break is one line |
| PyText.SplitLinesCons | cloudbaseinit/plugins/windows/userdataplugins/urldownload.py:70 | A line followed by `\n`, `\r\n`, or a `\r` not followed by `\n`, is split off before the lines of the rest |
| PyPath.Join | cloudbaseinit/plugins/windows/userdataplugins/urldownload.py:83-86 | `ntpath.join` of two paths; JoinComponent, JoinOtherDrive and JoinSameDrive state its result for a drive directory and a name |
| PyPath.JoinOtherDrive | cloudbaseinit/plugins/windows/userdataplugins/urldownload.py:86 | Joining a name on another drive drops the directory |
| PyPath.JoinSameDrive | cloudbaseinit/plugins/windows/userdataplugins/urldownload.py:86 | Joining a name on the directory's own drive drops the drive letter and appends the rest |

## Left out

- MIME parsing (`email.message_from_string(...).walk()`) is not modelled: the parts arrive as
  an already-parsed sequence, a parameter of the environment.
- The metadata service is not modelled: its answer is the input `UserDataFetch`.
- Script execution is not modelled: `execute_user_data_script` is the function parameter
  `runScript`.
- Plugin discovery and loading the plugins once per run are not modelled: the registry is a
  given immutable map.
- The SSH-key and cloud-boot-hook plugins are not modelled: they are file-writing and
  OS-utility plumbing.
- Logging is not modelled anywhere.
- A handler that raises is not modelled: handler calls are recorded and do not fail.
- UserData.DispatchPart: an exception from a built-in plugin propagates out of `_process_part`
  and ends the walk. `userdata.py` is not part of this model, and its tests do not settle this.
  The only evidence is the branch at `test_userdata.py:135-137`, written for a handler that is
  `Exception` but never exercised. It expects `_process_part` to return normally after reading
  the part's content type and filename a second time, which points to a `try`/`except` that
  logs the exception and carries on with the next part. The model does not follow that
  reading. Under catch-and-log, a raising part would yield no result, and the later parts and
  the end events would still run.
- UserData.Walk.ProcessPart: raises as UserData.DispatchPart does, not catch-and-log.
- UrlDownload.UrlDownloadPartOutcome: the include's exception ends the walk, as
  UserData.DispatchPart, not catch-and-log.
- UserData.ProcessNonMultiPart: the script runner `runScript` does not raise; an exception from
  running the script is not modelled.
- `userdata.py` itself is not part of this model. The engine follows the behaviour its tests
  assert.
- The fold over several parts' results is not asserted by the source. `Aggregate` is the
  chosen fold: next boot wins, reboot is an OR.
- UserData.Walk.EndAll: the order of the end events is left open, because the order in which a
  dict is walked is not specified. The unit of both events is the table entry: a handler
  declared for k content types is begun k times and ended k times. A handler displaced from the
  table by a later declaration for the same content type was begun and gets no end event.
- The network fetch (`url_helper.readurl`, with its timeout, retries, SSL details and headers
  callback) is a function parameter. The `data` argument, and the warning it causes for file
  URLs, are not modelled.
- Filesystem effects are not modelled: `open`, `os.makedirs`, `os.chmod`, writing a file,
  `unzip_archive`, `os.remove` and `tempfile.gettempdir`. They become recorded actions, or
  success flags and answers that are parameters.
- `load_file`'s `read_cb` is not modelled. Its chunk size is the default and is not modelled.
- In the plugin, the content of the saved file is the response's contents; `str(resp)` is not
  modelled separately.
- Hashing is not modelled: `hashlib` is a foreign call, so the digest is an input string and
  only the truncation is modelled.
- FileUtil.SafeInt: floats, booleans, `long` and bases other than 10 are not modelled. The value
  is `None`, an int or a `str`, and `str` parsing accepts ASCII decimal digits only.
- UrlDownload.ProcessUrl: the response's headers are a plain map looked up with the lower-case
  key `content-type`. The case-insensitive lookup of the real headers object is not modelled.
- UrlDownload.SavePath: the file is placed at the corrected `LocalFilename` (see Findings), not at
  `os.path.join(dest_dir, file_name)` as line 86 writes it. The two differ only for a base name
  that starts with a drive letter (`DriveLetterNameEscapes`, `DriveLetterSameDrive`).
- UrlDownload.SaveResponse: saves to the corrected path, as UrlDownload.SavePath.
- UrlDownload.ProcessUrl: saves to the corrected path, as UrlDownload.SavePath.
- UrlDownload.DoInclude: saves to the corrected path, as UrlDownload.SavePath.
- UrlDownload.Process: saves to the corrected path, as UrlDownload.SavePath.
- PyPath.Join: it models `ntpath.join` of Python 2.7.8 and later with two arguments. Earlier
  2.7 releases do not treat a second path on another drive letter specially.
- PyPath.Basename: `..` and `.` components are not resolved, as in `ntpath`.
- PyPath.UrlPath: only the path component of `urlsplit` is modelled. The scheme cache and the
  `netloc` checks beyond bracket balance are not modelled.

## Findings

| source | as written | input that shows it | evidently intended | confidence | as-written member | corrected member |
|---|---|---|---|---|---|---|
| cloudbaseinit/utils/file.py:37-39 | `ensure_dir` on a missing directory only calls `chmod`, although its comment says "Make the dir" | `ensure_dir("C:\\Temp\\openstack")` when that directory does not exist: it still does not exist afterwards | create the missing directory, then set its mode | medium, not executed (`write_file` creates the directory itself before calling `ensure_dir`) | FileUtil.EnsureDirAsWrittenLeavesDirMissing | FileUtil.EnsureDir |
| cloudbaseinit/plugins/windows/userdataplugins/urldownload.py:85-86 | the local file is `os.path.join(dest_dir, os.path.basename(url_path))`; with `ntpath`, a base name starting with another drive letter replaces `dest_dir` | `http://host/d:evil` with temporary directory `c:\temp` is saved as `d:evil`, on drive D, outside `c:\temp\openstack` | save every download inside the download directory | medium, not executed | UrlDownload.DriveLetterNameEscapes | UrlDownload.SavedUnderDownloadDir |
| cloudbaseinit/plugins/windows/userdataplugins/urldownload.py:85-86 | the same `os.path.join`; with `ntpath`, a base name starting with the temporary directory's own drive letter loses that letter | `http://host/c:foo` with temporary directory `c:\temp` is saved as `c:\temp\openstack\foo`, not as the base name `c:foo` | save the download under its base name inside the download directory | medium, not executed | UrlDownload.DriveLetterSameDrive | UrlDownload.SavedUnderDownloadDir |
