/**
 * The file and URL helpers of cloudbaseinit/utils/file.py: the integer
 * conversion behind `chmod`, the chunked copy loop, the rewriting that sends
 * a URL either to the local file system or to the network, the error policy
 * of `load_file`, the response records and the digest truncation. The
 * effects themselves (opening files, `os.chmod`, the network fetch, hashing)
 * are parameters or results here.
 */
module FileUtil {
  import opened Wrappers
  import opened PyText

  // ---------------------------------------------------------------------
  // safe_int
  // ---------------------------------------------------------------------

  /** The Python values `safe_int` and `chmod` are handed (modes are ints or `None`). */
  datatype PyValue = PyNone | PyInt(i: int) | PyStr(s: string)

  predicate IsDigit(c: char)
  {
    '0' <= c <= '9'
  }

  predicate AllDigits(s: string)
  {
    forall k :: 0 <= k < |s| ==> IsDigit(s[k])
  }

  function DigitValue(c: char): nat
    requires IsDigit(c)
  {
    c as int - '0' as int
  }

  /** The value of a string of decimal digits, most significant first. */
  function DigitsValue(ds: string): nat
    requires AllDigits(ds)
  {
    if ds == [] then 0 else DigitsValue(ds[..|ds| - 1]) * 10 + DigitValue(ds[|ds| - 1])
  }

  /** The decimal digits of `n`, as Python's `str` writes them. */
  function Decimal(n: nat): (ds: string)
    ensures ds != [] && AllDigits(ds)
    ensures !IsSpace(ds[0]) && !IsSpace(ds[|ds| - 1])
  {
    if n < 10 then [('0' as int + n) as char]
    else Decimal(n / 10) + [('0' as int + n % 10) as char]
  }

  /** Reading back the digits that `Decimal` writes gives the number. */
  lemma {:induction false} DecimalRoundTrip(n: nat)
    ensures DigitsValue(Decimal(n)) == n
  {
    if n >= 10 {
      var ds := Decimal(n);
      assert ds[..|ds| - 1] == Decimal(n / 10);
      DecimalRoundTrip(n / 10);
    }
  }

  /** `str(n)` for an integer `n`. */
  function IntToStr(n: int): (s: string)
    ensures s != [] && !IsSpace(s[0]) && !IsSpace(s[|s| - 1])
  {
    if n < 0 then "-" + Decimal(-n) else Decimal(n)
  }

  /** A run of ASCII digits read as a number; anything else is not a number. */
  function ParseDigits(body: string): (r: Option<nat>)
    ensures r.Some? <==> body != [] && AllDigits(body)
  {
    if body != [] && AllDigits(body) then Some(DigitsValue(body)) else None
  }

  /** An optional sign, optional whitespace after it, then digits. */
  function ParseSigned(t: string): Option<int>
  {
    var signed := t != [] && (t[0] == '-' || t[0] == '+');
    var m := ParseDigits(if signed then LStrip(t[1..]) else t);
    if m.None? then None
    else if signed && t[0] == '-' then Some(-(m.value as int))
    else Some(m.value)
  }

  /**
   * Python 2's `int(s)` for a `str`, base 10: surrounding whitespace, an
   * optional sign (whitespace may follow it) and at least one ASCII digit.
   * Anything else raises ValueError, which is `None` here.
   */
  function ParseInt(s: string): (r: Option<int>)
    ensures IsBlank(s) ==> r == None
  {
    ParseSigned(Strip(s))
  }

  /** The characters a base-10 literal may hold: digits, signs and whitespace. */
  predicate IsIntChar(c: char)
  {
    IsDigit(c) || IsSpace(c) || c == '+' || c == '-'
  }

  predicate AllIntChars(x: string)
  {
    forall k :: 0 <= k < |x| ==> IsIntChar(x[k])
  }

  /**
   * The text Python 2's `int` accepts in base 10, cut into its pieces:
   * blanks, an optional sign, blanks, at least one digit, blanks.
   */
  predicate IsIntLiteral(pre: string, sign: string, mid: string, ds: string, post: string)
  {
    && IsBlank(pre) && (sign == "" || sign == "+" || sign == "-") && IsBlank(mid)
    && ds != [] && AllDigits(ds) && IsBlank(post)
  }

  /** The number such a literal denotes. */
  function LiteralValue(sign: string, ds: string): int
    requires AllDigits(ds)
  {
    if sign == "-" then -(DigitsValue(ds) as int) else DigitsValue(ds)
  }

  /** A run of digits, with no sign, reads as its value. */
  lemma ParseSignedDigits(ds: string)
    requires ds != [] && AllDigits(ds)
    ensures ParseSigned(ds) == Some(DigitsValue(ds))
  {
    assert IsDigit(ds[0]);
  }

  lemma DropSign(sign: string, mid: string, ds: string)
    requires |sign| == 1
    ensures (sign + mid + ds)[0] == sign[0] && (sign + mid + ds)[1..] == mid + ds
  {
    assert sign + mid + ds == sign + (mid + ds);
  }

  /** A sign, blanks, then digits, reads as the signed value of the digits. */
  lemma ParseSignedSigned(sign: string, mid: string, ds: string)
    requires (sign == "+" || sign == "-") && IsBlank(mid) && ds != [] && AllDigits(ds)
    ensures ParseSigned(sign + mid + ds) == Some(LiteralValue(sign, ds))
  {
    DropSign(sign, mid, ds);
    assert IsDigit(ds[0]);
    LStripPadded(mid, ds);
  }

  /** Blanks on both sides of text that starts and ends with no whitespace are what `strip` removes. */
  lemma ParseIntPadded(pre: string, x: string, post: string)
    requires IsBlank(pre) && IsBlank(post)
    requires x != [] && !IsSpace(x[0]) && !IsSpace(x[|x| - 1])
    ensures ParseInt(pre + x + post) == ParseSigned(x)
  {
    StripPadded(pre, x, post);
  }

  /** Blanks followed by blanks are blanks. */
  lemma BlankAppend(a: string, b: string)
    requires IsBlank(a) && IsBlank(b)
    ensures IsBlank(a + b)
  {
    forall k | 0 <= k < |a + b| ensures IsSpace((a + b)[k]) {
      if k >= |a| {
        assert (a + b)[k] == b[k - |a|];
      }
    }
  }

  lemma RegroupUnsigned(pre: string, mid: string, ds: string, post: string)
    ensures pre + "" + mid + ds + post == (pre + mid) + ds + post
  {
  }

  lemma ParseIntAcceptsUnsigned(pre: string, sign: string, mid: string, ds: string, post: string)
    requires IsIntLiteral(pre, sign, mid, ds, post) && sign == ""
    ensures ParseInt(pre + sign + mid + ds + post) == Some(LiteralValue(sign, ds))
  {
    assert IsDigit(ds[0]) && IsDigit(ds[|ds| - 1]);
    BlankAppend(pre, mid);
    RegroupUnsigned(pre, mid, ds, post);
    ParseIntPadded(pre + mid, ds, post);
    ParseSignedDigits(ds);
  }

  lemma ParseIntAcceptsSigned(pre: string, sign: string, mid: string, ds: string, post: string)
    requires IsIntLiteral(pre, sign, mid, ds, post) && sign != ""
    ensures ParseInt(pre + sign + mid + ds + post) == Some(LiteralValue(sign, ds))
  {
    assert IsDigit(ds[|ds| - 1]);
    var x := sign + mid + ds;
    assert x[0] == sign[0] && x[|x| - 1] == ds[|ds| - 1];
    Regroup(pre, sign, mid, ds, post);
    ParseIntPadded(pre, x, post);
    ParseSignedSigned(sign, mid, ds);
  }

  /** Every literal of that shape converts, to the number it denotes. */
  lemma ParseIntAccepts(pre: string, sign: string, mid: string, ds: string, post: string)
    requires IsIntLiteral(pre, sign, mid, ds, post)
    ensures ParseInt(pre + sign + mid + ds + post) == Some(LiteralValue(sign, ds))
  {
    if sign == "" {
      ParseIntAcceptsUnsigned(pre, sign, mid, ds, post);
    } else {
      ParseIntAcceptsSigned(pre, sign, mid, ds, post);
    }
  }

  /** The whitespace `strip` removes from the front of `s`. */
  function LeadingBlanks(s: string): string
  {
    s[..|s| - |LStrip(s)|]
  }

  /** The whitespace `strip` removes from the back of `s`. */
  function TrailingBlanks(s: string): string
  {
    LStrip(s)[|Strip(s)|..]
  }

  lemma SplitTwice(s: string, i: nat, j: nat)
    requires i + j <= |s|
    ensures s == s[..i] + s[i..][..j] + s[i..][j..]
  {
    assert s[i..] == s[i..][..j] + s[i..][j..];
    assert s == s[..i] + s[i..];
  }

  /** `strip` cuts a string into blanks, its stripped text, and blanks. */
  lemma StripSplits(s: string)
    ensures IsBlank(LeadingBlanks(s)) && IsBlank(TrailingBlanks(s))
    ensures s == LeadingBlanks(s) + Strip(s) + TrailingBlanks(s)
  {
    var l := LStrip(s);
    var t := Strip(s);
    assert t == l[..|t|];
    SplitTwice(s, |s| - |l|, |t|);
  }

  /** The sign `ParseSigned` reads: the first character when it is `+` or `-`. */
  function SignOf(t: string): string
  {
    if t != [] && (t[0] == '-' || t[0] == '+') then t[..1] else ""
  }

  /** The digits `ParseSigned` reads: what follows the sign and the blanks after it. */
  function DigitsOf(t: string): string
  {
    if t != [] && (t[0] == '-' || t[0] == '+') then LStrip(t[1..]) else t
  }

  /** The blanks between the sign and the digits. */
  function MidOf(t: string): string
  {
    if t != [] && (t[0] == '-' || t[0] == '+') then LeadingBlanks(t[1..]) else ""
  }

  lemma SplitSign(t: string, mid: string, ds: string)
    requires t != [] && t[1..] == mid + ds
    ensures t == t[..1] + mid + ds
  {
    assert t == t[..1] + t[1..];
  }

  lemma ParseSignedShapeSigned(t: string)
    requires t != [] && (t[0] == '-' || t[0] == '+')
    ensures t == SignOf(t) + MidOf(t) + DigitsOf(t)
    ensures SignOf(t) == [t[0]]
  {
    var u := t[1..];
    SplitTwice(u, |u| - |LStrip(u)|, |LStrip(u)|);
    SplitSign(t, MidOf(t), DigitsOf(t));
  }

  /** A signed text that `ParseSigned` reads is its sign, blanks, then digits. */
  lemma ParseSignedShape(t: string)
    requires ParseSigned(t).Some?
    ensures SignOf(t) == "" || SignOf(t) == "+" || SignOf(t) == "-"
    ensures IsBlank(MidOf(t)) && DigitsOf(t) != [] && AllDigits(DigitsOf(t))
    ensures t == SignOf(t) + MidOf(t) + DigitsOf(t)
    ensures ParseSigned(t).value == LiteralValue(SignOf(t), DigitsOf(t))
  {
    if t != [] && (t[0] == '-' || t[0] == '+') {
      ParseSignedShapeSigned(t);
    } else {
      assert t == "" + "" + t;
    }
  }

  lemma Regroup(pre: string, sign: string, mid: string, ds: string, post: string)
    ensures pre + (sign + mid + ds) + post == pre + sign + mid + ds + post
  {
  }

  /** Whatever converts is a literal of that shape, and converts to the number it denotes. */
  lemma ParseIntShape(s: string)
    requires ParseInt(s).Some?
    ensures exists pre, sign, mid, ds, post ::
      && IsIntLiteral(pre, sign, mid, ds, post)
      && s == pre + sign + mid + ds + post
      && ParseInt(s).value == LiteralValue(sign, ds)
  {
    var t := Strip(s);
    StripSplits(s);
    ParseSignedShape(t);
    var pre, post := LeadingBlanks(s), TrailingBlanks(s);
    var sign, mid, ds := SignOf(t), MidOf(t), DigitsOf(t);
    Regroup(pre, sign, mid, ds, post);
    assert IsIntLiteral(pre, sign, mid, ds, post);
    assert s == pre + sign + mid + ds + post;
  }

  lemma AllIntCharsAppend(a: string, b: string)
    requires AllIntChars(a) && AllIntChars(b)
    ensures AllIntChars(a + b)
  {
    forall k | 0 <= k < |a + b| ensures IsIntChar((a + b)[k]) {
      if k >= |a| {
        assert (a + b)[k] == b[k - |a|];
      }
    }
  }

  /**
   * `int` raises ValueError (so `safe_int` gives `None`) on a string that
   * holds a character other than a digit, a sign or whitespace, and on one
   * that holds no digit.
   */
  lemma ParseIntRejects(s: string)
    ensures ParseInt(s).Some? ==> AllIntChars(s)
    ensures ParseInt(s).Some? ==> exists k :: 0 <= k < |s| && IsDigit(s[k])
  {
    if ParseInt(s).Some? {
      ParseIntShape(s);
      var pre, sign, mid, ds, post :| IsIntLiteral(pre, sign, mid, ds, post) && s == pre + sign + mid + ds + post;
      AllIntCharsAppend(pre, sign);
      AllIntCharsAppend(pre + sign, mid);
      AllIntCharsAppend(pre + sign + mid, ds);
      AllIntCharsAppend(pre + sign + mid + ds, post);
      assert s[|pre + sign + mid|] == ds[0];
    }
  }

  /** `safe_int(v)`: `int(v)`, or `None` where `int` raises ValueError or TypeError. */
  function SafeInt(v: PyValue): (r: Option<int>)
    ensures v.PyNone? ==> r == None
    ensures v.PyInt? ==> r == Some(v.i)
  {
    match v
    case PyNone => None
    case PyInt(i) => Some(i)
    case PyStr(s) => ParseInt(s)
  }

  /** The digits `str` writes for a natural number read back as that number. */
  lemma ParseSignedOfNat(n: nat)
    ensures ParseSigned(IntToStr(n)) == Some(n)
  {
    assert IntToStr(n) == Decimal(n);
    assert IsDigit(Decimal(n)[0]);
    DecimalRoundTrip(n);
  }

  /** A run of digits has no leading whitespace to strip. */
  lemma LStripDigits(ds: string)
    requires ds != [] && IsDigit(ds[0])
    ensures LStrip(ds) == ds
  {
  }

  /** A minus sign followed by digits reads as the negated digits. */
  lemma ParseSignedMinus(t: string)
    requires |t| >= 2 && t[0] == '-' && AllDigits(t[1..])
    ensures ParseSigned(t) == Some(-(DigitsValue(t[1..]) as int))
  {
    LStripDigits(t[1..]);
  }

  /** `str` writes a negative number as a minus sign and the digits of its magnitude. */
  lemma IntToStrNegative(n: int)
    requires n < 0
    ensures |IntToStr(n)| >= 2 && IntToStr(n)[0] == '-' && IntToStr(n)[1..] == Decimal(-n)
  {
  }

  /** The minus sign and digits `str` writes for a negative number read back as that number. */
  lemma ParseSignedOfNegative(n: int)
    requires n < 0
    ensures ParseSigned(IntToStr(n)) == Some(n)
  {
    var t := IntToStr(n);
    assert |t| >= 2 && t[0] == '-' && AllDigits(t[1..]) && DigitsValue(t[1..]) == -n by {
      IntToStrNegative(n);
      DecimalRoundTrip(-n);
    }
    ParseSignedMinus(t);
  }

  /** The sign and digits `str` writes read back as the number. */
  lemma ParseSignedOfStr(n: int)
    ensures ParseSigned(IntToStr(n)) == Some(n)
  {
    if n < 0 {
      ParseSignedOfNegative(n);
    } else {
      ParseSignedOfNat(n);
    }
  }

  /** Any integer written out by `str`, with any surrounding whitespace, converts back to itself. */
  lemma SafeIntRoundTrip(n: int, pre: string, post: string)
    requires IsBlank(pre) && IsBlank(post)
    ensures SafeInt(PyStr(pre + IntToStr(n) + post)) == Some(n)
  {
    StripPadded(pre, IntToStr(n), post);
    ParseSignedOfStr(n);
  }

  // ---------------------------------------------------------------------
  // chmod and ensure_dir
  // ---------------------------------------------------------------------

  /**
   * `chmod(path, mode)`: the mode `os.chmod` is called with, or `None` when
   * the guard skips the call.
   */
  function Chmod(path: string, mode: PyValue): (applied: Option<int>)
    ensures applied.Some? ==> path != [] && applied == SafeInt(mode) && applied.value != 0
    ensures applied.None? ==> path == [] || SafeInt(mode).None? || SafeInt(mode) == Some(0)
  {
    var realMode := SafeInt(mode);
    if path != [] && realMode.Some? && realMode.value != 0 then realMode else None
  }

  /** The default mode `None` never changes permissions, whatever the path. */
  lemma ChmodDefaultModeSkips(path: string)
    ensures Chmod(path, PyNone) == None
  {
  }

  /** What `ensure_dir` leaves behind: the directories that exist, and the chmod it applied. */
  datatype DirOutcome = DirOutcome(dirs: set<string>, chmod: Option<int>)

  /**
   * `ensure_dir(path, mode)` as written: the branch for a missing directory
   * is commented "Make the dir" but, like the other branch, only calls chmod.
   */
  function EnsureDirAsWritten(dirs: set<string>, path: string, mode: PyValue): (o: DirOutcome)
    ensures o.dirs == dirs
    ensures o.chmod == Chmod(path, mode)
  {
    if path !in dirs then DirOutcome(dirs, Chmod(path, mode)) else DirOutcome(dirs, Chmod(path, mode))
  }

  /** As written, `ensure_dir` on a missing directory leaves it missing. */
  lemma EnsureDirAsWrittenLeavesDirMissing()
    ensures "C:\\Temp\\openstack" !in EnsureDirAsWritten({}, "C:\\Temp\\openstack", PyNone).dirs
  {
  }

  /** `ensure_dir` as its comments intend: create a missing directory, then chmod it. */
  function EnsureDir(dirs: set<string>, path: string, mode: PyValue): (o: DirOutcome)
    ensures path in o.dirs && o.dirs - {path} == dirs - {path}
    ensures o.chmod == Chmod(path, mode)
  {
    if path !in dirs then DirOutcome(dirs + {path}, Chmod(path, mode)) else DirOutcome(dirs, Chmod(path, mode))
  }

  /** Both branches of `ensure_dir` apply the same permissions. */
  lemma EnsureDirSameChmod(dirs: set<string>, path: string, mode: PyValue)
    ensures EnsureDir(dirs, path, mode).chmod == EnsureDir(dirs - {path}, path, mode).chmod
    ensures EnsureDir(dirs, path, mode).chmod == EnsureDir(dirs + {path}, path, mode).chmod
  {
  }

  // ---------------------------------------------------------------------
  // pipe_in_out
  // ---------------------------------------------------------------------

  /** The position of the first empty read (end of file), or `|chunks|` if none is empty. */
  function FirstEmpty(chunks: seq<string>): (k: nat)
    ensures k <= |chunks|
    ensures forall j :: 0 <= j < k ==> chunks[j] != []
    ensures k < |chunks| ==> chunks[k] == []
  {
    if chunks == [] || chunks[0] == [] then 0 else 1 + FirstEmpty(chunks[1..])
  }

  /** The chunks written one after the other. */
  function Concat(chunks: seq<string>): string
  {
    if chunks == [] then [] else Concat(chunks[..|chunks| - 1]) + chunks[|chunks| - 1]
  }

  /** The sum of the chunks' lengths. */
  function TotalLength(chunks: seq<string>): nat
  {
    if chunks == [] then 0 else TotalLength(chunks[..|chunks| - 1]) + |chunks[|chunks| - 1]|
  }

  /** The running totals passed to the callback: one after each chunk. */
  function RunningTotals(chunks: seq<string>): (totals: seq<nat>)
    ensures |totals| == |chunks|
    ensures forall k :: 0 <= k < |chunks| ==> totals[k] == TotalLength(chunks[..k + 1])
  {
    if chunks == [] then []
    else
      var init := chunks[..|chunks| - 1];
      var totals := RunningTotals(init) + [TotalLength(chunks)];
      assert chunks[..|chunks|] == chunks;
      assert forall k :: 0 <= k < |init| ==> totals[k] == TotalLength(chunks[..k + 1]) by {
        forall k | 0 <= k < |init| ensures totals[k] == TotalLength(chunks[..k + 1]) {
          assert init[..k + 1] == chunks[..k + 1];
        }
      }
      totals
  }

  /** The count the loop returns is the length of what it wrote. */
  lemma {:induction false} ConcatLength(chunks: seq<string>)
    ensures |Concat(chunks)| == TotalLength(chunks)
  {
    if chunks != [] {
      ConcatLength(chunks[..|chunks| - 1]);
    }
  }

  /** With no empty chunk, the callback sees a strictly growing total that ends at the sum. */
  lemma {:induction false} RunningTotalsIncrease(chunks: seq<string>)
    requires forall k :: 0 <= k < |chunks| ==> chunks[k] != []
    ensures forall i, j :: 0 <= i < j < |chunks| ==> RunningTotals(chunks)[i] < RunningTotals(chunks)[j]
    ensures chunks != [] ==> RunningTotals(chunks)[|chunks| - 1] == TotalLength(chunks)
  {
    if chunks != [] {
      var init := chunks[..|chunks| - 1];
      RunningTotalsIncrease(init);
      var t := RunningTotals(chunks);
      assert t[..|init|] == RunningTotals(init);
      assert chunks[..|chunks|] == chunks;
      forall i | 0 <= i < |init| ensures t[i] < t[|init|] {
        assert chunks[..i + 1] == init[..i + 1];
        if i + 1 < |init| {
          assert t[i] < t[|init| - 1];
        }
        assert init[..|init|] == init;
      }
    }
  }

  /**
   * `pipe_in_out(in_fh, out_fh, chunk_size, chunk_cb)`. `chunks` are the
   * successive results of `in_fh.read(chunk_size)` (once they run out, every
   * read returns ''). Returns the count, the text written to `out_fh`, and the
   * totals handed to `chunk_cb` when there is one.
   */
  method PipeInOut(chunks: seq<string>, hasCallback: bool) returns (bytesPiped: nat, written: string, reported: seq<nat>)
    ensures written == Concat(chunks[..FirstEmpty(chunks)])
    ensures bytesPiped == TotalLength(chunks[..FirstEmpty(chunks)]) == |written|
    ensures reported == if hasCallback then RunningTotals(chunks[..FirstEmpty(chunks)]) else []
  {
    bytesPiped, written, reported := 0, [], [];
    var i := 0;
    while true
      invariant i <= FirstEmpty(chunks)
      invariant written == Concat(chunks[..i])
      invariant bytesPiped == TotalLength(chunks[..i])
      invariant reported == if hasCallback then RunningTotals(chunks[..i]) else []
      decreases FirstEmpty(chunks) - i
    {
      var data := if i < |chunks| then chunks[i] else [];
      if data == [] {
        break;
      }
      assert chunks[..i + 1][..i] == chunks[..i];
      written := written + data;
      bytesPiped := bytesPiped + |data|;
      if hasCallback {
        reported := reported + [bytesPiped];
      }
      i := i + 1;
    }
    ConcatLength(chunks[..i]);
  }

  /** The chunks `read(size)` returns from a regular file holding `data`, up to end of file. */
  function ChunksOf(data: string, size: nat): (chunks: seq<string>)
    requires size > 0
    ensures forall k :: 0 <= k < |chunks| ==> 0 < |chunks[k]| <= size
    decreases |data|
  {
    if data == [] then []
    else if |data| <= size then [data]
    else [data[..size]] + ChunksOf(data[size..], size)
  }

  /** Concatenating onto a front chunk, seen from the other end. */
  lemma {:induction false} ConcatCons(c: string, rest: seq<string>)
    ensures Concat([c] + rest) == c + Concat(rest)
    decreases |rest|
  {
    if rest != [] {
      var all := [c] + rest;
      assert all[..|all| - 1] == [c] + rest[..|rest| - 1];
      ConcatCons(c, rest[..|rest| - 1]);
    }
  }

  /** The chunks of a file, written one after the other, are the file. */
  lemma {:induction false} ConcatChunks(data: string, size: nat)
    requires size > 0
    ensures Concat(ChunksOf(data, size)) == data
    decreases |data|
  {
    if |data| > size {
      ConcatChunks(data[size..], size);
      ConcatCons(data[..size], ChunksOf(data[size..], size));
    } else if data != [] {
      assert Concat([data]) == Concat([]) + data;
    }
  }

  /** Piping a regular file copies its contents whole, whatever the chunk size. */
  lemma PipeCopiesFile(data: string, size: nat)
    requires size > 0
    ensures FirstEmpty(ChunksOf(data, size)) == |ChunksOf(data, size)|
    ensures Concat(ChunksOf(data, size)) == data
  {
    ConcatChunks(data, size);
  }

  // ---------------------------------------------------------------------
  // StringResponse, FileResponse
  // ---------------------------------------------------------------------

  /** The accessors shared by `StringResponse`, `FileResponse` and the network responses. */
  datatype Response = Response(code: int, headers: map<string, string>, contents: string, url: Option<string>)

  /** `StringResponse(contents, code=200)`. */
  function StringResponse(contents: string, code: int := 200): (r: Response)
    ensures r.code == code && r.contents == contents
    ensures r.headers == map[] && r.url == None
  {
    Response(code, map[], contents, None)
  }

  /** `FileResponse(path, contents, code=200)`: a `StringResponse` whose url is the path. */
  function FileResponse(path: string, contents: string, code: int := 200): (r: Response)
    ensures r.url == Some(path)
    ensures r.code == code && r.contents == contents && r.headers == map[]
  {
    StringResponse(contents, code).(url := Some(path))
  }

  /** `StringResponse.ok()`. */
  predicate ResponseOk(r: Response)
  {
    r.code == 200
  }

  /** A response is ok exactly when its code is 200, and the default code is 200. */
  lemma ResponseOkDefault(contents: string, path: string, code: int)
    ensures ResponseOk(StringResponse(contents)) && ResponseOk(FileResponse(path, contents))
    ensures ResponseOk(StringResponse(contents, code)) <==> code == 200
    ensures ResponseOk(FileResponse(path, contents, code)) <==> code == 200
  {
  }

  // ---------------------------------------------------------------------
  // load_file
  // ---------------------------------------------------------------------

  const ENOENT: int := 2

  /**
   * What reading a file yields: the successive `read` results (`chunks`), and the errno
   * of the IOError raised once they run out without an end of file (`None`:
   * they end normally). A file that cannot be opened is `FileRead([], Some(errno))`.
   */
  datatype FileRead = FileRead(chunks: seq<string>, failure: Option<int>)

  /** True when the copy loop reaches the IOError rather than an end of file. */
  predicate Raises(f: FileRead)
  {
    FirstEmpty(f.chunks) == |f.chunks| && f.failure.Some?
  }

  /**
   * `load_file(fname, quiet)`: the contents copied, or the IOError's errno
   * when it is re-raised. Only a missing file (ENOENT) under `quiet` is
   * swallowed, and then what was read so far is returned.
   */
  function LoadFile(f: FileRead, quiet: bool): (r: Result<string, int>)
    ensures r.Failure? <==> Raises(f) && !(quiet && f.failure.value == ENOENT)
    ensures r.Failure? ==> r.error == f.failure.value
    ensures r.Success? ==> r.value == Concat(f.chunks[..FirstEmpty(f.chunks)])
  {
    var got := Concat(f.chunks[..FirstEmpty(f.chunks)]);
    if Raises(f) && (!quiet || f.failure.value != ENOENT) then Failure(f.failure.value) else Success(got)
  }

  /** A file that does not exist reads as empty under `quiet`, and raises otherwise. */
  lemma LoadMissingFile(errno: int)
    ensures LoadFile(FileRead([], Some(ENOENT)), true) == Success([])
    ensures LoadFile(FileRead([], Some(errno)), false) == Failure(errno)
    ensures errno != ENOENT ==> LoadFile(FileRead([], Some(errno)), true) == Failure(errno)
  {
  }

  // ---------------------------------------------------------------------
  // read_file_or_url
  // ---------------------------------------------------------------------

  const FileScheme: string := "file://"

  /** Where `read_file_or_url` sends a URL: the local file at `path`, or `readurl(url)`. */
  datatype Route = FileRoute(path: string) | NetworkRoute(url: string)

  /** The URL after leading whitespace is dropped and a bare absolute path becomes a file URL. */
  function NormaliseUrl(url: string): (u: string)
    ensures |u| > 0 ==> !IsSpace(u[0])
    ensures "/" <= LStrip(url) ==> FileScheme <= u && u[|FileScheme|..] == LStrip(url)
    ensures !("/" <= LStrip(url)) ==> u == LStrip(url)
  {
    var s := LStrip(url);
    if "/" <= s then FileScheme + s else s
  }

  /** Normalising a URL a second time changes nothing. */
  lemma NormaliseUrlIdempotent(url: string)
    ensures NormaliseUrl(NormaliseUrl(url)) == NormaliseUrl(url)
  {
    var u := NormaliseUrl(url);
    if u != [] {
      LStripPadded([], u);
      assert [] + u == u;
    }
  }

  /** `url.lower().startswith("file://")`. */
  predicate HasFileScheme(u: string)
  {
    FileScheme <= Lower(u)
  }

  /** A URL that starts with the file scheme, lower-case, passes the file test. */
  lemma FileSchemePrefixed(s: string)
    ensures HasFileScheme(FileScheme + s)
  {
    LowerAppend(FileScheme, s);
    assert Lower(FileScheme) == FileScheme;
  }

  /** The decision `read_file_or_url` makes before it reads anything. */
  function RouteOf(url: string): (r: Route)
    ensures r.FileRoute? <==> HasFileScheme(NormaliseUrl(url))
    ensures r.FileRoute? ==> NormaliseUrl(url) == NormaliseUrl(url)[..|FileScheme|] + r.path
    ensures r.NetworkRoute? ==> r.url == LStrip(url) && !("/" <= r.url)
  {
    var u := NormaliseUrl(url);
    if "/" <= LStrip(url) then
      FileSchemePrefixed(LStrip(url));
      FileRoute(u[|FileScheme|..])
    else if HasFileScheme(u) then FileRoute(u[|FileScheme|..]) else NetworkRoute(u)
  }

  /** An absolute path (after leading whitespace) is read from the file system, unchanged. */
  lemma AbsolutePathIsFile(url: string)
    requires "/" <= LStrip(url)
    ensures RouteOf(url) == FileRoute(LStrip(url))
  {
    var u := FileScheme + LStrip(url);
    assert u[|FileScheme|..] == LStrip(url);
  }

  /** A URL that starts with neither whitespace nor `/` is not rewritten. */
  lemma NormaliseUrlKeeps(u: string)
    requires u != [] && !IsSpace(u[0]) && u[0] != '/'
    ensures LStrip(u) == u && NormaliseUrl(u) == u
  {
    LStripPadded([], u);
    assert [] + u == u;
  }

  /** Any spelling of `file://` in upper or lower case passes the file test. */
  lemma AnyCaseFileScheme(scheme: string, rest: string)
    requires |scheme| == |FileScheme| && Lower(scheme) == FileScheme
    ensures HasFileScheme(scheme + rest)
  {
    LowerAppend(scheme, rest);
    assert Lower(scheme + rest)[..|FileScheme|] == FileScheme;
  }

  /** Only `f` and `F` lower-case to `f`. */
  lemma SchemeStartsWithF(scheme: string)
    requires |scheme| == |FileScheme| && Lower(scheme) == FileScheme
    ensures scheme[0] == 'f' || scheme[0] == 'F'
  {
    assert LowerChar(scheme[0]) == 'f';
  }

  /** A URL left as it is by the rewriting and carrying the file scheme is a file path. */
  lemma RouteOfFileUrl(u: string)
    requires LStrip(u) == u && !("/" <= u) && HasFileScheme(u)
    ensures RouteOf(u) == FileRoute(u[|FileScheme|..])
  {
  }

  /** A URL that starts with a spelling of the file scheme is not rewritten. */
  lemma SchemeUrlKept(scheme: string, rest: string)
    requires |scheme| == |FileScheme| && Lower(scheme) == FileScheme
    ensures LStrip(scheme + rest) == scheme + rest && !("/" <= scheme + rest)
  {
    var u := scheme + rest;
    SchemeStartsWithF(scheme);
    assert u[0] == scheme[0];
    NormaliseUrlKeeps(u);
  }

  /** The `file://` test ignores case: any spelling of the scheme leads to the file system. */
  lemma FileSchemeIgnoresCase(scheme: string, rest: string)
    requires |scheme| == |FileScheme| && Lower(scheme) == FileScheme
    ensures RouteOf(scheme + rest) == FileRoute(rest)
  {
    SchemeUrlKept(scheme, rest);
    AnyCaseFileScheme(scheme, rest);
    RouteOfFileUrl(scheme + rest);
    assert (scheme + rest)[|scheme|..] == rest;
  }

  /** Why `read_file_or_url` raised: the `IOError` of `load_file`, or whatever `readurl` raised. */
  datatype ReadError = IoError(errno: int) | UrlError(message: string)

  /**
   * `read_file_or_url(url)`, with the file system's answer (`open`) and
   * `url_helper.readurl` as parameters. A file URL is answered by `load_file`
   * (not quiet) and never reaches `readurl`; any other URL goes to `readurl`
   * with only its leading whitespace removed.
   */
  function ReadFileOrUrl(url: string, open: string -> FileRead, readurl: string -> Result<Option<Response>, string>): (r: Result<Option<Response>, ReadError>)
    ensures RouteOf(url).NetworkRoute? ==> var answer := readurl(RouteOf(url).url);
      && (r.Failure? <==> answer.Failure?)
      && (answer.Success? ==> r == Success(answer.value))
      && (answer.Failure? ==> r.error == UrlError(answer.error))
    ensures RouteOf(url).FileRoute? ==> var path := RouteOf(url).path;
      && (r.Failure? <==> Raises(open(path)))
      && (r.Failure? ==> r.error == IoError(open(path).failure.value))
      && (r.Success? ==> r.value == Some(FileResponse(path, Concat(open(path).chunks[..FirstEmpty(open(path).chunks)]))))
  {
    match RouteOf(url)
    case FileRoute(path) =>
      (match LoadFile(open(path), false)
       case Success(contents) => Success(Some(FileResponse(path, contents)))
       case Failure(errno) => Failure(IoError(errno)))
    case NetworkRoute(u) =>
      (match readurl(u)
       case Success(resp) => Success(resp)
       case Failure(message) => Failure(UrlError(message)))
  }

  // ---------------------------------------------------------------------
  // hash_blob
  // ---------------------------------------------------------------------

  /** Where Python's slice `s[0:stop]` ends, for a string of length `len`. */
  function SliceStop(len: nat, stop: int): (e: nat)
    ensures e <= len
    ensures 0 <= stop ==> e == if stop < len then stop else len
    ensures stop < 0 ==> e == if len + stop < 0 then 0 else len + stop
  {
    if stop < 0 then (if len + stop < 0 then 0 else len + stop)
    else if stop < len then stop else len
  }

  /**
   * `hash_blob(blob, routine, mlen)` with `digest` the hex digest `hashlib`
   * computes: the digest cut to `digest[0:mlen]`, or whole when `mlen` is `None`.
   */
  function HashBlob(digest: string, mlen: Option<int>): (r: string)
    ensures r <= digest
    ensures mlen.None? ==> r == digest
    ensures mlen.Some? && 0 <= mlen.value ==> |r| == if mlen.value < |digest| then mlen.value else |digest|
    ensures mlen.Some? && mlen.value < 0 ==> |r| == if |digest| + mlen.value < 0 then 0 else |digest| + mlen.value
  {
    match mlen
    case None => digest
    case Some(m) => digest[..SliceStop(|digest|, m)]
  }
}
