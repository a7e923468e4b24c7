/** The string transforms of the photo data layer: JavaScript's
    `lastIndexOf` and `substr`, the basename that the delete handler
    recovers from a webview path, the decimal rendering of a timestamp and
    the `<timestamp>.<format>` file name given to a captured photo. */
module Paths {
  import opened Wrappers

  /** `s.lastIndexOf(c)`: the last index holding `c`, or -1 when `c` does
      not occur in `s`. */
  function LastIndexOf(s: string, c: char): (r: int)
    ensures -1 <= r < |s|
    ensures r == -1 <==> c !in s
    ensures 0 <= r ==> s[r] == c && forall j :: r < j < |s| ==> s[j] != c
  {
    LastIndexBefore(s, c, |s|)
  }

  /** The last index below `end` holding `c`, or -1 when there is none;
      the scan runs from `end - 1` down to 0. */
  function LastIndexBefore(s: string, c: char, end: nat): (r: int)
    requires end <= |s|
    ensures -1 <= r < end
    ensures r == -1 <==> forall j :: 0 <= j < end ==> s[j] != c
    ensures 0 <= r ==> s[r] == c && forall j :: r < j < end ==> s[j] != c
  {
    if end == 0 then -1
    else if s[end - 1] == c then end - 1
    else LastIndexBefore(s, c, end - 1)
  }

  /** `s.substr(start)` with the length omitted: a negative start counts
      back from the end (clamped at 0), a start past the end gives "". */
  function Substr(s: string, start: int): (r: string)
    ensures |r| <= |s| && r == s[|s| - |r|..]
    ensures 0 <= start <= |s| ==> |r| == |s| - start
    ensures start < 0 ==> |r| == if -start <= |s| then -start else |s|
    ensures start > |s| ==> r == ""
  {
    var from :=
      if start < 0 then (if |s| + start < 0 then 0 else |s| + start)
      else if start > |s| then |s|
      else start;
    s[from..]
  }

  /** The file name the delete handler recovers from a webview path: the
      text after the last '/', a suffix of the path. */
  function Basename(path: string): (r: string)
    ensures |r| <= |path| && r == path[|path| - |r|..]
    ensures '/' !in path ==> r == path
  {
    Substr(path, LastIndexOf(path, '/') + 1)
  }

  /** The basename is the longest suffix free of '/': it holds no '/', and
      unless it is the whole path, a '/' stands just before it. */
  lemma BasenameIsLastSegment(path: string)
    ensures '/' !in Basename(path)
    ensures '/' in path ==> |Basename(path)| < |path| && path[|path| - |Basename(path)| - 1] == '/'
  {
  }

  /** A name with no '/' joined under any prefix is recovered exactly. */
  lemma BasenameOfJoin(prefix: string, name: string)
    requires '/' !in name
    ensures Basename(prefix + "/" + name) == name
  {
    var path := prefix + "/" + name;
    var r := Basename(path);
    BasenameIsLastSegment(path);
    assert path[|prefix|] == '/';
    assert |r| == |name|;
    assert path[|path| - |name|..] == name;
  }

  predicate IsDigit(c: char) {
    '0' <= c <= '9'
  }

  predicate AllDigits(s: string) {
    forall i :: 0 <= i < |s| ==> IsDigit(s[i])
  }

  function DigitChar(d: nat): (c: char)
    requires d < 10
    ensures IsDigit(c)
  {
    ('0' as int + d) as char
  }

  function DigitValue(c: char): (d: nat)
    requires IsDigit(c)
    ensures d < 10
  {
    c as int - '0' as int
  }

  /** The decimal digits of `n`, most significant first, with no leading
      zero. */
  function Digits(n: nat): (r: string)
    ensures |r| >= 1 && AllDigits(r)
    ensures |r| > 1 ==> r[0] != '0'
    decreases n
  {
    if n < 10 then [DigitChar(n)]
    else Digits(n / 10) + [DigitChar(n % 10)]
  }

  /** The string JavaScript makes of an integral number when it is
      concatenated with a string: an optional '-' and the decimal digits. */
  function DecimalString(t: int): (r: string)
    ensures '.' !in r && '/' !in r
  {
    if t < 0 then "-" + Digits(-t) else Digits(t)
  }

  /** The value of a string of decimal digits, the inverse of Digits. */
  function DigitsValue(s: string): nat
    requires AllDigits(s)
  {
    if s == [] then 0
    else DigitsValue(s[..|s| - 1]) * 10 + DigitValue(s[|s| - 1])
  }

  /** Reads an optional '-' followed by at least one decimal digit. */
  function ParseDecimal(s: string): Option<int> {
    if |s| > 1 && s[0] == '-' && AllDigits(s[1..]) then Some(0 - DigitsValue(s[1..]) as int)
    else if |s| > 0 && AllDigits(s) then Some(DigitsValue(s))
    else None
  }

  lemma {:induction false} DigitsRoundTrip(n: nat)
    ensures DigitsValue(Digits(n)) == n
    decreases n
  {
    if n >= 10 {
      var d := Digits(n);
      assert d[..|d| - 1] == Digits(n / 10);
      DigitsRoundTrip(n / 10);
    }
  }

  /** The timestamp written into a file name can be read back from it. */
  lemma DecimalRoundTrip(t: int)
    ensures ParseDecimal(DecimalString(t)) == Some(t)
  {
    var s := DecimalString(t);
    if t < 0 {
      assert s[0] == '-' && s[1..] == Digits(-t);
      DigitsRoundTrip(-t);
    } else {
      assert IsDigit(s[0]);
      DigitsRoundTrip(t);
    }
  }

  /** The name a captured photo is stored under in the Data directory:
      the decimal timestamp, then ".", then the capture format. */
  function FileName(now: int, format: string): (r: string)
    ensures '/' in r <==> '/' in format
  {
    DecimalString(now) + "." + format
  }

  /** Splitting at the first '.' recovers both halves of a join. */
  lemma SplitAtFirstDot(a: string, b: string, c: string, d: string)
    requires '.' !in a && '.' !in c
    requires a + "." + b == c + "." + d
    ensures a == c && b == d
  {
    var s := a + "." + b;
    assert s[|a|] == '.';
    assert (c + "." + d)[|c|] == '.';
    assert |a| == |c|;
    assert a == s[..|a|];
    assert c == s[..|c|];
    assert b == s[|a| + 1..];
    assert d == (c + "." + d)[|c| + 1..];
  }

  /** Photos captured at different instants get different file names,
      whatever their formats. */
  lemma FileNameInjective(t1: int, f1: string, t2: int, f2: string)
    requires FileName(t1, f1) == FileName(t2, f2)
    ensures t1 == t2 && f1 == f2
  {
    SplitAtFirstDot(DecimalString(t1), f1, DecimalString(t2), f2);
    DecimalRoundTrip(t1);
    DecimalRoundTrip(t2);
  }

  /** The webview path of a file in the Data directory:
      `Capacitor.convertFileSrc` of the URI that `Filesystem.getUri` gives
      for `name`, i.e. the webview form of the directory, then '/', then
      the name. */
  function WebviewPath(dataDirSrc: string, name: string): (r: string)
    ensures |r| > |name| && r[|r| - |name| - 1] == '/'
    ensures r[|r| - |name|..] == name
  {
    dataDirSrc + "/" + name
  }

  /** The file the delete handler removes is the file the capture stored:
      the basename of a captured photo's webview path is its file name. */
  lemma CapturedFileRecovered(dataDirSrc: string, now: int, format: string)
    requires '/' !in format
    ensures Basename(WebviewPath(dataDirSrc, FileName(now, format))) == FileName(now, format)
  {
  }
}
