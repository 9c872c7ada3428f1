/** How both CV upload handlers name a stored file: the millisecond
    timestamp in decimal (JavaScript's `${timestamp}`), a hyphen, then the
    name the browser sent; the public locator is that name under
    `/uploads/cvs/`. */
module CvLocator {
  import opened Common
  import opened Seqs

  // ---------------------------------------------------------------- decimal

  predicate IsDigit(c: char) {
    '0' <= c <= '9'
  }

  predicate AllDigits(s: string) {
    forall i :: 0 <= i < |s| ==> IsDigit(s[i])
  }

  function DigitChar(d: nat): (c: char)
    requires d < 10
    ensures IsDigit(c) && (c as int) - ('0' as int) == d
  {
    ('0' as int + d) as char
  }

  function DigitValue(c: char): (d: nat)
    requires IsDigit(c)
    ensures d < 10 && DigitChar(d) == c
  {
    (c as int) - ('0' as int)
  }

  /** The decimal rendering of a non-negative integer, without leading
      zeros. */
  function Decimal(n: nat): (s: string)
    ensures s != [] && AllDigits(s)
    ensures |s| > 1 ==> s[0] != '0'
  {
    if n < 10 then [DigitChar(n)]
    else Decimal(n / 10) + [DigitChar(n % 10)]
  }

  /** The value of a string of decimal digits. */
  function ParseDecimal(s: string): nat
    requires AllDigits(s)
  {
    if s == [] then 0
    else 10 * ParseDecimal(s[..|s| - 1]) + DigitValue(s[|s| - 1])
  }

  lemma {:induction false} DecimalRoundTrip(n: nat)
    ensures ParseDecimal(Decimal(n)) == n
  {
    if n >= 10 {
      DecimalRoundTrip(n / 10);
      var s := Decimal(n);
      assert s[..|s| - 1] == Decimal(n / 10);
    }
  }

  /** Different timestamps render differently. */
  lemma DecimalInjective(a: nat, b: nat)
    requires Decimal(a) == Decimal(b)
    ensures a == b
  {
    DecimalRoundTrip(a);
    DecimalRoundTrip(b);
  }

  // ---------------------------------------------------------------- names

  /** The `file` entry of an upload form: the browser's file name, its
      MIME type (`file.type`) and its size in bytes.  The bytes themselves
      are not modelled. */
  datatype FormFile = FormFile(name: string, mimeType: string, size: nat)

  const UploadDir: string := "/uploads/cvs/"

  /** The stored name of an upload: the timestamp's digits, a hyphen,
      then the browser's file name, unchanged. */
  function StoredName(timestamp: nat, originalName: string): (r: string)
    ensures |r| > |originalName| + 1
    ensures r[|r| - |originalName|..] == originalName && r[|r| - |originalName| - 1] == '-'
    ensures AllDigits(r[..|r| - |originalName| - 1])
  {
    Decimal(timestamp) + "-" + originalName
  }

  /** The public locator of a stored name: the name, whole, under the
      upload directory. */
  function FileUrl(storedName: string): (r: string)
    ensures UploadDir <= r && r[|UploadDir|..] == storedName
  {
    UploadDir + storedName
  }

  /** Reads a stored name back into its timestamp and original name: the
      text before the first hyphen must be a decimal number. */
  function SplitStoredName(s: string): Option<(nat, string)> {
    match FindFirst(s, c => c == '-')
    case None => None
    case Some(k) =>
      if k > 0 && AllDigits(s[..k]) then Some((ParseDecimal(s[..k]), s[k + 1..]))
      else None
  }

  /** The stored name keeps both the timestamp and the whole original
      name: it can be read back. */
  lemma StoredNameRoundTrip(timestamp: nat, originalName: string)
    ensures SplitStoredName(StoredName(timestamp, originalName)) == Some((timestamp, originalName))
  {
    var d := Decimal(timestamp);
    var s := StoredName(timestamp, originalName);
    assert s[|d|] == '-';
    assert forall k :: 0 <= k < |d| ==> s[k] == d[k] && s[k] != '-';
    var f := FindFirst(s, c => c == '-');
    assert f == Some(|d|);
    assert s[..|d|] == d;
    assert s[|d| + 1..] == originalName;
    DecimalRoundTrip(timestamp);
  }

  /** Two uploads get the same stored name only when both the timestamp
      and the original name coincide. */
  lemma StoredNameCollision(t1: nat, n1: string, t2: nat, n2: string)
    ensures StoredName(t1, n1) == StoredName(t2, n2) <==> t1 == t2 && n1 == n2
  {
    if StoredName(t1, n1) == StoredName(t2, n2) {
      StoredNameRoundTrip(t1, n1);
      StoredNameRoundTrip(t2, n2);
    }
  }

  /** The locator lies under the upload directory and ends with the name
      the browser sent. */
  lemma FileUrlShape(timestamp: nat, originalName: string)
    ensures var url := FileUrl(StoredName(timestamp, originalName));
            UploadDir <= url &&
            |url| > |UploadDir| + |originalName| &&
            url[|url| - |originalName|..] == originalName
  {
    var url := FileUrl(StoredName(timestamp, originalName));
    assert url == (UploadDir + Decimal(timestamp) + "-") + originalName;
  }
}
