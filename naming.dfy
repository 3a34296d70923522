/**
 * The naming rules of the downloader and the converter: the zero-padded page index,
 * the last '/'-separated segment of a page URL, the page file name built from both,
 * and the `.png` name the converter writes for an entry.
 */
module Naming {

  // ---------------------------------------------------------------------------
  // Decimal text (strconv.Itoa) and its reading back
  // ---------------------------------------------------------------------------

  function Digit(n: nat): (c: char)
    requires n < 10
    ensures '0' <= c <= '9'
  {
    ('0' as int + n) as char
  }

  predicate IsDigit(c: char) {
    '0' <= c <= '9'
  }

  predicate IsDecimal(s: string) {
    forall i :: 0 <= i < |s| ==> IsDigit(s[i])
  }

  /** The decimal digits of `n`, most significant first. */
  function DecimalDigits(n: nat): string {
    if n < 10 then [Digit(n)] else DecimalDigits(n / 10) + [Digit(n % 10)]
  }

  /**
   * The digits of `n` are at least one decimal digit, exactly one for 0..9, and start with
   * '0' only for 0 itself.
   */
  lemma {:induction false} DecimalDigitsShape(n: nat)
    ensures var r := DecimalDigits(n);
      && |r| >= 1 && IsDecimal(r)
      && (|r| == 1 <==> n < 10)
      && (r[0] == '0' ==> n == 0)
  {
    if n >= 10 {
      DecimalDigitsShape(n / 10);
      var r := DecimalDigits(n);
      assert r[0] == DecimalDigits(n / 10)[0];
    }
  }

  /** `strconv.Itoa`: a '-' sign for negative numbers, then the digits. */
  function Itoa(n: int): string {
    if n < 0 then "-" + DecimalDigits(-n) else DecimalDigits(n)
  }

  /** The value of a string of decimal digits; leading zeros are allowed. */
  function ValueOf(s: string): nat
    requires IsDecimal(s)
  {
    if s == [] then 0 else ValueOf(s[..|s| - 1]) * 10 + (s[|s| - 1] as int - '0' as int)
  }

  /** Reading the digits of `n` back gives `n`. */
  lemma {:induction false} DecimalRoundTrip(n: nat)
    ensures IsDecimal(DecimalDigits(n))
    ensures ValueOf(DecimalDigits(n)) == n
  {
    DecimalDigitsShape(n);
    if n >= 10 {
      var s := DecimalDigits(n);
      assert s[..|s| - 1] == DecimalDigits(n / 10);
      DecimalRoundTrip(n / 10);
    }
  }

  // ---------------------------------------------------------------------------
  // NormalizeOneDigitNumber
  // ---------------------------------------------------------------------------

  /** Pads 0..9 (and, as the code is written, every negative number) with a leading '0'. */
  function NormalizeOneDigitNumber(order: int): string {
    if order < 10 then "0" + Itoa(order) else Itoa(order)
  }

  /**
   * 0..9 become '0' and the digit; 10 and up stay plain decimal of two or more digits with
   * no leading zero; a negative number becomes "0-" and its digits.
   */
  lemma NormalizeShape(order: int)
    ensures var r := NormalizeOneDigitNumber(order);
      && (0 <= order <= 9 ==> r == ['0', Digit(order)])
      && (order >= 10 ==> IsDecimal(r) && |r| >= 2 && r[0] != '0')
      && (order < 0 ==> r == "0-" + DecimalDigits(-order))
  {
    if order >= 10 {
      DecimalDigitsShape(order);
    } else if order < 0 {
      assert "0" + Itoa(order) == "0-" + DecimalDigits(-order);
    }
  }

  /** For every index the padded text is decimal and reads back as the index. */
  lemma NormalizeRoundTrip(n: nat)
    ensures IsDecimal(NormalizeOneDigitNumber(n))
    ensures ValueOf(NormalizeOneDigitNumber(n)) == n
  {
    var r := NormalizeOneDigitNumber(n);
    if n < 10 {
      assert r[..1] == "0" && r[..1][..0] == [];
      assert ValueOf(r[..1]) == 0;
    } else {
      DecimalRoundTrip(n);
    }
  }

  /** Distinct indices are padded to distinct texts. */
  lemma NormalizeInjective(i: nat, j: nat)
    requires i != j
    ensures NormalizeOneDigitNumber(i) != NormalizeOneDigitNumber(j)
  {
    NormalizeRoundTrip(i);
    NormalizeRoundTrip(j);
  }

  /** Indices 0..99 are exactly the ones padded to two characters: tens digit, units digit. */
  lemma NormalizeTwoDigits(n: nat)
    ensures n <= 99 ==> NormalizeOneDigitNumber(n) == [Digit(n / 10), Digit(n % 10)]
    ensures |NormalizeOneDigitNumber(n)| == 2 <==> n <= 99
  {
    if 10 <= n {
      assert DecimalDigits(n) == DecimalDigits(n / 10) + [Digit(n % 10)];
    }
  }

  // ---------------------------------------------------------------------------
  // strings.Split on a one-character separator, and lastString
  // ---------------------------------------------------------------------------

  /** `strings.Split(s, [sep])`: the pieces between separators; "" gives one empty piece. */
  function Split(s: string, sep: char): (r: seq<string>)
    ensures |r| >= 1
    ensures forall i :: 0 <= i < |r| ==> sep !in r[i]
  {
    if s == [] then [[]]
    else
      var init := Split(s[..|s| - 1], sep);
      if s[|s| - 1] == sep then init + [[]]
      else init[..|init| - 1] + [init[|init| - 1] + [s[|s| - 1]]]
  }

  /** `strings.Join(ss, [sep])`. */
  function Join(ss: seq<string>, sep: char): string
    requires |ss| >= 1
  {
    if |ss| == 1 then ss[0] else Join(ss[..|ss| - 1], sep) + [sep] + ss[|ss| - 1]
  }

  /** Splitting loses nothing: joining the pieces with the separator gives the input back. */
  lemma {:induction false} SplitJoin(s: string, sep: char)
    ensures Join(Split(s, sep), sep) == s
  {
    if s != [] {
      var t := s[..|s| - 1];
      var init := Split(t, sep);
      SplitJoin(t, sep);
      var c := s[|s| - 1];
      assert s == t + [c];
      if c == sep {
        assert (init + [[]])[..|init|] == init;
      } else {
        JoinExtendLast(init, sep, [c]);
      }
    }
  }

  /** Extending the last piece extends the joined string. */
  lemma JoinExtendLast(ss: seq<string>, sep: char, x: string)
    requires |ss| >= 1
    ensures Join(ss[..|ss| - 1] + [ss[|ss| - 1] + x], sep) == Join(ss, sep) + x
  {
    var ss' := ss[..|ss| - 1] + [ss[|ss| - 1] + x];
    if |ss| > 1 {
      assert ss'[..|ss'| - 1] == ss[..|ss| - 1];
    }
  }

  /** `lastString`: the last element (Go panics on an empty slice). */
  function LastString(ss: seq<string>): string
    requires |ss| > 0
  {
    ss[|ss| - 1]
  }

  /** The URL basename used for a page: the last '/'-separated segment. */
  function Basename(url: string): string {
    LastString(Split(url, '/'))
  }

  /** Appending a character to a URL: a '/' starts an empty basename, anything else extends it. */
  lemma BasenameSnoc(t: string, c: char)
    ensures Basename(t + [c]) == (if c == '/' then [] else Basename(t) + [c])
  {
    var url := t + [c];
    assert url[..|url| - 1] == t && url[|url| - 1] == c;
  }

  /** The basename is a suffix of the URL without '/'. */
  lemma {:induction false} BasenameSuffix(url: string)
    ensures var b := Basename(url);
      '/' !in b && |b| <= |url| && url[|url| - |b|..] == b
  {
    if url != [] {
      var t, c := url[..|url| - 1], url[|url| - 1];
      assert url == t + [c];
      BasenameSuffix(t);
      BasenameSnoc(t, c);
      if c != '/' {
        var bt := Basename(t);
        assert url[|url| - |bt| - 1..] == t[|t| - |bt|..] + [c];
      }
    }
  }

  /** The basename is the whole URL exactly when the URL has no '/'; otherwise a '/' precedes it. */
  lemma {:induction false} BasenameAfterSlash(url: string)
    ensures var b := Basename(url);
      && |b| <= |url|
      && (|b| == |url| <==> '/' !in url)
      && (|b| < |url| ==> url[|url| - |b| - 1] == '/')
  {
    if url != [] {
      var t, c := url[..|url| - 1], url[|url| - 1];
      assert url == t + [c];
      BasenameAfterSlash(t);
      BasenameSnoc(t, c);
      InSnoc(t, c, '/');
    }
  }

  /** An element is in `t + [c]` exactly when it is in `t` or is `c`. */
  lemma InSnoc<T>(t: seq<T>, c: T, x: T)
    ensures (x in t + [c]) == (x in t || x == c)
  {
    if x in t + [c] {
      var k :| 0 <= k < |t| + 1 && (t + [c])[k] == x;
      assert k < |t| ==> t[k] == x;
    }
  }

  /**
   * The basename is the part after the last '/': a suffix of the URL without '/',
   * the whole URL when it has no '/', and otherwise right after a '/'.
   */
  lemma BasenameIsLastSegment(url: string)
    ensures var b := Basename(url);
      && '/' !in b
      && |b| <= |url| && url == url[..|url| - |b|] + b
      && (|b| == |url| <==> '/' !in url)
      && (|b| < |url| ==> url[|url| - |b| - 1] == '/')
  {
    BasenameSuffix(url);
    BasenameAfterSlash(url);
    var b := Basename(url);
    assert url == url[..|url| - |b|] + url[|url| - |b|..];
  }

  // ---------------------------------------------------------------------------
  // Page file names
  // ---------------------------------------------------------------------------

  /** The name `saveMRI` gives page `index` fetched from `url`. */
  function PageFileName(index: int, url: string): string {
    NormalizeOneDigitNumber(index) + "-" + Basename(url)
  }

  /** Distinct indices give distinct page file names, whatever the two URLs are. */
  lemma PageFileNameInjective(i: nat, j: nat, u: string, v: string)
    requires i != j
    ensures PageFileName(i, u) != PageFileName(j, v)
  {
    var a, b := NormalizeOneDigitNumber(i), NormalizeOneDigitNumber(j);
    var s, t := PageFileName(i, u), PageFileName(j, v);
    NormalizeRoundTrip(i);
    NormalizeRoundTrip(j);
    NormalizeInjective(i, j);
    if |a| < |b| {
      assert s[|a|] == '-' && IsDigit(t[|a|]);
    } else if |b| < |a| {
      assert t[|b|] == '-' && IsDigit(s[|b|]);
    } else {
      assert s[..|a|] == a && t[..|b|] == b;
    }
  }

  /** Go's `<` on strings: lexicographic order. */
  predicate Precedes(a: string, b: string) {
    if |a| == 0 then |b| > 0
    else if |b| == 0 then false
    else if a[0] != b[0] then a[0] < b[0]
    else Precedes(a[1..], b[1..])
  }

  /** A common prefix does not change the order of two strings. */
  lemma {:induction false} PrecedesCommonPrefix(p: string, a: string, b: string)
    ensures Precedes(p + a, p + b) == Precedes(a, b)
  {
    if p != [] {
      assert (p + a)[0] == p[0] == (p + b)[0];
      assert (p + a)[1..] == p[1..] + a;
      assert (p + b)[1..] == p[1..] + b;
      PrecedesCommonPrefix(p[1..], a, b);
      assert Precedes(p + a, p + b) == Precedes((p + a)[1..], (p + b)[1..]);
    } else {
      assert p + a == a && p + b == b;
    }
  }

  /** Up to index 99, page file names sort in index order, whatever the URLs. */
  lemma PageFileNamesOrdered(i: nat, j: nat, u: string, v: string)
    requires i < j <= 99
    ensures Precedes(PageFileName(i, u), PageFileName(j, v))
  {
    NormalizeTwoDigits(i);
    NormalizeTwoDigits(j);
    var s, t := PageFileName(i, u), PageFileName(j, v);
    assert s[0] == Digit(i / 10) && t[0] == Digit(j / 10);
    if i / 10 == j / 10 {
      assert s[1..][0] == Digit(i % 10) && t[1..][0] == Digit(j % 10);
    }
  }

  /** From index 100 on the order breaks: page 100 sorts before page 20. */
  lemma PageFileNamesUnorderedFrom100(u: string, v: string)
    ensures Precedes(PageFileName(100, u), PageFileName(20, v))
  {
    assert DecimalDigits(100) == DecimalDigits(10) + ['0'];
    assert PageFileName(100, u)[0] == '1';
    assert PageFileName(20, v)[0] == '2';
  }

  // ---------------------------------------------------------------------------
  // Converter output name
  // ---------------------------------------------------------------------------

  predicate EndsWith(s: string, suffix: string) {
    |suffix| <= |s| && s[|s| - |suffix|..] == suffix
  }

  /** `strings.TrimSuffix`. */
  function TrimSuffix(s: string, suffix: string): string {
    if EndsWith(s, suffix) then s[..|s| - |suffix|] else s
  }

  /**
   * The file `ConvertMRItoPNG` writes for entry `name` of directory `path`: one trailing
   * ".mri" dropped from `path + name`, then ".png" appended. It never names the input itself.
   */
  function PngName(path: string, name: string): string {
    TrimSuffix(path + name, ".mri") + ".png"
  }

  /**
   * The output ends in ".png"; for an input ending in ".mri" it is the input with ".mri"
   * dropped and ".png" appended, for any other input the whole input and ".png". It is never
   * the input itself.
   */
  lemma PngNameShape(path: string, name: string)
    ensures var src, r := path + name, PngName(path, name);
      && EndsWith(r, ".png")
      && (EndsWith(src, ".mri") ==> r == src[..|src| - 4] + ".png")
      && (!EndsWith(src, ".mri") ==> r == src + ".png")
      && r != src
  {
    var src, r := path + name, PngName(path, name);
    assert r[|r| - 4..] == ".png";
    assert EndsWith(src, ".mri") ==> r[|r| - 1] != src[|src| - 1];
  }

  /** Two directory entries can share one output: "a.mri" and "a" both become "a.png". */
  lemma PngNamesCollide(path: string)
    ensures PngName(path, "a.mri") == PngName(path, "a")
  {
    var src := path + "a.mri";
    assert src[|src| - 4..] == ".mri";
    assert src[..|src| - 4] == path + "a";
    assert !EndsWith(path + "a", ".mri") by {
      var t := path + "a";
      assert t[|t| - 1] == 'a';
      if |t| >= 4 { assert t[|t| - 4..][3] == 'a'; }
    }
  }
}
