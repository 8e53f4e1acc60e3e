/** Names a worker builds from its id and from a task's URL: the decimal rendering of
    integers (Go's `%d`), the display name, the sanitised file-name token, the screenshot
    path, the browser URL and the screen geometry handed to the display server. */
module Naming {

  /** The options that shape names (the delay and the worker count live elsewhere). */
  datatype Config = Config(
    width: int,
    height: int,
    urlPrefix: string,
    urlSuffix: string,
    outputPath: string,
    filenamePrefix: string,
    filenameSuffix: string,
    filenameExtension: string,
    displayNumberOffset: int)

  // ---------------------------------------------------------------------------
  // Decimal rendering of integers, as Go's `%d` verb writes them
  // ---------------------------------------------------------------------------

  predicate IsDigit(c: char) {
    '0' <= c <= '9'
  }

  /** A non-empty string of decimal digits. */
  predicate IsDigits(s: string) {
    |s| >= 1 && forall i :: 0 <= i < |s| ==> IsDigit(s[i])
  }

  function DigitChar(d: nat): (c: char)
    requires d < 10
    ensures IsDigit(c) && c as int - '0' as int == d
  {
    ('0' as int + d) as char
  }

  /** The digits of `n`, most significant first, without leading zeros. */
  function NatToDecimal(n: nat): (r: string)
    ensures IsDigits(r)
    ensures |r| > 1 ==> r[0] != '0'
    decreases n
  {
    if n < 10 then [DigitChar(n)] else NatToDecimal(n / 10) + [DigitChar(n % 10)]
  }

  function DigitValue(c: char): nat
    requires IsDigit(c)
  {
    c as int - '0' as int
  }

  /** The value of a string of decimal digits; the inverse of NatToDecimal. */
  function DecimalValue(s: string): nat
    requires forall i :: 0 <= i < |s| ==> IsDigit(s[i])
    decreases |s|
  {
    if s == [] then 0
    else DecimalValue(s[..|s| - 1]) * 10 + DigitValue(s[|s| - 1])
  }

  lemma {:induction false} NatDecimalRoundTrip(n: nat)
    ensures DecimalValue(NatToDecimal(n)) == n
    decreases n
  {
    if n >= 10 {
      var r := NatToDecimal(n);
      var prefix := NatToDecimal(n / 10);
      assert r[..|r| - 1] == prefix;
      NatDecimalRoundTrip(n / 10);
    }
  }

  /** Go's `%d` of a signed integer: a minus sign before the digits of a negative value. */
  function IntToDecimal(n: int): (r: string)
    ensures IsDigits(r) || (|r| >= 2 && r[0] == '-' && IsDigits(r[1..]))
  {
    if n < 0 then "-" + NatToDecimal(-n) else NatToDecimal(n)
  }

  /** Reads back what IntToDecimal writes. */
  function ParseInt(s: string): int
    requires IsDigits(s) || (|s| >= 2 && s[0] == '-' && IsDigits(s[1..]))
  {
    if s[0] == '-' then -(DecimalValue(s[1..]) as int) else DecimalValue(s)
  }

  lemma IntDecimalRoundTrip(n: int)
    ensures ParseInt(IntToDecimal(n)) == n
  {
    if n < 0 {
      NatDecimalRoundTrip(-n);
      assert IntToDecimal(n)[1..] == NatToDecimal(-n);
    } else {
      NatDecimalRoundTrip(n);
    }
  }

  /** Two integers are rendered alike only when they are equal. */
  lemma IntToDecimalInjective(m: int, n: int)
    requires IntToDecimal(m) == IntToDecimal(n)
    ensures m == n
  {
    IntDecimalRoundTrip(m);
    IntDecimalRoundTrip(n);
  }

  // ---------------------------------------------------------------------------
  // Display names
  // ---------------------------------------------------------------------------

  /** Go's `int` on a 64-bit platform: results of `+` are taken modulo 2^64 into the range
      -2^63 .. 2^63 - 1. */
  const Int64Modulus: int := 0x1_0000_0000_0000_0000
  const Int64Max: int := 0x7FFF_FFFF_FFFF_FFFF

  predicate InInt64(n: int) {
    -(Int64Max + 1) <= n <= Int64Max
  }

  /** Two's-complement wrap-around of an unbounded sum into Go's `int`. */
  function Wrap64(n: int): (r: int)
    ensures InInt64(r)
    ensures InInt64(n) ==> r == n
    ensures (n - r) % Int64Modulus == 0
  {
    (n + Int64Max + 1) % Int64Modulus - (Int64Max + 1)
  }

  /** Values that wrap to the same `int` differ by a multiple of 2^64, so two values closer
      than that wrap to distinct results. */
  lemma Wrap64Injective(m: int, n: int)
    requires m != n && -Int64Modulus < m - n < Int64Modulus
    ensures Wrap64(m) != Wrap64(n)
  {
  }

  /** The X display a worker owns: a colon and the worker id shifted by the offset, the sum
      computed in Go's 64-bit `int`. */
  function DisplayName(id: int, offset: int): (r: string)
    ensures |r| >= 2 && r[0] == ':'
  {
    ":" + IntToDecimal(Wrap64(id + offset))
  }

  /** The display number read back from a display name: the wrapped sum, which is the sum
      itself whenever it fits in 64 bits. */
  lemma DisplayNameRoundTrip(id: int, offset: int)
    ensures var r := DisplayName(id, offset);
            (IsDigits(r[1..]) || (|r[1..]| >= 2 && r[1] == '-' && IsDigits(r[2..])))
            && ParseInt(r[1..]) == Wrap64(id + offset)
            && (InInt64(id + offset) ==> ParseInt(r[1..]) == id + offset)
  {
    var r := DisplayName(id, offset);
    assert r[1..] == IntToDecimal(Wrap64(id + offset));
    assert r[1..][1..] == r[2..];
    IntDecimalRoundTrip(Wrap64(id + offset));
  }

  /** Workers are started with ids 1 to the worker count, itself a Go `int`; distinct ids
      own distinct displays for every offset, wrap-around included. */
  lemma DistinctWorkersDistinctDisplays(i: int, j: int, workerCount: nat, offset: int)
    requires workerCount <= Int64Max
    requires 1 <= i <= workerCount && 1 <= j <= workerCount && i != j
    ensures DisplayName(i, offset) != DisplayName(j, offset)
  {
    if DisplayName(i, offset) == DisplayName(j, offset) {
      assert DisplayName(i, offset)[1..] == IntToDecimal(Wrap64(i + offset));
      assert DisplayName(j, offset)[1..] == IntToDecimal(Wrap64(j + offset));
      IntToDecimalInjective(Wrap64(i + offset), Wrap64(j + offset));
      Wrap64Injective(i + offset, j + offset);
    }
  }

  /** The `WxHx16` screen argument of the display server. */
  function ScreenGeometry(cfg: Config): string {
    IntToDecimal(cfg.width) + "x" + IntToDecimal(cfg.height) + "x16"
  }

  /** A rendered integer holds no `x`. */
  lemma NoXInDecimal(n: int)
    ensures 'x' !in IntToDecimal(n)
  {
    var r := IntToDecimal(n);
    forall i | 0 <= i < |r| ensures r[i] != 'x' {
      if n < 0 && i >= 1 {
        assert r[i] == NatToDecimal(-n)[i - 1];
      }
    }
  }

  /** The geometry splits at its first two `x` into the width and the height, which read
      back as the configured values, followed by the colour depth 16. */
  lemma ScreenGeometryFields(cfg: Config)
    ensures var g := ScreenGeometry(cfg);
            var w := |IntToDecimal(cfg.width)|;
            var h := |IntToDecimal(cfg.height)|;
            |g| == w + h + 4 && g[w] == 'x' && g[w + h + 1] == 'x'
            && 'x' !in g[..w] && 'x' !in g[w + 1..w + h + 1]
            && ParseInt(g[..w]) == cfg.width && ParseInt(g[w + 1..w + h + 1]) == cfg.height
            && g[w + h + 2..] == "16"
  {
    var g := ScreenGeometry(cfg);
    var ws := IntToDecimal(cfg.width);
    var hs := IntToDecimal(cfg.height);
    var w := |ws|;
    var h := |hs|;
    assert g[..w] == ws;
    assert g[w + 1..w + h + 1] == hs;
    assert g[w + h + 2..] == "16";
    NoXInDecimal(cfg.width);
    NoXInDecimal(cfg.height);
    IntDecimalRoundTrip(cfg.width);
    IntDecimalRoundTrip(cfg.height);
  }

  // ---------------------------------------------------------------------------
  // The sanitiser: every maximal run of characters outside [A-Za-z0-9] becomes '-'
  // ---------------------------------------------------------------------------

  /** The characters the sanitiser keeps: ASCII letters and digits. */
  predicate IsAlnum(c: char) {
    'A' <= c <= 'Z' || 'a' <= c <= 'z' || '0' <= c <= '9'
  }

  /** What the sanitiser can produce: letters, digits and hyphens, never two hyphens in a row. */
  predicate IsToken(r: string) {
    (forall i :: 0 <= i < |r| ==> IsAlnum(r[i]) || r[i] == '-') &&
    (forall i :: 0 < i < |r| ==> r[i - 1] != '-' || r[i] != '-')
  }

  /** Sanitises `s`, where `inRun` says that the character just before `s` was already
      part of a replaced run (so a further separator adds nothing). */
  function SanitizeFrom(s: string, inRun: bool): (r: string)
    ensures IsToken(r)
    ensures |r| <= |s|
    ensures inRun ==> r == [] || r[0] != '-'
    decreases |s|
  {
    if s == [] then []
    else if IsAlnum(s[0]) then [s[0]] + SanitizeFrom(s[1..], false)
    else if inRun then SanitizeFrom(s[1..], true)
    else ['-'] + SanitizeFrom(s[1..], true)
  }

  /** The file-name token of a URL. */
  function Sanitize(url: string): (r: string)
    ensures IsToken(r)
    ensures '/' !in r
  {
    var r := SanitizeFrom(url, false);
    assert forall i :: 0 <= i < |r| ==> r[i] != '/' by {
      forall i | 0 <= i < |r| ensures r[i] != '/' {
        assert IsAlnum(r[i]) || r[i] == '-';
      }
    }
    r
  }

  /** The letters and digits of `s`, in order. */
  function Alnums(s: string): (r: string)
    ensures forall i :: 0 <= i < |r| ==> IsAlnum(r[i])
  {
    if s == [] then []
    else (if IsAlnum(s[0]) then [s[0]] else []) + Alnums(s[1..])
  }

  /** `s` with every hyphen deleted. */
  function WithoutHyphens(s: string): string {
    if s == [] then []
    else (if s[0] == '-' then [] else [s[0]]) + WithoutHyphens(s[1..])
  }

  lemma {:induction false} SanitizeFromKeepsAlnums(s: string, inRun: bool)
    ensures WithoutHyphens(SanitizeFrom(s, inRun)) == Alnums(s)
    decreases |s|
  {
    if s != [] {
      SanitizeFromKeepsAlnums(s[1..], !IsAlnum(s[0]));
      var rest := SanitizeFrom(s[1..], !IsAlnum(s[0]));
      if IsAlnum(s[0]) {
        assert ([s[0]] + rest)[1..] == rest;
      } else if !inRun {
        assert (['-'] + rest)[1..] == rest;
      }
    }
  }

  /** Deleting the hyphens of the token leaves exactly the URL's letters and digits, in order. */
  lemma SanitizeKeepsAlnums(url: string)
    ensures WithoutHyphens(Sanitize(url)) == Alnums(url)
  {
    SanitizeFromKeepsAlnums(url, false);
  }

  /** A token is left as it is. */
  lemma {:induction false} TokenIsFixed(r: string)
    requires IsToken(r)
    ensures SanitizeFrom(r, false) == r
    decreases |r|
  {
    if r != [] {
      var t := r[1..];
      assert IsToken(t) by {
        assert forall i :: 0 <= i < |t| ==> t[i] == r[i + 1];
      }
      TokenIsFixed(t);
      if !IsAlnum(r[0]) {
        assert r[0] == '-';
        assert t == [] || IsAlnum(t[0]) by {
          if t != [] {
            assert r[1] == t[0];
          }
        }
        assert r == ['-'] + t;
      } else {
        assert r == [r[0]] + t;
      }
    }
  }

  /** The strings the sanitiser leaves unchanged are exactly the tokens. */
  lemma FixedPointsAreTokens(s: string)
    ensures Sanitize(s) == s <==> IsToken(s)
  {
    if IsToken(s) {
      TokenIsFixed(s);
    }
  }

  /** Sanitising twice is sanitising once. */
  lemma SanitizeIdempotent(url: string)
    ensures Sanitize(Sanitize(url)) == Sanitize(url)
  {
    TokenIsFixed(Sanitize(url));
  }

  /** The token begins with a hyphen exactly when the URL begins with a character that is
      not a letter or digit, and ends with one exactly when the URL ends with such a character. */
  lemma {:induction false} SanitizeFromEnds(s: string, inRun: bool)
    ensures var r := SanitizeFrom(s, inRun);
            (r == []) == (s == [] || (inRun && forall i :: 0 <= i < |s| ==> !IsAlnum(s[i])))
            && (r != [] ==> (r[|r| - 1] == '-' <==> !IsAlnum(s[|s| - 1])))
    decreases |s|
  {
    if s != [] {
      SanitizeFromEnds(s[1..], !IsAlnum(s[0]));
      var rest := SanitizeFrom(s[1..], !IsAlnum(s[0]));
      if s[1..] != [] {
        assert s[|s| - 1] == s[1..][|s[1..]| - 1];
      }
      if IsAlnum(s[0]) {
        assert !(forall i :: 0 <= i < |s| ==> !IsAlnum(s[i])) by {
          assert IsAlnum(s[0]);
        }
      } else if inRun {
        assert (forall i :: 0 <= i < |s| ==> !IsAlnum(s[i]))
          <==> (forall i :: 0 <= i < |s[1..]| ==> !IsAlnum(s[1..][i])) by {
          if forall i :: 0 <= i < |s[1..]| ==> !IsAlnum(s[1..][i]) {
            forall i | 0 <= i < |s| ensures !IsAlnum(s[i]) {
              if i > 0 {
                assert s[i] == s[1..][i - 1];
              }
            }
          }
        }
      }
    }
  }

  lemma SanitizeEnds(url: string)
    ensures var r := Sanitize(url);
            (r == [] <==> url == [])
            && (r != [] ==> (r[0] == '-' <==> !IsAlnum(url[0])))
            && (r != [] ==> (r[|r| - 1] == '-' <==> !IsAlnum(url[|url| - 1])))
  {
    SanitizeFromEnds(url, false);
  }

  // A reference definition in two stages: mask every other character with a hyphen, then
  // squeeze each run of hyphens into one.

  /** `s` with every character that is not a letter or digit replaced by a hyphen. */
  function Mask(s: string): (r: string)
    ensures |r| == |s|
    ensures forall i :: 0 <= i < |s| ==> r[i] == (if IsAlnum(s[i]) then s[i] else '-')
  {
    if s == [] then [] else [if IsAlnum(s[0]) then s[0] else '-'] + Mask(s[1..])
  }

  /** `m` with every run of consecutive hyphens reduced to one hyphen. */
  function Squeeze(m: string): string
    decreases |m|
  {
    if |m| <= 1 then m
    else if m[0] == '-' && m[1] == '-' then Squeeze(m[1..])
    else [m[0]] + Squeeze(m[1..])
  }

  lemma {:induction false} SqueezeKeepsLeadingHyphen(m: string)
    ensures Squeeze(['-'] + m) != [] && Squeeze(['-'] + m)[0] == '-'
    decreases |m|
  {
    if m != [] && m[0] == '-' {
      assert (['-'] + m)[1..] == m;
      assert m == ['-'] + m[1..];
      SqueezeKeepsLeadingHyphen(m[1..]);
    }
  }

  lemma {:induction false} SanitizeFromIsMaskedSqueeze(s: string)
    ensures SanitizeFrom(s, false) == Squeeze(Mask(s))
    ensures SanitizeFrom(s, true) == Squeeze(['-'] + Mask(s))[1..]
    decreases |s|
  {
    var m := Mask(s);
    if s == [] {
      assert ['-'] + m == ['-'];
    } else {
      SanitizeFromIsMaskedSqueeze(s[1..]);
      var m' := Mask(s[1..]);
      assert m == [m[0]] + m';
      assert (['-'] + m)[1..] == m;
      if IsAlnum(s[0]) {
        assert m[0] == s[0] && m[0] != '-';
        if m' == [] {
          assert Squeeze(m) == m;
        } else {
          assert m[1..] == m';
        }
      } else {
        assert m[0] == '-';
        SqueezeKeepsLeadingHyphen(m');
        var q := Squeeze(['-'] + m');
        assert q == [q[0]] + q[1..];
        if m' != [] && m'[0] == '-' {
          assert m[1..] == m';
        }
        assert (['-'] + m)[1] == m[0];
      }
    }
  }

  /** The sanitiser agrees with the two-stage reference definition. */
  lemma SanitizeIsMaskedSqueeze(url: string)
    ensures Sanitize(url) == Squeeze(Mask(url))
  {
    SanitizeFromIsMaskedSqueeze(url);
  }

  /** Two URLs of equal length that differ only where both hold a non-alphanumeric character. */
  predicate SameUpToSeparators(u: string, v: string) {
    |u| == |v| &&
    forall i :: 0 <= i < |u| ==> u[i] == v[i] || (!IsAlnum(u[i]) && !IsAlnum(v[i]))
  }

  /** Such URLs collide: they get the same token, hence the same screenshot file. */
  lemma SeparatorsCollide(u: string, v: string)
    requires SameUpToSeparators(u, v)
    ensures Sanitize(u) == Sanitize(v)
  {
    assert Mask(u) == Mask(v);
    SanitizeIsMaskedSqueeze(u);
    SanitizeIsMaskedSqueeze(v);
  }

  // ---------------------------------------------------------------------------
  // Browser URL and screenshot path
  // ---------------------------------------------------------------------------

  /** The address the browser is pointed at. */
  function BrowserUrl(cfg: Config, url: string): string {
    cfg.urlPrefix + url + cfg.urlSuffix
  }

  /** The screenshot file name, below the output directory. */
  function FileName(cfg: Config, url: string): (r: string)
    ensures ('/' !in cfg.filenamePrefix && '/' !in cfg.filenameSuffix
             && '/' !in cfg.filenameExtension) ==> '/' !in r
  {
    cfg.filenamePrefix + Sanitize(url) + cfg.filenameSuffix + "." + cfg.filenameExtension
  }

  /** Where the screenshot of a URL is written. */
  function ScreenshotPath(cfg: Config, url: string): string {
    cfg.outputPath + "/" + FileName(cfg, url)
  }

  lemma CancelAround(a: string, x: string, y: string, b: string)
    requires a + x + b == a + y + b
    ensures x == y
  {
    var l := a + x + b;
    assert |x| == |y|;
    assert x == l[|a|..|a| + |x|];
    assert y == (a + y + b)[|a|..|a| + |y|];
  }

  /** The browser is pointed at the task's own URL: distinct tasks give distinct addresses. */
  lemma BrowserUrlInjective(cfg: Config, u: string, v: string)
    ensures BrowserUrl(cfg, u) == BrowserUrl(cfg, v) <==> u == v
  {
    if BrowserUrl(cfg, u) == BrowserUrl(cfg, v) {
      CancelAround(cfg.urlPrefix, u, v, cfg.urlSuffix);
    }
  }

  /** Two tasks are written to the same file exactly when their URLs sanitise alike. */
  lemma ScreenshotPathCollision(cfg: Config, u: string, v: string)
    ensures ScreenshotPath(cfg, u) == ScreenshotPath(cfg, v) <==> Sanitize(u) == Sanitize(v)
  {
    var a := cfg.outputPath + "/" + cfg.filenamePrefix;
    var b := cfg.filenameSuffix + "." + cfg.filenameExtension;
    assert ScreenshotPath(cfg, u) == a + Sanitize(u) + b;
    assert ScreenshotPath(cfg, v) == a + Sanitize(v) + b;
    if ScreenshotPath(cfg, u) == ScreenshotPath(cfg, v) {
      CancelAround(a, Sanitize(u), Sanitize(v), b);
    }
  }

  /** With no slash in the configured name parts, the screenshot lands directly in the
      output directory, whatever the URL holds. */
  lemma ScreenshotStaysInOutputDir(cfg: Config, url: string)
    requires '/' !in cfg.filenamePrefix && '/' !in cfg.filenameSuffix
    requires '/' !in cfg.filenameExtension
    ensures var p := ScreenshotPath(cfg, url);
            var n := |cfg.outputPath| + 1;
            n <= |p| && p[..n] == cfg.outputPath + "/" && '/' !in p[n..]
            && p[n..] == cfg.filenamePrefix + Sanitize(url) + cfg.filenameSuffix + "." + cfg.filenameExtension
  {
    var p := ScreenshotPath(cfg, url);
    var n := |cfg.outputPath| + 1;
    assert p[n..] == FileName(cfg, url);
  }
}
