/** The handful of Python `str` built-ins the core relies on, over `string`
    (that is, `seq<char>`): `isspace`, `strip`, `lower`, `endswith`,
    `os.path.basename` and `str(n)` for a non-negative integer. */
module PyStr {

  /** `c.isspace()`: the characters CPython treats as whitespace. */
  predicate IsSpace(c: char) {
    || c == ' '
    || ('\t' <= c <= '\r')
    || ('\U{1C}' <= c <= '\U{1F}')
    || c == '\U{85}' || c == '\U{A0}' || c == '\U{1680}'
    || ('\U{2000}' <= c <= '\U{200A}')
    || c == '\U{2028}' || c == '\U{2029}' || c == '\U{202F}' || c == '\U{205F}' || c == '\U{3000}'
  }

  /** No whitespace at either end: what `strip()` always returns. */
  predicate IsStripped(t: string) {
    t == [] || (!IsSpace(t[0]) && !IsSpace(t[|t| - 1]))
  }

  predicate AllSpace(s: string) {
    forall i :: 0 <= i < |s| ==> IsSpace(s[i])
  }

  /** `s.lstrip()`. */
  function TrimStart(s: string): string
  {
    if s != [] && IsSpace(s[0]) then TrimStart(s[1..]) else s
  }

  /** `s.rstrip()`. */
  function TrimEnd(s: string): string
  {
    if s != [] && IsSpace(s[|s| - 1]) then TrimEnd(s[..|s| - 1]) else s
  }

  /** `lstrip()` drops exactly the leading whitespace: the result is a suffix of `s`,
      what was dropped is all whitespace, and the result does not start with whitespace. */
  lemma {:induction false} TrimStartSlice(s: string)
    ensures var r := TrimStart(s);
      && |r| <= |s| && r == s[|s| - |r|..]
      && (r == [] || !IsSpace(r[0]))
      && AllSpace(s[..|s| - |r|])
  {
    if s != [] && IsSpace(s[0]) {
      TrimStartSlice(s[1..]);
      var r := TrimStart(s);
      assert s[..|s| - |r|] == [s[0]] + s[1..][..|s| - 1 - |r|];
    }
  }

  /** `rstrip()` drops exactly the trailing whitespace: the result is a prefix of `s`,
      what was dropped is all whitespace, and the result does not end with whitespace. */
  lemma {:induction false} TrimEndSlice(s: string)
    ensures var r := TrimEnd(s);
      && |r| <= |s| && r == s[..|r|]
      && (r == [] || !IsSpace(r[|r| - 1]))
      && AllSpace(s[|r|..])
  {
    if s != [] && IsSpace(s[|s| - 1]) {
      var n := |s| - 1;
      TrimEndSlice(s[..n]);
      var r := TrimEnd(s);
      assert s[|r|..] == s[..n][|r|..] + [s[n]];
    }
  }

  /** `s.strip()` with no argument. */
  function Strip(s: string): (r: string)
  {
    TrimEnd(TrimStart(s))
  }

  /** `strip()` removes exactly a whitespace prefix and a whitespace suffix and
      leaves a result with no whitespace at either end: `Strip(s)` is the slice
      `s[lo..lo + |Strip(s)|]` and everything outside that slice is whitespace. */
  lemma StripSlice(s: string) returns (lo: nat)
    ensures lo + |Strip(s)| <= |s| && Strip(s) == s[lo..lo + |Strip(s)|]
    ensures AllSpace(s[..lo]) && AllSpace(s[lo + |Strip(s)|..])
    ensures IsStripped(Strip(s))
  {
    var t := TrimStart(s);
    TrimStartSlice(s);
    lo := |s| - |t|;
    var r := TrimEnd(t);
    TrimEndSlice(t);
    assert s[lo..lo + |r|] == t[..|r|];
    assert s[lo + |r|..] == t[|r|..];
  }

  /** The result of `strip()` never has whitespace at either end. */
  lemma StripIsStripped(s: string)
    ensures IsStripped(Strip(s))
  {
    var _ := StripSlice(s);
  }

  /** A string with no whitespace at either end is its own `strip()`; in particular
      `strip()` is idempotent. */
  lemma StrippedFixed(t: string)
    requires IsStripped(t)
    ensures Strip(t) == t
  {
  }

  lemma StripIdempotent(s: string)
    ensures Strip(Strip(s)) == Strip(s)
  {
    StripIsStripped(s);
    StrippedFixed(Strip(s));
  }

  /** `s.strip()` is empty exactly when `s` is all whitespace (the empty string included). */
  lemma StripEmptyIff(s: string)
    ensures Strip(s) == [] <==> AllSpace(s)
  {
    var lo := StripSlice(s);
    if Strip(s) == [] {
      assert s == s[..lo] + s[lo..];
      assert forall i :: lo <= i < |s| ==> s[i] == s[lo..][i - lo];
    } else {
      assert !IsSpace(s[lo]);
    }
  }

  /** `c.lower()` for ASCII letters; other characters are left alone. */
  function LowerChar(c: char): (d: char)
  {
    if 'A' <= c <= 'Z' then (c as int + 32) as char else c
  }

  /** `s.lower()`, character by character. */
  function Lower(s: string): (r: string)
    ensures |r| == |s| && forall i :: 0 <= i < |s| ==> r[i] == LowerChar(s[i])
  {
    if s == [] then [] else Lower(s[..|s| - 1]) + [LowerChar(s[|s| - 1])]
  }

  predicate EndsWith(s: string, suffix: string) {
    |suffix| <= |s| && s[|s| - |suffix|..] == suffix
  }

  /** `name.lower().endswith(".pdf")`. */
  predicate IsPdfName(name: string) {
    EndsWith(Lower(name), ".pdf")
  }

  /** The case-insensitive test accepts exactly the names whose last four characters
      are a dot followed by p, d, f in either case. */
  lemma IsPdfNameIff(name: string)
    ensures IsPdfName(name) <==>
      |name| >= 4 && name[|name| - 4] == '.'
      && name[|name| - 3] in {'p', 'P'} && name[|name| - 2] in {'d', 'D'} && name[|name| - 1] in {'f', 'F'}
  {
    var n := |name|;
    var l := Lower(name);
    if n >= 4 {
      var tail := l[n - 4..];
      assert tail == [l[n - 4], l[n - 3], l[n - 2], l[n - 1]];
      assert IsPdfName(name) <==> tail == ".pdf";
    }
  }

  /** `os.path.basename(p)` for POSIX paths: everything after the last '/'. */
  function Basename(p: string): (b: string)
    ensures |b| <= |p| && b == p[|p| - |b|..]
    ensures forall i :: 0 <= i < |b| ==> b[i] != '/'
    ensures |b| < |p| ==> p[|p| - |b| - 1] == '/'
  {
    if p == [] then []
    else if p[|p| - 1] == '/' then []
    else Basename(p[..|p| - 1]) + [p[|p| - 1]]
  }

  predicate IsDigit(c: char) {
    '0' <= c <= '9'
  }

  function DigitChar(d: nat): (c: char)
    requires d < 10
    ensures IsDigit(c)
  {
    (d + '0' as int) as char
  }

  function DigitValue(c: char): (d: nat)
    requires IsDigit(c)
    ensures d < 10
  {
    c as int - '0' as int
  }

  /** `str(n)` for a non-negative integer: its decimal digits, with no leading zero. */
  function NatToStr(n: nat): (s: string)
    ensures |s| >= 1
    ensures forall i :: 0 <= i < |s| ==> IsDigit(s[i])
    ensures s[0] != '0' || s == "0"
    decreases n
  {
    if n < 10 then [DigitChar(n)] else NatToStr(n / 10) + [DigitChar(n % 10)]
  }

  /** Reads a string of decimal digits back as a number. */
  function ParseNat(s: string): nat
    requires forall i :: 0 <= i < |s| ==> IsDigit(s[i])
  {
    if s == [] then 0 else ParseNat(s[..|s| - 1]) * 10 + DigitValue(s[|s| - 1])
  }

  /** `int(str(n)) == n`. */
  lemma {:induction false} ParseNatToStr(n: nat)
    ensures ParseNat(NatToStr(n)) == n
    decreases n
  {
    var s := NatToStr(n);
    if n >= 10 {
      ParseNatToStr(n / 10);
      assert s[..|s| - 1] == NatToStr(n / 10);
    }
  }

  /** Different numbers have different decimal forms. */
  lemma NatToStrInjective(m: nat, n: nat)
    ensures NatToStr(m) == NatToStr(n) ==> m == n
  {
    ParseNatToStr(m);
    ParseNatToStr(n);
  }
}
