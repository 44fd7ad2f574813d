/**
  The few pieces of Python's `str` that the mailer uses, on Dafny strings
  (sequences of Unicode scalar values): ASCII character classes and
  upper-casing, `startswith`/`endswith`, `in`, `replace`, `strip`,
  `"\n".join` and the decimal rendering of a counter in an f-string.
 */
module Text {

  // ---------------------------------------------------------------------
  // Characters
  // ---------------------------------------------------------------------

  predicate IsAscii(c: char) {
    c as int < 128
  }

  predicate IsAsciiLower(c: char) {
    'a' <= c <= 'z'
  }

  /** `str.upper()` restricted to one ASCII character. */
  function AsciiUpperChar(c: char): (d: char)
    ensures IsAscii(c) ==> IsAscii(d)
    ensures !IsAsciiLower(d)
    ensures !IsAsciiLower(c) ==> d == c
    ensures IsAsciiLower(c) ==> 'A' <= d <= 'Z' && d as int - 'A' as int == c as int - 'a' as int
    ensures c != ' ' ==> d != ' '
  {
    if IsAsciiLower(c) then (c as int - 32) as char else c
  }

  /** The characters for which Python's `str.isspace()` holds. */
  predicate IsSpace(c: char) {
    || c == '\t' || c == '\n' || c == '\U{0B}' || c == '\U{0C}' || c == '\r'
    || ('\U{1C}' <= c <= '\U{1F}') || c == ' ' || c == '\U{85}' || c == '\U{A0}'
    || c == '\U{1680}' || ('\U{2000}' <= c <= '\U{200A}') || c == '\U{2028}'
    || c == '\U{2029}' || c == '\U{202F}' || c == '\U{205F}' || c == '\U{3000}'
  }

  // ---------------------------------------------------------------------
  // Prefixes, suffixes, containment
  // ---------------------------------------------------------------------

  /** `s.startswith(p)` */
  predicate StartsWith(s: string, p: string) {
    |p| <= |s| && s[..|p|] == p
  }

  /** `s.endswith(p)` */
  predicate EndsWith(s: string, p: string) {
    |p| <= |s| && s[|s| - |p|..] == p
  }

  /** `p in s` for strings: `p` occurs somewhere in `s`. */
  predicate Contains(s: string, p: string)
    decreases |s|
  {
    StartsWith(s, p) || (s != [] && Contains(s[1..], p))
  }

  // ---------------------------------------------------------------------
  // str.replace
  // ---------------------------------------------------------------------

  /**
    `s.replace(pat, rep)`: scans left to right and replaces every
    non-overlapping occurrence of `pat`. The mailer only ever passes a
    fixed, non-empty placeholder as `pat`. A string without the pattern is
    left verbatim (no error, no change), and so is any string when the
    pattern is replaced by itself.
   */
  function ReplaceAll(s: string, pat: string, rep: string): (r: string)
    requires pat != []
    ensures !Contains(s, pat) ==> r == s
    ensures rep == pat ==> r == s
    decreases |s|
  {
    if |s| < |pat| then s
    else if s[..|pat|] == pat then
      assert s == s[..|pat|] + s[|pat|..];
      rep + ReplaceAll(s[|pat|..], pat, rep)
    else
      assert s == [s[0]] + s[1..];
      [s[0]] + ReplaceAll(s[1..], pat, rep)
  }

  /** The number of occurrences `ReplaceAll` replaces. */
  function Occurrences(s: string, pat: string): nat
    requires pat != []
    decreases |s|
  {
    if |s| < |pat| then 0
    else if s[..|pat|] == pat then 1 + Occurrences(s[|pat|..], pat)
    else Occurrences(s[1..], pat)
  }

  /** The scan replaces something exactly when the pattern occurs somewhere. */
  lemma {:induction false} OccurrencesFound(s: string, pat: string)
    requires pat != []
    ensures Occurrences(s, pat) == 0 <==> !Contains(s, pat)
    decreases |s|
  {
    if s != [] && !(|s| >= |pat| && s[..|pat|] == pat) {
      OccurrencesFound(s[1..], pat);
    }
  }

  /**
    The first occurrence is replaced and the scan resumes right after it:
    when no occurrence starts inside `a`, replacing in `a + pat + b` keeps
    `a`, puts `rep` in place of the pattern and goes on with `b`.
   */
  lemma {:induction false} ReplaceFirst(a: string, b: string, pat: string, rep: string)
    requires pat != []
    requires forall i :: 0 <= i < |a| ==> !StartsWith((a + pat + b)[i..], pat)
    ensures ReplaceAll(a + pat + b, pat, rep) == a + rep + ReplaceAll(b, pat, rep)
    decreases |a|
  {
    var s := a + pat + b;
    if a == [] {
      assert s[..|pat|] == pat && s[|pat|..] == b;
    } else {
      assert s[0..] == s;
      assert s[..|pat|] != pat;
      var s' := a[1..] + pat + b;
      assert s[1..] == s';
      forall i | 0 <= i < |a| - 1
        ensures !StartsWith(s'[i..], pat)
      {
        assert s'[i..] == s[i + 1..];
      }
      ReplaceFirst(a[1..], b, pat, rep);
      assert ReplaceAll(s, pat, rep) == [s[0]] + ReplaceAll(s', pat, rep);
      assert a == [s[0]] + a[1..];
    }
  }

  /** Each replaced occurrence changes the length by `|rep| - |pat|`. */
  lemma {:induction false} ReplaceLength(s: string, pat: string, rep: string)
    requires pat != []
    ensures |ReplaceAll(s, pat, rep)| == |s| + Occurrences(s, pat) * (|rep| - |pat|)
    decreases |s|
  {
    if |s| < |pat| {
    } else if s[..|pat|] == pat {
      var rest := s[|pat|..];
      var o, d := Occurrences(rest, pat), |rep| - |pat|;
      ReplaceLength(rest, pat, rep);
      assert |ReplaceAll(s, pat, rep)| == |rep| + |ReplaceAll(rest, pat, rep)|;
      assert Occurrences(s, pat) == 1 + o;
      Distribute(o, d);
    } else {
      ReplaceLength(s[1..], pat, rep);
    }
  }

  lemma Distribute(o: nat, d: int)
    ensures (1 + o) * d == d + o * d
  {
  }

  // ---------------------------------------------------------------------
  // str.strip
  // ---------------------------------------------------------------------

  /** `s.lstrip()` */
  function TrimStart(s: string): string
    decreases |s|
  {
    if s != [] && IsSpace(s[0]) then TrimStart(s[1..]) else s
  }

  /** `s.rstrip()` */
  function TrimEnd(s: string): string
    decreases |s|
  {
    if s != [] && IsSpace(s[|s| - 1]) then TrimEnd(s[..|s| - 1]) else s
  }

  /** `s.strip()` */
  function Strip(s: string): string {
    TrimEnd(TrimStart(s))
  }

  /** `lstrip` keeps a suffix, drops only whitespace, and stops at the first non-whitespace. */
  lemma {:induction false} TrimStartKeepsSuffix(s: string)
    ensures |TrimStart(s)| <= |s| && TrimStart(s) == s[|s| - |TrimStart(s)|..]
    ensures forall k :: 0 <= k < |s| - |TrimStart(s)| ==> IsSpace(s[k])
    ensures TrimStart(s) == [] || !IsSpace(TrimStart(s)[0])
    decreases |s|
  {
    if s != [] && IsSpace(s[0]) {
      TrimStartKeepsSuffix(s[1..]);
    }
  }

  /** `rstrip` keeps a prefix, drops only whitespace, and stops at the last non-whitespace. */
  lemma {:induction false} TrimEndKeepsPrefix(s: string)
    ensures |TrimEnd(s)| <= |s| && TrimEnd(s) == s[..|TrimEnd(s)|]
    ensures forall k :: |TrimEnd(s)| <= k < |s| ==> IsSpace(s[k])
    ensures TrimEnd(s) == [] || !IsSpace(TrimEnd(s)[|TrimEnd(s)| - 1])
    decreases |s|
  {
    if s != [] && IsSpace(s[|s| - 1]) {
      TrimEndKeepsPrefix(s[..|s| - 1]);
    }
  }

  /**
    What `strip` keeps: a contiguous piece of `s`, everything cut off on
    either side is whitespace, and the piece neither starts nor ends with
    whitespace.
   */
  lemma StripIsTrimmedInfix(s: string) returns (lo: nat, hi: nat)
    ensures lo <= hi <= |s| && Strip(s) == s[lo..hi]
    ensures forall k :: 0 <= k < lo ==> IsSpace(s[k])
    ensures forall k :: hi <= k < |s| ==> IsSpace(s[k])
    ensures Strip(s) == [] || (!IsSpace(Strip(s)[0]) && !IsSpace(Strip(s)[|Strip(s)| - 1]))
  {
    var t := TrimStart(s);
    TrimStartKeepsSuffix(s);
    TrimEndKeepsPrefix(t);
    var r := TrimEnd(t);
    lo := |s| - |t|;
    hi := lo + |r|;
    assert forall k :: hi <= k < |s| ==> s[k] == t[k - lo];
    if r != [] {
      assert r[0] == t[0];
    }
  }

  /** Stripping twice is stripping once. */
  lemma StripIdempotent(s: string)
    ensures Strip(Strip(s)) == Strip(s)
  {
    var lo, hi := StripIsTrimmedInfix(s);
    var r := Strip(s);
    assert TrimStart(r) == r;
    assert TrimEnd(r) == r;
  }

  // ---------------------------------------------------------------------
  // "\n".join
  // ---------------------------------------------------------------------

  /** `sep.join(parts)` */
  function Join(parts: seq<string>, sep: string): string
    decreases |parts|
  {
    if |parts| == 0 then ""
    else if |parts| == 1 then parts[0]
    else parts[0] + sep + Join(parts[1..], sep)
  }

  /** Joining two non-empty lists is joining each and gluing with `sep`. */
  lemma {:induction false} JoinAppend(a: seq<string>, b: seq<string>, sep: string)
    requires a != [] && b != []
    ensures Join(a + b, sep) == Join(a, sep) + sep + Join(b, sep)
    decreases |a|
  {
    if |a| == 1 {
      assert (a + b)[1..] == b;
    } else {
      assert (a + b)[1..] == a[1..] + b;
      JoinAppend(a[1..], b, sep);
    }
  }

  // ---------------------------------------------------------------------
  // Decimal rendering of a count, as an f-string prints an int
  // ---------------------------------------------------------------------

  predicate IsDigit(c: char) {
    '0' <= c <= '9'
  }

  function DigitChar(d: nat): (c: char)
    requires d < 10
    ensures IsDigit(c) && c as int - '0' as int == d
  {
    ('0' as int + d) as char
  }

  /** `f"{n}"` for a non-negative `n`: decimal digits, no leading zero. */
  function NatToDecimal(n: nat): (s: string)
    ensures s != []
    ensures forall c :: c in s ==> IsDigit(c)
    ensures (s[0] == '0') == (n == 0)
    ensures n == 0 ==> s == "0"
    decreases n
  {
    if n < 10 then [DigitChar(n)] else NatToDecimal(n / 10) + [DigitChar(n % 10)]
  }

  /** `int(s)` for a string of decimal digits. */
  function ParseDecimal(s: string): nat
    requires forall c :: c in s ==> IsDigit(c)
    decreases |s|
  {
    if s == [] then 0
    else
      assert s[|s| - 1] in s && IsDigit(s[|s| - 1]);
      10 * ParseDecimal(s[..|s| - 1]) + (s[|s| - 1] as int - '0' as int)
  }

  /** The printed count reads back as the count. */
  lemma {:induction false} DecimalRoundTrip(n: nat)
    ensures ParseDecimal(NatToDecimal(n)) == n
    decreases n
  {
    var s := NatToDecimal(n);
    if n >= 10 {
      DecimalRoundTrip(n / 10);
      assert s[..|s| - 1] == NatToDecimal(n / 10);
    }
  }
}
