/** Character classes and string operations of Python's `str` and `re`
    that the pipeline relies on: whitespace in the sense of `str.isspace`
    and the regex class `\s`, `strip`, replacing each `\s+` run, ASCII
    lowercasing, `startswith`/`endswith`/`in`, `'\n'.join` and decimal
    rendering of counters. */
module Text {

  /** Python's `str.isspace()`, which is also what `\s` matches in a `str`
      pattern: the ASCII controls 9-13 and 28-31, the space, and the
      Unicode separators. */
  predicate IsSpace(c: char)
  {
    var n := c as int;
    (9 <= n <= 13) || (28 <= n <= 32) || n == 0x85 || n == 0xA0 || n == 0x1680
    || (0x2000 <= n <= 0x200A) || n == 0x2028 || n == 0x2029 || n == 0x202F
    || n == 0x205F || n == 0x3000
  }

  predicate IsAscii(c: char) { c as int <= 0x7F }
  predicate IsUpper(c: char) { 'A' <= c <= 'Z' }
  predicate IsLower(c: char) { 'a' <= c <= 'z' }
  predicate IsDigit(c: char) { '0' <= c <= '9' }
  predicate IsLetter(c: char) { IsUpper(c) || IsLower(c) }

  predicate AllAscii(s: string)
  {
    forall i :: 0 <= i < |s| ==> IsAscii(s[i])
  }

  /** No two neighbouring whitespace characters. */
  predicate NoSpaceRuns(s: string)
  {
    forall i :: 0 <= i < |s| - 1 ==> !(IsSpace(s[i]) && IsSpace(s[i + 1]))
  }

  /** Neither leading nor trailing whitespace. */
  predicate Trimmed(s: string)
  {
    s != [] ==> !IsSpace(s[0]) && !IsSpace(s[|s| - 1])
  }

  /** `c.lower()` on an ASCII character. */
  function LowerChar(c: char): (d: char)
    ensures IsUpper(c) ==> IsLower(d)
    ensures !IsUpper(c) ==> d == c
    ensures IsSpace(d) <==> IsSpace(c)
  {
    if IsUpper(c) then (c as int + 32) as char else c
  }

  /** `s.lower()` for a string whose characters are all ASCII. */
  function LowerAscii(s: string): (r: string)
    ensures |r| == |s|
    ensures forall i :: 0 <= i < |s| ==> r[i] == LowerChar(s[i])
  {
    seq(|s|, i requires 0 <= i < |s| => LowerChar(s[i]))
  }

  lemma LowerKeepsShape(s: string)
    ensures NoSpaceRuns(s) ==> NoSpaceRuns(LowerAscii(s))
    ensures Trimmed(s) ==> Trimmed(LowerAscii(s))
    ensures AllAscii(s) ==> AllAscii(LowerAscii(s))
  {
  }

  /** Removes trailing whitespace (the right half of `str.strip()`). */
  function TrimEnd(s: string): (r: string)
    ensures |r| <= |s| && r == s[..|r|]
    ensures r != [] ==> !IsSpace(r[|r| - 1])
    ensures forall i :: |r| <= i < |s| ==> IsSpace(s[i])
  {
    if s != [] && IsSpace(s[|s| - 1]) then TrimEnd(s[..|s| - 1]) else s
  }

  /** Length of the run of whitespace that `s` starts with. */
  function SpaceRun(s: string): (k: nat)
    ensures k <= |s|
    ensures forall i :: 0 <= i < k ==> IsSpace(s[i])
    ensures k < |s| ==> !IsSpace(s[k])
  {
    if s != [] && IsSpace(s[0]) then 1 + SpaceRun(s[1..]) else 0
  }

  /** Python's `str.strip()` with no argument: the slice of `s` that
      starts after its leading whitespace and stops before its trailing
      whitespace. */
  function Strip(s: string): (r: string)
    ensures Trimmed(r)
    ensures SpaceRun(s) + |r| <= |s| && r == s[SpaceRun(s)..SpaceRun(s) + |r|]
    ensures forall k :: SpaceRun(s) + |r| <= k < |s| ==> IsSpace(s[k])
  {
    TrimEnd(s[SpaceRun(s)..])
  }

  /** Stripping a trimmed string changes nothing. */
  lemma StripUnchanged(s: string)
    requires Trimmed(s)
    ensures Strip(s) == s
  {
    assert SpaceRun(s) == 0;
  }

  /** What strip keeps are characters of `s`, and no new neighbours. */
  lemma StripChars(s: string)
    ensures forall k :: 0 <= k < |Strip(s)| ==> Strip(s)[k] in s
    ensures NoSpaceRuns(s) ==> NoSpaceRuns(Strip(s))
    ensures Strip(s) == [] <==> forall k :: 0 <= k < |s| ==> IsSpace(s[k])
  {
    var r := Strip(s);
    var i := SpaceRun(s);
    forall k | 0 <= k < |r| ensures r[k] in s {
      assert r[k] == s[i + k];
    }
    if NoSpaceRuns(s) {
      forall k | 0 <= k < |r| - 1 ensures !(IsSpace(r[k]) && IsSpace(r[k + 1])) {
        assert r[k] == s[i + k] && r[k + 1] == s[i + k + 1];
      }
    }
  }

  /** Length of the run of non-whitespace that `s` starts with (what `\S+`
      consumes, greedily). */
  function NonSpaceRun(s: string): (k: nat)
    ensures k <= |s|
    ensures forall i :: 0 <= i < k ==> !IsSpace(s[i])
    ensures k < |s| ==> IsSpace(s[k])
  {
    if s != [] && !IsSpace(s[0]) then 1 + NonSpaceRun(s[1..]) else 0
  }

  /** `re.sub(r'\s+', sep, s)`: every maximal run of whitespace becomes the
      single character `sep`; every other character is kept in place. */
  function ReplaceSpaceRuns(s: string, sep: char): (r: string)
    ensures s == [] <==> r == []
    ensures s != [] && IsSpace(s[0]) ==> r[0] == sep
    ensures s != [] && !IsSpace(s[0]) ==> r[0] == s[0]
    ensures forall i :: 0 <= i < |r| ==> r[i] == sep || !IsSpace(r[i])
    ensures IsSpace(sep) ==> NoSpaceRuns(r)
    decreases |s|
  {
    if s == [] then []
    else if IsSpace(s[0]) then [sep] + ReplaceSpaceRuns(s[SpaceRun(s)..], sep)
    else [s[0]] + ReplaceSpaceRuns(s[1..], sep)
  }

  /** Replacing whitespace runs adds no character but `sep`: when every
      character of `s` is whitespace or has property `p`, every character
      of the result is `sep` or a non-whitespace character with `p`. */
  lemma {:induction false} ReplaceSpaceRunsAlphabet(s: string, sep: char, p: char -> bool)
    requires forall i :: 0 <= i < |s| ==> IsSpace(s[i]) || p(s[i])
    ensures forall i :: 0 <= i < |ReplaceSpaceRuns(s, sep)| ==>
              ReplaceSpaceRuns(s, sep)[i] == sep || (p(ReplaceSpaceRuns(s, sep)[i]) && !IsSpace(ReplaceSpaceRuns(s, sep)[i]))
    decreases |s|
  {
    if s != [] {
      if IsSpace(s[0]) {
        var k := SpaceRun(s);
        assert forall i :: 0 <= i < |s[k..]| ==> s[k..][i] == s[k + i];
        ReplaceSpaceRunsAlphabet(s[k..], sep, p);
      } else {
        assert forall i :: 0 <= i < |s[1..]| ==> s[1..][i] == s[1 + i];
        ReplaceSpaceRunsAlphabet(s[1..], sep, p);
      }
    }
  }

  predicate StartsWith(s: string, prefix: string)
  {
    |prefix| <= |s| && s[..|prefix|] == prefix
  }

  predicate EndsWith(s: string, suffix: string)
  {
    |suffix| <= |s| && s[|s| - |suffix|..] == suffix
  }

  /** Python's `needle in s` for strings. */
  predicate Contains(s: string, needle: string)
    decreases |s|
  {
    StartsWith(s, needle) || (s != [] && Contains(s[1..], needle))
  }

  /** Python's `s.removesuffix(suffix)`: drops one copy of the suffix, if any. */
  function RemoveSuffix(s: string, suffix: string): (r: string)
    ensures EndsWith(s, suffix) ==> r + suffix == s
    ensures !EndsWith(s, suffix) ==> r == s
  {
    if EndsWith(s, suffix) then s[..|s| - |suffix|] else s
  }

  /** `sep.join(parts)`. */
  function Join(sep: string, parts: seq<string>): string
  {
    if parts == [] then ""
    else if |parts| == 1 then parts[0]
    else parts[0] + sep + Join(sep, parts[1..])
  }

  /** `s.split(sep)` for a one-character separator. */
  function Split(s: string, sep: char): (parts: seq<string>)
    ensures |parts| >= 1
    decreases |s|
  {
    if sep in s then
      var i := IndexOf(s, sep);
      [s[..i]] + Split(s[i + 1..], sep)
    else [s]
  }

  /** Index of the first occurrence of `c` in `s`. */
  function IndexOf(s: string, c: char): (i: nat)
    requires c in s
    ensures i < |s| && s[i] == c && c !in s[..i]
  {
    if s[0] == c then 0 else 1 + IndexOf(s[1..], c)
  }

  /** Splitting a joined text at the separator gives back the parts, as long
      as no part contains the separator: the joined text loses nothing. */
  lemma {:induction false} SplitJoin(parts: seq<string>, sep: char)
    requires parts != []
    requires forall i :: 0 <= i < |parts| ==> sep !in parts[i]
    ensures Split(Join([sep], parts), sep) == parts
    decreases |parts|
  {
    if |parts| == 1 {
      assert Join([sep], parts) == parts[0];
    } else {
      var s := Join([sep], parts);
      var tail := Join([sep], parts[1..]);
      assert s == parts[0] + [sep] + tail;
      assert s[|parts[0]|] == sep;
      assert s[..|parts[0]|] == parts[0];
      assert IndexOf(s, sep) == |parts[0]|;
      assert s[|parts[0]| + 1..] == tail;
      SplitJoin(parts[1..], sep);
    }
  }

  /** Number of whitespace-separated words, `len(s.split())`. */
  function WordCount(s: string): (n: nat)
    ensures n <= |s|
    ensures n == 0 <==> forall i :: 0 <= i < |s| ==> IsSpace(s[i])
    decreases |s|
  {
    if s == [] then 0
    else if IsSpace(s[0]) then
      var k := SpaceRun(s);
      var n := WordCount(s[k..]);
      assert n == 0 ==> forall i :: 0 <= i < |s| ==> IsSpace(s[i]) by {
        if n == 0 {
          forall i | 0 <= i < |s| ensures IsSpace(s[i]) {
            if i >= k { assert s[i] == s[k..][i - k]; }
          }
        }
      }
      n
    else
      var k := NonSpaceRun(s);
      1 + WordCount(s[k..])
  }

  /** Decimal digits of `n`, as `str(n)` / an f-string renders an `int`. */
  function NatToString(n: nat): (s: string)
    ensures |s| >= 1
    ensures forall i :: 0 <= i < |s| ==> IsDigit(s[i])
    decreases n
  {
    if n < 10 then [DigitChar(n)] else NatToString(n / 10) + [DigitChar(n % 10)]
  }

  function DigitChar(d: nat): (c: char)
    requires d < 10
    ensures IsDigit(c)
  {
    ('0' as int + d) as char
  }

  function DigitValue(c: char): (d: nat)
    requires IsDigit(c)
    ensures d < 10 && DigitChar(d) == c
  {
    c as int - '0' as int
  }

  /** Reads a decimal numeral back (inverse of NatToString). */
  function ParseNat(s: string): nat
    requires |s| >= 1 && forall i :: 0 <= i < |s| ==> IsDigit(s[i])
    decreases |s|
  {
    if |s| == 1 then DigitValue(s[0])
    else 10 * ParseNat(s[..|s| - 1]) + DigitValue(s[|s| - 1])
  }

  lemma {:induction false} ParseNatToString(n: nat)
    ensures ParseNat(NatToString(n)) == n
    decreases n
  {
    if n >= 10 {
      var s := NatToString(n);
      assert s[..|s| - 1] == NatToString(n / 10);
      ParseNatToString(n / 10);
    }
  }

  /** Distinct counters render to distinct numerals. */
  lemma NatToStringInjective(m: nat, n: nat)
    requires NatToString(m) == NatToString(n)
    ensures m == n
  {
    ParseNatToString(m);
    ParseNatToString(n);
  }
}
