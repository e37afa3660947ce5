/**
 * The handful of Python string operations the scripts build names and
 * paths with: str.endswith, str.replace, str(int) and os.path.join on
 * two POSIX path components.
 */
module PyStrings {

  /** str.endswith(suffix). */
  predicate EndsWith(s: string, suffix: string) {
    |suffix| <= |s| && s[|s| - |suffix|..] == suffix
  }

  /** `pat` occurs in `s` starting at index `i`. */
  predicate OccursAt(s: string, pat: string, i: int) {
    0 <= i && i + |pat| <= |s| && s[i..i + |pat|] == pat
  }

  /** `pat in s`. */
  predicate Occurs(s: string, pat: string) {
    exists i | 0 <= i <= |s| - |pat| :: OccursAt(s, pat, i)
  }

  /**
   * str.replace(pat, repl): scanning left to right, every non-overlapping
   * occurrence of `pat` is replaced by `repl`, and the scan resumes after the
   * replaced occurrence.
   */
  function Replace(s: string, pat: string, repl: string): string
    requires |pat| > 0
    decreases |s|
  {
    if |s| < |pat| then s
    else if s[..|pat|] == pat then repl + Replace(s[|pat|..], pat, repl)
    else [s[0]] + Replace(s[1..], pat, repl)
  }

  /** No non-empty proper prefix of `pat` is also a suffix of it. */
  predicate Unbordered(pat: string) {
    forall k :: 0 < k < |pat| ==> pat[..k] != pat[|pat| - k..]
  }

  /** A string in which `pat` does not occur comes back from Replace unchanged. */
  lemma {:induction false} ReplaceWithoutOccurrence(s: string, pat: string, repl: string)
    requires |pat| > 0 && !Occurs(s, pat)
    ensures Replace(s, pat, repl) == s
    decreases |s|
  {
    if |s| >= |pat| {
      assert !OccursAt(s, pat, 0);
      forall i | 0 <= i <= |s[1..]| - |pat| && OccursAt(s[1..], pat, i) ensures false {
        assert s[1..][i..i + |pat|] == s[i + 1..i + 1 + |pat|];
        assert OccursAt(s, pat, i + 1);
      }
      ReplaceWithoutOccurrence(s[1..], pat, repl);
    }
  }

  /**
   * Replacing an unbordered pattern in `stem + pat`, where `stem` holds no
   * occurrence of it, replaces exactly the final occurrence: the suffix is
   * swapped and the stem is kept.
   */
  lemma {:induction false} ReplaceFinalOccurrence(stem: string, pat: string, repl: string)
    requires |pat| > 0 && Unbordered(pat) && !Occurs(stem, pat)
    ensures Replace(stem + pat, pat, repl) == stem + repl
    decreases |stem|
  {
    var s := stem + pat;
    if stem == [] {
      assert s == pat;
      assert s[|pat|..] == [];
    } else {
      if |stem| >= |pat| {
        assert s[..|pat|] == stem[..|pat|];
        assert !OccursAt(stem, pat, 0);
      } else if s[..|pat|] == pat {
        PrefixMatchIsBorder(stem, pat);
        assert false;
      }
      forall i | 0 <= i <= |stem[1..]| - |pat| && OccursAt(stem[1..], pat, i) ensures false {
        assert stem[1..][i..i + |pat|] == stem[i + 1..i + 1 + |pat|];
        assert OccursAt(stem, pat, i + 1);
      }
      ReplaceFinalOccurrence(stem[1..], pat, repl);
      assert s[1..] == stem[1..] + pat;
      assert [s[0]] + (stem[1..] + repl) == stem + repl;
    }
  }

  /** A match of `pat` at the start of `stem + pat`, with `stem` shorter than `pat`, is a border of `pat`. */
  lemma PrefixMatchIsBorder(stem: string, pat: string)
    requires 0 < |stem| < |pat| && (stem + pat)[..|pat|] == pat
    ensures pat[..|pat| - |stem|] == pat[|stem|..]
  {
    var s := stem + pat;
    assert s[..|pat|][|stem|..] == s[|stem|..|pat|];
  }

  /** The character of a decimal digit 0..9. */
  function DigitChar(d: int): (c: char)
    requires 0 <= d < 10
    ensures '0' <= c <= '9' && c as int - '0' as int == d
  {
    ('0' as int + d) as char
  }

  /** The decimal digits of a natural number, most significant first, as str() prints them. */
  function Digits(n: nat): (r: string)
    ensures |r| >= 1 && (r[0] == '0' ==> n == 0)
    ensures forall i :: 0 <= i < |r| ==> '0' <= r[i] <= '9'
  {
    if n < 10 then [DigitChar(n)] else Digits(n / 10) + [DigitChar(n % 10)]
  }

  /** str(n) for a Python int: a minus sign for negative values, then the digits. */
  function Str(n: int): (r: string)
    ensures |r| >= 1 && forall i :: 0 <= i < |r| ==> r[i] != '/'
  {
    if n < 0 then "-" + Digits(-n) else Digits(n)
  }

  /** The value of a string of decimal digits, read most significant first. */
  function DecimalValue(s: string): int
  {
    if s == [] then 0 else DecimalValue(s[..|s| - 1]) * 10 + (s[|s| - 1] as int - '0' as int)
  }

  /** int(s) for the strings Str produces. */
  function ParseInt(s: string): int
  {
    if |s| > 0 && s[0] == '-' then -DecimalValue(s[1..]) else DecimalValue(s)
  }

  lemma {:induction false} DigitsRoundTrip(n: nat)
    ensures DecimalValue(Digits(n)) == n
  {
    if n >= 10 {
      DigitsRoundTrip(n / 10);
      var d := Digits(n);
      assert d[..|d| - 1] == Digits(n / 10);
    }
  }

  /** int(str(n)) == n. */
  lemma StrRoundTrip(n: int)
    ensures ParseInt(Str(n)) == n
  {
    if n < 0 {
      DigitsRoundTrip(-n);
      assert Str(n)[1..] == Digits(-n);
    } else {
      DigitsRoundTrip(n);
    }
  }

  /** Distinct integers print differently. */
  lemma StrInjective(a: int, b: int)
    requires Str(a) == Str(b)
    ensures a == b
  {
    StrRoundTrip(a);
    StrRoundTrip(b);
  }

  /** os.path.join(a, b) on POSIX for two components. */
  function Join(a: string, b: string): string
  {
    if |b| > 0 && b[0] == '/' then b
    else if a == [] || a[|a| - 1] == '/' then a + b
    else a + "/" + b
  }

  /** What Join puts before a relative component: `a`, plus a separator when `a` needs one. */
  function JoinPrefix(a: string): string
  {
    if a == [] || a[|a| - 1] == '/' then a else a + "/"
  }

  lemma JoinRelative(a: string, b: string)
    requires |b| > 0 && b[0] != '/'
    ensures Join(a, b) == JoinPrefix(a) + b
  {
  }

  /** Joining onto a name that does not end in a separator inserts exactly one. */
  lemma JoinAfterName(a: string, b: string)
    requires |a| > 0 && a[|a| - 1] != '/' && |b| > 0 && b[0] != '/'
    ensures Join(a, b) == a + "/" + b
    ensures Join(a, b)[|Join(a, b)| - 1] == b[|b| - 1]
  {
  }
}
