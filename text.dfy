/**
 * String helpers shared by every parser of the agent: the character classes
 * its regular expressions use, Python's `str.strip`, `in`, `startswith`,
 * `endswith`, `find`, `split`, `join`, `replace` and `int`.
 */
module Text {
  import opened Wrappers

  /** Python's `str.isspace` / regex `\s` on the characters this model distinguishes. */
  predicate IsSpace(c: char) {
    c == ' ' || c == '\t' || c == '\n' || c == '\r' || c == '\U{000B}' || c == '\U{000C}'
    || ('\U{001C}' <= c <= '\U{001F}') || c == '\U{0085}' || c == '\U{00A0}'
  }

  /** Regex `\d` restricted to ASCII digits. */
  predicate IsDigit(c: char) { '0' <= c <= '9' }

  /** Regex `[A-Z]`. */
  predicate IsUpper(c: char) { 'A' <= c <= 'Z' }

  predicate AllSpace(s: string) { forall k :: 0 <= k < |s| ==> IsSpace(s[k]) }

  predicate AllDigits(s: string) { forall k :: 0 <= k < |s| ==> IsDigit(s[k]) }

  /** No surrounding whitespace: what `str.strip` returns. */
  predicate Trimmed(s: string) { s == [] || (!IsSpace(s[0]) && !IsSpace(s[|s| - 1])) }

  /** Length of the longest run of characters satisfying P that starts at i. */
  function Run(s: string, i: nat, P: char -> bool): (n: nat)
    requires i <= |s|
    decreases |s| - i
    ensures i + n <= |s|
    ensures forall k :: i <= k < i + n ==> P(s[k])
    ensures i + n < |s| ==> !P(s[i + n])
  {
    if i < |s| && P(s[i]) then 1 + Run(s, i + 1, P) else 0
  }

  function SpaceRun(s: string, i: nat): nat
    requires i <= |s|
  {
    Run(s, i, IsSpace)
  }

  function DigitRun(s: string, i: nat): nat
    requires i <= |s|
  {
    Run(s, i, IsDigit)
  }

  /** `w` occurs in `s` at index i. */
  predicate StartsAt(s: string, i: int, w: string) {
    0 <= i && i + |w| <= |s| && s[i..i + |w|] == w
  }

  /** A text that occurs at i has each of its slices at the matching offset. */
  lemma StartsAtSlice(s: string, i: int, w: string, a: nat, b: nat)
    requires StartsAt(s, i, w) && a <= b <= |w|
    ensures s[i + a..i + b] == w[a..b]
  {
    forall k | 0 <= k < b - a
      ensures s[i + a..i + b][k] == w[a..b][k]
    {
      assert s[i + a + k] == s[i..i + |w|][a + k];
    }
  }

  /** A text that occurs at i has each of its characters at the matching offset. */
  lemma StartsAtChar(s: string, i: int, w: string, k: nat)
    requires StartsAt(s, i, w) && k < |w|
    ensures s[i + k] == w[k]
  {
    assert s[i + k] == s[i..i + |w|][k];
  }

  /** Both halves of a concatenation occur where they were put. */
  lemma AppendParts(a: string, b: string)
    ensures StartsAt(a + b, 0, a) && StartsAt(a + b, |a|, b)
  {
    assert (a + b)[0..|a|] == a;
    assert (a + b)[|a|..|a| + |b|] == b;
  }

  /** A run of digits written out at i and not followed by a digit is exactly the digit run at i. */
  lemma {:induction false} DigitRunAt(s: string, i: nat, d: string)
    requires AllDigits(d) && i + |d| <= |s| && s[i..i + |d|] == d
    requires i + |d| == |s| || !IsDigit(s[i + |d|])
    ensures DigitRun(s, i) == |d|
    decreases |d|
  {
    if d != [] {
      assert s[i] == d[0];
      assert s[i + 1..i + |d|] == d[1..];
      DigitRunAt(s, i + 1, d[1..]);
      assert DigitRun(s, i) == 1 + DigitRun(s, i + 1);
    } else if i < |s| {
      assert DigitRun(s, i) == 0;
    }
  }

  /** Python's `s.startswith(w)`. */
  predicate StartsWith(s: string, w: string) { StartsAt(s, 0, w) }

  /** Python's `s.endswith(w)`. */
  predicate EndsWith(s: string, w: string) { StartsAt(s, |s| - |w|, w) }

  /** The first index at or after i where `w` occurs: Python's `s.find(w, i)`, as an option. */
  function FindFrom(s: string, w: string, i: nat): (r: Option<nat>)
    decreases |s| + 1 - i
    ensures r.Some? ==> i <= r.value && StartsAt(s, r.value, w)
    ensures r.Some? ==> forall k :: i <= k < r.value ==> !StartsAt(s, k, w)
    ensures r.None? ==> forall k :: i <= k ==> !StartsAt(s, k, w)
  {
    if i > |s| then None
    else if StartsAt(s, i, w) then Some(i)
    else FindFrom(s, w, i + 1)
  }

  /** Python's `s.find(w)`, as an option. */
  function FindFirst(s: string, w: string): Option<nat>
  {
    FindFrom(s, w, 0)
  }

  /** Python's `w in s` on strings. */
  predicate Contains(s: string, w: string) { FindFirst(s, w).Some? }

  lemma ContainsAt(s: string, w: string, i: int)
    requires StartsAt(s, i, w)
    ensures Contains(s, w)
  {
  }

  /** Python's `str.strip()`. */
  function Strip(s: string): (r: string)
    ensures Trimmed(r)
    ensures var a := SpaceRun(s, 0);
      a + |r| <= |s| && r == s[a..a + |r|] && AllSpace(s[..a]) && AllSpace(s[a + |r|..])
  {
    var a := SpaceRun(s, 0);
    var r := TrimEnd(s[a..]);
    assert s[a..][|r|..] == s[a + |r|..];
    r
  }

  /** Drops trailing whitespace (Python's `str.rstrip()`). */
  function TrimEnd(s: string): (r: string)
    ensures |r| <= |s| && r == s[..|r|] && AllSpace(s[|r|..])
    ensures r == [] || !IsSpace(r[|r| - 1])
  {
    if s != [] && IsSpace(s[|s| - 1]) then TrimEnd(s[..|s| - 1]) else s
  }

  lemma {:induction false} TrimEndKeepsTrimmed(s: string)
    requires s == [] || !IsSpace(s[|s| - 1])
    ensures TrimEnd(s) == s
  {
  }

  /** A string that is already stripped is left alone by `strip`. */
  lemma {:induction false} StripTrimmed(s: string)
    requires Trimmed(s)
    ensures Strip(s) == s
  {
    assert SpaceRun(s, 0) == 0;
    assert s[0..] == s;
    TrimEndKeepsTrimmed(s);
  }

  /** `strip` is idempotent. */
  lemma StripIdempotent(s: string)
    ensures Strip(Strip(s)) == Strip(s)
  {
    StripTrimmed(Strip(s));
  }

  /** Python's `sep.join(parts)`. */
  function Join(parts: seq<string>, sep: string): string {
    if parts == [] then ""
    else if |parts| == 1 then parts[0]
    else parts[0] + sep + Join(parts[1..], sep)
  }

  /** Python's `s.split(sep)` for a non-empty separator. */
  function Split(s: string, sep: string): (r: seq<string>)
    requires |sep| > 0
    decreases |s|
    ensures |r| >= 1
  {
    match FindFirst(s, sep)
    case None => [s]
    case Some(k) => [s[..k]] + Split(s[k + |sep|..], sep)
  }

  /** Python's `s.replace(pat, rep)` for a non-empty `pat`: every occurrence, left to right. */
  function ReplaceAll(s: string, pat: string, rep: string): string
    requires |pat| > 0
    decreases |s|
  {
    match FindFirst(s, pat)
    case None => s
    case Some(k) => s[..k] + rep + ReplaceAll(s[k + |pat|..], pat, rep)
  }

  /** Joining the pieces of a split with the separator gives the string back. */
  lemma {:induction false} JoinSplit(s: string, sep: string)
    requires |sep| > 0
    ensures Join(Split(s, sep), sep) == s
    decreases |s|
  {
    match FindFirst(s, sep)
    case None =>
    case Some(k) =>
      var rest := s[k + |sep|..];
      var tail := Split(rest, sep);
      JoinSplit(rest, sep);
      assert Split(s, sep) == [s[..k]] + tail;
      assert Join([s[..k]] + tail, sep) == s[..k] + sep + Join(tail, sep) by {
        assert ([s[..k]] + tail)[1..] == tail;
      }
      assert s[k..k + |sep|] == sep;
      assert s == s[..k] + s[k..k + |sep|] + rest;
  }

  /** Python's documented identity: `s.replace(pat, rep) == rep.join(s.split(pat))`. */
  lemma {:induction false} ReplaceIsJoinOfSplit(s: string, pat: string, rep: string)
    requires |pat| > 0
    ensures ReplaceAll(s, pat, rep) == Join(Split(s, pat), rep)
    decreases |s|
  {
    match FindFirst(s, pat)
    case None =>
    case Some(k) =>
      var rest := s[k + |pat|..];
      ReplaceIsJoinOfSplit(rest, pat, rep);
      var tail := Split(rest, pat);
      assert Split(s, pat) == [s[..k]] + tail;
      assert ([s[..k]] + tail)[1..] == tail;
      assert Join([s[..k]] + tail, rep) == s[..k] + rep + Join(tail, rep);
  }

  /** Replacing a placeholder that does not occur changes nothing. */
  lemma ReplaceAbsent(s: string, pat: string, rep: string)
    requires |pat| > 0 && !Contains(s, pat)
    ensures ReplaceAll(s, pat, rep) == s
  {
  }

  /** Python's `int(d)` for a string of ASCII digits. */
  function DigitsValue(d: string): (v: nat)
    requires AllDigits(d)
  {
    if d == [] then 0 else 10 * DigitsValue(d[..|d| - 1]) + (d[|d| - 1] as int - '0' as int)
  }

  /** Python's `str(n)` for a natural number: its decimal digits, most significant first. */
  function NatToString(n: nat): (r: string)
    ensures |r| > 0 && AllDigits(r)
    ensures |r| > 1 ==> r[0] != '0'
  {
    var last := [('0' as int + n % 10) as char];
    if n < 10 then last else NatToString(n / 10) + last
  }

  /** Reading back the decimal digits of `n` gives `n`: `int(str(n)) == n`. */
  lemma {:induction false} NatToStringValue(n: nat)
    ensures DigitsValue(NatToString(n)) == n
  {
    var r := NatToString(n);
    if n >= 10 {
      NatToStringValue(n / 10);
      assert r[..|r| - 1] == NatToString(n / 10);
    }
  }

  /** ASCII upper case (Python's `str.upper` on ASCII letters). */
  function UpperChar(c: char): char {
    if 'a' <= c <= 'z' then (c as int - 32) as char else c
  }

  function Upper(s: string): (r: string)
    ensures |r| == |s|
  {
    seq(|s|, k requires 0 <= k < |s| => UpperChar(s[k]))
  }

  /** Position of the first occurrence of x in a list that holds it. */
  function IndexOf<T(==)>(xs: seq<T>, x: T): (r: nat)
    requires x in xs
    ensures r < |xs| && xs[r] == x && x !in xs[..r]
  {
    if xs[0] == x then 0
    else
      var r := 1 + IndexOf(xs[1..], x);
      assert xs[..r] == [xs[0]] + xs[1..][..r - 1];
      r
  }
}
