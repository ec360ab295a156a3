/** The string operations of Python's `str` that the core relies on:
    `isdigit`, `isspace`, `splitlines`, `join`, `split`/`partition`,
    `removesuffix`, `strip`, `lower`, `replace` and integer formatting. */
module Text {
  import opened Wrappers

  /** Concatenation regroups freely. */
  lemma AppendAssoc<T>(a: seq<T>, b: seq<T>, c: seq<T>)
    ensures a + (b + c) == a + b + c
  {
  }

  /** An ASCII decimal digit. */
  predicate IsDigit(c: char) {
    '0' <= c <= '9'
  }

  /** `str.isdigit()`, taken as "non-empty and all ASCII digits". */
  predicate IsDigits(s: string) {
    |s| > 0 && forall k :: 0 <= k < |s| ==> IsDigit(s[k])
  }

  /** The characters `str.splitlines()` breaks at. */
  predicate IsLineBreak(c: char) {
    c == '\n' || c == '\r' || c == '\U{000B}' || c == '\U{000C}' ||
    c == '\U{001C}' || c == '\U{001D}' || c == '\U{001E}' || c == '\U{0085}' ||
    c == '\U{2028}' || c == '\U{2029}'
  }

  /** The characters `str.isspace()` accepts (and `str.split()` splits on). */
  predicate IsSpace(c: char) {
    c == ' ' || c == '\t' || c == '\n' || c == '\r' || c == '\U{000B}' || c == '\U{000C}' ||
    ('\U{001C}' <= c <= '\U{001F}') || c == '\U{0085}' || c == '\U{00A0}' || c == '\U{1680}' ||
    ('\U{2000}' <= c <= '\U{200A}') || c == '\U{2028}' || c == '\U{2029}' || c == '\U{202F}' ||
    c == '\U{205F}' || c == '\U{3000}'
  }

  predicate NoLineBreak(s: string) {
    forall k :: 0 <= k < |s| ==> !IsLineBreak(s[k])
  }

  predicate NoSpace(s: string) {
    forall k :: 0 <= k < |s| ==> !IsSpace(s[k])
  }

  lemma LineBreakIsSpace(c: char)
    ensures IsLineBreak(c) ==> IsSpace(c)
  {
  }

  /** `sep.join(xs)`. */
  function Join(xs: seq<string>, sep: string): string {
    if xs == [] then ""
    else if |xs| == 1 then xs[0]
    else xs[0] + sep + Join(xs[1..], sep)
  }

  lemma {:induction false} JoinAppend(xs: seq<string>, x: string, sep: string)
    ensures Join(xs + [x], sep) == if xs == [] then x else Join(xs, sep) + sep + x
  {
    if |xs| > 1 {
      assert (xs + [x])[1..] == xs[1..] + [x];
      JoinAppend(xs[1..], x, sep);
    } else if |xs| == 1 {
      assert (xs + [x])[1..] == [x];
    }
  }

  /** Index of the first line-break character of `s`, or `|s|`. */
  function FirstBreak(s: string): (i: nat)
    ensures i <= |s|
    ensures forall k :: 0 <= k < i ==> !IsLineBreak(s[k])
    ensures i < |s| ==> IsLineBreak(s[i])
  {
    if s == [] || IsLineBreak(s[0]) then 0 else 1 + FirstBreak(s[1..])
  }

  /** Width of the line break at `i`: "\r\n" counts as one break. */
  function BreakWidth(s: string, i: nat): nat
    requires i < |s|
  {
    if s[i] == '\r' && i + 1 < |s| && s[i + 1] == '\n' then 2 else 1
  }

  /** `str.splitlines()`: the lines of `s` without their terminators; a final
      terminator does not start an extra empty line. */
  function SplitLines(s: string): seq<string>
    decreases |s|
  {
    if s == [] then []
    else
      var i := FirstBreak(s);
      if i == |s| then [s]
      else [s[..i]] + SplitLines(s[i + BreakWidth(s, i)..])
  }

  /** No line produced by `splitlines` contains a line break. */
  lemma {:induction false} SplitLinesHaveNoBreaks(s: string)
    ensures forall k :: 0 <= k < |SplitLines(s)| ==> NoLineBreak(SplitLines(s)[k])
    decreases |s|
  {
    if s != [] {
      var i := FirstBreak(s);
      if i < |s| {
        SplitLinesHaveNoBreaks(s[i + BreakWidth(s, i)..]);
      }
    }
  }

  lemma FirstBreakOfLine(x: string, rest: string)
    requires NoLineBreak(x)
    requires rest != [] && IsLineBreak(rest[0])
    ensures FirstBreak(x + rest) == |x|
  {
    assert (x + rest)[|x|] == rest[0];
  }

  /** `"\n".join(xs).splitlines() == xs` when every element is a non-empty
      line: the round trip behind the team-member cache files. */
  lemma {:induction false} SplitLinesJoin(xs: seq<string>)
    requires forall k :: 0 <= k < |xs| ==> xs[k] != [] && NoLineBreak(xs[k])
    ensures SplitLines(Join(xs, "\n")) == xs
  {
    if |xs| == 1 {
      assert FirstBreak(xs[0]) == |xs[0]|;
    } else if |xs| > 1 {
      var x, tail := xs[0], Join(xs[1..], "\n");
      var s := x + "\n" + tail;
      assert s == x + ("\n" + tail);
      FirstBreakOfLine(x, "\n" + tail);
      assert s[|x|] == '\n';
      assert BreakWidth(s, |x|) == 1;
      assert s[..|x|] == x;
      assert s[|x| + 1..] == tail;
      SplitLinesJoin(xs[1..]);
    }
  }

  lemma NoLineBreakConcat(a: string, b: string)
    ensures NoLineBreak(a + b) <==> NoLineBreak(a) && NoLineBreak(b)
  {
    if NoLineBreak(a) && NoLineBreak(b) {
      forall k | 0 <= k < |a + b| ensures !IsLineBreak((a + b)[k]) {
        if k >= |a| {
          assert (a + b)[k] == b[k - |a|];
        }
      }
    }
    if NoLineBreak(a + b) {
      forall k | 0 <= k < |a| ensures !IsLineBreak(a[k]) {
        assert (a + b)[k] == a[k];
      }
      forall k | 0 <= k < |b| ensures !IsLineBreak(b[k]) {
        assert (a + b)[|a| + k] == b[k];
      }
    }
  }

  /** Joining break-free pieces with a break-free separator gives a
      break-free line. */
  lemma {:induction false} JoinNoLineBreak(xs: seq<string>, sep: string)
    requires NoLineBreak(sep)
    requires forall k :: 0 <= k < |xs| ==> NoLineBreak(xs[k])
    ensures NoLineBreak(Join(xs, sep))
  {
    if |xs| > 1 {
      JoinNoLineBreak(xs[1..], sep);
      NoLineBreakConcat(xs[0], sep);
      NoLineBreakConcat(xs[0] + sep, Join(xs[1..], sep));
    }
  }

  /** A join of break-free lines with "\n" contains no carriage return. */
  lemma {:induction false} JoinLinesHasNoCarriageReturn(xs: seq<string>)
    requires forall k :: 0 <= k < |xs| ==> NoLineBreak(xs[k])
    ensures forall k :: 0 <= k < |Join(xs, "\n")| ==> Join(xs, "\n")[k] != '\r'
  {
    if |xs| > 1 {
      JoinLinesHasNoCarriageReturn(xs[1..]);
      var s := Join(xs, "\n");
      assert s == xs[0] + "\n" + Join(xs[1..], "\n");
      forall k | 0 <= k < |s| ensures s[k] != '\r' {
        if k < |xs[0]| {
          assert s[k] == xs[0][k];
        } else if k > |xs[0]| {
          assert s[k] == Join(xs[1..], "\n")[k - |xs[0]| - 1];
        }
      }
    }
  }

  /** `pat` occurs in `s` starting at index `k`. */
  predicate OccursAt(s: string, pat: string, k: nat) {
    k + |pat| <= |s| && s[k..k + |pat|] == pat
  }

  /** The first occurrence of `pat` in `s` at or after `from`. */
  function FindFrom(s: string, pat: string, from: nat): (r: Option<nat>)
    ensures r.Some? ==> from <= r.value && OccursAt(s, pat, r.value)
    ensures r.Some? ==> forall k :: from <= k < r.value ==> !OccursAt(s, pat, k)
    ensures r.None? ==> forall k :: from <= k ==> !OccursAt(s, pat, k)
    decreases |s| - from
  {
    if from + |pat| > |s| then None
    else if s[from..from + |pat|] == pat then Some(from)
    else FindFrom(s, pat, from + 1)
  }

  /** `s.find(pat)`, as an option: the first occurrence of `pat`. */
  function FindFirst(s: string, pat: string): (r: Option<nat>)
    ensures r.Some? ==> OccursAt(s, pat, r.value) && forall k :: 0 <= k < r.value ==> !OccursAt(s, pat, k)
    ensures r.None? ==> forall k :: 0 <= k ==> !OccursAt(s, pat, k)
  {
    FindFrom(s, pat, 0)
  }

  predicate StartsWith(s: string, prefix: string) {
    |prefix| <= |s| && s[..|prefix|] == prefix
  }

  predicate EndsWith(s: string, suffix: string) {
    |suffix| <= |s| && s[|s| - |suffix|..] == suffix
  }

  /** `s.removesuffix(suffix)`. */
  function RemoveSuffix(s: string, suffix: string): (r: string)
    ensures EndsWith(s, suffix) ==> r + suffix == s
    ensures !EndsWith(s, suffix) ==> r == s
  {
    if EndsWith(s, suffix) then s[..|s| - |suffix|] else s
  }

  /** Index of the first `c` in `s`, or `|s|`. */
  function IndexOf(s: string, c: char): (i: nat)
    ensures i <= |s|
    ensures forall k :: 0 <= k < i ==> s[k] != c
    ensures i < |s| ==> s[i] == c
  {
    if s == [] || s[0] == c then 0 else 1 + IndexOf(s[1..], c)
  }

  lemma IndexOfAfter(x: string, rest: string, c: char)
    requires forall k :: 0 <= k < |x| ==> x[k] != c
    requires rest != [] && rest[0] == c
    ensures IndexOf(x + rest, c) == |x|
  {
    assert (x + rest)[|x|] == c;
  }

  /** `s.partition(c)[0]`: everything before the first `c` (all of `s` if none). */
  function PartitionHead(s: string, c: char): string {
    s[..IndexOf(s, c)]
  }

  /** `s.partition(c)[2]`: everything after the first `c` ("" if none). */
  function PartitionTail(s: string, c: char): string {
    var i := IndexOf(s, c);
    if i < |s| then s[i + 1..] else ""
  }

  /** `s.lstrip()`. */
  function StripLeft(s: string): (r: string)
    ensures |r| <= |s| && r == s[|s| - |r|..]
    ensures r == [] || !IsSpace(r[0])
  {
    if s != [] && IsSpace(s[0]) then StripLeft(s[1..]) else s
  }

  /** `s.rstrip()`. */
  function StripRight(s: string): (r: string)
    ensures |r| <= |s| && r == s[..|r|]
    ensures r == [] || !IsSpace(r[|r| - 1])
  {
    if s != [] && IsSpace(s[|s| - 1]) then StripRight(s[..|s| - 1]) else s
  }

  /** `s.strip()`. */
  function Strip(s: string): string {
    StripRight(StripLeft(s))
  }

  /** `str.lower()` on ASCII letters. */
  function LowerChar(c: char): char {
    if 'A' <= c <= 'Z' then (c as int + 32) as char else c
  }

  function Lower(s: string): (r: string)
    ensures |r| == |s|
    ensures forall k :: 0 <= k < |s| ==> r[k] == LowerChar(s[k])
  {
    if s == [] then [] else [LowerChar(s[0])] + Lower(s[1..])
  }

  lemma LowerUnchanged(s: string)
    requires forall k :: 0 <= k < |s| ==> !('A' <= s[k] <= 'Z')
    ensures Lower(s) == s
  {
    assert forall k :: 0 <= k < |s| ==> Lower(s)[k] == s[k];
  }

  /** `s.replace(a, b)` for single characters. */
  function ReplaceChar(s: string, a: char, b: char): (r: string)
    ensures |r| == |s|
    ensures forall k :: 0 <= k < |s| ==> r[k] == if s[k] == a then b else s[k]
  {
    if s == [] then [] else [if s[0] == a then b else s[0]] + ReplaceChar(s[1..], a, b)
  }

  lemma ReplaceCharUnchanged(s: string, a: char, b: char)
    requires forall k :: 0 <= k < |s| ==> s[k] != a
    ensures ReplaceChar(s, a, b) == s
  {
    assert forall k :: 0 <= k < |s| ==> ReplaceChar(s, a, b)[k] == s[k];
  }

  function DigitChar(d: nat): char
    requires d < 10
  {
    ('0' as int + d) as char
  }

  /** `str(n)` for a natural number. */
  function NatToString(n: nat): (r: string)
    ensures IsDigits(r)
  {
    if n < 10 then [DigitChar(n)] else NatToString(n / 10) + [DigitChar(n % 10)]
  }
}
