/** `GitRepository.get_mutually_exclusive_commits` (src/ddqa/utils/git.py):
    the lines of `git cherry -v <upstream> <head>` become commits, except
    those marked `-` (already cherry-picked into upstream). Running git is
    left out: the captured output is the input. */
module Git {
  import opened Wrappers
  import opened Text

  datatype GitCommit = GitCommit(hash: string, subject: string)

  /** The three fields of `line.split(maxsplit=2)`. */
  datatype CherryLine = CherryLine(sign: string, hash: string, subject: string)

  /** First index at or after `i` that is not whitespace (or `|s|`). */
  function SkipSpaces(s: string, i: nat): (r: nat)
    requires i <= |s|
    ensures i <= r <= |s|
    ensures forall k :: i <= k < r ==> IsSpace(s[k])
    ensures r < |s| ==> !IsSpace(s[r])
    decreases |s| - i
  {
    if i < |s| && IsSpace(s[i]) then SkipSpaces(s, i + 1) else i
  }

  /** First index at or after `i` that is whitespace (or `|s|`). */
  function WordEnd(s: string, i: nat): (r: nat)
    requires i <= |s|
    ensures i <= r <= |s|
    ensures forall k :: i <= k < r ==> !IsSpace(s[k])
    ensures r < |s| ==> IsSpace(s[r])
    decreases |s| - i
  {
    if i < |s| && !IsSpace(s[i]) then WordEnd(s, i + 1) else i
  }

  /** `sign, hash, subject = line.split(maxsplit=2)`: leading whitespace is
      skipped, the first two whitespace runs separate the fields and the
      subject is the rest of the line, inner and trailing whitespace
      included. `None` is the failing unpack of a line with fewer than
      three fields. */
  function SplitFields(line: string): (r: Option<CherryLine>)
    ensures r.Some? ==> r.value.sign != [] && NoSpace(r.value.sign)
    ensures r.Some? ==> r.value.hash != [] && NoSpace(r.value.hash)
    ensures r.Some? ==> r.value.subject != [] && !IsSpace(r.value.subject[0])
    ensures r.Some? ==> EndsWith(line, r.value.subject)
  {
    var a := SkipSpaces(line, 0);
    var b := WordEnd(line, a);
    var c := SkipSpaces(line, b);
    var d := WordEnd(line, c);
    var e := SkipSpaces(line, d);
    if a == |line| || c == |line| || e == |line| then None
    else Some(CherryLine(line[a..b], line[c..d], line[e..]))
  }

  predicate AllSpace(s: string) {
    forall k :: 0 <= k < |s| ==> IsSpace(s[k])
  }

  lemma SkipSpacesOver(s: string, i: nat, j: nat)
    requires i <= j <= |s|
    requires forall k :: i <= k < j ==> IsSpace(s[k])
    requires j < |s| ==> !IsSpace(s[j])
    ensures SkipSpaces(s, i) == j
  {
  }

  lemma WordEndOver(s: string, i: nat, j: nat)
    requires i <= j <= |s|
    requires forall k :: i <= k < j ==> !IsSpace(s[k])
    requires j < |s| ==> IsSpace(s[j])
    ensures WordEnd(s, i) == j
  {
  }

  /** Skipping from the start of a whitespace run `w` lands on its end. */
  lemma SkipSpacesRun(line: string, pre: string, w: string, q: string, i: nat, j: nat)
    requires line == pre + (w + q) && i == |pre| && j == i + |w|
    requires AllSpace(w) && (q == [] || !IsSpace(q[0]))
    ensures j <= |line| && SkipSpaces(line, i) == j && line[j..] == q
  {
    forall k | |pre| <= k < |pre| + |w|
      ensures IsSpace(line[k])
    {
      assert line[k] == w[k - |pre|];
    }
    if q != [] {
      assert line[|pre| + |w|] == q[0];
    }
    SkipSpacesOver(line, |pre|, |pre| + |w|);
    assert line[j..] == q;
  }

  /** A word `w` ends where the whitespace after it begins. */
  lemma WordEndRun(line: string, pre: string, w: string, q: string, i: nat, j: nat)
    requires line == pre + (w + q) && i == |pre| && j == i + |w|
    requires NoSpace(w) && (q == [] || IsSpace(q[0]))
    ensures j <= |line| && WordEnd(line, i) == j && line[i..j] == w
  {
    forall k | |pre| <= k < |pre| + |w|
      ensures !IsSpace(line[k])
    {
      assert line[k] == w[k - |pre|];
    }
    if q != [] {
      assert line[|pre| + |w|] == q[0];
    }
    WordEndOver(line, |pre|, |pre| + |w|);
    assert line[i..j] == w;
  }

  /** Splitting recovers the fields a line was made of: any leading
      whitespace, the sign, a whitespace run, the hash, a whitespace run and
      a subject that starts with a non-space character. */
  lemma SplitFieldsOfComposedLine(lead: string, sign: string, sep1: string, hash: string,
                                   sep2: string, subject: string)
    requires AllSpace(lead) && AllSpace(sep1) && AllSpace(sep2)
    requires sep1 != [] && sep2 != []
    requires sign != [] && NoSpace(sign) && hash != [] && NoSpace(hash)
    requires subject != [] && !IsSpace(subject[0])
    ensures SplitFields(lead + sign + sep1 + hash + sep2 + subject) == Some(CherryLine(sign, hash, subject))
  {
    var line := lead + sign + sep1 + hash + sep2 + subject;
    var r3 := sep2 + subject;
    var r2 := hash + r3;
    var r1 := sep1 + r2;
    var r0 := sign + r1;
    assert line == (lead + sign + sep1 + hash) + r3 by {
      AppendAssoc(lead + sign + sep1 + hash, sep2, subject);
    }
    assert line == (lead + sign + sep1) + r2 by {
      AppendAssoc(lead + sign + sep1, hash, r3);
    }
    assert line == (lead + sign) + r1 by {
      AppendAssoc(lead + sign, sep1, r2);
    }
    assert line == lead + r0 by {
      AppendAssoc(lead, sign, r1);
    }
    assert line == [] + (lead + r0) by {
      assert [] + (lead + r0) == lead + r0;
    }
    assert r0[0] == sign[0] && r1[0] == sep1[0] && r2[0] == hash[0] && r3[0] == sep2[0];
    var a := |lead|;
    var b := a + |sign|;
    var c := b + |sep1|;
    var d := c + |hash|;
    var e := d + |sep2|;
    SkipSpacesRun(line, [], lead, r0, 0, a);
    WordEndRun(line, lead, sign, r1, a, b);
    SkipSpacesRun(line, lead + sign, sep1, r2, b, c);
    WordEndRun(line, lead + sign + sep1, hash, r3, c, d);
    SkipSpacesRun(line, lead + sign + sep1 + hash, sep2, subject, d, e);
    SplitFieldsAt(line, a, b, c, d, e);
  }

  /** `SplitFields` in terms of where its scans stop. */
  lemma SplitFieldsAt(line: string, a: nat, b: nat, c: nat, d: nat, e: nat)
    requires a < |line| && SkipSpaces(line, 0) == a
    requires b <= |line| && WordEnd(line, a) == b
    requires c < |line| && SkipSpaces(line, b) == c
    requires d <= |line| && WordEnd(line, c) == d
    requires e < |line| && SkipSpaces(line, d) == e
    ensures SplitFields(line) == Some(CherryLine(line[a..b], line[c..d], line[e..]))
  {
  }

  /** A cherry line whose sign is not `-` names a commit still to verify. */
  predicate Kept(f: CherryLine) {
    f.sign != "-"
  }

  predicate WellFormed(lines: seq<string>) {
    forall k :: 0 <= k < |lines| ==> SplitFields(lines[k]).Some?
  }

  /** The fields of every line of well-formed output. */
  function ParseLines(lines: seq<string>): (r: seq<CherryLine>)
    requires WellFormed(lines)
    ensures |r| == |lines|
    ensures forall k :: 0 <= k < |lines| ==> SplitFields(lines[k]) == Some(r[k])
  {
    seq(|lines|, k requires 0 <= k < |lines| => SplitFields(lines[k]).value)
  }

  /** The commits named by cherry lines, in line order. */
  function Commits(fs: seq<CherryLine>): seq<GitCommit> {
    if fs == [] then []
    else
      var f := fs[|fs| - 1];
      Commits(fs[..|fs| - 1]) + (if Kept(f) then [GitCommit(f.hash, f.subject)] else [])
  }

  /** The number of lines whose sign is not `-`. */
  function KeptCount(fs: seq<CherryLine>): nat {
    |set k | 0 <= k < |fs| && Kept(fs[k])|
  }

  /** `git cherry -v` output order is preserved: the commits of two blocks of
      lines are the commits of the first block followed by those of the
      second. */
  lemma {:induction false} CommitsAppend(a: seq<CherryLine>, b: seq<CherryLine>)
    ensures Commits(a + b) == Commits(a) + Commits(b)
    decreases |b|
  {
    if b == [] {
      assert a + b == a;
    } else {
      var b' := b[..|b| - 1];
      CommitsAppend(a, b');
      assert (a + b)[..|a + b| - 1] == a + b';
      assert (a + b)[|a + b| - 1] == b[|b| - 1];
    }
  }

  /** A line contributes exactly one commit (its hash and subject) when its
      sign is not `-`, and none when it is. */
  lemma CommitsOfLine(f: CherryLine)
    ensures Commits([f]) == if f.sign == "-" then [] else [GitCommit(f.hash, f.subject)]
  {
    assert [f][..0] == [];
  }

  /** Every commit comes from a line not signed `-`, and every such line
      gives a commit. */
  lemma {:induction false} CommitsMembership(fs: seq<CherryLine>, c: GitCommit)
    ensures c in Commits(fs) <==> exists k :: 0 <= k < |fs| && Kept(fs[k]) && c == GitCommit(fs[k].hash, fs[k].subject)
  {
    if fs != [] {
      var n := |fs|;
      var init, last := fs[..n - 1], fs[n - 1];
      var tail := if Kept(last) then [GitCommit(last.hash, last.subject)] else [];
      CommitsMembership(init, c);
      assert Commits(fs) == Commits(init) + tail;
      if c in Commits(init) {
        var k :| 0 <= k < n - 1 && Kept(init[k]) && c == GitCommit(init[k].hash, init[k].subject);
        assert fs[k] == init[k];
      } else if c in tail {
        assert Kept(fs[n - 1]) && c == GitCommit(fs[n - 1].hash, fs[n - 1].subject);
      }
      if exists k :: 0 <= k < n && Kept(fs[k]) && c == GitCommit(fs[k].hash, fs[k].subject) {
        var k :| 0 <= k < n && Kept(fs[k]) && c == GitCommit(fs[k].hash, fs[k].subject);
        if k < n - 1 {
          assert init[k] == fs[k];
        } else {
          assert c in tail;
        }
      }
    }
  }

  /** One commit per line whose sign is not `-`. */
  lemma {:induction false} CommitsLength(fs: seq<CherryLine>)
    ensures |Commits(fs)| == KeptCount(fs)
  {
    var n := |fs|;
    var s := set k | 0 <= k < n && Kept(fs[k]);
    if n == 0 {
      assert s == {};
    } else {
      var init := fs[..n - 1];
      CommitsLength(init);
      var s' := set k | 0 <= k < n - 1 && Kept(init[k]);
      assert forall k :: 0 <= k < n - 1 ==> init[k] == fs[k];
      if Kept(fs[n - 1]) {
        assert s == s' + {n - 1};
      } else {
        assert s == s';
      }
    }
  }

  /** Parsing one more well-formed line appends that line's commit, if any. */
  lemma ParseStep(lines: seq<string>, i: nat)
    requires i < |lines| && WellFormed(lines[..i]) && SplitFields(lines[i]).Some?
    ensures WellFormed(lines[..i + 1])
    ensures var f := SplitFields(lines[i]).value;
      Commits(ParseLines(lines[..i + 1])) ==
        Commits(ParseLines(lines[..i])) + (if Kept(f) then [GitCommit(f.hash, f.subject)] else [])
  {
    var f := SplitFields(lines[i]).value;
    var pre, pre' := lines[..i], lines[..i + 1];
    forall k | 0 <= k < i + 1 ensures SplitFields(pre'[k]).Some? {
      if k < i {
        assert pre'[k] == pre[k];
      }
    }
    var p, q := ParseLines(pre), ParseLines(pre');
    forall k | 0 <= k < i ensures q[k] == p[k] {
      assert pre'[k] == pre[k];
    }
    assert q[..i] == p;
    assert q[i] == f;
  }

  /** `get_mutually_exclusive_commits`: the output is split into lines and
      each line unpacked into sign, hash and subject; lines signed `-` are
      skipped. The first line with fewer than three fields aborts the call
      (the failed unpack), reported here with that line. */
  method GetMutuallyExclusiveCommits(output: string) returns (r: Result<seq<GitCommit>, string>)
    ensures r.Err? <==> !WellFormed(SplitLines(output))
    ensures r.Err? ==> r.error in SplitLines(output) && SplitFields(r.error).None?
    ensures r.Ok? ==> WellFormed(SplitLines(output)) && r.value == Commits(ParseLines(SplitLines(output)))
  {
    var lines := SplitLines(output);
    var commits: seq<GitCommit> := [];
    var i := 0;
    assert lines[..0] == [];
    while i < |lines|
      invariant 0 <= i <= |lines|
      invariant WellFormed(lines[..i])
      invariant commits == Commits(ParseLines(lines[..i]))
    {
      var fields := SplitFields(lines[i]);
      if fields.None? {
        return Err(lines[i]);
      }
      var f := fields.value;
      ParseStep(lines, i);
      if f.sign != "-" {
        commits := commits + [GitCommit(f.hash, f.subject)];
      }
      i := i + 1;
    }
    assert lines[..i] == lines;
    r := Ok(commits);
  }
}
