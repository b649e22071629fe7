/**
 What the parser reads: the lines of a hunk body, and patch texts one after another.
 */
module Parsing {
  import opened Text
  import opened Lines
  import opened Patch

  /** The remark of a line that had no newline. */
  predicate IsRemark(line: string) {
    NO_NEWLINE <= TrimLineEnd(line)
  }

  /** A line of a hunk body: context, deletion or insertion. */
  predicate IsBodyLine(line: string) {
    line != "" && (line[0] == ' ' || line[0] == '-' || line[0] == '+')
  }

  /** A text that ends in none of CR and LF starts a line exactly when it starts it trimmed. */
  lemma StartsTrimmed(p: string, line: string)
    requires p != "" && !IsLineBreak(p[|p| - 1])
    ensures p <= TrimLineEnd(line) <==> p <= line
  {
    TrimLineEndIs(line);
    var r := TrimLineEnd(line);
    if p <= line {
      assert line[|p| - 1] == p[|p| - 1];
      assert |p| <= |r| && r[..|p|] == line[..|p|];
    }
  }

  /** What ends a hunk, and a file. */
  lemma EndsAre(line: string)
    ensures EndsHunk(line) <==> "@@ " <= line || "--- " <= line || "diff --git " <= line
    ensures EndsFile(line) <==> "--- " <= line || "diff --git " <= line
  {
    StartsTrimmed("@@ ", line);
    StartsTrimmed("--- ", line);
    StartsTrimmed("diff --git ", line);
  }

  /** All quotes at the ends of a path go, and nothing else. */
  lemma {:induction false} QuotesAreTrimmed(s: string) returns (i: nat, j: nat)
    ensures i <= j <= |s| && TrimQuotes(s) == s[i..j]
    ensures forall k :: 0 <= k < |s| && !(i <= k < j) ==> s[k] == '"'
    ensures i < j ==> s[i] != '"' && s[j - 1] != '"'
    decreases |s|
  {
    if s != "" && s[0] == '"' {
      var rest := s[1..];
      i, j := QuotesAreTrimmed(rest);
      i, j := i + 1, j + 1;
      assert forall k :: 1 <= k < |s| ==> s[k] == rest[k - 1];
      assert s[i..j] == rest[i - 1..j - 1];
    } else if s != "" && s[|s| - 1] == '"' {
      var front := s[..|s| - 1];
      i, j := QuotesAreTrimmed(front);
      assert forall k :: 0 <= k < |s| - 1 ==> s[k] == front[k];
      assert s[i..j] == front[i..j];
    } else {
      i, j := 0, |s|;
    }
  }

  /** What the body lines among some lines say; remarks say nothing. */
  function Said(ls: seq<string>): seq<PatchLine> {
    if ls == [] then []
    else if IsRemark(ls[0]) || !IsBodyLine(ls[0]) then Said(ls[1..])
    else
      [PatchLine(if ls[0][0] == ' ' then Context else if ls[0][0] == '-' then Delete else Insert, ls[0][1..])]
      + Said(ls[1..])
  }

  /** A line that starts the next hunk or file. */
  predicate StartsNext(line: string) {
    "@@ " <= line || "--- " <= line || "diff --git " <= line
  }

  /** A hunk body is read up to the end, to a line that starts something else, or to one that is
      neither a body line nor a remark; and it is what the lines before that say. */
  lemma {:induction false} BodyIsExactly(lines: seq<string>, i: nat)
    requires i <= |lines|
    ensures var next := ParseBody(lines, i).1;
            && (forall k :: i <= k < next ==> !StartsNext(lines[k]) && (IsRemark(lines[k]) || IsBodyLine(lines[k])))
            && (next < |lines| ==> StartsNext(lines[next]) || (!IsRemark(lines[next]) && !IsBodyLine(lines[next])))
            && ParseBody(lines, i).0 == Said(lines[i..next])
    decreases |lines| - i
  {
    hide EndsHunk, TrimLineEnd, StartsNext;
    var next := ParseBody(lines, i).1;
    if i < |lines| {
      assert EndsHunk(lines[i]) <==> StartsNext(lines[i]) by { StartsNextIs(lines[i]); }
    }
    if i < next {
      BodyIsExactly(lines, i + 1);
      assert lines[i..next][1..] == lines[i + 1..next] && lines[i..next][0] == lines[i];
    } else {
      assert lines[i..next] == [];
    }
  }

  lemma StartsNextIs(line: string)
    ensures EndsHunk(line) <==> StartsNext(line)
  {
    hide EndsHunk;
    EndsAre(line);
  }

  // ------------------------------------------------------------ patches in a row

  lemma {:induction false} BodyInSum(a: seq<string>, b: seq<string>, i: nat)
    requires i <= |a| && (b == [] || EndsHunk(b[0]))
    ensures ParseBody(a + b, i) == ParseBody(a, i)
    decreases |a| - i
  {
    hide EndsHunk, TrimLineEnd;
    if i < |a| {
      assert (a + b)[i] == a[i];
      BodyInSum(a, b, i + 1);
    } else if b != [] {
      assert (a + b)[i] == b[0];
    }
  }

  lemma {:induction false} HunksInSum(a: seq<string>, b: seq<string>, i: nat)
    requires i <= |a| && (b == [] || "--- " <= TrimLineEnd(b[0]))
    ensures ParseHunks(a + b, i) == ParseHunks(a, i)
    decreases |a| - i
  {
    hide TrimLineEnd, ParseHeader, ParseBody;
    if i < |a| {
      assert (a + b)[i] == a[i];
      if !EndsFile(a[i]) {
        if "@@ " <= TrimLineEnd(a[i]) {
          BodyInSum(a, b, i + 1);
          HunksInSum(a, b, ParseBody(a, i + 1).1);
        } else {
          HunksInSum(a, b, i + 1);
        }
      }
    } else if b != [] {
      assert (a + b)[i] == b[0];
    }
  }

  lemma {:induction false} BodyMoved(a: seq<string>, b: seq<string>, i: nat)
    requires i <= |b|
    ensures ParseBody(a + b, |a| + i) == (ParseBody(b, i).0, |a| + ParseBody(b, i).1)
    decreases |b| - i
  {
    hide EndsHunk, TrimLineEnd;
    if i < |b| {
      assert (a + b)[|a| + i] == b[i];
      BodyMoved(a, b, i + 1);
    }
  }

  lemma {:induction false} HunksMoved(a: seq<string>, b: seq<string>, i: nat)
    requires i <= |b|
    ensures ParseHunks(a + b, |a| + i)
            == var r := ParseHunks(b, i); if r.Err? then r else Ok((r.value.0, |a| + r.value.1))
    decreases |b| - i
  {
    hide EndsFile, TrimLineEnd, ParseHeader, ParseBody;
    if i < |b| {
      assert (a + b)[|a| + i] == b[i];
      if !EndsFile(b[i]) {
        if "@@ " <= TrimLineEnd(b[i]) {
          BodyMoved(a, b, i + 1);
          HunksMoved(a, b, ParseBody(b, i + 1).1);
        } else {
          HunksMoved(a, b, i + 1);
        }
      }
    }
  }

  lemma {:induction false} FilesMoved(a: seq<string>, b: seq<string>, i: nat, strip: int)
    requires i <= |b|
    ensures ParseFiles(a + b, |a| + i, strip) == ParseFiles(b, i, strip)
    decreases |b| - i
  {
    hide TrimLineEnd, ParseHunks, HeaderPath;
    if i < |b| {
      assert (a + b)[|a| + i] == b[i];
      assert i + 1 < |b| ==> (a + b)[|a| + i + 1] == b[i + 1];
      if !("--- " <= TrimLineEnd(b[i])) {
        FilesMoved(a, b, i + 1, strip);
      } else if i + 1 < |b| && "+++ " <= TrimLineEnd(b[i + 1]) {
        HunksMoved(a, b, i + 2);
        if ParseHunks(b, i + 2).Ok? {
          FilesMoved(a, b, ParseHunks(b, i + 2).value.1, strip);
        }
      }
    }
  }

  /** The files of one patch and then those of another. */
  function Both(first: Result<seq<FilePatch>, ParseError>, second: Result<seq<FilePatch>, ParseError>)
    : Result<seq<FilePatch>, ParseError>
  {
    if first.Err? then first else if second.Err? then second else Ok(first.value + second.value)
  }

  lemma {:induction false} FilesInSum(a: seq<string>, b: seq<string>, i: nat, strip: int)
    requires i <= |a| && (b == [] || "--- " <= TrimLineEnd(b[0])) && ParseFiles(a, i, strip).Ok?
    ensures ParseFiles(a + b, i, strip) == Both(ParseFiles(a, i, strip), ParseFiles(b, 0, strip))
    decreases |a| - i
  {
    hide TrimLineEnd, ParseHunks, HeaderPath;
    if i == |a| {
      FilesMoved(a, b, 0, strip);
      NothingFirst(ParseFiles(b, 0, strip));
    } else {
      assert (a + b)[i] == a[i];
      if !("--- " <= TrimLineEnd(a[i])) {
        FilesInSum(a, b, i + 1, strip);
      } else {
        assert (a + b)[i + 1] == a[i + 1];
        HunksInSum(a, b, i + 2);
        var r := ParseHunks(a, i + 2).value;
        FilesInSum(a, b, r.1, strip);
        var file := FilePatch(HeaderPath(a[i], strip), HeaderPath(a[i + 1], strip), r.0);
        if ParseFiles(b, 0, strip).Ok? {
          OneFirst(file, ParseFiles(a, r.1, strip), ParseFiles(b, 0, strip));
        }
      }
    }
  }

  lemma NothingFirst(r: Result<seq<FilePatch>, ParseError>)
    ensures Both(Ok([]), r) == r
  {
    assert r.Ok? ==> [] + r.value == r.value;
  }

  lemma OneFirst(f: FilePatch, a: Result<seq<FilePatch>, ParseError>, b: Result<seq<FilePatch>, ParseError>)
    requires a.Ok? && b.Ok?
    ensures [f] + Both(a, b).value == ([f] + a.value) + b.value
  {
  }

  lemma SplitSum(p: string, q: string)
    requires p == "" || Terminated(p)
    ensures SplitLines(p + q) == SplitLines(p) + SplitLines(q)
  {
    hide SplitLines, Terminated, AllTerminated, Proper;
    TerminatedText(p);
    SplitIsProper(p);
    SplitIsProper(q);
    SumIsProper(SplitLines(p), SplitLines(q));
    JoinSum(SplitLines(p), SplitLines(q));
    JoinSplit(p);
    JoinSplit(q);
    SplitJoin(SplitLines(p) + SplitLines(q));
  }

  lemma SumIsProper(a: seq<string>, b: seq<string>)
    requires Proper(a) && Proper(b) && AllTerminated(a)
    ensures Proper(a + b)
  {
    hide IsLine, Terminated;
  }

  /** Patches in a row: when the first parses, and is terminated, and the second starts a file, the
      files of both are read, one after the other. */
  lemma PatchesInARow(p: string, q: string, strip: int)
    requires p == "" || Terminated(p)
    requires "--- " <= q && Parse(p, strip).Ok?
    ensures Parse(p + q, strip) == Both(Parse(p, strip), Parse(q, strip))
  {
    hide SplitLines, ParseFiles, TrimLineEnd;
    SplitSum(p, q);
    StartsLine(q);
    FilesInSum(SplitLines(p), SplitLines(q), 0, strip);
  }

  lemma StartsLine(q: string)
    requires "--- " <= q
    ensures SplitLines(q) != [] && "--- " <= TrimLineEnd(SplitLines(q)[0])
  {
    hide SplitLines, TrimLineEnd;
    SplitStep(q);
    var k := FirstLineLength(q);
    var line := SplitLines(q)[0];
    assert forall x :: 0 <= x < 4 ==> q[x] == "--- "[x] != '\n';
    assert k >= 4;
    assert line[..4] == q[..4] == "--- ";
    TrimLineEndIs(line);
    assert |TrimLineEnd(line)| < 4 ==> IsLineBreak(line[3]);
  }
}
