/**
 Printing, parsing and applying a diff undo one another.
 */
module RoundTrip {
  import opened Text
  import opened Lines
  import opened Patch
  import opened Diff

  // ------------------------------------------------------- the header round trip

  lemma {:induction false} DigitRunOfSum(digits: string, rest: string)
    requires AllDigits(digits) && (rest == "" || !IsDigit(rest[0]))
    ensures DigitRun(digits + rest) == |digits|
  {
    if digits == "" {
      assert digits + rest == rest;
    } else {
      assert (digits + rest)[1..] == digits[1..] + rest;
      DigitRunOfSum(digits[1..], rest);
    }
  }

  lemma CutAt(a: string, b: string)
    ensures (a + b)[..|a|] == a && (a + b)[|a|..] == b
  {
  }

  lemma RangeParses(a: nat, b: nat, rest: string)
    requires a <= MAX_INT && b <= MAX_INT && rest != "" && rest[0] == ' '
    ensures ParseRange(Itoa(a) + ("," + (Itoa(b) + rest))) == Some(Range(a, b, rest))
  {
    hide Itoa, DigitRun, DecimalValue;
    var tail := "," + (Itoa(b) + rest);
    DigitRunOfSum(Itoa(a), tail);
    CutAt(Itoa(a), tail);
    CutAt(",", Itoa(b) + rest);
    DigitRunOfSum(Itoa(b), rest);
    CutAt(Itoa(b), rest);
  }

  lemma TrimOneNewline(s: string)
    requires s == "" || !IsLineBreak(s[|s| - 1])
    ensures TrimLineEnd(s + "\n") == s
  {
    assert (s + "\n")[..|s|] == s;
    if s != "" {
      assert TrimLineEnd(s) == s;
    }
  }

  lemma HeaderParses(a: nat, b: nat, c: nat, d: nat)
    requires a <= MAX_INT && b <= MAX_INT && c <= MAX_INT && d <= MAX_INT
    ensures ParseHeader(TrimLineEnd(PrintHeader(a, b, c, d))) == Some(Hunk(a, b, c, d, []))
    ensures "@@ " <= TrimLineEnd(PrintHeader(a, b, c, d))
  {
    hide Itoa, ParseRange;
    var two := Itoa(c) + ("," + (Itoa(d) + " @@"));
    var one := Itoa(a) + ("," + (Itoa(b) + (" +" + two)));
    var h := "@@ -" + one;
    assert PrintHeader(a, b, c, d) == h + "\n";
    assert h[|h| - 1] == '@';
    TrimOneNewline(h);
    CutAt("@@ -", one);
    RangeParses(a, b, " +" + two);
    CutAt(" +", two);
    RangeParses(c, d, " @@");
  }

  // --------------------------------------------------------- the body round trip

  /** A printed line a hunk can hold: deleting a line that starts with `-- ` would print
      the start of a new file. */
  predicate Holdable(l: PatchLine) {
    Terminated(l.text) && IsLine(l.text) && (l.kind == Delete ==> !("-- " <= l.text))
  }

  lemma PrefixOfTrimmed(p: string, line: string)
    requires p <= TrimLineEnd(line)
    ensures |p| <= |line| && forall i :: 0 <= i < |p| ==> line[i] == p[i]
  {
    assert TrimLineEnd(line) <= line;
  }

  lemma NotTrimmedPrefix(p: string, line: string, i: nat)
    requires i < |p| && i < |line| && line[i] != p[i]
    ensures !(p <= TrimLineEnd(line))
  {
    if p <= TrimLineEnd(line) {
      PrefixOfTrimmed(p, line);
    }
  }

  /** What `TrimLineEnd` cannot remove. */
  lemma TrimKeepsPrefix(p: string, line: string)
    requires p <= line && p != "" && !IsLineBreak(p[|p| - 1])
    ensures p <= TrimLineEnd(line)
  {
    if line != p && IsLineBreak(line[|line| - 1]) {
      TrimKeepsPrefix(p, line[..|line| - 1]);
    }
  }

  /** A printed deletion looks like the start of a file exactly when its text starts with `-- `. */
  lemma DeletionStartsFile(l: PatchLine)
    requires l.kind == Delete
    ensures "--- " <= TrimLineEnd(PrintLine(l)) <==> "-- " <= l.text
  {
    hide TrimLineEnd;
    var line := PrintLine(l);
    if "-- " <= l.text {
      assert "--- " <= line;
      TrimKeepsPrefix("--- ", line);
    }
    if "--- " <= TrimLineEnd(line) {
      PrefixOfTrimmed("--- ", line);
      assert forall i :: 0 <= i < 3 ==> l.text[i] == line[i + 1] == "-- "[i];
    }
  }

  lemma LineIsRead(l: PatchLine)
    requires Holdable(l)
    ensures var line := PrintLine(l);
            && !EndsHunk(line) && !(NO_NEWLINE <= TrimLineEnd(line))
            && KindOf(line[0]) == Some(l.kind) && line[1..] == l.text
  {
    hide TrimLineEnd;
    var line := PrintLine(l);
    NotTrimmedPrefix("@@ ", line, 0);
    NotTrimmedPrefix("diff --git ", line, 0);
    NotTrimmedPrefix(NO_NEWLINE, line, 0);
    if l.kind == Delete {
      DeletionStartsFile(l);
    } else {
      NotTrimmedPrefix("--- ", line, 0);
    }
  }

  /** `body` is printed on the lines from `i` on. */
  ghost predicate PrintedAt(lines: seq<string>, i: nat, body: seq<PatchLine>) {
    i + |body| <= |lines| && forall k :: 0 <= k < |body| ==> PrintLine(body[k]) == lines[i + k]
  }

  lemma PrintedCons(lines: seq<string>, i: nat, body: seq<PatchLine>)
    requires body != [] && PrintedAt(lines, i, body)
    ensures i < |lines| && lines[i] == PrintLine(body[0]) && PrintedAt(lines, i + 1, body[1..])
  {
    assert lines[i + 0] == PrintLine(body[0]);
    forall k | 0 <= k < |body[1..]| ensures PrintLine(body[1..][k]) == lines[i + 1 + k] {
      assert PrintLine(body[k + 1]) == lines[i + (k + 1)];
    }
  }

  /** Holdable lines are read back, up to the end or to a line that ends the hunk. */
  lemma {:induction false} BodyParses(lines: seq<string>, i: nat, body: seq<PatchLine>)
    requires i + |body| <= |lines| && PrintedAt(lines, i, body)
    requires forall k :: 0 <= k < |body| ==> Holdable(body[k])
    requires i + |body| == |lines| || EndsHunk(lines[i + |body|])
    ensures ParseBody(lines, i) == (body, i + |body|)
    decreases |body|
  {
    hide Holdable, EndsHunk, PrintedAt;
    if body != [] {
      PrintedCons(lines, i, body);
      LineIsRead(body[0]);
      BodyParses(lines, i + 1, body[1..]);
      assert [body[0]] + body[1..] == body;
    }
  }

  // --------------------------------------------------------- the whole diff parses

  predicate AllLines(ls: seq<string>) {
    forall i :: 0 <= i < |ls| ==> IsLine(ls[i])
  }

  predicate OneLinePath(path: string) {
    forall i :: 0 <= i < |path| ==> path[i] != '\n'
  }

  /** No deleted line starts with `-- `. */
  predicate NoDashedDeletion(src: seq<string>, dst: seq<string>, context: nat) {
    var g := RegionOf(src, dst, context);
    forall i :: g.from <= i < g.oldTo ==> !("-- " <= src[i])
  }

  lemma EnsureNLIsLine(l: string)
    requires IsLine(l)
    ensures IsLine(EnsureNL(l)) && Terminated(EnsureNL(l))
    ensures "-- " <= EnsureNL(l) <==> "-- " <= l
  {
    if !Terminated(l) {
      assert forall i :: 0 <= i < |l| ==> (l + "\n")[i] == l[i] && l[i] != '\n';
      if "-- " <= l + "\n" {
        assert (l + "\n")[2] == ' ';
        assert (l + "\n")[..3] == l[..3];
      }
    }
  }

  lemma MarkedIsHoldable(kind: Kind, ls: seq<string>)
    requires AllLines(ls)
    requires kind == Delete ==> forall i :: 0 <= i < |ls| ==> !("-- " <= ls[i])
    ensures forall i :: 0 <= i < |ls| ==> Holdable(Marked(kind, ls)[i])
  {
    forall i | 0 <= i < |ls| ensures Holdable(Marked(kind, ls)[i]) {
      EnsureNLIsLine(ls[i]);
    }
  }

  lemma BodyIsHoldable(src: seq<string>, dst: seq<string>, context: nat)
    requires AllLines(src) && AllLines(dst) && NoDashedDeletion(src, dst, context)
    ensures var body := HunkBody(src, dst, context);
            forall i :: 0 <= i < |body| ==> Holdable(body[i])
  {
    hide Holdable, Marked, RegionOf;
    var g := RegionOf(src, dst, context);
    MarkedIsHoldable(Context, src[g.start..g.from]);
    MarkedIsHoldable(Delete, src[g.from..g.oldTo]);
    MarkedIsHoldable(Insert, dst[g.from..g.newTo]);
    MarkedIsHoldable(Context, src[g.oldTo..g.oldStop]);
  }

  /** A deletion that starts a file for the parser, or not, every printed line is one line. */
  lemma PrintedIsLine(l: PatchLine)
    requires IsLine(l.text) && Terminated(l.text)
    ensures IsLine(PrintLine(l)) && Terminated(PrintLine(l))
  {
    var line := PrintLine(l);
    forall i | 0 <= i < |line| - 1 ensures line[i] != '\n' {
      if i > 0 {
        assert line[i] == l.text[i - 1];
      }
    }
  }

  lemma PathLine(mark: string, path: string)
    requires OneLinePath(path) && (mark == "--- " || mark == "+++ ")
    ensures IsLine(mark + path + "\n") && Terminated(mark + path + "\n")
    ensures mark <= TrimLineEnd(mark + path + "\n")
  {
    var line := mark + path + "\n";
    forall i | 0 <= i < |line| - 1 ensures line[i] != '\n' {
      if i >= 4 {
        assert line[i] == path[i - 4];
      }
    }
    TrimKeepsPrefix(mark, line);
  }

  lemma HeaderIsLine(a: nat, b: nat, c: nat, d: nat)
    ensures IsLine(PrintHeader(a, b, c, d)) && Terminated(PrintHeader(a, b, c, d))
  {
    hide Itoa;
  }

  lemma DiffLinesAreProper(path: string, src: seq<string>, dst: seq<string>, context: nat, ob: nat, nb: nat)
    requires OneLinePath(path) && AllLines(src) && AllLines(dst)
    ensures Proper(DiffLines(path, src, dst, context, ob, nb))
  {
    hide RegionOf, PrintHeader, IsLine, Terminated, HunkBody, PrintLine;
    PathLine("--- ", path);
    PathLine("+++ ", path);
    var g := RegionOf(src, dst, context);
    HeaderIsLine(ob + g.start, g.oldStop - g.start, nb + g.start, g.newStop - g.start);
    BodyPrints(src, dst, context);
  }

  lemma BodyPrints(src: seq<string>, dst: seq<string>, context: nat)
    requires AllLines(src) && AllLines(dst)
    ensures var printed := PrintLines(HunkBody(src, dst, context));
            forall i :: 0 <= i < |printed| ==> IsLine(printed[i]) && Terminated(printed[i])
  {
    hide HunkBody, IsLine, Terminated, PrintLine;
    var body := HunkBody(src, dst, context);
    BodyTexts(src, dst, context);
    forall i | 0 <= i < |body| ensures IsLine(PrintLine(body[i])) && Terminated(PrintLine(body[i])) {
      PrintedIsLine(body[i]);
    }
  }

  lemma BodyTexts(src: seq<string>, dst: seq<string>, context: nat)
    requires AllLines(src) && AllLines(dst)
    ensures var body := HunkBody(src, dst, context);
            forall i :: 0 <= i < |body| ==> IsLine(body[i].text) && Terminated(body[i].text)
  {
    hide IsLine, Terminated, RegionOf;
    var g := RegionOf(src, dst, context);
    forall l | l in src || l in dst ensures IsLine(EnsureNL(l)) && Terminated(EnsureNL(l)) {
      EnsureNLIsLine(l);
    }
  }

  /** The hunk a diff carries; its counts are those of its body. */
  function PrintedHunk(src: seq<string>, dst: seq<string>, context: nat, ob: nat, nb: nat): Hunk {
    var g := RegionOf(src, dst, context);
    Hunk(ob + g.start, g.oldStop - g.start, nb + g.start, g.newStop - g.start, HunkBody(src, dst, context))
  }

  lemma PrintedHunkParses(lines: seq<string>, i: nat, h: Hunk, end: nat)
    requires i < end <= |lines| && (end == |lines| || EndsFile(lines[end]))
    requires lines[i] == PrintHeader(h.oldStart, h.oldCount, h.newStart, h.newCount)
    requires h.oldStart <= MAX_INT && h.oldCount <= MAX_INT && h.newStart <= MAX_INT && h.newCount <= MAX_INT
    requires ParseBody(lines, i + 1) == (h.lines, end)
    ensures ParseHunks(lines, i) == Ok(([h], end))
  {
    hide PrintHeader, ParseBody, ParseHeader, TrimLineEnd;
    HeaderParses(h.oldStart, h.oldCount, h.newStart, h.newCount);
    var header := TrimLineEnd(lines[i]);
    assert header[0] == '@';
    assert !EndsFile(lines[i]);
    assert ParseHunks(lines, end) == Ok(([], end));
    assert [h] + [] == [h];
  }

  lemma DiffParses(path: string, src: seq<string>, dst: seq<string>, context: nat,
                   ob: nat, nb: nat, strip: int)
    requires OneLinePath(path) && AllLines(src) && AllLines(dst)
    requires NoDashedDeletion(src, dst, context)
    requires ob + |src| <= MAX_INT && nb + |dst| <= MAX_INT
    ensures Parse(Join(DiffLines(path, src, dst, context, ob, nb)), strip)
            == Ok([FilePatch(HeaderPath("--- " + path + "\n", strip), HeaderPath("+++ " + path + "\n", strip),
                             [PrintedHunk(src, dst, context, ob, nb)])])
  {
    hide RegionOf, PrintHeader, HeaderPath, ParseHunks, ParseBody, TrimLineEnd, HunkBody, Proper, SplitLines;
    var lines := DiffLines(path, src, dst, context, ob, nb);
    var h := PrintedHunk(src, dst, context, ob, nb);
    DiffLinesAreProper(path, src, dst, context, ob, nb);
    SplitJoin(lines);
    BodyIsHoldable(src, dst, context);
    assert PrintedAt(lines, 3, h.lines);
    BodyParses(lines, 3, h.lines);
    PrintedHunkParses(lines, 2, h, |lines|);
    PathLine("--- ", path);
    PathLine("+++ ", path);
    assert ParseFiles(lines, |lines|, strip) == Ok([]);
    var file := FilePatch(HeaderPath(lines[0], strip), HeaderPath(lines[1], strip), [h]);
    assert [file] + [] == [file];
  }

  // ------------------------------------------------------------- and it applies

  /** A hunk body is applied part by part. */
  lemma {:induction false} ApplySum(file: seq<string>, a: seq<PatchLine>, b: seq<PatchLine>, pos: nat)
    requires pos <= |file|
    ensures ApplyBody(file, a + b, pos) ==
            if ApplyBody(file, a, pos).Err? then ApplyBody(file, a, pos)
            else
              var (out, next) := ApplyBody(file, a, pos).value;
              match ApplyBody(file, b, next)
              case Err(e) => Err(e)
              case Ok((more, end)) => Ok((out + more, end))
    decreases |a|
  {
    if a == [] {
      assert a + b == b;
      var r := ApplyBody(file, b, pos);
      if r.Ok? {
        assert [] + r.value.0 == r.value.0;
      }
    } else {
      var l := a[0];
      assert (a + b)[0] == l && (a + b)[1..] == a[1..] + b;
      if l.kind == Insert || (pos < |file| && file[pos] == l.text) {
        var next := if l.kind == Insert then pos else pos + 1;
        ApplySum(file, a[1..], b, next);
        var r := ApplyBody(file, a[1..], next);
        if r.Ok? && ApplyBody(file, b, r.value.1).Ok? {
          var more := ApplyBody(file, b, r.value.1).value.0;
          assert ([l.text] + r.value.0) + more == [l.text] + (r.value.0 + more);
        }
      }
    }
  }

  /** Lines `i` up to `j` have their newlines. */
  predicate TerminatedIn(ls: seq<string>, i: nat, j: nat)
    requires i <= j <= |ls|
  {
    forall k :: i <= k < j ==> Terminated(ls[k])
  }

  lemma MarkedCons(kind: Kind, l: string, ls: seq<string>)
    ensures Marked(kind, [l] + ls) == [PatchLine(kind, EnsureNL(l))] + Marked(kind, ls)
  {
  }

  /** Terminated lines of the file are kept or deleted. */
  lemma {:induction false} RunMatches(file: seq<string>, kind: Kind, i: nat, j: nat)
    requires kind != Insert && i <= j <= |file|
    requires TerminatedIn(file, i, j)
    ensures ApplyBody(file, Marked(kind, file[i..j]), i)
            == Ok((if kind == Context then file[i..j] else [], j))
    decreases j - i
  {
    hide Marked;
    if i < j {
      SliceStep(file, i, j);
      MarkedCons(kind, file[i], file[i + 1..j]);
      RunMatches(file, kind, i + 1, j);
    } else {
      assert Marked(kind, file[i..j]) == [];
    }
  }

  lemma {:induction false} RunInserts(file: seq<string>, ls: seq<string>, pos: nat)
    requires pos <= |file|
    ensures ApplyBody(file, Marked(Insert, ls), pos) == Ok((EnsureAll(ls), pos))
    decreases |ls|
  {
    hide EnsureNL;
    if ls != [] {
      assert ls == [ls[0]] + ls[1..];
      MarkedCons(Insert, ls[0], ls[1..]);
      RunInserts(file, ls[1..], pos);
      assert [EnsureNL(ls[0])] + EnsureAll(ls[1..]) == EnsureAll(ls);
    } else {
      assert Marked(Insert, ls) == [] && EnsureAll(ls) == [];
    }
  }

  /** The window of old lines `src` sits in `file` after `skipped` lines. */
  predicate Window(file: seq<string>, skipped: nat, src: seq<string>) {
    skipped + |src| <= |file| && file[skipped..skipped + |src|] == src
  }

  lemma SubWindow(file: seq<string>, skipped: nat, src: seq<string>, i: nat, j: nat)
    requires Window(file, skipped, src) && i <= j <= |src|
    ensures file[skipped + i..skipped + j] == src[i..j]
  {
    assert forall k :: skipped <= k < skipped + |src| ==> file[k] == file[skipped..skipped + |src|][k - skipped];
  }

  /** What the body of a printed hunk does to the file its window was taken from. */
  lemma BodyApplies(file: seq<string>, skipped: nat, src: seq<string>, dst: seq<string>, context: nat)
    requires Window(file, skipped, src)
    requires var g := RegionOf(src, dst, context); TerminatedIn(src, g.start, g.oldStop)
    ensures var g := RegionOf(src, dst, context);
            ApplyBody(file, HunkBody(src, dst, context), skipped + g.start)
            == Ok((src[g.start..g.from] + EnsureAll(dst[g.from..g.newTo]) + src[g.oldTo..g.oldStop],
                   skipped + g.oldStop))
  {
    hide RegionOf, Marked, ApplyBody, Window, Terminated;
    var g := RegionOf(src, dst, context);
    assert skipped + |src| <= |file| by { SubWindowFits(file, skipped, src); }
    var at := skipped + g.start;
    var a, b := Marked(Context, src[g.start..g.from]), Marked(Delete, src[g.from..g.oldTo]);
    var c, d := Marked(Insert, dst[g.from..g.newTo]), Marked(Context, src[g.oldTo..g.oldStop]);
    RunOfWindow(file, skipped, src, Context, g.start, g.from);
    RunOfWindow(file, skipped, src, Delete, g.from, g.oldTo);
    RunInserts(file, dst[g.from..g.newTo], skipped + g.oldTo);
    RunOfWindow(file, skipped, src, Context, g.oldTo, g.oldStop);
    ApplySum(file, a, b, at);
    ApplySum(file, a + b, c, at);
    ApplySum(file, a + b + c, d, at);
    assert src[g.start..g.from] + [] == src[g.start..g.from];
  }

  lemma SubWindowFits(file: seq<string>, skipped: nat, src: seq<string>)
    requires Window(file, skipped, src)
    ensures skipped + |src| <= |file|
  {
  }

  lemma RunOfWindow(file: seq<string>, skipped: nat, src: seq<string>, kind: Kind, i: nat, j: nat)
    requires Window(file, skipped, src) && i <= j <= |src| && kind != Insert
    requires TerminatedIn(src, i, j)
    ensures ApplyBody(file, Marked(kind, src[i..j]), skipped + i)
            == Ok((if kind == Context then src[i..j] else [], skipped + j))
  {
    hide TerminatedIn, Marked, ApplyBody;
    SubWindow(file, skipped, src, i, j);
    WindowTerminated(file, skipped, src, i, j);
    RunMatches(file, kind, skipped + i, skipped + j);
  }

  lemma WindowTerminated(file: seq<string>, skipped: nat, src: seq<string>, i: nat, j: nat)
    requires Window(file, skipped, src) && i <= j <= |src|
    requires TerminatedIn(src, i, j)
    ensures skipped + j <= |file| && TerminatedIn(file, skipped + i, skipped + j)
  {
    forall k | skipped + i <= k < skipped + j ensures Terminated(file[k]) {
      assert file[k] == file[skipped..skipped + |src|][k - skipped];
    }
  }

  /** The printed hunk replaces the window by the new lines, and touches nothing else. */
  lemma HunkApplies(file: seq<string>, skipped: nat, src: seq<string>, dst: seq<string>,
                    context: nat, newBase: nat)
    requires Window(file, skipped, src)
    requires var g := RegionOf(src, dst, context); TerminatedIn(src, g.start, g.oldStop)
    ensures var g := RegionOf(src, dst, context);
            ApplyHunks(file, [PrintedHunk(src, dst, context, skipped + 1, newBase)], 0)
            == Ok(file[..skipped] + src[..g.from] + EnsureAll(dst[g.from..g.newTo]) + src[g.oldTo..]
                  + file[skipped + |src|..])
  {
    hide RegionOf, HunkBody, ApplyBody;
    var g := RegionOf(src, dst, context);
    BodyApplies(file, skipped, src, dst, context);
    var h := PrintedHunk(src, dst, context, skipped + 1, newBase);
    assert Target(h) == skipped + g.start;
    var ins, next := EnsureAll(dst[g.from..g.newTo]), skipped + g.oldStop;
    assert [h][1..] == [];
    assert ApplyHunks(file, [], next) == Ok(file[next..]);
    AroundWindow(file, skipped, src, g, ins);
  }

  lemma SliceSplits(s: seq<string>, i: nat, j: nat, k: nat)
    requires i <= j <= k <= |s|
    ensures s[i..k] == s[i..j] + s[j..k]
  {
  }

  lemma Regroup(f: seq<string>, a: seq<string>, b: seq<string>, i: seq<string>,
                c: seq<string>, d: seq<string>, e: seq<string>)
    ensures (f + a) + (b + i + c) + (d + e) == f + (a + b) + i + (c + d) + e
  {
  }

  lemma AroundWindow(file: seq<string>, skipped: nat, src: seq<string>, g: Region, ins: seq<string>)
    requires Window(file, skipped, src) && g.start <= g.from <= g.oldTo <= g.oldStop <= |src|
    ensures file[0..skipped + g.start] + (src[g.start..g.from] + ins + src[g.oldTo..g.oldStop])
            + file[skipped + g.oldStop..]
            == file[..skipped] + src[..g.from] + ins + src[g.oldTo..] + file[skipped + |src|..]
  {
    SubWindowFits(file, skipped, src);
    hide Window;
    FrontOfWindow(file, skipped, src, g.start);
    BackOfWindow(file, skipped, src, g.oldStop);
    SliceSplits(src, 0, g.start, g.from);
    SliceSplits(src, g.oldTo, g.oldStop, |src|);
    Regroup(file[..skipped], src[..g.start], src[g.start..g.from], ins,
            src[g.oldTo..g.oldStop], src[g.oldStop..], file[skipped + |src|..]);
  }

  lemma FrontOfWindow(file: seq<string>, skipped: nat, src: seq<string>, i: nat)
    requires Window(file, skipped, src) && i <= |src| && skipped + |src| <= |file|
    ensures file[0..skipped + i] == file[..skipped] + src[..i]
  {
    hide Window;
    SubWindow(file, skipped, src, 0, i);
    SliceSplits(file, 0, skipped, skipped + i);
  }

  lemma BackOfWindow(file: seq<string>, skipped: nat, src: seq<string>, i: nat)
    requires Window(file, skipped, src) && i <= |src| && skipped + |src| <= |file|
    ensures file[skipped + i..] == src[i..] + file[skipped + |src|..]
  {
    hide Window;
    SubWindow(file, skipped, src, i, |src|);
    SliceSplits(file, skipped + i, skipped + |src|, |file|);
  }

  // ------------------------------------------------------ exactly when it does so

  /** How many lines of each version a hunk body covers. */
  function OldCount(ls: seq<PatchLine>): nat {
    if ls == [] then 0 else OldCount(ls[1..]) + if ls[0].kind == Insert then 0 else 1
  }

  function NewCount(ls: seq<PatchLine>): nat {
    if ls == [] then 0 else NewCount(ls[1..]) + if ls[0].kind == Delete then 0 else 1
  }

  /** The patch changes one file, by one hunk with truthful counts, and turns one text into the other. */
  ghost predicate Restores(patch: string, strip: int, oldText: string, newText: string) {
    var r := Parse(patch, strip);
    && r.Ok? && |r.value| == 1 && |r.value[0].hunks| == 1
    && var h := r.value[0].hunks[0];
    && h.oldCount == OldCount(h.lines) && h.newCount == NewCount(h.lines)
    && Apply(oldText, r.value[0]) == Ok(newText)
  }

  /** Every printed line had its newline, and no deletion looks like the start of a file. */
  predicate Printable(src: seq<string>, dst: seq<string>, context: nat) {
    var g := RegionOf(src, dst, context);
    && TerminatedIn(src, g.start, g.oldStop)
    && AllTerminated(dst[g.from..g.newTo])
    && NoDashedDeletion(src, dst, context)
  }

  lemma CountSum(a: seq<PatchLine>, b: seq<PatchLine>)
    ensures OldCount(a + b) == OldCount(a) + OldCount(b)
    ensures NewCount(a + b) == NewCount(a) + NewCount(b)
  {
    if a == [] {
      assert a + b == b;
    } else {
      assert (a + b)[0] == a[0] && (a + b)[1..] == a[1..] + b;
      CountSum(a[1..], b);
    }
  }

  lemma {:induction false} CountRun(kind: Kind, ls: seq<string>)
    ensures OldCount(Marked(kind, ls)) == if kind == Insert then 0 else |ls|
    ensures NewCount(Marked(kind, ls)) == if kind == Delete then 0 else |ls|
    decreases |ls|
  {
    if ls != [] {
      assert ls == [ls[0]] + ls[1..];
      MarkedCons(kind, ls[0], ls[1..]);
      CountRun(kind, ls[1..]);
    }
  }

  lemma CountsAreTruthful(src: seq<string>, dst: seq<string>, context: nat)
    ensures var g := RegionOf(src, dst, context);
            var body := HunkBody(src, dst, context);
            OldCount(body) == g.oldStop - g.start && NewCount(body) == g.newStop - g.start
  {
    hide RegionOf, Marked, OldCount, NewCount;
    var g := RegionOf(src, dst, context);
    var a, b := Marked(Context, src[g.start..g.from]), Marked(Delete, src[g.from..g.oldTo]);
    var c, d := Marked(Insert, dst[g.from..g.newTo]), Marked(Context, src[g.oldTo..g.oldStop]);
    CountRun(Context, src[g.start..g.from]);
    CountRun(Delete, src[g.from..g.oldTo]);
    CountRun(Insert, dst[g.from..g.newTo]);
    CountRun(Context, src[g.oldTo..g.oldStop]);
    CountSum(a, b);
    CountSum(a + b, c);
    CountSum(a + b + c, d);
  }

  /** Adding missing newlines lengthens a text. */
  lemma {:induction false} EnsureLengthens(ls: seq<string>)
    ensures |Join(EnsureAll(ls))| >= |Join(ls)|
    ensures !AllTerminated(ls) ==> |Join(EnsureAll(ls))| > |Join(ls)|
    decreases |ls|
  {
    if ls != [] {
      assert EnsureAll(ls)[1..] == EnsureAll(ls[1..]);
      EnsureLengthens(ls[1..]);
      assert Terminated(ls[0]) && AllTerminated(ls[1..]) ==> AllTerminated([ls[0]] + ls[1..]);
      assert [ls[0]] + ls[1..] == ls;
    }
  }

  /** A hunk that applies found the text of each context line and deletion in the file. */
  lemma {:induction false} AppliedBodyMatched(file: seq<string>, ls: seq<PatchLine>, pos: nat)
    requires pos <= |file| && ApplyBody(file, ls, pos).Ok?
    ensures Consumed(ls) == file[pos..ApplyBody(file, ls, pos).value.1]
    decreases |ls|
  {
    if ls != [] {
      var next := if ls[0].kind == Insert then pos else pos + 1;
      AppliedBodyMatched(file, ls[1..], next);
      if ls[0].kind != Insert {
        SliceStep(file, pos, ApplyBody(file, ls, pos).value.1);
      }
    }
  }

  function Consumed(ls: seq<PatchLine>): seq<string> {
    if ls == [] then []
    else (if ls[0].kind == Insert then [] else [ls[0].text]) + Consumed(ls[1..])
  }

  lemma ConsumedSum(a: seq<PatchLine>, b: seq<PatchLine>)
    ensures Consumed(a + b) == Consumed(a) + Consumed(b)
  {
    if a == [] {
      assert a + b == b;
    } else {
      assert (a + b)[0] == a[0] && (a + b)[1..] == a[1..] + b;
      ConsumedSum(a[1..], b);
    }
  }

  lemma ConsumedCons(l: PatchLine, ls: seq<PatchLine>)
    ensures Consumed([l] + ls) == (if l.kind == Insert then [] else [l.text]) + Consumed(ls)
  {
    assert ([l] + ls)[1..] == ls;
  }

  lemma {:induction false} ConsumedRun(kind: Kind, ls: seq<string>)
    ensures Consumed(Marked(kind, ls)) == if kind == Insert then [] else EnsureAll(ls)
    decreases |ls|
  {
    if ls == [] {
      assert Marked(kind, ls) == [] && EnsureAll(ls) == [];
    } else {
      hide Marked, EnsureAll, Consumed;
      var l, rest := ls[0], ls[1..];
      assert ls == [l] + rest;
      MarkedCons(kind, l, rest);
      ConsumedCons(PatchLine(kind, EnsureNL(l)), Marked(kind, rest));
      ConsumedRun(kind, rest);
    }
  }

  lemma ConsumedFour(a: seq<PatchLine>, b: seq<PatchLine>, c: seq<PatchLine>, d: seq<PatchLine>)
    requires Consumed(c) == []
    ensures Consumed(a + b + c + d) == Consumed(a) + Consumed(b) + Consumed(d)
  {
    hide Consumed;
    ConsumedSum(a, b);
    ConsumedSum(a + b, c);
    ConsumedSum(a + b + c, d);
    assert Consumed(a) + Consumed(b) + [] == Consumed(a) + Consumed(b);
  }

  lemma ConsumedBody(src: seq<string>, dst: seq<string>, context: nat)
    ensures var g := RegionOf(src, dst, context);
            Consumed(HunkBody(src, dst, context)) == EnsureAll(src[g.start..g.oldStop])
  {
    hide RegionOf, Marked, Consumed, EnsureAll;
    var g := RegionOf(src, dst, context);
    var x, y, z := src[g.start..g.from], src[g.from..g.oldTo], src[g.oldTo..g.oldStop];
    ConsumedRun(Context, x);
    ConsumedRun(Delete, y);
    ConsumedRun(Insert, dst[g.from..g.newTo]);
    ConsumedRun(Context, z);
    ConsumedFour(Marked(Context, x), Marked(Delete, y), Marked(Insert, dst[g.from..g.newTo]), Marked(Context, z));
    EnsureThree(src, g.start, g.from, g.oldTo, g.oldStop);
  }

  lemma EnsureThree(src: seq<string>, i: nat, j: nat, k: nat, l: nat)
    requires i <= j <= k <= l <= |src|
    ensures EnsureAll(src[i..l]) == EnsureAll(src[i..j]) + EnsureAll(src[j..k]) + EnsureAll(src[k..l])
  {
  }

  // ----------------------------------------------------- each way it can go wrong

  /** The hunk ends at the first deletion that looks like the start of a file. */
  lemma DashedDeletionCuts(path: string, src: seq<string>, dst: seq<string>, context: nat,
                           ob: nat, nb: nat, strip: int)
    requires OneLinePath(path) && AllLines(src) && AllLines(dst)
    requires !NoDashedDeletion(src, dst, context)
    requires ob + |src| <= MAX_INT && nb + |dst| <= MAX_INT
    ensures var r := Parse(Join(DiffLines(path, src, dst, context, ob, nb)), strip);
            r.Err? || |r.value| > 1
  {
    hide RegionOf, PrintHeader, HeaderPath, ParseHunks, ParseBody, TrimLineEnd, HunkBody, Proper, SplitLines, EndsHunk;
    var lines := DiffLines(path, src, dst, context, ob, nb);
    var h := PrintedHunk(src, dst, context, ob, nb);
    DiffLinesAreProper(path, src, dst, context, ob, nb);
    SplitJoin(lines);
    var j := FirstDashedDeletion(src, dst, context);
    var cut := h.(lines := h.lines[..j]);
    assert PrintedAt(lines, 3, cut.lines);
    assert lines[3 + j] == PrintLine(h.lines[j]);
    BodyParses(lines, 3, cut.lines);
    PrintedHunkParses(lines, 2, cut, 3 + j);
    PathLine("--- ", path);
    PathLine("+++ ", path);
    StartsFile(lines, 3 + j, strip);
  }

  /** From a line that looks like the start of a file, at least one file is read, or none at all. */
  lemma StartsFile(lines: seq<string>, i: nat, strip: int)
    requires i < |lines| && "--- " <= TrimLineEnd(lines[i])
    ensures ParseFiles(lines, i, strip).Err? || ParseFiles(lines, i, strip).value != []
  {
    hide HeaderPath, TrimLineEnd, ParseHunks;
  }

  lemma FirstDashedDeletion(src: seq<string>, dst: seq<string>, context: nat) returns (j: nat)
    requires AllLines(src) && AllLines(dst) && !NoDashedDeletion(src, dst, context)
    ensures var body := HunkBody(src, dst, context);
            && j < |body|
            && (forall k :: 0 <= k < j ==> Holdable(body[k]))
            && "--- " <= TrimLineEnd(PrintLine(body[j])) && EndsHunk(PrintLine(body[j]))
  {
    hide HunkBody, Holdable, IsLine, Terminated, TrimLineEnd;
    var body := HunkBody(src, dst, context);
    BodyTexts(src, dst, context);
    var found := DashedDeletionInBody(src, dst, context);
    j := 0;
    while Holdable(body[j])
      invariant j < |body| && forall k :: 0 <= k < j ==> Holdable(body[k])
      invariant j <= found
      decreases |body| - j
    {
      j := j + 1;
    }
    NotHoldable(body[j]);
    DeletionStartsFile(body[j]);
  }

  lemma NotHoldable(l: PatchLine)
    requires IsLine(l.text) && Terminated(l.text) && !Holdable(l)
    ensures l.kind == Delete && "-- " <= l.text
  {
  }

  lemma DashedDeletionInBody(src: seq<string>, dst: seq<string>, context: nat) returns (k: nat)
    requires AllLines(src) && AllLines(dst) && !NoDashedDeletion(src, dst, context)
    ensures k < |HunkBody(src, dst, context)| && !Holdable(HunkBody(src, dst, context)[k])
  {
    hide RegionOf, IsLine, Marked;
    var g := RegionOf(src, dst, context);
    var i :| g.from <= i < g.oldTo && "-- " <= src[i];
    EnsureNLIsLine(src[i]);
    var a, b := Marked(Context, src[g.start..g.from]), Marked(Delete, src[g.from..g.oldTo]);
    var c, d := Marked(Insert, dst[g.from..g.newTo]), Marked(Context, src[g.oldTo..g.oldStop]);
    MarkedAt(Delete, src, g.from, g.oldTo, i);
    assert !Holdable(PatchLine(Delete, EnsureNL(src[i])));
    hide Holdable;
    k := |a| + (i - g.from);
  }

  lemma MarkedAt(kind: Kind, src: seq<string>, from: nat, to: nat, i: nat)
    requires from <= i < to <= |src|
    ensures Marked(kind, src[from..to])[i - from] == PatchLine(kind, EnsureNL(src[i]))
  {
  }

  /** A hunk only applies if the old lines it covers had their newlines. */
  lemma AppliedWindowWasTerminated(file: seq<string>, skipped: nat, src: seq<string>, dst: seq<string>, context: nat)
    requires Window(file, skipped, src) && skipped + |src| <= |file|
    requires var g := RegionOf(src, dst, context);
             ApplyBody(file, HunkBody(src, dst, context), skipped + g.start).Ok?
    ensures var g := RegionOf(src, dst, context); TerminatedIn(src, g.start, g.oldStop)
  {
    hide RegionOf, ApplyBody, HunkBody, Terminated, Window;
    var g := RegionOf(src, dst, context);
    var body, at := HunkBody(src, dst, context), skipped + g.start;
    AppliedBodyMatched(file, body, at);
    ConsumedBody(src, dst, context);
    var next := ApplyBody(file, body, at).value.1;
    assert |file[at..next]| == g.oldStop - g.start;
    SubWindow(file, skipped, src, g.start, g.oldStop);
  }

  lemma HunkFails(file: seq<string>, skipped: nat, src: seq<string>, dst: seq<string>, context: nat, nb: nat)
    requires Window(file, skipped, src) && skipped + |src| <= |file|
    requires var g := RegionOf(src, dst, context); !TerminatedIn(src, g.start, g.oldStop)
    ensures ApplyHunks(file, [PrintedHunk(src, dst, context, skipped + 1, nb)], 0).Err?
  {
    hide RegionOf, ApplyBody, HunkBody, TerminatedIn, Window;
    var g := RegionOf(src, dst, context);
    if ApplyBody(file, HunkBody(src, dst, context), skipped + g.start).Ok? {
      AppliedWindowWasTerminated(file, skipped, src, dst, context);
    }
  }

  lemma JoinFive(a: seq<string>, b: seq<string>, c: seq<string>, d: seq<string>, e: seq<string>)
    ensures Join(a + b + c + d + e) == Join(a) + Join(b) + Join(c) + Join(d) + Join(e)
  {
    hide Join;
    JoinSum(a, b);
    JoinSum(a + b, c);
    JoinSum(a + b + c, d);
    JoinSum(a + b + c + d, e);
  }

  /** Newlines added in the middle of a text show. */
  lemma EnsuredInMiddle(a: seq<string>, b: seq<string>, ins: seq<string>, d: seq<string>, e: seq<string>)
    ensures AllTerminated(ins) ==> Join(a + b + EnsureAll(ins) + d + e) == Join(a + b + ins + d + e)
    ensures !AllTerminated(ins) ==> |Join(a + b + EnsureAll(ins) + d + e)| > |Join(a + b + ins + d + e)|
  {
    hide EnsureAll, AllTerminated, Join;
    JoinFive(a, b, EnsureAll(ins), d, e);
    JoinFive(a, b, ins, d, e);
    EnsureLengthens(ins);
    if AllTerminated(ins) {
      EnsureTerminated(ins);
    }
  }

  /** The file with its window replaced by the new lines. */
  function Replaced(file: seq<string>, skipped: nat, src: seq<string>, dst: seq<string>): seq<string>
    requires skipped + |src| <= |file|
  {
    file[..skipped] + dst + file[skipped + |src|..]
  }

  lemma NewAroundRegion(file: seq<string>, skipped: nat, src: seq<string>, dst: seq<string>, context: nat)
    requires skipped + |src| <= |file|
    ensures var g := RegionOf(src, dst, context);
            file[..skipped] + src[..g.from] + dst[g.from..g.newTo] + src[g.oldTo..] + file[skipped + |src|..]
            == Replaced(file, skipped, src, dst)
  {
    hide RegionOf;
    var g := RegionOf(src, dst, context);
    OutsideRegion(src, dst, context);
    SliceSplits(dst, 0, g.from, g.newTo);
    SliceSplits(dst, 0, g.newTo, |dst|);
    assert dst[0..|dst|] == dst;
  }

  /** What applying the printed hunk gives, in every case. */
  lemma HunkOutcome(file: seq<string>, skipped: nat, src: seq<string>, dst: seq<string>, context: nat, nb: nat)
    requires Window(file, skipped, src) && skipped + |src| <= |file|
    ensures var g := RegionOf(src, dst, context);
            var r := ApplyHunks(file, [PrintedHunk(src, dst, context, skipped + 1, nb)], 0);
            var wanted := Join(Replaced(file, skipped, src, dst));
            if !TerminatedIn(src, g.start, g.oldStop) then r.Err?
            else
              && r.Ok?
              && (AllTerminated(dst[g.from..g.newTo]) ==> Join(r.value) == wanted)
              && (!AllTerminated(dst[g.from..g.newTo]) ==> |Join(r.value)| > |wanted|)
  {
    hide RegionOf, ApplyHunks, PrintedHunk, Replaced, TerminatedIn, AllTerminated, Join, EnsureAll, Window;
    var g := RegionOf(src, dst, context);
    if TerminatedIn(src, g.start, g.oldStop) {
      HunkApplies(file, skipped, src, dst, context, nb);
      NewAroundRegion(file, skipped, src, dst, context);
      EnsuredInMiddle(file[..skipped], src[..g.from], dst[g.from..g.newTo], src[g.oldTo..], file[skipped + |src|..]);
    } else {
      HunkFails(file, skipped, src, dst, context, nb);
    }
  }

  /** The diff of a window, parsed and applied to the whole file, gives `target` exactly when
      it is printable and `target` is the file with the window replaced. */
  lemma WindowRestores(path: string, text: string, skipped: nat, src: seq<string>, dst: seq<string>,
                       context: nat, strip: int, target: string)
    requires OneLinePath(path) && AllLines(src) && AllLines(dst)
    requires skipped + |src| <= |SplitLines(text)| && Window(SplitLines(text), skipped, src)
    requires skipped + |src| < MAX_INT && skipped + |dst| < MAX_INT
    requires |target| <= |Join(Replaced(SplitLines(text), skipped, src, dst))|
    ensures Restores(Join(DiffLines(path, src, dst, context, skipped + 1, skipped + 1)), strip, text, target)
            <==> Printable(src, dst, context) && target == Join(Replaced(SplitLines(text), skipped, src, dst))
  {
    hide RegionOf, HeaderPath, DiffLines, NoDashedDeletion, AllTerminated, TerminatedIn, Parse,
      SplitLines, ApplyHunks, Join, Replaced, Window, AllLines, OneLinePath;
    if NoDashedDeletion(src, dst, context) {
      DiffParses(path, src, dst, context, skipped + 1, skipped + 1, strip);
      CountsAreTruthful(src, dst, context);
      HunkOutcome(SplitLines(text), skipped, src, dst, context, skipped + 1);
    } else {
      DashedDeletionCuts(path, src, dst, context, skipped + 1, skipped + 1, strip);
    }
  }

  /** The round trip: parsing and applying a complete diff recovers the new text exactly when
      every printed line had its newline and no deleted line starts with `-- `. */
  lemma DiffRestores(path: string, oldText: string, newText: string, context: nat, strip: int)
    requires OneLinePath(path)
    requires |SplitLines(oldText)| < MAX_INT && |SplitLines(newText)| < MAX_INT
    ensures Restores(DiffText(path, oldText, newText, context), strip, oldText, newText)
            <==> Printable(SplitLines(oldText), SplitLines(newText), context)
  {
    hide RegionOf, DiffLines, Restores, Printable, SplitLines;
    var src, dst := SplitLines(oldText), SplitLines(newText);
    SplitIsProper(oldText);
    SplitIsProper(newText);
    assert src[0..|src|] == src && src[|src|..] == [];
    assert Replaced(src, 0, src, dst) == dst;
    JoinSplit(newText);
    WindowRestores(path, oldText, 0, src, dst, context, strip, newText);
  }

  /** In particular for texts that end with a newline, or are empty. */
  lemma DiffRestoresTerminated(path: string, oldText: string, newText: string, context: nat, strip: int)
    requires OneLinePath(path)
    requires |SplitLines(oldText)| < MAX_INT && |SplitLines(newText)| < MAX_INT
    requires oldText == "" || Terminated(oldText)
    requires newText == "" || Terminated(newText)
    ensures Restores(DiffText(path, oldText, newText, context), strip, oldText, newText)
            <==> NoDashedDeletion(SplitLines(oldText), SplitLines(newText), context)
  {
    hide RegionOf, NoDashedDeletion, Restores, DiffText, SplitLines;
    TerminatedText(oldText);
    TerminatedText(newText);
    DiffRestores(path, oldText, newText, context, strip);
  }

  // ------------------------------------------------------------- the file it names

  /** A path no step of reading a header line changes. */
  predicate PlainPath(path: string) {
    && TrimLineEnd(path) == path && TrimSpace(path) == path
    && !(path != "" && (path[0] == '"' || path[|path| - 1] == '"'))
    && (forall i :: 0 <= i < |path| ==> path[i] != ' ' && path[i] != '\t')
    && !("a/" <= path) && !("b/" <= path)
  }

  lemma {:induction false} TrimLeftShortens(s: string)
    ensures |TrimLeftSpace(s)| <= |s| && (|TrimLeftSpace(s)| == |s| ==> TrimLeftSpace(s) == s)
    decreases |s|
  {
    if s != "" {
      TrimLeftShortens(s[1..]);
      if |s| >= 2 {
        TrimLeftShortens(s[2..]);
      }
      if |s| >= 3 {
        TrimLeftShortens(s[3..]);
      }
    }
  }

  lemma {:induction false} TrimRightShortens(s: string)
    ensures |TrimRightSpace(s)| <= |s| && (|TrimRightSpace(s)| == |s| ==> TrimRightSpace(s) == s)
    decreases |s|
  {
    var n := |s|;
    if s != "" {
      TrimRightShortens(s[..n - 1]);
      if n >= 2 {
        TrimRightShortens(s[..n - 2]);
      }
      if n >= 3 {
        TrimRightShortens(s[..n - 3]);
      }
    }
  }

  lemma TrimQuotesShortens(s: string)
    ensures |TrimQuotes(s)| == |s| <==> !(s != "" && (s[0] == '"' || s[|s| - 1] == '"'))
    ensures |TrimQuotes(s)| == |s| ==> TrimQuotes(s) == s
  {
  }

  lemma {:induction false} CutShortens(s: string)
    ensures CutAtBlank(s) == s <==> forall i :: 0 <= i < |s| ==> s[i] != ' ' && s[i] != '\t'
    decreases |s|
  {
    if s != "" {
      CutShortens(s[1..]);
      assert s == [s[0]] + s[1..];
    }
  }

  /** Each step of cleaning a path gives it back, or makes it shorter. */
  lemma CleanPathIsPlain(path: string)
    ensures CleanPath(TrimSpace(TrimLineEnd(path)), 0) == path <==> PlainPath(path)
  {
    hide TrimLineEnd, TrimLeftSpace, TrimRightSpace, TrimQuotes, CutAtBlank;
    var trimmed := TrimLineEnd(path);
    TrimLeftShortens(trimmed);
    TrimRightShortens(TrimLeftSpace(trimmed));
    TrimQuotesShortens(TrimSpace(trimmed));
    CutShortens(TrimQuotes(TrimSpace(trimmed)));
  }

  lemma {:induction false} TrimKeepsMark(mark: string, path: string)
    requires mark == "--- " || mark == "+++ "
    ensures TrimLineEnd(mark + path) == mark + TrimLineEnd(path)
    decreases |path|
  {
    if path == "" {
      assert mark + path == mark;
    } else {
      var n := |path| - 1;
      assert (mark + path)[|mark + path| - 1] == path[n];
      assert (mark + path)[..|mark + path| - 1] == mark + path[..n];
      TrimKeepsMark(mark, path[..n]);
    }
  }

  /** A diff names the very path it was printed for exactly when that path is plain: a blank cuts
      it short, and a leading directory called `a` or `b` is taken off. */
  lemma DiffNamesItsFile(path: string)
    requires OneLinePath(path)
    ensures HeaderPath("--- " + path + "\n", 0) == path <==> PlainPath(path)
    ensures HeaderPath("+++ " + path + "\n", 0) == path <==> PlainPath(path)
  {
    hide TrimLineEnd, TrimSpace, CleanPath, PlainPath;
    HeaderPathIs("--- ", path);
    HeaderPathIs("+++ ", path);
    CleanPathIsPlain(path);
  }

  lemma HeaderPathIs(mark: string, path: string)
    requires mark == "--- " || mark == "+++ "
    ensures HeaderPath(mark + path + "\n", 0) == CleanPath(TrimSpace(TrimLineEnd(path)), 0)
  {
    hide TrimSpace, CleanPath;
    TrimKeepsMark(mark, path + "\n");
    assert mark + path + "\n" == mark + (path + "\n");
    assert (path + "\n")[..|path|] == path;
    assert TrimLineEnd(path + "\n") == TrimLineEnd(path);
    assert (mark + TrimLineEnd(path))[4..] == TrimLineEnd(path);
  }

  // ------------------------------------------------------- other paths, and an example

  /** A path without quotes and blanks, as cleaning sees it. */
  predicate Unquoted(path: string) {
    && path != "" && path[0] != '"' && path[|path| - 1] != '"'
    && forall i :: 0 <= i < |path| ==> path[i] != ' ' && path[i] != '\t'
  }

  /** What cleaning does to it: the name of no file stays; else a leading `a/` or `b/` goes, and
      then as many components as are to be stripped. */
  lemma CleanPathIs(path: string, strip: int)
    requires Unquoted(path)
    ensures path == "/dev/null" ==> CleanPath(path, strip) == path
    ensures path != "/dev/null" ==>
              CleanPath(path, strip) == StripComponents(if "a/" <= path || "b/" <= path then path[2..] else path, strip)
  {
    hide StripComponents;
    CutShortens(path);
    TrimQuotesShortens(path);
  }

  /** Stripping takes off one component after another; when none is left to take off, there is no
      path left but the directory itself. */
  lemma StripIs(component: string, rest: string, strip: int)
    requires '/' !in component
    ensures strip <= 0 ==> StripComponents(rest, strip) == rest
    ensures strip > 0 ==> StripComponents(component + "/" + rest, strip) == StripComponents(rest, strip - 1)
    ensures strip > 0 ==> StripComponents(component, strip) == "."
  {
    if strip > 0 {
      var path := component + "/" + rest;
      FirstSlash(component, rest);
      assert path[|component| + 1..] == rest;
    }
  }

  lemma FirstSlash(component: string, rest: string)
    requires '/' !in component
    ensures Find(component + "/" + rest, "/") == |component| && Find(component, "/") < 0
  {
    var path := component + "/" + rest;
    assert path[|component|..|component| + 1] == "/";
    assert OccursAt(path, "/", |component|);
    forall i | 0 <= i < |component| ensures !OccursAt(path, "/", i) && !OccursAt(component, "/", i) {
      assert path[i] == component[i] && component[i] in component;
      assert path[i..i + 1][0] == path[i] && component[i..i + 1][0] == component[i];
    }
    hide Find;
  }

  /** One line changed to another: the printed text, byte for byte. */
  lemma PrintedExample(path: string, a: string, b: string, context: nat)
    requires IsLine(a) && Terminated(a) && IsLine(b) && Terminated(b) && a != b
    ensures DiffText(path, a, b, context)
            == "--- " + path + "\n" + ("+++ " + path + "\n") + "@@ -1,1 +1,1 @@\n" + ("-" + a) + ("+" + b)
  {
    hide RegionOf, SplitLines, RunText, HeaderLine, IsLine, Terminated, DiffLines;
    OneLineText(a);
    OneLineText(b);
    var src, dst := [a], [b];
    OneLineRegion(a, b, context);
    DiffTextIs(path, src, dst, context, 1, 1);
    OneLineHeader(a, b, context);
    RunOfOne(Delete, a);
    RunOfOne(Insert, b);
    RunOfNothing(Context, src);
    assert src[0..0] == src[..0] && src[1..1] == src[..0] && src[0..1] == src && dst[0..1] == dst;
    var front := "--- " + path + "\n" + ("+++ " + path + "\n") + "@@ -1,1 +1,1 @@\n";
    assert front + "" == front && front + ("-" + a) + ("+" + b) + "" == front + ("-" + a) + ("+" + b);
  }

  lemma OneLineText(l: string)
    requires IsLine(l)
    ensures SplitLines(l) == [l]
  {
    hide SplitLines, IsLine;
    assert Join([l]) == l by { assert [l][1..] == [] && l + "" == l; }
    SplitJoin([l]);
  }

  lemma OneLineRegion(a: string, b: string, context: nat)
    requires a != b
    ensures RegionOf([a], [b], context) == Region(0, 0, 1, 1, 1, 1)
  {
    assert [a][0..] == [a] && [b][0..] == [b];
    assert CommonPrefix([a], [b]) == 0 && CommonSuffix([a], [b]) == 0;
  }

  lemma OneLineHeader(a: string, b: string, context: nat)
    requires a != b
    ensures HeaderLine([a], [b], context, 1, 1) == "@@ -1,1 +1,1 @@\n"
  {
    hide RegionOf;
    OneLineRegion(a, b, context);
    assert Itoa(1) == "1";
  }

  lemma RunOfOne(kind: Kind, l: string)
    requires Terminated(l)
    ensures RunText(kind, [l]) == [Mark(kind)] + l
  {
    RunSnoc(kind, [l], 0);
    RunOfNothing(kind, [l]);
    assert [l][..1] == [l] && "" + ([Mark(kind)] + l) == [Mark(kind)] + l;
  }
}
