/**
 Undoing a patch: exchanging insertions and deletions gives a patch that restores the original.
 */
module Reversal {
  import opened Text
  import opened Lines
  import opened Patch

  function SwapKind(k: Kind): Kind {
    match k
    case Context => Context
    case Delete => Insert
    case Insert => Delete
  }

  function SwapLines(ls: seq<PatchLine>): seq<PatchLine> {
    if ls == [] then []
    else [PatchLine(SwapKind(ls[0].kind), ls[0].text)] + SwapLines(ls[1..])
  }

  /** Lines a body adds, less the lines it removes. */
  function NetLines(ls: seq<PatchLine>): int {
    if ls == [] then 0
    else NetLines(ls[1..]) + if ls[0].kind == Insert then 1 else if ls[0].kind == Delete then -1 else 0
  }

  function NetOfHunks(hunks: seq<Hunk>): int {
    if hunks == [] then 0 else NetLines(hunks[0].lines) + NetOfHunks(hunks[1..])
  }

  /** The hunks of the reverse patch; `delta` is how far the hunks before these moved the lines. */
  function ReverseHunks(hunks: seq<Hunk>, delta: int): seq<Hunk> {
    if hunks == [] then []
    else
      var h := hunks[0];
      var at: nat := Max(0, Target(h) + delta);
      [Hunk(at + 1, h.newCount, h.oldStart, h.oldCount, SwapLines(h.lines))]
      + ReverseHunks(hunks[1..], delta + NetLines(h.lines))
  }

  function Reverse(file: FilePatch): FilePatch {
    FilePatch(file.newPath, file.oldPath, ReverseHunks(file.hunks, 0))
  }

  // ------------------------------------------------------------------ one hunk

  lemma MoveBoundary(pre: seq<string>, x: string, out: seq<string>, post: seq<string>)
    ensures pre + ([x] + out) + post == (pre + [x]) + out + post
  {
  }

  /** Where a body emitted its lines, the swapped body takes them back. */
  lemma {:induction false} BodyReverses(file: seq<string>, ls: seq<PatchLine>, pos: nat,
                                        pre: seq<string>, post: seq<string>)
    requires pos <= |file| && ApplyBody(file, ls, pos).Ok?
    ensures var (out, next) := ApplyBody(file, ls, pos).value;
            && ApplyBody(pre + out + post, SwapLines(ls), |pre|)
               == Ok((file[pos..next], |pre| + |out|))
            && |out| == next - pos + NetLines(ls)
    decreases |ls|
  {
    if ls == [] {
      assert file[pos..pos] == [];
    } else {
      var l, rest := ls[0], ls[1..];
      var at := if l.kind == Insert then pos else pos + 1;
      var (out, next) := ApplyBody(file, rest, at).value;
      var swapped := SwapLines(ls);
      assert swapped[0] == PatchLine(SwapKind(l.kind), l.text) && swapped[1..] == SwapLines(rest);
      if l.kind == Delete {
        BodyReverses(file, rest, at, pre, post);
        SliceStep(file, pos, next);
      } else {
        MoveBoundary(pre, l.text, out, post);
        BodyReverses(file, rest, at, pre + [l.text], post);
        if l.kind == Context {
          SliceStep(file, pos, next);
        }
      }
    }
  }

  // ------------------------------------------------------------------ all hunks

  lemma JoinSlices(file: seq<string>, i: nat, j: nat, k: nat)
    requires i <= j <= k <= |file|
    ensures file[i..j] + file[j..k] + file[k..] == file[i..]
  {
  }

  lemma GroupKept(pre: seq<string>, kept: seq<string>, out: seq<string>, rest: seq<string>)
    ensures pre + (kept + out + rest) == (pre + kept) + out + rest
    ensures (pre + kept) + out + rest == (pre + kept + out) + rest
    ensures ((pre + kept) + out + rest)[|pre|..|pre + kept|] == kept
  {
  }

  lemma {:induction false} HunksReverse(file: seq<string>, hunks: seq<Hunk>, pos: nat, pre: seq<string>)
    requires pos <= |file| && ApplyHunks(file, hunks, pos).Ok?
    ensures var rest := ApplyHunks(file, hunks, pos).value;
            && ApplyHunks(pre + rest, ReverseHunks(hunks, |pre| - pos), |pre|) == Ok(file[pos..])
            && |rest| == |file| - pos + NetOfHunks(hunks)
    decreases |hunks|
  {
    hide ApplyBody, SwapLines;
    if hunks == [] {
      assert (pre + file[pos..])[|pre|..] == file[pos..];
    } else {
      var h := hunks[0];
      var target := Target(h);
      var (out, next) := ApplyBody(file, h.lines, target).value;
      var rest := ApplyHunks(file, hunks[1..], next).value;
      var kept := file[pos..target];
      var pre', delta := pre + kept, |pre| - pos;
      BodyReverses(file, h.lines, target, pre', rest);
      HunksReverse(file, hunks[1..], next, pre' + out);
      GroupKept(pre, kept, out, rest);
      var reversed := ReverseHunks(hunks, delta);
      assert reversed[1..] == ReverseHunks(hunks[1..], delta + NetLines(h.lines));
      assert Target(reversed[0]) == |pre'|;
      JoinSlices(file, pos, target, next);
    }
  }

  // ------------------------------------------------------------------ whole texts

  /** Every line the patch inserts is one terminated line. */
  predicate InsertsLines(hunks: seq<Hunk>) {
    forall h :: h in hunks ==> InsertsLinesIn(h.lines)
  }

  predicate InsertsLinesIn(ls: seq<PatchLine>) {
    forall l :: l in ls && l.kind == Insert ==> IsLine(l.text) && Terminated(l.text)
  }

  predicate Whole(ls: seq<string>) {
    forall l :: l in ls ==> IsLine(l) && Terminated(l)
  }

  lemma {:induction false} BodyEmitsWhole(file: seq<string>, ls: seq<PatchLine>, pos: nat)
    requires pos <= |file| && ApplyBody(file, ls, pos).Ok?
    requires Whole(file) && InsertsLinesIn(ls)
    ensures Whole(ApplyBody(file, ls, pos).value.0)
    decreases |ls|
  {
    hide IsLine, Terminated;
    if ls != [] {
      assert ls[0] in ls;
      BodyEmitsWhole(file, ls[1..], if ls[0].kind == Insert then pos else pos + 1);
    }
  }

  lemma {:induction false} HunksEmitWhole(file: seq<string>, hunks: seq<Hunk>, pos: nat)
    requires pos <= |file| && ApplyHunks(file, hunks, pos).Ok?
    requires Whole(file) && InsertsLines(hunks)
    ensures Whole(ApplyHunks(file, hunks, pos).value)
    decreases |hunks|
  {
    hide IsLine, Terminated, ApplyBody;
    if hunks != [] {
      var h := hunks[0];
      assert h in hunks;
      BodyEmitsWhole(file, h.lines, Target(h));
      HunksEmitWhole(file, hunks[1..], ApplyBody(file, h.lines, Target(h)).value.1);
    }
  }

  lemma WholeIsProper(ls: seq<string>)
    requires Whole(ls)
    ensures Proper(ls)
  {
    hide IsLine, Terminated;
    forall i | 0 <= i < |ls| ensures IsLine(ls[i]) && Terminated(ls[i]) {
      assert ls[i] in ls;
    }
  }

  lemma TerminatedIsWhole(text: string)
    requires text == "" || Terminated(text)
    ensures Whole(SplitLines(text))
  {
    hide SplitLines, IsLine, Terminated;
    TerminatedText(text);
    SplitIsProper(text);
  }

  /** Whenever a patch applies to a newline-terminated text, its reverse applies to the result and
      restores the text, and the line count has changed by insertions minus deletions. */
  lemma PatchReverses(original: string, file: FilePatch)
    requires original == "" || Terminated(original)
    requires InsertsLines(file.hunks)
    requires Apply(original, file).Ok?
    ensures Apply(Apply(original, file).value, Reverse(file)) == Ok(original)
    ensures |SplitLines(Apply(original, file).value)|
            == |SplitLines(original)| + NetOfHunks(file.hunks)
  {
    hide SplitLines, ApplyHunks, ReverseHunks, Terminated, Proper, Whole;
    var src := SplitLines(original);
    TerminatedIsWhole(original);
    var out := ApplyHunks(src, file.hunks, 0).value;
    HunksReverse(src, file.hunks, 0, []);
    assert [] + out == out && src[0..] == src;
    HunksEmitWhole(src, file.hunks, 0);
    WholeIsProper(out);
    SplitJoin(out);
    JoinSplit(original);
  }

  // ------------------------------------------------------------------ patch texts

  /** A terminated line that starts with a mark holds a terminated line behind it. */
  lemma LineBehindMark(line: string)
    requires IsLine(line) && Terminated(line) && KindOf(line[0]).Some?
    ensures IsLine(line[1..]) && Terminated(line[1..])
  {
    assert line[0] != '\n';
  }

  lemma {:induction false} BodyHoldsLines(lines: seq<string>, i: nat)
    requires i <= |lines| && Whole(lines)
    ensures InsertsLinesIn(ParseBody(lines, i).0)
    decreases |lines| - i
  {
    hide IsLine, EndsHunk, KindOf;
    if i < |lines| {
      assert lines[i] in lines;
      if KindOf(lines[i][0]).Some? {
        LineBehindMark(lines[i]);
      }
      BodyHoldsLines(lines, i + 1);
    }
  }

  lemma {:induction false} HunksHoldLines(lines: seq<string>, i: nat)
    requires i <= |lines| && Whole(lines) && ParseHunks(lines, i).Ok?
    ensures InsertsLines(ParseHunks(lines, i).value.0)
    decreases |lines| - i
  {
    hide Whole, InsertsLinesIn, EndsFile, ParseHeader, ParseBody, TrimLineEnd;
    if i < |lines| && !EndsFile(lines[i]) {
      if "@@ " <= TrimLineEnd(lines[i]) {
        BodyHoldsLines(lines, i + 1);
        HunksHoldLines(lines, ParseBody(lines, i + 1).1);
      } else {
        HunksHoldLines(lines, i + 1);
      }
    }
  }

  lemma {:induction false} FilesHoldLines(lines: seq<string>, i: nat, strip: int)
    requires i <= |lines| && Whole(lines) && ParseFiles(lines, i, strip).Ok?
    ensures forall f :: f in ParseFiles(lines, i, strip).value ==> InsertsLines(f.hunks)
    decreases |lines| - i
  {
    hide Whole, InsertsLines, ParseHunks, TrimLineEnd, HeaderPath;
    if i < |lines| {
      if "--- " <= TrimLineEnd(lines[i]) {
        HunksHoldLines(lines, i + 2);
        FilesHoldLines(lines, ParseHunks(lines, i + 2).value.1, strip);
      } else {
        FilesHoldLines(lines, i + 1, strip);
      }
    }
  }

  /** Every file of a newline-terminated patch text can be undone: wherever it applies to a
      newline-terminated text, its reverse restores that text. */
  lemma PatchTextReverses(patch: string, strip: int, f: FilePatch, original: string)
    requires Terminated(patch) && Parse(patch, strip).Ok? && f in Parse(patch, strip).value
    requires original == "" || Terminated(original)
    requires Apply(original, f).Ok?
    ensures Apply(Apply(original, f).value, Reverse(f)) == Ok(original)
    ensures |SplitLines(Apply(original, f).value)| == |SplitLines(original)| + NetOfHunks(f.hunks)
  {
    hide SplitLines, ParseFiles, Apply, Reverse, InsertsLines, Whole, Terminated;
    TerminatedIsWhole(patch);
    FilesHoldLines(SplitLines(patch), 0, strip);
    PatchReverses(original, f);
  }
}
