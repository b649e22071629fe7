/**
 The printer of single-region unified diffs.
 */
module Diff {
  import opened Text
  import opened Lines
  import opened Patch

  // --------------------------------------------------------- the changed region

  function CommonPrefix(a: seq<string>, b: seq<string>): (n: nat)
    ensures n <= |a| && n <= |b| && a[..n] == b[..n]
    ensures n < |a| && n < |b| ==> a[n] != b[n]
  {
    if a == [] || b == [] || a[0] != b[0] then 0 else 1 + CommonPrefix(a[1..], b[1..])
  }

  /** `a` and `b` agree on their last `n` lines. */
  predicate SameTail(a: seq<string>, b: seq<string>, n: nat) {
    n <= |a| && n <= |b| && forall k :: |a| - n <= k < |a| ==> a[k] == b[|b| - |a| + k]
  }

  function CommonSuffix(a: seq<string>, b: seq<string>): (n: nat)
    ensures n <= |a| && n <= |b| && SameTail(a, b, n)
    ensures n < |a| && n < |b| ==> a[|a| - 1 - n] != b[|b| - 1 - n]
  {
    if a == [] || b == [] || a[|a| - 1] != b[|b| - 1] then 0
    else 1 + CommonSuffix(a[..|a| - 1], b[..|b| - 1])
  }

  method CommonPrefixLines(a: seq<string>, b: seq<string>) returns (n: nat)
    ensures n == CommonPrefix(a, b)
  {
    var limit := Min(|a|, |b|);
    ghost var m := CommonPrefix(a, b);
    for i := 0 to limit
      invariant i <= m
    {
      assert i < m ==> a[i] == a[..m][i] == b[..m][i] == b[i];
      if a[i] != b[i] {
        return i;
      }
    }
    return limit;
  }

  method CommonSuffixLines(a: seq<string>, b: seq<string>) returns (n: nat)
    ensures n == CommonSuffix(a, b)
  {
    var limit := Min(|a|, |b|);
    ghost var m := CommonSuffix(a, b);
    for i := 0 to limit
      invariant i <= m
    {
      if a[|a| - 1 - i] != b[|b| - 1 - i] {
        return i;
      }
    }
    return limit;
  }

  /** The printed window: old lines [start, oldStop), of which [from, oldTo) are deleted, and
      new lines [from, newTo) inserted in their place. */
  datatype Region = Region(start: nat, from: nat, oldTo: nat, newTo: nat, oldStop: nat, newStop: nat)

  function RegionOf(src: seq<string>, dst: seq<string>, context: nat): (g: Region)
    ensures g.start <= g.from <= g.oldTo <= g.oldStop <= |src|
    ensures g.from <= g.newTo <= g.newStop <= |dst|
    ensures g.oldStop - g.oldTo == g.newStop - g.newTo
  {
    var p := CommonPrefix(src, dst);
    var s := CommonSuffix(src[p..], dst[p..]);
    Region(Max(0, p - context), p, |src| - s, |dst| - s,
           Min(|src|, |src| - s + context), Min(|dst|, |dst| - s + context))
  }

  lemma SameTailOfWhole(src: seq<string>, dst: seq<string>, p: nat, n: nat)
    requires p <= |src| && p <= |dst| && SameTail(src[p..], dst[p..], n)
    ensures SameTail(src, dst, n)
  {
    var a, b := src[p..], dst[p..];
    forall k | |src| - n <= k < |src| ensures src[k] == dst[|dst| - |src| + k] {
      assert a[k - p] == b[|b| - |a| + (k - p)];
    }
  }

  /** Outside the changed region the two versions agree. */
  lemma OutsideRegion(src: seq<string>, dst: seq<string>, context: nat)
    ensures var g := RegionOf(src, dst, context);
            src[..g.from] == dst[..g.from] && src[g.oldTo..] == dst[g.newTo..]
  {
    hide SameTail, CommonPrefix, CommonSuffix;
    var p := CommonPrefix(src, dst);
    var s := CommonSuffix(src[p..], dst[p..]);
    SameTailOfWhole(src, dst, p, s);
  }

  /** The region is as small as it can be: what it deletes and what it inserts share neither their
      first nor their last line. On each side it takes in as much context as is wanted and there. */
  lemma RegionIsExact(src: seq<string>, dst: seq<string>, context: nat)
    ensures var g := RegionOf(src, dst, context);
            && g.from - g.start == Min(context, g.from)
            && g.oldStop - g.oldTo == Min(context, |src| - g.oldTo)
            && g.newStop - g.newTo == Min(context, |dst| - g.newTo)
            && (g.from < g.oldTo && g.from < g.newTo ==>
                  src[g.from] != dst[g.from] && src[g.oldTo - 1] != dst[g.newTo - 1])
  {
    var p := CommonPrefix(src, dst);
    var a, b := src[p..], dst[p..];
    var s := CommonSuffix(a, b);
    hide CommonPrefix, CommonSuffix;
    assert s < |a| && s < |b| ==> a[|a| - s - 1] == src[|src| - s - 1] && b[|b| - s - 1] == dst[|dst| - s - 1];
  }

  // -------------------------------------------------------------- what is printed

  function Marked(kind: Kind, ls: seq<string>): (r: seq<PatchLine>)
    ensures |r| == |ls|
    ensures forall i :: 0 <= i < |ls| ==> r[i] == PatchLine(kind, EnsureNL(ls[i]))
  {
    seq(|ls|, i requires 0 <= i < |ls| => PatchLine(kind, EnsureNL(ls[i])))
  }

  /** The hunk between two versions: context, deletions, insertions, context. */
  function HunkBody(src: seq<string>, dst: seq<string>, context: nat): seq<PatchLine> {
    var g := RegionOf(src, dst, context);
    Marked(Context, src[g.start..g.from]) + Marked(Delete, src[g.from..g.oldTo])
    + Marked(Insert, dst[g.from..g.newTo]) + Marked(Context, src[g.oldTo..g.oldStop])
  }

  function Mark(kind: Kind): char {
    match kind
    case Context => ' '
    case Delete => '-'
    case Insert => '+'
  }

  function PrintLine(l: PatchLine): string {
    [Mark(l.kind)] + l.text
  }

  function PrintLines(ls: seq<PatchLine>): (r: seq<string>)
    ensures |r| == |ls|
    ensures forall i :: 0 <= i < |ls| ==> r[i] == PrintLine(ls[i])
  {
    seq(|ls|, i requires 0 <= i < |ls| => PrintLine(ls[i]))
  }

  function PrintHeader(oldStart: nat, oldCount: nat, newStart: nat, newCount: nat): string {
    "@@ -" + Itoa(oldStart) + "," + Itoa(oldCount)
    + " +" + Itoa(newStart) + "," + Itoa(newCount) + " @@\n"
  }

  function HeaderLine(src: seq<string>, dst: seq<string>, context: nat,
                      oldBase: nat, newBase: nat): string {
    var g := RegionOf(src, dst, context);
    PrintHeader(oldBase + g.start, g.oldStop - g.start, newBase + g.start, g.newStop - g.start)
  }

  function DiffLines(path: string, src: seq<string>, dst: seq<string>, context: nat,
                     oldBase: nat, newBase: nat): seq<string> {
    ["--- " + path + "\n", "+++ " + path + "\n", HeaderLine(src, dst, context, oldBase, newBase)]
    + PrintLines(HunkBody(src, dst, context))
  }

  const TRUNCATED := "\n... diff truncated ...\n"

  /** The text the byte limit lets through, and whether it was cut; no limit when not positive. */
  function Limited(full: string, maxBytes: int): (string, bool) {
    if maxBytes > 0 && |full| > maxBytes then (full[..maxBytes] + TRUNCATED, true) else (full, false)
  }

  // ---------------------------------------------------------------- the printer

  lemma PrintSum(a: seq<PatchLine>, b: seq<PatchLine>)
    ensures Join(PrintLines(a + b)) == Join(PrintLines(a)) + Join(PrintLines(b))
  {
    assert PrintLines(a + b) == PrintLines(a) + PrintLines(b);
    JoinSum(PrintLines(a), PrintLines(b));
  }

  /** The printed text of a run of lines. */
  function RunText(kind: Kind, ls: seq<string>): string {
    Join(PrintLines(Marked(kind, ls)))
  }

  lemma RunSum(kind: Kind, a: seq<string>, b: seq<string>)
    ensures RunText(kind, a + b) == RunText(kind, a) + RunText(kind, b)
  {
    assert Marked(kind, a + b) == Marked(kind, a) + Marked(kind, b);
    PrintSum(Marked(kind, a), Marked(kind, b));
  }

  lemma RunSnoc(kind: Kind, ls: seq<string>, i: nat)
    requires i < |ls|
    ensures RunText(kind, ls[..i + 1]) == RunText(kind, ls[..i]) + ([Mark(kind)] + EnsureNL(ls[i]))
  {
    assert ls[..i + 1] == ls[..i] + [ls[i]];
    RunSum(kind, ls[..i], [ls[i]]);
    var p := [Mark(kind)] + EnsureNL(ls[i]);
    assert PrintLines(Marked(kind, [ls[i]])) == [p];
    assert Join([p]) == p + "" == p;
  }

  lemma RunPrefix(kind: Kind, ls: seq<string>, i: nat)
    requires i <= |ls|
    ensures RunText(kind, ls[..i]) <= RunText(kind, ls)
  {
    assert ls == ls[..i] + ls[i..];
    RunSum(kind, ls[..i], ls[i..]);
  }

  /** Writes one run of lines; with `limited`, gives up as soon as the text is too long. */
  method WriteRun(before: string, kind: Kind, ls: seq<string>, limited: bool, maxBytes: int)
    returns (text: string, over: bool)
    ensures text <= before + RunText(kind, ls)
    ensures !over ==> text == before + RunText(kind, ls)
    ensures over ==> limited && 0 < maxBytes < |text|
  {
    hide RunText;
    text, over := before, false;
    assert RunText(kind, ls[..0]) == "" by { RunOfNothing(kind, ls); }
    for i := 0 to |ls|
      invariant text == before + RunText(kind, ls[..i])
    {
      RunSnoc(kind, ls, i);
      var line := [Mark(kind)] + EnsureNL(ls[i]);
      assert before + (RunText(kind, ls[..i]) + line) == text + line;
      text := text + line;
      if limited && maxBytes > 0 && |text| > maxBytes {
        RunPrefix(kind, ls, i + 1);
        return text, true;
      }
    }
    assert ls[..|ls|] == ls;
  }

  lemma RunOfNothing(kind: Kind, ls: seq<string>)
    ensures RunText(kind, ls[..0]) == ""
  {
  }

  lemma LimitedPrefix(part: string, full: string, maxBytes: int)
    requires part <= full && 0 < maxBytes < |part|
    ensures Limited(full, maxBytes) == (part[..maxBytes] + TRUNCATED, true)
  {
    assert full[..maxBytes] == part[..maxBytes];
  }

  method Measure(src: seq<string>, dst: seq<string>, context: nat) returns (g: Region)
    ensures g == RegionOf(src, dst, context)
  {
    var prefix := CommonPrefixLines(src, dst);
    var suffix := CommonSuffixLines(src[prefix..], dst[prefix..]);
    var oldTo, newTo := |src| - suffix, |dst| - suffix;
    g := Region(Max(0, prefix - context), prefix, oldTo, newTo,
                Min(|src|, oldTo + context), Min(|dst|, newTo + context));
  }

  lemma DiffTextIs(path: string, src: seq<string>, dst: seq<string>, context: nat, oldBase: nat, newBase: nat)
    ensures var g := RegionOf(src, dst, context);
            Join(DiffLines(path, src, dst, context, oldBase, newBase))
            == "--- " + path + "\n" + ("+++ " + path + "\n") + HeaderLine(src, dst, context, oldBase, newBase)
               + RunText(Context, src[g.start..g.from]) + RunText(Delete, src[g.from..g.oldTo])
               + RunText(Insert, dst[g.from..g.newTo]) + RunText(Context, src[g.oldTo..g.oldStop])
  {
    hide RegionOf, HeaderLine, PrintLines, Marked;
    var g := RegionOf(src, dst, context);
    var l1, l2, l3 := "--- " + path + "\n", "+++ " + path + "\n", HeaderLine(src, dst, context, oldBase, newBase);
    JoinSum([l1, l2, l3], PrintLines(HunkBody(src, dst, context)));
    JoinThree(l1, l2, l3);
    PrintFour(Marked(Context, src[g.start..g.from]), Marked(Delete, src[g.from..g.oldTo]),
              Marked(Insert, dst[g.from..g.newTo]), Marked(Context, src[g.oldTo..g.oldStop]));
    SumOfFour(l1 + l2 + l3, RunText(Context, src[g.start..g.from]), RunText(Delete, src[g.from..g.oldTo]),
              RunText(Insert, dst[g.from..g.newTo]), RunText(Context, src[g.oldTo..g.oldStop]));
  }

  lemma SumOfFour(h: string, a: string, b: string, c: string, d: string)
    ensures h + (a + b + c + d) == h + a + b + c + d
  {
  }

  lemma PrintFour(a: seq<PatchLine>, b: seq<PatchLine>, c: seq<PatchLine>, d: seq<PatchLine>)
    ensures Join(PrintLines(a + b + c + d))
            == Join(PrintLines(a)) + Join(PrintLines(b)) + Join(PrintLines(c)) + Join(PrintLines(d))
  {
    hide PrintLines;
    PrintSum(a, b);
    PrintSum(a + b, c);
    PrintSum(a + b + c, d);
  }

  lemma JoinThree(a: string, b: string, c: string)
    ensures Join([a, b, c]) == a + b + c
  {
    assert [a, b, c][1..] == [b, c] && [b, c][1..] == [c];
    assert Join([c]) == c + "" == c;
    assert Join([b, c]) == b + c;
    assert a + (b + c) == a + b + c;
  }

  method FormatSingleRegionUnifiedDiffAt(path: string, src: seq<string>, dst: seq<string>, context: nat,
                                         maxBytes: int, oldBaseLine: int, newBaseLine: int)
    returns (text: string, truncated: bool)
    ensures (text, truncated)
            == Limited(Join(DiffLines(path, src, dst, context,
                                      if oldBaseLine <= 0 then 1 else oldBaseLine,
                                      if newBaseLine <= 0 then 1 else newBaseLine)), maxBytes)
  {
    hide RunText, RegionOf, PrintHeader, DiffLines;
    var oldBase, newBase := oldBaseLine, newBaseLine;
    if oldBase <= 0 {
      oldBase := 1;
    }
    if newBase <= 0 {
      newBase := 1;
    }
    var g := Measure(src, dst, context);
    var b := "--- " + path + "\n";
    b := b + ("+++ " + path + "\n");
    b := b + PrintHeader(oldBase + g.start, g.oldStop - g.start, newBase + g.start, g.newStop - g.start);
    ghost var full := Join(DiffLines(path, src, dst, context, oldBase, newBase));
    DiffTextIs(path, src, dst, context, oldBase, newBase);
    ghost var r2, r3 := RunText(Delete, src[g.from..g.oldTo]), RunText(Insert, dst[g.from..g.newTo]);
    ghost var r4 := RunText(Context, src[g.oldTo..g.oldStop]);
    var over;
    b, over := WriteRun(b, Context, src[g.start..g.from], false, maxBytes);
    ghost var b1 := b;
    assert full == b1 + r2 + r3 + r4;
    b, over := WriteRun(b, Delete, src[g.from..g.oldTo], true, maxBytes);
    if over {
      LimitedPrefix(b, full, maxBytes);
      return b[..maxBytes] + TRUNCATED, true;
    }
    b, over := WriteRun(b, Insert, dst[g.from..g.newTo], true, maxBytes);
    if over {
      LimitedPrefix(b, full, maxBytes);
      return b[..maxBytes] + TRUNCATED, true;
    }
    b, over := WriteRun(b, Context, src[g.oldTo..g.oldStop], false, maxBytes);
    if maxBytes > 0 && |b| > maxBytes {
      LimitedPrefix(b, full, maxBytes);
      return b[..maxBytes] + TRUNCATED, true;
    }
    return b, false;
  }

  /** The complete diff between two texts. */
  function DiffText(path: string, oldText: string, newText: string, context: nat): string {
    Join(DiffLines(path, SplitLines(oldText), SplitLines(newText), context, 1, 1))
  }

  method CompactUnifiedDiff(path: string, oldText: string, newText: string, contextLines: int, maxBytes: int)
    returns (text: string, truncated: bool)
    ensures (text, truncated)
            == if oldText == newText then ("", false)
               else Limited(DiffText(path, oldText, newText, if contextLines < 0 then 3 else contextLines), maxBytes)
  {
    if oldText == newText {
      return "", false;
    }
    var context := contextLines;
    if context < 0 {
      context := 3;
    }
    text, truncated := FormatSingleRegionUnifiedDiffAt(path, SplitLines(oldText), SplitLines(newText),
                                                       context, maxBytes, 1, 1);
  }
}
