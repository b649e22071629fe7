/**
 Markdown sections: headings outside fenced blocks, the ranges they open, and replacing the
 body of one.

 What a line is on its own, by the heading and fence patterns, is a parameter; everything
 here holds for every such classification of lines.
 */
module Markdown {
  import opened Text
  import opened Lines

  /** A line by itself: it opens or closes a fence, is a heading, or neither. */
  datatype Kind = Fence(marker: string) | Title(title: string, level: nat) | Plain

  type Classify = string -> Kind

  /** A heading and its line number, counted from 1. */
  datatype Heading = Heading(title: string, level: nat, line: int)

  // ------------------------------------------------------------------- headings

  /** The fence a line leaves open: only the marker that opened a fence closes it. */
  function NextFence(open: Option<string>, k: Kind): Option<string> {
    if !k.Fence? then open
    else if open.None? then Some(k.marker)
    else if k.marker == open.value then None
    else open
  }

  function FenceAfter(lines: seq<string>, kind: Classify, open: Option<string>): Option<string> {
    if lines == [] then open else FenceAfter(lines[1..], kind, NextFence(open, kind(lines[0])))
  }

  /** The heading one line makes, if any: a heading line does, outside a fence. */
  function HeadingAt(k: Kind, open: Option<string>, line: nat): seq<Heading> {
    if open.None? && k.Title? then [Heading(k.title, k.level, line)] else []
  }

  /** The headings of `lines`, which follow `base` other lines, with `open` the open fence. */
  function HeadingsFrom(lines: seq<string>, kind: Classify, open: Option<string>, base: nat): seq<Heading> {
    if lines == [] then []
    else
      var k := kind(lines[0]);
      HeadingAt(k, open, base + 1) + HeadingsFrom(lines[1..], kind, NextFence(open, k), base + 1)
  }

  lemma HeadingsFromStep(lines: seq<string>, kind: Classify, open: Option<string>, base: nat)
    ensures lines == [] ==> HeadingsFrom(lines, kind, open, base) == [] && FenceAfter(lines, kind, open) == open
    ensures lines != [] ==>
              && HeadingsFrom(lines, kind, open, base)
                 == HeadingAt(kind(lines[0]), open, base + 1)
                    + HeadingsFrom(lines[1..], kind, NextFence(open, kind(lines[0])), base + 1)
              && FenceAfter(lines, kind, open) == FenceAfter(lines[1..], kind, NextFence(open, kind(lines[0])))
  {
  }

  /** The headings of the document are `found` and then those of the lines from `i` on. */
  ghost predicate Found(lines: seq<string>, kind: Classify, i: nat, found: seq<Heading>, open: Option<string>)
    requires i <= |lines|
  {
    HeadingsFrom(lines, kind, None, 0) == found + HeadingsFrom(lines[i..], kind, open, i)
  }

  lemma FoundStep(lines: seq<string>, kind: Classify, i: nat, found: seq<Heading>, open: Option<string>)
    requires i < |lines| && Found(lines, kind, i, found, open)
    ensures var k := kind(lines[i]);
            Found(lines, kind, i + 1, found + HeadingAt(k, open, i + 1), NextFence(open, k))
  {
    hide HeadingsFrom, HeadingAt;
    HeadingsFromStep(lines[i..], kind, open, i);
    var k := kind(lines[i]);
    var new' := HeadingAt(k, open, i + 1);
    assert lines[i..][1..] == lines[i + 1..];
    var rest := HeadingsFrom(lines[i + 1..], kind, NextFence(open, k), i + 1);
    assert found + (new' + rest) == (found + new') + rest;
  }

  lemma FoundAll(lines: seq<string>, kind: Classify, found: seq<Heading>, open: Option<string>)
    requires Found(lines, kind, |lines|, found, open)
    ensures found == HeadingsFrom(lines, kind, None, 0)
  {
    assert lines[|lines|..] == [];
  }

  method MarkdownHeadings(lines: seq<string>, kind: Classify) returns (headings: seq<Heading>)
    ensures headings == HeadingsFrom(lines, kind, None, 0)
  {
    headings := [];
    var open: Option<string> := None;
    hide Found, HeadingsFrom;
    assert Found(lines, kind, 0, headings, open) by { FoundNone(lines, kind); }
    for i := 0 to |lines|
      invariant Found(lines, kind, i, headings, open)
    {
      var k := kind(lines[i]);
      FoundStep(lines, kind, i, headings, open);
      assert headings + [] == headings;
      if k.Fence? {
        if open.None? {
          open := Some(k.marker);
        } else if k.marker == open.value {
          open := None;
        }
        continue;
      }
      if open.Some? {
        continue;
      }
      if k.Title? {
        headings := headings + [Heading(k.title, k.level, i + 1)];
      }
    }
    FoundAll(lines, kind, headings, open);
  }

  lemma FoundNone(lines: seq<string>, kind: Classify)
    ensures Found(lines, kind, 0, [], None)
  {
    assert lines[0..] == lines && [] + HeadingsFrom(lines, kind, None, 0) == HeadingsFrom(lines, kind, None, 0);
  }

  /** A fence is open after some lines exactly when one of them opened it, with no other open, and
      none since carried its marker. */
  lemma {:induction false} FenceIsOpen(lines: seq<string>, kind: Classify, marker: string)
    ensures FenceAfter(lines, kind, None) == Some(marker)
            <==> exists o :: 0 <= o < |lines| && OpensAt(lines, kind, marker, o)
    decreases |lines|
  {
    if lines != [] {
      var n := |lines| - 1;
      var front, last := lines[..n], [lines[n]];
      assert lines == front + last && last[1..] == [];
      FenceAfterSum(front, last, kind, None);
      FenceIsOpen(front, kind, marker);
      var open := FenceAfter(front, kind, None);
      assert FenceAfter(last, kind, open) == NextFence(open, kind(lines[n]));
      forall o | 0 <= o < n
        ensures OpensAt(lines, kind, marker, o) <==> OpensAt(front, kind, marker, o) && kind(lines[n]) != Fence(marker)
      {
        assert front[..o] == lines[..o] && front[o] == lines[o];
        assert forall x :: o < x < n ==> front[x] == lines[x];
      }
      assert lines[..n] == front;
      assert OpensAt(lines, kind, marker, n) <==> kind(lines[n]) == Fence(marker) && open == None;
      if open != None && open != Some(marker) {
        assert FenceAfter(lines, kind, None) != Some(marker);
      }
    }
  }

  /** Line `o` opens a fence that none of the lines after it closes. */
  ghost predicate OpensAt(lines: seq<string>, kind: Classify, marker: string, o: int)
    requires 0 <= o < |lines|
  {
    && kind(lines[o]) == Fence(marker) && FenceAfter(lines[..o], kind, None) == None
    && forall x :: o < x < |lines| ==> kind(lines[x]) != Fence(marker)
  }

  lemma {:induction false} FenceAfterSum(a: seq<string>, b: seq<string>, kind: Classify, open: Option<string>)
    ensures FenceAfter(a + b, kind, open) == FenceAfter(b, kind, FenceAfter(a, kind, open))
    decreases |a|
  {
    if a == [] {
      assert a + b == b;
    } else {
      assert (a + b)[1..] == a[1..] + b;
      FenceAfterSum(a[1..], b, kind, NextFence(open, kind(a[0])));
    }
  }

  /** Every heading line with no fence open before it is a heading. */
  lemma {:induction false} UnfencedAreHeadings(lines: seq<string>, kind: Classify, open: Option<string>,
                                               base: nat, at: nat)
    requires at < |lines| && kind(lines[at]).Title? && FenceAfter(lines[..at], kind, open) == None
    ensures Heading(kind(lines[at]).title, kind(lines[at]).level, base + at + 1)
            in HeadingsFrom(lines, kind, open, base)
    decreases at
  {
    hide HeadingsFrom, FenceAfter, NextFence;
    HeadingsFromStep(lines, kind, open, base);
    if at == 0 {
      HeadingsFromStep(lines[..0], kind, open, base);
    } else {
      var rest := lines[1..];
      HeadingsFromStep(lines[..at], kind, open, base);
      assert lines[..at][1..] == rest[..at - 1];
      UnfencedAreHeadings(rest, kind, NextFence(open, kind(lines[0])), base + 1, at - 1);
    }
  }

  // ------------------------------------------------------------------- sections

  /** Index of the first heading after `i` that is not deeper, or the number of headings. */
  function NextSibling(hs: seq<Heading>, i: nat, j: nat): (k: nat)
    requires i < j <= |hs|
    ensures j <= k <= |hs|
    ensures forall x :: j <= x < k ==> hs[x].level > hs[i].level
    ensures k < |hs| ==> hs[k].level <= hs[i].level
    decreases |hs| - j
  {
    if j == |hs| || hs[j].level <= hs[i].level then j else NextSibling(hs, i, j + 1)
  }

  /** The last line of the section heading `i` opens, in a document of `n` lines. */
  function SectionEnd(hs: seq<Heading>, i: nat, n: nat): int
    requires i < |hs|
  {
    var k := NextSibling(hs, i, i + 1);
    if k < |hs| then hs[k].line - 1 else n
  }

  method SectionRanges(hs: seq<Heading>, n: nat) returns (ends: seq<int>)
    ensures |ends| == |hs| && forall i :: 0 <= i < |hs| ==> ends[i] == SectionEnd(hs, i, n)
  {
    ends := [];
    for i := 0 to |hs|
      invariant |ends| == i && forall x :: 0 <= x < i ==> ends[x] == SectionEnd(hs, x, n)
    {
      var end: int := n;
      var j := i + 1;
      while j < |hs|
        invariant i < j <= |hs| && end == n
        invariant NextSibling(hs, i, i + 1) == NextSibling(hs, i, j)
      {
        if hs[j].level <= hs[i].level {
          end := hs[j].line - 1;
          break;
        }
        j := j + 1;
      }
      ends := ends + [end];
    }
  }

  /** Headings in the order of their lines, all within the document. */
  predicate InOrder(hs: seq<Heading>, base: nat, n: nat) {
    && (forall i :: 0 <= i < |hs| ==> base < hs[i].line <= n)
    && (forall i, j :: 0 <= i < j < |hs| ==> hs[i].line < hs[j].line)
  }

  lemma {:induction false} HeadingsAreInOrder(lines: seq<string>, kind: Classify, open: Option<string>, base: nat)
    ensures InOrder(HeadingsFrom(lines, kind, open, base), base, base + |lines|)
    decreases |lines|
  {
    if lines != [] {
      HeadingsAreInOrder(lines[1..], kind, NextFence(open, kind(lines[0])), base + 1);
    }
  }

  /** A heading is a heading line with no fence open before it. */
  lemma {:induction false} HeadingsAreUnfenced(lines: seq<string>, kind: Classify, open: Option<string>,
                                               base: nat, i: nat)
    requires i < |HeadingsFrom(lines, kind, open, base)|
    ensures var h := HeadingsFrom(lines, kind, open, base)[i];
            && base < h.line <= base + |lines|
            && kind(lines[h.line - base - 1]) == Title(h.title, h.level)
            && FenceAfter(lines[..h.line - base - 1], kind, open) == None
    decreases |lines|
  {
    hide HeadingsFrom, FenceAfter, NextFence;
    HeadingsFromStep(lines, kind, open, base);
    var next, rest := NextFence(open, kind(lines[0])), lines[1..];
    var here := HeadingAt(kind(lines[0]), open, base + 1);
    if i < |here| {
      assert lines[..0] == [];
      HeadingsFromStep([], kind, open, base);
    } else {
      HeadingsAreUnfenced(rest, kind, next, base + 1, i - |here|);
      var at := HeadingsFrom(rest, kind, next, base + 1)[i - |here|].line - base - 1;
      assert lines[..at][1..] == rest[..at - 1];
      HeadingsFromStep(lines[..at], kind, open, base);
    }
  }

  /** Where a section ends: just before the next heading that is not deeper, which is then its
      first after it, or with the document; the headings inside are deeper. */
  lemma SectionEndIs(lines: seq<string>, kind: Classify, i: nat)
    requires i < |HeadingsFrom(lines, kind, None, 0)|
    ensures var hs, n := HeadingsFrom(lines, kind, None, 0), |lines|;
            var a := SectionEnd(hs, i, n);
            && 0 < hs[i].line <= a <= n
            && (forall j :: i < j < |hs| && hs[j].line <= a ==> hs[j].level > hs[i].level)
            && (a < n <==> exists k :: i < k < |hs| && hs[k].level <= hs[i].level)
            && (a < n ==> exists k :: i < k < |hs| && hs[k].line == a + 1 && hs[k].level <= hs[i].level)
  {
    hide HeadingsFrom;
    HeadingsAreInOrder(lines, kind, None, 0);
    var hs := HeadingsFrom(lines, kind, None, 0);
    var p := NextSibling(hs, i, i + 1);
    if p < |hs| {
      assert hs[p].line == SectionEnd(hs, i, |lines|) + 1;
    }
  }

  /** Sections form a laminar family: of two, the later is after the earlier or inside it and
      deeper. */
  lemma SectionsAreLaminar(lines: seq<string>, kind: Classify, i: nat, j: nat)
    requires i < j < |HeadingsFrom(lines, kind, None, 0)|
    ensures var hs, n := HeadingsFrom(lines, kind, None, 0), |lines|;
            var a, b := SectionEnd(hs, i, n), SectionEnd(hs, j, n);
            && hs[i].line < hs[j].line
            && (a < hs[j].line || (b <= a && hs[j].level > hs[i].level))
  {
    hide HeadingsFrom;
    HeadingsAreInOrder(lines, kind, None, 0);
    var hs := HeadingsFrom(lines, kind, None, 0);
    var p, q := NextSibling(hs, i, i + 1), NextSibling(hs, j, j + 1);
  }

  // ------------------------------------------------- composing and moving documents

  lemma {:induction false} HeadingsOfSum(a: seq<string>, b: seq<string>, kind: Classify, open: Option<string>,
                                         base: nat)
    ensures HeadingsFrom(a + b, kind, open, base)
            == HeadingsFrom(a, kind, open, base) + HeadingsFrom(b, kind, FenceAfter(a, kind, open), base + |a|)
    ensures FenceAfter(a + b, kind, open) == FenceAfter(b, kind, FenceAfter(a, kind, open))
    decreases |a|
  {
    hide HeadingsFrom, FenceAfter, HeadingAt, NextFence;
    HeadingsFromStep(a, kind, open, base);
    if a == [] {
      assert a + b == b;
    } else {
      HeadingsFromStep(a + b, kind, open, base);
      assert (a + b)[1..] == a[1..] + b;
      HeadingsOfSum(a[1..], b, kind, NextFence(open, kind(a[0])), base + 1);
    }
  }

  /** The same headings, `d` lines further down. */
  function Moved(hs: seq<Heading>, d: int): (r: seq<Heading>)
    ensures |r| == |hs|
    ensures forall i :: 0 <= i < |hs| ==> r[i] == Heading(hs[i].title, hs[i].level, hs[i].line + d)
  {
    seq(|hs|, i requires 0 <= i < |hs| => Heading(hs[i].title, hs[i].level, hs[i].line + d))
  }

  lemma {:induction false} HeadingsMove(lines: seq<string>, kind: Classify, open: Option<string>, from: nat, to: nat)
    ensures HeadingsFrom(lines, kind, open, to) == Moved(HeadingsFrom(lines, kind, open, from), to - from)
    decreases |lines|
  {
    hide HeadingsFrom, NextFence;
    HeadingsFromStep(lines, kind, open, from);
    HeadingsFromStep(lines, kind, open, to);
    if lines != [] {
      var k := kind(lines[0]);
      var next := NextFence(open, k);
      HeadingsMove(lines[1..], kind, next, from + 1, to + 1);
    }
  }

  // ------------------------------------------------------------ replacing a section

  function NormalizeBlock(s: string): string {
    if s == "" then "" else EnsureNL(s)
  }

  /** The content byte for byte, and a newline if there is content that does not end with one. */
  lemma NormalizeIs(s: string)
    ensures NormalizeBlock(s) == s + if s != "" && s[|s| - 1] != '\n' then "\n" else ""
  {
    assert s + "" == s;
  }

  /** `joinLines`, for line numbers of a section. */
  function ReadLines(lines: seq<string>, startLine: int, endLine: int): string {
    var start, end := Max(startLine, 1), Min(endLine, |lines|);
    if start > end || start > |lines| then "" else Join(lines[start - 1..end])
  }

  /** The document with lines [start, end) replaced by a block. */
  function Replace(lines: seq<string>, start: nat, end: nat, content: string): string
    requires start <= end <= |lines|
  {
    Join(lines[..start]) + NormalizeBlock(content) + Join(lines[end..])
  }

  method MarkdownReplaceSection(original: string, lineStart: nat, lineEnd: nat, content: string, includeHeading: bool)
    returns (updated: string)
    requires 1 <= lineStart <= lineEnd <= |SplitLines(original)|
    ensures updated
            == Replace(SplitLines(original), if includeHeading then lineStart - 1 else lineStart, lineEnd, content)
    ensures var lines, start := SplitLines(original), if includeHeading then lineStart - 1 else lineStart;
            updated == Join(lines[..start])
                       + (content + if content != "" && content[|content| - 1] != '\n' then "\n" else "")
                       + Join(lines[lineEnd..])
  {
    hide SplitLines;
    NormalizeIs(content);
    var lines := SplitLines(original);
    var start := lineStart;
    if !includeHeading {
      start := start + 1;
    }
    var updatedLines := lines[..start - 1];
    updatedLines := updatedLines + [NormalizeBlock(content)];
    updatedLines := updatedLines + lines[lineEnd..];
    JoinSum(lines[..start - 1] + [NormalizeBlock(content)], lines[lineEnd..]);
    JoinSum(lines[..start - 1], [NormalizeBlock(content)]);
    updated := Join(updatedLines);
  }

  predicate Deeper(hs: seq<Heading>, level: nat) {
    forall i :: 0 <= i < |hs| ==> hs[i].level > level
  }

  lemma LineAt(a: seq<Heading>, b: seq<Heading>, n: nat, m: nat, j: nat)
    requires InOrder(a, 0, n) && InOrder(b, n, m)
    ensures j < |a| ==> (a + b)[j].line <= n
    ensures |a| <= j < |a + b| ==> (a + b)[j].line > n
  {
  }

  /** An ordered list of headings splits where the line numbers say. */
  lemma SplitIndex(a: seq<Heading>, b: seq<Heading>, n: nat, m: nat, k: nat)
    requires k <= |a + b| && InOrder(a, 0, n) && InOrder(b, n, m)
    requires forall j :: 0 <= j < k ==> (a + b)[j].line <= n
    requires forall j :: k <= j < |a + b| ==> (a + b)[j].line > n
    ensures |a| == k
  {
    hide InOrder;
    LineAt(a, b, n, m, k);
    LineAt(a, b, n, m, |a|);
  }

  /** The headings of a document cut after line `n`, when the first `k` are those up to there. */
  lemma HeadingsCut(lines: seq<string>, kind: Classify, n: nat, k: nat)
    requires n <= |lines| && k <= |HeadingsFrom(lines, kind, None, 0)|
    requires var hs := HeadingsFrom(lines, kind, None, 0);
             && (forall j :: 0 <= j < k ==> hs[j].line <= n)
             && (forall j :: k <= j < |hs| ==> hs[j].line > n)
    ensures var hs := HeadingsFrom(lines, kind, None, 0);
            && HeadingsFrom(lines[..n], kind, None, 0) == hs[..k]
            && HeadingsFrom(lines[n..], kind, FenceAfter(lines[..n], kind, None), n) == hs[k..]
  {
    hide HeadingsFrom, FenceAfter, InOrder;
    var before, after := lines[..n], lines[n..];
    assert lines == before + after;
    HeadingsOfSum(before, after, kind, None, 0);
    HeadingsAreInOrder(before, kind, None, 0);
    HeadingsAreInOrder(after, kind, FenceAfter(before, kind, None), n);
    SplitIndex(HeadingsFrom(before, kind, None, 0), HeadingsFrom(after, kind, FenceAfter(before, kind, None), n),
      n, n + |after|, k);
  }

  /** No fence is open before or after a heading line. */
  lemma NoFenceAtHeading(lines: seq<string>, kind: Classify, i: nat)
    requires i < |HeadingsFrom(lines, kind, None, 0)|
    ensures var hs := HeadingsFrom(lines, kind, None, 0);
            && 0 < hs[i].line <= |lines|
            && FenceAfter(lines[..hs[i].line - 1], kind, None) == None
            && FenceAfter(lines[..hs[i].line], kind, None) == None
            && kind(lines[hs[i].line - 1]) == Title(hs[i].title, hs[i].level)
  {
    hide HeadingsFrom;
    HeadingsAreUnfenced(lines, kind, None, 0, i);
    var n := HeadingsFrom(lines, kind, None, 0)[i].line;
    var last := [lines[n - 1]];
    assert lines[..n] == lines[..n - 1] + last;
    HeadingsOfSum(lines[..n - 1], last, kind, None, 0);
    assert last[1..] == [];
    assert FenceAfter(last, kind, None) == None;
  }

  /** Where a section's body or the whole section starts: `start` lines come before it. */
  function StartOf(h: Heading, includeHeading: bool): int {
    if includeHeading then h.line - 1 else h.line
  }

  /** How many headings come before that. */
  function KeptBefore(i: nat, includeHeading: bool): nat {
    if includeHeading then i else i + 1
  }

  /** What precedes the replaced part. */
  lemma PartBefore(lines: seq<string>, kind: Classify, i: nat, includeHeading: bool)
    requires i < |HeadingsFrom(lines, kind, None, 0)|
    ensures var hs := HeadingsFrom(lines, kind, None, 0);
            var start := StartOf(hs[i], includeHeading);
            && 0 <= start <= SectionEnd(hs, i, |lines|) <= |lines|
            && HeadingsFrom(lines[..start], kind, None, 0) == hs[..KeptBefore(i, includeHeading)]
            && FenceAfter(lines[..start], kind, None) == None
  {
    hide HeadingsFrom, FenceAfter;
    HeadingsAreInOrder(lines, kind, None, 0);
    NoFenceAtHeading(lines, kind, i);
    var hs := HeadingsFrom(lines, kind, None, 0);
    HeadingsCut(lines, kind, StartOf(hs[i], includeHeading), KeptBefore(i, includeHeading));
  }

  /** What follows the section starts, outside any fence, with the heading that ended it. */
  lemma PartAfter(lines: seq<string>, kind: Classify, i: nat)
    requires i < |HeadingsFrom(lines, kind, None, 0)|
    ensures var hs := HeadingsFrom(lines, kind, None, 0);
            var end, k := SectionEnd(hs, i, |lines|), NextSibling(hs, i, i + 1);
            && 0 <= end <= |lines| && (end == |lines| <==> k == |hs|)
            && HeadingsFrom(lines[end..], kind, None, end) == hs[k..]
            && (lines[end..] == [] <==> k == |hs|)
            && (end < |lines| ==> kind(lines[end]) == Title(hs[k].title, hs[k].level) && hs[k].line == end + 1)
  {
    hide HeadingsFrom, FenceAfter;
    HeadingsAreInOrder(lines, kind, None, 0);
    var hs := HeadingsFrom(lines, kind, None, 0);
    var end, k := SectionEnd(hs, i, |lines|), NextSibling(hs, i, i + 1);
    if k < |hs| {
      NoFenceAtHeading(lines, kind, k);
      HeadingsCut(lines, kind, end, k);
    } else {
      NoHeadings(lines[end..], kind, end);
      assert hs[k..] == [];
    }
  }

  lemma NoHeadings(lines: seq<string>, kind: Classify, base: nat)
    requires lines == []
    ensures HeadingsFrom(lines, kind, None, base) == []
  {
  }

  /** Whether a heading line that starts a text is a heading depends on the fence before it. */
  lemma FirstHeading(lines: seq<string>, kind: Classify, open: Option<string>, base: nat)
    requires lines != [] && kind(lines[0]).Title?
    ensures var hs := HeadingsFrom(lines, kind, open, base);
            && (open.None? ==> hs != [] && hs[0] == Heading(kind(lines[0]).title, kind(lines[0]).level, base + 1))
            && (open.Some? ==> hs == [] || hs[0].line > base + 1)
  {
    HeadingsAreInOrder(lines[1..], kind, open, base + 1);
  }

  /** The headings after a replaced part are the old ones, moved, exactly when no fence is left
      open before them. */
  lemma RestMoves(rest: seq<string>, kind: Classify, open: Option<string>, from: nat, to: nat)
    requires rest != [] ==> kind(rest[0]).Title?
    ensures HeadingsFrom(rest, kind, open, to) == Moved(HeadingsFrom(rest, kind, None, from), to - from)
            <==> rest == [] || open == None
  {
    if rest == [] || open == None {
      HeadingsMove(rest, kind, None, from, to);
    } else {
      FirstHeading(rest, kind, open, to);
      FirstHeading(rest, kind, None, from);
      hide HeadingsFrom;
      var r, m := HeadingsFrom(rest, kind, open, to), Moved(HeadingsFrom(rest, kind, None, from), to - from);
      assert |m| > 0 && m[0].line == to + 1;
    }
  }

  lemma HeadingsOfThree(a: seq<string>, b: seq<string>, c: seq<string>, kind: Classify)
    requires FenceAfter(a, kind, None) == None
    ensures HeadingsFrom(a + b + c, kind, None, 0)
            == HeadingsFrom(a, kind, None, 0) + HeadingsFrom(b, kind, None, |a|)
               + HeadingsFrom(c, kind, FenceAfter(b, kind, None), |a| + |b|)
  {
    hide HeadingsFrom, FenceAfter;
    HeadingsOfSum(a + b, c, kind, None, 0);
    HeadingsOfSum(a, b, kind, None, 0);
  }

  lemma SameFront(p: seq<Heading>, x: seq<Heading>, y: seq<Heading>)
    ensures p + x == p + y <==> x == y
  {
    if p + x == p + y {
      assert x == (p + x)[|p|..] && y == (p + y)[|p|..];
    }
  }

  lemma ReplacedHeadings(a: seq<string>, b: seq<string>, c: seq<string>, kind: Classify, from: nat)
    requires FenceAfter(a, kind, None) == None
    requires c != [] ==> kind(c[0]).Title?
    ensures HeadingsFrom(a + b + c, kind, None, 0)
            == HeadingsFrom(a, kind, None, 0) + HeadingsFrom(b, kind, None, |a|)
               + Moved(HeadingsFrom(c, kind, None, from), |a| + |b| - from)
            <==> c == [] || FenceAfter(b, kind, None) == None
  {
    hide HeadingsFrom, FenceAfter, Moved;
    HeadingsOfThree(a, b, c, kind);
    var open := FenceAfter(b, kind, None);
    RestMoves(c, kind, open, from, |a| + |b|);
    SameFront(HeadingsFrom(a, kind, None, 0) + HeadingsFrom(b, kind, None, |a|),
      HeadingsFrom(c, kind, open, |a| + |b|), Moved(HeadingsFrom(c, kind, None, from), |a| + |b| - from));
  }

  /** The document with its lines from `start` up to `end` replaced. */
  function ReplacedLines(lines: seq<string>, start: int, end: int, block: seq<string>): seq<string>
    requires 0 <= start <= end <= |lines|
  {
    lines[..start] + block + lines[end..]
  }

  /** The first `p` headings, then others, then those from `k` on, `d` lines further down. */
  function Spliced(hs: seq<Heading>, p: nat, inserted: seq<Heading>, k: nat, d: int): seq<Heading>
    requires p <= |hs| && k <= |hs|
  {
    hs[..p] + inserted + Moved(hs[k..], d)
  }

  /** The first `p` headings lie before line `start`, where no fence is open, and those from `k`
      on after line `end`, which is followed by one of them or by nothing. */
  ghost predicate CutsCleanly(lines: seq<string>, kind: Classify, start: int, end: int, p: nat, k: nat): (b: bool)
    ensures b ==> 0 <= start <= end <= |lines|
    ensures b ==> p <= |HeadingsFrom(lines, kind, None, 0)| && k <= |HeadingsFrom(lines, kind, None, 0)|
  {
    var hs := HeadingsFrom(lines, kind, None, 0);
    && 0 <= start <= end <= |lines| && p <= |hs| && k <= |hs|
    && HeadingsFrom(lines[..start], kind, None, 0) == hs[..p]
    && FenceAfter(lines[..start], kind, None) == None
    && HeadingsFrom(lines[end..], kind, None, end) == hs[k..]
    && (end < |lines| ==> kind(lines[end]).Title?)
  }

  lemma SplicedHeadings(lines: seq<string>, kind: Classify, start: int, end: int, p: nat, k: nat, block: seq<string>)
    requires CutsCleanly(lines, kind, start, end, p, k)
    ensures HeadingsFrom(ReplacedLines(lines, start, end, block), kind, None, 0)
            == Spliced(HeadingsFrom(lines, kind, None, 0), p, HeadingsFrom(block, kind, None, start),
                       k, start + |block| - end)
            <==> end == |lines| || FenceAfter(block, kind, None) == None
  {
    hide HeadingsFrom, FenceAfter, Moved;
    ReplacedHeadings(lines[..start], block, lines[end..], kind, end);
  }

  lemma SectionCutsCleanly(lines: seq<string>, kind: Classify, i: nat, includeHeading: bool)
    requires i < |HeadingsFrom(lines, kind, None, 0)|
    ensures var hs := HeadingsFrom(lines, kind, None, 0);
            CutsCleanly(lines, kind, StartOf(hs[i], includeHeading), SectionEnd(hs, i, |lines|),
              KeptBefore(i, includeHeading), NextSibling(hs, i, i + 1))
  {
    hide HeadingsFrom, FenceAfter, SectionEnd;
    PartBefore(lines, kind, i, includeHeading);
    PartAfter(lines, kind, i);
  }

  /** Replacing a section, with or without its heading line, keeps every other heading in title,
      level and order, those after it moved: exactly when the new text leaves no fence open
      before them. */
  lemma ReplacingKeepsOthers(lines: seq<string>, kind: Classify, i: nat, includeHeading: bool, block: seq<string>)
    requires i < |HeadingsFrom(lines, kind, None, 0)|
    ensures var hs := HeadingsFrom(lines, kind, None, 0);
            var start, end := StartOf(hs[i], includeHeading), SectionEnd(hs, i, |lines|);
            var p, k := KeptBefore(i, includeHeading), NextSibling(hs, i, i + 1);
            && 0 <= start <= end <= |lines| && p <= |hs|
            && (HeadingsFrom(ReplacedLines(lines, start, end, block), kind, None, 0)
                == Spliced(hs, p, HeadingsFrom(block, kind, None, start), k, start + |block| - end)
                <==> end == |lines| || FenceAfter(block, kind, None) == None)
  {
    hide *;
    var hs := HeadingsFrom(lines, kind, None, 0);
    SectionCutsCleanly(lines, kind, i, includeHeading);
    SplicedHeadings(lines, kind, StartOf(hs[i], includeHeading), SectionEnd(hs, i, |lines|),
      KeptBefore(i, includeHeading), NextSibling(hs, i, i + 1), block);
  }

  // ------------------------------------------------------------ reading a section back

  /** A section reaches exactly to line `m` when the headings up to there are deeper and the
      next line, if any, is a heading that is not. */
  lemma EndsAt(p: seq<Heading>, q: seq<Heading>, r: seq<Heading>, m: nat, n: nat)
    requires p != [] && InOrder(q, 0, m) && InOrder(r, m, n) && m <= n
    ensures var level := p[|p| - 1].level;
            SectionEnd(p + q + r, |p| - 1, n) == m
            <==> Deeper(q, level) && (m == n || (r != [] && r[0].line == m + 1 && r[0].level <= level))
  {
    var hs, i, level := p + q + r, |p| - 1, p[|p| - 1].level;
    var k := NextSibling(hs, i, i + 1);
    assert hs[i] == p[i];
    assert forall x :: 0 <= x < |q| ==> hs[x + |p|] == q[x];
    assert forall x :: 0 <= x < |r| ==> hs[x + |p| + |q|] == r[x];
    assert forall x :: |p| <= x < |p| + |q| ==> hs[x] == q[x - |p|];
    assert forall x :: |p| + |q| <= x < |hs| ==> hs[x] == r[x - |p| - |q|];
  }

  /** What follows a section puts its first heading on its first line exactly when no fence is
      open there. */
  lemma RestStopsSection(lines: seq<string>, kind: Classify, i: nat, open: Option<string>, m: nat)
    requires i < |HeadingsFrom(lines, kind, None, 0)|
    requires 0 <= SectionEnd(HeadingsFrom(lines, kind, None, 0), i, |lines|) <= |lines|
    ensures var hs := HeadingsFrom(lines, kind, None, 0);
            var rest := lines[SectionEnd(hs, i, |lines|)..];
            var r := HeadingsFrom(rest, kind, open, m);
            (rest == [] || (r != [] && r[0].line == m + 1 && r[0].level <= hs[i].level))
            <==> (rest == [] || open == None)
  {
    hide HeadingsFrom, FenceAfter;
    PartAfter(lines, kind, i);
    var rest := lines[SectionEnd(HeadingsFrom(lines, kind, None, 0), i, |lines|)..];
    if rest != [] {
      FirstHeading(rest, kind, open, m);
    }
  }

  /** Where the section ends once its body is replaced. */
  lemma NewEnd(lines: seq<string>, kind: Classify, i: nat, block: seq<string>)
    requires i < |HeadingsFrom(lines, kind, None, 0)|
    ensures var hs := HeadingsFrom(lines, kind, None, 0);
            var start, end := hs[i].line, SectionEnd(hs, i, |lines|);
            && 0 <= start <= end <= |lines|
            && var new' := ReplacedLines(lines, start, end, block);
               var hs' := HeadingsFrom(new', kind, None, 0);
               && i < |hs'| && hs'[i] == hs[i]
               && (SectionEnd(hs', i, |new'|) == start + |block|
                   <==> Deeper(HeadingsFrom(block, kind, None, start), hs[i].level)
                        && (end == |lines| || FenceAfter(block, kind, None) == None))
  {
    hide HeadingsFrom, FenceAfter, SectionEnd, Deeper, InOrder;
    PartBefore(lines, kind, i, false);
    var hs := HeadingsFrom(lines, kind, None, 0);
    var start, end := hs[i].line, SectionEnd(hs, i, |lines|);
    var open, rest, m := FenceAfter(block, kind, None), lines[end..], start + |block|;
    HeadingsOfThree(lines[..start], block, rest, kind);
    var q, r := HeadingsFrom(block, kind, None, start), HeadingsFrom(rest, kind, open, m);
    RestStopsSection(lines, kind, i, open, m);
    HeadingsAreInOrder(block, kind, None, start);
    HeadingsAreInOrder(rest, kind, open, m);
    EndsAt(hs[..i + 1], q, r, m, m + |rest|);
  }

  /** Reading different numbers of lines gives different texts. */
  lemma {:induction false} LongerReadsMore(lines: seq<string>, a: nat, b: nat)
    requires Proper(lines) && a <= b <= |lines|
    ensures Join(lines[..a]) == Join(lines[..b]) <==> a == b
  {
    if a < b {
      assert lines[..b] == lines[..a] + lines[a..b];
      JoinSum(lines[..a], lines[a..b]);
      assert IsLine(lines[a]) && lines[a..b][0] == lines[a];
    }
  }

  lemma SliceOfTail(lines: seq<string>, from: nat, to: nat)
    requires from <= to <= |lines|
    ensures lines[from..to] == lines[from..][..to - from]
  {
  }

  lemma ProperTail(lines: seq<string>, from: nat)
    requires Proper(lines) && from <= |lines|
    ensures Proper(lines[from..])
  {
  }

  lemma ReadsExactly(lines: seq<string>, from: nat, a: nat, b: nat)
    requires Proper(lines) && 1 <= from <= a <= |lines| && from <= b <= |lines|
    ensures ReadLines(lines, from, a) == ReadLines(lines, from, b) <==> a == b
  {
    var tail := lines[from - 1..];
    ProperTail(lines, from - 1);
    SliceOfTail(lines, from - 1, a);
    SliceOfTail(lines, from - 1, b);
    hide Proper, Join;
    if a <= b {
      LongerReadsMore(tail, a - from + 1, b - from + 1);
    } else {
      LongerReadsMore(tail, b - from + 1, a - from + 1);
    }
  }

  lemma ReplacedIsProper(lines: seq<string>, start: int, end: int, block: seq<string>)
    requires 0 <= start <= end <= |lines| && Proper(lines) && Proper(block) && AllTerminated(block)
    requires start == 0 || Terminated(lines[start - 1])
    ensures Proper(ReplacedLines(lines, start, end, block))
  {
    assert forall j :: 0 <= j < start ==> Terminated(lines[j]);
  }

  /** The new text has the new lines. */
  lemma ReplaceSplits(lines: seq<string>, start: int, end: int, content: string)
    requires 0 <= start <= end <= |lines| && Proper(lines)
    requires start == 0 || Terminated(lines[start - 1])
    ensures var new' := ReplacedLines(lines, start, end, SplitLines(NormalizeBlock(content)));
            SplitLines(Replace(lines, start, end, content)) == new' && Proper(new')
  {
    hide SplitLines, Join, Proper, AllTerminated;
    var block := SplitLines(NormalizeBlock(content));
    SplitIsProper(NormalizeBlock(content));
    TerminatedText(NormalizeBlock(content));
    ReplacedIsProper(lines, start, end, block);
    JoinSum(lines[..start] + block, lines[end..]);
    JoinSum(lines[..start], block);
    JoinSplit(NormalizeBlock(content));
    SplitJoin(ReplacedLines(lines, start, end, block));
  }

  lemma HeadingAndBlock(lines: seq<string>, start: int, end: int, content: string)
    requires 0 < start <= end <= |lines|
    ensures var block := SplitLines(NormalizeBlock(content));
            ReadLines(ReplacedLines(lines, start, end, block), start, start + |block|)
            == lines[start - 1] + NormalizeBlock(content)
  {
    hide SplitLines;
    var block := SplitLines(NormalizeBlock(content));
    var new' := ReplacedLines(lines, start, end, block);
    assert new'[start - 1..start + |block|] == [lines[start - 1]] + block;
    JoinSplit(NormalizeBlock(content));
    assert ([lines[start - 1]] + block)[1..] == block;
  }

  /** After its body was replaced, the section is there under the same heading, and reading it
      gives its heading line and the normalized content. */
  ghost predicate ReadsBack(original: string, kind: Classify, i: nat, content: string)
    requires i < |HeadingsFrom(SplitLines(original), kind, None, 0)|
  {
    var lines := SplitLines(original);
    var hs := HeadingsFrom(lines, kind, None, 0);
    var start, end := hs[i].line, SectionEnd(hs, i, |lines|);
    && 0 < start <= end <= |lines|
    && var new' := SplitLines(Replace(lines, start, end, content));
       var hs' := HeadingsFrom(new', kind, None, 0);
       && i < |hs'| && hs'[i] == hs[i]
       && ReadLines(new', start, SectionEnd(hs', i, |new'|))
          == lines[start - 1] + (content + if content != "" && content[|content| - 1] != '\n' then "\n" else "")
  }

  /** The content fits the section: it has only deeper headings and leaves no fence open before
      what follows. If it is put right behind a heading line without a newline, its first line must
      also leave that heading as it is. */
  ghost predicate Fits(lines: seq<string>, kind: Classify, i: nat, content: string)
    requires i < |HeadingsFrom(lines, kind, None, 0)|
  {
    var hs := HeadingsFrom(lines, kind, None, 0);
    var start, end := hs[i].line, SectionEnd(hs, i, |lines|);
    var block := SplitLines(NormalizeBlock(content));
    && 0 < start <= |lines|
    && if Terminated(lines[start - 1]) || block == [] then
         && Deeper(HeadingsFrom(block, kind, None, start), hs[i].level)
         && (end == |lines| || FenceAfter(block, kind, None) == None)
       else
         && kind(lines[start - 1] + block[0]) == kind(lines[start - 1])
         && Deeper(HeadingsFrom(block[1..], kind, None, start), hs[i].level)
  }

  /** A section reads back if and only if the content fits. */
  lemma SectionReadsBack(original: string, kind: Classify, i: nat, content: string)
    requires i < |HeadingsFrom(SplitLines(original), kind, None, 0)|
    ensures ReadsBack(original, kind, i, content) <==> Fits(SplitLines(original), kind, i, content)
  {
    hide *;
    var lines := SplitLines(original);
    var hs := HeadingsFrom(lines, kind, None, 0);
    EndIsInside(lines, kind, i);
    SplitIsProper(original);
    var block := SplitLines(NormalizeBlock(content));
    if Terminated(lines[hs[i].line - 1]) {
      TerminatedReadsBack(original, kind, i, content);
    } else {
      LastHeading(lines, kind, i);
      if block == [] {
        NothingReadsBack(original, kind, i, content);
      } else {
        GluedReadsBack(original, kind, i, content);
      }
    }
  }

  lemma TerminatedReadsBack(original: string, kind: Classify, i: nat, content: string)
    requires i < |HeadingsFrom(SplitLines(original), kind, None, 0)|
    requires var line := HeadingsFrom(SplitLines(original), kind, None, 0)[i].line;
             0 < line <= |SplitLines(original)| && Terminated(SplitLines(original)[line - 1])
    ensures ReadsBack(original, kind, i, content) <==> Fits(SplitLines(original), kind, i, content)
  {
    hide SplitLines, Replace, HeadingsFrom, SectionEnd, ReadLines, NormalizeBlock, Deeper, FenceAfter, Terminated,
      Proper, ReplacedLines;
    NormalizeIs(content);
    var lines := SplitLines(original);
    var hs := HeadingsFrom(lines, kind, None, 0);
    var start, end := hs[i].line, SectionEnd(hs, i, |lines|);
    var block := SplitLines(NormalizeBlock(content));
    EndIsInside(lines, kind, i);
    SplitIsProper(original);
    ReplaceSplits(lines, start, end, content);
    NewEnd(lines, kind, i, block);
    var new' := ReplacedLines(lines, start, end, block);
    HeadingAndBlock(lines, start, end, content);
    EndIsInside(new', kind, i);
    SizeOfReplaced(lines, start, end, block);
    ReadsExactly(new', start, SectionEnd(HeadingsFrom(new', kind, None, 0), i, |new'|), start + |block|);
  }

  /** A heading line without a newline is the last line, and its section ends there. */
  lemma LastHeading(lines: seq<string>, kind: Classify, i: nat)
    requires Proper(lines) && i < |HeadingsFrom(lines, kind, None, 0)|
    requires var line := HeadingsFrom(lines, kind, None, 0)[i].line;
             0 < line <= |lines| && !Terminated(lines[line - 1])
    ensures var hs := HeadingsFrom(lines, kind, None, 0);
            hs[i].line == |lines| == SectionEnd(hs, i, |lines|) && i == |hs| - 1
  {
    hide HeadingsFrom, Terminated;
    HeadingsAreInOrder(lines, kind, None, 0);
    EndIsInside(lines, kind, i);
    var hs := HeadingsFrom(lines, kind, None, 0);
    assert hs[i].line == |lines|;
    NoneAfter(hs, i, |lines|);
  }

  lemma NoneAfter(hs: seq<Heading>, i: nat, n: nat)
    requires InOrder(hs, 0, n) && i < |hs| && hs[i].line == n
    ensures i == |hs| - 1
  {
    var last := |hs| - 1;
    assert hs[last].line <= n;
  }

  lemma NothingReadsBack(original: string, kind: Classify, i: nat, content: string)
    requires i < |HeadingsFrom(SplitLines(original), kind, None, 0)|
    requires SplitLines(NormalizeBlock(content)) == []
    requires var lines := SplitLines(original);
             var hs := HeadingsFrom(lines, kind, None, 0);
             0 < hs[i].line == |lines| == SectionEnd(hs, i, |lines|)
    ensures ReadsBack(original, kind, i, content) && Fits(SplitLines(original), kind, i, content)
  {
    hide SplitLines, SectionEnd, FenceAfter, HeadingsFrom, NormalizeBlock, Replace, ReadLines, Terminated;
    NormalizeIs(content);
    var lines := SplitLines(original);
    SplitIsProper(NormalizeBlock(content));
    NothingReplaced(original, content);
    ReadsLast(lines);
    assert lines[|lines| - 1] + "" == lines[|lines| - 1];
    NoHeadings([], kind, |lines|);
  }

  lemma NothingReplaced(original: string, content: string)
    requires NormalizeBlock(content) == ""
    ensures var lines := SplitLines(original); Replace(lines, |lines|, |lines|, content) == original
  {
    hide SplitLines, NormalizeBlock;
    var lines := SplitLines(original);
    assert lines[..|lines|] == lines && lines[|lines|..] == [];
    JoinSplit(original);
    NoLinesJoined();
    assert original + "" + "" == original;
  }

  lemma ReadsLast(lines: seq<string>)
    requires lines != []
    ensures ReadLines(lines, |lines|, |lines|) == lines[|lines| - 1]
  {
    assert lines[|lines| - 1..|lines|] == [lines[|lines| - 1]];
    JoinOne(lines[|lines| - 1]);
  }

  lemma NoLinesJoined()
    ensures Join([]) == ""
  {
  }

  lemma JoinOne(s: string)
    ensures Join([s]) == s
  {
    assert [s][1..] == [] && s + "" == s;
  }

  /** Lines put behind a last line without a newline: the first of them is glued to it. */
  function Glued(lines: seq<string>, block: seq<string>): seq<string>
    requires lines != [] && block != []
  {
    lines[..|lines| - 1] + ([lines[|lines| - 1] + block[0]] + block[1..])
  }

  lemma GluedIsProper(lines: seq<string>, block: seq<string>)
    requires Proper(lines) && Proper(block) && lines != [] && block != [] && !Terminated(lines[|lines| - 1])
    ensures Proper(Glued(lines, block))
  {
    var last, first := lines[|lines| - 1], block[0];
    assert IsLine(last) && IsLine(first);
    assert forall k :: 0 <= k < |last| ==> last[k] != '\n';
    var g := last + first;
    assert forall k :: 0 <= k < |g| - 1 ==> g[k] != '\n';
    assert Terminated(first) ==> Terminated(g);
  }

  lemma GluedJoins(lines: seq<string>, block: seq<string>)
    requires lines != [] && block != []
    ensures Join(Glued(lines, block)) == Join(lines) + Join(block)
    ensures Join([lines[|lines| - 1] + block[0]] + block[1..]) == lines[|lines| - 1] + Join(block)
  {
    hide Join;
    var n := |lines| - 1;
    var front, last, first, tail := lines[..n], lines[n], block[0], block[1..];
    assert lines == front + [last] && block == [first] + tail;
    JoinSum(front, [last]);
    JoinOne(last);
    JoinSum(front, [last + first] + tail);
    JoinCons(last + first, tail);
    JoinCons(first, tail);
    Regrouped(Join(front), last, first, Join(tail));
  }

  lemma Regrouped(a: string, b: string, c: string, d: string)
    ensures (b + c) + d == b + (c + d) && a + (b + (c + d)) == (a + b) + (c + d)
  {
  }

  lemma JoinCons(l: string, ls: seq<string>)
    ensures Join([l] + ls) == l + Join(ls)
  {
    assert ([l] + ls)[1..] == ls;
  }

  lemma GluedSplits(lines: seq<string>, content: string)
    requires Proper(lines) && lines != [] && !Terminated(lines[|lines| - 1])
    requires SplitLines(NormalizeBlock(content)) != []
    ensures var new' := Glued(lines, SplitLines(NormalizeBlock(content)));
            SplitLines(Replace(lines, |lines|, |lines|, content)) == new' && Proper(new')
  {
    hide SplitLines, Join, Proper, Terminated, Glued;
    var block := SplitLines(NormalizeBlock(content));
    SplitIsProper(NormalizeBlock(content));
    GluedIsProper(lines, block);
    GluedJoins(lines, block);
    JoinSplit(NormalizeBlock(content));
    assert lines[..|lines|] == lines && lines[|lines|..] == [];
    NoLinesJoined();
    assert Join(lines) + NormalizeBlock(content) + "" == Join(lines) + NormalizeBlock(content);
    SplitJoin(Glued(lines, block));
  }

  lemma GluedHeadings(lines: seq<string>, kind: Classify, i: nat, block: seq<string>)
    requires block != [] && i < |HeadingsFrom(lines, kind, None, 0)|
    requires 0 < HeadingsFrom(lines, kind, None, 0)[i].line == |lines|
    ensures var hs := HeadingsFrom(lines, kind, None, 0);
            var k := kind(lines[|lines| - 1] + block[0]);
            HeadingsFrom(Glued(lines, block), kind, None, 0)
            == hs[..i] + (HeadingAt(k, None, |lines|) + HeadingsFrom(block[1..], kind, NextFence(None, k), |lines|))
  {
    hide HeadingsFrom, FenceAfter, HeadingAt, NextFence;
    PartBefore(lines, kind, i, true);
    var front, g := lines[..|lines| - 1], [lines[|lines| - 1] + block[0]] + block[1..];
    HeadingsOfSum(front, g, kind, None, 0);
    HeadingsFromStep(g, kind, None, |lines| - 1);
    assert g[1..] == block[1..];
  }

  lemma GluedReadsBack(original: string, kind: Classify, i: nat, content: string)
    requires i < |HeadingsFrom(SplitLines(original), kind, None, 0)|
    requires SplitLines(NormalizeBlock(content)) != [] && Proper(SplitLines(original))
    requires var lines := SplitLines(original);
             var hs := HeadingsFrom(lines, kind, None, 0);
             0 < hs[i].line == |lines| == SectionEnd(hs, i, |lines|) && i == |hs| - 1 && !Terminated(lines[|lines| - 1])
    ensures ReadsBack(original, kind, i, content) <==> Fits(SplitLines(original), kind, i, content)
  {
    hide SplitLines, Replace, HeadingsFrom, SectionEnd, ReadLines, NormalizeBlock, Deeper, FenceAfter, Terminated,
      Proper, Glued, InOrder;
    NormalizeIs(content);
    var lines := SplitLines(original);
    var hs, n := HeadingsFrom(lines, kind, None, 0), |lines|;
    var block := SplitLines(NormalizeBlock(content));
    NoFenceAtHeading(lines, kind, i);
    GluedSplits(lines, content);
    var new' := Glued(lines, block);
    var hs' := HeadingsFrom(new', kind, None, 0);
    var k := kind(lines[n - 1] + block[0]);
    GluedHeadings(lines, kind, i, block);
    if k == kind(lines[n - 1]) {
      var q := HeadingsFrom(block[1..], kind, None, n);
      assert hs[..i] + ([hs[i]] + q) == hs + q + [];
      SizeOfGlued(lines, block);
      HeadingsAreInOrder(block[1..], kind, None, n);
      NothingInOrder(q, n, |new'|);
      EndsAt(hs, q, [], |new'|, |new'|);
      EndIsInside(new', kind, i);
      GluedReads(lines, content);
      ReadsExactly(new', n, SectionEnd(hs', i, |new'|), |new'|);
    } else {
      HeadingIsGone(hs[..i], hs[i], k, block[1..], kind, n);
    }
  }

  lemma SizeOfGlued(lines: seq<string>, block: seq<string>)
    requires lines != [] && block != []
    ensures |Glued(lines, block)| == |lines| + |block| - 1
  {
  }

  lemma NothingInOrder(hs: seq<Heading>, base: nat, n: nat)
    requires InOrder(hs, base, n)
    ensures InOrder(hs, 0, n) && InOrder([], n, n)
  {
  }

  /** All that follows the old last line, from there on. */
  lemma GluedReads(lines: seq<string>, content: string)
    requires lines != [] && SplitLines(NormalizeBlock(content)) != []
    ensures var new' := Glued(lines, SplitLines(NormalizeBlock(content)));
            ReadLines(new', |lines|, |new'|) == lines[|lines| - 1] + NormalizeBlock(content)
  {
    hide SplitLines, Join;
    var block := SplitLines(NormalizeBlock(content));
    var new', n := Glued(lines, block), |lines|;
    assert new'[n - 1..|new'|] == [lines[n - 1] + block[0]] + block[1..];
    GluedJoins(lines, block);
    JoinSplit(NormalizeBlock(content));
  }

  lemma HeadingIsGone(front: seq<Heading>, h: Heading, k: Kind, tail: seq<string>, kind: Classify, n: nat)
    requires k != Title(h.title, h.level) && h.line == n
    ensures var hs := front + (HeadingAt(k, None, n) + HeadingsFrom(tail, kind, NextFence(None, k), n));
            |front| < |hs| ==> hs[|front|] != h
  {
    hide HeadingsFrom, NextFence;
    var rest := HeadingsFrom(tail, kind, NextFence(None, k), n);
    HeadingsAreInOrder(tail, kind, NextFence(None, k), n);
    assert rest != [] ==> rest[0].line > n;
  }

  /** Content put behind an unterminated `# A` can rename the section: a heading `A` is gone, for
      every classification that reads the two lines as those headings. */
  lemma GluedContentRenames(kind: Classify)
    requires kind("# A") == Title("A", 1) && kind("# Ab\n") == Title("Ab", 1)
    ensures HeadingsFrom(SplitLines("# A"), kind, None, 0) == [Heading("A", 1, 1)]
    ensures Replace(SplitLines("# A"), 1, 1, "b") == "# Ab\n"
    ensures !ReadsBack("# A", kind, 0, "b")
  {
    ShortTexts();
    HeadingsFromStep(["# A"], kind, None, 0);
    HeadingsFromStep([], kind, None, 1);
    assert ["# A"][1..] == [] && ["# A"][..1] == ["# A"];
    hide SplitLines, HeadingsFrom, ReadsBack, FenceAfter, Deeper;
    NoLinesJoined();
    JoinOne("# A");
    assert "# A" + "b\n" == "# Ab\n" && "# A" + "b\n" + "" == "# Ab\n";
    SectionReadsBack("# A", kind, 0, "b");
  }

  lemma ShortTexts()
    ensures SplitLines("# A") == ["# A"] && NormalizeBlock("b") == "b\n" && SplitLines("b\n") == ["b\n"]
  {
    hide SplitLines;
    JoinOne("# A");
    JoinOne("b\n");
    SplitJoin(["# A"]);
    SplitJoin(["b\n"]);
  }

  lemma SizeOfReplaced(lines: seq<string>, start: int, end: int, block: seq<string>)
    requires 0 <= start <= end <= |lines|
    ensures |ReplacedLines(lines, start, end, block)| == start + |block| + |lines| - end
  {
  }

  lemma EndIsInside(lines: seq<string>, kind: Classify, i: nat)
    requires i < |HeadingsFrom(lines, kind, None, 0)|
    ensures var hs := HeadingsFrom(lines, kind, None, 0);
            0 < hs[i].line <= SectionEnd(hs, i, |lines|) <= |lines|
  {
    HeadingsAreInOrder(lines, kind, None, 0);
  }
}
