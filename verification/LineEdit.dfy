/**
 The streaming line editor: it rewrites a file line by line and keeps only the lines around
 the change, yet its diff applies to the whole file.
 */
module LineEdit {
  import opened Text
  import opened Lines
  import opened Patch
  import opened Diff
  import opened RoundTrip

  datatype Operation = Replace | InsertBefore | InsertAfter | DeleteLines

  datatype Args = Args(operation: Operation, line: int, endLine: int, content: string, startsWith: string)

  datatype EditError =
    | LineNotPositive
    | EndLineNotAllowed
    | EndBeforeLine
    | BinaryFile
    | PrefixMismatch
    | LineBeyondEnd
    | EndBeyondEnd

  const NUL: char := '\0'

  predicate HasNul(s: string) {
    NUL in s
  }

  predicate IsInsert(a: Args) {
    a.operation == InsertBefore || a.operation == InsertAfter
  }

  /** Arguments that passed the checks made before the file is opened. */
  predicate Checked(a: Args) {
    && a.line >= 1 && !HasNul(a.content)
    && (!IsInsert(a) ==> a.endLine >= a.line)
  }

  /** Those checks; a missing end line stands for a single line. */
  function Check(a: Args): (r: Result<Args, EditError>)
    ensures r.Ok? ==> Checked(r.value)
  {
    if a.line <= 0 then Err(LineNotPositive)
    else if HasNul(a.content) then Err(BinaryFile)
    else if IsInsert(a) then
      if a.endLine != 0 then Err(EndLineNotAllowed) else Ok(a)
    else
      var end := if a.endLine == 0 then a.line else a.endLine;
      if end < a.line then Err(EndBeforeLine) else Ok(a.(endLine := end))
  }

  // ------------------------------------------------------------ what an edit means

  /** The edit replaces lines [From, To) by the new text. */
  function From(a: Args): nat
    requires Checked(a)
  {
    if a.operation == InsertAfter then a.line else a.line - 1
  }

  function To(a: Args): nat
    requires Checked(a)
    ensures From(a) <= To(a)
  {
    if IsInsert(a) then From(a) else a.endLine
  }

  function NewText(a: Args): string {
    if a.operation == DeleteLines then "" else a.content
  }

  /** The edited file: a splice of lines. */
  function Splice(lines: seq<string>, a: Args): string
    requires Checked(a) && To(a) <= |lines|
  {
    Join(lines[..From(a)]) + NewText(a) + Join(lines[To(a)..])
  }

  /** Number of lines before the first one with a NUL byte. */
  function TextLines(lines: seq<string>): (n: nat)
    ensures n <= |lines|
    ensures forall i :: 0 <= i < n ==> !HasNul(lines[i])
    ensures n < |lines| ==> HasNul(lines[n])
  {
    if lines == [] || HasNul(lines[0]) then 0 else 1 + TextLines(lines[1..])
  }

  predicate StartsAsExpected(line: string, a: Args) {
    a.startsWith == "" || a.startsWith <= TrimLineEnd(line)
  }

  /** The error of an edit that cannot be made, in the order the single pass meets them. */
  function Refusal(lines: seq<string>, a: Args): (e: Option<EditError>)
    requires Checked(a)
    ensures e.None? ==> To(a) <= |lines| && a.line <= |lines|
  {
    var text := TextLines(lines);
    if text < a.line && text < |lines| then Some(BinaryFile)
    else if |lines| < a.line then Some(LineBeyondEnd)
    else if !StartsAsExpected(lines[a.line - 1], a) then Some(PrefixMismatch)
    else if text < |lines| then Some(BinaryFile)
    else if !IsInsert(a) && |lines| < a.endLine then Some(EndBeyondEnd)
    else None
  }

  function FirstN(ls: seq<string>, n: nat): (r: seq<string>)
    ensures |r| == Min(n, |ls|)
  {
    ls[..Min(n, |ls|)]
  }

  /** What the single pass returns: the staged file and the windows for the diff. */
  datatype Edit = Edit(staged: string, before: seq<string>, oldChanged: seq<string>, newChanged: seq<string>,
                       after: seq<string>, totalLines: nat, baseLine: int, changed: bool, rangeEnd: int)

  function EditOf(lines: seq<string>, a: Args, context: nat): Edit
    requires Checked(a) && To(a) <= |lines|
  {
    var before := LastOf(lines[..From(a)], context);
    Edit(Splice(lines, a), before, lines[From(a)..To(a)], SplitLines(a.content), FirstN(lines[To(a)..], context),
         |lines|, From(a) - |before| + 1, Join(lines[From(a)..To(a)]) != a.content,
         if IsInsert(a) then a.line else a.endLine)
  }

  // ------------------------------------------------------------------ the window

  class LineBuffer {
    const max: int
    var lines: seq<string>

    constructor (max: int)
      ensures this.max == max && lines == []
    {
      this.max := max;
      lines := [];
    }

    /** Keeps the last `max` lines added. */
    method Add(line: string)
      requires |lines| <= Max(0, max)
      modifies this`lines
      ensures lines == LastOf(old(lines) + [line], Max(0, max))
    {
      if max <= 0 {
        return;
      }
      if |lines| == max {
        lines := lines[1..];
      }
      lines := lines + [line];
    }
  }

  lemma LastOfSnoc(ls: seq<string>, l: string, n: nat)
    ensures LastOf(LastOf(ls, n) + [l], n) == LastOf(ls + [l], n)
  {
  }

  // -------------------------------------------------------------- the single pass

  lemma JoinSnoc(ls: seq<string>, i: nat, j: nat)
    requires i <= j < |ls|
    ensures Join(ls[i..j + 1]) == Join(ls[i..j]) + ls[j]
    ensures ls[i..j + 1] == ls[i..j] + [ls[j]]
  {
    assert ls[i..j + 1] == ls[i..j] + [ls[j]];
    JoinSum(ls[i..j], [ls[j]]);
    assert Join([ls[j]]) == ls[j] + "" == ls[j];
  }

  datatype Progress = Progress(applied: bool, collecting: bool, written: string, before: seq<string>,
                               oldChanged: seq<string>, after: seq<string>, baseLine: int)

  /** The state of the pass after `n` lines. */
  ghost predicate Reached(lines: seq<string>, a: Args, context: nat, n: nat, p: Progress)
    requires Checked(a)
  {
    && n <= |lines| && n <= TextLines(lines)
    && (n >= a.line ==> StartsAsExpected(lines[a.line - 1], a))
    && if n < a.line then
         && !p.applied && !p.collecting
         && p.written == Join(lines[..n]) && p.before == LastOf(lines[..n], context)
         && p.oldChanged == [] && p.after == []
       else
         && p.before == LastOf(lines[..From(a)], context)
         && p.baseLine == From(a) - |p.before| + 1
         && if n < To(a) then
              && p.collecting && !p.applied && !IsInsert(a)
              && p.written == Join(lines[..From(a)])
              && p.oldChanged == lines[From(a)..n] && p.after == []
            else
              && p.applied && !p.collecting
              && p.written == Join(lines[..From(a)]) + NewText(a) + Join(lines[To(a)..n])
              && p.oldChanged == lines[From(a)..To(a)]
              && p.after == FirstN(lines[To(a)..n], context)
  }

  lemma TextLinesBeyond(lines: seq<string>, n: nat)
    requires n < |lines| && n <= TextLines(lines)
    ensures HasNul(lines[n]) <==> TextLines(lines) == n
  {
  }

  lemma StepBefore(lines: seq<string>, a: Args, context: nat, n: nat, p: Progress, before: seq<string>)
    requires Checked(a) && n < |lines| && n + 1 < a.line && !HasNul(lines[n])
    requires Reached(lines, a, context, n, p)
    requires before == LastOf(p.before + [lines[n]], context)
    ensures Reached(lines, a, context, n + 1, p.(written := p.written + lines[n], before := before))
  {
    TextLinesBeyond(lines, n);
    JoinSnoc(lines, 0, n);
    LastOfSnoc(lines[..n], lines[n], context);
  }

  /** The pass arrives at the line of the edit. */
  lemma StepInsertBefore(lines: seq<string>, a: Args, context: nat, n: nat, p: Progress)
    requires Checked(a) && n < |lines| && n + 1 == a.line && a.operation == InsertBefore
    requires !HasNul(lines[n]) && StartsAsExpected(lines[n], a)
    requires Reached(lines, a, context, n, p)
    ensures Reached(lines, a, context, n + 1,
                    p.(applied := true, written := p.written + a.content + lines[n],
                       after := if context > 0 then [lines[n]] else [], baseLine := a.line - |p.before|))
  {
    hide LastOf, StartsAsExpected;
    TextLinesBeyond(lines, n);
    JoinSnoc(lines, n, n);
    assert lines[n..n + 1] == [lines[n]];
    assert Join(lines[n..n + 1]) == lines[n];
  }

  lemma StepInsertAfter(lines: seq<string>, a: Args, context: nat, n: nat, p: Progress, before: seq<string>)
    requires Checked(a) && n < |lines| && n + 1 == a.line && a.operation == InsertAfter
    requires !HasNul(lines[n]) && StartsAsExpected(lines[n], a)
    requires Reached(lines, a, context, n, p)
    requires before == LastOf(p.before + [lines[n]], context)
    ensures Reached(lines, a, context, n + 1,
                    p.(applied := true, written := p.written + lines[n] + a.content,
                       before := before, baseLine := a.line - |before| + 1))
  {
    hide LastOf, StartsAsExpected, SplitLines;
    TextLinesBeyond(lines, n);
    JoinSnoc(lines, 0, n);
    LastOfSnoc(lines[..n], lines[n], context);
    assert lines[n + 1..n + 1] == [];
    assert p.written + lines[n] + a.content + "" == p.written + lines[n] + a.content;
  }

  /** What a finished range adds to the staged file. */
  function Finish(written: string, a: Args): string {
    if a.operation == Replace then written + a.content else written
  }

  lemma StepRange(lines: seq<string>, a: Args, context: nat, n: nat, p: Progress)
    requires Checked(a) && n < |lines| && !IsInsert(a) && a.line <= n + 1 <= a.endLine
    requires !HasNul(lines[n]) && (n + 1 == a.line ==> StartsAsExpected(lines[n], a))
    requires Reached(lines, a, context, n, p)
    ensures var last := n + 1 == a.endLine;
            Reached(lines, a, context, n + 1,
                    p.(applied := last, collecting := !last, oldChanged := p.oldChanged + [lines[n]],
                       written := if last then Finish(p.written, a) else p.written,
                       baseLine := if n + 1 == a.line then a.line - |p.before| else p.baseLine))
  {
    hide LastOf, FirstN, StartsAsExpected, Join, HasNul, TextLines;
    TextLinesBeyond(lines, n);
    JoinSnoc(lines, From(a), n);
    NothingAfter(lines, n + 1, context);
    FinishAppends(p.written, a);
  }

  lemma NothingAfter(lines: seq<string>, n: nat, context: nat)
    requires n <= |lines|
    ensures Join(lines[n..n]) == "" && FirstN(lines[n..n], context) == []
  {
  }

  lemma FinishAppends(written: string, a: Args)
    requires !IsInsert(a)
    ensures Finish(written, a) == written + NewText(a) + ""
  {
    assert written + "" == written;
  }

  lemma FirstNSnoc(ls: seq<string>, l: string, c: nat)
    ensures FirstN(ls + [l], c) == if |FirstN(ls, c)| < c then FirstN(ls, c) + [l] else FirstN(ls, c)
  {
  }

  lemma StepAfter(lines: seq<string>, a: Args, context: nat, n: nat, p: Progress)
    requires Checked(a) && n < |lines| && a.line <= n && To(a) <= n && !HasNul(lines[n])
    requires Reached(lines, a, context, n, p)
    ensures Reached(lines, a, context, n + 1,
                    p.(written := p.written + lines[n],
                       after := if |p.after| < context then p.after + [lines[n]] else p.after))
  {
    hide FirstN, LastOf, Join, StartsAsExpected, NewText;
    TextLinesBeyond(lines, n);
    JoinSnoc(lines, To(a), n);
    FirstNSnoc(lines[To(a)..n], lines[n], context);
  }

  lemma ReachedEnd(lines: seq<string>, a: Args, context: nat, p: Progress)
    requires Checked(a) && Reached(lines, a, context, |lines|, p)
    ensures p.collecting ==> Refusal(lines, a) == Some(EndBeyondEnd)
    ensures !p.collecting && !p.applied ==> Refusal(lines, a) == Some(LineBeyondEnd)
    ensures p.applied ==>
              && Refusal(lines, a) == None
              && p.written == Splice(lines, a)
              && p.before == LastOf(lines[..From(a)], context) && p.oldChanged == lines[From(a)..To(a)]
              && p.after == FirstN(lines[To(a)..], context) && p.baseLine == From(a) - |p.before| + 1
  {
    hide LastOf, FirstN, Join, StartsAsExpected, NewText;
    if p.applied {
      assert lines[To(a)..|lines|] == lines[To(a)..];
    }
  }

  lemma RefusedHere(lines: seq<string>, a: Args, context: nat, n: nat, p: Progress)
    requires Checked(a) && n < |lines| && Reached(lines, a, context, n, p)
    ensures HasNul(lines[n]) ==> Refusal(lines, a) == Some(BinaryFile)
    ensures !HasNul(lines[n]) && n + 1 == a.line && !StartsAsExpected(lines[n], a)
            ==> Refusal(lines, a) == Some(PrefixMismatch)
  {
    TextLinesBeyond(lines, n);
  }

  /** What can be read off the state without looking at the file. */
  lemma Phases(lines: seq<string>, a: Args, context: nat, n: nat, p: Progress)
    requires Checked(a) && n <= |lines| && Reached(lines, a, context, n, p)
    ensures n < a.line ==> !p.applied && !p.collecting
    ensures n >= a.line ==> (p.collecting <==> n < To(a)) && (p.applied <==> n >= To(a))
    ensures p.collecting ==> !IsInsert(a)
    ensures n + 1 == a.line ==> p.after == []
    ensures |p.before| <= context
  {
  }

  lemma ReachedInitially(lines: seq<string>, a: Args, context: nat, p: Progress)
    requires Checked(a) && p == Progress(false, false, "", [], [], [], 1)
    ensures Reached(lines, a, context, 0, p)
  {
  }

  lemma EndOfFile(lines: seq<string>, n: nat)
    requires n <= |lines| && SplitLines("") == lines[n..]
    ensures n == |lines|
  {
  }

  lemma EditIs(lines: seq<string>, a: Args, context: nat, e: Edit)
    requires Checked(a) && To(a) <= |lines|
    requires e.staged == Splice(lines, a)
    requires e.before == LastOf(lines[..From(a)], context) && e.oldChanged == lines[From(a)..To(a)]
    requires e.after == FirstN(lines[To(a)..], context) && e.baseLine == From(a) - |e.before| + 1
    requires e.newChanged == SplitLines(a.content) && e.totalLines == |lines|
    requires e.changed == (Join(e.oldChanged) != a.content)
    requires e.rangeEnd == if IsInsert(a) then a.line else a.endLine
    ensures e == EditOf(lines, a, context)
  {
  }

  /** The variables of the pass. */
  class Pass {
    const args: Args
    const context: nat
    const before: LineBuffer
    var lineNo: nat
    var applied: bool
    var collecting: bool
    var written: string
    var oldChanged: seq<string>
    var after: seq<string>
    var baseLine: int

    constructor (args: Args, context: nat)
      ensures this.args == args && this.context == context && fresh(before) && before.max == context
      ensures lineNo == 0 && State() == Progress(false, false, "", [], [], [], 1)
    {
      this.args, this.context := args, context;
      before := new LineBuffer(context);
      lineNo, applied, collecting, written, oldChanged, after, baseLine := 0, false, false, "", [], [], 1;
    }

    ghost function State(): Progress
      reads this, before
    {
      Progress(applied, collecting, written, before.lines, oldChanged, after, baseLine)
    }

    /** Makes the edit at its line, or begins to. */
    method MakeEdit(line: string, ghost lines: seq<string>, ghost n: nat, ghost p: Progress)
      requires Checked(args) && before.max == context && p == State()
      requires n < |lines| && line == lines[n] && n + 1 == args.line
      requires !HasNul(line) && StartsAsExpected(line, args)
      requires Reached(lines, args, context, n, p) && after == []
      requires |before.lines| <= context && !applied && !collecting
      modifies this`applied, this`collecting, this`written, this`oldChanged, this`after, this`baseLine,
               before`lines
      ensures Reached(lines, args, context, n + 1, State())
    {
      hide Reached, HasNul, LastOf, Finish, StartsAsExpected;
      match args.operation {
        case InsertBefore =>
          baseLine := args.line - |before.lines|;
          written := written + args.content + line;
          if |after| < context {
            after := after + [line];
          }
          applied := true;
          assert [] + [line] == [line];
          StepInsertBefore(lines, args, context, n, p);
        case InsertAfter =>
          before.Add(line);
          baseLine := args.line - |before.lines| + 1;
          written := written + line + args.content;
          applied := true;
          StepInsertAfter(lines, args, context, n, p, before.lines);
        case _ =>
          baseLine := args.line - |before.lines|;
          oldChanged := oldChanged + [line];
          collecting := true;
          if args.endLine == args.line {
            collecting := false;
            written := Finish(written, args);
            applied := true;
          }
          StepRange(lines, args, context, n, p);
      }
    }

    /** Takes the next line of the file. */
    method Feed(line: string, ghost lines: seq<string>) returns (error: Option<EditError>)
      requires Checked(args) && before.max == context
      requires lineNo < |lines| && line == lines[lineNo]
      requires Reached(lines, args, context, lineNo, State())
      modifies this, before`lines
      ensures error.Some? ==> Refusal(lines, args) == error
      ensures error.None? ==> lineNo == old(lineNo) + 1 && Reached(lines, args, context, lineNo, State())
    {
      hide Reached, Refusal, HasNul, LastOf, Finish, StartsAsExpected;
      ghost var n, p := lineNo, State();
      RefusedHere(lines, args, context, n, p);
      Phases(lines, args, context, n, p);
      if HasNul(line) {
        return Some(BinaryFile);
      }
      lineNo := lineNo + 1;
      if !applied && lineNo < args.line {
        written := written + line;
        before.Add(line);
        StepBefore(lines, args, context, n, p, before.lines);
        return None;
      }
      if !applied && lineNo == args.line {
        if !StartsAsExpected(line, args) {
          return Some(PrefixMismatch);
        }
        MakeEdit(line, lines, n, p);
        return None;
      }
      if collecting {
        oldChanged := oldChanged + [line];
        if lineNo == args.endLine {
          collecting := false;
          written := Finish(written, args);
          applied := true;
        }
        StepRange(lines, args, context, n, p);
        return None;
      }
      written := written + line;
      if applied && |after| < context {
        after := after + [line];
      }
      StepAfter(lines, args, context, n, p);
      return None;
    }
  }

  /** Reads the file once, line by line. Its result is the splice, or the first error met. */
  method ApplyLineEdit(file: string, a: Args, context: nat) returns (r: Result<Edit, EditError>)
    requires Checked(a)
    ensures var lines := SplitLines(file);
            r == match Refusal(lines, a)
                 case Some(e) => Err(e)
                 case None => Ok(EditOf(lines, a, context))
  {
    hide Reached, Refusal, SplitLines, EditOf, Splice;
    ghost var lines := SplitLines(file);
    var rest := file;
    var pass := new Pass(a, context);
    ReachedInitially(lines, a, context, pass.State());
    assert lines[0..] == lines;
    while rest != ""
      invariant fresh(pass) && fresh(pass.before)
      invariant pass.args == a && pass.context == context && pass.before.max == context
      invariant pass.lineNo <= |lines| && SplitLines(rest) == lines[pass.lineNo..]
      invariant Reached(lines, a, context, pass.lineNo, pass.State())
      decreases |rest|
    {
      SplitStep(rest);
      var line := rest[..FirstLineLength(rest)];
      rest := rest[FirstLineLength(rest)..];
      assert line == lines[pass.lineNo] && SplitLines(rest) == lines[pass.lineNo + 1..];
      var error := pass.Feed(line, lines);
      if error.Some? {
        return Err(error.value);
      }
    }
    EndOfFile(lines, pass.lineNo);
    ReachedEnd(lines, a, context, pass.State());
    if pass.collecting {
      return Err(EndBeyondEnd);
    }
    if !pass.applied {
      return Err(LineBeyondEnd);
    }
    var changed := Join(pass.oldChanged) != a.content;
    var rangeEnd := if IsInsert(a) then a.line else a.endLine;
    r := Ok(Edit(pass.written, pass.before.lines, pass.oldChanged, SplitLines(a.content), pass.after,
                 pass.lineNo, pass.baseLine, changed, rangeEnd));
    EditIs(lines, a, context, r.value);
  }

  // ------------------------------------------------------------- and its diff

  /** The windows the diff is made from. */
  function OldWindow(e: Edit): seq<string> {
    e.before + e.oldChanged + e.after
  }

  function NewWindow(e: Edit): seq<string> {
    e.before + e.newChanged + e.after
  }

  function EditDiff(path: string, e: Edit, context: nat): string
    requires e.baseLine >= 1
  {
    Join(DiffLines(path, OldWindow(e), NewWindow(e), context, e.baseLine, e.baseLine))
  }

  method CompactLineEditDiff(path: string, e: Edit, context: nat, maxBytes: int)
    returns (text: string, truncated: bool)
    requires e.baseLine >= 1
    ensures (text, truncated) == Limited(EditDiff(path, e, context), maxBytes)
  {
    text, truncated := FormatSingleRegionUnifiedDiffAt(path, OldWindow(e), NewWindow(e), context, maxBytes,
                                                       e.baseLine, e.baseLine);
  }

  /** Three consecutive stretches of a file make up a window of it. */
  lemma WindowParts(lines: seq<string>, i: nat, f: nat, t: nat, j: nat, middle: seq<string>)
    requires i <= f <= t <= j <= |lines|
    ensures var src, dst := lines[i..f] + lines[f..t] + lines[t..j], lines[i..f] + middle + lines[t..j];
            && |src| == j - i && Window(lines, i, src)
            && Replaced(lines, i, src, dst) == lines[..f] + middle + lines[t..]
  {
    SliceSplits(lines, i, f, t);
    SliceSplits(lines, i, t, j);
    SliceSplits(lines, 0, i, f);
    SliceSplits(lines, t, j, |lines|);
  }

  /** The windows: the changed lines, and on each side as much context as is wanted and there. */
  lemma WindowsAreExact(lines: seq<string>, a: Args, context: nat)
    requires Checked(a) && To(a) <= |lines|
    ensures var e := EditOf(lines, a, context);
            var first := if a.operation == InsertAfter then a.line else a.line - 1;
            var last := if IsInsert(a) then first else a.endLine;
            && e.before == lines[first - Min(context, first)..first]
            && e.oldChanged == lines[first..last]
            && e.after == lines[last..last + Min(context, |lines| - last)]
            && e.newChanged == SplitLines(a.content) && e.totalLines == |lines|
            && e.rangeEnd == (if IsInsert(a) then a.line else a.endLine)
            && e.baseLine == first - Min(context, first) + 1
  {
    hide SplitLines, Join;
  }

  /** The old window is a window of the file, at the base line. */
  lemma WindowOfFile(lines: seq<string>, a: Args, context: nat)
    requires Checked(a) && To(a) <= |lines|
    ensures var e := EditOf(lines, a, context);
            var skipped := e.baseLine - 1;
            && 0 <= skipped <= From(a) && skipped + |OldWindow(e)| <= |lines|
            && Window(lines, skipped, OldWindow(e))
            && Replaced(lines, skipped, OldWindow(e), NewWindow(e))
               == lines[..From(a)] + SplitLines(a.content) + lines[To(a)..]
  {
    hide SplitLines, Splice, Join, Window, Replaced;
    var e := EditOf(lines, a, context);
    var f, t := From(a), To(a);
    WindowParts(lines, f - |e.before|, f, t, t + |e.after|, e.newChanged);
    assert e.before == lines[f - |e.before|..f] && e.after == lines[t..t + |e.after|];
  }

  predicate Every(ls: seq<string>, p: string -> bool) {
    forall i :: 0 <= i < |ls| ==> p(ls[i])
  }

  lemma EveryPart(ls: seq<string>, p: string -> bool, i: nat, j: nat)
    requires i <= j <= |ls| && Every(ls, p)
    ensures Every(ls[i..j], p)
  {
  }

  lemma EverySum(x: seq<string>, y: seq<string>, z: seq<string>, p: string -> bool)
    requires Every(x, p) && Every(y, p) && Every(z, p)
    ensures Every(x + y + z, p)
  {
  }

  /** The windows hold lines of the file and of the content. */
  lemma EveryInWindows(lines: seq<string>, a: Args, context: nat, p: string -> bool)
    requires Checked(a) && To(a) <= |lines| && Every(lines, p) && Every(SplitLines(a.content), p)
    ensures var e := EditOf(lines, a, context);
            Every(OldWindow(e), p) && Every(NewWindow(e), p)
  {
    hide SplitLines, Every, Splice, Join;
    var e := EditOf(lines, a, context);
    var f, t := From(a), To(a);
    assert e.before == lines[f - |e.before|..f] && e.after == lines[t..t + |e.after|];
    EveryPart(lines, p, f - |e.before|, f);
    EveryPart(lines, p, f, t);
    EveryPart(lines, p, t, t + |e.after|);
    EverySum(e.before, e.oldChanged, e.after, p);
    EverySum(e.before, e.newChanged, e.after, p);
  }

  lemma WindowsAreLines(text: string, a: Args, context: nat)
    requires Checked(a) && To(a) <= |SplitLines(text)|
    ensures var e := EditOf(SplitLines(text), a, context);
            AllLines(OldWindow(e)) && AllLines(NewWindow(e))
  {
    hide SplitLines, IsLine, EditOf, OldWindow, NewWindow;
    SplitIsProper(text);
    SplitIsProper(a.content);
    EveryInWindows(SplitLines(text), a, context, IsLine);
  }

  /** The diff of an edit, made from the windows alone, turns the whole file into the staged one
      exactly when it is printable and a deletion carries no content. */
  lemma EditDiffRestores(path: string, text: string, a: Args, context: nat, strip: int)
    requires OneLinePath(path) && Checked(a) && To(a) <= |SplitLines(text)|
    requires |SplitLines(text)| + |SplitLines(a.content)| < MAX_INT
    ensures var e := EditOf(SplitLines(text), a, context);
            e.baseLine >= 1 &&
            (Restores(EditDiff(path, e, context), strip, text, e.staged)
             <==> Printable(OldWindow(e), NewWindow(e), context)
                  && (a.operation == DeleteLines ==> a.content == ""))
  {
    hide SplitLines, Restores, Printable, Window, AllLines, Replaced, DiffLines, LastOf, FirstN, Join;
    var lines := SplitLines(text);
    var e := EditOf(lines, a, context);
    WindowOfFile(lines, a, context);
    WindowsAreLines(text, a, context);
    var front, back := lines[..From(a)], lines[To(a)..];
    JoinAround(front, SplitLines(a.content), back);
    JoinSplit(a.content);
    WindowRestores(path, text, e.baseLine - 1, OldWindow(e), NewWindow(e), context, strip, e.staged);
  }

  lemma JoinAround(a: seq<string>, b: seq<string>, c: seq<string>)
    ensures Join(a + b + c) == Join(a) + Join(b) + Join(c)
  {
    JoinSum(a, b);
    JoinSum(a + b, c);
  }

  /** For newline-terminated files and content only the deleted lines matter. */
  lemma EditDiffRestoresTerminated(path: string, text: string, a: Args, context: nat, strip: int)
    requires OneLinePath(path) && Checked(a) && To(a) <= |SplitLines(text)|
    requires |SplitLines(text)| + |SplitLines(a.content)| < MAX_INT
    requires Terminated(text) && (a.content == "" || Terminated(a.content))
    requires a.operation == DeleteLines ==> a.content == ""
    ensures var e := EditOf(SplitLines(text), a, context);
            e.baseLine >= 1 &&
            (Restores(EditDiff(path, e, context), strip, text, e.staged)
             <==> NoDashedDeletion(OldWindow(e), NewWindow(e), context))
  {
    hide SplitLines, Restores, NoDashedDeletion, Terminated, AllTerminated, EditOf, Printable;
    var e := EditOf(SplitLines(text), a, context);
    WindowsAreTerminated(text, a, context);
    PrintableWindows(OldWindow(e), NewWindow(e), context);
    EditDiffRestores(path, text, a, context, strip);
  }

  lemma WindowsAreTerminated(text: string, a: Args, context: nat)
    requires Checked(a) && To(a) <= |SplitLines(text)|
    requires Terminated(text) && (a.content == "" || Terminated(a.content))
    ensures var e := EditOf(SplitLines(text), a, context);
            AllTerminated(OldWindow(e)) && AllTerminated(NewWindow(e))
  {
    hide SplitLines, Terminated, EditOf, OldWindow, NewWindow;
    TerminatedText(text);
    TerminatedText(a.content);
    EveryInWindows(SplitLines(text), a, context, Terminated);
  }

  lemma PrintableWindows(src: seq<string>, dst: seq<string>, context: nat)
    requires AllTerminated(src) && AllTerminated(dst)
    ensures Printable(src, dst, context) <==> NoDashedDeletion(src, dst, context)
  {
    hide RegionOf, NoDashedDeletion, Terminated;
  }

  // ------------------------------------------------------------- the whole tool

  /** What a caller gets back, and what the file holds afterwards. */
  datatype Outcome = Outcome(edit: Edit, diff: string, diffTruncated: bool, file: string)

  /** What the arguments, as given, and the lines of the file decide: which error is reported, and
      else what is staged. A missing end line is 0 and stands for the line itself. */
  ghost predicate EditMeans(raw: Args, lines: seq<string>, error: Option<EditError>, staged: string) {
    var insert := raw.operation == InsertBefore || raw.operation == InsertAfter;
    var last := if raw.endLine == 0 then raw.line else raw.endLine;
    var badEnd := if insert then raw.endLine != 0 else last < raw.line;
    var argsFit := raw.line > 0 && '\0' !in raw.content && !badEnd;
    var binary := exists i :: 0 <= i < |lines| && '\0' in lines[i];
    var mismatch := argsFit && raw.line <= |lines| && (forall i :: 0 <= i < raw.line ==> '\0' !in lines[i])
                    && raw.startsWith != "" && !(raw.startsWith <= TrimLineEnd(lines[raw.line - 1]));
    && (error == Some(LineNotPositive) <==> raw.line <= 0)
    && (error == Some(EndLineNotAllowed) <==> raw.line > 0 && '\0' !in raw.content && badEnd && insert)
    && (error == Some(EndBeforeLine) <==> raw.line > 0 && '\0' !in raw.content && badEnd && !insert)
    && (error == Some(BinaryFile) <==>
          (raw.line > 0 && '\0' in raw.content) || (argsFit && binary && !mismatch))
    && (error == Some(PrefixMismatch) <==> mismatch)
    && (error == Some(LineBeyondEnd) <==> argsFit && !binary && |lines| < raw.line)
    && (error == Some(EndBeyondEnd) <==>
          argsFit && !binary && !mismatch && !insert && raw.line <= |lines| < last)
    && (error == None ==>
          && raw.line <= |lines| && (!insert ==> last <= |lines|)
          && staged == match raw.operation
                       case InsertBefore => Join(lines[..raw.line - 1]) + raw.content + Join(lines[raw.line - 1..])
                       case InsertAfter => Join(lines[..raw.line]) + raw.content + Join(lines[raw.line..])
                       case Replace => Join(lines[..raw.line - 1]) + raw.content + Join(lines[last..])
                       case DeleteLines => Join(lines[..raw.line - 1]) + Join(lines[last..]))
  }

  lemma RefusedArgsMean(raw: Args, lines: seq<string>)
    requires Check(raw).Err?
    ensures EditMeans(raw, lines, Some(Check(raw).error), "")
  {
    hide Join;
  }

  lemma RefusedLinesMean(raw: Args, lines: seq<string>)
    requires Check(raw).Ok? && Refusal(lines, Check(raw).value).Some?
    ensures EditMeans(raw, lines, Refusal(lines, Check(raw).value), "")
  {
    hide Join;
  }

  lemma EditsMean(raw: Args, lines: seq<string>)
    requires Check(raw).Ok? && Refusal(lines, Check(raw).value).None?
    ensures EditMeans(raw, lines, None, Splice(lines, Check(raw).value))
  {
    hide Join;
    var a := Check(raw).value;
    assert Join(lines[..From(a)]) + "" == Join(lines[..From(a)]);
  }

  /** The tool: the file is replaced by the staged one only if the pass found a change. */
  method EditLines(path: string, text: string, raw: Args, context: nat, maxDiffBytes: int, dryRun: bool)
    returns (r: Result<Outcome, EditError>)
    ensures var lines := SplitLines(text);
            if Check(raw).Err? then r == Err(Check(raw).error)
            else if Refusal(lines, Check(raw).value).Some? then r == Err(Refusal(lines, Check(raw).value).value)
            else
              var e := EditOf(lines, Check(raw).value, context);
              && r.Ok? && r.value.edit == e
              && e.baseLine >= 1
              && (r.value.diff, r.value.diffTruncated) == Limited(EditDiff(path, e, context), maxDiffBytes)
              && r.value.file == if dryRun || !e.changed then text else e.staged
    ensures r.Err? ==> EditMeans(raw, SplitLines(text), Some(r.error), "")
    ensures r.Ok? ==> EditMeans(raw, SplitLines(text), None, r.value.edit.staged)
  {
    hide Refusal, Check, EditDiff, Limited, EditMeans, SplitLines;
    var checked := Check(raw);
    if checked.Err? {
      RefusedArgsMean(raw, SplitLines(text));
      return Err(checked.error);
    }
    var edit := ApplyLineEdit(text, checked.value, context);
    if edit.Err? {
      RefusedLinesMean(raw, SplitLines(text));
      return Err(edit.error);
    }
    EditsMean(raw, SplitLines(text));
    var e := edit.value;
    WindowOfFile(SplitLines(text), checked.value, context);
    var diff, cut := CompactLineEditDiff(path, e, context, maxDiffBytes);
    var file := text;
    if !dryRun && e.changed {
      file := e.staged;
    }
    return Ok(Outcome(e, diff, cut, file));
  }

  lemma Cancel(x: string, a: string, b: string, y: string)
    ensures x + a + y == x + b + y <==> a == b
  {
    if x + a + y == x + b + y {
      assert |a| == |b|;
      assert a == (x + a + y)[|x|..|x| + |a|];
      assert b == (x + b + y)[|x|..|x| + |b|];
    }
  }

  lemma JoinOfLines(ls: seq<string>)
    requires ls != [] && forall i :: 0 <= i < |ls| ==> ls[i] != ""
    ensures Join(ls) != ""
  {
  }

  /** The change flag tells whether the staged file differs, except for a deletion that repeats
      the very lines it deletes as content: that edit is dropped. */
  lemma ChangedIsHonestExactly(text: string, a: Args, context: nat)
    requires Checked(a) && To(a) <= |SplitLines(text)|
    ensures var lines := SplitLines(text);
            var e := EditOf(lines, a, context);
            (e.changed <==> e.staged != text)
            <==> !(a.operation == DeleteLines && a.content == Join(lines[From(a)..To(a)]))
  {
    hide SplitLines, Join, LastOf, FirstN;
    var lines := SplitLines(text);
    var front, removed, back := lines[..From(a)], lines[From(a)..To(a)], lines[To(a)..];
    assert lines == front + removed + back;
    JoinAround(front, removed, back);
    JoinSplit(text);
    Cancel(Join(front), Join(removed), NewText(a), Join(back));
    if a.operation == DeleteLines {
      SplitIsProper(text);
      JoinOfLines(removed);
    } else if IsInsert(a) {
      assert removed == [];
    }
  }
}
