/**
 Unified patches: the parser and the applier.
 */
module Patch {
  import opened Text
  import opened Lines

  datatype Kind = Context | Delete | Insert

  datatype PatchLine = PatchLine(kind: Kind, text: string)

  datatype Hunk = Hunk(oldStart: nat, oldCount: nat, newStart: nat, newCount: nat, lines: seq<PatchLine>)

  datatype FilePatch = FilePatch(oldPath: string, newPath: string, hunks: seq<Hunk>)

  datatype ParseError = MissingPlusLine | InvalidHunkHeader

  // ------------------------------------------------------------------- parsing

  function DigitRun(s: string): (n: nat)
    ensures n <= |s| && AllDigits(s[..n])
    ensures n < |s| ==> !IsDigit(s[n])
  {
    if s == "" || !IsDigit(s[0]) then 0 else 1 + DigitRun(s[1..])
  }

  /** `strconv.Atoi` on digits with its error ignored: too large a number is clamped. */
  function Atoi(digits: string): nat
    requires AllDigits(digits)
  {
    Min(DecimalValue(digits), MAX_INT)
  }

  datatype Range = Range(start: nat, count: nat, rest: string)

  /** `digits` or `digits,digits`; a missing count is 1. */
  function ParseRange(s: string): Option<Range> {
    var n := DigitRun(s);
    if n == 0 then None
    else
      var rest := s[n..];
      if rest != "" && rest[0] == ',' && DigitRun(rest[1..]) > 0 then
        var m := DigitRun(rest[1..]);
        Some(Range(Atoi(s[..n]), Atoi(rest[1..][..m]), rest[1..][m..]))
      else
        Some(Range(Atoi(s[..n]), 1, rest))
  }

  /** `@@ -a,b +c,d @@`, with anything after it. */
  function ParseHeader(header: string): Option<Hunk> {
    if !("@@ -" <= header) then None
    else
      match ParseRange(header[4..])
      case None => None
      case Some(o) =>
        if !(" +" <= o.rest) then None
        else
          match ParseRange(o.rest[2..])
          case None => None
          case Some(n) =>
            if !(" @@" <= n.rest) then None
            else Some(Hunk(o.start, o.count, n.start, n.count, []))
  }

  function KindOf(c: char): Option<Kind> {
    if c == ' ' then Some(Context)
    else if c == '-' then Some(Delete)
    else if c == '+' then Some(Insert)
    else None
  }

  predicate EndsHunk(line: string) {
    var trimmed := TrimLineEnd(line);
    "@@ " <= trimmed || "--- " <= trimmed || "diff --git " <= trimmed
  }

  const NO_NEWLINE := "\\ No newline at end of file"

  /** The body of a hunk whose next line is line `i`, and where it stops. */
  function ParseBody(lines: seq<string>, i: nat): (r: (seq<PatchLine>, nat))
    requires i <= |lines|
    ensures i <= r.1 <= |lines|
    decreases |lines| - i
  {
    if i == |lines| || EndsHunk(lines[i]) then ([], i)
    else if NO_NEWLINE <= TrimLineEnd(lines[i]) then ParseBody(lines, i + 1)
    else if lines[i] == "" || KindOf(lines[i][0]).None? then ([], i)
    else
      var (rest, next) := ParseBody(lines, i + 1);
      ([PatchLine(KindOf(lines[i][0]).value, lines[i][1..])] + rest, next)
  }

  /** The hunks of one file from line `i` on, and the line where the next file starts. */
  function ParseHunks(lines: seq<string>, i: nat): (r: Result<(seq<Hunk>, nat), ParseError>)
    requires i <= |lines|
    ensures r.Ok? ==> i <= r.value.1 <= |lines|
    decreases |lines| - i
  {
    if i == |lines| || EndsFile(lines[i]) then Ok(([], i))
    else if !("@@ " <= TrimLineEnd(lines[i])) then ParseHunks(lines, i + 1)
    else
      match ParseHeader(TrimLineEnd(lines[i]))
      case None => Err(InvalidHunkHeader)
      case Some(h) =>
        var (body, next) := ParseBody(lines, i + 1);
        match ParseHunks(lines, next)
        case Err(e) => Err(e)
        case Ok((hunks, end)) => Ok(([h.(lines := body)] + hunks, end))
  }

  predicate EndsFile(line: string) {
    var trimmed := TrimLineEnd(line);
    "--- " <= trimmed || "diff --git " <= trimmed
  }

  /** The path on a `--- ` or `+++ ` line. */
  function HeaderPath(line: string, strip: int): string {
    var trimmed := TrimLineEnd(line);
    CleanPath(TrimSpace(trimmed[Min(4, |trimmed|)..]), strip)
  }

  function ParseFiles(lines: seq<string>, i: nat, strip: int): Result<seq<FilePatch>, ParseError>
    requires i <= |lines|
    decreases |lines| - i
  {
    if i == |lines| then Ok([])
    else if !("--- " <= TrimLineEnd(lines[i])) then ParseFiles(lines, i + 1, strip)
    else if i + 1 == |lines| || !("+++ " <= TrimLineEnd(lines[i + 1])) then Err(MissingPlusLine)
    else
      match ParseHunks(lines, i + 2)
      case Err(e) => Err(e)
      case Ok((hunks, next)) =>
        var file := FilePatch(HeaderPath(lines[i], strip), HeaderPath(lines[i + 1], strip), hunks);
        match ParseFiles(lines, next, strip)
        case Err(e) => Err(e)
        case Ok(files) => Ok([file] + files)
  }

  function Parse(patch: string, strip: int): Result<seq<FilePatch>, ParseError> {
    ParseFiles(SplitLines(patch), 0, strip)
  }

  // --------------------------------------------------------------------- paths

  function TrimQuotes(s: string): (r: string)
    ensures |r| <= |s|
  {
    if s != "" && s[0] == '"' then TrimQuotes(s[1..])
    else if s != "" && s[|s| - 1] == '"' then TrimQuotes(s[..|s| - 1])
    else s
  }

  function CutAtBlank(s: string): (r: string)
    ensures r <= s
    ensures forall i :: 0 <= i < |r| ==> r[i] != ' ' && r[i] != '\t'
  {
    if s == "" || s[0] == ' ' || s[0] == '\t' then ""
    else [s[0]] + CutAtBlank(s[1..])
  }

  function StripComponents(path: string, strip: int): string
    decreases strip
  {
    if strip <= 0 then path
    else
      var slash := Find(path, "/");
      if slash < 0 then "." else StripComponents(path[slash + 1..], strip - 1)
  }

  function CleanPath(path: string, strip: int): string {
    var p := CutAtBlank(TrimQuotes(path));
    if p == "/dev/null" then p
    else StripComponents(if "a/" <= p || "b/" <= p then p[2..] else p, strip)
  }

  // ---------------------------------------------------------- the parser's loops

  /** The body lines from `start` on are `body` and then those from line `i` on. */
  ghost predicate BodyReached(lines: seq<string>, start: nat, body: seq<PatchLine>, i: nat)
    requires start <= |lines| && i <= |lines|
  {
    ParseBody(lines, start) == (body + ParseBody(lines, i).0, ParseBody(lines, i).1)
  }

  lemma BodyStep(lines: seq<string>, start: nat, body: seq<PatchLine>, i: nat, kind: Kind)
    requires start <= |lines| && i < |lines| && BodyReached(lines, start, body, i)
    requires !EndsHunk(lines[i]) && !(NO_NEWLINE <= TrimLineEnd(lines[i]))
    requires lines[i] != "" && KindOf(lines[i][0]) == Some(kind)
    ensures BodyReached(lines, start, body + [PatchLine(kind, lines[i][1..])], i + 1)
  {
    hide EndsHunk;
    var added, rest := [PatchLine(kind, lines[i][1..])], ParseBody(lines, i + 1).0;
    assert body + (added + rest) == (body + added) + rest;
  }

  lemma BodyStops(lines: seq<string>, start: nat, body: seq<PatchLine>, i: nat)
    requires start <= |lines| && i <= |lines| && BodyReached(lines, start, body, i)
    requires ParseBody(lines, i) == ([], i)
    ensures ParseBody(lines, start) == (body, i)
  {
    hide ParseBody;
    assert body + [] == body;
  }

  method ParseHunk(lines: seq<string>, start: nat) returns (r: Result<(Hunk, nat), ParseError>)
    requires start < |lines|
    ensures var header := ParseHeader(TrimLineEnd(lines[start]));
            var (body, next) := ParseBody(lines, start + 1);
            r == if header.None? then Err(InvalidHunkHeader)
                 else Ok((header.value.(lines := body), next))
  {
    hide ParseHeader, BodyReached, EndsHunk;
    var header := ParseHeader(TrimLineEnd(lines[start]));
    if header.None? {
      return Err(InvalidHunkHeader);
    }
    var body := [];
    var i := start + 1;
    assert BodyReached(lines, i, [], i) by { BodyInitially(lines, i); }
    while i < |lines|
      invariant start + 1 <= i <= |lines|
      invariant BodyReached(lines, start + 1, body, i)
    {
      var line := lines[i];
      if EndsHunk(line) {
        break;
      }
      if NO_NEWLINE <= TrimLineEnd(line) {
        BodySkip(lines, start + 1, body, i);
        i := i + 1;
        continue;
      }
      if line == "" {
        break;
      }
      var kind := KindOf(line[0]);
      if kind.None? {
        break;
      }
      BodyStep(lines, start + 1, body, i, kind.value);
      body := body + [PatchLine(kind.value, line[1..])];
      i := i + 1;
    }
    BodyStops(lines, start + 1, body, i);
    return Ok((header.value.(lines := body), i));
  }

  lemma BodyInitially(lines: seq<string>, i: nat)
    requires i <= |lines|
    ensures BodyReached(lines, i, [], i)
  {
    assert [] + ParseBody(lines, i).0 == ParseBody(lines, i).0;
  }

  lemma BodySkip(lines: seq<string>, start: nat, body: seq<PatchLine>, i: nat)
    requires start <= |lines| && i < |lines| && BodyReached(lines, start, body, i)
    requires !EndsHunk(lines[i]) && NO_NEWLINE <= TrimLineEnd(lines[i])
    ensures BodyReached(lines, start, body, i + 1)
  {
  }

  /** The hunks from `start` on are `hunks` and then those from line `i` on. */
  ghost predicate HunksReached(lines: seq<string>, start: nat, hunks: seq<Hunk>, i: nat)
    requires start <= |lines| && i <= |lines|
  {
    ParseHunks(lines, start) ==
    match ParseHunks(lines, i)
    case Err(e) => Err(e)
    case Ok((more, next)) => Ok((hunks + more, next))
  }

  lemma HunksInitially(lines: seq<string>, i: nat)
    requires i <= |lines|
    ensures HunksReached(lines, i, [], i)
  {
    hide ParseHunks;
    var r := ParseHunks(lines, i);
    if r.Ok? {
      assert [] + r.value.0 == r.value.0;
    }
  }

  lemma HunksStep(lines: seq<string>, start: nat, hunks: seq<Hunk>, i: nat)
    requires start <= |lines| && i < |lines| && HunksReached(lines, start, hunks, i)
    ensures var header := ParseHeader(TrimLineEnd(lines[i]));
            var (body, next) := ParseBody(lines, i + 1);
            !EndsFile(lines[i]) && "@@ " <= TrimLineEnd(lines[i]) && header.Some? ==>
              HunksReached(lines, start, hunks + [header.value.(lines := body)], next)
  {
    hide EndsFile, ParseHeader, ParseBody;
    var header := ParseHeader(TrimLineEnd(lines[i]));
    if EndsFile(lines[i]) || !("@@ " <= TrimLineEnd(lines[i])) || header.None? {
      return;
    }
    var h := header.value;
    var (body, next) := ParseBody(lines, i + 1);
    var r := ParseHunks(lines, next);
    if r.Ok? {
      assert hunks + ([h.(lines := body)] + r.value.0) == (hunks + [h.(lines := body)]) + r.value.0;
    }
  }

  method ParseFileHunks(lines: seq<string>, start: nat) returns (r: Result<(seq<Hunk>, nat), ParseError>)
    requires start <= |lines|
    ensures r == ParseHunks(lines, start)
  {
    hide ParseHeader, EndsFile, ParseBody;
    var hunks := [];
    var i := start;
    HunksInitially(lines, i);
    while i < |lines|
      invariant start <= i <= |lines|
      invariant HunksReached(lines, start, hunks, i)
      decreases |lines| - i
    {
      if EndsFile(lines[i]) {
        break;
      }
      if !("@@ " <= TrimLineEnd(lines[i])) {
        i := i + 1;
        continue;
      }
      var hunk := ParseHunk(lines, i);
      if hunk.Err? {
        return Err(hunk.error);
      }
      HunksStep(lines, start, hunks, i);
      hunks := hunks + [hunk.value.0];
      i := hunk.value.1;
    }
    assert hunks + [] == hunks;
    assert ParseHunks(lines, i) == Ok(([], i));
    return Ok((hunks, i));
  }

  ghost predicate FilesReached(lines: seq<string>, strip: int, files: seq<FilePatch>, i: nat)
    requires i <= |lines|
  {
    ParseFiles(lines, 0, strip) ==
    match ParseFiles(lines, i, strip)
    case Err(e) => Err(e)
    case Ok(more) => Ok(files + more)
  }

  lemma FilesInitially(lines: seq<string>, strip: int)
    ensures FilesReached(lines, strip, [], 0)
  {
    hide ParseFiles;
    var r := ParseFiles(lines, 0, strip);
    if r.Ok? {
      assert [] + r.value == r.value;
    }
  }

  lemma FilesStep(lines: seq<string>, strip: int, files: seq<FilePatch>, i: nat)
    requires i + 1 < |lines| && FilesReached(lines, strip, files, i)
    requires "--- " <= TrimLineEnd(lines[i]) && "+++ " <= TrimLineEnd(lines[i + 1])
    requires ParseHunks(lines, i + 2).Ok?
    ensures var (hunks, next) := ParseHunks(lines, i + 2).value;
            var file := FilePatch(HeaderPath(lines[i], strip), HeaderPath(lines[i + 1], strip), hunks);
            FilesReached(lines, strip, files + [file], next)
  {
    hide ParseHunks, HeaderPath;
    var (hunks, next) := ParseHunks(lines, i + 2).value;
    var file := FilePatch(HeaderPath(lines[i], strip), HeaderPath(lines[i + 1], strip), hunks);
    var r := ParseFiles(lines, next, strip);
    if r.Ok? {
      assert files + ([file] + r.value) == (files + [file]) + r.value;
    }
  }

  method ParseUnifiedPatch(patch: string, strip: int) returns (r: Result<seq<FilePatch>, ParseError>)
    ensures r == Parse(patch, strip)
  {
    hide HeaderPath, ParseHunks;
    var lines := SplitLines(patch);
    var files := [];
    var i := 0;
    FilesInitially(lines, strip);
    while i < |lines|
      invariant 0 <= i <= |lines|
      invariant FilesReached(lines, strip, files, i)
      decreases |lines| - i
    {
      if !("--- " <= TrimLineEnd(lines[i])) {
        i := i + 1;
        continue;
      }
      if i + 1 >= |lines| {
        return Err(MissingPlusLine);
      }
      if !("+++ " <= TrimLineEnd(lines[i + 1])) {
        return Err(MissingPlusLine);
      }
      var hunks := ParseFileHunks(lines, i + 2);
      if hunks.Err? {
        return Err(hunks.error);
      }
      FilesStep(lines, strip, files, i);
      files := files + [FilePatch(HeaderPath(lines[i], strip), HeaderPath(lines[i + 1], strip), hunks.value.0)];
      i := hunks.value.1;
    }
    assert files + [] == files;
    return Ok(files);
  }

  // ------------------------------------------------------------------ applying

  datatype ApplyError =
    | StartOutsideFile(oldLine: nat)
    | ContextMismatch(oldLine: nat)
    | DeleteMismatch(oldLine: nat)

  /** Applies hunk lines to the old lines from `pos` on: what they emit and where they end. */
  function ApplyBody(src: seq<string>, ls: seq<PatchLine>, pos: nat)
    : (r: Result<(seq<string>, nat), ApplyError>)
    requires pos <= |src|
    ensures r.Ok? ==> pos <= r.value.1 <= |src|
  {
    if ls == [] then Ok(([], pos))
    else
      var l := ls[0];
      if l.kind != Insert && (pos == |src| || src[pos] != l.text) then
        Err(if l.kind == Context then ContextMismatch(pos + 1) else DeleteMismatch(pos + 1))
      else
        var r := ApplyBody(src, ls[1..], if l.kind == Insert then pos else pos + 1);
        if r.Err? then r
        else Ok((if l.kind == Delete then r.value.0 else [l.text] + r.value.0, r.value.1))
  }

  /** Index of the old line a hunk starts at. */
  function Target(h: Hunk): nat {
    if h.oldStart == 0 then 0 else h.oldStart - 1
  }

  /** The new lines from old position `pos` on. */
  function ApplyHunks(src: seq<string>, hunks: seq<Hunk>, pos: nat): Result<seq<string>, ApplyError>
    requires pos <= |src|
    decreases |hunks|
  {
    if hunks == [] then Ok(src[pos..])
    else
      var h := hunks[0];
      if Target(h) < pos || Target(h) > |src| then Err(StartOutsideFile(h.oldStart))
      else
        match ApplyBody(src, h.lines, Target(h))
        case Err(e) => Err(e)
        case Ok((out, next)) =>
          match ApplyHunks(src, hunks[1..], next)
          case Err(e) => Err(e)
          case Ok(rest) => Ok(src[pos..Target(h)] + out + rest)
  }

  function Apply(original: string, file: FilePatch): Result<string, ApplyError> {
    match ApplyHunks(SplitLines(original), file.hunks, 0)
    case Err(e) => Err(e)
    case Ok(ls) => Ok(Join(ls))
  }

  /** What a hunk body does after its first `i` lines have emitted `out` and reached `pos`. */
  ghost predicate LinesReached(src: seq<string>, ls: seq<PatchLine>, start: nat,
                               i: nat, out: seq<string>, pos: nat)
    requires start <= |src| && pos <= |src| && i <= |ls|
  {
    ApplyBody(src, ls, start) ==
    match ApplyBody(src, ls[i..], pos)
    case Err(e) => Err(e)
    case Ok((more, next)) => Ok((out + more, next))
  }

  lemma LinesInitially(src: seq<string>, ls: seq<PatchLine>, start: nat)
    requires start <= |src|
    ensures LinesReached(src, ls, start, 0, [], start)
  {
    assert ls[0..] == ls;
    var r := ApplyBody(src, ls, start);
    if r.Ok? {
      assert [] + r.value.0 == r.value.0;
    }
  }

  lemma LinesStep(src: seq<string>, ls: seq<PatchLine>, start: nat, i: nat, out: seq<string>, pos: nat)
    requires start <= |src| && pos <= |src| && i < |ls|
    requires LinesReached(src, ls, start, i, out, pos)
    ensures var l := ls[i];
            if l.kind != Insert && (pos == |src| || src[pos] != l.text) then
              ApplyBody(src, ls, start) ==
              Err(if l.kind == Context then ContextMismatch(pos + 1) else DeleteMismatch(pos + 1))
            else
              LinesReached(src, ls, start, i + 1,
                           if l.kind == Delete then out else out + [l.text],
                           if l.kind == Insert then pos else pos + 1)
  {
    var l := ls[i];
    assert ls[i..][0] == l && ls[i..][1..] == ls[i + 1..];
    if l.kind == Insert || (pos < |src| && src[pos] == l.text) {
      var r := ApplyBody(src, ls[i + 1..], if l.kind == Insert then pos else pos + 1);
      if r.Ok? {
        assert out + ([l.text] + r.value.0) == (out + [l.text]) + r.value.0;
      }
    }
  }

  lemma LinesStop(src: seq<string>, ls: seq<PatchLine>, start: nat, out: seq<string>, pos: nat)
    requires start <= |src| && pos <= |src| && LinesReached(src, ls, start, |ls|, out, pos)
    ensures ApplyBody(src, ls, start) == Ok((out, pos))
  {
    assert ls[|ls|..] == [];
    assert out + [] == out;
  }

  method ApplyHunkLines(src: seq<string>, ls: seq<PatchLine>, start: nat)
    returns (r: Result<(seq<string>, nat), ApplyError>)
    requires start <= |src|
    ensures r == ApplyBody(src, ls, start)
  {
    hide LinesReached, ApplyBody;
    var out: seq<string>, pos: nat := [], start;
    LinesInitially(src, ls, start);
    for i := 0 to |ls|
      invariant start <= pos <= |src|
      invariant LinesReached(src, ls, start, i, out, pos)
    {
      var line := ls[i];
      LinesStep(src, ls, start, i, out, pos);
      match line.kind {
        case Context =>
          if pos >= |src| || src[pos] != line.text {
            return Err(ContextMismatch(pos + 1));
          }
          out := out + [src[pos]];
          pos := pos + 1;
        case Delete =>
          if pos >= |src| || src[pos] != line.text {
            return Err(DeleteMismatch(pos + 1));
          }
          pos := pos + 1;
        case Insert =>
          out := out + [line.text];
      }
    }
    LinesStop(src, ls, start, out, pos);
    return Ok((out, pos));
  }

  ghost predicate AppliedUpTo(src: seq<string>, hunks: seq<Hunk>, i: nat, out: seq<string>, pos: nat)
    requires pos <= |src| && i <= |hunks|
  {
    ApplyHunks(src, hunks, 0) ==
    match ApplyHunks(src, hunks[i..], pos)
    case Err(e) => Err(e)
    case Ok(more) => Ok(out + more)
  }

  lemma AppliedInitially(src: seq<string>, hunks: seq<Hunk>)
    ensures AppliedUpTo(src, hunks, 0, [], 0)
  {
    hide ApplyHunks;
    assert hunks[0..] == hunks;
    var r := ApplyHunks(src, hunks, 0);
    if r.Ok? {
      assert [] + r.value == r.value;
    }
  }

  lemma AppliedStep(src: seq<string>, hunks: seq<Hunk>, i: nat, out: seq<string>, pos: nat)
    requires pos <= |src| && i < |hunks| && AppliedUpTo(src, hunks, i, out, pos)
    ensures var h := hunks[i];
            var target := Target(h);
            if target < pos || target > |src| then
              ApplyHunks(src, hunks, 0) == Err(StartOutsideFile(h.oldStart))
            else if ApplyBody(src, h.lines, target).Err? then
              ApplyHunks(src, hunks, 0) == Err(ApplyBody(src, h.lines, target).error)
            else
              var (body, next) := ApplyBody(src, h.lines, target).value;
              AppliedUpTo(src, hunks, i + 1, out + src[pos..target] + body, next)
  {
    hide ApplyBody;
    var h := hunks[i];
    assert hunks[i..][0] == h && hunks[i..][1..] == hunks[i + 1..];
    if pos <= Target(h) <= |src| && ApplyBody(src, h.lines, Target(h)).Ok? {
      var (body, next) := ApplyBody(src, h.lines, Target(h)).value;
      var r := ApplyHunks(src, hunks[i + 1..], next);
      if r.Ok? {
        var kept := src[pos..Target(h)];
        assert out + (kept + body + r.value) == (out + kept + body) + r.value;
      }
    }
  }

  method ApplyFilePatch(original: string, file: FilePatch) returns (r: Result<string, ApplyError>)
    ensures r == Apply(original, file)
  {
    hide AppliedUpTo, ApplyBody;
    var src := SplitLines(original);
    var out: seq<string>, pos: nat := [], 0;
    AppliedInitially(src, file.hunks);
    for i := 0 to |file.hunks|
      invariant pos <= |src|
      invariant AppliedUpTo(src, file.hunks, i, out, pos)
    {
      var hunk := file.hunks[i];
      AppliedStep(src, file.hunks, i, out, pos);
      var target: int := hunk.oldStart - 1;
      if hunk.oldStart == 0 {
        target := 0;
      }
      if target < pos || target > |src| {
        return Err(StartOutsideFile(hunk.oldStart));
      }
      var body := ApplyHunkLines(src, hunk.lines, target);
      if body.Err? {
        return Err(body.error);
      }
      out := out + src[pos..target] + body.value.0;
      pos := body.value.1;
    }
    AppliedAtEnd(src, file.hunks, out, pos);
    out := out + src[pos..];
    return Ok(Join(out));
  }

  lemma AppliedAtEnd(src: seq<string>, hunks: seq<Hunk>, out: seq<string>, pos: nat)
    requires pos <= |src| && AppliedUpTo(src, hunks, |hunks|, out, pos)
    ensures ApplyHunks(src, hunks, 0) == Ok(out + src[pos..])
  {
    assert hunks[|hunks|..] == [];
  }
}
