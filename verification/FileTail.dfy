/**
 The last lines of a file, found by reading it backwards in chunks until enough lines are seen
 or a byte cap is reached.
 */
module FileTail {
  import opened Text
  import opened Lines

  datatype Tail = Tail(content: string, returnedLines: nat, bytesRead: nat, truncated: bool)

  /** A file holding a NUL is refused; the error says how many bytes had been read. */
  datatype TailError = Binary(bytesRead: nat)

  /** What a byte cap lets one see of a file. */
  function Readable(file: string, maxBytes: int): string {
    if maxBytes > 0 then LastOf(file, maxBytes) else file
  }

  /** The last lines of that. */
  function TailLines(file: string, lines: nat, maxBytes: int): seq<string> {
    LastOf(SplitLines(Readable(file, maxBytes)), lines)
  }

  /** Written out: of the last `maxBytes` bytes, if there is a cap, the last `lines` lines. */
  lemma TailLinesAre(file: string, lines: nat, maxBytes: int)
    ensures var all := SplitLines(if maxBytes > 0 && |file| > maxBytes then file[|file| - maxBytes..] else file);
            TailLines(file, lines, maxBytes) == if |all| > lines then all[|all| - lines..] else all
  {
    hide SplitLines, Readable, LastOf;
    ReadableIs(file, maxBytes);
    var all := SplitLines(if maxBytes > 0 && |file| > maxBytes then file[|file| - maxBytes..] else file);
    LastOfFrom(all, lines, if |all| > lines then |all| - lines else 0);
  }

  lemma ReadableIs(file: string, maxBytes: int)
    ensures Readable(file, maxBytes) == if maxBytes > 0 && |file| > maxBytes then file[|file| - maxBytes..] else file
  {
  }

  // ------------------------------------------------------------- lines from the front

  /** A byte in front of a text joins its first line, unless it is a newline. */
  lemma SplitLinesCons(c: char, s: string)
    ensures SplitLines([c] + s)
            == if c == '\n' || s == "" then [[c]] + SplitLines(s)
               else [[c] + SplitLines(s)[0]] + SplitLines(s)[1..]
  {
    var t := [c] + s;
    assert t[1..] == s;
    var k := FirstLineLength(t);
    if c == '\n' || s == "" {
      assert k == 1 && t[..1] == [c];
    } else {
      var f := FirstLineLength(s);
      assert k == 1 + f && t[..k] == [c] + s[..f] && t[k..] == s[f..];
      assert SplitLines(s)[1..] == SplitLines(s[f..]);
    }
  }

  function CountNewlines(s: string): nat {
    if s == "" then 0 else (if s[0] == '\n' then 1 else 0) + CountNewlines(s[1..])
  }

  function CountLinesInBytes(buf: string): nat {
    if buf == "" then 0
    else CountNewlines(buf) + if buf[|buf| - 1] != '\n' then 1 else 0
  }

  lemma {:induction false} CountLinesIsExact(buf: string)
    ensures CountLinesInBytes(buf) == |SplitLines(buf)|
  {
    hide SplitLines, CountLinesInBytes;
    assert CountLinesInBytes("") == 0 by { NoLines(); }
    SplitIsProper(buf);
    if buf != "" {
      var s := buf[1..];
      assert buf == [buf[0]] + s;
      SplitIsProper(s);
      SplitLinesCons(buf[0], s);
      CountLinesIsExact(s);
      CountCons(buf[0], s);
      assert s != "" ==> |SplitLines(s)| > 0;
    }
  }

  lemma NoLines()
    ensures CountLinesInBytes("") == 0
  {
  }

  lemma CountCons(c: char, s: string)
    ensures CountLinesInBytes([c] + s) == CountLinesInBytes(s) + if c == '\n' || s == "" then 1 else 0
  {
    var t := [c] + s;
    assert t[1..] == s && t[0] == c && |t| == |s| + 1;
    assert CountNewlines(t) == (if c == '\n' then 1 else 0) + CountNewlines(s);
    if s == "" {
      assert CountNewlines(s) == 0 && t[|t| - 1] == c;
    } else {
      assert t[|t| - 1] == s[|s| - 1];
    }
  }

  /** Text in front of another changes at most its first line. */
  ghost predicate LastLinesAre(all: seq<string>, ls: seq<string>) {
    |all| >= |ls| > 0 && all[|all| - |ls| + 1..] == ls[1..]
  }

  lemma {:induction false} LinesOfSuffix(front: string, s: string)
    requires s != ""
    ensures LastLinesAre(SplitLines(front + s), SplitLines(s))
  {
    hide SplitLines;
    SplitIsProper(s);
    if front == "" {
      assert front + s == s;
    } else {
      var t := front[1..] + s;
      SplitIsProper(t);
      assert front + s == [front[0]] + t;
      LinesOfSuffix(front[1..], s);
      SplitLinesCons(front[0], t);
      assert t != "" by { assert |t| >= |s|; }
      LinesBefore([front[0]], SplitLines(t), SplitLines(s));
      LinesBefore([front[0]] + SplitLines(t)[0], SplitLines(t), SplitLines(s));
    }
  }

  lemma LinesBefore(first: string, all: seq<string>, ls: seq<string>)
    requires LastLinesAre(all, ls)
    ensures LastLinesAre([first] + all, ls) && LastLinesAre([first] + all[1..], ls)
  {
    var d := |all| - |ls| + 1;
    assert ([first] + all)[d + 1..] == all[d..];
    assert ([first] + all[1..])[d..] == all[d..];
  }

  /** A suffix with more than `n` lines has the last `n` lines of the whole. */
  lemma LastLinesOfSuffix(front: string, s: string, n: nat)
    requires |SplitLines(s)| > n
    ensures LastOf(SplitLines(s), n) == LastOf(SplitLines(front + s), n)
    ensures LastOf(SplitLines(s), n) != SplitLines(s)
  {
    hide SplitLines;
    SplitIsProper(s);
    LinesOfSuffix(front, s);
    hide LastOf;
  }

  // ------------------------------------------------------------------- splitting at newlines

  /** The parts between newlines, without the empty one after a final newline. */
  function Parts(s: string): seq<string> {
    var p := SplitOn(s, '\n');
    if p[|p| - 1] == "" then p[..|p| - 1] else p
  }

  lemma PartsOfByte(c: char)
    ensures Parts([c]) == if c == '\n' then [""] else [[c]]
  {
    assert [c][1..] == "" && SplitOn("", '\n') == [""];
    assert [c] + "" == [c];
  }

  lemma PartsCons(c: char, s: string)
    requires Parts(s) != []
    ensures c == '\n' ==> Parts([c] + s) == [""] + Parts(s)
    ensures c != '\n' ==> Parts([c] + s) == [[c] + Parts(s)[0]] + Parts(s)[1..]
  {
    var p, q := SplitOn(s, '\n'), SplitOn([c] + s, '\n');
    assert ([c] + s)[1..] == s;
    if p[|p| - 1] == "" {
      DropLast(p, "");
      DropLast(p, [c] + p[0]);
    }
  }

  lemma DropLast(p: seq<string>, first: string)
    requires |p| > 0
    ensures ([first] + p)[..|p|] == [first] + p[..|p| - 1]
    ensures |p| > 1 ==> ([first] + p[1..])[..|p| - 1] == [first] + p[..|p| - 1][1..]
  {
  }

  /** The parts are the lines, less their newlines. */
  lemma {:induction false} PartsAreLines(s: string)
    ensures Same(Parts(s), SplitLines(s))
  {
    if s == "" {
      assert Parts(s) == [];
    } else {
      hide Parts, SplitLines, EnsureNL;
      var c, rest := s[0], s[1..];
      assert s == [c] + rest;
      PartsAreLines(rest);
      SplitIsProper(rest);
      SplitLinesCons(c, rest);
      if rest == "" {
        assert s == [c];
        PartsOfByte(c);
        OnlyByte(c, SplitLines(rest));
      } else if c != '\n' {
        PartsCons(c, rest);
        EnsureNLOfLonger(c, SplitLines(rest)[0]);
        assert Parts(s)[0] + "\n" == [c] + (Parts(rest)[0] + "\n");
        SameButFirst(Parts(rest), SplitLines(rest), [c] + Parts(rest)[0], [c] + SplitLines(rest)[0]);
      } else {
        PartsCons(c, rest);
      }
    }
  }

  ghost predicate Same(parts: seq<string>, lines: seq<string>) {
    |parts| == |lines| && forall i :: 0 <= i < |parts| ==> parts[i] + "\n" == EnsureNL(lines[i])
  }

  lemma OnlyByte(c: char, none: seq<string>)
    requires none == []
    ensures Same(if c == '\n' then [""] else [[c]], [[c]] + none)
  {
  }

  lemma SameButFirst(parts: seq<string>, lines: seq<string>, p: string, l: string)
    requires Same(parts, lines) && parts != [] && p + "\n" == EnsureNL(l)
    ensures Same([p] + parts[1..], [l] + lines[1..])
  {
  }

  lemma EnsureNLOfLonger(c: char, l: string)
    requires l != ""
    ensures EnsureNL([c] + l) == [c] + EnsureNL(l)
  {
    assert ([c] + l) + "\n" == [c] + (l + "\n");
  }

  /** Joining the parts with newlines, and ending with one, gives the lines, all terminated. */
  lemma {:induction false} JoinedParts(parts: seq<string>, lines: seq<string>)
    requires Same(parts, lines) && parts != []
    ensures JoinNL(parts) + "\n" == Join(EnsureAll(lines))
  {
    hide EnsureNL;
    var es := EnsureAll(lines);
    assert es[1..] == EnsureAll(lines[1..]);
    if |parts| == 1 {
      assert Join(es) == es[0] + Join(es[1..]) && Join(es[1..]) == "";
    } else {
      JoinedParts(parts[1..], lines[1..]);
      assert parts[0] + "\n" + JoinNL(parts[1..]) + "\n" == (parts[0] + "\n") + (JoinNL(parts[1..]) + "\n");
    }
  }

  // ------------------------------------------------------------------------ the tail

  /** The bytes read so far, as a suffix of the file within the cap. */
  ghost predicate HasRead(file: string, maxBytes: int, offset: nat, buf: string) {
    && offset <= |file| && buf == file[offset..] && '\0' !in buf
    && (maxBytes > 0 ==> |buf| <= maxBytes)
  }

  /** The reading stopped with enough lines, or with all the cap allows. */
  ghost predicate Enough(file: string, lines: nat, maxBytes: int, buf: string, truncated: bool) {
    || (|SplitLines(buf)| > lines && !truncated)
    || (buf == Readable(file, maxBytes) && (truncated <==> buf != file))
  }

  lemma EnoughRead(file: string, lines: nat, maxBytes: int, offset: nat, buf: string)
    requires HasRead(file, maxBytes, offset, buf)
    requires offset == 0 || (maxBytes > 0 && |buf| >= maxBytes)
    ensures buf == Readable(file, maxBytes) && (offset > 0 <==> buf != file)
  {
    if offset == 0 {
      assert file[0..] == file;
    }
  }

  lemma ReadMore(file: string, maxBytes: int, offset: nat, buf: string, size: nat)
    requires HasRead(file, maxBytes, offset, buf) && size <= offset
    requires '\0' !in file[offset - size..offset] && (maxBytes > 0 ==> |buf| + size <= maxBytes)
    ensures HasRead(file, maxBytes, offset - size, file[offset - size..offset] + buf)
  {
    assert file[offset - size..offset] + buf == file[offset - size..];
  }

  /** What the bytes read give is what the readable part of the file gives. */
  lemma TailOfRead(file: string, lines: nat, maxBytes: int, offset: nat, buf: string, truncated: bool)
    requires HasRead(file, maxBytes, offset, buf) && Enough(file, lines, maxBytes, buf, truncated)
    ensures var kept := LastOf(SplitLines(buf), lines);
            && kept == TailLines(file, lines, maxBytes)
            && ((truncated || |SplitLines(buf)| > lines) <==> Join(kept) != file)
  {
    hide SplitLines, Join;
    var all, seen := Readable(file, maxBytes), SplitLines(buf);
    SuffixOfReadable(file, maxBytes, offset, buf);
    JoinSplit(buf);
    if |seen| > lines {
      LastLinesOfSuffix(all[..|all| - |buf|], buf, lines);
      assert seen == seen[..|seen| - lines] + LastOf(seen, lines);
      JoinSum(seen[..|seen| - lines], LastOf(seen, lines));
      SplitIsProper(buf);
      JoinIsLonger(seen[..|seen| - lines]);
    }
  }

  lemma SuffixOfReadable(file: string, maxBytes: int, offset: nat, buf: string)
    requires HasRead(file, maxBytes, offset, buf)
    ensures var all := Readable(file, maxBytes);
            |buf| <= |all| && all[..|all| - |buf|] + buf == all
  {
    var all := Readable(file, maxBytes);
    var d := |file| - |all|;
    assert all == file[d..];
    assert all == file[d..offset] + file[offset..];
  }

  lemma JoinIsLonger(ls: seq<string>)
    requires ls != [] && IsLine(ls[0])
    ensures |Join(ls)| > 0
  {
  }

  /** The text is the last lines of what the cap allows, all terminated, and the flag says
      whether part of the file is missing. */
  predicate IsTail(file: string, lines: nat, maxBytes: int, t: Tail) {
    var kept := TailLines(file, lines, maxBytes);
    && t.content == Join(EnsureAll(kept)) && t.returnedLines == |kept|
    && (t.truncated <==> Join(kept) != file)
  }

  lemma AssembledIsTail(file: string, lines: nat, maxBytes: int, offset: nat, buf: string, truncated: bool)
    requires HasRead(file, maxBytes, offset, buf) && Enough(file, lines, maxBytes, buf, truncated)
    ensures var parts := LastOf(Parts(buf), lines);
            IsTail(file, lines, maxBytes,
              Tail(if parts == [] then "" else JoinNL(parts) + "\n", |parts|, |buf|, truncated || |Parts(buf)| > lines))
  {
    hide SplitLines, Join, Parts, Enough, HasRead, LastOf;
    TailOfRead(file, lines, maxBytes, offset, buf, truncated);
    PartsAreLines(buf);
    SameLastParts(Parts(buf), SplitLines(buf), lines);
    var parts := LastOf(Parts(buf), lines);
    if parts == [] {
      NothingLeft();
    } else {
      JoinedParts(parts, LastOf(SplitLines(buf), lines));
    }
  }

  lemma SameLastParts(parts: seq<string>, lines: seq<string>, n: nat)
    requires Same(parts, lines)
    ensures Same(LastOf(parts, n), LastOf(lines, n))
  {
  }

  /** For every chunk size: the text is the last lines of the part of the file the cap allows,
      all terminated; the flag is set exactly when part of the file is missing; no more is read
      than allowed; and the file is refused exactly when a byte read is NUL. */
  method TailTextFile(file: string, lines: nat, maxBytes: int, chunkSize: nat)
    returns (r: Result<Tail, TailError>)
    requires chunkSize > 0
    ensures r.Ok? ==> IsTail(file, lines, maxBytes, r.value)
    ensures var n := if r.Ok? then r.value.bytesRead else r.error.bytesRead;
            && n <= |file| && (maxBytes > 0 ==> n <= maxBytes)
            && (r.Err? <==> '\0' in LastOf(file, n))
  {
    hide SplitLines, Join, Parts, Enough, IsTail, JoinNL, CountLinesInBytes, LastOf;
    if file == "" {
      EmptyFile(lines, maxBytes);
      return Ok(Tail("", 0, 0, false));
    }
    var buf := "";
    var bytesRead := 0;
    var truncated := false;
    var offset := |file|;
    while offset > 0
      invariant 0 <= offset
      invariant HasRead(file, maxBytes, offset, buf) && bytesRead == |buf| && !truncated
      invariant offset > 0 && maxBytes > 0 ==> bytesRead < maxBytes
    {
      var readSize: int := chunkSize;
      if offset < readSize {
        readSize := offset;
      }
      if maxBytes > 0 && bytesRead + readSize > maxBytes {
        readSize := maxBytes - bytesRead;
        if readSize <= 0 {
          truncated := true;
          break;
        }
      }
      var chunk := file[offset - readSize..offset];
      if '\0' in chunk {
        NulIsRead(file, maxBytes, offset, buf, readSize);
        return Err(Binary(bytesRead + readSize));
      }
      ReadMore(file, maxBytes, offset, buf, readSize);
      offset := offset - readSize;
      buf := chunk + buf;
      bytesRead := bytesRead + readSize;
      if CountLinesInBytes(buf) > lines {
        break;
      }
      if maxBytes > 0 && bytesRead >= maxBytes {
        truncated := offset > 0;
        break;
      }
    }
    assert Enough(file, lines, maxBytes, buf, truncated) by {
      StoppedWithEnough(file, lines, maxBytes, offset, buf, truncated);
    }
    AssembledIsTail(file, lines, maxBytes, offset, buf, truncated);
    var parts := Parts(buf);
    if |parts| > lines {
      parts := parts[|parts| - lines..];
      truncated := true;
    }
    LastOfFrom(Parts(buf), lines, if |Parts(buf)| > lines then |Parts(buf)| - lines else 0);
    CleanRead(file, maxBytes, offset, buf);
    if |parts| == 0 {
      return Ok(Tail("", 0, bytesRead, truncated));
    }
    return Ok(Tail(JoinNL(parts) + "\n", |parts|, bytesRead, truncated));
  }

  lemma StoppedWithEnough(file: string, lines: nat, maxBytes: int, offset: nat, buf: string, truncated: bool)
    requires HasRead(file, maxBytes, offset, buf)
    requires || (!truncated && (CountLinesInBytes(buf) > lines || offset == 0))
             || (maxBytes > 0 && |buf| >= maxBytes && (truncated <==> offset > 0))
    ensures Enough(file, lines, maxBytes, buf, truncated)
  {
    hide SplitLines, CountLinesInBytes, Readable;
    CountLinesIsExact(buf);
    if CountLinesInBytes(buf) <= lines || truncated {
      EnoughRead(file, lines, maxBytes, offset, buf);
    }
  }

  lemma CleanRead(file: string, maxBytes: int, offset: nat, buf: string)
    requires HasRead(file, maxBytes, offset, buf)
    ensures |buf| <= |file| && (maxBytes > 0 ==> |buf| <= maxBytes) && '\0' !in LastOf(file, |buf|)
  {
  }

  lemma NulIsRead(file: string, maxBytes: int, offset: nat, buf: string, size: nat)
    requires HasRead(file, maxBytes, offset, buf) && size <= offset && '\0' in file[offset - size..offset]
    ensures '\0' in LastOf(file, |buf| + size)
  {
    assert LastOf(file, |buf| + size) == file[offset - size..offset] + file[offset..];
  }

  lemma EmptyFile(lines: nat, maxBytes: int)
    ensures IsTail("", lines, maxBytes, Tail("", 0, 0, false))
  {
  }

  lemma NothingLeft()
    ensures Join([]) == "" && EnsureAll([]) == []
  {
  }

  /** Of a file that ends with a newline the text is a verbatim suffix. */
  lemma TerminatedTailIsVerbatim(file: string, lines: nat, maxBytes: int)
    requires file == "" || Terminated(file)
    ensures var text := Join(EnsureAll(TailLines(file, lines, maxBytes)));
            |text| <= |file| && text == file[|file| - |text|..]
  {
    hide SplitLines, Join, AllTerminated;
    var all := Readable(file, maxBytes);
    var ls := SplitLines(all);
    TerminatedText(all);
    JoinSplit(all);
    var kept := LastOf(ls, lines);
    LastAreTerminated(ls, lines);
    EnsureTerminated(kept);
    assert ls == ls[..|ls| - |kept|] + kept;
    JoinSum(ls[..|ls| - |kept|], kept);
    assert all == file[|file| - |all|..];
  }

  lemma LastAreTerminated(ls: seq<string>, n: nat)
    requires AllTerminated(ls)
    ensures AllTerminated(LastOf(ls, n))
  {
  }
}
