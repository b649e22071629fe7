/**
 Output of a background job: chunks are cut into bounded lines, the newest lines are kept in
 a ring, snapshots of the ring are published, and a byte-limited tail is read from them.
 */
module JobOutput {
  import opened Text

  datatype OutputLine = OutputLine(text: string, shortRead: bool)

  datatype Snapshot = Snapshot(lines: seq<OutputLine>, partial: Option<OutputLine>,
                               linesTruncated: bool, lineShortRead: bool)

  const EMPTY := Snapshot([], None, false, false)

  // ------------------------------------------------------- the lines of the raw output

  /** The text after the last newline. */
  function Current(t: string): string {
    var n := |t| - 1;
    if t == "" || t[n] == '\n' then "" else Current(t[..n]) + [t[n]]
  }

  /** The lines a newline has ended, without their newlines. */
  function Completed(t: string): seq<string> {
    var n := |t| - 1;
    if t == "" then []
    else if t[n] == '\n' then Completed(t[..n]) + [Current(t[..n])]
    else Completed(t[..n])
  }

  /** All lines of a text; the last one may lack its newline. */
  function RawLines(t: string): seq<string> {
    Completed(t) + if Current(t) == "" then [] else [Current(t)]
  }

  lemma {:induction false} CurrentGrows(t: string, c: string)
    requires '\n' !in c
    ensures Current(t + c) == Current(t) + c && Completed(t + c) == Completed(t)
    decreases |c|
  {
    if c == "" {
      assert t + c == t && Current(t) + c == Current(t);
    } else {
      var n := |c| - 1;
      assert c[n] in c;
      assert (t + c)[..|t + c| - 1] == t + c[..n];
      CurrentGrows(t, c[..n]);
      assert Current(t) + c[..n] + [c[n]] == Current(t) + c;
    }
  }

  lemma CurrentEnds(t: string)
    ensures Current(t + "\n") == "" && Completed(t + "\n") == Completed(t) + [Current(t)]
  {
    assert (t + "\n")[..|t|] == t;
  }

  /** Lines with a newline behind each. */
  function Ended(ls: seq<string>): string {
    if ls == [] then "" else ls[0] + "\n" + Ended(ls[1..])
  }

  lemma EndedSnoc(ls: seq<string>, l: string)
    ensures Ended(ls + [l]) == Ended(ls) + (l + "\n")
  {
    if ls == [] {
      assert [] + [l] == [l] && [l][1..] == [] && l + "\n" + "" == "" + (l + "\n");
    } else {
      assert (ls + [l])[1..] == ls[1..] + [l];
      EndedSnoc(ls[1..], l);
      assert ls[0] + "\n" + (Ended(ls[1..]) + (l + "\n")) == (ls[0] + "\n" + Ended(ls[1..])) + (l + "\n");
    }
  }

  /** The completed lines, each with its newline, and the text after them make up the whole; none
      holds a newline. */
  lemma {:induction false} LinesAreExact(t: string)
    ensures Ended(Completed(t)) + Current(t) == t
    ensures '\n' !in Current(t) && forall i :: 0 <= i < |Completed(t)| ==> '\n' !in Completed(t)[i]
    decreases |t|
  {
    if t != "" {
      var n := |t| - 1;
      var front := t[..n];
      LinesAreExact(front);
      assert t == front + [t[n]];
      if t[n] == '\n' {
        EndedSnoc(Completed(front), Current(front));
        assert Ended(Completed(front)) + (Current(front) + "\n") + ""
          == (Ended(Completed(front)) + Current(front)) + "\n";
      } else {
        assert Ended(Completed(front)) + (Current(front) + [t[n]])
          == (Ended(Completed(front)) + Current(front)) + [t[n]];
      }
    }
  }

  // ----------------------------------------------------------- bounded lines

  /** A stored line keeps the last bytes of the full one; its flag is set whenever bytes are
      missing, and possibly when the full line has exactly the allowed length. */
  predicate Stores(line: OutputLine, full: string, limit: nat) {
    && line.text == LastOf(full, limit)
    && (|full| > limit ==> line.shortRead)
    && (line.shortRead ==> |full| >= limit)
  }

  /** `appendLimitedBytes`. */
  function AppendLimited(dst: string, src: string, limit: int, alreadyShort: bool): OutputLine {
    if limit <= 0 then OutputLine("", alreadyShort || |src| > 0)
    else if |src| >= limit then OutputLine(src[|src| - limit..], true)
    else if |dst + src| <= limit then OutputLine(dst + src, alreadyShort)
    else OutputLine((dst + src)[|dst + src| - limit..], true)
  }

  lemma LastOfSum(a: string, b: string, limit: nat)
    ensures LastOf(LastOf(a, limit) + b, limit) == LastOf(a + b, limit)
  {
    if |a| > limit {
      assert a == a[..|a| - limit] + LastOf(a, limit);
      assert a + b == a[..|a| - limit] + (LastOf(a, limit) + b);
    }
  }

  lemma LastOfShort<T>(s: seq<T>, n: nat)
    requires |s| <= n
    ensures LastOf(s, n) == s
  {
  }

  /** Appending keeps the last bytes of the whole. */
  lemma AppendKeepsLast(dst: string, src: string, limit: int, short: bool)
    ensures limit > 0 ==> AppendLimited(dst, src, limit, short).text == LastOf(dst + src, limit)
    ensures limit > 0 ==>
              (AppendLimited(dst, src, limit, short).shortRead <==> short || |src| >= limit || |dst + src| > limit)
    ensures limit <= 0 ==> AppendLimited(dst, src, limit, short) == OutputLine("", short || src != "")
  {
  }

  /** A line of the output that arrives in pieces, one append each. */
  function Fed(pieces: seq<string>, limit: nat): OutputLine {
    if pieces == [] then OutputLine("", false)
    else
      var n := |pieces| - 1;
      var l := Fed(pieces[..n], limit);
      AppendLimited(l.text, pieces[n], limit, l.shortRead)
  }

  /** One piece alone has at least the allowed length. */
  ghost predicate OneFills(pieces: seq<string>, limit: nat) {
    exists i :: 0 <= i < |pieces| && |pieces[i]| >= limit
  }

  /** However a line arrives, its last bytes are kept; it is flagged exactly when it is too long
      or one piece alone has the allowed length. */
  lemma {:induction false} FedIsExact(pieces: seq<string>, limit: nat)
    requires limit > 0
    ensures Fed(pieces, limit).text == LastOf(Concat(pieces), limit)
    ensures Fed(pieces, limit).shortRead <==> |Concat(pieces)| > limit || OneFills(pieces, limit)
    decreases |pieces|
  {
    hide LastOf, AppendLimited, Concat;
    if pieces == [] {
      NothingFed(limit);
    } else {
      var n := |pieces| - 1;
      var front, last := pieces[..n], pieces[n];
      FedIsExact(front, limit);
      assert pieces == front + [last];
      ConcatSnoc(front, last);
      var l := Fed(front, limit);
      AppendKeepsLast(l.text, last, limit, l.shortRead);
      LastOfSum(Concat(front), last, limit);
      FillsSnoc(front, last, limit);
    }
  }

  lemma NothingFed(limit: nat)
    ensures Concat([]) == "" && LastOf("", limit) == "" && Fed([], limit) == OutputLine("", false)
  {
  }

  lemma FillsSnoc(front: seq<string>, last: string, limit: nat)
    ensures OneFills(front + [last], limit) <==> OneFills(front, limit) || |last| >= limit
  {
    var all := front + [last];
    assert all[|front|] == last;
    if i :| 0 <= i < |front| && |front[i]| >= limit {
      assert all[i] == front[i];
    }
  }

  lemma PieceIsShorter(pieces: seq<string>, i: nat)
    requires i < |pieces|
    ensures |pieces[i]| <= |Concat(pieces)|
  {
    if i > 0 {
      PieceIsShorter(pieces[1..], i - 1);
    }
  }

  /** The flag of a line says whether bytes are missing, except exactly for a line of the allowed
      length that arrived as one piece. */
  lemma ShortFlagIsHonestExactly(pieces: seq<string>, limit: nat)
    requires limit > 0
    ensures (Fed(pieces, limit).shortRead <==> |Concat(pieces)| > limit)
            <==> !(|Concat(pieces)| == limit && exists i :: 0 <= i < |pieces| && |pieces[i]| == limit)
  {
    FedIsExact(pieces, limit);
    forall i | 0 <= i < |pieces| ensures |pieces[i]| <= |Concat(pieces)| {
      PieceIsShorter(pieces, i);
    }
  }

  /** So two ways to deliver the same line can differ in the flag. */
  lemma ShortFlagDependsOnChunks()
    ensures Fed(["ab"], 2) == OutputLine("ab", true) && Fed(["a", "b"], 2) == OutputLine("ab", false)
  {
    assert ["ab"][..0] == [] && ["a", "b"][..1] == ["a"] && ["a"][..0] == [];
    assert Fed(["a"], 2) == OutputLine("a", false) by { assert "" + "a" == "a"; }
    assert "a" + "b" == "ab";
  }

  // --------------------------------------------------------------------- the ring

  lemma ModShift(a: nat, m: nat)
    requires a < m
    ensures a % m == a && (a + m) % m == a
  {
  }

  /** Which of `n` lines added to a ring of `size` slots is in slot `k`, when `next` is the
      slot the next line goes to once the ring is full. */
  function Origin(k: nat, next: nat, n: nat, size: nat): int {
    if n <= size then k else if k < next then n - next + k else n - size - next + k
  }

  ghost predicate Holds(slots: seq<OutputLine>, next: nat, count: nat, added: seq<OutputLine>) {
    && count == Min(|added|, |slots|)
    && (next == 0 || next < |slots|) && (|added| <= |slots| ==> next == 0)
    && forall k :: 0 <= k < count ==> slots[k] == added[Origin(k, next, |added|, |slots|)]
  }

  lemma HoldsNext(slots: seq<OutputLine>, next: nat, added: seq<OutputLine>, line: OutputLine)
    requires slots != [] && Holds(slots, next, |slots|, added) && |added| >= |slots|
    ensures Holds(slots[next := line], (next + 1) % |slots|, |slots|, added + [line])
  {
    if next + 1 == |slots| {
      ModShift(0, |slots|);
    } else {
      ModShift(next + 1, |slots|);
    }
  }

  lemma HoldsRoom(slots: seq<OutputLine>, added: seq<OutputLine>, line: OutputLine)
    requires |added| < |slots| && Holds(slots, 0, |added|, added)
    ensures Holds(slots[|added| := line], 0, |added| + 1, added + [line])
  {
  }

  /** The oldest line is in slot `next`, and the others follow it around the ring. */
  lemma InOrder(slots: seq<OutputLine>, next: nat, added: seq<OutputLine>, i: nat)
    requires Holds(slots, next, |slots|, added) && |added| >= |slots| && i < |slots|
    ensures (next + i) % |slots| < |slots|
    ensures slots[(next + i) % |slots|] == added[|added| - |slots| + i]
  {
    if next + i < |slots| {
      ModShift(next + i, |slots|);
    } else {
      ModShift(next + i - |slots|, |slots|);
    }
  }

  ghost predicate AnyShort(ls: seq<OutputLine>) {
    exists l :: l in ls && l.shortRead
  }

  lemma AnyShortSnoc(ls: seq<OutputLine>, l: OutputLine)
    ensures AnyShort(ls + [l]) <==> AnyShort(ls) || l.shortRead
  {
    assert l in ls + [l];
    if x :| x in ls && x.shortRead {
      assert x in ls + [l];
    }
  }

  class OutputLineRing {
    const lines: array<OutputLine>
    var next: nat
    var count: nat
    var truncated: bool
    var lineShortRead: bool
    ghost var added: seq<OutputLine>

    /** The ring holds the newest lines, and its flags speak of all lines ever added. */
    ghost predicate Valid()
      reads this, lines
    {
      && Holds(lines[..], next, count, added)
      && (truncated <==> |added| > lines.Length)
      && (lineShortRead <==> AnyShort(added))
    }

    constructor (maxLines: nat)
      ensures Valid() && added == [] && lines.Length == maxLines && fresh(lines)
    {
      lines := new OutputLine[maxLines](_ => OutputLine("", false));
      next, count, truncated, lineShortRead := 0, 0, false, false;
      added := [];
    }

    method Add(line: OutputLine)
      requires Valid()
      modifies this, lines
      ensures Valid() && added == old(added) + [line]
    {
      hide AnyShort;
      AnyShortSnoc(added, line);
      ghost var before, slots := added, lines[..];
      added := added + [line];
      if lines.Length == 0 {
        truncated := true;
        if line.shortRead {
          lineShortRead := true;
        }
        return;
      }
      if line.shortRead {
        lineShortRead := true;
      }
      if count < lines.Length {
        HoldsRoom(slots, before, line);
        lines[count] := line;
        assert lines[..] == slots[count := line];
        count := count + 1;
        return;
      }
      HoldsNext(slots, next, before, line);
      lines[next] := line;
      assert lines[..] == slots[next := line];
      next := (next + 1) % lines.Length;
      truncated := true;
    }

    /** The newest lines, oldest first. */
    method TakeSnapshot() returns (s: Snapshot)
      requires Valid()
      ensures s == Snapshot(LastOf(added, lines.Length), None, |added| > lines.Length, AnyShort(added))
    {
      hide AnyShort;
      var out := [];
      ghost var newest := LastOf(added, lines.Length);
      if count < lines.Length {
        out := lines[..count];
        assert out == newest;
      } else {
        for i := 0 to count
          invariant out == newest[..i]
        {
          InOrder(lines[..], next, added, i);
          out := out + [lines[(next + i) % lines.Length]];
          assert newest[..i + 1] == newest[..i] + [newest[i]];
        }
      }
      s := Snapshot(out, None, truncated, lineShortRead);
    }
  }

  // -------------------------------------------------------------------- the stream

  datatype Limits = Limits(maxLines: int, maxLineBytes: int, maxTailBytes: int, channelSize: int)

  const DEFAULT_LINES := 2000
  const DEFAULT_TAIL_LINES := 200

  /** Every limit that is not positive is replaced by its default. */
  function Normalized(l: Limits): (r: Limits)
    ensures r.maxLines > 0 && r.maxLineBytes > 0 && r.maxTailBytes > 0 && r.channelSize > 0
  {
    Limits(if l.maxLines <= 0 then DEFAULT_LINES else l.maxLines,
           if l.maxLineBytes <= 0 then 8192 else l.maxLineBytes,
           if l.maxTailBytes <= 0 then 65536 else l.maxTailBytes,
           if l.channelSize <= 0 then 64 else l.channelSize)
  }

  /** `stored` are the stored forms of `full`. */
  ghost predicate StoresAll(stored: seq<OutputLine>, full: seq<string>, limit: nat) {
    |stored| == |full| && forall i :: 0 <= i < |stored| ==> Stores(stored[i], full[i], limit)
  }

  function IndexOfNewline(s: string): (i: int)
    ensures -1 <= i < |s|
    ensures i >= 0 ==> s[i] == '\n' && '\n' !in s[..i]
    ensures i < 0 ==> '\n' !in s
  {
    if s == "" then -1
    else if s[0] == '\n' then 0
    else
      var i := IndexOfNewline(s[1..]);
      if i < 0 then -1 else i + 1
  }

  /** The lines of the output as they arrive: the pieces of those a newline has ended, and the
      pieces of the line in progress. */
  datatype Cut = Cut(done: seq<seq<string>>, open: seq<string>)

  /** One more chunk: each newline in it ends a line. */
  function AddChunk(c: Cut, chunk: string): Cut
    decreases |chunk|
  {
    if chunk == "" then c
    else
      var i := IndexOfNewline(chunk);
      if i < 0 then c.(open := c.open + [chunk])
      else AddChunk(Cut(c.done + [c.open + [chunk[..i]]], []), chunk[i + 1..])
  }

  function CutOf(chunks: seq<string>): Cut {
    if chunks == [] then Cut([], [])
    else AddChunk(CutOf(chunks[..|chunks| - 1]), chunks[|chunks| - 1])
  }

  /** All lines, the one in progress included if it holds anything. */
  function LinesOf(c: Cut): seq<seq<string>> {
    c.done + if Concat(c.open) == "" then [] else [c.open]
  }

  function Wholes(lines: seq<seq<string>>): (r: seq<string>)
    ensures |r| == |lines| && forall i :: 0 <= i < |lines| ==> r[i] == Concat(lines[i])
  {
    seq(|lines|, i requires 0 <= i < |lines| => Concat(lines[i]))
  }

  function FedAll(lines: seq<seq<string>>, limit: nat): (r: seq<OutputLine>)
    ensures |r| == |lines| && forall i :: 0 <= i < |lines| ==> r[i] == Fed(lines[i], limit)
  {
    seq(|lines|, i requires 0 <= i < |lines| => Fed(lines[i], limit))
  }

  /** The cut is one of the text `t`. */
  ghost predicate CutsText(c: Cut, t: string) {
    Wholes(c.done) == Completed(t) && Concat(c.open) == Current(t)
  }

  lemma CutEnds(c: Cut, t: string, piece: string)
    requires CutsText(c, t) && '\n' !in piece
    ensures CutsText(c.(open := c.open + [piece]), t + piece)
    ensures CutsText(Cut(c.done + [c.open + [piece]], []), t + piece + "\n")
  {
    hide Completed, Current;
    ConcatSnoc(c.open, piece);
    CurrentGrows(t, piece);
    CurrentEnds(t + piece);
    assert Wholes(c.done + [c.open + [piece]]) == Wholes(c.done) + [Concat(c.open + [piece])];
  }

  lemma {:induction false} AddChunkCuts(c: Cut, t: string, chunk: string)
    requires CutsText(c, t)
    ensures CutsText(AddChunk(c, chunk), t + chunk)
    decreases |chunk|
  {
    hide CutsText;
    var i := IndexOfNewline(chunk);
    if chunk == "" {
      assert t + chunk == t;
    } else if i < 0 {
      CutEnds(c, t, chunk);
    } else {
      CutEnds(c, t, chunk[..i]);
      assert t + chunk[..i] + "\n" + chunk[i + 1..] == t + chunk;
      AddChunkCuts(Cut(c.done + [c.open + [chunk[..i]]], []), t + chunk[..i] + "\n", chunk[i + 1..]);
    }
  }

  /** The lines a cut collects are the lines of the text. */
  lemma {:induction false} CutOfCuts(chunks: seq<string>)
    ensures CutsText(CutOf(chunks), Concat(chunks))
    ensures Wholes(LinesOf(CutOf(chunks))) == RawLines(Concat(chunks))
    decreases |chunks|
  {
    if chunks != [] {
      hide CutsText;
      var n := |chunks| - 1;
      CutOfCuts(chunks[..n]);
      AddChunkCuts(CutOf(chunks[..n]), Concat(chunks[..n]), chunks[n]);
      assert chunks == chunks[..n] + [chunks[n]];
      ConcatSnoc(chunks[..n], chunks[n]);
    }
    LinesAreRaw(CutOf(chunks), Concat(chunks));
  }

  lemma LinesAreRaw(c: Cut, t: string)
    requires CutsText(c, t)
    ensures Wholes(LinesOf(c)) == RawLines(t)
  {
    hide Completed, Current, Concat;
  }

  /** The worker has taken in the lines of a cut: the ring has been given the completed ones, and
      the line in progress is kept aside. */
  ghost predicate TakenIn(added: seq<OutputLine>, partial: OutputLine, c: Cut, limit: nat) {
    added == FedAll(c.done, limit) && partial == Fed(c.open, limit)
  }

  lemma TakePiece(added: seq<OutputLine>, partial: OutputLine, c: Cut, piece: string, limit: nat)
    requires TakenIn(added, partial, c, limit)
    ensures var line := AppendLimited(partial.text, piece, limit, partial.shortRead);
            && TakenIn(added, line, c.(open := c.open + [piece]), limit)
            && TakenIn(added + [line], OutputLine("", false), Cut(c.done + [c.open + [piece]], []), limit)
  {
    hide AppendLimited, Fed, FedAll;
    FedSnoc(c.open, piece, limit);
    FedAllSnoc(c.done, c.open + [piece], limit);
    assert Fed([], limit) == OutputLine("", false) by { NothingFed(limit); }
  }

  lemma FedSnoc(pieces: seq<string>, piece: string, limit: nat)
    ensures var l := Fed(pieces, limit);
            Fed(pieces + [piece], limit) == AppendLimited(l.text, piece, limit, l.shortRead)
  {
    assert (pieces + [piece])[..|pieces|] == pieces;
  }

  lemma FedAllSnoc(lines: seq<seq<string>>, line: seq<string>, limit: nat)
    ensures FedAll(lines + [line], limit) == FedAll(lines, limit) + [Fed(line, limit)]
    ensures FedAll(lines + [], limit) == FedAll(lines, limit) + []
  {
  }

  lemma FedStores(pieces: seq<string>, limit: nat)
    requires limit > 0
    ensures Stores(Fed(pieces, limit), Concat(pieces), limit)
  {
    hide LastOf, Fed, Concat;
    FedIsExact(pieces, limit);
    forall i | 0 <= i < |pieces| ensures |pieces[i]| <= |Concat(pieces)| {
      PieceIsShorter(pieces, i);
    }
  }

  lemma FedStoresAll(lines: seq<seq<string>>, limit: nat)
    requires limit > 0
    ensures StoresAll(FedAll(lines, limit), Wholes(lines), limit)
  {
    hide Stores;
    forall i | 0 <= i < |lines| ensures Stores(FedAll(lines, limit)[i], Wholes(lines)[i], limit) {
      FedStores(lines[i], limit);
    }
  }

  /** What was taken in stores the lines of the text. */
  lemma TakenStores(added: seq<OutputLine>, partial: OutputLine, chunks: seq<string>, limit: nat)
    requires limit > 0 && TakenIn(added, partial, CutOf(chunks), limit)
    ensures StoresAll(added, Completed(Concat(chunks)), limit)
    ensures Stores(partial, Current(Concat(chunks)), limit)
  {
    hide Stores, StoresAll;
    CutOfCuts(chunks);
    FedStoresAll(CutOf(chunks).done, limit);
    FedStores(CutOf(chunks).open, limit);
  }

  /** Cuts one chunk into lines. */
  method ProcessChunk(ring: OutputLineRing, partialIn: OutputLine, chunkIn: string, limit: nat, ghost cut: Cut)
    returns (partial: OutputLine)
    requires limit > 0 && ring.Valid() && TakenIn(ring.added, partialIn, cut, limit)
    modifies ring, ring.lines
    ensures ring.Valid() && TakenIn(ring.added, partial, AddChunk(cut, chunkIn), limit)
  {
    hide OutputLineRing.Valid, TakenIn, AppendLimited;
    partial := partialIn;
    var chunk := chunkIn;
    ghost var c := cut;
    while |chunk| > 0
      invariant ring.Valid() && TakenIn(ring.added, partial, c, limit)
      invariant AddChunk(c, chunk) == AddChunk(cut, chunkIn)
      decreases |chunk|
    {
      var idx := IndexOfNewline(chunk);
      if idx < 0 {
        TakePiece(ring.added, partial, c, chunk, limit);
        return AppendLimited(partial.text, chunk, limit, partial.shortRead);
      }
      TakePiece(ring.added, partial, c, chunk[..idx], limit);
      partial := AppendLimited(partial.text, chunk[..idx], limit, partial.shortRead);
      ring.Add(partial);
      partial := OutputLine("", false);
      c := Cut(c.done + [c.open + [chunk[..idx]]], []);
      chunk := chunk[idx + 1..];
    }
  }

  // --------------------------------------------------------------- published snapshots

  /** The line in progress, if there is anything to show of it. */
  function PartialLines(partial: OutputLine): seq<OutputLine> {
    if partial.text != "" || partial.shortRead then [partial] else []
  }

  function SnapshotOf(added: seq<OutputLine>, partial: OutputLine, maxLines: nat): Snapshot {
    Snapshot(LastOf(added, maxLines),
             if PartialLines(partial) == [] then None else Some(partial),
             |added| > maxLines,
             (exists i :: 0 <= i < |added| && added[i].shortRead) || partial.shortRead)
  }

  /** All lines a snapshot shows. */
  function Shown(s: Snapshot): seq<OutputLine> {
    s.lines + if s.partial.Some? then [s.partial.value] else []
  }

  lemma AnyShortByIndex(ls: seq<OutputLine>)
    ensures AnyShort(ls) <==> exists i :: 0 <= i < |ls| && ls[i].shortRead
  {
    if l :| l in ls && l.shortRead {
      var i :| 0 <= i < |ls| && ls[i] == l;
    }
  }

  method Publish(ring: OutputLineRing, partial: OutputLine) returns (snap: Snapshot)
    requires ring.Valid()
    ensures snap == SnapshotOf(ring.added, partial, ring.lines.Length)
  {
    hide AnyShort;
    AnyShortByIndex(ring.added);
    snap := ring.TakeSnapshot();
    if |partial.text| > 0 || partial.shortRead {
      snap := snap.(partial := Some(partial));
      if partial.shortRead {
        snap := snap.(lineShortRead := true);
      }
    }
  }

  datatype TailResult = TailResult(text: string, tailLines: int, linesTruncated: bool, lineShortRead: bool,
                                   tailShortRead: bool, droppedChunks: nat, available: bool)

  function LinesWanted(tailLines: int): (n: nat)
    ensures n > 0
  {
    if tailLines <= 0 then DEFAULT_TAIL_LINES else tailLines
  }

  /** Showing the line in progress shows all lines. */
  lemma LastLine(added: seq<OutputLine>, partial: OutputLine, c: Cut, limit: nat)
    requires limit > 0 && TakenIn(added, partial, c, limit)
    ensures added + PartialLines(partial) == FedAll(LinesOf(c), limit)
    ensures PartialLines(partial) == [] ==> partial == OutputLine("", false)
  {
    hide Fed, Concat;
    FedStores(c.open, limit);
    assert partial.shortRead ==> Concat(c.open) != "";
    assert partial.text == "" <==> Concat(c.open) == "";
    FedAllSnoc(c.done, c.open, limit);
  }

  // ------------------------------------------------------------------------ the tail

  function Texts(ls: seq<OutputLine>): (r: seq<string>)
    ensures |r| == |ls| && forall i :: 0 <= i < |ls| ==> r[i] == ls[i].text
  {
    seq(|ls|, i requires 0 <= i < |ls| => ls[i].text)
  }

  /** Whole lines from the end while they fit; of a last line that does not fit, its last bytes. */
  function LimitedTail(ls: seq<string>, maxBytes: nat): string {
    if |JoinNL(ls)| <= maxBytes then JoinNL(ls)
    else if |ls| <= 1 then LastOf(JoinNL(ls), maxBytes)
    else LimitedTail(ls[1..], maxBytes)
  }

  function TailOf(snap: Snapshot, tailLines: nat, maxTailBytes: int, dropped: nat): TailResult {
    var selected := LastOf(Shown(snap), tailLines);
    var texts := Texts(selected);
    TailResult(if maxTailBytes <= 0 then "" else LimitedTail(texts, maxTailBytes), tailLines,
               snap.linesTruncated,
               snap.lineShortRead || exists i :: 0 <= i < |selected| && selected[i].shortRead,
               selected != [] && (maxTailBytes <= 0 || |JoinNL(texts)| > maxTailBytes),
               dropped, Shown(snap) != [])
  }

  lemma JoinNLFrom(ls: seq<string>, i: nat)
    requires i < |ls|
    ensures |JoinNL(ls[i..])| == |ls[i]| + (if i + 1 < |ls| then 1 else 0) + |JoinNL(ls[i + 1..])|
    ensures i + 1 == |ls| ==> JoinNL(ls[i..]) == ls[i]
  {
    assert ls[i..][1..] == ls[i + 1..];
  }

  /** Dropping lines in front never lengthens the joined text. */
  lemma JoinNLShrinks(ls: seq<string>, i: nat)
    requires i <= |ls|
    ensures |JoinNL(ls[i..])| <= |JoinNL(ls)|
    decreases i
  {
    if i == 0 {
      assert ls[0..] == ls;
    } else {
      JoinNLShrinks(ls, i - 1);
      JoinNLFrom(ls, i - 1);
    }
  }

  /** The lines from `i` on are the last ones that fit. */
  lemma {:induction false} LimitedTailIs(ls: seq<string>, i: nat, maxBytes: nat)
    requires 0 < i < |ls| && |JoinNL(ls[i..])| <= maxBytes < |JoinNL(ls[i - 1..])|
    ensures LimitedTail(ls, maxBytes) == JoinNL(ls[i..])
    decreases |ls|
  {
    hide JoinNL;
    JoinNLShrinks(ls, i - 1);
    assert ls[i..] == ls[1..][i - 1..];
    if i == 1 {
      assert ls[0..] == ls;
      AllFits(ls[1..], maxBytes);
    } else {
      assert ls[i - 1..] == ls[1..][i - 2..];
      LimitedTailIs(ls[1..], i - 1, maxBytes);
    }
  }

  lemma {:induction false} LimitedTailCuts(ls: seq<string>, maxBytes: nat)
    requires ls != [] && |ls[|ls| - 1]| > maxBytes
    ensures LimitedTail(ls, maxBytes) == LastOf(ls[|ls| - 1], maxBytes)
    decreases |ls|
  {
    var n := |ls| - 1;
    JoinNLShrinks(ls, n);
    JoinNLFrom(ls, n);
    if n > 0 {
      LimitedTailCuts(ls[1..], maxBytes);
    }
  }

  method LinesToLimitedText(lines: seq<OutputLine>, maxBytes: int)
    returns (text: string, lineShort: bool, tailShort: bool)
    ensures lineShort <==> exists i :: 0 <= i < |lines| && lines[i].shortRead
    ensures text == if maxBytes <= 0 then "" else LimitedTail(Texts(lines), maxBytes)
    ensures tailShort <==> lines != [] && (maxBytes <= 0 || |JoinNL(Texts(lines))| > maxBytes)
  {
    hide JoinNL, LimitedTail, LastOf;
    lineShort := false;
    for k := 0 to |lines|
      invariant !lineShort && forall i :: 0 <= i < k ==> !lines[i].shortRead
    {
      if lines[k].shortRead {
        lineShort := true;
        break;
      }
    }
    ghost var texts := Texts(lines);
    if |lines| == 0 {
      EmptyTail(maxBytes);
      return "", lineShort, false;
    }
    if maxBytes <= 0 {
      return "", lineShort, true;
    }
    var kept: seq<string>, used, i := [], 0, |lines|;
    NothingKept(texts);
    while i > 0
      invariant 0 <= i <= |lines| && kept == texts[i..]
      invariant used == |JoinNL(kept)| <= maxBytes
      decreases i
    {
      var line := lines[i - 1].text;
      var extra := |line| + if |kept| > 0 then 1 else 0;
      JoinNLFrom(texts, i - 1);
      if used + extra > maxBytes {
        JoinNLShrinks(texts, i - 1);
        if |kept| == 0 {
          LimitedTailCuts(texts, maxBytes);
          LastOfIs(line, maxBytes);
          return line[|line| - maxBytes..], lineShort, true;
        }
        LimitedTailIs(texts, i, maxBytes);
        return JoinNL(kept), lineShort, true;
      }
      kept := [line] + kept;
      used := used + extra;
      i := i - 1;
    }
    assert texts[0..] == texts;
    AllFits(texts, maxBytes);
    return JoinNL(kept), lineShort, false;
  }

  lemma EmptyTail(maxBytes: int)
    ensures maxBytes > 0 ==> LimitedTail([], maxBytes) == ""
    ensures Texts([]) == []
  {
  }

  lemma NothingKept(ls: seq<string>)
    ensures JoinNL([]) == "" && ls[|ls|..] == []
  {
  }

  lemma LastOfIs(s: string, n: nat)
    requires n <= |s|
    ensures LastOf(s, n) == s[|s| - n..]
  {
  }

  lemma AllFits(ls: seq<string>, maxBytes: nat)
    requires |JoinNL(ls)| <= maxBytes
    ensures LimitedTail(ls, maxBytes) == JoinNL(ls)
  {
  }

  method TailOutputSnapshot(snap: Snapshot, tailLines: int, maxTailBytes: int, dropped: nat)
    returns (r: TailResult)
    ensures r == TailOf(snap, if tailLines <= 0 then 200 else tailLines, maxTailBytes, dropped)
  {
    hide LimitedTail, JoinNL, LastOf, Texts;
    var wanted := LinesWanted(tailLines);
    var lines := snap.lines;
    if snap.partial.Some? {
      lines := lines + [snap.partial.value];
    } else {
      assert lines + [] == lines;
    }
    var start := 0;
    if |lines| > wanted {
      start := |lines| - wanted;
    }
    var selected := lines[start..];
    LastOfFrom(lines, wanted, start);
    var text, lineShort, tailShort := LinesToLimitedText(selected, maxTailBytes);
    r := TailResult(text, wanted, snap.linesTruncated, snap.lineShortRead || lineShort, tailShort,
                    dropped, |lines| > 0);
  }

  lemma StartsEmpty(maxLineBytes: nat, maxLines: nat)
    ensures Concat([]) == ""
    ensures TakenIn([], OutputLine("", false), CutOf([]), maxLineBytes)
    ensures SnapshotOf([], OutputLine("", false), maxLines) == EMPTY
  {
  }

  lemma ConcatFirst(chunks: seq<string>)
    requires chunks != []
    ensures Concat(chunks) == chunks[0] + Concat(chunks[1..])
  {
  }

  lemma CutOfSnoc(chunks: seq<string>, chunk: string)
    ensures CutOf(chunks + [chunk]) == AddChunk(CutOf(chunks), chunk)
  {
    assert (chunks + [chunk])[..|chunks|] == chunks;
  }

  lemma NormalizedTwice(l: Limits)
    ensures Normalized(Normalized(l)) == Normalized(l)
  {
  }

  /** The stream between the command and its readers. Each method is one atomic step: writers
      and `CloseAndFlush` hold the close lock, `Receive` and `Finish` are the worker's. */
  class JobOutputStream {
    const limits: Limits
    const ring: OutputLineRing
    var queue: seq<string>
    var closed: bool
    var dropped: nat
    var partial: OutputLine
    var finished: bool
    var snapshot: Snapshot
    ghost var offered: string
    ghost var accepted: string
    ghost var taken: string
    ghost var chunks: seq<string>

    /** Writers: what was accepted is what was taken in and what is still in the channel. */
    ghost predicate ChannelValid()
      reads this
    {
      && |queue| <= limits.channelSize
      && accepted == taken + Concat(queue) && taken == Concat(chunks)
      && (dropped == 0 ==> accepted == offered)
      && (dropped > 0 ==> |accepted| < |offered|)
      && (finished ==> closed && queue == [])
    }

    /** The worker: the ring and the line in progress hold what was taken in. */
    ghost predicate WorkerValid()
      reads this`chunks, this`partial, this`snapshot, this`finished, ring, ring.lines
    {
      && limits == Normalized(limits) && ring.lines.Length == limits.maxLines && ring.Valid()
      && (finished ==> partial == OutputLine("", false)
                       && ring.added == FedAll(LinesOf(CutOf(chunks)), limits.maxLineBytes))
      && (!finished ==> TakenIn(ring.added, partial, CutOf(chunks), limits.maxLineBytes))
      && snapshot == SnapshotOf(ring.added, partial, limits.maxLines)
    }

    ghost predicate Valid()
      reads this, ring, ring.lines
    {
      ChannelValid() && WorkerValid()
    }

    constructor (wanted: Limits)
      ensures Valid() && limits == Normalized(wanted) && fresh(ring) && fresh(ring.lines)
      ensures limits == Limits(if wanted.maxLines <= 0 then 2000 else wanted.maxLines,
                               if wanted.maxLineBytes <= 0 then 8192 else wanted.maxLineBytes,
                               if wanted.maxTailBytes <= 0 then 65536 else wanted.maxTailBytes,
                               if wanted.channelSize <= 0 then 64 else wanted.channelSize)
      ensures offered == "" && accepted == "" && taken == "" && !closed && !finished && dropped == 0
    {
      hide TakenIn, SnapshotOf, Concat, CutOf;
      NormalizedTwice(wanted);
      StartsEmpty(Normalized(wanted).maxLineBytes, Normalized(wanted).maxLines);
      limits := Normalized(wanted);
      var r := new OutputLineRing(Normalized(wanted).maxLines);
      ring := r;
      queue, closed, dropped, partial, finished, snapshot := [], false, 0, OutputLine("", false), false, EMPTY;
      offered, accepted, taken, chunks := "", "", "", [];
    }

    /** Never blocks: a chunk that finds the channel full is dropped and counted. */
    method Write(p: string)
      requires Valid()
      modifies this`queue, this`dropped, this`accepted, this`offered
      ensures Valid()
      ensures offered == old(offered) + (if closed then "" else p)
      ensures accepted == old(accepted) + (if closed || dropped > old(dropped) then "" else p)
      ensures dropped > old(dropped) ==> !closed && p != "" && |queue| == limits.channelSize
      ensures dropped <= old(dropped) + 1
    {
      hide JobOutputStream.WorkerValid, Concat;
      if |p| == 0 || closed {
        assert offered + "" == offered && accepted + "" == accepted;
        if !closed {
          assert p == "";
        }
        return;
      }
      offered := offered + p;
      if |queue| < limits.channelSize {
        ConcatSnoc(queue, p);
        assert taken + (Concat(queue) + p) == (taken + Concat(queue)) + p;
        queue := queue + [p];
        accepted := accepted + p;
      } else {
        dropped := dropped + 1;
        assert accepted + "" == accepted;
      }
    }

    /** No chunk is accepted after this; those in the channel are still taken in. */
    method CloseAndFlush()
      requires Valid()
      modifies this`closed
      ensures Valid() && closed
    {
      closed := true;
    }

    /** The worker takes the next chunk and publishes. */
    method Receive()
      requires Valid() && queue != [] && !finished
      modifies this, ring, ring.lines
      ensures Valid() && taken == old(taken) + old(queue)[0] && queue == old(queue)[1..]
      ensures chunks == old(chunks) + [old(queue)[0]]
      ensures accepted == old(accepted) && offered == old(offered) && dropped == old(dropped)
      ensures closed == old(closed) && !finished
    {
      hide TakenIn, FedAll, CutOf, LinesOf, SnapshotOf, AddChunk, Concat, Normalized, OutputLineRing.Valid;
      NormalizedTwice(limits);
      ConcatFirst(queue);
      var chunk := queue[0];
      partial := ProcessChunk(ring, partial, chunk, limits.maxLineBytes, CutOf(chunks));
      CutOfSnoc(chunks, chunk);
      ConcatSnoc(chunks, chunk);
      assert taken + (chunk + Concat(queue[1..])) == (taken + chunk) + Concat(queue[1..]);
      taken := taken + chunk;
      chunks := chunks + [chunk];
      queue := queue[1..];
      snapshot := Publish(ring, partial);
    }

    /** The worker has seen the channel closed and empty: the line in progress becomes a line. */
    method Finish()
      requires Valid() && closed && queue == [] && !finished
      modifies this, ring, ring.lines
      ensures Valid() && finished && taken == accepted && chunks == old(chunks)
      ensures accepted == old(accepted) && offered == old(offered) && dropped == old(dropped)
    {
      hide TakenIn, FedAll, CutOf, LinesOf, SnapshotOf, OutputLineRing.Valid;
      LastLine(ring.added, partial, CutOf(chunks), limits.maxLineBytes);
      assert ring.added + [] == ring.added;
      if |partial.text| > 0 || partial.shortRead {
        ring.Add(partial);
        partial := OutputLine("", false);
      }
      finished := true;
      assert taken + "" == taken;
      snapshot := Publish(ring, partial);
    }

    method Tail(tailLines: int) returns (r: TailResult)
      requires Valid()
      ensures r == TailOf(snapshot, if tailLines <= 0 then 200 else tailLines, limits.maxTailBytes, dropped)
    {
      r := TailOutputSnapshot(snapshot, tailLines, limits.maxTailBytes, dropped);
    }
  }

  // -------------------------------------------------------------------- what readers see

  /** The lines `full`, each cut to its last `limit` bytes. */
  function CutLines(full: seq<string>, limit: nat): (r: seq<string>)
    ensures |r| == |full| && forall i :: 0 <= i < |full| ==> r[i] == LastOf(full[i], limit)
  {
    seq(|full|, i requires 0 <= i < |full| => LastOf(full[i], limit))
  }

  /** While the job runs, the newest snapshot depends only on the bytes taken in so far, not on
      how they were cut into chunks. */
  lemma RunningSnapshot(s: JobOutputStream)
    requires s.Valid() && !s.finished
    ensures var snap, t := s.snapshot, s.taken;
            && Texts(snap.lines) == CutLines(LastOf(Completed(t), s.limits.maxLines), s.limits.maxLineBytes)
            && (snap.partial.None? <==> Current(t) == "")
            && (snap.partial.Some? ==> snap.partial.value.text == LastOf(Current(t), s.limits.maxLineBytes))
            && (snap.linesTruncated <==> |Completed(t)| > s.limits.maxLines)
  {
    hide OutputLineRing.Valid, Completed, Current, TakenIn;
    TakenStores(s.ring.added, s.partial, s.chunks, s.limits.maxLineBytes);
  }

  /** After the final flush it holds the last lines of everything accepted, each cut to its last bytes. */
  lemma FinalSnapshot(s: JobOutputStream)
    requires s.Valid() && s.finished
    ensures var snap, raw := s.snapshot, RawLines(s.accepted);
            && Texts(snap.lines) == CutLines(LastOf(raw, s.limits.maxLines), s.limits.maxLineBytes)
            && snap.partial.None?
            && (snap.linesTruncated <==> |raw| > s.limits.maxLines)
  {
    hide OutputLineRing.Valid, RawLines, FedAll;
    assert s.taken + "" == s.taken;
    CutOfCuts(s.chunks);
    FedStoresAll(LinesOf(CutOf(s.chunks)), s.limits.maxLineBytes);
  }

  /** Stored lines with clear flags are the full lines. */
  lemma UnflaggedAreFull(stored: seq<OutputLine>, full: seq<string>, limit: nat)
    requires StoresAll(stored, full, limit)
    requires forall i :: 0 <= i < |stored| ==> !stored[i].shortRead
    ensures Texts(stored) == full
  {
    forall i | 0 <= i < |stored| ensures stored[i].text == full[i] {
      LastOfShort(full[i], limit);
    }
  }

  lemma TextsOfLast(ls: seq<OutputLine>, n: nat)
    ensures Texts(LastOf(ls, n)) == LastOf(Texts(ls), n)
  {
  }

  /** The lines in the ring and the line in progress are all lines of the output, as they arrived. */
  lemma AllShownIs(s: JobOutputStream)
    requires s.Valid()
    ensures s.ring.added + PartialLines(s.partial) == FedAll(LinesOf(CutOf(s.chunks)), s.limits.maxLineBytes)
    ensures PartialLines(s.partial) == [] ==> !s.partial.shortRead && s.partial.text == ""
    ensures StoresAll(s.ring.added + PartialLines(s.partial), RawLines(s.taken), s.limits.maxLineBytes)
  {
    hide OutputLineRing.Valid, TakenIn, FedAll, LinesOf, CutOf, StoresAll, RawLines;
    if s.finished {
      assert s.ring.added + [] == s.ring.added;
    } else {
      LastLine(s.ring.added, s.partial, CutOf(s.chunks), s.limits.maxLineBytes);
    }
    CutOfCuts(s.chunks);
    FedStoresAll(LinesOf(CutOf(s.chunks)), s.limits.maxLineBytes);
  }

  /** A tail whose flags are all clear is exactly the last lines of the output. */
  lemma ClearFlagsMeanComplete(s: JobOutputStream, tailLines: nat)
    requires s.Valid()
    requires var r := TailOf(s.snapshot, tailLines, s.limits.maxTailBytes, s.dropped);
             !r.linesTruncated && !r.lineShortRead && !r.tailShortRead
    ensures TailOf(s.snapshot, tailLines, s.limits.maxTailBytes, s.dropped).text
            == JoinNL(LastOf(RawLines(s.taken), tailLines))
    ensures s.dropped == 0 && s.finished ==> s.taken == s.offered
  {
    hide OutputLineRing.Valid, RawLines, JoinNL, LimitedTail, TakenIn, StoresAll, LastOf, Texts, FedAll, LinesOf, CutOf;
    var snap, raw, limit := s.snapshot, RawLines(s.taken), s.limits.maxLineBytes;
    AllShownIs(s);
    assert s.finished ==> s.taken + "" == s.taken;
    LastOfShort(s.ring.added, s.limits.maxLines);
    assert StoresAll(Shown(snap), raw, limit);
    UnflaggedAreFull(Shown(snap), raw, limit);
    var selected := LastOf(Shown(snap), tailLines);
    TextsOfLast(Shown(snap), tailLines);
    if selected != [] {
      AllFits(Texts(selected), s.limits.maxTailBytes);
    } else {
      EmptyTail(s.limits.maxTailBytes);
      NothingKept([]);
    }
  }

  /** A line of the output, given by its pieces, that gets flagged. */
  ghost predicate Flagged(pieces: seq<string>, limit: nat) {
    |Concat(pieces)| > limit || OneFills(pieces, limit)
  }

  /** The lines of a stream, each as the pieces the accepted chunks cut it into, are the lines of
      the output, and each is kept and flagged by itself; the flag of the stream is set exactly when
      one of them is too long or has a piece of the allowed length. */
  lemma LineFlagIsExact(s: JobOutputStream)
    requires s.Valid()
    ensures var lines, limit := LinesOf(CutOf(s.chunks)), s.limits.maxLineBytes;
            && Wholes(lines) == RawLines(s.taken)
            && s.ring.added + PartialLines(s.partial) == FedAll(lines, limit)
            && (s.snapshot.lineShortRead <==> exists i :: 0 <= i < |lines| && Flagged(lines[i], limit))
  {
    hide OutputLineRing.Valid, RawLines, TakenIn, StoresAll, LinesOf, CutOf, OneFills;
    var lines, limit := LinesOf(CutOf(s.chunks)), s.limits.maxLineBytes;
    AllShownIs(s);
    CutOfCuts(s.chunks);
    FlagOfAll(s.ring.added, s.partial, s.limits.maxLines);
    FlagsOfFed(lines, limit);
  }

  lemma FlagsOfFed(lines: seq<seq<string>>, limit: nat)
    requires limit > 0
    ensures (exists i :: 0 <= i < |FedAll(lines, limit)| && FedAll(lines, limit)[i].shortRead)
            <==> exists i :: 0 <= i < |lines| && Flagged(lines[i], limit)
  {
    hide Concat, Fed, OneFills;
    forall i | 0 <= i < |lines| ensures FedAll(lines, limit)[i].shortRead <==> Flagged(lines[i], limit) {
      FedIsExact(lines[i], limit);
    }
  }

  /** A line of exactly the allowed length that arrived as one piece. */
  ghost predicate JustFits(pieces: seq<string>, limit: nat) {
    |Concat(pieces)| == limit && exists i :: 0 <= i < |pieces| && |pieces[i]| == limit
  }

  /** So the flag of the stream says whether a line lost bytes, except exactly when no line did
      and a line of the allowed length arrived as one piece. */
  lemma LineFlagIsHonestExactly(s: JobOutputStream)
    requires s.Valid()
    ensures var lines, raw, limit := LinesOf(CutOf(s.chunks)), RawLines(s.taken), s.limits.maxLineBytes;
            (s.snapshot.lineShortRead <==> exists i :: 0 <= i < |raw| && |raw[i]| > limit)
            <==> (exists i :: 0 <= i < |raw| && |raw[i]| > limit)
                 || !(exists i :: 0 <= i < |lines| && JustFits(lines[i], limit))
  {
    hide JobOutputStream.Valid, RawLines, LinesOf, CutOf, FedAll;
    var lines, limit := LinesOf(CutOf(s.chunks)), s.limits.maxLineBytes;
    LineFlagIsExact(s);
    LimitIsPositive(s);
    forall i | 0 <= i < |lines|
      ensures Flagged(lines[i], limit) <==> |Wholes(lines)[i]| > limit || JustFits(lines[i], limit)
    {
      FlaggedIs(lines[i], limit);
    }
  }

  lemma LimitIsPositive(s: JobOutputStream)
    requires s.Valid()
    ensures s.limits.maxLineBytes > 0
  {
    hide OutputLineRing.Valid, TakenIn, FedAll;
  }

  lemma FlaggedIs(pieces: seq<string>, limit: nat)
    ensures Flagged(pieces, limit) <==> |Concat(pieces)| > limit || JustFits(pieces, limit)
  {
    forall i | 0 <= i < |pieces| ensures |pieces[i]| <= |Concat(pieces)| {
      PieceIsShorter(pieces, i);
    }
  }

  lemma FlagOfAll(added: seq<OutputLine>, partial: OutputLine, maxLines: nat)
    requires PartialLines(partial) == [] ==> !partial.shortRead
    ensures var all := added + PartialLines(partial);
            SnapshotOf(added, partial, maxLines).lineShortRead <==> exists i :: 0 <= i < |all| && all[i].shortRead
  {
    var all := added + PartialLines(partial);
    assert forall i :: 0 <= i < |added| ==> all[i] == added[i];
    if PartialLines(partial) != [] {
      assert all[|added|] == partial;
    }
  }

  /** With a positive cap the text is a suffix of the joined lines within the cap, and the flag
      says whether anything was cut off. */
  lemma {:induction false} TailIsBoundedSuffix(ls: seq<string>, maxBytes: nat)
    requires maxBytes > 0
    ensures var text, all := LimitedTail(ls, maxBytes), JoinNL(ls);
            && |text| <= maxBytes && |text| <= |all| && text == all[|all| - |text|..]
            && (|all| > maxBytes <==> text != all)
    decreases |ls|
  {
    if |JoinNL(ls)| > maxBytes && |ls| > 1 {
      TailIsBoundedSuffix(ls[1..], maxBytes);
      var text, rest := LimitedTail(ls[1..], maxBytes), JoinNL(ls[1..]);
    }
  }

  /** What a tail reports: of the lines shown, as many of the last ones as were asked for, joined by
      newlines, or what of that text the cap lets through; and three flags, of which the last says
      exactly whether the cap, or a cap that is not positive, cut anything off. */
  lemma TailIsExact(snap: Snapshot, tailLines: nat, maxTailBytes: int, dropped: nat)
    ensures var r := TailOf(snap, tailLines, maxTailBytes, dropped);
            var shown := snap.lines + if snap.partial.Some? then [snap.partial.value] else [];
            var selected := if |shown| > tailLines then shown[|shown| - tailLines..] else shown;
            var all := JoinNL(Texts(selected));
            && r.tailLines == tailLines && r.droppedChunks == dropped
            && r.linesTruncated == snap.linesTruncated && (r.available <==> shown != [])
            && (r.lineShortRead <==> snap.lineShortRead || exists i :: 0 <= i < |selected| && selected[i].shortRead)
            && (maxTailBytes <= 0 ==> r.text == "" && (r.tailShortRead <==> selected != []))
            && (maxTailBytes > 0 ==>
                  && |r.text| <= maxTailBytes && |r.text| <= |all| && r.text == all[|all| - |r.text|..]
                  && (r.tailShortRead <==> r.text != all) && (r.tailShortRead <==> |all| > maxTailBytes))
  {
    hide TailOf, LastOf, LimitedTail, JoinNL, Texts;
    var shown := snap.lines + if snap.partial.Some? then [snap.partial.value] else [];
    var selected := if |shown| > tailLines then shown[|shown| - tailLines..] else shown;
    LastOfFrom(shown, tailLines, if |shown| > tailLines then |shown| - tailLines else 0);
    TailFieldsAre(snap, selected, tailLines, maxTailBytes, dropped);
    if maxTailBytes > 0 {
      CappedTextIs(selected, maxTailBytes);
    }
  }

  lemma TailFieldsAre(snap: Snapshot, selected: seq<OutputLine>, tailLines: nat, maxTailBytes: int, dropped: nat)
    requires selected == LastOf(Shown(snap), tailLines)
    ensures var r := TailOf(snap, tailLines, maxTailBytes, dropped);
            && r.tailLines == tailLines && r.droppedChunks == dropped
            && r.linesTruncated == snap.linesTruncated && (r.available <==> Shown(snap) != [])
            && (r.lineShortRead <==> snap.lineShortRead || exists i :: 0 <= i < |selected| && selected[i].shortRead)
            && r.text == (if maxTailBytes <= 0 then "" else LimitedTail(Texts(selected), maxTailBytes))
            && (r.tailShortRead
                <==> selected != [] && (maxTailBytes <= 0 || |JoinNL(Texts(selected))| > maxTailBytes))
  {
    hide LimitedTail, JoinNL, Texts, Shown, LastOf;
  }

  lemma CappedTextIs(selected: seq<OutputLine>, maxBytes: int)
    requires maxBytes > 0
    ensures var all := JoinNL(Texts(selected));
            var text := LimitedTail(Texts(selected), maxBytes);
            && |text| <= maxBytes && |text| <= |all| && text == all[|all| - |text|..]
            && (|all| > maxBytes <==> text != all) && (|all| > maxBytes ==> selected != [])
  {
    hide LimitedTail, JoinNL, Texts;
    TailIsBoundedSuffix(Texts(selected), maxBytes);
    if selected == [] {
      EmptyTail(maxBytes);
      NothingKept([]);
    }
  }

  /** A cap that cuts keeps as many whole lines as fit, but at least the end of the last one: if
      the last line fits, one more whole line would not. */
  lemma {:induction false} CutTailIsLongest(ls: seq<string>, maxBytes: nat)
    requires maxBytes > 0 && |JoinNL(ls)| > maxBytes
    ensures ls != []
    ensures |ls[|ls| - 1]| > maxBytes ==>
              LimitedTail(ls, maxBytes) == LastOf(ls[|ls| - 1], maxBytes)
    ensures |ls[|ls| - 1]| <= maxBytes ==>
              exists i :: 0 < i < |ls| && LimitedTail(ls, maxBytes) == JoinNL(ls[i..])
                          && |JoinNL(ls[i..])| <= maxBytes < |JoinNL(ls[i - 1..])|
    decreases |ls|
  {
    assert ls != [] by { NothingKept([]); }
    hide JoinNL, LimitedTail;
    var n := |ls| - 1;
    if |ls[n]| > maxBytes {
      LimitedTailCuts(ls, maxBytes);
    } else {
      JoinNLFrom(ls, n);
      var i := LastFit(ls, n, maxBytes);
      LimitedTailIs(ls, i, maxBytes);
    }
  }

  /** The first index from which the lines fit, when the last line does. */
  lemma LastFit(ls: seq<string>, k: nat, maxBytes: nat) returns (i: nat)
    requires k < |ls| && |JoinNL(ls[k..])| <= maxBytes < |JoinNL(ls)|
    ensures 0 < i < |ls| && |JoinNL(ls[i..])| <= maxBytes < |JoinNL(ls[i - 1..])|
    decreases k
  {
    hide JoinNL;
    assert ls[0..] == ls;
    if |JoinNL(ls[k - 1..])| > maxBytes {
      i := k;
    } else {
      i := LastFit(ls, k - 1, maxBytes);
    }
  }
}
