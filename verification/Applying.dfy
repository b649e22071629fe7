/**
 Exactly when a patch applies, and to what: each hunk must find the lines it covers where its
 header says, and puts the lines it emits in their place.
 */
module Applying {
  import opened Text
  import opened Lines
  import opened Patch
  import opened RoundTrip

  /** The lines a body leaves: context and insertions. */
  function Emitted(ls: seq<PatchLine>): seq<string> {
    if ls == [] then []
    else (if ls[0].kind == Delete then [] else [ls[0].text]) + Emitted(ls[1..])
  }

  /** Index of the first line a hunk covers: line numbers count from 1, and 0 means the start. */
  function FirstLine(oldStart: nat): nat {
    if oldStart <= 1 then 0 else oldStart - 1
  }

  /** The old lines from `pos` on hold what the hunks cover, one after another. */
  ghost predicate HunksFit(file: seq<string>, hunks: seq<Hunk>, pos: nat)
    decreases |hunks|
  {
    hunks == []
    || (var covered := Consumed(hunks[0].lines);
        var first := FirstLine(hunks[0].oldStart);
        && pos <= first && first + |covered| <= |file|
        && file[first..first + |covered|] == covered
        && HunksFit(file, hunks[1..], first + |covered|))
  }

  /** The old lines from `pos` on, with what the hunks cover replaced by what they emit. */
  function Patched(file: seq<string>, hunks: seq<Hunk>, pos: nat): seq<string>
    requires pos <= |file| && HunksFit(file, hunks, pos)
    decreases |hunks|
  {
    if hunks == [] then file[pos..]
    else
      var first := FirstLine(hunks[0].oldStart);
      file[pos..first] + Emitted(hunks[0].lines)
      + Patched(file, hunks[1..], first + |Consumed(hunks[0].lines)|)
  }

  /** `covered` is what the file holds from `pos` on. */
  predicate HeldAt(file: seq<string>, covered: seq<string>, pos: nat) {
    pos + |covered| <= |file| && file[pos..pos + |covered|] == covered
  }

  lemma HeldCons(file: seq<string>, l: string, covered: seq<string>, pos: nat)
    ensures HeldAt(file, [l] + covered, pos)
            <==> pos < |file| && file[pos] == l && HeldAt(file, covered, pos + 1)
  {
    if pos + 1 + |covered| <= |file| {
      assert file[pos..pos + 1 + |covered|] == [file[pos]] + file[pos + 1..pos + 1 + |covered|];
      if HeldAt(file, [l] + covered, pos) {
        assert file[pos] == ([l] + covered)[0];
        assert covered == ([l] + covered)[1..] == file[pos + 1..pos + 1 + |covered|];
      }
    }
  }

  /** A hunk body applies exactly where the file holds what it covers, and emits what it leaves. */
  lemma {:induction false} BodyAppliesExactly(file: seq<string>, ls: seq<PatchLine>, pos: nat)
    requires pos <= |file|
    ensures ApplyBody(file, ls, pos).Ok? <==> HeldAt(file, Consumed(ls), pos)
    ensures ApplyBody(file, ls, pos).Ok? ==>
              ApplyBody(file, ls, pos).value == (Emitted(ls), pos + |Consumed(ls)|)
    decreases |ls|
  {
    hide HeldAt;
    if ls == [] {
      assert HeldAt(file, [], pos) by { NothingHeld(file, pos); }
    } else {
      var l := ls[0];
      assert [] + Emitted(ls[1..]) == Emitted(ls[1..]) && [] + Consumed(ls[1..]) == Consumed(ls[1..]);
      if l.kind == Insert {
        assert Consumed(ls) == Consumed(ls[1..]);
        BodyAppliesExactly(file, ls[1..], pos);
      } else {
        HeldCons(file, l.text, Consumed(ls[1..]), pos);
        if pos < |file| {
          BodyAppliesExactly(file, ls[1..], pos + 1);
        }
      }
    }
  }

  lemma NothingHeld(file: seq<string>, pos: nat)
    requires pos <= |file|
    ensures HeldAt(file, [], pos)
  {
    assert file[pos..pos] == [];
  }

  /** The same for all hunks of a file. */
  lemma {:induction false} HunksApplyExactly(file: seq<string>, hunks: seq<Hunk>, pos: nat)
    requires pos <= |file|
    ensures ApplyHunks(file, hunks, pos).Ok? <==> HunksFit(file, hunks, pos)
    ensures HunksFit(file, hunks, pos) ==> ApplyHunks(file, hunks, pos) == Ok(Patched(file, hunks, pos))
    decreases |hunks|
  {
    hide ApplyBody, Consumed, Emitted;
    if hunks != [] {
      var h := hunks[0];
      assert Target(h) == FirstLine(h.oldStart);
      if Target(h) <= |file| {
        BodyAppliesExactly(file, h.lines, Target(h));
        var next := Target(h) + |Consumed(h.lines)|;
        if next <= |file| {
          HunksApplyExactly(file, hunks[1..], next);
        }
      }
    }
  }

  /** A patch applies to a text if and only if its hunks fit the text's lines; the result is the
      patched lines. */
  lemma PatchAppliesExactly(original: string, f: FilePatch)
    ensures Apply(original, f).Ok? <==> HunksFit(SplitLines(original), f.hunks, 0)
    ensures HunksFit(SplitLines(original), f.hunks, 0) ==>
              Apply(original, f) == Ok(Join(Patched(SplitLines(original), f.hunks, 0)))
  {
    hide SplitLines, ApplyHunks, HunksFit;
    HunksApplyExactly(SplitLines(original), f.hunks, 0);
  }

  // ---------------------------------------------------------------- new files

  /** A body of insertions alone. */
  function Insertions(texts: seq<string>): (r: seq<PatchLine>)
    ensures |r| == |texts| && forall i :: 0 <= i < |r| ==> r[i] == PatchLine(Insert, texts[i])
  {
    seq(|texts|, i requires 0 <= i < |texts| => PatchLine(Insert, texts[i]))
  }

  lemma {:induction false} InsertionsAre(texts: seq<string>)
    ensures Consumed(Insertions(texts)) == [] && Emitted(Insertions(texts)) == texts
    decreases |texts|
  {
    if texts != [] {
      InsertionsAre(texts[1..]);
      assert Insertions(texts)[1..] == Insertions(texts[1..]);
      assert texts == [texts[0]] + texts[1..];
    }
  }

  /** A hunk at old line 0 that only inserts always applies: it makes a new file, and in a file that
      is there it puts its lines in front. */
  lemma NewFileApplies(original: string, texts: seq<string>, oldCount: nat, newStart: nat, newCount: nat,
                       oldPath: string, newPath: string)
    ensures var f := FilePatch(oldPath, newPath, [Hunk(0, oldCount, newStart, newCount, Insertions(texts))]);
            Apply(original, f) == Ok(Join(texts) + original)
  {
    hide SplitLines, Join, Consumed, Emitted;
    var hunks := [Hunk(0, oldCount, newStart, newCount, Insertions(texts))];
    var lines := SplitLines(original);
    InsertionsAre(texts);
    assert lines[0..0] == [] && lines[0..] == lines && hunks[1..] == [];
    assert Patched(lines, hunks, 0) == texts + lines;
    PatchAppliesExactly(original, FilePatch(oldPath, newPath, hunks));
    JoinSum(texts, lines);
    JoinSplit(original);
  }

  // ------------------------------------------------------------- header forms

  /** A number as it is read: too large a one is clamped. */
  ghost predicate IsNumber(digits: string, n: nat) {
    digits != "" && AllDigits(digits) && n == Min(DecimalValue(digits), MAX_INT)
  }

  /** A start and a count, or a start alone, which counts 1. */
  ghost predicate IsRange(text: string, start: nat, count: nat) {
    || (IsNumber(text, start) && count == 1)
    || (exists digits, counted ::
          IsNumber(digits, start) && IsNumber(counted, count) && text == digits + ("," + counted))
  }

  lemma RangeIsRead(s: string, start: nat, count: nat, rest: string)
    requires rest != "" && rest[0] == ' '
    ensures ParseRange(s) == Some(Range(start, count, rest)) <==> exists x :: IsRange(x, start, count) && s == x + rest
  {
    hide ParseRange, IsRange;
    if ParseRange(s) == Some(Range(start, count, rest)) {
      var x := RangeIsText(s);
    }
    if x :| IsRange(x, start, count) && s == x + rest {
      TextIsRange(x, start, count, rest);
    }
  }

  lemma TextIsRange(x: string, start: nat, count: nat, rest: string)
    requires IsRange(x, start, count) && rest != "" && rest[0] == ' '
    ensures ParseRange(x + rest) == Some(Range(start, count, rest))
  {
    hide ParseRange, DecimalValue, AllDigits;
    if IsNumber(x, start) && count == 1 {
      PlainRange(x, rest);
    } else {
      var digits, counted :|
        IsNumber(digits, start) && IsNumber(counted, count) && x == digits + ("," + counted);
      CountedRange(digits, counted, rest);
      assert digits + ("," + counted) + rest == digits + ("," + (counted + rest));
    }
  }

  lemma RangeIsText(s: string) returns (x: string)
    requires ParseRange(s).Some?
    ensures var r := ParseRange(s).value; IsRange(x, r.start, r.count) && s == x + r.rest
  {
    hide DecimalValue, DigitRun, IsRange, AllDigits;
    var r := ParseRange(s).value;
    var n := DigitRun(s);
    var digits, rest := s[..n], s[n..];
    assert s == digits + rest;
    if rest != "" && rest[0] == ',' && DigitRun(rest[1..]) > 0 {
      var m := DigitRun(rest[1..]);
      var counted := rest[1..][..m];
      assert rest == "," + (counted + r.rest);
      x := digits + ("," + counted);
      RegroupRange(digits, counted, r.rest);
      CountedIsRange(digits, counted, r.start, r.count);
    } else {
      x := digits;
      PlainIsRange(digits, r.start);
    }
  }

  lemma RegroupRange(digits: string, counted: string, rest: string)
    ensures digits + ("," + (counted + rest)) == digits + ("," + counted) + rest
  {
  }

  lemma CountedIsRange(digits: string, counted: string, start: nat, count: nat)
    requires IsNumber(digits, start) && IsNumber(counted, count)
    ensures IsRange(digits + ("," + counted), start, count)
  {
    hide IsNumber;
  }

  lemma PlainIsRange(digits: string, start: nat)
    requires IsNumber(digits, start)
    ensures IsRange(digits, start, 1)
  {
    hide IsNumber;
  }

  lemma PlainRange(digits: string, rest: string)
    requires digits != "" && AllDigits(digits) && rest != "" && rest[0] == ' '
    ensures ParseRange(digits + rest) == Some(Range(Atoi(digits), 1, rest))
  {
    hide DecimalValue, DigitRun;
    DigitRunOfSum(digits, rest);
    assert (digits + rest)[..|digits|] == digits && (digits + rest)[|digits|..] == rest;
  }

  lemma CountedRange(digits: string, counted: string, rest: string)
    requires digits != "" && AllDigits(digits) && counted != "" && AllDigits(counted)
    requires rest != "" && rest[0] == ' '
    ensures ParseRange(digits + ("," + (counted + rest))) == Some(Range(Atoi(digits), Atoi(counted), rest))
  {
    hide DecimalValue, DigitRun;
    var tail := "," + (counted + rest);
    DigitRunOfSum(digits, tail);
    DigitRunOfSum(counted, rest);
    assert (digits + tail)[..|digits|] == digits && (digits + tail)[|digits|..] == tail;
    assert tail[1..] == counted + rest;
    assert (counted + rest)[..|counted|] == counted && (counted + rest)[|counted|..] == rest;
  }

  /** The form of a hunk header; anything may follow it. */
  ghost predicate IsHeader(header: string, h: Hunk) {
    exists x, y, after ::
      && IsRange(x, h.oldStart, h.oldCount) && IsRange(y, h.newStart, h.newCount)
      && header == "@@ -" + (x + (" +" + (y + (" @@" + after))))
  }

  /** A line is read as a hunk header exactly when it has that form. */
  lemma HeaderIsReadExactly(header: string, h: Hunk)
    requires h.lines == []
    ensures ParseHeader(header) == Some(h) <==> IsHeader(header, h)
  {
    hide ParseRange, IsRange;
    if ParseHeader(header) == Some(h) {
      var o := ParseRange(header[4..]).value;
      var n := ParseRange(o.rest[2..]).value;
      RangeIsRead(header[4..], o.start, o.count, o.rest);
      RangeIsRead(o.rest[2..], n.start, n.count, n.rest);
      var x :| IsRange(x, o.start, o.count) && header[4..] == x + o.rest;
      var y :| IsRange(y, n.start, n.count) && o.rest[2..] == y + n.rest;
      var after := n.rest[3..];
      assert n.rest == " @@" + after && o.rest == " +" + o.rest[2..] && header == "@@ -" + header[4..];
    }
    if IsHeader(header, h) {
      var x, y, after :|
        && IsRange(x, h.oldStart, h.oldCount) && IsRange(y, h.newStart, h.newCount)
        && header == "@@ -" + (x + (" +" + (y + (" @@" + after))));
      var tail := " @@" + after;
      var middle := " +" + (y + tail);
      assert header[4..] == x + middle && middle[2..] == y + tail;
      RangeIsRead(header[4..], h.oldStart, h.oldCount, middle);
      RangeIsRead(middle[2..], h.newStart, h.newCount, tail);
    }
  }
}
