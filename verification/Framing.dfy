/**
 Framing of command output on a persistent shell's terminal: the bounded output
 buffer, the two incremental scanners, and the one-shot scan they refine.
 */
module Framing {
  import opened Text

  // ------------------------------------------------------------ bounded output

  /** At most `limit` leading bytes of `text`; a negative limit keeps nothing. */
  function Head(text: string, limit: int): (h: string)
    ensures h <= text
    ensures |h| == Min(|text|, Max(limit, 0))
  {
    text[..Min(|text|, Max(limit, 0))]
  }

  /** `output` is the part of `text` the limit allows, and the flag says whether that is all of it;
      a limit of zero switches output off without counting as truncation. */
  ghost predicate Bounded(text: string, limit: int, output: string, truncated: bool) {
    && output == Head(text, limit)
    && (truncated <==> limit != 0 && |text| > |output|)
  }

  class LimitBuffer {
    var buf: string
    const limit: int
    var truncated: bool
    ghost var written: string

    /** The buffer holds the head of everything written. */
    ghost predicate Valid()
      reads this
    {
      buf == Head(written, limit)
    }

    /** The flag is set exactly when something written was not kept. */
    ghost predicate Exact()
      reads this
    {
      truncated <==> |written| > |buf|
    }

    /** Everything in `done` was written, unless output is switched off. */
    ghost predicate Holds(done: string)
      reads this
    {
      written == if limit != 0 then done else ""
    }

    lemma Report(text: string)
      requires Valid() && Exact() && Holds(text)
      ensures Bounded(text, limit, buf, truncated)
    {
    }

    constructor (limit: int)
      ensures Valid() && Exact() && written == "" && this.limit == limit
    {
      this.limit := limit;
      buf, truncated, written := "", false, "";
    }

    method Write(p: string)
      requires Valid()
      modifies this
      ensures Valid() && written == old(written) + p
      ensures old(Exact()) && (p != "" || |old(buf)| < limit) ==> Exact()
      ensures truncated == (old(truncated) || |p| > limit - |old(buf)| || limit <= |old(buf)|)
    {
      var remaining := limit - |buf|;
      if remaining <= 0 {
        truncated := true;
      } else if |p| > remaining {
        truncated := true;
        buf := buf + p[..remaining];
      } else {
        buf := buf + p;
      }
      written := written + p;
    }
  }

  // ------------------------------------------------------------ one-shot scans

  /** What a scan of a whole stream finds: the output before the completion frame and
      the exit code it carries, or no completion frame. */
  datatype Scanned = Complete(text: string, code: int) | Incomplete {
    function After(skipped: string): Scanned {
      match this
      case Complete(text, code) => Complete(skipped + text, code)
      case Incomplete => Incomplete
    }
  }

  /** The exit code on the status line of a frame; a line that is not a number is an echo. */
  function ExitCode(statusLine: string): Option<int> {
    var t := TrimSpace(statusLine);
    if t == "" || !AllDigits(t) then None
    else if DecimalValue(t) > MAX_INT then Some(-1)
    else Some(DecimalValue(t) as int)
  }

  /** What follows a sentinel: not enough yet, an echo taking `k` more bytes, or the exit code. */
  datatype Tail = Partial | Echo(k: nat) | Status(code: int)

  function Judge(tail: string): (v: Tail)
    ensures v.Echo? ==> v.k <= |tail|
  {
    if tail == "" then Partial
    else if tail[0] != ':' then Echo(0)
    else
      var line := FindLineBreak(tail[1..]);
      if line < 0 then Partial
      else
        match ExitCode(tail[1..][..line])
        case None => Echo(line + 2)
        case Some(code) => Status(code)
  }

  /** Left-to-right scan of a complete stream for a completion frame. */
  function Scan(s: string, sentinel: string): Scanned
    requires sentinel != ""
    decreases |s|
  {
    var idx := Find(s, sentinel);
    if idx < 0 then Incomplete
    else
      var st := idx + |sentinel|;
      match Judge(s[st..])
      case Partial => Incomplete
      case Echo(k) => Scan(s[st + k..], sentinel).After(s[..st + k])
      case Status(code) => Complete(s[..idx], code)
  }

  /** The same for the plain start-up marker: output before its first occurrence. */
  function ScanMarker(s: string, marker: string): Option<string> {
    var idx := Find(s, marker);
    if idx < 0 then None else Some(s[..idx])
  }

  // ------------------------------------------------------------ terminal reads

  datatype ReadOutcome = Fine | WouldBlock | Broken

  /** One round of the read loop: a read of some bytes, or a cancelled context. */
  datatype Round = Read(data: string, outcome: ReadOutcome) | Cancel

  predicate Ends(r: Round) {
    r.Cancel? || r.outcome.Broken?
  }

  /** Everything the terminal delivers up to the first failed or cancelled round. */
  function Stream(rounds: seq<Round>): string {
    if rounds == [] || rounds[0].Cancel? then ""
    else if rounds[0].outcome.Broken? then rounds[0].data
    else rounds[0].data + Stream(rounds[1..])
  }

  /** How a scanner comes back; `Waiting` means the given rounds did not make it return. */
  datatype Return = Found | PromptError | Failed | Cancelled | Waiting

  /** The way the rounds run out when no frame is found. */
  function Exhausted(rounds: seq<Round>): Return {
    if rounds == [] then Waiting
    else if rounds[0].Cancel? then Cancelled
    else if rounds[0].outcome.Broken? then Failed
    else Exhausted(rounds[1..])
  }

  /** What was delivered, and how the rounds ran out, round by round: all data up to the first round
      that ends the reading, the data of a failed read included. */
  lemma {:induction false} ReadingIs(rounds: seq<Round>, k: nat)
    requires k <= |rounds| && forall i :: 0 <= i < k ==> !Ends(rounds[i])
    requires k < |rounds| ==> Ends(rounds[k])
    ensures Exhausted(rounds) == if k == |rounds| then Waiting else if rounds[k].Cancel? then Cancelled else Failed
    ensures Stream(rounds) == Delivered(rounds[..k]) + if k < |rounds| && rounds[k].Read? then rounds[k].data else ""
    decreases |rounds|
  {
    if k > 0 {
      ReadingIs(rounds[1..], k - 1);
      assert rounds[..k][1..] == rounds[1..][..k - 1] && rounds[..k][0] == rounds[0];
    } else {
      assert rounds[..0] == [];
      if |rounds| > 0 && rounds[0].Read? {
        assert "" + rounds[0].data == rounds[0].data;
      }
    }
  }

  function Delivered(rounds: seq<Round>): string {
    if rounds == [] then "" else (if rounds[0].Read? then rounds[0].data else "") + Delivered(rounds[1..])
  }

  /** The start-up marker is found at its first occurrence. */
  lemma MarkerIsFirst(s: string, marker: string, text: string)
    ensures ScanMarker(s, marker) == Some(text)
            <==> text <= s && OccursAt(s, marker, |text|) && forall i :: 0 <= i < |text| ==> !OccursAt(s, marker, i)
    ensures ScanMarker(s, marker) == None <==> forall i :: !OccursAt(s, marker, i)
  {
    hide Find, OccursAt;
    assert text <= s <==> |text| <= |s| && s[..|text|] == text;
    var idx := Find(s, marker);
    OccursWithin(s, marker, idx);
    if idx >= 0 {
      assert |s[..idx]| == idx && s[..idx] <= s;
    }
  }

  lemma OccursWithin(s: string, pat: string, i: int)
    ensures OccursAt(s, pat, i) ==> 0 <= i <= |s|
  {
  }

  const PROMPT := "Ignore insecure directories and files and continue"

  // ------------------------------------------------ one step of the scan at a time

  /** Scanning may resume after `k` bytes without changing what is found. */
  ghost predicate Skips(p: string, k: nat, rest: string, sentinel: string)
    requires sentinel != "" && k <= |p|
  {
    Scan(p + rest, sentinel) == Scan(p[k..] + rest, sentinel).After(p[..k])
  }

  lemma AfterTwice(r: Scanned, a: string, b: string)
    ensures r.After(b).After(a) == r.After(a + b)
  {
    if r.Complete? {
      assert a + (b + r.text) == (a + b) + r.text;
    }
  }

  lemma SlicesOfSum(p: string, rest: string, k: nat)
    requires k <= |p|
    ensures (p + rest)[k..] == p[k..] + rest && (p + rest)[..k] == p[..k]
  {
  }

  /** Once the bytes at hand decide about a sentinel, more bytes change nothing. */
  lemma JudgeInExtension(tail: string, rest: string)
    requires !Judge(tail).Partial?
    ensures Judge(tail + rest) == Judge(tail)
  {
    hide FindLineBreak, ExitCode;
    var all := tail + rest;
    assert tail != "" && all[0] == tail[0];
    if tail[0] == ':' {
      var line := tail[1..];
      assert all[1..] == line + rest;
      FindLineBreakInExtension(line, rest);
      var b := FindLineBreak(line);
      assert b >= 0 && (line + rest)[..b] == line[..b];
    }
  }

  /** `Scan`, unfolded at a decided sentinel. */
  lemma ScanUnfolds(s: string, idx: nat, sentinel: string)
    requires sentinel != "" && Find(s, sentinel) == idx
    ensures var st := idx + |sentinel|;
            var v := Judge(s[st..]);
            && (v.Echo? ==> Scan(s, sentinel) == Scan(s[st + v.k..], sentinel).After(s[..st + v.k]))
            && (v.Status? ==> Scan(s, sentinel) == Complete(s[..idx], v.code))
            && (v.Partial? ==> Scan(s, sentinel) == Incomplete)
  {
    hide Judge;
  }

  /** The sentinel found in the bytes at hand is found, with the same verdict, in any extension. */
  lemma DecidedInExtension(p: string, idx: nat, v: Tail, rest: string, sentinel: string)
    requires sentinel != "" && Find(p, sentinel) == idx
    requires !v.Partial? && Judge(p[idx + |sentinel|..]) == v
    ensures Find(p + rest, sentinel) == idx
    ensures Judge((p + rest)[idx + |sentinel|..]) == v
  {
    hide Judge;
    var st := idx + |sentinel|;
    FindInExtension(p, sentinel, rest);
    JudgeInExtension(p[st..], rest);
    SlicesOfSum(p, rest, st);
  }

  /** An echo in the bytes at hand is one step of the scan of the whole stream. */
  lemma EchoStep(p: string, idx: nat, k: nat, rest: string, sentinel: string)
    requires sentinel != "" && Find(p, sentinel) == idx
    requires Judge(p[idx + |sentinel|..]) == Echo(k)
    ensures Skips(p, idx + |sentinel| + k, rest, sentinel)
  {
    hide Judge, Scan;
    DecidedInExtension(p, idx, Echo(k), rest, sentinel);
    ScanUnfolds(p + rest, idx, sentinel);
    SlicesOfSum(p, rest, idx + |sentinel| + k);
  }

  /** A status in the bytes at hand is the end of the scan of the whole stream. */
  lemma StatusStep(p: string, idx: nat, code: int, rest: string, sentinel: string)
    requires sentinel != "" && Find(p, sentinel) == idx
    requires Judge(p[idx + |sentinel|..]) == Status(code)
    ensures Scan(p + rest, sentinel) == Complete(p[..idx], code)
  {
    hide Judge, Scan;
    DecidedInExtension(p, idx, Status(code), rest, sentinel);
    ScanUnfolds(p + rest, idx, sentinel);
    SlicesOfSum(p, rest, idx);
  }

  lemma SlicesOfSuffix(q: string, k: nat, e: nat)
    requires k + e <= |q|
    ensures q[k..][e..] == q[k + e..] && q[..k + e] == q[..k] + q[k..][..e]
  {
  }

  /** Bytes before the first occurrence are output whatever follows it. */
  lemma ScanLater(q: string, k: nat, sentinel: string)
    requires sentinel != "" && k <= |q|
    requires Find(q[k..], sentinel) >= 0 && Find(q, sentinel) == Find(q[k..], sentinel) + k
    ensures Scan(q, sentinel) == Scan(q[k..], sentinel).After(q[..k])
  {
    hide Judge, Scan;
    var q', idx := q[k..], Find(q[k..], sentinel);
    var st := idx + |sentinel|;
    SlicesOfSuffix(q, k, st);
    ScanUnfolds(q, k + idx, sentinel);
    ScanUnfolds(q', idx, sentinel);
    match Judge(q'[st..])
    case Echo(e) =>
      SlicesOfSuffix(q, k, st + e);
      AfterTwice(Scan(q'[st + e..], sentinel), q[..k], q'[..st + e]);
    case Status(_) =>
      SlicesOfSuffix(q, k, idx);
    case Partial =>
  }

  /** Occurrences in a suffix are the occurrences of the whole, moved. */
  lemma OccursLater(q: string, k: nat, i: int, pat: string)
    requires k <= |q| && 0 <= i
    ensures OccursAt(q[k..], pat, i) <==> OccursAt(q, pat, i + k)
  {
    if i + k + |pat| <= |q| {
      assert q[k..][i..i + |pat|] == q[i + k..i + k + |pat|];
    }
  }

  lemma FindLater(q: string, k: nat, pat: string)
    requires k <= |q|
    requires forall i :: 0 <= i < k ==> !OccursAt(q, pat, i)
    ensures Find(q, pat) == if Find(q[k..], pat) < 0 then -1 else Find(q[k..], pat) + k
  {
    var i, j := Find(q, pat), Find(q[k..], pat);
    if j >= 0 {
      OccursLater(q, k, j, pat);
      assert 0 <= i <= j + k;
    }
    if i >= 0 {
      assert k <= i;
      OccursLater(q, k, i - k, pat);
      assert 0 <= j <= i - k;
    }
  }

  /** Without an occurrence, all but the last |sentinel| - 1 bytes can be flushed. */
  lemma SkipPlain(p: string, k: nat, rest: string, sentinel: string)
    requires sentinel != "" && Find(p, sentinel) < 0
    requires k + |sentinel| <= |p| + 1
    ensures Skips(p, k, rest, sentinel)
    ensures Find(p[k..], sentinel) < 0
  {
    FindLater(p, k, sentinel);
    var q := p + rest;
    assert q[k..] == p[k..] + rest && q[..k] == p[..k];
    forall i | 0 <= i < k ensures !OccursAt(q, sentinel, i) {
      assert q[i..i + |sentinel|] == p[i..i + |sentinel|];
      assert !OccursAt(p, sentinel, i);
    }
    FindLater(q, k, sentinel);
    if Find(q[k..], sentinel) >= 0 {
      ScanLater(q, k, sentinel);
    }
  }

  // -------------------------------------------------------- incremental scanners

  /** What the terminal delivers after the bytes of round `i`. */
  ghost function RestOf(rounds: seq<Round>, i: nat): string
    requires i < |rounds|
  {
    if Ends(rounds[i]) then "" else Stream(rounds[i + 1..])
  }

  lemma RoundStep(rounds: seq<Round>, i: nat)
    requires i < |rounds|
    ensures Stream(rounds[i..]) == if rounds[i].Cancel? then "" else rounds[i].data + RestOf(rounds, i)
    ensures Exhausted(rounds[i..]) ==
            if rounds[i].Cancel? then Cancelled
            else if rounds[i].outcome.Broken? then Failed
            else Exhausted(rounds[i + 1..])
  {
    assert rounds[i..][1..] == rounds[i + 1..];
    if rounds[i].Read? {
      assert rounds[i].data + "" == rounds[i].data;
    }
  }

  lemma NoRounds(rounds: seq<Round>)
    requires rounds == []
    ensures Stream(rounds) == "" && Exhausted(rounds) == Waiting
  {
  }

  /** When nothing remains but undecided bytes, there is no frame. */
  lemma ReachedEnd(total: string, done: string, pending: string, sentinel: string)
    requires sentinel != "" && Reached(total, done, pending + "", sentinel)
    requires Scan(pending, sentinel) == Incomplete
    ensures Scan(total, sentinel) == Incomplete && total == done + pending
  {
    assert pending + "" == pending;
  }

  lemma PromptInStream(total: string, done: string, pending: string, rest: string, sentinel: string)
    requires sentinel != "" && Reached(total, done, pending + rest, sentinel)
    requires Find(pending, PROMPT) >= 0
    ensures Contains(total, PROMPT)
  {
    assert OccursAt(pending, PROMPT, Find(pending, PROMPT));
    assert total == done + pending + rest;
    ContainsInside(done, pending, rest, PROMPT);
  }

  lemma AfterNothing(r: Scanned)
    ensures r.After("") == r
  {
    if r.Complete? {
      assert "" + r.text == r.text;
    }
  }

  lemma ScanNothing(p: string, sentinel: string)
    requires sentinel != "" && (Find(p, sentinel) < 0 || p == "")
    ensures Scan(p, sentinel) == Incomplete
  {
  }

  lemma ContainsInside(a: string, b: string, c: string, pat: string)
    requires Contains(b, pat)
    ensures Contains(a + b + c, pat)
  {
    var i :| OccursAt(b, pat, i);
    assert (a + b + c)[|a| + i..|a| + i + |pat|] == b[i..i + |pat|];
    assert OccursAt(a + b + c, pat, |a| + i);
  }

  /** The bytes `done` are certainly output, and `left` is what remains to be scanned. */
  ghost predicate Reached(total: string, done: string, left: string, sentinel: string)
    requires sentinel != ""
  {
    && total == done + left
    && Scan(total, sentinel) == Scan(left, sentinel).After(done)
  }

  lemma ReachedInitially(total: string, sentinel: string)
    requires sentinel != ""
    ensures Reached(total, "", total, sentinel)
  {
    AfterNothing(Scan(total, sentinel));
  }

  lemma Advance(total: string, done: string, p: string, k: nat, rest: string, sentinel: string)
    requires sentinel != "" && k <= |p|
    requires Reached(total, done, p + rest, sentinel)
    requires Skips(p, k, rest, sentinel)
    ensures Reached(total, done + p[..k], p[k..] + rest, sentinel)
  {
    hide Scan;
    SlicesOfSum(p, rest, k);
    assert (p[..k] + p[k..]) == p;
    AfterTwice(Scan(p[k..] + rest, sentinel), done, p[..k]);
  }

  /** A frame found in what remains is the frame of the whole stream. */
  lemma Arrive(total: string, done: string, p: string, idx: nat, code: int, rest: string, sentinel: string)
    requires sentinel != "" && Find(p, sentinel) == idx
    requires Reached(total, done, p + rest, sentinel)
    requires Judge(p[idx + |sentinel|..]) == Status(code)
    ensures Scan(total, sentinel) == Complete(done + p[..idx], code)
  {
    hide Scan, Judge;
    StatusStep(p, idx, code, rest, sentinel);
  }

  /** Writes decided output unless output is switched off altogether. */
  method Emit(out: LimitBuffer, p: string)
    requires out.Valid() && out.Exact() && p != ""
    modifies out
    ensures out.Valid() && out.Exact()
    ensures forall done :: old(out.Holds(done)) ==> out.Holds(done + p)
  {
    if out.limit != 0 {
      out.Write(p);
    }
  }

  /** Works off the pending bytes: writes what is certainly output and keeps what is undecided,
      until the completion frame is found or more bytes are needed. */
  method ConsumePending(out: LimitBuffer, bytes: string, sentinel: string,
                        ghost total: string, ghost before: string, ghost rest: string)
    returns (pending: string, exitCode: Option<int>, ghost done: string)
    requires sentinel != "" && out.Valid() && out.Exact() && out.Holds(before)
    requires Reached(total, before, bytes + rest, sentinel)
    modifies out
    ensures out.Valid() && out.Exact() && out.Holds(done)
    ensures exitCode.Some? ==> Scan(total, sentinel) == Complete(done, exitCode.value)
    ensures exitCode.None? ==> Reached(total, done, pending + rest, sentinel)
    ensures exitCode.None? ==> Scan(pending, sentinel) == Incomplete
  {
    hide Judge, Scan, Reached, Skips, LimitBuffer.Valid, LimitBuffer.Exact;
    var keepBytes := |sentinel| - 1;
    pending, exitCode, done := bytes, None, before;
    while true
      invariant out.Valid() && out.Exact() && out.Holds(done)
      invariant Reached(total, done, pending + rest, sentinel)
      decreases |pending|
    {
      var idx := Find(pending, sentinel);
      if idx < 0 {
        break;
      }
      var st := idx + |sentinel|;
      match Judge(pending[st..]) {
        case Partial =>
          ScanUnfolds(pending, idx, sentinel);
          return;
        case Echo(k) =>
          Emit(out, pending[..st + k]);
          EchoStep(pending, idx, k, rest, sentinel);
          Advance(total, done, pending, st + k, rest, sentinel);
          done, pending := done + pending[..st + k], pending[st + k..];
        case Status(code) =>
          if idx > 0 {
            Emit(out, pending[..idx]);
          }
          Arrive(total, done, pending, idx, code, rest, sentinel);
          done := done + pending[..idx];
          exitCode := Some(code);
          return;
      }
    }
    if |pending| > keepBytes {
      var flush := |pending| - keepBytes;
      Emit(out, pending[..flush]);
      SkipPlain(pending, flush, rest, sentinel);
      Advance(total, done, pending, flush, rest, sentinel);
      done, pending := done + pending[..flush], pending[flush..];
    }
    ScanNothing(pending, sentinel);
  }

  /** Reads terminal rounds until the completion frame of `sentinel` has arrived. However the
      terminal cuts its output into reads, the result is that of one scan of all of it. */
  method ReadUntilSentinel(rounds: seq<Round>, sentinel: string, maxOutput: int)
    returns (output: string, truncated: bool, exitCode: int, ret: Return)
    requires sentinel != ""
    ensures !Contains(Stream(rounds), PROMPT) ==>
              match Scan(Stream(rounds), sentinel)
              case Complete(text, code) =>
                && ret == Found && exitCode == code
                && Bounded(text, maxOutput, output, truncated)
              case Incomplete =>
                && ret == Exhausted(rounds) && exitCode == -1
                && (ret != Waiting ==> Bounded(Stream(rounds), maxOutput, output, truncated))
  {
    hide Judge, Scan, Reached, LimitBuffer.Valid, LimitBuffer.Exact, Bounded, Find, Contains, Stream,
      Exhausted;
    ghost var total := Stream(rounds);
    var out := new LimitBuffer(maxOutput);
    exitCode := -1;
    var pending := "";
    ghost var done := "";
    var i := 0;
    ReachedInitially(total, sentinel);
    ScanNothing("", sentinel);
    assert rounds[0..] == rounds && "" + total == total;
    while i < |rounds|
      invariant 0 <= i <= |rounds|
      invariant out.Valid() && out.Exact() && fresh(out) && out.limit == maxOutput && out.Holds(done)
      invariant Exhausted(rounds) == Exhausted(rounds[i..])
      invariant Reached(total, done, pending + Stream(rounds[i..]), sentinel)
      invariant Scan(pending, sentinel) == Incomplete
    {
      var round := rounds[i];
      ghost var rest := RestOf(rounds, i);
      RoundStep(rounds, i);
      if round.Cancel? {
        if |pending| > 0 {
          Emit(out, pending);
        }
        ReachedEnd(total, done, pending, sentinel);
        out.Report(total);
        return out.buf, out.truncated, exitCode, Cancelled;
      }
      if |round.data| > 0 {
        assert pending + (round.data + rest) == (pending + round.data) + rest;
        pending := pending + round.data;
        if Find(pending, PROMPT) >= 0 {
          PromptInStream(total, done, pending, rest, sentinel);
          Emit(out, pending);
          return out.buf, out.truncated, exitCode, PromptError;
        }
        var code;
        pending, code, done := ConsumePending(out, pending, sentinel, total, done, rest);
        if code.Some? {
          out.Report(done);
          return out.buf, out.truncated, code.value, Found;
        }
      } else {
        assert round.data + rest == rest;
      }
      if round.outcome.Broken? {
        if |pending| > 0 {
          Emit(out, pending);
        }
        ReachedEnd(total, done, pending, sentinel);
        out.Report(total);
        return out.buf, out.truncated, exitCode, Failed;
      }
      i := i + 1;
    }
    NoRounds(rounds[i..]);
    ReachedEnd(total, done, pending, sentinel);
    return out.buf, out.truncated, exitCode, Waiting;
  }

  /** One look at the pending bytes for the start-up marker. */
  method ConsumeUntilMarker(out: LimitBuffer, bytes: string, marker: string,
                            ghost total: string, ghost before: string, ghost rest: string)
    returns (pending: string, found: bool, ghost done: string)
    requires marker != "" && out.Valid() && out.Exact() && out.Holds(before)
    requires NotBefore(total, before, bytes + rest, marker)
    modifies out
    ensures out.Valid() && out.Exact() && out.Holds(done)
    ensures found ==> ScanMarker(total, marker) == Some(done)
    ensures !found ==> NotBefore(total, done, pending + rest, marker) && Find(pending, marker) < 0
  {
    hide NotBefore, ScanMarker, LimitBuffer.Valid, LimitBuffer.Exact;
    var keepBytes := |marker| - 1;
    pending, found, done := bytes, false, before;
    var idx := Find(pending, marker);
    if idx >= 0 {
      if idx > 0 {
        Emit(out, pending[..idx]);
      }
      MarkerFound(total, done, pending, rest, marker);
      done, found := done + pending[..idx], true;
    } else if |pending| > keepBytes {
      var flush := |pending| - keepBytes;
      Emit(out, pending[..flush]);
      MarkerNotYet(total, done, pending, flush, rest, marker);
      done, pending := done + pending[..flush], pending[flush..];
    }
  }

  /** The start-up scanner: reads until the marker has arrived. */
  method ReadUntilMarker(rounds: seq<Round>, marker: string, maxOutput: int)
    returns (output: string, truncated: bool, ret: Return)
    requires marker != ""
    ensures !Contains(Stream(rounds), PROMPT) ==>
              match ScanMarker(Stream(rounds), marker)
              case Some(text) => ret == Found && Bounded(text, maxOutput, output, truncated)
              case None =>
                && ret == Exhausted(rounds)
                && (ret != Waiting ==> Bounded(Stream(rounds), maxOutput, output, truncated))
  {
    hide LimitBuffer.Valid, LimitBuffer.Exact, Bounded, NotBefore, ScanMarker, Find, Contains, Stream, Exhausted;
    ghost var total := Stream(rounds);
    var out := new LimitBuffer(maxOutput);
    var pending := "";
    ghost var done := "";
    var i := 0;
    MarkerInitially(total, marker);
    assert rounds[0..] == rounds && "" + total == total;
    while i < |rounds|
      invariant 0 <= i <= |rounds|
      invariant out.Valid() && out.Exact() && fresh(out) && out.limit == maxOutput && out.Holds(done)
      invariant Exhausted(rounds) == Exhausted(rounds[i..])
      invariant NotBefore(total, done, pending + Stream(rounds[i..]), marker)
      invariant Find(pending, marker) < 0
    {
      var round := rounds[i];
      ghost var rest := RestOf(rounds, i);
      RoundStep(rounds, i);
      if round.Cancel? {
        if |pending| > 0 {
          Emit(out, pending);
        }
        MarkerAbsent(total, done, pending, marker);
        out.Report(total);
        return out.buf, out.truncated, Cancelled;
      }
      if |round.data| > 0 {
        assert pending + (round.data + rest) == (pending + round.data) + rest;
        pending := pending + round.data;
        if Find(pending, PROMPT) >= 0 {
          PromptBeforeMarker(total, done, pending, rest, marker);
          Emit(out, pending);
          return out.buf, out.truncated, PromptError;
        }
        var found;
        pending, found, done := ConsumeUntilMarker(out, pending, marker, total, done, rest);
        if found {
          out.Report(done);
          return out.buf, out.truncated, Found;
        }
      } else {
        assert round.data + rest == rest;
      }
      if round.outcome.Broken? {
        if |pending| > 0 {
          Emit(out, pending);
        }
        MarkerAbsent(total, done, pending, marker);
        out.Report(total);
        return out.buf, out.truncated, Failed;
      }
      i := i + 1;
    }
    NoRounds(rounds[i..]);
    MarkerAbsent(total, done, pending, marker);
    return out.buf, out.truncated, Waiting;
  }

  /** The stream is `done` and then `left`, and the marker does not begin inside `done`. */
  ghost predicate NotBefore(total: string, done: string, left: string, marker: string) {
    && total == done + left
    && forall i :: 0 <= i < |done| ==> !OccursAt(total, marker, i)
  }

  lemma MarkerInitially(total: string, marker: string)
    ensures NotBefore(total, "", total, marker)
  {
  }

  lemma PromptBeforeMarker(total: string, done: string, pending: string, rest: string, marker: string)
    requires NotBefore(total, done, pending + rest, marker)
    requires Find(pending, PROMPT) >= 0
    ensures Contains(total, PROMPT)
  {
    assert OccursAt(pending, PROMPT, Find(pending, PROMPT));
    ContainsInside(done, pending, rest, PROMPT);
    assert done + pending + rest == total;
  }

  lemma MarkerFound(total: string, done: string, pending: string, rest: string, marker: string)
    requires NotBefore(total, done, pending + rest, marker)
    requires Find(pending, marker) >= 0
    ensures ScanMarker(total, marker) == Some(done + pending[..Find(pending, marker)])
  {
    FindInExtension(pending, marker, rest);
    assert total[|done|..] == pending + rest;
    FindLater(total, |done|, marker);
    assert total[..|done| + Find(pending, marker)] == done + pending[..Find(pending, marker)];
  }

  lemma MarkerNotYet(total: string, done: string, pending: string, k: nat, rest: string, marker: string)
    requires NotBefore(total, done, pending + rest, marker)
    requires Find(pending, marker) < 0 && k + |marker| <= |pending| + 1 && k <= |pending|
    ensures NotBefore(total, done + pending[..k], pending[k..] + rest, marker)
    ensures Find(pending[k..], marker) < 0
  {
    FindLater(pending, k, marker);
    forall i | |done| <= i < |done| + k ensures !OccursAt(total, marker, i) {
      assert total[i..i + |marker|] == pending[i - |done|..i - |done| + |marker|];
      assert !OccursAt(pending, marker, i - |done|);
    }
  }

  lemma MarkerAbsent(total: string, done: string, pending: string, marker: string)
    requires NotBefore(total, done, pending + "", marker)
    requires Find(pending, marker) < 0
    ensures ScanMarker(total, marker) == None && total == done + pending
  {
    assert total[|done|..] == pending;
    FindLater(total, |done|, marker);
  }

  // ----------------------------------------------------- what the scan guarantees

  predicate OneLine(s: string) {
    FindLineBreak(s) < 0
  }

  /** `line` is a number with nothing but white space around it; it stands for `code`, or for -1
      when it does not fit an `int`. */
  ghost predicate SpellsCode(line: string, code: int) {
    exists before, digits, after ::
      && Blank(before) && Blank(after) && digits != "" && AllDigits(digits)
      && line == before + digits + after
      && code == if DecimalValue(digits) > MAX_INT then -1 else DecimalValue(digits)
  }

  lemma ExitCodeIs(line: string, code: int)
    ensures ExitCode(line) == Some(code) <==> SpellsCode(line, code)
  {
    hide TrimSpace, Blank, DecimalValue;
    var t := TrimSpace(line);
    if t != "" && AllDigits(t) {
      TrimSpaceIs(line, t);
    }
    if SpellsCode(line, code) {
      var before, digits, after :|
        && Blank(before) && Blank(after) && digits != "" && AllDigits(digits)
        && line == before + digits + after
        && code == if DecimalValue(digits) > MAX_INT then -1 else DecimalValue(digits);
      TrimSpaceIs(line, digits);
    }
  }

  /** What follows a sentinel is a colon, a line that is a number, and a line end. */
  ghost predicate IsStatus(tail: string, code: int) {
    exists line, rest ::
      && tail == ":" + line + rest && rest != "" && IsLineBreak(rest[0])
      && OneLine(line) && SpellsCode(line, code)
  }

  lemma FirstBreakIs(line: string, rest: string)
    requires OneLine(line) && rest != "" && IsLineBreak(rest[0])
    ensures FindLineBreak(line + rest) == |line|
  {
    var s := line + rest;
    assert s[|line|] == rest[0];
    assert forall i :: 0 <= i < |line| ==> s[i] == line[i];
  }

  /** Every verdict, by what follows the sentinel. */
  lemma JudgeIsExactly(tail: string, code: int)
    ensures Judge(tail) == Status(code) <==> IsStatus(tail, code)
    ensures Judge(tail) == Partial <==> tail == "" || (tail[0] == ':' && OneLine(tail[1..]))
    ensures tail != "" && tail[0] != ':' ==> Judge(tail) == Echo(0)
    ensures forall line, rest ::
              (tail == ":" + line + rest && OneLine(line) && rest != "" && IsLineBreak(rest[0])
               && forall c :: !SpellsCode(line, c))
              ==> Judge(tail) == Echo(|line| + 2)
  {
    hide ExitCode, FindLineBreak, SpellsCode;
    if tail != "" && tail[0] == ':' && !OneLine(tail[1..]) {
      var b := FindLineBreak(tail[1..]);
      var line, rest := tail[1..][..b], tail[1..][b..];
      assert tail[1..] == line + rest && tail == ":" + line + rest;
      LineBeforeBreak(tail[1..]);
      ExitCodeIs(line, code);
      CodesOf(line);
    }
    forall line, rest | tail == ":" + line + rest && OneLine(line) && rest != "" && IsLineBreak(rest[0])
      ensures FindLineBreak(tail[1..]) == |line| && tail[1..][..|line|] == line
    {
      assert tail[1..] == line + rest;
      FirstBreakIs(line, rest);
    }
  }

  lemma LineBeforeBreak(s: string)
    requires FindLineBreak(s) >= 0
    ensures OneLine(s[..FindLineBreak(s)])
  {
  }

  lemma CodesOf(line: string)
    ensures ExitCode(line).None? ==> forall c :: !SpellsCode(line, c)
    ensures ExitCode(line).Some? ==> SpellsCode(line, ExitCode(line).value)
  {
    hide ExitCode, SpellsCode;
    forall c ensures ExitCode(line) == Some(c) <==> SpellsCode(line, c) {
      ExitCodeIs(line, c);
    }
  }

  /** A complete frame at `i`: the sentinel, a colon, a line that is a number, a line end. */
  ghost predicate FrameAt(s: string, i: int, sentinel: string, code: int): (b: bool)
    ensures b <==> OccursAt(s, sentinel, i) && Judge(s[i + |sentinel|..]) == Status(code)
  {
    if OccursAt(s, sentinel, i) then
      JudgeIsExactly(s[i + |sentinel|..], code);
      IsStatus(s[i + |sentinel|..], code)
    else false
  }

  lemma FrameLater(s: string, k: nat, i: nat, sentinel: string, code: int)
    requires k <= |s|
    ensures FrameAt(s[k..], i, sentinel, code) <==> FrameAt(s, k + i, sentinel, code)
  {
    hide Judge, FrameAt;
    OccursLater(s, k, i, sentinel);
    if OccursAt(s, sentinel, k + i) {
      SlicesOfSuffix(s, k, i + |sentinel|);
    }
  }

  lemma FrameHere(s: string, idx: nat, sentinel: string)
    requires Find(s, sentinel) == idx && Judge(s[idx + |sentinel|..]).Status?
    ensures FrameAt(s, idx, sentinel, Judge(s[idx + |sentinel|..]).code)
  {
  }

  lemma ScanNothingFound(s: string, sentinel: string)
    requires sentinel != "" && Scan(s, sentinel).Complete?
    ensures Find(s, sentinel) >= 0
  {
    hide Judge;
  }

  /** Nothing but a complete frame ever ends a command: the output is everything before it. */
  lemma {:induction false} ScanIsSound(s: string, sentinel: string)
    requires sentinel != "" && Scan(s, sentinel).Complete?
    ensures var r := Scan(s, sentinel);
            r.text <= s && FrameAt(s, |r.text|, sentinel, r.code)
    decreases |s|
  {
    hide Judge, Scan, FrameAt;
    var idx := Find(s, sentinel);
    ScanNothingFound(s, sentinel);
    ScanUnfolds(s, idx, sentinel);
    var st := idx + |sentinel|;
    if Judge(s[st..]).Echo? {
      var k := st + Judge(s[st..]).k;
      ScanIsSound(s[k..], sentinel);
      var r := Scan(s[k..], sentinel);
      FrameLater(s, k, |r.text|, sentinel, r.code);
      assert s[..k + |r.text|] == s[..k] + r.text by {
        SlicesOfSuffix(s, k, |r.text|);
        assert s[k..][..|r.text|] == r.text;
      }
    } else {
      FrameHere(s, idx, sentinel);
    }
  }

  /** Where the scan resumes after a sentinel at `j` that completes nothing; past the end of
      the stream when the sentinel is still undecided. */
  ghost function Resume(s: string, j: nat, sentinel: string): nat
    requires OccursAt(s, sentinel, j)
  {
    var st := j + |sentinel|;
    match Judge(s[st..])
    case Echo(k) => st + k
    case Status(_) => st
    case Partial => |s| + 1
  }

  /** No earlier occurrence of the sentinel swallows position `i`. */
  ghost predicate Uncovered(s: string, i: nat, sentinel: string) {
    forall j: nat :: j < i && OccursAt(s, sentinel, j) ==> Resume(s, j, sentinel) <= i
  }

  lemma UncoveredLater(s: string, k: nat, i: nat, sentinel: string)
    requires k <= i <= |s| && Uncovered(s, i, sentinel)
    ensures Uncovered(s[k..], i - k, sentinel)
  {
    hide Judge;
    forall j: nat | j < i - k && OccursAt(s[k..], sentinel, j)
      ensures Resume(s[k..], j, sentinel) <= i - k
    {
      OccursLater(s, k, j, sentinel);
      SlicesOfSuffix(s, k, j + |sentinel|);
      assert Resume(s, k + j, sentinel) <= i;
    }
  }

  /** A frame no earlier sentinel swallows is seen, unless a frame before it ends the command. */
  lemma {:induction false} UncoveredFrameIsSeen(s: string, i: nat, sentinel: string, code: int)
    requires sentinel != "" && FrameAt(s, i, sentinel, code) && Uncovered(s, i, sentinel)
    ensures Scan(s, sentinel).Complete? && |Scan(s, sentinel).text| <= i
    decreases |s|
  {
    hide Judge, Scan, Uncovered, FrameAt;
    var idx := Find(s, sentinel);
    ScanUnfolds(s, idx, sentinel);
    if idx < i {
      assert Resume(s, idx, sentinel) <= i by { UncoveredHere(s, idx, i, sentinel); }
      if Judge(s[idx + |sentinel|..]).Echo? {
        var k := Resume(s, idx, sentinel);
        FrameLater(s, k, i - k, sentinel, code);
        UncoveredLater(s, k, i, sentinel);
        UncoveredFrameIsSeen(s[k..], i - k, sentinel, code);
      }
    }
  }

  lemma UncoveredHere(s: string, j: nat, i: nat, sentinel: string)
    requires j < i && OccursAt(s, sentinel, j) && Uncovered(s, i, sentinel)
    ensures Resume(s, j, sentinel) <= i
  {
  }

  /** The status verdict reads no further than the first line break. */
  lemma JudgeStopsAtLineBreak(tail: string, b: nat)
    requires b < |tail| && IsLineBreak(tail[b])
    ensures !Judge(tail).Partial?
    ensures Judge(tail).Echo? ==> Judge(tail).k <= b + 1
  {
    if tail[0] == ':' {
      assert tail[1..][b - 1] == tail[b];
    }
  }

  lemma NoLineBreakInside(s: string, idx: nat, sentinel: string, b: nat)
    requires OneLine(sentinel) && OccursAt(s, sentinel, idx)
    requires idx <= b < |s| && IsLineBreak(s[b])
    ensures idx + |sentinel| <= b
  {
    assert forall j :: idx <= j < idx + |sentinel| ==> s[j] == sentinel[j - idx];
  }

  /** A sentinel is done with at the next line break. */
  lemma ResumesByLineBreak(s: string, j: nat, sentinel: string, b: nat)
    requires OneLine(sentinel) && OccursAt(s, sentinel, j)
    requires j <= b < |s| && IsLineBreak(s[b])
    ensures Resume(s, j, sentinel) <= b + 1
  {
    hide Judge, OneLine;
    NoLineBreakInside(s, j, sentinel, b);
    var st := j + |sentinel|;
    JudgeStopsAtLineBreak(s[st..], b - st);
  }

  ghost predicate FirstFrame(s: string, i: nat, sentinel: string, code: int) {
    && FrameAt(s, i, sentinel, code)
    && forall j: nat, c :: j < i ==> !FrameAt(s, j, sentinel, c)
  }

  lemma FirstUncoveredFrameWins(s: string, i: nat, sentinel: string, code: int)
    requires sentinel != "" && FirstFrame(s, i, sentinel, code) && Uncovered(s, i, sentinel)
    ensures Scan(s, sentinel) == Complete(s[..i], code)
  {
    hide Judge, Scan, Uncovered, FrameAt;
    UncoveredFrameIsSeen(s, i, sentinel, code);
    ScanIsSound(s, sentinel);
  }

  /** The first complete frame of the stream ends the command when it starts a line. */
  lemma FrameOnOwnLineWins(s: string, i: nat, sentinel: string, code: int)
    requires sentinel != "" && OneLine(sentinel) && FirstFrame(s, i, sentinel, code)
    requires i > 0 ==> IsLineBreak(s[i - 1])
    ensures Scan(s, sentinel) == Complete(s[..i], code)
  {
    hide Judge, Scan, OneLine, Resume, FrameAt;
    forall j: nat | j < i && OccursAt(s, sentinel, j) ensures Resume(s, j, sentinel) <= i {
      ResumesByLineBreak(s, j, sentinel, i - 1);
    }
    FirstUncoveredFrameWins(s, i, sentinel, code);
  }

  // ------------------------------------------------- exactly which occurrences are seen

  /** The scan looks at the sentinel at `i`: none it looked at before resumes past `i`. */
  ghost predicate Visited(s: string, i: nat, sentinel: string)
    decreases i
  {
    && OccursAt(s, sentinel, i)
    && forall j: nat :: j < i && OccursAt(s, sentinel, j) && Visited(s, j, sentinel) ==> Resume(s, j, sentinel) <= i
  }

  lemma ResumeLater(s: string, k: nat, j: nat, sentinel: string)
    requires k <= |s|
    ensures OccursAt(s[k..], sentinel, j) <==> OccursAt(s, sentinel, k + j)
    ensures OccursAt(s, sentinel, k + j) ==> Resume(s, k + j, sentinel) == k + Resume(s[k..], j, sentinel)
  {
    hide Judge;
    OccursLater(s, k, j, sentinel);
    if OccursAt(s, sentinel, k + j) {
      SlicesOfSuffix(s, k, j + |sentinel|);
    }
  }

  /** The first sentinel is looked at, and nothing before where it resumes. */
  lemma FirstIsVisited(s: string, sentinel: string)
    requires Find(s, sentinel) >= 0
    ensures var idx := Find(s, sentinel);
            && Visited(s, idx, sentinel)
            && forall j: nat :: j < Resume(s, idx, sentinel) && Visited(s, j, sentinel) ==> j == idx
  {
    hide Judge, Find, Resume;
  }

  /** From `k` up to `i`, the scan looks at what a scan from `k` on looks at. */
  ghost predicate SameVisits(s: string, k: nat, i: nat, sentinel: string)
    requires k <= |s|
  {
    forall j: nat :: k <= j < i ==> (Visited(s, j, sentinel) <==> Visited(s[k..], j - k, sentinel))
  }

  lemma VisitedInRest(s: string, k: nat, i: nat, sentinel: string)
    requires k <= i <= |s| && SameVisits(s, k, i, sentinel) && Visited(s, i, sentinel)
    ensures Visited(s[k..], i - k, sentinel)
  {
    hide Resume, OccursAt;
    ResumeLater(s, k, i - k, sentinel);
    forall j: nat | j < i - k && OccursAt(s[k..], sentinel, j) && Visited(s[k..], j, sentinel)
      ensures Resume(s[k..], j, sentinel) <= i - k
    {
      ResumeLater(s, k, j, sentinel);
      assert Visited(s, k + j, sentinel) <==> Visited(s[k..], k + j - k, sentinel);
    }
  }

  lemma VisitedInWhole(s: string, k: nat, i: nat, sentinel: string)
    requires k <= i <= |s| && SameVisits(s, k, i, sentinel) && Visited(s[k..], i - k, sentinel)
    requires forall j: nat :: j < k && OccursAt(s, sentinel, j) && Visited(s, j, sentinel) ==>
               Resume(s, j, sentinel) <= k
    ensures Visited(s, i, sentinel)
  {
    hide Resume, OccursAt;
    ResumeLater(s, k, i - k, sentinel);
    forall j: nat | j < i && OccursAt(s, sentinel, j) && Visited(s, j, sentinel)
      ensures Resume(s, j, sentinel) <= i
    {
      if j >= k {
        ResumeLater(s, k, j - k, sentinel);
        assert Visited(s[k..], j - k, sentinel);
      }
    }
  }

  /** From where the first sentinel resumes, the scan looks at what a scan of the rest looks at. */
  lemma {:induction false} VisitedLater(s: string, i: nat, sentinel: string)
    requires Find(s, sentinel) >= 0 && Resume(s, Find(s, sentinel), sentinel) <= i <= |s|
    ensures var k := Resume(s, Find(s, sentinel), sentinel);
            Visited(s, i, sentinel) <==> Visited(s[k..], i - k, sentinel)
    decreases i
  {
    hide Resume, Find, Visited, OccursAt;
    var k := Resume(s, Find(s, sentinel), sentinel);
    FirstIsVisited(s, sentinel);
    forall j: nat | k <= j < i ensures Visited(s, j, sentinel) <==> Visited(s[k..], j - k, sentinel) {
      VisitedLater(s, j, sentinel);
    }
    if Visited(s, i, sentinel) {
      VisitedInRest(s, k, i, sentinel);
    }
    if Visited(s[k..], i - k, sentinel) {
      VisitedInWhole(s, k, i, sentinel);
    }
  }

  /** For every stream and sentinel: the first complete frame ends the command if and only if the
      scan looks at it. */
  lemma {:induction false} FirstFrameIsSeenExactly(s: string, i: nat, sentinel: string, code: int)
    requires sentinel != "" && FirstFrame(s, i, sentinel, code)
    ensures Scan(s, sentinel) == Complete(s[..i], code) <==> Visited(s, i, sentinel)
    decreases |s|
  {
    hide Judge, Scan, Visited, Resume, Find, FrameAt;
    var idx := Find(s, sentinel);
    ScanUnfolds(s, idx, sentinel);
    FirstIsVisited(s, sentinel);
    if idx < i {
      NotYetStatus(s, idx, i, sentinel, code);
      var k := Resume(s, idx, sentinel);
      ResumeIs(s, idx, sentinel);
      if k <= i {
        FirstFrameLater(s, k, i, sentinel, code);
        FirstFrameIsSeenExactly(s[k..], i - k, sentinel, code);
        VisitedLater(s, i, sentinel);
        AfterSkipped(s, k, i, Scan(s[k..], sentinel), code);
      } else if k <= |s| {
        AfterIsLonger(Scan(s[k..], sentinel), s[..k]);
      }
    }
  }

  lemma AfterIsLonger(r: Scanned, skipped: string)
    ensures r.Complete? ==> r.After(skipped).Complete? && |r.After(skipped).text| >= |skipped|
    ensures r.Incomplete? ==> r.After(skipped).Incomplete?
  {
  }

  lemma NotYetStatus(s: string, j: nat, i: nat, sentinel: string, code: int)
    requires FirstFrame(s, i, sentinel, code) && j < i && OccursAt(s, sentinel, j)
    ensures !Judge(s[j + |sentinel|..]).Status?
  {
    hide Judge, FrameAt;
    var v := Judge(s[j + |sentinel|..]);
    StatusHasCode(v);
    assert forall c :: v == Status(c) <==> FrameAt(s, j, sentinel, c);
  }

  lemma StatusHasCode(v: Tail)
    ensures v.Status? ==> exists c :: v == Status(c)
  {
  }

  lemma ResumeIs(s: string, j: nat, sentinel: string)
    requires OccursAt(s, sentinel, j)
    ensures var st, k := j + |sentinel|, Resume(s, j, sentinel);
            var v := Judge(s[st..]);
            && (v.Echo? ==> k == st + v.k && k <= |s|)
            && (v.Partial? ==> k > |s|)
  {
    hide Judge;
  }

  /** What is found after skipping `k` bytes is found at `i` if it is found `k` bytes earlier there. */
  lemma AfterSkipped(s: string, k: nat, i: nat, r: Scanned, code: int)
    requires k <= i <= |s|
    ensures r.After(s[..k]) == Complete(s[..i], code) <==> r == Complete(s[k..][..i - k], code)
  {
    assert s[..i] == s[..k] + s[k..][..i - k];
    if r.Complete? && r.After(s[..k]) == Complete(s[..i], code) {
      assert r.text == (s[..k] + r.text)[k..] == s[..i][k..] == s[k..][..i - k];
    }
  }

  // ---------------------------------------- when the first frame is not on its own line

  /** No two occurrences of the sentinel share bytes. */
  ghost predicate Apart(s: string, sentinel: string) {
    forall j: nat, i: nat :: j < i && OccursAt(s, sentinel, j) && OccursAt(s, sentinel, i)
      ==> j + |sentinel| <= i
  }

  /** The echoed printf command: a sentinel and a colon, further left on the line of `i`. */
  ghost predicate EchoAt(s: string, j: nat, i: nat, sentinel: string) {
    && j < i <= |s|
    && OccursAt(s, sentinel, j)
    && j + |sentinel| < |s| && s[j + |sentinel|] == ':'
    && OneLine(s[j..i])
  }

  lemma JudgeLength(tail: string)
    ensures Judge(tail).Echo? && tail != "" && tail[0] == ':' ==>
              && 2 <= Judge(tail).k && IsLineBreak(tail[Judge(tail).k - 1])
              && OneLine(tail[..Judge(tail).k - 1])
    ensures Judge(tail).Echo? && (tail == "" || tail[0] != ':') ==> Judge(tail).k == 0
  {
  }

  /** An echo further left on the line swallows the frame. */
  lemma EchoSwallows(s: string, j: nat, i: nat, sentinel: string)
    requires OneLine(sentinel) && EchoAt(s, j, i, sentinel)
    requires Judge(s[j + |sentinel|..]).Echo?
    ensures Resume(s, j, sentinel) > i
  {
    hide Judge;
    var st := j + |sentinel|;
    var k := Judge(s[st..]).k;
    JudgeLength(s[st..]);
    var b := st + k - 1;
    assert s[st..][k - 1] == s[b];
    BreakOutside(s, j, i, b);
  }

  lemma BreakOutside(s: string, j: nat, i: nat, b: nat)
    requires j <= i <= |s| && OneLine(s[j..i]) && j <= b < |s| && IsLineBreak(s[b])
    ensures b >= i
  {
    assert forall x :: j <= x < i ==> s[x] == s[j..i][x - j];
  }

  lemma ApartLater(s: string, k: nat, sentinel: string)
    requires k <= |s| && Apart(s, sentinel)
    ensures Apart(s[k..], sentinel)
  {
    forall j: nat, i: nat | j < i && OccursAt(s[k..], sentinel, j) && OccursAt(s[k..], sentinel, i)
      ensures j + |sentinel| <= i
    {
      OccursLater(s, k, j, sentinel);
      OccursLater(s, k, i, sentinel);
    }
  }

  lemma EchoAtLater(s: string, k: nat, j: nat, i: nat, sentinel: string)
    requires k <= j && EchoAt(s, j, i, sentinel)
    ensures EchoAt(s[k..], j - k, i - k, sentinel)
  {
    OccursLater(s, k, j - k, sentinel);
    assert s[k..][j - k..i - k] == s[j..i];
  }

  lemma FirstFrameLater(s: string, k: nat, i: nat, sentinel: string, code: int)
    requires k <= i <= |s| && FirstFrame(s, i, sentinel, code)
    ensures FirstFrame(s[k..], i - k, sentinel, code)
  {
    hide FrameAt;
    FrameLater(s, k, i - k, sentinel, code);
    forall j: nat, c | j < i - k ensures !FrameAt(s[k..], j, sentinel, c) {
      FrameLater(s, k, j, sentinel, c);
    }
  }

  /** What an echoed line swallows is not reported. */
  lemma {:induction false} EchoHidesFrame(s: string, j: nat, i: nat, sentinel: string, code: int)
    requires sentinel != "" && OneLine(sentinel) && Apart(s, sentinel)
    requires FirstFrame(s, i, sentinel, code) && EchoAt(s, j, i, sentinel)
    ensures Scan(s, sentinel).Complete? ==> |Scan(s, sentinel).text| > i
    decreases |s|
  {
    hide Judge, Scan, OneLine, FrameAt;
    var idx := Find(s, sentinel);
    ScanUnfolds(s, idx, sentinel);
    var st := idx + |sentinel|;
    var v := Judge(s[st..]);
    if v.Status? {
      FrameHere(s, idx, sentinel);
    } else if v.Echo? {
      var k := st + v.k;
      if idx == j {
        EchoSwallows(s, j, i, sentinel);
      } else if k > j {
        EchoReaches(s, idx, j, i, sentinel);
      } else {
        EchoAtLater(s, k, j, i, sentinel);
        FirstFrameLater(s, k, i, sentinel, code);
        ApartLater(s, k, sentinel);
        EchoHidesFrame(s[k..], j - k, i - k, sentinel, code);
      }
    }
  }

  /** An earlier echo that reaches past `j` reaches past everything on the line of `j`. */
  lemma EchoReaches(s: string, idx: nat, j: nat, i: nat, sentinel: string)
    requires OneLine(sentinel) && Apart(s, sentinel) && EchoAt(s, j, i, sentinel)
    requires idx < j && OccursAt(s, sentinel, idx)
    requires Judge(s[idx + |sentinel|..]).Echo? && Resume(s, idx, sentinel) > j
    ensures Resume(s, idx, sentinel) > i
  {
    hide Judge, OneLine;
    var st := idx + |sentinel|;
    JudgeLength(s[st..]);
    var b := st + Judge(s[st..]).k - 1;
    assert s[b] == s[st..][b - st];
    BreakOutside(s, j, i, b);
  }

  /** Without an echo on its line, a first frame among sentinels that do not overlap is looked at. */
  lemma UnechoedIsVisited(s: string, i: nat, sentinel: string, code: int)
    requires sentinel != "" && OneLine(sentinel) && Apart(s, sentinel) && FirstFrame(s, i, sentinel, code)
    requires !exists j: nat :: EchoAt(s, j, i, sentinel)
    ensures Visited(s, i, sentinel)
  {
    hide Judge, OneLine, FrameAt;
    forall j: nat | j < i && OccursAt(s, sentinel, j) ensures Resume(s, j, sentinel) <= i {
      var st := j + |sentinel|;
      assert st <= i < |s|;
      if s[st] != ':' {
        JudgeNoColon(s[st..]);
      } else {
        assert !EchoAt(s, j, i, sentinel);
        var b := FirstBreak(s, j, i);
        ResumesByLineBreak(s, j, sentinel, b);
      }
    }
  }

  /** An echo on its line keeps it from being looked at. */
  lemma EchoedIsNotVisited(s: string, j: nat, i: nat, sentinel: string, code: int)
    requires OneLine(sentinel) && Apart(s, sentinel) && FirstFrame(s, i, sentinel, code)
    requires EchoAt(s, j, i, sentinel)
    ensures !Visited(s, i, sentinel)
  {
    hide Judge, OneLine, Resume, FrameAt;
    ResumeIs(s, j, sentinel);
    NotYetStatus(s, j, i, sentinel, code);
    if Visited(s, j, sentinel) {
      if Judge(s[j + |sentinel|..]).Echo? {
        EchoSwallows(s, j, i, sentinel);
      }
    } else {
      var x: nat :| x < j && OccursAt(s, sentinel, x) && Visited(s, x, sentinel) && Resume(s, x, sentinel) > j;
      ResumeIs(s, x, sentinel);
      NotYetStatus(s, x, i, sentinel, code);
      if Judge(s[x + |sentinel|..]).Echo? {
        EchoReaches(s, x, j, i, sentinel);
      }
    }
  }

  /** When sentinels do not overlap, the frame is looked at exactly when there is no echoed
      `sentinel:` further left on its line. */
  lemma FirstFrameWinsExactly(s: string, i: nat, sentinel: string, code: int)
    requires sentinel != "" && OneLine(sentinel) && Apart(s, sentinel)
    requires FirstFrame(s, i, sentinel, code)
    ensures Scan(s, sentinel) == Complete(s[..i], code)
            <==> !exists j: nat :: EchoAt(s, j, i, sentinel)
  {
    hide Scan, OneLine, Apart, FirstFrame, Visited, EchoAt, FrameAt;
    FirstFrameIsSeenExactly(s, i, sentinel, code);
    if j: nat :| EchoAt(s, j, i, sentinel) {
      EchoedIsNotVisited(s, j, i, sentinel, code);
    } else {
      UnechoedIsVisited(s, i, sentinel, code);
    }
  }

  lemma JudgeNoColon(tail: string)
    requires tail != "" && tail[0] != ':'
    ensures Judge(tail) == Echo(0)
  {
  }

  lemma FirstBreak(s: string, j: nat, i: nat) returns (b: nat)
    requires j <= i <= |s| && !OneLine(s[j..i])
    ensures j <= b < i && IsLineBreak(s[b])
  {
    b := j + FindLineBreak(s[j..i]);
  }

  /** A sentinel as it is generated: letters between double underscores, and no colon. */
  predicate Generated(sentinel: string) {
    && |sentinel| >= 4 && ':' !in sentinel && OneLine(sentinel)
    && sentinel[..2] == "__" && sentinel[|sentinel| - 2..] == "__"
  }

  lemma StatusNeedsColon(tail: string)
    ensures Judge(tail).Status? ==> tail != "" && tail[0] == ':'
  {
  }

  /** A sentinel without a colon does not occur where its bytes would have to be colons. */
  lemma ColonBreaks(s: string, sentinel: string, j: int, at: int)
    requires ':' !in sentinel && 0 <= j <= at < j + |sentinel| && at < |s| && s[at] == ':'
    ensures !OccursAt(s, sentinel, j)
  {
    if j + |sentinel| <= |s| {
      assert s[j..j + |sentinel|][at - j] == s[at];
      assert sentinel[at - j] in sentinel;
    }
  }

  /** Two sentinels that share their underscores: the frame of the second is complete, but the
      scan has already passed its start. */
  lemma OverlapIsMissed(sentinel: string)
    requires Generated(sentinel)
    ensures var s := sentinel + sentinel[2..] + ":0\n";
            FirstFrame(s, |sentinel| - 2, sentinel, 0) && Scan(s, sentinel) == Incomplete
  {
    hide Scan, Judge, OneLine, OccursAt, FrameAt;
    var n := |sentinel|;
    var s := sentinel + sentinel[2..] + ":0\n";
    var rest := sentinel[2..] + ":0\n";
    OverlapSlices(sentinel);
    ZeroIsStatus();
    forall j: nat, c | j < n - 2 ensures !FrameAt(s, j, sentinel, c) {
      NoColonYet(sentinel, j);
      StatusNeedsColon(s[j + n..]);
    }
    assert Find(s, sentinel) == 0;
    RestIsPlain(sentinel);
    ScanUnfolds(s, 0, sentinel);
    ScanNothing(rest, sentinel);
  }

  lemma NoColonYet(sentinel: string, j: nat)
    requires Generated(sentinel) && j < |sentinel| - 2
    ensures var s := sentinel + sentinel[2..] + ":0\n";
            s[j + |sentinel|..] != "" && s[j + |sentinel|..][0] != ':'
  {
    hide OneLine;
    var s := sentinel + sentinel[2..] + ":0\n";
    assert s[j + |sentinel|] == sentinel[2..][j] && sentinel[2 + j] in sentinel;
  }

  /** What follows the first sentinel is no status, and holds no sentinel of its own. */
  lemma RestIsPlain(sentinel: string)
    requires Generated(sentinel)
    ensures var rest := sentinel[2..] + ":0\n";
            rest[0..] == rest && Judge(rest) == Echo(0) && Find(rest, sentinel) < 0
  {
    hide Judge, OneLine;
    var rest, n := sentinel[2..] + ":0\n", |sentinel|;
    assert rest[0] == sentinel[2] && sentinel[2] in sentinel;
    JudgeNoColon(rest);
    assert rest[n - 2] == ':';
    forall j: int | 0 <= j && j + n <= |rest| ensures !OccursAt(rest, sentinel, j) {
      ColonBreaks(rest, sentinel, j, n - 2);
    }
  }

  lemma OverlapSlices(sentinel: string)
    requires Generated(sentinel)
    ensures var s, n := sentinel + sentinel[2..] + ":0\n", |sentinel|;
            && OccursAt(s, sentinel, 0) && OccursAt(s, sentinel, n - 2)
            && s[n..] == sentinel[2..] + ":0\n" && s[n - 2 + n..] == ":0\n"
  {
    var s, n := sentinel + sentinel[2..] + ":0\n", |sentinel|;
    assert s[n - 2..n] == sentinel[n - 2..] == sentinel[..2];
    assert s[n..n + n - 2] == sentinel[2..];
    assert s[n - 2..n - 2 + n] == s[n - 2..n] + s[n..n + n - 2];
    assert sentinel == sentinel[..2] + sentinel[2..];
  }

  lemma ZeroIsStatus()
    ensures Judge(":0\n") == Status(0)
  {
    StatusOfFrame(0, "\n", "");
    assert Itoa(0) == "0";
  }

  /** The echo of a command that names the sentinel, and the frame on the same line: the status of
      the echo is no number, and the frame is swallowed with its line. */
  lemma EchoOnLineIsMissed(sentinel: string)
    requires Generated(sentinel)
    ensures var s := sentinel + ":x " + sentinel + ":0\n";
            FirstFrame(s, |sentinel| + 3, sentinel, 0) && Scan(s, sentinel) == Incomplete
  {
    hide Scan, Judge, OneLine, Generated, FrameAt;
    var n := |sentinel|;
    var s := sentinel + ":x " + sentinel + ":0\n";
    EchoSlices(sentinel);
    ZeroIsStatus();
    EchoIsEcho(sentinel);
    forall j: nat, c | j < n + 3 ensures !FrameAt(s, j, sentinel, c) {
      if j > 0 {
        NothingInEcho(sentinel, j);
      }
    }
    assert Find(s, sentinel) == 0;
    ScanUnfolds(s, 0, sentinel);
    assert s[|s|..] == "";
    ScanNothing("", sentinel);
  }

  lemma NothingInEcho(sentinel: string, j: nat)
    requires Generated(sentinel) && 0 < j < |sentinel| + 3
    ensures !OccursAt(sentinel + ":x " + sentinel + ":0\n", sentinel, j)
  {
    hide OneLine;
    var s, n := sentinel + ":x " + sentinel + ":0\n", |sentinel|;
    if j <= n {
      ColonBreaks(s, sentinel, j, n);
    } else {
      assert s[n + 1] == 'x' && s[n + 2] == ' ' && sentinel[0] == sentinel[..2][0] == '_';
      assert j + n <= |s| && s[j..j + n][0] == s[j];
    }
  }

  lemma EchoSlices(sentinel: string)
    requires Generated(sentinel)
    ensures var s, n := sentinel + ":x " + sentinel + ":0\n", |sentinel|;
            && n > 0 && OccursAt(s, sentinel, 0) && OccursAt(s, sentinel, n + 3) && s[n] == ':'
            && s[n..] == ":x " + sentinel + ":0\n" && s[n + 3 + n..] == ":0\n"
  {
  }

  /** The echo takes its whole line. */
  lemma EchoIsEcho(sentinel: string)
    requires Generated(sentinel)
    ensures var tail := ":x " + sentinel + ":0\n"; Judge(tail) == Echo(|tail|)
  {
    hide TrimSpace;
    var tail := ":x " + sentinel + ":0\n";
    var line := "x " + sentinel + ":0";
    assert tail[1..] == line + "\n";
    forall i | 0 <= i < |line| ensures !IsLineBreak((line + "\n")[i]) {
      assert 2 <= i < |sentinel| + 2 ==> (line + "\n")[i] == sentinel[i - 2] && !IsLineBreak(sentinel[i - 2]);
    }
    assert IsLineBreak((line + "\n")[|line|]);
    assert FindLineBreak(line + "\n") == |line| && (line + "\n")[..|line|] == line;
    TrimKeepsEnds(line);
    assert !IsDigit(line[0]);
  }

  lemma TrimKeepsEnds(s: string)
    requires |s| > 0 && s[0] == 'x' && s[|s| - 1] == '0'
    ensures TrimSpace(s) == s
  {
    assert TrimLeftSpace(s) == s;
    assert |s| >= 2 ==> s[|s| - 2..][1] == '0';
    assert |s| >= 3 ==> s[|s| - 3..][2] == '0';
  }

  /** What the staged script prints once the command is done: the frame, on a line of its own. */
  function CompletionFrame(sentinel: string, code: nat, eol: string): string {
    eol + sentinel + ":" + Itoa(code) + eol
  }

  /** A terminal may put a CR before each newline. */
  predicate IsLineEnd(eol: string) {
    eol == "\n" || eol == "\r\n"
  }

  lemma StatusOfFrame(code: nat, eol: string, rest: string)
    requires code <= MAX_INT && IsLineEnd(eol)
    ensures Judge(":" + Itoa(code) + eol + rest) == Status(code)
  {
    var digits := Itoa(code);
    var tail := ":" + digits + eol + rest;
    assert tail[1..] == digits + (eol + rest);
    assert tail[1..][|digits|] == eol[0];
    assert forall i :: 0 <= i < |digits| ==> tail[1..][i] == digits[i] && IsDigit(digits[i]);
    assert FindLineBreak(tail[1..]) == |digits|;
    assert tail[1..][..|digits|] == digits;
    TrimSpaceOfDigits(digits);
  }

  /** End to end: a command whose own output completes no frame is reported with exactly that
      output, the line end the script adds, and its exit code, however it is cut into reads. */
  lemma CommandCompletes(output: string, sentinel: string, code: nat, eol: string, rest: string)
    requires sentinel != "" && OneLine(sentinel) && code <= MAX_INT && IsLineEnd(eol)
    requires forall j: nat, c :: j < |output| + |eol| ==>
               !FrameAt(output + CompletionFrame(sentinel, code, eol) + rest, j, sentinel, c)
    ensures Scan(output + CompletionFrame(sentinel, code, eol) + rest, sentinel)
            == Complete(output + eol, code)
  {
    hide Judge, Scan, FrameAt;
    var s := output + CompletionFrame(sentinel, code, eol) + rest;
    var i := |output| + |eol|;
    assert s == (output + eol) + sentinel + (":" + Itoa(code) + eol + rest);
    assert s[i..i + |sentinel|] == sentinel;
    assert s[i + |sentinel|..] == ":" + Itoa(code) + eol + rest;
    StatusOfFrame(code, eol, rest);
    assert s[..i] == output + eol && s[i - 1] == '\n';
    FrameOnOwnLineWins(s, i, sentinel, code);
  }
}
