/**
 Texts as sequences of lines. A line keeps its newline; only the last one may lack it.
 */
module Lines {
  import opened Text

  /** A line with at most one newline, at its end. */
  predicate IsLine(l: string) {
    l != "" && forall i :: 0 <= i < |l| - 1 ==> l[i] != '\n'
  }

  predicate Terminated(l: string) {
    l != "" && l[|l| - 1] == '\n'
  }

  predicate AllTerminated(ls: seq<string>) {
    forall i :: 0 <= i < |ls| ==> Terminated(ls[i])
  }

  /** The lines of some text: only the last one may lack its newline. */
  predicate Proper(ls: seq<string>) {
    && (forall i :: 0 <= i < |ls| ==> IsLine(ls[i]))
    && (forall i :: 0 <= i < |ls| - 1 ==> Terminated(ls[i]))
  }

  function Join(ls: seq<string>): string {
    if ls == [] then "" else ls[0] + Join(ls[1..])
  }

  /** Length of the first line of a non-empty text, newline included. */
  function FirstLineLength(s: string): (k: nat)
    requires s != ""
    ensures 0 < k <= |s| && IsLine(s[..k])
    ensures Terminated(s[..k]) || k == |s|
  {
    if s[0] == '\n' || |s| == 1 then 1 else 1 + FirstLineLength(s[1..])
  }

  function SplitLines(s: string): seq<string> {
    if s == "" then []
    else
      var k := FirstLineLength(s);
      [s[..k]] + SplitLines(s[k..])
  }

  lemma SplitStep(s: string)
    ensures s == "" ==> SplitLines(s) == []
    ensures s != "" ==>
              var k := FirstLineLength(s);
              SplitLines(s) != [] && SplitLines(s)[0] == s[..k] && SplitLines(s)[1..] == SplitLines(s[k..])
  {
  }

  lemma {:induction false} JoinSplit(s: string)
    ensures Join(SplitLines(s)) == s
    decreases |s|
  {
    hide SplitLines;
    SplitStep(s);
    if s != "" {
      var k := FirstLineLength(s);
      JoinSplit(s[k..]);
      assert s == s[..k] + s[k..];
    }
  }

  lemma {:induction false} SplitIsProper(s: string)
    ensures Proper(SplitLines(s))
    ensures SplitLines(s) == [] <==> s == ""
    ensures s != "" ==> (Terminated(s) <==> Terminated(SplitLines(s)[|SplitLines(s)| - 1]))
  {
    if s != "" {
      hide Proper;
      var k := FirstLineLength(s);
      SplitIsProper(s[k..]);
      if k < |s| {
        assert s[k..][|s[k..]| - 1] == s[|s| - 1];
      }
    } else {
      assert Proper(SplitLines(s));
    }
  }

  lemma TerminatedText(s: string)
    requires s == "" || Terminated(s)
    ensures AllTerminated(SplitLines(s))
  {
    hide SplitLines;
    SplitIsProper(s);
  }

  lemma FirstLineOfSum(l: string, rest: string)
    requires IsLine(l) && (Terminated(l) || rest == "")
    ensures FirstLineLength(l + rest) == |l|
  {
    if |l| > 1 {
      assert l[1..] != "" && IsLine(l[1..]);
      assert l[1..][|l| - 2] == l[|l| - 1];
      assert (l + rest)[1..] == l[1..] + rest;
      FirstLineOfSum(l[1..], rest);
      assert l[0] != '\n';
    }
  }

  lemma {:induction false} SplitJoin(ls: seq<string>)
    requires Proper(ls)
    ensures SplitLines(Join(ls)) == ls
  {
    if ls != [] {
      var l, rest := ls[0], Join(ls[1..]);
      if |ls| == 1 {
        assert rest == "";
      } else {
        assert Terminated(ls[0]);
      }
      FirstLineOfSum(l, rest);
      assert (l + rest)[..|l|] == l && (l + rest)[|l|..] == rest;
      SplitJoin(ls[1..]);
    }
  }

  lemma JoinSum(a: seq<string>, b: seq<string>)
    ensures Join(a + b) == Join(a) + Join(b)
  {
    if a == [] {
      assert a + b == b;
    } else {
      assert (a + b)[1..] == a[1..] + b;
      JoinSum(a[1..], b);
    }
  }

  /** Go's `ensureNL`. */
  function EnsureNL(l: string): string {
    if Terminated(l) then l else l + "\n"
  }

  function EnsureAll(ls: seq<string>): (r: seq<string>)
    ensures |r| == |ls|
    ensures forall i :: 0 <= i < |ls| ==> r[i] == EnsureNL(ls[i])
  {
    seq(|ls|, i requires 0 <= i < |ls| => EnsureNL(ls[i]))
  }

  lemma EnsureTerminated(ls: seq<string>)
    requires AllTerminated(ls)
    ensures EnsureAll(ls) == ls
  {
  }

  lemma SliceStep(file: seq<string>, i: nat, j: nat)
    requires i < j <= |file|
    ensures file[i..j] == [file[i]] + file[i + 1..j]
  {
  }
}
