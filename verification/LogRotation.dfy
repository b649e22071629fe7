/**
 The size-limited log file and its numbered backups.
 */
module LogRotation {
  import opened Text

  /** A file's bytes; whether it was created during this run, and by how many entries since. */
  datatype File = File(content: string, created: bool, entries: nat)

  /** The live file, and the backups by number; a higher number is older. */
  datatype Log = Log(live: File, backups: map<nat, File>)

  const NEW_FILE := File("", true, 0)

  function Append(f: File, p: string): File {
    File(f.content + p, f.created, f.entries + 1)
  }

  // ------------------------------------------------------------- what a write means

  /** The numbers 1 to n. */
  function Numbers(n: nat): (s: set<nat>)
    ensures |s| == n && forall i :: i in s <==> 1 <= i <= n
  {
    if n == 0 then {} else Numbers(n - 1) + {n}
  }

  /** Every backup moves one number up, the one with the highest number is lost, and the live
      file becomes number 1; without backups the live file itself is lost. */
  function Shifted(l: Log, maxBackups: nat): map<nat, File> {
    map n | n in Numbers(maxBackups) && (n == 1 || n - 1 in l.backups)
      :: if n == 1 then l.live else l.backups[n - 1]
  }

  function Rotated(l: Log, maxBackups: nat): Log {
    Log(NEW_FILE, if maxBackups == 0 then l.backups else Shifted(l, maxBackups))
  }

  predicate Fits(l: Log, p: string, maxBytes: int) {
    |l.live.content| + |p| <= maxBytes
  }

  function Written(l: Log, p: string, maxBytes: int, maxBackups: nat): Log {
    var l' := if Fits(l, p, maxBytes) then l else Rotated(l, maxBackups);
    l'.(live := Append(l'.live, p))
  }

  function WrittenAll(l: Log, ps: seq<string>, maxBytes: int, maxBackups: nat): Log
    decreases |ps|
  {
    if ps == [] then l else WrittenAll(Written(l, ps[0], maxBytes, maxBackups), ps[1..], maxBytes, maxBackups)
  }

  // ------------------------------------------------------------------ the file system

  function Rename(files: map<nat, File>, from: nat, to: nat): map<nat, File> {
    if from in files then (files - {from})[to := files[from]] else files
  }

  /** The number a backup had before those above `i` were moved up. */
  function Before(n: nat, i: nat): int {
    if n <= i then n else n - 1
  }

  /** The backups after the oldest was removed and those above `i` moved up. */
  function MovedAbove(b: map<nat, File>, i: nat, maxBackups: nat): map<nat, File> {
    map n | n in Numbers(maxBackups) && n != i + 1 && Before(n, i) in b :: b[Before(n, i)]
  }

  lemma MovedStep(b: map<nat, File>, i: nat, maxBackups: nat)
    requires 1 <= i < maxBackups
    ensures Rename(MovedAbove(b, i, maxBackups), i, i + 1) == MovedAbove(b, i - 1, maxBackups)
  {
    hide Numbers;
    var l, r := Rename(MovedAbove(b, i, maxBackups), i, i + 1), MovedAbove(b, i - 1, maxBackups);
    forall n ensures n in l <==> n in r {
      assert n != i && n != i + 1 ==> Before(n, i) == Before(n, i - 1);
    }
    forall n | n in l ensures l[n] == r[n] {
      assert n != i + 1 ==> Before(n, i) == Before(n, i - 1);
    }
  }

  lemma OldestRemoved(b: map<nat, File>, maxBackups: nat)
    requires maxBackups >= 1 && forall n :: n in b ==> 1 <= n <= maxBackups
    ensures b - {maxBackups} == MovedAbove(b, maxBackups - 1, maxBackups)
  {
    hide Numbers;
  }

  lemma LiveBecomesFirst(l: Log, maxBackups: nat)
    requires maxBackups >= 1
    ensures MovedAbove(l.backups, 0, maxBackups)[1 := l.live] == Shifted(l, maxBackups)
  {
    var m := MovedAbove(l.backups, 0, maxBackups);
    var s := Shifted(l, maxBackups);
    forall n ensures n in m[1 := l.live] <==> n in s {
      InMoved(l, n, maxBackups);
    }
    forall n | n in s ensures m[1 := l.live][n] == s[n] {
      InMoved(l, n, maxBackups);
    }
  }

  lemma InMoved(l: Log, n: nat, maxBackups: nat)
    requires maxBackups >= 1
    ensures var m, s := MovedAbove(l.backups, 0, maxBackups), Shifted(l, maxBackups);
            && (n == 1 ==> n !in m && n in s && s[n] == l.live)
            && (n != 1 ==> (n in m <==> n in s) && (n in m ==> m[n] == s[n]))
  {
  }

  /** Removes the oldest backup and moves the others up, from the highest number down. */
  method ShiftBackups(existing: map<nat, File>, maxBackups: nat) returns (backups: map<nat, File>)
    requires maxBackups >= 1 && forall n :: n in existing ==> 1 <= n <= maxBackups
    ensures backups == MovedAbove(existing, 0, maxBackups)
  {
    hide Rename, MovedAbove, Numbers;
    OldestRemoved(existing, maxBackups);
    backups := existing - {maxBackups};
    var i: nat := maxBackups - 1;
    while i >= 1
      invariant i < maxBackups && backups == MovedAbove(existing, i, maxBackups)
    {
      MovedStep(existing, i, maxBackups);
      backups := Rename(backups, i, i + 1);
      i := i - 1;
    }
  }

  class RotatingFile {
    var live: File
    var backups: map<nat, File>
    const maxBytes: int
    const maxBackups: nat
    var sizeBytes: int

    ghost function Value(): Log
      reads this
    {
      Log(live, backups)
    }

    ghost predicate Valid()
      reads this
    {
      && sizeBytes == |live.content| && maxBytes > 0
      && forall n :: n in backups ==> 1 <= n <= maxBackups
    }

    constructor (existing: Log, maxBytes: int, maxBackups: int)
      requires forall n :: n in existing.backups ==> 1 <= n <= Max(0, maxBackups)
      ensures Valid() && Value() == existing
      ensures this.maxBytes == (if maxBytes <= 0 then 10485760 else maxBytes)
      ensures this.maxBackups == Max(0, maxBackups)
    {
      live, backups, sizeBytes := existing.live, existing.backups, |existing.live.content|;
      this.maxBytes := if maxBytes <= 0 then 10485760 else maxBytes;
      this.maxBackups := Max(0, maxBackups);
    }

    method RotateIfNeeded(incoming: nat)
      requires Valid()
      modifies this
      ensures Valid()
      ensures Value() == if old(sizeBytes) + incoming <= maxBytes then old(Value())
                         else Rotated(old(Value()), maxBackups)
    {
      if sizeBytes + incoming <= maxBytes {
        return;
      }
      hide Rename, MovedAbove, Shifted, Numbers;
      ghost var before := Value();
      RotationHasNoStray(before, maxBackups);
      if maxBackups > 0 {
        backups := ShiftBackups(backups, maxBackups);
        LiveBecomesFirst(before, maxBackups);
        backups := backups[1 := live];
      }
      live := NEW_FILE;
      sizeBytes := 0;
    }

    method Write(p: string)
      requires Valid()
      modifies this
      ensures Valid() && Value() == Written(old(Value()), p, maxBytes, maxBackups)
    {
      RotateIfNeeded(|p|);
      live := Append(live, p);
      sizeBytes := sizeBytes + |p|;
    }
  }

  // ---------------------------------------------------------------- what is kept

  /** The contents of the backups from number `n` down to 1. */
  function Chain(backups: map<nat, File>, n: nat): string {
    if n == 0 then "" else (if n in backups then backups[n].content else "") + Chain(backups, n - 1)
  }

  /** All that is kept, oldest first. */
  function Kept(l: Log, maxBackups: nat): string {
    Chain(l.backups, maxBackups) + l.live.content
  }

  predicate IsSuffix(a: string, b: string) {
    |a| <= |b| && b[|b| - |a|..] == a
  }

  predicate NoStray(l: Log, maxBackups: nat) {
    forall n :: n in l.backups ==> 1 <= n <= maxBackups
  }

  /** A file created during the run is within the limit or holds a single entry. */
  predicate Modest(f: File, maxBytes: int) {
    f.created ==> |f.content| <= maxBytes || f.entries == 1
  }

  predicate AllModest(l: Log, maxBytes: int) {
    Modest(l.live, maxBytes) && forall n :: n in l.backups ==> Modest(l.backups[n], maxBytes)
  }

  lemma {:induction false} ShiftedChain(l: Log, maxBackups: nat, n: nat)
    requires 1 <= n <= maxBackups
    ensures Chain(Shifted(l, maxBackups), n) == Chain(l.backups, n - 1) + l.live.content
    decreases n
  {
    if n > 1 {
      ShiftedChain(l, maxBackups, n - 1);
    } else {
      assert Chain(Shifted(l, maxBackups), 0) == "";
    }
  }

  /** What a rotation throws away: the oldest backup, if all numbers are in use, or without
      backups the live file. */
  function Lost(l: Log, maxBackups: nat): string {
    if maxBackups == 0 then l.live.content
    else if maxBackups in l.backups then l.backups[maxBackups].content
    else ""
  }

  /** Rotation loses exactly that, from the old end, and keeps the rest in order. */
  lemma RotationLosesOldest(l: Log, maxBackups: nat)
    requires NoStray(l, maxBackups)
    ensures Kept(l, maxBackups) == Lost(l, maxBackups) + Kept(Rotated(l, maxBackups), maxBackups)
    ensures Rotated(l, maxBackups).live == File("", true, 0)
  {
    hide Shifted;
    var l' := Rotated(l, maxBackups);
    if maxBackups > 0 {
      ShiftedChain(l, maxBackups, maxBackups);
      assert Kept(l', maxBackups) == Chain(l.backups, maxBackups - 1) + l.live.content;
    } else {
      assert Kept(l', maxBackups) == "";
    }
  }

  /** So it keeps a suffix of what was kept. */
  lemma RotationKeepsSuffix(l: Log, maxBackups: nat)
    requires NoStray(l, maxBackups)
    ensures IsSuffix(Kept(Rotated(l, maxBackups), maxBackups), Kept(l, maxBackups))
  {
    hide Rotated, Kept;
    RotationLosesOldest(l, maxBackups);
  }

  lemma RotationHasNoStray(l: Log, maxBackups: nat)
    requires NoStray(l, maxBackups)
    ensures NoStray(Rotated(l, maxBackups), maxBackups)
  {
    hide Numbers;
  }

  lemma SuffixGrows(a: string, b: string, p: string)
    requires IsSuffix(a, b)
    ensures IsSuffix(a + p, b + p)
  {
  }

  lemma SuffixTrans(a: string, b: string, c: string)
    requires IsSuffix(a, b) && IsSuffix(b, c)
    ensures IsSuffix(a, c)
  {
  }

  lemma WriteKeepsSuffix(l: Log, p: string, maxBytes: int, maxBackups: nat)
    requires NoStray(l, maxBackups)
    ensures var l' := Written(l, p, maxBytes, maxBackups);
            NoStray(l', maxBackups) && IsSuffix(Kept(l', maxBackups), Kept(l, maxBackups) + p)
  {
    hide Shifted;
    var r := if Fits(l, p, maxBytes) then l else Rotated(l, maxBackups);
    RotationHasNoStray(l, maxBackups);
    if !Fits(l, p, maxBytes) {
      RotationKeepsSuffix(l, maxBackups);
    }
    var l' := Written(l, p, maxBytes, maxBackups);
    assert Kept(l', maxBackups) == Kept(r, maxBackups) + p by {
      var c := Chain(r.backups, maxBackups);
      assert c + (r.live.content + p) == (c + r.live.content) + p;
    }
    SuffixGrows(Kept(r, maxBackups), Kept(l, maxBackups), p);
  }

  /** After any writes the backups, from the highest number down, and then the live file are a
      suffix of everything that was ever written; there are at most `maxBackups` backups. */
  lemma {:induction false} KeepsTheNewest(l: Log, ps: seq<string>, maxBytes: int, maxBackups: nat)
    requires NoStray(l, maxBackups)
    ensures var l' := WrittenAll(l, ps, maxBytes, maxBackups);
            && IsSuffix(Kept(l', maxBackups), Kept(l, maxBackups) + Concat(ps))
            && NoStray(l', maxBackups) && |l'.backups| <= maxBackups
    decreases |ps|
  {
    hide Written, Kept, IsSuffix;
    var all := Kept(l, maxBackups);
    if ps == [] {
      assert all + "" == all;
      SuffixOfItself(all);
      FewBackups(l, maxBackups);
    } else {
      var next := Written(l, ps[0], maxBytes, maxBackups);
      WriteKeepsSuffix(l, ps[0], maxBytes, maxBackups);
      KeepsTheNewest(next, ps[1..], maxBytes, maxBackups);
      SuffixGrows(Kept(next, maxBackups), all + ps[0], Concat(ps[1..]));
      assert all + ps[0] + Concat(ps[1..]) == all + Concat(ps);
      SuffixTrans(Kept(WrittenAll(l, ps, maxBytes, maxBackups), maxBackups),
                  Kept(next, maxBackups) + Concat(ps[1..]), all + Concat(ps));
    }
  }

  lemma SuffixOfItself(s: string)
    ensures IsSuffix(s, s)
  {
  }

  lemma FewBackups(l: Log, maxBackups: nat)
    requires NoStray(l, maxBackups)
    ensures |l.backups| <= maxBackups
  {
    assert l.backups.Keys <= Numbers(maxBackups);
    SubsetSize(l.backups.Keys, Numbers(maxBackups));
  }

  lemma SubsetSize(a: set<nat>, b: set<nat>)
    requires a <= b
    ensures |a| <= |b|
  {
    if a != {} {
      var x :| x in a;
      SubsetSize(a - {x}, b - {x});
    }
  }

  lemma WriteStaysModest(l: Log, p: string, maxBytes: int, maxBackups: nat)
    requires maxBytes > 0 && AllModest(l, maxBytes)
    ensures AllModest(Written(l, p, maxBytes, maxBackups), maxBytes)
    ensures IsSuffix(p, Written(l, p, maxBytes, maxBackups).live.content)
  {
    hide Numbers;
  }

  /** Every file created during the run is within the limit or holds exactly one entry, and the
      newest entry is always at the end of the live file. */
  lemma {:induction false} FilesStayModest(l: Log, ps: seq<string>, maxBytes: int, maxBackups: nat)
    requires maxBytes > 0 && AllModest(l, maxBytes)
    ensures AllModest(WrittenAll(l, ps, maxBytes, maxBackups), maxBytes)
    ensures ps != [] ==> IsSuffix(ps[|ps| - 1], WrittenAll(l, ps, maxBytes, maxBackups).live.content)
    decreases |ps|
  {
    hide Written, AllModest, IsSuffix;
    if ps != [] {
      var next := Written(l, ps[0], maxBytes, maxBackups);
      WriteStaysModest(l, ps[0], maxBytes, maxBackups);
      FilesStayModest(next, ps[1..], maxBytes, maxBackups);
      if |ps| == 1 {
        assert WrittenAll(next, ps[1..], maxBytes, maxBackups) == next;
      }
    }
  }
}
