/**
 Byte strings and the handful of text operations the modelled code shares.

 A Go string is a sequence of bytes; here it is a `string` with one `char` per byte,
 so every statement proved for all strings holds for all byte strings.
 */
module Text {

  datatype Option<+T> = None | Some(value: T)

  datatype Result<+T, +E> = Ok(value: T) | Err(error: E)

  /** The largest value of Go's 64-bit `int`. */
  const MAX_INT: int := 0x7fff_ffff_ffff_ffff

  function Min(a: int, b: int): int {
    if a < b then a else b
  }

  function Max(a: int, b: int): int {
    if a > b then a else b
  }

  /** The last `n` elements, or all of them. */
  function LastOf<T>(s: seq<T>, n: nat): (r: seq<T>)
    ensures |r| == Min(|s|, n)
  {
    s[|s| - Min(|s|, n)..]
  }

  lemma LastOfFrom<T>(s: seq<T>, n: nat, start: nat)
    requires start == if |s| > n then |s| - n else 0
    ensures LastOf(s, n) == s[start..] && (s != [] && n > 0 ==> LastOf(s, n) != [])
  {
  }

  /** `strings.Join(ls, "\n")`. */
  function JoinNL(ls: seq<string>): string {
    if ls == [] then ""
    else if |ls| == 1 then ls[0]
    else ls[0] + "\n" + JoinNL(ls[1..])
  }

  /** `strings.Split` at each `sep`. */
  function SplitOn(s: string, sep: char): (r: seq<string>)
    ensures r != []
  {
    if s == "" then [""]
    else
      var rest := SplitOn(s[1..], sep);
      if s[0] == sep then [""] + rest else [[s[0]] + rest[0]] + rest[1..]
  }

  /** `strings.ReplaceAll` for a one-byte pattern. */
  function ReplaceAll(s: string, c: char, with: string): string {
    if s == "" then "" else (if s[0] == c then with else [s[0]]) + ReplaceAll(s[1..], c, with)
  }

  // ---------------------------------------------------------------- searching

  /** `pat` occurs in `s` at index `i`. */
  predicate OccursAt(s: string, pat: string, i: int) {
    0 <= i && i + |pat| <= |s| && s[i..i + |pat|] == pat
  }

  ghost predicate Contains(s: string, pat: string) {
    exists i :: OccursAt(s, pat, i)
  }

  function FindFrom(s: string, pat: string, from: nat): (r: int)
    requires from <= |s|
    ensures r >= -1
    ensures r >= 0 ==> from <= r && OccursAt(s, pat, r)
    ensures forall i :: from <= i && OccursAt(s, pat, i) ==> 0 <= r <= i
    decreases |s| - from
  {
    if OccursAt(s, pat, from) then from
    else if from == |s| then -1
    else FindFrom(s, pat, from + 1)
  }

  /** Index of the first occurrence of `pat` in `s`, or -1. */
  function Find(s: string, pat: string): (r: int)
    ensures r >= -1
    ensures r >= 0 ==> OccursAt(s, pat, r)
    ensures forall i :: OccursAt(s, pat, i) ==> 0 <= r <= i
  {
    FindFrom(s, pat, 0)
  }

  predicate IsLineBreak(c: char) {
    c == '\r' || c == '\n'
  }

  /** Index of the first CR or LF in `s`, or -1. */
  function FindLineBreak(s: string): (r: int)
    ensures -1 <= r < |s|
    ensures r >= 0 ==> IsLineBreak(s[r]) && forall i :: 0 <= i < r ==> !IsLineBreak(s[i])
    ensures r < 0 ==> forall i :: 0 <= i < |s| ==> !IsLineBreak(s[i])
  {
    if s == "" then -1
    else if IsLineBreak(s[0]) then 0
    else
      var r := FindLineBreak(s[1..]);
      if r < 0 then -1 else r + 1
  }

  /** Two strings that agree up to the first occurrence found in one have the same first occurrence. */
  lemma FindInExtension(p: string, pat: string, r: string)
    requires Find(p, pat) >= 0
    ensures Find(p + r, pat) == Find(p, pat)
  {
    var i := Find(p, pat);
    assert (p + r)[i..i + |pat|] == p[i..i + |pat|];
    assert OccursAt(p + r, pat, i);
    var j := Find(p + r, pat);
    assert (p + r)[j..j + |pat|] == p[j..j + |pat|];
    assert OccursAt(p, pat, j);
  }

  lemma FindLineBreakInExtension(p: string, r: string)
    ensures FindLineBreak(p) >= 0 ==> FindLineBreak(p + r) == FindLineBreak(p)
  {
    if FindLineBreak(p) >= 0 {
      var i, j := FindLineBreak(p), FindLineBreak(p + r);
      assert (p + r)[i] == p[i];
      assert j <= i;
      assert (p + r)[j] == p[j];
    }
  }

  // ------------------------------------------------------------------ numbers

  predicate IsDigit(c: char) {
    '0' <= c <= '9'
  }

  predicate AllDigits(s: string) {
    forall i :: 0 <= i < |s| ==> IsDigit(s[i])
  }

  function DigitValue(c: char): nat
    requires IsDigit(c)
  {
    c as int - '0' as int
  }

  /** Value of a string of decimal digits (0 for the empty string). */
  function DecimalValue(s: string): nat
    requires AllDigits(s)
  {
    if s == "" then 0
    else 10 * DecimalValue(s[..|s| - 1]) + DigitValue(s[|s| - 1])
  }

  /** Decimal rendering, as `%d` prints a non-negative integer. */
  function Itoa(n: nat): (s: string)
    ensures s != "" && AllDigits(s)
    ensures DecimalValue(s) == n
  {
    var last := ('0' as int + n % 10) as char;
    if n < 10 then [last]
    else
      var s := Itoa(n / 10) + [last];
      assert s[..|s| - 1] == Itoa(n / 10);
      s
  }

  // ----------------------------------------------------------------- trimming

  predicate IsAsciiSpace(c: char) {
    c == ' ' || '\t' <= c <= '\r'
  }

  /** The bytes of one non-ASCII Unicode white-space character, in UTF-8. */
  predicate IsWideSpace(s: string) {
    if |s| == 2 then
      s[0] as int == 0xC2 && s[1] as int in {0x85, 0xA0}
    else if |s| == 3 then
      var a, b, c := s[0] as int, s[1] as int, s[2] as int;
      || (a == 0xE1 && b == 0x9A && c == 0x80)
      || (a == 0xE2 && b == 0x80 && (0x80 <= c <= 0x8A || c in {0xA8, 0xA9, 0xAF}))
      || (a == 0xE2 && b == 0x81 && c == 0x9F)
      || (a == 0xE3 && b == 0x80 && c == 0x80)
    else false
  }

  function TrimLeftSpace(s: string): string {
    if s == "" then ""
    else if IsAsciiSpace(s[0]) then TrimLeftSpace(s[1..])
    else if |s| >= 2 && IsWideSpace(s[..2]) then TrimLeftSpace(s[2..])
    else if |s| >= 3 && IsWideSpace(s[..3]) then TrimLeftSpace(s[3..])
    else s
  }

  function TrimRightSpace(s: string): string {
    var n := |s|;
    if s == "" then ""
    else if IsAsciiSpace(s[n - 1]) then TrimRightSpace(s[..n - 1])
    else if n >= 2 && IsWideSpace(s[n - 2..]) then TrimRightSpace(s[..n - 2])
    else if n >= 3 && IsWideSpace(s[n - 3..]) then TrimRightSpace(s[..n - 3])
    else s
  }

  /** Go's `strings.TrimSpace`, on the UTF-8 bytes. */
  function TrimSpace(s: string): string {
    TrimRightSpace(TrimLeftSpace(s))
  }

  /** `strings.TrimRight(s, "\r\n")`. */
  function TrimLineEnd(s: string): (r: string)
    ensures r <= s
  {
    if s != "" && IsLineBreak(s[|s| - 1]) then TrimLineEnd(s[..|s| - 1]) else s
  }

  /** It takes off all CR and LF at the end, and nothing else. */
  lemma {:induction false} TrimLineEndIs(s: string)
    ensures var r := TrimLineEnd(s);
            && s == r + s[|r|..]
            && (forall i :: |r| <= i < |s| ==> IsLineBreak(s[i]))
            && (r != "" ==> !IsLineBreak(r[|r| - 1]))
    decreases |s|
  {
    if s != "" && IsLineBreak(s[|s| - 1]) {
      TrimLineEndIs(s[..|s| - 1]);
      assert forall i :: |TrimLineEnd(s)| <= i < |s| - 1 ==> s[i] == s[..|s| - 1][i];
    }
  }

  /** A string of digits has nothing to trim. */
  lemma TrimSpaceOfDigits(s: string)
    requires AllDigits(s)
    ensures TrimSpace(s) == s
  {
  }

  /** One white-space character. */
  predicate IsSpaceUnit(u: string) {
    (|u| == 1 && IsAsciiSpace(u[0])) || IsWideSpace(u)
  }

  /** A character below U+10000, in UTF-8. */
  function Utf8(c: nat): string
    requires c < 0x10000
  {
    if c < 0x80 then [c as char]
    else if c < 0x800 then [(0xC0 + c / 64) as char, (0x80 + c % 64) as char]
    else [(0xE0 + c / 4096) as char, (0x80 + c / 64 % 64) as char, (0x80 + c % 64) as char]
  }

  /** The characters with the property White_Space of the Unicode standard. */
  predicate IsUnicodeSpace(c: nat) {
    || 0x9 <= c <= 0xD || c == 0x20 || c == 0x85 || c == 0xA0 || c == 0x1680 || 0x2000 <= c <= 0x200A
    || c == 0x2028 || c == 0x2029 || c == 0x202F || c == 0x205F || c == 0x3000
  }

  lemma SpacesAreUnicode(u: string)
    ensures IsSpaceUnit(u) <==> exists c: nat :: c < 0x10000 && IsUnicodeSpace(c) && u == Utf8(c)
  {
    if IsSpaceUnit(u) {
      var c := SpaceAt(u);
      assert c < 0x10000 && IsUnicodeSpace(c) && u == Utf8(c);
    }
    forall c: nat | c < 0x10000 && IsUnicodeSpace(c)
      ensures IsSpaceUnit(Utf8(c))
    {
      UnicodeIsSpace(c);
    }
  }

  lemma SpaceAt(u: string) returns (c: nat)
    requires IsSpaceUnit(u)
    ensures c < 0x10000 && IsUnicodeSpace(c) && u == Utf8(c)
  {
    if |u| == 1 {
      c := u[0] as int;
    } else if |u| == 2 {
      c := u[1] as int;
    } else {
      c := (u[0] as int - 0xE0) * 4096 + (u[1] as int - 0x80) * 64 + (u[2] as int - 0x80);
      assert u == [u[0], u[1], u[2]];
    }
  }

  lemma UnicodeIsSpace(c: nat)
    requires c < 0x10000 && IsUnicodeSpace(c)
    ensures IsSpaceUnit(Utf8(c))
  {
  }

  predicate AllSpaces(us: seq<string>) {
    forall i :: 0 <= i < |us| ==> IsSpaceUnit(us[i])
  }

  /** Nothing but white-space characters. */
  ghost predicate Blank(s: string) {
    exists us :: AllSpaces(us) && s == Concat(us)
  }

  lemma {:induction false} TrimLeftCuts(s: string) returns (us: seq<string>)
    ensures AllSpaces(us) && s == Concat(us) + TrimLeftSpace(s)
    decreases |s|
  {
    hide IsSpaceUnit, TrimLeftSpace, Concat;
    var k := LeftSpace(s);
    if k == 0 {
      ConcatNone(s);
      us := [];
    } else {
      var more := TrimLeftCuts(s[k..]);
      us := [s[..k]] + more;
      ConcatCons(s[..k], more);
      assert s == s[..k] + s[k..] == s[..k] + (Concat(more) + TrimLeftSpace(s[k..]));
    }
  }

  /** Length of the white-space character a text starts with, if it does. */
  lemma LeftSpace(s: string) returns (k: nat)
    ensures k <= |s|
    ensures k > 0 ==> IsSpaceUnit(s[..k]) && TrimLeftSpace(s) == TrimLeftSpace(s[k..])
    ensures k == 0 ==> TrimLeftSpace(s) == s
  {
    hide IsAsciiSpace, IsWideSpace;
    k := if s == "" then 0
         else if IsAsciiSpace(s[0]) then 1
         else if |s| >= 2 && IsWideSpace(s[..2]) then 2
         else if |s| >= 3 && IsWideSpace(s[..3]) then 3
         else 0;
  }

  lemma {:induction false} TrimRightCuts(s: string) returns (us: seq<string>)
    ensures AllSpaces(us) && s == TrimRightSpace(s) + Concat(us)
    decreases |s|
  {
    hide IsSpaceUnit, TrimRightSpace, Concat;
    var front, u := RightSpace(s);
    if u == "" {
      ConcatNone(s);
      us := [];
    } else {
      var more := TrimRightCuts(front);
      us := more + [u];
      ConcatSnoc(more, u);
      assert s == (TrimRightSpace(front) + Concat(more)) + u;
    }
  }

  /** The white-space character a text ends with, if it does. */
  lemma RightSpace(s: string) returns (front: string, u: string)
    ensures s == front + u
    ensures u != "" ==> IsSpaceUnit(u) && TrimRightSpace(s) == TrimRightSpace(front)
    ensures u == "" ==> TrimRightSpace(s) == s
  {
    hide IsAsciiSpace, IsWideSpace, TrimRightSpace;
    TrimRightStep(s);
    var n := |s|;
    if s == "" {
      front, u := s, "";
    } else if IsAsciiSpace(s[n - 1]) {
      front, u := s[..n - 1], [s[n - 1]];
    } else if n >= 2 && IsWideSpace(s[n - 2..]) {
      front, u := s[..n - 2], s[n - 2..];
    } else if n >= 3 && IsWideSpace(s[n - 3..]) {
      front, u := s[..n - 3], s[n - 3..];
    } else {
      front, u := s, "";
    }
  }

  lemma TrimRightStep(s: string)
    ensures var n := |s|;
            TrimRightSpace(s)
            == if s == "" then ""
               else if IsAsciiSpace(s[n - 1]) then TrimRightSpace(s[..n - 1])
               else if n >= 2 && IsWideSpace(s[n - 2..]) then TrimRightSpace(s[..n - 2])
               else if n >= 3 && IsWideSpace(s[n - 3..]) then TrimRightSpace(s[..n - 3])
               else s
  {
    hide IsAsciiSpace, IsWideSpace;
  }

  lemma {:induction false} TrimLeftBlank(us: seq<string>, t: string)
    requires AllSpaces(us)
    ensures TrimLeftSpace(Concat(us) + t) == TrimLeftSpace(t)
    decreases |us|
  {
    hide TrimLeftSpace, IsSpaceUnit;
    if us == [] {
      assert Concat(us) + t == t;
    } else {
      var more := us[1..];
      TrimLeftBlank(more, t);
      TrimLeftUnit(us[0], Concat(more) + t);
      assert Concat(us) + t == us[0] + (Concat(more) + t);
    }
  }

  lemma TrimLeftUnit(u: string, t: string)
    requires IsSpaceUnit(u)
    ensures TrimLeftSpace(u + t) == TrimLeftSpace(t)
  {
    var s := u + t;
    assert s[..|u|] == u && s[|u|..] == t && s[0] == u[0];
    assert |u| == 3 ==> s[..2] == u[..2];
  }

  lemma {:induction false} TrimRightBlank(t: string, us: seq<string>)
    requires AllSpaces(us)
    ensures TrimRightSpace(t + Concat(us)) == TrimRightSpace(t)
    decreases |us|
  {
    hide TrimRightSpace, IsSpaceUnit, Concat;
    if us == [] {
      assert t + Concat(us) == t by { ConcatNone(t); }
    } else {
      var n := |us| - 1;
      var front := us[..n];
      assert us == front + [us[n]];
      TrimRightBlank(t, front);
      ConcatSnoc(front, us[n]);
      TrimRightUnit(t + Concat(front), us[n]);
      assert t + (Concat(front) + us[n]) == (t + Concat(front)) + us[n];
    }
  }

  lemma ConcatNone(t: string)
    ensures t + Concat([]) == t && Concat([]) + t == t
  {
  }

  lemma TrimRightUnit(t: string, u: string)
    requires IsSpaceUnit(u)
    ensures TrimRightSpace(t + u) == TrimRightSpace(t)
  {
    UnitEnds(t, u);
    hide IsAsciiSpace, IsWideSpace;
    var s := t + u;
    if |u| == 1 {
      assert TrimRightSpace(s) == TrimRightSpace(s[..|s| - 1]);
    } else if |u| == 2 {
      assert TrimRightSpace(s) == TrimRightSpace(s[..|s| - 2]);
    } else {
      assert TrimRightSpace(s) == TrimRightSpace(s[..|s| - 3]);
    }
  }

  lemma UnitEnds(t: string, u: string)
    requires IsSpaceUnit(u)
    ensures var s := t + u;
            && 1 <= |u| <= 3 && s[..|s| - |u|] == t && s[|s| - |u|..] == u
            && s[|s| - 1] == u[|u| - 1]
            && (|u| > 1 ==> !IsAsciiSpace(s[|s| - 1]))
            && (|u| == 3 ==> !IsWideSpace(s[|s| - 2..]))
  {
    var s := t + u;
    assert |u| == 3 ==> s[|s| - 2..] == u[1..];
  }

  /** Trimming leaves digits exactly when there is only white space around them. */
  lemma TrimSpaceIs(s: string, d: string)
    requires d != "" && AllDigits(d)
    ensures TrimSpace(s) == d <==> exists a, b :: Blank(a) && Blank(b) && s == a + d + b
  {
    hide TrimLeftSpace, TrimRightSpace, AllDigits, AllSpaces, Concat;
    if TrimSpace(s) == d {
      var us := TrimLeftCuts(s);
      var vs := TrimRightCuts(TrimLeftSpace(s));
      var a, b := Concat(us), Concat(vs);
      assert a + (d + b) == a + d + b;
      assert Blank(a) && Blank(b) && s == a + d + b;
    }
    if a, b :| Blank(a) && Blank(b) && s == a + d + b {
      var us :| AllSpaces(us) && a == Concat(us);
      var vs :| AllSpaces(vs) && b == Concat(vs);
      assert a + d + b == a + (d + b);
      TrimLeftBlank(us, d + b);
      TrimLeftAtDigit(d, b);
      TrimRightBlank(d, vs);
      TrimRightAtDigit(d);
    }
  }

  lemma TrimLeftAtDigit(d: string, b: string)
    requires d != "" && AllDigits(d)
    ensures TrimLeftSpace(d + b) == d + b
  {
    assert (d + b)[0] == d[0] && IsDigit(d[0]);
  }

  lemma TrimRightAtDigit(d: string)
    requires d != "" && AllDigits(d)
    ensures TrimRightSpace(d) == d
  {
    assert IsDigit(d[|d| - 1]);
  }

  // ---------------------------------------------------------- sequences and sets

  /** All strings one after another. */
  function Concat(ps: seq<string>): string {
    if ps == [] then "" else ps[0] + Concat(ps[1..])
  }

  lemma ConcatCons(p: string, ps: seq<string>)
    ensures Concat([p] + ps) == p + Concat(ps)
  {
    assert ([p] + ps)[1..] == ps;
  }

  lemma ConcatSnoc(ps: seq<string>, p: string)
    ensures Concat(ps + [p]) == Concat(ps) + p
  {
    if ps == [] {
      assert [p][1..] == [] && p + "" == p && "" + p == p;
    } else {
      assert (ps + [p])[1..] == ps[1..] + [p];
      ConcatSnoc(ps[1..], p);
      assert ps[0] + (Concat(ps[1..]) + p) == (ps[0] + Concat(ps[1..])) + p;
    }
  }

  /** Two sets that differ in one element at most. */
  lemma SizeIfChanged<T>(a: set<T>, b: set<T>, x: T)
    requires forall y :: y != x ==> (y in a <==> y in b)
    ensures |b| == |a| - (if x in a then 1 else 0) + (if x in b then 1 else 0)
  {
    assert a - {x} == b - {x};
    assert x in a ==> a == (a - {x}) + {x};
    assert x in b ==> b == (b - {x}) + {x};
    assert x !in a ==> a == a - {x};
    assert x !in b ==> b == b - {x};
  }

  /** Some number is above all of a set. */
  lemma AboveAll(xs: set<nat>) returns (x: nat)
    ensures forall y :: y in xs ==> y < x
  {
    if xs == {} {
      x := 0;
    } else {
      var y :| y in xs;
      var z := AboveAll(xs - {y});
      x := if y < z then z else y + 1;
      assert xs == (xs - {y}) + {y};
    }
  }
}
