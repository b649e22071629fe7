/**
 Quoting of argument vectors: for a shell's input line, and for the policy engine.
 */
module Quoting {
  import opened Text

  /** Which quoting a shell understands; only bash and zsh get dollar-single-quotes. */
  datatype Shell = Bash | Zsh | OtherShell

  // -------------------------------------------------------------------- quoting

  /** Every single-quote replaced. */
  function ReplaceQuotes(s: string, sub: string): string {
    ReplaceAll(s, '\'', sub)
  }

  function ShellQuote(s: string): string {
    if s == "" then "''" else "'" + ReplaceQuotes(s, "'\"'\"'") + "'"
  }

  predicate IsControl(c: char) {
    c as int < 0x20 || c as int == 0x7f
  }

  predicate NeedsEscaping(s: string) {
    exists i :: 0 <= i < |s| && IsControl(s[i])
  }

  function OctalDigit(n: nat): char
    requires n < 8
  {
    ('0' as int + n) as char
  }

  /** A byte between dollar-single-quotes: itself, after a backslash, or as three octal digits. */
  function AnsiByte(b: char): string
    requires b as int < 256
  {
    var n := b as int;
    if b == '\\' || b == '\'' then ['\\', b]
    else if 0x20 <= n <= 0x7e then [b]
    else ['\\', OctalDigit(n / 64), OctalDigit(n / 8 % 8), OctalDigit(n % 8)]
  }

  function AnsiBytes(s: string): string
    requires IsBytes(s)
  {
    if s == "" then "" else AnsiByte(s[0]) + AnsiBytes(s[1..])
  }

  function AnsiQuote(s: string): string
    requires IsBytes(s)
  {
    "$'" + AnsiBytes(s) + "'"
  }

  /** Bytes other than NUL, which no argument of a process can hold. */
  predicate IsBytes(s: string) {
    forall i :: 0 <= i < |s| ==> 0 < s[i] as int < 256
  }

  function InputQuote(shell: Shell, s: string): string
    requires IsBytes(s)
  {
    if s == "" then "''"
    else if !NeedsEscaping(s) then ShellQuote(s)
    else if shell.Bash? || shell.Zsh? then AnsiQuote(s)
    else ShellQuote(s)
  }

  function JoinSpaced(parts: seq<string>): string {
    if parts == [] then ""
    else if |parts| == 1 then parts[0]
    else parts[0] + " " + JoinSpaced(parts[1..])
  }

  predicate AllBytes(argv: seq<string>) {
    forall i :: 0 <= i < |argv| ==> IsBytes(argv[i])
  }

  function InputQuotes(shell: Shell, argv: seq<string>): (r: seq<string>)
    requires AllBytes(argv)
    ensures |r| == |argv| && forall i :: 0 <= i < |argv| ==> r[i] == InputQuote(shell, argv[i])
  {
    seq(|argv|, i requires 0 <= i < |argv| => InputQuote(shell, argv[i]))
  }

  function InputQuoteJoin(shell: Shell, argv: seq<string>): string
    requires AllBytes(argv)
  {
    JoinSpaced(InputQuotes(shell, argv))
  }

  // ------------------------------- reading a line back: POSIX.1-2024 XCU, section 2.2

  /** What a quoted stretch stands for, and the input after its closing quote. */
  datatype Quoted = Quoted(content: string, rest: string)

  /** Section 2.2.2: everything up to the next single-quote is literal. */
  function SingleQuotes(s: string): (q: Option<Quoted>)
    ensures q.Some? ==> |q.value.rest| < |s|
  {
    if s == "" then None
    else if s[0] == '\'' then Some(Quoted("", s[1..]))
    else
      match SingleQuotes(s[1..])
      case None => None
      case Some(q) => Some(Quoted([s[0]] + q.content, q.rest))
  }

  /** Section 2.2.3: literal but for expansions, which are not covered here, and backslashes. */
  function DoubleQuotes(s: string): (q: Option<Quoted>)
    ensures q.Some? ==> |q.value.rest| < |s|
  {
    if s == "" || s[0] == '$' || s[0] == '`' then None
    else if s[0] == '"' then Some(Quoted("", s[1..]))
    else if s[0] == '\\' && |s| > 1 && s[1] in "$`\"\\" then
      match DoubleQuotes(s[2..])
      case None => None
      case Some(q) => Some(Quoted([s[1]] + q.content, q.rest))
    else
      match DoubleQuotes(s[1..])
      case None => None
      case Some(q) => Some(Quoted([s[0]] + q.content, q.rest))
  }

  predicate IsOctal(c: char) {
    '0' <= c <= '7'
  }

  function OctalValue(c: char): nat
    requires IsOctal(c)
  {
    c as int - '0' as int
  }

  /** Number of octal digits at the start of `s`, up to three. */
  function OctalRun(s: string): (n: nat)
    ensures n <= 3 && n <= |s| && forall i :: 0 <= i < n ==> IsOctal(s[i])
  {
    if |s| > 0 && IsOctal(s[0]) then
      if |s| > 1 && IsOctal(s[1]) then
        if |s| > 2 && IsOctal(s[2]) then 3 else 2
      else 1
    else 0
  }

  /** The byte given by one to three octal digits. */
  function OctalByte(digits: string): char
    requires 1 <= |digits| <= 3 && forall i :: 0 <= i < |digits| ==> IsOctal(digits[i])
  {
    var n := if |digits| == 1 then OctalValue(digits[0])
             else if |digits| == 2 then OctalValue(digits[0]) * 8 + OctalValue(digits[1])
             else OctalValue(digits[0]) * 64 + OctalValue(digits[1]) * 8 + OctalValue(digits[2]);
    (n % 256) as char
  }

  /** Section 2.2.4, of its escapes those for a quote, a backslash and octal digits; a NUL byte
      is not covered. */
  function DollarQuotes(s: string): (q: Option<Quoted>)
    ensures q.Some? ==> |q.value.rest| < |s|
  {
    if s == "" then None
    else if s[0] == '\'' then Some(Quoted("", s[1..]))
    else if s[0] != '\\' then
      match DollarQuotes(s[1..])
      case None => None
      case Some(q) => Some(Quoted([s[0]] + q.content, q.rest))
    else if |s| > 1 && s[1] in "\"'\\" then
      match DollarQuotes(s[2..])
      case None => None
      case Some(q) => Some(Quoted([s[1]] + q.content, q.rest))
    else
      var n := OctalRun(s[1..]);
      if n == 0 || OctalByte(s[1..][..n]) as int == 0 then None
      else
        match DollarQuotes(s[1 + n..])
        case None => None
        case Some(q) => Some(Quoted([OctalByte(s[1..][..n])] + q.content, q.rest))
  }

  /** The words of a line of quoted arguments; `word` is the one in progress. An unquoted
      character with a meaning of its own is not accepted. */
  function Words(s: string, word: Option<string>): Option<seq<string>>
    decreases |s|
  {
    if s == "" then Some(Ended(word))
    else if s[0] == ' ' || s[0] == '\t' then
      match Words(s[1..], None)
      case None => None
      case Some(more) => Some(Ended(word) + more)
    else if s[0] == '\'' then AfterQuote(s, SingleQuotes(s[1..]), word)
    else if s[0] == '"' then AfterQuote(s, DoubleQuotes(s[1..]), word)
    else if s[0] == '$' && |s| > 1 && s[1] == '\'' then AfterQuote(s, DollarQuotes(s[2..]), word)
    else if s[0] in "|&;<>()$`\\*?[]#~=%!{}\n" then None
    else Words(s[1..], Some(SoFar(word) + [s[0]]))
  }

  function AfterQuote(s: string, q: Option<Quoted>, word: Option<string>): Option<seq<string>>
    requires q.Some? ==> |q.value.rest| < |s|
    decreases |s|, 0
  {
    match q
    case None => None
    case Some(q) => Words(q.rest, Some(SoFar(word) + q.content))
  }

  function SoFar(word: Option<string>): string {
    if word.Some? then word.value else ""
  }

  function Ended(word: Option<string>): seq<string> {
    if word.Some? then [word.value] else []
  }

  // ------------------------------------------------------------- one argument

  predicate NoQuote(s: string) {
    forall i :: 0 <= i < |s| ==> s[i] != '\''
  }

  lemma {:induction false} SingleQuotesRead(s: string, rest: string)
    requires NoQuote(s)
    ensures SingleQuotes(s + "'" + rest) == Some(Quoted(s, rest))
    decreases |s|
  {
    if s == "" {
      assert s + "'" + rest == "'" + rest;
    } else {
      assert (s + "'" + rest)[1..] == s[1..] + "'" + rest;
      SingleQuotesRead(s[1..], rest);
      assert [s[0]] + s[1..] == s;
    }
  }

  /** The number of bytes before the first single-quote. */
  function BeforeQuote(s: string): (n: nat)
    ensures n <= |s| && NoQuote(s[..n]) && (n < |s| ==> s[n] == '\'')
  {
    if s == "" || s[0] == '\'' then 0 else 1 + BeforeQuote(s[1..])
  }

  lemma ReplaceQuotesStep(s: string, sub: string)
    ensures s == "" ==> BeforeQuote(s) == 0 && ReplaceQuotes(s, sub) == ""
    ensures s != "" ==> ReplaceQuotes(s, sub) == (if s[0] == '\'' then sub else [s[0]]) + ReplaceQuotes(s[1..], sub)
    ensures s != "" ==> BeforeQuote(s) == if s[0] == '\'' then 0 else BeforeQuote(s[1..]) + 1
  {
  }

  lemma {:induction false} ReplaceFirst(s: string, sub: string)
    ensures var n := BeforeQuote(s);
            ReplaceQuotes(s, sub) == if n == |s| then s else s[..n] + sub + ReplaceQuotes(s[n + 1..], sub)
    decreases |s|
  {
    hide ReplaceQuotes, BeforeQuote;
    ReplaceQuotesStep(s, sub);
    if s != "" {
      var rest := s[1..];
      assert s == [s[0]] + rest;
      if s[0] == '\'' {
        assert s[..0] + sub == sub;
      } else {
        ReplaceFirst(rest, sub);
        var n := BeforeQuote(rest);
        if n < |rest| {
          TailSlices(s, n);
          RegroupCut([s[0]], rest[..n], sub, ReplaceQuotes(rest[n + 1..], sub));
        }
      }
    }
  }

  lemma RegroupCut(a: string, b: string, c: string, d: string)
    ensures a + (b + c + d) == (a + b) + c + d
  {
  }

  lemma TailSlices(s: string, n: nat)
    requires s != "" && n < |s| - 1
    ensures [s[0]] + s[1..][..n] == s[..n + 1] && s[1..][n + 1..] == s[n + 2..]
  {
  }

  /** A single-quoted stretch joins the word in progress. */
  lemma StretchIsRead(a: string, tail: string, word: Option<string>)
    requires NoQuote(a)
    ensures Words("'" + (a + "'" + tail), word) == Words(tail, Some(SoFar(word) + a))
  {
    hide SingleQuotes;
    SingleQuotesRead(a, tail);
  }

  lemma DoubledQuote(rest: string)
    ensures DoubleQuotes("'" + ("\"" + rest)) == Some(Quoted("'", rest))
  {
    assert DoubleQuotes("\"" + rest) == Some(Quoted("", rest));
    assert ['\''] + "" == "'";
  }

  /** `"'"` stands for one single-quote. */
  lemma QuoteMarkIsRead(rest: string, word: Option<string>)
    ensures Words("\"" + ("'" + ("\"" + rest)), word) == Words(rest, Some(SoFar(word) + "'"))
  {
    hide DoubleQuotes;
    DoubledQuote(rest);
  }

  lemma QuoteLine(a: string, sub: string, r: string, rest: string)
    ensures sub == "'\"'\"'" ==>
              "'" + (a + sub + r) + "'" + rest
              == "'" + (a + "'" + ("\"" + ("'" + ("\"" + ("'" + r + "'" + rest)))))
    ensures sub == "'\\''" ==>
              "'" + (a + sub + r) + "'" + rest == "'" + (a + "'" + ("\\" + ("'" + ("'" + r + "'" + rest))))
  {
  }

  lemma CutAtQuote(s: string, word: string)
    requires BeforeQuote(s) < |s|
    ensures var n := BeforeQuote(s); word + s[..n] + "'" + s[n + 1..] == word + s
  {
    QuoteIsAt(s);
    hide BeforeQuote;
    CutAt(s, BeforeQuote(s), word);
  }

  lemma CutAt(s: string, n: nat, word: string)
    requires n < |s| && s[n] == '\''
    ensures word + s[..n] + "'" + s[n + 1..] == word + s
  {
    assert [s[n]] == "'" && s == s[..n] + ([s[n]] + s[n + 1..]);
  }

  lemma QuoteIsAt(s: string)
    requires BeforeQuote(s) < |s|
    ensures s[BeforeQuote(s)] == '\''
  {
  }

  /** A single-quoted argument is read back as part of the word in progress. */
  lemma {:induction false} QuotedIsRead(s: string, rest: string, word: Option<string>)
    ensures Words("'" + ReplaceQuotes(s, "'\"'\"'") + "'" + rest, word) == Words(rest, Some(SoFar(word) + s))
    decreases |s|
  {
    hide Words, ReplaceQuotes, BeforeQuote;
    var sub := "'\"'\"'";
    var n := BeforeQuote(s);
    ReplaceFirst(s, sub);
    if n == |s| {
      assert s[..n] == s;
      assert "'" + s + "'" + rest == "'" + (s + "'" + rest);
      StretchIsRead(s, rest, word);
    } else {
      var a, b := s[..n], s[n + 1..];
      var next := "'" + ReplaceQuotes(b, sub) + "'" + rest;
      QuoteLine(a, sub, ReplaceQuotes(b, sub), rest);
      StretchIsRead(a, "\"" + ("'" + ("\"" + next)), word);
      QuoteMarkIsRead(next, Some(SoFar(word) + a));
      QuotedIsRead(b, rest, Some(SoFar(word) + a + "'"));
      CutAtQuote(s, SoFar(word));
    }
  }

  lemma OctalSum(n: nat)
    requires n < 256
    ensures n / 64 < 8 && n / 64 * 64 + n / 8 % 8 * 8 + n % 8 == n
  {
  }

  lemma OctalReads(b: char)
    requires b as int < 256
    ensures var n := b as int;
            var digits := [OctalDigit(n / 64), OctalDigit(n / 8 % 8), OctalDigit(n % 8)];
            (forall i :: 0 <= i < 3 ==> IsOctal(digits[i])) && OctalByte(digits) == b
  {
    var n := b as int;
    OctalSum(n);
    DigitHasValue(n / 64);
    DigitHasValue(n / 8 % 8);
    DigitHasValue(n % 8);
    hide OctalDigit, OctalValue;
  }

  lemma DigitHasValue(n: nat)
    requires n < 8
    ensures IsOctal(OctalDigit(n)) && OctalValue(OctalDigit(n)) == n
  {
  }

  lemma AnsiByteIsRead(b: char, rest: string)
    requires 0 < b as int < 256
    ensures var q := DollarQuotes(AnsiByte(b) + rest);
            q == match DollarQuotes(rest)
                 case None => None
                 case Some(r) => Some(Quoted([b] + r.content, r.rest))
  {
    var line := AnsiByte(b) + rest;
    if b == '\\' || b == '\'' {
      assert line[2..] == rest;
    } else if 0x20 <= b as int <= 0x7e {
      assert line[1..] == rest;
    } else {
      OctalReads(b);
      assert line[1..][..3] == AnsiByte(b)[1..];
      assert line[4..] == rest;
    }
  }

  lemma {:induction false} AnsiBytesAreRead(s: string, rest: string)
    requires IsBytes(s)
    ensures DollarQuotes(AnsiBytes(s) + ("'" + rest)) == Some(Quoted(s, rest))
    decreases |s|
  {
    hide DollarQuotes, AnsiByte, AnsiBytes;
    AnsiBytesStep(s, "'" + rest);
    if s == "" {
      QuoteEnds(rest);
    } else {
      AnsiBytesAreRead(s[1..], rest);
      AnsiByteIsRead(s[0], AnsiBytes(s[1..]) + ("'" + rest));
      assert [s[0]] + s[1..] == s;
    }
  }

  lemma AnsiBytesStep(s: string, tail: string)
    requires IsBytes(s)
    ensures s == "" ==> AnsiBytes(s) + tail == tail
    ensures s != "" ==> AnsiBytes(s) + tail == AnsiByte(s[0]) + (AnsiBytes(s[1..]) + tail)
  {
    hide AnsiByte;
    if s != "" {
      assert AnsiByte(s[0]) + AnsiBytes(s[1..]) + tail == AnsiByte(s[0]) + (AnsiBytes(s[1..]) + tail);
    }
  }

  lemma QuoteEnds(rest: string)
    ensures DollarQuotes("'" + rest) == Some(Quoted("", rest))
  {
  }

  lemma AnsiQuoteIsRead(s: string, rest: string)
    requires IsBytes(s)
    ensures Words(AnsiQuote(s) + rest, None) == Words(rest, Some(s))
  {
    hide DollarQuotes, AnsiBytes;
    var body := AnsiBytes(s) + ("'" + rest);
    assert AnsiQuote(s) + rest == "$" + ("'" + body);
    assert ("$" + ("'" + body))[2..] == body;
    AnsiBytesAreRead(s, rest);
    assert "" + s == s;
  }

  lemma ShellQuoteIsRead(s: string, rest: string)
    ensures Words(ShellQuote(s) + rest, None) == Words(rest, Some(s))
  {
    hide Words;
    QuotedIsRead(s, rest, None);
    assert ShellQuote(s) == "'" + ReplaceQuotes(s, "'\"'\"'") + "'";
    assert "" + s == s;
  }

  lemma InputQuoteIsRead(shell: Shell, s: string, rest: string)
    requires IsBytes(s)
    ensures Words(InputQuote(shell, s) + rest, None) == Words(rest, Some(s))
  {
    hide Words, AnsiQuote;
    AnsiQuoteIsRead(s, rest);
    ShellQuoteIsRead(s, rest);
  }

  // --------------------------------------------------------------- whole lines

  /** Reading the joined line back gives the argument vector, for every shell and all bytes. */
  lemma {:induction false} LineIsReadBack(shell: Shell, argv: seq<string>)
    requires AllBytes(argv)
    ensures Words(InputQuoteJoin(shell, argv), None) == Some(argv)
    decreases |argv|
  {
    hide Words, InputQuote;
    var parts := InputQuotes(shell, argv);
    if argv == [] {
      NothingToRead();
    } else if |argv| == 1 {
      InputQuoteIsRead(shell, argv[0], "");
      assert parts[0] + "" == parts[0];
      NothingMore(argv[0]);
      assert [argv[0]] == argv;
    } else {
      var rest := argv[1..];
      assert parts[1..] == InputQuotes(shell, rest);
      LineIsReadBack(shell, rest);
      var tail := InputQuoteJoin(shell, rest);
      assert parts[0] + " " + tail == parts[0] + (" " + tail);
      InputQuoteIsRead(shell, argv[0], " " + tail);
      BlankEndsWord(tail, argv[0]);
      assert [argv[0]] + rest == argv;
    }
  }

  lemma NothingToRead()
    ensures Words("", None) == Some([])
  {
  }

  lemma NothingMore(word: string)
    ensures Words("", Some(word)) == Some([word])
  {
  }

  lemma BlankEndsWord(tail: string, word: string)
    ensures Words(" " + tail, Some(word)) == match Words(tail, None)
                                             case None => None
                                             case Some(more) => Some([word] + more)
  {
    assert (" " + tail)[1..] == tail;
  }

  /** No byte of it is a control byte. */
  predicate Clean(s: string) {
    forall i :: 0 <= i < |s| ==> s[i] as int >= 32 && s[i] as int != 127
  }

  lemma CleanSum(a: string, b: string)
    ensures Clean(a + b) <==> Clean(a) && Clean(b)
  {
    if Clean(a + b) {
      assert forall i :: 0 <= i < |a| ==> (a + b)[i] == a[i];
      assert forall i :: 0 <= i < |b| ==> (a + b)[|a| + i] == b[i];
    }
  }

  lemma {:induction false} ReplacedIsClean(s: string)
    requires Clean(s)
    ensures Clean(ReplaceQuotes(s, "'\"'\"'"))
    decreases |s|
  {
    if s != "" {
      ReplacedIsClean(s[1..]);
    }
  }

  lemma {:induction false} AnsiIsClean(s: string)
    requires IsBytes(s)
    ensures Clean(AnsiBytes(s))
    decreases |s|
  {
    if s != "" {
      AnsiIsClean(s[1..]);
      CleanSum(AnsiByte(s[0]), AnsiBytes(s[1..]));
    }
  }

  lemma InputQuoteIsClean(shell: Shell, s: string)
    requires IsBytes(s) && !shell.OtherShell?
    ensures Clean(InputQuote(shell, s))
  {
    if s != "" {
      if NeedsEscaping(s) {
        AnsiIsClean(s);
        CleanSum("$'", AnsiBytes(s));
        CleanSum("$'" + AnsiBytes(s), "'");
      } else {
        ReplacedIsClean(s);
        var r := ReplaceQuotes(s, "'\"'\"'");
        CleanSum("'", r);
        CleanSum("'" + r, "'");
      }
    }
  }

  /** For bash and zsh no control byte reaches the terminal, whatever the arguments hold. */
  lemma {:induction false} LineIsClean(shell: Shell, argv: seq<string>)
    requires AllBytes(argv) && !shell.OtherShell?
    ensures Clean(InputQuoteJoin(shell, argv))
    decreases |argv|
  {
    hide InputQuote, Clean;
    var parts := InputQuotes(shell, argv);
    if argv == [] {
      assert Clean("") by { EmptyIsClean(); }
    } else {
      InputQuoteIsClean(shell, argv[0]);
      if |argv| > 1 {
        assert parts[1..] == InputQuotes(shell, argv[1..]);
        LineIsClean(shell, argv[1..]);
        EmptyIsClean();
        CleanSum(parts[0], " ");
        CleanSum(parts[0] + " ", InputQuoteJoin(shell, argv[1..]));
      }
    }
  }

  lemma EmptyIsClean()
    ensures Clean("") && Clean(" ")
  {
  }

  // ------------------------------------------------------ the policy engine's string

  /** Arguments without control bytes are quoted alike for every shell: in single-quotes. */
  lemma PlainQuoteIsSame(shell: Shell, s: string)
    requires forall i :: 0 <= i < |s| ==> !IsControl(s[i])
    requires IsBytes(s)
    ensures InputQuote(shell, s) == "'" + ReplaceQuotes(s, "'\"'\"'") + "'"
  {
    assert s == "" ==> "'" + ReplaceQuotes(s, "'\"'\"'") + "'" == "''";
  }

  predicate IsSpecial(c: char) {
    c in " \t\n'\"\\"
  }

  predicate NoSpecial(s: string) {
    forall i :: 0 <= i < |s| ==> !IsSpecial(s[i])
  }

  function QuoteArg(arg: string): string {
    if arg == "" then "''"
    else if NoSpecial(arg) then arg
    else "'" + ReplaceQuotes(arg, "'\\''") + "'"
  }

  /** An argument with nothing special in it stands as it is. */
  lemma PlainArgStands(arg: string)
    requires arg != "" && forall i :: 0 <= i < |arg| ==> arg[i] !in {' ', '\t', '\n', '\'', '"', '\\'}
    ensures QuoteArg(arg) == arg
  {
  }

  function QuoteArgs(args: seq<string>): (r: seq<string>)
    ensures |r| == |args| && forall i :: 0 <= i < |args| ==> r[i] == QuoteArg(args[i])
  {
    seq(|args|, i requires 0 <= i < |args| => QuoteArg(args[i]))
  }

  function JoinArgs(args: seq<string>): string {
    JoinSpaced(QuoteArgs(args))
  }

  /** A reader for such strings: spaces separate, single-quotes quote, a backslash protects. */
  function Args(s: string, word: Option<string>): Option<seq<string>>
    decreases |s|
  {
    if s == "" then Some(Ended(word))
    else if s[0] == ' ' then
      match Args(s[1..], None)
      case None => None
      case Some(more) => Some(Ended(word) + more)
    else if s[0] == '\'' then
      match SingleQuotes(s[1..])
      case None => None
      case Some(q) => Args(q.rest, Some(SoFar(word) + q.content))
    else if s[0] == '\\' then
      if |s| == 1 then None else Args(s[2..], Some(SoFar(word) + [s[1]]))
    else Args(s[1..], Some(SoFar(word) + [s[0]]))
  }

  lemma ArgStretchIsRead(a: string, tail: string, word: Option<string>)
    requires NoQuote(a)
    ensures Args("'" + (a + "'" + tail), word) == Args(tail, Some(SoFar(word) + a))
  {
    hide SingleQuotes;
    SingleQuotesRead(a, tail);
  }

  lemma ArgQuoteMarkIsRead(rest: string, word: Option<string>)
    ensures Args("\\" + ("'" + rest), word) == Args(rest, Some(SoFar(word) + "'"))
  {
    assert ("\\" + ("'" + rest))[2..] == rest;
  }

  lemma {:induction false} QuotedArgIsRead(s: string, rest: string, word: Option<string>)
    ensures Args("'" + ReplaceQuotes(s, "'\\''") + "'" + rest, word) == Args(rest, Some(SoFar(word) + s))
    decreases |s|
  {
    hide Args, ReplaceQuotes, BeforeQuote;
    var sub := "'\\''";
    var n := BeforeQuote(s);
    ReplaceFirst(s, sub);
    if n == |s| {
      assert s[..n] == s;
      assert "'" + s + "'" + rest == "'" + (s + "'" + rest);
      ArgStretchIsRead(s, rest, word);
    } else {
      var a, b := s[..n], s[n + 1..];
      var next := "'" + ReplaceQuotes(b, sub) + "'" + rest;
      QuoteLine(a, sub, ReplaceQuotes(b, sub), rest);
      ArgStretchIsRead(a, "\\" + ("'" + next), word);
      ArgQuoteMarkIsRead(next, Some(SoFar(word) + a));
      QuotedArgIsRead(b, rest, Some(SoFar(word) + a + "'"));
      CutAtQuote(s, SoFar(word));
    }
  }

  lemma {:induction false} PlainArgIsRead(s: string, rest: string, word: string)
    requires NoSpecial(s)
    ensures Args(s + rest, Some(word)) == Args(rest, Some(word + s))
    decreases |s|
  {
    if s == "" {
      assert s + rest == rest && word + s == word;
    } else {
      assert (s + rest)[1..] == s[1..] + rest;
      PlainArgIsRead(s[1..], rest, word + [s[0]]);
      assert word + [s[0]] + s[1..] == word + s;
    }
  }

  lemma QuoteArgIsRead(arg: string, rest: string)
    ensures Args(QuoteArg(arg) + rest, None) == Args(rest, Some(arg))
  {
    if arg == "" || !NoSpecial(arg) {
      QuotedArgIsRead(arg, rest, None);
      assert QuoteArg(arg) + rest == "'" + ReplaceQuotes(arg, "'\\''") + "'" + rest;
      assert "" + arg == arg;
    } else {
      assert (arg + rest)[1..] == arg[1..] + rest;
      PlainArgIsRead(arg[1..], rest, [arg[0]]);
      assert [arg[0]] + arg[1..] == arg;
      assert "" + [arg[0]] == [arg[0]];
    }
  }

  lemma {:induction false} ArgsAreReadBack(args: seq<string>)
    ensures Args(JoinArgs(args), None) == Some(args)
    decreases |args|
  {
    hide QuoteArg;
    var parts := QuoteArgs(args);
    if |args| == 1 {
      QuoteArgIsRead(args[0], "");
      assert parts[0] + "" == parts[0];
      assert [args[0]] == args;
    } else if args != [] {
      var rest := args[1..];
      assert parts[1..] == QuoteArgs(rest);
      ArgsAreReadBack(rest);
      var tail := JoinArgs(rest);
      assert parts[0] + " " + tail == parts[0] + (" " + tail);
      QuoteArgIsRead(args[0], " " + tail);
      assert (" " + tail)[1..] == tail;
      assert [args[0]] + rest == args;
    }
  }

  /** Different argument lists never look the same to the policy. */
  lemma JoinArgsIsInjective(a: seq<string>, b: seq<string>)
    ensures JoinArgs(a) == JoinArgs(b) <==> a == b
  {
    ArgsAreReadBack(a);
    ArgsAreReadBack(b);
  }
}
