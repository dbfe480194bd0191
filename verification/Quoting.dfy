/**
 Texts that another program takes apart again: the command line for a POSIX shell
 (runner/libvirt/sshutil_test.go) and the command file of virt-customize
 (runner/libvirt/customize.go, runner/libvirt/runner.go).
 */
module Quoting {
  import opened Prelude

  // ----- the shell ----------------------------------------------------------------

  /** The replacement of every single quote by '\''. */
  function Escaped(s: string): string {
    if s == "" then "" else (if s[0] == '\'' then "'\\''" else [s[0]]) + Escaped(s[1..])
  }

  function ShellQuote(s: string): string {
    "'" + Escaped(s) + "'"
  }

  /** The characters that mean something to the shell outside quotes, apart from space, ' and \. */
  predicate IsShellSpecial(c: char) {
    c in "|&;<>()$`\"\t\n*?[#~=%"
  }

  /**
   What a shell makes of a command line: sections 2.2.1 and 2.2.2 of the Shell Command Language in
   POSIX.1-2017, with splitting on unquoted spaces. None is an unterminated quote, or a character
   whose treatment belongs to other sections. word is the word read so far, if inWord.
   */
  function Lex(s: string, quoted: bool, inWord: bool, word: string): Option<seq<string>>
    decreases |s|
  {
    if s == "" then
      if quoted then None else Some(if inWord then [word] else [])
    else if quoted then
      if s[0] == '\'' then Lex(s[1..], false, true, word) else Lex(s[1..], true, true, word + [s[0]])
    else if s[0] == ' ' then
      match Lex(s[1..], false, false, "")
      case None => None
      case Some(ws) => Some(if inWord then [word] + ws else ws)
    else if s[0] == '\'' then Lex(s[1..], true, true, word)
    else if s[0] == '\\' then
      if |s| == 1 then None
      else if s[1] == '\n' then Lex(s[2..], false, inWord, word)
      else Lex(s[2..], false, true, word + [s[1]])
    else if IsShellSpecial(s[0]) then None
    else Lex(s[1..], false, true, word + [s[0]])
  }

  function Words(s: string): Option<seq<string>> {
    Lex(s, false, false, "")
  }

  /** Inside quotes, an escaped text and the closing quote read back as the text. */
  lemma {:induction false} EscapedReads(w: string, rest: string, acc: string)
    ensures Lex(Escaped(w) + "'" + rest, true, true, acc) == Lex(rest, false, true, acc + w)
    decreases |w|
  {
    var s := Escaped(w) + "'" + rest;
    if w == "" {
      assert s[1..] == rest && acc + w == acc;
    } else {
      var tail := Escaped(w[1..]) + "'" + rest;
      if w[0] == '\'' {
        assert s == "'\\''" + tail;
        QuoteReads(tail, acc);
      } else {
        assert s[1..] == tail;
      }
      EscapedReads(w[1..], rest, acc + [w[0]]);
      assert acc + [w[0]] + w[1..] == acc + w;
    }
  }

  lemma {:induction false} QuoteReads(tail: string, acc: string)
    ensures Lex("'\\''" + tail, true, true, acc) == Lex(tail, true, true, acc + "'")
  {
    var s0, s1, s2 := "'\\''" + tail, "\\''" + tail, "'" + tail;
    assert s0[1..] == s1 && s1[2..] == s2 && s2[1..] == tail;
    assert Lex(s0, true, true, acc) == Lex(s1, false, true, acc);
    assert Lex(s1, false, true, acc) == Lex(s2, false, true, acc + "'");
  }

  lemma {:induction false} QuotedReads(w: string, rest: string)
    ensures Lex(ShellQuote(w) + rest, false, false, "") == Lex(rest, false, true, w)
  {
    assert (ShellQuote(w) + rest)[1..] == Escaped(w) + "'" + rest;
    EscapedReads(w, rest, "");
    assert "" + w == w;
  }

  lemma {:induction false} WordReads(w: string, rest: string, restWords: seq<string>)
    requires rest == "" || rest[0] == ' '
    requires Words(rest) == Some(restWords)
    ensures Words(ShellQuote(w) + rest) == Some([w] + restWords)
  {
    QuotedReads(w, rest);
    if rest == "" {
      assert restWords == [];
      assert [w] + restWords == [w];
    } else {
      assert Words(rest) == Lex(rest[1..], false, false, "");
      assert Lex(rest, false, true, w) == Some([w] + restWords);
    }
  }

  /** The command line for a list of words. */
  function CommandLine(words: seq<string>): string
    requires words != []
  {
    if |words| == 1 then ShellQuote(words[0])
    else CommandLine(words[..|words| - 1]) + " " + ShellQuote(words[|words| - 1])
  }

  lemma {:induction false} CommandLineReads(words: seq<string>, rest: string, restWords: seq<string>)
    requires words != []
    requires rest == "" || rest[0] == ' '
    requires Words(rest) == Some(restWords)
    ensures Words(CommandLine(words) + rest) == Some(words + restWords)
  {
    var n := |words| - 1;
    var last := ShellQuote(words[n]);
    WordReads(words[n], rest, restWords);
    if n > 0 {
      var front := words[..n];
      var rest' := " " + last + rest;
      assert rest'[1..] == last + rest;
      CommandLineReads(front, rest', [words[n]] + restWords);
      assert CommandLine(words) + rest == CommandLine(front) + rest';
      LastMoves(words, restWords);
    } else {
      assert [words[n]] + restWords == words + restWords;
    }
  }

  /** The round trip: the shell sees exactly the words that were quoted, whatever they contain. */
  lemma {:induction false} ShellRoundTrip(words: seq<string>)
    requires words != []
    ensures Words(CommandLine(words)) == Some(words)
  {
    CommandLineReads(words, "", []);
    assert CommandLine(words) + "" == CommandLine(words) && words + [] == words;
  }

  /** The part of runCommand that builds the command. */
  method BuildCommand(name: string, args: seq<string>) returns (cmd: string)
    ensures Words(cmd) == Some([name] + args)
  {
    cmd := ShellQuote(name);
    for i := 0 to |args|
      invariant cmd == CommandLine([name] + args[..i])
    {
      cmd := cmd + " ";
      cmd := cmd + ShellQuote(args[i]);
      PrefixNext(args, i);
      assert ([name] + args[..i + 1])[..i + 1] == [name] + args[..i];
    }
    assert args[..|args|] == args;
    ShellRoundTrip([name] + args);
  }

  // ----- the command file of virt-customize ---------------------------------------

  /** The replacement of every newline by a backslash and a newline. */
  function Continued(s: string): string {
    if s == "" then "" else (if s[0] == '\n' then "\\\n" else [s[0]]) + Continued(s[1..])
  }

  /** A command is written as a block, with its newlines escaped, or as a line, as it is. */
  datatype Command = Block(text: string) | Line(text: string)

  function Printed(c: Command): string {
    (if c.Block? then Continued(c.text) else c.text) + "\n"
  }

  /** A file of commands, one after the other. */
  function CommandFile(cs: seq<Command>): string {
    if cs == [] then "" else CommandFile(cs[..|cs| - 1]) + Printed(cs[|cs| - 1])
  }

  function Texts(cs: seq<Command>): seq<string> {
    if cs == [] then [] else Texts(cs[..|cs| - 1]) + [cs[|cs| - 1].text]
  }

  /**
   How the file is read: a line ends a command, unless a backslash at its end continues the command
   with the next line. cur is the command read so far.
   */
  function ReadCommands(s: string, cur: string): seq<string>
    decreases |s|
  {
    if s == "" then (if cur == "" then [] else [cur])
    else if s[0] == '\\' && |s| > 1 && s[1] == '\n' then ReadCommands(s[2..], cur + "\n")
    else if s[0] == '\n' then [cur] + ReadCommands(s[1..], "")
    else ReadCommands(s[1..], cur + [s[0]])
  }

  predicate EndsInBackslash(s: string) {
    s != "" && s[|s| - 1] == '\\'
  }

  lemma {:induction false} CommandReads(c: string, rest: string, cur: string)
    ensures ReadCommands(Continued(c) + "\n" + rest, cur) ==
      if EndsInBackslash(c) then ReadCommands(rest, cur + c[..|c| - 1] + "\n") else [cur + c] + ReadCommands(rest, "")
    decreases |c|
  {
    var s := Continued(c) + "\n" + rest;
    if c == "" {
      assert s[1..] == rest && cur + c == cur;
    } else {
      var d := c[1..];
      var tail := Continued(d) + "\n" + rest;
      if c == "\\" {
        assert s[2..] == rest && cur + c[..0] == cur;
      } else if c[0] == '\n' {
        assert s[2..] == tail;
        CommandReads(d, rest, cur + "\n");
      } else {
        assert s[1..] == tail;
        assert d != "" ==> s[1] == Continued(d)[0] != '\n';
        CommandReads(d, rest, cur + [c[0]]);
      }
      if c != "\\" {
        FirstPasses(c, cur);
      }
    }
  }

  /** A first character that has been read belongs to the command read so far. */
  lemma {:induction false} FirstPasses(c: string, cur: string)
    requires c != "" && c != "\\"
    ensures EndsInBackslash(c) == EndsInBackslash(c[1..]) && cur + [c[0]] + c[1..] == cur + c
    ensures EndsInBackslash(c) ==> cur + [c[0]] + c[1..][..|c| - 2] == cur + c[..|c| - 1]
  {
  }

  /** The command comes out of the file as it went in. */
  predicate IsFaithful(c: Command) {
    !EndsInBackslash(c.text) && (c.Line? ==> '\n' !in c.text)
  }

  lemma {:induction false} NothingToEscape(s: string)
    requires '\n' !in s
    ensures Continued(s) == s
  {
    if s != "" {
      NothingToEscape(s[1..]);
      assert s == [s[0]] + s[1..];
    }
  }

  lemma {:induction false} FaithfulReads(c: Command, rest: string)
    requires IsFaithful(c)
    ensures ReadCommands(Printed(c) + rest, "") == [c.text] + ReadCommands(rest, "")
  {
    if c.Line? {
      NothingToEscape(c.text);
    }
    CommandReads(c.text, rest, "");
    assert Printed(c) + rest == Continued(c.text) + "\n" + rest;
    assert "" + c.text == c.text;
  }

  /** What has been read of a command stays at the front of it. */
  lemma {:induction false} PendingText(s: string, cur: string)
    requires cur != ""
    ensures ReadCommands(s, cur) != [] && cur <= ReadCommands(s, cur)[0]
    decreases |s|
  {
    if s == "" {
    } else if s[0] == '\\' && |s| > 1 && s[1] == '\n' {
      PendingText(s[2..], cur + "\n");
    } else if s[0] != '\n' {
      PendingText(s[1..], cur + [s[0]]);
    }
  }

  /** A line with a newline in it is never read back: it is cut there, or loses the backslash before it. */
  lemma {:induction false} NewlineBreaks(t: string, rest: string, cur: string)
    requires '\n' in t
    ensures var r := ReadCommands(t + rest, cur); r != [] && r[0] != cur + t
    decreases |t|
  {
    var s := t + rest;
    if t[0] == '\n' {
      assert |cur + t| > |cur|;
    } else if t[0] == '\\' && |t| > 1 && t[1] == '\n' {
      PendingText(s[2..], cur + "\n");
      assert (cur + "\n")[|cur|] != (cur + t)[|cur|];
    } else {
      assert s[1..] == t[1..] + rest;
      assert s[0] == '\\' && |s| > 1 && s[1] == '\n' ==> |t| == 1;
      NewlineBreaks(t[1..], rest, cur + [t[0]]);
      assert cur + [t[0]] + t[1..] == cur + t;
    }
  }

  lemma {:induction false} BackslashBreaks(c: string, rest: string)
    requires EndsInBackslash(c)
    ensures var r := ReadCommands(Continued(c) + "\n" + rest, ""); r != [] && r[0] != c
  {
    var cur := c[..|c| - 1] + "\n";
    CommandReads(c, rest, "");
    assert "" + c[..|c| - 1] + "\n" == cur;
    PendingText(rest, cur);
    assert cur[|c| - 1] == '\n';
  }

  lemma {:induction false} UnfaithfulBreaks(c: Command, rest: string)
    requires !IsFaithful(c)
    ensures var r := ReadCommands(Printed(c) + rest, ""); r != [] && r[0] != c.text
  {
    if c.Line? && '\n' in c.text {
      NewlineBreaks(c.text, "\n" + rest, "");
      assert Printed(c) + rest == c.text + ("\n" + rest) && "" + c.text == c.text;
    } else {
      if c.Line? {
        NothingToEscape(c.text);
      }
      BackslashBreaks(c.text, rest);
    }
  }

  /** Reading a file with something behind it. */
  lemma {:induction false} FaithfulFileReads(cs: seq<Command>, rest: string)
    requires forall c | c in cs :: IsFaithful(c)
    ensures ReadCommands(CommandFile(cs) + rest, "") == Texts(cs) + ReadCommands(rest, "")
  {
    if cs == [] {
      assert CommandFile(cs) + rest == rest;
    } else {
      var n := |cs| - 1;
      var front, last := cs[..n], cs[n];
      assert forall c | c in front :: c in cs;
      FaithfulReads(last, rest);
      FaithfulFileReads(front, Printed(last) + rest);
      assert CommandFile(cs) + rest == CommandFile(front) + (Printed(last) + rest);
      AppendAssociative(Texts(front), [last.text], ReadCommands(rest, ""));
    }
  }

  /**
   The commands survive the file exactly when none of them ends in a backslash and none that is
   written as a line contains a newline.
   */
  lemma {:induction false} CommandFileRoundTrip(cs: seq<Command>)
    ensures ReadCommands(CommandFile(cs), "") == Texts(cs) <==> forall c | c in cs :: IsFaithful(c)
  {
    if forall c | c in cs :: IsFaithful(c) {
      FaithfulFileReads(cs, "");
      assert CommandFile(cs) + "" == CommandFile(cs) && Texts(cs) + [] == Texts(cs);
    } else {
      var k := FirstUnfaithful(cs);
      assert cs == cs[..k] + ([cs[k]] + cs[k + 1..]);
      FileParts(cs[..k], cs[k], cs[k + 1..]);
      FaithfulFileReads(cs[..k], Printed(cs[k]) + CommandFile(cs[k + 1..]));
      UnfaithfulBreaks(cs[k], CommandFile(cs[k + 1..]));
      TextsAt(cs, k);
      TextsAt(cs[..k], 0);
    }
  }

  lemma {:induction false} FirstUnfaithful(cs: seq<Command>) returns (k: nat)
    requires exists c | c in cs :: !IsFaithful(c)
    ensures k < |cs| && !IsFaithful(cs[k]) && forall c | c in cs[..k] :: IsFaithful(c)
  {
    k := 0;
    while IsFaithful(cs[k])
      invariant k < |cs| && forall c | c in cs[..k] :: IsFaithful(c)
      invariant exists i | k <= i < |cs| :: !IsFaithful(cs[i])
      decreases |cs| - k
    {
      PrefixNext(cs, k);
      k := k + 1;
    }
  }

  lemma {:induction false} FileAppend(cs: seq<Command>, c: Command)
    ensures CommandFile(cs + [c]) == CommandFile(cs) + Printed(c)
  {
    assert (cs + [c])[..|cs|] == cs;
  }

  lemma {:induction false} FileConcat(cs: seq<Command>, ds: seq<Command>)
    ensures CommandFile(cs + ds) == CommandFile(cs) + CommandFile(ds)
    decreases |ds|, 0
  {
    if ds == [] {
      assert cs + ds == cs && CommandFile(cs) + "" == CommandFile(cs);
    } else {
      FileConcatLast(cs, ds[..|ds| - 1], ds[|ds| - 1]);
      assert ds[..|ds| - 1] + [ds[|ds| - 1]] == ds;
    }
  }

  lemma {:induction false} FileConcatLast(cs: seq<Command>, front: seq<Command>, last: Command)
    ensures CommandFile(cs + (front + [last])) == CommandFile(cs) + CommandFile(front + [last])
    decreases |front|, 1
  {
    FileConcat(cs, front);
    FileAppend(front, last);
    FileAppend(cs + front, last);
    AppendAssociative(cs, front, [last]);
    AppendAssociative(CommandFile(cs), CommandFile(front), Printed(last));
  }

  lemma {:induction false} FileOfOne(c: Command)
    ensures CommandFile([c]) == Printed(c)
  {
    assert [c][..0] == [];
    assert CommandFile([]) + Printed(c) == Printed(c);
  }

  lemma {:induction false} FileParts(front: seq<Command>, c: Command, back: seq<Command>)
    ensures CommandFile(front + ([c] + back)) == CommandFile(front) + (Printed(c) + CommandFile(back))
  {
    FileConcat(front, [c] + back);
    FileConcat([c], back);
    FileOfOne(c);
  }

  lemma {:induction false} TextsAt(cs: seq<Command>, k: nat)
    ensures |Texts(cs)| == |cs|
    ensures k < |cs| ==> Texts(cs)[k] == cs[k].text
  {
    if cs != [] {
      TextsAt(cs[..|cs| - 1], k);
    }
  }

  lemma {:induction false} SwallowReads(x: string, y: string)
    requires EndsInBackslash(x) && !EndsInBackslash(y)
    ensures ReadCommands(Continued(x) + "\n" + (Continued(y) + "\n"), "") == [x[..|x| - 1] + "\n" + y]
  {
    var cur := x[..|x| - 1] + "\n";
    CommandReads(x, Continued(y) + "\n", "");
    assert "" + x[..|x| - 1] + "\n" == cur;
    LastCommandReads(y, cur);
  }

  lemma {:induction false} LastCommandReads(c: string, cur: string)
    requires !EndsInBackslash(c)
    ensures ReadCommands(Continued(c) + "\n", cur) == [cur + c]
  {
    CommandReads(c, "", cur);
    assert Continued(c) + "\n" + "" == Continued(c) + "\n";
  }

  /** A line without a newline is written like a block. */
  lemma {:induction false} PrintedAlike(c: Command)
    requires c.Line? ==> '\n' !in c.text
    ensures Printed(c) == Continued(c.text) + "\n"
  {
    if c.Line? {
      NothingToEscape(c.text);
    }
  }

  /** A command that ends in a backslash swallows its successor. */
  lemma {:induction false} BackslashSwallows(c: Command, d: Command)
    requires EndsInBackslash(c.text) && (c.Line? ==> '\n' !in c.text) && IsFaithful(d)
    ensures ReadCommands(CommandFile([c, d]), "") == [c.text[..|c.text| - 1] + "\n" + d.text]
  {
    PrintedAlike(c);
    PrintedAlike(d);
    TwoCommands(c, d);
    SwallowReads(c.text, d.text);
  }

  lemma {:induction false} TwoCommands(c: Command, d: Command)
    ensures CommandFile([c, d]) == Printed(c) + Printed(d)
  {
    FileConcat([c], [d]);
    FileOfOne(c);
    FileOfOne(d);
    assert [c] + [d] == [c, d];
  }

  /** A line of two lines is two commands; a newline at its end leaves an empty one behind. */
  lemma {:induction false} NewlineSplits(a: string, b: string)
    requires '\n' !in a && '\n' !in b && !EndsInBackslash(a) && !EndsInBackslash(b)
    ensures ReadCommands(CommandFile([Line(a + "\n" + b)]), "") == [a, b]
  {
    FileOfOne(Line(a + "\n" + b));
    FaithfulReads(Line(a), b + "\n");
    FaithfulReads(Line(b), "");
    assert Printed(Line(a)) + (b + "\n") == a + "\n" + b + "\n";
    assert Printed(Line(b)) + "" == b + "\n";
    assert [a] + ([b] + []) == [a, b];
  }

  // ----- files read in parts ------------------------------------------------------

  /** The text ends with the end of a command. */
  predicate EndsCommand(s: string) {
    s != "" && s[|s| - 1] == '\n' && !EndsInBackslash(s[..|s| - 1])
  }

  /** Behind the end of a command reading starts afresh, whatever came before. */
  lemma {:induction false} ReadsOn(p: string, s: string, cur: string)
    requires EndsCommand(p)
    ensures ReadCommands(p + s, cur) == ReadCommands(p, cur) + ReadCommands(s, "")
    decreases |p|
  {
    var t := p + s;
    if p == "\n" {
      assert t[1..] == s && [cur] + [] + ReadCommands(s, "") == [cur] + ReadCommands(s, "");
    } else if p[0] == '\\' && p[1] == '\n' {
      assert t[2..] == p[2..] + s;
      EndStays(p, 2);
      ReadsOn(p[2..], s, cur + "\n");
    } else if p[0] == '\n' {
      assert t[1..] == p[1..] + s;
      EndStays(p, 1);
      ReadsOn(p[1..], s, "");
      AppendAssociative([cur], ReadCommands(p[1..], ""), ReadCommands(s, ""));
    } else {
      assert t[1..] == p[1..] + s;
      EndStays(p, 1);
      ReadsOn(p[1..], s, cur + [p[0]]);
    }
  }

  lemma {:induction false} EndStays(p: string, k: nat)
    requires EndsCommand(p) && k < |p|
    ensures EndsCommand(p[k..])
  {
    var q := p[k..];
    assert q[|q| - 1] == p[|p| - 1];
    if q[..|q| - 1] != "" {
      assert q[..|q| - 1][|q| - 2] == p[..|p| - 1][|p| - 2];
    }
  }

  /** A line behind an escaped newline is read as the end of a longer command. */
  lemma {:induction false} SwallowedLine(q: string, line: string, cur: string) returns (x: string)
    requires '\n' !in line && !EndsInBackslash(line)
    ensures var r := ReadCommands(q + "\\\n" + line + "\n", cur); r != [] && r[|r| - 1] == x + "\n" + line
    decreases |q|
  {
    var t := q + "\\\n" + line + "\n";
    if q == "" {
      x := cur;
      NothingToEscape(line);
      LastCommandReads(line, cur + "\n");
      assert t[2..] == Continued(line) + "\n";
    } else if q[0] == '\\' && |q| > 1 && q[1] == '\n' {
      assert t[2..] == q[2..] + "\\\n" + line + "\n";
      x := SwallowedLine(q[2..], line, cur + "\n");
    } else {
      assert t[1..] == q[1..] + "\\\n" + line + "\n";
      x := SwallowedLine(q[1..], line, if q[0] == '\n' then "" else cur + [q[0]]);
    }
  }

  /** The text ends with an escaped newline, so the command goes on behind it. */
  predicate EndsContinued(s: string) {
    |s| >= 2 && s[|s| - 2..] == "\\\n"
  }

  lemma {:induction false} SwallowedLast(front: string, line: string) returns (x: string)
    requires EndsContinued(front) && '\n' !in line && !EndsInBackslash(line)
    ensures var r := ReadCommands(front + (Continued(line) + "\n"), ""); r != [] && r[|r| - 1] == x + "\n" + line
  {
    var q := front[..|front| - 2];
    NothingToEscape(line);
    x := SwallowedLine(q, line, "");
    assert front + (line + "\n") == q + "\\\n" + line + "\n";
  }

  /** Behind the end of a command, the last command of a file is read as it was meant. */
  lemma {:induction false} LastCommandIs(front: string, c: string)
    requires (front == "" || EndsCommand(front)) && !EndsInBackslash(c)
    ensures var r := ReadCommands(front + (Continued(c) + "\n"), ""); r != [] && r[|r| - 1] == c
  {
    var s := Continued(c) + "\n";
    LastCommandReads(c, "");
    assert "" + c == c;
    if front == "" {
      assert front + s == s;
    } else {
      ReadsOn(front, s, "");
    }
  }

  // ----- blank lines ----------------------------------------------------------------

  /** The commands without the blank ones. */
  function NonBlank(cs: seq<string>): seq<string> {
    if cs == [] then [] else (if cs[0] == "" then [] else [cs[0]]) + NonBlank(cs[1..])
  }

  /** The text without the newlines at its end. */
  function Trimmed(s: string): string {
    if s != "" && s[|s| - 1] == '\n' then Trimmed(s[..|s| - 1]) else s
  }

  /** The command a line with newlines at its end stands for. */
  function Meant(c: Command): Command {
    if c.Line? then Line(Trimmed(c.text)) else c
  }

  function MeantTexts(cs: seq<Command>): seq<string> {
    if cs == [] then [] else MeantTexts(cs[..|cs| - 1]) + [Meant(cs[|cs| - 1]).text]
  }

  lemma {:induction false} NonBlankFirst(c: string, cs: seq<string>)
    ensures NonBlank([c] + cs) == (if c == "" then [] else [c]) + NonBlank(cs)
  {
    assert ([c] + cs)[1..] == cs;
  }

  lemma {:induction false} TextsAppend(cs: seq<Command>, ds: seq<Command>)
    ensures Texts(cs + ds) == Texts(cs) + Texts(ds)
    ensures MeantTexts(cs + ds) == MeantTexts(cs) + MeantTexts(ds)
  {
    if ds == [] {
      assert cs + ds == cs;
    } else {
      assert (cs + ds)[..|cs + ds| - 1] == cs + ds[..|ds| - 1];
      TextsAppend(cs, ds[..|ds| - 1]);
    }
  }

  predicate AreNewlines(s: string) {
    forall c | c in s :: c == '\n'
  }

  lemma {:induction false} TrimmedRest(s: string) returns (nl: string)
    ensures s == Trimmed(s) + nl && AreNewlines(nl)
  {
    nl := "";
    if s != "" && s[|s| - 1] == '\n' {
      nl := TrimmedRest(s[..|s| - 1]);
      nl := nl + "\n";
    }
  }

  lemma {:induction false} BlankLinesRead(nl: string, rest: string)
    requires AreNewlines(nl)
    ensures NonBlank(ReadCommands(nl + rest, "")) == NonBlank(ReadCommands(rest, ""))
    decreases |nl|
  {
    if nl == "" {
      assert nl + rest == rest;
    } else {
      assert nl[0] in nl && (nl + rest)[1..] == nl[1..] + rest;
      assert forall c | c in nl[1..] :: c in nl;
      BlankLinesRead(nl[1..], rest);
      assert [""] + ReadCommands(nl[1..] + rest, "") == ReadCommands(nl + rest, "");
      NonBlankFirst("", ReadCommands(nl[1..] + rest, ""));
    }
  }

  /** The newlines at the end of a line are written behind the command it stands for. */
  lemma {:induction false} PrintedMeant(c: Command) returns (nl: string)
    ensures Printed(c) == Printed(Meant(c)) + nl && AreNewlines(nl)
  {
    nl := "";
    if c.Line? {
      nl := TrimmedRest(c.text);
      NewlinesCommute(nl);
      assert c.text + "\n" == Trimmed(c.text) + (nl + "\n");
    }
  }

  lemma {:induction false} NewlinesCommute(nl: string)
    requires AreNewlines(nl)
    ensures nl + "\n" == "\n" + nl
  {
    assert AreNewlines(nl + "\n") && AreNewlines("\n" + nl);
    forall i | 0 <= i <= |nl| ensures (nl + "\n")[i] == ("\n" + nl)[i] {
      assert (nl + "\n")[i] in nl + "\n" && ("\n" + nl)[i] in "\n" + nl;
    }
  }

  /** Newlines are trimmed behind a text that does not end in one as if it were not there. */
  lemma {:induction false} TrimmedBehind(head: string, s: string)
    requires head != "" && head[|head| - 1] != '\n'
    ensures Trimmed(head + s) == head + Trimmed(s)
  {
    if s == "" {
      assert head + s == head;
    } else {
      assert (head + s)[..|head + s| - 1] == head + s[..|s| - 1];
      TrimmedBehind(head, s[..|s| - 1]);
    }
  }

  /** A command of at least one character that means nothing at the start of a line. */
  predicate StartsPlainly(c: Command) {
    c.text != "" && c.text[0] !in "\\\n"
  }

  lemma {:induction false} MeantStartsPlainly(c: Command)
    requires StartsPlainly(c)
    ensures StartsPlainly(Meant(c))
  {
    if c.Line? {
      var nl := TrimmedRest(c.text);
      assert c.text[0] !in nl;
      assert (Trimmed(c.text) + nl)[0] == c.text[0];
    }
  }

  lemma {:induction false} BlanksBehind(p: string, c: string, nl: string, rest: string)
    requires AreNewlines(nl) && c != "" && ReadCommands(p + (nl + rest), "") == [c] + ReadCommands(nl + rest, "")
    ensures NonBlank(ReadCommands(p + nl + rest, "")) == [c] + NonBlank(ReadCommands(rest, ""))
  {
    BlankLinesRead(nl, rest);
    AppendAssociative(p, nl, rest);
    NonBlankFirst(c, ReadCommands(nl + rest, ""));
  }

  lemma {:induction false} MeantReads(c: Command, rest: string)
    requires StartsPlainly(c) && IsFaithful(Meant(c))
    ensures NonBlank(ReadCommands(Printed(c) + rest, "")) == [Meant(c).text] + NonBlank(ReadCommands(rest, ""))
  {
    var nl := PrintedMeant(c);
    MeantStartsPlainly(c);
    FaithfulReads(Meant(c), nl + rest);
    BlanksBehind(Printed(Meant(c)), Meant(c).text, nl, rest);
  }

  lemma {:induction false} MeantBreaks(c: Command, rest: string)
    requires StartsPlainly(c) && !IsFaithful(Meant(c))
    ensures var r := NonBlank(ReadCommands(Printed(c) + rest, "")); r != [] && r[0] != Meant(c).text
  {
    var nl := PrintedMeant(c);
    MeantStartsPlainly(c);
    var s := Printed(Meant(c)) + (nl + rest);
    assert Printed(c) + rest == s;
    UnfaithfulBreaks(Meant(c), nl + rest);
    assert s[0] == Meant(c).text[0];
    assert "" + [s[0]] == [s[0]];
    PendingText(s[1..], [s[0]]);
  }

  /** One more command in front of what follows a file. */
  lemma {:induction false} FileBefore(cs: seq<Command>, rest: string)
    requires cs != []
    ensures CommandFile(cs) + rest == CommandFile(cs[..|cs| - 1]) + (Printed(cs[|cs| - 1]) + rest)
  {
    AppendAssociative(CommandFile(cs[..|cs| - 1]), Printed(cs[|cs| - 1]), rest);
  }

  lemma {:induction false} MeantFileReads(cs: seq<Command>, rest: string)
    requires forall c | c in cs :: StartsPlainly(c) && IsFaithful(Meant(c))
    ensures NonBlank(ReadCommands(CommandFile(cs) + rest, "")) == MeantTexts(cs) + NonBlank(ReadCommands(rest, ""))
  {
    if cs == [] {
      assert CommandFile(cs) + rest == rest;
    } else {
      var front, last := cs[..|cs| - 1], cs[|cs| - 1];
      var s := Printed(last) + rest;
      assert forall c | c in front :: c in cs;
      MeantReads(last, rest);
      MeantFileReads(front, s);
      FileBefore(cs, rest);
      AppendAssociative(MeantTexts(front), [Meant(last).text], NonBlank(ReadCommands(rest, "")));
    }
  }

  lemma {:induction false} MeantTextsAt(cs: seq<Command>, k: nat)
    ensures |MeantTexts(cs)| == |cs|
    ensures k < |cs| ==> MeantTexts(cs)[k] == Meant(cs[k]).text
  {
    if cs != [] {
      MeantTextsAt(cs[..|cs| - 1], k);
    }
  }

  /**
   Blank lines aside, the file is read as the commands that were meant exactly when none of these
   ends in a backslash and none that is written as a line contains a newline.
   */
  lemma {:induction false} MeantRoundTrip(cs: seq<Command>)
    requires forall c | c in cs :: StartsPlainly(c)
    ensures NonBlank(ReadCommands(CommandFile(cs), "")) == MeantTexts(cs) <==> forall c | c in cs :: IsFaithful(Meant(c))
  {
    if forall c | c in cs :: IsFaithful(Meant(c)) {
      MeantFileReads(cs, "");
      assert CommandFile(cs) + "" == CommandFile(cs) && MeantTexts(cs) + [] == MeantTexts(cs);
    } else {
      var k := FirstMisread(cs);
      assert forall c | c in cs[..k] :: c in cs;
      MisreadAt(cs, k);
      MeantTextsAt(cs, k);
    }
  }

  /** Up to the first command that is not read as it was meant everything is; then something else follows. */
  lemma {:induction false} MisreadAt(cs: seq<Command>, k: nat)
    requires k < |cs| && !IsFaithful(Meant(cs[k])) && StartsPlainly(cs[k])
    requires forall c | c in cs[..k] :: StartsPlainly(c) && IsFaithful(Meant(c))
    ensures var r := NonBlank(ReadCommands(CommandFile(cs), "")); |r| > k && r[k] != Meant(cs[k]).text
  {
    assert cs == cs[..k] + ([cs[k]] + cs[k + 1..]);
    FileParts(cs[..k], cs[k], cs[k + 1..]);
    MisreadBehind(cs[..k], cs[k], CommandFile(cs[k + 1..]));
  }

  lemma {:induction false} MisreadBehind(front: seq<Command>, c: Command, rest: string)
    requires !IsFaithful(Meant(c)) && StartsPlainly(c)
    requires forall c | c in front :: StartsPlainly(c) && IsFaithful(Meant(c))
    ensures var r := NonBlank(ReadCommands(CommandFile(front) + (Printed(c) + rest), ""));
      |r| > |front| && r[|front|] != Meant(c).text
  {
    MeantFileReads(front, Printed(c) + rest);
    MeantBreaks(c, rest);
    MeantTextsAt(front, 0);
  }

  lemma {:induction false} FirstMisread(cs: seq<Command>) returns (k: nat)
    requires exists c | c in cs :: !IsFaithful(Meant(c))
    ensures k < |cs| && !IsFaithful(Meant(cs[k])) && forall c | c in cs[..k] :: IsFaithful(Meant(c))
  {
    k := 0;
    while IsFaithful(Meant(cs[k]))
      invariant k < |cs| && forall c | c in cs[..k] :: IsFaithful(Meant(c))
      invariant exists i | k <= i < |cs| :: !IsFaithful(Meant(cs[i]))
      decreases |cs| - k
    {
      PrefixNext(cs, k);
      k := k + 1;
    }
  }
}
