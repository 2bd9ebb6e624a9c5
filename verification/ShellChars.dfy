/** What is parsed, told by characters: which lines are parsed at all, what is taken
    off their ends, and which words and names come back as they were written. */
module ShellChars {
  import opened ShellText
  import opened ShellParser
  import opened ShellPrint

  // ---- The ends of a line

  lemma {:induction false} TrimRightPadded(s: string, y: string)
    requires forall c :: c in y ==> IsSpace(c)
    ensures TrimRight(s + y) == TrimRight(s)
    decreases |y|
  {
    if y == [] {
      assert s + y == s;
    } else {
      assert (s + y)[..|s + y| - 1] == s + y[..|y| - 1];
      TrimRightPadded(s, y[..|y| - 1]);
    }
  }

  lemma {:induction false} TrimLeftPadded(x: string, s: string)
    requires forall c :: c in x ==> IsSpace(c)
    ensures TrimLeft(x + s) == TrimLeft(s)
    decreases |x|
  {
    if x == [] {
      assert x + s == s;
    } else {
      assert (x + s)[1..] == x[1..] + s;
      TrimLeftPadded(x[1..], s);
    }
  }

  lemma {:induction false} TrimRightAfter(x: string, s: string)
    requires TrimRight(s) != []
    ensures TrimRight(x + s) == x + TrimRight(s)
    decreases |s|
  {
    if IsSpace(s[|s| - 1]) {
      assert (x + s)[..|x + s| - 1] == x + s[..|s| - 1];
      TrimRightAfter(x, s[..|s| - 1]);
    }
  }

  lemma {:induction false} AllTrimmed(s: string)
    ensures TrimRight(s) == [] <==> forall i :: 0 <= i < |s| ==> IsSpace(s[i])
    decreases |s|
  {
    if s != [] && IsSpace(s[|s| - 1]) { AllTrimmed(s[..|s| - 1]); }
  }

  lemma TrimmedPadded(x: string, s: string, y: string)
    requires (forall c :: c in x ==> IsSpace(c)) && (forall c :: c in y ==> IsSpace(c))
    ensures Trimmed(x + s + y) == Trimmed(s)
  {
    TrimRightPadded(x + s, y);
    AllTrimmed(s);
    AllTrimmed(x + s);
    if TrimRight(s) != [] {
      TrimRightAfter(x, s);
      TrimLeftPadded(x, TrimRight(s));
    } else {
      assert forall i :: 0 <= i < |x| + |s| ==> IsSpace((x + s)[i]);
    }
  }

  lemma SpaceIs(c: char)
    ensures IsSpace(c) <==> c == ' ' || c == '\t' || c == '\n' || c == '\r' || c == '\U{0B}' || c == '\U{0C}'
  {
  }

  /** Spaces, tabs, newlines, carriage returns, vertical tabs and form feeds at the
      ends of a line make no difference. */
  lemma EndsIgnored(x: string, line: string, y: string)
    requires forall c :: c in x || c in y ==> c in [' ', '\t', '\n', '\r', '\U{0B}', '\U{0C}']
    requires |x + line + y| < 512
    ensures ParseLine(x + line + y) == ParseLine(line)
  {
    forall c ensures IsSpace(c) <==> c in [' ', '\t', '\n', '\r', '\U{0B}', '\U{0C}'] { SpaceIs(c); }
    hide IsSpace;
    TrimmedPadded(x, line, y);
    hide Trimmed;
    SameParse(x + line + y, line);
  }

  lemma SameParse(long: string, line: string)
    requires Trimmed(long) == Trimmed(line) && |line| <= |long| < MAX_LINE_LENGTH
    ensures ParseLine(long) == ParseLine(line)
  {
    hide Trimmed, CommandsOf, Trims, Tokens;
  }

  /** A line is parsed unless it has 512 characters or more, or only such. */
  lemma UndefinedIff(line: string)
    ensures ParseLine(line) == Undefined
            <==> |line| >= 512 || forall i :: 0 <= i < |line| ==> line[i] in [' ', '\t', '\n', '\r', '\U{0B}', '\U{0C}']
  {
    forall c ensures IsSpace(c) <==> c in [' ', '\t', '\n', '\r', '\U{0B}', '\U{0C}'] { SpaceIs(c); }
    AllTrimmed(line);
    LeftNothing(TrimRight(line));
    hide IsSpace, CommandsOf, Trims, Tokens, TrimRight;
  }

  lemma LeftNothing(t: string)
    requires t == [] || !IsSpace(t[|t| - 1])
    ensures TrimLeft(t) == [] <==> t == []
    decreases |t|
  {
    if t != [] && IsSpace(t[0]) {
      assert t[1..] != [] && t[1..][|t| - 2] == t[|t| - 1];
      LeftNothing(t[1..]);
    }
  }

  // ---- Lines told by characters

  /** A word: no space of the six, and no bar. */
  predicate Plain(s: string) {
    s != [] && forall x :: x in s ==> x !in [' ', '\t', '\n', '\r', '\U{0B}', '\U{0C}', '|']
  }

  predicate Gap(s: string) {
    forall x :: x in s ==> x in [' ', '\t', '\n']
  }

  /** A file name: no bar, and none of the six at its ends. */
  predicate PlainName(s: string) {
    && s != [] && '|' !in s
    && s[0] !in [' ', '\t', '\n', '\r', '\U{0B}', '\U{0C}']
    && s[|s| - 1] !in [' ', '\t', '\n', '\r', '\U{0B}', '\U{0C}']
  }

  predicate PlainRedirect(r: Redirect, atEnd: bool) {
    match r
    case None => true
    case From(gap, name, tail) => atEnd && Gap(gap) && PlainName(name) && Gap(tail)
    case To(gap, name, tail) => atEnd && Gap(gap) && PlainName(name) && '<' !in name && Gap(tail)
  }

  /** In a command at an end of the line no word has a redirect sign, except `>` before
      a `<`. */
  predicate PlainWord(s: string, atEnd: bool, input: bool) {
    Plain(s) && (atEnd ==> '<' !in s && ('>' in s ==> input))
  }

  predicate PlainCommand(c: CommandText, atEnd: bool) {
    && Gap(c.lead) && PlainRedirect(c.redirect, atEnd) && c.words != []
    && forall j :: 0 <= j < |c.words| ==>
      && PlainWord(c.words[j].text, atEnd, c.redirect.From?)
      && Gap(c.words[j].gap) && (j < |c.words| - 1 ==> c.words[j].gap != [])
  }

  lemma PlainSolid(s: string)
    requires Plain(s)
    ensures Solid(s) && Free(s, BAR)
  {
  }

  lemma PlainNameOk(gap: string, name: string, tail: string)
    requires Gap(gap) && PlainName(name) && Gap(tail)
    ensures NameOk(gap, name, tail)
  {
    NameTrimmed(name);
    hide Trimmed;
  }

  lemma NameTrimmed(name: string)
    requires PlainName(name)
    ensures Trimmed(name) == name
  {
    TrimRightIs(name, |name|);
    TrimLeftIs(name, 0);
    assert name[..|name|] == name && name[0..] == name;
  }

  /** Any line of such commands is parsed to what it stands for if it is in the
      background, or else just when it does not end in an `&`. */
  lemma RoundTripChars(l: Line)
    requires l.commands != [] && HasWords(l.commands)
    requires forall i :: 0 <= i < |l.commands| ==> PlainCommand(l.commands[i], i == 0 || i == |l.commands| - 1)
    requires |LineText(l)| < 512 && Gap(l.tail)
    ensures Inner(l.commands) != []
    ensures ParseLine(LineText(l)) == Parsed(PipelineOf(l))
            <==> l.background || Inner(l.commands)[|Inner(l.commands)| - 1] != '&'
  {
    forall i | 0 <= i < |l.commands| ensures CommandOk(l.commands[i], i == 0 || i == |l.commands| - 1) {
      PlainCommandOk(l.commands[i], i == 0 || i == |l.commands| - 1);
    }
    hide CommandOk, PlainCommand, HasWords, ParseLine, LineText, Inner;
    RoundTrip(l);
  }

  lemma PlainCommandOk(c: CommandText, atEnd: bool)
    requires PlainCommand(c, atEnd)
    ensures CommandOk(c, atEnd)
  {
    var chars := if !atEnd then "" else if c.redirect.From? then "<" else "<>";
    hide WordsOk, PlainRedirect;
    PlainWordsOk(c, atEnd, chars);
    PlainRedirectOk(c.redirect, atEnd);
  }

  lemma PlainWordsOk(c: CommandText, atEnd: bool, chars: string)
    requires PlainCommand(c, atEnd)
    requires chars == if !atEnd then "" else if c.redirect.From? then "<" else "<>"
    ensures WordsOk(c.words, chars)
  {
    forall j | 0 <= j < |c.words|
      ensures Solid(c.words[j].text) && Free(c.words[j].text, BAR) && Free(c.words[j].text, chars)
    {
      PlainSolid(c.words[j].text);
    }
    hide Solid, Plain, PlainRedirect, Free;
  }

  lemma PlainRedirectOk(r: Redirect, atEnd: bool)
    requires PlainRedirect(r, atEnd)
    ensures r.From? ==> atEnd && NameOk(r.gap, r.name, r.tail)
    ensures r.To? ==> atEnd && NameOk(r.gap, r.name, r.tail) && Free(r.name, "<")
  {
    if r != None { PlainNameOk(r.gap, r.name, r.tail); }
    hide NameOk, PlainName, Gap;
  }

  // ---- Printed pipelines

  /** What comes last when a command is printed. */
  function EndOf(c: Command): string
    requires c.args != []
  {
    if c.input.Path? then c.input.name else if c.output.Path? then c.output.name else c.args[|c.args| - 1]
  }

  predicate SameEnd(s: string, t: string) {
    s != [] && t != [] && s[|s| - 1] == t[|t| - 1]
  }

  lemma {:induction false} InnerEnds(commands: seq<CommandText>, end: string)
    requires HasWords(commands) && commands != []
    requires SameEnd(Core(commands[|commands| - 1]), end)
    ensures SameEnd(Inner(commands), end)
  {
    hide Core, Trail;
    if |commands| > 1 { InnerEnds(commands[1..], end); }
  }

  lemma CoreEnds(c: Command)
    requires c.args != [] && c.args[|c.args| - 1] != []
    requires if c.input.Path? then c.input.name != [] else c.output.Path? ==> c.output.name != []
    ensures SameEnd(Core(Spaced(c)), EndOf(c))
  {
    hide WordsText;
  }

  /** A command with at most one redirect, and that only at an end of the line. */
  predicate PlainSpaced(c: Command, atEnd: bool) {
    && c.args != [] && (forall j :: 0 <= j < |c.args| ==> PlainWord(c.args[j], atEnd, c.input.Path?))
    && (c.input.Path? ==> atEnd && c.output.NoPath? && PlainName(c.input.name))
    && (c.output.Path? ==> atEnd && PlainName(c.output.name) && '<' !in c.output.name)
  }

  /** A printed pipeline is parsed back just when it is in the background or its last
      word or file name does not end in `&`. */
  lemma PrintChars(p: Pipeline)
    requires p.commands != [] && forall i :: 0 <= i < |p.commands| ==> p.commands[i].args != []
    requires forall i :: 0 <= i < |p.commands| ==> PlainSpaced(p.commands[i], i == 0 || i == |p.commands| - 1)
    requires |LineText(Print(p))| < 512
    ensures var end := EndOf(p.commands[|p.commands| - 1]);
      end != [] && (ParseLine(LineText(Print(p))) == Parsed(p) <==> p.background || end[|end| - 1] != '&')
  {
    PlainEnds(p.commands[|p.commands| - 1]);
    PrintedLast(p);
    hide PlainSpaced, Spaced, Print, ParseLine, LineText, CommandOk, Core, EndOf, HasWords;
    forall i | 0 <= i < |p.commands|
      ensures CommandOk(Spaced(p.commands[i]), i == 0 || i == |p.commands| - 1)
      ensures p.commands[i].input.NoPath? || p.commands[i].output.NoPath?
    {
      SpacedOk(p.commands[i], i == 0 || i == |p.commands| - 1);
    }
    PrintedBack(p, EndOf(p.commands[|p.commands| - 1]));
  }

  lemma PlainEnds(c: Command)
    requires PlainSpaced(c, true)
    ensures SameEnd(Core(Spaced(c)), EndOf(c))
  {
    assert PlainWord(c.args[|c.args| - 1], true, c.input.Path?);
    hide Core, Spaced, EndOf;
    CoreEnds(c);
  }

  lemma PrintedBack(p: Pipeline, end: string)
    requires p.commands != [] && forall i :: 0 <= i < |p.commands| ==> p.commands[i].args != []
    requires forall i :: 0 <= i < |p.commands| ==> p.commands[i].input.NoPath? || p.commands[i].output.NoPath?
    requires forall i :: 0 <= i < |p.commands| ==> CommandOk(Spaced(p.commands[i]), i == 0 || i == |p.commands| - 1)
    requires |LineText(Print(p))| < 512
    requires SameEnd(Core(Spaced(p.commands[|p.commands| - 1])), end) && HasWords(Print(p).commands)
    ensures ParseLine(LineText(Print(p))) == Parsed(p) <==> p.background || end[|end| - 1] != '&'
  {
    PrintedOk(p);
    PrintedLast(p);
    hide Print, LineOk, Printable, ParseLine, LineText, Inner, HasWords, PipelineOf, Core, Spaced, CommandOk;
    InnerEnds(Print(p).commands, end);
    PrintMeans(p);
    RoundTrip(Print(p));
  }

  lemma PrintedOk(p: Pipeline)
    requires p.commands != [] && forall i :: 0 <= i < |p.commands| ==> p.commands[i].args != []
    requires forall i :: 0 <= i < |p.commands| ==> p.commands[i].input.NoPath? || p.commands[i].output.NoPath?
    requires forall i :: 0 <= i < |p.commands| ==> CommandOk(Spaced(p.commands[i]), i == 0 || i == |p.commands| - 1)
    ensures Printable(p) && LineOk(Print(p)) && Print(p).background == p.background
  {
    PrintedLast(p);
    hide CommandOk, Spaced, HasWords;
  }

  lemma PrintedLast(p: Pipeline)
    requires p.commands != [] && forall i :: 0 <= i < |p.commands| ==> p.commands[i].args != []
    ensures var cs := Print(p).commands;
      HasWords(cs) && cs != [] && cs[|cs| - 1] == Spaced(p.commands[|p.commands| - 1])
  {
    forall i | 0 <= i < |p.commands| ensures Spaced(p.commands[i]).words != [] { SpacedWords(p.commands[i]); }
    hide Spaced;
  }

  lemma SpacedWords(c: Command)
    requires c.args != []
    ensures Spaced(c).words != []
  {
  }

  lemma SpacedOk(c: Command, atEnd: bool)
    requires PlainSpaced(c, atEnd)
    ensures CommandOk(Spaced(c), atEnd)
    ensures c.input.NoPath? || c.output.NoPath?
  {
    hide CommandOk, PlainWord, PlainName;
    PlainCommandOk(Spaced(c), atEnd);
  }

  /** A redirect sign before any word: what follows is both the words and the name. */
  lemma SignFirst(sign: char, gap: string, name: string)
    requires sign in ['<', '>'] && Gap(gap) && PlainName(name) && sign !in name
    ensures Redirected([sign] + gap + name, sign) == (Words(name), name)
  {
    NameTrimmed(name);
    var p := [sign] + gap + name;
    IndexIs(p, sign, 0);
    assert p[1..] == gap + name && p[..1] == [sign];
    hide Trimmed, Words, Tokens;
    GapTrimmed(gap, name);
    SkipOne(sign, name, [sign]);
    TokensOne(name, [sign]);
  }

  // ---- One line in full

  /** Two words with a space after each. */
  function TwoWords(a: string, b: string): seq<Word> {
    [Word(a, " "), Word(b, " ")]
  }

  lemma TwoWordsText(a: string, b: string)
    ensures WordsText(TwoWords(a, b)) == a + " " + (b + " ")
  {
    var last := [Word(b, " ")];
    assert TwoWords(a, b)[1..] == last && last[1..] == [];
    assert WordsText(last) == b + " " + WordsText([]);
    NoGap(b + " ");
  }

  lemma TwoCommands(c: CommandText, d: CommandText)
    requires c.words != [] && d.words != []
    ensures LineText(Line([c, d], true, "")) == Text(c) + BAR + Text(d) + "&"
    ensures PipelineOf(Line([c, d], true, "")) == Pipeline([Meant(c), Meant(d)], true)
  {
    hide Text, Meant;
    assert [c, d][1..] == [d];
    assert Joined([d]) == Text(d) && Joined([c, d]) == Text(c) + BAR + Joined([d]);
    NoGap(Joined([c, d]) + "&");
  }

  lemma TwoWordsOk(a: string, b: string, chars: string)
    requires a != [] && forall x :: x in a ==> !IsSpace(x) && x !in BAR && x !in chars
    requires b != [] && forall x :: x in b ==> !IsSpace(x) && x !in BAR && x !in chars
    ensures WordsOk(TwoWords(a, b), chars)
  {
    hide IsSpace;
  }

  lemma InputOk()
    ensures CommandOk(CommandText("", TwoWords("xargs", "ls"), From(" ", "names", " ")), true)
  {
    NameTrimmed("names");
    TwoWordsOk("xargs", "ls", "<");
    hide Trimmed, WordsOk;
  }

  lemma OutputOk()
    ensures CommandOk(CommandText(" ", TwoWords("wc", "-l"), To(" ", "out", " ")), true)
  {
    NameTrimmed("out");
    TwoWordsOk("wc", "-l", "<>");
    hide Trimmed, WordsOk;
  }

  /** Two commands with both redirects, run in the background. */
  lemma Example()
    ensures ParseLine("xargs ls < names | wc -l > out &")
            == Parsed(Pipeline([Command(["xargs", "ls"], Path("names"), NoPath),
                                Command(["wc", "-l"], NoPath, Path("out"))], true))
  {
    var c := CommandText("", TwoWords("xargs", "ls"), From(" ", "names", " "));
    var d := CommandText(" ", TwoWords("wc", "-l"), To(" ", "out", " "));
    var l := Line([c, d], true, "");
    InputOk();
    OutputOk();
    TwoWordsText("xargs", "ls");
    TwoWordsText("wc", "-l");
    TwoCommands(c, d);
    ExampleText(c, d);
    ExampleMeant(c, d);
    assert LineOk(l) by { hide CommandOk; }
    hide *;
    RoundTrip(l);
  }

  lemma ExampleText(c: CommandText, d: CommandText)
    requires c == CommandText("", TwoWords("xargs", "ls"), From(" ", "names", " "))
    requires d == CommandText(" ", TwoWords("wc", "-l"), To(" ", "out", " "))
    ensures Text(c) + BAR + Text(d) + "&" == "xargs ls < names | wc -l > out &"
  {
    TwoWordsText("xargs", "ls");
    TwoWordsText("wc", "-l");
    hide WordsText;
  }

  lemma ExampleMeant(c: CommandText, d: CommandText)
    requires c == CommandText("", TwoWords("xargs", "ls"), From(" ", "names", " "))
    requires d == CommandText(" ", TwoWords("wc", "-l"), To(" ", "out", " "))
    ensures Meant(c) == Command(["xargs", "ls"], Path("names"), NoPath)
    ensures Meant(d) == Command(["wc", "-l"], NoPath, Path("out"))
  {
    assert Texts(c.words) == ["xargs", "ls"];
    assert Texts(d.words) == ["wc", "-l"];
  }
}
