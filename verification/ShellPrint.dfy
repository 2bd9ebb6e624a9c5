/** Command lines as they may be written, and that parsing them gives back what was
    meant. */
module ShellPrint {
  import opened ShellText
  import opened ShellParser

  /** A word and the blanks after it. */
  datatype Word = Word(text: string, gap: string)

  datatype Redirect = None | From(gap: string, name: string, tail: string) | To(gap: string, name: string, tail: string)

  datatype CommandText = CommandText(lead: string, words: seq<Word>, redirect: Redirect)

  datatype Line = Line(commands: seq<CommandText>, background: bool, tail: string)

  predicate Blank(s: string) {
    forall c :: c in s ==> c in BLANKS
  }

  function WordsText(words: seq<Word>): string {
    if words == [] then "" else words[0].text + words[0].gap + WordsText(words[1..])
  }

  /** A command but for the blanks at its ends. */
  function Core(c: CommandText): string
    requires c.words != []
  {
    match c.redirect
    case None => var last := c.words[|c.words| - 1]; WordsText(c.words[..|c.words| - 1]) + last.text
    case From(gap, name, _) => WordsText(c.words) + "<" + gap + name
    case To(gap, name, _) => WordsText(c.words) + ">" + gap + name
  }

  function Trail(c: CommandText): string
    requires c.words != []
  {
    match c.redirect
    case None => c.words[|c.words| - 1].gap
    case From(_, _, tail) => tail
    case To(_, _, tail) => tail
  }

  function Text(c: CommandText): string
    requires c.words != []
  {
    c.lead + Core(c) + Trail(c)
  }

  predicate HasWords(commands: seq<CommandText>) {
    forall i :: 0 <= i < |commands| ==> commands[i].words != []
  }

  function Joined(commands: seq<CommandText>): string
    requires HasWords(commands)
  {
    if commands == [] then "" else if |commands| == 1 then Text(commands[0])
    else Text(commands[0]) + BAR + Joined(commands[1..])
  }

  function LineText(l: Line): string
    requires HasWords(l.commands)
  {
    Joined(l.commands) + (if l.background then "&" else []) + l.tail
  }

  // ---- What is meant

  function Texts(words: seq<Word>): (t: seq<string>)
    ensures |t| == |words|
  {
    seq(|words|, i requires 0 <= i < |words| => words[i].text)
  }

  function Meant(c: CommandText): Command {
    match c.redirect
    case None => Command(Texts(c.words), NoPath, NoPath)
    case From(_, name, _) => Command(Texts(c.words), Path(name), NoPath)
    case To(_, name, _) => Command(Texts(c.words), NoPath, Path(name))
  }

  function PipelineOf(l: Line): Pipeline {
    Pipeline(seq(|l.commands|, i requires 0 <= i < |l.commands| => Meant(l.commands[i])), l.background)
  }

  // ---- Lines that can be written so

  predicate Free(s: string, chars: string) {
    forall c :: c in s ==> c !in chars
  }

  predicate Solid(s: string) {
    s != [] && forall c :: c in s ==> !IsSpace(c)
  }

  predicate WordsOk(words: seq<Word>, chars: string) {
    forall i :: 0 <= i < |words| ==>
      && Solid(words[i].text) && Free(words[i].text, BAR) && Free(words[i].text, chars)
      && Blank(words[i].gap) && (i < |words| - 1 ==> words[i].gap != [])
  }

  predicate NameOk(gap: string, name: string, tail: string) {
    Blank(gap) && Blank(tail) && name != [] && Trimmed(name) == name && Free(name, BAR)
  }

  /** A word has no spaces or bars. A command at an end of the line has no redirect
      signs in its words, but `>` may stand in words before a `<`; a file name may
      hold anything but bars, and no `<` after a `>`. Only a command at an end has a
      redirect. */
  predicate CommandOk(c: CommandText, atEnd: bool) {
    && Blank(c.lead) && c.words != []
    && match c.redirect
       case None => WordsOk(c.words, if atEnd then "<>" else "")
       case From(gap, name, tail) => atEnd && WordsOk(c.words, "<") && NameOk(gap, name, tail)
       case To(gap, name, tail) => atEnd && WordsOk(c.words, "<>") && NameOk(gap, name, tail) && Free(name, "<")
  }

  predicate CommandsOk(commands: seq<CommandText>) {
    forall i :: 0 <= i < |commands| ==> CommandOk(commands[i], i == 0 || i == |commands| - 1)
  }

  // ---- Cutting what has been put together

  lemma TrimmedIs(x: string, m: string, y: string)
    requires Blank(x) && Blank(y) && m != [] && !IsSpace(m[0]) && !IsSpace(m[|m| - 1])
    ensures Trimmed(x + m + y) == m
  {
    var s := x + m + y;
    TrimRightIs(s, |x| + |m|);
    assert s[..|x| + |m|] == x + m;
    TrimLeftIs(x + m, |x|);
    assert (x + m)[|x|..] == m;
  }

  lemma TokensCons(a: string, d: char, rest: string, delims: string)
    requires a != [] && Free(a, delims) && d in delims
    ensures Tokens(a + [d] + rest, delims) == [a] + Tokens(rest, delims)
  {
    var s := a + [d] + rest;
    SkipIs(s, delims, 0);
    SpanIs(s, delims, |a|);
    assert s[0..] == s && s[0..|a|] == a && s[|a| + 1..] == rest;
    TokensFirst(s, delims, 0, |a|);
  }

  lemma TokensOne(a: string, delims: string)
    requires a != [] && Free(a, delims)
    ensures Tokens(a, delims) == [a]
  {
  }

  lemma {:induction false} TokensSkip(g: string, s: string, delims: string)
    requires forall c :: c in g ==> c in delims
    ensures Tokens(g + s, delims) == Tokens(s, delims)
  {
    if g == [] {
      assert g + s == s;
    } else {
      TokensSkip(g[1..], s, delims);
      var t := g[1..] + s;
      assert g + s == [g[0]] + t;
      SkipOne(g[0], t, delims);
    }
  }

  lemma SkipOne(d: char, t: string, delims: string)
    requires d in delims
    ensures Tokens([d] + t, delims) == Tokens(t, delims)
  {
  }

  /** A word, the blanks after it, and more words if there are any. */
  lemma TokensWord(text: string, gap: string, rest: string)
    requires Solid(text) && Blank(gap) && (gap != [] || rest == [])
    ensures Tokens(text + gap + rest, BLANKS) == [text] + Tokens(rest, BLANKS)
  {
    if gap == [] {
      assert text + gap + rest == text;
      TokensOne(text, BLANKS);
      NoTokens(BLANKS);
    } else {
      assert text + gap + rest == text + [gap[0]] + (gap[1..] + rest);
      TokensCons(text, gap[0], gap[1..] + rest, BLANKS);
      TokensSkip(gap[1..], rest, BLANKS);
    }
  }

  lemma {:induction false} WordsTokens(words: seq<Word>, chars: string)
    requires WordsOk(words, chars)
    ensures Tokens(WordsText(words), BLANKS) == Texts(words)
  {
    if words == [] {
      NoTokens(BLANKS);
    } else {
      var rest := words[1..];
      assert WordsOk(rest, chars) by { assert forall i :: 0 <= i < |rest| ==> rest[i] == words[i + 1]; }
      WordsTokens(rest, chars);
      TokensWord(words[0].text, words[0].gap, WordsText(rest));
      assert Texts(words) == [words[0].text] + Texts(rest);
    }
  }

  lemma SolidTrimmed(t: string)
    requires Solid(t)
    ensures Trimmed(t) == t
  {
  }

  lemma WordsAre(words: seq<Word>, chars: string)
    requires WordsOk(words, chars)
    ensures Words(WordsText(words)) == Texts(words)
  {
    hide Trimmed, Tokens;
    WordsTokens(words, chars);
    forall i | 0 <= i < |words| ensures Trimmed(words[i].text) == words[i].text { SolidTrimmed(words[i].text); }
  }

  /** Words do not bring in a character that they are free of. */
  lemma {:induction false} WordsFree(words: seq<Word>, chars: string, c: char)
    requires WordsOk(words, chars) && c !in BLANKS && (c in chars || c in BAR)
    ensures c !in WordsText(words)
  {
    if words != [] {
      var rest := words[1..];
      assert WordsOk(rest, chars) by { assert forall i :: 0 <= i < |rest| ==> rest[i] == words[i + 1]; }
      WordsFree(rest, chars, c);
    }
  }

  lemma {:induction false} WordsTextAppend(words: seq<Word>, w: Word)
    ensures WordsText(words + [w]) == WordsText(words) + w.text + w.gap
  {
    if words == [] {
      assert words + [w] == [w];
    } else {
      assert (words + [w])[1..] == words[1..] + [w];
      WordsTextAppend(words[1..], w);
    }
  }

  /** The words of a command with no blanks after the last one. */
  function Tight(words: seq<Word>): seq<Word>
    requires words != []
  {
    words[..|words| - 1] + [Word(words[|words| - 1].text, [])]
  }

  lemma TightOk(words: seq<Word>, chars: string)
    requires words != [] && WordsOk(words, chars)
    ensures WordsOk(Tight(words), chars) && Texts(Tight(words)) == Texts(words)
  {
  }

  lemma TightText(words: seq<Word>)
    requires words != []
    ensures WordsText(Tight(words)) == WordsText(words[..|words| - 1]) + words[|words| - 1].text
    ensures WordsText(words) == WordsText(Tight(words)) + words[|words| - 1].gap
  {
    var init, last := words[..|words| - 1], words[|words| - 1];
    assert words == init + [last];
    hide WordsText;
    WordsTextAppend(init, last);
    WordsTextAppend(init, Word(last.text, []));
    NoGap(WordsText(init) + last.text);
  }

  lemma NoGap(s: string)
    ensures s + [] == s
  {
  }

  lemma CoreFacts(c: CommandText, atEnd: bool)
    requires CommandOk(c, atEnd)
    ensures Core(c) != [] && !IsSpace(Core(c)[0]) && !IsSpace(Core(c)[|Core(c)| - 1])
    ensures Free(Core(c), BAR) && Blank(Trail(c))
  {
    match c.redirect
    case None => PlainFacts(c.words, if atEnd then "<>" else "");
    case From(gap, name, tail) => RedirectFacts(c.words, "<", "<", gap, name);
    case To(gap, name, tail) => RedirectFacts(c.words, "<>", ">", gap, name);
    hide WordsText, WordsOk, IsSpace;
  }

  lemma PlainFacts(words: seq<Word>, chars: string)
    requires words != [] && WordsOk(words, chars)
    ensures var core := WordsText(words[..|words| - 1]) + words[|words| - 1].text;
      core != [] && !IsSpace(core[0]) && !IsSpace(core[|core| - 1]) && Free(core, BAR)
  {
    var tight, last := Tight(words), words[|words| - 1].text;
    TightOk(words, chars);
    TightText(words);
    WordsFree(tight, chars, '|');
    WordsStart(tight, chars);
    assert !IsSpace(last[|last| - 1]);
  }

  lemma RedirectFacts(words: seq<Word>, chars: string, sign: string, gap: string, name: string)
    requires words != [] && WordsOk(words, chars) && sign in ["<", ">"]
    requires Blank(gap) && name != [] && Trimmed(name) == name && Free(name, BAR)
    ensures var core := WordsText(words) + sign + gap + name;
      core != [] && !IsSpace(core[0]) && !IsSpace(core[|core| - 1]) && Free(core, BAR)
  {
  }

  lemma WordsStart(words: seq<Word>, chars: string)
    requires words != [] && WordsOk(words, chars)
    ensures WordsText(words) != [] && !IsSpace(WordsText(words)[0])
  {
  }

  lemma NameEnds(name: string)
    requires name != [] && Trimmed(name) == name
    ensures !IsSpace(name[|name| - 1])
  {
  }

  // ---- One command

  lemma IndexIs(s: string, c: char, i: nat)
    requires i < |s| && s[i] == c && forall j :: 0 <= j < i ==> s[j] != c
    ensures IndexOf(s, c) == i && c in s
  {
  }

  /** What is cut from a command with a redirect. */
  lemma RedirectedIs(w: string, c: char, gap: string, name: string)
    requires w != [] && c !in w && Blank(gap) && Trimmed(name) == name && name != []
    ensures var p := w + [c] + gap + name; c in p && Redirected(p, c) == (Words(w), name)
  {
    hide Trimmed, Words, Tokens;
    var p := w + [c] + gap + name;
    assert p[|w|] == c && forall j :: 0 <= j < |w| ==> p[j] == w[j];
    IndexIs(p, c, |w|);
    assert p[|w| + 1..] == gap + name && p[..|w| + 1] == w + [c];
    GapTrimmed(gap, name);
    TokensCons(w, c, name, [c]);
  }

  lemma GapTrimmed(gap: string, name: string)
    requires Blank(gap) && name != [] && Trimmed(name) == name
    ensures Trimmed(gap + name) == name
  {
    NameEnds(name);
    assert !IsSpace(name[0]);
    hide Trimmed, IsSpace;
    TrimmedIs(gap, name, []);
    assert gap + name + [] == gap + name;
  }

  lemma CommandIs(c: CommandText, atEnd: bool)
    requires CommandOk(c, atEnd)
    ensures Trimmed(Core(c)) == Core(c) && CommandOf(Core(c), atEnd) == Meant(c)
  {
    CoreTrimmed(c, atEnd);
    match c.redirect
    case None =>
      PlainIs(c, atEnd);
      hide CommandOk, Core, Words, Trimmed, Redirected;
    case From(_, _, _) =>
      FromIs(c);
      hide CommandOk, Core, Words, Trimmed, Redirected;
    case To(_, _, _) =>
      ToIs(c);
      hide CommandOk, Core, Words, Trimmed, Redirected;
  }

  lemma CoreTrimmed(c: CommandText, atEnd: bool)
    requires CommandOk(c, atEnd)
    ensures Trimmed(Core(c)) == Core(c)
  {
    CoreFacts(c, atEnd);
    hide CommandOk, Core, IsSpace, Trimmed;
    TrimmedIs([], Core(c), []);
    assert [] + Core(c) + [] == Core(c);
  }

  lemma FromIs(c: CommandText)
    requires CommandOk(c, true) && c.redirect.From?
    ensures '<' in Core(c) && Redirected(Core(c), '<') == (Texts(c.words), c.redirect.name)
  {
    var w := WordsText(c.words);
    WordsFree(c.words, "<", '<');
    WordsAre(c.words, "<");
    assert w != [] by { assert w == c.words[0].text + c.words[0].gap + WordsText(c.words[1..]); }
    hide Words, Redirected, Trimmed;
    RedirectedIs(w, '<', c.redirect.gap, c.redirect.name);
  }

  lemma ToIs(c: CommandText)
    requires CommandOk(c, true) && c.redirect.To?
    ensures '<' !in Core(c) && '>' in Core(c) && Redirected(Core(c), '>') == (Texts(c.words), c.redirect.name)
  {
    var w := WordsText(c.words);
    WordsFree(c.words, "<>", '<');
    WordsFree(c.words, "<>", '>');
    WordsAre(c.words, "<>");
    assert w != [] by { assert w == c.words[0].text + c.words[0].gap + WordsText(c.words[1..]); }
    hide Words, Redirected, Trimmed;
    RedirectedIs(w, '>', c.redirect.gap, c.redirect.name);
  }

  lemma PlainIs(c: CommandText, atEnd: bool)
    requires CommandOk(c, atEnd) && c.redirect.None?
    ensures Words(Core(c)) == Texts(c.words) && (atEnd ==> '<' !in Core(c) && '>' !in Core(c))
  {
    hide Words;
    var chars, tight := if atEnd then "<>" else "", Tight(c.words);
    TightOk(c.words, chars);
    TightText(c.words);
    WordsAre(tight, chars);
    if atEnd {
      WordsFree(tight, chars, '<');
      WordsFree(tight, chars, '>');
    }
  }

  // ---- The whole line

  predicate PartOk(c: CommandText) {
    CommandOk(c, true) || CommandOk(c, false)
  }

  predicate PartsOk(commands: seq<CommandText>) {
    HasWords(commands) && forall i :: 0 <= i < |commands| ==> PartOk(commands[i])
  }

  /** The commands with bars between them, but for the blanks at both ends. */
  function Inner(commands: seq<CommandText>): string
    requires HasWords(commands) && commands != []
  {
    if |commands| == 1 then Core(commands[0])
    else Core(commands[0]) + (Trail(commands[0]) + BAR + commands[1].lead) + Inner(commands[1..])
  }

  lemma {:induction false} JoinedIs(commands: seq<CommandText>)
    requires HasWords(commands) && commands != []
    ensures Joined(commands) == commands[0].lead + Inner(commands) + Trail(commands[|commands| - 1])
  {
    hide Core, Trail;
    if |commands| > 1 {
      JoinedIs(commands[1..]);
      Regroup(commands[0].lead, Core(commands[0]), Trail(commands[0]), BAR, commands[1].lead, Inner(commands[1..]),
              Trail(commands[|commands| - 1]));
    }
  }

  lemma Regroup(a: string, b: string, c: string, d: string, e: string, f: string, g: string)
    ensures (a + b + c) + d + (e + f + g) == a + (b + (c + d + e) + f) + g
  {
  }

  /** Text with no space at either end. */
  predicate Edged(s: string) {
    s != [] && !IsSpace(s[0]) && !IsSpace(s[|s| - 1])
  }

  lemma EdgedBetween(a: string, m: string, b: string)
    requires Edged(a) && Edged(b)
    ensures Edged(a + m + b)
  {
  }

  lemma {:induction false} InnerEdged(commands: seq<CommandText>)
    requires PartsOk(commands) && commands != []
    ensures Edged(Inner(commands))
  {
    PartFacts(commands[0]);
    hide Core, Trail, Edged, PartOk;
    if |commands| > 1 {
      InnerEdged(commands[1..]);
      EdgedBetween(Core(commands[0]), Trail(commands[0]) + BAR + commands[1].lead, Inner(commands[1..]));
    }
  }

  lemma PartFacts(c: CommandText)
    requires c.words != [] && PartOk(c)
    ensures Edged(Core(c)) && Free(Core(c), BAR) && Blank(Trail(c)) && Blank(c.lead)
  {
    CoreFacts(c, CommandOk(c, true));
  }

  function Cores(commands: seq<CommandText>): (t: seq<string>)
    requires HasWords(commands)
    ensures |t| == |commands|
  {
    seq(|commands|, i requires 0 <= i < |commands| => Core(commands[i]))
  }

  /** Cut at the bars and trimmed, the line gives the commands. */
  lemma {:induction false} SegmentsAre(y: string, commands: seq<CommandText>, x: string)
    requires PartsOk(commands) && commands != [] && Blank(x) && Blank(y)
    ensures Trims(Tokens(y + Inner(commands) + x, BAR)) == Cores(commands)
    decreases |commands|
  {
    var c, rest := commands[0], commands[1..];
    PartFacts(c);
    CoresCons(commands);
    hide Core, Trail, PartOk, Edged, Free, Blank, Trims, Tokens, Cores;
    if |commands| == 1 {
      assert Inner(commands) == Core(c);
      hide Inner;
      LastSegment(y, Core(c), x);
    } else {
      PartFacts(rest[0]);
      SegmentsAre(rest[0].lead, rest, x);
      assert Inner(commands) == Core(c) + (Trail(c) + BAR + rest[0].lead) + Inner(rest);
      hide Inner;
      NextSegment(y, Core(c), Trail(c), rest[0].lead, Inner(rest), x);
    }
  }

  lemma CoresCons(commands: seq<CommandText>)
    requires HasWords(commands) && commands != []
    ensures Cores(commands) == [Core(commands[0])] + if |commands| == 1 then [] else Cores(commands[1..])
  {
    hide Core;
  }

  lemma LastSegment(y: string, core: string, x: string)
    requires Edged(core) && Free(core, BAR) && Blank(x) && Blank(y)
    ensures Trims(Tokens(y + core + x, BAR)) == [core]
  {
    hide Tokens, Trimmed;
    SegmentIs(y, core, x);
    TokensOne(y + core + x, BAR);
  }

  lemma NextSegment(y: string, core: string, trail: string, lead: string, inner: string, x: string)
    requires Edged(core) && Free(core, BAR) && Blank(trail) && Blank(y)
    ensures Trims(Tokens(y + (core + (trail + BAR + lead) + inner) + x, BAR))
            == [core] + Trims(Tokens(lead + inner + x, BAR))
  {
    hide Tokens, Trimmed;
    SegmentIs(y, core, trail);
    Regroup2(y, core, trail, lead, inner, x);
    TokensCons(y + core + trail, '|', lead + inner + x, BAR);
    TrimsCons(y + core + trail, Tokens(lead + inner + x, BAR));
  }

  lemma TrimsCons(t: string, tokens: seq<string>)
    ensures Trims([t] + tokens) == [Trimmed(t)] + Trims(tokens)
  {
  }

  lemma Regroup2(y: string, b: string, c: string, e: string, f: string, x: string)
    ensures y + (b + (c + BAR + e) + f) + x == (y + b + c) + ['|'] + (e + f + x)
  {
  }

  lemma SegmentIs(y: string, core: string, x: string)
    requires Edged(core) && Free(core, BAR) && Blank(x) && Blank(y)
    ensures Trimmed(y + core + x) == core && y + core + x != [] && Free(y + core + x, BAR)
  {
    TrimmedIs(y, core, x);
  }

  lemma CommandsMean(commands: seq<CommandText>, background: bool, tail: string)
    requires CommandsOk(commands) && HasWords(commands)
    ensures Pipeline(CommandsOf(Cores(commands)), background) == PipelineOf(Line(commands, background, tail))
  {
    hide CommandOf, Core, CommandOk, Meant;
    var got, meant := CommandsOf(Cores(commands)), PipelineOf(Line(commands, background, tail)).commands;
    forall i | 0 <= i < |commands| ensures got[i] == meant[i] {
      CommandIs(commands[i], i == 0 || i == |commands| - 1);
    }
    assert got == meant;
  }

  lemma OkParts(commands: seq<CommandText>)
    requires CommandsOk(commands)
    ensures PartsOk(commands)
  {
  }

  predicate LineOk(l: Line) {
    l.commands != [] && CommandsOk(l.commands) && HasWords(l.commands) && Blank(l.tail)
  }

  /** The trimmed line. */
  lemma LineTrimmed(l: Line)
    requires LineOk(l)
    ensures Edged(Inner(l.commands))
    ensures Trimmed(LineText(l))
            == Inner(l.commands) + if l.background then Trail(l.commands[|l.commands| - 1]) + "&" else []
  {
    var cs := l.commands;
    var inner, trail := Inner(cs), Trail(cs[|cs| - 1]);
    OkParts(cs);
    InnerEdged(cs);
    JoinedIs(cs);
    PartFacts(cs[0]);
    PartFacts(cs[|cs| - 1]);
    hide Inner, Trail, Joined, Trimmed, CommandsOk, PartOk, Blank, Edged;
    PlainTrimmed(cs[0].lead, inner, trail, l.tail);
    BackgroundTrimmed(cs[0].lead, inner, trail, l.tail);
    assert inner + [] == inner;
  }

  lemma PlainTrimmed(lead: string, inner: string, trail: string, tail: string)
    requires Edged(inner) && Blank(lead) && Blank(trail) && Blank(tail)
    ensures Trimmed((lead + inner + trail) + [] + tail) == inner
  {
    TrimmedIs(lead, inner, trail + tail);
    hide Trimmed;
    Regroup4(lead, inner, trail, tail);
  }

  lemma BackgroundTrimmed(lead: string, inner: string, trail: string, tail: string)
    requires Edged(inner) && Blank(lead) && Blank(trail) && Blank(tail)
    ensures Trimmed((lead + inner + trail) + "&" + tail) == inner + (trail + "&")
  {
    EdgedBetween(inner, trail, "&");
    assert inner + trail + "&" == inner + (trail + "&");
    TrimmedIs(lead, inner + (trail + "&"), tail);
    hide Trimmed;
    Regroup3(lead, inner, trail, "&", tail);
  }

  lemma Regroup3(a: string, b: string, c: string, d: string, e: string)
    ensures (a + b + c) + d + e == a + (b + (c + d)) + e
  {
  }

  lemma Regroup4(a: string, b: string, c: string, d: string)
    ensures (a + b + c) + [] + d == a + b + (c + d)
  {
  }

  lemma BodyIs(inner: string, trail: string)
    ensures var t := inner + (trail + "&"); t != [] && t[|t| - 1] == '&' && t[..|t| - 1] == [] + inner + trail
  {
  }

  lemma ParseIs(line: string, t: string, body: string, background: bool)
    requires |line| < MAX_LINE_LENGTH && t == Trimmed(line) && t != [] && background == (t[|t| - 1] == '&')
    requires body == if background then t[..|t| - 1] else t
    ensures ParseLine(line) == Parsed(Pipeline(CommandsOf(Trims(Tokens(body, BAR))), background))
  {
    hide Trimmed, Trims, Tokens, CommandsOf;
  }

  lemma PlainTrip(l: Line)
    requires LineOk(l) && |LineText(l)| < MAX_LINE_LENGTH && !l.background
    requires Inner(l.commands) != [] && Inner(l.commands)[|Inner(l.commands)| - 1] != '&'
    ensures ParseLine(LineText(l)) == Parsed(PipelineOf(l))
  {
    var inner := Inner(l.commands);
    LineTrimmed(l);
    OkParts(l.commands);
    hide Trimmed, Tokens, Trims, CommandsOf, Cores, Inner, Trail, PartOk, PartsOk, LineText, ParseLine, PipelineOf;
    SegmentsAre([], l.commands, []);
    assert [] + inner + [] == inner && inner + [] == inner;
    ParseIs(LineText(l), inner, inner, false);
    CommandsMean(l.commands, false, l.tail);
  }

  lemma BackgroundTrip(l: Line)
    requires LineOk(l) && |LineText(l)| < MAX_LINE_LENGTH && l.background
    ensures ParseLine(LineText(l)) == Parsed(PipelineOf(l))
  {
    var cs := l.commands;
    var inner, trail := Inner(cs), Trail(cs[|cs| - 1]);
    LineTrimmed(l);
    OkParts(cs);
    PartFacts(cs[|cs| - 1]);
    hide Trimmed, Tokens, Trims, CommandsOf, Cores, Inner, Trail, PartOk, PartsOk, LineText, ParseLine, PipelineOf;
    SegmentsAre([], cs, trail);
    BodyIs(inner, trail);
    ParseIs(LineText(l), inner + (trail + "&"), [] + inner + trail, true);
    CommandsMean(cs, true, l.tail);
  }

  /** Parsing a line gives back the pipeline it was written for, whatever blanks
      stand between, just when it does not end in an `&` that belongs to a word or
      file name. */
  lemma RoundTrip(l: Line)
    requires LineOk(l) && |LineText(l)| < MAX_LINE_LENGTH
    ensures Inner(l.commands) != []
    ensures ParseLine(LineText(l)) == Parsed(PipelineOf(l))
            <==> l.background || Inner(l.commands)[|Inner(l.commands)| - 1] != '&'
  {
    var inner := Inner(l.commands);
    LineTrimmed(l);
    if l.background {
      BackgroundTrip(l);
    } else if inner[|inner| - 1] != '&' {
      PlainTrip(l);
    } else {
      hide Trimmed, Tokens, Trims, CommandsOf, Inner, LineText;
      assert inner + [] == inner;
      ParseIs(LineText(l), inner, inner[..|inner| - 1], true);
    }
  }

  // ---- Printing a pipeline with single spaces

  function Spaced(c: Command): CommandText {
    CommandText(
      "", seq(|c.args|, i requires 0 <= i < |c.args| => Word(c.args[i], " ")),
      if c.input.Path? then From(" ", c.input.name, "")
      else if c.output.Path? then To(" ", c.output.name, "")
      else None)
  }

  function Print(p: Pipeline): Line {
    Line(seq(|p.commands|, i requires 0 <= i < |p.commands| => Spaced(p.commands[i])), p.background, "")
  }

  /** No command has two redirects, and each can be written. */
  predicate Printable(p: Pipeline) {
    && LineOk(Print(p))
    && forall i :: 0 <= i < |p.commands| ==> p.commands[i].input.NoPath? || p.commands[i].output.NoPath?
  }

  lemma PrintMeans(p: Pipeline)
    requires Printable(p)
    ensures PipelineOf(Print(p)) == p
  {
    hide LineOk;
    forall i | 0 <= i < |p.commands| ensures Meant(Spaced(p.commands[i])) == p.commands[i] {
      assert Texts(Spaced(p.commands[i]).words) == p.commands[i].args;
    }
    assert PipelineOf(Print(p)).commands == p.commands;
  }

  /** A printed pipeline is parsed back. */
  lemma PrintParse(p: Pipeline)
    requires Printable(p) && |LineText(Print(p))| < MAX_LINE_LENGTH
    requires p.background || '&' !in LineText(Print(p))
    ensures ParseLine(LineText(Print(p))) == Parsed(p)
  {
    var l := Print(p);
    PrintMeans(p);
    RoundTrip(l);
    JoinedIs(l.commands);
    hide LineOk, ParseLine, Inner, Joined, Trail;
    InText(l.commands[0].lead, Inner(l.commands), Trail(l.commands[|l.commands| - 1]),
           if l.background then "&" else [], l.tail);
  }

  lemma InText(lead: string, inner: string, trail: string, sign: string, tail: string)
    requires inner != []
    ensures inner[|inner| - 1] in lead + inner + trail + sign + tail
  {
  }
}
