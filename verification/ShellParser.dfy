/** Command lines cut into pipelines of commands. */
module ShellParser {
  import opened ShellText
  import opened ShellBuffer

  const MAX_LINE_LENGTH := 512
  const MAX_ARGV_LENGTH := MAX_LINE_LENGTH / 2 + 1

  datatype Path = NoPath | Path(name: string)

  datatype Command = Command(args: seq<string>, input: Path, output: Path)

  datatype Pipeline = Pipeline(commands: seq<Command>, background: bool)

  /** Undefined: memory outside the line buffer is read. */
  datatype Parsed = Parsed(pipeline: Pipeline) | Undefined

  // ---- What the parser computes

  function Trims(tokens: seq<string>): (t: seq<string>)
    ensures |t| == |tokens| && forall i :: 0 <= i < |t| ==> t[i] == Trimmed(tokens[i])
  {
    seq(|tokens|, i requires 0 <= i < |tokens| => Trimmed(tokens[i]))
  }

  function Words(s: string): seq<string> {
    Trims(Tokens(s, BLANKS))
  }

  function IndexOf(s: string, c: char): (i: nat)
    ensures i <= |s| && (i < |s| ==> s[i] == c) && forall j :: 0 <= j < i ==> s[j] != c
  {
    if s == [] || s[0] == c then 0 else 1 + IndexOf(s[1..], c)
  }

  /** Everything after the first `c` names a file; the words are those of the first
      part of the rest between `c`s. */
  function Redirected(p: string, c: char): (r: (seq<string>, string))
    requires c in p
  {
    var i := IndexOf(p, c);
    assert i < |p|;
    var name := Trimmed(p[i + 1..]);
    var parts := Tokens(p[..i + 1] + name, [c]);
    (if parts == [] then [] else Words(parts[0]), name)
  }

  /** A command; only the first and last of a line are looked at for a redirect, and
      only for one. */
  function CommandOf(s: string, atEnd: bool): Command {
    var p := Trimmed(s);
    if atEnd && '<' in p then
      var (args, name) := Redirected(p, '<');
      Command(args, Path(name), NoPath)
    else if atEnd && '>' in p then
      var (args, name) := Redirected(p, '>');
      Command(args, NoPath, Path(name))
    else Command(Words(p), NoPath, NoPath)
  }

  function CommandsOf(segs: seq<string>): (c: seq<Command>)
    ensures |c| == |segs|
  {
    seq(|segs|, i requires 0 <= i < |segs| => CommandOf(segs[i], i == 0 || i == |segs| - 1))
  }

  function ParseLine(line: string): Parsed {
    var t := Trimmed(line);
    if |line| >= MAX_LINE_LENGTH || t == [] then Undefined
    else
      var background := t[|t| - 1] == '&';
      var body := if background then t[..|t| - 1] else t;
      Parsed(Pipeline(CommandsOf(Trims(Tokens(body, BAR))), background))
  }

  // ---- How it does so

  /** A copy of a string, trimmed. */
  method ToArg(buf: array<char>, str: nat, ghost e: nat) returns (arg: string, ghost e': nat)
    requires CStr(buf[..], str, e)
    modifies buf
    ensures arg == Trimmed(old(buf[str..e])) && Within(old(buf[..]), buf[..], str, e)
    ensures e' <= e && CStr(buf[..], str, e') && buf[str..e'] == arg
  {
    e' := Trim(buf, str, e);
    var len := StrLen(buf, str, e');
    arg := buf[str..str + len];
  }

  /** Another string of the buffer. */
  lemma Elsewhere(b: seq<char>, b': seq<char>, p: nat, e: nat, q: nat, f: nat)
    requires Within(b, b', p, e) && CStr(b, q, f) && (e <= q || f < p)
    ensures CStr(b', q, f) && b'[q..f] == b[q..f]
  {
  }

  lemma WithinSteps(b0: seq<char>, b1: seq<char>, b2: seq<char>, p: nat, e: nat, q: nat, f: nat)
    requires Within(b0, b1, p, e) && Within(b1, b2, q, f) && p <= q && f <= e
    ensures Within(b0, b2, p, e)
  {
  }

  /** The words of a string, copied one by one. */
  method Args(buf: array<char>, from: nat, ghost e: nat) returns (args: seq<string>)
    requires CStr(buf[..], from, e) && e - from < MAX_LINE_LENGTH
    modifies buf
    ensures args == Words(old(buf[from..e])) && Within(old(buf[..]), buf[..], from, e)
    ensures |args| < MAX_ARGV_LENGTH
  {
    hide Tokens, Trimmed;
    TokensFit(buf[from..e], BLANKS);
    ghost var all := Tokens(buf[from..e], BLANKS);
    args := [];
    var ptr, saved, te := StrTok(buf, from, e, BLANKS);
    ghost var b0, b1, at;
    while ptr.At?
      invariant Within(old(buf[..]), buf[..], from, e) && |args| <= |all|
      invariant from <= saved <= e && CStr(buf[..], saved, e)
      invariant args == Trims(all)[..|args|]
      invariant ptr.At? ==> |args| < |all| && from <= ptr.p < te <= saved && CStr(buf[..], ptr.p, te)
      invariant ptr.At? ==> buf[ptr.p..te] == all[|args|] && Tokens(buf[saved..e], BLANKS) == all[|args| + 1..]
      invariant ptr.Null? ==> |args| == |all|
      decreases e - saved, if ptr.At? then 1 else 0
    {
      b0 := buf[..];
      var arg, _ := ToArg(buf, ptr.p, te);
      b1 := buf[..];
      Elsewhere(b0, b1, ptr.p, te, saved, e);
      WithinSteps(old(buf[..]), b0, b1, from, e, ptr.p, te);
      args := args + [arg];
      at := saved;
      ptr, saved, te := StrTok(buf, saved, e, BLANKS);
      WithinSteps(old(buf[..]), b1, buf[..], from, e, at, e);
    }
  }

  /** Strings that lie one after the other in the buffer, from `from` and before
      `limit`. */
  ghost predicate Parts(b: seq<char>, from: nat, limit: nat, ptrs: seq<nat>, ends: seq<nat>, texts: seq<string>) {
    && |ptrs| == |ends| == |texts|
    && (forall i :: 0 <= i < |ptrs| ==>
          from <= ptrs[i] && ends[i] < limit && CStr(b, ptrs[i], ends[i]) && b[ptrs[i]..ends[i]] == texts[i])
    && (forall i, j :: 0 <= i < j < |ptrs| ==> ends[i] < ptrs[j])
  }

  lemma PartsKeep(b: seq<char>, b': seq<char>, p: nat, e: nat, from: nat, limit: nat, ptrs: seq<nat>,
          ends: seq<nat>, texts: seq<string>)
    requires Parts(b, from, limit, ptrs, ends, texts) && Within(b, b', p, e) && limit <= p
    ensures Parts(b', from, limit, ptrs, ends, texts)
  {
  }

  lemma PartsAdd(b: seq<char>, p: nat, te: nat, from: nat, limit: nat, ptrs: seq<nat>, ends: seq<nat>,
          texts: seq<string>)
    requires Parts(b, from, limit, ptrs, ends, texts) && limit <= p && from <= p && CStr(b, p, te)
    ensures Parts(b, from, te + 1, ptrs + [p], ends + [te], texts + [b[p..te]])
  {
  }

  /** Trims a part and adds it. */
  method AddPart(buf: array<char>, p: nat, ghost te: nat, ghost from: nat, ghost ptrs: seq<nat>,
          ghost ends: seq<nat>, ghost texts: seq<string>)
    returns (ghost te': nat)
    requires Parts(buf[..], from, p, ptrs, ends, texts) && from <= p && CStr(buf[..], p, te)
    modifies buf
    ensures te' <= te && Within(old(buf[..]), buf[..], p, te)
    ensures Parts(buf[..], from, te' + 1, ptrs + [p], ends + [te'], texts + [Trimmed(old(buf[p..te]))])
  {
    hide Trimmed, CStr, Within, Parts;
    ghost var b := buf[..];
    te' := Trim(buf, p, te);
    PartsKeep(b, buf[..], p, te, from, p, ptrs, ends, texts);
    PartsAdd(buf[..], p, te', from, p, ptrs, ends, texts);
  }

  /** The parts between bars, trimmed where they stand. */
  method ParseCmd(buf: array<char>, command: nat, ghost e: nat) returns (parsed: seq<nat>, ghost ends: seq<nat>)
    requires CStr(buf[..], command, e) && e - command < MAX_LINE_LENGTH
    modifies buf
    ensures Within(old(buf[..]), buf[..], command, e)
    ensures Parts(buf[..], command, e + 1, parsed, ends, Trims(Tokens(old(buf[command..e]), BAR)))
    ensures |parsed| < MAX_ARGV_LENGTH
  {
    hide Tokens, Trimmed, Parts, Trims;
    TokensFit(buf[command..e], BAR);
    ghost var all := Tokens(buf[command..e], BAR);
    parsed, ends := [], [];
    ghost var texts: seq<string> := [];
    var ptr, saved, te := StrTok(buf, command, e, BAR);
    ghost var b0, b1, at;
    assert Parts(buf[..], command, if ptr.At? then ptr.p else e + 1, [], [], []) by {
      NoParts(buf[..], command, if ptr.At? then ptr.p else e + 1);
    }
    while ptr.At?
      invariant Within(old(buf[..]), buf[..], command, e) && |texts| == |parsed| <= |all|
      invariant command <= saved <= e && CStr(buf[..], saved, e)
      invariant Parts(buf[..], command, if ptr.At? then ptr.p else e + 1, parsed, ends, texts)
      invariant forall i :: 0 <= i < |texts| ==> texts[i] == Trimmed(all[i])
      invariant ptr.At? ==> |parsed| < |all| && command <= ptr.p < te <= saved && CStr(buf[..], ptr.p, te)
      invariant ptr.At? ==> buf[ptr.p..te] == all[|parsed|] && Tokens(buf[saved..e], BAR) == all[|parsed| + 1..]
      invariant ptr.Null? ==> |parsed| == |all|
      decreases e - saved, if ptr.At? then 1 else 0
    {
      b0 := buf[..];
      ghost var te' := AddPart(buf, ptr.p, te, command, parsed, ends, texts);
      b1 := buf[..];
      Elsewhere(b0, b1, ptr.p, te, saved, e);
      WithinSteps(old(buf[..]), b0, b1, command, e, ptr.p, te);
      parsed := parsed + [ptr.p];
      ends := ends + [te'];
      texts := texts + [Trimmed(all[|texts|])];
      assert te < saved || saved == e;
      at := saved;
      ptr, saved, te := StrTok(buf, saved, e, BAR);
      WithinSteps(old(buf[..]), b1, buf[..], command, e, at, e);
      MoreParts(b1, buf[..], at, e, command, te', if ptr.At? then ptr.p else e + 1, parsed, ends, texts);
    }
    TrimsAre(texts, all);
  }

  lemma NoParts(b: seq<char>, from: nat, limit: nat)
    ensures Parts(b, from, limit, [], [], [])
  {
  }

  lemma TrimsAre(texts: seq<string>, tokens: seq<string>)
    requires |texts| == |tokens| && forall i :: 0 <= i < |texts| ==> texts[i] == Trimmed(tokens[i])
    ensures texts == Trims(tokens)
  {
  }

  /** The search for the next part leaves the ones found alone. */
  lemma MoreParts(b: seq<char>, b': seq<char>, at: nat, e: nat, from: nat, te: nat, limit: nat, ptrs: seq<nat>,
          ends: seq<nat>, texts: seq<string>)
    requires Parts(b, from, te + 1, ptrs, ends, texts) && Within(b, b', at, e) && te < limit && (te < at || at == e)
    ensures Parts(b', from, limit, ptrs, ends, texts)
  {
  }

  method StrChr(buf: array<char>, p: nat, ghost e: nat, c: char) returns (r: CharPtr)
    requires CStr(buf[..], p, e) && c != NUL
    ensures r.Null? <==> c !in buf[p..e]
    ensures r.At? ==> p <= r.p < e && r.p - p == IndexOf(buf[p..e], c)
  {
    var q := p;
    while buf[q] != NUL && buf[q] != c
      invariant p <= q <= e && forall i :: p <= i < q ==> buf[i] != c
      decreases e - q
    {
      q := q + 1;
    }
    if buf[q] == NUL { return Null; }
    assert buf[p..e][q - p] == c;
    r := At(q);
  }

  /** The words and the file name of a command with a redirect. */
  method CutRedirect(buf: array<char>, pipe: nat, ghost e: nat, found: nat,
          c: char) returns (args: seq<string>, name: string)
    requires CStr(buf[..], pipe, e) && e - pipe < MAX_LINE_LENGTH
    requires pipe <= found < e && found - pipe == IndexOf(buf[pipe..e], c) && c in buf[pipe..e]
    modifies buf
    ensures (args, name) == Redirected(old(buf[pipe..e]), c) && Within(old(buf[..]), buf[..], pipe, e)
    ensures |args| < MAX_ARGV_LENGTH
  {
    hide Tokens, Trimmed;
    ghost var b0 := buf[..];
    ghost var e1 := Trim(buf, found + 1, e);
    ghost var b1 := buf[..];
    ghost var e2;
    name, e2 := ToArg(buf, found + 1, e1);
    ghost var b2 := buf[..];
    RestIs(b0, b1, b2, pipe, found, e, e1, e2, name);
    SliceOfSlice(b0, pipe, e, found + 1, e);
    SliceOfSlice(b0, pipe, e, pipe, found + 1);
    args := FirstWords(buf, pipe, e2, c);
    WithinSteps(b0, b2, buf[..], pipe, e, pipe, e2);
  }

  /** The words of the first part of a string between `c`s. */
  method FirstWords(buf: array<char>, pipe: nat, ghost e: nat, c: char) returns (args: seq<string>)
    requires CStr(buf[..], pipe, e) && e - pipe < MAX_LINE_LENGTH
    modifies buf
    ensures var parts := Tokens(old(buf[pipe..e]), [c]); args == if parts == [] then [] else Words(parts[0])
    ensures Within(old(buf[..]), buf[..], pipe, e) && |args| < MAX_ARGV_LENGTH
  {
    hide Tokens, Words;
    ghost var b0 := buf[..];
    var tok, saved, te := StrTok(buf, pipe, e, [c]);
    ghost var b1 := buf[..];
    match tok {
      case At(p) =>
        args := Args(buf, p, te);
        WithinSteps(b0, b1, buf[..], pipe, e, p, te);
      case Null =>
        NoWords();
        assert buf[saved..e] == [];
        args := Args(buf, saved, e);
        WithinSteps(b0, b1, buf[..], pipe, e, saved, e);
    }
  }

  lemma NoWords()
    ensures Words([]) == []
  {
  }

  /** The text once the file name has been trimmed where it stands. */
  lemma RestIs(b0: seq<char>, b1: seq<char>, b2: seq<char>, pipe: nat, found: nat, e: nat, e1: nat, e2: nat,
          name: string)
    requires CStr(b0, pipe, e) && pipe <= found < e && Within(b0, b1, found + 1, e) && e1 <= e
    requires CStr(b1, found + 1, e1) && b1[found + 1..e1] == Trimmed(b0[found + 1..e])
    requires Within(b1, b2, found + 1, e1) && e2 <= e1 && CStr(b2, found + 1, e2)
    requires name == b2[found + 1..e2] == Trimmed(b1[found + 1..e1])
    ensures name == Trimmed(b0[found + 1..e]) && CStr(b2, pipe, e2) && Within(b0, b2, pipe, e)
    ensures b2[pipe..e2] == b0[pipe..found + 1] + name
  {
    hide Trimmed;
    TrimTwice(b0[found + 1..e]);
    FrontKept(b0, b1, b2, pipe, found, e, e1, e2);
    assert found + 1 <= e2 < |b2|;
    hide CStr, Within;
    JoinSlices(b2, pipe, found + 1, e2);
  }

  lemma FrontKept(b0: seq<char>, b1: seq<char>, b2: seq<char>, pipe: nat, found: nat, e: nat, e1: nat, e2: nat)
    requires CStr(b0, pipe, e) && pipe <= found < e && Within(b0, b1, found + 1, e) && e1 <= e
    requires Within(b1, b2, found + 1, e1) && e2 <= e1 && CStr(b2, found + 1, e2)
    ensures CStr(b2, pipe, e2) && Within(b0, b2, pipe, e) && b2[pipe..found + 1] == b0[pipe..found + 1]
  {
  }

  lemma JoinSlices(b: seq<char>, p: nat, m: nat, e: nat)
    requires p <= m <= e <= |b|
    ensures b[p..e] == b[p..m] + b[m..e]
  {
  }

  /** The words and redirect of one part of the line. */
  method ToToken(buf: array<char>, pipe: nat, ghost e: nat, isBeginEnd: bool) returns (cmd: Command)
    requires CStr(buf[..], pipe, e) && e - pipe < MAX_LINE_LENGTH
    modifies buf
    ensures cmd == CommandOf(old(buf[pipe..e]), isBeginEnd) && Within(old(buf[..]), buf[..], pipe, e)
  {
    hide Tokens, Trimmed, Redirected, Words;
    ghost var b0 := buf[..];
    ghost var e1 := Trim(buf, pipe, e);
    ghost var b1 := buf[..];
    var args, name;
    if isBeginEnd {
      var inFound := StrChr(buf, pipe, e1, '<');
      var outFound := StrChr(buf, pipe, e1, '>');
      if inFound.Null? && outFound.Null? {
        args := Args(buf, pipe, e1);
        cmd := Command(args, NoPath, NoPath);
      } else if inFound.At? {
        args, name := CutRedirect(buf, pipe, e1, inFound.p, '<');
        cmd := Command(args, Path(name), NoPath);
      } else {
        args, name := CutRedirect(buf, pipe, e1, outFound.p, '>');
        cmd := Command(args, NoPath, Path(name));
      }
    } else {
      args := Args(buf, pipe, e1);
      cmd := Command(args, NoPath, NoPath);
    }
    WithinSteps(b0, b1, buf[..], pipe, e, pipe, e1);
  }

  /** `strncpy` of a string into a buffer that holds it. */
  method CopyLine(line: string) returns (buffer: array<char>)
    requires NUL !in line && |line| < MAX_LINE_LENGTH
    ensures fresh(buffer) && CStr(buffer[..], 0, |line|) && buffer[0..|line|] == line
  {
    buffer := new char[MAX_LINE_LENGTH](_ => NUL);
    for i := 0 to |line|
      invariant forall j :: 0 <= j < i ==> buffer[j] == line[j]
      invariant forall j :: i <= j < MAX_LINE_LENGTH ==> buffer[j] == NUL
    {
      buffer[i] := line[i];
    }
  }

  /** The commands of the parts, each cut where it stands. */
  method Commands(buf: array<char>, parsed: seq<nat>, ghost ends: seq<nat>, ghost limit: nat, ghost texts: seq<string>)
    returns (commands: seq<Command>)
    requires |parsed| == |texts| && PartsFrom(buf[..], 0, limit, parsed, ends, texts) && limit <= MAX_LINE_LENGTH
    modifies buf
    ensures commands == CommandsOf(texts)
  {
    hide CommandOf, PartsFrom, CommandsOf, Built;
    commands := [];
    assert Built([], texts) by { BuiltNone(texts); }
    for ii := 0 to |parsed|
      invariant |commands| == ii && Built(commands, texts) && PartsFrom(buf[..], ii, limit, parsed, ends, texts)
    {
      var command := NextCommand(buf, ii, parsed, ends, limit, texts);
      BuiltOne(commands, texts, command);
      commands := commands + [command];
    }
    BuiltAll(commands, texts);
  }

  /** The commands of the first parts. */
  ghost predicate Built(commands: seq<Command>, texts: seq<string>) {
    && |commands| <= |texts|
    && forall j :: 0 <= j < |commands| ==> commands[j] == CommandOf(texts[j], j == 0 || j == |texts| - 1)
  }

  lemma BuiltNone(texts: seq<string>)
    ensures Built([], texts)
  {
  }

  lemma BuiltOne(commands: seq<Command>, texts: seq<string>, command: Command)
    requires Built(commands, texts) && |commands| < |texts|
    requires command == CommandOf(texts[|commands|], |commands| == 0 || |commands| == |texts| - 1)
    ensures Built(commands + [command], texts)
  {
    hide CommandOf;
  }

  lemma BuiltAll(commands: seq<Command>, texts: seq<string>)
    requires Built(commands, texts) && |commands| == |texts|
    ensures commands == CommandsOf(texts)
  {
  }

  method NextCommand(buf: array<char>, ii: nat, parsed: seq<nat>, ghost ends: seq<nat>, ghost limit: nat,
          ghost texts: seq<string>)
    returns (command: Command)
    requires ii < |parsed| == |texts| && PartsFrom(buf[..], ii, limit, parsed, ends, texts) && limit <= MAX_LINE_LENGTH
    modifies buf
    ensures command == CommandOf(texts[ii], ii == 0 || ii == |texts| - 1)
    ensures PartsFrom(buf[..], ii + 1, limit, parsed, ends, texts)
  {
    FirstPart(buf[..], ii, limit, parsed, ends, texts);
    hide CommandOf, CStr, PartsFrom, Within;
    ghost var b := buf[..];
    command := ToToken(buf, parsed[ii], ends[ii], ii == 0 || ii == |parsed| - 1);
    RestParts(b, buf[..], ii, limit, parsed, ends, texts);
  }

  /** The parts from number `k` on. */
  ghost predicate PartsFrom(b: seq<char>, k: nat, limit: nat, ptrs: seq<nat>, ends: seq<nat>, texts: seq<string>) {
    && |ptrs| == |ends| == |texts|
    && (forall i :: k <= i < |ptrs| ==> ends[i] < limit && CStr(b, ptrs[i], ends[i]) && b[ptrs[i]..ends[i]] == texts[i])
    && (forall i, j :: k <= i < j < |ptrs| ==> ends[i] < ptrs[j])
  }

  lemma PartsAll(b: seq<char>, limit: nat, ptrs: seq<nat>, ends: seq<nat>, texts: seq<string>)
    requires Parts(b, 0, limit, ptrs, ends, texts)
    ensures |ptrs| == |ends| == |texts| && PartsFrom(b, 0, limit, ptrs, ends, texts)
  {
  }

  lemma FirstPart(b: seq<char>, k: nat, limit: nat, ptrs: seq<nat>, ends: seq<nat>, texts: seq<string>)
    requires PartsFrom(b, k, limit, ptrs, ends, texts) && k < |ptrs|
    ensures |ends| == |texts| == |ptrs| && ends[k] < limit && CStr(b, ptrs[k], ends[k])
    ensures ptrs[k] <= ends[k] <= |b| && b[ptrs[k]..ends[k]] == texts[k]
  {
  }

  /** Work on one part leaves the later ones alone. */
  lemma RestParts(b: seq<char>, b': seq<char>, k: nat, limit: nat, ptrs: seq<nat>, ends: seq<nat>, texts: seq<string>)
    requires PartsFrom(b, k, limit, ptrs, ends, texts) && k < |ptrs| && Within(b, b', ptrs[k], ends[k])
    ensures PartsFrom(b', k + 1, limit, ptrs, ends, texts)
  {
  }

  /** The pipeline of a command line. A line that is too long leaves the buffer
      without a NUL, and of a blank one the character before the buffer is read. */
  method PipelineBuild(line: string) returns (r: Parsed)
    requires NUL !in line
    ensures r == ParseLine(line)
  {
    hide Trimmed, Tokens, Trims, CommandsOf;
    if |line| >= MAX_LINE_LENGTH { return Undefined; }
    var buffer := CopyLine(line);
    ghost var e := Trim(buffer, 0, |line|);
    ghost var t := buffer[0..e];
    var len := StrLen(buffer, 0, e);
    if len == 0 { return Undefined; }
    var background := buffer[len - 1] == '&';
    ghost var end := len;
    if background {
      buffer[len - 1] := NUL;
      end := len - 1;
    }
    ghost var body := buffer[0..end];
    assert body == if background then t[..len - 1] else t;
    var parsed, ends := ParseCmd(buffer, 0, end);
    PartsAll(buffer[..], end + 1, parsed, ends, Trims(Tokens(body, BAR)));
    var commands := Commands(buffer, parsed, ends, end + 1, Trims(Tokens(body, BAR)));
    r := Parsed(Pipeline(commands, background));
  }
}
