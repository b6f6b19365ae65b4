/** The engine registry of `engine.rs`: how an agent's command line is put together, and which
    words the shell reads from it.  The model name, which comes from a card or a profile, can only
    ever be one word. */
module Engine {
  import opened Wrappers
  import opened Text
  import opened Shell

  datatype PromptStyle = FlagP | Positional | QueryFile

  datatype ResumeFlag = Conversation | Resume | Session

  /** The fixed texts of an engine are given word by word; the code has them joined by spaces. */
  datatype Engine = Engine(id: string, prefix: seq<string>, postModel: seq<string>, trailing: seq<string>,
                           prompt: PromptStyle, resume: Option<ResumeFlag>)

  function Registry(): seq<Engine> {
    [Cursor(), Agy(), Claude(), OpenCode(), Hermes(), Pi()]
  }

  function Cursor(): Engine {
    Engine("cursor",
           ["agent", "-p", "--force", "--trust", "--approve-mcps", "--sandbox", "disabled",
            "--output-format", "stream-json"],
           [], [], Positional, Some(Resume))
  }

  function Agy(): Engine {
    Engine("agy", ["agy", "--dangerously-skip-permissions"],
           ["--print-timeout", "24h", "--output-format", "stream-json"], [], FlagP, Some(Conversation))
  }

  // The path stands as two pieces, as in HermesQueryFile.
  function Claude(): Engine {
    Engine("claude",
           ["claude", "--bare", "--strict-mcp-config", "--mcp-config",
            "/sandbox/.sandboard" + "/mcp/claude_mcp.json"],
           [],
           ["--output-format", "stream-json", "--verbose", "--permission-mode", "bypassPermissions"],
           FlagP, None)
  }

  function OpenCode(): Engine {
    Engine("opencode", ["opencode", "run", "--format", "json", "--auto"], [], [], Positional, Some(Session))
  }

  function Hermes(): Engine {
    Engine("hermes", ["hermes", "--yolo", "--accept-hooks", "--provider", "openrouter"], ["chat"], [],
           QueryFile, Some(Resume))
  }

  function Pi(): Engine {
    Engine("pi", ["pi", "--mode", "json"], [], [], Positional, None)
  }

  function DefaultSeatModel(): string { "gemini-3.6-flash-high" }

  // Literals over 20 characters stand as two pieces here, so that each can be checked word by word.
  function HermesQueryFile(): string { "/tmp/sandboard" + "-hermes-query" }

  datatype PromptEnv = Briefing | Prompt

  function PromptVariable(p: PromptEnv): string {
    if p.Briefing? then "SANDBOARD_BRIEFING" else "SANDBOARD_PROMPT"
  }

  function ConversationVariable(): string { "SANDBOARD_CONVERSATION" }

  function ModelFlag(): string { "--model" }

  function PromptFlag(s: PromptStyle): string {
    if s.QueryFile? then "--query-file" else "-p"
  }

  function ResumeName(f: ResumeFlag): string {
    match f
    case Conversation => "--conversation"
    case Resume => "--resume"
    case Session => "--session"
  }

  function ShellRef(variable: string): string {
    "\"$" + variable + "\""
  }

  function ResumeArgv(f: ResumeFlag): string {
    ResumeName(f) + " " + ShellRef(ConversationVariable())
  }

  function Find(engines: seq<Engine>, id: string): Option<Engine> {
    if engines == [] then None
    else if engines[0].id == id then Some(engines[0])
    else Find(engines[1..], id)
  }

  function Lookup(id: string): Option<Engine> {
    Find(Registry(), Trim(id))
  }

  predicate AcceptsCliModel(engineId: string) {
    var id := Trim(engineId);
    id == "agy" || id == "cursor" || id == "opencode" || id == "hermes"
  }

  function DefaultModel(engineId: string): Option<string> {
    if Trim(engineId) == "agy" then Some(DefaultSeatModel()) else None
  }

  /** The model the command line will name, if any. */
  function ResolvedModel(engineId: string, model: Option<string>): Option<string> {
    if !AcceptsCliModel(engineId) then None
    else if model.Some? && Trim(model.value) != [] then Some(Trim(model.value))
    else DefaultModel(engineId)
  }

  function CliModelArgv(engineId: string, model: Option<string>): Option<string> {
    match ResolvedModel(engineId, model)
    case None => None
    case Some(m) => Some(ModelFlag() + " " + SingleQuote(m, DoubleQuoteStyle))
  }

  function Join(parts: seq<string>): string {
    if parts == [] then ""
    else if |parts| == 1 then parts[0]
    else parts[0] + " " + Join(parts[1..])
  }

  function PromptParts(e: Engine, prompt: PromptEnv): seq<string> {
    match e.prompt
    case FlagP => [PromptFlag(e.prompt), ShellRef(PromptVariable(prompt))]
    case Positional => [ShellRef(PromptVariable(prompt))]
    case QueryFile => [PromptFlag(e.prompt), HermesQueryFile()]
  }

  function ModelParts(e: Engine, model: Option<string>): seq<string> {
    match CliModelArgv(e.id, model)
    case None => []
    case Some(argv) => [argv]
  }

  function ResumeParts(e: Engine, resuming: bool): seq<string> {
    if resuming && e.resume.Some? then [ResumeArgv(e.resume.value)] else []
  }

  function FixedPart(words: seq<string>): seq<string> {
    if words == [] then [] else [Join(words)]
  }

  function Parts(e: Engine, prompt: PromptEnv, resuming: bool, model: Option<string>): seq<string> {
    HeadParts(e, resuming, model) + PromptParts(e, prompt) + FixedPart(e.trailing)
  }

  function HeadParts(e: Engine, resuming: bool, model: Option<string>): seq<string> {
    [Join(e.prefix)] + ModelParts(e, model) + FixedPart(e.postModel) + ResumeParts(e, resuming)
  }

  method PushHead(e: Engine, resuming: bool, model: Option<string>) returns (parts: seq<string>)
    ensures parts == HeadParts(e, resuming, model)
  {
    parts := [Join(e.prefix)];
    var argv := CliModelArgv(e.id, model);
    if argv.Some? {
      parts := parts + [argv.value];
    }
    assert parts == [Join(e.prefix)] + ModelParts(e, model);
    if e.postModel != [] {
      parts := parts + [Join(e.postModel)];
    }
    assert parts == [Join(e.prefix)] + ModelParts(e, model) + FixedPart(e.postModel);
    if resuming && e.resume.Some? {
      parts := parts + [ResumeArgv(e.resume.value)];
    }
  }

  method PushPrompt(e: Engine, prompt: PromptEnv, head: seq<string>) returns (parts: seq<string>)
    ensures parts == head + PromptParts(e, prompt) + FixedPart(e.trailing)
  {
    parts := head;
    match e.prompt {
      case FlagP => parts := parts + [PromptFlag(e.prompt), ShellRef(PromptVariable(prompt))];
      case Positional => parts := parts + [ShellRef(PromptVariable(prompt))];
      case QueryFile => parts := parts + [PromptFlag(e.prompt), HermesQueryFile()];
    }
    assert parts == head + PromptParts(e, prompt);
    if e.trailing != [] {
      parts := parts + [Join(e.trailing)];
    }
  }

  method CommandLine(engineId: string, prompt: PromptEnv, conversation: Option<string>, model: Option<string>)
    returns (r: Result<string, string>)
    ensures r == match Lookup(engineId)
                 case None => Err(Trim(engineId))
                 case Some(e) => Ok(Join(Parts(e, prompt, conversation.Some?, model)))
  {
    var found := Lookup(engineId);
    if found.None? {
      return Err(Trim(engineId));
    }
    var parts := PushHead(found.value, conversation.Some?, model);
    parts := PushPrompt(found.value, prompt, parts);
    return Ok(Join(parts));
  }

  // ------------------------------------------------------------------ words of the command line

  function LitsAll(words: seq<string>): seq<Word> {
    seq(|words|, i requires 0 <= i < |words| => Lits(words[i]))
  }

  function PromptArgv(e: Engine, prompt: PromptEnv): seq<Word> {
    match e.prompt
    case FlagP => [Lits(PromptFlag(e.prompt)), [Param(PromptVariable(prompt))]]
    case Positional => [[Param(PromptVariable(prompt))]]
    case QueryFile => [Lits(PromptFlag(e.prompt)), Lits(HermesQueryFile())]
  }

  function ModelArgv(model: Option<string>): seq<Word> {
    if model.Some? then [Lits(ModelFlag()), Lits(model.value)] else []
  }

  function ResumedArgv(e: Engine, resuming: bool): seq<Word> {
    if resuming && e.resume.Some? then [Lits(ResumeName(e.resume.value)), [Param(ConversationVariable())]] else []
  }

  /** The argument vector an engine is meant to get. */
  function Argv(e: Engine, prompt: PromptEnv, resuming: bool, model: Option<string>): seq<Word> {
    LitsAll(e.prefix)
    + ModelArgv(model)
    + LitsAll(e.postModel)
    + ResumedArgv(e, resuming)
    + PromptArgv(e, prompt)
    + LitsAll(e.trailing)
  }

  predicate PlainWords(words: seq<string>) {
    forall i | 0 <= i < |words| :: PlainWord(words[i])
  }

  predicate Reads(part: string, words: seq<Word>) {
    Words(part) == Some(words)
  }

  lemma {:induction false} JoinPlain(words: seq<string>)
    requires PlainWords(words) && words != []
    ensures Reads(Join(words), LitsAll(words))
  {
    PlainWordIsOneWord(words[0]);
    if |words| == 1 {
      assert LitsAll(words) == [Lits(words[0])];
    } else {
      JoinPlain(words[1..]);
      JoinedWords(words[0], Join(words[1..]));
      assert LitsAll(words) == [Lits(words[0])] + LitsAll(words[1..]);
    }
  }

  /** Parts joined by spaces, each with its words. */
  predicate ReadsAll(parts: seq<string>, words: seq<Word>)
    decreases |parts|
  {
    if parts == [] then words == []
    else exists n :: 0 <= n <= |words| && Reads(parts[0], words[..n]) && ReadsAll(parts[1..], words[n..])
  }

  lemma {:induction false} JoinReads(parts: seq<string>, words: seq<Word>)
    requires ReadsAll(parts, words)
    ensures parts != [] ==> Reads(Join(parts), words)
    decreases |parts|
  {
    if parts != [] {
      var n :| 0 <= n <= |words| && Reads(parts[0], words[..n]) && ReadsAll(parts[1..], words[n..]);
      JoinReads(parts[1..], words[n..]);
      assert words == words[..n] + words[n..];
      if |parts| > 1 {
        JoinedWords(parts[0], Join(parts[1..]));
      } else {
        assert words[n..] == [] && words == words[..n];
      }
    }
  }

  lemma ReadsOne(part: string, more: seq<Word>)
    requires Reads(part, more)
    ensures ReadsAll([part], more)
  {
    assert more[..|more|] == more && more[|more|..] == [] && [part][1..] == [];
  }

  lemma ReadsStep(words: seq<Word>, n: nat, all: seq<string>, allWords: seq<Word>)
    requires all != [] && n <= |words| <= |allWords| && words[..n] == allWords[..n]
    requires Reads(all[0], words[..n]) && ReadsAll(all[1..], allWords[n..])
    ensures ReadsAll(all, allWords)
  {
  }

  lemma {:induction false} ReadsMore(parts: seq<string>, words: seq<Word>, part: string, more: seq<Word>)
    requires ReadsAll(parts, words) && Reads(part, more)
    ensures ReadsAll(parts + [part], words + more)
    decreases |parts|
  {
    if parts == [] {
      ReadsOne(part, more);
      assert parts + [part] == [part] && words + more == more;
    } else {
      var n :| 0 <= n <= |words| && Reads(parts[0], words[..n]) && ReadsAll(parts[1..], words[n..]);
      ReadsMore(parts[1..], words[n..], part, more);
      assert (parts + [part])[1..] == parts[1..] + [part];
      assert (words + more)[..n] == words[..n] && (words + more)[n..] == words[n..] + more;
      ReadsStep(words, n, parts + [part], words + more);
    }
  }

  lemma ModelFlagIsPlain()
    ensures PlainWord(ModelFlag())
  {
  }

  /** The model segment is exactly two words, `--model` and the model itself. */
  lemma ModelIsTwoWords(engineId: string, model: Option<string>)
    requires ResolvedModel(engineId, model).Some?
    ensures CliModelArgv(engineId, model).Some?
    ensures Words(CliModelArgv(engineId, model).value)
         == Some([Lits(ModelFlag()), Lits(ResolvedModel(engineId, model).value)])
  {
    var m, flag := ResolvedModel(engineId, model).value, ModelFlag();
    ModelFlagIsPlain();
    PlainWordIsOneWord(flag);
    QuotedIsOneWord(m, DoubleQuoteStyle);
    JoinedWords(flag, SingleQuote(m, DoubleQuoteStyle));
    assert [Lits(flag)] + [Lits(m)] == [Lits(flag), Lits(m)];
  }

  lemma FlagsArePlain(f: ResumeFlag, s: PromptStyle)
    ensures PlainWord(ResumeName(f)) && PlainWord(PromptFlag(s))
  {
  }

  lemma PlainAppend(a: string, b: string)
    requires PlainWord(a) && PlainWord(b)
    ensures PlainWord(a + b)
  {
  }

  lemma QueryFileIsPlain()
    ensures PlainWord(HermesQueryFile())
  {
    PlainAppend("/tmp/sandboard", "-hermes-query");
  }

  lemma PromptVariableIsName(p: PromptEnv)
    ensures IsName(PromptVariable(p))
  {
  }

  lemma ConversationIsName()
    ensures IsName(ConversationVariable())
  {
  }

  lemma ResumeReads(f: ResumeFlag)
    ensures Reads(ResumeArgv(f), [Lits(ResumeName(f)), [Param(ConversationVariable())]])
  {
    var flag, variable := ResumeName(f), ConversationVariable();
    FlagsArePlain(f, FlagP);
    ConversationIsName();
    PlainWordIsOneWord(flag);
    ParamIsOneWord(variable);
    JoinedWords(flag, ShellRef(variable));
    assert [Lits(flag)] + [[Param(variable)]] == [Lits(flag), [Param(variable)]];
  }

  lemma PromptReads(parts: seq<string>, words: seq<Word>, e: Engine, prompt: PromptEnv)
    requires ReadsAll(parts, words)
    ensures ReadsAll(parts + PromptParts(e, prompt), words + PromptArgv(e, prompt))
  {
    var flag, variable, file := PromptFlag(e.prompt), PromptVariable(prompt), HermesQueryFile();
    FlagsArePlain(Resume, e.prompt);
    PromptVariableIsName(prompt);
    QueryFileIsPlain();
    PlainWordIsOneWord(flag);
    PlainWordIsOneWord(file);
    ParamIsOneWord(variable);
    if e.prompt.Positional? {
      ReadsMore(parts, words, ShellRef(variable), [[Param(variable)]]);
    } else {
      var last := if e.prompt.FlagP? then ShellRef(variable) else file;
      var lastWord := if e.prompt.FlagP? then [Param(variable)] else Lits(file);
      ReadsMore(parts, words, flag, [Lits(flag)]);
      ReadsMore(parts + [flag], words + [Lits(flag)], last, [lastWord]);
      assert parts + [flag] + [last] == parts + PromptParts(e, prompt);
      assert words + [Lits(flag)] + [lastWord] == words + PromptArgv(e, prompt);
    }
  }

  lemma FixedReads(parts: seq<string>, words: seq<Word>, fixed: seq<string>)
    requires ReadsAll(parts, words) && PlainWords(fixed)
    ensures ReadsAll(parts + FixedPart(fixed), words + LitsAll(fixed))
  {
    if fixed != [] {
      JoinPlain(fixed);
      ReadsMore(parts, words, Join(fixed), LitsAll(fixed));
    } else {
      assert parts + [] == parts && words + LitsAll(fixed) == words;
    }
  }

  predicate PlainEngine(e: Engine) {
    PlainWords(e.prefix) && e.prefix != [] && PlainWords(e.postModel) && PlainWords(e.trailing)
  }

  lemma ModelReads(parts: seq<string>, words: seq<Word>, e: Engine, model: Option<string>)
    requires ReadsAll(parts, words)
    ensures ReadsAll(parts + ModelParts(e, model), words + ModelArgv(ResolvedModel(e.id, model)))
  {
    var m := ResolvedModel(e.id, model);
    if m.Some? {
      ModelIsTwoWords(e.id, model);
      ReadsMore(parts, words, CliModelArgv(e.id, model).value, ModelArgv(m));
    } else {
      assert parts + [] == parts && words + [] == words;
    }
  }

  lemma ResumedReads(parts: seq<string>, words: seq<Word>, e: Engine, resuming: bool)
    requires ReadsAll(parts, words)
    ensures ReadsAll(parts + ResumeParts(e, resuming), words + ResumedArgv(e, resuming))
  {
    if resuming && e.resume.Some? {
      ResumeReads(e.resume.value);
      ReadsMore(parts, words, ResumeArgv(e.resume.value), ResumedArgv(e, resuming));
    } else {
      assert parts + [] == parts && words + [] == words;
    }
  }

  lemma CommandReads(e: Engine, prompt: PromptEnv, resuming: bool, model: Option<string>)
    requires PlainEngine(e)
    ensures Reads(Join(Parts(e, prompt, resuming, model)), Argv(e, prompt, resuming, ResolvedModel(e.id, model)))
  {
    var p0, w0 := FixedPart(e.prefix), LitsAll(e.prefix);
    FixedReads([], [], e.prefix);
    assert [] + p0 == p0 && [] + w0 == w0;
    var p1, w1 := p0 + ModelParts(e, model), w0 + ModelArgv(ResolvedModel(e.id, model));
    ModelReads(p0, w0, e, model);
    var p2, w2 := p1 + FixedPart(e.postModel), w1 + LitsAll(e.postModel);
    FixedReads(p1, w1, e.postModel);
    var p3, w3 := p2 + ResumeParts(e, resuming), w2 + ResumedArgv(e, resuming);
    ResumedReads(p2, w2, e, resuming);
    PromptReads(p3, w3, e, prompt);
    FixedReads(p3 + PromptParts(e, prompt), w3 + PromptArgv(e, prompt), e.trailing);
    JoinReads(Parts(e, prompt, resuming, model), Argv(e, prompt, resuming, ResolvedModel(e.id, model)));
  }

  lemma CursorIsPlain()
    ensures PlainEngine(Cursor())
  {
  }

  lemma AgyPrefixIsPlain()
    ensures PlainWords(Agy().prefix)
  {
  }

  lemma AgyPostModelIsPlain()
    ensures PlainWords(Agy().postModel)
  {
  }

  lemma AgyIsPlain()
    ensures PlainEngine(Agy())
  {
    AgyPrefixIsPlain();
    AgyPostModelIsPlain();
  }

  lemma ConfigPathIsPlain()
    ensures PlainWord("/sandbox/.sandboard" + "/mcp/claude_mcp.json")
  {
    PlainAppend("/sandbox/.sandboard", "/mcp/claude_mcp.json");
  }

  lemma ClaudePrefixIsPlain()
    ensures PlainWords(Claude().prefix)
  {
    ConfigPathIsPlain();
  }

  lemma ClaudeTrailingIsPlain()
    ensures PlainWords(Claude().trailing)
  {
  }

  lemma ClaudeIsPlain()
    ensures PlainEngine(Claude())
  {
    ClaudePrefixIsPlain();
    ClaudeTrailingIsPlain();
  }

  lemma OpenCodeIsPlain()
    ensures PlainEngine(OpenCode())
  {
  }

  lemma PiIsPlain()
    ensures PlainEngine(Pi())
  {
  }

  lemma HermesIsPlain()
    ensures PlainEngine(Hermes())
  {
  }

  lemma {:induction false} FoundIsListed(engines: seq<Engine>, id: string)
    requires Find(engines, id).Some?
    ensures Find(engines, id).value in engines && Find(engines, id).value.id == id
  {
    if engines[0].id != id {
      FoundIsListed(engines[1..], id);
    }
  }

  lemma RegisteredIsPlain(e: Engine)
    requires e in Registry()
    ensures PlainEngine(e)
  {
    CursorIsPlain();
    AgyIsPlain();
    ClaudeIsPlain();
    OpenCodeIsPlain();
    PiIsPlain();
    HermesIsPlain();
  }

  lemma {:induction false} FindFirst(engines: seq<Engine>, e: Engine)
    requires e in engines && forall x | x in engines && x.id == e.id :: x == e
    ensures Find(engines, e.id) == Some(e)
  {
    if engines[0].id != e.id {
      assert engines == [engines[0]] + engines[1..];
      FindFirst(engines[1..], e);
    } else {
      assert engines[0] in engines;
    }
  }

  lemma IdsDiffer(i: nat, j: nat)
    requires i < j < |Registry()|
    ensures Registry()[i].id != Registry()[j].id
  {
    assert |Cursor().id| == 6 && |Agy().id| == 3 && |Claude().id| == 6 && |OpenCode().id| == 8 && |Hermes().id| == 6
        && |Pi().id| == 2;
    assert Cursor().id[1] == 'u' && Claude().id[1] == 'l' && Hermes().id[1] == 'e';
  }

  /** An id finds the registered engine it names, spaces around it aside, and an unknown one finds none. */
  lemma LookupIff(id: string, e: Engine)
    ensures Lookup(id) == Some(e) <==> e in Registry() && e.id == Trim(id)
  {
    if Lookup(id).Some? {
      FoundIsListed(Registry(), Trim(id));
    }
    if e in Registry() && e.id == Trim(id) {
      forall x | x in Registry() && x.id == e.id ensures x == e {
        var i :| 0 <= i < |Registry()| && Registry()[i] == x;
        var j :| 0 <= j < |Registry()| && Registry()[j] == e;
        if i < j {
          IdsDiffer(i, j);
        } else if j < i {
          IdsDiffer(j, i);
        }
      }
      FindFirst(Registry(), e);
    }
  }

  /** What the user asks for: a model that is not blank. */
  function Chosen(model: Option<string>): Option<string> {
    if model.Some? && Trim(model.value) != [] then Some(Trim(model.value)) else None
  }

  /** Which model each registered engine is told: Claude and Pi none, Antigravity the chosen one or its own
      default, the others the chosen one if there is one. */
  lemma ModelOfEngine(model: Option<string>)
    ensures ResolvedModel(Claude().id, model) == None && ResolvedModel(Pi().id, model) == None
    ensures ResolvedModel(Agy().id, model) == if Chosen(model).Some? then Chosen(model) else Some("gemini-3.6-flash-high")
    ensures ResolvedModel(Cursor().id, model) == Chosen(model) && ResolvedModel(OpenCode().id, model) == Chosen(model)
    ensures ResolvedModel(Hermes().id, model) == Chosen(model)
  {
    IdIsTrimmed(Claude());
    IdIsTrimmed(Pi());
    IdIsTrimmed(Agy());
    IdIsTrimmed(Cursor());
    IdIsTrimmed(OpenCode());
    IdIsTrimmed(Hermes());
    assert Claude().id[1] == 'l' && Cursor().id[1] == 'u' && Hermes().id[1] == 'e';
    assert |Claude().id| == 6 && |Pi().id| == 2 && |Agy().id| == 3 && |Cursor().id| == 6 && |OpenCode().id| == 8
        && |Hermes().id| == 6;
  }

  lemma IdIsTrimmed(e: Engine)
    requires e.id != [] && IsLower(e.id[0]) && IsLower(e.id[|e.id| - 1])
    ensures Trim(e.id) == e.id
  {
    TrimFixedIff(e.id);
  }

  /** For every registered engine and every model string, whatever its characters, the shell reads
      exactly the intended argument vector: the trimmed model is one word after `--model`, and no
      other word depends on it. */
  lemma CommandLineReadsAsArgv(engineId: string, prompt: PromptEnv, resuming: bool, model: Option<string>)
    requires Lookup(engineId).Some?
    ensures var e := Lookup(engineId).value;
      Words(Join(Parts(e, prompt, resuming, model))) == Some(Argv(e, prompt, resuming, ResolvedModel(e.id, model)))
  {
    FoundIsListed(Registry(), Trim(engineId));
    RegisteredIsPlain(Lookup(engineId).value);
    CommandReads(Lookup(engineId).value, prompt, resuming, model);
  }
}
