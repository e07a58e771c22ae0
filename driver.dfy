/**
 * The agent loop of src/agent/driver.ts. A `CoTDriver` keeps the conversation history and
 * four progress flags; `run` asks the model for one JSON step per iteration, for at most
 * fifty iterations, dispatches on the step, calls tools and appends what happened.
 *
 * The model, `JSON.parse` and the tools are collaborators passed in as functions: the
 * model's reply to iteration `n` over a given history, a partial parser, and a partial tool
 * call whose `None` is a thrown error.
 */
module Driver {
  import opened Wrappers
  import opened Text
  import opened Manifests

  const MaxIterations: nat := 50
  const Terminated := "Process terminated: Maximum iterations reached"
  const ProceedToTool := "Proceed to TOOL step. Call the appropriate tool with proper JSON input."
  const CallToolsFirst :=
    "You must call the required tools before providing OUTPUT. Please call checkLegal, analyzeWebsite, cloneWebsite, and validateClone tools first."

  /** The content of the OBSERVE sent back for a tool name that is missing or unknown. */
  function NoSuchTool(name: Option<string>): string {
    "There is no such tool as " + name.GetOr("undefined")
  }

  // ----- tools -----

  /** The keys of `TOOL_MAP`, in the order the fallback tries them. */
  datatype Tool = CheckLegal | AnalyzeWebsite | CloneWebsite | ValidateClone

  const Sequence: seq<Tool> := [CheckLegal, AnalyzeWebsite, CloneWebsite, ValidateClone]

  function Name(t: Tool): string {
    match t
    case CheckLegal => "checkLegal"
    case AnalyzeWebsite => "analyzeWebsite"
    case CloneWebsite => "cloneWebsite"
    case ValidateClone => "validateClone"
  }

  /** `name in TOOL_MAP`, for the tool's own four names. */
  function Lookup(name: string): Option<Tool> {
    if name == "checkLegal" then Some(CheckLegal)
    else if name == "analyzeWebsite" then Some(AnalyzeWebsite)
    else if name == "cloneWebsite" then Some(CloneWebsite)
    else if name == "validateClone" then Some(ValidateClone)
    else None
  }

  /** `TOOL_MAP` holds exactly the four names, each for its own tool. */
  lemma LookupName(name: string, t: Tool)
    ensures Lookup(name) == Some(t) <==> name == Name(t)
  {
  }

  /** The flags `didLegal`, `didAnalyze`, `didClone` and `didValidate`. */
  datatype Progress = Progress(legal: bool, analyze: bool, clone: bool, validate: bool) {
    predicate Done(t: Tool) {
      match t
      case CheckLegal => legal
      case AnalyzeWebsite => analyze
      case CloneWebsite => clone
      case ValidateClone => validate
    }

    function Mark(t: Tool): Progress {
      match t
      case CheckLegal => this.(legal := true)
      case AnalyzeWebsite => this.(analyze := true)
      case CloneWebsite => this.(clone := true)
      case ValidateClone => this.(validate := true)
    }

    /** Every flag set here is also set in `q`. */
    predicate Below(q: Progress) {
      forall t :: Done(t) ==> q.Done(t)
    }
  }

  /** Marking a tool sets its flag and leaves the other three as they were. */
  lemma MarkSetsOne(p: Progress, t: Tool)
    ensures p.Mark(t).Done(t)
    ensures forall u :: u != t ==> p.Mark(t).Done(u) == p.Done(u)
  {
  }

  /** The tool a TOOL step without a `tool_name` falls back to: the first whose flag is unset. */
  function NextTool(p: Progress): Option<Tool> {
    if !p.legal then Some(CheckLegal)
    else if !p.analyze then Some(AnalyzeWebsite)
    else if !p.clone then Some(CloneWebsite)
    else if !p.validate then Some(ValidateClone)
    else None
  }

  /** The fallback is the first tool of checkLegal, analyzeWebsite, cloneWebsite, validateClone not yet done, if any. */
  lemma NextToolFirstPending(p: Progress, k: nat)
    requires k < |Sequence|
    ensures NextTool(p) == Some(Sequence[k]) <==> !p.Done(Sequence[k]) && forall i :: 0 <= i < k ==> p.Done(Sequence[i])
    ensures NextTool(p) == None <==> forall t :: p.Done(t)
  {
    assert Sequence[0] == CheckLegal && Sequence[1] == AnalyzeWebsite;
    assert Sequence[2] == CloneWebsite && Sequence[3] == ValidateClone;
    assert p.Done(CheckLegal) == p.legal && p.Done(AnalyzeWebsite) == p.analyze;
    assert p.Done(CloneWebsite) == p.clone && p.Done(ValidateClone) == p.validate;
  }

  // ----- replies and messages -----

  datatype Step = Start | Think | ToolStep | Output | OtherStep

  /**
   * A parsed reply. `Nullish` is the JSON value `null`, whose `.step` throws; every other
   * value is a `Decision` (a primitive or an object lacking the members has step `OtherStep`).
   * `toolName` is `None` where `tool_name` is `undefined` or `null`; `tool_name`, `content` and
   * `input` are taken to be strings when present.
   */
  datatype Reply =
    | Nullish
    | Decision(step: Step, content: string, toolName: Option<string>, input: string)

  /** `ChatCompletionMessageParam`, by role and by what the driver put there. */
  datatype Message =
    // Stands for the enhanced system prompt; the model keeps only the caller's part of it,
    // since the format instructions wrapped around it are constant text.
    | System(prompt: string)
    | User(text: string)
    | Echo(reply: Reply)        // assistant: `JSON.stringify(parsedContent)`
    | Assistant(text: string)   // assistant: the reply text as received
    | Observe(content: string)  // developer: `JSON.stringify({ step: 'OBSERVE', content })`

  /** `history.some(...)`: a developer message whose step is OBSERVE. */
  predicate HasObserve(history: seq<Message>) {
    exists i :: 0 <= i < |history| && history[i].Observe?
  }

  datatype Env = Env(
    complete: (nat, seq<Message>) -> string,
    parseJson: string -> Option<Reply>,
    runTool: (Tool, string) -> Option<string>)

  // ----- reply text -----

  /** The first `replace`: an opening "```json" (any letter case) and the white space after it. */
  function DropOpeningFence(s: string): string {
    if |s| >= 7 && s[..3] == "```" && ToLowerAscii(s[3..7]) == "json" then TrimStart(s[7..]) else s
  }

  /** A match of `/```\s*$/` at `k`: "```" followed by nothing but white space. */
  predicate ClosingFenceAt(s: string, k: nat) {
    OccursAt(s, "```", k) && AllSpace(s[k + 3..])
  }

  /** The leftmost `k >= from` where "```" starts and only white space follows it. */
  function ClosingFenceFrom(s: string, from: nat): (k: Option<nat>)
    ensures k.Some? ==> from <= k.value && ClosingFenceAt(s, k.value)
    ensures k.Some? ==> forall j :: from <= j < k.value ==> !ClosingFenceAt(s, j)
    ensures k.None? ==> forall j :: from <= j ==> !ClosingFenceAt(s, j)
    decreases |s| - from
  {
    if from + 3 > |s| then None
    else if OccursAt(s, "```", from) && AllSpace(s[from + 3..]) then Some(from)
    else ClosingFenceFrom(s, from + 1)
  }

  /** The second `replace`: the leftmost "```" followed by nothing but white space. */
  function DropClosingFence(s: string): string {
    match ClosingFenceFrom(s, 0)
    case None => s
    case Some(k) => s[..k]
  }

  /** `contentText`: the reply with a markdown fence removed, trimmed. */
  function StripFence(raw: string): string {
    Trim(DropClosingFence(DropOpeningFence(raw)))
  }

  /** `contentText.replace(/\\/g, "\\\\")` */
  function Repair(s: string): string {
    ReplaceAll(s, "\\", "\\\\")
  }

  /** `JSON.parse(text)`, and on failure `JSON.parse` of the repaired text. */
  function Parse(text: string, parseJson: string -> Option<Reply>): Option<Reply> {
    if parseJson(text).Some? then parseJson(text) else parseJson(Repair(text))
  }

  /** `toolToCall` after the fallback. */
  function ChooseTool(toolName: Option<string>, p: Progress): Option<string> {
    if Truthy(toolName) then toolName
    else match NextTool(p)
      case Some(t) => Some(Name(t))
      case None => toolName
  }

  // ----- the loop -----

  datatype State = State(history: seq<Message>, progress: Progress)

  /**
   * One iteration of the `while` loop, numbered `n` from 1, on the model's reply once its
   * fence is stripped (`contentText`): the new state, and the answer when an OUTPUT is accepted.
   */
  function Turn(n: nat, s: State, text: string, env: Env): (State, Option<string>) {
    if text == "" then (s, None)
    else match Parse(text, env.parseJson)
      case None => (s.(history := s.history + [Assistant(text)]), None)
      case Some(reply) => Dispatch(n, s.(history := s.history + [Echo(reply)]), text, reply, env)
  }

  /** The dispatch on `parsedContent.step`, once the reply has been echoed into the history. */
  function Dispatch(n: nat, s: State, text: string, reply: Reply, env: Env): (State, Option<string>) {
    if reply.Nullish? then (s.(history := s.history + [Assistant(text)]), None)
    else if reply.step == Think then
      (s.(history := if n >= 3 then s.history + [User(ProceedToTool)] else s.history), None)
    else if reply.step == ToolStep then (CallTool(s, text, reply.toolName, reply.input, env), None)
    else if reply.step == Output then
      if HasObserve(s.history) then (s, Some(reply.content))
      else (s.(history := s.history + [User(CallToolsFirst)]), None)
    else (s, None)
  }

  /** A TOOL step: pick the tool, call it, record the observation and the progress. */
  function CallTool(s: State, text: string, toolName: Option<string>, input: string, env: Env): State {
    var chosen := ChooseTool(toolName, s.progress);
    if !Truthy(chosen) || Lookup(chosen.value).None? then
      s.(history := s.history + [Observe(NoSuchTool(chosen))])
    else
      var t := Lookup(chosen.value).value;
      match env.runTool(t, input)
      case None => s.(history := s.history + [Assistant(text)])
      case Some(result) => State(s.history + [Observe(result)], s.progress.Mark(t))
  }

  /** The model as the loop sees it: each reply with its fence stripped (`contentText`). */
  function Stripped(env: Env): Env {
    env.(complete := (k: nat, h: seq<Message>) => StripFence(env.complete(k, h)))
  }

  /**
   * Iterations `n + 1` to `MaxIterations`, stopping at the first accepted OUTPUT, for a model
   * whose replies are already stripped.
   */
  function Loop(n: nat, s: State, env: Env): (State, Option<string>)
    requires n <= MaxIterations
    decreases MaxIterations - n
  {
    if n == MaxIterations then (s, None)
    else
      var next := Turn(n + 1, s, env.complete(n + 1, s.history), env);
      if next.1.Some? then next else Loop(n + 1, next.0, env)
  }

  /** One unfolding of `Loop`. */
  lemma LoopStep(n: nat, s: State, env: Env)
    requires n < MaxIterations
    ensures var next := Turn(n + 1, s, env.complete(n + 1, s.history), env);
      Loop(n, s, env) == if next.1.Some? then next else Loop(n + 1, next.0, env)
  {
  }

  /** One iteration of `Loop` over the stripped model is one `Turn` on the stripped raw reply. */
  lemma LoopAfterTurn(n: nat, s: State, env: Env, raw: string, next: (State, Option<string>))
    requires n < MaxIterations
    requires raw == env.complete(n + 1, s.history)
    requires next == Turn(n + 1, s, StripFence(raw), env)
    ensures Loop(n, s, Stripped(env)) == if next.1.Some? then next else Loop(n + 1, next.0, Stripped(env))
  {
    var e := Stripped(env);
    assert e.complete(n + 1, s.history) == StripFence(raw);
    assert e.parseJson == env.parseJson && e.runTool == env.runTool;
    TurnIgnoresModel(n + 1, s, StripFence(raw), e, env);
    LoopStep(n, s, e);
  }

  /** A turn reads the parser and the tools, not the model. */
  lemma TurnIgnoresModel(n: nat, s: State, text: string, env1: Env, env2: Env)
    requires env1.parseJson == env2.parseJson && env1.runTool == env2.runTool
    ensures Turn(n, s, text, env1) == Turn(n, s, text, env2)
  {
    assert Parse(text, env1.parseJson) == Parse(text, env2.parseJson);
  }

  /** `run(userGoal)` from state `s`. */
  function RunFrom(s: State, goal: string, env: Env): (State, string) {
    var last := Loop(0, s.(history := s.history + [User(goal)]), Stripped(env));
    (last.0, last.1.GetOr(Terminated))
  }

  // ----- properties of the reply text -----

  lemma {:induction false} NoFenceWithoutBackquote(s: string, from: nat)
    requires '`' !in s
    ensures ClosingFenceFrom(s, from) == None
    decreases |s| - from
  {
    if from + 3 <= |s| {
      assert s[from] in s;
      assert s[from..from + 3][0] == s[from] != '`';
      NoFenceWithoutBackquote(s, from + 1);
    }
  }

  /** A reply without a backquote is only trimmed. */
  lemma UnfencedReplyTrimmed(raw: string)
    requires '`' !in raw
    ensures StripFence(raw) == Trim(raw)
  {
    if |raw| >= 7 {
      assert raw[0] in raw;
      assert raw[..3][0] == raw[0];
    }
    assert DropOpeningFence(raw) == raw;
    NoFenceWithoutBackquote(raw, 0);
  }

  lemma {:induction false} TrimStartAppend(a: string, b: string)
    requires b != [] && !IsSpace(b[0])
    ensures TrimStart(a + b) == TrimStart(a) + b
    decreases |a|
  {
    if a == [] {
      assert a + b == b;
    } else if IsSpace(a[0]) {
      assert (a + b)[1..] == a[1..] + b;
      TrimStartAppend(a[1..], b);
    }
  }

  lemma TrimStartTwice(s: string)
    ensures TrimStart(TrimStart(s)) == TrimStart(s)
  {
  }

  lemma {:induction false} FenceAtEnd(u: string, from: nat)
    requires '`' !in u && from <= |u|
    ensures ClosingFenceFrom(u + "```", from) == Some(|u|)
    decreases |u| - from
  {
    var s := u + "```";
    assert s[|u|..] == "```";
    if from < |u| {
      assert s[from] == u[from] && u[from] in u;
      assert s[from..from + 3][0] == s[from] != '`';
      FenceAtEnd(u, from + 1);
    } else {
      assert OccursAt(s, "```", from) && s[from + 3..] == [];
    }
  }

  /** A reply fenced as "```json" (any letter case) ... "```" comes out as its trimmed body. */
  lemma FencedReplyStripped(tag: string, body: string)
    requires |tag| == 4 && ToLowerAscii(tag) == "json"
    requires '`' !in body
    ensures StripFence("```" + tag + body + "```") == Trim(body)
  {
    var raw := "```" + tag + body + "```";
    assert raw[..3] == "```" && raw[3..7] == tag && raw[7..] == body + "```";
    TrimStartAppend(body, "```");
    var u := TrimStart(body);
    assert DropOpeningFence(raw) == u + "```";
    forall c | c in u ensures c != '`' {
      assert c in body[|body| - |u|..];
    }
    FenceAtEnd(u, 0);
    assert (u + "```")[..|u|] == u;
    TrimStartTwice(body);
  }

  /** The repair doubles every backslash. */
  lemma RepairDoublesBackslashes(s: string)
    ensures multiset(Repair(s))['\\'] == 2 * multiset(s)['\\']
  {
    var pieces := Split(s, "\\");
    PiecesWithoutBackslash(s);
    SplitCharCount(s, '\\');
    assert multiset("\\\\")['\\'] == 2 by {
      assert "\\\\" == ['\\'] + ['\\'];
    }
    JoinCharCount(pieces, "\\\\", '\\');
  }

  lemma PiecesWithoutBackslash(s: string)
    ensures var pieces := Split(s, "\\");
      forall i :: 0 <= i < |pieces| ==> '\\' !in pieces[i]
  {
    var pieces := Split(s, "\\");
    SplitPiecesFree(s, "\\");
    forall i | 0 <= i < |pieces| ensures '\\' !in pieces[i] {
      assert pieces[i] in pieces;
      NotContainsChar(pieces[i], '\\');
    }
  }

  /** A text without a backslash comes through the repair unchanged. */
  lemma RepairKeepsPlainText(s: string)
    requires '\\' !in s
    ensures Repair(s) == s
  {
    NotContainsChar(s, '\\');
    ReplaceAllAbsent(s, "\\", "\\\\");
  }

  // ----- properties of one iteration -----

  /** A reply that is empty after fence stripping uses up the iteration and changes nothing. */
  lemma EmptyReplySkipped(n: nat, s: State, text: string, env: Env)
    requires text == ""
    ensures Turn(n, s, text, env) == (s, None)
  {
  }

  /** A reply that parses neither as is nor repaired is kept as assistant text; no flag changes. */
  lemma UnparsedReplyKept(n: nat, s: State, text: string, env: Env)
    requires text != "" && Parse(text, env.parseJson) == None
    ensures Turn(n, s, text, env) == (State(s.history + [Assistant(text)], s.progress), None)
  {
  }

  /** The reply `reply` that iteration `n` dispatches on. */
  predicate Parses(text: string, env: Env, reply: Reply) {
    text != "" && Parse(text, env.parseJson) == Some(reply)
  }

  /** A reply that parses is echoed into the history and then dispatched on. */
  lemma TurnDispatches(n: nat, s: State, text: string, env: Env, reply: Reply)
    requires Parses(text, env, reply)
    ensures Turn(n, s, text, env) == Dispatch(n, s.(history := s.history + [Echo(reply)]), text, reply, env)
  {
  }

  /** START only echoes the reply. THINK also nudges towards a tool exactly from the third iteration on. */
  lemma ThinkNudgesFromThirdIteration(n: nat, s: State, text: string, env: Env, reply: Reply)
    requires Parses(text, env, reply) && reply.Decision? && reply.step in {Start, Think}
    ensures var next := Turn(n, s, text, env);
      && next.1 == None && next.0.progress == s.progress
      && (next.0.history == s.history + [Echo(reply), User(ProceedToTool)] <==> reply.step == Think && n >= 3)
      && (next.0.history == s.history + [Echo(reply)] <==> reply.step == Start || n < 3)
  {
    TurnDispatches(n, s, text, env, reply);
    assert s.history + [Echo(reply)] + [User(ProceedToTool)] == s.history + [Echo(reply), User(ProceedToTool)];
  }

  /** With no truthy `tool_name`, the tool called is the first not yet done; with all done, none. */
  lemma FallbackToPendingTool(toolName: Option<string>, p: Progress)
    requires !Truthy(toolName)
    ensures NextTool(p).Some? ==> ChooseTool(toolName, p) == Some(Name(NextTool(p).value)) && !p.Done(NextTool(p).value)
    ensures NextTool(p).None? ==> ChooseTool(toolName, p) == toolName
  {
  }

  /** A missing or unknown tool is answered by one OBSERVE naming it; no flag changes. */
  lemma UnknownToolObserved(n: nat, s: State, text: string, env: Env, reply: Reply)
    requires Parses(text, env, reply) && reply.Decision? && reply.step == ToolStep
    requires var chosen := ChooseTool(reply.toolName, s.progress); !Truthy(chosen) || Lookup(chosen.value).None?
    ensures Turn(n, s, text, env)
         == (State(s.history + [Echo(reply), Observe(NoSuchTool(ChooseTool(reply.toolName, s.progress)))], s.progress), None)
  {
    TurnDispatches(n, s, text, env, reply);
    var m := Observe(NoSuchTool(ChooseTool(reply.toolName, s.progress)));
    assert s.history + [Echo(reply)] + [m] == s.history + [Echo(reply), m];
  }

  /** A tool call that returns sets exactly that tool's flag and appends exactly its OBSERVE. */
  lemma ToolCallObserved(n: nat, s: State, text: string, env: Env, reply: Reply, t: Tool, result: string)
    requires Parses(text, env, reply) && reply.Decision? && reply.step == ToolStep
    requires ChooseTool(reply.toolName, s.progress) == Some(Name(t))
    requires env.runTool(t, reply.input) == Some(result)
    ensures Turn(n, s, text, env) == (State(s.history + [Echo(reply), Observe(result)], s.progress.Mark(t)), None)
  {
    LookupName(Name(t), t);
    TurnDispatches(n, s, text, env, reply);
    assert s.history + [Echo(reply)] + [Observe(result)] == s.history + [Echo(reply), Observe(result)];
  }

  /** A tool that throws leaves the reply text in the history and sets no flag. */
  lemma ToolFailureKept(n: nat, s: State, text: string, env: Env, reply: Reply, t: Tool)
    requires Parses(text, env, reply) && reply.Decision? && reply.step == ToolStep
    requires ChooseTool(reply.toolName, s.progress) == Some(Name(t))
    requires env.runTool(t, reply.input) == None
    ensures Turn(n, s, text, env) == (State(s.history + [Echo(reply), Assistant(text)], s.progress), None)
  {
    LookupName(Name(t), t);
    TurnDispatches(n, s, text, env, reply);
    var m := Assistant(text);
    assert s.history + [Echo(reply)] + [m] == s.history + [Echo(reply), m];
  }

  /** OUTPUT ends the run with its content exactly when an OBSERVE is already in the history. */
  lemma OutputNeedsObserve(n: nat, s: State, text: string, env: Env, reply: Reply)
    requires Parses(text, env, reply) && reply.Decision? && reply.step == Output
    ensures Turn(n, s, text, env).1.Some? <==> HasObserve(s.history)
    ensures HasObserve(s.history) ==> Turn(n, s, text, env) == (s.(history := s.history + [Echo(reply)]), Some(reply.content))
    ensures !HasObserve(s.history)
        ==> Turn(n, s, text, env) == (s.(history := s.history + [Echo(reply), User(CallToolsFirst)]), None)
  {
    TurnDispatches(n, s, text, env, reply);
    var h := s.history + [Echo(reply)];
    assert h + [User(CallToolsFirst)] == s.history + [Echo(reply), User(CallToolsFirst)];
    if HasObserve(h) {
      var i :| 0 <= i < |h| && h[i].Observe?;
      assert i < |s.history| && s.history[i] == h[i];
    }
    if HasObserve(s.history) {
      var i :| 0 <= i < |s.history| && s.history[i].Observe?;
      assert h[i] == s.history[i];
    }
  }

  /** A flag is set only by a tool call that returned, which appends its OBSERVE last. */
  predicate ProgressVia(before: State, after: State) {
    || after.progress == before.progress
    || exists t :: after.progress == before.progress.Mark(t) && after.history != [] && after.history[|after.history| - 1].Observe?
  }

  /**
   * `after` keeps the history of `before` as a prefix, keeps every flag set, and sets at most
   * one more flag together with an OBSERVE.
   */
  predicate Grows(before: State, after: State) {
    && |before.history| <= |after.history| && after.history[..|before.history|] == before.history
    && before.progress.Below(after.progress) && ProgressVia(before, after)
  }

  lemma CallToolAppendsOnly(s: State, text: string, toolName: Option<string>, input: string, env: Env)
    ensures Grows(s, CallTool(s, text, toolName, input, env))
  {
    var chosen := ChooseTool(toolName, s.progress);
    if Truthy(chosen) && Lookup(chosen.value).Some? {
      var t := Lookup(chosen.value).value;
      if env.runTool(t, input).Some? {
        var after := CallTool(s, text, toolName, input, env);
        assert after.progress == s.progress.Mark(t);
        assert after.history[|after.history| - 1].Observe?;
      }
    }
  }

  lemma DispatchAppendsOnly(n: nat, s: State, text: string, reply: Reply, env: Env)
    ensures Grows(s, Dispatch(n, s, text, reply, env).0)
    ensures Dispatch(n, s, text, reply, env).1.Some? ==> HasObserve(s.history)
  {
    if reply.Decision? && reply.step == ToolStep {
      CallToolAppendsOnly(s, text, reply.toolName, reply.input, env);
    }
  }

  lemma GrowsAfterEcho(s: State, reply: Reply, after: State)
    requires Grows(s.(history := s.history + [Echo(reply)]), after)
    ensures Grows(s, after)
  {
    var echoed := s.(history := s.history + [Echo(reply)]);
    assert after.history[..|s.history|] == after.history[..|echoed.history|][..|s.history|];
  }

  /**
   * Every iteration only appends to the history and only sets flags; a flag is set only
   * together with an appended OBSERVE; an answer needs an OBSERVE already in the history.
   */
  lemma TurnAppendsOnly(n: nat, s: State, text: string, env: Env)
    ensures Grows(s, Turn(n, s, text, env).0)
    ensures Turn(n, s, text, env).1.Some? ==> HasObserve(s.history)
  {
    if text != "" && Parse(text, env.parseJson).Some? {
      var reply := Parse(text, env.parseJson).value;
      TurnDispatches(n, s, text, env, reply);
      var echoed := s.(history := s.history + [Echo(reply)]);
      DispatchAppendsOnly(n, echoed, text, reply, env);
      GrowsAfterEcho(s, reply, Dispatch(n, echoed, text, reply, env).0);
      if Dispatch(n, echoed, text, reply, env).1.Some? {
        var i :| 0 <= i < |echoed.history| && echoed.history[i].Observe?;
        assert i < |s.history|;
      }
    } else if text != "" {
      assert Turn(n, s, text, env).0 == s.(history := s.history + [Assistant(text)]);
      assert (s.history + [Assistant(text)])[..|s.history|] == s.history;
    }
  }

  // ----- properties of the whole loop -----

  predicate Extends(before: State, after: State) {
    && |before.history| <= |after.history| && after.history[..|before.history|] == before.history
    && before.progress.Below(after.progress)
  }

  /** The loop only appends to the history and never resets a flag; an answer comes with an OBSERVE. */
  lemma {:induction false} LoopAppendsOnly(n: nat, s: State, env: Env)
    requires n <= MaxIterations
    ensures Extends(s, Loop(n, s, env).0)
    ensures Loop(n, s, env).1.Some? ==> HasObserve(Loop(n, s, env).0.history)
    decreases MaxIterations - n
  {
    if n < MaxIterations {
      var next := Turn(n + 1, s, env.complete(n + 1, s.history), env);
      TurnAppendsOnly(n + 1, s, env.complete(n + 1, s.history), env);
      if next.1.Some? {
        var i :| 0 <= i < |s.history| && s.history[i].Observe?;
        assert next.0.history[i] == s.history[i];
      } else {
        LoopAppendsOnly(n + 1, next.0, env);
        var last := Loop(n + 1, next.0, env).0;
        assert last.history[..|s.history|] == last.history[..|next.0.history|][..|s.history|];
      }
    }
  }

  /**
   * The run reads at most fifty replies: two models that agree on iterations `n + 1` to
   * `MaxIterations` give the same run.
   */
  lemma {:induction false} LoopReadsFiftyReplies(n: nat, s: State, env1: Env, env2: Env)
    requires n <= MaxIterations
    requires env1.parseJson == env2.parseJson && env1.runTool == env2.runTool
    requires forall k, h :: n < k <= MaxIterations ==> env1.complete(k, h) == env2.complete(k, h)
    ensures Loop(n, s, env1) == Loop(n, s, env2)
    decreases MaxIterations - n
  {
    if n < MaxIterations {
      assert env1.complete(n + 1, s.history) == env2.complete(n + 1, s.history);
      var text := env1.complete(n + 1, s.history);
      assert Turn(n + 1, s, text, env1) == Turn(n + 1, s, text, env2) by {
        assert Parse(text, env1.parseJson) == Parse(text, env2.parseJson);
      }
      LoopReadsFiftyReplies(n + 1, Turn(n + 1, s, text, env1).0, env1, env2);
    }
  }

  /** `text` is a reply that `Turn` would dispatch as an OUTPUT step. */
  predicate IsOutput(text: string, env: Env) {
    text != "" && Parse(text, env.parseJson).Some? && Parse(text, env.parseJson).value.Decision?
    && Parse(text, env.parseJson).value.step == Output
  }

  /** Without an OUTPUT reply in the remaining iterations, the loop runs out without an answer. */
  lemma {:induction false} NoOutputNoAnswer(n: nat, s: State, env: Env)
    requires n <= MaxIterations
    requires forall k, h :: n < k <= MaxIterations ==> !IsOutput(env.complete(k, h), env)
    ensures Loop(n, s, env).1 == None
    decreases MaxIterations - n
  {
    if n < MaxIterations {
      var text := env.complete(n + 1, s.history);
      assert !IsOutput(text, env);
      NoOutputNoAnswer(n + 1, Turn(n + 1, s, text, env).0, env);
    }
  }

  /**
   * `run` appends the goal as a user message, keeps what was there, sets flags only, and
   * returns the fixed termination message unless it accepted an OUTPUT after an OBSERVE.
   */
  lemma RunAppendsGoal(s: State, goal: string, env: Env)
    ensures var (after, answer) := RunFrom(s, goal, env);
      && |after.history| > |s.history| && after.history[..|s.history| + 1] == s.history + [User(goal)]
      && s.progress.Below(after.progress)
      && (answer != Terminated ==> HasObserve(after.history))
  {
    var start := s.(history := s.history + [User(goal)]);
    LoopAppendsOnly(0, start, Stripped(env));
  }

  /** A run in which the model never answers OUTPUT returns the termination message. */
  lemma RunWithoutOutputTerminates(s: State, goal: string, env: Env)
    requires forall k, h :: 0 < k <= MaxIterations ==> !IsOutput(StripFence(env.complete(k, h)), env)
    ensures RunFrom(s, goal, env).1 == Terminated
  {
    NoOutputNoAnswer(0, s.(history := s.history + [User(goal)]), Stripped(env));
  }

  // ----- the class -----

  class CoTDriver {
    var history: seq<Message>
    var didLegal: bool
    var didAnalyze: bool
    var didClone: bool
    var didValidate: bool

    function Snapshot(): State
      reads this
    {
      State(history, Progress(didLegal, didAnalyze, didClone, didValidate))
    }

    /** The history starts with the system message; no tool is done. */
    constructor (systemPrompt: string)
      ensures history == [System(systemPrompt)]
      ensures Snapshot().progress == Progress(false, false, false, false)
    {
      history := [System(systemPrompt)];
      didLegal := false;
      didAnalyze := false;
      didClone := false;
      didValidate := false;
    }

    /** The body of the `while` loop, for iteration `n` and the model's reply `raw`. */
    method Step(n: nat, raw: string, env: Env) returns (answer: Option<string>)
      modifies this
      ensures (Snapshot(), answer) == Turn(n, old(Snapshot()), StripFence(raw), env)
    {
      var text := StripFence(raw);
      if text == "" {
        return None;
      }
      var parsed := ParseReply(text, env);
      if parsed.None? {
        history := history + [Assistant(text)];
        return None;
      }
      answer := Respond(n, text, parsed.value, env);
    }

    /** `JSON.parse(contentText)`, and on failure `JSON.parse` of the text with its backslashes doubled. */
    method ParseReply(text: string, env: Env) returns (parsed: Option<Reply>)
      ensures parsed == Parse(text, env.parseJson)
    {
      parsed := env.parseJson(text);
      if parsed.None? {
        parsed := env.parseJson(Repair(text));
      }
    }

    /** The loop body once `JSON.parse` has produced `reply`: the echo, then the dispatch on its step. */
    method Respond(n: nat, text: string, reply: Reply, env: Env) returns (answer: Option<string>)
      modifies this
      ensures (Snapshot(), answer) == Dispatch(n, old(Snapshot()).(history := old(history) + [Echo(reply)]), text, reply, env)
    {
      history := history + [Echo(reply)];
      if reply.Nullish? {
        history := history + [Assistant(text)];
        return None;
      }
      if reply.step == Start {
        return None;
      }
      if reply.step == Think {
        if n >= 3 {
          history := history + [User(ProceedToTool)];
        }
        return None;
      }
      if reply.step == ToolStep {
        UseTool(text, reply.toolName, reply.input, env);
        return None;
      }
      if reply.step == Output {
        if !HasObserve(history) {
          history := history + [User(CallToolsFirst)];
          return None;
        }
        return Some(reply.content);
      }
      return None;
    }

    /** The TOOL branch of the loop body. */
    method UseTool(text: string, toolName: Option<string>, input: string, env: Env)
      modifies this
      ensures Snapshot() == CallTool(old(Snapshot()), text, toolName, input, env)
    {
      var toolToCall := SelectTool(toolName);
      if !Truthy(toolToCall) || Lookup(toolToCall.value).None? {
        history := history + [Observe(NoSuchTool(toolToCall))];
        return;
      }
      var tool := Lookup(toolToCall.value).value;
      var result := env.runTool(tool, input);
      if result.None? {
        history := history + [Assistant(text)];
        return;
      }
      MarkProgress(toolToCall.value);
      history := history + [Observe(result.value)];
    }

    /** `toolToCall`: the model's `tool_name`, or else the next tool in the fixed sequence not yet done. */
    method SelectTool(toolName: Option<string>) returns (toolToCall: Option<string>)
      ensures toolToCall == ChooseTool(toolName, Snapshot().progress)
    {
      toolToCall := toolName;
      if !Truthy(toolToCall) {
        if !didLegal {
          toolToCall := Some("checkLegal");
        } else if !didAnalyze {
          toolToCall := Some("analyzeWebsite");
        } else if !didClone {
          toolToCall := Some("cloneWebsite");
        } else if !didValidate {
          toolToCall := Some("validateClone");
        }
      }
    }

    /** "Mark progress": the flag of the tool just called is set. */
    method MarkProgress(toolToCall: string)
      requires Lookup(toolToCall).Some?
      modifies this
      ensures Snapshot() == old(Snapshot()).(progress := old(Snapshot()).progress.Mark(Lookup(toolToCall).value))
    {
      if toolToCall == "checkLegal" {
        didLegal := true;
      }
      if toolToCall == "analyzeWebsite" {
        didAnalyze := true;
      }
      if toolToCall == "cloneWebsite" {
        didClone := true;
      }
      if toolToCall == "validateClone" {
        didValidate := true;
      }
    }

    /** Iteration `n + 1` of the `while` loop: ask the model, then run the loop body on its reply. */
    method Iterate(n: nat, env: Env) returns (answer: Option<string>)
      requires n < MaxIterations
      modifies this
      ensures Loop(n, old(Snapshot()), Stripped(env))
           == if answer.Some? then (Snapshot(), answer) else Loop(n + 1, Snapshot(), Stripped(env))
    {
      ghost var before := Snapshot();
      var raw := env.complete(n + 1, history);
      answer := Step(n + 1, raw, env);
      LoopAfterTurn(n, before, env, raw, (Snapshot(), answer));
    }

    /** `run(userGoal)` */
    method Run(userGoal: string, env: Env) returns (answer: string)
      modifies this
      ensures (Snapshot(), answer) == RunFrom(old(Snapshot()), userGoal, env)
    {
      ghost var initial := Snapshot();
      history := history + [User(userGoal)];
      ghost var last := Loop(0, Snapshot(), Stripped(env));
      assert RunFrom(initial, userGoal, env) == (last.0, last.1.GetOr(Terminated));
      var iterationCount := 0;
      while iterationCount < MaxIterations
        invariant iterationCount <= MaxIterations
        invariant last == Loop(iterationCount, Snapshot(), Stripped(env))
      {
        var reply := Iterate(iterationCount, env);
        iterationCount := iterationCount + 1;
        if reply.Some? {
          return reply.value;
        }
      }
      return Terminated;
    }
  }
}
