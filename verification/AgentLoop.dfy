/** The agent tool loop in its three versions (Anthropic, Groq, Gemini): ask the model, run the
    tools it asks for under policy, append the results, and stop on a submit, when the model has
    nothing to run, or after the last turn.

    The model is a stream with one response per turn. Tool handlers are an oracle: what the
    n-th tool call of the run gives back.
 */
module AgentLoop {
  import opened Basics

  /** A tool use block. `path` and `command` are the two inputs that the policy reads. */
  datatype Call = Call(id: string, name: string, path: string, command: string, rest: string)

  datatype Block = Text(text: string) | ToolUse(call: Call) | OtherBlock

  datatype Usage = Usage(input: nat, output: nat, cacheRead: nat, cacheCreation: nat)

  datatype Response = Response(content: seq<Block>, endTurn: bool, usage: Usage)

  datatype ToolResult = ToolResult(id: string, content: string)

  datatype Message =
    | Given(text: string)
    | Assistant(content: seq<Block>)
    | Results(results: seq<ToolResult>)
    | Nudge

  datatype Outcome = Returned(text: string) | Raised(text: string)

  /** `pathReason` gives the text of the first rule that a path matches, `commandRule` the first pattern
      that a command matches. `quote` writes a string with its quotes. `heartbeat` and `observer` say
      whether the two callbacks were given. */
  datatype Env = Env(
    pathReason: string -> Option<string>,
    commandRule: string -> Option<string>,
    quote: string -> string,
    handlers: set<string>,
    outcome: nat -> Outcome,
    heartbeat: bool,
    observer: bool)

  datatype Backend = Anthropic | Groq | Gemini

  datatype PolicyResult = Allowed | Refused(reason: string)

  function CheckPath(env: Env, path: string): PolicyResult {
    var reason := env.pathReason(path);
    if reason.Some? && reason.value != ""
    then Refused("Policy denied path " + env.quote(path) + ": " + reason.value)
    else Allowed
  }

  function CheckCommand(env: Env, command: string): PolicyResult {
    match env.commandRule(command)
    case Some(pattern) => Refused("Policy denied command: matched rule " + env.quote(pattern))
    case None => Allowed
  }

  /** What the policy engine says about a call; tools it does not know about are allowed. */
  function Verdict(env: Env, c: Call): PolicyResult {
    if c.name == "write_file" || c.name == "edit_file" then CheckPath(env, c.path)
    else if c.name == "bash" then CheckCommand(env, c.command)
    else Allowed
  }

  function EnforcePolicy(env: Env, c: Call): Option<string> {
    match Verdict(env, c)
    case Refused(reason) => Some(reason)
    case Allowed => None
  }

  /** What the loop takes for a denial: a reason that counts as true, so a non-empty one. */
  predicate Denied(env: Env, c: Call) {
    EnforcePolicy(env, c).Some? && EnforcePolicy(env, c).value != ""
  }

  predicate IsSubmit(c: Call) {
    "submit_" <= c.name
  }

  function ResultOf(env: Env, c: Call, n: nat): string {
    if Denied(env, c) then "[POLICY DENIED] " + EnforcePolicy(env, c).value
    else if c.name !in env.handlers then "[ERROR] Unknown tool: " + c.name
    else
      match env.outcome(n)
      case Returned(text) => text
      case Raised(text) => "[ERROR] " + c.name + " failed: " + text
  }

  function CallsIn(content: seq<Block>): seq<Call> {
    if content == [] then []
    else (if content[0].ToolUse? then [content[0].call] else []) + CallsIn(content[1..])
  }

  /** The last text block, or what was there before. */
  function TextAfter(content: seq<Block>, before: string): string {
    if content == [] then before
    else TextAfter(content[1..], if content[0].Text? then content[0].text else before)
  }

  /** What running the tools of one response does. `handled` are the calls that reached a handler,
      `observed` those reported to the observer with their results. */
  datatype Work = Work(results: seq<ToolResult>, handled: seq<Call>, observed: seq<(Call, string)>, beats: nat, submitted: bool)

  /** What a single tool call adds. */
  function OneCall(env: Env, c: Call, n: nat): Work {
    Work([ToolResult(c.id, ResultOf(env, c, n))],
         if !Denied(env, c) && c.name in env.handlers then [c] else [],
         if env.observer then [(c, ResultOf(env, c, n))] else [],
         if n % 5 == 0 && env.heartbeat then 1 else 0,
         !Denied(env, c) && IsSubmit(c))
  }

  const NO_WORK := Work([], [], [], 0, false)

  function Then(a: Work, b: Work): Work {
    Work(a.results + b.results, a.handled + b.handled, a.observed + b.observed, a.beats + b.beats, a.submitted || b.submitted)
  }

  function WorkOf(env: Env, calls: seq<Call>, count: nat): Work
    decreases |calls|
  {
    if calls == [] then NO_WORK
    else
      Then(OneCall(env, calls[0], count + 1), WorkOf(env, calls[1..], count + 1))
  }

  datatype St = St(
    messages: seq<Message>, text: string, calls: nat, beats: nat,
    handled: seq<Call>, observed: seq<(Call, string)>,
    tokensIn: nat, tokensOut: nat, cacheRead: nat, cacheCreation: nat,
    nudges: nat, consumed: nat)

  function Start(initial: seq<Message>): St {
    St(initial, "", 0, 0, [], [], 0, 0, 0, 0, 0, 0)
  }

  function Receive(b: Backend, r: Response, st: St): St {
    st.(messages := st.messages + [Assistant(r.content)],
        text := TextAfter(r.content, st.text),
        tokensIn := st.tokensIn + r.usage.input, tokensOut := st.tokensOut + r.usage.output,
        cacheRead := st.cacheRead + if b.Anthropic? then r.usage.cacheRead else 0,
        cacheCreation := st.cacheCreation + if b.Anthropic? then r.usage.cacheCreation else 0,
        consumed := st.consumed + 1)
  }

  function Answer(env: Env, calls: seq<Call>, st: St): St {
    var w := WorkOf(env, calls, st.calls);
    st.(messages := st.messages + [Results(w.results)], calls := st.calls + |calls|, beats := st.beats + w.beats,
        handled := st.handled + w.handled, observed := st.observed + w.observed, nudges := 0)
  }

  /** One turn, and whether the loop ends after it. */
  function Turn(env: Env, b: Backend, r: Response, st: St): (St, bool) {
    var got, calls := Receive(b, r, st), CallsIn(r.content);
    if b.Anthropic? && r.endTurn then (got, true)
    else if calls == [] then
      if b.Groq? && got.nudges < 2
      then (got.(messages := got.messages + [Nudge], nudges := got.nudges + 1), false)
      else (got, true)
    else (Answer(env, calls, got), WorkOf(env, calls, got.calls).submitted)
  }

  function Loop(env: Env, b: Backend, responses: seq<Response>, st: St): St
    decreases |responses|
  {
    if responses == [] then st
    else
      var (next, stop) := Turn(env, b, responses[0], st);
      if stop then next else Loop(env, b, responses[1..], next)
  }

  // ---------------------------------------------------------- the loops as they are written

  lemma ContentFrom(content: seq<Block>, i: nat, before: string)
    requires i < |content|
    ensures var b := content[i];
            && CallsIn(content[i..]) == (if b.ToolUse? then [b.call] else []) + CallsIn(content[i + 1..])
            && TextAfter(content[i..], before) == TextAfter(content[i + 1..], if b.Text? then b.text else before)
  {
    assert content[i..][1..] == content[i + 1..];
  }

  method ReadContent(content: seq<Block>, before: string) returns (text: string, toolUses: seq<Call>)
    ensures text == TextAfter(content, before) && toolUses == CallsIn(content)
  {
    text, toolUses := before, [];
    assert content[0..] == content;
    for i := 0 to |content|
      invariant TextAfter(content[i..], text) == TextAfter(content, before)
      invariant toolUses + CallsIn(content[i..]) == CallsIn(content)
    {
      ContentFrom(content, i, text);
      var block := content[i];
      if block.Text? {
        text := block.text;
      } else if block.ToolUse? {
        toolUses := toolUses + [block.call];
      }
    }
  }

  /** The inner loop, the same text in all three versions. */
  method RunTools(env: Env, toolUses: seq<Call>, count: nat) returns (w: Work, toolCallCount: nat)
    ensures w == WorkOf(env, toolUses, count) && toolCallCount == count + |toolUses|
  {
    toolCallCount := count;
    w := NO_WORK;
    for i := 0 to |toolUses|
      invariant toolCallCount == count + i && w == WorkOf(env, toolUses[..i], count)
    {
      var tu := toolUses[i];
      var result := OneTool(env, tu, toolCallCount + 1);
      toolCallCount := toolCallCount + 1;
      WorkNext(env, toolUses, i, count);
      w := Then(w, result);
    }
    assert toolUses[..|toolUses|] == toolUses;
  }

  method OneTool(env: Env, tu: Call, toolCallCount: nat) returns (w: Work)
    ensures w == OneCall(env, tu, toolCallCount)
  {
    w := NO_WORK;
    if toolCallCount % 5 == 0 && env.heartbeat {
      w := w.(beats := 1);
    }
    var content;
    var denial := EnforcePolicy(env, tu);
    if denial.Some? && denial.value != "" {
      content := "[POLICY DENIED] " + denial.value;
    } else {
      if tu.name !in env.handlers {
        content := "[ERROR] Unknown tool: " + tu.name;
      } else {
        w := w.(handled := [tu]);
        match env.outcome(toolCallCount) {
          case Returned(text) => content := text;
          case Raised(text) => content := "[ERROR] " + tu.name + " failed: " + text;
        }
      }
      if IsSubmit(tu) {
        w := w.(submitted := true);
      }
    }
    if env.observer {
      w := w.(observed := [(tu, content)]);
    }
    w := w.(results := [ToolResult(tu.id, content)]);
  }

  lemma ThenAssociative(a: Work, b: Work, c: Work)
    ensures Then(Then(a, b), c) == Then(a, Then(b, c))
  {
    assert a.results + b.results + c.results == a.results + (b.results + c.results);
    assert a.handled + b.handled + c.handled == a.handled + (b.handled + c.handled);
    assert a.observed + b.observed + c.observed == a.observed + (b.observed + c.observed);
  }

  lemma NothingThen(a: Work)
    ensures Then(NO_WORK, a) == a && Then(a, NO_WORK) == a
  {
    assert [] + a.results == a.results && [] + a.handled == a.handled && [] + a.observed == a.observed;
  }

  lemma {:induction false} WorkSnoc(env: Env, calls: seq<Call>, c: Call, count: nat)
    ensures WorkOf(env, calls + [c], count) == Then(WorkOf(env, calls, count), OneCall(env, c, count + |calls| + 1))
    decreases |calls|
  {
    var last := OneCall(env, c, count + |calls| + 1);
    if calls == [] {
      assert ([] + [c])[1..] == [];
      NothingThen(last);
    } else {
      WorkSnoc(env, calls[1..], c, count + 1);
      assert (calls + [c])[1..] == calls[1..] + [c];
      ThenAssociative(OneCall(env, calls[0], count + 1), WorkOf(env, calls[1..], count + 1), last);
    }
  }

  lemma WorkNext(env: Env, calls: seq<Call>, i: nat, count: nat)
    requires i < |calls|
    ensures WorkOf(env, calls[..i + 1], count) == Then(WorkOf(env, calls[..i], count), OneCall(env, calls[i], count + i + 1))
  {
    WorkSnoc(env, calls[..i], calls[i], count);
    assert calls[..i] + [calls[i]] == calls[..i + 1];
  }

  lemma LoopFrom(env: Env, b: Backend, responses: seq<Response>, i: nat, st: St)
    requires i < |responses|
    ensures var (next, stop) := Turn(env, b, responses[i], st);
            Loop(env, b, responses[i..], st) == if stop then next else Loop(env, b, responses[i + 1..], next)
  {
    assert responses[i..][1..] == responses[i + 1..];
  }

  method RunViaAnthropic(env: Env, initial: seq<Message>, responses: seq<Response>) returns (st: St)
    ensures st == Loop(env, Anthropic, responses, Start(initial))
  {
    st := Start(initial);
    assert responses[0..] == responses;
    for i := 0 to |responses|
      invariant Loop(env, Anthropic, responses[i..], st) == Loop(env, Anthropic, responses, Start(initial))
    {
      var stop;
      LoopFrom(env, Anthropic, responses, i, st);
      st, stop := AnthropicTurn(env, responses[i], st);
      if stop { return; }
    }
  }

  method AnthropicTurn(env: Env, response: Response, before: St) returns (st: St, stop: bool)
    ensures (st, stop) == Turn(env, Anthropic, response, before)
  {
    var text, toolUses := ReadContent(response.content, before.text);
    st := before.(text := text, consumed := before.consumed + 1,
                  tokensIn := before.tokensIn + response.usage.input, tokensOut := before.tokensOut + response.usage.output,
                  cacheRead := before.cacheRead + response.usage.cacheRead,
                  cacheCreation := before.cacheCreation + response.usage.cacheCreation,
                  messages := before.messages + [Assistant(response.content)]);
    if response.endTurn || toolUses == [] {
      return st, true;
    }
    st, stop := AnswerTools(env, toolUses, st);
  }

  method AnswerTools(env: Env, toolUses: seq<Call>, before: St) returns (st: St, submitted: bool)
    ensures st == Answer(env, toolUses, before) && submitted == WorkOf(env, toolUses, before.calls).submitted
  {
    var w, count := RunTools(env, toolUses, before.calls);
    st := before.(calls := count, beats := before.beats + w.beats, handled := before.handled + w.handled,
                  observed := before.observed + w.observed, messages := before.messages + [Results(w.results)], nudges := 0);
    submitted := w.submitted;
  }

  method RunViaGroq(env: Env, initial: seq<Message>, responses: seq<Response>) returns (st: St)
    ensures st == Loop(env, Groq, responses, Start(initial))
  {
    st := Start(initial);
    assert responses[0..] == responses;
    for i := 0 to |responses|
      invariant Loop(env, Groq, responses[i..], st) == Loop(env, Groq, responses, Start(initial))
    {
      var stop;
      LoopFrom(env, Groq, responses, i, st);
      st, stop := GroqTurn(env, responses[i], st);
      if stop { return; }
    }
  }

  method GroqTurn(env: Env, response: Response, before: St) returns (st: St, stop: bool)
    ensures (st, stop) == Turn(env, Groq, response, before)
  {
    var text, toolUses := ReadContent(response.content, before.text);
    st := before.(text := text, consumed := before.consumed + 1,
                  tokensIn := before.tokensIn + response.usage.input, tokensOut := before.tokensOut + response.usage.output,
                  messages := before.messages + [Assistant(response.content)]);
    if toolUses == [] {
      if st.nudges >= 2 {
        return st, true;  // gives up
      }
      return st.(nudges := st.nudges + 1, messages := st.messages + [Nudge]), false;
    }
    st := st.(nudges := 0);
    st, stop := AnswerTools(env, toolUses, st);
  }

  method RunViaGemini(env: Env, initial: seq<Message>, responses: seq<Response>) returns (st: St)
    ensures st == Loop(env, Gemini, responses, Start(initial))
  {
    st := Start(initial);
    assert responses[0..] == responses;
    for i := 0 to |responses|
      invariant Loop(env, Gemini, responses[i..], st) == Loop(env, Gemini, responses, Start(initial))
    {
      var stop;
      LoopFrom(env, Gemini, responses, i, st);
      st, stop := GeminiTurn(env, responses[i], st);
      if stop { return; }
    }
  }

  method GeminiTurn(env: Env, response: Response, before: St) returns (st: St, stop: bool)
    ensures (st, stop) == Turn(env, Gemini, response, before)
  {
    var text, toolUses := ReadContent(response.content, before.text);
    st := before.(text := text, consumed := before.consumed + 1,
                  tokensIn := before.tokensIn + response.usage.input, tokensOut := before.tokensOut + response.usage.output,
                  messages := before.messages + [Assistant(response.content)]);
    if toolUses == [] {
      return st, true;
    }
    st, stop := AnswerTools(env, toolUses, st);
  }
}
