/** What every run of the agent loop keeps: the transcript protocol, policy, accounting, and when
    the three versions agree. */
module AgentProperties {
  import opened AgentLoop

  // --------------------------------------------------------------- transcript protocol

  /** `m` answers every tool use of the assistant message before it, once, in order and by id;
      only a message without tool uses is answered by a nudge. */
  ghost predicate Answers(m: Message, content: seq<Block>) {
    var calls := CallsIn(content);
    if calls == [] then m.Nudge?
    else m.Results? && |m.results| == |calls| && forall i :: 0 <= i < |calls| ==> m.results[i].id == calls[i].id
  }

  /** Assistant and user messages alternate, and each user message answers the one before it. */
  ghost predicate Protocol(tail: seq<Message>)
    decreases |tail|
  {
    tail == [] ||
    (tail[0].Assistant? && (|tail| == 1 || (Answers(tail[1], tail[0].content) && Protocol(tail[2..]))))
  }

  /** What a single turn may append. */
  ghost predicate TurnMessages(added: seq<Message>) {
    1 <= |added| <= 2 && added[0].Assistant? && (|added| == 2 ==> Answers(added[1], added[0].content))
  }

  lemma ProtocolCompose(start: seq<Message>, added: seq<Message>, more: seq<Message>)
    requires TurnMessages(added) && Protocol(more) && (|added| == 1 ==> more == [])
    ensures Protocol(added + more) && start + added + more == start + (added + more)
  {
    if |added| == 2 { assert (added + more)[2..] == more; }
  }

  lemma {:induction false} WorkAnswers(env: Env, calls: seq<Call>, count: nat)
    ensures |WorkOf(env, calls, count).results| == |calls|
    ensures forall i :: 0 <= i < |calls| ==>
              WorkOf(env, calls, count).results[i] == ToolResult(calls[i].id, ResultOf(env, calls[i], count + 1 + i))
    decreases |calls|
  {
    if calls == [] {
    } else {
      WorkAnswers(env, calls[1..], count + 1);
    }
  }

  lemma ResultsAnswer(env: Env, content: seq<Block>, count: nat)
    requires CallsIn(content) != []
    ensures Answers(Results(WorkOf(env, CallsIn(content), count).results), content)
  {
    WorkAnswers(env, CallsIn(content), count);
  }

  /** A turn appends the response, and its answer unless the loop ends without one. */
  lemma TurnAppends(env: Env, b: Backend, r: Response, st: St) returns (added: seq<Message>)
    ensures Turn(env, b, r, st).0.messages == st.messages + added
    ensures TurnMessages(added) && added[0] == Assistant(r.content)
    ensures !Turn(env, b, r, st).1 ==> |added| == 2
  {
    var calls := CallsIn(r.content);
    added := [Assistant(r.content)];
    if !(b.Anthropic? && r.endTurn) {
      if calls != [] {
        ResultsAnswer(env, r.content, st.calls);
        added := added + [Results(WorkOf(env, calls, st.calls).results)];
      } else if b.Groq? && st.nudges < 2 {
        added := added + [Nudge];
      }
    }
  }

  /** Every run, of every version, only appends, and what it appends keeps the protocol. */
  lemma {:induction false} TranscriptProtocol(env: Env, b: Backend, responses: seq<Response>, st: St) returns (tail: seq<Message>)
    ensures Loop(env, b, responses, st).messages == st.messages + tail && Protocol(tail)
    decreases |responses|
  {
    tail := [];
    if responses == [] {
    } else {
      var added := TurnAppends(env, b, responses[0], st);
      if !Turn(env, b, responses[0], st).1 {
        tail := TranscriptProtocol(env, b, responses[1..], Turn(env, b, responses[0], st).0);
      }
      ProtocolCompose(st.messages, added, tail);
      tail := added + tail;
    }
  }

  // --------------------------------------------------------------------------- policy

  lemma {:induction false} WorkHandles(env: Env, calls: seq<Call>, count: nat, c: Call)
    ensures c in WorkOf(env, calls, count).handled <==> c in calls && !Denied(env, c) && c.name in env.handlers
    decreases |calls|
  {
    if calls == [] {
    } else {
      WorkHandles(env, calls[1..], count + 1, c);
    }
  }

  lemma {:induction false} WorkSubmits(env: Env, calls: seq<Call>, count: nat)
    ensures WorkOf(env, calls, count).submitted <==> exists i :: 0 <= i < |calls| && !Denied(env, calls[i]) && IsSubmit(calls[i])
    decreases |calls|
  {
    if calls == [] {
    } else {
      WorkSubmits(env, calls[1..], count + 1);
      assert forall i :: 1 <= i < |calls| ==> calls[i] == calls[1..][i - 1];
      assert forall i :: 0 <= i < |calls[1..]| ==> calls[1..][i] == calls[i + 1];
    }
  }

  /** Over a whole run, no denied call reaches a handler. */
  lemma {:induction false} DeniedReachNoHandler(env: Env, b: Backend, responses: seq<Response>, st: St, c: Call)
    requires Denied(env, c) && c !in st.handled
    ensures c !in Loop(env, b, responses, st).handled
    decreases |responses|
  {
    if responses == [] {
    } else {
      var (next, stop) := Turn(env, b, responses[0], st);
      WorkHandles(env, CallsIn(responses[0].content), st.calls, c);
      if !stop { DeniedReachNoHandler(env, b, responses[1..], next, c); }
    }
  }

  /** Every refusal of the engine gives a reason that the loop takes for a denial. */
  lemma RefusalsAreDenials(env: Env, c: Call)
    ensures Denied(env, c) <==> Verdict(env, c).Refused?
  {
    if Verdict(env, c).Refused? {
      assert |Verdict(env, c).reason| > 0;
    }
  }

  /** The tools of this response are run in a turn of this version. */
  predicate RunsTools(b: Backend, r: Response) {
    !(b.Anthropic? && r.endTurn)
  }

  /** One of the responses asks for this call, and its tools are run. */
  ghost predicate AskedFor(b: Backend, responses: seq<Response>, c: Call) {
    exists i :: 0 <= i < |responses| && RunsTools(b, responses[i]) && c in CallsIn(responses[i].content)
  }

  lemma AskedForFirst(b: Backend, responses: seq<Response>, n: nat, c: Call)
    requires n < |responses|
    ensures AskedFor(b, responses[..n + 1], c) <==>
            (RunsTools(b, responses[0]) && c in CallsIn(responses[0].content)) || AskedFor(b, responses[1..][..n], c)
  {
    var all, rest := responses[..n + 1], responses[1..][..n];
    assert forall i :: 0 <= i < |rest| ==> rest[i] == all[i + 1];
    if i :| 0 <= i < |all| && RunsTools(b, all[i]) && c in CallsIn(all[i].content) {
      assert i > 0 ==> all[i] == rest[i - 1];
    }
    if i :| 0 <= i < |rest| && RunsTools(b, rest[i]) && c in CallsIn(rest[i].content) {
      assert all[i + 1] == rest[i];
    }
  }

  /** The engine allows the call, and there is a handler for it. */
  predicate Permitted(env: Env, c: Call) {
    Verdict(env, c).Allowed? && c.name in env.handlers
  }

  lemma TurnHandles(env: Env, b: Backend, r: Response, st: St, c: Call)
    ensures Turn(env, b, r, st).0.consumed == st.consumed + 1
    ensures c in Turn(env, b, r, st).0.handled <==>
            c in st.handled || (RunsTools(b, r) && c in CallsIn(r.content) && Permitted(env, c))
  {
    WorkHandles(env, CallsIn(r.content), st.calls, c);
    RefusalsAreDenials(env, c);
  }

  /** Consuming these responses adds exactly the permitted calls they ask for. */
  ghost predicate AddsPermitted(env: Env, b: Backend, responses: seq<Response>, before: seq<Call>, after: seq<Call>, c: Call) {
    c in after <==> c in before || (AskedFor(b, responses, c) && Permitted(env, c))
  }

  lemma AddsPermittedFirst(env: Env, b: Backend, responses: seq<Response>, n: nat, before: seq<Call>, mid: seq<Call>,
                           after: seq<Call>, c: Call)
    requires n < |responses| && AddsPermitted(env, b, responses[1..][..n], mid, after, c)
    requires c in mid <==>
             c in before || (RunsTools(b, responses[0]) && c in CallsIn(responses[0].content) && Permitted(env, c))
    ensures AddsPermitted(env, b, responses[..n + 1], before, after, c)
  {
    AskedForFirst(b, responses, n, c);
  }

  /** The policy binds, in every run of every version: the calls that reach a handler are exactly those
      that a consumed response asks for, that the engine allows, and that have a handler. */
  lemma {:induction false} PolicyBindsExactly(env: Env, b: Backend, responses: seq<Response>, st: St, c: Call)
    ensures var end := Loop(env, b, responses, st);
            && st.consumed <= end.consumed <= st.consumed + |responses|
            && AddsPermitted(env, b, responses[..end.consumed - st.consumed], st.handled, end.handled, c)
    decreases |responses|
  {
    hide Turn;
    if responses == [] {
    } else {
      var (next, stop) := Turn(env, b, responses[0], st);
      TurnHandles(env, b, responses[0], st, c);
      var end := Loop(env, b, responses, st);
      if !stop { PolicyBindsExactly(env, b, responses[1..], next, c); }
      AddsPermittedFirst(env, b, responses, end.consumed - next.consumed, st.handled, next.handled, end.handled, c);
    }
  }

  /** The call writes or edits a file under a path that a rule gives a reason against. */
  predicate BadPath(env: Env, c: Call) {
    c.name in {"write_file", "edit_file"} && env.pathReason(c.path).Some? && env.pathReason(c.path).value != ""
  }

  /** The call runs a command that a rule matches. */
  predicate BadCommand(env: Env, c: Call) {
    c.name == "bash" && env.commandRule(c.command).Some?
  }

  lemma DeniedByRules(env: Env, c: Call)
    ensures Denied(env, c) <==> BadPath(env, c) || BadCommand(env, c)
  {
    RefusalsAreDenials(env, c);
    assert |"write_file"| > |"bash"| && |"edit_file"| > |"bash"|;
  }

  lemma {:induction false} CallsInMeaning(content: seq<Block>, c: Call)
    ensures c in CallsIn(content) <==> exists i :: 0 <= i < |content| && content[i] == ToolUse(c)
    decreases |content|
  {
    if content == [] {
    } else {
      CallsInMeaning(content[1..], c);
      assert forall i :: 1 <= i < |content| ==> content[i] == content[1..][i - 1];
      assert forall i :: 0 <= i < |content[1..]| ==> content[1..][i] == content[i + 1];
    }
  }

  /** A consumed response has this tool use, and is not one the Anthropic version ends at. */
  ghost predicate HasToolUse(b: Backend, responses: seq<Response>, c: Call) {
    exists i, j :: 0 <= i < |responses| && 0 <= j < |responses[i].content| && responses[i].content[j] == ToolUse(c)
                   && !(b == Anthropic && responses[i].endTurn)
  }

  lemma AskedForToolUse(b: Backend, responses: seq<Response>, c: Call)
    ensures AskedFor(b, responses, c) <==> HasToolUse(b, responses, c)
  {
    forall i | 0 <= i < |responses|
      ensures c in CallsIn(responses[i].content)
              <==> exists j :: 0 <= j < |responses[i].content| && responses[i].content[j] == ToolUse(c)
    {
      CallsInMeaning(responses[i].content, c);
    }
  }

  /** The same by the rules themselves: a call reaches a handler exactly when a consumed response has it, no
      rule is against its path (for the two tools that change files) or its command (for bash), and it has a
      handler. */
  lemma HandledByRules(env: Env, b: Backend, responses: seq<Response>, initial: seq<Message>, c: Call)
    ensures var end := Loop(env, b, responses, Start(initial));
            && end.consumed <= |responses|
            && (c in end.handled <==>
                  && HasToolUse(b, responses[..end.consumed], c) && c.name in env.handlers
                  && !BadPath(env, c) && !BadCommand(env, c))
  {
    PolicyBindsExactly(env, b, responses, Start(initial), c);
    AskedForToolUse(b, responses[..Loop(env, b, responses, Start(initial)).consumed], c);
    DeniedByRules(env, c);
    RefusalsAreDenials(env, c);
  }

  predicate StartsWith(s: string, prefix: string) {
    |prefix| <= |s| && forall i :: 0 <= i < |prefix| ==> s[i] == prefix[i]
  }

  /** And the tools of a response end the run exactly when it has a submit call that no rule is against. */
  lemma SubmitsByRules(env: Env, content: seq<Block>, count: nat)
    ensures WorkOf(env, CallsIn(content), count).submitted <==>
            exists c :: ToolUse(c) in content && StartsWith(c.name, "submit_") && !BadPath(env, c) && !BadCommand(env, c)
  {
    var calls := CallsIn(content);
    WorkSubmits(env, calls, count);
    forall c ensures c in calls <==> ToolUse(c) in content { CallsInMeaning(content, c); }
    forall c ensures Denied(env, c) <==> BadPath(env, c) || BadCommand(env, c) { DeniedByRules(env, c); }
    forall c: Call ensures IsSubmit(c) <==> StartsWith(c.name, "submit_") { PrefixMeaning(c.name, "submit_"); }
    if c :| ToolUse(c) in content && StartsWith(c.name, "submit_") && !BadPath(env, c) && !BadCommand(env, c) {
      var i :| 0 <= i < |calls| && calls[i] == c;
    }
  }

  lemma PrefixMeaning(s: string, prefix: string)
    ensures prefix <= s <==> StartsWith(s, prefix)
  {
    if StartsWith(s, prefix) { assert s[..|prefix|] == prefix; }
  }

  /** What the tool call with number `n` is answered with: the rule against it, or that there is no such tool, or
      what the handler gave or raised. */
  lemma AnswerByRules(env: Env, c: Call, n: nat)
    ensures BadPath(env, c) ==>
              ResultOf(env, c, n) == "[POLICY DENIED] " + ("Policy denied path " + env.quote(c.path) + ": " + env.pathReason(c.path).value)
    ensures BadCommand(env, c) ==>
              ResultOf(env, c, n) == "[POLICY DENIED] " + ("Policy denied command: matched rule " + env.quote(env.commandRule(c.command).value))
    ensures !BadPath(env, c) && !BadCommand(env, c) ==>
              ResultOf(env, c, n) ==
              if c.name !in env.handlers then "[ERROR] Unknown tool: " + c.name
              else match env.outcome(n)
                   case Returned(text) => text
                   case Raised(text) => "[ERROR] " + c.name + " failed: " + text
  {
    DeniedByRules(env, c);
  }

  // ------------------------------------------------------------------------ accounting

  lemma {:induction false} WorkBeats(env: Env, calls: seq<Call>, count: nat)
    ensures WorkOf(env, calls, count).beats == if env.heartbeat then (count + |calls|) / 5 - count / 5 else 0
    decreases |calls|
  {
    if calls == [] {
    } else {
      WorkBeats(env, calls[1..], count + 1);
    }
  }

  /** One heartbeat per five tool calls of the run. */
  lemma {:induction false} HeartbeatsPerFiveCalls(env: Env, b: Backend, responses: seq<Response>, st: St)
    requires st.beats == if env.heartbeat then st.calls / 5 else 0
    ensures var end := Loop(env, b, responses, st); end.beats == if env.heartbeat then end.calls / 5 else 0
    decreases |responses|
  {
    if responses == [] {
    } else {
      var (next, stop) := Turn(env, b, responses[0], st);
      WorkBeats(env, CallsIn(responses[0].content), st.calls);
      if !stop { HeartbeatsPerFiveCalls(env, b, responses[1..], next); }
    }
  }

  function Plus(a: Usage, b: Usage): Usage {
    Usage(a.input + b.input, a.output + b.output, a.cacheRead + b.cacheRead, a.cacheCreation + b.cacheCreation)
  }

  function Total(responses: seq<Response>): Usage {
    if responses == [] then Usage(0, 0, 0, 0) else Plus(responses[0].usage, Total(responses[1..]))
  }

  /** What a state has counted, as its version reports it. */
  function Counted(st: St): Usage {
    Usage(st.tokensIn, st.tokensOut, st.cacheRead, st.cacheCreation)
  }

  function Reported(b: Backend, u: Usage): Usage {
    if b.Anthropic? then u else u.(cacheRead := 0, cacheCreation := 0)
  }

  /** The returned token counts are the sums over the responses consumed; only the Anthropic version
      reports cache tokens. */
  lemma {:induction false} TokensAreSums(env: Env, b: Backend, responses: seq<Response>, st: St)
    ensures var end := Loop(env, b, responses, st);
            && st.consumed <= end.consumed <= st.consumed + |responses|
            && Counted(end) == Plus(Counted(st), Reported(b, Total(responses[..end.consumed - st.consumed])))
    decreases |responses|
  {
    hide Turn;
    if responses == [] {
    } else {
      var (next, stop) := Turn(env, b, responses[0], st);
      CountedTurn(env, b, responses[0], st);
      if !stop {
        TokensAreSums(env, b, responses[1..], next);
      }
      SumsCompose(b, responses, Counted(st), Counted(Loop(env, b, responses, st)),
                  Loop(env, b, responses, st).consumed - next.consumed);
    }
  }

  lemma CountedTurn(env: Env, b: Backend, r: Response, st: St)
    ensures var next := Turn(env, b, r, st).0;
            next.consumed == st.consumed + 1 && Counted(next) == Plus(Counted(st), Reported(b, r.usage))
  {
  }

  lemma SumsCompose(b: Backend, responses: seq<Response>, before: Usage, after: Usage, n: nat)
    requires n < |responses|
    requires after == Plus(Plus(before, Reported(b, responses[0].usage)), Reported(b, Total(responses[1..][..n])))
    ensures after == Plus(before, Reported(b, Total(responses[..n + 1])))
  {
    assert responses[..n + 1][1..] == responses[1..][..n];
  }

  function AllContent(responses: seq<Response>): seq<Block> {
    if responses == [] then [] else responses[0].content + AllContent(responses[1..])
  }

  /** `t` is the text of the last text block. */
  ghost predicate IsLastText(content: seq<Block>, t: string) {
    exists i :: 0 <= i < |content| && content[i] == Text(t) && forall j :: i < j < |content| ==> !content[j].Text?
  }

  lemma {:induction false} TextAfterMeaning(content: seq<Block>, before: string)
    ensures if forall i :: 0 <= i < |content| ==> !content[i].Text? then TextAfter(content, before) == before
            else IsLastText(content, TextAfter(content, before))
    decreases |content|
  {
    if content == [] {
    } else {
      var rest, now := content[1..], if content[0].Text? then content[0].text else before;
      TextAfterMeaning(rest, now);
      if i :| 0 <= i < |rest| && rest[i] == Text(TextAfter(rest, now)) && forall j :: i < j < |rest| ==> !rest[j].Text? {
        assert content[i + 1] == rest[i];
        assert forall j :: i + 1 < j < |content| ==> content[j] == rest[j - 1];
      } else if content[0].Text? {
        assert forall j :: 0 < j < |content| ==> content[j] == rest[j - 1];
      }
    }
  }

  lemma {:induction false} TextAfterAppend(a: seq<Block>, b: seq<Block>, before: string)
    ensures TextAfter(a + b, before) == TextAfter(b, TextAfter(a, before))
    decreases |a|
  {
    if a == [] {
      assert a + b == b;
    } else {
      assert (a + b)[1..] == a[1..] + b;
      TextAfterAppend(a[1..], b, if a[0].Text? then a[0].text else before);
    }
  }

  lemma TextOfTurn(env: Env, b: Backend, r: Response, st: St)
    ensures var next := Turn(env, b, r, st).0;
            next.text == TextAfter(r.content, st.text) && next.consumed == st.consumed + 1
  {
  }

  /** The final text is the last text block of all consumed responses, not only of the last one. */
  lemma {:induction false} FinalTextIsLastOfAll(env: Env, b: Backend, responses: seq<Response>, st: St)
    ensures var end := Loop(env, b, responses, st);
            && st.consumed <= end.consumed <= st.consumed + |responses|
            && end.text == TextAfter(AllContent(responses[..end.consumed - st.consumed]), st.text)
    decreases |responses|
  {
    hide Turn;
    TokensAreSums(env, b, responses, st);
    if responses == [] {
    } else {
      var r := responses[0];
      var (next, stop) := Turn(env, b, r, st);
      TextOfTurn(env, b, r, st);
      if !stop { FinalTextIsLastOfAll(env, b, responses[1..], next); }
      FinalTextStep(responses, Loop(env, b, responses, st).consumed - next.consumed, st.text);
    }
  }

  lemma FinalTextStep(responses: seq<Response>, n: nat, before: string)
    requires n < |responses|
    ensures TextAfter(AllContent(responses[..n + 1]), before)
         == TextAfter(AllContent(responses[1..][..n]), TextAfter(responses[0].content, before))
  {
    assert responses[..n + 1][1..] == responses[1..][..n];
    TextAfterAppend(responses[0].content, AllContent(responses[1..][..n]), before);
  }

  /** The tool calls that these responses make, when all of them are consumed. */
  function CallsMade(b: Backend, responses: seq<Response>): nat {
    if responses == [] then 0
    else (if RunsTools(b, responses[0]) then |CallsIn(responses[0].content)| else 0) + CallsMade(b, responses[1..])
  }

  lemma {:induction false} CallsAreCounted(env: Env, b: Backend, responses: seq<Response>, st: St)
    ensures var end := Loop(env, b, responses, st);
            && st.consumed <= end.consumed <= st.consumed + |responses|
            && end.calls == st.calls + CallsMade(b, responses[..end.consumed - st.consumed])
    decreases |responses|
  {
    TokensAreSums(env, b, responses, st);
    hide Turn;
    if responses == [] {
    } else {
      var (next, stop) := Turn(env, b, responses[0], st);
      CallsOfTurn(env, b, responses[0], st);
      if !stop { CallsAreCounted(env, b, responses[1..], next); }
      var n := Loop(env, b, responses, st).consumed - next.consumed;
      assert responses[..n + 1][1..] == responses[1..][..n];
    }
  }

  lemma CallsOfTurn(env: Env, b: Backend, r: Response, st: St)
    ensures var next := Turn(env, b, r, st).0;
            next.consumed == st.consumed + 1
            && next.calls == st.calls + if RunsTools(b, r) then |CallsIn(r.content)| else 0
  {
  }

  /** What a whole run returns: the given messages first, the last text block of the consumed responses or
      nothing, their tool calls, a heartbeat per five of these, and the sums of their tokens. */
  lemma WholeRun(env: Env, b: Backend, responses: seq<Response>, initial: seq<Message>)
    ensures var end := Loop(env, b, responses, Start(initial));
            && end.consumed <= |responses| && initial <= end.messages
            && end.text == TextAfter(AllContent(responses[..end.consumed]), "")
            && end.calls == CallsMade(b, responses[..end.consumed])
            && end.beats == (if env.heartbeat then end.calls / 5 else 0)
            && Counted(end) == Reported(b, Total(responses[..end.consumed]))
  {
    hide Loop, Total, AllContent, CallsMade;
    var tail := TranscriptProtocol(env, b, responses, Start(initial));
    FinalTextIsLastOfAll(env, b, responses, Start(initial));
    CallsAreCounted(env, b, responses, Start(initial));
    HeartbeatsPerFiveCalls(env, b, responses, Start(initial));
    TokensAreSums(env, b, responses, Start(initial));
  }

  /** A run that stops before the last turn stops for a reason: the model had nothing to run, or an
      allowed submit was called. */
  ghost predicate ReasonToStop(env: Env, b: Backend, r: Response) {
    || (b.Anthropic? && r.endTurn)
    || CallsIn(r.content) == []
    || exists i :: 0 <= i < |CallsIn(r.content)| && !Denied(env, CallsIn(r.content)[i]) && IsSubmit(CallsIn(r.content)[i])
  }

  lemma TurnStopsExactly(env: Env, b: Backend, r: Response, st: St)
    requires !b.Groq?
    ensures Turn(env, b, r, st).1 <==> ReasonToStop(env, b, r)
    ensures Turn(env, b, r, st).0.consumed == st.consumed + 1
  {
    WorkSubmits(env, CallsIn(r.content), st.calls);
  }

  /** The first `n` responses are consumed: none before the last of them has a reason to stop, and the last
      has one unless nothing is left. */
  ghost predicate StopsAfter(env: Env, b: Backend, responses: seq<Response>, n: nat) {
    && n <= |responses|
    && (forall i :: 0 <= i < n - 1 ==> !ReasonToStop(env, b, responses[i]))
    && (n < |responses| ==> n > 0 && ReasonToStop(env, b, responses[n - 1]))
  }

  lemma StopsAfterFirst(env: Env, b: Backend, responses: seq<Response>, n: nat)
    requires responses != [] && !ReasonToStop(env, b, responses[0]) && StopsAfter(env, b, responses[1..], n)
    ensures StopsAfter(env, b, responses, n + 1)
  {
    assert forall i :: 1 <= i < |responses| ==> responses[i] == responses[1..][i - 1];
  }

  /** Exactly where the Anthropic and Gemini runs end: at the first response with a reason to stop. */
  lemma {:induction false} StopsAtFirstReason(env: Env, b: Backend, responses: seq<Response>, st: St)
    requires !b.Groq?
    ensures var n := Loop(env, b, responses, st).consumed - st.consumed;
            n >= 0 && StopsAfter(env, b, responses, n)
    decreases |responses|
  {
    hide Turn;
    if responses == [] {
    } else {
      var (next, stop) := Turn(env, b, responses[0], st);
      TurnStopsExactly(env, b, responses[0], st);
      if !stop {
        StopsAtFirstReason(env, b, responses[1..], next);
        StopsAfterFirst(env, b, responses, Loop(env, b, responses[1..], next).consumed - next.consumed);
      }
    }
  }

  // ----------------------------------------------------------------------------- nudges

  predicate Toolless(r: Response) {
    CallsIn(r.content) == []
  }

  /** How many responses at the end have no tool uses. */
  function TrailingToolless(responses: seq<Response>): nat
    decreases |responses|
  {
    if responses == [] || !Toolless(responses[|responses| - 1]) then 0
    else 1 + TrailingToolless(responses[..|responses| - 1])
  }

  /** The same, counted from the left, when `n` came before. */
  function TrailingAfter(n: nat, responses: seq<Response>): nat
    decreases |responses|
  {
    if responses == [] then n else TrailingAfter(if Toolless(responses[0]) then n + 1 else 0, responses[1..])
  }

  lemma {:induction false} TrailingAfterSnoc(n: nat, responses: seq<Response>, r: Response)
    ensures TrailingAfter(n, responses + [r]) == if Toolless(r) then TrailingAfter(n, responses) + 1 else 0
    decreases |responses|
  {
    if responses == [] {
      assert ([] + [r])[1..] == [];
    } else {
      assert (responses + [r])[1..] == responses[1..] + [r];
      TrailingAfterSnoc(if Toolless(responses[0]) then n + 1 else 0, responses[1..], r);
    }
  }

  lemma {:induction false} TrailingFromLeft(responses: seq<Response>)
    ensures TrailingAfter(0, responses) == TrailingToolless(responses)
    decreases |responses|
  {
    if responses == [] {
    } else {
      var front, last := responses[..|responses| - 1], responses[|responses| - 1];
      TrailingFromLeft(front);
      TrailingAfterSnoc(0, front, last);
      assert responses == front + [last];
    }
  }

  /** `trailing` tool-less responses at the end, and the counter, fit together. */
  ghost predicate NudgesFit(end: St, trailing: nat) {
    && trailing <= 3 && end.nudges == (if trailing == 3 then 2 else trailing)
    && (trailing == 3 ==> end.messages != [] && end.messages[|end.messages| - 1].Assistant?)
  }

  lemma NudgeTurn(env: Env, r: Response, st: St)
    requires st.nudges <= 2
    ensures var (next, stop) := Turn(env, Groq, r, st);
            && next.consumed == st.consumed + 1
            && NudgesFit(next, if Toolless(r) then st.nudges + 1 else 0)
            && (!stop ==> next.nudges == if Toolless(r) then st.nudges + 1 else 0)
  {
  }

  lemma TrailingStep(n: nat, responses: seq<Response>, m: nat)
    requires m < |responses|
    ensures TrailingAfter(n, responses[..m + 1]) == TrailingAfter(if Toolless(responses[0]) then n + 1 else 0, responses[1..][..m])
  {
    assert responses[..m + 1][1..] == responses[1..][..m];
  }

  lemma {:induction false} NudgesFollow(env: Env, responses: seq<Response>, st: St)
    requires st.nudges <= 2
    ensures var end := Loop(env, Groq, responses, st);
            && st.consumed <= end.consumed <= st.consumed + |responses|
            && (responses != [] ==> end.consumed > st.consumed)
            && (end.consumed > st.consumed ==> NudgesFit(end, TrailingAfter(st.nudges, responses[..end.consumed - st.consumed])))
    decreases |responses|
  {
    hide Turn;
    if responses == [] {
    } else {
      NudgeTurn(env, responses[0], st);
      var (next, stop) := Turn(env, Groq, responses[0], st);
      if !stop { NudgesFollow(env, responses[1..], next); }
      TrailingStep(st.nudges, responses, Loop(env, Groq, responses, st).consumed - next.consumed);
    }
  }

  /** The nudge counter is the number of trailing tool-less responses, and never passes two: the third in
      a row ends the run. */
  lemma NudgesCountTrailing(env: Env, responses: seq<Response>, initial: seq<Message>)
    ensures var end := Loop(env, Groq, responses, Start(initial));
            end.consumed <= |responses| && NudgesFit(end, TrailingToolless(responses[..end.consumed]))
  {
    NudgesFollow(env, responses, Start(initial));
    var end := Loop(env, Groq, responses, Start(initial));
    TrailingFromLeft(responses[..end.consumed]);
  }

  // --------------------------------------------------------- agreement of the versions

  lemma LoopGrows(env: Env, b: Backend, responses: seq<Response>, st: St)
    ensures |st.messages| <= |Loop(env, b, responses, st).messages|
  {
    var tail := TranscriptProtocol(env, b, responses, st);
  }

  /** A response the Anthropic version stops at without running its tools. */
  predicate CutOff(r: Response) {
    r.endTurn && CallsIn(r.content) != []
  }

  /** Equal but for the cache token counts. */
  ghost predicate Agree(a: St, b: St) {
    a.(cacheRead := 0, cacheCreation := 0) == b.(cacheRead := 0, cacheCreation := 0)
  }

  lemma TurnsAgree(env: Env, r: Response, a: St, g: St)
    requires Agree(a, g) && !CutOff(r) && a.nudges == 0
    ensures Agree(Turn(env, Anthropic, r, a).0, Turn(env, Gemini, r, g).0)
    ensures Turn(env, Anthropic, r, a).1 == Turn(env, Gemini, r, g).1
    ensures Turn(env, Anthropic, r, a).0.nudges == 0
  {
  }

  lemma {:induction false} AnthropicGeminiAgree(env: Env, responses: seq<Response>, a: St, g: St)
    requires Agree(a, g) && a.nudges == 0
    ensures var ea, eg := Loop(env, Anthropic, responses, a), Loop(env, Gemini, responses, g);
            && a.consumed <= ea.consumed <= a.consumed + |responses|
            && ((forall i :: 0 <= i < ea.consumed - a.consumed ==> !CutOff(responses[i])) ==> Agree(ea, eg))
            && ((exists i :: 0 <= i < ea.consumed - a.consumed && CutOff(responses[i])) ==> |ea.messages| < |eg.messages|)
    decreases |responses|
  {
    TokensAreSums(env, Anthropic, responses, a);
    if responses == [] {
    } else {
      var r := responses[0];
      var (na, sa) := Turn(env, Anthropic, r, a);
      var (ng, sg) := Turn(env, Gemini, r, g);
      if CutOff(r) {
        if !sg { LoopGrows(env, Gemini, responses[1..], ng); }
      } else {
        TurnsAgree(env, r, a, g);
        if !sa {
          AnthropicGeminiAgree(env, responses[1..], na, ng);
          assert forall i :: 1 <= i < |responses| ==> responses[i] == responses[1..][i - 1];
        }
      }
    }
  }

  /** The Anthropic and Gemini versions give the same transcript, handler calls, text and in/out
      tokens exactly when the Anthropic run meets no end-of-turn response that carries tool uses. */
  lemma AnthropicAgreesWithGeminiExactly(env: Env, responses: seq<Response>, initial: seq<Message>)
    ensures var ea, eg := Loop(env, Anthropic, responses, Start(initial)), Loop(env, Gemini, responses, Start(initial));
            && ea.consumed <= |responses|
            && (Agree(ea, eg) <==> forall i :: 0 <= i < ea.consumed ==> !CutOff(responses[i]))
  {
    AnthropicGeminiAgree(env, responses, Start(initial), Start(initial));
  }

  lemma {:induction false} GroqGeminiAgree(env: Env, responses: seq<Response>, st: St)
    requires st.nudges == 0
    ensures var ek, eg := Loop(env, Groq, responses, st), Loop(env, Gemini, responses, st);
            && st.consumed <= eg.consumed <= st.consumed + |responses|
            && ((forall i :: 0 <= i < eg.consumed - st.consumed ==> !Toolless(responses[i])) ==> ek == eg)
            && ((exists i :: 0 <= i < eg.consumed - st.consumed && Toolless(responses[i])) ==> |eg.messages| < |ek.messages|)
    decreases |responses|
  {
    TokensAreSums(env, Gemini, responses, st);
    if responses == [] {
    } else {
      var r := responses[0];
      var (nk, sk) := Turn(env, Groq, r, st);
      var (ng, sg) := Turn(env, Gemini, r, st);
      if Toolless(r) {
        LoopGrows(env, Groq, responses[1..], nk);
      } else if !sg {
        GroqGeminiAgree(env, responses[1..], ng);
        assert forall i :: 1 <= i < |responses| ==> responses[i] == responses[1..][i - 1];
      }
    }
  }

  /** Groq agrees with Gemini exactly when the Gemini run meets no response without tool uses. */
  lemma GroqAgreesWithGeminiExactly(env: Env, responses: seq<Response>, initial: seq<Message>)
    ensures var ek, eg := Loop(env, Groq, responses, Start(initial)), Loop(env, Gemini, responses, Start(initial));
            && eg.consumed <= |responses|
            && (ek == eg <==> forall i :: 0 <= i < eg.consumed ==> !Toolless(responses[i]))
  {
    GroqGeminiAgree(env, responses, Start(initial));
  }

  /** Every tool use of the transcript is answered exactly when the Anthropic run meets no cut-off
      response; otherwise its last message asks for tools that nobody answers. */
  ghost predicate AllAnswered(tail: seq<Message>) {
    tail == [] || !tail[|tail| - 1].Assistant? || CallsIn(tail[|tail| - 1].content) == []
  }

  lemma {:induction false} AnsweredExactly(env: Env, b: Backend, responses: seq<Response>, st: St)
    requires AllAnswered(st.messages)
    ensures var end := Loop(env, b, responses, st);
            && st.consumed <= end.consumed <= st.consumed + |responses|
            && (AllAnswered(end.messages) <==>
                  !b.Anthropic? || forall i :: 0 <= i < end.consumed - st.consumed ==> !CutOff(responses[i]))
    decreases |responses|
  {
    TokensAreSums(env, b, responses, st);
    if responses == [] {
    } else {
      var (next, stop) := Turn(env, b, responses[0], st);
      if !stop {
        AnsweredExactly(env, b, responses[1..], next);
        assert forall i :: 1 <= i < |responses| ==> responses[i] == responses[1..][i - 1];
      }
    }
  }
}
