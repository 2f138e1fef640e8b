/**
 The bounded agent loop behind `ask`: an adversarial model and toolbox, three caps, one
 pushback, tainted token accounting and the message protocol replayed to the model.
 The model's and the toolbox's answers are oracles indexed by call; what is proved holds
 for every such oracle.
 */
module Agent {
  import opened Text
  import opened Decimal

  datatype ToolCall = ToolCall(id: string, name: string, arguments: string)

  datatype ChatMessage =
    | System(text: string)
    | User(text: string)
    | Assistant(prose: Option<string>, toolCalls: seq<ToolCall>)
    | ToolResult(toolCallId: string, content: string)

  datatype ChatTurn = ChatTurn(content: Option<string>, toolCalls: seq<ToolCall>, tokensUsed: Option<nat>)

  datatype Reply = Replied(turn: ChatTurn) | ProviderError(error: string)

  datatype ToolReply = Outcome(content: string, evidence: bool, references: seq<string>) | ToolError(error: string)

  datatype AgentBounds = AgentBounds(maxIterations: nat, tokenBudget: nat, toolResultMaxChars: nat)

  datatype TraceEntry = TraceEntry(iteration: nat, tool: string, arguments: string, failed: bool, evidence: bool,
                                   references: seq<string>, resultChars: nat)

  datatype StopReason = Answered | MaxIterations | TokenBudget | ProviderFailure

  datatype AgentAnswer = AgentAnswer(answer: Option<string>, failure: Option<string>, trace: seq<TraceEntry>,
                                     iterations: nat, tokensUsed: Option<nat>, stopped: StopReason, grounded: bool)

  datatype Result = Ok(answer: AgentAnswer) | Err(error: string)

  /** Everyone the loop talks to: the model by turn, the toolbox by turn and call. */
  datatype Oracle = Oracle(model: nat -> Reply, toolbox: (nat, nat) -> ToolReply,
                           systemPrompt: string, pushback: string)

  const U64: nat := 0x1_0000_0000_0000_0000

  // ----- one tool result

  /** A text no longer than `max` characters whole; of a longer one that many, and a notice. */
  function Truncate(text: string, max: nat): string {
    if |text| <= max then text else text[..max] + Notice(max)
  }

  const CUT := "truncated"

  function Notice(max: nat): string { "\n…[" + CUT + " at " + Render(max) + " characters]" }

  predicate Contains(text: string, part: string) { Find(text, part).Some? }

  function Surviving(references: seq<string>, content: string): seq<string> {
    if references == [] then []
    else (if Contains(content, references[0]) then [references[0]] else []) + Surviving(references[1..], content)
  }

  function ResultText(reply: ToolReply, max: nat): string {
    match reply
    case Outcome(content, _, _) => Truncate(content, max)
    case ToolError(error) => "ERROR: " + error
  }

  function Entry(iteration: nat, call: ToolCall, reply: ToolReply, max: nat): TraceEntry {
    var content := ResultText(reply, max);
    TraceEntry(iteration, call.name, call.arguments, reply.ToolError?, reply.Outcome? && reply.evidence,
               if reply.Outcome? then Surviving(reply.references, content) else [], |content|)
  }

  predicate ReadSomething(trace: seq<TraceEntry>) {
    exists i :: 0 <= i < |trace| && trace[i].evidence
  }

  // ----- the loop's state, and one turn of it

  datatype State = State(messages: seq<ChatMessage>, trace: seq<TraceEntry>, tokensUsed: Option<nat>,
                         usageKnown: bool, nudged: bool)

  datatype Step = Stop(result: Result) | Continue(next: State)

  function Opening(oracle: Oracle, question: string): State {
    State([System(oracle.systemPrompt), User(question)], [], None, true, false)
  }

  /** Unknown usage taints the total for good; known usage adds up, in a `u64`. */
  function Charge(s: State, used: Option<nat>): State {
    match used
    case None => s.(usageKnown := false, tokensUsed := None)
    case Some(spent) =>
      if s.usageKnown then
        s.(tokensUsed := Some(((if s.tokensUsed.Some? then s.tokensUsed.value else 0) + spent) % U64))
      else s
  }

  predicate OverBudget(s: State, bounds: AgentBounds) {
    s.tokensUsed.Some? && s.tokensUsed.value >= bounds.tokenBudget
  }

  /** A turn's results, in call order. */
  function Results(oracle: Oracle, bounds: AgentBounds, iteration: nat, calls: seq<ToolCall>): seq<ChatMessage> {
    seq(|calls|, k requires 0 <= k < |calls| =>
          ToolResult(calls[k].id, ResultText(oracle.toolbox(iteration, k), bounds.toolResultMaxChars)))
  }

  function Entries(oracle: Oracle, bounds: AgentBounds, iteration: nat, calls: seq<ToolCall>): seq<TraceEntry> {
    seq(|calls|, k requires 0 <= k < |calls| =>
          Entry(iteration, calls[k], oracle.toolbox(iteration, k), bounds.toolResultMaxChars))
  }

  predicate IsBlank(text: string) { Trim(text) == [] }

  function Finish(s: State, answer: Option<string>, failure: Option<string>, iterations: nat,
                  stopped: StopReason, grounded: bool): Step {
    Stop(Ok(AgentAnswer(answer, failure, s.trace, iterations, s.tokensUsed, stopped, grounded)))
  }

  /** A turn in prose: out of budget, push back once, or publish. */
  function ProseTurn(s: State, oracle: Oracle, bounds: AgentBounds, iteration: nat, content: Option<string>): Step {
    var grounded := ReadSomething(s.trace);
    if !grounded && !s.nudged && OverBudget(s, bounds) then
      Finish(s, content, None, iteration, TokenBudget, false)
    else if !grounded && !s.nudged then
      Continue(s.(nudged := true, messages := s.messages + [Assistant(content, []), User(oracle.pushback)]))
    else if content.None? || IsBlank(content.value) then
      Finish(s, None, Some("the chat provider returned no answer text"), iteration, ProviderFailure, false)
    else
      Finish(s, content, None, iteration, Answered, grounded)
  }

  /** A turn asking for tools: refuse them when the budget is gone, otherwise replay the request and its results. */
  function ToolTurn(s: State, oracle: Oracle, bounds: AgentBounds, iteration: nat, turn: ChatTurn): Step {
    if OverBudget(s, bounds) then Finish(s, None, None, iteration, TokenBudget, false)
    else
      var calls := turn.toolCalls;
      Continue(s.(messages := s.messages + [Assistant(turn.content, calls)] + Results(oracle, bounds, iteration, calls),
      trace := s.trace + Entries(oracle, bounds, iteration, calls)))
  }

  function TakeTurn(s: State, oracle: Oracle, bounds: AgentBounds, iteration: nat): Step {
    match oracle.model(iteration)
    case ProviderError(error) =>
      if iteration <= 1 then Stop(Err(error))
      else Stop(Ok(AgentAnswer(None, Some(error), s.trace, iteration - 1, None, ProviderFailure, false)))
    case Replied(turn) =>
      var charged := Charge(s, turn.tokensUsed);
      if turn.toolCalls == [] then ProseTurn(charged, oracle, bounds, iteration, turn.content)
      else ToolTurn(charged, oracle, bounds, iteration, turn)
  }

  /** How a run that used up its turns reports. */
  function Exhausted(s: State, bounds: AgentBounds): Result {
    Ok(AgentAnswer(None, None, s.trace, bounds.maxIterations, s.tokensUsed, MaxIterations, false))
  }

  ghost predicate Follows(s: State, next: State, oracle: Oracle, bounds: AgentBounds, iteration: nat) {
    TakeTurn(s, oracle, bounds, iteration) == Continue(next)
  }

  /** `states[i]` is the loop's state as turn `i + 1` begins. */
  ghost predicate Chain(states: seq<State>, oracle: Oracle, bounds: AgentBounds, question: string) {
    && states != [] && states[0] == Opening(oracle, question)
    && forall i :: 0 < i < |states| ==> Follows(states[i - 1], states[i], oracle, bounds, i)
  }

  /**
   A whole run: the model is called in each of these states, except that a run which is
   never stopped ends in one more state, with its turns used up.
   */
  ghost predicate IsRun(states: seq<State>, result: Result, oracle: Oracle, bounds: AgentBounds, question: string) {
    && Chain(states, oracle, bounds, question)
    && var last := states[|states| - 1];
       if |states| <= bounds.maxIterations then TakeTurn(last, oracle, bounds, |states|) == Stop(result)
       else |states| == bounds.maxIterations + 1 && result == Exhausted(last, bounds)
  }

  // ----- the program

  method TakeToolCall(call: ToolCall, reply: ToolReply, bounds: AgentBounds, iteration: nat)
    returns (result: ChatMessage, entry: TraceEntry)
    ensures result == ToolResult(call.id, ResultText(reply, bounds.toolResultMaxChars))
    ensures entry == Entry(iteration, call, reply, bounds.toolResultMaxChars)
  {
    var content, failed, evidence, references := "", true, false, [];
    match reply {
      case Outcome(text, found, surfaced) =>
        content := Truncate(text, bounds.toolResultMaxChars);
        failed, evidence, references := false, found, Surviving(surfaced, content);
      case ToolError(error) =>
        content := "ERROR: " + error;
    }
    entry := TraceEntry(iteration, call.name, call.arguments, failed, evidence, references, |content|);
    result := ToolResult(call.id, content);
  }

  method TakeToolCalls(oracle: Oracle, bounds: AgentBounds, iteration: nat, calls: seq<ToolCall>)
    returns (results: seq<ChatMessage>, entries: seq<TraceEntry>)
    ensures results == Results(oracle, bounds, iteration, calls)
    ensures entries == Entries(oracle, bounds, iteration, calls)
  {
    results, entries := [], [];
    for k := 0 to |calls|
      invariant |results| == |entries| == k
      invariant forall j :: 0 <= j < k ==> results[j] == Results(oracle, bounds, iteration, calls)[j]
      invariant forall j :: 0 <= j < k ==> entries[j] == Entries(oracle, bounds, iteration, calls)[j]
    {
      var result, entry := TakeToolCall(calls[k], oracle.toolbox(iteration, k), bounds, iteration);
      results, entries := results + [result], entries + [entry];
    }
  }

  /** Account for a turn's usage. */
  method Account(s: State, used: Option<nat>) returns (charged: State)
    ensures charged == Charge(s, used)
  {
    var tokensUsed, usageKnown := s.tokensUsed, s.usageKnown;
    match (usageKnown, used) {
      case (true, Some(spent)) =>
        tokensUsed := Some(((if tokensUsed.Some? then tokensUsed.value else 0) + spent) % U64);
      case (_, None) =>
        usageKnown := false;
        tokensUsed := None;
      case (false, Some(_)) =>
    }
    charged := s.(tokensUsed := tokensUsed, usageKnown := usageKnown);
  }

  /** The body of the loop: account for the turn, then answer it, push back, or run its tools. */
  method OneTurn(s: State, oracle: Oracle, bounds: AgentBounds, iteration: nat, turn: ChatTurn)
    returns (step: Step)
    requires oracle.model(iteration) == Replied(turn)
    ensures step == TakeTurn(s, oracle, bounds, iteration)
  {
    var charged := Account(s, turn.tokensUsed);
    var messages, trace, tokensUsed := charged.messages, charged.trace, charged.tokensUsed;
    var usageKnown, nudged := charged.usageKnown, charged.nudged;
    var overBudget := tokensUsed.Some? && tokensUsed.value >= bounds.tokenBudget;

    if turn.toolCalls == [] {
      var grounded := ReadSomething(trace);
      if !grounded && !nudged && overBudget {
        return Stop(Ok(AgentAnswer(turn.content, None, trace, iteration, tokensUsed, TokenBudget, false)));
      }
      if !grounded && !nudged {
        nudged := true;
        messages := messages + [Assistant(turn.content, []), User(oracle.pushback)];
        return Continue(State(messages, trace, tokensUsed, usageKnown, nudged));
      }
      if turn.content.None? || IsBlank(turn.content.value) {
        var failure := Some("the chat provider returned no answer text");
        return Stop(Ok(AgentAnswer(None, failure, trace, iteration, tokensUsed, ProviderFailure, false)));
      }
      return Stop(Ok(AgentAnswer(turn.content, None, trace, iteration, tokensUsed, Answered, grounded)));
    }
    if overBudget {
      return Stop(Ok(AgentAnswer(None, None, trace, iteration, tokensUsed, TokenBudget, false)));
    }
    messages := messages + [Assistant(turn.content, turn.toolCalls)];
    var results, entries := TakeToolCalls(oracle, bounds, iteration, turn.toolCalls);
    messages, trace := messages + results, trace + entries;
    step := Continue(State(messages, trace, tokensUsed, usageKnown, nudged));
  }

  /** Chains of the same oracle, bounds and question agree as far as both go. */
  lemma {:induction false} ChainsAgree(one: seq<State>, other: seq<State>, oracle: Oracle, bounds: AgentBounds,
                                       question: string, i: nat)
    requires Chain(one, oracle, bounds, question) && Chain(other, oracle, bounds, question)
    requires i < |one| && i < |other|
    ensures one[i] == other[i]
  {
    if i > 0 {
      ChainsAgree(one, other, oracle, bounds, question, i - 1);
      assert Follows(one[i - 1], one[i], oracle, bounds, i) && Follows(other[i - 1], other[i], oracle, bounds, i);
    }
  }

  /** Where a chain is longer, the shorter one could go on. */
  lemma LongerChainGoesOn(one: seq<State>, other: seq<State>, oracle: Oracle, bounds: AgentBounds, question: string)
    requires Chain(one, oracle, bounds, question) && Chain(other, oracle, bounds, question)
    requires |one| < |other|
    ensures TakeTurn(one[|one| - 1], oracle, bounds, |one|).Continue?
  {
    var k := |one|;
    ChainsAgree(one, other, oracle, bounds, question, k - 1);
    assert Follows(other[k - 1], other[k], oracle, bounds, k);
  }

  /** Oracle, bounds and question leave room for one run only. */
  lemma RunIsUnique(one: seq<State>, result: Result, other: seq<State>, otherResult: Result, oracle: Oracle,
                    bounds: AgentBounds, question: string)
    requires IsRun(one, result, oracle, bounds, question)
    requires IsRun(other, otherResult, oracle, bounds, question)
    ensures one == other && result == otherResult
  {
    if |one| < |other| {
      LongerChainGoesOn(one, other, oracle, bounds, question);
    } else if |other| < |one| {
      LongerChainGoesOn(other, one, oracle, bounds, question);
    }
    forall i | 0 <= i < |one| ensures one[i] == other[i] {
      ChainsAgree(one, other, oracle, bounds, question, i);
    }
  }

  /** The whole loop. */
  method Ask(oracle: Oracle, bounds: AgentBounds, question: string) returns (result: Result)
    ensures exists states :: IsRun(states, result, oracle, bounds, question)
  {
    var s := State([System(oracle.systemPrompt), User(question)], [], None, true, false);
    ghost var states := [s];
    for iteration := 1 to bounds.maxIterations + 1
      invariant |states| == iteration && states[|states| - 1] == s
      invariant Chain(states, oracle, bounds, question)
    {
      match oracle.model(iteration) {
        case ProviderError(error) =>
          if iteration == 1 {
            result := Err(error);
          } else {
            result := Ok(AgentAnswer(None, Some(error), s.trace, iteration - 1, None, ProviderFailure, false));
          }
          assert IsRun(states, result, oracle, bounds, question);
          return;
        case Replied(turn) =>
          var step := OneTurn(s, oracle, bounds, iteration, turn);
          if step.Stop? {
            result := step.result;
            assert IsRun(states, result, oracle, bounds, question);
            return;
          }
          s := step.next;
          states := states + [s];
      }
    }
    result := Ok(AgentAnswer(None, None, s.trace, bounds.maxIterations, s.tokensUsed, MaxIterations, false));
    assert IsRun(states, result, oracle, bounds, question);
  }

  // ----- the message protocol

  /**
   What may follow the opening pair: user prose, or an assistant turn with exactly its calls'
   results behind it, in call order, one trace entry each.
   */
  ghost predicate Protocol(messages: seq<ChatMessage>, trace: seq<TraceEntry>)
    decreases |messages|
  {
    if messages == [] then trace == []
    else
      match messages[0]
      case User(_) => Protocol(messages[1..], trace)
      case Assistant(_, calls) =>
        && |calls| < |messages| && |calls| <= |trace|
        && AnswersInOrder(calls, messages[1..|calls| + 1], trace[..|calls|])
        && Protocol(messages[|calls| + 1..], trace[|calls|..])
      case _ => false
  }

  ghost predicate AnswersInOrder(calls: seq<ToolCall>, results: seq<ChatMessage>, trace: seq<TraceEntry>) {
    && |results| == |trace| == |calls|
    && forall k :: 0 <= k < |calls| ==>
         && results[k].ToolResult? && results[k].toolCallId == calls[k].id
         && trace[k].tool == calls[k].name && trace[k].arguments == calls[k].arguments
         && trace[k].resultChars == |results[k].content|
  }

  ghost predicate WellFormed(s: State) {
    && |s.messages| >= 2 && s.messages[0].System? && s.messages[1].User?
    && Protocol(s.messages[2..], s.trace)
  }

  /** An assistant turn with its results behind it. */
  ghost predicate IsExchange(messages: seq<ChatMessage>, entries: seq<TraceEntry>) {
    messages != [] && messages[0].Assistant? && AnswersInOrder(messages[0].toolCalls, messages[1..], entries)
  }

  /** One exchange in front of a protocol. */
  lemma ExchangeInFront(exchange: seq<ChatMessage>, entries: seq<TraceEntry>,
                        rest: seq<ChatMessage>, restTrace: seq<TraceEntry>)
    requires IsExchange(exchange, entries) && Protocol(rest, restTrace)
    ensures Protocol(exchange + rest, entries + restTrace)
  {
    var all, trace, k := exchange + rest, entries + restTrace, |entries|;
    assert all[1..k + 1] == exchange[1..] && all[k + 1..] == rest;
    assert trace[..k] == entries && trace[k..] == restTrace;
  }

  /** Cutting the first exchange off again. */
  lemma FirstExchange(a: seq<ChatMessage>, ta: seq<TraceEntry>)
    returns (exchange: seq<ChatMessage>, entries: seq<TraceEntry>, rest: seq<ChatMessage>, restTrace: seq<TraceEntry>)
    requires a != [] && !a[0].User? && Protocol(a, ta)
    ensures a == exchange + rest && ta == entries + restTrace && |rest| < |a|
    ensures IsExchange(exchange, entries) && Protocol(rest, restTrace)
  {
    var k := |a[0].toolCalls|;
    exchange, entries, rest, restTrace := a[..k + 1], ta[..k], a[k + 1..], ta[k..];
    assert exchange[1..] == a[1..k + 1];
  }

  lemma {:induction false} ProtocolConcat(a: seq<ChatMessage>, ta: seq<TraceEntry>,
                                          b: seq<ChatMessage>, tb: seq<TraceEntry>)
    requires Protocol(a, ta) && Protocol(b, tb)
    ensures Protocol(a + b, ta + tb)
    decreases |a|
  {
    if a == [] {
      assert a + b == b && ta + tb == tb;
    } else if a[0].User? {
      assert (a + b)[1..] == a[1..] + b;
      ProtocolConcat(a[1..], ta, b, tb);
    } else {
      var exchange, entries, rest, restTrace := FirstExchange(a, ta);
      ProtocolConcat(rest, restTrace, b, tb);
      ExchangeInFront(exchange, entries, rest + b, restTrace + tb);
      ConcatAssociates(exchange, rest, b);
      ConcatAssociates(entries, restTrace, tb);
    }
  }

  lemma ExchangeIsProtocol(prose: Option<string>, calls: seq<ToolCall>,
                           results: seq<ChatMessage>, entries: seq<TraceEntry>)
    requires AnswersInOrder(calls, results, entries)
    ensures Protocol([Assistant(prose, calls)] + results, entries)
  {
    var exchange := [Assistant(prose, calls)] + results;
    assert exchange[1..] == results;
    ExchangeInFront(exchange, entries, [], []);
    assert exchange + [] == exchange && entries + [] == entries;
  }

  lemma PushbackIsProtocol(prose: Option<string>, pushback: string)
    ensures Protocol([Assistant(prose, []), User(pushback)], [])
  {
    var added := [Assistant(prose, []), User(pushback)];
    var none: seq<TraceEntry> := [];
    assert added[1..][1..] == [] && none[..0] == [] && none[0..] == [];
    assert Protocol(added[1..], none);
    assert AnswersInOrder([], added[1..1], none[..0]);
  }

  lemma ToolsAnswerInOrder(oracle: Oracle, bounds: AgentBounds, iteration: nat, calls: seq<ToolCall>)
    ensures AnswersInOrder(calls, Results(oracle, bounds, iteration, calls), Entries(oracle, bounds, iteration, calls))
  {
    var results, entries := Results(oracle, bounds, iteration, calls), Entries(oracle, bounds, iteration, calls);
    forall k | 0 <= k < |calls|
      ensures results[k].ToolResult? && results[k].toolCallId == calls[k].id
      ensures entries[k].tool == calls[k].name && entries[k].arguments == calls[k].arguments
      ensures entries[k].resultChars == |results[k].content|
    {
      var reply := oracle.toolbox(iteration, k);
      assert results[k] == ToolResult(calls[k].id, ResultText(reply, bounds.toolResultMaxChars));
      assert entries[k] == Entry(iteration, calls[k], reply, bounds.toolResultMaxChars);
    }
  }

  /** What lets the loop go on: the one pushback, or a request for tools it can afford. */
  lemma HowTheLoopGoesOn(s: State, next: State, oracle: Oracle, bounds: AgentBounds, iteration: nat)
    requires Follows(s, next, oracle, bounds, iteration)
    ensures oracle.model(iteration).Replied?
    ensures var turn := oracle.model(iteration).turn;
            && next.tokensUsed == Charge(s, turn.tokensUsed).tokensUsed
            && next.usageKnown == Charge(s, turn.tokensUsed).usageKnown
            && !OverBudget(next, bounds)
            && (if turn.toolCalls == [] then
                  && !ReadSomething(s.trace) && !s.nudged && next.nudged && next.trace == s.trace
                  && next.messages == s.messages + [Assistant(turn.content, []), User(oracle.pushback)]
                else
                  && next.nudged == s.nudged
                  && next.trace == s.trace + Entries(oracle, bounds, iteration, turn.toolCalls)
                  && next.messages == s.messages + [Assistant(turn.content, turn.toolCalls)]
                                      + Results(oracle, bounds, iteration, turn.toolCalls))
  {
  }

  /** What a turn that lets the loop go on appends: one whole exchange. */
  lemma TurnAppendsAnExchange(s: State, next: State, oracle: Oracle, bounds: AgentBounds, iteration: nat)
    returns (added: seq<ChatMessage>, entries: seq<TraceEntry>)
    requires Follows(s, next, oracle, bounds, iteration)
    ensures next.messages == s.messages + added && next.trace == s.trace + entries
    ensures added != [] && Protocol(added, entries)
  {
    HowTheLoopGoesOn(s, next, oracle, bounds, iteration);
    var turn := oracle.model(iteration).turn;
    if turn.toolCalls == [] {
      added, entries := [Assistant(turn.content, []), User(oracle.pushback)], [];
      PushbackIsProtocol(turn.content, oracle.pushback);
    } else {
      var results := Results(oracle, bounds, iteration, turn.toolCalls);
      entries := Entries(oracle, bounds, iteration, turn.toolCalls);
      added := [Assistant(turn.content, turn.toolCalls)] + results;
      ToolsAnswerInOrder(oracle, bounds, iteration, turn.toolCalls);
      ExchangeIsProtocol(turn.content, turn.toolCalls, results, entries);
      ConcatAssociates(s.messages, [Assistant(turn.content, turn.toolCalls)], results);
    }
  }

  lemma TailOfConcat<T>(a: seq<T>, b: seq<T>, n: nat)
    requires n <= |a|
    ensures (a + b)[n..] == a[n..] + b
  {
  }

  lemma StrictlyLonger<T>(a: seq<T>, b: seq<T>)
    requires b != []
    ensures a < a + b
  {
  }

  lemma AppendKeepsProtocol(s: State, next: State, added: seq<ChatMessage>, entries: seq<TraceEntry>)
    requires WellFormed(s) && Protocol(added, entries)
    requires next.messages == s.messages + added && next.trace == s.trace + entries
    ensures WellFormed(next)
  {
    ProtocolConcat(s.messages[2..], s.trace, added, entries);
    TailOfConcat(s.messages, added, 2);
  }

  lemma TurnKeepsProtocol(s: State, next: State, oracle: Oracle, bounds: AgentBounds, iteration: nat)
    requires WellFormed(s) && Follows(s, next, oracle, bounds, iteration)
    ensures WellFormed(next) && s.messages < next.messages && s.trace <= next.trace
  {
    var added, entries := TurnAppendsAnExchange(s, next, oracle, bounds, iteration);
    AppendKeepsProtocol(s, next, added, entries);
    StrictlyLonger(s.messages, added);
  }

  /** Every message list ever handed to the model keeps the protocol, and replays the one before it verbatim. */
  lemma {:induction false} EveryListIsWellFormed(states: seq<State>, oracle: Oracle, bounds: AgentBounds,
                                                 question: string, i: nat)
    requires Chain(states, oracle, bounds, question) && i < |states|
    ensures WellFormed(states[i])
    ensures i > 0 ==> states[i - 1].messages < states[i].messages && states[i - 1].trace <= states[i].trace
  {
    if i == 0 {
      assert states[0].messages[2..] == [];
    } else {
      EveryListIsWellFormed(states, oracle, bounds, question, i - 1);
      TurnKeepsProtocol(states[i - 1], states[i], oracle, bounds, i);
    }
  }

  // ----- spending

  /** What the model reported over its first `turns` turns: the true sum, when every turn reported. */
  function Reported(oracle: Oracle, turns: nat): Option<nat> {
    if turns == 0 then Some(0)
    else
      var before := Reported(oracle, turns - 1);
      var reply := oracle.model(turns);
      if before.Some? && reply.Replied? && reply.turn.tokensUsed.Some?
      then Some(before.value + reply.turn.tokensUsed.value) else None
  }

  /** The recorded total after some turns: nothing before the first or once tainted, else the sum, in a `u64`. */
  function Recorded(oracle: Oracle, turns: nat): Option<nat> {
    var sum := Reported(oracle, turns);
    if turns == 0 || sum.None? then None else Some(sum.value % U64)
  }

  lemma AddWraps(sum: nat, spent: nat)
    ensures (sum % U64 + spent) % U64 == (sum + spent) % U64
  {
    assert sum + spent == U64 * (sum / U64) + (sum % U64 + spent);
  }

  lemma ChargeRecords(s: State, oracle: Oracle, turns: nat)
    requires oracle.model(turns + 1).Replied?
    requires s.tokensUsed == Recorded(oracle, turns) && s.usageKnown == Reported(oracle, turns).Some?
    ensures var charged := Charge(s, oracle.model(turns + 1).turn.tokensUsed);
            charged.tokensUsed == Recorded(oracle, turns + 1)
            && charged.usageKnown == Reported(oracle, turns + 1).Some?
  {
    if Reported(oracle, turns).Some? && oracle.model(turns + 1).turn.tokensUsed.Some? {
      AddWraps(Reported(oracle, turns).value, oracle.model(turns + 1).turn.tokensUsed.value);
    }
  }

  /**
   Every model call after the first, and every tool run before it, happens with a recorded
   spend below the budget or with none known; and the record is exact.
   */
  lemma {:induction false} SpendingIsBounded(states: seq<State>, oracle: Oracle, bounds: AgentBounds,
                                             question: string, i: nat)
    requires Chain(states, oracle, bounds, question) && i < |states|
    ensures states[i].tokensUsed == Recorded(oracle, i)
    ensures states[i].usageKnown == Reported(oracle, i).Some?
    ensures i > 0 ==> !OverBudget(states[i], bounds) && oracle.model(i).Replied?
  {
    if i > 0 {
      SpendingIsBounded(states, oracle, bounds, question, i - 1);
      HowTheLoopGoesOn(states[i - 1], states[i], oracle, bounds, i);
      ChargeRecords(states[i - 1], oracle, i - 1);
    }
  }

  /** Turns of the model a finished run paid for, counting one that failed. */
  function ModelCalls(states: seq<State>, bounds: AgentBounds): nat {
    if |states| <= bounds.maxIterations then |states| else bounds.maxIterations
  }

  /** How the last turn of a stopped run reports its spend. */
  lemma StopReports(s: State, oracle: Oracle, bounds: AgentBounds, iteration: nat, result: Result)
    requires TakeTurn(s, oracle, bounds, iteration) == Stop(result)
    ensures result.Err? <==> oracle.model(iteration).ProviderError? && iteration <= 1
    ensures result.Ok? ==>
      if oracle.model(iteration).ProviderError? then
        result.answer.iterations == iteration - 1 && result.answer.tokensUsed == None
      else
        result.answer.iterations == iteration
        && result.answer.tokensUsed == Charge(s, oracle.model(iteration).turn.tokensUsed).tokensUsed
  {
  }

  /**
   The bill: never more than `max_iterations` model calls; a failed first call is the only
   error; a run no provider call failed in reports exactly the recorded total of its calls.
   */
  lemma RunReportsItsSpend(states: seq<State>, result: Result, oracle: Oracle, bounds: AgentBounds, question: string)
    requires IsRun(states, result, oracle, bounds, question)
    ensures var calls := ModelCalls(states, bounds);
            var failed := calls > 0 && oracle.model(calls).ProviderError?;
            && calls <= bounds.maxIterations
            && (result.Err? <==> failed && calls == 1)
            && (result.Ok? ==> result.answer.iterations == if failed then calls - 1 else calls)
            && (result.Ok? ==> result.answer.tokensUsed == if failed then None else Recorded(oracle, calls))
  {
    var last := |states| - 1;
    SpendingIsBounded(states, oracle, bounds, question, last);
    if |states| <= bounds.maxIterations {
      StopReports(states[last], oracle, bounds, |states|, result);
      if oracle.model(|states|).Replied? {
        ChargeRecords(states[last], oracle, last);
      }
    }
  }

  /** The record is the true sum exactly while that sum fits a `u64`. */
  lemma RecordedIsExact(oracle: Oracle, turns: nat)
    ensures Recorded(oracle, turns).Some? <==> turns > 0 && Reported(oracle, turns).Some?
    ensures turns > 0 && Reported(oracle, turns).Some? ==>
              (Recorded(oracle, turns) == Reported(oracle, turns) <==> Reported(oracle, turns).value < U64)
  {
  }

  // ----- results and references

  /** A result is the tool's own text, whole or its first `max` characters with the notice. */
  lemma TruncateBounds(text: string, max: nat)
    ensures |Truncate(text, max)| <= max + |Notice(max)|
    ensures |text| <= max ==> Truncate(text, max) == text
    ensures |text| > max ==> Truncate(text, max)[..max] == text[..max] && Truncate(text, max)[max..] == Notice(max)
  {
  }

  /** The references kept are, in order, exactly those that occur in what the model saw. */
  lemma {:induction false} SurvivingAreVisible(references: seq<string>, content: string)
    ensures forall r :: r in Surviving(references, content) <==> r in references && Contains(content, r)
    ensures multiset(Surviving(references, content)) <= multiset(references)
  {
    if references != [] {
      SurvivingAreVisible(references[1..], content);
      assert references == [references[0]] + references[1..];
    }
  }

  lemma Occurs(text: string, part: string, at: nat)
    requires at + |part| <= |text| && text[at..at + |part|] == part
    ensures Contains(text, part)
  {
    assert text[at..][..|part|] == part;
  }

  lemma OccursAt(text: string, part: string) returns (at: nat)
    requires Contains(text, part)
    ensures at + |part| <= |text| && text[at..at + |part|] == part
  {
    at := Find(text, part).value;
    assert text[at..][..|part|] == text[at..at + |part|];
  }

  /** An occurrence that begins in `a` and ends in `b`. */
  ghost predicate Straddles(a: string, b: string, part: string) {
    exists k :: 0 < k < |part| && k <= |a| && |part| - k <= |b|
                && part[..k] == a[|a| - k..] && part[k..] == b[..|part| - k]
  }

  lemma OccursInConcat(a: string, b: string, part: string, at: nat)
    requires at + |part| <= |a + b| && (a + b)[at..at + |part|] == part
    ensures Contains(a, part) || Contains(b, part) || Straddles(a, b, part)
  {
    if at + |part| <= |a| {
      assert a[at..at + |part|] == (a + b)[at..at + |part|];
      Occurs(a, part, at);
    } else if |a| <= at {
      assert b[at - |a|..at - |a| + |part|] == (a + b)[at..at + |part|];
      Occurs(b, part, at - |a|);
    } else {
      var k := |a| - at;
      assert part[..k] == a[at..] && part[k..] == b[..|part| - k];
    }
  }

  lemma AcrossTheSeam<T>(a: seq<T>, b: seq<T>, x: nat, y: nat)
    requires x <= |a| && y <= |b|
    ensures (a + b)[|a| - x..|a| + y] == a[|a| - x..] + b[..y]
  {
    var s, t := (a + b)[|a| - x..|a| + y], a[|a| - x..] + b[..y];
    assert |s| == |t|;
    assert forall i :: 0 <= i < |s| ==> s[i] == t[i];
  }

  lemma StraddlingOccurs(a: string, b: string, part: string)
    requires Straddles(a, b, part)
    ensures Contains(a + b, part)
  {
    var k :| 0 < k < |part| && k <= |a| && |part| - k <= |b|
             && part[..k] == a[|a| - k..] && part[k..] == b[..|part| - k];
    AcrossTheSeam(a, b, k, |part| - k);
    assert part == part[..k] + part[k..];
    Occurs(a + b, part, |a| - k);
  }

  lemma OccursOnEitherSide(a: string, b: string, part: string)
    requires Contains(a, part) || Contains(b, part)
    ensures Contains(a + b, part)
  {
    if Contains(a, part) {
      var at := OccursAt(a, part);
      assert (a + b)[at..at + |part|] == a[at..at + |part|];
      Occurs(a + b, part, at);
    } else {
      var at := OccursAt(b, part);
      assert (a + b)[|a| + at..|a| + at + |part|] == b[at..at + |part|];
      Occurs(a + b, part, |a| + at);
    }
  }

  /** Text put together of two pieces contains what one of them does, or what straddles the seam. */
  lemma ContainsConcat(a: string, b: string, part: string)
    ensures Contains(a + b, part) <==> Contains(a, part) || Contains(b, part) || Straddles(a, b, part)
  {
    if Contains(a + b, part) {
      var at := OccursAt(a + b, part);
      OccursInConcat(a, b, part, at);
    } else if Contains(a, part) || Contains(b, part) {
      OccursOnEitherSide(a, b, part);
    } else if Straddles(a, b, part) {
      StraddlingOccurs(a, b, part);
    }
  }

  /** The notice opens with a line break, so only a reference holding one can straddle it. */
  lemma OnlyLineBreaksStraddle(kept: string, max: nat, part: string)
    requires '\n' !in part
    ensures !Straddles(kept, Notice(max), part)
  {
    forall k | 0 < k < |part| && k <= |kept| && |part| - k <= |Notice(max)|
      ensures part[k..] != Notice(max)[..|part| - k]
    {
      assert part[k..][0] == part[k];
      assert Notice(max)[..|part| - k][0] == Notice(max)[0] == '\n';
    }
  }

  /**
   A reference survives the truncation of a result exactly when it occurs in the characters
   kept, or in the notice itself, or across the seam between them.
   */
  lemma SurvivesTruncationExactlyWhen(text: string, max: nat, reference: string)
    requires |text| > max
    ensures Contains(Truncate(text, max), reference)
            <==> Contains(text[..max], reference) || Contains(Notice(max), reference)
                 || Straddles(text[..max], Notice(max), reference)
    ensures '\n' !in reference ==> !Straddles(text[..max], Notice(max), reference)
  {
    ContainsConcat(text[..max], Notice(max), reference);
    if '\n' !in reference {
      OnlyLineBreaksStraddle(text[..max], max, reference);
    }
  }

  /**
   So of the references cut away with a result, the trace entry reports exactly those on one
   line that occur in the notice, and those that run on from the text kept into it.
   */
  lemma CutAwayReferencesReported(iteration: nat, call: ToolCall, reply: ToolReply, max: nat, reference: string)
    requires reply.Outcome? && |reply.content| > max && reference in reply.references
    requires !Contains(reply.content[..max], reference)
    ensures reference in Entry(iteration, call, reply, max).references
            <==> Contains(Notice(max), reference) || Straddles(reply.content[..max], Notice(max), reference)
    ensures '\n' !in reference ==>
              (reference in Entry(iteration, call, reply, max).references <==> Contains(Notice(max), reference))
  {
    SurvivingAreVisible(reply.references, Truncate(reply.content, max));
    SurvivesTruncationExactlyWhen(reply.content, max, reference);
  }

  lemma NoticeHoldsItsWord(max: nat)
    ensures Contains(Notice(max), CUT)
  {
    assert Notice(max)[3..3 + |CUT|] == CUT;
    Occurs(Notice(max), CUT, 3);
  }

  lemma TooShortToContain(text: string, part: string)
    requires |text| < |part|
    ensures !Contains(text, part)
  {
  }

  /** That does happen: a result cut to its first character still reports the reference cut away with it. */
  lemma NoticeVouchesForItsOwnWords(iteration: nat, call: ToolCall, first: char)
    ensures var text := [first] + CUT;
            Contains(text, CUT) && !Contains(text[..1], CUT)
            && CUT in Entry(iteration, call, Outcome(text, true, [CUT]), 1).references
  {
    var text := [first] + CUT;
    assert text[1..1 + |CUT|] == CUT && |text[..1]| == 1;
    Occurs(text, CUT, 1);
    TooShortToContain(text[..1], CUT);
    NoticeHoldsItsWord(1);
    CutAwayReferencesReported(iteration, call, Outcome(text, true, [CUT]), 1, CUT);
  }
}
