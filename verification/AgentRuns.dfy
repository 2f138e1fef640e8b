/**
 Whole runs of the agent loop, told from outside: what the model and the toolbox said decides
 every message, every trace entry, whether the answer is grounded, and how the run ends.
 */
module AgentRuns {
  import opened Text
  import opened Decimal
  import opened Agent

  // ----- every message and trace entry

  /** Tool calls the model asked for in its first `turns` turns: the length of the trace after them. */
  function CallsBy(oracle: Oracle, turns: nat): nat {
    if turns == 0 then 0
    else CallsBy(oracle, turns - 1) + |CallsOf(oracle.model(turns))|
  }

  function CallsOf(reply: Reply): seq<ToolCall> { if reply.Replied? then reply.turn.toolCalls else [] }

  /** Messages by then: the opening pair, then each turn's prose and pushback, or its calls and results. */
  function MessagesBy(oracle: Oracle, turns: nat): nat {
    if turns == 0 then 2
    else
      var calls := |CallsOf(oracle.model(turns))|;
      MessagesBy(oracle, turns - 1) + 1 + if calls == 0 then 1 else calls
  }

  ghost predicate Occurring(text: string, part: string) {
    exists at: nat :: OccursHere(text, part, at)
  }

  predicate OccursHere(text: string, part: string, at: nat) {
    at + |part| <= |text| && text[at..at + |part|] == part
  }

  /** The text the model is shown of a tool's reply. */
  ghost predicate IsShown(text: string, reply: ToolReply, max: nat) {
    match reply
    case ToolError(error) => text == "ERROR: " + error
    case Outcome(content, _, _) =>
      if |content| <= max then text == content
      else text == content[..max] + "\n…[truncated at " + Render(max) + " characters]"
  }

  /** A string that occurs in `text`. */
  ghost function OccurringIn(text: string): string -> Option<string> {
    (part: string) => if Occurring(text, part) then Some(part) else None
  }

  /** `kept` is `all` without the strings that do not occur in `text`, in the same order. */
  ghost predicate KeepsOccurring(kept: seq<string>, all: seq<string>, text: string) {
    exists at :: ArePicked(at, kept, OccurringIn(text), all)
  }

  /** The message and the trace entry a call leaves, given what the toolbox replied to it. */
  ghost predicate IsReported(message: ChatMessage, entry: TraceEntry, call: ToolCall, reply: ToolReply,
                             iteration: nat, max: nat) {
    && message.ToolResult? && message.toolCallId == call.id && IsShown(message.content, reply, max)
    && entry.iteration == iteration && entry.tool == call.name && entry.arguments == call.arguments
    && entry.resultChars == |message.content|
    && match reply
       case ToolError(_) => entry.failed && !entry.evidence && entry.references == []
       case Outcome(_, evidence, references) =>
         !entry.failed && entry.evidence == evidence && KeepsOccurring(entry.references, references, message.content)
  }

  /** What turn `i` left: its messages from `m` on and its trace entries from `t` on. */
  ghost predicate TurnAt(s: State, m: nat, t: nat, oracle: Oracle, max: nat, i: nat) {
    && oracle.model(i).Replied?
    && var turn := oracle.model(i).turn;
       var calls := turn.toolCalls;
       && m + 1 < |s.messages| && m + |calls| < |s.messages| && t + |calls| <= |s.trace|
       && s.messages[m] == Assistant(turn.content, calls)
       && (calls == [] ==> s.messages[m + 1] == User(oracle.pushback))
       && forall k :: 0 <= k < |calls| ==>
            IsReported(s.messages[m + 1 + k], s.trace[t + k], calls[k], oracle.toolbox(i, k), i, max)
  }

  /** What turn `i` left, where the turns before it put it. */
  ghost predicate TurnIn(s: State, oracle: Oracle, max: nat, i: nat) {
    i > 0 && TurnAt(s, MessagesBy(oracle, i - 1), CallsBy(oracle, i - 1), oracle, max, i)
  }

  lemma OccurringIsContained(text: string, part: string)
    ensures Occurring(text, part) <==> Contains(text, part)
  {
    if Contains(text, part) {
      var at := OccursAt(text, part);
      assert OccursHere(text, part, at);
    } else if Occurring(text, part) {
      var at: nat :| OccursHere(text, part, at);
      Occurs(text, part, at);
    }
  }

  lemma {:induction false} SurvivingConcat(a: seq<string>, b: seq<string>, text: string)
    ensures Surviving(a + b, text) == Surviving(a, text) + Surviving(b, text)
  {
    if a == [] {
      assert a + b == b;
    } else {
      assert (a + b)[1..] == a[1..] + b;
      SurvivingConcat(a[1..], b, text);
    }
  }

  lemma SurvivingOne(reference: string, text: string)
    ensures Surviving([reference], text) == if Occurring(text, reference) then [reference] else []
  {
    assert [reference][1..] == [];
    OccurringIsContained(text, reference);
  }

  lemma {:induction false} SurvivingKeeps(references: seq<string>, text: string) returns (at: seq<nat>)
    ensures ArePicked(at, Surviving(references, text), OccurringIn(text), references)
  {
    if references == [] {
      at := [];
    } else {
      var front, last := references[..|references| - 1], references[|references| - 1];
      assert front + [last] == references;
      at := SurvivingKeeps(front, text);
      SurvivingConcat(front, [last], text);
      SurvivingOne(last, text);
      at := PickedAppend(at, Surviving(front, text), OccurringIn(text), front, last);
    }
  }

  lemma ResultIsShown(reply: ToolReply, max: nat)
    ensures IsShown(ResultText(reply, max), reply, max)
  {
  }

  lemma CallIsReported(oracle: Oracle, bounds: AgentBounds, i: nat, calls: seq<ToolCall>, k: nat)
    requires k < |calls|
    ensures IsReported(Results(oracle, bounds, i, calls)[k], Entries(oracle, bounds, i, calls)[k], calls[k],
                       oracle.toolbox(i, k), i, bounds.toolResultMaxChars)
  {
    var reply, max := oracle.toolbox(i, k), bounds.toolResultMaxChars;
    ResultIsShown(reply, max);
    if reply.Outcome? {
      var at := SurvivingKeeps(reply.references, ResultText(reply, max));
    }
  }

  lemma TurnIsReported(s: State, next: State, oracle: Oracle, bounds: AgentBounds, i: nat)
    requires i > 0 && Follows(s, next, oracle, bounds, i)
    requires |s.messages| == MessagesBy(oracle, i - 1) && |s.trace| == CallsBy(oracle, i - 1)
    ensures |next.messages| == MessagesBy(oracle, i) && |next.trace| == CallsBy(oracle, i)
    ensures TurnIn(next, oracle, bounds.toolResultMaxChars, i)
  {
    HowTheLoopGoesOn(s, next, oracle, bounds, i);
    var calls := oracle.model(i).turn.toolCalls;
    forall k | 0 <= k < |calls|
      ensures IsReported(next.messages[|s.messages| + 1 + k], next.trace[|s.trace| + k], calls[k],
                         oracle.toolbox(i, k), i, bounds.toolResultMaxChars)
    {
      CallIsReported(oracle, bounds, i, calls, k);
    }
  }

  lemma ReportsStay(s: State, next: State, oracle: Oracle, max: nat, i: nat)
    requires TurnIn(s, oracle, max, i) && s.messages <= next.messages && s.trace <= next.trace
    ensures TurnIn(next, oracle, max, i)
  {
  }

  /**
   Every list the model is ever handed, message by message, and the trace beside it, entry by
   entry: the prompt and the question, then for each turn taken what the model said and what
   the toolbox replied to each of its calls, or the pushback.
   */
  lemma {:induction false} EveryListIsWhatWasSaid(states: seq<State>, oracle: Oracle, bounds: AgentBounds,
                                                  question: string, n: nat)
    requires Chain(states, oracle, bounds, question) && n < |states|
    ensures |states[n].messages| == MessagesBy(oracle, n) >= 2 && |states[n].trace| == CallsBy(oracle, n)
    ensures states[n].messages[0] == System(oracle.systemPrompt) && states[n].messages[1] == User(question)
    ensures forall i :: 1 <= i <= n ==> TurnIn(states[n], oracle, bounds.toolResultMaxChars, i)
  {
    if n > 0 {
      EveryListIsWhatWasSaid(states, oracle, bounds, question, n - 1);
      TurnIsReported(states[n - 1], states[n], oracle, bounds, n);
      EveryListIsWellFormed(states, oracle, bounds, question, n);
      forall i | 1 <= i < n ensures TurnIn(states[n], oracle, bounds.toolResultMaxChars, i) {
        ReportsStay(states[n - 1], states[n], oracle, bounds.toolResultMaxChars, i);
      }
    }
  }

  // ----- what was read, and how a run ends

  /** The toolbox answered call `k` of turn `i` with material from the index. */
  predicate EvidenceAt(oracle: Oracle, i: nat, k: nat) {
    && oracle.model(i).Replied? && k < |oracle.model(i).turn.toolCalls|
    && oracle.toolbox(i, k).Outcome? && oracle.toolbox(i, k).evidence
  }

  /** Some call before turn `n` was answered so. */
  ghost predicate SomethingRead(oracle: Oracle, n: nat) {
    exists i, k :: 1 <= i < n && EvidenceAt(oracle, i, k)
  }

  /** Turn `i` asked for no tools. */
  predicate ProseAt(oracle: Oracle, i: nat) { oracle.model(i).Replied? && oracle.model(i).turn.toolCalls == [] }

  ghost predicate ProseBefore(oracle: Oracle, n: nat) { exists i :: 1 <= i < n && ProseAt(oracle, i) }

  lemma ReadConcat(a: seq<TraceEntry>, b: seq<TraceEntry>)
    ensures ReadSomething(a + b) <==> ReadSomething(a) || ReadSomething(b)
  {
    if ReadSomething(a) {
      var j :| 0 <= j < |a| && a[j].evidence;
      assert (a + b)[j].evidence;
    }
    if ReadSomething(b) {
      var j :| 0 <= j < |b| && b[j].evidence;
      assert (a + b)[|a| + j].evidence;
    }
  }

  ghost predicate ReadIn(oracle: Oracle, i: nat) { exists k :: EvidenceAt(oracle, i, k) }

  lemma EntriesCarryEvidence(oracle: Oracle, bounds: AgentBounds, i: nat)
    requires oracle.model(i).Replied?
    ensures ReadSomething(Entries(oracle, bounds, i, oracle.model(i).turn.toolCalls)) <==> ReadIn(oracle, i)
  {
    var calls := oracle.model(i).turn.toolCalls;
    var entries := Entries(oracle, bounds, i, calls);
    forall k | 0 <= k < |calls| ensures entries[k].evidence <==> EvidenceAt(oracle, i, k) {
      CallIsReported(oracle, bounds, i, calls, k);
    }
  }

  lemma ReadByTurn(oracle: Oracle, n: nat)
    ensures SomethingRead(oracle, n + 1) <==> SomethingRead(oracle, n) || (n > 0 && ReadIn(oracle, n))
  {
  }

  lemma {:induction false} ReadIsEvidence(states: seq<State>, oracle: Oracle, bounds: AgentBounds, question: string,
                                          n: nat)
    requires Chain(states, oracle, bounds, question) && n < |states|
    ensures ReadSomething(states[n].trace) <==> SomethingRead(oracle, n + 1)
  {
    ReadByTurn(oracle, n);
    if n > 0 {
      ReadIsEvidence(states, oracle, bounds, question, n - 1);
      HowTheLoopGoesOn(states[n - 1], states[n], oracle, bounds, n);
      EntriesCarryEvidence(oracle, bounds, n);
      ReadConcat(states[n - 1].trace, Entries(oracle, bounds, n, oracle.model(n).turn.toolCalls));
    }
  }

  lemma {:induction false} NudgedIsProse(states: seq<State>, oracle: Oracle, bounds: AgentBounds, question: string,
                                         n: nat)
    requires Chain(states, oracle, bounds, question) && n < |states|
    ensures states[n].nudged <==> ProseBefore(oracle, n + 1)
  {
    if n > 0 {
      NudgedIsProse(states, oracle, bounds, question, n - 1);
      HowTheLoopGoesOn(states[n - 1], states[n], oracle, bounds, n);
      if ProseAt(oracle, n) {
        assert ProseBefore(oracle, n + 1);
      }
    }
  }

  /** The tokens reported by the end of turn `n` are known and reach the budget. */
  predicate BudgetGone(oracle: Oracle, bounds: AgentBounds, n: nat) {
    Recorded(oracle, n).Some? && Recorded(oracle, n).value >= bounds.tokenBudget
  }

  /** A text of white space only, or none. */
  predicate SaysNothing(content: Option<string>) {
    content.None? || forall c :: c in content.value ==> IsWhitespace(c)
  }

  /** Why the loop goes on after turn `i`: tools within the budget, or the first prose of a run that read nothing. */
  ghost predicate GoesOnAfter(oracle: Oracle, bounds: AgentBounds, i: nat) {
    && oracle.model(i).Replied? && !BudgetGone(oracle, bounds, i)
    && (ProseAt(oracle, i) ==> !SomethingRead(oracle, i) && !ProseBefore(oracle, i))
  }

  /** How turn `n` ends the loop: the spend then known, and whether it is blank, anything was read, or pushed back. */
  predicate EndsSo(result: Result, trace: seq<TraceEntry>, reply: Reply, n: nat, spent: Option<nat>, blank: bool,
                   read: bool, pushedBack: bool)
    requires n > 0
  {
    match reply
    case ProviderError(error) =>
      if n == 1 then result == Err(error)
      else result == Ok(AgentAnswer(None, Some(error), trace, n - 1, None, ProviderFailure, false))
    case Replied(turn) =>
      if turn.toolCalls != [] then
        result == Ok(AgentAnswer(None, None, trace, n, spent, TokenBudget, false))
      else if !read && !pushedBack then
        result == Ok(AgentAnswer(turn.content, None, trace, n, spent, TokenBudget, false))
      else if blank then
        var failure := "the chat provider returned no answer text";
        result == Ok(AgentAnswer(None, Some(failure), trace, n, spent, ProviderFailure, false))
      else
        result == Ok(AgentAnswer(turn.content, None, trace, n, spent, Answered, read))
  }

  /** How the loop ends with turn `n`, where it does not go on. */
  ghost predicate EndsWith(result: Result, trace: seq<TraceEntry>, oracle: Oracle, n: nat)
    requires n > 0
  {
    var (reply, spent) := (oracle.model(n), Recorded(oracle, n));
    var blank := reply.Replied? && SaysNothing(reply.turn.content);
    EndsSo(result, trace, reply, n, spent, blank, SomethingRead(oracle, n), ProseBefore(oracle, n))
  }

  predicate HasNoAnswer(content: Option<string>) { content.None? || IsBlank(content.value) }

  lemma NoAnswerSaysNothing(content: Option<string>)
    ensures HasNoAnswer(content) <==> SaysNothing(content)
  {
    if content.Some? {
      TrimsToNothing(content.value);
    }
  }

  lemma TurnEnds(s: State, oracle: Oracle, bounds: AgentBounds, n: nat, turn: ChatTurn, result: Result)
    requires n > 0 && oracle.model(n) == Replied(turn) && TakeTurn(s, oracle, bounds, n) == Stop(result)
    ensures var (spent, blank) := (Charge(s, turn.tokensUsed).tokensUsed, HasNoAnswer(turn.content));
            EndsSo(result, s.trace, Replied(turn), n, spent, blank, ReadSomething(s.trace), s.nudged)
    ensures OverBudget(Charge(s, turn.tokensUsed), bounds)
            || (turn.toolCalls == [] && (ReadSomething(s.trace) || s.nudged))
  {
  }

  lemma ErrorEnds(s: State, oracle: Oracle, bounds: AgentBounds, n: nat, result: Result)
    requires n > 0 && oracle.model(n).ProviderError? && TakeTurn(s, oracle, bounds, n) == Stop(result)
    ensures !GoesOnAfter(oracle, bounds, n) && EndsWith(result, s.trace, oracle, n)
  {
  }

  lemma SpendIsRecorded(charged: State, oracle: Oracle, bounds: AgentBounds, n: nat)
    requires charged.tokensUsed == Recorded(oracle, n)
    ensures OverBudget(charged, bounds) <==> BudgetGone(oracle, bounds, n)
  {
  }

  lemma ReplyEnds(s: State, charged: State, oracle: Oracle, bounds: AgentBounds, n: nat, result: Result)
    requires n > 0 && oracle.model(n).Replied? && TakeTurn(s, oracle, bounds, n) == Stop(result)
    requires charged == Charge(s, oracle.model(n).turn.tokensUsed) && charged.tokensUsed == Recorded(oracle, n)
    requires ReadSomething(s.trace) == SomethingRead(oracle, n) && s.nudged == ProseBefore(oracle, n)
    ensures !GoesOnAfter(oracle, bounds, n) && EndsWith(result, s.trace, oracle, n)
  {
    TurnEnds(s, oracle, bounds, n, oracle.model(n).turn, result);
    NoAnswerSaysNothing(oracle.model(n).turn.content);
    SpendIsRecorded(charged, oracle, bounds, n);
  }

  lemma EndIsDecided(s: State, oracle: Oracle, bounds: AgentBounds, n: nat, result: Result)
    requires n > 0 && TakeTurn(s, oracle, bounds, n) == Stop(result)
    requires s.tokensUsed == Recorded(oracle, n - 1) && s.usageKnown == Reported(oracle, n - 1).Some?
    requires ReadSomething(s.trace) == SomethingRead(oracle, n) && s.nudged == ProseBefore(oracle, n)
    ensures !GoesOnAfter(oracle, bounds, n) && EndsWith(result, s.trace, oracle, n)
  {
    if oracle.model(n).ProviderError? {
      ErrorEnds(s, oracle, bounds, n, result);
    } else {
      ChargeRecords(s, oracle, n - 1);
      ReplyEnds(s, Charge(s, oracle.model(n).turn.tokensUsed), oracle, bounds, n, result);
    }
  }

  lemma NextIsDecided(s: State, next: State, oracle: Oracle, bounds: AgentBounds, n: nat)
    requires n > 0 && Follows(s, next, oracle, bounds, n)
    requires s.tokensUsed == Recorded(oracle, n - 1) && s.usageKnown == Reported(oracle, n - 1).Some?
    requires ReadSomething(s.trace) <==> SomethingRead(oracle, n)
    requires s.nudged <==> ProseBefore(oracle, n)
    ensures GoesOnAfter(oracle, bounds, n)
  {
    HowTheLoopGoesOn(s, next, oracle, bounds, n);
    ChargeRecords(s, oracle, n - 1);
  }

  lemma StateIsDecided(states: seq<State>, oracle: Oracle, bounds: AgentBounds, question: string, n: nat)
    requires Chain(states, oracle, bounds, question) && n < |states|
    ensures states[n].tokensUsed == Recorded(oracle, n) && states[n].usageKnown == Reported(oracle, n).Some?
    ensures ReadSomething(states[n].trace) <==> SomethingRead(oracle, n + 1)
    ensures states[n].nudged <==> ProseBefore(oracle, n + 1)
  {
    SpendingIsBounded(states, oracle, bounds, question, n);
    ReadIsEvidence(states, oracle, bounds, question, n);
    NudgedIsProse(states, oracle, bounds, question, n);
  }

  /**
   How every run goes and ends, by what the model and the toolbox said alone: it goes on after
   exactly the turns that let it, ends with the first that does not, or with its turns used up.
   */
  lemma RunEndsAsSaid(states: seq<State>, result: Result, oracle: Oracle, bounds: AgentBounds, question: string)
    requires IsRun(states, result, oracle, bounds, question)
    ensures forall i :: 1 <= i < |states| ==> GoesOnAfter(oracle, bounds, i)
    ensures var (n, trace) := (|states|, states[|states| - 1].trace);
            if n <= bounds.maxIterations then
              !GoesOnAfter(oracle, bounds, n) && EndsWith(result, trace, oracle, n)
            else
              && n == bounds.maxIterations + 1
              && result == Ok(AgentAnswer(None, None, trace, n - 1, Recorded(oracle, n - 1), MaxIterations, false))
  {
    forall i | 1 <= i < |states| ensures GoesOnAfter(oracle, bounds, i) {
      StateIsDecided(states, oracle, bounds, question, i - 1);
      assert Follows(states[i - 1], states[i], oracle, bounds, i);
      NextIsDecided(states[i - 1], states[i], oracle, bounds, i);
    }
    var n := |states|;
    StateIsDecided(states, oracle, bounds, question, n - 1);
    if n <= bounds.maxIterations {
      EndIsDecided(states[n - 1], oracle, bounds, n, result);
    }
  }

  // ----- grounding

  function Users(messages: seq<ChatMessage>): nat {
    if messages == [] then 0
    else Users(messages[..|messages| - 1]) + if messages[|messages| - 1].User? then 1 else 0
  }

  lemma {:induction false} UsersConcat(a: seq<ChatMessage>, b: seq<ChatMessage>)
    ensures Users(a + b) == Users(a) + Users(b)
  {
    if b == [] {
      assert a + b == a;
    } else {
      assert (a + b)[..|a + b| - 1] == a + b[..|b| - 1];
      UsersConcat(a, b[..|b| - 1]);
    }
  }

  lemma {:induction false} ResultsAreNotUsers(messages: seq<ChatMessage>)
    requires forall k :: 0 <= k < |messages| ==> messages[k].ToolResult?
    ensures Users(messages) == 0
  {
    if messages != [] {
      ResultsAreNotUsers(messages[..|messages| - 1]);
    }
  }

  /** The pushback is sent once, by the turn that sets `nudged`, and never unsent. */
  lemma TurnNudges(s: State, next: State, oracle: Oracle, bounds: AgentBounds, iteration: nat)
    requires Follows(s, next, oracle, bounds, iteration)
    ensures s.nudged ==> next.nudged
    ensures Users(next.messages) == Users(s.messages) + if next.nudged && !s.nudged then 1 else 0
    ensures next.nudged && !s.nudged ==> next.messages[|next.messages| - 1] == User(oracle.pushback)
  {
    HowTheLoopGoesOn(s, next, oracle, bounds, iteration);
    var turn := oracle.model(iteration).turn;
    if turn.toolCalls == [] {
      var asked := s.messages + [Assistant(turn.content, [])];
      assert next.messages == asked + [User(oracle.pushback)];
      assert next.messages[..|next.messages| - 1] == asked && asked[..|asked| - 1] == s.messages;
    } else {
      var results := Results(oracle, bounds, iteration, turn.toolCalls);
      var asked := s.messages + [Assistant(turn.content, turn.toolCalls)];
      assert asked[..|asked| - 1] == s.messages;
      ResultsAreNotUsers(results);
      UsersConcat(asked, results);
    }
  }

  lemma {:induction false} PushedBackAtMostOnce(states: seq<State>, oracle: Oracle, bounds: AgentBounds,
                                                question: string, i: nat)
    requires Chain(states, oracle, bounds, question) && i < |states|
    ensures Users(states[i].messages) == if states[i].nudged then 2 else 1
  {
    if i == 0 {
      var messages := states[0].messages;
      assert messages[..1] == [System(oracle.systemPrompt)] && messages[..1][..0] == [];
      assert Users(messages[..1]) == 0;
      assert messages[..|messages| - 1] == messages[..1];
    } else {
      PushedBackAtMostOnce(states, oracle, bounds, question, i - 1);
      TurnNudges(states[i - 1], states[i], oracle, bounds, i);
    }
  }

  /** What any run's answer may claim, given its trace, whether anything was read and whether it was pushed back. */
  ghost predicate Honest(a: AgentAnswer, trace: seq<TraceEntry>, read: bool, nudged: bool) {
    && a.trace == trace
    && (a.grounded <==> a.stopped == Answered && read)
    && (a.stopped == Answered ==> !SaysNothing(a.answer) && a.failure.None?)
    && (a.stopped == Answered && !a.grounded ==> nudged)
    && (a.stopped == ProviderFailure ==> a.answer.None? && a.failure.Some?)
  }

  /**
   An answer is real prose; it is called grounded exactly when the toolbox answered some call of
   the run with evidence; and an ungrounded one was published only after the one pushback.
   */
  lemma AnswersAreHonest(states: seq<State>, result: Result, oracle: Oracle, bounds: AgentBounds, question: string)
    requires IsRun(states, result, oracle, bounds, question) && result.Ok?
    ensures var (a, last) := (result.answer, states[|states| - 1]);
            && Honest(a, last.trace, SomethingRead(oracle, |states|), Users(last.messages) == 2)
            && (a.stopped == MaxIterations <==> |states| == bounds.maxIterations + 1)
  {
    PushedBackAtMostOnce(states, oracle, bounds, question, |states| - 1);
    NudgedIsProse(states, oracle, bounds, question, |states| - 1);
    RunEndsAsSaid(states, result, oracle, bounds, question);
  }
}
