/** `PiRpcClient`: prompts written one at a time to a child process whose `agent_end` lines
    carry no request id. Each handler of the class is one step of a state machine, and the
    lemmas speak of every interleaving of those steps. */
module PiRpcClient {
  import opened Options

  /** What a caller of `prompt` gets; prompts are numbered by call, from 1. */
  datatype Outcome = Waiting | Resolved(text: string) | Rejected(reason: string)

  datatype PendingPrompt = PendingPrompt(id: nat, responseReceived: bool)

  /** The promise `this.sequence`: fulfilled so far, running a prompt, or rejected for good. */
  datatype Sequence = Idle | Running | Broken(reason: string)

  /** A line of the child's stdout, as parsed. `about` says which prompt an `agent_end` answers;
      the line does not carry it and no handler reads it. */
  datatype Line =
    | Junk
    | Response(id: int, success: bool, error: string)
    | AgentEnd(about: nat, extracted: Result<string, string>)

  datatype Client = Client(
    closed: bool,
    pending: Option<PendingPrompt>,
    requestCount: nat,
    sequence: Sequence,
    messages: seq<string>,
    started: nat,
    outcomes: seq<Outcome>,
    written: seq<(nat, string)>)

  const Fresh := Client(false, None, 0, Idle, [], 0, [], [])

  // ----- the steps

  /** The promise of prompt `id` settles, unless it has, and with it the sequence. */
  function Settle(c: Client, id: nat, outcome: Outcome): Client {
    if 0 < id <= |c.outcomes| && c.outcomes[id - 1] == Waiting && c.sequence == Running && id == c.started then
      c.(outcomes := c.outcomes[id - 1 := outcome],
         sequence := if outcome.Rejected? then Broken(outcome.reason) else Idle)
    else c
  }

  function SettlePending(c: Client, outcome: Outcome): Client {
    match c.pending
    case None => c
    case Some(p) => Settle(c.(pending := None), p.id, outcome)
  }

  function Called(c: Client, message: string): Client {
    c.(messages := c.messages + [message], outcomes := c.outcomes + [Waiting])
  }

  /** The next link of the sequence, once the one before has settled. */
  function Linked(c: Client): Client {
    if c.started >= |c.outcomes| || c.started >= |c.messages| || c.sequence == Running then c
    else if c.sequence.Broken? then
      c.(started := c.started + 1, outcomes := c.outcomes[c.started := Rejected(c.sequence.reason)])
    else if c.closed then
      c.(started := c.started + 1, outcomes := c.outcomes[c.started := Rejected("pi process unavailable")],
         sequence := Broken("pi process unavailable"))
    else
      c.(started := c.started + 1, requestCount := c.requestCount + 1, sequence := Running,
         pending := Some(PendingPrompt(c.requestCount + 1, false)),
         written := c.written + [(c.requestCount + 1, c.messages[c.started])])
  }

  function Heard(c: Client, line: Line): Client {
    if c.pending.None? then c
    else match line
      case Junk => c
      case Response(id, success, error) =>
        if id != c.pending.value.id then c
        else if !success then SettlePending(c, Rejected(error))
        else c.(pending := Some(c.pending.value.(responseReceived := true)))
      case AgentEnd(_, extracted) =>
        SettlePending(c, if extracted.Ok? then Resolved(extracted.value) else Rejected(extracted.error))
  }

  function TimedOut(c: Client, id: nat): Client {
    if c.pending.Some? && c.pending.value.id == id then
      SettlePending(c, Rejected("timed out")).(closed := true)
    else c
  }

  function WriteFailed(c: Client, id: nat, reason: string): Client {
    if c.pending.Some? && c.pending.value.id == id then SettlePending(c, Rejected(reason))
    else Settle(c, id, Rejected(reason))
  }

  // ----- the class

  class RpcClient {
    var closed: bool
    var pending: Option<PendingPrompt>
    var requestCount: nat
    var sequence: Sequence
    /** The messages of the calls made so far, and how many of their links have run. */
    var messages: seq<string>
    var started: nat
    /** The promises handed out, and what was written to stdin. */
    var outcomes: seq<Outcome>
    var written: seq<(nat, string)>

    ghost function State(): Client
      reads this
    {
      Client(closed, pending, requestCount, sequence, messages, started, outcomes, written)
    }

    constructor ()
      ensures State() == Fresh
    {
      closed, pending, requestCount, sequence := false, None, 0, Idle;
      messages, started, outcomes, written := [], 0, [], [];
    }

    method Prompt(message: string)
      modifies this
      ensures State() == Called(old(State()), message)
    {
      messages := messages + [message];
      outcomes := outcomes + [Waiting];
    }

    method RunLink()
      modifies this
      ensures State() == Linked(old(State()))
    {
      if started >= |outcomes| || started >= |messages| || sequence == Running {
        return;
      }
      if sequence.Broken? {
        outcomes := outcomes[started := Rejected(sequence.reason)];
        started := started + 1;
        return;
      }
      if closed {
        outcomes := outcomes[started := Rejected("pi process unavailable")];
        sequence := Broken("pi process unavailable");
        started := started + 1;
        return;
      }
      requestCount := requestCount + 1;
      var id := requestCount;
      pending := Some(PendingPrompt(id, false));
      sequence := Running;
      written := written + [(id, messages[started])];
      started := started + 1;
    }

    method Finish(id: nat, outcome: Outcome)
      modifies this
      ensures State() == Settle(old(State()), id, outcome)
    {
      if 0 < id <= |outcomes| && outcomes[id - 1] == Waiting && sequence == Running && id == started {
        outcomes := outcomes[id - 1 := outcome];
        sequence := if outcome.Rejected? then Broken(outcome.reason) else Idle;
      }
    }

    method RejectPending(reason: string)
      modifies this
      ensures State() == SettlePending(old(State()), Rejected(reason))
    {
      var was := pending;
      pending := None;
      if was.Some? {
        Finish(was.value.id, Rejected(reason));
      }
    }

    method HandleStdoutLine(line: Line)
      modifies this
      ensures State() == Heard(old(State()), line)
    {
      if pending.None? {
        return;
      }
      var was := pending.value;
      match line {
        case Junk =>
        case Response(id, success, error) =>
          if id != was.id {
            return;
          }
          if !success {
            pending := None;
            Finish(was.id, Rejected(error));
            return;
          }
          pending := Some(was.(responseReceived := true));
        case AgentEnd(_, extracted) =>
          pending := None;
          match extracted {
            case Ok(text) => Finish(was.id, Resolved(text));
            case Err(error) => Finish(was.id, Rejected(error));
          }
      }
    }

    method OnTimeout(id: nat)
      modifies this
      ensures State() == TimedOut(old(State()), id)
    {
      if pending.Some? && pending.value.id == id {
        pending := None;
        Close();
        Finish(id, Rejected("timed out"));
      }
    }

    method OnWriteError(id: nat, reason: string)
      modifies this
      ensures State() == WriteFailed(old(State()), id, reason)
    {
      if pending.Some? && pending.value.id == id {
        pending := None;
      }
      Finish(id, Rejected(reason));
    }

    method OnProcessClose()
      modifies this
      ensures State() == SettlePending(old(State()).(closed := true), Rejected("pi process closed"))
    {
      closed := true;
      RejectPending("pi process closed");
    }

    method Close()
      modifies this
      ensures State() == old(State()).(closed := true)
    {
      closed := true;
    }
  }

  // ----- the client, the pipe from the child, and their interleavings

  /** `emitted` is the last prompt the child has sent an `agent_end` for. */
  datatype System = System(client: Client, pipe: seq<Line>, emitted: nat)

  const Start := System(Fresh, [], 0)

  datatype Event =
    | Call(message: string)
    | Microtask
    | Emit(line: Line)
    | Deliver
    | Timeout(timer: nat)
    | WriteError(request: nat, failure: string)
    | ProcessError(error: string)
    | ProcessClose
    | CloseClient

  function Step(s: System, e: Event): System {
    match e
    case Call(message) => s.(client := Called(s.client, message))
    case Microtask => s.(client := Linked(s.client))
    case Emit(line) => s.(pipe := s.pipe + [line], emitted := if line.AgentEnd? then line.about else s.emitted)
    case Deliver =>
      if s.pipe == [] then s else s.(client := Heard(s.client, s.pipe[0]), pipe := s.pipe[1..])
    case Timeout(id) => s.(client := TimedOut(s.client, id))
    case WriteError(id, reason) => s.(client := WriteFailed(s.client, id, reason))
    case ProcessError(reason) => s.(client := SettlePending(s.client, Rejected(reason)))
    case ProcessClose => s.(client := SettlePending(s.client.(closed := true), Rejected("pi process closed")))
    case CloseClient => s.(client := s.client.(closed := true))
  }

  function Run(s: System, events: seq<Event>): System
    decreases events
  {
    if events == [] then s else Run(Step(s, events[0]), events[1..])
  }

  /** What holds between any two steps. A prompt is being answered exactly while it is pending;
      it is the newest one written, all before it are resolved, and prompts go out in call order. */
  ghost predicate Orderly(c: Client) {
    && |c.messages| == |c.outcomes| && c.requestCount <= c.started <= |c.outcomes|
    && |c.written| == c.requestCount
    && (forall i :: 0 <= i < |c.written| ==> c.written[i] == (i + 1, c.messages[i]))
    && (c.pending.Some? <==> c.sequence == Running)
    && (c.pending.Some? ==>
          c.pending.value.id == c.requestCount == c.started > 0 && c.outcomes[c.started - 1] == Waiting)
    && (c.sequence == Idle ==> c.started == c.requestCount)
    && (forall i :: 0 <= i < |c.outcomes| ==>
          (c.outcomes[i] == Waiting <==> i >= c.started || (c.sequence == Running && i == c.started - 1)))
    && (forall i :: 0 <= i < |c.outcomes| && c.outcomes[i].Resolved? ==> i < c.requestCount)
    && ((exists i :: 0 <= i < |c.outcomes| && c.outcomes[i].Rejected?) ==> c.sequence.Broken?)
    && (forall i, j :: 0 <= i < j < |c.outcomes| && c.outcomes[i].Rejected? ==> !c.outcomes[j].Resolved?)
  }

  lemma {:induction false} StepOrderly(s: System, e: Event)
    requires Orderly(s.client)
    ensures Orderly(Step(s, e).client)
  {
    var c := s.client;
    match e {
      case Call(message) => CalledOrderly(c, message);
      case Microtask => LinkedOrderly(c);
      case Emit(_) =>
      case Deliver => if s.pipe != [] { HeardOrderly(c, s.pipe[0]); }
      case Timeout(id) => SettleOrderly(c, Rejected("timed out"));
      case WriteError(id, reason) => SettleOrderly(c, Rejected(reason));
      case ProcessError(reason) => SettleOrderly(c, Rejected(reason));
      case ProcessClose => SettleOrderly(c.(closed := true), Rejected("pi process closed"));
      case CloseClient =>
    }
  }

  lemma {:induction false} CalledOrderly(c: Client, message: string)
    requires Orderly(c)
    ensures Orderly(Called(c, message))
  {
  }

  lemma {:induction false} LinkedOrderly(c: Client)
    requires Orderly(c)
    ensures Orderly(Linked(c))
  {
  }

  lemma {:induction false} SettleOrderly(c: Client, outcome: Outcome)
    requires Orderly(c) && !outcome.Waiting?
    ensures Orderly(SettlePending(c, outcome)) && Orderly(SettlePending(c, outcome).(closed := true))
  {
  }

  lemma {:induction false} HeardOrderly(c: Client, line: Line)
    requires Orderly(c)
    ensures Orderly(Heard(c, line))
  {
    if line.AgentEnd? {
      SettleOrderly(c, if line.extracted.Ok? then Resolved(line.extracted.value) else Rejected(line.extracted.error));
    } else if line.Response? {
      SettleOrderly(c, Rejected(line.error));
    }
  }

  // ----- fail-stop

  /** Once the sequence is broken nothing is written and nothing more resolves. */
  ghost predicate Stopped(c: Client, d: Client) {
    && d.sequence.Broken? && d.written == c.written && |c.outcomes| <= |d.outcomes|
    && (forall i :: 0 <= i < |d.outcomes| && d.outcomes[i].Resolved? ==>
          i < |c.outcomes| && c.outcomes[i] == d.outcomes[i])
  }

  lemma {:induction false} StepStopped(s: System, e: Event)
    requires Orderly(s.client) && s.client.sequence.Broken?
    ensures Stopped(s.client, Step(s, e).client)
  {
  }

  /** After the first rejected prompt, whatever happens next, nothing is written and no further
      prompt resolves. */
  lemma {:induction false} FailStop(s: System, events: seq<Event>)
    requires Orderly(s.client) && exists i :: 0 <= i < |s.client.outcomes| && s.client.outcomes[i].Rejected?
    ensures Stopped(s.client, Run(s, events).client)
    decreases events
  {
    if events != [] {
      var t := Step(s, events[0]);
      StepOrderly(s, events[0]);
      StepStopped(s, events[0]);
      StillRejected(s, events[0]);
      FailStop(t, events[1..]);
    }
  }

  lemma {:induction false} StillRejected(s: System, e: Event)
    requires Orderly(s.client) && exists i :: 0 <= i < |s.client.outcomes| && s.client.outcomes[i].Rejected?
    ensures var t := Step(s, e); exists i :: 0 <= i < |t.client.outcomes| && t.client.outcomes[i].Rejected?
  {
    var i :| 0 <= i < |s.client.outcomes| && s.client.outcomes[i].Rejected?;
    assert Step(s, e).client.outcomes[i].Rejected?;
  }

  /** All prompts written before the newest are resolved. */
  ghost predicate NewestLast(c: Client) {
    && Orderly(c)
    && forall i :: 0 <= i && i + 1 < c.requestCount ==> c.outcomes[i].Resolved?
  }

  lemma {:induction false} StepNewestLast(s: System, e: Event)
    requires NewestLast(s.client)
    ensures NewestLast(Step(s, e).client)
  {
    StepOrderly(s, e);
  }

  lemma {:induction false} WrittenBehindNewest(s: System, events: seq<Event>)
    requires NewestLast(s.client)
    ensures NewestLast(Run(s, events).client)
    decreases events
  {
    if events != [] {
      StepNewestLast(s, events[0]);
      WrittenBehindNewest(Step(s, events[0]), events[1..]);
    }
  }

  /** Over every interleaving: at most one prompt is pending, prompts go out in call order with their
      own messages, and each one only after every earlier one has resolved. */
  lemma {:induction false} OneAtATime(events: seq<Event>)
    ensures NewestLast(Run(Start, events).client)
  {
    WrittenBehindNewest(Start, events);
  }

  // ----- correlation without ids

  /** What the client relies on: the child sends an `agent_end` only for a prompt it was given,
      at most one for each, in order. `answers` is what it says for each prompt. */
  ghost predicate Behaves(s: System, e: Event, answers: nat -> Result<string, string>) {
    e.Emit? && e.line.AgentEnd? ==>
      s.emitted < e.line.about <= s.client.requestCount && e.line.extracted == answers(e.line.about)
  }

  ghost predicate AlwaysBehaves(s: System, events: seq<Event>, answers: nat -> Result<string, string>)
    decreases events
  {
    events == [] || (Behaves(s, events[0], answers) && AlwaysBehaves(Step(s, events[0]), events[1..], answers))
  }

  /** How many prompts have their answer, while the sequence is unbroken. */
  ghost function Answered(c: Client): nat
    requires Orderly(c)
  {
    if c.sequence == Running then c.requestCount - 1 else c.requestCount
  }

  ghost predicate Correlated(s: System, answers: nat -> Result<string, string>) {
    && Orderly(s.client)
    && s.emitted <= s.client.requestCount
    && (forall i :: 0 <= i < |s.pipe| && s.pipe[i].AgentEnd? ==>
          s.pipe[i].about <= s.emitted && s.pipe[i].extracted == answers(s.pipe[i].about))
    && (forall i, j :: 0 <= i < j < |s.pipe| && s.pipe[i].AgentEnd? && s.pipe[j].AgentEnd? ==>
          s.pipe[i].about < s.pipe[j].about)
    && (!s.client.sequence.Broken? ==>
          && Answered(s.client) <= s.emitted
          && forall i :: 0 <= i < |s.pipe| && s.pipe[i].AgentEnd? ==> Answered(s.client) < s.pipe[i].about)
    && (forall i :: 0 <= i < |s.client.outcomes| && s.client.outcomes[i].Resolved? ==>
          answers(i + 1) == Ok(s.client.outcomes[i].text))
  }

  lemma {:induction false} StepCorrelated(s: System, e: Event, answers: nat -> Result<string, string>)
    requires Correlated(s, answers) && Behaves(s, e, answers)
    ensures Correlated(Step(s, e), answers)
  {
    StepOrderly(s, e);
    if e.Deliver? {
      if s.pipe != [] {
        DeliverCorrelated(s, answers);
      }
    } else if e.Emit? {
      EmitCorrelated(s, e.line, answers);
    }
  }

  lemma {:induction false} EmitCorrelated(s: System, line: Line, answers: nat -> Result<string, string>)
    requires Correlated(s, answers) && Behaves(s, Emit(line), answers)
    ensures Correlated(Step(s, Emit(line)), answers)
  {
  }

  lemma {:induction false} DeliverCorrelated(s: System, answers: nat -> Result<string, string>)
    requires Correlated(s, answers) && s.pipe != [] && Orderly(Step(s, Deliver).client)
    ensures Correlated(Step(s, Deliver), answers)
  {
    var t := Step(s, Deliver);
    assert forall i :: 0 <= i < |t.pipe| ==> t.pipe[i] == s.pipe[i + 1];
  }

  lemma {:induction false} RunCorrelated(s: System, events: seq<Event>, answers: nat -> Result<string, string>)
    requires Correlated(s, answers) && AlwaysBehaves(s, events, answers)
    ensures Correlated(Run(s, events), answers)
    decreases events
  {
    if events != [] {
      StepCorrelated(s, events[0], answers);
      RunCorrelated(Step(s, events[0]), events[1..], answers);
    }
  }

  /** Over every interleaving with a well-behaved child, each resolved prompt has its own answer. */
  lemma {:induction false} OwnAnswer(events: seq<Event>, answers: nat -> Result<string, string>, call: nat)
    requires AlwaysBehaves(Start, events, answers)
    requires 0 < call <= |Run(Start, events).client.outcomes| && Run(Start, events).client.outcomes[call - 1].Resolved?
    ensures answers(call) == Ok(Run(Start, events).client.outcomes[call - 1].text)
  {
    RunCorrelated(Start, events, answers);
  }

  /** Whatever a child had to say that behaved well over these events, the client has it right. */
  ghost predicate OwnAnswers(events: seq<Event>, c: Client) {
    forall answers: nat -> Result<string, string>, call: nat ::
      AlwaysBehaves(Start, events, answers) && 0 < call <= |c.outcomes| && c.outcomes[call - 1].Resolved?
      ==> answers(call) == Ok(c.outcomes[call - 1].text)
  }

  lemma {:induction false} EveryOwnAnswer(events: seq<Event>)
    ensures OwnAnswers(events, Run(Start, events).client)
  {
    var c := Run(Start, events).client;
    forall answers: nat -> Result<string, string>, call: nat
      | AlwaysBehaves(Start, events, answers) && 0 < call <= |c.outcomes| && c.outcomes[call - 1].Resolved?
      ensures answers(call) == Ok(c.outcomes[call - 1].text)
    {
      OwnAnswer(events, answers, call);
    }
  }

  // ----- the assumption is needed

  /** While the sequence is unbroken, the last `agent_end` sent is the last one heard or in the pipe. */
  ghost predicate EndsAccounted(s: System)
    requires Orderly(s.client)
  {
    !s.client.sequence.Broken? ==> s.emitted == Answered(s.client) || Coming(s.pipe, s.emitted)
  }

  ghost predicate Coming(pipe: seq<Line>, about: nat) {
    exists i :: 0 <= i < |pipe| && pipe[i].AgentEnd? && pipe[i].about == about
  }

  lemma {:induction false} ComingAfter(pipe: seq<Line>, line: Line, about: nat)
    ensures Coming(pipe + [line], about) <==> Coming(pipe, about) || (line.AgentEnd? && line.about == about)
    ensures Coming([line] + pipe, about) <==> Coming(pipe, about) || (line.AgentEnd? && line.about == about)
  {
    assert (pipe + [line])[|pipe|] == line && ([line] + pipe)[0] == line;
    if i :| 0 <= i < |pipe| && pipe[i].AgentEnd? && pipe[i].about == about {
      assert (pipe + [line])[i] == pipe[i] && ([line] + pipe)[i + 1] == pipe[i];
    }
  }

  lemma {:induction false} StepAccounted(s: System, e: Event, answers: nat -> Result<string, string>)
    requires Correlated(s, answers) && EndsAccounted(s) && Behaves(s, e, answers)
    ensures Correlated(Step(s, e), answers) && EndsAccounted(Step(s, e))
  {
    StepCorrelated(s, e, answers);
    if e.Emit? {
      ComingAfter(s.pipe, e.line, Step(s, e).emitted);
    } else if e.Deliver? && s.pipe != [] {
      assert s.pipe == [s.pipe[0]] + s.pipe[1..];
      ComingAfter(s.pipe[1..], s.pipe[0], s.emitted);
    }
  }

  lemma {:induction false} RunAccounted(s: System, events: seq<Event>, answers: nat -> Result<string, string>)
    requires Correlated(s, answers) && EndsAccounted(s) && AlwaysBehaves(s, events, answers)
    ensures Correlated(Run(s, events), answers) && EndsAccounted(Run(s, events))
    decreases events
  {
    if events != [] {
      StepAccounted(s, events[0], answers);
      RunAccounted(Step(s, events[0]), events[1..], answers);
    }
  }

  /** All that is in the pipe, delivered. */
  function Deliveries(n: nat): seq<Event> {
    if n == 0 then [] else [Deliver] + Deliveries(n - 1)
  }

  function Drained(s: System): System {
    Run(s, Deliveries(|s.pipe|))
  }

  lemma {:induction false} DrainedAccounted(s: System, answers: nat -> Result<string, string>)
    requires Correlated(s, answers) && EndsAccounted(s)
    ensures var t := Drained(s);
      && Correlated(t, answers) && t.pipe == [] && t.emitted == s.emitted
      && (!t.client.sequence.Broken? ==> t.emitted == Answered(t.client))
    decreases |s.pipe|
  {
    if s.pipe != [] {
      StepAccounted(s, Deliver, answers);
      DrainedAccounted(Step(s, Deliver), answers);
      FirstDelivery(s);
    }
  }

  lemma {:induction false} FirstDelivery(s: System)
    requires s.pipe != []
    ensures Drained(s) == Drained(Step(s, Deliver))
  {
    var rest := Deliveries(|s.pipe| - 1);
    assert ([Deliver] + rest)[1..] == rest;
  }

  /** What is sent now waits behind what is in the pipe already. */
  lemma {:induction false} DeliveredBehind(s: System, line: Line)
    ensures var t := Run(Step(s, Emit(line)), Deliveries(|s.pipe|));
      t.client == Drained(s).client && t.pipe == [line]
    decreases |s.pipe|
  {
    if s.pipe == [] {
      assert s.pipe + [line] == [line];
    } else {
      var rest := Deliveries(|s.pipe| - 1);
      assert ([Deliver] + rest)[1..] == rest;
      assert (s.pipe + [line])[1..] == s.pipe[1..] + [line] && (s.pipe + [line])[0] == s.pipe[0];
      var next := Step(Step(s, Emit(line)), Deliver);
      assert Step(Step(s, Deliver), Emit(line)) == next.(emitted := Step(Step(s, Deliver), Emit(line)).emitted);
      FirstDelivery(s);
      DeliveredBehind(Step(s, Deliver), line);
    }
  }

  lemma {:induction false} RunOn(s: System, events: seq<Event>, more: seq<Event>)
    ensures Run(s, events + more) == Run(Run(s, events), more)
    decreases events
  {
    if events == [] {
      assert events + more == more;
    } else {
      assert (events + more)[1..] == events[1..] + more && (events + more)[0] == events[0];
      RunOn(Step(s, events[0]), events[1..], more);
    }
  }

  /** The client can still resolve a prompt: the one being answered, or the next. */
  predicate Live(c: Client) {
    c.sequence == Running || (c.sequence == Idle && !c.closed)
  }

  function NextToResolve(c: Client): nat {
    if c.sequence == Running then c.requestCount else c.requestCount + 1
  }

  /** A live client resolves that prompt with the first `agent_end` that comes. */
  lemma {:induction false} ResolvesWith(t: System, about: nat, text: string, message: string)
    requires Orderly(t.client) && Live(t.client) && t.pipe == [AgentEnd(about, Ok(text))]
    ensures var u := Run(t, [Call(message), Microtask, Deliver]).client;
      var p := NextToResolve(t.client);
      0 < p <= |u.outcomes| && u.outcomes[p - 1] == Resolved(text)
  {
    var t1 := Step(t, Call(message));
    CalledOrderly(t.client, message);
    var t2 := Step(t1, Microtask);
    LinkedOrderly(t1.client);
    assert t2.client.pending.Some? && t2.client.requestCount == NextToResolve(t.client);
    RunThree(t, Call(message), Microtask, Deliver);
  }

  lemma {:induction false} RunThree(s: System, a: Event, b: Event, c: Event)
    ensures Run(s, [a, b, c]) == Step(Step(Step(s, a), b), c)
  {
    assert [a, b, c][1..] == [b, c] && [b, c][1..] == [c] && [c][1..] == [];
    assert Run(Step(Step(s, a), b), [c]) == Run(Step(Step(Step(s, a), b), c), []);
    assert Run(Step(s, a), [b, c]) == Run(Step(Step(s, a), b), [c]);
  }

  /** Prompt `p` resolved with a line meant for another prompt, or with a text that is not its answer. */
  ghost predicate Misled(c: Client, p: nat, about: nat, text: string, answers: nat -> Result<string, string>) {
    && 0 < p <= |c.outcomes| && c.outcomes[p - 1] == Resolved(text)
    && (about != p || answers(p) != Ok(text))
  }

  /** In every state the run of a well-behaved child can reach, and unless the client can resolve nothing
      more once it has heard what is in the pipe: an `agent_end` against the assumption leads to a prompt
      resolved with what is not its own, unless the line foretells the answer of the very next prompt.
      A second line for an old prompt always goes to a later one. */
  lemma {:induction false} StrayEndMisattributed(
    events: seq<Event>, answers: nat -> Result<string, string>, about: nat, text: string, message: string)
    returns (more: seq<Event>)
    requires AlwaysBehaves(Start, events, answers)
    requires Live(Drained(Run(Start, events)).client)
    requires !Behaves(Run(Start, events), Emit(AgentEnd(about, Ok(text))), answers)
    ensures var s := Run(Start, events);
      var c := Drained(s).client;
      var end := Run(s, [Emit(AgentEnd(about, Ok(text)))] + more).client;
      && (about <= s.emitted ==> about < NextToResolve(c))
      && (Misled(end, NextToResolve(c), about, text, answers)
          || (c.sequence == Idle && about == c.requestCount + 1 && answers(about) == Ok(text)))
  {
    var s, line := Run(Start, events), AgentEnd(about, Ok(text));
    RunAccounted(Start, events, answers);
    DrainedAccounted(s, answers);
    var last := [Call(message), Microtask, Deliver];
    more := Deliveries(|s.pipe|) + last;
    DeliveredBehind(s, line);
    ResolvesWith(Run(Step(s, Emit(line)), Deliveries(|s.pipe|)), about, text, message);
    SentBehind(s, line, last);
    DrainedCount(s);
    StrayEndIsWrong(s, Drained(s), answers, about, text);
  }

  lemma {:induction false} SentBehind(s: System, line: Line, last: seq<Event>)
    ensures Run(s, [Emit(line)] + (Deliveries(|s.pipe|) + last))
         == Run(Run(Step(s, Emit(line)), Deliveries(|s.pipe|)), last)
  {
    var more := Deliveries(|s.pipe|) + last;
    assert ([Emit(line)] + more)[1..] == more;
    RunOn(Step(s, Emit(line)), Deliveries(|s.pipe|), last);
  }

  lemma {:induction false} StrayEndIsWrong(
    s: System, t: System, answers: nat -> Result<string, string>, about: nat, text: string)
    requires Correlated(t, answers) && Live(t.client) && t.emitted == Answered(t.client)
    requires t.emitted == s.emitted && t.client.requestCount == s.client.requestCount
    requires !Behaves(s, Emit(AgentEnd(about, Ok(text))), answers)
    ensures var p := NextToResolve(t.client);
      && (about <= s.emitted ==> about < p)
      && (about != p || answers(p) != Ok(text) || (t.client.sequence == Idle && about == t.client.requestCount + 1))
  {
  }

  /** Hearing what is in the pipe writes nothing. */
  lemma {:induction false} DrainedCount(s: System)
    ensures Drained(s).client.requestCount == s.client.requestCount
    decreases |s.pipe|
  {
    if s.pipe != [] {
      FirstDelivery(s);
      DrainedCount(Step(s, Deliver));
    }
  }

  // ----- the class runs the machine

  lemma {:induction false} RunNext(s: System, events: seq<Event>, i: nat)
    requires i < |events|
    ensures Run(s, events[..i + 1]) == Step(Run(s, events[..i]), events[i])
  {
    var e := events[i];
    assert events[..i + 1] == events[..i] + [e];
    RunOn(s, events[..i], [e]);
    assert [e][1..] == [];
  }

  /** One event: a call from outside, a settled promise, a line from the pipe, a timer or the process. */
  method Perform(client: RpcClient, pipe: seq<Line>, e: Event, ghost emitted: nat) returns (rest: seq<Line>)
    modifies client
    ensures var t := Step(System(old(client.State()), pipe, emitted), e);
      client.State() == t.client && rest == t.pipe
  {
    rest := pipe;
    match e {
      case Call(message) => client.Prompt(message);
      case Microtask => client.RunLink();
      case Emit(line) => rest := pipe + [line];
      case Deliver =>
        if pipe != [] {
          client.HandleStdoutLine(pipe[0]);
          rest := pipe[1..];
        }
      case Timeout(id) => client.OnTimeout(id);
      case WriteError(id, reason) => client.OnWriteError(id, reason);
      case ProcessError(reason) => client.RejectPending(reason);
      case ProcessClose => client.OnProcessClose();
      case CloseClient => client.Close();
    }
  }

  /** Any interleaving of events, performed on an `RpcClient`, takes it through the machine's states;
      so what is proved of every run of the machine holds of the class. */
  method PerformAll(events: seq<Event>) returns (client: RpcClient)
    ensures fresh(client) && client.State() == Run(Start, events).client
    ensures NewestLast(client.State()) && OwnAnswers(events, client.State())
  {
    client := new RpcClient();
    var pipe: seq<Line> := [];
    for i := 0 to |events|
      invariant fresh(client)
      invariant client.State() == Run(Start, events[..i]).client && pipe == Run(Start, events[..i]).pipe
    {
      RunNext(Start, events, i);
      pipe := Perform(client, pipe, events[i], Run(Start, events[..i]).emitted);
    }
    assert events[..|events|] == events;
    OneAtATime(events);
    EveryOwnAnswer(events);
  }
}
