/** What the handlers of `PiRpcClient` bring about: which event settles the prompt being answered and
    how, that answered prompts all resolve in turn, and that nobody is left waiting after the end. */
module PiRpcProgress {
  import opened Options
  import opened PiRpcClient

  /** The prompt being answered is the newest one written. */
  function Newest(c: Client): nat {
    |c.written|
  }

  /** How an event settles the prompt being answered, if it does: its own timer, its own refused `response`
      or failed write, whatever ends the process, and any `agent_end`. */
  function Settles(s: System, e: Event): Option<Outcome> {
    var p := Newest(s.client);
    if s.client.sequence != Running then None
    else match e
      case Timeout(id) => if id == p then Some(Rejected("timed out")) else None
      case WriteError(id, reason) => if id == p then Some(Rejected(reason)) else None
      case ProcessError(reason) => Some(Rejected(reason))
      case ProcessClose => Some(Rejected("pi process closed"))
      case Deliver =>
        if s.pipe == [] then None
        else (match s.pipe[0]
          case Response(id, success, error) => if id == p && !success then Some(Rejected(error)) else None
          case AgentEnd(_, Ok(text)) => Some(Resolved(text))
          case AgentEnd(_, Err(error)) => Some(Rejected(error))
          case Junk => None)
      case _ => None
  }

  /** The newest prompt has this outcome, and no other prompt is touched. */
  ghost predicate SettledAs(c: Client, d: Client, outcome: Outcome) {
    && Newest(c) > 0 && Newest(c) - 1 < |c.outcomes| && c.outcomes[Newest(c) - 1] == Waiting
    && d.outcomes == c.outcomes[Newest(c) - 1 := outcome]
    && d.pending == None
    && d.sequence == (match outcome case Rejected(reason) => Broken(reason) case _ => Idle)
  }

  ghost predicate LeftAlone(c: Client, d: Client) {
    && d.outcomes == c.outcomes && d.sequence == c.sequence
    && (d.pending.Some? <==> c.pending.Some?)
    && (d.pending.Some? ==> d.pending.value.id == c.pending.value.id)
  }

  ghost predicate NothingWritten(c: Client, d: Client) {
    d.written == c.written && d.messages == c.messages && d.started == c.started && d.requestCount == c.requestCount
  }

  /** Every event from outside but a call settles the newest prompt exactly as said, or nothing; and the
      client is closed by its own timer, by the end of the process and by `close`. */
  lemma {:induction false} EventSettles(s: System, e: Event)
    requires Orderly(s.client) && !e.Call? && !e.Microtask?
    ensures var c, d := s.client, Step(s, e).client;
      && NothingWritten(c, d)
      && (match Settles(s, e) case Some(outcome) => SettledAs(c, d, outcome) case None => LeftAlone(c, d))
      && (d.closed <==>
            c.closed || e.ProcessClose? || e.CloseClient? || (e.Timeout? && Settles(s, e).Some?))
  {
  }

  // ----- answered prompts resolve in turn

  function Calls(messages: seq<string>): (r: seq<Event>)
    ensures |r| == |messages| && forall i :: 0 <= i < |r| ==> r[i] == Call(messages[i])
  {
    seq(|messages|, i requires 0 <= i < |messages| => Call(messages[i]))
  }

  /** The link of a prompt runs, and the child answers it. */
  function Rounds(texts: seq<string>): seq<Event> {
    if texts == [] then []
    else
      var n := |texts| - 1;
      Rounds(texts[..n]) + [Microtask, Emit(AgentEnd(n + 1, Ok(texts[n]))), Deliver]
  }

  /** All messages are queued, and the first `k` prompts are answered. */
  ghost predicate InTurn(s: System, messages: seq<string>, texts: seq<string>) {
    var c, k := s.client, |texts|;
    && s.pipe == [] && !c.closed && c.pending == None && c.sequence == Idle
    && c.messages == messages && c.requestCount == k && c.started == k
    && |c.outcomes| == |messages| && |c.written| == k <= |messages|
    && (forall i :: 0 <= i < |messages| ==> c.outcomes[i] == if i < k then Resolved(texts[i]) else Waiting)
    && (forall i :: 0 <= i < k ==> c.written[i] == (i + 1, messages[i]))
  }

  /** Any number of calls, each answered after its prompt went out: all prompts are written, in order and with
      their messages, and each call resolves with its answer. */
  lemma {:induction false} AllAnswered(messages: seq<string>, texts: seq<string>)
    requires |texts| <= |messages|
    ensures InTurn(Run(Start, Calls(messages) + Rounds(texts)), messages, texts)
    decreases |texts|
  {
    if texts == [] {
      assert Calls(messages) + [] == Calls(messages);
      AllQueued(messages);
    } else {
      var n := |texts| - 1;
      AllAnswered(messages, texts[..n]);
      var before := Calls(messages) + Rounds(texts[..n]);
      var round := [Microtask, Emit(AgentEnd(n + 1, Ok(texts[n]))), Deliver];
      assert Calls(messages) + Rounds(texts) == before + round;
      RunOn(Start, before, round);
      OneRound(Run(Start, before), messages, texts);
    }
  }

  lemma {:induction false} AllQueued(messages: seq<string>)
    ensures InTurn(Run(Start, Calls(messages)), messages, [])
  {
    if messages != [] {
      var n := |messages| - 1;
      AllQueued(messages[..n]);
      assert Calls(messages) == Calls(messages[..n]) + [Call(messages[n])];
      RunOn(Start, Calls(messages[..n]), [Call(messages[n])]);
      assert [Call(messages[n])][1..] == [];
      assert messages == messages[..n] + [messages[n]];
    }
  }

  lemma {:induction false} OneRound(s: System, messages: seq<string>, texts: seq<string>)
    requires 0 < |texts| <= |messages| && InTurn(s, messages, texts[..|texts| - 1])
    ensures InTurn(
      Run(s, [Microtask, Emit(AgentEnd(|texts|, Ok(texts[|texts| - 1]))), Deliver]), messages, texts)
  {
    var line := AgentEnd(|texts|, Ok(texts[|texts| - 1]));
    RunThree(s, Microtask, Emit(line), Deliver);
    var t := Step(s, Microtask);
    var u := Step(t, Emit(line));
    assert u.pipe == [line];
  }

  // ----- after the end nobody waits

  function Links(n: nat): (r: seq<Event>)
    ensures |r| == n
  {
    if n == 0 then [] else [Microtask] + Links(n - 1)
  }

  /** What a call still queued is rejected with. */
  function LastReason(c: Client): string {
    match c.sequence
    case Broken(reason) => reason
    case _ => "pi process unavailable"
  }

  /** In a broken or closed client every link that runs rejects its call; nothing is written. */
  lemma {:induction false} RestRejected(s: System, n: nat)
    requires Orderly(s.client) && n == |s.client.outcomes| - s.client.started
    requires s.client.sequence.Broken? || (s.client.sequence == Idle && s.client.closed)
    ensures var c, d := s.client, Run(s, Links(n)).client;
      && d.written == c.written && |d.outcomes| == |c.outcomes|
      && forall i :: 0 <= i < |c.outcomes| ==>
           d.outcomes[i] == if i < c.started then c.outcomes[i] else Rejected(LastReason(c))
    decreases n
  {
    if n > 0 {
      var t := Step(s, Microtask);
      LinkedOrderly(s.client);
      assert Links(n)[1..] == Links(n - 1);
      RestRejected(t, n - 1);
    }
  }

  /** The end of the process rejects the prompt being answered, and every call that has none yet is rejected as
      its link runs: with the first rejection's reason, or because the client is closed. */
  lemma {:induction false} NobodyWaits(s: System)
    requires Orderly(s.client)
    ensures var c := s.client;
      var d := Run(s, [ProcessClose] + Links(|c.outcomes| - c.started)).client;
      var reason := if c.sequence == Running then "pi process closed" else LastReason(c);
      && d.written == c.written && |d.outcomes| == |c.outcomes|
      && forall i :: 0 <= i < |c.outcomes| ==>
           d.outcomes[i] == if c.outcomes[i] == Waiting then Rejected(reason) else c.outcomes[i]
  {
    var t := Step(s, ProcessClose);
    var n := |s.client.outcomes| - s.client.started;
    assert ([ProcessClose] + Links(n))[1..] == Links(n);
    StepOrderly(s, ProcessClose);
    RestRejected(t, n);
  }
}
