/** The agent loop and the verifier that later replays what it recorded. */
module AgentLoop {
  import opened Protocol
  import opened Responses
  import opened Host
  import opened Conversation

  datatype Maybe<+T> = Nothing | Just(value: T)

  datatype Event = Event(sequence: nat, tool: string, input: string, detail: string, result: Delivery, delivered: bool)

  /** One tool call against the world: it took effect, or the environment broke. */
  datatype Effect<+W> = Took(state: W, detail: string, result: Delivery) | Broken(error: Error)

  datatype View<+W> = View(before: W, after: Maybe<W>, events: seq<Event>, answer: Answer)

  /** A deterministic environment: its initial state, its step function and the grading of a view. */
  datatype World<!W(==)> = World(initial: W, step: (W, nat, string, string) -> Effect<W>, grade: View<W> -> Maybe<string>)

  datatype Status = Running | Completed | RunCanceled | TimedOut | OutOfBudget | HostFailed

  /** An empty failure code, or a code. */
  datatype Code = NoCode | Code(error: Error)

  datatype Episode<+W> = Episode(status: Status, code: Code, terminalCode: Code, cleanupCode: Code, usage: Usage,
                                 frontiers: seq<nat>, view: View<W>, evaluation: Maybe<string>)

  // ------------------------------------------------------------------------- failure codes

  predicate KnownCode(text: string)
  {
    text in {"LIVE_APPROVAL_EXPIRED_OR_NOT_YET_VALID", "LIVE_NOT_AUTHORIZED", "PROVIDER_STOPPED", "PROVIDER_REQUEST_REFUSED",
             "PROVIDER_ACCEPTANCE_UNKNOWN", "PROVIDER_HTTP_ERROR", "PROVIDER_RESPONSE_INVALID", "PROVIDER_RESPONSE_LIMIT",
             "PROVIDER_USAGE_INVALID"}
  }

  function CodeOf(e: Error): Error
  {
    match e
    case DeadlineExceeded => EpisodeTimeout
    case OtherError(text) => if KnownCode(text) then e else Infrastructure
    case _ => e
  }

  function StatusOf(e: Error): Status
  {
    match CodeOf(e)
    case Canceled => RunCanceled
    case EpisodeTimeout => TimedOut
    case BudgetExhausted => OutOfBudget
    case _ => HostFailed
  }

  /** The codes a report can show for an error, and the status that goes with each. */
  lemma CodesMean(e: Error)
    ensures (e in {Canceled, EpisodeTimeout, BudgetExhausted, ProtocolError, ProfileUnsupported, DataPolicyRejected, EpisodeStopped,
                   Infrastructure}) ==> CodeOf(e) == e
    ensures e == DeadlineExceeded ==> CodeOf(e) == EpisodeTimeout
    ensures e.OtherError? ==>
      CodeOf(e) == if e.text in {"LIVE_APPROVAL_EXPIRED_OR_NOT_YET_VALID", "LIVE_NOT_AUTHORIZED", "PROVIDER_STOPPED",
                                 "PROVIDER_REQUEST_REFUSED", "PROVIDER_ACCEPTANCE_UNKNOWN", "PROVIDER_HTTP_ERROR",
                                 "PROVIDER_RESPONSE_INVALID", "PROVIDER_RESPONSE_LIMIT", "PROVIDER_USAGE_INVALID"}
                   then e else Infrastructure
    ensures StatusOf(e) == RunCanceled <==> e == Canceled
    ensures StatusOf(e) == TimedOut <==> e == EpisodeTimeout || e == DeadlineExceeded
    ensures StatusOf(e) == OutOfBudget <==> e == BudgetExhausted
    ensures StatusOf(e) in {RunCanceled, TimedOut, OutOfBudget, HostFailed}
  {
  }

  // ---------------------------------------------------------------------- what a trace means

  function Perform<W(==)>(world: World<W>, w: W, n: nat, tool: string, input: string): Outcome<(W, Event)>
  {
    match world.step(w, n, tool, input)
    case Broken(e) => Failure(e)
    case Took(s, detail, result) => Success((s, Event(n, tool, input, detail, result, true)))
  }

  function MarkDelivered(e: Event): Event
  {
    e.(delivered := true)
  }

  function MarkAll(events: seq<Event>): seq<Event>
  {
    seq(|events|, i requires 0 <= i < |events| => MarkDelivered(events[i]))
  }

  /** The state the world reaches when it performs these events and produces them again, delivery aside. */
  function Trace<W(==)>(world: World<W>, events: seq<Event>): Maybe<W>
  {
    if events == [] then Just(world.initial)
    else
      var n := |events| - 1;
      var before := Trace(world, events[..n]);
      if before.Nothing? then Nothing
      else
        var got := Perform(world, before.value, n, events[n].tool, events[n].input);
        if got.Success? && got.value.1 == MarkDelivered(events[n]) then Just(got.value.0) else Nothing
  }

  lemma {:induction false} TraceIgnoresDelivery<W>(world: World<W>, events: seq<Event>)
    ensures Trace(world, MarkAll(events)) == Trace(world, events)
    decreases |events|
  {
    if events != [] {
      var n := |events| - 1;
      TraceIgnoresDelivery(world, events[..n]);
      assert MarkAll(events)[..n] == MarkAll(events[..n]);
    }
  }

  predicate AllDelivered(events: seq<Event>)
  {
    forall i :: 0 <= i < |events| ==> events[i].delivered
  }

  /** Request frontiers start at zero and never fall back or run ahead of the events. */
  predicate Frontiers(frontiers: seq<nat>, events: nat)
  {
    && (|frontiers| > 0 ==> frontiers[0] == 0)
    && (forall i, j :: 0 <= i < j < |frontiers| ==> frontiers[i] <= frontiers[j])
    && forall i :: 0 <= i < |frontiers| ==> frontiers[i] <= events
  }

  lemma FrontiersAppend(frontiers: seq<nat>, events: nat)
    requires Frontiers(frontiers, events) && (frontiers == [] ==> events == 0)
    ensures Frontiers(frontiers + [events], events)
  {
  }

  lemma FrontiersMore(frontiers: seq<nat>, events: nat)
    requires Frontiers(frontiers, events)
    ensures Frontiers(frontiers, events + 1)
  {
  }

  function LastOf(frontiers: seq<nat>): nat
  {
    if frontiers == [] then 0 else frontiers[|frontiers| - 1]
  }

  /** The accounting the verifier demands of a completed episode. */
  predicate Accounted<W>(ep: Episode<W>, b: Budgets)
  {
    && |ep.view.events| <= b.toolAttempts && ep.usage.toolAttempts == |ep.view.events|
    && ep.usage.modelRequests == |ep.frontiers| && 1 <= ep.usage.modelRequests <= b.modelRequests
    && 0 <= ep.usage.contentBytes <= b.traceBytes - RESERVED
    && Frontiers(ep.frontiers, |ep.view.events|) && LastOf(ep.frontiers) == |ep.view.events|
  }

  predicate Clean<W>(ep: Episode<W>)
  {
    ep.status == Completed && ep.code.NoCode? && ep.terminalCode.NoCode? && ep.cleanupCode.NoCode? && ep.evaluation.Just?
  }

  /** The recorded world is exactly what the deterministic world does. */
  predicate Replays<W(==)>(world: World<W>, ep: Episode<W>)
  {
    && ep.view.before == world.initial && AllDelivered(ep.view.events)
    && Trace(world, ep.view.events).Just? && ep.view.after == Trace(world, ep.view.events)
    && ep.evaluation == world.grade(ep.view)
  }

  // ------------------------------------------------------------------------- the loop

  /** How the loop ended, before the terminal inspection. */
  datatype Ending = Ongoing | Finished(answer: Answer) | Failed(error: Error)

  function ResultsOf(events: seq<Event>): (texts: seq<string>)
    ensures |texts| == |events|
  {
    seq(|events|, i requires 0 <= i < |events| => events[i].result.text)
  }

  function ResultBytes(events: seq<Event>): nat
  {
    if events == [] then 0 else ResultBytes(events[..|events| - 1]) + events[|events| - 1].result.size
  }

  lemma {:induction false} MarkAllKeepsResults(events: seq<Event>)
    ensures ResultsOf(MarkAll(events)) == ResultsOf(events) && ResultBytes(MarkAll(events)) == ResultBytes(events)
    decreases |events|
  {
    if events != [] {
      var n := |events| - 1;
      MarkAllKeepsResults(events[..n]);
      assert MarkAll(events)[..n] == MarkAll(events[..n]);
    }
  }

  /** The events are the first of these calls, with their tools and inputs. */
  predicate Carries(calls: seq<Call>, events: seq<Event>)
  {
    |events| <= |calls| && forall i :: 0 <= i < |events| ==> events[i].tool == calls[i].tool && events[i].input == calls[i].input
  }

  /** Each request went out when just the calls of the responses before it had been made. */
  predicate Marks(talk: seq<Raw>, frontiers: seq<nat>)
  {
    |talk| <= |frontiers| <= |talk| + 1 && forall k :: 0 <= k < |frontiers| ==> frontiers[k] == |Asked(talk[..k])|
  }

  /** The record is that of a conversation with these responses. */
  ghost predicate Told(lib: Library, b: Budgets, reply: (nat, seq<Entry>) -> Outcome<Raw>, talk: seq<Raw>,
                       events: seq<Event>, frontiers: seq<nat>)
  {
    Heard(lib, b, reply, talk, ResultsOf(events)) && Carries(Asked(talk), events) && Marks(talk, frontiers)
  }

  datatype Cause =
    | Answered | StepsOver | RequestRefused | ReplyFailed | ResponseRefused | AttemptRefused | WorldBroke | DeliveryRefused

  /** At this tick the governor has no room, and says why. */
  predicate NoRoom(b: Budgets, u: Usage, clock: nat -> Moment, tick: nat, kind: Kind, size: int, error: Error)
  {
    !HasRoom(b, u, clock(tick), kind, size) && error == Denial(b, u, clock(tick), kind, size)
  }

  /** A conversation of these responses ends here, with this error, because of that. */
  ghost predicate Explained<W>(world: World<W>, lib: Library, b: Budgets, encode: seq<Entry> -> (nat, bool),
                                   reply: (nat, seq<Entry>) -> Outcome<Raw>, clock: nat -> Moment, talk: seq<Raw>,
                                   w: W, events: seq<Event>, frontiers: seq<nat>, u: Usage, cause: Cause, error: Error)
  {
    var here, asked := Log(talk, ResultsOf(events)), Asked(talk);
    match cause
    case RequestRefused =>
      && |events| == |asked| && |frontiers| == |talk|
      && if encode(here).0 > b.traceBytes || encode(here).1 then error == DataPolicyRejected
         else exists tick :: NoRoom(b, u, clock, tick, Model, 0, error)
    case ReplyFailed => |events| == |asked| && |frontiers| == |talk| + 1 && reply(|talk|, here) == Failure(error)
    case ResponseRefused =>
      && |events| == |asked| && |frontiers| == |talk| + 1 && reply(|talk|, here).Success?
      && (Acceptable(lib, b, IDs(talk), reply(|talk|, here).value) ==>
            exists tick :: NoRoom(b, u, clock, tick, Content, reply(|talk|, here).value.size, error))
    case AttemptRefused =>
      |events| < |asked| && u.toolAttempts == |events| && exists tick :: NoRoom(b, u, clock, tick, Tool, 0, error)
    case WorldBroke =>
      && |events| < |asked| && u.toolAttempts == |events| + 1
      && world.step(w, |events|, asked[|events|].tool, asked[|events|].input) == Broken(error)
    case DeliveryRefused =>
      && |events| > 0 && u.toolAttempts == |events|
      && var last := events[|events| - 1].result;
      && if !last.encodes || last.size > b.responseBytes then error == BudgetExhausted
         else if last.sensitive then error == DataPolicyRejected
         else exists tick :: NoRoom(b, u, clock, tick, Content, last.size, error)
    case _ => false
  }

  lemma WhyNoRequest<W>(world: World<W>, lib: Library, b: Budgets, encode: seq<Entry> -> (nat, bool),
                        reply: (nat, seq<Entry>) -> Outcome<Raw>, clock: nat -> Moment, talk: seq<Raw>,
                        w: W, events: seq<Event>, frontiers: seq<nat>, u: Usage, tick: nat, error: Error)
    requires |events| == |Asked(talk)| && |frontiers| == |talk|
    requires var (size, sensitive) := encode(Log(talk, ResultsOf(events)));
      if size > b.traceBytes || sensitive then error == DataPolicyRejected
      else !HasRoom(b, u, clock(tick), Model, 0) && error == Denial(b, u, clock(tick), Model, 0)
    ensures Explained(world, lib, b, encode, reply, clock, talk, w, events, frontiers, u, RequestRefused, error)
  {
    hide Log, Asked, HasRoom, Denial, Acceptable, IDs, ResultsOf;
    var (size, sensitive) := encode(Log(talk, ResultsOf(events)));
    if size <= b.traceBytes && !sensitive {
      assert NoRoom(b, u, clock, tick, Model, 0, error);
    }
  }

  lemma WhyNoResponse<W>(world: World<W>, lib: Library, b: Budgets, encode: seq<Entry> -> (nat, bool),
                        reply: (nat, seq<Entry>) -> Outcome<Raw>, clock: nat -> Moment, talk: seq<Raw>,
                        w: W, events: seq<Event>, frontiers: seq<nat>, u: Usage, tick: nat, error: Error)
    requires |events| == |Asked(talk)| && |frontiers| == |talk| + 1 && reply(|talk|, Log(talk, ResultsOf(events))).Success?
    requires var raw := reply(|talk|, Log(talk, ResultsOf(events))).value;
      Acceptable(lib, b, IDs(talk), raw) ==>
        !HasRoom(b, u, clock(tick), Content, raw.size) && error == Denial(b, u, clock(tick), Content, raw.size)
    ensures Explained(world, lib, b, encode, reply, clock, talk, w, events, frontiers, u, ResponseRefused, error)
  {
    hide Log, Asked, HasRoom, Denial, Acceptable, IDs, ResultsOf;
    var raw := reply(|talk|, Log(talk, ResultsOf(events))).value;
    if Acceptable(lib, b, IDs(talk), raw) {
      assert NoRoom(b, u, clock, tick, Content, raw.size, error);
    }
  }

  lemma WhyNoAttempt<W>(world: World<W>, lib: Library, b: Budgets, encode: seq<Entry> -> (nat, bool),
                        reply: (nat, seq<Entry>) -> Outcome<Raw>, clock: nat -> Moment, talk: seq<Raw>,
                        w: W, events: seq<Event>, frontiers: seq<nat>, u: Usage, tick: nat, error: Error)
    requires |events| < |Asked(talk)| && u.toolAttempts == |events|
    requires !HasRoom(b, u, clock(tick), Tool, 0) && error == Denial(b, u, clock(tick), Tool, 0)
    ensures Explained(world, lib, b, encode, reply, clock, talk, w, events, frontiers, u, AttemptRefused, error)
  {
    hide Log, Asked, HasRoom, Denial, Acceptable, IDs, ResultsOf;
    assert NoRoom(b, u, clock, tick, Tool, 0, error);
  }

  lemma WhyNoDelivery<W>(world: World<W>, lib: Library, b: Budgets, encode: seq<Entry> -> (nat, bool),
                        reply: (nat, seq<Entry>) -> Outcome<Raw>, clock: nat -> Moment, talk: seq<Raw>,
                        w: W, events: seq<Event>, frontiers: seq<nat>, u: Usage, tick: nat, error: Error)
    requires |events| > 0 && u.toolAttempts == |events|
    requires var last := events[|events| - 1].result;
      if !last.encodes || last.size > b.responseBytes then error == BudgetExhausted
      else if last.sensitive then error == DataPolicyRejected
      else !HasRoom(b, u, clock(tick), Content, last.size) && error == Denial(b, u, clock(tick), Content, last.size)
    ensures Explained(world, lib, b, encode, reply, clock, talk, w, events, frontiers, u, DeliveryRefused, error)
  {
    hide Log, Asked, HasRoom, Denial, Acceptable, IDs, ResultsOf;
    var last := events[|events| - 1].result;
    if last.encodes && last.size <= b.responseBytes && !last.sensitive {
      assert NoRoom(b, u, clock, tick, Content, last.size, error);
    }
  }

  lemma WhyBroken<W>(world: World<W>, lib: Library, b: Budgets, encode: seq<Entry> -> (nat, bool),
                        reply: (nat, seq<Entry>) -> Outcome<Raw>, clock: nat -> Moment, talk: seq<Raw>,
                        w: W, events: seq<Event>, frontiers: seq<nat>, u: Usage, tick: nat, error: Error)
    requires |events| < |Asked(talk)| && u.toolAttempts == |events| + 1
    requires world.step(w, |events|, Asked(talk)[|events|].tool, Asked(talk)[|events|].input) == Broken(error)
    ensures Explained(world, lib, b, encode, reply, clock, talk, w, events, frontiers, u, WorldBroke, error)
  {
    hide Log, Asked, HasRoom, Denial, Acceptable, IDs, ResultsOf;
  }

  lemma WhyNoReply<W>(world: World<W>, lib: Library, b: Budgets, encode: seq<Entry> -> (nat, bool),
                        reply: (nat, seq<Entry>) -> Outcome<Raw>, clock: nat -> Moment, talk: seq<Raw>,
                        w: W, events: seq<Event>, frontiers: seq<nat>, u: Usage, tick: nat, error: Error)
    requires |events| == |Asked(talk)| && |frontiers| == |talk| + 1
    requires reply(|talk|, Log(talk, ResultsOf(events))) == Failure(error)
    ensures Explained(world, lib, b, encode, reply, clock, talk, w, events, frontiers, u, ReplyFailed, error)
  {
    hide Log, Asked, HasRoom, Denial, Acceptable, IDs, ResultsOf;
  }

  lemma CauseNamed<W>(world: World<W>, lib: Library, b: Budgets, encode: seq<Entry> -> (nat, bool),
                      reply: (nat, seq<Entry>) -> Outcome<Raw>, clock: nat -> Moment, talk: seq<Raw>,
                      w: W, events: seq<Event>, frontiers: seq<nat>, u: Usage, cause: Cause, error: Error)
    requires Explained(world, lib, b, encode, reply, clock, talk, w, events, frontiers, u, cause, error)
    ensures cause != Answered && cause != StepsOver
  {
  }

  /** What holds of the record at every moment: it can be replayed, and the usage counts what it shows. */
  ghost predicate Recorded<W>(world: World<W>, host: Session, w: W, events: seq<Event>, frontiers: seq<nat>)
    reads host, host.governor
  {
    && host.Valid() && Trace(world, events) == Just(w)
    && host.governor.usage.modelRequests == |frontiers|
    && |events| <= host.governor.usage.toolAttempts <= |events| + 1
    && Frontiers(frontiers, |events|) && (frontiers == [] ==> events == [])
  }

  /** Between steps every attempt has left its event, and the session knows just what was said. */
  ghost predicate InStep<W>(world: World<W>, host: Session, reply: (nat, seq<Entry>) -> Outcome<Raw>, w: W, talk: seq<Raw>,
                            events: seq<Event>, frontiers: seq<nat>)
    reads host, host.governor
  {
    && Recorded(world, host, w, events, frontiers) && host.governor.usage.toolAttempts == |events|
    && Told(host.lib, host.budgets, reply, talk, events, frontiers) && |frontiers| == |talk|
    && host.governor.usage.contentBytes == Bytes(talk) + ResultBytes(events)
  }

  /** The session may go on: its calls are those asked for and not yet made. */
  ghost predicate Attentive(host: Session, talk: seq<Raw>, events: seq<Event>)
    reads host
  {
    && !host.stopped && !host.waiting && !host.admitted && |events| <= |Asked(talk)| && AsksOn(talk)
    && host.history == Log(talk, ResultsOf(events)) && host.seen == IDs(talk) && host.pending == Asked(talk)[|events|..]
  }

  /** The loop has failed in this way. */
  ghost predicate Stuck<W>(world: World<W>, host: Session, reply: (nat, seq<Entry>) -> Outcome<Raw>, clock: nat -> Moment, w: W,
                           talk: seq<Raw>, events: seq<Event>, frontiers: seq<nat>, ending: Ending, cause: Cause)
    reads host, host.governor
  {
    && ending.Failed? && Told(host.lib, host.budgets, reply, talk, events, frontiers) && AsksOn(talk)
    && Explained(world, host.lib, host.budgets, host.encode, reply, clock, talk, w, events, frontiers, host.governor.usage, cause, ending.error)
  }

  lemma ResultsAppend(events: seq<Event>, e: Event)
    ensures ResultsOf(events + [e]) == ResultsOf(events) + [e.result.text]
    ensures ResultBytes(events + [e]) == ResultBytes(events) + e.result.size
  {
    assert (events + [e])[..|events|] == events;
  }

  lemma ToldMore(lib: Library, b: Budgets, reply: (nat, seq<Entry>) -> Outcome<Raw>, talk: seq<Raw>,
                 events: seq<Event>, frontiers: seq<nat>, e: Event)
    requires Told(lib, b, reply, talk, events, frontiers) && |events| < |Asked(talk)|
    requires e.tool == Asked(talk)[|events|].tool && e.input == Asked(talk)[|events|].input
    ensures Told(lib, b, reply, talk, events + [e], frontiers)
  {
    hide Heard, Marks;
    ResultsAppend(events, e);
    HeardStays(lib, b, reply, talk, ResultsOf(events), e.result.text);
  }

  /** Attempt one call: admission, the world's step, and delivery of its result. */
  method Attempt<W(==)>(world: World<W>, host: Session, call: Call, ghost reply: (nat, seq<Entry>) -> Outcome<Raw>, clock: nat -> Moment,
                        tick: nat, w: W, ghost talk: seq<Raw>, events: seq<Event>, ghost frontiers: seq<nat>)
    returns (ending: Ending, w': W, events': seq<Event>, tick': nat, ghost cause: Cause)
    requires InStep(world, host, reply, w, talk, events, frontiers) && Attentive(host, talk, events) && talk != []
    requires |events| < |Asked(talk)| && call == Asked(talk)[|events|]
    modifies host, host.governor
    ensures !ending.Finished? && Recorded(world, host, w', events', frontiers)
    ensures ending.Ongoing? ==>
      InStep(world, host, reply, w', talk, events', frontiers) && Attentive(host, talk, events') && |events'| == |events| + 1
    ensures ending.Failed? ==> Stuck(world, host, reply, clock, w', talk, events', frontiers, ending, cause)
  {
    hide Session.Valid, Told, Log, Asked, Frontiers, HasRoom, Denial, Bytes, ResultBytes, IDs, AsksOn, ResultsOf, Explained;
    ending, w', events', tick', cause := Ongoing, w, events, tick, AttemptRefused;
    var admission := host.AdmitTool(clock(tick'), call.reference);
    if admission.Failure? {
      WhyNoAttempt(world, host.lib, host.budgets, host.encode, reply, clock, talk, w', events', frontiers, host.governor.usage, tick', admission.error);
      return Failed(admission.error), w', events', tick' + 1, cause;
    }
    tick' := tick' + 1;
    var got := Perform(world, w, |events|, call.tool, call.input);
    if got.Failure? {
      WhyBroken(world, host.lib, host.budgets, host.encode, reply, clock, talk, w', events', frontiers, host.governor.usage, 0, got.error);
      return Failed(got.error), w', events', tick', WorldBroke;
    }
    var e := got.value.1.(delivered := false);
    w', events', cause := got.value.0, events + [e], DeliveryRefused;
    assert events'[..|events|] == events && Asked(talk)[|events|..][1..] == Asked(talk)[|events'|..];
    FrontiersMore(frontiers, |events|);
    ToldMore(host.lib, host.budgets, reply, talk, events, frontiers, e);
    var delivery := host.Deliver(clock(tick'), call.reference, e.result);
    if delivery.Failure? {
      WhyNoDelivery(world, host.lib, host.budgets, host.encode, reply, clock, talk, w', events', frontiers, host.governor.usage, tick', delivery.error);
      return Failed(delivery.error), w', events', tick' + 1, cause;
    }
    tick' := tick' + 1;
    ResultsAppend(events, e);
    LastIsTold(host.lib, host.budgets, reply, talk, events, frontiers);
    LogAnswer(talk, ResultsOf(events), e.result.text);
  }

  lemma LastIsTold(lib: Library, b: Budgets, reply: (nat, seq<Entry>) -> Outcome<Raw>, talk: seq<Raw>, events: seq<Event>, frontiers: seq<nat>)
    requires Told(lib, b, reply, talk, events, frontiers) && talk != []
    ensures |Asked(talk[..|talk| - 1])| <= |events|
  {
    assert HeardAt(lib, b, reply, talk, ResultsOf(events), |talk| - 1);
  }

  /** Attempt the calls of one turn in order. */
  method Dispatch<W(==)>(world: World<W>, host: Session, calls: seq<Call>, ghost reply: (nat, seq<Entry>) -> Outcome<Raw>,
                         clock: nat -> Moment, tick: nat, w: W, ghost talk: seq<Raw>, events: seq<Event>, ghost frontiers: seq<nat>)
    returns (ending: Ending, w': W, events': seq<Event>, tick': nat, ghost cause: Cause)
    requires InStep(world, host, reply, w, talk, events, frontiers) && Attentive(host, talk, events) && talk != [] && host.pending == calls
    modifies host, host.governor
    ensures !ending.Finished? && Recorded(world, host, w', events', frontiers)
    ensures ending.Ongoing? ==>
      InStep(world, host, reply, w', talk, events', frontiers) && Attentive(host, talk, events') && |events'| == |Asked(talk)|
    ensures ending.Failed? ==> Stuck(world, host, reply, clock, w', talk, events', frontiers, ending, cause)
  {
    ending, w', events', tick', cause := Ongoing, w, events, tick, AttemptRefused;
    for i := 0 to |calls|
      invariant ending.Ongoing? && InStep(world, host, reply, w', talk, events', frontiers) && Attentive(host, talk, events')
      invariant |events'| == |events| + i
    {
      ending, w', events', tick', cause := Attempt(world, host, calls[i], reply, clock, tick', w', talk, events', frontiers);
      if ending.Failed? {
        return;
      }
    }
  }

  /** One request and its reply; the reply acknowledges every event so far. */
  method Ask<W(==)>(ghost world: World<W>, host: Session, step: nat, reply: (nat, seq<Entry>) -> Outcome<Raw>, clock: nat -> Moment,
                    tick: nat, ghost w: W, ghost talk: seq<Raw>, events: seq<Event>, frontiers: seq<nat>)
    returns (turn: Outcome<Turn>, events': seq<Event>, frontiers': seq<nat>, tick': nat, ghost talk': seq<Raw>, ghost cause: Cause)
    requires InStep(world, host, reply, w, talk, events, frontiers) && Attentive(host, talk, events)
    requires step == |talk| && |events| == |Asked(talk)|
    modifies host, host.governor
    ensures Recorded(world, host, w, events', frontiers')
    ensures turn.Success? ==>
      (&& InStep(world, host, reply, w, talk', events', frontiers') && LastOf(frontiers') == |events'| == |Asked(talk)| && AllDelivered(events')
       && |talk'| == |talk| + 1 && talk'[..|talk|] == talk && turn.value == Meant(host.lib, ItemsOf(talk'[|talk|])))
    ensures turn.Success? && !turn.value.isFinal ==> Attentive(host, talk', events') && host.pending == turn.value.calls
    ensures turn.Success? && turn.value.isFinal ==> Asked(talk') == Asked(talk)
    ensures turn.Failure? ==> Stuck(world, host, reply, clock, w, talk, events', frontiers', Failed(turn.error), cause)
  {
    hide Session.Valid, Heard, Log, Asked, Frontiers, HasRoom, Denial, Bytes, ResultBytes, IDs, AsksOn, ResultsOf, Acceptable, Trace, Explained, Told, Meant;
    events', frontiers', tick', talk', cause := events, frontiers, tick, talk, RequestRefused;
    var request := host.Request(clock(tick'));
    if request.Failure? {
      WhyNoRequest(world, host.lib, host.budgets, host.encode, reply, clock, talk, w, events', frontiers', host.governor.usage, tick', request.error);
      turn := Failure(request.error);
      return;
    }
    tick' := tick' + 1;
    FrontiersAppend(frontiers, |events|);
    frontiers' := frontiers' + [|events'|];
    ToldRequest(host.lib, host.budgets, reply, talk, events, frontiers);
    cause := ReplyFailed;
    var raw := reply(step, request.value);
    if raw.Failure? {
      WhyNoReply(world, host.lib, host.budgets, host.encode, reply, clock, talk, w, events', frontiers', host.governor.usage, 0, raw.error);
      turn := Failure(raw.error);
      return;
    }
    TraceIgnoresDelivery(world, events);
    MarkAllKeepsResults(events);
    events' := MarkAll(events');
    assert AllDelivered(events') && |events'| == |events| && Trace(world, events') == Just(w);
    cause := ResponseRefused;
    turn := host.Accept(clock(tick'), raw.value);
    if turn.Failure? {
      WhyNoResponse(world, host.lib, host.budgets, host.encode, reply, clock, talk, w, events', frontiers', host.governor.usage, tick', turn.error);
      return;
    }
    tick' := tick' + 1;
    talk' := talk + [raw.value];
    ToldReply(host.lib, host.budgets, reply, talk, events, frontiers', raw.value);
    LogResponse(talk, ResultsOf(events), raw.value);
    MeantCalls(host.lib, ItemsOf(raw.value));
    TalkGrows(talk, raw.value);
  }

  lemma ToldRequest(lib: Library, b: Budgets, reply: (nat, seq<Entry>) -> Outcome<Raw>, talk: seq<Raw>, events: seq<Event>, frontiers: seq<nat>)
    requires Told(lib, b, reply, talk, events, frontiers) && |events| == |Asked(talk)| && |frontiers| == |talk|
    ensures Told(lib, b, reply, talk, events, frontiers + [|events|]) && Told(lib, b, reply, talk, MarkAll(events), frontiers + [|events|])
  {
    hide Heard, Marks;
    MarksNext(talk, frontiers);
    MarkAllKeepsResults(events);
  }

  lemma ToldReply(lib: Library, b: Budgets, reply: (nat, seq<Entry>) -> Outcome<Raw>, talk: seq<Raw>, events: seq<Event>,
                  frontiers: seq<nat>, raw: Raw)
    requires Told(lib, b, reply, talk, MarkAll(events), frontiers) && |events| == |Asked(talk)| && |frontiers| == |talk| + 1
    requires reply(|talk|, Log(talk, ResultsOf(events))) == Success(raw) && Acceptable(lib, b, IDs(talk), raw)
    ensures Told(lib, b, reply, talk + [raw], MarkAll(events), frontiers)
  {
    hide Heard, Marks, Log, Acceptable, IDs, Asked;
    MarkAllKeepsResults(events);
    HeardMore(lib, b, reply, talk, ResultsOf(events), raw);
    LogResponse(talk, ResultsOf(events), raw);
    MarksGrow(talk, raw, frontiers);
  }

  lemma MeantCalls(lib: Library, items: seq<Item>)
    ensures Meant(lib, items).calls == CallsOf(items) && (Meant(lib, items).isFinal <==> CallsOf(items) == [])
  {
  }

  lemma MarksNext(talk: seq<Raw>, frontiers: seq<nat>)
    requires Marks(talk, frontiers) && |frontiers| == |talk|
    ensures Marks(talk, frontiers + [|Asked(talk)|])
  {
    hide Asked;
    assert talk[..|talk|] == talk;
  }

  lemma MarksGrow(talk: seq<Raw>, raw: Raw, frontiers: seq<nat>)
    requires Marks(talk, frontiers) && |frontiers| == |talk| + 1
    ensures Marks(talk + [raw], frontiers)
  {
    hide Asked;
    var more := talk + [raw];
    forall k | 0 <= k < |frontiers| ensures frontiers[k] == |Asked(more[..k])| {
      assert more[..k] == talk[..k];
    }
  }

  lemma TalkGrows(talk: seq<Raw>, raw: Raw)
    requires AsksOn(talk)
    ensures (talk + [raw])[..|talk|] == talk && Bytes(talk + [raw]) == Bytes(talk) + raw.size
    ensures CallsOf(ItemsOf(raw)) != [] ==> AsksOn(talk + [raw])
  {
    hide CallsOf;
    assert (talk + [raw])[..|talk|] == talk;
  }

  /** Every call was made, and the last response asked for none but gave this answer. */
  predicate Concludes(lib: Library, talk: seq<Raw>, events: seq<Event>, answer: Answer)
  {
    && talk != [] && AsksOn(talk[..|talk| - 1]) && |events| == |Asked(talk)|
    && Meant(lib, ItemsOf(talk[|talk| - 1])) == Turn([], true, answer)
  }

  /** One turn: the request, its reply, and the calls the reply asks for. */
  method Step<W(==)>(world: World<W>, host: Session, step: nat, reply: (nat, seq<Entry>) -> Outcome<Raw>, clock: nat -> Moment, tick: nat,
                     w: W, ghost talk: seq<Raw>, events: seq<Event>, frontiers: seq<nat>)
    returns (ending: Ending, w': W, events': seq<Event>, frontiers': seq<nat>, tick': nat, ghost talk': seq<Raw>, ghost cause: Cause)
    requires InStep(world, host, reply, w, talk, events, frontiers) && Attentive(host, talk, events)
    requires step == |talk| && |events| == |Asked(talk)|
    modifies host, host.governor
    ensures Recorded(world, host, w', events', frontiers')
    ensures !ending.Failed? ==> InStep(world, host, reply, w', talk', events', frontiers')
    ensures ending.Ongoing? ==> Attentive(host, talk', events') && |events'| == |Asked(talk')| && |talk'| == |talk| + 1
    ensures ending.Finished? ==>
      |frontiers'| >= 1 && LastOf(frontiers') == |events'| && AllDelivered(events') && Concludes(host.lib, talk', events', ending.answer)
      && |talk'| == |talk| + 1
    ensures ending.Failed? ==> Stuck(world, host, reply, clock, w', talk', events', frontiers', ending, cause) && |talk'| <= |talk| + 1
  {
    w' := w;
    var turn;
    turn, events', frontiers', tick', talk', cause := Ask(world, host, step, reply, clock, tick, w, talk, events, frontiers);
    if turn.Failure? {
      ending, talk' := Failed(turn.error), talk;
      return;
    }
    if turn.value.isFinal {
      ending := Finished(turn.value.answer);
      return;
    }
    ending, w', events', tick', cause := Dispatch(world, host, turn.value.calls, reply, clock, tick', w', talk', events', frontiers');
    if ending.Ongoing? && |events'| > host.budgets.toolAttempts {
      ending := Failed(BudgetExhausted);
    }
  }

  method Drive<W(==)>(world: World<W>, host: Session, steps: nat, reply: (nat, seq<Entry>) -> Outcome<Raw>, clock: nat -> Moment)
    returns (ending: Ending, w: W, events: seq<Event>, frontiers: seq<nat>, ghost talk: seq<Raw>, ghost cause: Cause)
    requires InStep(world, host, reply, world.initial, [], [], []) && Attentive(host, [], [])
    modifies host, host.governor
    ensures Recorded(world, host, w, events, frontiers)
    ensures !ending.Failed? ==> InStep(world, host, reply, w, talk, events, frontiers)
    ensures ending.Finished? ==> |frontiers| >= 1 && LastOf(frontiers) == |events| && AllDelivered(events)
    ensures Stopped(world, host.lib, host.budgets, host.encode, reply, clock, steps, ending, w, talk, events, frontiers,
                    host.governor.usage, cause)
  {
    hide Session.Valid, Heard, Log, Asked, Frontiers, HasRoom, Denial, Bytes, ResultBytes, IDs, AsksOn, ResultsOf, Trace, Explained, Marks;
    var tick := 0;
    NothingTold(host.lib, host.budgets, reply);
    w, events, frontiers, ending, talk, cause := world.initial, [], [], Ongoing, [], StepsOver;
    var step := 0;
    while step < steps && ending.Ongoing?
      invariant Recorded(world, host, w, events, frontiers)
      invariant !ending.Failed? ==> InStep(world, host, reply, w, talk, events, frontiers)
      invariant ending.Ongoing? ==> Attentive(host, talk, events) && |events| == |Asked(talk)| && |talk| == step <= steps
      invariant ending.Finished? ==>
        |frontiers| >= 1 && LastOf(frontiers) == |events| && AllDelivered(events) && Concludes(host.lib, talk, events, ending.answer)
        && |talk| <= steps
      invariant ending.Failed? ==> |talk| <= steps && Stuck(world, host, reply, clock, w, talk, events, frontiers, ending, cause)
      decreases steps - step
    {
      ending, w, events, frontiers, tick, talk, cause := Step(world, host, step, reply, clock, tick, w, talk, events, frontiers);
      step := step + 1;
    }
  }

  /** How the episode ended, told by the responses it took. */
  ghost predicate Tale<W>(world: World<W>, lib: Library, b: Budgets, encode: seq<Entry> -> (nat, bool),
                          reply: (nat, seq<Entry>) -> Outcome<Raw>, clock: nat -> Moment, steps: nat, exhausted: Error,
                          ep: Episode<W>, talk: seq<Raw>, cause: Cause, why: Error)
  {
    var events := ep.view.events;
    match cause
    case Answered =>
      && Concludes(lib, talk, events, ep.view.answer) && |ep.frontiers| == |talk| <= steps
      && ep.usage == Usage(|talk|, |events|, Bytes(talk) + ResultBytes(events))
    case StepsOver =>
      && |ep.frontiers| == |talk| == steps && AsksOn(talk) && |events| == |Asked(talk)|
      && ep.usage == Usage(steps, |events|, Bytes(talk) + ResultBytes(events))
      && ep.view.answer == NoAnswer && ep.code == Code(exhausted) && ep.status == StatusOf(exhausted)
    case _ =>
      && Trace(world, events).Just? && |talk| <= steps && AsksOn(talk)
      && Explained(world, lib, b, encode, reply, clock, talk, Trace(world, events).value, events, ep.frontiers, ep.usage, cause, why)
      && ep.view.answer == NoAnswer && ep.code == Code(CodeOf(why)) && ep.status == StatusOf(why)
  }

  /** How the driver stopped, as values. */
  ghost predicate Stopped<W>(world: World<W>, lib: Library, b: Budgets, encode: seq<Entry> -> (nat, bool),
                             reply: (nat, seq<Entry>) -> Outcome<Raw>, clock: nat -> Moment, steps: nat, ending: Ending, w: W,
                             talk: seq<Raw>, events: seq<Event>, frontiers: seq<nat>, u: Usage, cause: Cause)
  {
    && Told(lib, b, reply, talk, events, frontiers) && Trace(world, events) == Just(w)
    && match ending
       case Finished(answer) =>
         && Concludes(lib, talk, events, answer) && |frontiers| == |talk| <= steps
         && u == Usage(|talk|, |events|, Bytes(talk) + ResultBytes(events))
       case Ongoing =>
         && |frontiers| == |talk| == steps && AsksOn(talk) && |events| == |Asked(talk)|
         && u == Usage(steps, |events|, Bytes(talk) + ResultBytes(events))
       case Failed(error) =>
         && |talk| <= steps && AsksOn(talk)
         && Explained(world, lib, b, encode, reply, clock, talk, w, events, frontiers, u, cause, error)
  }

  lemma NothingTold(lib: Library, b: Budgets, reply: (nat, seq<Entry>) -> Outcome<Raw>)
    ensures Told(lib, b, reply, [], [], []) && AsksOn([]) && Frontiers([], 0)
    ensures Asked([]) == [] && ResultsOf([]) == [] && Log([], []) == [User] && IDs([]) == {}
    ensures Bytes([]) == 0 && ResultBytes([]) == 0 && Sum([]) == 0
  {
  }

  /** The whole run: steps until an answer, a failure, or the driver is exhausted. */
  method RunLoop<W(==)>(world: World<W>, lib: Library, b: Budgets, encode: seq<Entry> -> (nat, bool), steps: nat, exhausted: Error,
                        reply: (nat, seq<Entry>) -> Outcome<Raw>, clock: nat -> Moment, inspects: bool)
    returns (ep: Episode<W>, ghost talk: seq<Raw>, ghost cause: Cause, ghost why: Error)
    requires BudgetsOk(b)
    ensures Trace(world, ep.view.events).Just? && ep.view.before == world.initial && WithinUsage(b, ep.usage)
    ensures Frontiers(ep.frontiers, |ep.view.events|) && ep.usage.modelRequests == |ep.frontiers|
    ensures |ep.view.events| <= ep.usage.toolAttempts <= |ep.view.events| + 1
    ensures Clean(ep) ==> Accounted(ep, b) && Replays(world, ep)
    ensures ep.status == Completed && ep.terminalCode.NoCode? <==> Clean(ep)
    ensures ep.cleanupCode.NoCode? && (ep.terminalCode.Code? ==> ep.code.Code?)
    ensures ep.code.Code? && ep.code.error.OtherError? ==>
      KnownCode(ep.code.error.text) || ep.code.error == exhausted || ep.code.error == INSPECTION_FAILED
    ensures ep.status != Running && (ep.status != Completed ==> ep.code.Code?)
    // The record is that of the conversation: each response was given to the log of all before it, its calls were made in
    // order, and it ends with the last response's answer, when the steps are over, or where a named refusal stopped it.
    ensures Told(lib, b, reply, talk, ep.view.events, ep.frontiers)
    ensures ep.status == Completed <==> cause == Answered
    ensures Tale(world, lib, b, encode, reply, clock, steps, exhausted, ep, talk, cause, why)
  {
    hide Told, Explained, Concludes, Trace, AsksOn, KnownCode, Bytes, ResultBytes, Asked, CodeOf, StatusOf, AllDelivered, LastOf, Frontiers;
    var ending, w, events, frontiers, usage;
    ending, w, events, frontiers, usage, talk, cause := Play(world, lib, b, encode, steps, reply, clock);
    if ending.Failed? {
      CauseNamed(world, lib, b, encode, reply, clock, talk, w, events, frontiers, usage, cause, ending.error);
    }
    var answer := if ending.Finished? then ending.answer else NoAnswer;
    cause := if ending.Finished? then Answered else if ending.Ongoing? then StepsOver else cause;
    why := if ending.Failed? then ending.error else exhausted;
    var status, code := Conclude(ending, exhausted);
    var failed;
    ep, failed := Inspect(world, w,
                          Episode(status, code, NoCode, NoCode, usage, frontiers, View(world.initial, Nothing, events, answer), Nothing),
                          inspects);
  }

  /** The turns of one session, which is stopped at the end. */
  method Play<W(==)>(world: World<W>, lib: Library, b: Budgets, encode: seq<Entry> -> (nat, bool), steps: nat,
                     reply: (nat, seq<Entry>) -> Outcome<Raw>, clock: nat -> Moment)
    returns (ending: Ending, w: W, events: seq<Event>, frontiers: seq<nat>, usage: Usage, ghost talk: seq<Raw>, ghost cause: Cause)
    requires BudgetsOk(b)
    ensures Stopped(world, lib, b, encode, reply, clock, steps, ending, w, talk, events, frontiers, usage, cause)
    ensures WithinUsage(b, usage) && Frontiers(frontiers, |events|) && usage.modelRequests == |frontiers|
    ensures |events| <= usage.toolAttempts <= |events| + 1
    ensures ending.Finished? ==> |frontiers| >= 1 && LastOf(frontiers) == |events| && AllDelivered(events)
  {
    hide Session.Orderly, Heard, Frontiers, Stopped, Marks, Asked;
    var host := new Session(lib, b, encode);
    NothingTold(lib, b, reply);
    ending, w, events, frontiers, talk, cause := Drive(world, host, steps, reply, clock);
    host.Stop();
    usage := host.governor.usage;
  }

  method Conclude(ending: Ending, exhausted: Error) returns (status: Status, code: Code)
    ensures status != Running && (status == Completed <==> ending.Finished?) && (code.NoCode? <==> ending.Finished?)
    ensures ending.Failed? ==> status == StatusOf(ending.error) && code == Code(CodeOf(ending.error))
    ensures ending.Ongoing? ==> status == StatusOf(exhausted) && code == Code(exhausted)
    ensures code.Code? && code.error.OtherError? ==> KnownCode(code.error.text) || code.error == exhausted
  {
    status, code := Completed, NoCode;
    if ending.Failed? {
      status, code := StatusOf(ending.error), Code(CodeOf(ending.error));
    } else if ending.Ongoing? {
      status, code := StatusOf(exhausted), Code(exhausted);
    }
  }

  const INSPECTION_FAILED := OtherError("TERMINAL_INSPECTION_FAILED")

  /**
   The terminal inspection: read the final state and grade the view. It fails when the state cannot be read or the view
   cannot be graded.
   */
  method Inspect<W(==)>(world: World<W>, w: W, ep: Episode<W>, inspects: bool) returns (r: Episode<W>, failed: bool)
    ensures r.view == if inspects then ep.view.(after := Just(w)) else ep.view
    ensures r.evaluation == if inspects then world.grade(r.view) else ep.evaluation
    ensures failed <==> !inspects || world.grade(ep.view.(after := Just(w))).Nothing?
    ensures r.terminalCode == if failed then Code(INSPECTION_FAILED) else ep.terminalCode
    ensures ep.code.Code? ==> r.code == ep.code
    ensures ep.code.NoCode? ==> r.code == if failed then Code(INSPECTION_FAILED) else NoCode
    ensures r.status == ep.status && r.cleanupCode == ep.cleanupCode && r.usage == ep.usage && r.frontiers == ep.frontiers
  {
    r, failed := ep, !inspects;
    if inspects {
      r := r.(view := r.view.(after := Just(w)));
      r := r.(evaluation := world.grade(r.view));
      failed := r.evaluation.Nothing?;
    }
    if failed {
      r := r.(terminalCode := Code(INSPECTION_FAILED));
      if r.code.NoCode? {
        r := r.(code := r.terminalCode);
      }
    }
  }

  // ----------------------------------------------------------------------- the verifier

  method CheckFrontiers(frontiers: seq<nat>, events: nat) returns (ok: bool)
    ensures ok <==> Frontiers(frontiers, events) && LastOf(frontiers) == events
  {
    var last := 0;
    for i := 0 to |frontiers|
      invariant Frontiers(frontiers[..i], events) && last == LastOf(frontiers[..i])
    {
      if frontiers[i] < last || frontiers[i] > events || (i == 0 && frontiers[i] != 0) {
        if i > 0 {
          assert frontiers[..i][i - 1] == frontiers[i - 1];
        }
        return false;
      }
      last := frontiers[i];
    }
    assert frontiers[..|frontiers|] == frontiers;
    ok := last == events;
  }

  /** Perform the recorded calls again and compare every event, delivery included. */
  method ReplayEvents<W(==)>(world: World<W>, events: seq<Event>) returns (r: Maybe<W>)
    ensures r == if AllDelivered(events) then Trace(world, events) else Nothing
  {
    var w := world.initial;
    for i := 0 to |events|
      invariant AllDelivered(events[..i]) && Trace(world, events[..i]) == Just(w)
    {
      var got := Perform(world, w, i, events[i].tool, events[i].input);
      assert events[..i + 1][..i] == events[..i];
      if got.Failure? || got.value.1 != events[i] {
        if AllDelivered(events) {
          assert MarkDelivered(events[i]) == events[i];
          TraceStops(world, events, i + 1);
        }
        return Nothing;
      }
      w := got.value.0;
    }
    assert events[..|events|] == events;
    r := Just(w);
  }

  lemma {:induction false} TraceStops<W>(world: World<W>, events: seq<Event>, i: nat)
    requires i <= |events| && Trace(world, events[..i]).Nothing?
    ensures Trace(world, events).Nothing?
    decreases |events|
  {
    if i < |events| {
      assert events[..|events| - 1][..i] == events[..i];
      TraceStops(world, events[..|events| - 1], i);
    } else {
      assert events[..i] == events;
    }
  }

  /** The events are the world's own, numbered from zero and delivered, and it passes through these states. */
  ghost predicate Passes<W>(world: World<W>, events: seq<Event>, states: seq<W>)
  {
    && |states| == |events| + 1 && states[0] == world.initial
    && forall i :: 0 <= i < |events| ==>
         && events[i].sequence == i && events[i].delivered
         && world.step(states[i], i, events[i].tool, events[i].input) == Took(states[i + 1], events[i].detail, events[i].result)
  }

  /** What an episode has to show, read off the record and the world's own functions. */
  ghost predicate Verifiable<W>(world: World<W>, ep: Episode<W>, b: Budgets, states: seq<W>)
  {
    var n, f := |ep.view.events|, ep.frontiers;
    && ep.status == Completed && ep.code == NoCode && ep.terminalCode == NoCode && ep.cleanupCode == NoCode
    && n == ep.usage.toolAttempts <= b.toolAttempts && 1 <= |f| == ep.usage.modelRequests <= b.modelRequests
    && 0 <= ep.usage.contentBytes <= b.traceBytes - 65_536
    && f[0] == 0 && f[|f| - 1] == n && (forall i :: 0 <= i < |f| - 1 ==> f[i] <= f[i + 1])
    && ep.view.before == world.initial
    && Passes(world, ep.view.events, states) && ep.view.after == Just(states[n])
    && ep.evaluation.Just? && ep.evaluation == world.grade(ep.view)
  }

  lemma {:induction false} PassesIff<W>(world: World<W>, events: seq<Event>, states: seq<W>)
    requires Passes(world, events, states)
    ensures AllDelivered(events) && Trace(world, events) == Just(states[|events|])
    decreases |events|
  {
    if events != [] {
      var n := |events| - 1;
      assert Passes(world, events[..n], states[..n + 1]);
      PassesIff(world, events[..n], states[..n + 1]);
      assert MarkDelivered(events[n]) == events[n];
    }
  }

  lemma {:induction false} StatesOf<W>(world: World<W>, events: seq<Event>) returns (states: seq<W>)
    requires AllDelivered(events) && Trace(world, events).Just?
    ensures Passes(world, events, states) && Trace(world, events).value == states[|events|]
    decreases |events|
  {
    if events == [] {
      states := [world.initial];
    } else {
      var n := |events| - 1;
      var before := StatesOf(world, events[..n]);
      assert events[..n][..0] == [];
      states := before + [Trace(world, events).value];
      assert MarkDelivered(events[n]) == events[n];
      forall i | 0 <= i < |events|
        ensures events[i].sequence == i && events[i].delivered
        ensures world.step(states[i], i, events[i].tool, events[i].input) == Took(states[i + 1], events[i].detail, events[i].result) {
        if i < n {
          assert events[..n][i] == events[i];
        }
      }
    }
  }

  lemma {:induction false} Climbs(f: seq<nat>, i: nat, j: nat)
    requires i <= j < |f| && forall k :: 0 <= k < |f| - 1 ==> f[k] <= f[k + 1]
    ensures f[i] <= f[j]
    decreases j - i
  {
    if i < j {
      Climbs(f, i, j - 1);
    }
  }

  lemma FrontiersIff(f: seq<nat>, n: nat)
    requires f != []
    ensures Frontiers(f, n) && LastOf(f) == n
      <==> f[0] == 0 && f[|f| - 1] == n && (forall i :: 0 <= i < |f| - 1 ==> f[i] <= f[i + 1])
  {
    if f[0] == 0 && f[|f| - 1] == n && (forall i :: 0 <= i < |f| - 1 ==> f[i] <= f[i + 1]) {
      forall i, j | 0 <= i <= j < |f| ensures f[i] <= f[j] {
        Climbs(f, i, j);
      }
      forall i | 0 <= i < |f| ensures f[i] <= n {
        Climbs(f, i, |f| - 1);
      }
    }
  }

  lemma ShowsReplay<W>(world: World<W>, ep: Episode<W>, b: Budgets, states: seq<W>)
    requires Verifiable(world, ep, b, states)
    ensures Clean(ep) && Accounted(ep, b) && Replays(world, ep)
  {
    PassesIff(world, ep.view.events, states);
    FrontiersIff(ep.frontiers, |ep.view.events|);
    hide Trace, Frontiers, LastOf;
  }

  lemma ReplayShows<W>(world: World<W>, ep: Episode<W>, b: Budgets) returns (states: seq<W>)
    requires Clean(ep) && Accounted(ep, b) && Replays(world, ep)
    ensures Verifiable(world, ep, b, states)
  {
    states := StatesOf(world, ep.view.events);
    FrontiersIff(ep.frontiers, |ep.view.events|);
    hide Trace, Passes, Frontiers, LastOf;
  }

  /** Clean, accounted for and replayed is just what the record and the world show. */
  lemma ReplayMeans<W>(world: World<W>, ep: Episode<W>, b: Budgets)
    ensures Clean(ep) && Accounted(ep, b) && Replays(world, ep) <==> exists states :: Verifiable(world, ep, b, states)
  {
    hide Clean, Accounted, Replays, Verifiable;
    if Clean(ep) && Accounted(ep, b) && Replays(world, ep) {
      var states := ReplayShows(world, ep, b);
    }
    if states :| Verifiable(world, ep, b, states) {
      ShowsReplay(world, ep, b, states);
    }
  }

  method ReplayWorld<W(==)>(world: World<W>, ep: Episode<W>, b: Budgets) returns (ok: bool)
    ensures ok <==> Clean(ep) && Accounted(ep, b) && Replays(world, ep)
  {
    if ep.status != Completed || ep.code.Code? || ep.terminalCode.Code? || ep.cleanupCode.Code? || ep.evaluation.Nothing? {
      return false;
    }
    if |ep.view.events| > b.toolAttempts || ep.usage.toolAttempts != |ep.view.events| || ep.usage.modelRequests != |ep.frontiers|
       || ep.usage.modelRequests < 1 || ep.usage.modelRequests > b.modelRequests
       || ep.usage.contentBytes < 0 || ep.usage.contentBytes > b.traceBytes - RESERVED {
      return false;
    }
    var frontiers := CheckFrontiers(ep.frontiers, |ep.view.events|);
    if !frontiers || ep.view.before != world.initial {
      return false;
    }
    var after := ReplayEvents(world, ep.view.events);
    if after.Nothing? || ep.view.after != after {
      return false;
    }
    ok := world.grade(ep.view) == ep.evaluation;
  }

  /** The verifier accepts an episode exactly when it is clean, accounted for, and what the world does. */
  method Replay<W(==)>(world: World<W>, ep: Episode<W>, b: Budgets) returns (ok: bool)
    ensures ok <==> Clean(ep) && Accounted(ep, b) && Replays(world, ep)
    ensures ok <==> exists states :: Verifiable(world, ep, b, states)
  {
    hide Clean, Accounted, Replays, Verifiable;
    ok := ReplayWorld(world, ep, b);
    ReplayMeans(world, ep, b);
  }

  /** Every completed run whose terminal inspection succeeds passes the verifier. */
  method RunThenReplay<W(==)>(world: World<W>, lib: Library, b: Budgets, encode: seq<Entry> -> (nat, bool), steps: nat,
                              exhausted: Error, reply: (nat, seq<Entry>) -> Outcome<Raw>, clock: nat -> Moment, inspects: bool)
    returns (ep: Episode<W>, ok: bool)
    requires BudgetsOk(b)
    ensures ok <==> ep.status == Completed && ep.terminalCode.NoCode?
  {
    ghost var talk, cause, why;
    ep, talk, cause, why := RunLoop(world, lib, b, encode, steps, exhausted, reply, clock, inspects);
    ok := Replay(world, ep, b);
  }
}
