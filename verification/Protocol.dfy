/** The Responses session and its budget governor. */
module Protocol {
  datatype Error =
    | ProtocolError
    | ProfileUnsupported
    | BudgetExhausted
    | DataPolicyRejected
    | EpisodeStopped
    | EpisodeTimeout
    | Canceled
    | DeadlineExceeded
    | Infrastructure
    | OtherError(text: string)

  datatype Outcome<+T> = Success(value: T) | Failure(error: Error)

  /** What one look at the context and the clock finds. */
  datatype Moment = Live | ContextDone(error: Error) | PastDeadline

  datatype Budgets = Budgets(modelRequests: int, toolAttempts: int, requestSeconds: int, episodeSeconds: int,
                             cleanupSeconds: int, responseBytes: int, traceBytes: int)

  datatype Usage = Usage(modelRequests: int, toolAttempts: int, contentBytes: int)

  const RESERVED := 65536

  predicate BudgetsOk(b: Budgets)
  {
    && 1 <= b.modelRequests <= 16 && 1 <= b.toolAttempts <= 32 && 1 <= b.requestSeconds <= 30
    && 1 <= b.episodeSeconds <= 180 && 1 <= b.cleanupSeconds <= 10
    && 1 <= b.responseBytes <= 1048576 && 1 <= b.traceBytes <= 8388608
    && b.traceBytes >= RESERVED && b.requestSeconds <= b.episodeSeconds
  }

  // ------------------------------------------------------------------------ the governor

  datatype Kind = Model | Tool | Content | OtherKind

  predicate WithinUsage(b: Budgets, u: Usage)
  {
    && 0 <= u.modelRequests <= b.modelRequests && 0 <= u.toolAttempts <= b.toolAttempts
    && 0 <= u.contentBytes <= b.traceBytes - RESERVED
  }

  /** Nothing stands in the way of one more unit of this kind. */
  predicate HasRoom(b: Budgets, u: Usage, at: Moment, kind: Kind, size: int)
  {
    && at.Live? && 0 <= size <= b.traceBytes - RESERVED - u.contentBytes && kind != OtherKind
    && (kind == Model ==> u.modelRequests < b.modelRequests)
    && (kind == Tool ==> u.toolAttempts < b.toolAttempts)
  }

  function Charge(u: Usage, kind: Kind, size: int): Usage
  {
    Usage(u.modelRequests + (if kind == Model then 1 else 0), u.toolAttempts + (if kind == Tool then 1 else 0),
          u.contentBytes + size)
  }

  /** Why there is no room: the context, the clock, an unknown kind of work, or the budget. */
  function Denial(b: Budgets, u: Usage, at: Moment, kind: Kind, size: int): Error
  {
    match at
    case ContextDone(error) => error
    case PastDeadline => EpisodeTimeout
    case Live => if kind == OtherKind && 0 <= size <= b.traceBytes - RESERVED - u.contentBytes then ProtocolError else BudgetExhausted
  }

  class Governor {
    const limits: Budgets
    var usage: Usage
    var stopped: bool

    ghost predicate Valid()
      reads this
    {
      BudgetsOk(limits) && WithinUsage(limits, usage)
    }

    constructor (b: Budgets)
      requires BudgetsOk(b)
      ensures Valid() && limits == b && usage == Usage(0, 0, 0) && !stopped
    {
      limits := b;
      usage := Usage(0, 0, 0);
      stopped := false;
    }

    /** Admission charges exactly what was asked for; a refusal stops the episode and charges nothing. */
    method Admit(at: Moment, kind: Kind, size: int) returns (r: Outcome<()>)
      requires Valid()
      modifies this
      ensures Valid()
      ensures r.Success? <==> !old(stopped) && HasRoom(limits, old(usage), at, kind, size)
      ensures r.Success? ==> !stopped && usage == Charge(old(usage), kind, size)
      ensures r.Failure? ==> stopped && usage == old(usage)
      ensures r.Failure? ==> r.error == if old(stopped) then EpisodeStopped else Denial(limits, usage, at, kind, size)
      // In terms of the counters alone: the trace keeps 64 KiB in reserve, and every kind has its own count.
      ensures r.Success? <==>
        (&& !old(stopped) && at == Live && size >= 0 && old(usage.contentBytes) + size <= limits.traceBytes - 65_536
         && (kind == Content || (kind == Model && old(usage.modelRequests) + 1 <= limits.modelRequests)
             || (kind == Tool && old(usage.toolAttempts) + 1 <= limits.toolAttempts)))
      ensures r.Success? ==>
        (&& usage.contentBytes == old(usage.contentBytes) + size
         && usage.modelRequests == old(usage.modelRequests) + (if kind == Model then 1 else 0)
         && usage.toolAttempts == old(usage.toolAttempts) + (if kind == Tool then 1 else 0))
      ensures r == Failure(BudgetExhausted) && !old(stopped) && at == Live ==>
        (|| size < 0 || usage.contentBytes + size > limits.traceBytes - 65_536
         || (kind == Model && usage.modelRequests == limits.modelRequests) || (kind == Tool && usage.toolAttempts == limits.toolAttempts))
    {
      if stopped {
        return Failure(EpisodeStopped);
      }
      if at.ContextDone? {
        stopped := true;
        return Failure(at.error);
      }
      if at.PastDeadline? {
        stopped := true;
        return Failure(EpisodeTimeout);
      }
      if size < 0 || size > limits.traceBytes - RESERVED - usage.contentBytes {
        stopped := true;
        return Failure(BudgetExhausted);
      }
      match kind {
        case Model =>
          if usage.modelRequests >= limits.modelRequests {
            stopped := true;
            return Failure(BudgetExhausted);
          }
          usage := usage.(modelRequests := usage.modelRequests + 1);
        case Tool =>
          if usage.toolAttempts >= limits.toolAttempts {
            stopped := true;
            return Failure(BudgetExhausted);
          }
          usage := usage.(toolAttempts := usage.toolAttempts + 1);
        case Content =>
        case OtherKind =>
          stopped := true;
          return Failure(ProtocolError);
      }
      usage := usage.(contentBytes := usage.contentBytes + size);
      r := Success(());
    }

    method Stop()
      modifies this
      ensures stopped && usage == old(usage)
    {
      stopped := true;
    }
  }

  // ------------------------------------------------------------------- reading a response

  datatype Arguments = Unusable | Usable(input: string)

  datatype Part = OutputText(text: string) | Refusal(text: string) | OtherPart

  /** An output item as decoding finds it; untyped and typed decoding may each fail. */
  datatype Item =
    | Garbled
    | FunctionCall(untyped: bool, extraField: bool, typed: bool, callID: string, name: string, status: string, arguments: Arguments)
    | Reasoning(bytes: string)
    | Message(typed: bool, role: string, status: string, phase: string, content: seq<Part>)
    | OtherItem

  datatype Document = NotDecoded | Response(status: string, failed: bool, output: seq<Item>)

  datatype Raw = Raw(size: nat, sensitive: bool, document: Document)

  datatype Call = Call(reference: string, tool: string, input: string)

  datatype Answer = NoAnswer | TextAnswer(text: string) | JsonAnswer(text: string)

  datatype Turn = Turn(calls: seq<Call>, isFinal: bool, answer: Answer)

  /** Patterns and decoders of the libraries the session relies on. */
  datatype Library = Library(privateID: string -> bool, functionName: string -> bool, validJson: string -> bool,
                             readable: string -> bool)

  datatype Read = Read(calls: seq<Call>, texts: seq<string>)

  function References(calls: seq<Call>): seq<string>
  {
    seq(|calls|, i requires 0 <= i < |calls| => calls[i].reference)
  }

  function Texts(phase: string, content: seq<Part>): Outcome<seq<string>>
  {
    if content == [] then Success([])
    else
      var front := Texts(phase, content[..|content| - 1]);
      var part := content[|content| - 1];
      if front.Failure? then front
      else if phase !in {"", "final_answer", "commentary"} || part.OtherPart? then Failure(ProfileUnsupported)
      else if phase == "commentary" then front
      else Success(front.value + [part.text])
  }

  function ReadItem(lib: Library, item: Item, seen: set<string>, so: Read): Outcome<Read>
  {
    match item
    case Garbled => Failure(ProtocolError)
    case FunctionCall(untyped, extra, typed, id, name, status, arguments) =>
      if !untyped then Failure(ProtocolError)
      else if extra then Failure(ProfileUnsupported)
      else if !typed || !lib.privateID(id) || !lib.functionName(name) || id in References(so.calls) || id in seen
              || status !in {"", "completed"} || arguments.Unusable? then Failure(ProtocolError)
      else Success(so.(calls := so.calls + [Call(id, name, arguments.input)]))
    case Reasoning(_) => Success(so)
    case Message(typed, role, status, phase, content) =>
      if !typed || role != "assistant" || status !in {"", "completed"} || content == [] then Failure(ProtocolError)
      else
        var texts := Texts(phase, content);
        if texts.Failure? then Failure(texts.error) else Success(so.(texts := so.texts + texts.value))
    case OtherItem => Failure(ProfileUnsupported)
  }

  function ReadOutput(lib: Library, items: seq<Item>, seen: set<string>): Outcome<Read>
  {
    if items == [] then Success(Read([], []))
    else
      var front := ReadOutput(lib, items[..|items| - 1], seen);
      if front.Failure? then front else ReadItem(lib, items[|items| - 1], seen, front.value)
  }

  function Join(texts: seq<string>): string
  {
    if texts == [] then "" else Join(texts[..|texts| - 1]) + texts[|texts| - 1]
  }

  /** Everything Accept decides before it asks the governor. */
  function Judge(lib: Library, b: Budgets, seen: set<string>, raw: Raw): Outcome<Turn>
  {
    if raw.size > b.responseBytes then Failure(BudgetExhausted)
    else if raw.document.NotDecoded? then Failure(ProtocolError)
    else
      var d := raw.document;
      if d.status != "completed" || d.failed || |d.output| == 0 || |d.output| > 64 then Failure(ProtocolError)
      else if raw.sensitive then Failure(DataPolicyRejected)
      else
        var read := ReadOutput(lib, d.output, seen);
        if read.Failure? then Failure(read.error)
        else if |read.value.calls| > b.toolAttempts then Failure(BudgetExhausted)
        else if |read.value.calls| > 0 then Success(Turn(read.value.calls, false, NoAnswer))
        else if |read.value.texts| == 0 then Failure(ProtocolError)
        else
          var text := Join(read.value.texts);
          if !lib.validJson(text) then Success(Turn([], true, TextAnswer(text)))
          else if lib.readable(text) then Success(Turn([], true, JsonAnswer(text)))
          else Failure(ProtocolError)
  }

  // ------------------------------------------------------------------------- the history

  datatype Entry = User | FromProvider(item: Item) | CallOutput(id: string, output: string)

  function CallIDs(items: seq<Item>): seq<string>
  {
    if items == [] then []
    else
      CallIDs(items[..|items| - 1])
        + (if items[|items| - 1].FunctionCall? then [items[|items| - 1].callID] else [])
  }

  function Calls(h: seq<Entry>): seq<string>
  {
    if h == [] then []
    else
      var last := h[|h| - 1];
      Calls(h[..|h| - 1]) + (if last.FromProvider? && last.item.FunctionCall? then [last.item.callID] else [])
  }

  function Outputs(h: seq<Entry>): seq<string>
  {
    if h == [] then []
    else Outputs(h[..|h| - 1]) + (if h[|h| - 1].CallOutput? then [h[|h| - 1].id] else [])
  }

  function Entries(items: seq<Item>): seq<Entry>
  {
    seq(|items|, i requires 0 <= i < |items| => FromProvider(items[i]))
  }

  predicate NoRepeats(ids: seq<string>)
  {
    forall i, j :: 0 <= i < j < |ids| ==> ids[i] != ids[j]
  }

  /** Outputs answer calls in call order, never before the call. */
  ghost predicate InOrder(h: seq<Entry>)
  {
    forall k :: 0 <= k <= |h| ==> Outputs(h[..k]) <= Calls(h[..k])
  }

  /** Every call in the history has been answered. */
  ghost predicate Answered(h: seq<Entry>)
  {
    InOrder(h) && NoRepeats(Calls(h)) && Outputs(h) == Calls(h)
  }

  lemma {:induction false} CallsAt(h: seq<Entry>, id: string) returns (p: nat)
    requires id in Calls(h)
    ensures p < |h| && h[p].FromProvider? && h[p].item.FunctionCall? && h[p].item.callID == id
    decreases |h|
  {
    var last := |h| - 1;
    if h[last].FromProvider? && h[last].item.FunctionCall? && h[last].item.callID == id {
      p := last;
    } else {
      p := CallsAt(h[..last], id);
    }
  }

  /** In an orderly history each output has its call before it. */
  lemma OutputFollowsItsCall(h: seq<Entry>, q: nat) returns (p: nat)
    requires InOrder(h) && q < |h| && h[q].CallOutput?
    ensures p < q && h[p].FromProvider? && h[p].item.FunctionCall? && h[p].item.callID == h[q].id
  {
    var upto := h[..q + 1];
    assert upto[..q] == h[..q] && upto[q] == h[q];
    assert Outputs(upto) <= Calls(upto);
    assert Outputs(upto)[|Outputs(upto)| - 1] == h[q].id;
    assert Calls(upto) == Calls(h[..q]);
    p := CallsAt(h[..q], h[q].id);
  }

  lemma {:induction false} Reads(lib: Library, items: seq<Item>, seen: set<string>)
    requires ReadOutput(lib, items, seen).Success?
    ensures var ids := References(ReadOutput(lib, items, seen).value.calls);
      ids == CallIDs(items) && NoRepeats(ids) && forall i :: 0 <= i < |ids| ==> ids[i] !in seen
    decreases |items|
  {
    if items != [] {
      var n := |items| - 1;
      Reads(lib, items[..n], seen);
      var before := ReadOutput(lib, items[..n], seen).value.calls;
      var after := ReadOutput(lib, items, seen).value.calls;
      if items[n].FunctionCall? {
        assert References(after) == References(before) + [items[n].callID];
      } else {
        assert after == before;
      }
    }
  }

  lemma {:induction false} AppendItems(h: seq<Entry>, items: seq<Item>)
    ensures Calls(h + Entries(items)) == Calls(h) + CallIDs(items)
    ensures Outputs(h + Entries(items)) == Outputs(h)
    decreases |items|
  {
    if items == [] {
      assert h + Entries(items) == h;
    } else {
      var n := |items| - 1;
      AppendItems(h, items[..n]);
      var more := h + Entries(items);
      assert more[..|more| - 1] == h + Entries(items[..n]);
      assert more[|more| - 1] == FromProvider(items[n]);
    }
  }

  lemma InOrderAppend(h: seq<Entry>, items: seq<Item>)
    requires InOrder(h)
    ensures InOrder(h + Entries(items))
  {
    var more := h + Entries(items);
    forall k | 0 <= k <= |more| ensures Outputs(more[..k]) <= Calls(more[..k]) {
      if k <= |h| {
        assert more[..k] == h[..k];
      } else {
        assert more[..k] == h + Entries(items[..k - |h|]);
        AppendItems(h, items[..k - |h|]);
        assert h[..|h|] == h;
        assert Outputs(h[..|h|]) <= Calls(h[..|h|]);
      }
    }
  }

  lemma InOrderAnswer(h: seq<Entry>, id: string, output: string, rest: seq<string>)
    requires InOrder(h) && Outputs(h) + [id] + rest == Calls(h)
    ensures InOrder(h + [CallOutput(id, output)])
    ensures Calls(h + [CallOutput(id, output)]) == Calls(h) && Outputs(h + [CallOutput(id, output)]) == Outputs(h) + [id]
  {
    var more := h + [CallOutput(id, output)];
    assert more[..|h|] == h && more[|h|] == CallOutput(id, output);
    forall k | 0 <= k <= |more| ensures Outputs(more[..k]) <= Calls(more[..k]) {
      if k <= |h| {
        assert more[..k] == h[..k];
      } else {
        assert more[..k] == more;
        assert Calls(h)[..|Outputs(h)| + 1] == Outputs(h) + [id];
      }
    }
  }

  lemma Fresh(ids: seq<string>, more: seq<string>, seen: set<string>)
    requires NoRepeats(ids) && NoRepeats(more) && (forall i :: 0 <= i < |ids| ==> ids[i] in seen)
    requires forall i :: 0 <= i < |more| ==> more[i] !in seen
    ensures NoRepeats(ids + more)
  {
  }

  function Sum(sizes: seq<nat>): nat
  {
    if sizes == [] then 0 else Sum(sizes[..|sizes| - 1]) + sizes[|sizes| - 1]
  }

  lemma SumAppend(sizes: seq<nat>, n: nat)
    ensures Sum(sizes + [n]) == Sum(sizes) + n
  {
    assert (sizes + [n])[..|sizes|] == sizes;
  }
}
