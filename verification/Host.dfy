/** The session as an object: five operations, each of which keeps the protocol in order. */
module Host {
  import opened Protocol
  import opened Responses

  /** A tool result on its way back to the model. */
  datatype Delivery = Delivery(encodes: bool, size: nat, sensitive: bool, text: string)

  class Session {
    const lib: Library
    const budgets: Budgets
    /** Size of the encoded request, and whether it looks sensitive. */
    const encode: seq<Entry> -> (nat, bool)
    const governor: Governor
    var history: seq<Entry>
    var pending: seq<Call>
    var seen: set<string>
    var waiting: bool
    var admitted: bool
    var stopped: bool
    /** The sizes of everything charged as content. */
    ghost var sizes: seq<nat>

    /** What holds in every reachable state. */
    ghost predicate Valid()
      reads this, governor
    {
      && governor.Valid() && governor.limits == budgets && stopped == governor.stopped
      && governor.usage.contentBytes == Sum(sizes)
      && (stopped ==> history == [] && pending == [] && seen == {} && !waiting)
      && (!stopped ==> Orderly(history, pending, seen))
      && (waiting ==> pending == [])
      && (admitted && !stopped ==> pending != [])
    }

    /** No call ID repeats, and the pending calls are exactly those not yet answered, in order. */
    static ghost predicate Orderly(history: seq<Entry>, pending: seq<Call>, seen: set<string>)
    {
      && NoRepeats(Calls(history)) && InOrder(history)
      && Outputs(history) + References(pending) == Calls(history)
      && forall id :: id in seen <==> id in Calls(history)
    }

    /** Nothing but the verdict is left. */
    ghost predicate Ended()
      reads this, governor
    {
      stopped && governor.stopped && history == [] && pending == [] && seen == {} && !waiting
    }

    constructor (lib: Library, b: Budgets, encode: seq<Entry> -> (nat, bool))
      requires BudgetsOk(b)
      ensures Valid() && fresh(governor) && budgets == b && this.lib == lib && this.encode == encode
      ensures !stopped && !waiting && !admitted && pending == [] && history == [User] && seen == {} && sizes == []
      ensures governor.usage == Usage(0, 0, 0)
    {
      this.lib, budgets, this.encode := lib, b, encode;
      governor := new Governor(b);
      history, pending, seen := [User], [], {};
      waiting, admitted, stopped, sizes := false, false, false, [];
      new;
      assert history[..0] == [] && history[..1] == history;
      assert forall k :: 0 <= k <= |history| ==> Outputs(history[..k]) == [];
      assert Orderly(history, pending, seen);
    }

    method Stop()
      requires governor.Valid() && governor.limits == budgets && governor.usage.contentBytes == Sum(sizes)
      modifies this, governor
      ensures Valid() && Ended() && governor.usage == old(governor.usage) && sizes == old(sizes)
    {
      stopped, waiting, history, pending, seen := true, false, [], [], {};
      governor.Stop();
    }

    /** A request goes out only when every earlier call has been answered, once. */
    method Request(at: Moment) returns (r: Outcome<seq<Entry>>)
      requires Valid()
      modifies this, governor
      ensures Valid() && sizes == old(sizes)
      ensures r.Success? <==>
        (&& old(!stopped && !waiting && pending == [])
         && encode(old(history)).0 <= budgets.traceBytes && !encode(old(history)).1
         && HasRoom(budgets, old(governor.usage), at, Model, 0))
      ensures r.Success? ==> r.value == old(history) && Answered(r.value)
      ensures r.Failure? ==>
        r.error == if !old(!stopped && !waiting && pending == []) then ProtocolError
                   else if encode(old(history)).0 > budgets.traceBytes || encode(old(history)).1 then DataPolicyRejected
                   else Denial(budgets, old(governor.usage), at, Model, 0)
      ensures r.Success? ==>
        (&& !stopped && waiting && pending == [] && history == old(history) && admitted == old(admitted) && seen == old(seen)
         && governor.usage == Charge(old(governor.usage), Model, 0))
      ensures r.Failure? ==> governor.usage == old(governor.usage)
      ensures r.Failure? && old(!stopped && !waiting && pending == []) ==> Ended()
      ensures r.Failure? && !old(!stopped && !waiting && pending == []) ==>
        (stopped, waiting, history, pending, seen) == old((stopped, waiting, history, pending, seen))
    {
      if stopped || waiting || |pending| > 0 {
        return Failure(ProtocolError);
      }
      var (size, sensitive) := encode(history);
      if size > budgets.traceBytes || sensitive {
        Stop();
        return Failure(DataPolicyRejected);
      }
      var admission := governor.Admit(at, Model, 0);
      if admission.Failure? {
        Stop();
        return Failure(admission.error);
      }
      assert Outputs(history) + References(pending) == Outputs(history);
      waiting := true;
      r := Success(history);
    }

    static function WithReferences(seen: set<string>, calls: seq<Call>): set<string>
    {
      seen + set i | 0 <= i < |calls| :: calls[i].reference
    }

    /** A response is accepted whole or not at all; any refusal ends the trial. */
    method Accept(at: Moment, raw: Raw) returns (r: Outcome<Turn>)
      requires Valid()
      modifies this, governor
      ensures Valid()
      ensures r.Success? <==>
        (&& old(!stopped && waiting) && Judge(lib, budgets, old(seen), raw).Success?
         && HasRoom(budgets, old(governor.usage), at, Content, raw.size))
      ensures r.Success? ==> Acceptable(lib, budgets, old(seen), raw) && r.value == Meant(lib, raw.document.output)
      ensures r.Failure? && old(!stopped && waiting) && Acceptable(lib, budgets, old(seen), raw) ==>
        !HasRoom(budgets, governor.usage, at, Content, raw.size) && r.error == Denial(budgets, governor.usage, at, Content, raw.size)
      ensures r.Failure? && !old(!stopped && waiting) ==> r.error == ProtocolError
      ensures r.Success? ==>
        (&& r == Judge(lib, budgets, old(seen), raw) && sizes == old(sizes) + [raw.size]
         && governor.usage == Charge(old(governor.usage), Content, raw.size))
      ensures r.Success? && !r.value.isFinal ==>
        !stopped && !waiting && pending == r.value.calls && |pending| > 0 && admitted == old(admitted)
        && history == old(history) + Entries(raw.document.output) && seen == WithReferences(old(seen), r.value.calls)
      ensures r.Success? && r.value.isFinal ==> Ended()
      ensures r.Failure? ==> Ended() && governor.usage == old(governor.usage) && sizes == old(sizes)
    {
      JudgeMeans(lib, budgets, seen, raw);
      if stopped || !waiting {
        Stop();
        return Failure(ProtocolError);
      }
      var turn := ReadResponse(lib, budgets, seen, raw);
      if turn.Failure? {
        Stop();
        return turn;
      }
      var admission := governor.Admit(at, Content, raw.size);
      if admission.Failure? {
        Stop();
        return Failure(admission.error);
      }
      JudgeReads(lib, budgets, seen, raw, turn.value);
      assert Outputs(history) + References(pending) == Outputs(history);
      Absorb(turn.value, raw);
      r := turn;
    }

    /** Take in a response that has been judged and admitted. */
    method Absorb(turn: Turn, raw: Raw)
      requires governor.Valid() && governor.limits == budgets && !stopped && !governor.stopped && waiting && pending == []
      requires governor.usage.contentBytes == Sum(sizes) + raw.size && Orderly(history, [], seen)
      requires raw.document.Response? && ReadOutput(lib, raw.document.output, seen).Success?
      requires turn.calls == ReadOutput(lib, raw.document.output, seen).value.calls && (turn.isFinal <==> turn.calls == [])
      modifies this, governor
      ensures Valid() && sizes == old(sizes) + [raw.size] && governor.usage == old(governor.usage)
      ensures !turn.isFinal ==>
        (&& !stopped && !waiting && pending == turn.calls && |pending| > 0 && admitted == old(admitted)
         && history == old(history) + Entries(raw.document.output) && seen == WithReferences(old(seen), turn.calls))
      ensures turn.isFinal ==> Ended()
    {
      SumAppend(sizes, raw.size);
      sizes := sizes + [raw.size];
      OrderlyAccept(history, raw.document.output, lib, seen);
      seen := WithReferences(seen, turn.calls);
      history := history + Entries(raw.document.output);
      pending := turn.calls;
      waiting := false;
      if turn.isFinal {
        Stop();
      }
    }

    lemma JudgeReads(lib: Library, b: Budgets, seen: set<string>, raw: Raw, turn: Turn)
      requires Judge(lib, b, seen, raw) == Success(turn)
      ensures raw.document.Response? && ReadOutput(lib, raw.document.output, seen).Success?
      ensures turn.calls == ReadOutput(lib, raw.document.output, seen).value.calls && (turn.isFinal <==> turn.calls == [])
    {
    }

    lemma OrderlyAccept(history: seq<Entry>, output: seq<Item>, lib: Library, seen: set<string>)
      requires Orderly(history, [], seen) && ReadOutput(lib, output, seen).Success?
      ensures var calls := ReadOutput(lib, output, seen).value.calls;
        Orderly(history + Entries(output), calls, WithReferences(seen, calls))
    {
      var calls := ReadOutput(lib, output, seen).value.calls;
      Reads(lib, output, seen);
      AppendItems(history, output);
      InOrderAppend(history, output);
      Fresh(Calls(history), References(calls), seen);
      assert Outputs(history) + References([]) == Outputs(history);
      var more := WithReferences(seen, calls);
      forall id ensures id in more <==> id in Calls(history + Entries(output)) {
        if id in Calls(history + Entries(output)) && id !in Calls(history) {
          assert id in References(calls);
        }
        if id in more && id !in seen {
          var i :| 0 <= i < |calls| && calls[i].reference == id;
          assert References(calls)[i] == id;
        }
      }
    }

    /** Only the first pending call may be attempted, and only once. */
    method AdmitTool(at: Moment, reference: string) returns (r: Outcome<()>)
      requires Valid()
      modifies this, governor
      ensures Valid() && sizes == old(sizes)
      ensures r.Success? <==>
        (&& old(!stopped && !admitted && pending != [] && pending[0].reference == reference)
         && HasRoom(budgets, old(governor.usage), at, Tool, 0))
      ensures r.Success? ==>
        (&& !stopped && admitted && pending == old(pending) && history == old(history) && waiting == old(waiting) && seen == old(seen)
         && governor.usage == Charge(old(governor.usage), Tool, 0))
      ensures r.Failure? ==> governor.usage == old(governor.usage)
      ensures r.Failure? ==>
        r.error == if !old(!stopped && !admitted && pending != [] && pending[0].reference == reference) then ProtocolError
                   else Denial(budgets, old(governor.usage), at, Tool, 0)
      ensures r.Failure? && old(!stopped && !admitted && pending != [] && pending[0].reference == reference) ==> Ended()
      ensures r.Failure? && !old(!stopped && !admitted && pending != [] && pending[0].reference == reference) ==>
        (stopped, admitted, history, pending, seen) == old((stopped, admitted, history, pending, seen))
    {
      if stopped || admitted || |pending| == 0 || pending[0].reference != reference {
        return Failure(ProtocolError);
      }
      var admission := governor.Admit(at, Tool, 0);
      if admission.Failure? {
        Stop();
        return Failure(admission.error);
      }
      admitted := true;
      r := Success(());
    }

    /** The answer to the attempted call joins the history, and the call stops being pending. */
    method Deliver(at: Moment, reference: string, result: Delivery) returns (r: Outcome<()>)
      requires Valid()
      modifies this, governor
      ensures Valid()
      ensures r.Success? <==>
        (&& old(!stopped && admitted && pending != [] && pending[0].reference == reference)
         && result.encodes && result.size <= budgets.responseBytes && !result.sensitive
         && HasRoom(budgets, old(governor.usage), at, Content, result.size))
      ensures r.Success? ==>
        (&& !stopped && !admitted && pending == old(pending[1..]) && waiting == old(waiting) && seen == old(seen)
         && history == old(history) + [CallOutput(reference, result.text)]
         && sizes == old(sizes) + [result.size] && governor.usage == Charge(old(governor.usage), Content, result.size))
      ensures r.Failure? ==> governor.usage == old(governor.usage) && sizes == old(sizes)
      ensures r.Failure? ==>
        r.error == if !old(!stopped && admitted && pending != [] && pending[0].reference == reference) then ProtocolError
                   else if !result.encodes || result.size > budgets.responseBytes then BudgetExhausted
                   else if result.sensitive then DataPolicyRejected
                   else Denial(budgets, old(governor.usage), at, Content, result.size)
      ensures r.Failure? && old(!stopped && admitted && pending != [] && pending[0].reference == reference) ==> Ended()
      ensures r.Failure? && !old(!stopped && admitted && pending != [] && pending[0].reference == reference) ==>
        (stopped, admitted, history, pending, seen) == old((stopped, admitted, history, pending, seen))
    {
      if stopped || !admitted || |pending| == 0 || pending[0].reference != reference {
        return Failure(ProtocolError);
      }
      if !result.encodes || result.size > budgets.responseBytes {
        Stop();
        return Failure(BudgetExhausted);
      }
      if result.sensitive {
        Stop();
        return Failure(DataPolicyRejected);
      }
      var admission := governor.Admit(at, Content, result.size);
      if admission.Failure? {
        Stop();
        return Failure(admission.error);
      }
      Answer(result);
      r := Success(());
    }

    /** Take in an answer that has been admitted. */
    method Answer(result: Delivery)
      requires governor.Valid() && governor.limits == budgets && !stopped && !governor.stopped && !waiting && admitted && pending != []
      requires governor.usage.contentBytes == Sum(sizes) + result.size && Orderly(history, pending, seen)
      modifies this
      ensures Valid() && !stopped && !waiting && !admitted && pending == old(pending[1..])
      ensures history == old(history) + [CallOutput(old(pending[0].reference), result.text)]
      ensures sizes == old(sizes) + [result.size] && seen == old(seen)
    {
      SumAppend(sizes, result.size);
      sizes := sizes + [result.size];
      OrderlyDeliver(history, pending, seen, result.text);
      history := history + [CallOutput(pending[0].reference, result.text)];
      pending := pending[1..];
      admitted := false;
    }

    lemma OrderlyDeliver(history: seq<Entry>, pending: seq<Call>, seen: set<string>, output: string)
      requires Orderly(history, pending, seen) && pending != []
      ensures Orderly(history + [CallOutput(pending[0].reference, output)], pending[1..], seen)
    {
      var rest := References(pending[1..]);
      assert References(pending) == [pending[0].reference] + rest;
      assert Outputs(history) + [pending[0].reference] + rest == Outputs(history) + References(pending);
      InOrderAnswer(history, pending[0].reference, output, rest);
    }
  }

  // --------------------------------------------------------------------- the response loop

  method ReadTexts(phase: string, content: seq<Part>) returns (r: Outcome<seq<string>>)
    ensures r == Texts(phase, content)
  {
    var texts: seq<string> := [];
    for i := 0 to |content|
      invariant Texts(phase, content[..i]) == Success(texts)
    {
      assert content[..i + 1][..i] == content[..i];
      var part := content[i];
      if phase !in {"", "final_answer", "commentary"} || part.OtherPart? {
        TextsFail(phase, content, i + 1);
        return Failure(ProfileUnsupported);
      }
      if phase != "commentary" {
        texts := texts + [part.text];
      }
    }
    assert content[..|content|] == content;
    r := Success(texts);
  }

  lemma {:induction false} TextsFail(phase: string, content: seq<Part>, i: nat)
    requires i <= |content| && Texts(phase, content[..i]).Failure?
    ensures Texts(phase, content) == Texts(phase, content[..i])
    decreases |content|
  {
    if i < |content| {
      assert content[..|content| - 1][..i] == content[..i];
      TextsFail(phase, content[..|content| - 1], i);
    } else {
      assert content[..i] == content;
    }
  }

  lemma {:induction false} ReadFails(lib: Library, items: seq<Item>, seen: set<string>, i: nat)
    requires i <= |items| && ReadOutput(lib, items[..i], seen).Failure?
    ensures ReadOutput(lib, items, seen) == ReadOutput(lib, items[..i], seen)
    decreases |items|
  {
    if i < |items| {
      assert items[..|items| - 1][..i] == items[..i];
      ReadFails(lib, items[..|items| - 1], seen, i);
    } else {
      assert items[..i] == items;
    }
  }

  /** One item; batch holds the IDs read so far. */
  method ReadOne(lib: Library, item: Item, batch: set<string>, seen: set<string>, so: Read) returns (r: Outcome<Read>)
    requires forall id :: id in batch <==> id in References(so.calls)
    ensures r == ReadItem(lib, item, seen, so)
  {
    match item {
      case Garbled => return Failure(ProtocolError);
      case FunctionCall(untyped, extra, typed, id, name, status, arguments) =>
        if !untyped {
          return Failure(ProtocolError);
        }
        if extra {
          return Failure(ProfileUnsupported);
        }
        if !typed || !lib.privateID(id) || !lib.functionName(name) || id in batch || id in seen || status !in {"", "completed"} {
          return Failure(ProtocolError);
        }
        if arguments.Unusable? {
          return Failure(ProtocolError);
        }
        return Success(so.(calls := so.calls + [Call(id, name, arguments.input)]));
      case Reasoning(_) => return Success(so);
      case Message(typed, role, status, phase, content) =>
        if !typed || role != "assistant" || status !in {"", "completed"} || |content| == 0 {
          return Failure(ProtocolError);
        }
        var texts := ReadTexts(phase, content);
        if texts.Failure? {
          return Failure(texts.error);
        }
        return Success(so.(texts := so.texts + texts.value));
      case OtherItem => return Failure(ProfileUnsupported);
    }
  }

  method ReadItems(lib: Library, items: seq<Item>, seen: set<string>) returns (r: Outcome<Read>)
    ensures r == ReadOutput(lib, items, seen)
  {
    var batch: set<string> := {};
    var so := Read([], []);
    for i := 0 to |items|
      invariant ReadOutput(lib, items[..i], seen) == Success(so)
      invariant forall id :: id in batch <==> id in References(so.calls)
    {
      assert items[..i + 1][..i] == items[..i];
      var next := ReadOne(lib, items[i], batch, seen, so);
      if next.Failure? {
        ReadFails(lib, items, seen, i + 1);
        return next;
      }
      if items[i].FunctionCall? {
        assert References(next.value.calls) == References(so.calls) + [items[i].callID];
        batch := batch + {items[i].callID};
      }
      so := next.value;
    }
    assert items[..|items|] == items;
    r := Success(so);
  }

  method JoinTexts(texts: seq<string>) returns (text: string)
    ensures text == Join(texts)
  {
    text := "";
    for i := 0 to |texts|
      invariant text == Join(texts[..i])
    {
      assert texts[..i + 1][..i] == texts[..i];
      text := text + texts[i];
    }
    assert texts[..|texts|] == texts;
  }

  method ReadResponse(lib: Library, b: Budgets, seen: set<string>, raw: Raw) returns (r: Outcome<Turn>)
    ensures r == Judge(lib, b, seen, raw)
  {
    if raw.size > b.responseBytes {
      return Failure(BudgetExhausted);
    }
    if raw.document.NotDecoded? {
      return Failure(ProtocolError);
    }
    var d := raw.document;
    if d.status != "completed" || d.failed || |d.output| == 0 || |d.output| > 64 {
      return Failure(ProtocolError);
    }
    if raw.sensitive {
      return Failure(DataPolicyRejected);
    }
    var read := ReadItems(lib, d.output, seen);
    if read.Failure? {
      return Failure(read.error);
    }
    if |read.value.calls| > b.toolAttempts {
      return Failure(BudgetExhausted);
    }
    if |read.value.calls| > 0 {
      return Success(Turn(read.value.calls, false, NoAnswer));
    }
    if |read.value.texts| == 0 {
      return Failure(ProtocolError);
    }
    var text := JoinTexts(read.value.texts);
    if !lib.validJson(text) {
      return Success(Turn([], true, TextAnswer(text)));
    }
    if !lib.readable(text) {
      return Failure(ProtocolError);
    }
    r := Success(Turn([], true, JsonAnswer(text)));
  }
}
