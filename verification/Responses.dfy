/** Which responses a session takes, item by item, and what it takes from them. */
module Responses {
  import opened Protocol

  /** The i-th item is one the session can use, and a call does not take the ID of an earlier one. */
  predicate ItemFine(lib: Library, items: seq<Item>, i: int, seen: set<string>)
    requires 0 <= i < |items|
  {
    match items[i]
    case Garbled => false
    case OtherItem => false
    case Reasoning(_) => true
    case FunctionCall(untyped, extra, typed, id, name, status, arguments) =>
      && untyped && typed && !extra && arguments.Usable? && (status == "" || status == "completed")
      && lib.privateID(id) && lib.functionName(name)
      && id !in seen && forall j :: 0 <= j < i && items[j].FunctionCall? ==> items[j].callID != id
    case Message(typed, role, status, phase, content) =>
      && typed && role == "assistant" && (status == "" || status == "completed")
      && (phase == "" || phase == "final_answer" || phase == "commentary")
      && |content| > 0 && PartsKnown(content)
  }

  predicate PartsKnown(content: seq<Part>)
  {
    forall k :: 0 <= k < |content| ==> content[k].OutputText? || content[k].Refusal?
  }

  function CallIn(item: Item): seq<Call>
  {
    if item.FunctionCall? && item.arguments.Usable? then [Call(item.callID, item.name, item.arguments.input)] else []
  }

  /** The calls asked for, in order. */
  function CallsOf(items: seq<Item>): seq<Call>
  {
    if items == [] then [] else CallIn(items[0]) + CallsOf(items[1..])
  }

  /** Commentary is not said to the user. */
  function Spoken(item: Item): seq<string>
  {
    if item.Message? && item.phase != "commentary" then PartTexts(item.content) else []
  }

  /** What is said to the user. */
  function SpokenIn(items: seq<Item>): seq<string>
  {
    if items == [] then [] else Spoken(items[0]) + SpokenIn(items[1..])
  }

  function PartText(part: Part): seq<string>
  {
    if part.OtherPart? then [] else [part.text]
  }

  function PartTexts(content: seq<Part>): seq<string>
  {
    if content == [] then [] else PartText(content[0]) + PartTexts(content[1..])
  }

  function Joined(texts: seq<string>): string
  {
    if texts == [] then "" else texts[0] + Joined(texts[1..])
  }

  /** A completed response within the limits, of usable items only, that asks for calls or says something readable. */
  predicate Acceptable(lib: Library, b: Budgets, seen: set<string>, raw: Raw)
  {
    && raw.size <= b.responseBytes && !raw.sensitive && raw.document.Response?
    && var d := raw.document;
    && d.status == "completed" && !d.failed && 1 <= |d.output| <= 64
    && (forall i :: 0 <= i < |d.output| ==> ItemFine(lib, d.output, i, seen))
    && |CallsOf(d.output)| <= b.toolAttempts
    && (CallsOf(d.output) == [] ==>
          && SpokenIn(d.output) != []
          && (lib.validJson(Joined(SpokenIn(d.output))) ==> lib.readable(Joined(SpokenIn(d.output)))))
  }

  /** What an acceptable response means: calls to make, or else the final answer. */
  function Meant(lib: Library, items: seq<Item>): Turn
  {
    var calls, text := CallsOf(items), Joined(SpokenIn(items));
    if calls != [] then Turn(calls, false, NoAnswer)
    else Turn([], true, if lib.validJson(text) then JsonAnswer(text) else TextAnswer(text))
  }

  // ------------------------------------------------------------------------- appending an item

  lemma {:induction false} CallsOfAppend(items: seq<Item>, item: Item)
    ensures CallsOf(items + [item]) == CallsOf(items) + CallIn(item)
  {
    hide CallIn;
    if items == [] {
      assert items + [item] == [item];
    } else {
      assert (items + [item])[1..] == items[1..] + [item];
      CallsOfAppend(items[1..], item);
    }
  }

  lemma {:induction false} SpokenAppend(items: seq<Item>, item: Item)
    ensures SpokenIn(items + [item]) == SpokenIn(items) + Spoken(item)
  {
    hide Spoken;
    if items == [] {
      assert items + [item] == [item];
    } else {
      assert (items + [item])[1..] == items[1..] + [item];
      SpokenAppend(items[1..], item);
    }
  }

  lemma {:induction false} PartsAppend(content: seq<Part>, part: Part)
    ensures PartTexts(content + [part]) == PartTexts(content) + PartText(part)
  {
    hide PartText;
    if content == [] {
      assert content + [part] == [part];
    } else {
      assert (content + [part])[1..] == content[1..] + [part];
      PartsAppend(content[1..], part);
    }
  }

  lemma {:induction false} JoinedAppend(texts: seq<string>, text: string)
    ensures Joined(texts + [text]) == Joined(texts) + text
  {
    if texts == [] {
      assert texts + [text] == [text] && [text][1..] == [];
    } else {
      assert (texts + [text])[1..] == texts[1..] + [text];
      JoinedAppend(texts[1..], text);
    }
  }

  lemma {:induction false} JoinIsJoined(texts: seq<string>)
    ensures Join(texts) == Joined(texts)
    decreases |texts|
  {
    if texts != [] {
      var n := |texts| - 1;
      JoinIsJoined(texts[..n]);
      JoinedAppend(texts[..n], texts[n]);
      assert texts == texts[..n] + [texts[n]];
    }
  }

  // ------------------------------------------------------------------ the reading is the meaning

  predicate PhaseKnown(phase: string)
  {
    phase == "" || phase == "final_answer" || phase == "commentary"
  }

  lemma KnownAppend(content: seq<Part>)
    requires content != []
    ensures PartsKnown(content) <==> PartsKnown(content[..|content| - 1]) && !content[|content| - 1].OtherPart?
  {
  }

  lemma TextsStep(phase: string, content: seq<Part>)
    requires content != []
    ensures var front, last := Texts(phase, content[..|content| - 1]), content[|content| - 1];
      Texts(phase, content)
      == if front.Failure? then front
         else if !PhaseKnown(phase) || last.OtherPart? then Failure(ProfileUnsupported)
         else Success(if phase == "commentary" then front.value else front.value + PartText(last))
  {
  }

  lemma {:induction false} TextsMean(phase: string, content: seq<Part>)
    ensures Texts(phase, content).Success? <==> content == [] || (PhaseKnown(phase) && PartsKnown(content))
    ensures Texts(phase, content).Success? ==> Texts(phase, content).value == if phase == "commentary" then [] else PartTexts(content)
    decreases |content|
  {
    if content != [] {
      hide PartsKnown, PhaseKnown, Texts, PartTexts;
      var n := |content| - 1;
      TextsMean(phase, content[..n]);
      TextsStep(phase, content);
      PartsAppend(content[..n], content[n]);
      assert content == content[..n] + [content[n]];
      KnownAppend(content);
      NoneKnown(content[..n]);
    }
  }

  lemma NoneKnown(content: seq<Part>)
    ensures content == [] ==> PartsKnown(content) && PartTexts(content) == []
  {
  }

  lemma {:induction false} CallReference(items: seq<Item>, id: string)
    requires forall j :: 0 <= j < |items| && items[j].FunctionCall? ==> items[j].arguments.Usable?
    ensures id in References(CallsOf(items)) <==> exists j :: 0 <= j < |items| && items[j].FunctionCall? && items[j].callID == id
  {
    if items != [] {
      CallReference(items[1..], id);
      var first := CallIn(items[0]);
      assert References(CallsOf(items)) == References(first) + References(CallsOf(items[1..]));
      assert id in References(first) <==> items[0].FunctionCall? && items[0].callID == id by {
        if items[0].FunctionCall? {
          assert References(first) == [items[0].callID];
        }
      }
      if j :| 0 <= j < |items| && items[j].FunctionCall? && items[j].callID == id && j > 0 {
        assert items[1..][j - 1] == items[j];
      }
      if id in References(CallsOf(items[1..])) {
        var j :| 0 <= j < |items[1..]| && items[1..][j].FunctionCall? && items[1..][j].callID == id;
        assert items[j + 1].callID == id;
      }
    }
  }

  ghost predicate AllFine(lib: Library, items: seq<Item>, seen: set<string>)
  {
    forall i :: 0 <= i < |items| ==> ItemFine(lib, items, i, seen)
  }

  lemma FineBefore(lib: Library, items: seq<Item>, item: Item, i: int, seen: set<string>)
    requires 0 <= i < |items|
    ensures ItemFine(lib, items + [item], i, seen) <==> ItemFine(lib, items, i, seen)
  {
    var more := items + [item];
    assert forall j :: 0 <= j <= i ==> more[j] == items[j];
  }

  lemma AllFineAppend(lib: Library, items: seq<Item>, item: Item, seen: set<string>)
    ensures AllFine(lib, items + [item], seen) <==> AllFine(lib, items, seen) && ItemFine(lib, items + [item], |items|, seen)
  {
    var more := items + [item];
    hide ItemFine;
    forall i | 0 <= i < |items| ensures ItemFine(lib, more, i, seen) <==> ItemFine(lib, items, i, seen) {
      FineBefore(lib, items, item, i, seen);
    }
    if AllFine(lib, items, seen) && ItemFine(lib, more, |items|, seen) {
      forall i | 0 <= i < |more| ensures ItemFine(lib, more, i, seen) {
        assert i < |items| || i == |items|;
      }
    }
    if AllFine(lib, more, seen) {
      forall i | 0 <= i < |items| ensures ItemFine(lib, items, i, seen) {
        assert ItemFine(lib, more, i, seen);
      }
    }
  }

  lemma CallMeans(lib: Library, items: seq<Item>, item: Item, seen: set<string>, so: Read)
    requires AllFine(lib, items, seen) && item.FunctionCall? && so.calls == CallsOf(items)
    ensures ReadItem(lib, item, seen, so).Success? <==> ItemFine(lib, items + [item], |items|, seen)
    ensures ReadItem(lib, item, seen, so).Success? ==> ReadItem(lib, item, seen, so).value == Read(so.calls + CallIn(item), so.texts)
  {
    forall j | 0 <= j < |items| && items[j].FunctionCall? ensures items[j].arguments.Usable? {
      assert ItemFine(lib, items, j, seen);
    }
    CallReference(items, item.callID);
    var more := items + [item];
    assert more[|items|] == item && forall j :: 0 <= j < |items| ==> more[j] == items[j];
    hide AllFine, CallsOf, References, Texts;
  }

  lemma MessageMeans(lib: Library, items: seq<Item>, item: Item, seen: set<string>, so: Read)
    requires !item.FunctionCall?
    ensures ReadItem(lib, item, seen, so).Success? <==> ItemFine(lib, items + [item], |items|, seen)
    ensures ReadItem(lib, item, seen, so).Success? ==>
      ReadItem(lib, item, seen, so).value == Read(so.calls, so.texts + Spoken(item))
  {
    if item.Message? {
      TextsMean(item.phase, item.content);
    } else {
      assert so.texts + [] == so.texts;
    }
    assert (items + [item])[|items|] == item;
    hide Texts, PartTexts;
  }

  lemma ItemMeans(lib: Library, items: seq<Item>, item: Item, seen: set<string>)
    requires AllFine(lib, items, seen)
    ensures var so := Read(CallsOf(items), SpokenIn(items));
      && (ReadItem(lib, item, seen, so).Success? <==> ItemFine(lib, items + [item], |items|, seen))
      && (ReadItem(lib, item, seen, so).Success? ==>
            ReadItem(lib, item, seen, so).value == Read(CallsOf(items) + CallIn(item), SpokenIn(items) + Spoken(item)))
  {
    hide ReadItem, ItemFine, CallsOf, SpokenIn;
    var so := Read(CallsOf(items), SpokenIn(items));
    if item.FunctionCall? {
      CallMeans(lib, items, item, seen, so);
      assert so.texts + [] == so.texts;
    } else {
      MessageMeans(lib, items, item, seen, so);
      assert so.calls + [] == so.calls;
    }
  }

  lemma {:induction false} OutputMeans(lib: Library, items: seq<Item>, seen: set<string>)
    ensures ReadOutput(lib, items, seen).Success? <==> AllFine(lib, items, seen)
    ensures AllFine(lib, items, seen) ==> ReadOutput(lib, items, seen).value == Read(CallsOf(items), SpokenIn(items))
    decreases |items|
  {
    hide AllFine, ReadItem, ItemFine;
    if items == [] {
      NothingIsFine(lib, seen);
    } else {
      var n := |items| - 1;
      assert items == items[..n] + [items[n]];
      OutputMeans(lib, items[..n], seen);
      AllFineAppend(lib, items[..n], items[n], seen);
      if AllFine(lib, items[..n], seen) {
        ItemMeans(lib, items[..n], items[n], seen);
        CallsOfAppend(items[..n], items[n]);
        SpokenAppend(items[..n], items[n]);
      }
    }
  }

  lemma NothingIsFine(lib: Library, seen: set<string>)
    ensures AllFine(lib, [], seen)
  {
  }

  /** A response is judged good exactly when it is acceptable, and then read as it is meant. */
  lemma JudgeMeans(lib: Library, b: Budgets, seen: set<string>, raw: Raw)
    ensures Judge(lib, b, seen, raw).Success? <==> Acceptable(lib, b, seen, raw)
    ensures Acceptable(lib, b, seen, raw) ==> Judge(lib, b, seen, raw).value == Meant(lib, raw.document.output)
  {
    hide ItemFine, CallsOf, SpokenIn, Joined, Join, ReadOutput;
    if raw.document.Response? {
      OutputMeans(lib, raw.document.output, seen);
      JoinIsJoined(SpokenIn(raw.document.output));
    }
  }
}
