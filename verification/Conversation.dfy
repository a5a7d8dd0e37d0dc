/** What has been said so far, from the responses and the results of the calls alone. */
module Conversation {
  import opened Protocol
  import opened Responses
  import opened Host

  function ItemsOf(raw: Raw): seq<Item>
  {
    if raw.document.Response? then raw.document.output else []
  }

  /** All calls that these responses ask for, in order. */
  function Asked(talk: seq<Raw>): seq<Call>
  {
    if talk == [] then [] else Asked(talk[..|talk| - 1]) + CallsOf(ItemsOf(talk[|talk| - 1]))
  }

  function Named(calls: seq<Call>): set<string>
  {
    set i | 0 <= i < |calls| :: calls[i].reference
  }

  function IDs(talk: seq<Raw>): set<string>
  {
    Named(Asked(talk))
  }

  function Least(a: nat, b: nat): nat
  {
    if a <= b then a else b
  }

  /** The answers to the calls from one position up to another, each under its call's ID. */
  function Answers(calls: seq<Call>, outputs: seq<string>, from: nat, upto: nat): seq<Entry>
    requires upto <= |calls| && upto <= |outputs|
  {
    if upto <= from then [] else Answers(calls, outputs, from, upto - 1) + [CallOutput(calls[upto - 1].reference, outputs[upto - 1])]
  }

  /** The user's task, then every response with the answers to its calls, as far as there are outputs. */
  function Log(talk: seq<Raw>, outputs: seq<string>): seq<Entry>
  {
    if talk == [] then [User]
    else
      var front := talk[..|talk| - 1];
      Log(front, outputs) + Entries(ItemsOf(talk[|talk| - 1]))
        + Answers(Asked(talk), outputs, |Asked(front)|, Least(|Asked(talk)|, |outputs|))
  }

  /** Each response was given to exactly the log before it, and is acceptable after the calls before it. */
  ghost predicate Heard(lib: Library, b: Budgets, reply: (nat, seq<Entry>) -> Outcome<Raw>, talk: seq<Raw>, outputs: seq<string>)
  {
    forall k :: 0 <= k < |talk| ==> HeardAt(lib, b, reply, talk, outputs, k)
  }

  predicate HeardAt(lib: Library, b: Budgets, reply: (nat, seq<Entry>) -> Outcome<Raw>, talk: seq<Raw>, outputs: seq<string>, k: nat)
    requires k < |talk|
  {
    && reply(k, Log(talk[..k], outputs)) == Success(talk[k])
    && Acceptable(lib, b, IDs(talk[..k]), talk[k])
    && |Asked(talk[..k])| <= |outputs|
  }

  /** Only the last response may ask for nothing. */
  predicate AsksOn(talk: seq<Raw>)
  {
    forall k :: 0 <= k < |talk| ==> CallsOf(ItemsOf(talk[k])) != []
  }

  function Bytes(talk: seq<Raw>): nat
  {
    if talk == [] then 0 else Bytes(talk[..|talk| - 1]) + talk[|talk| - 1].size
  }

  lemma {:induction false} AnswersAgree(calls: seq<Call>, more: seq<Call>, outputs: seq<string>, others: seq<string>, from: nat, upto: nat)
    requires upto <= |calls| && upto <= |outputs| && upto <= |more| && upto <= |others|
    requires calls[..upto] == more[..upto] && outputs[..upto] == others[..upto]
    ensures Answers(calls, outputs, from, upto) == Answers(more, others, from, upto)
    decreases upto
  {
    if upto > from {
      assert calls[..upto][..upto - 1] == calls[..upto - 1] && more[..upto][..upto - 1] == more[..upto - 1];
      assert outputs[..upto][..upto - 1] == outputs[..upto - 1] && others[..upto][..upto - 1] == others[..upto - 1];
      assert calls[..upto][upto - 1] == more[..upto][upto - 1] && outputs[..upto][upto - 1] == others[..upto][upto - 1];
      AnswersAgree(calls, more, outputs, others, from, upto - 1);
    }
  }

  /** Once every call so far has its output, the log stays as it is. */
  lemma {:induction false} LogStays(talk: seq<Raw>, outputs: seq<string>, others: seq<string>)
    requires |Asked(talk)| <= |outputs| && |Asked(talk)| <= |others| && outputs[..|Asked(talk)|] == others[..|Asked(talk)|]
    ensures Log(talk, outputs) == Log(talk, others)
    decreases |talk|
  {
    if talk != [] {
      var front, n := talk[..|talk| - 1], |Asked(talk)|;
      var m := |Asked(front)|;
      assert outputs[..n][..m] == outputs[..m] && others[..n][..m] == others[..m];
      LogStays(front, outputs, others);
      AnswersAgree(Asked(talk), Asked(talk), outputs, others, m, n);
    }
  }

  /** One more output, to a call of the last response. */
  lemma LogAnswer(talk: seq<Raw>, outputs: seq<string>, output: string)
    requires talk != [] && |Asked(talk[..|talk| - 1])| <= |outputs| < |Asked(talk)|
    ensures Log(talk, outputs + [output]) == Log(talk, outputs) + [CallOutput(Asked(talk)[|outputs|].reference, output)]
  {
    hide CallsOf, Entries;
    var front, more, n := talk[..|talk| - 1], outputs + [output], |outputs|;
    var m := |Asked(front)|;
    assert more[..m] == outputs[..m] && more[..n] == outputs[..n];
    LogStays(front, more, outputs);
    AnswersAgree(Asked(talk), Asked(talk), more, outputs, m, n);
    var before := Log(front, outputs) + Entries(ItemsOf(talk[|talk| - 1]));
    assert Log(talk, more) == before + (Answers(Asked(talk), more, m, n) + [CallOutput(Asked(talk)[n].reference, output)]);
  }

  /** One more response, all of whose calls are open. */
  lemma LogResponse(talk: seq<Raw>, outputs: seq<string>, raw: Raw)
    requires |outputs| == |Asked(talk)|
    ensures Log(talk + [raw], outputs) == Log(talk, outputs) + Entries(ItemsOf(raw))
    ensures Asked(talk + [raw]) == Asked(talk) + CallsOf(ItemsOf(raw))
    ensures IDs(talk + [raw]) == Session.WithReferences(IDs(talk), CallsOf(ItemsOf(raw)))
  {
    hide CallsOf, Entries;
    var more := talk + [raw];
    assert more[..|talk|] == talk;
    NamedAppend(Asked(talk), CallsOf(ItemsOf(raw)));
    assert Log(talk, outputs) + Entries(ItemsOf(raw)) + [] == Log(talk, outputs) + Entries(ItemsOf(raw));
  }

  lemma NamedAppend(calls: seq<Call>, more: seq<Call>)
    ensures Named(calls + more) == Session.WithReferences(Named(calls), more)
  {
    var all := calls + more;
    forall i | 0 <= i < |calls| ensures calls[i].reference in Named(all) {
      assert all[i].reference == calls[i].reference;
    }
    forall i | 0 <= i < |more| ensures more[i].reference in Named(all) {
      assert all[|calls| + i].reference == more[i].reference;
    }
  }

  lemma HeardMore(lib: Library, b: Budgets, reply: (nat, seq<Entry>) -> Outcome<Raw>, talk: seq<Raw>, outputs: seq<string>, raw: Raw)
    requires Heard(lib, b, reply, talk, outputs) && |outputs| == |Asked(talk)|
    requires reply(|talk|, Log(talk, outputs)) == Success(raw) && Acceptable(lib, b, IDs(talk), raw)
    ensures Heard(lib, b, reply, talk + [raw], outputs)
  {
    hide Log, Acceptable, IDs, Asked;
    var more := talk + [raw];
    forall k | 0 <= k < |more| ensures HeardAt(lib, b, reply, more, outputs, k) {
      if k < |talk| {
        assert more[..k] == talk[..k] && HeardAt(lib, b, reply, talk, outputs, k);
      } else {
        assert more[..k] == talk;
      }
    }
  }

  lemma HeardStays(lib: Library, b: Budgets, reply: (nat, seq<Entry>) -> Outcome<Raw>, talk: seq<Raw>, outputs: seq<string>, output: string)
    requires Heard(lib, b, reply, talk, outputs)
    ensures Heard(lib, b, reply, talk, outputs + [output])
  {
    hide Log, Acceptable, IDs, Asked;
    forall k | 0 <= k < |talk| ensures HeardAt(lib, b, reply, talk, outputs + [output], k) {
      assert HeardAt(lib, b, reply, talk, outputs, k);
      var n := |Asked(talk[..k])|;
      assert (outputs + [output])[..n] == outputs[..n];
      LogStays(talk[..k], outputs + [output], outputs);
    }
  }
}
