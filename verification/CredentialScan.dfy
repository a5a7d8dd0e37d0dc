/** The streaming credential scan against plain recursion over the JSON tree. */
module CredentialScan {
  import opened CredentialTree
  import opened ScanMeaning

  // ----------------------------------------------------------------------------- the token machine

  datatype Token = NullToken | BoolToken | NumberToken | Text(text: string) | Open(isObject: bool) | Close(isObject: bool)

  function Tokens(v: Json): seq<Token>
    decreases v
  {
    match v
    case Null => [NullToken]
    case Bool(_) => [BoolToken]
    case Number(_) => [NumberToken]
    case Str(s) => [Text(s)]
    case Arr(items) => [Open(false)] + ItemTokens(items) + [Close(false)]
    case Obj(fields) => [Open(true)] + FieldTokens(fields) + [Close(true)]
  }

  function ItemTokens(items: seq<Json>): seq<Token>
    decreases items
  {
    if items == [] then [] else Tokens(items[0]) + ItemTokens(items[1..])
  }

  function FieldTokens(fields: seq<Member>): seq<Token>
    decreases fields
  {
    if fields == [] then [] else [Text(fields[0].name)] + Tokens(fields[0].value) + FieldTokens(fields[1..])
  }

  /** key: the next token of this object is a field name. */
  datatype Frame = Frame(isObject: bool, key: bool, name: string, authArray: bool)

  /** A value has ended: an object expects its next name. */
  function Consume(stack: seq<Frame>): (r: seq<Frame>)
    ensures |r| == |stack|
  {
    if stack != [] && stack[|stack| - 1].isObject then
      stack[|stack| - 1 := Frame(true, true, "", stack[|stack| - 1].authArray)]
    else stack
  }

  predicate TokenFlagged(m: Library, f: Frame, t: Token)
  {
    || (f.authArray && t.Text? && t.text != "")
    || (f.isObject && !f.key && Credential(m, f.name, t.Text?) && !t.NullToken? && t != Text(""))
  }

  function Push(m: Library, stack: seq<Frame>, isObject: bool): (r: seq<Frame>)
    ensures |r| == |stack| + 1
  {
    var auth := !isObject && stack != []
                && (stack[|stack| - 1].authArray || IsAuthorization(m, stack[|stack| - 1].name));
    Consume(stack) + [Frame(isObject, isObject, "", auth)]
  }

  /** The verdict of the machine on the remaining tokens. */
  predicate Run(m: Library, tokens: seq<Token>, stack: seq<Frame>, embedded: nat)
    decreases |tokens|
  {
    if tokens == [] then false
    else
      var t, rest := tokens[0], tokens[1..];
      if stack != [] && stack[|stack| - 1].isObject && stack[|stack| - 1].key && t.Text? then
        Run(m, rest, stack[|stack| - 1 := stack[|stack| - 1].(name := t.text, key := false)], embedded)
      else if stack != [] && TokenFlagged(m, stack[|stack| - 1], t) then true
      else
        match t
        case Open(isObject) => |stack| + 1 > MAX_FRAMES || Run(m, rest, Push(m, stack, isObject), embedded)
        case Close(_) => stack != [] && Run(m, rest, stack[..|stack| - 1], embedded)
        case Text(s) => SensitiveText(m, s, embedded) || Run(m, rest, Consume(stack), embedded)
        case _ => Run(m, rest, Consume(stack), embedded)
  }

  /** The top frame expects a value, and arrays carry no name. */
  predicate Ready(stack: seq<Frame>)
  {
    stack != [] ==> var f := stack[|stack| - 1]; if f.isObject then !f.key && !f.authArray else f.name == ""
  }

  function ContextOf(stack: seq<Frame>): Context
  {
    if stack == [] then Top
    else if stack[|stack| - 1].isObject then Field(stack[|stack| - 1].name)
    else Item(stack[|stack| - 1].authArray)
  }

  lemma PushContext(m: Library, stack: seq<Frame>, isObject: bool)
    requires Ready(stack)
    ensures Push(m, stack, isObject)[|stack|] == Frame(isObject, isObject, "", !isObject && ArrayIsAuthorization(m, ContextOf(stack)))
    ensures Push(m, stack, isObject)[..|stack|] == Consume(stack)
  {
  }

  /** Running over one whole value gives the recursive verdict on it, or goes on after it. */
  lemma {:induction false} RunValue(m: Library, v: Json, rest: seq<Token>, stack: seq<Frame>, embedded: nat)
    requires Ready(stack)
    ensures Run(m, Tokens(v) + rest, stack, embedded)
      <==> Sensitive(m, v, ContextOf(stack), |stack|, embedded) || Run(m, rest, Consume(stack), embedded)
    decreases v
  {
    match v {
      case Arr(items) => RunArray(m, v, rest, stack, embedded);
      case Obj(fields) => RunObject(m, v, rest, stack, embedded);
      case _ => assert Tokens(v) + rest == [Tokens(v)[0]] + rest;
    }
  }

  /** Opening a container: the same flag, the same limit, and then its content under a new frame. */
  lemma RunOpen(m: Library, v: Json, body: seq<Token>, stack: seq<Frame>, embedded: nat)
    requires Ready(stack) && (v.Arr? || v.Obj?)
    ensures Run(m, [Open(v.Obj?)] + body, stack, embedded)
      <==> Flagged(m, v, ContextOf(stack)) || |stack| + 1 > MAX_FRAMES || Run(m, body, Push(m, stack, v.Obj?), embedded)
  {
    hide Push;
    assert ([Open(v.Obj?)] + body)[1..] == body;
  }

  lemma SensitiveContainer(m: Library, v: Json, c: Context, depth: nat, embedded: nat)
    requires v.Arr? || v.Obj?
    ensures Sensitive(m, v, c, depth, embedded) <==>
      || Flagged(m, v, c) || depth + 1 > MAX_FRAMES
      || (if v.Arr? then AnyItem(m, v.items, ArrayIsAuthorization(m, c), depth + 1, embedded)
          else AnyField(m, v.fields, depth + 1, embedded))
  {
    hide AnyItem, AnyField, Flagged;
  }

  lemma ContainerTokens(v: Json, rest: seq<Token>)
    requires v.Arr? || v.Obj?
    ensures Tokens(v) + rest
      == [Open(v.Obj?)] + ((if v.Arr? then ItemTokens(v.items) else FieldTokens(v.fields)) + ([Close(v.Obj?)] + rest))
  {
    hide ItemTokens, FieldTokens;
  }

  lemma {:induction false} RunArray(m: Library, v: Json, rest: seq<Token>, stack: seq<Frame>, embedded: nat)
    requires Ready(stack) && v.Arr?
    ensures Run(m, Tokens(v) + rest, stack, embedded)
      <==> Sensitive(m, v, ContextOf(stack), |stack|, embedded) || Run(m, rest, Consume(stack), embedded)
    decreases v, 0
  {
    hide Run, Sensitive, Tokens, ItemTokens, FieldTokens, Flagged, AnyItem, AnyField, Push;
    ContainerTokens(v, rest);
    RunOpen(m, v, ItemTokens(v.items) + ([Close(false)] + rest), stack, embedded);
    PushContext(m, stack, false);
    RunItems(m, v.items, rest, Push(m, stack, false), embedded);
    SensitiveContainer(m, v, ContextOf(stack), |stack|, embedded);
  }

  lemma {:induction false} RunObject(m: Library, v: Json, rest: seq<Token>, stack: seq<Frame>, embedded: nat)
    requires Ready(stack) && v.Obj?
    ensures Run(m, Tokens(v) + rest, stack, embedded)
      <==> Sensitive(m, v, ContextOf(stack), |stack|, embedded) || Run(m, rest, Consume(stack), embedded)
    decreases v, 0
  {
    hide Run, Sensitive, Tokens, ItemTokens, FieldTokens, Flagged, AnyItem, AnyField, Push;
    ContainerTokens(v, rest);
    RunOpen(m, v, FieldTokens(v.fields) + ([Close(true)] + rest), stack, embedded);
    PushContext(m, stack, true);
    RunFields(m, v.fields, rest, Push(m, stack, true), embedded);
    SensitiveContainer(m, v, ContextOf(stack), |stack|, embedded);
  }

  lemma {:induction false} RunItems(m: Library, items: seq<Json>, rest: seq<Token>, stack: seq<Frame>, embedded: nat)
    requires stack != [] && !stack[|stack| - 1].isObject && stack[|stack| - 1].name == ""
    ensures Run(m, ItemTokens(items) + ([Close(false)] + rest), stack, embedded)
      <==> AnyItem(m, items, stack[|stack| - 1].authArray, |stack|, embedded) || Run(m, rest, stack[..|stack| - 1], embedded)
    decreases items
  {
    hide Sensitive, Tokens, FieldTokens;
    var tail := [Close(false)] + rest;
    assert tail[1..] == rest;
    if items == [] {
      assert ItemTokens(items) + tail == tail;
    } else {
      var more := ItemTokens(items[1..]) + tail;
      assert ItemTokens(items) + tail == Tokens(items[0]) + more;
      RunValue(m, items[0], more, stack, embedded);
      RunItems(m, items[1..], rest, stack, embedded);
    }
  }

  lemma {:induction false} RunFields(m: Library, fields: seq<Member>, rest: seq<Token>, stack: seq<Frame>, embedded: nat)
    requires stack != [] && stack[|stack| - 1] == Frame(true, true, "", false)
    ensures Run(m, FieldTokens(fields) + ([Close(true)] + rest), stack, embedded)
      <==> AnyField(m, fields, |stack|, embedded) || Run(m, rest, stack[..|stack| - 1], embedded)
    decreases fields
  {
    hide Sensitive, Tokens, ItemTokens;
    var tail := [Close(true)] + rest;
    assert tail[1..] == rest;
    if fields == [] {
      assert FieldTokens(fields) + tail == tail;
    } else {
      var name, v := fields[0].name, fields[0].value;
      var more := FieldTokens(fields[1..]) + tail;
      var named := stack[|stack| - 1 := stack[|stack| - 1].(name := name, key := false)];
      assert FieldTokens(fields) + tail == [Text(name)] + (Tokens(v) + more);
      assert ([Text(name)] + (Tokens(v) + more))[1..] == Tokens(v) + more;
      RunValue(m, v, more, named, embedded);
      assert Consume(named) == stack;
      RunFields(m, fields[1..], rest, stack, embedded);
    }
  }

  /** The machine on a whole document agrees with the recursion. */
  lemma MachineIsRecursion(m: Library, v: Json, embedded: nat)
    ensures Run(m, Tokens(v), [], embedded) <==> Sensitive(m, v, Top, 0, embedded)
  {
    RunValue(m, v, [], [], embedded);
    assert Tokens(v) + [] == Tokens(v);
  }

  // ------------------------------------------------------------------------------- the method

  /** The scan with its explicit stack; callers have checked that the message is JSON. */
  method SensitiveJSON(m: Library, message: string, embedded: nat) returns (found: bool)
    requires m.parse(message).IsJson? && embedded <= MAX_EMBEDDED
    ensures found <==> Sensitive(m, m.parse(message).json, Top, 0, embedded)
    ensures found <==> Exposed(m, m.parse(message).json, embedded)
    decreases MAX_EMBEDDED - embedded
  {
    var tokens, pos := Tokens(m.parse(message).json), 0;
    var stack: seq<Frame> := [];
    MachineIsRecursion(m, m.parse(message).json, embedded);
    ScanFindsExactly(m, m.parse(message).json, embedded);
    assert tokens[0..] == tokens;
    while pos < |tokens| || |stack| > 0
      invariant pos <= |tokens|
      invariant Run(m, tokens[pos..], stack, embedded) <==> Run(m, tokens, [], embedded)
      decreases |tokens| - pos
    {
      if pos == |tokens| {
        return false;
      }
      var token := tokens[pos];
      assert tokens[pos..][1..] == tokens[pos + 1..];
      pos := pos + 1;
      if |stack| > 0 {
        var f := stack[|stack| - 1];
        if f.isObject && f.key && token.Text? {
          stack := stack[|stack| - 1 := f.(name := token.text, key := false)];
          continue;
        }
        if TokenFlagged(m, f, token) {
          return true;
        }
      }
      match token {
        case Open(isObject) =>
          stack := Push(m, stack, isObject);
          if |stack| > MAX_FRAMES {
            return true;
          }
          continue;
        case Close(_) =>
          if |stack| == 0 {
            return false;
          }
          stack := stack[..|stack| - 1];
          continue;
        case Text(text) =>
          var sensitive := ScanText(m, text, embedded);
          if sensitive {
            return true;
          }
        case _ =>
      }
      stack := Consume(stack);
    }
    found := false;
  }

  method ScanText(m: Library, text: string, embedded: nat) returns (sensitive: bool)
    requires embedded <= MAX_EMBEDDED
    ensures sensitive <==> SensitiveText(m, text, embedded)
    decreases MAX_EMBEDDED - embedded, 0
  {
    if m.plain(text) {
      return true;
    }
    if m.parse(text).IsJson? {
      if embedded >= MAX_EMBEDDED {
        return true;
      }
      sensitive := SensitiveJSON(m, text, embedded + 1);
      return;
    }
    sensitive := false;
  }

  method ContainsSensitive(m: Library, message: string) returns (found: bool)
    ensures found <==> m.plain(message) || (m.parse(message).IsJson? && Sensitive(m, m.parse(message).json, Top, 0, 0))
    ensures found <==> m.plain(message) || (m.parse(message).IsJson? && Exposed(m, m.parse(message).json, 0))
  {
    if m.plain(message) {
      return true;
    }
    if !m.parse(message).IsJson? {
      return false;
    }
    found := SensitiveJSON(m, message, 0);
  }

  // ------------------------------------------------------------------------- what the cuts keep

  /** Context c says no more than context d. */
  predicate SaysLess(c: Context, d: Context)
  {
    c == d || c == Top || c == Item(false) || (c == Item(true) && d == Item(true))
  }

  /** A value found sensitive stays so deeper in a document, deeper in embedded text, or in a more telling place. */
  lemma {:induction false} StaysSensitive(m: Library, v: Json, c: Context, depth: nat, embedded: nat,
                                          c': Context, depth': nat, embedded': nat)
    requires SaysLess(c, c') && depth <= depth' && embedded <= embedded' <= MAX_EMBEDDED
    requires Sensitive(m, v, c, depth, embedded)
    ensures Sensitive(m, v, c', depth', embedded')
    decreases MAX_EMBEDDED - embedded, 1, v
  {
    if !Flagged(m, v, c) {
      match v {
        case Str(s) => TextStaysSensitive(m, s, embedded, embedded');
        case Arr(items) =>
          if depth' + 1 <= MAX_FRAMES {
            ItemsStaySensitive(m, items, ArrayIsAuthorization(m, c), depth + 1, embedded,
                               ArrayIsAuthorization(m, c'), depth' + 1, embedded');
          }
        case Obj(fields) =>
          if depth' + 1 <= MAX_FRAMES {
            FieldsStaySensitive(m, fields, depth + 1, embedded, depth' + 1, embedded');
          }
        case _ =>
      }
    }
  }

  lemma {:induction false} TextStaysSensitive(m: Library, s: string, embedded: nat, embedded': nat)
    requires embedded <= embedded' <= MAX_EMBEDDED && SensitiveText(m, s, embedded)
    ensures SensitiveText(m, s, embedded')
    decreases MAX_EMBEDDED - embedded, 0
  {
    if !m.plain(s) && embedded' < MAX_EMBEDDED {
      StaysSensitive(m, m.parse(s).json, Top, 0, embedded + 1, Top, 0, embedded' + 1);
    }
  }

  lemma {:induction false} ItemsStaySensitive(m: Library, items: seq<Json>, auth: bool, depth: nat, embedded: nat,
                                              auth': bool, depth': nat, embedded': nat)
    requires (auth ==> auth') && depth <= depth' && embedded <= embedded' <= MAX_EMBEDDED
    requires AnyItem(m, items, auth, depth, embedded)
    ensures AnyItem(m, items, auth', depth', embedded')
    decreases MAX_EMBEDDED - embedded, 1, items
  {
    if Sensitive(m, items[0], Item(auth), depth, embedded) {
      StaysSensitive(m, items[0], Item(auth), depth, embedded, Item(auth'), depth', embedded');
    } else {
      ItemsStaySensitive(m, items[1..], auth, depth, embedded, auth', depth', embedded');
    }
  }

  lemma {:induction false} FieldsStaySensitive(m: Library, fields: seq<Member>, depth: nat, embedded: nat,
                                               depth': nat, embedded': nat)
    requires depth <= depth' && embedded <= embedded' <= MAX_EMBEDDED
    requires AnyField(m, fields, depth, embedded)
    ensures AnyField(m, fields, depth', embedded')
    decreases MAX_EMBEDDED - embedded, 1, fields
  {
    if Sensitive(m, fields[0].value, Field(fields[0].name), depth, embedded) {
      StaysSensitive(m, fields[0].value, Field(fields[0].name), depth, embedded, Field(fields[0].name), depth', embedded');
    } else {
      FieldsStaySensitive(m, fields[1..], depth, embedded, depth', embedded');
    }
  }

  lemma {:induction false} ItemMakesSensitive(m: Library, items: seq<Json>, i: nat, auth: bool, depth: nat, embedded: nat)
    requires i < |items| && Sensitive(m, items[i], Item(auth), depth, embedded)
    ensures AnyItem(m, items, auth, depth, embedded)
    decreases i
  {
    if i > 0 {
      ItemMakesSensitive(m, items[1..], i - 1, auth, depth, embedded);
    }
  }

  lemma {:induction false} FieldMakesSensitive(m: Library, fields: seq<Member>, i: nat, depth: nat, embedded: nat)
    requires i < |fields| && Sensitive(m, fields[i].value, Field(fields[i].name), depth, embedded)
    ensures AnyField(m, fields, depth, embedded)
    decreases i
  {
    if i > 0 {
      FieldMakesSensitive(m, fields[1..], i - 1, depth, embedded);
    }
  }

  /** A document found sensitive cannot be hidden in an array, in a field, or as text inside another document. */
  lemma WrappingDoesNotHide(m: Library, v: Json, items: seq<Json>, fields: seq<Member>, i: nat, text: string)
    requires Sensitive(m, v, Top, 0, 0)
    ensures i < |items| && items[i] == v ==> Sensitive(m, Arr(items), Top, 0, 0)
    ensures i < |fields| && fields[i].value == v ==> Sensitive(m, Obj(fields), Top, 0, 0)
    ensures m.parse(text) == IsJson(v) ==> Sensitive(m, Str(text), Top, 0, 0)
  {
    if i < |items| && items[i] == v {
      StaysSensitive(m, v, Top, 0, 0, Item(false), 1, 0);
      ItemMakesSensitive(m, items, i, false, 1, 0);
    }
    if i < |fields| && fields[i].value == v {
      StaysSensitive(m, v, Top, 0, 0, Field(fields[i].name), 1, 0);
      FieldMakesSensitive(m, fields, i, 1, 0);
    }
    if m.parse(text) == IsJson(v) {
      StaysSensitive(m, v, Top, 0, 0, Top, 0, 1);
    }
  }

  /** The nesting depth of arrays and objects. */
  function Depth(v: Json): nat
    decreases v
  {
    match v
    case Arr(items) => 1 + DeepestItem(items)
    case Obj(fields) => 1 + DeepestField(fields)
    case _ => 0
  }

  function DeepestItem(items: seq<Json>): nat
    decreases items
  {
    if items == [] then 0
    else
      var a, b := Depth(items[0]), DeepestItem(items[1..]);
      if a > b then a else b
  }

  function DeepestField(fields: seq<Member>): nat
    decreases fields
  {
    if fields == [] then 0
    else
      var a, b := Depth(fields[0].value), DeepestField(fields[1..]);
      if a > b then a else b
  }

  /** A value that needs more than 128 frames is always found sensitive. */
  lemma {:induction false} TooDeepIsSensitive(m: Library, v: Json, c: Context, depth: nat, embedded: nat)
    requires depth <= MAX_FRAMES && depth + Depth(v) > MAX_FRAMES
    ensures Sensitive(m, v, c, depth, embedded)
    decreases v
  {
    match v {
      case Arr(items) => if depth < MAX_FRAMES { DeepItem(m, items, ArrayIsAuthorization(m, c), depth + 1, embedded); }
      case Obj(fields) => if depth < MAX_FRAMES { DeepField(m, fields, depth + 1, embedded); }
      case _ =>
    }
  }

  lemma {:induction false} DeepItem(m: Library, items: seq<Json>, auth: bool, depth: nat, embedded: nat)
    requires depth <= MAX_FRAMES && depth + DeepestItem(items) > MAX_FRAMES
    ensures AnyItem(m, items, auth, depth, embedded)
    decreases items
  {
    if depth + Depth(items[0]) > MAX_FRAMES {
      TooDeepIsSensitive(m, items[0], Item(auth), depth, embedded);
    } else {
      DeepItem(m, items[1..], auth, depth, embedded);
    }
  }

  lemma {:induction false} DeepField(m: Library, fields: seq<Member>, depth: nat, embedded: nat)
    requires depth <= MAX_FRAMES && depth + DeepestField(fields) > MAX_FRAMES
    ensures AnyField(m, fields, depth, embedded)
    decreases fields
  {
    if depth + Depth(fields[0].value) > MAX_FRAMES {
      TooDeepIsSensitive(m, fields[0].value, Field(fields[0].name), depth, embedded);
    } else {
      DeepField(m, fields[1..], depth, embedded);
    }
  }
}
