/** What the credential scan finds, value by value: the places in a JSON document that make it sensitive, and that nothing else does. */
module ScanMeaning {
  import opened CredentialTree

  // ------------------------------------------------------------------------- places

  function Width(v: Json): nat
  {
    match v
    case Arr(items) => |items|
    case Obj(fields) => |fields|
    case _ => 0
  }

  function Child(v: Json, i: nat): (w: Json)
    requires i < Width(v)
    ensures w < v
  {
    if v.Arr? then v.items[i] else v.fields[i].value
  }

  /** The path leads to a value: each number picks an item or a field. */
  predicate PathIn(v: Json, path: seq<nat>)
    decreases |path|
  {
    path == [] || (path[0] < Width(v) && PathIn(Child(v, path[0]), path[1..]))
  }

  function At(v: Json, path: seq<nat>): Json
    requires PathIn(v, path)
    decreases |path|
  {
    if path == [] then v else At(Child(v, path[0]), path[1..])
  }

  /** What the place at the end of the path says, starting from what the place of v says. */
  function ContextAt(m: Library, v: Json, c: Context, path: seq<nat>): Context
    requires PathIn(v, path)
    decreases |path|
  {
    if path == [] then c else ContextAt(m, Child(v, path[0]), ChildContext(m, v, c, path[0]), path[1..])
  }

  function ChildContext(m: Library, v: Json, c: Context, i: nat): Context
    requires i < Width(v)
  {
    if v.Arr? then Item(ArrayIsAuthorization(m, c)) else Field(v.fields[i].name)
  }

  /** The value is sensitive here and by itself. */
  predicate Tells(m: Library, v: Json, c: Context, depth: nat, embedded: nat)
  {
    || Flagged(m, v, c)
    || (v.Str? && SensitiveText(m, v.text, embedded))
    || ((v.Arr? || v.Obj?) && depth + 1 > MAX_FRAMES)
  }

  predicate TellsAt(m: Library, v: Json, c: Context, depth: nat, embedded: nat, path: seq<nat>)
  {
    PathIn(v, path) && Tells(m, At(v, path), ContextAt(m, v, c, path), depth + |path|, embedded)
  }

  lemma TellsBelow(m: Library, v: Json, c: Context, depth: nat, embedded: nat, i: nat, path: seq<nat>)
    requires i < Width(v)
    ensures TellsAt(m, v, c, depth, embedded, [i] + path)
      <==> TellsAt(m, Child(v, i), ChildContext(m, v, c, i), depth + 1, embedded, path)
  {
    assert ([i] + path)[1..] == path;
  }

  predicate ChildSensitive(m: Library, v: Json, c: Context, depth: nat, embedded: nat, i: int)
  {
    0 <= i < Width(v) && Sensitive(m, Child(v, i), ChildContext(m, v, c, i), depth + 1, embedded)
  }

  /** Some value inside v tells. */
  ghost predicate SomeTells(m: Library, v: Json, c: Context, depth: nat, embedded: nat)
  {
    exists path :: TellsAt(m, v, c, depth, embedded, path)
  }

  ghost predicate ChildTells(m: Library, v: Json, c: Context, depth: nat, embedded: nat, i: int)
  {
    0 <= i < Width(v) && SomeTells(m, Child(v, i), ChildContext(m, v, c, i), depth + 1, embedded)
  }

  lemma TellsByChildren(m: Library, v: Json, c: Context, depth: nat, embedded: nat)
    ensures SomeTells(m, v, c, depth, embedded) <==> Tells(m, v, c, depth, embedded) || exists i :: ChildTells(m, v, c, depth, embedded, i)
  {
    hide Tells;
    if path :| TellsAt(m, v, c, depth, embedded, path) && path != [] {
      assert path == [path[0]] + path[1..];
      TellsBelow(m, v, c, depth, embedded, path[0], path[1..]);
      assert ChildTells(m, v, c, depth, embedded, path[0]);
    }
    if Tells(m, v, c, depth, embedded) {
      assert TellsAt(m, v, c, depth, embedded, []);
    }
    if i: int :| ChildTells(m, v, c, depth, embedded, i) {
      var j: nat := i;
      var path :| TellsAt(m, Child(v, j), ChildContext(m, v, c, j), depth + 1, embedded, path);
      TellsBelow(m, v, c, depth, embedded, j, path);
      assert TellsAt(m, v, c, depth, embedded, [j] + path);
    }
  }

  /** The recursion finds a value sensitive exactly when some value inside it tells. */
  lemma {:induction false} SensitiveIffTells(m: Library, v: Json, c: Context, depth: nat, embedded: nat)
    ensures Sensitive(m, v, c, depth, embedded) <==> SomeTells(m, v, c, depth, embedded)
    decreases v
  {
    hide Sensitive, Tells, SomeTells;
    SensitiveByChildren(m, v, c, depth, embedded);
    TellsByChildren(m, v, c, depth, embedded);
    forall i ensures ChildSensitive(m, v, c, depth, embedded, i) <==> ChildTells(m, v, c, depth, embedded, i) {
      if 0 <= i < Width(v) {
        SensitiveIffTells(m, Child(v, i), ChildContext(m, v, c, i), depth + 1, embedded);
      }
    }
  }

  lemma SensitiveByChildren(m: Library, v: Json, c: Context, depth: nat, embedded: nat)
    ensures Sensitive(m, v, c, depth, embedded) <==>
      Tells(m, v, c, depth, embedded) || exists i :: ChildSensitive(m, v, c, depth, embedded, i)
  {
    hide AnyItem, AnyField, Flagged, SensitiveText;
    match v {
      case Arr(items) =>
        AnyItemIs(m, items, ArrayIsAuthorization(m, c), depth + 1, embedded);
        forall i | 0 <= i < |items|
          ensures ChildSensitive(m, v, c, depth, embedded, i) <==> Sensitive(m, items[i], Item(ArrayIsAuthorization(m, c)), depth + 1, embedded) {
        }
      case Obj(fields) =>
        AnyFieldIs(m, fields, depth + 1, embedded);
        forall i | 0 <= i < |fields|
          ensures ChildSensitive(m, v, c, depth, embedded, i) <==> Sensitive(m, fields[i].value, Field(fields[i].name), depth + 1, embedded) {
        }
      case _ =>
    }
  }

  lemma {:induction false} AnyItemIs(m: Library, items: seq<Json>, auth: bool, depth: nat, embedded: nat)
    ensures AnyItem(m, items, auth, depth, embedded) <==> exists i :: 0 <= i < |items| && Sensitive(m, items[i], Item(auth), depth, embedded)
    decreases |items|
  {
    hide Sensitive;
    if items != [] {
      AnyItemIs(m, items[1..], auth, depth, embedded);
      if i :| 0 <= i < |items| && Sensitive(m, items[i], Item(auth), depth, embedded) {
        assert i > 0 ==> items[1..][i - 1] == items[i];
      }
    }
  }

  lemma {:induction false} AnyFieldIs(m: Library, fields: seq<Member>, depth: nat, embedded: nat)
    ensures AnyField(m, fields, depth, embedded)
      <==> exists i :: 0 <= i < |fields| && Sensitive(m, fields[i].value, Field(fields[i].name), depth, embedded)
    decreases |fields|
  {
    hide Sensitive;
    if fields != [] {
      AnyFieldIs(m, fields[1..], depth, embedded);
      if i :| 0 <= i < |fields| && Sensitive(m, fields[i].value, Field(fields[i].name), depth, embedded) {
        assert i > 0 ==> fields[1..][i - 1] == fields[i];
      }
    }
  }

  // ------------------------------------------------------------------ paths from their ends

  lemma {:induction false} PathEnds(m: Library, v: Json, c: Context, p: seq<nat>, i: nat)
    ensures PathIn(v, p + [i]) <==> PathIn(v, p) && i < Width(At(v, p))
    ensures PathIn(v, p + [i]) ==>
      At(v, p + [i]) == Child(At(v, p), i)
      && ContextAt(m, v, c, p + [i]) == ChildContext(m, At(v, p), ContextAt(m, v, c, p), i)
    decreases |p|
  {
    hide ChildContext;
    if p == [] {
      assert p + [i] == [i];
      assert PathIn(v, [i]) <==> i < Width(v);
    } else {
      assert (p + [i])[1..] == p[1..] + [i];
      if p[0] < Width(v) {
        PathEnds(m, Child(v, p[0]), ChildContext(m, v, c, p[0]), p[1..], i);
      }
    }
  }

  // ----------------------------------------------------------------------- what is exposed

  /** The name without underscores and hyphens. */
  function Bare(key: string): string
  {
    if key == "" then "" else Bare(key[..|key| - 1]) + (if key[|key| - 1] in {'_', '-'} then "" else [key[|key| - 1]])
  }

  lemma {:induction false} StripAppend(key: string, c: char)
    ensures Strip(key + [c]) == Strip(key) + (if c in {'_', '-'} then "" else [c])
  {
    if key == "" {
      assert key + [c] == [c] && [c][1..] == "";
    } else {
      assert (key + [c])[1..] == key[1..] + [c];
      StripAppend(key[1..], c);
    }
  }

  lemma {:induction false} StripIsBare(key: string)
    ensures Strip(key) == Bare(key)
    decreases |key|
  {
    if key != "" {
      var n := |key| - 1;
      StripIsBare(key[..n]);
      StripAppend(key[..n], key[n]);
      assert key == key[..n] + [key[n]];
    }
  }

  predicate CredentialName(m: Library, name: string)
  {
    m.lower(Bare(name)) in {"authorization", "apikey", "accesstoken", "refreshtoken", "clientsecret", "privatekey",
                            "token", "secret", "password"}
  }

  /** A field with a credential's name that holds anything but null or the empty string; under authorization, a string. */
  predicate FieldExposed(m: Library, v: Json, path: seq<nat>, i: nat)
  {
    && PathIn(v, path) && At(v, path).Obj? && i < |At(v, path).fields|
    && var f := At(v, path).fields[i];
    && CredentialName(m, f.name) && f.value != Null && f.value != Str("")
    && (m.lower(f.name) == "authorization" ==> f.value.Str?)
  }

  /** From the k-th step on the path runs through arrays only, and that step is a field that folds to authorization. */
  predicate UnderAuthorization(m: Library, v: Json, p: seq<nat>, k: nat)
  {
    && 1 <= k <= |p| && PathIn(v, p[..k - 1]) && At(v, p[..k - 1]).Obj?
    && p[k - 1] < |At(v, p[..k - 1]).fields|
    && var name := At(v, p[..k - 1]).fields[p[k - 1]].name;
    && name != "" && m.folds(name)
    && forall n :: k <= n <= |p| ==> PathIn(v, p[..n]) && At(v, p[..n]).Arr?
  }

  /** A nonempty string somewhere in the arrays of an authorization field. */
  predicate ListExposed(m: Library, v: Json, p: seq<nat>, i: nat, k: nat)
  {
    && PathIn(v, p + [i]) && UnderAuthorization(m, v, p, k)
    && At(v, p + [i]).Str? && At(v, p + [i]).text != ""
  }

  /** A string that matches one of the patterns. */
  predicate TextExposed(m: Library, v: Json, path: seq<nat>)
  {
    PathIn(v, path) && At(v, path).Str? && m.plain(At(v, path).text)
  }

  /** A value that takes more than 128 open containers to reach the end of. */
  predicate TooDeep(v: Json, path: seq<nat>)
  {
    PathIn(v, path) && |path| >= 128 && (At(v, path).Arr? || At(v, path).Obj?)
  }

  /** A string that is itself a JSON text: exposed when that is, and whatever it holds below four others. */
  ghost predicate EmbeddedExposed(m: Library, v: Json, path: seq<nat>, embedded: nat)
    decreases MAX_EMBEDDED - embedded, 0
  {
    && PathIn(v, path) && At(v, path).Str? && m.parse(At(v, path).text).IsJson?
    && (embedded >= 4 || Exposed(m, m.parse(At(v, path).text).json, embedded + 1))
  }

  ghost predicate Exposed(m: Library, v: Json, embedded: nat)
    decreases MAX_EMBEDDED - embedded, 1
  {
    || (exists path, i :: FieldExposed(m, v, path, i))
    || (exists p, i, k :: ListExposed(m, v, p, i, k))
    || (exists path :: TextExposed(m, v, path))
    || (exists path :: EmbeddedExposed(m, v, path, embedded))
    || (exists path :: TooDeep(v, path))
  }

  // ------------------------------------------------------------- the scan finds exactly that

  lemma {:induction false} AuthorizationArray(m: Library, v: Json, p: seq<nat>)
    requires PathIn(v, p) && At(v, p).Arr?
    ensures ArrayIsAuthorization(m, ContextAt(m, v, Top, p)) <==> exists k :: UnderAuthorization(m, v, p, k)
    decreases |p|
  {
    if p != [] {
      var q, i := p[..|p| - 1], p[|p| - 1];
      assert p == q + [i];
      PathEnds(m, v, Top, q, i);
      if At(v, q).Arr? {
        AuthorizationArray(m, v, q);
        forall k ensures UnderAuthorization(m, v, q, k) <==> UnderAuthorization(m, v, p, k) {
          UnderLonger(m, v, q, i, k);
        }
      } else {
        UnderItself(m, v, q, i);
      }
    }
  }

  lemma UnderLonger(m: Library, v: Json, q: seq<nat>, i: nat, k: nat)
    requires PathIn(v, q + [i]) && PathIn(v, q) && At(v, q).Arr? && At(v, q + [i]).Arr?
    ensures UnderAuthorization(m, v, q, k) <==> UnderAuthorization(m, v, q + [i], k)
  {
    var p := q + [i];
    assert 1 <= k <= |q| ==> p[..k - 1] == q[..k - 1];
    assert p[..|q|] == q;
    if UnderAuthorization(m, v, q, k) {
      forall n | k <= n <= |p| ensures PathIn(v, p[..n]) && At(v, p[..n]).Arr? {
        assert p[..n] == if n <= |q| then q[..n] else p;
      }
    }
    if UnderAuthorization(m, v, p, k) {
      forall n | k <= n <= |q| ensures PathIn(v, q[..n]) && At(v, q[..n]).Arr? {
        assert p[..n] == q[..n];
      }
    }
  }

  lemma UnderItself(m: Library, v: Json, q: seq<nat>, i: nat)
    requires PathIn(v, q + [i]) && PathIn(v, q) && At(v, q).Obj? && i < |At(v, q).fields| && At(v, q + [i]).Arr?
    ensures IsAuthorization(m, At(v, q).fields[i].name) <==> exists k :: UnderAuthorization(m, v, q + [i], k)
  {
    var p := q + [i];
    assert p[..|q|] == q && p[..|p|] == p;
    forall k: nat | UnderAuthorization(m, v, p, k) ensures k == |p| {
    }
    if IsAuthorization(m, At(v, q).fields[i].name) {
      forall n | |p| <= n <= |p| ensures PathIn(v, p[..n]) && At(v, p[..n]).Arr? {
        assert p[..n] == p;
      }
      assert UnderAuthorization(m, v, p, |p|);
    }
  }

  /** What a place gives away about the value at it: the field it is in, or the authorization arrays around it. */
  lemma FlaggedIff(m: Library, v: Json, p: seq<nat>, i: nat)
    requires PathIn(v, p + [i])
    ensures Flagged(m, At(v, p + [i]), ContextAt(m, v, Top, p + [i]))
      <==> FieldExposed(m, v, p, i) || exists k :: ListExposed(m, v, p, i, k)
  {
    PathEnds(m, v, Top, p, i);
    var parent := At(v, p);
    if parent.Obj? {
      StripIsBare(parent.fields[i].name);
      forall k ensures !ListExposed(m, v, p, i, k) {
        assert p[..|p|] == p;
      }
    } else {
      AuthorizationArray(m, v, p);
      hide UnderAuthorization;
      if k :| UnderAuthorization(m, v, p, k) {
        assert ListExposed(m, v, p, i, k) <==> At(v, p + [i]).Str? && At(v, p + [i]).text != "";
      }
    }
  }

  ghost predicate InAuthorization(m: Library, v: Json, p: seq<nat>, i: nat)
  {
    exists k :: ListExposed(m, v, p, i, k)
  }

  /** This place is one of those. */
  ghost predicate ExposedAt(m: Library, v: Json, path: seq<nat>, embedded: nat)
  {
    || (path != [] && (FieldExposed(m, v, path[..|path| - 1], path[|path| - 1])
                       || InAuthorization(m, v, path[..|path| - 1], path[|path| - 1])))
    || TextExposed(m, v, path) || EmbeddedExposed(m, v, path, embedded) || TooDeep(v, path)
  }

  lemma {:induction false} TellsIffExposed(m: Library, v: Json, path: seq<nat>, embedded: nat)
    requires embedded <= MAX_EMBEDDED
    ensures TellsAt(m, v, Top, 0, embedded, path) <==> ExposedAt(m, v, path, embedded)
    decreases MAX_EMBEDDED - embedded, 0
  {
    hide FieldExposed, ListExposed, Flagged, Sensitive, Exposed;
    if path != [] {
      var front, last := path[..|path| - 1], path[|path| - 1];
      assert path == front + [last];
      NoPlaceNoField(m, v, front, last);
      if PathIn(v, path) {
        FlaggedIff(m, v, front, last);
      }
    } else {
      TopIsNotFlagged(m, v);
    }
    if PathIn(v, path) && At(v, path).Str? && m.parse(At(v, path).text).IsJson? && embedded < MAX_EMBEDDED {
      ScanFindsExactly(m, m.parse(At(v, path).text).json, embedded + 1);
    }
  }

  lemma TopIsNotFlagged(m: Library, v: Json)
    ensures !Flagged(m, v, Top)
  {
  }

  lemma NoPlaceNoField(m: Library, v: Json, p: seq<nat>, i: nat)
    ensures FieldExposed(m, v, p, i) ==> PathIn(v, p + [i])
    ensures forall k :: ListExposed(m, v, p, i, k) ==> PathIn(v, p + [i])
  {
    PathEnds(m, v, Top, p, i);
  }

  lemma ExposedSomewhere(m: Library, v: Json, embedded: nat)
    ensures Exposed(m, v, embedded) <==> exists path :: ExposedAt(m, v, path, embedded)
  {
    hide FieldExposed, ListExposed, TextExposed, EmbeddedExposed, TooDeep;
    if path, i :| FieldExposed(m, v, path, i) {
      assert (path + [i])[..|path|] == path;
      assert ExposedAt(m, v, path + [i], embedded);
    }
    if p, i, k :| ListExposed(m, v, p, i, k) {
      assert (p + [i])[..|p|] == p;
      assert ExposedAt(m, v, p + [i], embedded);
    }
    if path :| TextExposed(m, v, path) {
      assert ExposedAt(m, v, path, embedded);
    }
    if path :| EmbeddedExposed(m, v, path, embedded) {
      assert ExposedAt(m, v, path, embedded);
    }
    if path :| TooDeep(v, path) {
      assert ExposedAt(m, v, path, embedded);
    }
  }

  /** The scan's verdict on a document: sensitive exactly when one of these places is in it. */
  lemma {:induction false} ScanFindsExactly(m: Library, v: Json, embedded: nat)
    requires embedded <= MAX_EMBEDDED
    ensures Sensitive(m, v, Top, 0, embedded) <==> Exposed(m, v, embedded)
    decreases MAX_EMBEDDED - embedded, 1
  {
    hide TellsAt, ExposedAt, Sensitive, Exposed;
    SensitiveIffTells(m, v, Top, 0, embedded);
    forall path ensures TellsAt(m, v, Top, 0, embedded, path) <==> ExposedAt(m, v, path, embedded) {
      TellsIffExposed(m, v, path, embedded);
    }
    ExposedSomewhere(m, v, embedded);
  }
}
