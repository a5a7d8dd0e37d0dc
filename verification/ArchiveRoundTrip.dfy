/** An exported suite imports unchanged, within the importer's limit; and equal suites have equal payloads. */
module ArchiveRoundTrip {
  import opened Text
  import opened Archive

  // -------------------------------------------------------------------------- the freezer

  /** One file to be frozen, with its own limit. */
  datatype Request = Request(name: string, limit: nat, content: Bytes)

  function Min(a: int, b: int): int
  {
    if a <= b then a else b
  }

  function Total(requests: seq<Request>): nat
  {
    if requests == [] then 0 else Total(requests[..|requests| - 1]) + |requests[|requests| - 1].content|
  }

  predicate EachWithin(requests: seq<Request>)
  {
    forall i :: 0 <= i < |requests| ==> |requests[i].content| <= requests[i].limit
  }

  predicate NamesDiffer(requests: seq<Request>)
  {
    forall i, j :: 0 <= i < j < |requests| ==> requests[i].name != requests[j].name
  }

  function FrozenFiles(requests: seq<Request>): Files
  {
    if requests == [] then map[]
    else FrozenFiles(requests[..|requests| - 1])[SUITE + requests[|requests| - 1].name := requests[|requests| - 1].content]
  }

  /** The file is there under the suite's directory, with what was read. */
  predicate HasFile(files: Files, request: Request)
  {
    "suite/" + request.name in files && files["suite/" + request.name] == request.content
  }

  /** Each file read is kept, under a name of its own. */
  lemma {:induction false} FrozenHolds(requests: seq<Request>, i: nat)
    requires NamesDiffer(requests) && i < |requests|
    ensures HasFile(FrozenFiles(requests), requests[i])
    decreases |requests|
  {
    var n := |requests| - 1;
    if i < n {
      FrozenHolds(requests[..n], i);
      assert ("suite/" + requests[i].name)[6..] == requests[i].name && ("suite/" + requests[n].name)[6..] == requests[n].name;
    }
  }

  /** Reading under a shared budget: it succeeds exactly when each file and their sum stay within bounds. */
  method Freeze(requests: seq<Request>) returns (r: Outcome<Files>)
    ensures r == if EachWithin(requests) && Total(requests) <= MAX_SUITE then Success(FrozenFiles(requests)) else Failure(ResourceLimit)
    ensures r.Success? <==> (forall i :: 0 <= i < |requests| ==> |requests[i].content| <= requests[i].limit) && Total(requests) <= 134_217_728
    ensures r.Success? && NamesDiffer(requests) ==>
      |r.value| == |requests| && forall i :: 0 <= i < |requests| ==> HasFile(r.value, requests[i])
  {
    var files: Files := map[];
    var remaining: int := MAX_SUITE;
    for i := 0 to |requests|
      invariant EachWithin(requests[..i]) && remaining == MAX_SUITE - Total(requests[..i]) && remaining >= 0
      invariant files == FrozenFiles(requests[..i])
    {
      assert requests[..i + 1][..i] == requests[..i];
      if |requests[i].content| > Min(requests[i].limit, remaining) {
        TotalGrows(requests, i + 1);
        return Failure(ResourceLimit);
      }
      remaining := remaining - |requests[i].content|;
      files := files[SUITE + requests[i].name := requests[i].content];
    }
    assert requests[..|requests|] == requests;
    r := Success(files);
    if NamesDiffer(requests) {
      FrozenCount(requests);
      forall i | 0 <= i < |requests| ensures HasFile(files, requests[i]) {
        FrozenHolds(requests, i);
      }
    }
  }

  lemma {:induction false} TotalGrows(requests: seq<Request>, i: nat)
    requires i <= |requests|
    ensures Total(requests[..i]) <= Total(requests)
    decreases |requests|
  {
    if i < |requests| {
      assert requests[..|requests| - 1][..i] == requests[..i];
      TotalGrows(requests[..|requests| - 1], i);
    } else {
      assert requests[..i] == requests;
    }
  }

  // ------------------------------------------------------------------------ what is assumed

  /** Headers and manifests decode to what was encoded, and lower-casing leaves ASCII without capitals alone. */
  ghost predicate Faithful(lib: Library)
  {
    && (forall name: string, size: nat :: lib.encodeHeader(name, size).Just? ==>
          (&& |lib.encodeHeader(name, size).value| == 512 && !AllZero(lib.encodeHeader(name, size).value)
           && lib.decodeHeader(lib.encodeHeader(name, size).value) == Just(Header(name, size, true))))
    && (forall m :: lib.parse(lib.marshal(m)) == Just(m))
    && forall name {:trigger lib.lower(name)} :: PlainLower(name) ==> lib.lower(name) == name
  }

  /** ASCII without capital letters, which lower-casing leaves alone. */
  predicate PlainLower(name: string)
  {
    forall i :: 0 <= i < |name| ==> LowerChar(name[i])
  }

  predicate LowerChar(c: char)
  {
    c < '\U{80}' && !('A' <= c <= 'Z')
  }

  function Sizes(items: seq<Item>): nat
  {
    if items == [] then 0 else Sizes(items[..|items| - 1]) + |items[|items| - 1].data|
  }

  /** Portable names that case folding leaves alone, file and suite sizes within the freezer's limits, and an eligible suite. */
  ghost predicate Freezable(lib: Library, files: Files, names: seq<string>)
  {
    && Sorted(names, files) && 1 <= |names| <= MAX_MEMBERS
    && (forall i :: 0 <= i < |names| ==> FileOk(lib, files, names[i]))
    && Portable(MANIFEST) && lib.lower(MANIFEST) == MANIFEST
    && Sizes(PayloadItems(names, files)) <= MAX_SUITE && lib.eligible(files).Eligible?
  }

  predicate FileOk(lib: Library, files: Files, n: string)
  {
    SUITE <= n && n in files && |files[n]| <= MAX_FILE && Portable(ToPayload(n)) && lib.lower(ToPayload(n)) == ToPayload(n)
  }

  // ----------------------------------------------------------------------------- sizes

  lemma EntrySize(lib: Library, it: Item)
    requires Faithful(lib) && Encodable(lib, it)
    ensures |EntryBytes(lib, it)| == 512 + Padded(|it.data|) <= |it.data| + 1023
  {
  }

  lemma {:induction false} BodySize(lib: Library, items: seq<Item>)
    requires Faithful(lib) && AllEncodable(lib, items)
    ensures |Body(lib, items)| <= Sizes(items) + 1023 * |items| && |Body(lib, items)| % 512 == 0
    decreases |items|
  {
    if items != [] {
      BodySize(lib, items[..|items| - 1]);
      EntrySize(lib, items[|items| - 1]);
    }
  }

  lemma {:induction false} SizesPrepend(first: Item, items: seq<Item>)
    ensures Sizes([first] + items) == |first.data| + Sizes(items)
    decreases |items|
  {
    if items == [] {
      assert [first] + items == [first];
    } else {
      var n := |items| - 1;
      SizesPrepend(first, items[..n]);
      assert ([first] + items)[..|items|] == [first] + items[..n];
    }
  }

  /** Whatever the freezer lets through stays below the importer's limit, with headers, padding, manifest and trailer. */
  lemma ArchiveFits(lib: Library, files: Files, names: seq<string>)
    requires Faithful(lib) && Freezable(lib, files, names) && AllEncodable(lib, ItemsOf(lib, names, files))
    requires |lib.marshal(ManifestOf(names, files))| <= MAX_MANIFEST
    ensures |Body(lib, ItemsOf(lib, names, files)) + Zeros(1024)| <= MAX_ARCHIVE
  {
    var items := ItemsOf(lib, names, files);
    BodySize(lib, items);
    SizesPrepend(items[0], PayloadItems(names, files));
  }

  lemma {:induction false} BodyPrefix(lib: Library, items: seq<Item>, k: nat)
    requires AllEncodable(lib, items) && k <= |items|
    ensures Body(lib, items[..k]) <= Body(lib, items)
    decreases |items|
  {
    if k == |items| {
      assert items[..k] == items;
    } else {
      assert items[..|items| - 1][..k] == items[..k];
      BodyPrefix(lib, items[..|items| - 1], k);
    }
  }

  /** The k-th entry follows the entries before it. */
  lemma EntryAt(lib: Library, items: seq<Item>, k: nat, tail: Bytes) returns (rest: Bytes)
    requires AllEncodable(lib, items) && k < |items|
    ensures Body(lib, items) + tail == Body(lib, items[..k]) + EntryBytes(lib, items[k]) + rest
  {
    BodyPrefix(lib, items, k + 1);
    assert items[..k + 1][..k] == items[..k];
    var upto := Body(lib, items[..k + 1]);
    assert upto == Body(lib, items[..k]) + EntryBytes(lib, items[k]);
    rest := Body(lib, items)[|upto|..] + tail;
    assert Body(lib, items) == upto + Body(lib, items)[|upto|..];
  }

  // ------------------------------------------------------- the freezer's budget bounds the payload

  lemma {:induction false} FrozenKeys(requests: seq<Request>, key: string)
    ensures key in FrozenFiles(requests) <==> exists i :: 0 <= i < |requests| && key == SUITE + requests[i].name
    decreases |requests|
  {
    if requests != [] {
      var n := |requests| - 1;
      FrozenKeys(requests[..n], key);
      if key in FrozenFiles(requests[..n]) {
        var i :| 0 <= i < n && key == SUITE + requests[..n][i].name;
        assert key == SUITE + requests[i].name;
      } else if key == SUITE + requests[n].name {
        assert key in FrozenFiles(requests);
      }
    }
  }

  lemma {:induction false} SizesWithout(items: seq<Item>, p: nat)
    requires p < |items|
    ensures Sizes(items) == Sizes(items[..p] + items[p + 1..]) + |items[p].data|
    decreases |items|
  {
    var n := |items| - 1;
    var fewer := items[..p] + items[p + 1..];
    if p == n {
      assert fewer == items[..n];
    } else {
      SizesWithout(items[..n], p);
      assert fewer[..n - 1] == items[..n][..p] + items[..n][p + 1..] && fewer[n - 1] == items[n];
    }
  }

  lemma RemovedMember(names: seq<string>, p: nat, n: string)
    requires Ascending(names) && p < |names|
    ensures n in names[..p] + names[p + 1..] <==> n in names && n != names[p]
  {
    hide LexLE;
    var fewer := names[..p] + names[p + 1..];
    if n in names && n != names[p] {
      var i :| 0 <= i < |names| && names[i] == n;
      assert fewer[if i < p then i else i - 1] == n;
    }
    if n in fewer {
      var i :| 0 <= i < |fewer| && fewer[i] == n;
      assert names[if i < p then i else i + 1] == n;
    }
  }

  lemma RemoveName(names: seq<string>, files: Files, p: nat) returns (fewer: seq<string>)
    requires Sorted(names, files) && p < |names|
    ensures fewer == names[..p] + names[p + 1..] && Sorted(fewer, files - {names[p]})
  {
    hide LexLE;
    fewer := names[..p] + names[p + 1..];
    forall n ensures n in fewer <==> n in names && n != names[p] {
      RemovedMember(names, p, n);
    }
  }

  /** However the frozen files are listed, their sizes add up to what the freezer counted. */
  lemma {:induction false} FrozenTotal(requests: seq<Request>, names: seq<string>)
    requires NamesDiffer(requests) && Sorted(names, FrozenFiles(requests))
    ensures Sizes(PayloadItems(names, FrozenFiles(requests))) == Total(requests)
    decreases |requests|
  {
    var files := FrozenFiles(requests);
    if requests == [] {
      KeyCount(names, files);
    } else {
      var n := |requests| - 1;
      var key := SUITE + requests[n].name;
      var before := FrozenFiles(requests[..n]);
      LastKeyIsNew(requests);
      assert key in names;
      var p :| 0 <= p < |names| && names[p] == key;
      var fewer := RemoveName(names, files, p);
      assert files - {key} == before;
      FrozenTotal(requests[..n], fewer);
      SizesWithout(PayloadItems(names, files), p);
      ItemsWithout(names, files, p, before);
    }
  }

  lemma LastKeyIsNew(requests: seq<Request>)
    requires NamesDiffer(requests) && requests != []
    ensures SUITE + requests[|requests| - 1].name !in FrozenFiles(requests[..|requests| - 1])
  {
    var n := |requests| - 1;
    var key := SUITE + requests[n].name;
    FrozenKeys(requests[..n], key);
    forall i | 0 <= i < n ensures SUITE + requests[..n][i].name != key {
      assert (SUITE + requests[..n][i].name)[|SUITE|..] == requests[i].name;
      assert key[|SUITE|..] == requests[n].name;
    }
  }

  lemma ItemsWithout(names: seq<string>, files: Files, p: nat, before: Files)
    requires (forall n :: n in names ==> n in files) && p < |names| && before == files - {names[p]}
    requires forall n :: n in names[..p] + names[p + 1..] ==> n in before
    ensures PayloadItems(names[..p] + names[p + 1..], before)
      == PayloadItems(names, files)[..p] + PayloadItems(names, files)[p + 1..]
  {
    var fewer, items := names[..p] + names[p + 1..], PayloadItems(names, files);
    forall i | 0 <= i < |fewer| ensures PayloadItems(fewer, before)[i] == (items[..p] + items[p + 1..])[i] {
      assert fewer[i] in before;
      assert fewer[i] == names[if i < p then i else i + 1];
    }
  }

  // --------------------------------------------------------------------- the importer's progress

  function NameSet(items: seq<Item>): set<string>
  {
    if items == [] then {} else NameSet(items[..|items| - 1]) + {items[|items| - 1].name}
  }

  function FilesOf(items: seq<Item>): Files
  {
    if items == [] then map[] else FilesOf(items[..|items| - 1])[ToKey(items[|items| - 1].name) := items[|items| - 1].data]
  }

  function NamesOf(items: seq<Item>): seq<string>
  {
    seq(|items|, i requires 0 <= i < |items| => items[i].name)
  }

  predicate PayloadOk(lib: Library, it: Item)
  {
    PAYLOAD <= it.name && |it.data| <= MAX_FILE && Portable(it.name) && lib.lower(it.name) == it.name
  }

  /** Entries the importer has no reason to refuse: the manifest, then payload within the limits. */
  ghost predicate Importable(lib: Library, m: Manifest, items: seq<Item>)
  {
    && AllEncodable(lib, items) && 2 <= |items| <= MAX_MEMBERS + 1 && GoodManifest(m)
    && items[0] == Item(MANIFEST, lib.marshal(m)) && |items[0].data| <= MAX_MANIFEST
    && Portable(MANIFEST) && lib.lower(MANIFEST) == MANIFEST
    && (forall i :: 1 <= i < |items| ==> PayloadOk(lib, items[i]))
    && (forall i, j :: 0 <= i < j < |items| ==> items[i].name != items[j].name)
    && Sizes(items[1..]) <= MAX_SUITE
  }

  /** The importer's state after k of the entries. */
  function After(lib: Library, m: Manifest, items: seq<Item>, k: nat): Scan
    requires AllEncodable(lib, items) && k <= |items|
  {
    var payload := if k == 0 then [] else items[1..k];
    Scan(|Body(lib, items[..k])|, k, NameSet(items[..k]), MAX_SUITE - Sizes(payload), FilesOf(payload), NamesOf(payload),
         if k == 0 then NO_MANIFEST else m)
  }

  lemma {:induction false} NameSetMember(items: seq<Item>, n: string) returns (i: nat)
    requires n in NameSet(items)
    ensures i < |items| && items[i].name == n
    decreases |items|
  {
    if items[|items| - 1].name == n {
      i := |items| - 1;
    } else {
      i := NameSetMember(items[..|items| - 1], n);
    }
  }

  lemma FreshName(items: seq<Item>, k: nat)
    requires k < |items| && forall i, j :: 0 <= i < j < |items| ==> items[i].name != items[j].name
    ensures items[k].name !in NameSet(items[..k])
  {
    if items[k].name in NameSet(items[..k]) {
      var i := NameSetMember(items[..k], items[k].name);
    }
  }

  lemma {:induction false} SizesMonotone(items: seq<Item>, k: nat)
    requires k <= |items|
    ensures Sizes(items[..k]) <= Sizes(items)
    decreases |items|
  {
    if k == |items| {
      assert items[..k] == items;
    } else {
      assert items[..|items| - 1][..k] == items[..k];
      SizesMonotone(items[..|items| - 1], k);
    }
  }

  /** An entry stands at pos: its header, its data, and zeros up to the next block. */
  ghost predicate EntryStands(lib: Library, raw: Bytes, pos: nat, it: Item)
    requires |raw| % 512 == 0
  {
    var start, end := pos + 512, pos + 512 + |it.data|;
    && pos % 512 == 0 && start + Padded(|it.data|) <= |raw|
    && NextHeader(lib, raw, pos) == Found(Header(it.name, |it.data|, true))
    && raw[start..end] == it.data && AllZero(raw[end..start + Padded(|it.data|)])
  }

  lemma HeaderFound(lib: Library, before: Bytes, it: Item, rest: Bytes, raw: Bytes)
    requires Faithful(lib) && Encodable(lib, it) && raw == before + EntryBytes(lib, it) + rest
    requires |raw| % 512 == 0 && |before| % 512 == 0
    ensures EntryStands(lib, raw, |before|, it)
  {
    var pos, e, header := |before|, EntryBytes(lib, it), lib.encodeHeader(it.name, |it.data|).value;
    EntrySize(lib, it);
    assert raw[pos..pos + 512] == header;
    assert raw[pos + 512..pos + 512 + |it.data|] == it.data;
    assert raw[pos + 512 + |it.data|..pos + |e|] == Zeros(Padded(|it.data|) - |it.data|);
  }

  /** How the state grows by one entry. */
  lemma AfterStep(lib: Library, m: Manifest, items: seq<Item>, k: nat)
    requires Importable(lib, m, items) && k < |items|
    ensures var s, t, it := After(lib, m, items, k), After(lib, m, items, k + 1), items[k];
      && t.pos == s.pos + |EntryBytes(lib, it)| && t.names == s.names + {it.name}
      && (k == 0 ==> s == START && t == Scan(t.pos, 1, {MANIFEST}, MAX_SUITE, map[], [], m))
      && (k > 0 ==> t == Scan(t.pos, k + 1, t.names, s.remaining - |it.data|, s.files[ToKey(it.name) := it.data],
                              s.actual + [it.name], s.manifest))
  {
    assert items[..k + 1][..k] == items[..k];
    if k == 0 {
      assert items[1..1] == [] && items[..0] == [];
      assert NameSet([]) == {};
    } else {
      assert items[1..k + 1][..k - 1] == items[1..k];
      assert items[1..k + 1][k - 1] == items[k];
    }
  }

  lemma TakeManifest(lib: Library, raw: Bytes, m: Manifest, size: nat, last: nat)
    requires |raw| % 512 == 0 && 512 + size <= last <= |raw| && last == 512 + Padded(size) && AllZero(raw[512 + size..last])
    requires Portable(MANIFEST) && lib.lower(MANIFEST) == MANIFEST && size <= MAX_MANIFEST && GoodManifest(m)
    requires lib.parse(raw[512..512 + size]) == Just(m)
    ensures Take(lib, raw, START, Header(MANIFEST, size, true)) == Success(Scan(last, 1, {MANIFEST}, MAX_SUITE, map[], [], m))
  {
    assert {} + {MANIFEST} == {MANIFEST};
  }

  lemma TakePayload(lib: Library, raw: Bytes, s: Scan, it: Item)
    requires |raw| % 512 == 0 && s.pos % 512 == 0 && PayloadOk(lib, it) && 1 <= s.count <= MAX_MEMBERS
    requires it.name !in s.names && |it.data| <= s.remaining && s.pos + 512 + Padded(|it.data|) <= |raw|
    requires var end := s.pos + 512 + |it.data|;
      raw[s.pos + 512..end] == it.data && AllZero(raw[end..s.pos + 512 + Padded(|it.data|)])
    ensures Take(lib, raw, s, Header(it.name, |it.data|, true))
      == Success(Scan(s.pos + 512 + Padded(|it.data|), s.count + 1, s.names + {it.name}, s.remaining - |it.data|,
                      s.files[ToKey(it.name) := it.data], s.actual + [it.name], s.manifest))
  {
  }

  /** The k-th entry stands where the first k end. */
  lemma EntryThere(lib: Library, items: seq<Item>, k: nat, raw: Bytes)
    requires Faithful(lib) && AllEncodable(lib, items) && k < |items|
    requires raw == Body(lib, items) + Zeros(1024) && |raw| % 512 == 0
    ensures EntryStands(lib, raw, |Body(lib, items[..k])|, items[k])
  {
    BodySize(lib, items[..k]);
    var rest := EntryAt(lib, items, k, Zeros(1024));
    HeaderFound(lib, Body(lib, items[..k]), items[k], rest, raw);
  }

  /** Scan t is scan s with one more entry. */
  ghost predicate OneMoreEntry(s: Scan, t: Scan, it: Item, m: Manifest)
  {
    && t.pos == s.pos + 512 + Padded(|it.data|) && t.names == s.names + {it.name}
    && (s.count == 0 ==> s == START && t == Scan(t.pos, 1, {MANIFEST}, MAX_SUITE, map[], [], m))
    && (s.count > 0 ==> t == Scan(t.pos, s.count + 1, t.names, s.remaining - |it.data|, s.files[ToKey(it.name) := it.data],
                                  s.actual + [it.name], s.manifest))
  }

  /** Nothing about the entry itself stops it. */
  ghost predicate Welcome(lib: Library, s: Scan, it: Item, m: Manifest)
  {
    && s.count <= MAX_MEMBERS && it.name !in s.names && |it.data| <= s.remaining
    && (s.count == 0 ==> it == Item(MANIFEST, lib.marshal(m)) && |it.data| <= MAX_MANIFEST && GoodManifest(m)
                         && Portable(MANIFEST) && lib.lower(MANIFEST) == MANIFEST)
    && (s.count > 0 ==> PayloadOk(lib, it))
  }

  lemma ReadyFor(lib: Library, m: Manifest, items: seq<Item>, k: nat)
    requires Faithful(lib) && Importable(lib, m, items) && k < |items|
    ensures Welcome(lib, After(lib, m, items, k), items[k], m)
    ensures OneMoreEntry(After(lib, m, items, k), After(lib, m, items, k + 1), items[k], m)
  {
    AfterStep(lib, m, items, k);
    EntrySize(lib, items[k]);
    IsWelcome(lib, m, items, k);
  }

  lemma IsWelcome(lib: Library, m: Manifest, items: seq<Item>, k: nat)
    requires Importable(lib, m, items) && k < |items|
    ensures Welcome(lib, After(lib, m, items, k), items[k], m)
  {
    FreshName(items, k);
    if k > 0 {
      assert PayloadOk(lib, items[k]);
      EnoughLeft(items[1..], k - 1);
      assert items[1..][..k - 1] == items[1..k];
    }
  }

  lemma TakeNext(lib: Library, raw: Bytes, s: Scan, t: Scan, it: Item, m: Manifest)
    requires Faithful(lib) && |raw| % 512 == 0 && EntryStands(lib, raw, s.pos, it)
    requires Welcome(lib, s, it, m) && OneMoreEntry(s, t, it, m)
    ensures NextHeader(lib, raw, s.pos) == Found(Header(it.name, |it.data|, true))
    ensures Take(lib, raw, s, Header(it.name, |it.data|, true)) == Success(t)
  {
    if s.count == 0 {
      TakeManifest(lib, raw, m, |it.data|, 512 + Padded(|it.data|));
    } else {
      TakePayload(lib, raw, s, it);
    }
  }

  lemma EnoughLeft(payload: seq<Item>, k: nat)
    requires k < |payload|
    ensures Sizes(payload[..k]) + |payload[k].data| <= Sizes(payload)
  {
    assert payload[..k + 1][..k] == payload[..k];
    SizesMonotone(payload, k + 1);
  }

  /** The states run through: each stands where its entries end, and takes the next entry. */
  ghost predicate Progresses(lib: Library, m: Manifest, items: seq<Item>, states: seq<Scan>)
    requires AllEncodable(lib, items)
  {
    && |states| == |items| + 1
    && (forall k :: 0 <= k < |states| ==> states[k].pos == |Body(lib, items[..k])|)
    && forall k :: 0 <= k < |items| ==> Welcome(lib, states[k], items[k], m) && OneMoreEntry(states[k], states[k + 1], items[k], m)
  }

  lemma WalksOne(lib: Library, m: Manifest, items: seq<Item>, states: seq<Scan>, k: nat, raw: Bytes)
    requires Faithful(lib) && AllEncodable(lib, items) && Progresses(lib, m, items, states) && k < |items|
    requires raw == Body(lib, items) + Zeros(1024) && |raw| % 512 == 0
    ensures states[k].pos % 512 == 0 && states[k].pos + 512 <= |raw|
    ensures NextHeader(lib, raw, states[k].pos) == Found(Header(items[k].name, |items[k].data|, true))
    ensures Take(lib, raw, states[k], Header(items[k].name, |items[k].data|, true)) == Success(states[k + 1])
  {
    EntryThere(lib, items, k, raw);
    TakeNext(lib, raw, states[k], states[k + 1], items[k], m);
  }

  lemma {:induction false} WalksAll(lib: Library, m: Manifest, items: seq<Item>, states: seq<Scan>, k: nat, raw: Bytes)
    requires Faithful(lib) && AllEncodable(lib, items) && Progresses(lib, m, items, states) && k <= |items|
    requires raw == Body(lib, items) + Zeros(1024) && |raw| % 512 == 0
    ensures states[k].pos % 512 == 0 && states[k].pos <= |raw| && Walk(lib, raw, states[k]) == Success(states[|items|])
    decreases |items| - k
  {
    hide Take, NextHeader, EntryBytes, Body, AllZero, Padded, Welcome, OneMoreEntry;
    if k == |items| {
      BodySize(lib, items);
      assert items[..k] == items;
      EndsHere(lib, Body(lib, items), raw);
    } else {
      WalksOne(lib, m, items, states, k, raw);
      WalksAll(lib, m, items, states, k + 1, raw);
    }
  }

  /** The importer's states, for entries it has no reason to refuse. */
  function States(lib: Library, m: Manifest, items: seq<Item>): (states: seq<Scan>)
    requires AllEncodable(lib, items)
    ensures |states| == |items| + 1
    ensures forall k :: 0 <= k <= |items| ==> states[k] == After(lib, m, items, k) && states[k].pos == |Body(lib, items[..k])|
  {
    seq(|items| + 1, k requires 0 <= k <= |items| => After(lib, m, items, k))
  }

  lemma StatesProgress(lib: Library, m: Manifest, items: seq<Item>) returns (states: seq<Scan>)
    requires Faithful(lib) && Importable(lib, m, items)
    ensures Progresses(lib, m, items, states)
    ensures states[0] == After(lib, m, items, 0) && states[|items|] == After(lib, m, items, |items|)
  {
    hide After, Welcome, OneMoreEntry, Faithful, Body, States;
    states := States(lib, m, items);
    forall k | 0 <= k < |items| ensures Welcome(lib, states[k], items[k], m) && OneMoreEntry(states[k], states[k + 1], items[k], m) {
      ReadyFor(lib, m, items, k);
    }
  }

  lemma EndsHere(lib: Library, body: Bytes, raw: Bytes)
    requires raw == body + Zeros(1024) && |body| % 512 == 0
    ensures NextHeader(lib, raw, |body|) == AtEnd && raw[|body|..] == Zeros(1024)
  {
    var pos := |body|;
    assert raw[pos..pos + 512] == Zeros(1024)[..512] && raw[pos + 512..pos + 1024] == Zeros(1024)[512..];
  }

  // ------------------------------------------------------------------------------ round trip

  lemma IsImportable(lib: Library, files: Files, names: seq<string>)
    requires Freezable(lib, files, names) && AllEncodable(lib, ItemsOf(lib, names, files))
    requires |lib.marshal(ManifestOf(names, files))| <= MAX_MANIFEST
    ensures Importable(lib, ManifestOf(names, files), ItemsOf(lib, names, files))
  {
    hide Portable;
    var items := ItemsOf(lib, names, files);
    assert items[1..] == PayloadItems(names, files);
    forall i | 1 <= i < |items| ensures PayloadOk(lib, items[i]) && items[i].name == ToPayload(names[i - 1]) {
      assert FileOk(lib, files, names[i - 1]);
      KeyRoundTrip(names[i - 1]);
    }
    forall i, j | 0 <= i < j < |items| ensures items[i].name != items[j].name {
      assert FileOk(lib, files, names[j - 1]);
      KeyRoundTrip(names[j - 1]);
      if i > 0 {
        assert FileOk(lib, files, names[i - 1]);
        KeyRoundTrip(names[i - 1]);
      } else {
        assert MANIFEST[0] != PAYLOAD[0] && items[j].name[0] == PAYLOAD[0];
      }
    }
  }

  lemma RestoresOne(lib: Library, files: Files, names: seq<string>, k: nat)
    requires Freezable(lib, files, names) && k < |names|
    ensures names[k] in files
    ensures FilesOf(PayloadItems(names, files)[..k + 1]) == FilesOf(PayloadItems(names, files)[..k])[names[k] := files[names[k]]]
  {
    var payload := PayloadItems(names, files);
    assert payload[..k + 1][..k] == payload[..k] && payload[..k + 1][k] == payload[k];
    assert FileOk(lib, files, names[k]);
    KeyRoundTrip(names[k]);
  }

  /** The files of the first k names, and no others. */
  ghost predicate RestoredTo(restored: Files, files: Files, names: seq<string>, k: nat)
    requires k <= |names|
  {
    && (forall i :: 0 <= i < k ==> names[i] in restored)
    && forall n :: n in restored ==> n in names[..k] && n in files && restored[n] == files[n]
  }

  lemma RestoredStep(restored: Files, files: Files, names: seq<string>, k: nat)
    requires k < |names| && names[k] in files && RestoredTo(restored, files, names, k)
    ensures RestoredTo(restored[names[k] := files[names[k]]], files, names, k + 1)
  {
    assert names[..k + 1] == names[..k] + [names[k]];
  }

  lemma {:induction false} RestoresFiles(lib: Library, files: Files, names: seq<string>, k: nat)
    requires Freezable(lib, files, names) && k <= |names|
    ensures RestoredTo(FilesOf(PayloadItems(names, files)[..k]), files, names, k)
    decreases k
  {
    if k == 0 {
      assert PayloadItems(names, files)[..0] == [];
    } else {
      RestoresFiles(lib, files, names, k - 1);
      RestoresOne(lib, files, names, k - 1);
      RestoredStep(FilesOf(PayloadItems(names, files)[..k - 1]), files, names, k - 1);
    }
  }

  /** The importer accepts what the exporter wrote, and restores the same files. */
  lemma RoundTrip(lib: Library, files: Files, names: seq<string>)
    requires Faithful(lib) && Freezable(lib, files, names) && AllEncodable(lib, ItemsOf(lib, names, files))
    requires |lib.marshal(ManifestOf(names, files))| <= MAX_MANIFEST
    ensures Accepts(lib, Body(lib, ItemsOf(lib, names, files)) + Zeros(1024), files)
  {
    hide Importable, EntryBytes, FileOk, Padded;
    var items := ItemsOf(lib, names, files);
    var raw := Body(lib, items) + Zeros(1024);
    ArchiveFits(lib, files, names);
    BodySize(lib, items);
    var final := WalkResult(lib, files, names, raw);
    EndsHere(lib, Body(lib, items), raw);
  }

  lemma WalkResult(lib: Library, files: Files, names: seq<string>, raw: Bytes) returns (final: Scan)
    requires Faithful(lib) && Freezable(lib, files, names) && AllEncodable(lib, ItemsOf(lib, names, files))
    requires |lib.marshal(ManifestOf(names, files))| <= MAX_MANIFEST
    requires raw == Body(lib, ItemsOf(lib, names, files)) + Zeros(1024) && |raw| % 512 == 0
    ensures Walk(lib, raw, START) == Success(final)
    ensures final.pos == |Body(lib, ItemsOf(lib, names, files))| && final.files == files && Matches(final)
  {
    var items, m := ItemsOf(lib, names, files), ManifestOf(names, files);
    IsImportable(lib, files, names);
    var states := StatesProgress(lib, m, items);
    WalksAll(lib, m, items, states, 0, raw);
    final := states[|items|];
    FinalState(lib, files, names);
  }

  /** The state at the end of the exported entries matches the manifest and holds the files. */
  lemma FinalState(lib: Library, files: Files, names: seq<string>)
    requires Freezable(lib, files, names) && AllEncodable(lib, ItemsOf(lib, names, files))
    ensures var items := ItemsOf(lib, names, files);
      var s := After(lib, ManifestOf(names, files), items, |items|);
      && After(lib, ManifestOf(names, files), items, 0) == START
      && s.pos == |Body(lib, items)| && s.files == files && Matches(s)
  {
    var items, payload := ItemsOf(lib, names, files), PayloadItems(names, files);
    AfterStart(lib, ManifestOf(names, files), items);
    assert items[..|items|] == items && items[1..|items|] == payload;
    FinalFiles(lib, files, names);
    MembersMatch(files, names, After(lib, ManifestOf(names, files), items, |items|));
  }

  lemma AfterStart(lib: Library, m: Manifest, items: seq<Item>)
    requires AllEncodable(lib, items)
    ensures After(lib, m, items, 0) == START
  {
    assert items[..0] == [];
  }

  lemma FinalFiles(lib: Library, files: Files, names: seq<string>)
    requires Freezable(lib, files, names)
    ensures FilesOf(PayloadItems(names, files)) == files
  {
    var payload := PayloadItems(names, files);
    assert payload[..|names|] == payload && names[..|names|] == names;
    RestoresFiles(lib, files, names, |names|);
    var restored := FilesOf(payload);
    forall n ensures n in restored <==> n in files {
      if n in files {
        assert n in names;
      }
    }
  }

  lemma MembersMatch(files: Files, names: seq<string>, s: Scan)
    requires Sorted(names, files) && s.files == files && s.manifest == ManifestOf(names, files) && s.count == |names| + 1
    requires s.actual == NamesOf(PayloadItems(names, files))
    ensures Matches(s)
  {
    KeyCount(names, files);
    forall i | 0 <= i < |names| ensures MatchesAt(s, i, names[i]) {
      assert names[i] in names;
    }
    assert MatchesBy(s, names);
  }

  lemma {:induction false} KeyCount(names: seq<string>, files: Files)
    requires Sorted(names, files)
    ensures |files| == |names|
    decreases |names|
  {
    if names == [] {
      assert forall n :: n in files ==> n in names;
      assert files == map[];
    } else {
      var last := names[|names| - 1];
      var front := names[..|names| - 1];
      assert last in names;
      var fewer := files - {last};
      forall n ensures n in front <==> n in fewer {
        if n in front {
          assert n in names;
        }
        if n in fewer {
          assert n in names;
        }
      }
      KeyCount(front, fewer);
      assert files.Keys == fewer.Keys + {last};
    }
  }

  /** Exporting and importing as the programs do it. */
  method ExportThenImport(lib: Library, files: Files, names: seq<string>) returns (r: Outcome<Files>)
    requires Faithful(lib) && Freezable(lib, files, names)
    ensures r == if |lib.marshal(ManifestOf(names, files))| > MAX_MANIFEST then Failure(ResourceLimit)
                 else if AllEncodable(lib, ItemsOf(lib, names, files)) then Success(files) else Failure(WriteFailed)
  {
    var raw := EncodeArchive(lib, files, names);
    if raw.Failure? {
      return Failure(raw.error);
    }
    RoundTrip(lib, files, names);
    r := DecodeArchive(lib, raw.value);
  }

  // ------------------------------------------------------------- what the freezer lets through

  predicate TrialID(id: string)
  {
    && 1 <= |id| <= 64 && 'a' <= id[0] <= 'z'
    && forall i :: 0 <= i < |id| ==> 'a' <= id[i] <= 'z' || '0' <= id[i] <= '9' || id[i] == '-'
  }

  /** A file of a suite: its three own files, and two in each trial directory. */
  predicate SuiteName(name: string, dirs: set<string>)
  {
    || name in {"claim.json", "plan.json", "report.json"}
    || exists d :: d in dirs && name in {d + "/" + "claim.json", d + "/" + "terminal.json"}
  }

  /** What the freezer asks for: each file of the suite once, within the limit of its kind, for at most 32 trials. */
  predicate SuiteRequests(requests: seq<Request>, dirs: set<string>)
  {
    && |dirs| <= 32 && |requests| == 3 + 2 * |dirs| && NamesDiffer(requests)
    && (forall d :: d in dirs ==> TrialID(d))
    && forall i :: 0 <= i < |requests| ==> SuiteName(requests[i].name, dirs) && requests[i].limit <= MAX_FILE
  }

  predicate SegmentChar(c: char)
  {
    'a' <= c <= 'z' || '0' <= c <= '9' || c == '-' || c == '.'
  }

  /** Segments of suite names. */
  predicate Segment(s: string)
  {
    1 <= |s| <= 64 && s[|s| - 1] != '.' && forall i :: 0 <= i < |s| ==> SegmentChar(s[i])
  }

  lemma TrialIsSegment(id: string)
    requires TrialID(id)
    ensures Segment(id)
  {
  }

  lemma FixedSegments()
    ensures Segment("payload") && Segment("claim.json") && Segment("plan.json") && Segment("report.json") && Segment("terminal.json")
    ensures PAYLOAD == "payload" + "/"
  {
  }

  lemma SegmentIsPortable(a: string)
    requires Segment(a)
    ensures Portable(a) && PlainLower(a)
  {
  }

  lemma UnderSegmentAt(a: string, rest: string, i: nat)
    requires i < |a + "/" + rest|
    ensures (a + "/" + rest)[i] == if i < |a| then a[i] else if i == |a| then '/' else rest[i - |a| - 1]
  {
  }

  lemma UnderSegment(a: string, rest: string)
    requires Segment(a) && Portable(rest) && PlainLower(rest) && |a| + 1 + |rest| <= 240
    ensures Portable(a + "/" + rest) && PlainLower(a + "/" + rest)
  {
    var n := a + "/" + rest;
    forall i | 0 <= i < |n| ensures PathChar(n[i]) && LowerChar(n[i]) {
      UnderSegmentAt(a, rest, i);
      if i < |a| {
        assert SegmentChar(a[i]);
      }
    }
    forall i | 0 <= i <= |n| ensures EndsWell(n, i) {
      UnderSegmentEnd(a, rest, i);
    }
  }

  lemma UnderSegmentEnd(a: string, rest: string, i: nat)
    requires Segment(a) && Portable(rest) && i <= |a + "/" + rest|
    ensures EndsWell(a + "/" + rest, i)
  {
    if i < |a + "/" + rest| {
      UnderSegmentAt(a, rest, i);
    }
    if i > 0 {
      UnderSegmentAt(a, rest, i - 1);
    }
    if i <= |a| {
      assert SegmentChar(a[if i < |a| then i else |a| - 1]);
    } else {
      assert EndsWell(rest, i - |a| - 1);
    }
  }

  /** Suite names are portable and in lower case, under the archive's payload directory as well. */
  lemma SuiteNameIsPlain(name: string, dirs: set<string>)
    requires SuiteName(name, dirs) && forall d :: d in dirs ==> TrialID(d)
    ensures Portable(PAYLOAD + name) && PlainLower(PAYLOAD + name)
  {
    FixedSegments();
    if name in {"claim.json", "plan.json", "report.json"} {
      SegmentIsPortable(name);
      UnderSegment("payload", name);
      assert PAYLOAD + name == "payload" + "/" + name;
    } else {
      var d :| d in dirs && name in {d + "/" + "claim.json", d + "/" + "terminal.json"};
      TrialIsSegment(d);
      var file := if name == d + "/" + "claim.json" then "claim.json" else "terminal.json";
      SegmentIsPortable(file);
      UnderSegment(d, file);
      assert name == d + "/" + file;
      UnderSegment("payload", name);
      assert PAYLOAD + name == "payload" + "/" + name;
    }
  }

  lemma ManifestIsPlain()
    ensures Portable(MANIFEST) && PlainLower(MANIFEST)
  {
    assert Segment(MANIFEST);
    SegmentIsPortable(MANIFEST);
    hide Portable, PlainLower;
  }

  lemma {:induction false} FrozenAt(requests: seq<Request>, key: string) returns (i: nat)
    requires NamesDiffer(requests) && key in FrozenFiles(requests)
    ensures i < |requests| && key == SUITE + requests[i].name && FrozenFiles(requests)[key] == requests[i].content
    decreases |requests|
  {
    var n := |requests| - 1;
    if key == SUITE + requests[n].name {
      i := n;
    } else {
      i := FrozenAt(requests[..n], key);
    }
  }

  lemma {:induction false} FrozenCount(requests: seq<Request>)
    requires NamesDiffer(requests)
    ensures |FrozenFiles(requests)| == |requests|
    decreases |requests|
  {
    if requests != [] {
      FrozenCount(requests[..|requests| - 1]);
      LastKeyIsNew(requests);
    }
  }

  lemma FrozenFileOk(lib: Library, requests: seq<Request>, dirs: set<string>, key: string)
    requires Faithful(lib) && SuiteRequests(requests, dirs) && EachWithin(requests) && key in FrozenFiles(requests)
    ensures FileOk(lib, FrozenFiles(requests), key)
  {
    var i := FrozenAt(requests, key);
    SuiteNameIsPlain(requests[i].name, dirs);
    assert key[|SUITE|..] == requests[i].name && ToPayload(key) == PAYLOAD + requests[i].name;
  }

  /** Whatever the freezer lets through meets every condition of the round trip. */
  lemma FrozenIsFreezable(lib: Library, requests: seq<Request>, dirs: set<string>, names: seq<string>)
    requires Faithful(lib) && SuiteRequests(requests, dirs) && EachWithin(requests) && Total(requests) <= MAX_SUITE
    requires lib.eligible(FrozenFiles(requests)).Eligible? && Sorted(names, FrozenFiles(requests))
    ensures Freezable(lib, FrozenFiles(requests), names)
  {
    var files := FrozenFiles(requests);
    forall i | 0 <= i < |names| ensures FileOk(lib, files, names[i]) {
      assert names[i] in names;
      FrozenFileOk(lib, requests, dirs, names[i]);
    }
    ManifestIsPlain();
    FrozenTotal(requests, names);
    FrozenCount(requests);
    KeyCount(names, files);
  }

  /** Freezing a suite, exporting it and importing the archive: the files read, or the first check that stops it. */
  method FreezeExportImport(lib: Library, requests: seq<Request>, dirs: set<string>, names: seq<string>) returns (r: Outcome<Files>)
    requires Faithful(lib) && SuiteRequests(requests, dirs) && Sorted(names, FrozenFiles(requests))
    ensures var files := FrozenFiles(requests);
      r == if !EachWithin(requests) || Total(requests) > MAX_SUITE then Failure(ResourceLimit)
           else if lib.eligible(files).Incompatible? then Failure(ExportIncompatible)
           else if lib.eligible(files).NotEligible? then Failure(ExportNotEligible)
           else if |lib.marshal(ManifestOf(names, files))| > MAX_MANIFEST then Failure(ResourceLimit)
           else if AllEncodable(lib, ItemsOf(lib, names, files)) then Success(files) else Failure(WriteFailed)
  {
    r := Freeze(requests);
    if r.Success? && !lib.eligible(r.value).Eligible? {
      r := Failure(if lib.eligible(r.value).Incompatible? then ExportIncompatible else ExportNotEligible);
    } else if r.Success? {
      FrozenIsFreezable(lib, requests, dirs, names);
      r := ExportThenImport(lib, r.value, names);
    }
  }

  // --------------------------------------------------------------------------- one payload order

  /** The payload entries of an archive, in file order. */
  ghost function Collect(lib: Library, raw: Bytes, s: Scan): seq<Item>
    requires |raw| % 512 == 0 && s.pos % 512 == 0 && s.pos <= |raw| && Walk(lib, raw, s).Success?
    decreases |raw| - s.pos
  {
    match NextHeader(lib, raw, s.pos)
    case Found(h) =>
      (if s.count == 0 then [] else [Item(h.name, raw[s.pos + 512..s.pos + 512 + h.size])])
      + Collect(lib, raw, Take(lib, raw, s, h).value)
    case _ => []
  }

  ghost predicate Traced(lib: Library, s: Scan)
  {
    forall k :: k in s.files ==> SUITE <= k && lib.lower(ToPayload(k)) in s.names
  }

  /** The final state lists every entry by name and holds its bytes: nothing is overwritten on the way. */
  lemma {:induction false} CollectedIsKept(lib: Library, raw: Bytes, s: Scan)
    requires |raw| % 512 == 0 && s.pos % 512 == 0 && s.pos <= |raw| && Walk(lib, raw, s).Success? && Traced(lib, s)
    ensures Kept(s, Walk(lib, raw, s).value, Collect(lib, raw, s))
    decreases |raw| - s.pos
  {
    var ended, next, it := Advance(lib, raw, s);
    if !ended {
      CollectedIsKept(lib, raw, next);
      KeptStep(s, next, Walk(lib, raw, next).value, it, Collect(lib, raw, next));
    }
  }

  ghost predicate Kept(s: Scan, f: Scan, items: seq<Item>)
  {
    f.actual == s.actual + NamesOf(items) && Holds(f.files, items) && Extends(s.files, f.files)
  }

  lemma KeptStep(s: Scan, next: Scan, f: Scan, it: Item, rest: seq<Item>)
    requires Kept(next, f, rest)
    requires s.count == 0 ==> next.files == s.files && next.actual == s.actual
    requires s.count > 0 ==>
      (&& ToKey(it.name) !in s.files && next.actual == s.actual + [it.name] && next.files == s.files[ToKey(it.name) := it.data])
    ensures Kept(s, f, (if s.count == 0 then [] else [it]) + rest)
  {
    if s.count == 0 {
      assert [] + rest == rest;
    } else {
      assert NamesOf([it] + rest) == [it.name] + NamesOf(rest);
      assert s.actual + [it.name] + NamesOf(rest) == s.actual + ([it.name] + NamesOf(rest));
      HoldsMore(s.files, next.files, f.files, it, rest);
    }
  }

  /** One step of the walk, and what it does to the collection. */
  lemma Advance(lib: Library, raw: Bytes, s: Scan) returns (ended: bool, next: Scan, it: Item)
    requires |raw| % 512 == 0 && s.pos % 512 == 0 && s.pos <= |raw| && Walk(lib, raw, s).Success? && Traced(lib, s)
    ensures ended ==> Walk(lib, raw, s) == Success(s) && Collect(lib, raw, s) == []
    ensures !ended ==>
      (&& s.pos < next.pos <= |raw| && next.pos % 512 == 0 && Traced(lib, next) && Walk(lib, raw, s) == Walk(lib, raw, next)
       && Collect(lib, raw, s) == (if s.count == 0 then [] else [it]) + Collect(lib, raw, next)
       && (s.count == 0 ==> next.files == s.files && next.actual == s.actual)
       && (s.count > 0 ==> ToKey(it.name) !in s.files && next.actual == s.actual + [it.name]
                           && next.files == s.files[ToKey(it.name) := it.data]))
  {
    ended, next, it := true, s, Item("", []);
    var found := NextHeader(lib, raw, s.pos);
    if found.Found? {
      var h := found.header;
      ended, next := false, Take(lib, raw, s, h).value;
      TakeKeeps(lib, raw, s, h);
      if s.count > 0 {
        it := Item(h.name, raw[s.pos + 512..s.pos + 512 + h.size]);
      }
    }
  }

  ghost predicate Holds(files: Files, items: seq<Item>)
  {
    forall i :: 0 <= i < |items| ==> ToKey(items[i].name) in files && files[ToKey(items[i].name)] == items[i].data
  }

  ghost predicate Extends(before: Files, after: Files)
  {
    forall k :: k in before ==> k in after && after[k] == before[k]
  }

  lemma HoldsMore(before: Files, next: Files, after: Files, it: Item, rest: seq<Item>)
    requires ToKey(it.name) !in before && next == before[ToKey(it.name) := it.data] && Extends(next, after) && Holds(after, rest)
    ensures Holds(after, [it] + rest) && Extends(before, after)
  {
    assert ToKey(it.name) in next;
    forall k | k in before ensures k in after && after[k] == before[k] {
      assert k in next;
    }
  }

  /** One entry adds its own key and leaves the others as they were. */
  lemma TakeKeeps(lib: Library, raw: Bytes, s: Scan, h: Header)
    requires |raw| % 512 == 0 && s.pos % 512 == 0 && s.pos + 512 <= |raw| && Take(lib, raw, s, h).Success? && Traced(lib, s)
    ensures var next := Take(lib, raw, s, h).value;
      && Traced(lib, next)
      && (s.count == 0 ==> next.files == s.files && next.actual == s.actual)
      && (s.count > 0 ==> ToKey(h.name) !in s.files && next.actual == s.actual + [h.name]
                          && next.files == s.files[ToKey(h.name) := raw[s.pos + 512..s.pos + 512 + h.size]])
  {
    if s.count > 0 {
      NameRoundTrip(h.name);
    }
  }

  /** Accepted archives that restore the same files have the same payload entries in the same order. */
  lemma SamePayload(lib: Library, a: Bytes, b: Bytes, files: Files)
    requires Accepts(lib, a, files) && Accepts(lib, b, files)
    ensures Collect(lib, a, START) == Collect(lib, b, START)
  {
    var names := PayloadNames(lib, a, files);
    var others := PayloadNames(lib, b, files);
    SortedUnique(names, others);
    var x, y := Collect(lib, a, START), Collect(lib, b, START);
    assert NamesOf(x) == NamesOf(y);
    forall i | 0 <= i < |x| ensures x[i] == y[i] {
      assert NamesOf(x)[i] == x[i].name && NamesOf(y)[i] == y[i].name;
    }
  }

  function ToPayloads(names: seq<string>): seq<string>
  {
    seq(|names|, i requires 0 <= i < |names| => ToPayload(names[i]))
  }

  /** An accepted archive lists the suite's files in key order. */
  lemma PayloadNames(lib: Library, raw: Bytes, files: Files) returns (names: seq<string>)
    requires Accepts(lib, raw, files)
    ensures Sorted(names, files) && NamesOf(Collect(lib, raw, START)) == ToPayloads(names) && Holds(files, Collect(lib, raw, START))
    ensures |NamesOf(Collect(lib, raw, START))| == |Collect(lib, raw, START)|
  {
    var s := Walk(lib, raw, START).value;
    names :| Sorted(names, files) && MatchesBy(s, names);
    CollectedIsKept(lib, raw, START);
    NamesMatch(s, names, Collect(lib, raw, START));
  }

  lemma NamesMatch(s: Scan, names: seq<string>, items: seq<Item>)
    requires MatchesBy(s, names) && Kept(START, s, items)
    ensures NamesOf(items) == ToPayloads(names) && |NamesOf(items)| == |items|
  {
    assert [] + NamesOf(items) == NamesOf(items);
    forall i | 0 <= i < |names| ensures s.actual[i] == ToPayload(names[i]) {
      assert MatchesAt(s, i, names[i]);
    }
  }
}
