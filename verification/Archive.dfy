/** Suite archives: what the exporter writes and what the importer accepts. */
module Archive {
  import opened Text

  newtype Byte = x: int | 0 <= x < 256

  type Bytes = seq<Byte>

  type Files = map<string, Bytes>

  datatype Maybe<+T> = Nothing | Just(value: T)

  datatype Member = Member(path: string, bytes: int)

  datatype Manifest = Manifest(format: string, profile: string, members: seq<Member>)

  /** A decoded header; plain: USTAR, regular, mode 0600, ownerless, unlinked, dated at the epoch, without PAX records. */
  datatype Header = Header(name: string, size: int, plain: bool)

  datatype Eligibility = Eligible | Incompatible | NotEligible

  /** Header and manifest encodings, lower-casing and suite inspection, which live in other code. */
  datatype Library = Library(
    encodeHeader: (string, nat) -> Maybe<Bytes>,
    decodeHeader: Bytes -> Maybe<Header>,
    marshal: Manifest -> Bytes,
    parse: Bytes -> Maybe<Manifest>,
    lower: string -> string,
    eligible: Files -> Eligibility)

  datatype Error =
    | InputInvalid | ResourceLimit | ExportIncompatible | ExportNotEligible | ImportIncompatible | ImportNotEligible | WriteFailed

  datatype Outcome<+T> = Success(value: T) | Failure(error: Error)

  const FORMAT := "statetwin.dev/offline-suite-archive/v1alpha1"
  const PROFILE := "offline-suite-copy-v1"
  const MAX_ARCHIVE := 135266304      // 129 MiB
  const MAX_SUITE := 134217728        // 128 MiB
  const MAX_FILE := 33554432          // 32 MiB
  const MAX_MANIFEST := 65536
  const MAX_MEMBERS := 67
  const MANIFEST := "manifest.json"
  const SUITE := "suite/"
  const PAYLOAD := "payload/"

  /**
   Paths that every file system can hold: relative, at most 240 bytes, without backslash, colon or NUL, and each segment
   nonempty and not ending in a space or a dot. (The last two rule out unclean paths and parent references too.)
   */
  predicate Portable(name: string)
  {
    && 1 <= |name| <= 240
    && (forall i :: 0 <= i < |name| ==> PathChar(name[i]))
    && forall i {:trigger EndsWell(name, i)} :: 0 <= i <= |name| ==> EndsWell(name, i)
  }

  predicate PathChar(c: char)
  {
    c != '\\' && c != ':' && c != '\0'
  }

  /** A segment that ends here is nonempty and does not end in a space or a dot. */
  predicate EndsWell(name: string, i: int)
    requires 0 <= i <= |name|
  {
    i == |name| || name[i] == '/' ==> i > 0 && name[i - 1] != '/' && name[i - 1] != ' ' && name[i - 1] != '.'
  }

  function TrimPrefix(s: string, prefix: string): string
  {
    if prefix <= s then s[|prefix|..] else s
  }

  function ToPayload(key: string): string
  {
    PAYLOAD + TrimPrefix(key, SUITE)
  }

  function ToKey(name: string): string
  {
    SUITE + TrimPrefix(name, PAYLOAD)
  }

  lemma KeyRoundTrip(key: string)
    requires SUITE <= key
    ensures PAYLOAD <= ToPayload(key) && ToKey(ToPayload(key)) == key
  {
    assert ToPayload(key)[|PAYLOAD|..] == TrimPrefix(key, SUITE);
  }

  lemma NameRoundTrip(name: string)
    requires PAYLOAD <= name
    ensures SUITE <= ToKey(name) && ToPayload(ToKey(name)) == name
  {
    assert ToKey(name)[|SUITE|..] == TrimPrefix(name, PAYLOAD);
  }

  // --------------------------------------------------------------------------- sorted names

  predicate Ascending(names: seq<string>)
  {
    forall i, j :: 0 <= i < j < |names| ==> LexLE(names[i], names[j]) && names[i] != names[j]
  }

  /** The keys in byte order: what sort.Strings makes of them. */
  ghost predicate Sorted(names: seq<string>, files: Files)
  {
    Ascending(names) && forall n :: n in names <==> n in files
  }

  lemma {:induction false} SortedUnique(a: seq<string>, b: seq<string>)
    requires Ascending(a) && Ascending(b) && forall n :: n in a <==> n in b
    ensures a == b
    decreases |a|
  {
    if a == [] {
      assert forall i :: 0 <= i < |b| ==> b[i] in b;
    } else {
      assert a[0] in b && b != [] && b[0] in a;
      var i :| 0 <= i < |b| && b[i] == a[0];
      var j :| 0 <= j < |a| && a[j] == b[0];
      LexReflexive(a[0]);
      LexAntisymmetric(a[0], b[0]);
      assert a[0] == b[0];
      forall n ensures n in a[1..] <==> n in b[1..] {
        if n in a[1..] {
          assert n in b;
        }
        if n in b[1..] {
          assert n in a;
        }
      }
      SortedUnique(a[1..], b[1..]);
      assert a == [a[0]] + a[1..] && b == [b[0]] + b[1..];
    }
  }

  // ------------------------------------------------------------------------------- encoding

  datatype Item = Item(name: string, data: Bytes)

  function Padded(n: nat): (r: nat)
    ensures n <= r < n + 512 && r % 512 == 0
  {
    (n + 511) / 512 * 512
  }

  function Zeros(n: nat): (r: Bytes)
    ensures |r| == n && AllZero(r)
  {
    seq(n, _ => 0)
  }

  predicate AllZero(b: Bytes)
  {
    forall i :: 0 <= i < |b| ==> b[i] == 0
  }

  predicate Encodable(lib: Library, it: Item)
  {
    lib.encodeHeader(it.name, |it.data|).Just?
  }

  function EntryBytes(lib: Library, it: Item): Bytes
    requires Encodable(lib, it)
  {
    lib.encodeHeader(it.name, |it.data|).value + it.data + Zeros(Padded(|it.data|) - |it.data|)
  }

  ghost predicate AllEncodable(lib: Library, items: seq<Item>)
  {
    forall i :: 0 <= i < |items| ==> Encodable(lib, items[i])
  }

  function Body(lib: Library, items: seq<Item>): Bytes
    requires AllEncodable(lib, items)
  {
    if items == [] then [] else Body(lib, items[..|items| - 1]) + EntryBytes(lib, items[|items| - 1])
  }

  function ManifestOf(names: seq<string>, files: Files): Manifest
    requires forall n :: n in names ==> n in files
  {
    Manifest(FORMAT, PROFILE,
             seq(|names|, i requires 0 <= i < |names| => assert names[i] in names; Member(ToPayload(names[i]), |files[names[i]]|)))
  }

  function PayloadItem(names: seq<string>, files: Files, i: nat): Item
    requires i < |names| && forall n :: n in names ==> n in files
  {
    assert names[i] in names;
    Item(ToPayload(names[i]), files[names[i]])
  }

  function PayloadItems(names: seq<string>, files: Files): seq<Item>
    requires forall n :: n in names ==> n in files
  {
    seq(|names|, i requires 0 <= i < |names| => PayloadItem(names, files, i))
  }

  function ItemsOf(lib: Library, names: seq<string>, files: Files): seq<Item>
    requires forall n :: n in names ==> n in files
  {
    [Item(MANIFEST, lib.marshal(ManifestOf(names, files)))] + PayloadItems(names, files)
  }

  /** The exporter, writing entry by entry; a header that cannot be represented is a write failure. */
  method EncodeArchive(lib: Library, files: Files, names: seq<string>) returns (r: Outcome<Bytes>)
    requires Sorted(names, files)
    ensures r == if |lib.marshal(ManifestOf(names, files))| > MAX_MANIFEST then Failure(ResourceLimit)
                 else if AllEncodable(lib, ItemsOf(lib, names, files))
                   then Success(Body(lib, ItemsOf(lib, names, files)) + Zeros(1024))
                 else Failure(WriteFailed)
  {
    var manifest := BuildManifest(files, names);
    var raw := lib.marshal(manifest);
    if |raw| > MAX_MANIFEST {
      return Failure(ResourceLimit);
    }
    ghost var items := ItemsOf(lib, names, files);
    var out: Bytes := [];
    for i := 0 to |names| + 1
      invariant AllEncodable(lib, items[..i]) && out == Body(lib, items[..i])
    {
      var it := if i == 0 then Item(MANIFEST, raw) else PayloadItem(names, files, i - 1);
      assert it == items[i];
      if !Encodable(lib, it) {
        return Failure(WriteFailed);
      }
      OneMore(lib, items, i);
      out := out + EntryBytes(lib, it);
    }
    assert items[..|names| + 1] == items;
    r := Success(out + Zeros(1024));
  }

  lemma OneMore(lib: Library, items: seq<Item>, i: nat)
    requires i < |items| && AllEncodable(lib, items[..i]) && Encodable(lib, items[i])
    ensures AllEncodable(lib, items[..i + 1]) && Body(lib, items[..i + 1]) == Body(lib, items[..i]) + EntryBytes(lib, items[i])
  {
    assert items[..i + 1][..i] == items[..i];
  }

  method BuildManifest(files: Files, names: seq<string>) returns (manifest: Manifest)
    requires forall n :: n in names ==> n in files
    ensures manifest == ManifestOf(names, files)
  {
    manifest := Manifest(FORMAT, PROFILE, []);
    for i := 0 to |names|
      invariant manifest == Manifest(FORMAT, PROFILE, ManifestOf(names, files).members[..i])
    {
      assert names[i] in names;
      manifest := manifest.(members := manifest.members + [Member(ToPayload(names[i]), |files[names[i]]|)]);
    }
  }

  // -------------------------------------------------------------------------------- decoding

  datatype Scan = Scan(pos: nat, count: nat, names: set<string>, remaining: int, files: Files, actual: seq<string>, manifest: Manifest)

  const NO_MANIFEST := Manifest("", "", [])
  const START := Scan(0, 0, {}, MAX_SUITE, map[], [], NO_MANIFEST)

  datatype Next = AtEnd | Bad | Found(header: Header)

  /** The tar reader's next header at a block boundary. */
  function NextHeader(lib: Library, raw: Bytes, pos: nat): Next
    requires |raw| % 512 == 0 && pos % 512 == 0 && pos <= |raw|
  {
    if pos == |raw| then AtEnd
    else
      var block := raw[pos..pos + 512];
      if AllZero(block) then
        (if pos + 512 == |raw| || AllZero(raw[pos + 512..pos + 1024]) then AtEnd else Bad)
      else
        var h := lib.decodeHeader(block);
        if h.Nothing? then Bad else Found(h.value)
  }

  predicate GoodManifest(m: Manifest)
  {
    m.format == FORMAT && m.profile == PROFILE && 1 <= |m.members| <= MAX_MEMBERS
  }

  /** Take one entry: its header checks, its bytes, its padding, and what it adds. */
  function Take(lib: Library, raw: Bytes, s: Scan, h: Header): (r: Outcome<Scan>)
    requires |raw| % 512 == 0 && s.pos % 512 == 0 && s.pos + 512 <= |raw|
    ensures r.Success? ==> s.pos < r.value.pos <= |raw| && r.value.pos % 512 == 0
  {
    var count := s.count + 1;
    var folded := lib.lower(h.name);
    if count > MAX_MEMBERS + 1 || !h.plain || !Portable(h.name) || folded in s.names then Failure(InputInvalid)
    else if (if count == 1 then h.name != MANIFEST else !(PAYLOAD <= h.name)) then Failure(InputInvalid)
    else if h.size > (if count == 1 then MAX_MANIFEST else MAX_FILE) || h.size > s.remaining then Failure(ResourceLimit)
    else if h.size < 0 || s.pos + 512 + h.size > |raw| then Failure(InputInvalid)
    else
      var start := s.pos + 512;
      var end := start + h.size;
      var last := start + Padded(h.size);
      if last > |raw| || !AllZero(raw[end..last]) then Failure(InputInvalid)
      else
        var data := raw[start..end];
        if count == 1 then
          var m := lib.parse(data);
          if m.Nothing? || !GoodManifest(m.value) then Failure(InputInvalid)
          else Success(s.(pos := last, count := count, names := s.names + {folded}, manifest := m.value))
        else
          Success(Scan(last, count, s.names + {folded}, s.remaining - h.size, s.files[ToKey(h.name) := data],
                       s.actual + [h.name], s.manifest))
  }

  function Walk(lib: Library, raw: Bytes, s: Scan): Outcome<Scan>
    requires |raw| % 512 == 0 && s.pos % 512 == 0 && s.pos <= |raw|
    decreases |raw| - s.pos
  {
    match NextHeader(lib, raw, s.pos)
    case AtEnd => Success(s)
    case Bad => Failure(InputInvalid)
    case Found(h) =>
      var next := Take(lib, raw, s, h);
      if next.Failure? then next else Walk(lib, raw, next.value)
  }

  /** Every member of the manifest is the entry in that place, and the entries are in key order. */
  ghost predicate Matches(s: Scan)
  {
    && s.count == |s.manifest.members| + 1 && |s.files| == |s.manifest.members| == |s.actual|
    && exists names :: Sorted(names, s.files) && MatchesBy(s, names)
  }

  predicate MatchesAt(s: Scan, i: nat, name: string)
    requires i < |s.manifest.members| && i < |s.actual|
  {
    s.manifest.members[i] == Member(ToPayload(name), Size(s.files, name)) && s.actual[i] == ToPayload(name)
  }

  predicate MatchesBy(s: Scan, names: seq<string>)
  {
    |names| == |s.actual| == |s.manifest.members| && forall i :: 0 <= i < |names| ==> MatchesAt(s, i, names[i])
  }

  function Size(files: Files, name: string): int
  {
    if name in files then |files[name]| else -1
  }

  ghost predicate Trailer(raw: Bytes, s: Scan)
  {
    |raw| == s.pos + 1024 && AllZero(raw[s.pos..])
  }

  /** The archive decodes to these files; whether they are a suite that may be imported is still open. */
  ghost predicate Decodes(lib: Library, raw: Bytes, files: Files)
  {
    && |raw| <= MAX_ARCHIVE && |raw| % 512 == 0
    && var s := Walk(lib, raw, START);
    && s.Success? && Trailer(raw, s.value) && Matches(s.value) && s.value.files == files
  }

  /** What the importer accepts. */
  ghost predicate Accepts(lib: Library, raw: Bytes, files: Files)
  {
    Decodes(lib, raw, files) && lib.eligible(files).Eligible?
  }

  method SortNames(keys: set<string>) returns (names: seq<string>)
    ensures Ascending(names) && forall n :: n in names <==> n in keys
  {
    names := [];
    var rest := keys;
    while rest != {}
      invariant rest <= keys && Ascending(names) && forall n :: n in names <==> n in keys && n !in rest
      decreases |rest|
    {
      var n :| n in rest;
      names := InsertName(names, n);
      rest := rest - {n};
    }
  }

  method InsertName(names: seq<string>, n: string) returns (r: seq<string>)
    requires Ascending(names) && n !in names
    ensures Ascending(r) && forall k :: k in r <==> k in names || k == n
  {
    var at := |names|;
    while at > 0 && !LexLE(names[at - 1], n)
      invariant 0 <= at <= |names| && forall i :: at <= i < |names| ==> LexLE(n, names[i])
    {
      LexTotal(names[at - 1], n);
      at := at - 1;
    }
    InsertionAscends(names, at, n);
    r := names[..at] + [n] + names[at..];
    assert names == names[..at] + names[at..];
  }

  lemma InsertionAscends(names: seq<string>, at: nat, n: string)
    requires Ascending(names) && n !in names && at <= |names| && (at > 0 ==> LexLE(names[at - 1], n))
    requires forall i :: at <= i < |names| ==> LexLE(n, names[i])
    ensures Ascending(names[..at] + [n] + names[at..])
  {
    var r := names[..at] + [n] + names[at..];
    forall i, j | 0 <= i < j < |r| ensures LexLE(r[i], r[j]) && r[i] != r[j] {
      if i < at && j == at && i < at - 1 {
        LexTransitive(names[i], names[at - 1], n);
      }
    }
  }

  /** The importer. */
  method DecodeArchive(lib: Library, raw: Bytes) returns (r: Outcome<Files>)
    ensures r.Success? ==> Accepts(lib, raw, r.value)
    ensures r.Failure? ==> forall files :: !Accepts(lib, raw, files)
    ensures |raw| > MAX_ARCHIVE ==> r == Failure(ResourceLimit)
    ensures forall files :: Decodes(lib, raw, files) ==>
      r == match lib.eligible(files)
           case Eligible => Success(files)
           case Incompatible => Failure(ImportIncompatible)
           case NotEligible => Failure(ImportNotEligible)
  {
    if |raw| > MAX_ARCHIVE {
      return Failure(ResourceLimit);
    }
    if |raw| % 512 != 0 {
      return Failure(InputInvalid);
    }
    var s := START;
    while true
      invariant s.pos % 512 == 0 && s.pos <= |raw| && Walk(lib, raw, s) == Walk(lib, raw, START)
      decreases |raw| - s.pos
    {
      var next := NextHeader(lib, raw, s.pos);
      if next.AtEnd? {
        break;
      }
      if next.Bad? {
        return Failure(InputInvalid);
      }
      var taken := Take(lib, raw, s, next.header);
      if taken.Failure? {
        return Failure(taken.error);
      }
      s := taken.value;
    }
    assert Walk(lib, raw, START) == Success(s);
    if s.count != |s.manifest.members| + 1 || |raw| != s.pos + 1024 || !AllZero(raw[s.pos..]) {
      return Failure(InputInvalid);
    }
    var matches := CheckMembers(s);
    if !matches {
      return Failure(InputInvalid);
    }
    match lib.eligible(s.files) {
      case Eligible => r := Success(s.files);
      case Incompatible => r := Failure(ImportIncompatible);
      case NotEligible => r := Failure(ImportNotEligible);
    }
  }

  method CheckMembers(s: Scan) returns (ok: bool)
    requires s.count == |s.manifest.members| + 1
    ensures ok <==> Matches(s)
  {
    if |s.files| != |s.manifest.members| || |s.files| != |s.actual| {
      return false;
    }
    var names := SortNames(s.files.Keys);
    assert Sorted(names, s.files);
    forall other | Sorted(other, s.files) ensures other == names {
      SortedUnique(other, names);
    }
    if |names| != |s.actual| {
      return false;
    }
    for i := 0 to |names|
      invariant forall j :: 0 <= j < i ==> MatchesAt(s, j, names[j])
    {
      if !MatchesAt(s, i, names[i]) {
        assert !MatchesBy(s, names);
        return false;
      }
    }
    assert MatchesBy(s, names);
    ok := true;
  }
}
