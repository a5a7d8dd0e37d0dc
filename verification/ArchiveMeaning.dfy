/** What an accepted archive is: a list of entries, block by block, and nothing else in the file. */
module ArchiveMeaning {
  import opened Text
  import opened Archive

  // ------------------------------------------------------------------------- paths by segment

  /** name[i..j] is a whole segment of the path. */
  predicate SegmentAt(name: string, i: int, j: int)
  {
    && 0 <= i <= j <= |name| && (i == 0 || name[i - 1] == '/') && (j == |name| || name[j] == '/')
    && forall k :: i <= k < j ==> name[k] != '/'
  }

  predicate SegmentFine(name: string, i: int, j: int)
    requires 0 <= i <= j <= |name|
  {
    i < j && name[j - 1] != ' ' && name[j - 1] != '.'
  }

  /** A path of at most 240 bytes whose segments are nonempty and end in neither space nor dot, without backslash, colon or NUL. */
  ghost predicate SafePath(name: string)
  {
    && 1 <= |name| <= 240
    && (forall i :: 0 <= i < |name| ==> name[i] !in {'\\', ':', '\0'})
    && forall i, j :: SegmentAt(name, i, j) ==> SegmentFine(name, i, j)
  }

  lemma {:induction false} SegmentEnding(name: string, j: int) returns (i: int)
    requires 0 <= j <= |name| && (j == |name| || name[j] == '/')
    ensures SegmentAt(name, i, j)
  {
    i := j;
    while i > 0 && name[i - 1] != '/'
      invariant 0 <= i <= j && forall k :: i <= k < j ==> name[k] != '/'
    {
      i := i - 1;
    }
  }

  lemma SafeIsPortable(name: string)
    ensures Portable(name) <==> SafePath(name)
  {
    if SafePath(name) {
      forall i | 0 <= i < |name| ensures PathChar(name[i]) {
        assert name[i] !in {'\\', ':', '\0'};
      }
      forall j | 0 <= j <= |name| ensures EndsWell(name, j) {
        if j == |name| || name[j] == '/' {
          var i := SegmentEnding(name, j);
          assert SegmentFine(name, i, j);
        }
      }
    }
    if Portable(name) {
      forall i | 0 <= i < |name| ensures name[i] !in {'\\', ':', '\0'} {
        assert PathChar(name[i]);
      }
      forall i, j | SegmentAt(name, i, j) ensures SegmentFine(name, i, j) {
        assert EndsWell(name, j);
      }
    }
  }

  // ------------------------------------------------------------------------------ the layout

  /** Whole blocks of 512 bytes. */
  function Blocks(n: int): int
  {
    (n + 511) / 512 * 512
  }

  lemma BlocksIsPadded(n: int)
    ensures n >= 0 ==> Blocks(n) == Padded(n) >= n && Blocks(n) % 512 == 0
  {
  }

  /** The blocks that these entries take: for each a header and its data, filled up to whole blocks. */
  function Span(hs: seq<Header>): int
  {
    if hs == [] then 0 else Span(hs[..|hs| - 1]) + 512 + Blocks(hs[|hs| - 1].size)
  }

  predicate Zeroed(raw: Bytes, a: int, b: int)
    requires 0 <= a && b <= |raw|
  {
    forall i :: a <= i < b ==> raw[i] == 0
  }

  /** The k-th entry is where the ones before it end: a header block that decodes to it, its data, and zeros. */
  predicate Stands(lib: Library, raw: Bytes, hs: seq<Header>, k: int)
  {
    && 0 <= k < |hs| && hs[k].size >= 0
    && var at, end := Span(hs[..k]), Span(hs[..k]) + 512 + Blocks(hs[k].size);
    && 0 <= at && end <= |raw|
    && !Zeroed(raw, at, at + 512)
    && lib.decodeHeader(raw[at..at + 512]) == Just(hs[k])
    && Zeroed(raw, at + 512 + hs[k].size, end)
  }

  /** The bytes after its header. */
  function DataOf(raw: Bytes, hs: seq<Header>, k: int): Bytes
    requires 0 <= k < |hs|
  {
    var start := Span(hs[..k]) + 512;
    if 0 <= start <= start + hs[k].size <= |raw| then raw[start..start + hs[k].size] else []
  }

  /** The manifest comes first, within 64 KiB; payload follows, within 32 MiB a file; no two names differ in case only. */
  ghost predicate Fine(lib: Library, hs: seq<Header>, k: int)
    requires 0 <= k < |hs|
  {
    && hs[k].plain && SafePath(hs[k].name)
    && (if k == 0 then hs[k].name == "manifest.json" && hs[k].size <= 65_536
        else "payload/" <= hs[k].name && hs[k].size <= 33_554_432)
    && forall j :: 0 <= j < k ==> lib.lower(hs[j].name) != lib.lower(hs[k].name)
  }

  function PayloadBytes(hs: seq<Header>): int
  {
    if |hs| <= 1 then 0 else PayloadBytes(hs[..|hs| - 1]) + hs[|hs| - 1].size
  }

  ghost predicate EachStands(lib: Library, raw: Bytes, hs: seq<Header>)
  {
    forall k :: 0 <= k < |hs| ==> Stands(lib, raw, hs, k) && Fine(lib, hs, k)
  }

  ghost predicate Entries(lib: Library, raw: Bytes, hs: seq<Header>)
  {
    |hs| <= 68 && PayloadBytes(hs) <= 134_217_728 && EachStands(lib, raw, hs) && (hs != [] ==> ManifestIn(lib, raw, hs).Just?)
  }

  /** A manifest of this format, with at least one member and at most 67. */
  function ManifestRead(lib: Library, data: Bytes): (m: Maybe<Manifest>)
    ensures m.Just? ==>
      (&& m.value.format == "statetwin.dev/offline-suite-archive/v1alpha1" && m.value.profile == "offline-suite-copy-v1"
       && 1 <= |m.value.members| <= 67)
  {
    var m := lib.parse(data);
    if m.Just? && m.value.format == "statetwin.dev/offline-suite-archive/v1alpha1" && m.value.profile == "offline-suite-copy-v1"
       && 1 <= |m.value.members| <= 67
    then m else Nothing
  }

  function ManifestIn(lib: Library, raw: Bytes, hs: seq<Header>): Maybe<Manifest>
    requires hs != []
  {
    ManifestRead(lib, DataOf(raw, hs, 0))
  }

  /** What the suite's file of this entry is called: payload/x becomes suite/x. */
  function FileName(h: Header): string
  {
    "suite/" + if |h.name| >= 8 then h.name[8..] else ""
  }

  /** The manifest's members are these entries, which are in byte order. */
  predicate ListsAll(members: seq<Archive.Member>, hs: seq<Header>)
  {
    && |members| == |hs| - 1
    && (forall k :: 1 <= k < |hs| ==> members[k - 1] == Member(hs[k].name, hs[k].size))
    && forall j, k :: 1 <= j < k < |hs| ==> LexLE(hs[j].name, hs[k].name)
  }

  /**
   The whole archive: entries that follow each other without a gap, then two zero blocks and the end of the file. The manifest
   lists exactly the payload with its sizes, in byte order of the names, and the suite's files are the payload's data.
   */
  ghost predicate IsArchive(lib: Library, raw: Bytes, hs: seq<Header>, files: Files)
  {
    && |raw| <= 135_266_304 && |raw| % 512 == 0 && hs != [] && Entries(lib, raw, hs)
    && |raw| == Span(hs) + 1024 && 0 <= Span(hs) && Zeroed(raw, Span(hs), |raw|)
    && ListsAll(ManifestIn(lib, raw, hs).value.members, hs) && |files| == |hs| - 1
    && forall k :: 1 <= k < |hs| ==> FileName(hs[k]) in files && files[FileName(hs[k])] == DataOf(raw, hs, k)
  }

  // ------------------------------------------------------- the walk reads exactly such entries

  /** The walk's state after these entries. */
  ghost predicate Mirrors(lib: Library, raw: Bytes, hs: seq<Header>, s: Scan)
  {
    && s.pos == Span(hs) && s.count == |hs| && s.remaining == 134_217_728 - PayloadBytes(hs)
    && (forall n :: n in s.names <==> Folded(lib, hs, n))
    && s.actual == PayloadNames(hs)
    && s.manifest == (if hs == [] || ManifestIn(lib, raw, hs).Nothing? then NO_MANIFEST else ManifestIn(lib, raw, hs).value)
    && FilesRead(raw, hs, s.files)
  }

  ghost predicate Folded(lib: Library, hs: seq<Header>, n: string)
  {
    exists k :: 0 <= k < |hs| && lib.lower(hs[k].name) == n
  }

  function PayloadNames(hs: seq<Header>): seq<string>
  {
    if |hs| <= 1 then [] else PayloadNames(hs[..|hs| - 1]) + [hs[|hs| - 1].name]
  }

  ghost predicate FilesRead(raw: Bytes, hs: seq<Header>, files: Files)
  {
    && |files| == (if hs == [] then 0 else |hs| - 1)
    && (forall k :: 1 <= k < |hs| ==> FileName(hs[k]) in files && files[FileName(hs[k])] == DataOf(raw, hs, k))
    && forall key :: key in files ==> Listed(hs, key)
  }

  ghost predicate Listed(hs: seq<Header>, key: string)
  {
    exists k :: 1 <= k < |hs| && FileName(hs[k]) == key
  }

  lemma StandsBefore(lib: Library, raw: Bytes, hs: seq<Header>, h: Header, k: int)
    requires 0 <= k < |hs|
    ensures Stands(lib, raw, hs + [h], k) <==> Stands(lib, raw, hs, k)
    ensures Fine(lib, hs + [h], k) <==> Fine(lib, hs, k)
    ensures DataOf(raw, hs + [h], k) == DataOf(raw, hs, k)
  {
    assert (hs + [h])[..k] == hs[..k];
  }

  lemma EachAppend(lib: Library, raw: Bytes, hs: seq<Header>, h: Header)
    ensures EachStands(lib, raw, hs + [h])
      <==> EachStands(lib, raw, hs) && Stands(lib, raw, hs + [h], |hs|) && Fine(lib, hs + [h], |hs|)
  {
    hide Stands, Fine;
    var more := hs + [h];
    forall k | 0 <= k < |hs|
      ensures Stands(lib, raw, more, k) && Fine(lib, more, k) <==> Stands(lib, raw, hs, k) && Fine(lib, hs, k) {
      StandsBefore(lib, raw, hs, h, k);
    }
  }

  /** One more entry: what it takes beyond the entries before it. */
  lemma EntriesAppend(lib: Library, raw: Bytes, hs: seq<Header>, h: Header)
    ensures var more := hs + [h];
      Entries(lib, raw, more) <==>
        (&& Entries(lib, raw, hs) && |hs| < 68 && Stands(lib, raw, more, |hs|) && Fine(lib, more, |hs|)
         && (if hs == [] then ManifestIn(lib, raw, more).Just? else PayloadBytes(hs) + h.size <= 134_217_728))
  {
    hide Stands, Fine, ManifestIn, EachStands;
    var more := hs + [h];
    assert more[..|hs|] == hs;
    EachAppend(lib, raw, hs, h);
    SizeIsNatural(lib, raw, more, |hs|);
    if hs != [] {
      SameManifest(lib, raw, hs, h);
    }
  }

  lemma SameManifest(lib: Library, raw: Bytes, hs: seq<Header>, h: Header)
    requires hs != []
    ensures ManifestIn(lib, raw, hs + [h]) == ManifestIn(lib, raw, hs)
  {
    StandsBefore(lib, raw, hs, h, 0);
    hide Stands;
  }

  lemma SizeIsNatural(lib: Library, raw: Bytes, hs: seq<Header>, k: int)
    requires 0 <= k < |hs|
    ensures Stands(lib, raw, hs, k) ==> hs[k].size >= 0 && |DataOf(raw, hs, k)| == hs[k].size
  {
  }

  lemma ZerosIn(raw: Bytes, a: int, b: int)
    requires 0 <= a <= b <= |raw|
    ensures AllZero(raw[a..b]) <==> Zeroed(raw, a, b)
  {
    forall i | a <= i < b ensures raw[i] == raw[a..b][i - a] {
    }
    if Zeroed(raw, a, b) {
      forall j | 0 <= j < b - a ensures raw[a..b][j] == 0 {
        assert raw[a + j] == 0;
      }
    }
  }

  lemma HeaderAt(lib: Library, raw: Bytes, at: nat, h: Header)
    requires |raw| % 512 == 0 && at % 512 == 0 && at <= |raw|
    ensures NextHeader(lib, raw, at) == Found(h)
      <==> at + 512 <= |raw| && !Zeroed(raw, at, at + 512) && lib.decodeHeader(raw[at..at + 512]) == Just(h)
  {
    if at < |raw| {
      ZerosIn(raw, at, at + 512);
    }
    hide AllZero;
  }

  lemma LastStands(lib: Library, raw: Bytes, hs: seq<Header>, h: Header, at: int)
    requires at == Span(hs)
    ensures Stands(lib, raw, hs + [h], |hs|) <==>
      (&& h.size >= 0 && 0 <= at && at + 512 + Blocks(h.size) <= |raw| && h.size <= Blocks(h.size) && !Zeroed(raw, at, at + 512)
       && lib.decodeHeader(raw[at..at + 512]) == Just(h)
       && Zeroed(raw, at + 512 + h.size, at + 512 + Blocks(h.size)))
  {
    hide Span, Blocks;
    assert (hs + [h])[..|hs|] == hs;
    BlocksIsPadded(h.size);
  }

  /** The next header is read as the entry that stands there. */
  lemma NextStands(lib: Library, raw: Bytes, hs: seq<Header>, h: Header)
    requires |raw| % 512 == 0 && Span(hs) % 512 == 0 && 0 <= Span(hs) <= |raw|
    ensures Stands(lib, raw, hs + [h], |hs|) <==>
      (&& NextHeader(lib, raw, Span(hs)) == Found(h) && h.size >= 0 && Span(hs) + 512 + Padded(h.size) <= |raw|
       && AllZero(raw[Span(hs) + 512 + h.size..Span(hs) + 512 + Padded(h.size)]))
  {
    hide Span, AllZero, NextHeader, Blocks, Padded, Stands, Zeroed;
    var at := Span(hs);
    HeaderAt(lib, raw, at, h);
    BlocksIsPadded(h.size);
    LastStands(lib, raw, hs, h, at);
    if h.size >= 0 && at + 512 + Padded(h.size) <= |raw| {
      ZerosIn(raw, at + 512 + h.size, at + 512 + Padded(h.size));
    }
  }

  /** What makes the importer take an entry, given the state it is in. */
  lemma TakeSucceeds(lib: Library, raw: Bytes, s: Scan, h: Header)
    requires |raw| % 512 == 0 && s.pos % 512 == 0 && s.pos + 512 <= |raw|
    ensures Take(lib, raw, s, h).Success? <==>
      (&& s.count < 68 && h.plain && Portable(h.name) && lib.lower(h.name) !in s.names
       && (if s.count == 0 then h.name == "manifest.json" && h.size <= 65_536 else "payload/" <= h.name && h.size <= 33_554_432)
       && 0 <= h.size <= s.remaining && s.pos + 512 + Padded(h.size) <= |raw|
       && AllZero(raw[s.pos + 512 + h.size..s.pos + 512 + Padded(h.size)])
       && (s.count == 0 ==> ManifestRead(lib, raw[s.pos + 512..s.pos + 512 + h.size]).Just?))
  {
    hide Portable, AllZero;
  }

  lemma FineNext(lib: Library, raw: Bytes, hs: seq<Header>, s: Scan, h: Header)
    requires Entries(lib, raw, hs) && Mirrors(lib, raw, hs, s)
    ensures Fine(lib, hs + [h], |hs|) <==>
      (&& h.plain && Portable(h.name) && lib.lower(h.name) !in s.names
       && (if s.count == 0 then h.name == "manifest.json" && h.size <= 65_536 else "payload/" <= h.name && h.size <= 33_554_432))
  {
    hide Entries, FilesRead, Span, PayloadBytes, PayloadNames, ManifestIn, Portable, SafePath;
    SafeIsPortable(h.name);
    var more, n := hs + [h], lib.lower(h.name);
    assert more[|hs|] == h && forall j :: 0 <= j < |hs| ==> more[j] == hs[j];
    assert n in s.names <==> Folded(lib, hs, n);
    if Folded(lib, hs, n) {
      var k :| 0 <= k < |hs| && lib.lower(hs[k].name) == n;
      assert lib.lower(more[k].name) == n;
    }
  }

  /** The importer takes the next entry exactly when it may stand and follow there. */
  lemma TakeIff(lib: Library, raw: Bytes, hs: seq<Header>, s: Scan, h: Header)
    requires |raw| % 512 == 0 && s.pos % 512 == 0 && s.pos + 512 <= |raw| && NextHeader(lib, raw, s.pos) == Found(h)
    requires Entries(lib, raw, hs) && Mirrors(lib, raw, hs, s)
    ensures Take(lib, raw, s, h).Success? <==> Entries(lib, raw, hs + [h])
  {
    hide Take, Portable, AllZero, Fine, Stands, Padded, NextHeader, Span, EachStands;
    TakeSucceeds(lib, raw, s, h);
    EntriesAppend(lib, raw, hs, h);
    FineNext(lib, raw, hs, s, h);
    NextStands(lib, raw, hs, h);
    if hs == [] && h.size >= 0 && s.pos + 512 + Padded(h.size) <= |raw| {
      FirstManifest(lib, raw, hs, h);
    }
  }

  lemma FirstManifest(lib: Library, raw: Bytes, hs: seq<Header>, h: Header)
    requires hs == [] && 0 <= h.size && 512 + h.size <= |raw|
    ensures ManifestIn(lib, raw, hs + [h]) == ManifestRead(lib, raw[512..512 + h.size])
  {
    NextData(raw, hs, h);
    assert Span(hs) == 0;
  }

  /** What an entry adds to the state. */
  predicate Adds(lib: Library, s: Scan, h: Header, data: Bytes, next: Scan)
  {
    && next.pos == s.pos + 512 + Blocks(h.size) && next.count == s.count + 1 && next.names == s.names + {lib.lower(h.name)}
    && if s.count == 0 then
         && ManifestRead(lib, data).Just? && next.manifest == ManifestRead(lib, data).value
         && next.remaining == s.remaining && next.files == s.files && next.actual == s.actual
       else
         && next.manifest == s.manifest && next.remaining == s.remaining - h.size
         && next.files == s.files[FileName(h) := data] && next.actual == s.actual + [h.name]
  }

  lemma TakeAdds(lib: Library, raw: Bytes, s: Scan, h: Header)
    requires |raw| % 512 == 0 && s.pos % 512 == 0 && s.pos + 512 <= |raw| && Take(lib, raw, s, h).Success?
    ensures 0 <= h.size && s.pos + 512 + h.size <= |raw|
    ensures Adds(lib, s, h, raw[s.pos + 512..s.pos + 512 + h.size], Take(lib, raw, s, h).value)
  {
    hide Portable, AllZero;
  }

  lemma AddsMirror(lib: Library, raw: Bytes, hs: seq<Header>, s: Scan, h: Header, next: Scan)
    requires Entries(lib, raw, hs) && Mirrors(lib, raw, hs, s) && Entries(lib, raw, hs + [h])
    requires Adds(lib, s, h, DataOf(raw, hs + [h], |hs|), next)
    ensures Mirrors(lib, raw, hs + [h], next)
  {
    hide Entries, FilesRead, Folded, ManifestRead, DataOf, Blocks;
    var more := hs + [h];
    assert more[..|hs|] == hs;
    forall n ensures Folded(lib, more, n) <==> Folded(lib, hs, n) || n == lib.lower(h.name) {
      FoldedAppend(lib, hs, h, n);
    }
    FilesAppend(lib, raw, hs, s, h, next);
    if hs != [] {
      SameManifest(lib, raw, hs, h);
    }
  }

  lemma FilesAppend(lib: Library, raw: Bytes, hs: seq<Header>, s: Scan, h: Header, next: Scan)
    requires Mirrors(lib, raw, hs, s) && Entries(lib, raw, hs + [h]) && Adds(lib, s, h, DataOf(raw, hs + [h], |hs|), next)
    ensures FilesRead(raw, hs + [h], next.files)
  {
    hide EachStands, FilesRead, Folded, ManifestRead, DataOf, Blocks;
    if hs == [] {
      NoFilesYet(raw, h, s.files);
    } else {
      FilesMore(lib, raw, hs, h, s.files);
    }
  }

  /** The state after one more entry. */
  lemma TakeMirrors(lib: Library, raw: Bytes, hs: seq<Header>, s: Scan, h: Header)
    requires |raw| % 512 == 0 && s.pos % 512 == 0 && s.pos + 512 <= |raw| && Take(lib, raw, s, h).Success?
    requires Entries(lib, raw, hs) && Mirrors(lib, raw, hs, s) && Entries(lib, raw, hs + [h])
    ensures Mirrors(lib, raw, hs + [h], Take(lib, raw, s, h).value)
  {
    hide Take, Entries, FilesRead, Folded, Adds, ManifestIn, DataOf;
    TakeAdds(lib, raw, s, h);
    NextData(raw, hs, h);
    AddsMirror(lib, raw, hs, s, h, Take(lib, raw, s, h).value);
  }

  lemma FoldedAppend(lib: Library, hs: seq<Header>, h: Header, n: string)
    ensures Folded(lib, hs + [h], n) <==> Folded(lib, hs, n) || n == lib.lower(h.name)
  {
    var more := hs + [h];
    if k :| 0 <= k < |hs| && lib.lower(hs[k].name) == n {
      assert lib.lower(more[k].name) == n;
    }
    if n == lib.lower(h.name) {
      assert lib.lower(more[|hs|].name) == n;
    }
  }

  lemma NoFilesYet(raw: Bytes, h: Header, files: Files)
    requires FilesRead(raw, [], files)
    ensures FilesRead(raw, [] + [h], files)
  {
  }

  lemma KeyIsNew(lib: Library, raw: Bytes, hs: seq<Header>, h: Header, k: int)
    requires EachStands(lib, raw, hs + [h]) && 1 <= k < |hs|
    ensures FileName(hs[k]) != FileName(h)
  {
    hide Stands, SafePath;
    var more := hs + [h];
    assert more[|hs|] == h && more[k] == hs[k] && Fine(lib, more, |hs|) && Fine(lib, more, k);
    assert hs[k].name == "payload/" + hs[k].name[8..] && h.name == "payload/" + h.name[8..];
    assert FileName(hs[k])[6..] == hs[k].name[8..] && FileName(h)[6..] == h.name[8..];
  }

  lemma ListedAppend(hs: seq<Header>, h: Header, key: string)
    requires hs != [] && (Listed(hs, key) || key == FileName(h))
    ensures Listed(hs + [h], key)
  {
    hide FileName;
    var more := hs + [h];
    if Listed(hs, key) {
      var k :| 1 <= k < |hs| && FileName(hs[k]) == key;
      assert FileName(more[k]) == key;
    } else {
      assert FileName(more[|hs|]) == key;
    }
  }

  lemma ListedIn(hs: seq<Header>, key: string)
    ensures Listed(hs, key) <==> exists k :: 1 <= k < |hs| && FileName(hs[k]) == key
  {
  }

  lemma FilesMore(lib: Library, raw: Bytes, hs: seq<Header>, h: Header, files: Files)
    requires hs != [] && EachStands(lib, raw, hs + [h]) && FilesRead(raw, hs, files)
    ensures FilesRead(raw, hs + [h], files[FileName(h) := DataOf(raw, hs + [h], |hs|)])
  {
    hide EachStands, DataOf, FileName, Listed;
    var more, key := hs + [h], FileName(h);
    forall k | 1 <= k < |hs| ensures FileName(hs[k]) != key && DataOf(raw, more, k) == DataOf(raw, hs, k) {
      KeyIsNew(lib, raw, hs, h, k);
      StandsBefore(lib, raw, hs, h, k);
    }
    ListedIn(hs, key);
    forall other | other in files[key := DataOf(raw, more, |hs|)] ensures Listed(more, other) {
      ListedAppend(hs, h, other);
    }
  }

  lemma DataAt(raw: Bytes, hs: seq<Header>, k: int, at: int)
    requires 0 <= k < |hs| && at == Span(hs[..k]) && 0 <= at && 0 <= hs[k].size && at + 512 + hs[k].size <= |raw|
    ensures DataOf(raw, hs, k) == raw[at + 512..at + 512 + hs[k].size]
  {
    hide Span;
  }

  lemma NextData(raw: Bytes, hs: seq<Header>, h: Header)
    requires 0 <= Span(hs) && 0 <= h.size && Span(hs) + 512 + h.size <= |raw|
    ensures DataOf(raw, hs + [h], |hs|) == raw[Span(hs) + 512..Span(hs) + 512 + h.size]
  {
    hide Span, DataOf;
    var more := hs + [h];
    assert more[..|hs|] == hs && more[|hs|] == h;
    DataAt(raw, more, |hs|, Span(hs));
  }

  lemma NothingRead(lib: Library, raw: Bytes)
    ensures Entries(lib, raw, []) && Mirrors(lib, raw, [], START)
  {
  }

  /** Wherever the walk ends well, it has read entries up to an end mark. */
  lemma {:induction false} WalkEnds(lib: Library, raw: Bytes, hs: seq<Header>, s: Scan) returns (all: seq<Header>)
    requires |raw| % 512 == 0 && s.pos % 512 == 0 && s.pos <= |raw| && Walk(lib, raw, s).Success?
    requires Entries(lib, raw, hs) && Mirrors(lib, raw, hs, s)
    ensures Entries(lib, raw, all) && Mirrors(lib, raw, all, Walk(lib, raw, s).value)
    decreases |raw| - s.pos
  {
    hide Entries, Mirrors;
    all := hs;
    var next := NextHeader(lib, raw, s.pos);
    if next.Found? {
      TakeIff(lib, raw, hs, s, next.header);
      TakeMirrors(lib, raw, hs, s, next.header);
      all := WalkEnds(lib, raw, hs + [next.header], Take(lib, raw, s, next.header).value);
    }
  }

  lemma MirrorsPos(lib: Library, raw: Bytes, hs: seq<Header>, s: Scan)
    requires Mirrors(lib, raw, hs, s)
    ensures s.pos == Span(hs)
  {
  }

  /** The walk passes over entries that stand in the file. */
  lemma {:induction false} WalkAlong(lib: Library, raw: Bytes, hs: seq<Header>) returns (s: Scan)
    requires |raw| % 512 == 0 && Entries(lib, raw, hs)
    ensures Mirrors(lib, raw, hs, s) && s.pos % 512 == 0 && s.pos <= |raw| && Walk(lib, raw, s) == Walk(lib, raw, START)
    decreases |hs|
  {
    hide Mirrors, Entries, Take;
    if hs == [] {
      s := START;
      NothingRead(lib, raw);
    } else {
      var n := |hs| - 1;
      assert hs == hs[..n] + [hs[n]];
      EntriesAppend(lib, raw, hs[..n], hs[n]);
      var before := WalkAlong(lib, raw, hs[..n]);
      s := WalkStep(lib, raw, hs[..n], before, hs[n]);
    }
  }

  lemma WalkStep(lib: Library, raw: Bytes, hs: seq<Header>, before: Scan, h: Header) returns (s: Scan)
    requires |raw| % 512 == 0 && Entries(lib, raw, hs + [h]) && Entries(lib, raw, hs)
    requires Mirrors(lib, raw, hs, before) && before.pos % 512 == 0 && before.pos <= |raw|
    ensures Mirrors(lib, raw, hs + [h], s) && s.pos % 512 == 0 && s.pos <= |raw| && Walk(lib, raw, s) == Walk(lib, raw, before)
  {
    hide Mirrors, Entries, Take, Stands, AllZero, Span, Padded, NextHeader;
    EntriesAppend(lib, raw, hs, h);
    MirrorsPos(lib, raw, hs, before);
    NextStands(lib, raw, hs, h);
    TakeIff(lib, raw, hs, before, h);
    TakeMirrors(lib, raw, hs, before, h);
    s := Take(lib, raw, before, h).value;
  }

  // ----------------------------------------------------------------- the manifest's checks

  lemma {:induction false} PayloadNamesAt(hs: seq<Header>)
    ensures |PayloadNames(hs)| == if hs == [] then 0 else |hs| - 1
    ensures forall k :: 1 <= k < |hs| ==> PayloadNames(hs)[k - 1] == hs[k].name
  {
    if |hs| > 1 {
      var front := hs[..|hs| - 1];
      PayloadNamesAt(front);
      assert forall k :: 1 <= k < |front| ==> front[k] == hs[k];
    }
  }

  /** What the state says about the entries it has read, name by name. */
  ghost predicate Summary(hs: seq<Header>, s: Scan)
  {
    && s.count == |hs| >= 1 && |s.actual| == |s.files| == |hs| - 1
    && (forall k :: 1 <= k < |hs| ==> s.actual[k - 1] == hs[k].name && KeptFile(hs[k], s.files))
    && (forall key :: key in s.files ==> Listed(hs, key))
    && forall j, k :: 0 <= j < k < |hs| ==> hs[j].name != hs[k].name
  }

  predicate KeptFile(h: Header, files: Files)
  {
    "payload/" <= h.name && FileName(h) in files && |files[FileName(h)]| == h.size
  }

  lemma MirrorsSummary(lib: Library, raw: Bytes, hs: seq<Header>, s: Scan)
    requires hs != [] && Entries(lib, raw, hs) && Mirrors(lib, raw, hs, s)
    ensures ManifestIn(lib, raw, hs).Just?
    ensures Summary(hs, s) && s.pos == Span(hs) && s.manifest == ManifestIn(lib, raw, hs).value && |s.files| == |hs| - 1
    ensures forall k :: 1 <= k < |hs| ==> FileName(hs[k]) in s.files && s.files[FileName(hs[k])] == DataOf(raw, hs, k)
  {
    hide Entries, PayloadNames, Span, PayloadBytes, ManifestIn, FileName, DataOf, Folded, Listed, KeptFile;
    PayloadNamesAt(hs);
    EntriesManifest(lib, raw, hs);
    forall k | 0 <= k < |hs|
      ensures k > 0 ==> KeptFile(hs[k], s.files)
      ensures forall j :: 0 <= j < k ==> hs[j].name != hs[k].name {
      FineAt(lib, raw, hs, k);
      KeptAt(raw, hs, s.files, k);
    }
  }

  lemma KeptAt(raw: Bytes, hs: seq<Header>, files: Files, k: int)
    requires FilesRead(raw, hs, files) && 0 <= k < |hs| && hs[k].size == |DataOf(raw, hs, k)| && (k > 0 ==> "payload/" <= hs[k].name)
    ensures k > 0 ==> KeptFile(hs[k], files)
  {
    hide FileName, DataOf, Listed;
  }

  lemma EntriesManifest(lib: Library, raw: Bytes, hs: seq<Header>)
    requires hs != [] && Entries(lib, raw, hs)
    ensures ManifestIn(lib, raw, hs).Just?
  {
  }

  function Keys(hs: seq<Header>): (names: seq<string>)
    requires hs != []
    ensures |names| == |hs| - 1
  {
    seq(|hs| - 1, k requires 0 <= k < |hs| - 1 => FileName(hs[k + 1]))
  }

  /** A payload name and the file it stands for are ordered alike, and each gives the other. */
  lemma NameAndFile(h: Header, g: Header)
    requires "payload/" <= h.name && "payload/" <= g.name
    ensures ToPayload(FileName(h)) == h.name
    ensures LexLE(FileName(h), FileName(g)) <==> LexLE(h.name, g.name)
    ensures FileName(h) == FileName(g) <==> h.name == g.name
  {
    hide LexLE;
    var a, b := h.name[8..], g.name[8..];
    assert h.name == "payload/" + a && g.name == "payload/" + b;
    LexPrefix("payload/", a, b);
    LexPrefix("suite/", a, b);
    assert ("suite/" + a)[6..] == a && ("suite/" + b)[6..] == b;
  }

  lemma FineAt(lib: Library, raw: Bytes, hs: seq<Header>, k: int)
    requires Entries(lib, raw, hs) && 0 <= k < |hs|
    ensures k > 0 ==> "payload/" <= hs[k].name
    ensures hs[k].size == |DataOf(raw, hs, k)|
    ensures forall j :: 0 <= j < k ==> hs[j].name != hs[k].name
  {
    hide ManifestIn, SafePath;
    assert Stands(lib, raw, hs, k) && Fine(lib, hs, k);
  }

  lemma MatchedAt(hs: seq<Header>, s: Scan, names: seq<string>, k: int)
    requires Summary(hs, s) && 1 <= k < |hs| && Sorted(names, s.files) && MatchesBy(s, names)
    ensures names[k - 1] == FileName(hs[k]) && s.manifest.members[k - 1] == Member(hs[k].name, hs[k].size)
  {
    hide LexLE, Ascending, FileName;
    assert MatchesAt(s, k - 1, names[k - 1]) && names[k - 1] in s.files;
    assert KeptFile(hs[k], s.files);
    var j :| 1 <= j < |hs| && FileName(hs[j]) == names[k - 1];
    assert KeptFile(hs[j], s.files);
    NameAndFile(hs[j], hs[k]);
  }

  lemma MatchedIsListed(hs: seq<Header>, s: Scan, names: seq<string>)
    requires Summary(hs, s) && Sorted(names, s.files) && MatchesBy(s, names)
    ensures ListsAll(s.manifest.members, hs)
  {
    hide LexLE, FileName;
    forall k | 1 <= k < |hs| ensures names[k - 1] == FileName(hs[k]) && s.manifest.members[k - 1] == Member(hs[k].name, hs[k].size) {
      MatchedAt(hs, s, names, k);
    }
    forall j, k | 1 <= j < k < |hs| ensures LexLE(hs[j].name, hs[k].name) {
      assert KeptFile(hs[j], s.files) && KeptFile(hs[k], s.files);
      NameAndFile(hs[j], hs[k]);
      assert LexLE(names[j - 1], names[k - 1]);
    }
  }

  lemma KeysAscend(hs: seq<Header>, s: Scan, i: int, j: int)
    requires Summary(hs, s) && ListsAll(s.manifest.members, hs) && 0 <= i < j < |hs| - 1
    ensures LexLE(Keys(hs)[i], Keys(hs)[j]) && Keys(hs)[i] != Keys(hs)[j]
  {
    hide LexLE, FileName, Listed;
    assert KeptFile(hs[i + 1], s.files) && KeptFile(hs[j + 1], s.files);
    NameAndFile(hs[i + 1], hs[j + 1]);
  }

  lemma ListedIsSorted(hs: seq<Header>, s: Scan)
    requires Summary(hs, s) && ListsAll(s.manifest.members, hs) && hs != []
    ensures Sorted(Keys(hs), s.files)
  {
    hide LexLE, FileName, Summary, ListsAll, Listed, Keys;
    var names := Keys(hs);
    SummaryCounts(hs, s);
    forall i, j | 0 <= i < j < |names| ensures LexLE(names[i], names[j]) && names[i] != names[j] {
      KeysAscend(hs, s, i, j);
    }
    SummaryFiles(hs, s);
    forall n ensures n in names <==> n in s.files {
      KeysAre(hs, s.files, n);
    }
  }

  lemma KeysAre(hs: seq<Header>, files: Files, n: string)
    requires hs != [] && forall k :: 1 <= k < |hs| ==> FileName(hs[k]) in files
    requires forall key :: key in files ==> Listed(hs, key)
    ensures n in Keys(hs) <==> n in files
  {
    hide FileName;
    var keys := Keys(hs);
    if n in files {
      var k :| 1 <= k < |hs| && FileName(hs[k]) == n;
      assert keys[k - 1] == n;
    }
    if n in keys {
      var i :| 0 <= i < |keys| && keys[i] == n;
      assert FileName(hs[i + 1]) == n;
    }
  }

  lemma ListedAt(hs: seq<Header>, s: Scan, i: int)
    requires Summary(hs, s) && ListsAll(s.manifest.members, hs) && 0 <= i < |hs| - 1
    ensures MatchesAt(s, i, Keys(hs)[i])
  {
    hide LexLE, FileName, Listed;
    var h := hs[i + 1];
    assert KeptFile(h, s.files) && s.actual[i] == h.name && s.manifest.members[i] == Member(h.name, h.size);
    NameAndFile(h, h);
  }

  lemma ListedIsMatched(hs: seq<Header>, s: Scan)
    requires Summary(hs, s) && ListsAll(s.manifest.members, hs)
    ensures MatchesBy(s, Keys(hs))
  {
    hide LexLE, FileName;
    forall i | 0 <= i < |hs| - 1 ensures MatchesAt(s, i, Keys(hs)[i]) {
      ListedAt(hs, s, i);
    }
  }

  /** The importer's comparison of manifest, names and files is the one of the layout. */
  lemma MatchesIff(hs: seq<Header>, s: Scan)
    requires Summary(hs, s)
    ensures Matches(s) <==> ListsAll(s.manifest.members, hs)
  {
    hide ListsAll, Summary, MatchesAt, Keys;
    if Matches(s) {
      var names :| Sorted(names, s.files) && MatchesBy(s, names);
      MatchedIsListed(hs, s, names);
    }
    if ListsAll(s.manifest.members, hs) {
      SummaryCounts(hs, s);
      ListedIsSorted(hs, s);
      ListedIsMatched(hs, s);
    }
  }

  lemma SummaryFiles(hs: seq<Header>, s: Scan)
    requires Summary(hs, s)
    ensures (forall k :: 1 <= k < |hs| ==> FileName(hs[k]) in s.files) && forall key :: key in s.files ==> Listed(hs, key)
  {
    hide FileName, Listed;
    forall k | 1 <= k < |hs| ensures FileName(hs[k]) in s.files {
      assert KeptFile(hs[k], s.files);
    }
  }

  lemma SummaryCounts(hs: seq<Header>, s: Scan)
    requires Summary(hs, s) && ListsAll(s.manifest.members, hs)
    ensures hs != [] && s.count == |s.manifest.members| + 1 && |s.files| == |s.manifest.members| == |s.actual|
  {
  }

  lemma EndMark(lib: Library, raw: Bytes, s: Scan)
    requires |raw| % 512 == 0 && s.pos % 512 == 0 && s.pos + 1024 == |raw|
    ensures Trailer(raw, s) <==> Zeroed(raw, s.pos, |raw|)
    ensures Trailer(raw, s) ==> Walk(lib, raw, s) == Success(s)
  {
    ZerosIn(raw, s.pos, |raw|);
    ZerosIn(raw, s.pos, s.pos + 512);
    ZerosIn(raw, s.pos + 512, s.pos + 1024);
  }

  /** Of whatever file: the importer decodes exactly the archives, to exactly their files. */
  lemma DecodesIff(lib: Library, raw: Bytes, files: Files)
    ensures Decodes(lib, raw, files) <==> exists hs :: IsArchive(lib, raw, hs, files)
  {
    if Decodes(lib, raw, files) {
      var hs := DecodedIsArchive(lib, raw, files);
    }
    if hs :| IsArchive(lib, raw, hs, files) {
      ArchiveDecodes(lib, raw, hs, files);
    }
  }

  /** Two maps of the same size, one of which has every file of the other, are the same. */
  lemma SameFiles(raw: Bytes, hs: seq<Header>, s: Scan, files: Files)
    requires Summary(hs, s) && |files| == |hs| - 1
    requires forall k :: 1 <= k < |hs| ==> FileName(hs[k]) in s.files && s.files[FileName(hs[k])] == DataOf(raw, hs, k)
    requires forall k :: 1 <= k < |hs| ==> FileName(hs[k]) in files && files[FileName(hs[k])] == DataOf(raw, hs, k)
    ensures s.files == files
  {
    hide FileName, DataOf, KeptFile;
    forall key | key in s.files ensures key in files && files[key] == s.files[key] {
      var k :| 1 <= k < |hs| && FileName(hs[k]) == key;
    }
    SameKeys(s.files.Keys, files.Keys);
  }

  lemma SameKeys(a: set<string>, b: set<string>)
    requires a <= b && |a| == |b|
    ensures a == b
  {
    assert b == a + (b - a) && |b| == |a| + |b - a|;
  }

  /** A walk that matches its manifest has read one. */
  lemma SomeEntry(lib: Library, raw: Bytes, hs: seq<Header>, s: Scan)
    requires Mirrors(lib, raw, hs, s) && Matches(s)
    ensures hs != []
  {
  }

  lemma DecodedIsArchive(lib: Library, raw: Bytes, files: Files) returns (hs: seq<Header>)
    requires Decodes(lib, raw, files)
    ensures IsArchive(lib, raw, hs, files)
  {
    hide Entries, Mirrors, Matches, ManifestIn, Summary, NextHeader, Walk, Span, ListsAll;
    NothingRead(lib, raw);
    var s := Walk(lib, raw, START).value;
    hs := WalkEnds(lib, raw, [], START);
    SomeEntry(lib, raw, hs, s);
    MirrorsSummary(lib, raw, hs, s);
    EndMark(lib, raw, s);
    MatchesIff(hs, s);
  }

  lemma ArchiveDecodes(lib: Library, raw: Bytes, hs: seq<Header>, files: Files)
    requires IsArchive(lib, raw, hs, files)
    ensures Decodes(lib, raw, files)
  {
    hide Entries, Mirrors, Matches, ManifestIn, Summary, NextHeader, Walk, Span, ListsAll;
    var s := WalkAlong(lib, raw, hs);
    MirrorsSummary(lib, raw, hs, s);
    EndMark(lib, raw, s);
    MatchesIff(hs, s);
    SameFiles(raw, hs, s, files);
  }
}
