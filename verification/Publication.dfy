/** Evidence publication under storage faults and crashes, and the inspector that reads the directory afterwards. */
module Publication {
  import opened Host
  import opened Protocol
  import opened AgentLoop

  datatype Cleanup = CleanupPending | CleanupComplete | CleanupFailed

  /** An evidence document: the run configuration it claims, the episode, and the writer's statuses. */
  datatype Record<+W> = Record(config: string, episode: Episode<W>, cleanup: Cleanup, complete: bool, replayable: bool)

  datatype Name = Claim | Closure | Pending | Terminal

  datatype Document<+W> = ClaimDocument(config: string) | Evidence(record: Record<W>)

  /** A file holds all of its document, or a proper part of it that no longer decodes. */
  datatype File<+W> = Whole(document: Document<W>) | Torn

  /** What one storage operation does. A process stop is any fault after which nothing more is attempted. */
  datatype Fault =
    | Works
    | Refused          // nothing happened
    | Short            // a file was created but only part of it reached the disk
    | Unconfirmed      // everything happened, but the caller is not told so

  const CLEANUP_CODE := OtherError("CLEANUP_FAILED")

  // ---------------------------------------------------------------------- verification

  datatype Verdict = Accepted | Partial | Rejected

  /** replay: an episode that is not clean, or not closed when a terminal is asked for, is only partial. */
  function Verify<W(==)>(world: World<W>, b: Budgets, r: Record<W>, terminal: bool): Verdict
  {
    if !Clean(r.episode) then Partial
    else if terminal && !(r.cleanup.CleanupComplete? && r.complete && r.replayable) then Partial
    else if Accounted(r.episode, b) && Replays(world, r.episode) then Accepted
    else Rejected
  }

  /** The episode's grading succeeded and nothing failed: its closure has to verify before it is written. */
  predicate Closable<W>(ep: Episode<W>)
  {
    ep.status == Completed && ep.evaluation.Just? && ep.code.NoCode?
  }

  /** What runs leave behind: a failed inspection always has a failure code, and cleanup has not run. */
  predicate Inspectable<W>(ep: Episode<W>)
  {
    (ep.terminalCode.Code? ==> ep.code.Code?) && ep.cleanupCode.NoCode? && ep.code != Code(CLEANUP_CODE)
  }

  function Staged<W>(config: string, ep: Episode<W>): Record<W>
  {
    Record(config, ep, CleanupPending, false, false)
  }

  /** The record after the world was closed, or failed to close. */
  function Published<W>(config: string, ep: Episode<W>, closes: bool): Record<W>
  {
    if closes then Record(config, ep, CleanupComplete, Closable(ep), Closable(ep))
    else
      var code := if ep.code.NoCode? then Code(CLEANUP_CODE) else ep.code;
      Record(config, ep.(code := code, cleanupCode := Code(CLEANUP_CODE)), CleanupFailed, false, false)
  }

  // ------------------------------------------------------------------------ the directory

  /** What an evidence directory can hold at any moment of one recording. */
  ghost predicate Shape<W>(files: map<Name, File<W>>, config: string, ep: Episode<W>, closes: bool)
  {
    && (Claim in files ==> files[Claim] in {Torn, Whole(ClaimDocument(config))})
    && (Closure in files ==> files[Closure] in {Torn, Whole(Evidence(Staged(config, ep)))})
    && (Pending in files ==> files[Pending] in {Torn, Whole(Evidence(Published(config, ep, closes)))})
    && (Terminal in files ==> files[Terminal] == Whole(Evidence(Published(config, ep, closes))))
    && (Closure in files || Terminal in files ==> Claim in files && files[Claim].Whole?)
    && (Pending in files ==> Closure in files && files[Closure].Whole?)
    && (Closure in files && files[Closure].Torn? ==> Terminal !in files)
    && (Terminal in files && Pending in files ==> files[Terminal] == files[Pending])
  }

  class Directory<W(==)> {
    var made: bool
    var files: map<Name, File<W>>

    constructor ()
      ensures !made && files == map[]
    {
      made, files := false, map[];
    }

    method Mkdir(fault: Fault) returns (ok: bool)
      modifies this
      ensures files == old(files) && (made == old(made) || (!old(made) && made))
      ensures ok <==> !old(made) && fault.Works?
      ensures ok ==> made
    {
      if made || !fault.Works? {
        if fault.Unconfirmed? {
          made := true;
        }
        return false;
      }
      made := true;
      ok := true;
    }

    /** Exclusive create, then write, sync and close. */
    method WriteExclusive(name: Name, document: Document<W>, fault: Fault) returns (ok: bool)
      modifies this
      ensures made == old(made)
      ensures name in old(files) ==> !ok && files == old(files)
      ensures name !in old(files) ==> (ok <==> fault.Works?)
      ensures ok ==> files == old(files)[name := Whole(document)]
      ensures !ok ==> files in {old(files), old(files)[name := Torn], old(files)[name := Whole(document)]}
    {
      if name in files || fault.Refused? {
        return false;
      }
      files := files[name := if fault.Short? then Torn else Whole(document)];
      ok := fault.Works?;
    }

    /** A hard link, which never replaces an existing name. */
    method Link(source: Name, target: Name, fault: Fault) returns (ok: bool)
      requires source in files
      modifies this
      ensures made == old(made)
      ensures target in old(files) ==> !ok && files == old(files)
      ensures target !in old(files) ==> (ok <==> fault.Works?)
      ensures ok ==> files == old(files)[target := old(files)[source]]
      ensures !ok ==> files in {old(files), old(files)[target := old(files)[source]]}
    {
      if target in files || fault.Refused? || fault.Short? {
        return false;
      }
      files := files[target := files[source]];
      ok := fault.Works?;
    }

    method Remove(name: Name, fault: Fault) returns (ok: bool)
      modifies this
      ensures made == old(made)
      ensures ok <==> fault.Works?
      ensures ok ==> files == old(files) - {name}
      ensures !ok ==> files in {old(files), old(files) - {name}}
    {
      if fault.Refused? || fault.Short? {
        return false;
      }
      files := files - {name};
      ok := fault.Works?;
    }

    /**
     * Record one run. Each operation has its own fault, and any but Works stops the writer where it is, so the
     * directory afterwards is what a crash or a storage error at any point would leave.
     */
    method RecordRun(world: World<W>, b: Budgets, config: string, ep: Episode<W>, closes: bool,
                     prepares: Document<W> -> bool, faults: nat -> Fault) returns (ok: bool)
      requires Inspectable(ep) && (!made ==> files == map[])
      modifies this
      ensures old(made) ==> !ok && made && files == old(files)
      ensures files != map[] && files != old(files) ==> made
      ensures ok ==> made
      ensures !old(made) ==> Shape(files, config, ep, closes)
      ensures !old(made) && Closable(ep) && (Closure in files || Terminal in files) ==>
        Verify(world, b, Staged(config, ep), false).Accepted?
      ensures ok <==>
        (&& !old(made) && (forall i :: 0 <= i < 7 ==> faults(i).Works?)
         && prepares(ClaimDocument(config)) && prepares(Evidence(Staged(config, ep))) && prepares(Evidence(Published(config, ep, closes)))
         && (Closable(ep) ==> Verify(world, b, Staged(config, ep), false).Accepted?))
      ensures ok ==> files == map[Claim := Whole(ClaimDocument(config)), Terminal := Whole(Evidence(Published(config, ep, closes)))]
    {
      var claimed := ClaimDirectory(config, prepares, faults);
      if !claimed {
        return false;
      }
      if Closable(ep) && !Verify(world, b, Staged(config, ep), false).Accepted? {
        return false;
      }
      ok := StageAndPublish(Staged(config, ep), Published(config, ep, closes), prepares, faults);
    }

    /** Create the directory and claim it; an existing one is left alone. */
    method ClaimDirectory(config: string, prepares: Document<W> -> bool, faults: nat -> Fault) returns (ok: bool)
      requires !made ==> files == map[]
      modifies this
      ensures old(made) ==> !ok && made && files == old(files)
      ensures files != map[] && files != old(files) ==> made
      ensures ok ==> made
      ensures ok <==> !old(made) && faults(0).Works? && faults(1).Works? && prepares(ClaimDocument(config))
      ensures ok ==> files == map[Claim := Whole(ClaimDocument(config))]
      ensures !old(made) && !ok ==> files in {map[], map[Claim := Torn], map[Claim := Whole(ClaimDocument(config))]}
    {
      if !prepares(ClaimDocument(config)) {
        return false;
      }
      var created := Mkdir(faults(0));
      if !created {
        return false;
      }
      ok := WriteExclusive(Claim, ClaimDocument(config), faults(1));
    }

    /** Write the closure before the world closes and the pending terminal after it, then publish. */
    method StageAndPublish(staged: Record<W>, final: Record<W>, prepares: Document<W> -> bool, faults: nat -> Fault) returns (ok: bool)
      requires Closure !in files && Pending !in files && Terminal !in files
      modifies this
      ensures made == old(made)
      ensures ok <==> prepares(Evidence(staged)) && prepares(Evidence(final)) && forall i :: 2 <= i < 7 ==> faults(i).Works?
      ensures ok ==> files == old(files)[Terminal := Whole(Evidence(final))]
      ensures !ok ==> Progress(old(files), files, staged, final)
    {
      if !prepares(Evidence(staged)) {
        return false;
      }
      var closed := WriteExclusive(Closure, Evidence(staged), faults(2));
      if !closed || !prepares(Evidence(final)) {
        return false;
      }
      var pending := WriteExclusive(Pending, Evidence(final), faults(3));
      if !pending {
        return false;
      }
      ok := Publish(faults);
      assert ok ==> files == old(files)[Terminal := Whole(Evidence(final))];
    }

    /** The directories a stopped writer can leave, in the order it passes through them. */
    static ghost predicate Progress(before: map<Name, File<W>>, after: map<Name, File<W>>, staged: Record<W>, final: Record<W>)
    {
      var closed := before[Closure := Whole(Evidence(staged))];
      var pending := closed[Pending := Whole(Evidence(final))];
      var linked := pending[Terminal := Whole(Evidence(final))];
      after in {before, before[Closure := Torn], closed, closed[Pending := Torn], pending, linked, linked - {Pending},
                linked - {Pending, Closure}}
    }

    /** Link the pending file into place, then drop the staging. */
    method Publish(faults: nat -> Fault) returns (ok: bool)
      requires Pending in files && Closure in files && Terminal !in files
      modifies this
      ensures made == old(made)
      ensures ok <==> faults(4).Works? && faults(5).Works? && faults(6).Works?
      ensures ok ==> files == old(files)[Terminal := old(files[Pending])] - {Pending, Closure}
      ensures !ok ==> var linked := old(files)[Terminal := old(files[Pending])];
        files in {old(files), linked, linked - {Pending}, linked - {Pending, Closure}}
    {
      ghost var linked := files[Terminal := files[Pending]];
      var done := Link(Pending, Terminal, faults(4));
      if !done {
        return false;
      }
      done := Remove(Pending, faults(5));
      if !done {
        return false;
      }
      ok := Remove(Closure, faults(6));
      assert linked - {Pending} - {Closure} == linked - {Pending, Closure};
    }
  }

  /** Run the agent and record what it did: a storage that works always ends with a published terminal. */
  method RunAndRecord<W(==)>(world: World<W>, lib: Library, b: Budgets, config: string, encode: seq<Entry> -> (nat, bool), steps: nat,
                             exhausted: Error, reply: (nat, seq<Entry>) -> Outcome<Raw>, clock: nat -> Moment, inspects: bool,
                             closes: bool, prepares: Document<W> -> bool, faults: nat -> Fault, dir: Directory<W>)
    returns (ep: Episode<W>, ok: bool)
    requires BudgetsOk(b) && !dir.made && dir.files == map[] && exhausted != CLEANUP_CODE
    modifies dir
    ensures Inspectable(ep) && Shape(dir.files, config, ep, closes)
    ensures Closable(ep) ==> Verify(world, b, Staged(config, ep), false).Accepted?
    ensures ok ==> dir.made
    ensures ok ==> dir.files == map[Claim := Whole(ClaimDocument(config)), Terminal := Whole(Evidence(Published(config, ep, closes)))]
    ensures dir.files != map[] ==> dir.made
    ensures ok <==>
      (&& (forall i :: 0 <= i < 7 ==> faults(i).Works?)
       && prepares(ClaimDocument(config)) && prepares(Evidence(Staged(config, ep))) && prepares(Evidence(Published(config, ep, closes))))
  {
    ghost var talk, cause, why;
    ep, talk, cause, why := RunLoop(world, lib, b, encode, steps, exhausted, reply, clock, inspects);
    ok := dir.RecordRun(world, b, config, ep, closes, prepares, faults);
  }

  // ------------------------------------------------------------------------ the inspector

  /** Two artifacts of one run agree on everything the cleanup could not yet have changed. */
  function Core<W>(r: Record<W>): Record<W>
  {
    var ep := r.episode;
    Record(r.config, ep.(cleanupCode := NoCode, code := if ep.code == Code(CLEANUP_CODE) then NoCode else ep.code),
           CleanupPending, false, false)
  }

  datatype State = NotStarted | IncompleteOrRunning | Invalid | IsPublished | PublishedWithResidue

  datatype FileState = Absent | FileInvalid | Verified | PartialUnverified

  datatype Report<+W> = Report(invalid: bool, complete: bool, residue: bool, states: seq<FileState>,
                               previous: Maybe<Record<W>>, previousIsPending: bool)

  /** The inspector's treatment of one of closure, pending and terminal. */
  function InspectFile<W(==)>(world: World<W>, b: Budgets, config: string, files: map<Name, File<W>>, name: Name, so: Report<W>): Report<W>
  {
    if name !in files then so.(states := so.states + [Absent])
    else
      var seen := so.(residue := so.residue || name != Terminal);
      if files[name].Torn? || files[name].document.ClaimDocument? || files[name].document.record.config != config then
        seen.(invalid := true, states := so.states + [FileInvalid])
      else
        var r := files[name].document.record;
        var conflict := so.previous.Just?
                        && (Core(so.previous.value) != Core(r)
                            || (so.previousIsPending && name == Terminal && so.previous.value != r));
        var verdict := Verify(world, b, r, name != Closure);
        Report(so.invalid || conflict || verdict.Rejected?,
               so.complete || (verdict.Accepted? && name == Terminal && r.cleanup.CleanupComplete? && r.complete && r.replayable),
               seen.residue,
               so.states + [match verdict case Accepted => Verified case Partial => PartialUnverified case Rejected => FileInvalid],
               Just(r), name == Pending)
  }

  const NAMES := [Closure, Pending, Terminal]

  function InspectUpTo<W(==)>(world: World<W>, b: Budgets, config: string, files: map<Name, File<W>>, n: nat): Report<W>
    requires n <= 3
  {
    if n == 0 then Report(false, false, false, [], Nothing, false)
    else InspectFile(world, b, config, files, NAMES[n - 1], InspectUpTo(world, b, config, files, n - 1))
  }

  function StateOf<W(==)>(world: World<W>, b: Budgets, made: bool, files: map<Name, File<W>>): State
  {
    if !made then NotStarted
    else if files == map[] then IncompleteOrRunning
    else if Claim !in files || files[Claim].Torn? || files[Claim].document.Evidence? then Invalid
    else
      var r := InspectUpTo(world, b, files[Claim].document.config, files, 3);
      if r.invalid then Invalid
      else if !r.complete then IncompleteOrRunning
      else if r.residue then PublishedWithResidue
      else IsPublished
  }

  /** The inspector's walk over the directory. */
  method Inspect<W(==)>(world: World<W>, b: Budgets, dir: Directory<W>) returns (state: State)
    ensures state == StateOf(world, b, dir.made, dir.files)
  {
    var files := dir.files;
    if !dir.made {
      return NotStarted;
    }
    if |files| == 0 {
      return IncompleteOrRunning;
    }
    assert files != map[];
    if Claim !in files || files[Claim].Torn? || files[Claim].document.Evidence? {
      return Invalid;
    }
    var config := files[Claim].document.config;
    var report: Report<W> := Report(false, false, false, [], Nothing, false);
    for i := 0 to 3
      invariant report == InspectUpTo(world, b, config, files, i)
    {
      report := InspectFile(world, b, config, files, NAMES[i], report);
    }
    if report.invalid {
      return Invalid;
    }
    state := IncompleteOrRunning;
    if report.complete {
      state := IsPublished;
      if report.residue {
        state := PublishedWithResidue;
      }
    }
  }

  // -------------------------------------------------------------- writer and inspector agree

  ghost predicate HasTornFile<W>(files: map<Name, File<W>>)
  {
    exists n :: n in files && files[n].Torn?
  }

  lemma CoresAgree<W>(config: string, ep: Episode<W>, closes: bool)
    requires Inspectable(ep)
    ensures Core(Staged(config, ep)) == Core(Published(config, ep, closes))
  {
  }

  /** A closure that verified before cleanup verifies as a terminal after a complete cleanup, and is partial otherwise. */
  lemma TerminalVerdict<W>(world: World<W>, b: Budgets, config: string, ep: Episode<W>, closes: bool)
    requires Inspectable(ep)
    requires Closable(ep) ==> Verify(world, b, Staged(config, ep), false).Accepted?
    ensures Verify(world, b, Published(config, ep, closes), true) == if Closable(ep) && closes then Accepted else Partial
    ensures Verify(world, b, Staged(config, ep), false) == if Closable(ep) then Accepted else Partial
  {
  }

  /** Whatever point the writer stopped at, the inspector finds the directory invalid only if a file is torn. */
  lemma InvalidIffTorn<W>(world: World<W>, b: Budgets, config: string, ep: Episode<W>, closes: bool, files: map<Name, File<W>>)
    requires Inspectable(ep) && Shape(files, config, ep, closes)
    requires Closable(ep) && (Closure in files || Terminal in files) ==> Verify(world, b, Staged(config, ep), false).Accepted?
    ensures StateOf(world, b, true, files).Invalid? <==> HasTornFile(files)
  {
    CoresAgree(config, ep, closes);
    if Closure in files || Terminal in files {
      TerminalVerdict(world, b, config, ep, closes);
    }
    if Claim !in files {
      forall n: Name ensures n !in files {
        match n {
          case Claim =>
          case Closure =>
          case Pending =>
          case Terminal =>
        }
      }
      assert files == map[];
    } else if files[Claim].Whole? {
      Unroll(world, b, config, files);
      NoOtherNames(files);
    }
  }

  lemma NoOtherNames<W>(files: map<Name, File<W>>)
    ensures HasTornFile(files) <==>
      (|| (Claim in files && files[Claim].Torn?) || (Closure in files && files[Closure].Torn?)
       || (Pending in files && files[Pending].Torn?) || (Terminal in files && files[Terminal].Torn?))
  {
    if n :| n in files && files[n].Torn? {
      match n {
        case Claim =>
        case Closure =>
        case Pending =>
        case Terminal =>
      }
    }
  }

  lemma Unroll<W>(world: World<W>, b: Budgets, config: string, files: map<Name, File<W>>)
    ensures var r0 := Report(false, false, false, [], Nothing, false);
      var r1 := InspectFile(world, b, config, files, Closure, r0);
      var r2 := InspectFile(world, b, config, files, Pending, r1);
      InspectUpTo(world, b, config, files, 3) == InspectFile(world, b, config, files, Terminal, r2)
  {
    var r1 := InspectUpTo(world, b, config, files, 1);
    assert r1 == InspectFile(world, b, config, files, Closure, InspectUpTo(world, b, config, files, 0));
    assert InspectUpTo(world, b, config, files, 2) == InspectFile(world, b, config, files, Pending, r1);
  }

  /** The inspector reports a published state exactly when the terminal of a verified, cleaned-up run has been linked. */
  lemma PublishedIff<W>(world: World<W>, b: Budgets, config: string, ep: Episode<W>, closes: bool, files: map<Name, File<W>>)
    requires Inspectable(ep) && Shape(files, config, ep, closes) && !HasTornFile(files)
    requires Closable(ep) && (Closure in files || Terminal in files) ==> Verify(world, b, Staged(config, ep), false).Accepted?
    ensures var state := StateOf(world, b, true, files);
      && (state.IsPublished? || state.PublishedWithResidue? <==> Terminal in files && Closable(ep) && closes)
      && (state.IsPublished? <==> Terminal in files && Closable(ep) && closes && Closure !in files && Pending !in files)
  {
    CoresAgree(config, ep, closes);
    InvalidIffTorn(world, b, config, ep, closes, files);
    if Closure in files || Terminal in files {
      TerminalVerdict(world, b, config, ep, closes);
    }
    if files != map[] && Claim in files && files[Claim].Whole? {
      Unroll(world, b, config, files);
    }
  }

  /**
   From the first model request to the inspector's verdict, with a fault or a stop at any storage operation: a clean recording
   of a run that completed, was graded and closed its world is published without residue; a publication is never reported for
   any other run, nor without its terminal; and the directory is invalid exactly when a file in it is torn.
   */
  method RunRecordInspect<W(==)>(world: World<W>, lib: Library, b: Budgets, config: string, encode: seq<Entry> -> (nat, bool), steps: nat,
                                 exhausted: Error, reply: (nat, seq<Entry>) -> Outcome<Raw>, clock: nat -> Moment, inspects: bool,
                                 closes: bool, prepares: Document<W> -> bool, faults: nat -> Fault)
    returns (ep: Episode<W>, ok: bool, state: State, files: map<Name, File<W>>)
    requires BudgetsOk(b) && exhausted != CLEANUP_CODE
    ensures ok ==> state == if Closable(ep) && closes then IsPublished else IncompleteOrRunning
    ensures state.IsPublished? || state.PublishedWithResidue? ==>
      (&& Closable(ep) && closes && Terminal in files && files[Terminal] == Whole(Evidence(Published(config, ep, true)))
       && Verify(world, b, Published(config, ep, true), true).Accepted?)
    ensures state.Invalid? <==> HasTornFile(files)
    ensures Terminal in files && Closable(ep) && closes && !HasTornFile(files) ==> state.IsPublished? || state.PublishedWithResidue?
  {
    var dir := new Directory<W>();
    ep, ok := RunAndRecord(world, lib, b, config, encode, steps, exhausted, reply, clock, inspects, closes, prepares, faults, dir);
    state := Inspect(world, b, dir);
    files := dir.files;
    if dir.made {
      InvalidIffTorn(world, b, config, ep, closes, files);
      if !HasTornFile(files) {
        PublishedIff(world, b, config, ep, closes, files);
      }
      TerminalVerdict(world, b, config, ep, closes);
    }
  }
}
