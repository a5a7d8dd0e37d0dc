/** What the inspector's verdicts mean for any directory, whoever wrote it. */
module Inspection {
  import opened Protocol
  import opened AgentLoop
  import opened Publication

  // ------------------------------------------------------------------------- what is written

  /** What the closure says before the world closes, and the terminal after it. */
  lemma WrittenRecords<W>(config: string, ep: Episode<W>)
    ensures Staged(config, ep) == Record(config, ep, CleanupPending, false, false)
    ensures var graded := ep.status == Completed && ep.evaluation.Just? && ep.code == NoCode;
      Published(config, ep, true) == Record(config, ep, CleanupComplete, graded, graded)
    ensures Published(config, ep, false)
      == Record(config, ep.(cleanupCode := Code(OtherError("CLEANUP_FAILED")),
                            code := if ep.code == NoCode then Code(OtherError("CLEANUP_FAILED")) else ep.code),
                CleanupFailed, false, false)
  {
  }

  /** The run failed nowhere and was graded. */
  predicate Graded<W>(ep: Episode<W>)
  {
    ep.status == Completed && ep.code == NoCode && ep.terminalCode == NoCode && ep.cleanupCode == NoCode && ep.evaluation.Just?
  }

  /** The record says that its world was closed and its evidence is whole. */
  predicate Closed<W>(r: Record<W>)
  {
    r.cleanup == CleanupComplete && r.complete && r.replayable
  }

  /** A verdict is partial for what does not claim to be whole, and otherwise accepts just what the world reproduces. */
  lemma VerdictMeans<W>(world: World<W>, b: Budgets, r: Record<W>, terminal: bool)
    ensures Verify(world, b, r, terminal) == Partial <==> !Graded(r.episode) || (terminal && !Closed(r))
    ensures Verify(world, b, r, terminal) == Accepted <==>
      (terminal ==> Closed(r)) && exists states :: Verifiable(world, r.episode, b, states)
  {
    ReplayMeans(world, r.episode, b);
    hide Accounted, Replays, Verifiable;
    if states :| Verifiable(world, r.episode, b, states) {
      ShowsReplay(world, r.episode, b, states);
    }
  }

  // ---------------------------------------------------------------------------- what is read

  /** A file that holds evidence of the claimed run. */
  predicate Readable<W>(files: map<Name, File<W>>, config: string, name: Name)
  {
    name in files && files[name].Whole? && files[name].document.Evidence? && files[name].document.record.config == config
  }

  function RecordIn<W>(files: map<Name, File<W>>, config: string, name: Name): Record<W>
    requires Readable(files, config, name)
  {
    files[name].document.record
  }

  /** The failure code, disregarding a failure to clean up. */
  function CodeBefore<W>(ep: Episode<W>): Code
  {
    if ep.code == Code(OtherError("CLEANUP_FAILED")) then NoCode else ep.code
  }

  /** Two records of one run, before and after cleanup. */
  predicate SameRun<W(==)>(a: Record<W>, b: Record<W>)
  {
    && a.config == b.config && a.episode.status == b.episode.status && a.episode.terminalCode == b.episode.terminalCode
    && a.episode.usage == b.episode.usage && a.episode.frontiers == b.episode.frontiers
    && a.episode.view == b.episode.view && a.episode.evaluation == b.episode.evaluation
    && CodeBefore(a.episode) == CodeBefore(b.episode)
  }

  lemma CoreIsRun<W>(a: Record<W>, b: Record<W>)
    ensures Core(a) == Core(b) <==> SameRun(a, b)
  {
  }

  predicate ClaimStands<W>(files: map<Name, File<W>>)
  {
    Claim in files && files[Claim].Whole? && files[Claim].document.ClaimDocument?
  }

  /** Each file is absent, or readable and not rejected. */
  ghost predicate Sound<W>(world: World<W>, b: Budgets, files: map<Name, File<W>>, config: string, name: Name)
  {
    name in files ==>
      Readable(files, config, name) && Verify(world, b, RecordIn(files, config, name), name != Closure) != Rejected
  }

  predicate Agree<W(==)>(files: map<Name, File<W>>, config: string, name: Name, other: Name)
  {
    Readable(files, config, name) && Readable(files, config, other) ==>
      SameRun(RecordIn(files, config, name), RecordIn(files, config, other))
  }

  /** All files are sound and of the claimed run, and what was published is what was pending. */
  ghost predicate Consistent<W>(world: World<W>, b: Budgets, files: map<Name, File<W>>)
  {
    && ClaimStands(files)
    && var config := files[Claim].document.config;
    && Sound(world, b, files, config, Closure) && Sound(world, b, files, config, Pending) && Sound(world, b, files, config, Terminal)
    && Agree(files, config, Closure, Pending) && Agree(files, config, Pending, Terminal) && Agree(files, config, Closure, Terminal)
    && (Readable(files, config, Pending) && Readable(files, config, Terminal) ==>
          RecordIn(files, config, Pending) == RecordIn(files, config, Terminal))
  }

  /** The terminal is whole, closed, and what the world reproduces. */
  ghost predicate Proven<W>(world: World<W>, b: Budgets, files: map<Name, File<W>>)
    requires ClaimStands(files)
  {
    var config := files[Claim].document.config;
    Readable(files, config, Terminal) && Verify(world, b, RecordIn(files, config, Terminal), true) == Accepted
  }

  /** One step of the inspector's walk, as far as its verdicts go. */
  lemma FileStep<W>(world: World<W>, b: Budgets, files: map<Name, File<W>>, config: string, name: Name, so: Report<W>)
    requires name != Claim
    ensures var r := InspectFile(world, b, config, files, name, so);
      && (r.residue <==> so.residue || (name in files && name != Terminal))
      && (!Readable(files, config, name) ==>
            && (r.invalid <==> so.invalid || name in files) && r.complete == so.complete && r.previous == so.previous
            && r.previousIsPending == so.previousIsPending)
      && (Readable(files, config, name) ==>
            var record := RecordIn(files, config, name);
            && r.previous == Just(record) && (r.previousIsPending <==> name == Pending)
            && (r.complete <==> so.complete || (name == Terminal && Verify(world, b, record, true) == Accepted))
            && (r.invalid <==>
                  || so.invalid || Verify(world, b, record, name != Closure) == Rejected
                  || (so.previous.Just? && !SameRun(so.previous.value, record))
                  || (so.previous.Just? && so.previousIsPending && name == Terminal && so.previous.value != record)))
  {
    hide Accounted, Replays, Core;
    if Readable(files, config, name) && so.previous.Just? {
      CoreIsRun(so.previous.value, files[name].document.record);
    }
  }

  /** The verdict on any directory. */
  lemma StateMeans<W>(world: World<W>, b: Budgets, made: bool, files: map<Name, File<W>>)
    ensures StateOf(world, b, made, files) ==
      if !made then NotStarted
      else if files == map[] then IncompleteOrRunning
      else if !Consistent(world, b, files) then Invalid
      else if !Proven(world, b, files) then IncompleteOrRunning
      else if Closure in files || Pending in files then PublishedWithResidue
      else IsPublished
  {
    if made && ClaimStands(files) {
      hide InspectFile, Verify, SameRun, InspectUpTo;
      var config := files[Claim].document.config;
      var r0 := Report(false, false, false, [], Nothing, false);
      var r1 := InspectFile(world, b, config, files, Closure, r0);
      var r2 := InspectFile(world, b, config, files, Pending, r1);
      FileStep(world, b, files, config, Closure, r0);
      FileStep(world, b, files, config, Pending, r1);
      FileStep(world, b, files, config, Terminal, r2);
      Unroll(world, b, config, files);
      SameRunIsTransitive(files, config);
    }
  }

  lemma SameRunIsTransitive<W>(files: map<Name, File<W>>, config: string)
    ensures Readable(files, config, Closure) && Readable(files, config, Pending) && Readable(files, config, Terminal)
      && Agree(files, config, Closure, Pending) && Agree(files, config, Pending, Terminal)
      ==> Agree(files, config, Closure, Terminal)
  {
  }
}
