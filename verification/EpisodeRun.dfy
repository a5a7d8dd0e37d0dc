/** Executing an Episode: the lifecycle object, the Evidence an execution builds, and the local lane from end to end. */
module EpisodeRun {
  import opened EpisodeTypes
  import opened Coordinator
  import opened Invariant
  import opened Readback
  import opened EpisodeJournal

  class LifecycleObject {
    var current: Status
    var events: seq<Event>

    ghost predicate Valid()
      reads this
    {
      Chain(events) && LastTo(events) == current
    }

    constructor ()
      ensures Valid() && current == Created && events == [CREATION]
    {
      current := Created;
      events := [CREATION];
    }

    method Transition(next: Status) returns (ok: bool)
      requires Valid()
      modifies this
      ensures Valid()
      ensures ok <==> AllowedTransition(old(current), next)
      ensures ok ==> current == next && events == old(events) + [Event(|old(events)|, Some(old(current)), next)]
      ensures !ok ==> current == old(current) && events == old(events)
    {
      if !AllowedTransition(current, next) {
        return false;
      }
      ChainAppend(events, Event(|events|, Some(current), next));
      events := events + [Event(|events|, Some(current), next)];
      current := next;
      ok := true;
    }
  }

  /** What the bundle and the engine contribute: decoding, the scenario's report, and the size check. */
  datatype Execution = Execution(decodes: bool, report: Option<Report>, fits: bool)

  function TerminalOf(report: Report): Status
  {
    if report.passed then Succeeded else AssertionFailed
  }

  function EvidenceOf(request: Request, lifecycle: Lifecycle, report: Report): Evidence
  {
    Evidence(API_VERSION, EVIDENCE_KIND, EVIDENCE_FORMAT, request.episodeId, request.bundleDigest, request.scenarioPath,
             request.runtime, lifecycle, if report.passed then "succeeded" else "assertion_failed", report)
  }

  function EnvelopeFor(p: Platform, request: Request, report: Report): Envelope
  {
    var terminal := TerminalOf(report);
    var e := EvidenceOf(request, Lifecycle(terminal, EvidencePath(terminal)), report);
    Envelope(API_VERSION, ENVELOPE_KIND, Some(e), p.evidenceDigest(e))
  }

  /** Whatever an execution returns is honest Evidence, acceptable to the coordinator as well. */
  lemma RunBuildsHonestEvidence(p: Platform, id: Id, row: EpisodeRow, report: Report)
    ensures BuiltByRun(p, RequestOf(id, row), EnvelopeFor(p, RequestOf(id, row), report))
    ensures EnvelopeOk(p, RequestOf(id, row), EnvelopeFor(p, RequestOf(id, row), report))
  {
    BuiltEvidenceIsAccepted(p, id, row, EnvelopeFor(p, RequestOf(id, row), report));
  }

  /** The Evidence of an execution, field by field: it says success exactly when the scenario passed. */
  lemma ExecutionEvidence(p: Platform, request: Request, report: Report)
    ensures var ended := if report.passed then Succeeded else AssertionFailed;
      var events := [Event(0, None, Created), Event(1, Some(Created), Provisioning), Event(2, Some(Provisioning), Ready),
                     Event(3, Some(Ready), Running), Event(4, Some(Running), Evaluating), Event(5, Some(Evaluating), ended)];
      var e := Evidence("statetwin.dev/v1alpha1", "EpisodeEvidence", "statetwin.dev/episode-evidence/v1alpha1",
                        request.episodeId, request.bundleDigest, request.scenarioPath, request.runtime, Lifecycle(ended, events),
                        if report.passed then "succeeded" else "assertion_failed", report);
      EnvelopeFor(p, request, report) == Envelope("statetwin.dev/v1alpha1", "EpisodeEvidenceEnvelope", Some(e), p.evidenceDigest(e))
  {
    assert EvidencePath(TerminalOf(report))
      == [Event(0, None, Created), Event(1, Some(Created), Provisioning), Event(2, Some(Provisioning), Ready),
          Event(3, Some(Ready), Running), Event(4, Some(Running), Evaluating), Event(5, Some(Evaluating), TerminalOf(report))];
  }

  datatype Reply =
    | Reused(envelope: Envelope) | Finished(envelope: Envelope)
    | Incomplete | EndedWithoutEvidence | RunFailed | Refused(error: Error)

  /** Journal and lifecycle agree on a reserved, running Episode. */
  ghost predicate Synced(j: Journal, l: LifecycleObject, request: Request, sequence: int, now: Instant)
    reads j, l
  {
    && j.Valid() && l.Valid() && !IsTerminal(l.current)
    && var id := request.episodeId;
    && id in j.episodes && id in j.events && j.events[id] == l.events && |l.events| == sequence + 1
    && var row := j.episodes[id];
    && RequestOf(id, row) == request && row.requestDigest == j.p.requestDigest(request)
    && row.status == l.current && row.sequence == sequence && row.createdAt <= now && row.createdAt <= row.updatedAt
  }

  /** How a first execution of a request ends. */
  ghost predicate RunEnds(j: Journal, request: Request, x: Execution, reply: Reply)
    reads j
  {
    var id, db := request.episodeId, j.Tables();
    && id in db.episodes && db.episodes[id].requestDigest == j.p.requestDigest(request)
    && Readable(j.p, db, id)
    && if !x.decodes || x.report.None? || !x.fits then reply.RunFailed? && db.episodes[id].status.RuntimeError?
       else
         var envelope := EnvelopeFor(j.p, request, x.report.value);
         if j.p.encodedBytes(envelope) > MAX_REPORT_BYTES then
           reply == Refused(ResourceLimit) && db.episodes[id].status.Evaluating?
         else reply == Finished(envelope) && db.episodes[id].evidence == Some(envelope)
  }

  /** One lifecycle transition with its durable record; terminal transitions are left to the final transaction. */
  method Observe(j: Journal, l: LifecycleObject, request: Request, sequence: int, next: Status, now: Instant)
      returns (ok: bool, sequence': int)
    requires Synced(j, l, request, sequence, now)
    modifies j, l
    ensures ok <==> AllowedTransition(old(l.current), next)
    ensures ok ==> l.Valid() && l.current == next && |l.events| == |old(l.events)| + 1
    ensures ok && !IsTerminal(next) ==> Synced(j, l, request, sequence', now)
    ensures ok && IsTerminal(next) ==>
      && j.Tables() == old(j.Tables()) && sequence' == sequence && l.events == old(l.events) + [Event(sequence + 1, Some(old(l.current)), next)]
    ensures !ok ==> Synced(j, l, request, sequence', now) && sequence' == sequence && l.current == old(l.current)
  {
    sequence' := sequence;
    ok := l.Transition(next);
    if ok && !IsTerminal(next) {
      var e := l.events[|l.events| - 1];
      var reply := j.AppendTransition(request, sequence, e, now);
      assert reply == Coordinator.Done;
      sequence' := e.sequence;
    }
  }

  /** RunPersistent, when no other transaction comes between its own. */
  method RunPersistent(j: Journal, request: Request, x: Execution, now: Instant) returns (reply: Reply)
    requires j.Valid()
    modifies j
    ensures j.Valid()
    // A repeated request returns the stored Evidence without executing again.
    ensures var was := old(j.Tables()); var id := request.episodeId;
      id in was.episodes ==>
        && j.Tables() == was
        && (Readable(j.p, was, id) && was.episodes[id].requestDigest == j.p.requestDigest(request) ==>
              reply == if was.episodes[id].evidence.Some? then Reused(was.episodes[id].evidence.value)
                       else if IsTerminal(was.episodes[id].status) then EndedWithoutEvidence else Incomplete)
    // Another request under the same ID is a conflict, and a journal that is full takes no new one.
    ensures var was := old(j.Tables()); var id := request.episodeId;
      id in was.episodes && ScanOk(j.p, id, was.episodes[id]) && was.episodes[id].requestDigest != j.p.requestDigest(request) ==>
        reply == Refused(Conflict)
    ensures var was := old(j.Tables());
      request.episodeId !in was.episodes && |was.episodes| >= MAX_EPISODE_RECORDS ==>
        reply == Refused(ResourceLimit) && j.Tables() == was
    // A first request ends in Evidence, in RUNTIME_ERROR, or stays EVALUATING when its Evidence is too large to store.
    ensures var was := old(j.Tables());
      request.episodeId !in was.episodes && |was.episodes| < MAX_EPISODE_RECORDS ==> RunEnds(j, request, x, reply)
  {
    var id := request.episodeId;
    var loaded := j.CreateOrLoad(request, now);
    if loaded.Failed? {
      return Refused(loaded.error);
    }
    if loaded.Existing? {
      assert EpisodeOk(j.p, j.Tables(), id);
      var row := j.episodes[id];
      if row.evidence.Some? && CarriesEvidence(row.status) {
        return Reused(row.evidence.value);
      }
      return if IsTerminal(row.status) then EndedWithoutEvidence else Incomplete;
    }
    reply := RunReserved(j, request, x, now);
  }

  method RunReserved(j: Journal, request: Request, x: Execution, now: Instant) returns (reply: Reply)
    requires j.Valid() && request.episodeId in j.episodes && j.events[request.episodeId] == [CREATION]
    requires RequestOf(request.episodeId, j.episodes[request.episodeId]) == request
    requires j.episodes[request.episodeId].status.Created? && j.episodes[request.episodeId].sequence == 0
    requires j.episodes[request.episodeId].createdAt <= j.episodes[request.episodeId].updatedAt && j.episodes[request.episodeId].createdAt <= now
    modifies j
    ensures j.Valid() && RunEnds(j, request, x, reply)
  {
    var l := new LifecycleObject();
    assert EpisodeOk(j.p, j.Tables(), request.episodeId);
    var ok, sequence := Observe(j, l, request, 0, Provisioning, now);
    if !x.decodes {
      reply := FailRun(j, l, request, sequence, now);
    } else {
      ok, sequence := Observe(j, l, request, sequence, Ready, now);
      reply := RunReady(j, l, request, x, sequence, now);
    }
  }

  method RunReady(j: Journal, l: LifecycleObject, request: Request, x: Execution, sequence: int, now: Instant) returns (reply: Reply)
    requires Synced(j, l, request, sequence, now) && l.current.Ready? && x.decodes
    modifies j, l
    ensures j.Valid() && RunEnds(j, request, x, reply)
  {
    var ok, running := Observe(j, l, request, sequence, Running, now);
    if x.report.None? {
      // The attempted transition to RUNTIME_ERROR is not recorded by the observer; the failure transaction is.
      reply := FailRun(j, l, request, running, now);
    } else {
      var evaluating;
      ok, evaluating := Observe(j, l, request, running, Evaluating, now);
      if !x.fits {
        reply := FailRun(j, l, request, evaluating, now);
      } else {
        reply := FinishRun(j, l, request, x.report.value, evaluating, now);
      }
    }
  }

  method FailRun(j: Journal, l: LifecycleObject, request: Request, sequence: int, now: Instant) returns (reply: Reply)
    requires Synced(j, l, request, sequence, now) && AllowedTransition(l.current, RuntimeError)
    modifies j
    ensures j.Valid() && reply.RunFailed?
    ensures var id := request.episodeId; var db := j.Tables();
      && id in db.episodes && db.episodes[id].requestDigest == j.p.requestDigest(request)
      && Readable(j.p, db, id) && db.episodes[id].status.RuntimeError?
  {
    var id := request.episodeId;
    assert EpisodeOk(j.p, j.Tables(), id);
    ghost var was := j.Tables();
    var _ := j.FailLocal(request, sequence, now);
    assert EpisodeOk(j.p, j.Tables(), id);
    assert RequestOf(id, j.episodes[id]) == RequestOf(id, was.episodes[id]);
    return RunFailed;
  }

  method FinishRun(j: Journal, l: LifecycleObject, request: Request, report: Report, sequence: int, now: Instant) returns (reply: Reply)
    requires Synced(j, l, request, sequence, now) && l.current.Evaluating?
    modifies j, l
    ensures j.Valid()
    ensures var id := request.episodeId; var db := j.Tables(); var envelope := EnvelopeFor(j.p, request, report);
      && id in db.episodes && db.episodes[id].requestDigest == j.p.requestDigest(request) && Readable(j.p, db, id)
      && if j.p.encodedBytes(envelope) > MAX_REPORT_BYTES then reply == Refused(ResourceLimit) && db.episodes[id].status.Evaluating?
         else reply == Finished(envelope) && db.episodes[id].evidence == Some(envelope)
  {
    var id := request.episodeId;
    ghost var was := j.Tables();
    assert EpisodeOk(j.p, was, id);
    EvaluatingPath(l.events, TerminalOf(report));
    ChainRank(l.events, sequence);
    var _, _ := Observe(j, l, request, sequence, TerminalOf(report), now);
    assert l.events == EvidencePath(TerminalOf(report));
    var e := EvidenceOf(request, Lifecycle(l.current, l.events), report);
    var envelope := Envelope(API_VERSION, ENVELOPE_KIND, Some(e), j.p.evidenceDigest(e));
    assert envelope == EnvelopeFor(j.p, request, report);
    var done := j.CompleteLocal(request, sequence, envelope, now);
    assert EpisodeOk(j.p, j.Tables(), id);
    assert RequestOf(id, j.episodes[id]) == request;
    if done.Failed? {
      return Refused(done.error);
    }
    assert j.events[id] == EvidencePath(TerminalOf(report));
    reply := Finished(envelope);
  }
}
