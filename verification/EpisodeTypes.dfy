/** Entities of the Episode journal: lifecycle, Evidence, table rows and the database they form. */
module EpisodeTypes {

  datatype Option<+T> = None | Some(value: T)

  /** Identifiers, digests and texts are strings; the empty string stands for an unset column. */
  type Id = string

  /** Nanoseconds since a fixed epoch. */
  type Instant = int

  // ---------------------------------------------------------------- limits

  const MAX_EPISODE_RECORDS := 10_000
  const MAX_EPISODE_ATTEMPTS := 16
  const MAX_REPORT_BYTES := 32 * 1024 * 1024
  const MAX_LEASE := 3600 * 1_000_000_000

  const API_VERSION := "statetwin.dev/v1alpha1"
  const EVIDENCE_KIND := "EpisodeEvidence"
  const ENVELOPE_KIND := "EpisodeEvidenceEnvelope"
  const EVIDENCE_FORMAT := "statetwin.dev/episode-evidence/v1alpha1"

  // ------------------------------------------------------------- lifecycle

  datatype Status =
    | Created | Provisioning | Ready | Running | Evaluating
    | Succeeded | AssertionFailed | RuntimeError | Cancelled

  datatype Event = Event(sequence: int, from: Option<Status>, to: Status)

  predicate IsTerminal(s: Status)
  {
    s.Succeeded? || s.AssertionFailed? || s.RuntimeError? || s.Cancelled?
  }

  predicate CarriesEvidence(s: Status)
  {
    s.Succeeded? || s.AssertionFailed?
  }

  predicate AllowedTransition(current: Status, next: Status)
  {
    match current
    case Created => next.Provisioning? || next.Cancelled?
    case Provisioning => next.Ready? || next.RuntimeError? || next.Cancelled?
    case Ready => next.Running? || next.Cancelled?
    case Running => next.Evaluating? || next.RuntimeError? || next.Cancelled?
    case Evaluating => next.Succeeded? || next.AssertionFailed? || next.RuntimeError?
    case _ => false
  }

  const CREATION := Event(0, None, Created)

  /** A gap-free history: numbered from zero, each event starting where the previous one ended. */
  predicate Chain(es: seq<Event>)
  {
    && |es| > 0
    && es[0] == CREATION
    && forall k :: 1 <= k < |es| ==>
         && es[k].sequence == k
         && es[k].from == Some(es[k - 1].to)
         && AllowedTransition(es[k - 1].to, es[k].to)
  }

  function LastTo(es: seq<Event>): Status
    requires |es| > 0
  {
    es[|es| - 1].to
  }

  /** The only history that ends with Evidence. */
  function EvidencePath(terminal: Status): seq<Event>
  {
    [ CREATION,
      Event(1, Some(Created), Provisioning),
      Event(2, Some(Provisioning), Ready),
      Event(3, Some(Ready), Running),
      Event(4, Some(Running), Evaluating),
      Event(5, Some(Evaluating), terminal) ]
  }

  datatype Lifecycle = Lifecycle(current: Status, events: seq<Event>)

  // -------------------------------------------------------------- evidence

  datatype Runtime = Runtime(version: string, revision: string)

  datatype Request = Request(episodeId: Id, bundleDigest: string, scenarioPath: string, runtime: Runtime)

  /** The scenario report; its content beyond the verdict does not influence the journal. */
  datatype Report = Report(passed: bool, body: string)

  datatype Evidence = Evidence(
    apiVersion: string, kind: string, format: string,
    episodeId: Id, bundleDigest: string, scenarioPath: string, runtime: Runtime,
    lifecycle: Lifecycle, outcome: string, report: Report)

  datatype Envelope = Envelope(apiVersion: string, kind: string, evidence: Option<Evidence>, evidenceDigest: string)

  /** The outcome text that belongs to a terminal status with Evidence. */
  function OutcomeOf(s: Status): string
  {
    if s.AssertionFailed? then "assertion_failed" else "succeeded"
  }

  // ------------------------------------------------------------------ rows

  datatype Effect = Hermetic | External

  datatype TaskState = TaskQueued | TaskLeased | TaskCompleted | TaskCancelled | TaskFailed | TaskCommitUnknown

  datatype AttemptState =
    | AttemptLeased | AttemptCompleted | AttemptFailed | AttemptCancelled | AttemptExpired | AttemptCommitUnknown

  datatype CommitState = CommitNotStarted | CommitNoEffect | CommitCommitted | CommitUnknown

  datatype EpisodeRow = EpisodeRow(
    requestDigest: string, bundleDigest: string, scenarioPath: string, runtime: Runtime,
    status: Status, sequence: int,
    outcome: string, evidence: Option<Envelope>, evidenceDigest: string, errorClass: string,
    createdAt: Instant, updatedAt: Instant)

  datatype Task = Task(
    bundle: string, profile: Effect, maxAttempts: int, state: TaskState,
    attemptCount: int, fence: int, active: Id, cancel: bool,
    finalAttempt: Id, finalDigest: string, createdAt: Instant, updatedAt: Instant)

  datatype Attempt = Attempt(
    episodeId: Id, number: int, worker: Id, fence: int,
    state: AttemptState, commit: CommitState, leaseUntil: Instant, errorClass: string,
    createdAt: Instant, updatedAt: Instant)

  /** The four tables. Events of one episode are kept in primary-key order. */
  datatype Db = Db(
    episodes: map<Id, EpisodeRow>, events: map<Id, seq<Event>>,
    tasks: map<Id, Task>, attempts: map<Id, Attempt>)

  const EMPTY := Db(map[], map[], map[], map[])

  /** What the journal takes from elsewhere: digests, encoded sizes, and the texts of instants as SQL compares them. */
  datatype Platform = Platform(
    requestDigest: Request -> string,
    evidenceDigest: Evidence -> string,
    encodedBytes: Envelope -> int,
    expired: (Instant, Instant) -> bool,
    stamp: Instant -> string)

  function RequestOf(id: Id, row: EpisodeRow): Request
  {
    Request(id, row.bundleDigest, row.scenarioPath, row.runtime)
  }

  // ------------------------------------------------------- lifecycle facts

  /** Statuses along a chain climb strictly, so a terminal status can only come last. */
  function Rank(s: Status): int
  {
    match s
    case Created => 0
    case Provisioning => 1
    case Ready => 2
    case Running => 3
    case Evaluating => 4
    case _ => 5
  }

  lemma {:induction false} ChainRank(es: seq<Event>, k: int)
    requires Chain(es) && 0 <= k < |es|
    ensures k <= Rank(es[k].to)
    ensures !IsTerminal(es[k].to) ==> k == Rank(es[k].to)
    ensures k < |es| - 1 ==> !IsTerminal(es[k].to)
  {
    if k > 0 {
      ChainRank(es, k - 1);
    }
    if k < |es| - 1 {
      assert AllowedTransition(es[(k + 1) - 1].to, es[k + 1].to);
    }
  }

  /** A chain that reached EVALUATING walked the one path there. */
  lemma EvaluatingPath(es: seq<Event>, terminal: Status)
    requires Chain(es) && LastTo(es).Evaluating?
    ensures es + [Event(5, Some(Evaluating), terminal)] == EvidencePath(terminal)
  {
    ChainRank(es, |es| - 1);
    ChainRank(es, 3);
    ChainRank(es, 2);
    ChainRank(es, 1);
  }

  /** Every six-event chain is the Evidence path, up to its last status. */
  lemma SixEvents(es: seq<Event>)
    requires Chain(es) && |es| == 6
    ensures es == EvidencePath(LastTo(es))
    ensures LastTo(es).Succeeded? || LastTo(es).AssertionFailed? || LastTo(es).RuntimeError?
  {
    ChainRank(es, 4);
    ChainRank(es, 5);
    assert Chain(es[..5]);
    EvaluatingPath(es[..5], LastTo(es));
    assert es == es[..5] + [es[5]];
  }

  /** A chain extended by one allowed event is a chain. */
  lemma ChainAppend(es: seq<Event>, e: Event)
    requires Chain(es)
    requires e.sequence == |es| && e.from == Some(LastTo(es)) && AllowedTransition(LastTo(es), e.to)
    ensures Chain(es + [e])
  {
  }

  /** The statuses an execution passes through, in order. */
  const COURSE := [Created, Provisioning, Ready, Running, Evaluating]

  /** The first n + 1 events of an execution that goes well. */
  function Walked(n: nat): seq<Event>
    requires n <= 4
  {
    seq(n + 1, k requires 0 <= k <= n => Event(k, if k == 0 then None else Some(COURSE[k - 1]), COURSE[k]))
  }

  /** How an execution can end from each status on its way. */
  predicate EndsFrom(n: nat, last: Status)
  {
    || (n in {0, 1, 2, 3} && last == Cancelled)
    || (n in {1, 3, 4} && last == RuntimeError)
    || (n == 4 && last in {Succeeded, AssertionFailed})
  }

  /** Some way along the course, and perhaps an end that is open from there. */
  predicate HistoryTo(es: seq<Event>, n: nat)
    requires n <= 4
  {
    es == Walked(n) || exists last :: EndsFrom(n, last) && es == Walked(n) + [Event(n + 1, Some(COURSE[n]), last)]
  }

  lemma WalkedIsChain(n: nat)
    requires n <= 4
    ensures Chain(Walked(n)) && |Walked(n)| == n + 1 && LastTo(Walked(n)) == COURSE[n]
  {
  }

  lemma EndIsAllowed(n: nat, last: Status)
    requires n <= 4
    ensures AllowedTransition(COURSE[n], last) <==> EndsFrom(n, last) || (n < 4 && last == COURSE[n + 1])
  {
  }

  /** The possible histories are exactly these. */
  lemma Histories(es: seq<Event>)
    ensures Chain(es) <==> exists n: nat :: n <= 4 && HistoryTo(es, n)
  {
    if Chain(es) {
      var n := WalkedAlong(es);
    } else if n: nat :| n <= 4 && HistoryTo(es, n) {
      WalkedIsChain(n);
      if last :| EndsFrom(n, last) && es == Walked(n) + [Event(n + 1, Some(COURSE[n]), last)] {
        EndIsAllowed(n, last);
        ChainAppend(Walked(n), Event(n + 1, Some(COURSE[n]), last));
      }
    }
  }

  lemma {:induction false} WalkedAlong(es: seq<Event>) returns (n: nat)
    requires Chain(es)
    ensures n <= 4 && HistoryTo(es, n)
    decreases |es|
  {
    n := 0;
    if |es| > 1 {
      var front, e := es[..|es| - 1], es[|es| - 1];
      assert AllowedTransition(es[|es| - 2].to, e.to);
      n := WalkedAlong(front);
      EndedIsTerminal(front, n);
      assert es == front + [e] && front == Walked(n);
      WalkedIsChain(n);
      EndIsAllowed(n, e.to);
      if n < 4 && e.to == COURSE[n + 1] {
        n := n + 1;
      }
    }
  }

  lemma EndedIsTerminal(es: seq<Event>, n: nat)
    requires n <= 4 && HistoryTo(es, n) && |es| > 0
    ensures es == Walked(n) || IsTerminal(LastTo(es))
  {
  }
}
