/** Recovery compares lease texts, heartbeats compare parsed times: how far the two can disagree. */
module LeaseClock {
  import opened EpisodeTypes
  import opened Coordinator
  import opened Text
  import opened Timestamps

  /** Instants are stored and compared as the formatter renders them. */
  ghost predicate ComparesTexts(p: Platform)
  {
    forall a, b :: Formattable(a) && Formattable(b) ==> (p.expired(a, b) <==> LexLE(Format(a), Format(b)))
  }

  function LeaseOf(db: Db, id: Id): Instant
    requires id in db.tasks && db.tasks[id].active in db.attempts
  {
    db.attempts[db.tasks[id].active].leaseUntil
  }

  predicate Leased(db: Db, id: Id)
  {
    && id in db.tasks && db.tasks[id].state.TaskLeased? && db.tasks[id].active in db.attempts
    && db.attempts[db.tasks[id].active].state.AttemptLeased?
  }

  /**
   Recovery and heartbeat disagree about a lease exactly when its text and the clock's text are inverted:
   both lie in one second and one fraction continues the other.
   */
  lemma RecoveryDisagreesIff(p: Platform, db: Db, id: Id, lease: int, now: Instant)
    requires ComparesTexts(p) && Leased(db, id) && Formattable(LeaseOf(db, id)) && Formattable(now) && ValidLease(lease)
    ensures var t := db.tasks[id]; var live := Heartbeat(db, id, t.active, t.fence, lease, now).reply.Beat?;
      (id in Selection(p, db, now)) == live <==> Inverted(LeaseOf(db, id), now) || Inverted(now, LeaseOf(db, id))
    ensures id in Selection(p, db, now) ==> LeaseOf(db, id) / NANOS <= now / NANOS
    ensures id !in Selection(p, db, now) && LeaseOf(db, id) <= now ==> SameSecond(LeaseOf(db, id), now)
  {
    var until := LeaseOf(db, id);
    assert p.expired(until, now) <==> LexLE(Format(until), Format(now));
    TextOrderIsTimeOrderExcept(until, now);
    if Inverted(until, now) {
      ContinuedFraction(until % NANOS, now % NANOS);
    }
    if Inverted(now, until) {
      ContinuedFraction(now % NANOS, until % NANOS);
    }
  }
}
