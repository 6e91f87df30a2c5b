/** Deliveries of events beside any other `Record` calls, in any interleaving of their statements: `EventConsumer` on
    the runs of `Ledger` (internal/app/audit_eventbus.go:58-76). */
module ConcurrentConsumer {
  import opened Basics
  import opened AuditModel
  import opened Ledger
  import opened RecordService
  import opened EventConsumer

  /** The call is a delivery of the envelope, begun at any time. */
  ghost predicate Delivers(o: Oracle, codec: Codec, c: Call, e: Envelope) {
    && Acceptable(o, codec, e) && c.actor == CONSUMER.id
    && exists env: Env :: Prepare(o, Some(CONSUMER), ToRecord(codec, e, codec.summary(e).value), env) == Ok(c.value)
  }

  lemma DeliveredIsImage(o: Oracle, codec: Codec, c: Call, e: Envelope)
    requires Delivers(o, codec, c, e)
    ensures Untimed(c.value) == Image(o, codec, e) && c.value.id == e.eventId
  {
    var env: Env :| Prepare(o, Some(CONSUMER), ToRecord(codec, e, codec.summary(e).value), env) == Ok(c.value);
    ImageIsTimeless(o, codec, e, env);
  }

  /** The stored row of the id is what some call asked to record. */
  ghost predicate Sourced(s: Sys, id: string)
    requires Paired(s.db) && id in s.db.keys
  {
    exists p :: 0 <= p < |s.calls| && s.calls[p].value.id == id && SameButTimes(Stored(s.db, id), s.calls[p].value)
  }

  ghost predicate AllSourced(s: Sys)
    requires Paired(s.db)
  {
    forall id :: id in s.db.keys ==> Sourced(s, id)
  }

  lemma CallsStay(s: Sys, a: Action)
    requires Enabled(s, a)
    ensures |Apply(s, a).calls| >= |s.calls|
    ensures forall p :: 0 <= p < |s.calls| ==> Apply(s, a).calls[p].value == s.calls[p].value
  {
  }

  lemma StepKeepsSources(s: Sys, a: Action, id: string)
    requires Inv(s) && Enabled(s, a) && AllSourced(s) && id in Apply(s, a).db.keys
    ensures Paired(Apply(s, a).db) && Sourced(Apply(s, a), id)
  {
    var s' := Apply(s, a);
    StepEffect(s, a);
    CallsStay(s, a);
    if id in s.db.keys {
      var p :| 0 <= p < |s.calls| && s.calls[p].value.id == id && SameButTimes(Stored(s.db, id), s.calls[p].value);
      assert Stored(s'.db, id) == Stored(s.db, id) && s'.calls[p].value.id == id;
    } else {
      var c := s.calls[a.p];
      assert CallInv(s.db, c);
      assert Untimed(c.pc.row).occurredAt == c.value.occurredAt && Untimed(c.pc.row).id == c.value.id;
      assert Stored(s'.db, id) == c.pc.row && s'.calls[a.p].value.id == id;
    }
  }

  lemma StepIsSourced(s: Sys, s': Sys)
    requires Inv(s) && AllSourced(s) && Step(s, s')
    ensures Inv(s') && AllSourced(s')
  {
    var a :| Enabled(s, a) && s' == Apply(s, a);
    StepKeepsInv(s, a);
    forall id | id in s'.db.keys ensures Sourced(s', id) {
      StepKeepsSources(s, a, id);
    }
  }

  lemma {:induction false} RunIsSourced(run: seq<Sys>, i: nat)
    requires IsRun(run) && i < |run|
    ensures Inv(run[i]) && AllSourced(run[i])
  {
    if i > 0 {
      RunIsSourced(run, i - 1);
      assert Step(run[i - 1], run[i - 1 + 1]);
      StepIsSourced(run[i - 1], run[i]);
    }
  }

  /** Nothing extra: in every reachable state each stored record is what some call asked for. */
  lemma NothingExtra(run: seq<Sys>, i: nat, id: string)
    requires IsRun(run) && i < |run| && id in run[i].db.keys
    ensures Paired(run[i].db) && Sourced(run[i], id)
  {
    RunIsSourced(run, i);
  }

  /** All calls of the state that name the event's id are deliveries of the envelope. */
  ghost predicate OnlyDeliveries(o: Oracle, codec: Codec, s: Sys, e: Envelope) {
    forall p :: 0 <= p < |s.calls| && s.calls[p].value.id == e.eventId ==> Delivers(o, codec, s.calls[p], e)
  }

  /** Some delivery of the envelope has been answered with success. */
  ghost predicate Delivered(s: Sys, e: Envelope) {
    exists p :: 0 <= p < |s.calls| && s.calls[p].value.id == e.eventId && s.calls[p].pc.Finished? && s.calls[p].pc.answer.Some?
  }

  lemma StoredIsImage(o: Oracle, codec: Codec, s: Sys, e: Envelope)
    requires Paired(s.db) && e.eventId in s.db.keys && Sourced(s, e.eventId) && Acceptable(o, codec, e) && OnlyDeliveries(o, codec, s, e)
    ensures Untimed(Stored(s.db, e.eventId)) == Image(o, codec, e)
  {
    var p :| 0 <= p < |s.calls| && s.calls[p].value.id == e.eventId && SameButTimes(Stored(s.db, e.eventId), s.calls[p].value);
    DeliveredIsImage(o, codec, s.calls[p], e);
  }

  lemma DeliveredIsStored(s: Sys, e: Envelope)
    requires Inv(s) && Delivered(s, e)
    ensures e.eventId in s.db.keys
  {
    var p :| 0 <= p < |s.calls| && s.calls[p].value.id == e.eventId && s.calls[p].pc.Finished? && s.calls[p].pc.answer.Some?;
    assert CallInv(s.db, s.calls[p]);
  }

  /** Beside any other calls: once a delivery of an envelope has succeeded its event is in the ledger, and whenever it is
      there, it is there as the image of the envelope, whatever the number, order and fate of its deliveries. */
  lemma EventIsImage(o: Oracle, codec: Codec, run: seq<Sys>, i: nat, e: Envelope)
    requires IsRun(run) && i < |run| && Acceptable(o, codec, e) && OnlyDeliveries(o, codec, run[i], e)
    ensures Paired(run[i].db)
    ensures Delivered(run[i], e) ==> e.eventId in run[i].db.keys
    ensures e.eventId in run[i].db.keys ==> Untimed(Stored(run[i].db, e.eventId)) == Image(o, codec, e)
  {
    RunIsSourced(run, i);
    if Delivered(run[i], e) { DeliveredIsStored(run[i], e); }
    if e.eventId in run[i].db.keys {
      assert Sourced(run[i], e.eventId);
      StoredIsImage(o, codec, run[i], e);
    }
  }

  /** Exactly-once effect beside any other calls: in two runs, of which each has delivered every one of the envelopes, with
      any other calls between the statements of the deliveries, the ledgers agree on all their events, up to the
      timestamps that the database sets. */
  lemma ExactlyOnceConcurrently(o: Oracle, codec: Codec, run: seq<Sys>, i: nat, run': seq<Sys>, j: nat, events: set<Envelope>)
    requires IsRun(run) && i < |run| && IsRun(run') && j < |run'|
    requires forall e :: e in events ==>
      && Acceptable(o, codec, e) && OnlyDeliveries(o, codec, run[i], e) && OnlyDeliveries(o, codec, run'[j], e)
      && Delivered(run[i], e) && Delivered(run'[j], e)
    ensures var a, b := run[i].db, run'[j].db;
            && Paired(a) && Paired(b)
            && forall e :: e in events ==>
                 e.eventId in a.keys && e.eventId in b.keys && SameButTimes(Stored(a, e.eventId), Stored(b, e.eventId))
  {
    RunIsSourced(run, i);
    RunIsSourced(run', j);
    forall e | e in events
      ensures e.eventId in run[i].db.keys && e.eventId in run'[j].db.keys
      ensures SameButTimes(Stored(run[i].db, e.eventId), Stored(run'[j].db, e.eventId))
    {
      EventIsImage(o, codec, run, i, e);
      EventIsImage(o, codec, run', j, e);
    }
  }
}
