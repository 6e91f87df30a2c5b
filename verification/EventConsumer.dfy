/** The event consumer: each delivered envelope becomes one `Record` call
    (internal/app/audit_eventbus.go). Deliveries may repeat, reorder and fail. */
module EventConsumer {
  import opened Basics
  import opened AuditModel
  import opened AuditTrigger
  import opened Text
  import opened Ledger
  import opened RecordService

  datatype RequestContext = RequestContext(actorId: string, actorType: string, requestId: string, traceId: string)

  datatype Envelope = Envelope(
    eventId: string,
    tenantId: string,
    applicationId: string,
    eventType: string,
    schemaVersion: int,
    aggregateType: string,
    aggregateId: string,
    occurredAt: Option<Time>,
    context: Option<RequestContext>,
    payload: string)

  /** JSON: the summary built from an envelope, and the "source" field of a valid payload. */
  datatype Codec = Codec(summary: Envelope -> Option<string>, source: string -> Option<string>)

  const CONSUMER := Caller("audit-event-consumer", System, "")

  /** strings.Join(parts, "."). */
  function JoinDots(parts: seq<string>): string
    requires parts != []
  {
    if |parts| == 1 then parts[0] else parts[0] + "." + JoinDots(parts[1..])
  }

  /** strings.Split(s, "."). */
  function SplitDots(s: string): (parts: seq<string>)
    ensures parts != [] && JoinDots(parts) == s
    ensures forall i :: 0 <= i < |parts| ==> '.' !in parts[i]
    decreases |s|
  {
    if s == "" then [""]
    else
      var rest := SplitDots(s[1..]);
      if s[0] == '.' then [""] + rest else [[s[0]] + rest[0]] + rest[1..]
  }

  /** The service an event is attributed to is never blank, so that `Record` never refuses it for that. */
  function SourceService(codec: Codec, e: Envelope): (r: string)
    ensures TrimSpace(r) != ""
  {
    var parts := SplitDots(e.eventType);
    if codec.source(e.payload).Some? && TrimSpace(codec.source(e.payload).value) != "" then
      var r := TrimSpace(codec.source(e.payload).value);
      TrimOfTrimmed(r);
      r
    else if |parts| > 1 && parts[0] == "platform" then
      var r := parts[1] + "-service";
      assert !IsSpace(r[|r| - 1]);
      TrimsToNothing(r);
      r
    else "unknown"
  }

  lemma DotInside(a: string, b: string, s: string)
    requires a + "." <= s && b + "." <= s && |a| < |b|
    ensures '.' in b
  {
    assert (a + ".")[|a|] == '.' && (b + ".")[|a|] == b[|a|];
  }

  lemma FirstPart(a: string, b: string, s: string)
    requires '.' !in a && '.' !in b && a + "." <= s && b + "." <= s
    ensures a == b
  {
    if |a| < |b| {
      DotInside(a, b, s);
    } else if |b| < |a| {
      DotInside(b, a, s);
    }
    assert s[..|a|] == (a + ".")[..|a|] == a && s[..|b|] == (b + ".")[..|b|] == b;
  }

  /** What stands between a dot and the next one or the end. */
  ghost predicate SecondPart(s: string, first: string, second: string) {
    '.' !in second && (s == first + "." + second || first + "." + second + "." <= s)
  }

  /** The service is the source the payload names; without one, for a type "platform.x" or "platform.x. ..." it is
      "x-service"; and otherwise "unknown". */
  lemma SourceServiceIs(codec: Codec, e: Envelope)
    ensures var source, r := codec.source(e.payload), SourceService(codec, e);
            if source.Some? && TrimSpace(source.value) != "" then r == TrimSpace(source.value)
            else if "platform." <= e.eventType then exists x :: SecondPart(e.eventType, "platform", x) && r == x + "-service"
            else r == "unknown"
  {
    var s, parts := e.eventType, SplitDots(e.eventType);
    if |parts| == 1 {
      assert parts[0] == s && '.' !in s;
      assert "platform."[8] == '.';
    } else {
      assert s == parts[0] + "." + JoinDots(parts[1..]);
      assert parts[0] + "." <= s;
      if "platform." <= s {
        assert "platform" + "." == "platform.";
        FirstPart(parts[0], "platform", s);
        SecondPartIs(s, parts);
      }
    }
  }

  lemma SecondPartIs(s: string, parts: seq<string>)
    requires |parts| > 1 && JoinDots(parts) == s && '.' !in parts[1]
    ensures SecondPart(s, parts[0], parts[1])
  {
    var rest := parts[1..];
    if |rest| > 1 {
      assert JoinDots(rest) == parts[1] + "." + JoinDots(rest[1..]);
      assert s == parts[0] + "." + parts[1] + "." + JoinDots(rest[1..]);
    }
  }

  function ToRecord(codec: Codec, e: Envelope, summary: string): Record {
    var c := if e.context.Some? then e.context.value else RequestContext("", "", "", "");
    Record(e.eventId, e.tenantId, e.applicationId, c.actorId, c.actorType, e.eventType, e.aggregateType, e.aggregateId,
           c.requestId, c.traceId, SourceService(codec, e), "", summary,
           if e.occurredAt.Some? then e.occurredAt.value else ZERO_TIME,
           Audit(0, ZERO_TIME, "", ZERO_TIME, "", None, None))
  }

  /** Consuming one envelope. */
  function ConsumeSpec(o: Oracle, codec: Codec, db: Db, e: Envelope, env: Env): (Db, Result<Record, Error>)
    requires Paired(db)
  {
    match codec.summary(e)
    case None => (db, Err(Internal))
    case Some(summary) => RecordSpec(o, db, Some(CONSUMER), ToRecord(codec, e, summary), env)
  }

  method Consume(service: AuditService, o: Oracle, codec: Codec, e: Envelope, env: Env) returns (r: Result<Record, Error>)
    requires service.Valid()
    modifies service
    ensures service.Valid()
    ensures (service.db, r) == ConsumeSpec(o, codec, old(service.db), e, env)
  {
    var summary := codec.summary(e);
    if summary.None? { return Err(Internal); }
    r := service.Record(o, Some(CONSUMER), ToRecord(codec, e, summary.value), env);
  }

  /** The envelope passes every check of `Record`, names its id and says when it happened. */
  predicate Acceptable(o: Oracle, codec: Codec, e: Envelope) {
    && codec.summary(e).Some? && e.eventId != "" && e.occurredAt.Some? && e.occurredAt.value != ZERO_TIME
    && Prepare(o, Some(CONSUMER), ToRecord(codec, e, codec.summary(e).value), Env(0, 0, "", NoFault)).Ok?
  }

  /** What an acceptable envelope contributes to the ledger, up to the database's timestamps. */
  function Image(o: Oracle, codec: Codec, e: Envelope): Record
    requires Acceptable(o, codec, e)
  {
    Untimed(Prepare(o, Some(CONSUMER), ToRecord(codec, e, codec.summary(e).value), Env(0, 0, "", NoFault)).value)
  }

  /** The envelopes that are acceptable. */
  lemma AcceptableIff(o: Oracle, codec: Codec, e: Envelope)
    ensures Acceptable(o, codec, e) <==>
            && codec.summary(e).Some? && o.redact(codec.summary(e).value).Some? && o.redact("").Some?
            && e.eventId != "" && o.isUuid(e.eventId) && e.occurredAt.Some? && e.occurredAt.value != ZERO_TIME
            && TrimSpace(e.eventType) != "" && TrimSpace(e.aggregateType) != "" && TrimSpace(e.aggregateId) != ""
  {
    if codec.summary(e).Some? {
      PrepareIs(o, Some(CONSUMER), ToRecord(codec, e, codec.summary(e).value), Env(0, 0, "", NoFault));
    }
  }

  /** What is recorded of an envelope, field by field: the event type is the action, the aggregate the resource, the
      summary what was afterwards; the actor is that of its request, or else the consumer. */
  lemma ImageIs(o: Oracle, codec: Codec, e: Envelope)
    requires Acceptable(o, codec, e)
    ensures var r := Image(o, codec, e);
            && r.id == e.eventId && r.tenantId == TrimSpace(e.tenantId) && r.applicationId == TrimSpace(e.applicationId)
            && r.action == TrimSpace(e.eventType)
            && r.resourceType == TrimSpace(e.aggregateType) && r.resourceId == TrimSpace(e.aggregateId)
            && r.sourceService == TrimSpace(SourceService(codec, e))
            && Some(r.beforeSummary) == o.redact("") && Some(r.afterSummary) == o.redact(codec.summary(e).value)
            && r.occurredAt == e.occurredAt.value
            && r.requestId == (if e.context.Some? then e.context.value.requestId else "")
            && r.traceId == (if e.context.Some? then e.context.value.traceId else "")
            && (if e.context.Some? && e.context.value.actorId != ""
                then r.actorId == e.context.value.actorId && r.actorType == e.context.value.actorType
                else r.actorId == "audit-event-consumer" && r.actorType == "system")
            && r.audit.version == 1 && r.audit.createdBy == r.audit.updatedBy == "audit-event-consumer" && r.audit.deletedAt.None?
  {
    PrepareIs(o, Some(CONSUMER), ToRecord(codec, e, codec.summary(e).value), Env(0, 0, "", NoFault));
  }

  /** The contribution does not depend on when or how often the envelope is processed. */
  lemma ImageIsTimeless(o: Oracle, codec: Codec, e: Envelope, env: Env)
    requires Acceptable(o, codec, e)
    ensures var p := Prepare(o, Some(CONSUMER), ToRecord(codec, e, codec.summary(e).value), env);
            p.Ok? && Untimed(p.value) == Image(o, codec, e) && p.value.id == e.eventId
  {
  }

  datatype Delivery = Delivery(envelope: Envelope, env: Env)

  /** The ledger before the first delivery and after each of them. */
  ghost predicate Processed(o: Oracle, codec: Codec, dbs: seq<Db>, ds: seq<Delivery>) {
    && |dbs| == |ds| + 1 && Paired(dbs[0])
    && forall i {:trigger ds[i]} :: 0 <= i < |ds| && Paired(dbs[i]) ==> Leaves(o, codec, dbs[i], ds[i], dbs[i + 1])
  }

  ghost predicate Leaves(o: Oracle, codec: Codec, db: Db, d: Delivery, db': Db)
    requires Paired(db)
  {
    db' == ConsumeSpec(o, codec, db, d.envelope, d.env).0
  }

  /** The delivery failed before it could take effect. */
  predicate Failed(d: Delivery) {
    d.env.fault.BeforeCommit? || d.env.fault.FirstGetFails?
  }

  /** The envelopes that were processed at least once without failing before the commit. */
  ghost function Effective(ds: seq<Delivery>): set<Envelope> {
    set d | d in ds && !Failed(d) :: d.envelope
  }

  /** What one delivery does to the ledger, told by the image of its envelope alone. */
  ghost predicate Lands(db: Db, d: Delivery, db': Db, image: map<Envelope, Record>) {
    && Paired(db) && Paired(db') && Grows(db, db') && d.envelope in image
    && (forall id :: id in db'.keys && id !in db.keys ==> Contributes(db', id, d.envelope, image))
    && (Failed(d) ==> db' == db)
    && (!Failed(d) ==> d.envelope.eventId in db'.keys)
  }

  /** The row of `id` is the image of `e`. */
  ghost predicate Contributes(db: Db, id: string, e: Envelope, image: map<Envelope, Record>)
    requires Paired(db)
  {
    id in db.keys && e in image && e.eventId == id && Untimed(Stored(db, id)) == image[e]
  }

  lemma OneDelivery(o: Oracle, codec: Codec, db: Db, d: Delivery, image: map<Envelope, Record>)
    requires Paired(db) && Acceptable(o, codec, d.envelope)
    requires d.envelope in image && image[d.envelope] == Image(o, codec, d.envelope)
    ensures Lands(db, d, ConsumeSpec(o, codec, db, d.envelope, d.env).0, image)
  {
    var e, env := d.envelope, d.env;
    ImageIsTimeless(o, codec, e, env);
    var value := ToRecord(codec, e, codec.summary(e).value);
    var v := Prepare(o, Some(CONSUMER), value, env).value;
    LandEffect(db, v, CONSUMER.id, value.id != "", env);
    assert CONSUMER.id[0] == 'a';
    assert !AllSpace(CONSUMER.id);
  }

  /** The ledger after each prefix of the deliveries. */
  ghost predicate IsHistory(dbs: seq<Db>, ds: seq<Delivery>, image: map<Envelope, Record>) {
    |dbs| == |ds| + 1 && forall i {:trigger ds[i]} :: 0 <= i < |ds| ==> Lands(dbs[i], ds[i], dbs[i + 1], image)
  }

  ghost function Images(o: Oracle, codec: Codec, ds: seq<Delivery>): map<Envelope, Record>
    requires forall d :: d in ds ==> Acceptable(o, codec, d.envelope)
  {
    map d | d in ds :: d.envelope := Image(o, codec, d.envelope)
  }

  lemma DeliveryLands(o: Oracle, codec: Codec, db: Db, d: Delivery, db': Db, image: map<Envelope, Record>)
    requires Paired(db) && Acceptable(o, codec, d.envelope) && Leaves(o, codec, db, d, db')
    requires d.envelope in image && image[d.envelope] == Image(o, codec, d.envelope)
    ensures Lands(db, d, db', image)
  {
    OneDelivery(o, codec, db, d, image);
  }

  lemma {:induction false} StaysPaired(o: Oracle, codec: Codec, dbs: seq<Db>, ds: seq<Delivery>, image: map<Envelope, Record>, i: nat)
    requires Processed(o, codec, dbs, ds) && i <= |ds|
    requires forall d :: d in ds ==> Acceptable(o, codec, d.envelope) && d.envelope in image && image[d.envelope] == Image(o, codec, d.envelope)
    ensures Paired(dbs[i])
  {
    if i > 0 {
      StaysPaired(o, codec, dbs, ds, image, i - 1);
      DeliveryLands(o, codec, dbs[i - 1], ds[i - 1], dbs[i], image);
    }
  }

  lemma ProcessedIsHistory(o: Oracle, codec: Codec, dbs: seq<Db>, ds: seq<Delivery>, image: map<Envelope, Record>)
    requires Processed(o, codec, dbs, ds)
    requires forall d :: d in ds ==> Acceptable(o, codec, d.envelope) && d.envelope in image && image[d.envelope] == Image(o, codec, d.envelope)
    ensures IsHistory(dbs, ds, image) && Paired(dbs[|ds|])
  {
    StaysPaired(o, codec, dbs, ds, image, |ds|);
    forall i | 0 <= i < |ds| ensures Lands(dbs[i], ds[i], dbs[i + 1], image) {
      StaysPaired(o, codec, dbs, ds, image, i);
      DeliveryLands(o, codec, dbs[i], ds[i], dbs[i + 1], image);
    }
  }

  /** The ledger holds the earlier rows, a row for each of the effective envelopes, and for each other id the image
      of an effective envelope with that id. */
  ghost predicate Accounted(db0: Db, db: Db, image: map<Envelope, Record>, effective: set<Envelope>) {
    && Paired(db0) && Paired(db) && Grows(db0, db)
    && (forall e :: e in effective ==> e.eventId in db.keys)
    && forall id :: id in db.keys && id !in db0.keys ==> Backed(db, id, image, effective)
  }

  ghost predicate Backed(db: Db, id: string, image: map<Envelope, Record>, effective: set<Envelope>)
    requires Paired(db)
  {
    exists e :: e in effective && Contributes(db, id, e, image)
  }

  lemma StillBacked(db: Db, d: Delivery, db': Db, id: string, image: map<Envelope, Record>, effective: set<Envelope>, more: set<Envelope>)
    requires Lands(db, d, db', image) && id in db.keys && Backed(db, id, image, effective) && effective <= more
    ensures Backed(db', id, image, more)
  {
    var e :| e in effective && Contributes(db, id, e, image);
    assert Stored(db', id) == Stored(db, id);
    assert Contributes(db', id, e, image);
  }

  lemma GrowsOn(a: Db, b: Db, c: Db)
    requires Paired(a) && Paired(b) && Paired(c) && Grows(a, b) && Grows(b, c)
    ensures Grows(a, c)
  {
  }

  lemma DeliveryBacked(db0: Db, db: Db, d: Delivery, db': Db, id: string, image: map<Envelope, Record>, effective: set<Envelope>, more: set<Envelope>)
    requires Accounted(db0, db, image, effective) && Lands(db, d, db', image) && id in db'.keys && id !in db0.keys
    requires more == effective + (if Failed(d) then {} else {d.envelope})
    ensures Backed(db', id, image, more)
  {
    if id in db.keys {
      StillBacked(db, d, db', id, image, effective, more);
    } else {
      assert Contributes(db', id, d.envelope, image);
    }
  }

  lemma DeliveryAccounted(db0: Db, db: Db, d: Delivery, db': Db, image: map<Envelope, Record>, effective: set<Envelope>, more: set<Envelope>)
    requires Accounted(db0, db, image, effective) && Lands(db, d, db', image)
    requires more == effective + (if Failed(d) then {} else {d.envelope})
    ensures Accounted(db0, db', image, more)
  {
    forall id | id in db'.keys && id !in db0.keys ensures Backed(db', id, image, more) {
      DeliveryBacked(db0, db, d, db', id, image, effective, more);
    }
    GrowsOn(db0, db, db');
    assert forall e :: e in more ==> e.eventId in db'.keys;
  }

  lemma EffectiveNext(ds: seq<Delivery>, n: nat)
    requires n < |ds|
    ensures Effective(ds[..n + 1]) == Effective(ds[..n]) + (if Failed(ds[n]) then {} else {ds[n].envelope})
  {
    assert ds[..n + 1] == ds[..n] + [ds[n]];
  }

  lemma {:induction false} HistoryUpTo(dbs: seq<Db>, ds: seq<Delivery>, image: map<Envelope, Record>, n: nat)
    requires IsHistory(dbs, ds, image) && Paired(dbs[0]) && n <= |ds|
    ensures Accounted(dbs[0], dbs[n], image, Effective(ds[..n]))
  {
    if n > 0 {
      HistoryUpTo(dbs, ds, image, n - 1);
      EffectiveNext(ds, n - 1);
      DeliveryAccounted(dbs[0], dbs[n - 1], ds[n - 1], dbs[n], image, Effective(ds[..n - 1]), Effective(ds[..n]));
    }
  }

  /** What a sequence of deliveries leaves behind. */
  lemma HistoryContents(dbs: seq<Db>, ds: seq<Delivery>, image: map<Envelope, Record>)
    requires IsHistory(dbs, ds, image) && Paired(dbs[0])
    ensures Accounted(dbs[0], dbs[|ds|], image, Effective(ds))
  {
    assert ds[..|ds|] == ds;
    HistoryUpTo(dbs, ds, image, |ds|);
  }

  lemma SameContents(dbs: seq<Db>, ds: seq<Delivery>, dbs': seq<Db>, ds': seq<Delivery>, image: map<Envelope, Record>, id: string)
    requires IsHistory(dbs, ds, image) && IsHistory(dbs', ds', image) && dbs[0] == dbs'[0] && Paired(dbs[0])
    requires Effective(ds) == Effective(ds')
    requires forall e, e' :: e in Effective(ds) && e' in Effective(ds) && e.eventId == e'.eventId ==> e == e'
    requires id in dbs[|ds|].keys
    ensures Paired(dbs[|ds|]) && Paired(dbs'[|ds'|]) && id in dbs'[|ds'|].keys
    ensures SameButTimes(Stored(dbs[|ds|], id), Stored(dbs'[|ds'|], id))
  {
    HistoryContents(dbs, ds, image);
    HistoryContents(dbs', ds', image);
    if id in dbs[0].keys {
      assert Stored(dbs[|ds|], id) == Stored(dbs[0], id) == Stored(dbs'[|ds'|], id);
    } else {
      assert Backed(dbs[|ds|], id, image, Effective(ds)) && Backed(dbs'[|ds'|], id, image, Effective(ds'));
      var e :| e in Effective(ds) && Contributes(dbs[|ds|], id, e, image);
      var e' :| e' in Effective(ds') && Contributes(dbs'[|ds'|], id, e', image);
      assert e == e';
    }
  }

  /** Exactly-once effect under at-least-once delivery. Two delivery sequences, in any order and with any
      repetitions, losses of replies and failed attempts, leave the same ledger (up to the timestamps
      the database sets) as soon as the same envelopes were effective. */
  lemma ExactlyOnce(o: Oracle, codec: Codec, dbs: seq<Db>, ds: seq<Delivery>, dbs': seq<Db>, ds': seq<Delivery>)
    requires Processed(o, codec, dbs, ds) && Processed(o, codec, dbs', ds') && dbs[0] == dbs'[0]
    requires Effective(ds) == Effective(ds')
    requires forall d :: d in ds + ds' ==> Acceptable(o, codec, d.envelope)
    requires forall e, e' :: e in Effective(ds) && e' in Effective(ds) && e.eventId == e'.eventId ==> e == e'
    ensures var a, b := dbs[|ds|], dbs'[|ds'|];
            && Paired(a) && Paired(b) && a.keys.Keys == b.keys.Keys
            && forall id :: id in a.keys ==> SameButTimes(Stored(a, id), Stored(b, id))
  {
    assert forall d :: d in ds || d in ds' ==> d in ds + ds';
    var image := Images(o, codec, ds + ds');
    ProcessedIsHistory(o, codec, dbs, ds, image);
    ProcessedIsHistory(o, codec, dbs', ds', image);
    forall id | id in dbs[|ds|].keys
      ensures id in dbs'[|ds'|].keys && SameButTimes(Stored(dbs[|ds|], id), Stored(dbs'[|ds'|], id))
    {
      SameContents(dbs, ds, dbs', ds', image, id);
    }
    forall id | id in dbs'[|ds'|].keys ensures id in dbs[|ds|].keys {
      SameContents(dbs', ds', dbs, ds, image, id);
    }
  }

  /** Every effective envelope is recorded, nothing else is added, and earlier rows stay. */
  lemma NothingLostNothingExtra(o: Oracle, codec: Codec, dbs: seq<Db>, ds: seq<Delivery>)
    requires Processed(o, codec, dbs, ds) && forall d :: d in ds ==> Acceptable(o, codec, d.envelope)
    ensures Grows(dbs[0], dbs[|ds|])
    ensures dbs[|ds|].keys.Keys == dbs[0].keys.Keys + set e | e in Effective(ds) :: e.eventId
  {
    var image := Images(o, codec, ds);
    ProcessedIsHistory(o, codec, dbs, ds, image);
    HistoryContents(dbs, ds, image);
  }
}
