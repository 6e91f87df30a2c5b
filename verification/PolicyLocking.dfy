/** Concurrent `Repository.Set` transactions on Postgres, one statement at a time: the row lock of
    SELECT ... FOR UPDATE, the unique index on live policies, commits, refusals and crashes
    (internal/routepolicy/repository.go:199-264, migrations/postgres/000007_route_policies.up.sql:16-20).
    A transaction sees what is committed when its statement runs (READ COMMITTED) and its own writes. The UPDATEs and
    INSERTs of the permission rows are one move: they read and write rows of the call's own policy only
    (`PolicySerial.SetRefsIsLocal`), no other call can commit to those while the lock is held (`OthersUndisturbed`),
    and what they write is nobody else's before the commit; so between them no other statement could matter. */
module PolicyLocking {
  import opened Basics
  import opened AuditModel
  import opened Text
  import opened RowTrigger
  import opened PolicyStore

  /** How far a call has come. The rows it has written are its own until it commits: `row` is the policy row,
      `own` the policy's permission rows, `seen` those rows as the SELECT found them. */
  datatype Phase =
    | Start
    | RouteSeen
    | NoPolicy
    | Held(id: string, version: int)
    | PolicyWritten(id: string, row: PolicyRow)
    | RefsRead(id: string, row: PolicyRow, seen: map<string, RefRow>)
    | RefsWritten(id: string, row: PolicyRow, seen: map<string, RefRow>, own: map<string, RefRow>)
    | Committed
    | Refused(why: SetError)
    | Crashed

  /** The phases in which a call holds the lock of its route's policy: the row it selected for update, or the
      index entry of the row it inserted. */
  predicate Holding(ph: Phase) {
    ph.Held? || ph.PolicyWritten? || ph.RefsRead? || ph.RefsWritten?
  }

  predicate Finished(ph: Phase) {
    ph.Committed? || ph.Refused? || ph.Crashed?
  }

  /** The committed tables, the calls, and for each route with a lock the call that holds it. */
  datatype Config = Config(st: Store, procs: seq<Phase>, holder: map<string, nat>)

  ghost function Own(refs: map<string, RefRow>, policyId: string): map<string, RefRow> {
    map x | x in refs && refs[x].policyId == policyId :: refs[x]
  }

  /** The next statement of a call. */
  ghost function Next(k: SetCall, st: Store, ph: Phase): Phase
    requires Inv(st) && (ph.RefsRead? ==> UniqueKeys(ph.seen))
  {
    match ph
    case Start =>
      if AllSpace(k.actor) then Refused(DbError)
      else if k.input.routeId !in st.routes || !Live(st.routes[k.input.routeId].audit) then Refused(RouteMissing)
      else RouteSeen
    case RouteSeen =>
      (match LivePolicy(st.policies, k.input.routeId)
       case None => NoPolicy
       case Some(id) => Held(id, st.policies[id].audit.version))
    case NoPolicy =>
      if k.input.expectedVersion != 0 then Refused(Stale)
      else (match InsertPolicy(k.env, st.policies, k.input, k.actor)
            case Err(_) => Refused(DbError)
            case Ok(ps) => PolicyWritten(k.env.policyId, ps[k.env.policyId]))
    case Held(id, version) =>
      if version != k.input.expectedVersion then Refused(Stale)
      else if GuardFails(k, st, id) then Refused(Stale)
      else (match UpdatePolicy(k.env, st.policies, id, k.input, k.actor)
            case Err(_) => Refused(DbError)
            case Ok(ps) => PolicyWritten(id, ps[id]))
    case PolicyWritten(id, row) => RefsRead(id, row, Own(st.refs, id))
    case RefsRead(id, row, seen) =>
      (match SetRefs(k.env, seen, id, k.input.permissions, k.actor)
       case Err(err) => Refused(err)
       case Ok(own) => RefsWritten(id, row, seen, own))
    case RefsWritten(_, _, _, _) => Committed
    case _ => ph
  }

  /** UPDATE ... WHERE id = ? AND version = ? AND deleted_at IS NULL finds no row. */
  predicate GuardFails(k: SetCall, st: Store, id: string) {
    id !in st.policies || st.policies[id].audit.version != k.input.expectedVersion || !Live(st.policies[id].audit)
  }

  function Landed(st: Store, ph: Phase): Store
    requires ph.RefsWritten?
  {
    Store(st.routes, st.policies[ph.id := ph.row], st.refs + ph.own)
  }

  /** SELECT ... FOR UPDATE of a locked row and INSERT beside an uncommitted or locked row wait. */
  ghost predicate Waits(k: SetCall, c: Config, ph: Phase)
    requires Inv(c.st)
  {
    && k.input.routeId in c.holder
    && ((ph.RouteSeen? && LivePolicy(c.st.policies, k.input.routeId).Some?) || (ph.NoPolicy? && k.input.expectedVersion == 0))
  }

  /** One call runs its next statement, or the call or its connection dies and its transaction rolls back. */
  datatype Move = Statement(p: nat) | Crash(p: nat)

  ghost predicate Enabled(calls: seq<SetCall>, c: Config, m: Move)
    requires Valid(calls, c)
  {
    m.p < |calls| && !Finished(c.procs[m.p]) && (m.Statement? ==> !Waits(calls[m.p], c, c.procs[m.p]))
  }

  predicate Commits(c: Config, m: Move) {
    m.Statement? && m.p < |c.procs| && c.procs[m.p].RefsWritten?
  }

  ghost function After(calls: seq<SetCall>, c: Config, m: Move): Config
    requires Valid(calls, c) && Enabled(calls, c, m)
  {
    var k, ph := calls[m.p], c.procs[m.p];
    var ph' := if m.Crash? then Crashed else Next(k, c.st, ph);
    Config(if Commits(c, m) then Landed(c.st, ph) else c.st,
           c.procs[m.p := ph'],
           if Holding(ph') then c.holder[k.input.routeId := m.p] else if Holding(ph) then c.holder - {k.input.routeId} else c.holder)
  }

  // ---------------------------------------------------------------- the invariant

  /** The policy row a call is about to commit fits the committed policies. */
  ghost predicate Ready(k: SetCall, policies: map<string, PolicyRow>, id: string, row: PolicyRow)
    requires OneLivePolicy(policies)
  {
    && row.routeId == k.input.routeId && Live(row.audit) && WellDeleted(row.audit)
    && row.expression == k.input.expression && row.description == k.input.description && row.status == k.input.status
    && row.audit.version == k.input.expectedVersion + 1 && TriggerActor(k.env.dialect, k.actor) != ""
    && match LivePolicy(policies, k.input.routeId)
       case None => id == k.env.policyId && k.input.expectedVersion == 0
       case Some(p) => p == id && policies[id].audit.version == k.input.expectedVersion
  }

  /** The permission rows a call is about to commit: new ones have ids of its own. */
  ghost predicate RefsReady(k: SetCall, seen: map<string, RefRow>, own: map<string, RefRow>, id: string) {
    && RefsAdvanced(seen, own, id, k.input.permissions)
    && forall x :: x in own && x !in seen ==> exists i: nat :: x == k.env.refId(i)
  }

  /** What a phase says about the committed tables. */
  ghost predicate ProcOk(k: SetCall, st: Store, ph: Phase)
    requires OneLivePolicy(st.policies)
  {
    match ph
    case Held(id, version) => LivePolicy(st.policies, k.input.routeId) == Some(id) && st.policies[id].audit.version == version
    case PolicyWritten(id, row) => Ready(k, st.policies, id, row)
    case RefsRead(id, row, seen) => Ready(k, st.policies, id, row) && seen == Own(st.refs, id)
    case RefsWritten(id, row, seen, own) => Ready(k, st.policies, id, row) && seen == Own(st.refs, id) && RefsReady(k, seen, own, id)
    case _ => true
  }

  /** The ids the call would use are in no table yet. */
  ghost predicate Unused(e: Env, st: Store) {
    e.policyId !in st.policies && forall i: nat :: e.refId(i) !in st.refs
  }

  /** The UUID generator never repeats itself: neither between calls nor what is in the tables. */
  ghost predicate Distinct(calls: seq<SetCall>) {
    && (forall p, q :: 0 <= p < q < |calls| ==> calls[p].env.policyId != calls[q].env.policyId)
    && forall p, q, i: nat, j: nat :: 0 <= p < q < |calls| ==> calls[p].env.refId(i) != calls[q].env.refId(j)
  }

  ghost predicate LocksOk(calls: seq<SetCall>, c: Config)
    requires |c.procs| == |calls|
  {
    && (forall r :: r in c.holder ==> c.holder[r] < |calls| && Holding(c.procs[c.holder[r]]) && calls[c.holder[r]].input.routeId == r)
    && forall p :: 0 <= p < |calls| && Holding(c.procs[p]) ==> calls[p].input.routeId in c.holder && c.holder[calls[p].input.routeId] == p
  }

  ghost predicate ProcsOk(calls: seq<SetCall>, c: Config)
    requires |c.procs| == |calls| && OneLivePolicy(c.st.policies)
  {
    forall p :: 0 <= p < |calls| ==>
      ProcOk(calls[p], c.st, c.procs[p]) && (!c.procs[p].Committed? ==> Unused(calls[p].env, c.st))
  }

  ghost predicate Valid(calls: seq<SetCall>, c: Config) {
    |c.procs| == |calls| && Inv(c.st) && LocksOk(calls, c) && ProcsOk(calls, c)
  }

  ghost predicate Initial(calls: seq<SetCall>, c: Config) {
    && Inv(c.st) && Distinct(calls) && (forall p :: 0 <= p < |calls| ==> Unused(calls[p].env, c.st))
    && c.holder == map[] && |c.procs| == |calls| && forall p :: 0 <= p < |calls| ==> c.procs[p] == Start
  }

  // ---------------------------------------------------------------- a statement keeps its own call in order

  lemma {:induction false} AppliedIds(e: Env, refs: map<string, RefRow>, policyId: string, byKey: map<string, string>, ps: seq<Permission>, actor: string)
    requires forall k :: k in byKey ==> byKey[k] in refs
    ensures var r := ApplyAll(e, refs, policyId, byKey, ps, actor);
            r.Ok? ==> forall x :: x in r.value && x !in refs ==> exists i: nat :: x == e.refId(i)
  {
    if ps != [] {
      AppliedIds(e, refs, policyId, byKey, ps[..|ps| - 1], actor);
    }
  }

  lemma WrittenRefsReady(k: SetCall, seen: map<string, RefRow>, id: string)
    requires RefsOk(seen) && TriggerActor(k.env.dialect, k.actor) != ""
    ensures var r := SetRefs(k.env, seen, id, k.input.permissions, k.actor); r.Ok? ==> RefsReady(k, seen, r.value, id)
  {
    var r := SetRefs(k.env, seen, id, k.input.permissions, k.actor);
    if r.Ok? {
      SetRefsEffect(k.env, seen, id, k.input.permissions, k.actor);
      AppliedIds(k.env, seen, id, RowOfKey(seen, id), k.input.permissions, k.actor);
    }
  }

  lemma WrittenPolicyReady(k: SetCall, st: Store, ph: Phase)
    requires Inv(st) && ProcOk(k, st, ph) && Unused(k.env, st) && (ph.NoPolicy? || ph.Held?)
    ensures ProcOk(k, st, Next(k, st, ph))
  {
  }

  lemma NextOk(k: SetCall, st: Store, ph: Phase)
    requires Inv(st) && ProcOk(k, st, ph) && Unused(k.env, st)
    ensures ProcOk(k, st, Next(k, st, ph))
  {
    match ph {
      case NoPolicy => WrittenPolicyReady(k, st, ph);
      case Held(_, _) => WrittenPolicyReady(k, st, ph);
      case RefsRead(id, row, seen) => WrittenRefsReady(k, seen, id);
      case _ =>
    }
  }

  /** Between the SELECT ... FOR UPDATE and the UPDATE the row cannot have changed: the version in its WHERE clause
      never finds it changed. */
  lemma GuardNeverFires(calls: seq<SetCall>, c: Config, p: nat)
    requires Valid(calls, c) && p < |calls| && c.procs[p].Held? && c.procs[p].version == calls[p].input.expectedVersion
    ensures !GuardFails(calls[p], c.st, c.procs[p].id)
  {
  }

  // ---------------------------------------------------------------- a commit advances the tables

  lemma LandedPolicies(k: SetCall, policies: map<string, PolicyRow>, id: string, row: PolicyRow)
    requires PoliciesOk(policies) && Ready(k, policies, id, row) && k.env.policyId !in policies
    ensures PolicyAdvanced(policies, policies[id := row], k.input, id)
  {
    var policies' := policies[id := row];
    LivePolicyIs(policies', id);
  }

  /** `own` holds all rows of the policy and only those, and no id of another policy's row. */
  ghost predicate Replaces(refs: map<string, RefRow>, own: map<string, RefRow>, id: string) {
    && (forall x :: x in own ==> own[x].policyId == id && (x in refs ==> refs[x].policyId == id))
    && forall x :: x in refs && refs[x].policyId == id ==> x in own
  }

  lemma OwnReplaces(k: SetCall, refs: map<string, RefRow>, id: string, own: map<string, RefRow>)
    requires RefsReady(k, Own(refs, id), own, id) && forall i: nat :: k.env.refId(i) !in refs
    ensures Replaces(refs, own, id)
  {
    var seen := Own(refs, id);
    forall x | x in own ensures own[x].policyId == id && (x in refs ==> refs[x].policyId == id) {
      if x in seen { assert own[x].policyId == seen[x].policyId; }
    }
  }

  lemma ReplacedKeys(refs: map<string, RefRow>, own: map<string, RefRow>, id: string)
    requires UniqueKeys(refs) && UniqueKeys(own) && Replaces(refs, own, id)
    ensures UniqueKeys(refs + own)
  {
    var refs' := refs + own;
    assert forall x :: x in refs' && x !in own ==> x in refs && refs'[x] == refs[x] && refs[x].policyId != id;
  }

  lemma ReplacedKept(refs: map<string, RefRow>, own: map<string, RefRow>, id: string)
    requires Replaces(refs, own, id) && RowsKept(Own(refs, id), own, id)
    ensures RowsKept(refs, refs + own, id)
  {
    var seen, refs' := Own(refs, id), refs + own;
    forall x | x in refs && x in own ensures x in seen && refs'[x] == own[x] && seen[x] == refs[x] {}
  }

  lemma ReplacedPerms(refs: map<string, RefRow>, own: map<string, RefRow>, id: string)
    requires UniqueKeys(own) && UniqueKeys(refs + own) && Replaces(refs, own, id)
    ensures LivePerms(refs + own, id) == LivePerms(own, id)
  {
    SameRowsSamePerms(own, refs + own, id);
  }

  lemma ReplacedDeleted(refs: map<string, RefRow>, own: map<string, RefRow>)
    requires WellDeletedRefs(refs) && WellDeletedRefs(own)
    ensures WellDeletedRefs(refs + own)
  {
  }

  lemma LandedRefs(k: SetCall, refs: map<string, RefRow>, id: string, own: map<string, RefRow>)
    requires RefsOk(refs) && RefsReady(k, Own(refs, id), own, id) && forall i: nat :: k.env.refId(i) !in refs
    ensures RefsAdvanced(refs, refs + own, id, k.input.permissions)
  {
    OwnReplaces(k, refs, id, own);
    ReplacedKeys(refs, own, id);
    ReplacedKept(refs, own, id);
    ReplacedPerms(refs, own, id);
    ReplacedDeleted(refs, own);
  }

  lemma CommitAdvances(k: SetCall, st: Store, ph: Phase)
    requires Inv(st) && ph.RefsWritten? && ProcOk(k, st, ph) && Unused(k.env, st)
    ensures Inv(Landed(st, ph)) && Advanced(st, Landed(st, ph), k.input)
    ensures PolicyAdvanced(st.policies, Landed(st, ph).policies, k.input, ph.id) && RowsKept(st.refs, Landed(st, ph).refs, ph.id)
  {
    LandedPolicies(k, st.policies, ph.id, ph.row);
    LandedRefs(k, st.refs, ph.id, ph.own);
    StillReferenced(st.policies.Keys, st.refs, st.refs + ph.own, ph.id);
  }

  // ---------------------------------------------------------------- and leaves the other calls undisturbed

  lemma OtherIdsDiffer(calls: seq<SetCall>, p: nat, q: nat, i: nat, j: nat)
    requires Distinct(calls) && p < |calls| && q < |calls| && p != q
    ensures calls[p].env.policyId != calls[q].env.policyId && calls[p].env.refId(i) != calls[q].env.refId(j)
  {
    if p < q {
      assert calls[p].env.refId(i) != calls[q].env.refId(j);
    } else {
      assert calls[q].env.refId(j) != calls[p].env.refId(i);
    }
  }

  /** A policy id a call is about to commit is its own or the live one of its route. */
  lemma CommitIdIs(k: SetCall, st: Store, ph: Phase)
    requires OneLivePolicy(st.policies) && ph.RefsWritten? && ProcOk(k, st, ph)
    ensures ph.id == k.env.policyId || ph.id in st.policies
  {
  }

  lemma StillUnused(calls: seq<SetCall>, st: Store, p: nat, q: nat, ph: Phase)
    requires Inv(st) && Distinct(calls) && p < |calls| && q < |calls| && p != q
    requires ph.RefsWritten? && ProcOk(calls[q], st, ph) && Unused(calls[p].env, st)
    ensures Unused(calls[p].env, Landed(st, ph))
  {
    CommitIdIs(calls[q], st, ph);
    OtherIdsDiffer(calls, p, q, 0, 0);
    forall i: nat, j: nat ensures calls[p].env.refId(i) != calls[q].env.refId(j) {
      OtherIdsDiffer(calls, p, q, i, j);
    }
  }

  lemma OwnKept(refs: map<string, RefRow>, refs': map<string, RefRow>, id: string, other: string)
    requires RowsKept(refs, refs', id) && other != id
    ensures Own(refs', other) == Own(refs, other)
  {
  }

  lemma ReadyKept(k: SetCall, policies: map<string, PolicyRow>, policies': map<string, PolicyRow>, input: SetInput, id: string, mine: string, row: PolicyRow)
    requires OneLivePolicy(policies) && PolicyAdvanced(policies, policies', input, id) && k.input.routeId != input.routeId
    requires Ready(k, policies, mine, row) && k.env.policyId != id
    ensures Ready(k, policies', mine, row) && mine != id
  {
    OtherPolicyKept(policies, policies', input, id, k.input.routeId);
  }

  /** A commit on another route changes nothing that a call holding a lock relies on. */
  lemma OthersUndisturbed(k: SetCall, st: Store, st': Store, input: SetInput, id: string, ph: Phase)
    requires Inv(st) && Inv(st') && ProcOk(k, st, ph) && (Holding(ph) ==> k.input.routeId != input.routeId)
    requires PolicyAdvanced(st.policies, st'.policies, input, id) && RowsKept(st.refs, st'.refs, id) && k.env.policyId != id
    ensures ProcOk(k, st', ph)
  {
    match ph {
      case Held(mine, _) => OtherPolicyKept(st.policies, st'.policies, input, id, k.input.routeId);
      case PolicyWritten(mine, row) => ReadyKept(k, st.policies, st'.policies, input, id, mine, row);
      case RefsRead(mine, row, _) =>
        ReadyKept(k, st.policies, st'.policies, input, id, mine, row);
        OwnKept(st.refs, st'.refs, id, mine);
      case RefsWritten(mine, row, _, _) =>
        ReadyKept(k, st.policies, st'.policies, input, id, mine, row);
        OwnKept(st.refs, st'.refs, id, mine);
      case _ =>
    }
  }

  lemma CommitKeepsOther(calls: seq<SetCall>, st: Store, q: nat, ph: Phase, p: nat, other: Phase)
    requires Inv(st) && Distinct(calls) && p < |calls| && q < |calls| && p != q
    requires ph.RefsWritten? && ProcOk(calls[q], st, ph) && Unused(calls[q].env, st)
    requires ProcOk(calls[p], st, other) && Unused(calls[p].env, st)
    requires Holding(other) ==> calls[p].input.routeId != calls[q].input.routeId
    ensures Inv(Landed(st, ph)) && ProcOk(calls[p], Landed(st, ph), other) && Unused(calls[p].env, Landed(st, ph))
  {
    CommitAdvances(calls[q], st, ph);
    StillUnused(calls, st, p, q, ph);
    CommitIdIs(calls[q], st, ph);
    OtherIdsDiffer(calls, p, q, 0, 0);
    OthersUndisturbed(calls[p], st, Landed(st, ph), calls[q].input, ph.id, other);
  }

  lemma TakesLock(k: SetCall, st: Store, ph: Phase)
    requires Inv(st) && (ph.RefsRead? ==> UniqueKeys(ph.seen)) && Holding(Next(k, st, ph)) && !Holding(ph)
    ensures (ph.RouteSeen? && LivePolicy(st.policies, k.input.routeId).Some?) || (ph.NoPolicy? && k.input.expectedVersion == 0)
  {
  }

  lemma LocksMove(calls: seq<SetCall>, c: Config, c': Config, p: nat)
    requires |c.procs| == |calls| && LocksOk(calls, c) && p < |calls| && |c'.procs| == |calls|
    requires forall q :: 0 <= q < |calls| && q != p ==> c'.procs[q] == c.procs[q]
    requires Holding(c'.procs[p]) && !Holding(c.procs[p]) ==> calls[p].input.routeId !in c.holder
    requires c'.holder == if Holding(c'.procs[p]) then c.holder[calls[p].input.routeId := p]
                          else if Holding(c.procs[p]) then c.holder - {calls[p].input.routeId} else c.holder
    ensures LocksOk(calls, c')
  {
  }

  lemma StepLocks(calls: seq<SetCall>, c: Config, m: Move)
    requires Valid(calls, c) && Enabled(calls, c, m)
    ensures LocksOk(calls, After(calls, c, m))
  {
    var c' := After(calls, c, m);
    if m.Statement? && Holding(c'.procs[m.p]) && !Holding(c.procs[m.p]) {
      TakesLock(calls[m.p], c.st, c.procs[m.p]);
    }
    LocksMove(calls, c, c', m.p);
  }

  /** Every move keeps the invariant. It changes the tables only if it commits, and then exactly as the call run
      alone on the committed tables would. */
  lemma StepEffect(calls: seq<SetCall>, c: Config, m: Move)
    requires Valid(calls, c) && Distinct(calls) && Enabled(calls, c, m)
    ensures Valid(calls, After(calls, c, m))
    ensures Stepped(c.st, After(calls, c, m).st, calls[m.p].input, Commits(c, m))
  {
    var c' := After(calls, c, m);
    StepLocks(calls, c, m);
    if Commits(c, m) {
      CommitAdvances(calls[m.p], c.st, c.procs[m.p]);
      forall p | 0 <= p < |calls| && p != m.p
        ensures ProcOk(calls[p], c'.st, c'.procs[p]) && (!c'.procs[p].Committed? ==> Unused(calls[p].env, c'.st)) {
        if !c.procs[p].Committed? { CommitKeepsOther(calls, c.st, m.p, c.procs[m.p], p, c.procs[p]); }
      }
    } else if m.Statement? {
      NextOk(calls[m.p], c.st, c.procs[m.p]);
    }
  }

  // ---------------------------------------------------------------- every run

  ghost predicate Makes(calls: seq<SetCall>, c: Config, c': Config, m: Move)
    requires Valid(calls, c)
  {
    Enabled(calls, c, m) && c' == After(calls, c, m)
  }

  ghost predicate IsRun(calls: seq<SetCall>, cs: seq<Config>, ms: seq<Move>) {
    && |cs| == |ms| + 1 && Initial(calls, cs[0])
    && forall i :: 0 <= i < |ms| && Valid(calls, cs[i]) ==> Makes(calls, cs[i], cs[i + 1], ms[i])
  }

  /** What one move does, without saying how. */
  ghost predicate Moved(calls: seq<SetCall>, c: Config, c': Config, m: Move) {
    && m.p < |calls| && |c.procs| == |c'.procs| == |calls|
    && Stepped(c.st, c'.st, calls[m.p].input, Commits(c, m)) && PhaseMoves(c, c', m)
  }

  /** Only the mover's phase changes; a finished call does not move, and commits exactly when it becomes committed. */
  ghost predicate PhaseMoves(c: Config, c': Config, m: Move)
    requires m.p < |c.procs| == |c'.procs|
  {
    && (forall q :: 0 <= q < |c.procs| && q != m.p ==> c'.procs[q] == c.procs[q])
    && !Finished(c.procs[m.p]) && (Commits(c, m) <==> c'.procs[m.p].Committed?)
  }

  lemma OnlyCommitsCommit(k: SetCall, st: Store, ph: Phase)
    requires Inv(st) && (ph.RefsRead? ==> UniqueKeys(ph.seen)) && !Finished(ph)
    ensures Next(k, st, ph).Committed? <==> ph.RefsWritten?
  {
  }

  lemma PhasesMove(calls: seq<SetCall>, c: Config, m: Move)
    requires Valid(calls, c) && Enabled(calls, c, m)
    ensures |After(calls, c, m).procs| == |calls| && PhaseMoves(c, After(calls, c, m), m)
  {
    OnlyCommitsCommit(calls[m.p], c.st, c.procs[m.p]);
  }

  lemma MakesMoved(calls: seq<SetCall>, c: Config, c': Config, m: Move)
    requires Valid(calls, c) && Distinct(calls) && Makes(calls, c, c', m)
    ensures Valid(calls, c') && Moved(calls, c, c', m)
  {
    StepEffect(calls, c, m);
    PhasesMove(calls, c, m);
  }

  lemma RunMoves(calls: seq<SetCall>, cs: seq<Config>, ms: seq<Move>)
    requires IsRun(calls, cs, ms)
    ensures forall i :: 0 <= i < |cs| ==> Valid(calls, cs[i])
    ensures forall i :: 0 <= i < |ms| ==> Moved(calls, cs[i], cs[i + 1], ms[i])
  {
    forall i | 0 <= i < |ms| && Valid(calls, cs[i]) ensures Valid(calls, cs[i + 1]) && Moved(calls, cs[i], cs[i + 1], ms[i]) {
      MakesMoved(calls, cs[i], cs[i + 1], ms[i]);
    }
    var good := seq(|cs|, i requires 0 <= i < |cs| => Valid(calls, cs[i]));
    forall i, j | 0 <= i < j < |good| && j == i + 1 && good[i] ensures good[j] {
      assert Valid(calls, cs[i + 1]);
    }
    HandedOn(good, |cs| - 1);
    forall i | 0 <= i < |cs| ensures Valid(calls, cs[i]) {
      assert good[i];
    }
  }

  /** The calls in the order of their moves, and which moves were commits: the order in which the calls take effect. */
  ghost function MovingCalls(calls: seq<SetCall>, ms: seq<Move>): seq<SetCall>
    requires forall i :: 0 <= i < |ms| ==> ms[i].p < |calls|
  {
    seq(|ms|, i requires 0 <= i < |ms| => calls[ms[i].p])
  }

  ghost function CommitFlags(cs: seq<Config>, ms: seq<Move>): seq<bool>
    requires |cs| == |ms| + 1
  {
    seq(|ms|, i requires 0 <= i < |ms| => Commits(cs[i], ms[i]))
  }

  /** Over every interleaving of any number of calls, with refusals and crashes at any point: for each route the
      calls that committed, in the order they did, expected the starting version, plus 1, plus 2 and so on; the
      version counts them; and the live permissions are exactly those of the last. */
  lemma ConcurrentVersionCountsCommits(calls: seq<SetCall>, cs: seq<Config>, ms: seq<Move>, routeId: string)
    requires IsRun(calls, cs, ms)
    ensures Inv(cs[0].st) && Inv(cs[|ms|].st) && (forall i :: 0 <= i < |ms| ==> ms[i].p < |calls|)
    ensures var a, b := cs[0].st, cs[|ms|].st;
            Accounts(VersionOf(a.policies, routeId), PermsOf(a.policies, a.refs, routeId),
                     VersionOf(b.policies, routeId), PermsOf(b.policies, b.refs, routeId),
                     CommittedOn(MovingCalls(calls, ms), CommitFlags(cs, ms), routeId, |ms|))
  {
    RunMoves(calls, cs, ms);
    forall i | 0 <= i < |ms| ensures ms[i].p < |calls| {
      assert Moved(calls, cs[i], cs[i + 1], ms[i]);
    }
    StoresAccount(seq(|cs|, i requires 0 <= i < |cs| => cs[i].st), MovingCalls(calls, ms), CommitFlags(cs, ms), routeId);
  }

  lemma {:induction false} VersionsGrow(vs: seq<int>, i: nat, j: nat)
    requires i <= j < |vs| && forall k :: 0 <= k < |vs| - 1 ==> vs[k] <= vs[k + 1] <= vs[k] + 1
    ensures vs[i] <= vs[j]
    decreases j
  {
    if i < j {
      VersionsGrow(vs, i, j - 1);
      assert vs[j - 1] <= vs[j - 1 + 1];
    }
  }

  /** Of any calls that expect the same version of the same route at most one commits, the racing creations with
      version 0 included. */
  lemma OneCommitPerVersion(calls: seq<SetCall>, cs: seq<Config>, ms: seq<Move>, i: nat, j: nat)
    requires IsRun(calls, cs, ms) && i < j < |ms| && Commits(cs[i], ms[i]) && Commits(cs[j], ms[j])
    ensures ms[i].p < |calls| && ms[j].p < |calls|
    ensures calls[ms[i].p].input.routeId == calls[ms[j].p].input.routeId ==>
              calls[ms[i].p].input.expectedVersion < calls[ms[j].p].input.expectedVersion
  {
    RunMoves(calls, cs, ms);
    var vs := RunVersions(calls, cs, ms, if ms[i].p < |calls| then calls[ms[i].p].input.routeId else "");
    CommitsInOrder(calls, vs, ms, CommitFlags(cs, ms), i, j);
  }

  lemma CommitsInOrder(calls: seq<SetCall>, vs: seq<int>, ms: seq<Move>, oks: seq<bool>, i: nat, j: nat)
    requires |vs| == |ms| + 1 == |oks| + 1 && i < j < |ms| && ms[i].p < |calls| && oks[i] && oks[j]
    requires forall k :: 0 <= k < |ms| ==>
      ms[k].p < |calls| && VersionMoves(vs[k], vs[k + 1], calls[ms[k].p].input, oks[k], calls[ms[i].p].input.routeId)
    ensures ms[j].p < |calls|
    ensures calls[ms[i].p].input.routeId == calls[ms[j].p].input.routeId ==>
              calls[ms[i].p].input.expectedVersion < calls[ms[j].p].input.expectedVersion
  {
    VersionsGrow(vs, i + 1, j);
    assert VersionMoves(vs[i], vs[i + 1], calls[ms[i].p].input, oks[i], calls[ms[i].p].input.routeId);
    assert VersionMoves(vs[j], vs[j + 1], calls[ms[j].p].input, oks[j], calls[ms[i].p].input.routeId);
  }

  ghost predicate VersionMoves(v: int, v': int, input: SetInput, ok: bool, routeId: string) {
    if ok && input.routeId == routeId then v == input.expectedVersion && v' == v + 1 else v' == v
  }

  lemma StepVersion(st: Store, st': Store, input: SetInput, ok: bool, routeId: string)
    requires Stepped(st, st', input, ok)
    ensures VersionMoves(VersionOf(st.policies, routeId), VersionOf(st'.policies, routeId), input, ok, routeId)
  {
    StepMoves(st, st', input, ok, routeId);
  }

  lemma MovedVersion(calls: seq<SetCall>, c: Config, c': Config, m: Move, routeId: string)
    requires Moved(calls, c, c', m)
    ensures m.p < |calls| && VersionMoves(VersionOf(c.st.policies, routeId), VersionOf(c'.st.policies, routeId), calls[m.p].input, Commits(c, m), routeId)
  {
    StepVersion(c.st, c'.st, calls[m.p].input, Commits(c, m), routeId);
  }

  ghost function Versions(cs: seq<Config>, routeId: string): (vs: seq<int>)
    requires forall i :: 0 <= i < |cs| ==> OneLivePolicy(cs[i].st.policies)
    ensures |vs| == |cs| && forall i :: 0 <= i < |cs| ==> vs[i] == VersionOf(cs[i].st.policies, routeId)
  {
    seq(|cs|, i requires 0 <= i < |cs| => VersionOf(cs[i].st.policies, routeId))
  }

  lemma RunVersions(calls: seq<SetCall>, cs: seq<Config>, ms: seq<Move>, routeId: string) returns (vs: seq<int>)
    requires |cs| == |ms| + 1 && (forall i :: 0 <= i < |cs| ==> Inv(cs[i].st))
    requires forall i :: 0 <= i < |ms| ==> Moved(calls, cs[i], cs[i + 1], ms[i])
    ensures |vs| == |cs|
    ensures forall i :: 0 <= i < |ms| ==> ms[i].p < |calls| && VersionMoves(vs[i], vs[i + 1], calls[ms[i].p].input, Commits(cs[i], ms[i]), routeId)
  {
    forall i | 0 <= i < |cs| ensures OneLivePolicy(cs[i].st.policies) {
      assert Inv(cs[i].st);
    }
    vs := Versions(cs, routeId);
    forall i | 0 <= i < |ms| ensures ms[i].p < |calls| && VersionMoves(vs[i], vs[i + 1], calls[ms[i].p].input, Commits(cs[i], ms[i]), routeId) {
      MovedVersion(calls, cs[i], cs[i + 1], ms[i], routeId);
    }
  }

  lemma {:induction false} OutcomeByMoves(cs: seq<Config>, ms: seq<Move>, p: nat, n: nat)
    requires |cs| == |ms| + 1 && n <= |ms| && (forall i :: 0 <= i < |cs| ==> p < |cs[i].procs|) && cs[0].procs[p] == Start
    requires forall i :: 0 <= i < |ms| ==> ms[i].p < |cs[i].procs| == |cs[i + 1].procs| && PhaseMoves(cs[i], cs[i + 1], ms[i])
    ensures cs[n].procs[p].Committed? <==> exists i :: 0 <= i < n && ms[i].p == p && Commits(cs[i], ms[i])
    ensures forall i, j :: 0 <= i < j < n && ms[i].p == p == ms[j].p ==> !Commits(cs[i], ms[i])
  {
    if n > 0 {
      OutcomeByMoves(cs, ms, p, n - 1);
      assert PhaseMoves(cs[n - 1], cs[n - 1 + 1], ms[n - 1]);
    }
  }

  /** A call ends committed exactly when one of its moves was the commit, and then it was its last: a call that was
      refused (stale, not found, a database error) or that died changed nothing. */
  lemma OutcomeIsCommit(calls: seq<SetCall>, cs: seq<Config>, ms: seq<Move>, p: nat)
    requires IsRun(calls, cs, ms) && p < |calls|
    ensures |cs[|ms|].procs| == |calls|
    ensures cs[|ms|].procs[p].Committed? <==> exists i :: 0 <= i < |ms| && ms[i].p == p && Commits(cs[i], ms[i])
    ensures forall i, j :: 0 <= i < j < |ms| && ms[i].p == p == ms[j].p ==> !Commits(cs[i], ms[i])
    ensures forall i :: 0 <= i < |ms| && !Commits(cs[i], ms[i]) ==> cs[i + 1].st == cs[i].st
  {
    RunMoves(calls, cs, ms);
    forall i | 0 <= i < |ms|
      ensures ms[i].p < |cs[i].procs| == |cs[i + 1].procs| && PhaseMoves(cs[i], cs[i + 1], ms[i]) {
      assert Moved(calls, cs[i], cs[i + 1], ms[i]);
    }
    OutcomeByMoves(cs, ms, p, |ms|);
  }

  /** While a call is unfinished some call can run its next statement: whoever is waited for does not wait. */
  lemma NoDeadlock(calls: seq<SetCall>, c: Config, p: nat) returns (q: nat)
    requires Valid(calls, c) && p < |calls| && !Finished(c.procs[p])
    ensures Enabled(calls, c, Statement(q))
  {
    q := if Waits(calls[p], c, c.procs[p]) then c.holder[calls[p].input.routeId] else p;
  }
}
