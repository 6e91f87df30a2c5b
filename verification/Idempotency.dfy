/** `IdempotencyExecution`: requests with one Idempotency-Key against the state the owner-token manager keeps for it
    (internal/transport/http/middleware.go:94-155, internal/transport/http/response.go:13-33, README.md:222-224,
    integration/redis_test.go:50-70). Requests interleave, workers die, the state expires. */
module Idempotency {
  import opened Basics

  /** A unified response as the client sees it; `body` is None for null. */
  datatype Reply = Reply(status: int, code: int, message: string, body: Option<string>, requestId: string)

  /** What a handler wrote: a unified response, or something that is not one. */
  datatype Output = Unified(reply: Reply) | Garbled

  /** The manager's state of the key. `owner` names the run of the handler it belongs to: the token of the worker. */
  datatype Entry =
    | Absent
    | Processing(fingerprint: string, owner: nat)
    | Completed(fingerprint: string, owner: nat, code: int, message: string, body: Option<string>)
    | Failed(fingerprint: string, owner: nat, status: int, code: int, message: string)

  /** A request and how far it is. `Running` and `Ran` are inside and after c.Next(); the client has the output as
      soon as the handler has written it. */
  datatype Progress =
    | Idle
    | Running(owner: nat)
    | Ran(owner: nat, output: Output)
    | Finished(owner: nat, output: Output)
    | Replayed(owner: nat, reply: Reply)
    | Turned(status: int)
    | Lost

  datatype Request = Request(fingerprint: string, requestId: string)

  /** `runs` lists the executions of the handler: which request, and what it wrote. */
  datatype Run = Run(request: nat, output: Option<Output>)

  datatype Config = Config(entry: Entry, runs: seq<Run>, progress: seq<Progress>)

  datatype Act =
    | Begin(r: nat)
    | BodyFails(r: nat)
    | BeginFails(r: nat)
    | Handle(r: nat, output: Output)
    | Persist(r: nat)
    | PersistFails(r: nat)
    | Dies(r: nat)
    | Expire

  /** The answer to a request that finds the key completed or failed. */
  function Replay(e: Entry, requestId: string): Reply
    requires e.Completed? || e.Failed?
  {
    match e
    case Completed(_, _, code, message, body) => Reply(200, code, message, body, requestId)
    case Failed(_, _, status, code, message) => Reply(status, code, message, None, requestId)
  }

  /** What the owner stores: Fail from status 400 on, Complete below; nothing if the output is not unified. */
  function Stored(fingerprint: string, owner: nat, output: Output): Option<Entry> {
    match output
    case Garbled => None
    case Unified(p) =>
      if p.status >= 400 then Some(Failed(fingerprint, owner, p.status, p.code, p.message))
      else Some(Completed(fingerprint, owner, p.code, p.message, p.body))
  }

  predicate Enabled(rs: seq<Request>, c: Config, a: Act)
    requires |c.progress| == |rs|
  {
    match a
    case Expire => !c.entry.Absent?
    case Begin(r) => r < |rs| && c.progress[r].Idle?
    case BodyFails(r) => r < |rs| && c.progress[r].Idle?
    case BeginFails(r) => r < |rs| && c.progress[r].Idle?
    case Handle(r, output) =>
      && r < |rs| && c.progress[r].Running? && (output.Unified? ==> output.reply.requestId == rs[r].requestId)
    case Persist(r) => r < |rs| && c.progress[r].Ran?
    case PersistFails(r) => r < |rs| && c.progress[r].Ran?
    case Dies(r) => r < |rs| && (c.progress[r].Idle? || c.progress[r].Running? || c.progress[r].Ran?)
  }

  /** Begin hands the key to the request: it will run the handler. */
  predicate Acquires(c: Config, a: Act) {
    a.Begin? && c.entry.Absent?
  }

  function After(rs: seq<Request>, c: Config, a: Act): Config
    requires |c.progress| == |rs| && Enabled(rs, c, a)
  {
    match a
    case Expire => c.(entry := Absent)
    case Begin(r) =>
      var fp := rs[r].fingerprint;
      if c.entry.Absent? then
        Config(Processing(fp, |c.runs|), c.runs + [Run(r, None)], c.progress[r := Running(|c.runs|)])
      else if c.entry.fingerprint != fp then c.(progress := c.progress[r := Turned(409)])
      else if c.entry.Processing? then c.(progress := c.progress[r := Turned(409)])
      else c.(progress := c.progress[r := Replayed(c.entry.owner, Replay(c.entry, rs[r].requestId))])
    case BodyFails(r) => c.(progress := c.progress[r := Turned(400)])
    case BeginFails(r) => c.(progress := c.progress[r := Turned(503)])
    case Handle(r, output) =>
      var o := c.progress[r].owner;
      Config(c.entry, if o < |c.runs| then c.runs[o := c.runs[o].(output := Some(output))] else c.runs, c.progress[r := Ran(o, output)])
    case Persist(r) =>
      var o, output := c.progress[r].owner, c.progress[r].output;
      var stored := Stored(rs[r].fingerprint, o, output);
      Config(if stored.Some? && c.entry.Processing? && c.entry.owner == o then stored.value else c.entry,
             c.runs, c.progress[r := Finished(o, output)])
    case PersistFails(r) => c.(progress := c.progress[r := Finished(c.progress[r].owner, c.progress[r].output)])
    case Dies(r) => c.(progress := c.progress[r := Lost])
  }

  // ---------------------------------------------------------------- the invariant

  /** Run o of the handler was for this fingerprint. */
  predicate RunFor(rs: seq<Request>, c: Config, o: nat, fingerprint: string) {
    o < |c.runs| && c.runs[o].request < |rs| && rs[c.runs[o].request].fingerprint == fingerprint
  }

  predicate EntryOk(rs: seq<Request>, c: Config) {
    match c.entry
    case Absent => true
    case Processing(fp, o) => RunFor(rs, c, o, fp)
    case Completed(fp, o, _, _, _) =>
      RunFor(rs, c, o, fp) && c.runs[o].output.Some? && Stored(fp, o, c.runs[o].output.value) == Some(c.entry)
    case Failed(fp, o, _, _, _) =>
      RunFor(rs, c, o, fp) && c.runs[o].output.Some? && Stored(fp, o, c.runs[o].output.value) == Some(c.entry)
  }

  predicate ProgressOk(rs: seq<Request>, c: Config, r: nat)
    requires r < |rs| == |c.progress|
  {
    match c.progress[r]
    case Running(o) => o < |c.runs| && c.runs[o] == Run(r, None)
    case Ran(o, output) => o < |c.runs| && c.runs[o] == Run(r, Some(output))
    case Finished(o, output) => o < |c.runs| && c.runs[o] == Run(r, Some(output))
    case Replayed(o, reply) =>
      && RunFor(rs, c, o, rs[r].fingerprint) && c.runs[o].output.Some?
      && var stored := Stored(rs[r].fingerprint, o, c.runs[o].output.value);
         stored.Some? && reply == Replay(stored.value, rs[r].requestId)
    case _ => true
  }

  predicate Valid(rs: seq<Request>, c: Config) {
    && |c.progress| == |rs| && EntryOk(rs, c)
    && forall r :: 0 <= r < |rs| ==> ProgressOk(rs, c, r)
  }

  predicate Initial(rs: seq<Request>, c: Config) {
    c.entry == Absent && c.runs == [] && |c.progress| == |rs| && forall r :: 0 <= r < |rs| ==> c.progress[r] == Idle
  }

  lemma StepKeepsEntry(rs: seq<Request>, c: Config, a: Act)
    requires Valid(rs, c) && Enabled(rs, c, a)
    ensures EntryOk(rs, After(rs, c, a))
  {
    if !a.Expire? { assert ProgressOk(rs, c, a.r); }
  }

  lemma StepKeepsProgress(rs: seq<Request>, c: Config, a: Act, r: nat)
    requires Valid(rs, c) && Enabled(rs, c, a) && r < |rs|
    ensures ProgressOk(rs, After(rs, c, a), r)
  {
    assert ProgressOk(rs, c, r);
    if !a.Expire? { assert ProgressOk(rs, c, a.r); }
  }

  lemma StepKeepsValid(rs: seq<Request>, c: Config, a: Act)
    requires Valid(rs, c) && Enabled(rs, c, a)
    ensures Valid(rs, After(rs, c, a))
  {
    StepKeepsEntry(rs, c, a);
    forall r | 0 <= r < |rs| ensures ProgressOk(rs, After(rs, c, a), r) {
      StepKeepsProgress(rs, c, a, r);
    }
  }

  ghost predicate Makes(rs: seq<Request>, c: Config, c': Config, a: Act) {
    |c.progress| == |rs| && Enabled(rs, c, a) && c' == After(rs, c, a)
  }

  ghost predicate IsRun(rs: seq<Request>, cs: seq<Config>, acts: seq<Act>) {
    |cs| == |acts| + 1 && Initial(rs, cs[0]) && forall i :: 0 <= i < |acts| ==> Makes(rs, cs[i], cs[i + 1], acts[i])
  }

  lemma {:induction false} RunIsValid(rs: seq<Request>, cs: seq<Config>, acts: seq<Act>, n: nat)
    requires IsRun(rs, cs, acts) && n < |cs|
    ensures Valid(rs, cs[n])
  {
    if n > 0 {
      RunIsValid(rs, cs, acts, n - 1);
      assert Makes(rs, cs[n - 1], cs[n - 1 + 1], acts[n - 1]);
      StepKeepsValid(rs, cs[n - 1], acts[n - 1]);
    }
  }

  // ---------------------------------------------------------------- the handler runs once until expiry

  lemma {:induction false} StaysTaken(rs: seq<Request>, cs: seq<Config>, acts: seq<Act>, i: nat, j: nat)
    requires IsRun(rs, cs, acts) && i <= j < |cs| && !cs[i].entry.Absent? && forall k :: i <= k < j ==> !acts[k].Expire?
    ensures !cs[j].entry.Absent?
    decreases j
  {
    if i < j {
      StaysTaken(rs, cs, acts, i, j - 1);
      assert Makes(rs, cs[j - 1], cs[j - 1 + 1], acts[j - 1]);
    }
  }

  /** Between two acquisitions of the key the state expired: until it does, the handler runs at most once, however
      many requests come and whatever becomes of them. */
  lemma OnceUntilExpiry(rs: seq<Request>, cs: seq<Config>, acts: seq<Act>, i: nat, j: nat)
    requires IsRun(rs, cs, acts) && i < j < |acts| && Acquires(cs[i], acts[i]) && Acquires(cs[j], acts[j])
    ensures exists k :: i < k < j && acts[k].Expire?
  {
    if forall k :: i < k < j ==> !acts[k].Expire? {
      assert Makes(rs, cs[i], cs[i + 1], acts[i]);
      StaysTaken(rs, cs, acts, i + 1, j);
    }
  }

  /** The handler runs for an acquisition only, and once for each: a move that adds a run is an acquisition. */
  lemma RunsAreAcquired(rs: seq<Request>, c: Config, a: Act)
    requires Valid(rs, c) && Enabled(rs, c, a)
    ensures |After(rs, c, a).runs| == |c.runs| + (if Acquires(c, a) then 1 else 0)
    ensures a.Handle? ==> c.progress[a.r].owner < |c.runs| && c.runs[c.progress[a.r].owner].output.None?
  {
    if a.Handle? { assert ProgressOk(rs, c, a.r); }
  }

  /** A stored answer stands until it expires: no late worker, whatever it owns, overwrites it. */
  lemma {:induction false} StoredAnswerStands(rs: seq<Request>, cs: seq<Config>, acts: seq<Act>, i: nat, j: nat)
    requires IsRun(rs, cs, acts) && i <= j < |cs| && (cs[i].entry.Completed? || cs[i].entry.Failed?)
    requires forall k :: i <= k < j ==> !acts[k].Expire?
    ensures cs[j].entry == cs[i].entry
    decreases j
  {
    if i < j {
      StoredAnswerStands(rs, cs, acts, i, j - 1);
      assert Makes(rs, cs[j - 1], cs[j - 1 + 1], acts[j - 1]);
    }
  }

  // ---------------------------------------------------------------- replays

  /** A response as OK and Fail write them: OK with status 200, Fail with a status from 400 on and no body. */
  predicate Replayable(p: Reply) {
    p.status == 200 || (p.status >= 400 && p.body.None?)
  }

  predicate SameAnswer(a: Reply, b: Reply) {
    a.(requestId := "") == b.(requestId := "")
  }

  /** Every replay goes back to one run of the handler for the same fingerprint, which wrote a unified response, and
      the replay is that response with the request id of the new request if and only if it is one that OK or Fail
      can write. (A status between 201 and 399 comes back as 200; a body beside an error is dropped.) */
  lemma ReplayIsFirstAnswer(rs: seq<Request>, cs: seq<Config>, acts: seq<Act>, n: nat, r: nat)
    requires IsRun(rs, cs, acts) && n < |cs| && r < |rs| && r < |cs[n].progress| && cs[n].progress[r].Replayed?
    ensures RunFor(rs, cs[n], cs[n].progress[r].owner, rs[r].fingerprint)
    ensures var first, reply := cs[n].runs[cs[n].progress[r].owner].output, cs[n].progress[r].reply;
            && first.Some? && first.value.Unified? && reply.requestId == rs[r].requestId
            && (SameAnswer(reply, first.value.reply) <==> Replayable(first.value.reply))
  {
    RunIsValid(rs, cs, acts, n);
    assert ProgressOk(rs, cs[n], r);
  }

  /** Two replays of one run answer the same, whatever the handler wrote. */
  lemma ReplaysAgree(rs: seq<Request>, cs: seq<Config>, acts: seq<Act>, n: nat, r: nat, s: nat)
    requires IsRun(rs, cs, acts) && n < |cs| && r < |rs| == |cs[n].progress| && s < |rs|
    requires cs[n].progress[r].Replayed? && cs[n].progress[s].Replayed? && cs[n].progress[r].owner == cs[n].progress[s].owner
    ensures SameAnswer(cs[n].progress[r].reply, cs[n].progress[s].reply)
  {
    RunIsValid(rs, cs, acts, n);
    assert ProgressOk(rs, cs[n], r) && ProgressOk(rs, cs[n], s);
  }

  /** The statuses of the application errors (internal/apperror/error.go). */
  const ERROR_STATUSES := {400, 401, 403, 404, 409, 429, 500, 503, 504}

  /** What OK and Fail write (internal/transport/http/response.go:19-33). */
  function OkReply(code: int, body: Option<string>, requestId: string): Reply {
    Reply(200, code, "success", body, requestId)
  }

  function FailReply(status: int, code: int, message: string, requestId: string): Reply {
    Reply(status, code, message, None, requestId)
  }

  /** The handlers of the service answer through OK, or through Fail with an application error. */
  ghost predicate Own(p: Reply) {
    || (exists code, body :: p == OkReply(code, body, p.requestId))
    || (exists status, code, message :: status in ERROR_STATUSES && p == FailReply(status, code, message, p.requestId))
  }

  ghost predicate OwnOutput(o: Option<Output>) {
    o.Some? && o.value.Unified? ==> Own(o.value.reply)
  }

  lemma {:induction false} RunsWriteOwn(rs: seq<Request>, cs: seq<Config>, acts: seq<Act>, n: nat)
    requires IsRun(rs, cs, acts) && n < |cs|
    requires forall i :: 0 <= i < |acts| && acts[i].Handle? ==> OwnOutput(Some(acts[i].output))
    ensures forall o :: 0 <= o < |cs[n].runs| ==> OwnOutput(cs[n].runs[o].output)
  {
    if n > 0 {
      RunsWriteOwn(rs, cs, acts, n - 1);
      assert Makes(rs, cs[n - 1], cs[n - 1 + 1], acts[n - 1]);
    }
  }

  /** As long as the handlers answer so, every replay is the first answer. */
  lemma OwnAnswersReplay(rs: seq<Request>, cs: seq<Config>, acts: seq<Act>, n: nat, r: nat)
    requires IsRun(rs, cs, acts) && n < |cs| && r < |rs| && r < |cs[n].progress| && cs[n].progress[r].Replayed?
    requires forall i :: 0 <= i < |acts| && acts[i].Handle? ==> OwnOutput(Some(acts[i].output))
    ensures RunFor(rs, cs[n], cs[n].progress[r].owner, rs[r].fingerprint)
    ensures var first := cs[n].runs[cs[n].progress[r].owner].output;
            first.Some? && first.value.Unified? && SameAnswer(cs[n].progress[r].reply, first.value.reply)
  {
    ReplayIsFirstAnswer(rs, cs, acts, n, r);
    RunsWriteOwn(rs, cs, acts, n);
    assert OwnOutput(cs[n].runs[cs[n].progress[r].owner].output);
  }

  /** The witness of the other case: any other unified response, a created resource with status 201 for one, is answered
      differently to the next request with the key. */
  lemma OtherAnswersDiffer(a: Request, b: Request, p: Reply) returns (cs: seq<Config>, acts: seq<Act>)
    requires a.fingerprint == b.fingerprint && p.requestId == a.requestId && !Replayable(p)
    ensures IsRun([a, b], cs, acts) && |cs[|acts|].progress| == 2 && cs[|acts|].progress[0] == Finished(0, Unified(p))
    ensures cs[|acts|].progress[1].Replayed? && !SameAnswer(cs[|acts|].progress[1].reply, p)
  {
    var rs := [a, b];
    var stored := Stored(a.fingerprint, 0, Unified(p)).value;
    acts := [Begin(0), Handle(0, Unified(p)), Persist(0), Begin(1)];
    cs := [Config(Absent, [], [Idle, Idle]),
           Config(Processing(a.fingerprint, 0), [Run(0, None)], [Running(0), Idle]),
           Config(Processing(a.fingerprint, 0), [Run(0, Some(Unified(p)))], [Ran(0, Unified(p)), Idle]),
           Config(stored, [Run(0, Some(Unified(p)))], [Finished(0, Unified(p)), Idle]),
           Config(stored, [Run(0, Some(Unified(p)))], [Finished(0, Unified(p)), Replayed(0, Replay(stored, b.requestId))])];
    forall i | 0 <= i < |acts| ensures Makes(rs, cs[i], cs[i + 1], acts[i]) {
      assert i == 0 || i == 1 || i == 2 || i == 3;
    }
    assert SameAnswer(Replay(stored, b.requestId), p) ==> Replayable(p);
  }

  // ---------------------------------------------------------------- the middleware and its manager

  datatype Decision =
    | Acquired(token: nat)
    | InProgress
    | Conflict
    | Answered(entry: Entry)

  /** The manager: the state of each key that has one, and how often each key has been acquired. A token need only be
      new for its key. */
  class Manager {
    var entries: map<string, Entry>
    var acquired: map<string, nat>

    constructor ()
      ensures entries == map[] && acquired == map[]
    {
      entries, acquired := map[], map[];
    }

    function EntryOf(key: string): Entry
      reads this
    {
      if key in entries then entries[key] else Absent
    }

    function RunsOf(key: string): nat
      reads this
    {
      if key in acquired then acquired[key] else 0
    }

    ghost predicate OthersKept(key: string, before: map<string, Entry>, runs: map<string, nat>)
      reads this
    {
      entries - {key} == before - {key} && acquired - {key} == runs - {key}
    }

    method Begin(key: string, fingerprint: string) returns (d: Decision)
      modifies this
      ensures OthersKept(key, old(entries), old(acquired))
      ensures var was := old(EntryOf(key));
              if was.Absent?
              then d == Acquired(old(RunsOf(key))) && EntryOf(key) == Processing(fingerprint, old(RunsOf(key))) && RunsOf(key) == old(RunsOf(key)) + 1
              else
                && EntryOf(key) == was && RunsOf(key) == old(RunsOf(key))
                && d == (if was.fingerprint != fingerprint then Conflict else if was.Processing? then InProgress else Answered(was))
    {
      var was, token := EntryOf(key), RunsOf(key);
      if was.Absent? {
        d := Acquired(token);
        entries, acquired := entries[key := Processing(fingerprint, token)], acquired[key := token + 1];
      } else if was.fingerprint != fingerprint {
        d := Conflict;
      } else if was.Processing? {
        d := InProgress;
      } else {
        d := Answered(was);
      }
    }

    /** Complete and Fail: only the owner of a key in processing may store its answer. */
    method Store(key: string, token: nat, answer: Entry) returns (ok: bool)
      modifies this
      ensures OthersKept(key, old(entries), old(acquired)) && RunsOf(key) == old(RunsOf(key))
      ensures ok <==> old(EntryOf(key)).Processing? && old(EntryOf(key)).owner == token
      ensures EntryOf(key) == if ok then answer else old(EntryOf(key))
    {
      ok := EntryOf(key).Processing? && EntryOf(key).owner == token;
      if ok {
        entries := entries[key := answer];
      }
    }
  }

  /** What the client gets. */
  datatype Answer = ByHandler(output: Output) | ByState(reply: Reply) | Refused(status: int)

  /** What happens to a request besides the handler: whether it is guarded (it has a key, the manager is on, the method
      is POST and the path is listed), whether its body can be read, whether the manager can be reached before and
      after the handler. */
  datatype Luck = Luck(guarded: bool, readable: bool, begins: bool, persists: bool)

  /** The state of the key and the answer after one request with nobody else on its key, which has been acquired `runs`
      times before. */
  function Executed(entry: Entry, runs: nat, request: Request, output: Output, luck: Luck): (Entry, Answer) {
    if !luck.guarded then (entry, ByHandler(output))
    else if !luck.readable then (entry, Refused(400))
    else if !luck.begins then (entry, Refused(503))
    else if entry.Absent? then
      var stored := Stored(request.fingerprint, runs, output);
      (if luck.persists && stored.Some? then stored.value else Processing(request.fingerprint, runs), ByHandler(output))
    else if entry.fingerprint != request.fingerprint || entry.Processing? then (entry, Refused(409))
    else (entry, ByState(Replay(entry, request.requestId)))
  }

  /** The answer, told from the request, what was known of its key and what went wrong: 400 for a body that cannot be
      read, 503 without the manager, 409 while another request runs or for a key that was used for another request; a
      stored answer otherwise, or the handler's. */
  ghost predicate Served(was: Entry, request: Request, output: Output, luck: Luck, answer: Answer) {
    var reached := luck.guarded && luck.readable && luck.begins;
    && (answer == Refused(400) <==> luck.guarded && !luck.readable)
    && (answer == Refused(503) <==> luck.guarded && luck.readable && !luck.begins)
    && (answer == Refused(409) <==> reached && !was.Absent? && (was.Processing? || was.fingerprint != request.fingerprint))
    && (answer.ByHandler? <==> !luck.guarded || (reached && was.Absent?))
    && (answer.ByHandler? ==> answer.output == output)
    && (reached && was.Completed? && was.fingerprint == request.fingerprint ==>
          answer == ByState(Reply(200, was.code, was.message, was.body, request.requestId)))
    && (reached && was.Failed? && was.fingerprint == request.fingerprint ==>
          answer == ByState(Reply(was.status, was.code, was.message, None, request.requestId)))
  }

  /** And what is known of the key then: of a response below 400 its code, message and body, from 400 on its status, code
      and message, as long as it can be read and stored; otherwise it stays in processing. */
  ghost predicate Kept(was: Entry, runs: nat, request: Request, output: Output, luck: Luck, now: Entry) {
    if !(luck.guarded && luck.readable && luck.begins && was.Absent?) then now == was
    else if !luck.persists || output.Garbled? then now == Processing(request.fingerprint, runs)
    else if output.reply.status < 400
    then now == Completed(request.fingerprint, runs, output.reply.code, output.reply.message, output.reply.body)
    else now == Failed(request.fingerprint, runs, output.reply.status, output.reply.code, output.reply.message)
  }

  lemma ExecutedIs(was: Entry, runs: nat, request: Request, output: Output, luck: Luck)
    ensures var (now, answer) := Executed(was, runs, request, output, luck);
            Served(was, request, output, luck, answer) && Kept(was, runs, request, output, luck, now)
  {
  }

  /** The middleware. */
  method Execute(m: Manager, key: string, request: Request, output: Output, luck: Luck) returns (answer: Answer)
    modifies m
    ensures m.OthersKept(key, old(m.entries), old(m.acquired))
    ensures (m.EntryOf(key), answer) == Executed(old(m.EntryOf(key)), old(m.RunsOf(key)), request, output, luck)
    ensures Served(old(m.EntryOf(key)), request, output, luck, answer)
    ensures Kept(old(m.EntryOf(key)), old(m.RunsOf(key)), request, output, luck, m.EntryOf(key))
  {
    if !luck.guarded {
      return ByHandler(output);
    }
    if !luck.readable {
      return Refused(400);
    }
    if !luck.begins {
      return Refused(503);
    }
    var decision := m.Begin(key, request.fingerprint);
    match decision {
      case Answered(entry) => return ByState(Replay(entry, request.requestId));
      case InProgress => return Refused(409);
      case Conflict => return Refused(409);
      case Acquired(token) =>
        answer := ByHandler(output);
        if output.Garbled? || !luck.persists {
          return;
        }
        var p := output.reply;
        if p.status >= 400 {
          var _ := m.Store(key, token, Failed(request.fingerprint, token, p.status, p.code, p.message));
        } else {
          var _ := m.Store(key, token, Completed(request.fingerprint, token, p.code, p.message, p.body));
        }
    }
  }

  // ---------------------------------------------------------------- the middleware is a run of the protocol

  /** The acts lead from c to c'. */
  ghost predicate Leads(rs: seq<Request>, c: Config, acts: seq<Act>, c': Config)
    decreases |acts|
  {
    |c.progress| == |rs| && if acts == [] then c == c' else Enabled(rs, c, acts[0]) && Leads(rs, After(rs, c, acts[0]), acts[1..], c')
  }

  /** What the client of a request in this state has got. */
  function AnswerOf(p: Progress): Option<Answer> {
    match p
    case Finished(_, output) => Some(ByHandler(output))
    case Replayed(_, reply) => Some(ByState(reply))
    case Turned(status) => Some(Refused(status))
    case _ => None
  }

  lemma OneLeads(rs: seq<Request>, c: Config, a: Act)
    requires |c.progress| == |rs| && Enabled(rs, c, a)
    ensures |After(rs, c, a).progress| == |rs| && Leads(rs, c, [a], After(rs, c, a))
  {
    assert [a][1..] == [];
  }

  /** A request that acquires the key runs the handler and stores the answer if it can. */
  lemma AcquiringLeads(rs: seq<Request>, c: Config, r: nat, output: Output, persists: bool)
    returns (acts: seq<Act>, c': Config)
    requires Valid(rs, c) && r < |rs| && c.progress[r].Idle? && c.entry.Absent?
    requires output.Unified? ==> output.reply.requestId == rs[r].requestId
    ensures Leads(rs, c, acts, c') && |c'.progress| == |rs| && c'.progress[r] == Finished(|c.runs|, output)
    ensures c'.entry == Executed(c.entry, |c.runs|, rs[r], output, Luck(true, true, true, persists)).0
  {
    var a1, a2, a3 := Begin(r), Handle(r, output), if persists then Persist(r) else PersistFails(r);
    var c1 := After(rs, c, a1);
    var c2 := After(rs, c1, a2);
    c' := After(rs, c2, a3);
    acts := [a1, a2, a3];
    assert acts[1..] == [a2, a3] && [a2, a3][1..] == [a3];
    OneLeads(rs, c2, a3);
    assert Leads(rs, c1, [a2, a3], c');
  }

  /** One request, run alone from any state of the protocol in which it has not begun, is a run of the protocol that
      ends with the same state of the key and the same answer. So what is proved of the protocol over all
      interleavings holds of the middleware. */
  lemma ExecuteRefinesProtocol(rs: seq<Request>, c: Config, r: nat, output: Output, luck: Luck) returns (acts: seq<Act>, c': Config)
    requires Valid(rs, c) && r < |rs| && c.progress[r].Idle? && luck.guarded
    requires output.Unified? ==> output.reply.requestId == rs[r].requestId
    ensures Leads(rs, c, acts, c') && |c'.progress| == |rs|
    ensures var (entry, answer) := Executed(c.entry, |c.runs|, rs[r], output, luck);
            c'.entry == entry && AnswerOf(c'.progress[r]) == Some(answer)
  {
    if luck.readable && luck.begins && c.entry.Absent? {
      acts, c' := AcquiringLeads(rs, c, r, output, luck.persists);
    } else {
      var a := if !luck.readable then BodyFails(r) else if !luck.begins then BeginFails(r) else Begin(r);
      OneLeads(rs, c, a);
      acts, c' := [a], After(rs, c, a);
    }
  }
}
