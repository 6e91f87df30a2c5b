/** The policy snapshots of N nodes against one database: refreshes under the mutex of their node, writes, redis
    messages and ticks in any interleaving (internal/routepolicy/manager.go:38-59 and 94-125,
    internal/routepolicy/service.go:89-104). */
module SnapshotCoherence {
  import opened Basics
  import opened AuditModel
  import opened PolicyStore
  import opened PolicyLoad

  /** The content of a snapshot and where it comes from: the first SELECT of the load read generation `pol` of the
      tables, the second one generation `refs`. */
  datatype Snap = Snap(pol: nat, refs: nat, defs: seq<Definition>)

  /** Who holds the refresh mutex of a node and how far the refresh has come. */
  datatype Phase =
    | Free
    | Locked(who: nat)
    | GotPolicies(who: nat, pol: nat)
    | Loaded(who: nat, next: Snap)
    | Swapped(who: nat)
    | GotRevision(who: nat, seenAt: nat)

  /** `revision` is the stored max(updated_at); it was read from generation `readAt`. */
  datatype Node = Node(snap: Snap, revision: Time, readAt: nat, phase: Phase)

  /** What a goroutine is doing: `since` is the newest generation committed when it called RefreshSource. */
  datatype State =
    | Ready
    | Ticked(revision: Time)
    | Calling(since: nat)
    | Refreshing(since: nat)
    | Ended(since: nat, ok: bool)

  /** `wrote` is the generation the goroutine committed last, 0 if none. */
  datatype Task = Task(node: nat, wrote: nat, state: State)

  /** `hist` holds the tables after each commit; the last one is current. */
  datatype Config = Config(hist: seq<Store>, nodes: seq<Node>, tasks: seq<Task>)

  /** SELECT max(updated_at) over both tables, a function of them. */
  type Revision = Store -> Time

  datatype Act =
    | Write(t: nat, st: Store)
    | Call(t: nat)
    | TickRead(t: nat)
    | TickCompare(t: nat)
    | Acquire(t: nat)
    | ReadPolicies(t: nat)
    | ReadRefs(t: nat, defs: seq<Definition>)
    | LoadFails(t: nat)
    | Swap(t: nat)
    | ReadRevision(t: nat)
    | RevisionFails(t: nat)
    | StoreRevision(t: nat)
    | Again(t: nat)

  function Newest(c: Config): nat
    requires c.hist != []
  {
    |c.hist| - 1
  }

  ghost predicate Shows(hist: seq<Store>, s: Snap) {
    s.pol < |hist| && s.refs < |hist| && Loads(hist[s.pol].policies, hist[s.refs].policies, hist[s.refs].refs, s.defs)
  }

  predicate Shaped(c: Config) {
    c.hist != [] && forall t :: 0 <= t < |c.tasks| ==> c.tasks[t].node < |c.nodes|
  }

  function NodeOf(c: Config, t: nat): Node
    requires Shaped(c) && t < |c.tasks|
  {
    c.nodes[c.tasks[t].node]
  }

  /** Task t holds the mutex of its node. */
  predicate Holds(n: Node, t: nat) {
    !n.phase.Free? && n.phase.who == t
  }

  /** The action is the next thing its goroutine does, as far as control goes. */
  predicate Allowed(c: Config, a: Act)
    requires Shaped(c)
  {
    && a.t < |c.tasks|
    && var s, n := c.tasks[a.t].state, NodeOf(c, a.t);
       match a
       case Write(_, _) => s.Ready?
       case Call(_) => s.Ready?
       case TickRead(_) => s.Ready?
       case TickCompare(_) => s.Ticked?
       case Acquire(_) => s.Calling? && n.phase.Free?
       case ReadPolicies(_) => n.phase == Locked(a.t)
       case ReadRefs(_, _) => n.phase.GotPolicies? && n.phase.who == a.t
       case LoadFails(_) => Holds(n, a.t) && (n.phase.Locked? || n.phase.GotPolicies? || n.phase.Loaded?)
       case Swap(_) => n.phase.Loaded? && n.phase.who == a.t
       case ReadRevision(_) => n.phase == Swapped(a.t)
       case RevisionFails(_) => n.phase == Swapped(a.t)
       case StoreRevision(_) => n.phase.GotRevision? && n.phase.who == a.t
       case Again(_) => s.Ended?
  }

  /** And a load answers what the tables hold when its second SELECT runs. */
  ghost predicate Enabled(c: Config, a: Act)
    requires Shaped(c)
  {
    Allowed(c, a) && (a.ReadRefs? ==> Shows(c.hist, Snap(NodeOf(c, a.t).phase.pol, Newest(c), a.defs)))
  }

  function SetTask(c: Config, t: nat, s: State): Config
    requires t < |c.tasks|
  {
    c.(tasks := c.tasks[t := c.tasks[t].(state := s)])
  }

  function SetNode(c: Config, t: nat, n: Node): Config
    requires Shaped(c) && t < |c.tasks|
  {
    c.(nodes := c.nodes[c.tasks[t].node := n])
  }

  /** The deferred Unlock: the refresh ends and the mutex is free. */
  function Finish(c: Config, t: nat, n: Node, ok: bool): Config
    requires Shaped(c) && t < |c.tasks|
  {
    SetNode(SetTask(c, t, Ended(if c.tasks[t].state.Refreshing? then c.tasks[t].state.since else 0, ok)), t, n.(phase := Free))
  }

  function After(rev: Revision, c: Config, a: Act): Config
    requires Shaped(c) && a.t < |c.tasks|
  {
    var task, n := c.tasks[a.t], NodeOf(c, a.t);
    match a
    case Write(t, st) => Config(c.hist + [st], c.nodes, c.tasks[t := task.(wrote := |c.hist|)])
    case Call(t) => SetTask(c, t, Calling(Newest(c)))
    case TickRead(t) => SetTask(c, t, Ticked(rev(c.hist[Newest(c)])))
    case TickCompare(t) =>
      if task.state.Ticked? && task.state.revision != n.revision then SetTask(c, t, Calling(Newest(c))) else SetTask(c, t, Ready)
    case Acquire(t) =>
      SetNode(SetTask(c, t, Refreshing(if task.state.Calling? then task.state.since else 0)), t, n.(phase := Locked(t)))
    case ReadPolicies(t) => SetNode(c, t, n.(phase := GotPolicies(t, Newest(c))))
    case ReadRefs(t, defs) =>
      SetNode(c, t, n.(phase := Loaded(t, Snap(if n.phase.GotPolicies? then n.phase.pol else 0, Newest(c), defs))))
    case LoadFails(t) => Finish(c, t, n, false)
    case Swap(t) => SetNode(c, t, n.(phase := Swapped(t), snap := if n.phase.Loaded? then n.phase.next else n.snap))
    case ReadRevision(t) => SetNode(c, t, n.(phase := GotRevision(t, Newest(c))))
    case RevisionFails(t) => Finish(c, t, n, false)
    case StoreRevision(t) =>
      var k := if n.phase.GotRevision? && n.phase.seenAt < |c.hist| then n.phase.seenAt else 0;
      Finish(c, t, n.(revision := rev(c.hist[k]), readAt := k), true)
    case Again(t) => SetTask(c, t, Ready)
  }

  // ---------------------------------------------------------------- the invariant

  /** The snapshot is at least as new as generation g, in both its halves. */
  predicate Reaches(s: Snap, g: nat) {
    g <= s.pol && g <= s.refs
  }

  /** Snapshots hold what a load of their generations answers. */
  ghost predicate ContentOk(c: Config, i: nat)
    requires Shaped(c) && i < |c.nodes|
  {
    var n := c.nodes[i];
    Shows(c.hist, n.snap) && (n.phase.Loaded? ==> Shows(c.hist, n.phase.next))
  }

  /** How old they may be. */
  predicate NodeOk(rev: Revision, c: Config, i: nat)
    requires Shaped(c) && i < |c.nodes|
  {
    var n := c.nodes[i];
    && n.readAt < |c.hist| && n.revision == rev(c.hist[n.readAt])
    && (!n.phase.Free? ==> n.phase.who < |c.tasks| && c.tasks[n.phase.who].node == i && c.tasks[n.phase.who].state.Refreshing?)
    && n.snap.pol < |c.hist| && n.snap.refs < |c.hist|
    && match n.phase
       case Free => true
       case Locked(who) => true
       case GotPolicies(who, pol) => c.tasks[who].state.since <= pol < |c.hist| && n.snap.pol <= pol
       case Loaded(who, next) =>
         && next.pol < |c.hist| && next.refs < |c.hist|
         && Reaches(next, c.tasks[who].state.since) && n.snap.pol <= next.pol && n.snap.refs <= next.refs
       case Swapped(who) => Reaches(n.snap, c.tasks[who].state.since)
       case GotRevision(who, seenAt) => Reaches(n.snap, c.tasks[who].state.since) && seenAt < |c.hist|
  }

  predicate TaskOk(c: Config, t: nat)
    requires Shaped(c) && t < |c.tasks|
  {
    var task := c.tasks[t];
    && task.wrote < |c.hist|
    && match task.state
       case Calling(since) => task.wrote <= since < |c.hist|
       case Refreshing(since) => task.wrote <= since < |c.hist| && Holds(NodeOf(c, t), t)
       case Ended(since, ok) => task.wrote <= since < |c.hist| && (ok ==> Reaches(NodeOf(c, t).snap, since))
       case _ => true
  }

  ghost predicate Valid(rev: Revision, c: Config) {
    && Shaped(c)
    && (forall i :: 0 <= i < |c.nodes| ==> NodeOk(rev, c, i) && ContentOk(c, i))
    && forall t :: 0 <= t < |c.tasks| ==> TaskOk(c, t)
  }

  /** Every node has loaded its first snapshot; nothing is going on. */
  ghost predicate Initial(rev: Revision, c: Config) {
    && Shaped(c) && |c.hist| == 1
    && (forall i :: 0 <= i < |c.nodes| ==>
          Shows(c.hist, c.nodes[i].snap) && c.nodes[i].readAt == 0 && c.nodes[i].revision == rev(c.hist[0]) && c.nodes[i].phase == Free)
    && forall t :: 0 <= t < |c.tasks| ==> c.tasks[t].state == Ready && c.tasks[t].wrote == 0
  }

  ghost predicate NoOlder(c: Config, c': Config) {
    && |c'.nodes| == |c.nodes| && c.hist <= c'.hist
    && forall i :: 0 <= i < |c.nodes| ==>
         c.nodes[i].snap.pol <= c'.nodes[i].snap.pol && c.nodes[i].snap.refs <= c'.nodes[i].snap.refs
  }

  lemma StepKeepsOtherNode(rev: Revision, c: Config, a: Act, i: nat)
    requires Shaped(c) && Allowed(c, a) && i < |c.nodes| && NodeOk(rev, c, i) && i != c.tasks[a.t].node
    ensures Shaped(After(rev, c, a)) && |After(rev, c, a).nodes| == |c.nodes|
    ensures NodeOk(rev, After(rev, c, a), i) && After(rev, c, a).nodes[i] == c.nodes[i]
  {
  }

  lemma StepKeepsOwnNode(rev: Revision, c: Config, a: Act, i: nat)
    requires Shaped(c) && Allowed(c, a) && i < |c.nodes| && NodeOk(rev, c, i) && TaskOk(c, a.t) && i == c.tasks[a.t].node
    ensures Shaped(After(rev, c, a)) && |After(rev, c, a).nodes| == |c.nodes| && NodeOk(rev, After(rev, c, a), i)
  {
  }

  lemma SnapshotMoves(rev: Revision, c: Config, a: Act, i: nat)
    requires Shaped(c) && Allowed(c, a) && i < |c.nodes| && NodeOk(rev, c, i)
    ensures |After(rev, c, a).nodes| == |c.nodes|
    ensures c.nodes[i].snap.pol <= After(rev, c, a).nodes[i].snap.pol && c.nodes[i].snap.refs <= After(rev, c, a).nodes[i].snap.refs
  {
  }

  lemma ShowsGrow(hist: seq<Store>, st: Store, s: Snap)
    requires Shows(hist, s)
    ensures Shows(hist + [st], s)
  {
    assert (hist + [st])[s.pol] == hist[s.pol] && (hist + [st])[s.refs] == hist[s.refs];
  }

  lemma StepKeepsContent(rev: Revision, c: Config, a: Act, i: nat)
    requires Shaped(c) && Enabled(c, a) && i < |c.nodes| && ContentOk(c, i)
    ensures Shaped(After(rev, c, a)) && |After(rev, c, a).nodes| == |c.nodes| && ContentOk(After(rev, c, a), i)
  {
    if a.Write? {
      ShowsGrow(c.hist, a.st, c.nodes[i].snap);
      if c.nodes[i].phase.Loaded? { ShowsGrow(c.hist, a.st, c.nodes[i].phase.next); }
    }
  }

  lemma StepKeepsTask(rev: Revision, c: Config, a: Act, t: nat)
    requires Shaped(c) && Allowed(c, a) && t < |c.tasks| && TaskOk(c, t) && TaskOk(c, a.t) && NodeOk(rev, c, c.tasks[t].node)
    ensures Shaped(After(rev, c, a)) && |After(rev, c, a).tasks| == |c.tasks| && TaskOk(After(rev, c, a), t)
  {
  }

  lemma StepKeepsNodes(rev: Revision, c: Config, a: Act)
    requires Valid(rev, c) && Enabled(c, a)
    ensures var c' := After(rev, c, a);
            && Shaped(c') && |c'.nodes| == |c.nodes|
            && forall i :: 0 <= i < |c.nodes| ==>
                 && NodeOk(rev, c', i) && ContentOk(c', i)
                 && c.nodes[i].snap.pol <= c'.nodes[i].snap.pol && c.nodes[i].snap.refs <= c'.nodes[i].snap.refs
  {
    var c' := After(rev, c, a);
    assert TaskOk(c, a.t);
    forall i | 0 <= i < |c.nodes|
      ensures NodeOk(rev, c', i) && ContentOk(c', i)
      ensures c.nodes[i].snap.pol <= c'.nodes[i].snap.pol && c.nodes[i].snap.refs <= c'.nodes[i].snap.refs {
      assert NodeOk(rev, c, i);
      if i == c.tasks[a.t].node { StepKeepsOwnNode(rev, c, a, i); } else { StepKeepsOtherNode(rev, c, a, i); }
      SnapshotMoves(rev, c, a, i);
      StepKeepsContent(rev, c, a, i);
    }
  }

  lemma StepKeepsTasks(rev: Revision, c: Config, a: Act)
    requires Valid(rev, c) && Enabled(c, a)
    ensures var c' := After(rev, c, a); Shaped(c') && |c'.tasks| == |c.tasks| && forall t :: 0 <= t < |c.tasks| ==> TaskOk(c', t)
  {
    assert TaskOk(c, a.t);
    forall t | 0 <= t < |c.tasks| ensures Shaped(After(rev, c, a)) && |After(rev, c, a).tasks| == |c.tasks| && TaskOk(After(rev, c, a), t) {
      assert TaskOk(c, t) && NodeOk(rev, c, c.tasks[t].node);
      StepKeepsTask(rev, c, a, t);
    }
  }

  lemma StepKeepsValid(rev: Revision, c: Config, a: Act)
    requires Valid(rev, c) && Enabled(c, a)
    ensures Valid(rev, After(rev, c, a)) && NoOlder(c, After(rev, c, a))
  {
    StepKeepsNodes(rev, c, a);
    StepKeepsTasks(rev, c, a);
  }

  // ---------------------------------------------------------------- every run

  ghost predicate Makes(rev: Revision, c: Config, c': Config, a: Act) {
    Shaped(c) && Enabled(c, a) && c' == After(rev, c, a)
  }

  ghost predicate IsRun(rev: Revision, cs: seq<Config>, acts: seq<Act>) {
    && |cs| == |acts| + 1 && Initial(rev, cs[0])
    && forall i :: 0 <= i < |acts| ==> Makes(rev, cs[i], cs[i + 1], acts[i])
  }

  lemma InitialIsValid(rev: Revision, c: Config)
    requires Initial(rev, c)
    ensures Valid(rev, c)
  {
  }

  lemma {:induction false} RunIsValid(rev: Revision, cs: seq<Config>, acts: seq<Act>, n: nat)
    requires IsRun(rev, cs, acts) && n < |cs|
    ensures forall i :: 0 <= i <= n ==> Valid(rev, cs[i])
    ensures forall i :: 0 <= i < n ==> NoOlder(cs[i], cs[i + 1])
  {
    if n == 0 {
      InitialIsValid(rev, cs[0]);
    } else {
      RunIsValid(rev, cs, acts, n - 1);
      assert Makes(rev, cs[n - 1], cs[n - 1 + 1], acts[n - 1]);
      StepKeepsValid(rev, cs[n - 1], acts[n - 1]);
    }
  }

  lemma {:induction false} NoOlderTransitive(cs: seq<Config>, i: nat, j: nat)
    requires i <= j < |cs| && forall k :: i <= k < j ==> NoOlder(cs[k], cs[k + 1])
    ensures NoOlder(cs[i], cs[j])
    decreases j
  {
    if i < j {
      NoOlderTransitive(cs, i, j - 1);
      assert NoOlder(cs[j - 1], cs[j - 1 + 1]);
    }
  }

  /** No node's snapshot ever goes back to older policies or older references: whatever refreshes overlap, the mutex
      lets only one at a time load and replace. */
  lemma NeverGoesBack(rev: Revision, cs: seq<Config>, acts: seq<Act>, i: nat, j: nat, n: nat)
    requires IsRun(rev, cs, acts) && i <= j < |cs| && n < |cs[i].nodes|
    ensures n < |cs[j].nodes|
    ensures cs[i].nodes[n].snap.pol <= cs[j].nodes[n].snap.pol && cs[i].nodes[n].snap.refs <= cs[j].nodes[n].snap.refs
  {
    RunIsValid(rev, cs, acts, j);
    NoOlderTransitive(cs, i, j);
  }

  /** When the refresh a writer called has succeeded, from then on its node's snapshot holds what a load of tables
      with its own write or newer ones answered. */
  lemma OwnWriteIsSeen(rev: Revision, cs: seq<Config>, acts: seq<Act>, i: nat, j: nat, t: nat)
    requires IsRun(rev, cs, acts) && i <= j < |cs| && t < |cs[i].tasks| && cs[i].tasks[t].state.Ended? && cs[i].tasks[t].state.ok
    ensures cs[i].tasks[t].node < |cs[j].nodes|
    ensures var s := cs[j].nodes[cs[i].tasks[t].node].snap; Reaches(s, cs[i].tasks[t].wrote) && Shows(cs[j].hist, s)
  {
    RunIsValid(rev, cs, acts, j);
    assert TaskOk(cs[i], t);
    var n := cs[i].tasks[t].node;
    NoOlderTransitive(cs, i, j);
    assert ContentOk(cs[j], n);
  }

  /** The snapshot is what a load of the current tables answers. */
  ghost predicate UpToDate(c: Config, n: nat) {
    && c.hist != [] && n < |c.nodes|
    && var last := c.hist[|c.hist| - 1]; Loads(last.policies, last.policies, last.refs, c.nodes[n].snap.defs)
  }

  lemma Settled(rev: Revision, c: Config, c': Config, t: nat)
    requires Valid(rev, c) && Valid(rev, c') && NoOlder(c, c') && t < |c.tasks| && c.tasks[t].state.Ended? && c.tasks[t].state.ok
    requires |c'.hist| == c.tasks[t].state.since + 1
    ensures UpToDate(c', c.tasks[t].node)
  {
    var n := c.tasks[t].node;
    assert TaskOk(c, t) && ContentOk(c', n) && NodeOk(rev, c', n);
  }

  /** Once a refresh that was called after the last write has succeeded, the snapshot equals the database for as
      long as nothing is written. */
  lemma SettlesAfterLastWrite(rev: Revision, cs: seq<Config>, acts: seq<Act>, i: nat, j: nat, t: nat)
    requires IsRun(rev, cs, acts) && i <= j < |cs| && t < |cs[i].tasks| && cs[i].tasks[t].state.Ended? && cs[i].tasks[t].state.ok
    requires |cs[j].hist| == cs[i].tasks[t].state.since + 1
    ensures UpToDate(cs[j], cs[i].tasks[t].node)
  {
    RunIsValid(rev, cs, acts, j);
    NoOlderTransitive(cs, i, j);
    Settled(rev, cs[i], cs[j], t);
  }

  // ---------------------------------------------------------------- what polling sees

  /** A tick on a node that is not being refreshed calls a refresh exactly when the newest revision is not the one
      of the generation from which the stored revision was read, whatever generation the snapshot shows. */
  lemma TickNoticesIff(rev: Revision, c: Config, t: nat)
    requires Valid(rev, c) && t < |c.tasks| && c.tasks[t].state.Ready?
    ensures NodeOf(c, t).readAt < |c.hist|
    ensures var c' := After(rev, c, TickRead(t));
            && Enabled(c, TickRead(t)) && Shaped(c') && Enabled(c', TickCompare(t))
            && (After(rev, c', TickCompare(t)).tasks[t].state.Calling? <==> rev(c.hist[Newest(c)]) != rev(c.hist[NodeOf(c, t).readAt]))
            && After(rev, c', TickCompare(t)).nodes == c.nodes
  {
    assert NodeOk(rev, c, c.tasks[t].node);
  }

  ghost predicate Injective(rev: Revision, hist: seq<Store>) {
    forall i, j :: 0 <= i < j < |hist| ==> rev(hist[i]) != rev(hist[j])
  }

  /** If every write gets a revision of its own, a tick calls no refresh exactly when the stored revision was read after
      the last write. That says nothing of the snapshot, which was loaded before the revision was read. */
  lemma TickMissesIff(rev: Revision, c: Config, t: nat)
    requires Valid(rev, c) && t < |c.tasks| && c.tasks[t].state.Ready? && Injective(rev, c.hist)
    ensures After(rev, After(rev, c, TickRead(t)), TickCompare(t)).tasks[t].state.Ready? <==> NodeOf(c, t).readAt == Newest(c)
  {
    TickNoticesIff(rev, c, t);
    assert NodeOk(rev, c, c.tasks[t].node);
  }

  /** So a node whose snapshot misses writes is left alone by ticks exactly when all the writes it misses were committed
      before its revision was read: for a refresh, between its load and that reading. */
  lemma StaleIsMissedIff(rev: Revision, c: Config, t: nat)
    requires Valid(rev, c) && t < |c.tasks| && c.tasks[t].state.Ready? && Injective(rev, c.hist)
    requires !Reaches(NodeOf(c, t).snap, Newest(c))
    ensures After(rev, After(rev, c, TickRead(t)), TickCompare(t)).tasks[t].state.Ready?
            <==> forall g: nat :: !Reaches(NodeOf(c, t).snap, g) && g <= Newest(c) ==> g <= NodeOf(c, t).readAt
  {
    TickMissesIff(rev, c, t);
    assert NodeOk(rev, c, c.tasks[t].node);
  }

  /** Some run leads to c. */
  ghost predicate Reachable(rev: Revision, c: Config) {
    exists cs: seq<Config>, acts: seq<Act> :: IsRun(rev, cs, acts) && cs[|acts|] == c
  }

  lemma StartsReachable(rev: Revision, c: Config)
    requires Initial(rev, c)
    ensures Reachable(rev, c)
  {
    assert IsRun(rev, [c], []);
  }

  lemma StepReachable(rev: Revision, c: Config, a: Act)
    requires Reachable(rev, c) && Shaped(c) && Enabled(c, a)
    ensures Reachable(rev, After(rev, c, a))
  {
    var cs: seq<Config>, acts: seq<Act> :| IsRun(rev, cs, acts) && cs[|acts|] == c;
    var cs', acts' := cs + [After(rev, c, a)], acts + [a];
    forall i | 0 <= i < |acts'| ensures Makes(rev, cs'[i], cs'[i + 1], acts'[i]) {
      if i < |acts| { assert Makes(rev, cs[i], cs[i + 1], acts[i]); }
    }
    assert IsRun(rev, cs', acts');
  }

  /** Two nodes with a task each; the second one writes. */
  function Pair(hist: seq<Store>, n: Node, other: Node, s: State, wrote: nat): Config {
    Config(hist, [n, other], [Task(0, 0, s), Task(1, wrote, Ready)])
  }

  lemma StepTo(rev: Revision, c: Config, a: Act, c': Config)
    requires Reachable(rev, c) && Shaped(c) && Enabled(c, a) && c' == After(rev, c, a)
    ensures Reachable(rev, c')
  {
    StepReachable(rev, c, a);
  }

  lemma Locks(rev: Revision, st: Store, n: Node)
    requires Shows([st], n.snap) && n.revision == rev(st) && n.readAt == 0 && n.phase.Free?
    ensures Reachable(rev, Pair([st], n.(phase := Locked(0)), n, Refreshing(0), 0))
  {
    StartsReachable(rev, Pair([st], n, n, Ready, 0));
    StepTo(rev, Pair([st], n, n, Ready, 0), Call(0), Pair([st], n, n, Calling(0), 0));
    StepTo(rev, Pair([st], n, n, Calling(0), 0), Acquire(0), Pair([st], n.(phase := Locked(0)), n, Refreshing(0), 0));
  }

  lemma Reloads(rev: Revision, st: Store, n: Node)
    requires Shows([st], n.snap) && n.snap.pol == n.snap.refs == 0
    requires Reachable(rev, Pair([st], n.(phase := Locked(0)), n, Refreshing(0), 0))
    ensures Reachable(rev, Pair([st], n.(phase := Loaded(0, n.snap)), n, Refreshing(0), 0))
  {
    StepTo(rev, Pair([st], n.(phase := Locked(0)), n, Refreshing(0), 0), ReadPolicies(0),
           Pair([st], n.(phase := GotPolicies(0, 0)), n, Refreshing(0), 0));
    StepTo(rev, Pair([st], n.(phase := GotPolicies(0, 0)), n, Refreshing(0), 0), ReadRefs(0, n.snap.defs),
           Pair([st], n.(phase := Loaded(0, n.snap)), n, Refreshing(0), 0));
  }

  lemma WritesThen(rev: Revision, st: Store, st': Store, n: Node)
    requires Reachable(rev, Pair([st], n.(phase := Loaded(0, n.snap)), n, Refreshing(0), 0))
    ensures Reachable(rev, Pair([st, st'], n.(phase := Swapped(0)), n, Refreshing(0), 1))
  {
    StepTo(rev, Pair([st], n.(phase := Loaded(0, n.snap)), n, Refreshing(0), 0), Swap(0), Pair([st], n.(phase := Swapped(0)), n, Refreshing(0), 0));
    StepTo(rev, Pair([st], n.(phase := Swapped(0)), n, Refreshing(0), 0), Write(1, st'), Pair([st, st'], n.(phase := Swapped(0)), n, Refreshing(0), 1));
  }

  lemma StoresRevision(rev: Revision, st: Store, st': Store, n: Node)
    requires Reachable(rev, Pair([st, st'], n.(phase := Swapped(0)), n, Refreshing(0), 1))
    ensures Reachable(rev, Pair([st, st'], Node(n.snap, rev(st'), 1, Free), n, Ended(0, true), 1))
  {
    StepTo(rev, Pair([st, st'], n.(phase := Swapped(0)), n, Refreshing(0), 1), ReadRevision(0),
           Pair([st, st'], n.(phase := GotRevision(0, 1)), n, Refreshing(0), 1));
    StepTo(rev, Pair([st, st'], n.(phase := GotRevision(0, 1)), n, Refreshing(0), 1), StoreRevision(0),
           Pair([st, st'], Node(n.snap, rev(st'), 1, Free), n, Ended(0, true), 1));
  }

  lemma StartsOver(rev: Revision, st: Store, st': Store, n: Node)
    requires Reachable(rev, Pair([st, st'], Node(n.snap, rev(st'), 1, Free), n, Ended(0, true), 1))
    ensures Reachable(rev, Pair([st, st'], Node(n.snap, rev(st'), 1, Free), n, Ready, 1))
  {
    StepTo(rev, Pair([st, st'], Node(n.snap, rev(st'), 1, Free), n, Ended(0, true), 1), Again(0),
           Pair([st, st'], Node(n.snap, rev(st'), 1, Free), n, Ready, 1));
  }

  lemma TickStands(rev: Revision, st: Store, st': Store, n: Node)
    ensures var c := Pair([st, st'], Node(n.snap, rev(st'), 1, Free), n, Ready, 1);
            Shaped(c) && Shaped(After(rev, c, TickRead(0))) && After(rev, After(rev, c, TickRead(0)), TickCompare(0)) == c
  {
    var c := Pair([st, st'], Node(n.snap, rev(st'), 1, Free), n, Ready, 1);
    assert After(rev, c, TickRead(0)) == Pair([st, st'], Node(n.snap, rev(st'), 1, Free), n, Ticked(rev(st')), 1);
  }

  /** The witness: node 1 commits a write between the Reload and the Revision of node 0's refresh, and no message
      arrives. Node 0 ends with the snapshot of before the write and the revision of after it, and a tick changes
      nothing. */
  lemma WriteBetweenReloadAndRevision(rev: Revision, before: Store, after: Store, defs: seq<Definition>) returns (c: Config)
    requires Loads(before.policies, before.policies, before.refs, defs)
    ensures Reachable(rev, c) && Shaped(c) && c.hist == [before, after] && |c.nodes| == 2 && |c.tasks| == 2
    ensures c.nodes[0] == Node(Snap(0, 0, defs), rev(after), 1, Free)
    ensures After(rev, After(rev, c, TickRead(0)), TickCompare(0)) == c
  {
    var n := Node(Snap(0, 0, defs), rev(before), 0, Free);
    Locks(rev, before, n);
    Reloads(rev, before, n);
    WritesThen(rev, before, after, n);
    StoresRevision(rev, before, after, n);
    StartsOver(rev, before, after, n);
    c := Pair([before, after], Node(n.snap, rev(after), 1, Free), n, Ready, 1);
    TickStands(rev, before, after, n);
  }
}
