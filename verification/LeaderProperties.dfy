/** What leader election guarantees over whole runs: exclusive locks, when the loop bodies
    exclude each other, takeover, and the size the connection pool needs. */
module LeaderProperties {
  import opened Basics
  import opened LeaderElection

  lemma StepKeepsInv(c: Config, st: State, step: Step)
    requires Inv(c, st) && Enabled(c, st, step)
    ensures Inv(c, Apply(c, st, step))
  {
    StepKeepsSessionsKnown(c, st, step);
    StepKeepsTasksKnown(c, st, step);
    StepKeepsConnections(c, st, step);
    StepKeepsHeldOnce(c, st, step);
    StepLosesNoConnection(c, st, step);
    StepKeepsPoolsBounded(c, st, step);
    StepKeepsLocksLive(c, st, step);
    StepKeepsLocksExclusive(c, st, step);
    StepKeepsOwners(c, st, step);
  }

  lemma {:induction false} RunKeepsInv(c: Config, st: State, run: seq<Step>)
    requires Inv(c, st) && Exec(c, st, run).Some?
    ensures Inv(c, Exec(c, st, run).value)
    decreases |run|
  {
    if run == [] {
    } else {
      StepKeepsInv(c, st, run[0]);
      RunKeepsInv(c, Apply(c, st, run[0]), run[1..]);
    }
  }

  lemma ReachableInv(c: Config, st: State)
    requires c.Valid() && Reachable(c, st)
    ensures Inv(c, st)
  {
    var run :| Exec(c, INIT, run) == Some(st);
    forall i ensures Conns(INIT, i) == {} {}
    RunKeepsInv(c, INIT, run);
  }

  /** In every reachable state a lock key has at most one session, and that session is live. */
  lemma LocksAreExclusive(c: Config, st: State, k: Key, s: Session, s': Session)
    requires c.Valid() && Reachable(c, st)
    requires (s, k) in st.locks && (s', k) in st.locks
    ensures s == s' && s in st.live
  {
    ReachableInv(c, st);
  }

  // ------------------------------------------------------- exclusion of the bodies

  /** Two tasks inside a body under one key: at most one of them still has its session. */
  lemma OverlapNeedsLostSession(c: Config, st: State, t: Task, u: Task)
    requires c.Valid() && Reachable(c, st) && t != u
    requires t in st.phase && u in st.phase && st.phase[t].Leading? && st.phase[u].Leading?
    requires c.KeyOf(t) == c.KeyOf(u)
    ensures st.phase[t].s !in st.live || st.phase[u].s !in st.live
  {
    ReachableInv(c, st);
  }

  /** No step of the run takes a session away from a task that is leading on it. */
  ghost predicate KeepsLeaderSessions(c: Config, st: State, run: seq<Step>)
    decreases |run|
  {
    run == [] ||
    (&& Enabled(c, st, run[0])
     && !(run[0].LoseSession? && exists t :: t in st.phase && st.phase[t].Owns() && st.phase[t].s == run[0].lost)
     && KeepsLeaderSessions(c, Apply(c, st, run[0]), run[1..]))
  }

  ghost predicate OwnersLive(st: State) {
    forall t :: t in st.phase && st.phase[t].Owns() ==> st.phase[t].s in st.live
  }

  lemma StepKeepsOwnersLive(c: Config, st: State, step: Step)
    requires Inv(c, st) && OwnersLive(st) && KeepsLeaderSessions(c, st, [step])
    ensures OwnersLive(Apply(c, st, step))
  {
  }

  lemma {:induction false} OwnersStayLive(c: Config, st: State, run: seq<Step>)
    requires Inv(c, st) && OwnersLive(st) && KeepsLeaderSessions(c, st, run)
    ensures Exec(c, st, run).Some? && Inv(c, Exec(c, st, run).value) && OwnersLive(Exec(c, st, run).value)
    decreases |run|
  {
    if run == [] {
    } else {
      StepKeepsInv(c, st, run[0]);
      StepKeepsOwnersLive(c, st, run[0]);
      OwnersStayLive(c, Apply(c, st, run[0]), run[1..]);
    }
  }

  /** A run that never takes a leader's session away never has two tasks in a body under one key. */
  lemma BodiesExclude(c: Config, run: seq<Step>, t: Task, u: Task)
    requires c.Valid() && KeepsLeaderSessions(c, INIT, run)
    ensures Exec(c, INIT, run).Some?
    ensures var st := Exec(c, INIT, run).value;
            t in st.phase && u in st.phase && st.phase[t].Leading? && st.phase[u].Leading? && c.KeyOf(t) == c.KeyOf(u)
            ==> t == u
  {
    forall i ensures Conns(INIT, i) == {} {}
    OwnersStayLive(c, INIT, run);
  }

  /** Without that assumption exclusion fails, for every configuration and every loop. */
  lemma LostSessionGivesTwoLeaders(c: Config, name: string) returns (run: seq<Step>, st: State)
    requires c.Valid() && name in c.names
    ensures Exec(c, INIT, run) == Some(st)
    ensures var t, u := Task(0, name), Task(1, name);
            t in st.phase && u in st.phase && st.phase[t].Leading? && st.phase[u].Leading?
    ensures forall step :: step in run ==> !step.UnlockFails? && !step.Crash?
  {
    var t, u := Task(0, name), Task(1, name);
    var f;
    run, f := LeaderAndRival(c, name);
    var g := Apply(c, f, LoseSession(0));
    run := ThenStep(c, run, f, LoseSession(0));
    assert g.locks == map[];
    st := WinAlone(c, g, u);
    run := ThenStep(c, run, g, Try(u));
  }

  /** One instance leads a loop while a second one is about to try for it. */
  lemma LeaderAndRival(c: Config, name: string) returns (run: seq<Step>, st: State)
    requires c.Valid() && name in c.names
    ensures Exec(c, INIT, run) == Some(st)
    ensures Task(0, name) in st.phase && st.phase[Task(0, name)] == Leading(0)
    ensures Task(1, name) in st.phase && st.phase[Task(1, name)] == Connected(1)
    ensures st.live == {0, 1} && st.locks == map[(0, c.key(name)) := 1]
    ensures forall step :: step in run ==> !step.UnlockFails? && !step.Crash?
  {
    var e;
    run, e := LoneLeader(c, name);
    assert Conns(e, 1) == {};
    st := FillOne(c, e, Task(1, name), 1);
    run := ThenStep(c, run, e, Checkout(Task(1, name), 1));
  }

  /** One instance leads a loop while a second one, with an empty pool, is about to try. */
  lemma LoneLeader(c: Config, name: string) returns (run: seq<Step>, st: State)
    requires c.Valid() && name in c.names
    ensures Exec(c, INIT, run) == Some(st)
    ensures Task(0, name) in st.phase && st.phase[Task(0, name)] == Leading(0)
    ensures Task(1, name) in st.phase && st.phase[Task(1, name)] == Waiting
    ensures st.up == {0, 1} && st.pool == map[0 := 0] && st.idle == {} && st.live == st.used == {0}
    ensures st.locks == map[(0, c.key(name)) := 1]
    ensures forall step :: step in run ==> !step.UnlockFails? && !step.Crash?
  {
    var t := Task(0, name);
    var b, d;
    run, b := TwoInstances(c);
    assert Conns(b, 0) == {};
    d := FillOne(c, b, t, 0);
    run := ThenStep(c, run, b, Checkout(t, 0));
    st := WinAlone(c, d, t);
    run := ThenStep(c, run, d, Try(t));
  }

  lemma WinAlone(c: Config, d: State, t: Task) returns (st: State)
    requires t in d.phase && d.phase[t].Connected? && d.phase[t].s in d.live && d.locks == map[]
    ensures st == Apply(c, d, Try(t))
    ensures st == d.(phase := d.phase[t := Leading(d.phase[t].s)], locks := map[(d.phase[t].s, c.KeyOf(t)) := 1])
  {
    st := Apply(c, d, Try(t));
  }

  lemma TwoInstances(c: Config) returns (run: seq<Step>, st: State)
    ensures Exec(c, INIT, run) == Some(st)
    ensures forall n :: n in c.names ==> Task(0, n) in st.phase && st.phase[Task(0, n)] == Waiting
    ensures forall n :: n in c.names ==> Task(1, n) in st.phase && st.phase[Task(1, n)] == Waiting
    ensures st == INIT.(up := {0, 1}, phase := st.phase)
    ensures forall step :: step in run ==> step.Start?
  {
    var a := Apply(c, INIT, Start(0));
    st := Apply(c, a, Start(1));
    assert st.up == {0, 1};
    run := ThenStep(c, [], INIT, Start(0));
    run := ThenStep(c, run, a, Start(1));
  }

  lemma ThenStep(c: Config, run: seq<Step>, mid: State, step: Step) returns (longer: seq<Step>)
    requires Exec(c, INIT, run) == Some(mid) && Enabled(c, mid, step)
    ensures longer == run + [step] && Exec(c, INIT, longer) == Some(Apply(c, mid, step))
  {
    longer := run + [step];
    ExecAppend(c, INIT, run, [step]);
    assert Exec(c, mid, [step]) == Exec(c, Apply(c, mid, step), []);
  }

  lemma {:induction false} ExecSteps(c: Config, run: seq<Step>, states: seq<State>)
    requires |states| == |run| + 1
    requires forall i :: 0 <= i < |run| ==> Enabled(c, states[i], run[i]) && states[i + 1] == Apply(c, states[i], run[i])
    ensures Exec(c, states[0], run) == Some(states[|run|])
    decreases |run|
  {
    if run == [] {
    } else {
      ExecSteps(c, run[1..], states[1..]);
    }
  }

  // ------------------------------------------------------------------ takeover

  ghost predicate NoUnlockFails(run: seq<Step>) {
    forall step :: step in run ==> !step.UnlockFails?
  }

  ghost predicate HasOwner(c: Config, st: State, s: Session, k: Key) {
    exists t :: t in st.phase && st.phase[t].Owns() && st.phase[t].s == s && c.KeyOf(t) == k
  }

  ghost predicate HasLiveOwner(c: Config, st: State, k: Key) {
    exists u :: u in st.phase && st.phase[u].Owns() && c.KeyOf(u) == k && st.phase[u].s in st.live
  }

  /** The session has the key, and no task knows of it. */
  ghost predicate Orphaned(c: Config, st: State, s: Session, k: Key) {
    (s, k) in st.locks && !HasOwner(c, st, s, k)
  }

  ghost predicate OrphanElsewhere(c: Config, st: State, s: Session, k: Key) {
    exists r :: r != s && Orphaned(c, st, r, k)
  }

  /** Exactly when a retry wins: no task under that key owns it with a living session, and no other
      session has kept it for nobody. */
  lemma RetryWinsExactly(c: Config, st: State, t: Task)
    requires c.Valid() && Reachable(c, st)
    requires t in st.phase && st.phase[t].Connected? && st.phase[t].s in st.live
    ensures Apply(c, st, Try(t)).phase[t].Leading? <==>
            !HasLiveOwner(c, st, c.KeyOf(t)) && !OrphanElsewhere(c, st, st.phase[t].s, c.KeyOf(t))
  {
    ReachableInv(c, st);
    GrantedExactly(c, st, t);
  }

  lemma GrantedExactly(c: Config, st: State, t: Task)
    requires Inv(c, st) && t in st.phase && st.phase[t].Connected? && st.phase[t].s in st.live
    ensures Grants(st, st.phase[t].s, c.KeyOf(t)) <==>
            !HasLiveOwner(c, st, c.KeyOf(t)) && !OrphanElsewhere(c, st, st.phase[t].s, c.KeyOf(t))
  {
    var s, k := st.phase[t].s, c.KeyOf(t);
    if !Grants(st, s, k) {
      var p :| p in st.locks && p.1 == k && p.0 != s;
      if HasOwner(c, st, p.0, k) {
        assert HasLiveOwner(c, st, k);
      } else {
        assert Orphaned(c, st, p.0, k);
      }
    }
  }

  // ----------------------------------------- only a failed unlock leaves a lock to nobody

  /** The sessions on which an unlock of this key failed. */
  ghost function FailedOn(c: Config, st: State, run: seq<Step>, k: Key): set<Session>
    decreases |run|
  {
    if run == [] || !Enabled(c, st, run[0]) then {}
    else
      (if run[0].UnlockFails? && c.KeyOf(run[0].t) == k then {st.phase[run[0].t].s} else {})
      + FailedOn(c, Apply(c, st, run[0]), run[1..], k)
  }

  /** Every lock on the key is taken once, by a task that knows of it, but for these sessions. */
  ghost predicate OwnedBut(c: Config, st: State, k: Key, failed: set<Session>) {
    forall s :: (s, k) in st.locks && s !in failed ==> st.locks[(s, k)] == 1 && HasOwner(c, st, s, k)
  }

  lemma TakenOnce(c: Config, st: State, step: Step, k: Key, failed: set<Session>, s: Session)
    requires ConnectionsHeldOnce(st) && Enabled(c, st, step) && OwnedBut(c, st, k, failed)
    requires (s, k) in Apply(c, st, step).locks && s !in failed
    ensures Apply(c, st, step).locks[(s, k)] == 1
  {
    if (s, k) in st.locks {
      var t :| t in st.phase && st.phase[t].Owns() && st.phase[t].s == s && c.KeyOf(t) == k;
    }
  }

  lemma OwnerStays(c: Config, st: State, step: Step, s: Session, t: Task)
    requires SessionsKnown(st) && ConnectionsOfOwnPool(st) && Enabled(c, st, step) && step != UnlockFails(t)
    requires (s, c.KeyOf(t)) in st.locks && st.locks[(s, c.KeyOf(t))] == 1 && (s, c.KeyOf(t)) in Apply(c, st, step).locks
    requires t in st.phase && st.phase[t].Owns() && st.phase[t].s == s
    ensures var st' := Apply(c, st, step); t in st'.phase && st'.phase[t].Owns() && st'.phase[t].s == s
  {
  }

  lemma StepKeepsOwned(c: Config, st: State, step: Step, k: Key, failed: set<Session>)
    requires Inv(c, st) && Enabled(c, st, step) && OwnedBut(c, st, k, failed)
    requires step.UnlockFails? && c.KeyOf(step.t) == k ==> st.phase[step.t].s in failed
    ensures OwnedBut(c, Apply(c, st, step), k, failed)
  {
    var st' := Apply(c, st, step);
    forall s | (s, k) in st'.locks && s !in failed ensures st'.locks[(s, k)] == 1 && HasOwner(c, st', s, k) {
      TakenOnce(c, st, step, k, failed, s);
      if (s, k) in st.locks {
        var t :| t in st.phase && st.phase[t].Owns() && st.phase[t].s == s && c.KeyOf(t) == k;
        OwnerStays(c, st, step, s, t);
      } else {
        assert step.Try? && st'.phase[step.t].Owns();
      }
    }
  }

  lemma {:induction false} RunKeepsOwned(c: Config, st: State, run: seq<Step>, k: Key, failed: set<Session>)
    requires Inv(c, st) && Exec(c, st, run).Some? && OwnedBut(c, st, k, failed) && FailedOn(c, st, run, k) <= failed
    ensures OwnedBut(c, Exec(c, st, run).value, k, failed)
    decreases |run|
  {
    hide Inv, Apply;
    if run == [] {
    } else {
      StepKeepsInv(c, st, run[0]);
      StepKeepsOwned(c, st, run[0], k, failed);
      RunKeepsOwned(c, Apply(c, st, run[0]), run[1..], k, failed);
    }
  }

  /** A session that keeps a key for nobody is live, and one on which an unlock of that key failed. */
  lemma OrphansAreFailedUnlocks(c: Config, run: seq<Step>, st: State, s: Session, k: Key)
    requires c.Valid() && Exec(c, INIT, run) == Some(st) && Orphaned(c, st, s, k)
    ensures s in FailedOn(c, INIT, run, k) && s in st.live
  {
    forall i ensures Conns(INIT, i) == {} {}
    RunKeepsOwned(c, INIT, run, k, FailedOn(c, INIT, run, k));
    RunKeepsInv(c, INIT, run);
  }

  lemma {:induction false} NoneFailed(c: Config, st: State, run: seq<Step>, k: Key)
    requires NoUnlockFails(run)
    ensures FailedOn(c, st, run, k) == {}
    decreases |run|
  {
    if run == [] || !Enabled(c, st, run[0]) {
    } else {
      NoneFailed(c, Apply(c, st, run[0]), run[1..], k);
    }
  }

  /** A failed unlock on a session that stays alive does keep every other instance out, for good while
      it lives: nobody runs the loop, and a working try for it does not win. */
  lemma FailedUnlockBlocks(c: Config, name: string) returns (run: seq<Step>, st: State)
    requires c.Valid() && name in c.names
    ensures Exec(c, INIT, run) == Some(st) && !HasLiveOwner(c, st, c.key(name)) && Orphaned(c, st, 0, c.key(name))
    ensures ReadyFor(c, st, Task(1, name), c.key(name)) && !Apply(c, st, Try(Task(1, name))).phase[Task(1, name)].Leading?
  {
    var t, u := Task(0, name), Task(1, name);
    var f;
    run, f := LeaderAndRival(c, name);
    var g := Apply(c, f, EndBody(t));
    run := ThenStep(c, run, f, EndBody(t));
    st := Apply(c, g, UnlockFails(t));
    run := ThenStep(c, run, g, UnlockFails(t));
    NobodyOwns(c, run, st, name);
    assert OrphanElsewhere(c, st, 1, c.key(name));
    RetryWinsExactly(c, st, u);
  }

  lemma NobodyOwns(c: Config, run: seq<Step>, st: State, name: string)
    requires c.Valid() && Exec(c, INIT, run) == Some(st) && st.locks.Keys == {(0, c.key(name))}
    requires Task(0, name) in st.phase && st.phase[Task(0, name)] == Returning(0, false)
    ensures !HasLiveOwner(c, st, c.key(name)) && Orphaned(c, st, 0, c.key(name)) && Reachable(c, st)
  {
    ReachableInv(c, st);
  }

  /** A task about to try for key `k` on a working connection. */
  ghost predicate ReadyFor(c: Config, st: State, u: Task, k: Key) {
    u in st.phase && st.phase[u].Connected? && st.phase[u].s in st.live && c.KeyOf(u) == k
  }

  // ------------------------------------------------------ how often a session has a key

  function LockCount(st: State, s: Session, k: Key): nat {
    if (s, k) in st.locks then st.locks[(s, k)] else 0
  }

  ghost function OwnerCount(c: Config, st: State, s: Session, k: Key): nat {
    if HasOwner(c, st, s, k) then 1 else 0
  }

  /** How many unlocks of the key failed on the session. */
  ghost function FailCount(c: Config, st: State, run: seq<Step>, s: Session, k: Key): nat
    decreases |run|
  {
    if run == [] || !Enabled(c, st, run[0]) then 0
    else FailsHere(c, st, run[0], s, k) + FailCount(c, Apply(c, st, run[0]), run[1..], s, k)
  }

  ghost function FailsHere(c: Config, st: State, step: Step, s: Session, k: Key): nat
    requires Enabled(c, st, step)
  {
    if step.UnlockFails? && c.KeyOf(step.t) == k && st.phase[step.t].s == s then 1 else 0
  }

  /** The session is live, or has not been opened yet. */
  predicate NotLost(st: State, s: Session) {
    s in st.live || s !in st.used
  }

  lemma StepKeepsLost(c: Config, st: State, step: Step, s: Session)
    requires SessionsKnown(st) && Enabled(c, st, step) && NotLost(Apply(c, st, step), s)
    ensures NotLost(st, s)
  {
  }

  lemma OwnersAfter(c: Config, st: State, step: Step, s: Session, k: Key)
    requires SessionsKnown(st) && ConnectionsOfOwnPool(st) && ConnectionsHeldOnce(st) && Enabled(c, st, step) && NotLost(Apply(c, st, step), s)
    ensures var st' := Apply(c, st, step);
            var taken := step.Try? && st.phase[step.t].s == s && c.KeyOf(step.t) == k && Grants(st, s, k);
            var over := (step.Unlock? || step.UnlockFails?) && st.phase[step.t].s == s && c.KeyOf(step.t) == k;
            && (taken ==> !HasOwner(c, st, s, k) && HasOwner(c, st', s, k))
            && (over ==> HasOwner(c, st, s, k) && !HasOwner(c, st', s, k))
            && (!taken && !over ==> (HasOwner(c, st', s, k) <==> HasOwner(c, st, s, k)))
  {
  }

  ghost predicate LocksTaken(st: State) {
    forall p :: p in st.locks ==> st.locks[p] >= 1
  }

  lemma StepKeepsLocksTaken(c: Config, st: State, step: Step)
    requires LocksTaken(st) && Enabled(c, st, step)
    ensures LocksTaken(Apply(c, st, step))
  {
  }

  lemma StepCounts(c: Config, st: State, step: Step, s: Session, k: Key)
    requires Inv(c, st) && LocksTaken(st) && Enabled(c, st, step) && NotLost(Apply(c, st, step), s)
    ensures var st' := Apply(c, st, step);
            LockCount(st', s, k) + OwnerCount(c, st, s, k) ==
            LockCount(st, s, k) + OwnerCount(c, st', s, k) + FailsHere(c, st, step, s, k)
  {
    OwnersAfter(c, st, step, s, k);
    if step.Unlock? && st.phase[step.t].s == s && c.KeyOf(step.t) == k {
      assert (s, k) in st.locks;
    }
  }

  lemma {:induction false} RunCounts(c: Config, st: State, run: seq<Step>, s: Session, k: Key)
    requires Inv(c, st) && LocksTaken(st) && Exec(c, st, run).Some? && NotLost(Exec(c, st, run).value, s)
    ensures NotLost(st, s)
    ensures var end := Exec(c, st, run).value;
            LockCount(end, s, k) + OwnerCount(c, st, s, k) ==
            LockCount(st, s, k) + OwnerCount(c, end, s, k) + FailCount(c, st, run, s, k)
    decreases |run|
  {
    hide Inv, Apply;
    if run == [] {
    } else {
      StepKeepsInv(c, st, run[0]);
      StepKeepsLocksTaken(c, st, run[0]);
      RunCounts(c, Apply(c, st, run[0]), run[1..], s, k);
      StepKeepsLostInv(c, st, run[0], s);
      StepCounts(c, st, run[0], s, k);
    }
  }

  lemma StepKeepsLostInv(c: Config, st: State, step: Step, s: Session)
    requires Inv(c, st) && Enabled(c, st, step) && NotLost(Apply(c, st, step), s)
    ensures NotLost(st, s)
  {
    StepKeepsLost(c, st, step, s);
  }

  /** Locks are reentrant: a live session has a key as often as an unlock of it failed there, and once more
      while a task owns it. Each failure has to be made up for by one more unlock. */
  lemma LocksCountFailures(c: Config, run: seq<Step>, st: State, s: Session, k: Key)
    requires c.Valid() && Exec(c, INIT, run) == Some(st) && s in st.live
    ensures LockCount(st, s, k) == FailCount(c, INIT, run, s, k) + OwnerCount(c, st, s, k)
  {
    forall i ensures Conns(INIT, i) == {} {}
    RunCounts(c, INIT, run, s, k);
  }

  datatype Departure = Returns | Dies | LosesSession

  /** The steps by which a leader stops being one. */
  function DepartureSteps(st: State, t: Task, how: Departure): seq<Step>
    requires t in st.phase && st.phase[t].Leading?
  {
    match how
    case Returns => [EndBody(t), Unlock(t)]
    case Dies => [Crash(t.inst)]
    case LosesSession => [LoseSession(st.phase[t].s)]
  }

  /** A try for the key that gets it. */
  ghost predicate Wins(c: Config, st: State, step: Step, k: Key)
    requires Enabled(c, st, step)
  {
    step.Try? && c.KeyOf(step.t) == k && Grants(st, st.phase[step.t].s, k)
  }

  ghost predicate NobodyWins(c: Config, st: State, run: seq<Step>, k: Key)
    decreases |run|
  {
    run == [] || (Enabled(c, st, run[0]) && !Wins(c, st, run[0], k) && NobodyWins(c, Apply(c, st, run[0]), run[1..], k))
  }

  lemma FreeUntilAWin(c: Config, st: State, step: Step, k: Key)
    requires SessionsKnown(st) && ConnectionsOfOwnPool(st) && Enabled(c, st, step)
    requires !HasLiveOwner(c, st, k) && !Wins(c, st, step, k)
    ensures !HasLiveOwner(c, Apply(c, st, step), k)
  {
  }

  lemma {:induction false} StaysFree(c: Config, st: State, run: seq<Step>, k: Key)
    requires Inv(c, st) && !HasLiveOwner(c, st, k) && NobodyWins(c, st, run, k)
    ensures Exec(c, st, run).Some? && !HasLiveOwner(c, Exec(c, st, run).value, k)
    decreases |run|
  {
    hide Apply;
    if run == [] {
    } else {
      StepKeepsInv(c, st, run[0]);
      FreeUntilAWin(c, st, run[0], k);
      StaysFree(c, Apply(c, st, run[0]), run[1..], k);
    }
  }

  /** A reachable state in which no live session has the key for a task. */
  ghost predicate FreeNow(c: Config, st: State, k: Key) {
    Reachable(c, st) && !HasLiveOwner(c, st, k)
  }

  lemma ReachableOn(c: Config, st: State, more: seq<Step>)
    requires Reachable(c, st) && Exec(c, st, more).Some?
    ensures Reachable(c, Exec(c, st, more).value)
  {
    var run :| Exec(c, INIT, run) == Some(st);
    ExecAppend(c, INIT, run, more);
  }

  lemma FreeContinues(c: Config, st: State, more: seq<Step>, k: Key)
    requires c.Valid() && FreeNow(c, st, k) && NobodyWins(c, st, more, k)
    ensures Exec(c, st, more).Some? && FreeNow(c, Exec(c, st, more).value, k)
  {
    ReachableInv(c, st);
    StaysFree(c, st, more, k);
    ReachableOn(c, st, more);
  }

  /** However a leader goes, no live session has its key for a task any more. That stays so whatever else
      happens, until a try for it wins; and the first try for it on a working connection does, unless
      another session has kept the key after a failed unlock. */
  lemma TakeoverWithinOneRetry(c: Config, st: State, t: Task, how: Departure, more: seq<Step>, u: Task)
    requires c.Valid() && Reachable(c, st)
    requires t in st.phase && st.phase[t].Leading? && st.phase[t].s in st.live
    ensures var gone := Exec(c, st, DepartureSteps(st, t, how));
            && gone.Some? && !HasLiveOwner(c, gone.value, c.KeyOf(t))
            && (NobodyWins(c, gone.value, more, c.KeyOf(t)) ==>
                  var end := Exec(c, gone.value, more);
                  && end.Some? && !HasLiveOwner(c, end.value, c.KeyOf(t))
                  && (ReadyFor(c, end.value, u, c.KeyOf(t)) ==>
                        (Apply(c, end.value, Try(u)).phase[u].Leading? <==>
                           !OrphanElsewhere(c, end.value, end.value.phase[u].s, c.KeyOf(t)))))
  {
    var steps, gone := AfterDeparture(c, st, t, how);
    var k := c.KeyOf(t);
    if NobodyWins(c, gone, more, k) {
      FreeContinues(c, gone, more, k);
      var end := Exec(c, gone, more).value;
      if ReadyFor(c, end, u, k) { RetryWinsExactly(c, end, u); }
    }
  }

  lemma AfterDeparture(c: Config, st: State, t: Task, how: Departure) returns (steps: seq<Step>, gone: State)
    requires c.Valid() && Reachable(c, st)
    requires t in st.phase && st.phase[t].Leading? && st.phase[t].s in st.live
    ensures steps == DepartureSteps(st, t, how) && Exec(c, st, steps) == Some(gone)
    ensures FreeNow(c, gone, c.KeyOf(t))
  {
    ReachableInv(c, st);
    assert forall x :: x in st.phase && st.phase[x].Owns() && c.KeyOf(x) == c.KeyOf(t) && st.phase[x].s in st.live ==> x == t;
    steps, gone := Depart(c, st, t, how);
    ReachableOn(c, st, steps);
  }

  /** Waking and taking a connection leave the locks, and who knows of them, as they are. */
  lemma CheckoutKeepsOrphans(c: Config, st: State, u: Task, s: Session, k: Key)
    requires u in st.phase && st.phase[u].Sleeping? && Enabled(c, Apply(c, st, Wake(u)), Checkout(u, s))
    ensures var ready := Apply(c, Apply(c, st, Wake(u)), Checkout(u, s));
            OrphanElsewhere(c, ready, s, k) <==> OrphanElsewhere(c, st, s, k)
  {
    var ready := Apply(c, Apply(c, st, Wake(u)), Checkout(u, s));
    forall r ensures HasOwner(c, ready, r, k) <==> HasOwner(c, st, r, k) {
      assert forall t :: t in st.phase ==> (ready.phase[t].Owns() <==> st.phase[t].Owns());
    }
    assert forall r :: Orphaned(c, ready, r, k) <==> Orphaned(c, st, r, k);
  }

  /** The ordinary standby: asleep while nobody runs its loop, it wakes, takes a connection and leads, if and
      only if that connection works and no other one has kept the key after a failed unlock. */
  lemma SleepingStandbyTakesOverExactly(c: Config, st: State, u: Task, s: Session)
    requires c.Valid() && u in st.phase && st.phase[u].Sleeping? && FreeNow(c, st, c.KeyOf(u))
    requires CanCheckout(c, st, u, s)
    ensures var end := Exec(c, st, [Wake(u), Checkout(u, s), Try(u)]);
            && end.Some? && u in end.value.phase
            && (end.value.phase[u].Leading? <==> s in end.value.live && !OrphanElsewhere(c, st, s, c.KeyOf(u)))
  {
    var woken := Apply(c, st, Wake(u));
    var ready := Apply(c, woken, Checkout(u, s));
    var end := Apply(c, ready, Try(u));
    ExecSteps(c, [Wake(u), Checkout(u, s)], [st, woken, ready]);
    ExecSteps(c, [Wake(u), Checkout(u, s), Try(u)], [st, woken, ready, end]);
    assert NobodyWins(c, ready, [], c.KeyOf(u));
    assert [Checkout(u, s)][1..] == [];
    assert NobodyWins(c, st, [Wake(u), Checkout(u, s)], c.KeyOf(u));
    FreeContinues(c, st, [Wake(u), Checkout(u, s)], c.KeyOf(u));
    CheckoutKeepsOrphans(c, st, u, s, c.KeyOf(u));
    if s in ready.live { RetryWinsExactly(c, ready, u); }
  }

  lemma Depart(c: Config, st: State, t: Task, how: Departure) returns (steps: seq<Step>, end: State)
    requires Inv(c, st) && t in st.phase && st.phase[t].Leading? && st.phase[t].s in st.live
    requires forall x :: x in st.phase && st.phase[x].Owns() && c.KeyOf(x) == c.KeyOf(t) && st.phase[x].s in st.live ==> x == t
    ensures steps == DepartureSteps(st, t, how) && Exec(c, st, steps) == Some(end)
    ensures !HasLiveOwner(c, end, c.KeyOf(t))
  {
    steps := DepartureSteps(st, t, how);
    end := Apply(c, st, steps[0]);
    var states := [st, end];
    if how.Returns? {
      end := Apply(c, end, Unlock(t));
      states := states + [end];
    }
    ExecSteps(c, steps, states);
  }

  /** Colliding names share one leader; a name whose key nobody else has wins. */
  lemma CollidingNamesShareOneLeader(c: Config, st: State, t: Task, u: Task)
    requires c.Valid() && Reachable(c, st)
    requires t in st.phase && st.phase[t].Leading? && st.phase[t].s in st.live
    requires u in st.phase && st.phase[u].Connected? && st.phase[u].s in st.live
    ensures c.KeyOf(u) == c.KeyOf(t) ==> !Apply(c, st, Try(u)).phase[u].Leading?
    ensures (forall v :: v in st.phase && st.phase[v].Owns() ==> c.KeyOf(v) != c.KeyOf(u))
            && !OrphanElsewhere(c, st, st.phase[u].s, c.KeyOf(u))
            ==> Apply(c, st, Try(u)).phase[u].Leading?
  {
    RetryWinsExactly(c, st, u);
  }

  /** A standby whose try does not win goes on retrying exactly when its connection still works:
      an error of the lock statement is not caught, so a dead pooled connection ends the task. */
  lemma StandbyKeepsRetryingExactly(c: Config, st: State, t: Task)
    requires c.Valid() && Reachable(c, st) && t in st.phase && st.phase[t].Connected?
    requires !Grants(st, st.phase[t].s, c.KeyOf(t))
    ensures var end := Exec(c, st, [Try(t), GiveBack(t)]);
            && end.Some? && t in end.value.phase
            && (end.value.phase[t].Sleeping? <==> st.phase[t].s in st.live)
            && (end.value.phase[t].Finished? <==> st.phase[t].s !in st.live)
  {
    var mid := Apply(c, st, Try(t));
    ExecSteps(c, [Try(t), GiveBack(t)], [st, mid, Apply(c, mid, GiveBack(t))]);
  }

  /** Such a task exists: the server drops the connection of a task that is about to try. */
  lemma DeadConnectionIsReachable(c: Config, name: string) returns (run: seq<Step>, st: State)
    requires c.Valid() && name in c.names
    ensures Exec(c, INIT, run) == Some(st)
    ensures Task(0, name) in st.phase && st.phase[Task(0, name)] == Connected(0) && 0 !in st.live
  {
    var t := Task(0, name);
    var b;
    run, b := TwoInstances(c);
    assert Conns(b, 0) == {};
    var d := FillOne(c, b, t, 0);
    run := ThenStep(c, run, b, Checkout(t, 0));
    st := Apply(c, d, LoseSession(0));
    run := ThenStep(c, run, d, LoseSession(0));
  }

  /** A finished task stays finished for as long as its instance runs. */
  lemma {:induction false} FinishedForGood(c: Config, st: State, run: seq<Step>, t: Task)
    requires t in st.phase && st.phase[t].Finished? && TasksKnown(c, st)
    requires Exec(c, st, run).Some? && Crash(t.inst) !in run
    ensures var end := Exec(c, st, run).value; t in end.phase && end.phase[t].Finished?
    decreases |run|
  {
    if run == [] {
    } else {
      StepKeepsTasksKnown(c, st, run[0]);
      FinishedForGood(c, Apply(c, st, run[0]), run[1..], t);
    }
  }

  /** The ways in which a task ends while its instance goes on; `unlocked` says whether the unlock after the
      body worked. */
  datatype Ending = TimesOut | BodyOver(unlocked: bool) | Cancelled

  function EndingSteps(st: State, t: Task, how: Ending): seq<Step>
    requires t in st.phase
  {
    match how
    case TimesOut => [CheckoutTimeout(t)]
    case BodyOver(unlocked) => [EndBody(t), if unlocked then Unlock(t) else UnlockFails(t), GiveBack(t)]
    case Cancelled => if st.phase[t].Connected? then [Cancel(t), GiveBack(t)] else [Cancel(t)]
  }

  /** When the task can end in that way. */
  ghost predicate CanEnd(c: Config, st: State, t: Task, how: Ending)
    requires t in st.phase
  {
    match how
    case TimesOut => st.phase[t].Waiting? && forall s :: !CanCheckout(c, st, t, s)
    case BodyOver(_) => st.phase[t].Leading?
    case Cancelled => st.phase[t].Waiting? || st.phase[t].Connected? || st.phase[t].Sleeping?
  }

  /** What an ending leaves: the task is finished, and a connection that it held is idle in the pool, or
      closed if its session is lost. */
  ghost predicate EndedAs(st: State, t: Task, end: State) {
    && t in st.phase && t in end.phase && end.phase == st.phase[t := Finished] && end.live == st.live
    && if !st.phase[t].Holds() then end.pool == st.pool && end.idle == st.idle
       else if st.phase[t].s in st.live then end.pool == st.pool && end.idle == st.idle + {st.phase[t].s}
       else end.pool == st.pool - {st.phase[t].s} && end.idle == st.idle
  }

  lemma EndingRun(c: Config, st: State, t: Task, how: Ending) returns (end: State)
    requires t in st.phase && CanEnd(c, st, t, how)
    ensures Exec(c, st, EndingSteps(st, t, how)) == Some(end) && EndedAs(st, t, end)
  {
    var steps := EndingSteps(st, t, how);
    end := Apply(c, st, steps[0]);
    var states := [st, end];
    if how.BodyOver? {
      end := Apply(c, end, steps[1]);
      states := states + [end];
    }
    if |steps| > 1 {
      end := Apply(c, end, GiveBack(t));
      states := states + [end];
    }
    ExecSteps(c, steps, states);
  }

  /** A task whose checkout times out, whose body is over, or that is cancelled, which happens exactly when it
      can, is finished for good: whatever happens next, and whether or not a connection becomes free, it does
      not lead again while its instance is up. */
  lemma EndedForGood(c: Config, st: State, t: Task, how: Ending, run: seq<Step>)
    requires TasksKnown(c, st) && t in st.phase && Crash(t.inst) !in run
    ensures var ended := Exec(c, st, EndingSteps(st, t, how));
            && (ended.Some? <==> CanEnd(c, st, t, how))
            && (ended.Some? ==> EndedAs(st, t, ended.value))
    ensures var end := Exec(c, st, EndingSteps(st, t, how) + run);
            end.Some? ==> t in end.value.phase && end.value.phase[t].Finished?
  {
    if !Enabled(c, st, EndingSteps(st, t, how)[0]) { return; }
    var ended := EndingRun(c, st, t, how);
    ExecAppend(c, st, EndingSteps(st, t, how), run);
    if Exec(c, ended, run).Some? {
      KnownAfter(c, st, EndingSteps(st, t, how));
      FinishedForGood(c, ended, run, t);
    }
  }

  lemma {:induction false} KnownAfter(c: Config, st: State, run: seq<Step>)
    requires TasksKnown(c, st) && Exec(c, st, run).Some?
    ensures TasksKnown(c, Exec(c, st, run).value)
    decreases |run|
  {
    if run == [] {
    } else {
      StepKeepsTasksKnown(c, st, run[0]);
      KnownAfter(c, Apply(c, st, run[0]), run[1..]);
    }
  }

  // ---------------------------------------------------------------- pool sizing

  ghost function HolderName(st: State, s: Session): string
    requires exists t :: t in st.phase && st.phase[t].Holds() && st.phase[t].s == s
  {
    var t :| t in st.phase && st.phase[t].Holds() && st.phase[t].s == s;
    t.name
  }

  /** With nothing idle, the connections of an instance are held by as many different tasks. */
  lemma ConnectionsWithinHolders(c: Config, st: State, i: nat, holders: set<string>)
    requires Inv(c, st) && IdleConns(st, i) == {}
    requires forall t :: t in st.phase && t.inst == i && st.phase[t].Holds() ==> t.name in holders
    ensures |Conns(st, i)| <= |holders|
  {
    assert forall s :: s in Conns(st, i) ==> s !in IdleConns(st, i);
    var f := map s | s in Conns(st, i) :: HolderName(st, s);
    forall x, y | x in Conns(st, i) && y in Conns(st, i) && f[x] == f[y] ensures x == y {
      var t :| t in st.phase && st.phase[t].Holds() && st.phase[t].s == x && t.name == f[x];
      var u :| u in st.phase && st.phase[u].Holds() && st.phase[u].s == y && u.name == f[y];
      assert t == u;
    }
    InjectionSize(Conns(st, i), holders, f);
  }

  lemma {:induction false} FreshSession(used: set<Session>) returns (s: Session)
    ensures s !in used && forall x :: x in used ==> x < s
  {
    if used == {} {
      s := 0;
    } else {
      var x :| x in used;
      var r := FreshSession(used - {x});
      s := if x < r then r else x + 1;
      assert used == (used - {x}) + {x};
    }
  }

  lemma CheckoutPossible(c: Config, st: State, t: Task)
    requires Inv(c, st) && t in st.phase && st.phase[t].Waiting? && |c.names| <= c.poolSize
    ensures exists s :: CanCheckout(c, st, t, s)
  {
    if s :| s in IdleConns(st, t.inst) {
      assert CanCheckout(c, st, t, s);
    } else {
      ConnectionsWithinHolders(c, st, t.inst, c.names - {t.name});
      var s := FreshSession(st.used);
      assert CanCheckout(c, st, t, s);
    }
  }

  /** A freshly started instance can have `k` of its tasks hold a connection each, others waiting. */
  lemma {:induction false} FillPool(c: Config, k: nat) returns (run: seq<Step>, st: State, holders: set<string>)
    requires c.Valid() && k <= c.poolSize && k <= |c.names|
    ensures Exec(c, INIT, run) == Some(st)
    ensures holders <= c.names && |holders| == k && |Conns(st, 0)| == k && st.idle == {}
    ensures forall n :: n in c.names ==>
              Task(0, n) in st.phase && (st.phase[Task(0, n)].Waiting? <==> n !in holders)
  {
    if k == 0 {
      holders := {};
      st := Apply(c, INIT, Start(0));
      run := ThenStep(c, [], INIT, Start(0));
      assert Conns(st, 0) == {};
    } else {
      var before, mid, some := FillPool(c, k - 1);
      var n := SomethingOutside(c.names, some);
      holders := some + {n};
      ReachableInv(c, mid);
      var s;
      run, st, s := CheckoutOne(c, before, mid, Task(0, n));
    }
  }

  lemma FillOne(c: Config, mid: State, t: Task, s: Session) returns (st: State)
    requires t in mid.phase && mid.phase[t].Waiting? && SessionsKnown(mid)
    requires |Conns(mid, t.inst)| < c.poolSize && mid.idle == {} && s !in mid.used
    ensures Enabled(c, mid, Checkout(t, s)) && st == Apply(c, mid, Checkout(t, s))
    ensures |Conns(st, t.inst)| == |Conns(mid, t.inst)| + 1
    ensures st == State(mid.up, mid.phase[t := Connected(s)], mid.pool[s := t.inst], {},
                        mid.live + {s}, mid.used + {s}, mid.locks)
  {
    st := Apply(c, mid, Checkout(t, s));
    assert Conns(st, t.inst) == Conns(mid, t.inst) + {s};
  }

  /** A checkout never has to wait, in any reachable state, exactly when the pool has one
      connection per loop. */
  lemma CheckoutNeverWaitsExactly(c: Config)
    requires c.Valid()
    ensures (forall st, t :: Reachable(c, st) && t in st.phase && st.phase[t].Waiting?
               ==> exists s :: CanCheckout(c, st, t, s))
            <==> |c.names| <= c.poolSize
  {
    if |c.names| <= c.poolSize {
      forall st, t | Reachable(c, st) && t in st.phase && st.phase[t].Waiting?
        ensures exists s :: CanCheckout(c, st, t, s)
      {
        ReachableInv(c, st);
        CheckoutPossible(c, st, t);
      }
    } else {
      var run, st, holders := FillPool(c, c.poolSize);
      var n := SomethingOutside(c.names, holders);
      var t := Task(0, n);
      assert Reachable(c, st) && st.phase[t].Waiting?;
      assert forall s :: !CanCheckout(c, st, t, s);
    }
  }

  /** No step of the run ends the body of one of these tasks or stops their instance. */
  ghost predicate LeavesLeading(run: seq<Step>, leaders: set<Task>, i: nat) {
    forall step :: step in run ==> !(step.EndBody? && step.t in leaders) && step != Crash(i)
  }

  ghost predicate AllLeading(st: State, leaders: set<Task>, i: nat) {
    forall t :: t in leaders ==> t.inst == i && t in st.phase && st.phase[t].Leading?
  }

  lemma FullPoolStarves(c: Config, st: State, leaders: set<Task>, i: nat, u: Task)
    requires Inv(c, st) && AllLeading(st, leaders, i) && |leaders| == c.poolSize
    requires u in st.phase && u.inst == i && u !in leaders
    ensures !st.phase[u].Holds() && forall s :: !CanCheckout(c, st, u, s)
  {
    var f := map t | t in leaders :: st.phase[t].s;
    var held := set t | t in leaders :: f[t];
    InjectionSize(leaders, held, f);
    assert held <= Conns(st, i);
    SameSizeSubset(held, Conns(st, i));
    forall s | s in Conns(st, i) ensures s !in st.idle && (st.phase[u].Holds() ==> st.phase[u].s != s) {
      var t :| t in leaders && f[t] == s;
    }
  }

  lemma StepKeepsAllLeading(c: Config, st: State, step: Step, leaders: set<Task>, i: nat)
    requires Inv(c, st) && Enabled(c, st, step) && AllLeading(st, leaders, i) && LeavesLeading([step], leaders, i)
    ensures AllLeading(Apply(c, st, step), leaders, i)
  {
    assert step in [step];
  }

  /** A pool that is too small starves: once every connection is held by a leader that keeps
      leading, no other loop of that instance ever runs its body, whatever else happens. */
  lemma {:induction false} ShortPoolStarves(c: Config, st: State, run: seq<Step>, leaders: set<Task>, i: nat, u: Task)
    requires c.Valid() && Inv(c, st) && Exec(c, st, run).Some?
    requires AllLeading(st, leaders, i) && |leaders| == c.poolSize && LeavesLeading(run, leaders, i)
    requires u.inst == i && u !in leaders
    ensures var end := Exec(c, st, run).value;
            AllLeading(end, leaders, i) && (u in end.phase ==> !end.phase[u].Leading?)
    decreases |run|
  {
    hide Inv, Apply;
    if run == [] {
      if u in st.phase { FullPoolStarves(c, st, leaders, i, u); }
    } else {
      var next := Apply(c, st, run[0]);
      assert run[0] in run && forall step :: step in run[1..] ==> step in run;
      StepKeepsInv(c, st, run[0]);
      StepKeepsAllLeading(c, st, run[0], leaders, i);
      ShortPoolStarves(c, next, run[1..], leaders, i, u);
    }
  }

  /** The first `k` tasks of an instance lead, each on a connection of its own, and the others wait. */
  ghost predicate PoolLed(c: Config, run: seq<Step>, st: State, leaders: set<Task>, k: nat) {
    Exec(c, INIT, run) == Some(st) && NoUnlockFails(run) && Led(c, st, leaders, k)
  }

  ghost predicate Led(c: Config, st: State, leaders: set<Task>, k: nat) {
    && AllLeading(st, leaders, 0) && |leaders| == k && |Conns(st, 0)| == k && st.idle == {}
    && (forall t :: t in st.phase && st.phase[t].Owns() ==> t in leaders)
    && (forall n :: n in c.names ==> Task(0, n) in st.phase && (Task(0, n) in leaders || st.phase[Task(0, n)].Waiting?))
  }

  lemma LedOfNames(c: Config, st: State, leaders: set<Task>) returns (name: string)
    requires TasksKnown(c, st) && AllLeading(st, leaders, 0) && |leaders| < |c.names|
    ensures name in c.names && Task(0, name) !in leaders
  {
    var f := map n | n in c.names :: Task(0, n);
    if forall n :: n in c.names ==> Task(0, n) in leaders {
      InjectionSize(c.names, leaders, f);
    }
    name :| name in c.names && Task(0, name) !in leaders;
  }

  /** With distinct keys, as many tasks of one instance as its pool has connections can lead. */
  lemma {:induction false} AllConnectionsLed(c: Config, k: nat) returns (run: seq<Step>, st: State, leaders: set<Task>)
    requires c.Valid() && k <= c.poolSize && k <= |c.names|
    requires forall m, n :: m in c.names && n in c.names && c.key(m) == c.key(n) ==> m == n
    ensures PoolLed(c, run, st, leaders, k)
  {
    if k == 0 {
      leaders := {};
      st := Apply(c, INIT, Start(0));
      run := ThenStep(c, [], INIT, Start(0));
      assert Conns(st, 0) == {};
    } else {
      run, st, leaders := AllConnectionsLed(c, k - 1);
      ReachableInv(c, st);
      var n := LedOfNames(c, st, leaders);
      run, st := OneMoreLeader(c, run, st, leaders, k - 1, Task(0, n));
      leaders := leaders + {Task(0, n)};
    }
  }

  lemma OneMoreLeader(c: Config, run: seq<Step>, st: State, leaders: set<Task>, k: nat, t: Task)
    returns (longer: seq<Step>, end: State)
    requires c.Valid() && k < c.poolSize && PoolLed(c, run, st, leaders, k) && SessionsKnown(st) && TasksKnown(c, st)
    requires t.inst == 0 && t.name in c.names && t !in leaders
    requires forall m, n :: m in c.names && n in c.names && c.key(m) == c.key(n) ==> m == n
    ensures PoolLed(c, longer, end, leaders + {t}, k + 1)
  {
    hide Inv, Apply;
    var mid, s;
    longer, mid, s := CheckoutOne(c, run, st, t);
    KeyUnowned(c, st, mid, leaders, k, t, s);
    longer, end := WinFree(c, longer, mid, t);
    LedGrows(c, st, leaders, k, t, s, end);
  }

  lemma CheckoutOne(c: Config, run: seq<Step>, st: State, t: Task) returns (longer: seq<Step>, mid: State, s: Session)
    requires Exec(c, INIT, run) == Some(st) && SessionsKnown(st) && t in st.phase && st.phase[t].Waiting?
    requires |Conns(st, t.inst)| < c.poolSize && st.idle == {}
    ensures longer == run + [Checkout(t, s)] && Exec(c, INIT, longer) == Some(mid)
    ensures mid.phase == st.phase[t := Connected(s)] && mid.idle == {} && s in mid.live
    ensures |Conns(mid, t.inst)| == |Conns(st, t.inst)| + 1
  {
    s := FreshSession(st.used);
    mid := FillOne(c, st, t, s);
    longer := ThenStep(c, run, st, Checkout(t, s));
  }

  lemma KeyUnowned(c: Config, st: State, mid: State, leaders: set<Task>, k: nat, t: Task, s: Session)
    requires Led(c, st, leaders, k) && TasksKnown(c, st) && mid.phase == st.phase[t := Connected(s)]
    requires t.inst == 0 && t.name in c.names && t !in leaders
    requires forall m, n :: m in c.names && n in c.names && c.key(m) == c.key(n) ==> m == n
    ensures !HasLiveOwner(c, mid, c.KeyOf(t))
  {
  }

  lemma LedGrows(c: Config, st: State, leaders: set<Task>, k: nat, t: Task, s: Session, end: State)
    requires Led(c, st, leaders, k) && t.inst == 0 && t !in leaders
    requires end.phase == st.phase[t := Leading(s)] && end.idle == {} && |Conns(end, 0)| == k + 1
    ensures Led(c, end, leaders + {t}, k + 1)
  {
    assert |leaders + {t}| == k + 1;
  }

  lemma WinFree(c: Config, run: seq<Step>, mid: State, t: Task) returns (longer: seq<Step>, end: State)
    requires c.Valid() && NoUnlockFails(run) && Exec(c, INIT, run) == Some(mid) && ReadyFor(c, mid, t, c.KeyOf(t))
    requires !HasLiveOwner(c, mid, c.KeyOf(t))
    ensures longer == run + [Try(t)] && Exec(c, INIT, longer) == Some(end)
    ensures end.phase == mid.phase[t := Leading(mid.phase[t].s)] && end.idle == mid.idle && Conns(end, 0) == Conns(mid, 0)
  {
    var k := c.KeyOf(t);
    NoneFailed(c, INIT, run, k);
    forall r ensures !Orphaned(c, mid, r, k) {
      if Orphaned(c, mid, r, k) { OrphansAreFailedUnlocks(c, run, mid, r, k); }
    }
    assert Reachable(c, mid);
    RetryWinsExactly(c, mid, t);
    end := Apply(c, mid, Try(t));
    longer := ThenStep(c, run, mid, Try(t));
    assert Conns(end, 0) == Conns(mid, 0);
  }

  /** So a pool that is too small does starve, from the start on: some run leaves every connection with a
      leader, and some loop without one. */
  lemma StarvationIsReachable(c: Config) returns (run: seq<Step>, st: State, leaders: set<Task>, u: Task)
    requires c.Valid() && c.poolSize < |c.names|
    requires forall m, n :: m in c.names && n in c.names && c.key(m) == c.key(n) ==> m == n
    ensures Exec(c, INIT, run) == Some(st) && Inv(c, st) && AllLeading(st, leaders, 0) && |leaders| == c.poolSize
    ensures u in st.phase && u.inst == 0 && u !in leaders && st.phase[u].Waiting?
  {
    run, st, leaders := AllConnectionsLed(c, c.poolSize);
    ReachableInv(c, st);
    var n := LedOfNames(c, st, leaders);
    u := Task(0, n);
  }

  // ------------------------------------------------------- the deployed configuration

  const LEADER_LOOP_NAMES: seq<string> := [
    "loop:weekly_reindex", "loop:retention", "loop:fleet_agents_scan", "loop:versioned_lesson_archive",
    "loop:benchmark_baseline", "loop:orphan_recovery", "loop:doc_agent_auto_trigger", "loop:failed_rq_job_sweep",
    "loop:redis_streams_drain", "loop:fleet_success_rate_sync", "loop:prompt_auto_rollback",
    "loop:agents_score_compute", "loop:tools_score_compute", "loop:prompts_score_compute",
    "loop:enhancement_quality_monitor", "loop:dependency_auto_dispatch", "loop:alert_outbox",
    "loop:agent_historical_performance_rollup", "loop:documentation_score_compute",
    "loop:memory_embeddings_consolidation", "loop:versioned_lesson_consolidation"]

  /** The configuration the application starts with: one loop per listed name, and a pool as
      large as the list.  The hash of the names is left open. */
  function LifespanConfig(key: string -> Key): Config {
    Config(set n | n in LEADER_LOOP_NAMES, |LEADER_LOOP_NAMES|, key)
  }

  lemma {:induction false} ElementsSize<T>(q: seq<T>)
    ensures |set x | x in q| <= |q|
    decreases |q|
  {
    if q == [] {
    } else {
      ElementsSize(q[1..]);
      assert (set x | x in q) == {q[0]} + (set x | x in q[1..]);
    }
  }

  /** As deployed, no loop ever waits for a connection, whatever the hash does. */
  lemma DeployedPoolSuffices(key: string -> Key, st: State, t: Task)
    requires Reachable(LifespanConfig(key), st) && t in st.phase && st.phase[t].Waiting?
    ensures exists s :: CanCheckout(LifespanConfig(key), st, t, s)
  {
    ElementsSize(LEADER_LOOP_NAMES);
    CheckoutNeverWaitsExactly(LifespanConfig(key));
  }
}
