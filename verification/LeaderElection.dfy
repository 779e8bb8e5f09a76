/** Leader election for the singleton background loops of the backend.

    Every running instance starts one task per loop name.  A task takes a connection from
    its instance's bounded pool, asks the database for a session-scoped advisory lock on
    the hash of the name, and runs the loop body only if it gets the lock.  The body never
    uses the connection, so the database may end the session underneath a leader without
    the leader noticing; that is a step of its own here.
 */
module LeaderElection {
  import opened Basics

  type Key = int
  type Session = nat

  datatype Task = Task(inst: nat, name: string)

  /** `names` are the loops each instance starts, `key` is the hash of a lock name.
      A pool size of zero would mean "unbounded" to the pool, so it is excluded. */
  datatype Config = Config(names: set<string>, poolSize: nat, key: string -> Key) {
    ghost predicate Valid() { 0 < poolSize }

    function KeyOf(t: Task): Key { key(t.name) }
  }

  datatype Phase =
    | Waiting                             // about to ask the pool for a connection
    | Connected(s: Session)               // has a connection, has not asked for the lock yet
    | Leading(s: Session)                 // inside the loop body
    | Ended(s: Session)                   // the body is over, the unlock comes next
    | Returning(s: Session, again: bool)  // giving the connection back; then sleeps or is finished
    | Sleeping
    | Finished                            // returned, cancelled or failed with an exception
  {
    predicate Holds() { Connected? || Leading? || Ended? || Returning? }

    /** The phases in which the task believes that it owns its lock. */
    predicate Owns() { Leading? || Ended? }
  }

  /** `pool` maps every connection open in some pool (idle or checked out) to its instance,
      `live` are the sessions the server still has, `used` every session number ever given
      out.  `locks` counts how often a session has taken a key: advisory locks are reentrant
      for their own session. */
  datatype State = State(
    up: set<nat>,
    phase: map<Task, Phase>,
    pool: map<Session, nat>,
    idle: set<Session>,
    live: set<Session>,
    used: set<Session>,
    locks: map<(Session, Key), nat>)

  datatype Step =
    | Start(i: nat)
    | Checkout(t: Task, s: Session)
    | CheckoutTimeout(t: Task)
    | Try(t: Task)
    | EndBody(t: Task)
    | Unlock(t: Task)
    | UnlockFails(t: Task)
    | GiveBack(t: Task)
    | Wake(t: Task)
    | Cancel(t: Task)
    | LoseSession(lost: Session)
    | Crash(i: nat)

  const INIT := State({}, map[], map[], {}, {}, {}, map[])

  function Conns(st: State, i: nat): set<Session> {
    set s | s in st.pool && st.pool[s] == i
  }

  function IdleConns(st: State, i: nat): set<Session> {
    set s | s in st.idle && s in st.pool && st.pool[s] == i
  }

  /** The pool hands out an idle connection if it has one, and opens a new one only below its size. */
  predicate CanCheckout(c: Config, st: State, t: Task, s: Session) {
    if IdleConns(st, t.inst) != {} then s in IdleConns(st, t.inst)
    else s !in st.used && |Conns(st, t.inst)| < c.poolSize
  }

  /** The server grants a key unless a different session has it. */
  ghost predicate Grants(st: State, s: Session, k: Key) {
    s in st.live && forall p :: p in st.locks && p.1 == k ==> p.0 == s
  }

  ghost predicate Enabled(c: Config, st: State, step: Step) {
    match step
    case Start(i) => i !in st.up
    case Checkout(t, s) => t in st.phase && st.phase[t].Waiting? && CanCheckout(c, st, t, s)
    case CheckoutTimeout(t) =>
      t in st.phase && st.phase[t].Waiting? && forall s :: !CanCheckout(c, st, t, s)
    case Try(t) => t in st.phase && st.phase[t].Connected?
    case EndBody(t) => t in st.phase && st.phase[t].Leading?
    case Unlock(t) => t in st.phase && st.phase[t].Ended?
    case UnlockFails(t) => t in st.phase && st.phase[t].Ended?
    case GiveBack(t) => t in st.phase && st.phase[t].Returning?
    case Wake(t) => t in st.phase && st.phase[t].Sleeping?
    case Cancel(t) =>
      t in st.phase && (st.phase[t].Waiting? || st.phase[t].Connected? || st.phase[t].Sleeping?)
    case LoseSession(s) => s in st.live
    case Crash(i) => i in st.up
  }

  function Without(locks: map<(Session, Key), nat>, dead: set<Session>): map<(Session, Key), nat> {
    map p | p in locks && p.0 !in dead :: locks[p]
  }

  function Taken(locks: map<(Session, Key), nat>, p: (Session, Key)): map<(Session, Key), nat> {
    locks[p := if p in locks then locks[p] + 1 else 1]
  }

  function Released(locks: map<(Session, Key), nat>, p: (Session, Key)): map<(Session, Key), nat> {
    if p !in locks then locks  // the server answers "you do not own this lock"
    else if locks[p] <= 1 then locks - {p}
    else locks[p := locks[p] - 1]
  }

  ghost function Apply(c: Config, st: State, step: Step): State
    requires Enabled(c, st, step)
  {
    match step
    case Start(i) =>
      st.(up := st.up + {i},
          phase := st.phase + map n | n in c.names :: Task(i, n) := Waiting)
    case Checkout(t, s) =>
      if s in st.idle then st.(phase := st.phase[t := Connected(s)], idle := st.idle - {s})
      else st.(phase := st.phase[t := Connected(s)],
               pool := st.pool[s := t.inst], live := st.live + {s}, used := st.used + {s})
    case CheckoutTimeout(t) => st.(phase := st.phase[t := Finished])
    case Try(t) =>
      var s := st.phase[t].s;
      if s !in st.live then st.(phase := st.phase[t := Returning(s, false)])  // the statement raises
      else if Grants(st, s, c.KeyOf(t)) then
        st.(phase := st.phase[t := Leading(s)], locks := Taken(st.locks, (s, c.KeyOf(t))))
      else st.(phase := st.phase[t := Returning(s, true)])
    case EndBody(t) => st.(phase := st.phase[t := Ended(st.phase[t].s)])
    case Unlock(t) =>
      var s := st.phase[t].s;
      st.(phase := st.phase[t := Returning(s, false)],
          locks := Released(st.locks, (s, c.KeyOf(t))))
    case UnlockFails(t) => st.(phase := st.phase[t := Returning(st.phase[t].s, false)])
    case GiveBack(t) =>
      var Returning(s, again) := st.phase[t];
      var next := if again then Sleeping else Finished;
      if s in st.live then st.(phase := st.phase[t := next], idle := st.idle + {s})
      else st.(phase := st.phase[t := next], pool := st.pool - {s})
    case Wake(t) => st.(phase := st.phase[t := Waiting])
    case Cancel(t) =>
      st.(phase := st.phase[t := if st.phase[t].Connected? then Returning(st.phase[t].s, false) else Finished])
    case LoseSession(s) => st.(live := st.live - {s}, locks := Without(st.locks, {s}))
    case Crash(i) =>
      var dead := Conns(st, i);
      st.(up := st.up - {i},
          phase := map t | t in st.phase && t.inst != i :: st.phase[t],
          pool := st.pool - dead, idle := st.idle - dead, live := st.live - dead,
          locks := Without(st.locks, dead))
  }

  /** The state after a run, or None when some step of it is not possible. */
  ghost function Exec(c: Config, st: State, run: seq<Step>): Option<State>
    decreases |run|
  {
    if run == [] then Some(st)
    else if Enabled(c, st, run[0]) then Exec(c, Apply(c, st, run[0]), run[1..])
    else None
  }

  ghost predicate Reachable(c: Config, st: State) {
    exists run :: Exec(c, INIT, run) == Some(st)
  }

  lemma {:induction false} ExecAppend(c: Config, st: State, a: seq<Step>, b: seq<Step>)
    requires Exec(c, st, a).Some?
    ensures Exec(c, st, a + b) == Exec(c, Exec(c, st, a).value, b)
    decreases |a|
  {
    if a == [] {
      assert a + b == b;
    } else {
      assert (a + b)[1..] == a[1..] + b;
      ExecAppend(c, Apply(c, st, a[0]), a[1..], b);
    }
  }

  // ---------------------------------------------------------------- invariant

  ghost predicate SessionsKnown(st: State) {
    && st.live <= st.pool.Keys <= st.used
    && st.idle <= st.pool.Keys
    && forall s :: s in st.pool ==> st.pool[s] in st.up
  }

  ghost predicate TasksKnown(c: Config, st: State) {
    forall t: Task :: t in st.phase <==> t.inst in st.up && t.name in c.names
  }

  /** A connection in use belongs to its task's own pool, and to no other task. */
  ghost predicate ConnectionsOfOwnPool(st: State) {
    forall t :: t in st.phase && st.phase[t].Holds() ==>
      st.phase[t].s in st.pool && st.pool[st.phase[t].s] == t.inst && st.phase[t].s !in st.idle
  }

  ghost predicate ConnectionsHeldOnce(st: State) {
    forall t, u | t in st.phase && u in st.phase && st.phase[t].Holds() && st.phase[u].Holds() ::
      st.phase[t].s == st.phase[u].s ==> t == u
  }

  /** No connection is lost track of: one that is not idle is held by a task. */
  ghost predicate NoConnectionLost(st: State) {
    forall s :: s in st.pool && s !in st.idle ==> exists t :: t in st.phase && st.phase[t].Holds() && st.phase[t].s == s
  }

  ghost predicate PoolsBounded(c: Config, st: State) {
    forall i :: |Conns(st, i)| <= c.poolSize
  }

  ghost predicate LocksLive(st: State) {
    forall p :: p in st.locks ==> p.0 in st.live
  }

  ghost predicate LocksExclusive(st: State) {
    forall p, q :: p in st.locks && q in st.locks && p.1 == q.1 ==> p.0 == q.0
  }

  /** A task that believes it owns its lock does, as long as its session lives. */
  ghost predicate OwnersHaveLocks(c: Config, st: State) {
    forall t :: t in st.phase && st.phase[t].Owns() && st.phase[t].s in st.live ==> (st.phase[t].s, c.KeyOf(t)) in st.locks
  }

  ghost predicate Inv(c: Config, st: State) {
    && SessionsKnown(st) && TasksKnown(c, st) && ConnectionsOfOwnPool(st) && ConnectionsHeldOnce(st) && NoConnectionLost(st)
    && PoolsBounded(c, st) && LocksLive(st) && LocksExclusive(st) && OwnersHaveLocks(c, st)
  }

  lemma StepKeepsSessionsKnown(c: Config, st: State, step: Step)
    requires SessionsKnown(st) && TasksKnown(c, st) && ConnectionsOfOwnPool(st) && Enabled(c, st, step)
    ensures SessionsKnown(Apply(c, st, step))
  {
  }

  lemma StepKeepsTasksKnown(c: Config, st: State, step: Step)
    requires TasksKnown(c, st) && Enabled(c, st, step)
    ensures TasksKnown(c, Apply(c, st, step))
  {
  }

  lemma StepKeepsConnections(c: Config, st: State, step: Step)
    requires SessionsKnown(st) && ConnectionsOfOwnPool(st) && ConnectionsHeldOnce(st) && Enabled(c, st, step)
    ensures ConnectionsOfOwnPool(Apply(c, st, step))
  {
  }

  /** A task holds after a step what it held before, unless it has just checked out. */
  lemma HeldBefore(c: Config, st: State, step: Step, t: Task)
    requires Enabled(c, st, step)
    requires t in Apply(c, st, step).phase && Apply(c, st, step).phase[t].Holds()
    ensures var s := Apply(c, st, step).phase[t].s;
            (t in st.phase && st.phase[t].Holds() && st.phase[t].s == s) || step == Checkout(t, s)
  {
  }

  lemma StepKeepsHeldOnce(c: Config, st: State, step: Step)
    requires SessionsKnown(st) && ConnectionsOfOwnPool(st) && ConnectionsHeldOnce(st) && Enabled(c, st, step)
    ensures ConnectionsHeldOnce(Apply(c, st, step))
  {
    var st' := Apply(c, st, step);
    forall t, u | t in st'.phase && u in st'.phase && st'.phase[t].Holds() && st'.phase[u].Holds() && st'.phase[t].s == st'.phase[u].s
      ensures t == u
    {
      HeldBefore(c, st, step, t);
      HeldBefore(c, st, step, u);
    }
  }

  lemma HolderKeepsConnection(c: Config, st: State, step: Step, t: Task)
    requires SessionsKnown(st) && ConnectionsOfOwnPool(st) && Enabled(c, st, step)
    requires t in st.phase && st.phase[t].Holds()
    ensures var s, st' := st.phase[t].s, Apply(c, st, step);
            s in st'.pool && s !in st'.idle ==> t in st'.phase && st'.phase[t].Holds() && st'.phase[t].s == s
  {
  }

  lemma StepLosesNoConnection(c: Config, st: State, step: Step)
    requires SessionsKnown(st) && ConnectionsOfOwnPool(st) && NoConnectionLost(st) && Enabled(c, st, step)
    ensures NoConnectionLost(Apply(c, st, step))
  {
    var st' := Apply(c, st, step);
    forall s | s in st'.pool && s !in st'.idle
      ensures exists t :: t in st'.phase && st'.phase[t].Holds() && st'.phase[t].s == s
    {
      if s in st.pool && s !in st.idle {
        var t :| t in st.phase && st.phase[t].Holds() && st.phase[t].s == s;
        HolderKeepsConnection(c, st, step, t);
      } else {
        assert step.Checkout? && step.s == s;
        assert st'.phase[step.t] == Connected(s);
      }
    }
  }

  lemma StepKeepsPoolsBounded(c: Config, st: State, step: Step)
    requires Inv(c, st) && Enabled(c, st, step)
    ensures PoolsBounded(c, Apply(c, st, step))
  {
    var st' := Apply(c, st, step);
    forall i ensures |Conns(st', i)| <= c.poolSize {
      ConnsAfter(c, st, step, i);
      if !(step.Checkout? && step.s !in st.idle && i == step.t.inst) {
        SubsetSize(Conns(st', i), Conns(st, i));
      }
    }
  }

  lemma ConnsAfter(c: Config, st: State, step: Step, i: nat)
    requires Inv(c, st) && Enabled(c, st, step)
    ensures if step.Checkout? && step.s !in st.idle && i == step.t.inst
            then |Conns(st, i)| < c.poolSize && Conns(Apply(c, st, step), i) == Conns(st, i) + {step.s}
            else Conns(Apply(c, st, step), i) <= Conns(st, i)
  {
  }

  lemma StepKeepsLocksLive(c: Config, st: State, step: Step)
    requires SessionsKnown(st) && LocksLive(st) && Enabled(c, st, step)
    ensures LocksLive(Apply(c, st, step))
  {
  }

  lemma StepKeepsLocksExclusive(c: Config, st: State, step: Step)
    requires LocksExclusive(st) && Enabled(c, st, step)
    ensures LocksExclusive(Apply(c, st, step))
  {
    if step.Try? { assert Enabled(c, st, step); }
  }

  lemma StepKeepsOwners(c: Config, st: State, step: Step)
    requires SessionsKnown(st) && ConnectionsOfOwnPool(st) && ConnectionsHeldOnce(st) && OwnersHaveLocks(c, st)
    requires Enabled(c, st, step)
    ensures OwnersHaveLocks(c, Apply(c, st, step))
  {
    var st' := Apply(c, st, step);
    forall t | t in st'.phase && st'.phase[t].Owns() && st'.phase[t].s in st'.live
      ensures (st'.phase[t].s, c.KeyOf(t)) in st'.locks
    {
      assert t in st.phase;
    }
  }
}
