/** The dependency auto-dispatcher: a background loop that looks for tasks blocked on their
    dependencies, checks every dependency again, moves the ready ones to "planning" by an
    atomic compare-and-swap, and starts a job for them.

    Any number of dispatchers (one per backend instance that believes it leads) and all other
    writers of the task table are interleaved here, at the grain of one database access.
 */
module DependencyDispatch {
  import opened Basics

  datatype Status =
    | Pending | Planning | ReadyForReview | Coding | Testing
    | Rejected | Blocked | Completed | Failed | Cancelled

  /** The task status machine: where a task may go from each status. */
  function Targets(s: Status): set<Status> {
    match s
    case Pending => {Planning, Blocked, Failed, Cancelled}
    case Planning => {ReadyForReview, Blocked, Rejected, Failed, Cancelled}
    case ReadyForReview => {Coding, Blocked, Rejected, Failed, Completed, Cancelled}
    case Coding => {Testing, Blocked, Failed, Cancelled}
    case Testing => {ReadyForReview, Blocked, Failed, Cancelled}
    case Rejected => {Planning, Blocked, Cancelled}
    case Blocked => {Planning, Coding, Failed, Cancelled}
    case Completed => {}
    case Failed => {}
    case Cancelled => {}
  }

  /** `deps` is the depends_on array; NULL and the empty array mean the same to the loop. */
  datatype Row = Row(status: Status, reason: Option<string>, deps: seq<int>)

  type Table = map<int, Row>

  const DEPENDENCY := Some("dependency")

  predicate Candidate(tb: Table, id: int) {
    id in tb && tb[id].status == Blocked && tb[id].reason == DEPENDENCY
  }

  predicate IsCompleted(tb: Table, id: int) {
    id in tb && tb[id].status == Completed
  }

  /** The compare-and-swap: None when it raises, because the row is gone or its status forbids it. */
  function Transition(tb: Table, id: int, to: Status, reason: Option<string>): Option<Table> {
    if id in tb && to in Targets(tb[id].status)
    then Some(tb[id := tb[id].(status := to, reason := reason)])
    else None
  }

  /** A row as the scan loaded it. */
  datatype Loaded = Loaded(id: int, deps: seq<int>)

  datatype Pass =
    | Asleep
    | Working(queue: seq<Loaded>)                                // between candidates
    | Checking(cand: Loaded, left: seq<int>, queue: seq<Loaded>) // dependencies still to read
    | Ready(cand: Loaded, queue: seq<Loaded>)                    // the compare-and-swap comes next
    | Launching(cand: Loaded, queue: seq<Loaded>)                // the job comes next

  /** `used` are the ids ever given out: ids are never reused. */
  datatype State = State(table: Table, used: set<int>, passes: map<nat, Pass>)

  function PassOf(st: State, d: nat): Pass {
    if d in st.passes then st.passes[d] else Asleep
  }

  datatype Step =
    | Scan(d: nat, order: seq<int>)
    | Next(d: nat)
    | Read(d: nat)
    | Promote(d: nat)
    | Launch(d: nat, ok: bool)
    | Abort(d: nat)                                               // an error outside one candidate
    | EnvWrite(id: int, to: Status, reason: Option<string>)       // any other writer, within the status machine or not
    | EnvCreate(id: int, status: Status, deps: seq<int>)
    | EnvDelete(id: int)

  /** The scan lists every candidate once, in any order. */
  ghost predicate ScanOf(tb: Table, order: seq<int>) {
    && (forall i :: 0 <= i < |order| ==> Candidate(tb, order[i]))
    && (forall id :: Candidate(tb, id) ==> id in order)
    && (forall i, j :: 0 <= i < j < |order| ==> order[i] != order[j])
  }

  ghost predicate Enabled(st: State, step: Step) {
    match step
    case Scan(d, order) =>
      PassOf(st, d).Asleep? && ScanOf(st.table, order)
    case Next(d) => PassOf(st, d).Working?
    case Read(d) => PassOf(st, d).Checking?
    case Promote(d) => PassOf(st, d).Ready?
    case Launch(d, _) => PassOf(st, d).Launching?
    case Abort(d) => !PassOf(st, d).Asleep?
    case EnvWrite(id, _, _) => id in st.table
    case EnvCreate(id, _, _) => id !in st.used
    case EnvDelete(id) => id in st.table
  }

  function Load(tb: Table, order: seq<int>): (q: seq<Loaded>)
    requires forall i :: 0 <= i < |order| ==> order[i] in tb
    ensures |q| == |order| && forall i :: 0 <= i < |q| ==> q[i] == Loaded(order[i], tb[order[i]].deps)
  {
    if order == [] then [] else [Loaded(order[0], tb[order[0]].deps)] + Load(tb, order[1..])
  }

  /** What one dispatcher does next with its pass. */
  function NextPass(tb: Table, p: Pass): Pass
    requires p.Working? || p.Checking?
  {
    match p
    case Working(queue) =>
      if queue == [] then Asleep
      else if queue[0].deps == [] then Working(queue[1..])  // stale row, nothing to check
      else Checking(queue[0], queue[0].deps, queue[1..])
    case Checking(cand, left, queue) =>
      if left == [] then Ready(cand, queue)
      else if IsCompleted(tb, left[0]) then Checking(cand, left[1..], queue)
      else Working(queue)                                   // still unmet
    case _ => p
  }

  ghost function Apply(st: State, step: Step): State
    requires Enabled(st, step)
  {
    match step
    case Scan(d, order) => st.(passes := st.passes[d := Working(Load(st.table, order))])
    case Next(d) => st.(passes := st.passes[d := NextPass(st.table, PassOf(st, d))])
    case Read(d) => st.(passes := st.passes[d := NextPass(st.table, PassOf(st, d))])
    case Promote(d) =>
      var p := PassOf(st, d);
      (match Transition(st.table, p.cand.id, Planning, None)
       case Some(tb) => st.(table := tb, passes := st.passes[d := Launching(p.cand, p.queue)])
       case None => st.(passes := st.passes[d := Working(p.queue)]))
    case Launch(d, _) => st.(passes := st.passes[d := Working(PassOf(st, d).queue)])
    case Abort(d) => st.(passes := st.passes[d := Asleep])
    case EnvWrite(id, to, reason) => st.(table := st.table[id := st.table[id].(status := to, reason := reason)])
    case EnvCreate(id, status, deps) =>
      st.(table := st.table[id := Row(status, None, deps)], used := st.used + {id})
    case EnvDelete(id) => st.(table := st.table - {id})
  }

  ghost predicate IsRun(states: seq<State>, steps: seq<Step>) {
    && |states| == |steps| + 1
    && forall i :: 0 <= i < |steps| ==> Enabled(states[i], steps[i]) && states[i + 1] == Apply(states[i], steps[i])
  }

  /** Every dispatcher asleep, every row under a used id. */
  ghost predicate Fresh(st: State) {
    st.passes == map[] && st.table.Keys <= st.used
  }

  /** Step `i` is the one that moves task `id` to planning and hands it to the job queue. */
  ghost predicate Dispatches(states: seq<State>, steps: seq<Step>, i: nat, id: int)
    requires IsRun(states, steps) && i < |steps|
  {
    steps[i].Promote? && PassOf(states[i], steps[i].d).cand.id == id && PassOf(states[i + 1], steps[i].d).Launching?
  }

  /** The step completes the task, or creates it completed. */
  predicate Completes(step: Step, id: int) {
    || (step.EnvWrite? && step.id == id && step.to == Completed)
    || (step.EnvCreate? && step.id == id && step.status == Completed)
  }

  ghost predicate CompletedBy(states: seq<State>, steps: seq<Step>, k: nat, id: int)
    requires IsRun(states, steps) && k <= |steps|
  {
    IsCompleted(states[0].table, id) ||
    exists j :: 0 <= j < k && Completes(steps[j], id)
  }

  // --------------------------------------------------------------- topological order

  /** What a dispatcher has already read about its candidate, and that the row still has the
      dependencies that were loaded. */
  ghost predicate PassSound(states: seq<State>, steps: seq<Step>, k: nat, p: Pass)
    requires IsRun(states, steps) && k <= |steps|
  {
    && (forall c :: c in Queue(p) ==> LoadedSound(states[k], c))
    && (p.Checking? ==>
          && LoadedSound(states[k], p.cand) && p.cand.deps != []
          && forall x :: x in p.cand.deps ==> x in p.left || CompletedBy(states, steps, k, x))
    && (p.Ready? || p.Launching? ==>
          && LoadedSound(states[k], p.cand) && p.cand.deps != []
          && forall x :: x in p.cand.deps ==> CompletedBy(states, steps, k, x))
  }

  function Queue(p: Pass): seq<Loaded> {
    if p.Asleep? then [] else p.queue
  }

  ghost predicate LoadedSound(st: State, c: Loaded) {
    c.id in st.used && (c.id in st.table ==> st.table[c.id].deps == c.deps)
  }

  ghost predicate CompletionsRecorded(states: seq<State>, steps: seq<Step>, k: nat)
    requires IsRun(states, steps) && k <= |steps|
  {
    var tb := states[k].table;
    forall x :: x in tb && tb[x].status == Completed ==> CompletedBy(states, steps, k, x)
  }

  ghost predicate RunSound(states: seq<State>, steps: seq<Step>, k: nat)
    requires IsRun(states, steps) && k <= |steps|
  {
    && states[k].table.Keys <= states[k].used
    && CompletionsRecorded(states, steps, k)
    && (forall d :: d in states[k].passes ==> PassSound(states, steps, k, states[k].passes[d]))
  }

  lemma StepKeepsCompletions(states: seq<State>, steps: seq<Step>, k: nat)
    requires IsRun(states, steps) && k < |steps| && CompletionsRecorded(states, steps, k)
    ensures CompletionsRecorded(states, steps, k + 1)
  {
    var tb := states[k + 1].table;
    forall x | x in tb && tb[x].status == Completed ensures CompletedBy(states, steps, k + 1, x) {
      if !IsCompleted(states[k].table, x) {
        assert Completes(steps[k], x);
      }
    }
  }

  lemma StepKeepsLoaded(st: State, step: Step, c: Loaded)
    requires Enabled(st, step) && LoadedSound(st, c)
    ensures LoadedSound(Apply(st, step), c)
  {
  }

  /** A pass stays sound while others act ... */
  lemma StepKeepsOtherPass(states: seq<State>, steps: seq<Step>, k: nat, p: Pass)
    requires IsRun(states, steps) && k < |steps| && PassSound(states, steps, k, p)
    ensures PassSound(states, steps, k + 1, p)
  {
    forall c | LoadedSound(states[k], c) ensures LoadedSound(states[k + 1], c) {
      StepKeepsLoaded(states[k], steps[k], c);
    }
  }

  /** ... and under its own next step. */
  lemma StepKeepsPass(states: seq<State>, steps: seq<Step>, k: nat, d: nat)
    requires IsRun(states, steps) && k < |steps| && RunSound(states, steps, k) && d in states[k + 1].passes
    ensures PassSound(states, steps, k + 1, states[k + 1].passes[d])
  {
    var p, q := PassOf(states[k], d), states[k + 1].passes[d];
    StepKeepsOtherPass(states, steps, k, p);
    if q != p {
      match steps[k]
      case Scan(_, order) =>
      case Next(_) =>
      case Read(_) =>
      case Promote(_) =>
      case Launch(_, _) =>
      case Abort(_) =>
      case EnvWrite(_, _, _) =>
      case EnvCreate(_, _, _) =>
      case EnvDelete(_) =>
    }
  }

  lemma {:induction false} RunStaysSound(states: seq<State>, steps: seq<Step>, k: nat)
    requires IsRun(states, steps) && k <= |steps| && Fresh(states[0])
    ensures RunSound(states, steps, k)
  {
    if k == 0 {
    } else {
      RunStaysSound(states, steps, k - 1);
      StepKeepsCompletions(states, steps, k - 1);
      forall d | d in states[k].passes ensures PassSound(states, steps, k, states[k].passes[d]) {
        StepKeepsPass(states, steps, k - 1, d);
      }
    }
  }

  /** Dispatch is topological: whatever the dispatchers and the other writers do, a task is
      dispatched only after every one of its dependencies has been completed. */
  lemma DispatchIsTopological(states: seq<State>, steps: seq<Step>, i: nat, id: int)
    requires IsRun(states, steps) && Fresh(states[0]) && i < |steps| && Dispatches(states, steps, i, id)
    ensures id in states[i].table && states[i].table[id].deps != []
    ensures forall x :: x in states[i].table[id].deps ==> CompletedBy(states, steps, i, x)
  {
    RunStaysSound(states, steps, i);
    assert PassSound(states, steps, i, PassOf(states[i], steps[i].d));
  }

  /** The tasks that a pass still holds, its current one first. */
  function Held(p: Pass): seq<Loaded> {
    if p.Checking? || p.Ready? || p.Launching? then [p.cand] + p.queue else Queue(p)
  }

  /** A scan of this dispatcher found the task blocked on dependencies, with these. */
  ghost predicate WasScanned(states: seq<State>, steps: seq<Step>, k: nat, d: nat, c: Loaded)
    requires IsRun(states, steps) && k <= |steps|
  {
    exists m :: 0 <= m < k && steps[m].Scan? && steps[m].d == d && c.id in states[m].table
                && states[m].table[c.id].status == Blocked && states[m].table[c.id].reason == Some("dependency")
                && states[m].table[c.id].deps == c.deps
  }

  lemma StepHolds(st: State, step: Step, d: nat, c: Loaded)
    requires Enabled(st, step) && c in Held(PassOf(Apply(st, step), d))
    ensures c in Held(PassOf(st, d))
         || (step.Scan? && step.d == d && Candidate(st.table, c.id) && st.table[c.id].deps == c.deps)
  {
  }

  lemma {:induction false} HeldWasScanned(states: seq<State>, steps: seq<Step>, k: nat, d: nat, c: Loaded)
    requires IsRun(states, steps) && k <= |steps| && Fresh(states[0]) && c in Held(PassOf(states[k], d))
    ensures WasScanned(states, steps, k, d, c)
  {
    if k == 0 {
    } else {
      StepHolds(states[k - 1], steps[k - 1], d, c);
      if c in Held(PassOf(states[k - 1], d)) { HeldWasScanned(states, steps, k - 1, d, c); }
    }
  }

  /** What is dispatched was found blocked on dependencies by a scan of its dispatcher. By then others may have
      moved it; it is dispatched all the same if it is pending, rejected or blocked, and only its status and
      its reason change. */
  lemma DispatchedWasBlocked(states: seq<State>, steps: seq<Step>, i: nat, id: int)
    requires IsRun(states, steps) && Fresh(states[0]) && i < |steps| && steps[i].Promote?
    requires PassOf(states[i], steps[i].d).cand.id == id
    ensures WasScanned(states, steps, i, steps[i].d, PassOf(states[i], steps[i].d).cand)
    ensures var tb := states[i].table;
            && (Dispatches(states, steps, i, id) <==> id in tb && tb[id].status in {Pending, Rejected, Blocked})
            && (Dispatches(states, steps, i, id) ==> states[i + 1].table == tb[id := Row(Planning, None, tb[id].deps)])
            && (!Dispatches(states, steps, i, id) ==> states[i + 1].table == tb)
  {
    HeldWasScanned(states, steps, i, steps[i].d, PassOf(states[i], steps[i].d).cand);
  }

  /** From where each status is reached. */
  lemma StatusColumns(s: Status)
    ensures Pending !in Targets(s)
    ensures Planning in Targets(s) <==> s in {Pending, Rejected, Blocked}
    ensures ReadyForReview in Targets(s) <==> s in {Planning, Testing}
    ensures Coding in Targets(s) <==> s in {ReadyForReview, Blocked}
    ensures Testing in Targets(s) <==> s == Coding
    ensures Rejected in Targets(s) <==> s in {Planning, ReadyForReview}
    ensures Completed in Targets(s) <==> s == ReadyForReview
    ensures Blocked in Targets(s) <==> s !in {Blocked, Completed, Failed, Cancelled}
    ensures Failed in Targets(s) <==> s !in {Rejected, Completed, Failed, Cancelled}
    ensures Cancelled in Targets(s) <==> s !in {Completed, Failed, Cancelled}
  {
  }

  /** Members of `s` each wait for another member. */
  ghost predicate WaitsForItself(st: State, s: set<int>) {
    forall id :: id in s ==> id in st.table && WaitsFor(st.table[id], s)
  }

  ghost predicate WaitsFor(row: Row, s: set<int>) {
    exists x :: x in row.deps && x in s
  }

  lemma {:induction false} DepsNeverChange(states: seq<State>, steps: seq<Step>, k: nat, id: int)
    requires IsRun(states, steps) && k <= |steps| && Fresh(states[0]) && id in states[0].table
    ensures id in states[k].used && (id in states[k].table ==> states[k].table[id].deps == states[0].table[id].deps)
  {
    if k == 0 {
    } else {
      DepsNeverChange(states, steps, k - 1, id);
    }
  }

  /** A cycle, or any set of tasks that wait for each other, is never dispatched from, unless
      another writer completes one of its members first. */
  lemma CyclesAreNeverDispatched(states: seq<State>, steps: seq<Step>, s: set<int>, i: nat, id: int)
    requires IsRun(states, steps) && Fresh(states[0]) && WaitsForItself(states[0], s)
    requires forall x :: x in s ==> !IsCompleted(states[0].table, x)
    requires forall j, x :: 0 <= j < |steps| && x in s ==> !Completes(steps[j], x)
    requires i < |steps| && id in s
    ensures !Dispatches(states, steps, i, id)
  {
    if Dispatches(states, steps, i, id) {
      DispatchIsTopological(states, steps, i, id);
      DepsNeverChange(states, steps, i, id);
    }
  }

  // ------------------------------------------------------- once per blocked episode

  lemma {:induction false} PlanningUntilMoved(states: seq<State>, steps: seq<Step>, i: nat, k: nat, id: int)
    requires IsRun(states, steps) && i < k <= |steps| && Fresh(states[0]) && Dispatches(states, steps, i, id)
    requires forall j :: i < j < k && steps[j].EnvWrite? ==> steps[j].id != id
    ensures id in states[k].used && (id in states[k].table ==> states[k].table[id].status == Planning)
  {
    RunStaysSound(states, steps, i);
    if k > i + 1 {
      PlanningUntilMoved(states, steps, i, k - 1, id);
    }
  }

  /** However many dispatchers run, between two dispatches of one task another writer has moved it:
      a blocked episode is dispatched at most once. */
  lemma OncePerEpisode(states: seq<State>, steps: seq<Step>, i: nat, j: nat, id: int)
    requires IsRun(states, steps) && Fresh(states[0]) && i < j < |steps|
    requires Dispatches(states, steps, i, id) && Dispatches(states, steps, j, id)
    ensures exists m :: i < m < j && steps[m].EnvWrite? && steps[m].id == id
  {
    if forall m :: i < m < j && steps[m].EnvWrite? ==> steps[m].id != id {
      PlanningUntilMoved(states, steps, i, j, id);
    }
  }
}
