/** Submitting the new-task form: one idempotency key covers every attempt of a submission, the
    created task is kept until its images are uploaded, and the server answers a repeated key from
    its store.

    Requests may be delivered late or more than once, responses may be lost, and the server's work
    for a request may fail, or stop half-way, at any point.  A request at work is not the row of its
    key: the row can be deleted under it, by the clean-up of expired keys or by another request that
    fails, and the request goes on all the same.
 */
module TaskSubmission {
  import opened Basics

  type Key = nat
  type TaskId = nat

  /** The body of the create request: title, description, project, labels, priority and mode. */
  type Body = string

  datatype Draft = Draft(body: Body, images: set<string>)

  /** A create request; `id` tells the presses of the button apart. */
  datatype Request = Request(id: nat, key: Key, body: Body)

  datatype Attempt =
    | Idle
    | Sent(request: Request, images: set<string>)               // waiting for the created task
    | Uploading(task: TaskId, body: Body, images: set<string>)  // waiting for the upload
  {
    function Text(): Body
      requires !Idle?
    {
      if Sent? then request.body else body
    }
  }

  /** The server's row for a key. */
  datatype Entry =
    | InProgress(body: Body)
    | Done(body: Body, task: TaskId)

  /** A reported success, with what the form held when the button was pressed. */
  datatype Success = Success(task: TaskId, key: Key, body: Body, images: set<string>)

  /** `works` are the requests at work on the server; `tasks` gives the request that created each task;
      `replies` are the responses with a task that were sent, each to its request. */
  datatype State = State(
    draft: Draft, pending: Option<TaskId>, key: Key, attempt: Attempt, nextRequest: nat,
    wire: set<Request>, entries: map<Key, Entry>, works: map<nat, Request>, nextWork: nat,
    replies: set<(Request, TaskId)>, tasks: map<TaskId, Request>, nextTask: TaskId,
    uploads: set<(TaskId, string)>, successes: seq<Success>)

  datatype Step =
    | Edit(draft: Draft)
    | Press
    | Take(r: Request)                    // the server looks at a request from the wire
    | Finish(w: nat)                      // creates the task and stores the response
    | WorkFails(w: nat, created: bool)    // an error, after the insert or before; the key is released
    | WorkStops(w: nat, created: bool)    // dies, or cannot store its response
    | Arrives(task: TaskId)               // the create response reaches the form
    | CreateFails                         // an error, a 409, or no response
    | UploadArrives
    | UploadFails(stored: set<string>)    // what the server stored all the same
    | Purge(k: Key)                       // the server deletes an expired row

  const INIT := State(Draft("", {}), None, 0, Idle, 0, {}, map[], map[], 0, {}, map[], 0, {}, [])

  predicate Enabled(st: State, step: Step) {
    match step
    case Edit(_) => true
    case Press => st.attempt.Idle?  // the button is disabled while an attempt is pending
    case Take(r) => r in st.wire
    case Finish(w) => w in st.works
    case WorkFails(w, _) => w in st.works
    case WorkStops(w, _) => w in st.works
    case Arrives(t) => st.attempt.Sent? && (st.attempt.request, t) in st.replies
    case CreateFails => st.attempt.Sent?
    case UploadArrives => st.attempt.Uploading?
    case UploadFails(stored) => st.attempt.Uploading? && stored <= st.attempt.images
    case Purge(k) => k in st.entries
  }

  function Stored(uploads: set<(TaskId, string)>, task: TaskId, images: set<string>): set<(TaskId, string)> {
    uploads + set i | i in images :: (task, i)
  }

  /** onSuccess: a new key, and an empty form. */
  function Succeed(st: State, task: TaskId, body: Body, images: set<string>): State {
    st.(draft := Draft("", {}), pending := None, key := st.key + 1, attempt := Idle,
        successes := st.successes + [Success(task, st.key, body, images)])
  }

  /** After the task is known: upload its images, or succeed when there are none. */
  function Proceed(st: State, task: TaskId, body: Body, images: set<string>): State {
    if images == {} then Succeed(st, task, body, images)
    else st.(pending := Some(task), attempt := Uploading(task, body, images))
  }

  function SendCreate(st: State): State {
    var r := Request(st.nextRequest, st.key, st.draft.body);
    st.(attempt := Sent(r, st.draft.images), wire := st.wire + {r}, nextRequest := st.nextRequest + 1)
  }

  /** Reserves the key, answers from the row, or refuses. */
  function Reserve(st: State, r: Request): State {
    if r.key !in st.entries then
      st.(entries := st.entries[r.key := InProgress(r.body)], works := st.works[st.nextWork := r], nextWork := st.nextWork + 1)
    else if st.entries[r.key].Done? && st.entries[r.key].body == r.body then
      st.(replies := st.replies + {(r, st.entries[r.key].task)})
    else st
  }

  /** The request is no longer at work, and may have inserted its task. */
  function Leave(st: State, w: nat, created: bool): State
    requires w in st.works
  {
    if created
    then st.(works := st.works - {w}, tasks := st.tasks[st.nextTask := st.works[w]], nextTask := st.nextTask + 1)
    else st.(works := st.works - {w})
  }

  /** The response is written into the row of the key, whoever reserved it; without a row, nowhere. */
  function Store(entries: map<Key, Entry>, k: Key, task: TaskId): map<Key, Entry> {
    if k in entries then entries[k := Done(entries[k].body, task)] else entries
  }

  /** The row of the key is deleted if it is in progress, whoever reserved it. */
  function Release(entries: map<Key, Entry>, k: Key): map<Key, Entry> {
    if k in entries && entries[k].InProgress? then entries - {k} else entries
  }

  function Apply(st: State, step: Step): State
    requires Enabled(st, step)
  {
    match step
    case Edit(draft) => st.(draft := draft)
    case Press =>
      if st.pending.Some? then Proceed(st, st.pending.value, st.draft.body, st.draft.images) else SendCreate(st)
    case Take(r) => Reserve(st, r)
    case Finish(w) =>
      var r := st.works[w];
      Leave(st, w, true).(entries := Store(st.entries, r.key, st.nextTask), replies := st.replies + {(r, st.nextTask)})
    case WorkFails(w, created) => Leave(st, w, created).(entries := Release(st.entries, st.works[w].key))
    case WorkStops(w, created) => Leave(st, w, created)
    case Arrives(t) => Proceed(st, t, st.attempt.request.body, st.attempt.images)
    case CreateFails => st.(attempt := Idle)
    case UploadArrives =>
      var Uploading(task, body, images) := st.attempt;
      Succeed(st.(uploads := Stored(st.uploads, task, images)), task, body, images)
    case UploadFails(stored) =>
      st.(attempt := Idle, uploads := Stored(st.uploads, st.attempt.task, stored))
    case Purge(k) => st.(entries := st.entries - {k})
  }

  // ------------------------------------------------------------------- invariant

  /** Numbers are given out once, and everything is for a request that was sent. */
  ghost predicate Numbered(st: State) {
    TasksNumbered(st) && RequestsNumbered(st)
  }

  ghost predicate TasksNumbered(st: State) {
    && (forall t: TaskId :: t in st.tasks <==> t < st.nextTask)
    && (forall t :: t in st.tasks ==> st.tasks[t] in st.wire)
  }

  ghost predicate RequestsNumbered(st: State) {
    && (forall w :: w in st.works ==> w < st.nextWork && st.works[w] in st.wire)
    && (forall r :: r in st.wire ==> r.key <= st.key && r.id < st.nextRequest)
  }

  /** The rows and the responses give tasks of their key. */
  ghost predicate AnswersTrue(st: State) {
    && (forall a :: a in st.replies ==> a.0 in st.wire && IsTaskOf(st, a.1, a.0.key))
    && (forall k :: k in st.entries && st.entries[k].Done? ==> IsTaskOf(st, st.entries[k].task, k))
  }

  ghost predicate Ids(st: State) {
    Numbered(st) && AnswersTrue(st)
  }

  predicate IsTaskOf(st: State, t: TaskId, k: Key) {
    t in st.tasks && st.tasks[t].key == k
  }

  ghost predicate FormTrue(st: State) {
    && (st.pending.Some? ==> IsTaskOf(st, st.pending.value, st.key))
    && (st.attempt.Sent? ==> st.pending.None? && st.attempt.request in st.wire && st.attempt.request.key == st.key)
    && (st.attempt.Uploading? ==> st.pending == Some(st.attempt.task) && st.attempt.images != {})
  }

  /** One success per key used up: it reports a task of its key, whose images are uploaded. */
  ghost predicate SuccessesTrue(st: State) {
    && |st.successes| == st.key
    && forall i :: 0 <= i < |st.successes| ==> SuccessTrue(st, i)
  }

  ghost predicate SuccessTrue(st: State, i: nat)
    requires i < |st.successes|
  {
    var s := st.successes[i];
    && s.key == i && IsTaskOf(st, s.task, i)
    && forall x :: x in s.images ==> (s.task, x) in st.uploads
  }

  ghost predicate Inv(st: State) {
    Ids(st) && FormTrue(st) && SuccessesTrue(st)
  }

  lemma StepKeepsTask(st: State, step: Step, t: TaskId)
    requires TasksNumbered(st) && Enabled(st, step) && t in st.tasks
    ensures t in Apply(st, step).tasks && Apply(st, step).tasks[t] == st.tasks[t]
  {
  }

  lemma WireGrows(st: State, step: Step)
    requires Enabled(st, step)
    ensures st.wire <= Apply(st, step).wire
  {
  }

  lemma StepKeepsTasksNumbered(st: State, step: Step)
    requires Numbered(st) && Enabled(st, step)
    ensures TasksNumbered(Apply(st, step))
  {
    WireGrows(st, step);
  }

  lemma StepKeepsRequestsNumbered(st: State, step: Step)
    requires RequestsNumbered(st) && Enabled(st, step)
    ensures RequestsNumbered(Apply(st, step))
  {
    WireGrows(st, step);
  }

  lemma StepKeepsNumbered(st: State, step: Step)
    requires Numbered(st) && Enabled(st, step)
    ensures Numbered(Apply(st, step))
  {
    StepKeepsTasksNumbered(st, step);
    StepKeepsRequestsNumbered(st, step);
  }

  lemma StepKeepsAnswers(st: State, step: Step)
    requires Numbered(st) && AnswersTrue(st) && Enabled(st, step)
    ensures AnswersTrue(Apply(st, step))
  {
    var st' := Apply(st, step);
    forall t, k | IsTaskOf(st, t, k) ensures IsTaskOf(st', t, k) { StepKeepsTask(st, step, t); }
  }

  lemma StepKeepsIds(st: State, step: Step)
    requires Ids(st) && Enabled(st, step)
    ensures Ids(Apply(st, step))
  {
    StepKeepsNumbered(st, step);
    StepKeepsAnswers(st, step);
  }

  lemma StepKeepsForm(st: State, step: Step)
    requires Ids(st) && FormTrue(st) && Enabled(st, step)
    ensures FormTrue(Apply(st, step))
  {
  }

  lemma StepKeepsSuccesses(st: State, step: Step)
    requires Ids(st) && FormTrue(st) && SuccessesTrue(st) && Enabled(st, step)
    ensures SuccessesTrue(Apply(st, step))
  {
    var st' := Apply(st, step);
    forall i | 0 <= i < |st'.successes| ensures SuccessTrue(st', i) {
      if i < |st.successes| { assert SuccessTrue(st, i); }
    }
  }

  /** Whatever the server forgets and whatever gets lost. */
  lemma StepKeepsInv(st: State, step: Step)
    requires Inv(st) && Enabled(st, step)
    ensures Inv(Apply(st, step))
  {
    StepKeepsIds(st, step);
    StepKeepsForm(st, step);
    StepKeepsSuccesses(st, step);
  }

  ghost predicate IsRun(states: seq<State>, steps: seq<Step>) {
    && |states| == |steps| + 1
    && forall i :: 0 <= i < |steps| ==> Enabled(states[i], steps[i]) && states[i + 1] == Apply(states[i], steps[i])
  }

  ghost predicate FromStart(states: seq<State>, steps: seq<Step>) {
    IsRun(states, steps) && states[0] == INIT
  }

  lemma {:induction false} RunKeepsInv(states: seq<State>, steps: seq<Step>, k: nat)
    requires FromStart(states, steps) && k <= |steps|
    ensures Inv(states[k])
  {
    if k == 0 {
    } else {
      RunKeepsInv(states, steps, k - 1);
      StepKeepsInv(states[k - 1], steps[k - 1]);
    }
  }

  // ------------------------------------------------- requests at work, and their tasks

  /** Step `b` takes a request for this key and puts it to work as `w`. */
  ghost predicate TakenAt(states: seq<State>, steps: seq<Step>, b: nat, w: nat, k: Key)
    requires IsRun(states, steps)
  {
    b < |steps| && steps[b].Take? && steps[b].r.key == k && k !in states[b].entries && w == states[b].nextWork
  }

  /** The step inserts the task of the request at work as `w`. */
  predicate CreatesFor(step: Step, w: nat) {
    step == Finish(w) || step == WorkFails(w, true) || step == WorkStops(w, true)
  }

  lemma {:induction false} NumbersGrow(states: seq<State>, steps: seq<Step>, i: nat, n: nat)
    requires IsRun(states, steps) && i <= n <= |steps|
    ensures states[i].nextWork <= states[n].nextWork && states[i].nextTask <= states[n].nextTask && states[i].key <= states[n].key
  {
    if n == i {
    } else {
      NumbersGrow(states, steps, i, n - 1);
    }
  }

  lemma {:induction false} TasksStay(states: seq<State>, steps: seq<Step>, i: nat, n: nat, t: TaskId)
    requires FromStart(states, steps) && i <= n <= |steps| && t in states[i].tasks
    ensures t in states[n].tasks && states[n].tasks[t] == states[i].tasks[t]
  {
    if n == i {
    } else {
      TasksStay(states, steps, i, n - 1, t);
      TaskUnchanged(states, steps, n - 1, t);
    }
  }

  lemma TaskUnchanged(states: seq<State>, steps: seq<Step>, k: nat, t: TaskId)
    requires FromStart(states, steps) && k < |steps| && t in states[k].tasks
    ensures t in states[k + 1].tasks && states[k + 1].tasks[t] == states[k].tasks[t]
  {
    RunIsNumbered(states, steps, k);
    StepKeepsTask(states[k], steps[k], t);
  }

  /** A request that has left does not come back to work. */
  lemma {:induction false} LeftForGood(states: seq<State>, steps: seq<Step>, i: nat, n: nat, w: nat)
    requires IsRun(states, steps) && i <= n <= |steps| && w < states[i].nextWork && w !in states[i].works
    ensures w !in states[n].works
  {
    if n == i {
    } else {
      LeftForGood(states, steps, i, n - 1, w);
      NumbersGrow(states, steps, i, n - 1);
    }
  }

  lemma {:induction false} RunIsNumbered(states: seq<State>, steps: seq<Step>, k: nat)
    requires FromStart(states, steps) && k <= |steps|
    ensures Numbered(states[k])
  {
    if k == 0 {
    } else {
      RunIsNumbered(states, steps, k - 1);
      StepKeepsNumbered(states[k - 1], steps[k - 1]);
    }
  }

  lemma WorkFromStep(st: State, step: Step, w: nat)
    requires RequestsNumbered(st) && Enabled(st, step) && w in Apply(st, step).works
    ensures if w in st.works then Apply(st, step).works[w] == st.works[w] && !CreatesFor(step, w)
            else step.Take? && step.r == Apply(st, step).works[w] && step.r.key !in st.entries
  {
  }

  lemma {:induction false} WorkWasTaken(states: seq<State>, steps: seq<Step>, n: nat, w: nat) returns (b: nat)
    requires FromStart(states, steps) && n <= |steps| && w in states[n].works
    ensures b < n && TakenAt(states, steps, b, w, states[n].works[w].key)
  {
    assert n > 0;
    RunIsNumbered(states, steps, n - 1);
    WorkFromStep(states[n - 1], steps[n - 1], w);
    if w in states[n - 1].works {
      b := WorkWasTaken(states, steps, n - 1, w);
    } else {
      b := n - 1;
    }
  }

  lemma TakenOnce(states: seq<State>, steps: seq<Step>, b: nat, c: nat, w: nat, k: Key, l: Key)
    requires IsRun(states, steps) && TakenAt(states, steps, b, w, k) && TakenAt(states, steps, c, w, l)
    ensures b == c && k == l
  {
    if b < c { NumbersGrow(states, steps, b + 1, c); }
    if c < b { NumbersGrow(states, steps, c + 1, b); }
  }

  /** Task `t` was inserted at step `j` for the request that was taken at step `b`. */
  ghost predicate MadeBy(states: seq<State>, steps: seq<Step>, n: nat, t: TaskId, k: Key, b: nat, w: nat, j: nat)
    requires IsRun(states, steps)
  {
    b < j < n <= |steps| && TakenAt(states, steps, b, w, k) && CreatesFor(steps[j], w) && states[j].nextTask == t
  }

  lemma {:induction false} TaskWasMade(states: seq<State>, steps: seq<Step>, n: nat, t: TaskId) returns (b: nat, w: nat, j: nat)
    requires FromStart(states, steps) && n <= |steps| && t in states[n].tasks
    ensures MadeBy(states, steps, n, t, states[n].tasks[t].key, b, w, j)
  {
    assert n > 0;
    if t in states[n - 1].tasks {
      b, w, j := TaskWasMade(states, steps, n - 1, t);
      TaskUnchanged(states, steps, n - 1, t);
    } else {
      j, w := n - 1, steps[n - 1].w;
      b := WorkWasTaken(states, steps, n - 1, w);
    }
  }

  lemma CreatedTask(states: seq<State>, steps: seq<Step>, n: nat, k: Key, b: nat, w: nat, j: nat)
    requires FromStart(states, steps) && j < n <= |steps| && TakenAt(states, steps, b, w, k) && CreatesFor(steps[j], w)
    ensures IsTaskOf(states[n], states[j].nextTask, k)
  {
    var c := WorkWasTaken(states, steps, j, w);
    TakenOnce(states, steps, b, c, w, k, states[j].works[w].key);
    TasksStay(states, steps, j + 1, n, states[j].nextTask);
  }

  /** A request inserts one task at most. */
  lemma CreatesOnce(states: seq<State>, steps: seq<Step>, i: nat, j: nat, w: nat)
    requires FromStart(states, steps) && i < j < |steps| && CreatesFor(steps[i], w)
    ensures !CreatesFor(steps[j], w)
  {
    RunIsNumbered(states, steps, i);
    LeftForGood(states, steps, i + 1, j, w);
  }

  // ------------------------------------------------------ when a key gets two tasks

  ghost predicate HasTask(st: State, k: Key) {
    exists t :: IsTaskOf(st, t, k)
  }

  ghost predicate HasTwoTasks(st: State, k: Key) {
    exists t, u :: t != u && IsTaskOf(st, t, k) && IsTaskOf(st, u, k)
  }

  ghost predicate AtWork(st: State, k: Key) {
    exists w :: w in st.works && st.works[w].key == k
  }

  /** The server forgets the key while it has a task, or a request at work. */
  ghost predicate ForgetsActive(states: seq<State>, steps: seq<Step>, i: nat, k: Key)
    requires IsRun(states, steps) && i < |steps|
  {
    k in states[i].entries && k !in states[i + 1].entries && (HasTask(states[i + 1], k) || AtWork(states[i + 1], k))
  }

  ghost predicate Creates(steps: seq<Step>, n: nat, w: nat)
    requires n <= |steps|
  {
    exists j :: 0 <= j < n && CreatesFor(steps[j], w)
  }

  /** A request is taken under the key, the server forgets the key while that request is at work or its task
      exists, and another request is taken under the key; both insert their task before step `n`. */
  ghost predicate TakenTwice(states: seq<State>, steps: seq<Step>, n: nat, k: Key, b: nat, v: nat, i: nat, c: nat, w: nat)
    requires IsRun(states, steps) && n <= |steps|
  {
    && b < i < c < n && TakenAt(states, steps, b, v, k) && TakenAt(states, steps, c, w, k)
    && ForgetsActive(states, steps, i, k) && Creates(steps, n, v) && Creates(steps, n, w)
  }

  ghost predicate CreatedAgain(states: seq<State>, steps: seq<Step>, n: nat, k: Key)
    requires IsRun(states, steps) && n <= |steps|
  {
    exists b: nat, v: nat, i: nat, c: nat, w: nat :: TakenTwice(states, steps, n, k, b, v, i, c, w)
  }

  /** Between two requests taken under one key, its row was deleted. */
  lemma {:induction false} RowWasDeleted(states: seq<State>, steps: seq<Step>, b: nat, c: nat, k: Key) returns (i: nat)
    requires IsRun(states, steps) && b < c <= |steps| && k in states[b + 1].entries && k !in states[c].entries
    ensures b < i < c && k in states[i].entries && k !in states[i + 1].entries
  {
    if k in states[c - 1].entries {
      i := c - 1;
    } else {
      i := RowWasDeleted(states, steps, b, c - 1, k);
    }
  }

  /** From being taken to inserting its task a request is at work; then the task is there. */
  lemma ActiveSince(states: seq<State>, steps: seq<Step>, b: nat, w: nat, k: Key, j: nat, i: nat)
    requires FromStart(states, steps) && TakenAt(states, steps, b, w, k) && j < |steps| && CreatesFor(steps[j], w) && b < i < |steps|
    ensures HasTask(states[i + 1], k) || AtWork(states[i + 1], k)
  {
    if j <= i {
      CreatedTask(states, steps, i + 1, k, b, w, j);
    } else {
      NumbersGrow(states, steps, b + 1, i + 1);
      if w !in states[i + 1].works { LeftForGood(states, steps, i + 1, j, w); }
      var c := WorkWasTaken(states, steps, i + 1, w);
      TakenOnce(states, steps, b, c, w, k, states[i + 1].works[w].key);
    }
  }

  lemma TwoTasksNeedForgetting(states: seq<State>, steps: seq<Step>, n: nat, k: Key, t: TaskId, u: TaskId)
    requires FromStart(states, steps) && n <= |steps| && t != u && IsTaskOf(states[n], t, k) && IsTaskOf(states[n], u, k)
    ensures CreatedAgain(states, steps, n, k)
  {
    var b, v, j := TaskWasMade(states, steps, n, t);
    var c, w, l := TaskWasMade(states, steps, n, u);
    if j < l { CreatesOnce(states, steps, j, l, v); }
    if l < j { CreatesOnce(states, steps, l, j, w); }
    if b < c {
      MadeApart(states, steps, n, k, b, v, j, c, w, l);
    } else {
      MadeApart(states, steps, n, k, c, w, l, b, v, j);
    }
  }

  lemma MadeApart(states: seq<State>, steps: seq<Step>, n: nat, k: Key, b: nat, v: nat, j: nat, c: nat, w: nat, l: nat)
    requires FromStart(states, steps) && n <= |steps| && b < c && j < n && c < l < n
    requires TakenAt(states, steps, b, v, k) && CreatesFor(steps[j], v)
    requires TakenAt(states, steps, c, w, k) && CreatesFor(steps[l], w)
    ensures CreatedAgain(states, steps, n, k)
  {
    var i := RowWasDeleted(states, steps, b, c, k);
    ActiveSince(states, steps, b, v, k, j, i);
    assert TakenTwice(states, steps, n, k, b, v, i, c, w);
  }

  lemma TasksDiffer(states: seq<State>, steps: seq<Step>, j: nat, l: nat, v: nat, w: nat)
    requires FromStart(states, steps) && j < |steps| && l < |steps| && v != w && CreatesFor(steps[j], v) && CreatesFor(steps[l], w)
    ensures states[j].nextTask != states[l].nextTask
  {
    if j < l { NumbersGrow(states, steps, j + 1, l); }
    if l < j { NumbersGrow(states, steps, l + 1, j); }
  }

  lemma ForgettingGivesTwoTasks(states: seq<State>, steps: seq<Step>, n: nat, k: Key)
    requires FromStart(states, steps) && n <= |steps| && CreatedAgain(states, steps, n, k)
    ensures HasTwoTasks(states[n], k)
  {
    var b: nat, v: nat, i: nat, c: nat, w: nat :| TakenTwice(states, steps, n, k, b, v, i, c, w);
    BothCreate(states, steps, n, k, b, v, c, w);
  }

  lemma BothCreate(states: seq<State>, steps: seq<Step>, n: nat, k: Key, b: nat, v: nat, c: nat, w: nat)
    requires FromStart(states, steps) && n <= |steps| && b < c && TakenAt(states, steps, b, v, k) && TakenAt(states, steps, c, w, k)
    requires Creates(steps, n, v) && Creates(steps, n, w)
    ensures HasTwoTasks(states[n], k)
  {
    var j :| 0 <= j < n && CreatesFor(steps[j], v);
    var l :| 0 <= l < n && CreatesFor(steps[l], w);
    NumbersGrow(states, steps, b + 1, c);
    TasksDiffer(states, steps, j, l, v, w);
    CreatedTask(states, steps, n, k, b, v, j);
    CreatedTask(states, steps, n, k, c, w, l);
  }

  /** Exactly when one key gets two tasks. */
  lemma TwoTasksExactly(states: seq<State>, steps: seq<Step>, n: nat, k: Key)
    requires FromStart(states, steps) && n <= |steps|
    ensures HasTwoTasks(states[n], k) <==> CreatedAgain(states, steps, n, k)
  {
    if t, u :| t != u && IsTaskOf(states[n], t, k) && IsTaskOf(states[n], u, k) {
      TwoTasksNeedForgetting(states, steps, n, k, t, u);
    }
    if CreatedAgain(states, steps, n, k) { ForgettingGivesTwoTasks(states, steps, n, k); }
  }

  // -------------------------------------------------------------- the guarantees

  function FirstNats(n: nat): (s: set<nat>)
    ensures |s| == n && forall x: nat :: x in s <==> x < n
  {
    if n == 0 then {} else FirstNats(n - 1) + {n - 1}
  }

  ghost predicate ReportTrue(st: State, s: Success) {
    s.task in st.tasks && forall x :: x in s.images ==> (s.task, x) in st.uploads
  }

  lemma AtMostOneUnreported(st: State)
    requires Inv(st) && forall k :: !HasTwoTasks(st, k)
    ensures |st.tasks| <= |st.successes| + 1
  {
    var f := map t | t in st.tasks :: st.tasks[t].key;
    forall t, u | t in st.tasks.Keys && u in st.tasks.Keys && f[t] == f[u] ensures t == u {
      if t != u { assert IsTaskOf(st, t, f[t]) && IsTaskOf(st, u, f[t]) && HasTwoTasks(st, f[t]); }
    }
    InjectionSize(st.tasks.Keys, FirstNats(st.key + 1), f);
    assert |st.tasks.Keys| == |st.tasks|;
  }

  lemma EverySuccessHasItsTask(st: State)
    requires Inv(st)
    ensures |st.successes| <= |st.tasks|
    ensures forall i, j :: 0 <= i < j < |st.successes| ==> st.successes[i].task != st.successes[j].task
    ensures forall i :: 0 <= i < |st.successes| ==> ReportTrue(st, st.successes[i])
  {
    forall i | 0 <= i < |st.successes| ensures IsTaskOf(st, st.successes[i].task, i) && ReportTrue(st, st.successes[i]) {
      assert SuccessTrue(st, i);
    }
    var below := FirstNats(|st.successes|);
    InjectionSize(below, st.tasks.Keys, map i | i in below :: st.successes[i].task);
    assert |st.tasks.Keys| == |st.tasks|;
  }

  /** In any run, every success reports a task of its own, and the images it was pressed with are uploaded
      to that task; and at most one task exists beyond the reported ones, as long as no key that was
      forgotten while it was active is taken and created under again. */
  lemma ExactlyOncePerSuccess(states: seq<State>, steps: seq<Step>, n: nat)
    requires FromStart(states, steps) && n <= |steps|
    ensures var st := states[n];
            && (forall i, j :: 0 <= i < j < |st.successes| ==> st.successes[i].task != st.successes[j].task)
            && (forall i :: 0 <= i < |st.successes| ==> ReportTrue(st, st.successes[i]))
            && |st.successes| <= |st.tasks|
            && ((forall k :: !CreatedAgain(states, steps, n, k)) ==> |st.tasks| <= |st.successes| + 1)
  {
    RunKeepsInv(states, steps, n);
    EverySuccessHasItsTask(states[n]);
    if forall k :: !CreatedAgain(states, steps, n, k) {
      forall k ensures !HasTwoTasks(states[n], k) { TwoTasksExactly(states, steps, n, k); }
      AtMostOneUnreported(states[n]);
    }
  }

  /** Between two successes at most one task is created, under the same condition. */
  lemma AtMostOneBetweenSuccesses(states: seq<State>, steps: seq<Step>, i: nat, j: nat)
    requires FromStart(states, steps) && i <= j <= |steps|
    requires forall k :: !CreatedAgain(states, steps, j, k)
    requires |states[j].successes| == |states[i].successes|
    ensures |states[j].tasks| <= |states[i].tasks| + 1
  {
    ExactlyOncePerSuccess(states, steps, i);
    ExactlyOncePerSuccess(states, steps, j);
  }

  // --------------------------------------------------------- runs that break it

  lemma Extended(states: seq<State>, steps: seq<Step>, step: Step) returns (longer: seq<State>, more: seq<Step>)
    requires FromStart(states, steps) && Enabled(states[|steps|], step)
    ensures more == steps + [step] && longer == states + [Apply(states[|steps|], step)] && FromStart(longer, more)
    ensures longer[|more|] == Apply(states[|steps|], step)
  {
    longer, more := states + [Apply(states[|steps|], step)], steps + [step];
  }

  lemma FirstPress(d: Draft) returns (states: seq<State>, steps: seq<Step>)
    ensures FromStart(states, steps) && steps == [Edit(d), Press, Take(Request(0, 0, d.body))]
    ensures var r := Request(0, 0, d.body);
            states[3] == INIT.(draft := d, attempt := Sent(r, d.images), nextRequest := 1, wire := {r},
                               entries := map[0 := InProgress(d.body)], works := map[0 := r], nextWork := 1)
  {
    states, steps := [INIT], [];
    states, steps := Extended(states, steps, Edit(d));
    states, steps := Extended(states, steps, Press);
    states, steps := Extended(states, steps, Take(Request(0, 0, d.body)));
  }

  /** Pressed once more while the key is unknown to the server: the new request is put to work. */
  lemma SecondPress(states: seq<State>, steps: seq<Step>, b: Body) returns (longer: seq<State>, more: seq<Step>)
    requires FromStart(states, steps)
    requires var st := states[|steps|];
             && st.draft == Draft(b, {}) && st.pending.None? && st.key == 0 && st.attempt.Idle? && st.entries == map[]
             && st.nextRequest == st.nextWork == 1
    ensures var st, r := states[|steps|], Request(1, 0, b);
            && more == steps + [Press, Take(r)] && FromStart(longer, more)
            && longer[|more|] == st.(attempt := Sent(r, {}), nextRequest := 2, wire := st.wire + {r},
                                     entries := map[0 := InProgress(b)], works := st.works[1 := r], nextWork := 2)
  {
    longer, more := Extended(states, steps, Press);
    longer, more := Extended(longer, more, Take(Request(1, 0, b)));
  }

  ghost predicate TwoTasksNoSuccess(states: seq<State>, steps: seq<Step>) {
    FromStart(states, steps) && HasTwoTasks(states[|steps|], 0) && states[|steps|].successes == []
  }

  lemma TwoOfKeyZero(states: seq<State>, steps: seq<Step>)
    requires FromStart(states, steps) && states[|steps|].successes == []
    requires IsTaskOf(states[|steps|], 0, 0) && IsTaskOf(states[|steps|], 1, 0)
    ensures TwoTasksNoSuccess(states, steps)
  {
  }

  /** The first way: the response is lost, the key expires, and the button is pressed again. */
  lemma ForgottenKeyCreatesAgain(b: Body) returns (states: seq<State>, steps: seq<Step>)
    ensures TwoTasksNoSuccess(states, steps)
    ensures var r, s := Request(0, 0, b), Request(1, 0, b);
            steps == [Edit(Draft(b, {})), Press, Take(r), Finish(0), CreateFails, Purge(0), Press, Take(s), Finish(1)]
  {
    states, steps := FirstPress(Draft(b, {}));
    states, steps := Extended(states, steps, Finish(0));
    states, steps := Extended(states, steps, CreateFails);
    states, steps := Extended(states, steps, Purge(0));
    states, steps := SecondPress(states, steps, b);
    states, steps := Extended(states, steps, Finish(1));
    TwoOfKeyZero(states, steps);
  }

  /** The second: the work fails after its insert was committed, and the error path releases the key. */
  lemma LateFailureCreatesAgain(b: Body) returns (states: seq<State>, steps: seq<Step>)
    ensures TwoTasksNoSuccess(states, steps)
    ensures var r, s := Request(0, 0, b), Request(1, 0, b);
            steps == [Edit(Draft(b, {})), Press, Take(r), WorkFails(0, true), CreateFails, Press, Take(s), Finish(1)]
  {
    states, steps := FirstPress(Draft(b, {}));
    states, steps := Extended(states, steps, WorkFails(0, true));
    states, steps := Extended(states, steps, CreateFails);
    states, steps := SecondPress(states, steps, b);
    states, steps := Extended(states, steps, Finish(1));
    TwoOfKeyZero(states, steps);
  }

  lemma ExpiredAtWork(b: Body) returns (states: seq<State>, steps: seq<Step>)
    ensures FromStart(states, steps)
    ensures var r, s := Request(0, 0, b), Request(1, 0, b);
            && steps == [Edit(Draft(b, {})), Press, Take(r), CreateFails, Purge(0), Press, Take(s)]
            && states[7].works == map[0 := r, 1 := s] && states[7].tasks == map[] && states[7].nextTask == 0
            && states[7].successes == []
  {
    states, steps := FirstPress(Draft(b, {}));
    states, steps := Extended(states, steps, CreateFails);
    states, steps := Extended(states, steps, Purge(0));
    states, steps := SecondPress(states, steps, b);
  }

  /** The third: the key expires while its request is still at work; the request goes on, and so does the
      one that takes its place. */
  lemma ExpiryAtWorkCreatesAgain(b: Body) returns (states: seq<State>, steps: seq<Step>)
    ensures TwoTasksNoSuccess(states, steps)
    ensures var r, s := Request(0, 0, b), Request(1, 0, b);
            steps == [Edit(Draft(b, {})), Press, Take(r), CreateFails, Purge(0), Press, Take(s), Finish(0), Finish(1)]
  {
    states, steps := ExpiredAtWork(b);
    states, steps := Extended(states, steps, Finish(0));
    states, steps := Extended(states, steps, Finish(1));
    TwoOfKeyZero(states, steps);
  }
}
