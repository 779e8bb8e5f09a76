/** When an attempt of the form can still be answered, and when the form is stuck. */
module SubmissionAnswers {
  import opened TaskSubmission

  predicate OfServer(step: Step) {
    step.Take? || step.Finish? || step.WorkFails? || step.WorkStops?
  }

  ghost predicate Answered(st: State, r: Request) {
    exists t :: (r, t) in st.replies
  }

  ghost predicate RequestAtWork(st: State, r: Request) {
    exists w :: w in st.works && st.works[w] == r
  }

  /** The server can still bring it about that a response with a task is sent to the attempt. */
  ghost predicate CanBeAnswered(st: State) {
    st.attempt.Sent? && exists states, steps :: ServerRun(st, states, steps) && Answered(states[|steps|], st.attempt.request)
  }

  ghost predicate ServerRun(st: State, states: seq<State>, steps: seq<Step>) {
    IsRun(states, steps) && states[0] == st && forall i :: 0 <= i < |steps| ==> OfServer(steps[i])
  }

  /** The row refuses the request: it is finished with another text, or nobody will ever finish it. */
  ghost predicate RowRefuses(st: State, r: Request) {
    && r.key in st.entries
    && match st.entries[r.key]
       case Done(b, _) => b != r.body
       case InProgress(_) => !AtWork(st, r.key)
  }

  ghost predicate RefusedNow(st: State, r: Request) {
    !Answered(st, r) && !RequestAtWork(st, r) && RowRefuses(st, r)
  }

  lemma ServerStepRefuses(st: State, step: Step, r: Request)
    requires Enabled(st, step) && OfServer(step) && RefusedNow(st, r)
    ensures RefusedNow(Apply(st, step), r)
  {
    var st' := Apply(st, step);
    assert forall w :: w in st'.works && w in st.works ==> st'.works[w] == st.works[w] || w == st.nextWork;
  }

  lemma {:induction false} RefusedStays(states: seq<State>, steps: seq<Step>, n: nat, r: Request)
    requires |states| > 0 && ServerRun(states[0], states, steps) && n <= |steps| && RefusedNow(states[0], r)
    ensures RefusedNow(states[n], r)
  {
    if n == 0 {
    } else {
      RefusedStays(states, steps, n - 1, r);
      ServerStepRefuses(states[n - 1], steps[n - 1], r);
    }
  }

  /** Exactly when an attempt can still be answered: unless its row is finished with another text, or was
      left in progress by a request that died or could not store its response. */
  lemma AnswerableExactly(st: State)
    requires FormTrue(st) && st.attempt.Sent?
    ensures CanBeAnswered(st) <==> !RefusedNow(st, st.attempt.request)
  {
    var r := st.attempt.request;
    if CanBeAnswered(st) {
      var states, steps :| ServerRun(st, states, steps) && Answered(states[|steps|], r);
      if RefusedNow(st, r) { RefusedStays(states, steps, |steps|, r); }
    }
    if !RefusedNow(st, r) { Answer(st, r); }
  }

  lemma Answer(st: State, r: Request)
    requires st.attempt.Sent? && st.attempt.request == r && r in st.wire && !RefusedNow(st, r)
    ensures CanBeAnswered(st)
  {
    if Answered(st, r) {
      assert ServerRun(st, [st], []);
    } else if w :| w in st.works && st.works[w] == r {
      FinishAnswers(st, [st], [], w);
    } else if r.key !in st.entries {
      FinishAnswers(st, [st, Apply(st, Take(r))], [Take(r)], st.nextWork);
    } else if st.entries[r.key].Done? {
      var next := Apply(st, Take(r));
      assert (r, st.entries[r.key].task) in next.replies;
      assert ServerRun(st, [st, next], [Take(r)]) && Answered([st, next][1], r);
    } else {
      var w :| w in st.works && st.works[w].key == r.key;
      var free := Apply(st, WorkFails(w, false));
      FinishAnswers(st, [st, free, Apply(free, Take(r))], [WorkFails(w, false), Take(r)], st.nextWork);
    }
  }

  lemma FinishAnswers(st: State, states: seq<State>, steps: seq<Step>, w: nat)
    requires st.attempt.Sent? && ServerRun(st, states, steps)
    requires w in states[|steps|].works && states[|steps|].works[w] == st.attempt.request
    ensures CanBeAnswered(st)
  {
    var last := states[|steps|];
    var end := Apply(last, Finish(w));
    assert (st.attempt.request, last.nextTask) in end.replies;
    assert ServerRun(st, states + [end], steps + [Finish(w)]);
    assert Answered((states + [end])[|steps + [Finish(w)]|], st.attempt.request);
  }

  /** Why a key refuses: it is finished with this text, or left in progress with nobody at work. */
  datatype Cause = FinishedWith(body: Body) | Abandoned

  ghost predicate Holds(st: State, key: Key, cause: Cause) {
    && key in st.entries
    && match cause
       case FinishedWith(b) => st.entries[key].Done? && st.entries[key].body == b
       case Abandoned => st.entries[key].InProgress? && !AtWork(st, key)
  }

  predicate RefusedBy(cause: Cause, b: Body) {
    cause.FinishedWith? ==> b != cause.body
  }

  /** The key refuses the attempt, if there is one. */
  ghost predicate Stuck(st: State, key: Key, cause: Cause, successes: seq<Success>) {
    && Ids(st) && st.successes == successes && st.key == key && st.pending.None? && !st.attempt.Uploading?
    && Holds(st, key, cause)
    && (st.attempt.Sent? ==>
          && var r := st.attempt.request;
          && r.key == key && RefusedBy(cause, r.body) && !Answered(st, r) && !RequestAtWork(st, r))
  }

  lemma HoldsOn(st: State, step: Step, key: Key, cause: Cause)
    requires Ids(st) && Enabled(st, step) && step != Purge(key) && Holds(st, key, cause)
    ensures Holds(Apply(st, step), key, cause)
  {
    var st' := Apply(st, step);
    assert forall w :: w in st'.works && w in st.works ==> st'.works[w] == st.works[w];
  }

  lemma AttemptStaysRefused(st: State, step: Step, key: Key, cause: Cause, r: Request)
    requires Ids(st) && Enabled(st, step) && Holds(st, key, cause) && r.key == key && RefusedBy(cause, r.body)
    requires !Answered(st, r) && !RequestAtWork(st, r)
    ensures !Answered(Apply(st, step), r) && !RequestAtWork(Apply(st, step), r)
  {
    var st' := Apply(st, step);
    assert forall w :: w in st'.works && w in st.works ==> st'.works[w] == st.works[w];
  }

  lemma StepStaysStuck(st: State, step: Step, key: Key, cause: Cause, successes: seq<Success>)
    requires Stuck(st, key, cause, successes) && Enabled(st, step) && step != Purge(key) && FormTrue(st)
    requires step.Press? ==> RefusedBy(cause, st.draft.body)
    ensures Stuck(Apply(st, step), key, cause, successes)
  {
    StepKeepsIds(st, step);
    HoldsOn(st, step, key, cause);
    if st.attempt.Sent? { AttemptStaysRefused(st, step, key, cause, st.attempt.request); }
  }

  lemma {:induction false} StaysStuck(states: seq<State>, steps: seq<Step>, n: nat, cause: Cause)
    requires IsRun(states, steps) && n <= |steps| && Stuck(states[0], states[0].key, cause, states[0].successes) && FormTrue(states[0])
    requires forall i :: 0 <= i < |steps| ==> steps[i] != Purge(states[0].key)
    requires forall i :: 0 <= i < |steps| && steps[i].Press? ==> RefusedBy(cause, states[i].draft.body)
    ensures Stuck(states[n], states[0].key, cause, states[0].successes) && FormTrue(states[n])
  {
    if n == 0 {
    } else {
      StaysStuck(states, steps, n - 1, cause);
      StepStaysStuck(states[n - 1], steps[n - 1], states[0].key, cause, states[0].successes);
      StepKeepsForm(states[n - 1], steps[n - 1]);
    }
  }

  /** After an edit that follows a lost response, nothing but pressing with the old text, or the key's
      expiry, ever lets the form succeed. */
  lemma EditedAfterLossIsStuck(states: seq<State>, steps: seq<Step>, n: nat, b: Body)
    requires IsRun(states, steps) && n <= |steps| && FormTrue(states[0])
    requires Stuck(states[0], states[0].key, FinishedWith(b), states[0].successes)
    requires forall i :: 0 <= i < |steps| ==> steps[i] != Purge(states[0].key)
    requires forall i :: 0 <= i < |steps| && steps[i].Press? ==> states[i].draft.body != b
    ensures states[n].successes == states[0].successes && states[n].key == states[0].key && !states[n].attempt.Uploading?
  {
    StaysStuck(states, steps, n, FinishedWith(b));
  }

  /** After a request died on the server, or could not store its response, no text does: only the
      key's expiry. */
  lemma AbandonedKeyIsStuck(states: seq<State>, steps: seq<Step>, n: nat)
    requires IsRun(states, steps) && n <= |steps| && FormTrue(states[0])
    requires Stuck(states[0], states[0].key, Abandoned, states[0].successes)
    requires forall i :: 0 <= i < |steps| ==> steps[i] != Purge(states[0].key)
    ensures states[n].successes == states[0].successes && states[n].key == states[0].key && !states[n].attempt.Uploading?
  {
    StaysStuck(states, steps, n, Abandoned);
  }

  /** Both happen: the create response is lost after the server finished, or the server dies at its work. */
  lemma StuckIsReachable(b: Body, cause: Cause) returns (states: seq<State>, steps: seq<Step>)
    requires cause.FinishedWith? ==> cause.body == b
    ensures FromStart(states, steps)
    ensures var st := states[|steps|];
            st.attempt.Idle? && st.draft.body == b && Stuck(st, 0, cause, [])
  {
    states, steps := FirstPress(Draft(b, {}));
    states, steps := Extended(states, steps, if cause.Abandoned? then WorkStops(0, false) else Finish(0));
    states, steps := Extended(states, steps, CreateFails);
    RunKeepsInv(states, steps, |steps|);
  }
}
