/** Which text a reported task has: the text of the press that created it, and when that is the text
    that was pressed last. */
module SubmissionTexts {
  import opened TaskSubmission

  /** The last press before `k` is at `p`. */
  ghost predicate LastPress(steps: seq<Step>, p: nat, k: nat) {
    p < k <= |steps| && steps[p].Press? && forall m :: p < m < k ==> !steps[m].Press?
  }

  /** The attempt carries what the form had at the last press. */
  ghost predicate PressedWith(states: seq<State>, steps: seq<Step>, k: nat, p: nat)
    requires IsRun(states, steps) && k <= |steps| && !states[k].attempt.Idle?
  {
    var attempt := states[k].attempt;
    LastPress(steps, p, k) && states[p].key == states[k].key && states[p].draft == Draft(attempt.Text(), attempt.images)
  }

  lemma StepKeepsAttempt(st: State, step: Step)
    requires Enabled(st, step) && !Apply(st, step).attempt.Idle?
    ensures var st' := Apply(st, step);
            && st'.key == st.key
            && if step.Press? then Draft(st'.attempt.Text(), st'.attempt.images) == st.draft
               else !st.attempt.Idle? && st'.attempt.Text() == st.attempt.Text() && st'.attempt.images == st.attempt.images
  {
  }

  lemma {:induction false} AttemptWasPressed(states: seq<State>, steps: seq<Step>, k: nat) returns (p: nat)
    requires IsRun(states, steps) && k <= |steps| && states[0] == INIT && !states[k].attempt.Idle?
    ensures PressedWith(states, steps, k, p)
  {
    assert k > 0;
    StepKeepsAttempt(states[k - 1], steps[k - 1]);
    if steps[k - 1].Press? {
      p := k - 1;
    } else {
      p := AttemptWasPressed(states, steps, k - 1);
    }
  }

  /** The press at `q` sent this request, with the text that the form had then. */
  ghost predicate SentAt(states: seq<State>, steps: seq<Step>, q: nat, r: Request)
    requires IsRun(states, steps)
  {
    && q < |steps| && steps[q].Press? && states[q].pending.None?
    && r == Request(states[q].nextRequest, states[q].key, states[q].draft.body)
  }

  lemma {:induction false} RequestWasSent(states: seq<State>, steps: seq<Step>, n: nat, r: Request) returns (q: nat)
    requires IsRun(states, steps) && n <= |steps| && states[0] == INIT && r in states[n].wire
    ensures q < n && SentAt(states, steps, q, r)
  {
    assert n > 0;
    if r in states[n - 1].wire {
      q := RequestWasSent(states, steps, n - 1, r);
    } else {
      q := n - 1;
    }
  }

  /** The success has the text and images of the press at `p`, the last one under its key. */
  ghost predicate ReportsPress(states: seq<State>, steps: seq<Step>, n: nat, i: nat, p: nat)
    requires IsRun(states, steps) && n <= |steps| && i < |states[n].successes|
  {
    var s := states[n].successes[i];
    && p < n && steps[p].Press? && states[p].key == i && states[p].draft == Draft(s.body, s.images)
    && forall m :: p < m < n && steps[m].Press? ==> states[m].key > i
  }

  lemma SuccessStep(st: State, step: Step)
    requires Enabled(st, step) && |Apply(st, step).successes| > |st.successes| && |st.successes| == st.key
    ensures |Apply(st, step).successes| == st.key + 1
    ensures var s := Apply(st, step).successes[st.key];
            && (step.Press? || !st.attempt.Idle?)
            && Draft(s.body, s.images) == (if step.Press? then st.draft else Draft(st.attempt.Text(), st.attempt.images))
  {
  }

  lemma SuccessesCount(states: seq<State>, steps: seq<Step>, n: nat)
    requires FromStart(states, steps) && n <= |steps|
    ensures |states[n].successes| == states[n].key
  {
    RunKeepsInv(states, steps, n);
  }

  lemma OldSuccess(states: seq<State>, steps: seq<Step>, m: nat, i: nat, p: nat)
    requires FromStart(states, steps) && m < |steps| && i < |states[m].successes| && ReportsPress(states, steps, m, i, p)
    ensures i < |states[m + 1].successes| && ReportsPress(states, steps, m + 1, i, p)
  {
    SuccessesCount(states, steps, m);
  }

  lemma NewSuccess(states: seq<State>, steps: seq<Step>, m: nat) returns (p: nat)
    requires FromStart(states, steps) && m < |steps| && |states[m + 1].successes| > |states[m].successes|
    ensures |states[m + 1].successes| == states[m].key + 1 && ReportsPress(states, steps, m + 1, states[m].key, p)
  {
    SuccessesCount(states, steps, m);
    SuccessStep(states[m], steps[m]);
    if steps[m].Press? {
      p := m;
    } else {
      p := AttemptWasPressed(states, steps, m);
    }
  }

  lemma {:induction false} SuccessReportsPress(states: seq<State>, steps: seq<Step>, n: nat, i: nat) returns (p: nat)
    requires FromStart(states, steps) && n <= |steps| && i < |states[n].successes|
    ensures ReportsPress(states, steps, n, i, p)
  {
    assert n > 0;
    SuccessesCount(states, steps, n - 1);
    if i < |states[n - 1].successes| {
      p := SuccessReportsPress(states, steps, n - 1, i);
      OldSuccess(states, steps, n - 1, i, p);
    } else {
      p := NewSuccess(states, steps, n - 1);
    }
  }

  /** Every success, with any images and after any number of retries: it reports the text and images of the
      last press under its key, and its task has the text of the press whose request created it; so the
      task has the reported text exactly when the two presses had the same. */
  lemma ReportedTextExactly(states: seq<State>, steps: seq<Step>, n: nat, i: nat) returns (q: nat, p: nat)
    requires FromStart(states, steps) && n <= |steps| && i < |states[n].successes|
    ensures ReportsPress(states, steps, n, i, p)
    ensures var s := states[n].successes[i];
            && IsTaskOf(states[n], s.task, i) && q <= p && SentAt(states, steps, q, states[n].tasks[s.task])
            && (states[n].tasks[s.task].body == s.body <==> states[q].draft.body == states[p].draft.body)
  {
    p := SuccessReportsPress(states, steps, n, i);
    RunKeepsInv(states, steps, n);
    assert SuccessTrue(states[n], i);
    q := RequestWasSent(states, steps, n, states[n].tasks[states[n].successes[i].task]);
  }

  // ----------------------------------------------------------- what the form holds

  /** A success resets the form: it empties the draft, forgets the pending task, and takes the next key. */
  lemma SuccessResetsForm(states: seq<State>, steps: seq<Step>, n: nat)
    requires FromStart(states, steps) && n < |steps| && states[n + 1].successes != states[n].successes
    ensures var st := states[n + 1];
            && st.draft == Draft("", {}) && st.pending.None? && st.attempt.Idle? && st.key == states[n].key + 1
            && |st.successes| == |states[n].successes| + 1
  {
  }

  /** Since the start, or since the last success: the step that added it is the one before `e`. */
  ghost predicate SinceSuccess(states: seq<State>, steps: seq<Step>, e: nat, n: nat)
    requires IsRun(states, steps)
  {
    && e <= n <= |steps| && (e == 0 || states[e].successes != states[e - 1].successes)
    && forall m :: e <= m < n ==> states[m + 1].successes == states[m].successes
  }

  /** The draft is the one of the last edit since `e`, or empty if there is none. */
  ghost predicate HoldsLastEdit(states: seq<State>, steps: seq<Step>, e: nat, n: nat)
    requires IsRun(states, steps) && e <= n <= |steps|
  {
    || (exists m :: e <= m < n && steps[m] == Edit(states[n].draft) && forall j :: m < j < n ==> !steps[j].Edit?)
    || (states[n].draft == Draft("", {}) && forall j :: e <= j < n ==> !steps[j].Edit?)
  }

  lemma DraftStays(st: State, step: Step)
    requires Enabled(st, step) && !step.Edit? && Apply(st, step).successes == st.successes
    ensures Apply(st, step).draft == st.draft
  {
  }

  /** In every run the form holds what was put into it since the last success, whatever failed in between. */
  lemma {:induction false} FormSinceSuccess(states: seq<State>, steps: seq<Step>, n: nat) returns (e: nat)
    requires FromStart(states, steps) && n <= |steps|
    ensures SinceSuccess(states, steps, e, n) && HoldsLastEdit(states, steps, e, n) && states[e].key == states[n].key
  {
    if n == 0 {
      e := 0;
    } else if states[n].successes != states[n - 1].successes {
      SuccessResetsForm(states, steps, n - 1);
      e := n;
    } else {
      e := FormSinceSuccess(states, steps, n - 1);
      if steps[n - 1].Edit? {
        assert steps[n - 1] == Edit(states[n].draft);
      } else {
        DraftStays(states[n - 1], steps[n - 1]);
      }
      SuccessesCount(states, steps, n - 1);
      SuccessesCount(states, steps, n);
    }
  }

  /** So every request carries a text that was put into the form after the last success before it, or an
      empty one. */
  lemma RequestTextIsNew(states: seq<State>, steps: seq<Step>, n: nat, r: Request) returns (q: nat, e: nat)
    requires FromStart(states, steps) && n <= |steps| && r in states[n].wire
    ensures q < n && SentAt(states, steps, q, r) && SinceSuccess(states, steps, e, q) && states[e].key == r.key
    ensures r.body == "" || exists m :: e <= m < q && steps[m].Edit? && steps[m].draft.body == r.body
  {
    q := RequestWasSent(states, steps, n, r);
    e := FormSinceSuccess(states, steps, q);
  }

  /** They need not be the same: text that is edited while a created task waits for its images is
      reported, and dropped. */
  lemma EditWhileWaitingIsDropped(b: Body, other: Body, image: string) returns (states: seq<State>, steps: seq<Step>)
    ensures FromStart(states, steps)
    ensures states[|steps|].successes == [Success(0, 0, other, {image})]
    ensures states[|steps|].tasks == map[0 := Request(0, 0, b)]
  {
    states, steps := FirstPress(Draft(b, {image}));
    states, steps := Extended(states, steps, Finish(0));
    states, steps := Extended(states, steps, Arrives(0));
    states, steps := Extended(states, steps, UploadFails({}));
    states, steps := Extended(states, steps, Edit(Draft(other, {image})));
    states, steps := Extended(states, steps, Press);
    var st := states[|steps|];
    assert st.attempt == Uploading(0, other, {image}) && st.key == 0;
    states, steps := Extended(states, steps, UploadArrives);
  }

  /** Every uploaded image was in the form at a press under its task's key. */
  lemma {:induction false} UploadsWerePressed(states: seq<State>, steps: seq<Step>, n: nat, task: TaskId, image: string)
    returns (p: nat)
    requires FromStart(states, steps) && n <= |steps| && (task, image) in states[n].uploads
    ensures p < n && steps[p].Press? && image in states[p].draft.images && IsTaskOf(states[n], task, states[p].key)
  {
    assert n > 0;
    var st := states[n - 1];
    if (task, image) in st.uploads {
      p := UploadsWerePressed(states, steps, n - 1, task, image);
    } else {
      RunKeepsInv(states, steps, n - 1);
      UploadFromStep(st, steps[n - 1], task, image);
      p := AttemptWasPressed(states, steps, n - 1);
    }
    hide Apply, Inv;
    TaskUnchanged(states, steps, n - 1, task);
  }

  lemma UploadFromStep(st: State, step: Step, task: TaskId, image: string)
    requires Inv(st) && Enabled(st, step) && (task, image) !in st.uploads && (task, image) in Apply(st, step).uploads
    ensures st.attempt.Uploading? && st.attempt.task == task && image in st.attempt.images && IsTaskOf(st, task, st.key)
  {
  }

  /** An upload that stored everything but failed is retried on the same task: one task, one success. */
  lemma FailedUploadIsRetried(b: Body, image: string) returns (states: seq<State>, steps: seq<Step>)
    ensures FromStart(states, steps) && UploadFails({image}) in steps
    ensures states[|steps|].successes == [Success(0, 0, b, {image})]
    ensures states[|steps|].tasks == map[0 := Request(0, 0, b)] && states[|steps|].uploads == {(0, image)}
  {
    states, steps := FirstPress(Draft(b, {image}));
    states, steps := Extended(states, steps, Finish(0));
    states, steps := Extended(states, steps, Arrives(0));
    states, steps := Extended(states, steps, UploadFails({image}));
    states, steps := Extended(states, steps, Press);
    var st := states[|steps|];
    assert st.attempt == Uploading(0, b, {image}) && st.key == 0 && st.uploads == {(0, image)};
    states, steps := Extended(states, steps, UploadArrives);
  }

  /** The row of a key belongs to the one request at work under it, and there is no task yet. */
  ghost predicate WorkClean(st: State, k: Key) {
    forall w :: w in st.works && st.works[w].key == k ==>
      && k in st.entries && st.entries[k] == InProgress(st.works[w].body) && !HasTask(st, k)
      && forall v :: v in st.works && st.works[v].key == k ==> v == w
  }

  /** A key with a task has a row. */
  ghost predicate TaskClean(st: State, k: Key) {
    HasTask(st, k) ==> k in st.entries
  }

  /** The row and the responses of a key give tasks with their own text. */
  ghost predicate TextClean(st: State, k: Key) {
    && (k in st.entries && st.entries[k].Done? ==>
          st.entries[k].task in st.tasks && st.tasks[st.entries[k].task].body == st.entries[k].body)
    && (forall a :: a in st.replies && a.0.key == k ==> a.1 in st.tasks && st.tasks[a.1].body == a.0.body)
  }

  ghost predicate KeyClean(st: State, k: Key) {
    WorkClean(st, k) && TaskClean(st, k) && TextClean(st, k)
  }

  /** The step does not delete the row of an active key. */
  ghost predicate KeepsActive(st: State, step: Step, k: Key)
    requires Enabled(st, step)
  {
    var st' := Apply(st, step);
    k in st.entries && k !in st'.entries ==> !HasTask(st', k) && !AtWork(st', k)
  }

  lemma TaskFromStep(st: State, step: Step, k: Key)
    requires Numbered(st) && Enabled(st, step)
    ensures HasTask(st, k) ==> HasTask(Apply(st, step), k)
    ensures HasTask(Apply(st, step), k) ==>
              HasTask(st, k) || exists w :: w in st.works && st.works[w].key == k && CreatesFor(step, w)
  {
    if t :| IsTaskOf(st, t, k) {
      StepKeepsTask(st, step, t);
      assert IsTaskOf(Apply(st, step), t, k);
    } else if t :| IsTaskOf(Apply(st, step), t, k) {
      assert !IsTaskOf(st, t, k);
    }
  }

  lemma RowFromStep(st: State, step: Step, k: Key)
    requires Enabled(st, step) && k in Apply(st, step).entries
    ensures k !in st.entries ==> step.Take? && step.r.key == k && Apply(st, step).entries[k] == InProgress(step.r.body)
    ensures k in st.entries ==>
              || Apply(st, step).entries[k] == st.entries[k]
              || (step.Finish? && st.works[step.w].key == k && Apply(st, step).entries[k] == Done(st.entries[k].body, st.nextTask))
  {
  }

  lemma StepKeepsWorkClean(st: State, step: Step, k: Key)
    requires Numbered(st) && WorkClean(st, k) && TaskClean(st, k) && Enabled(st, step) && KeepsActive(st, step, k)
    ensures WorkClean(Apply(st, step), k)
  {
    var st' := Apply(st, step);
    TaskFromStep(st, step, k);
    forall w | w in st'.works && st'.works[w].key == k
      ensures k in st'.entries && st'.entries[k] == InProgress(st'.works[w].body) && !HasTask(st', k)
      ensures forall v :: v in st'.works && st'.works[v].key == k ==> v == w
    {
      assert AtWork(st', k);
      WorkFromStep(st, step, w);
      forall v | v in st'.works && st'.works[v].key == k ensures v == w { WorkFromStep(st, step, v); }
      if k in st'.entries { RowFromStep(st, step, k); }
    }
  }

  lemma StepKeepsTaskClean(st: State, step: Step, k: Key)
    requires Numbered(st) && WorkClean(st, k) && TaskClean(st, k) && Enabled(st, step) && KeepsActive(st, step, k)
    ensures TaskClean(Apply(st, step), k)
  {
    TaskFromStep(st, step, k);
  }

  lemma StepKeepsTextClean(st: State, step: Step, k: Key)
    requires Ids(st) && WorkClean(st, k) && TextClean(st, k) && Enabled(st, step)
    ensures TextClean(Apply(st, step), k)
  {
    var st' := Apply(st, step);
    forall t | t in st.tasks ensures t in st'.tasks && st'.tasks[t] == st.tasks[t] { StepKeepsTask(st, step, t); }
    if k in st'.entries { RowFromStep(st, step, k); }
  }

  lemma StepKeepsClean(st: State, step: Step, k: Key)
    requires Ids(st) && KeyClean(st, k) && Enabled(st, step) && KeepsActive(st, step, k)
    ensures KeyClean(Apply(st, step), k)
  {
    StepKeepsWorkClean(st, step, k);
    StepKeepsTaskClean(st, step, k);
    StepKeepsTextClean(st, step, k);
  }

  lemma RunIsSound(states: seq<State>, steps: seq<Step>, n: nat)
    requires FromStart(states, steps) && n <= |steps|
    ensures Ids(states[n])
  {
    RunKeepsInv(states, steps, n);
  }

  lemma NotForgotten(states: seq<State>, steps: seq<Step>, i: nat, k: Key)
    requires FromStart(states, steps) && i < |steps| && !ForgetsActive(states, steps, i, k)
    ensures KeepsActive(states[i], steps[i], k)
  {
  }

  lemma {:induction false} RepliesHaveTheirText(states: seq<State>, steps: seq<Step>, n: nat, k: Key)
    requires FromStart(states, steps) && n <= |steps| && forall i :: 0 <= i < n ==> !ForgetsActive(states, steps, i, k)
    ensures KeyClean(states[n], k)
  {
    if n == 0 {
    } else {
      RepliesHaveTheirText(states, steps, n - 1, k);
      NotForgotten(states, steps, n - 1, k);
      RunIsSound(states, steps, n - 1);
      StepKeepsClean(states[n - 1], steps[n - 1], k);
    }
  }

  /** The text is left alone while an attempt is under way or a created task waits for its images. */
  predicate NoLateEdit(st: State, step: Step) {
    step.Edit? && step.draft.body != st.draft.body ==> st.attempt.Idle? && st.pending.None?
  }

  ghost predicate EditsInTime(states: seq<State>, steps: seq<Step>)
    requires IsRun(states, steps)
  {
    forall i :: 0 <= i < |steps| ==> NoLateEdit(states[i], steps[i])
  }

  /** Without a late edit the texts can differ too: a request whose row expired writes its response into the row of the next
      one, whatever that one's text, and a third press with that text is answered with it. */
  lemma OtherTextIsReported(b: Body, other: Body) returns (states: seq<State>, steps: seq<Step>)
    ensures FromStart(states, steps) && EditsInTime(states, steps)
    ensures states[|steps|].successes == [Success(0, 0, other, {})]
    ensures 0 in states[|steps|].tasks && states[|steps|].tasks[0].body == b
  {
    states, steps := RowTakenOver(b, other);
    var r := Request(2, 0, other);
    states, steps := InTime(states, steps, CreateFails);
    states, steps := InTime(states, steps, Press);
    states, steps := InTime(states, steps, Take(r));
    states, steps := InTime(states, steps, Arrives(0));
  }

  lemma InTime(states: seq<State>, steps: seq<Step>, step: Step) returns (longer: seq<State>, more: seq<Step>)
    requires FromStart(states, steps) && EditsInTime(states, steps) && Enabled(states[|steps|], step)
    requires NoLateEdit(states[|steps|], step)
    ensures FromStart(longer, more) && EditsInTime(longer, more) && longer[|more|] == Apply(states[|steps|], step)
  {
    longer, more := Extended(states, steps, step);
  }

  /** The row of the second request holds the response of the first one. */
  lemma RowTakenOver(b: Body, other: Body) returns (states: seq<State>, steps: seq<Step>)
    ensures FromStart(states, steps) && EditsInTime(states, steps)
    ensures var st := states[|steps|];
            && st.attempt == Sent(Request(1, 0, other), {}) && st.draft == Draft(other, {}) && st.pending.None?
            && st.key == 0 && st.nextRequest == 2 && st.successes == []
            && st.entries == map[0 := Done(other, 0)] && st.tasks == map[0 := Request(0, 0, b)]
  {
    states, steps := [INIT], [];
    states, steps := InTime(states, steps, Edit(Draft(b, {})));
    states, steps := InTime(states, steps, Press);
    states, steps := InTime(states, steps, Take(Request(0, 0, b)));
    states, steps := InTime(states, steps, CreateFails);
    states, steps := InTime(states, steps, Purge(0));
    states, steps := InTime(states, steps, Edit(Draft(other, {})));
    states, steps := InTime(states, steps, Press);
    states, steps := InTime(states, steps, Take(Request(1, 0, other)));
    states, steps := InTime(states, steps, Finish(0));
  }

  /** The created task has the text that the form has. */
  ghost predicate TextTrue(st: State) {
    && (st.pending.Some? ==> st.pending.value in st.tasks && st.tasks[st.pending.value].body == st.draft.body)
    && (!st.attempt.Idle? ==> st.attempt.Text() == st.draft.body)
    && forall s :: s in st.successes ==> s.task in st.tasks && st.tasks[s.task].body == s.body
  }

  lemma StepKeepsText(st: State, step: Step)
    requires Inv(st) && TextTrue(st) && KeyClean(st, st.key) && Enabled(st, step) && NoLateEdit(st, step)
    ensures TextTrue(Apply(st, step))
  {
    forall t | t in st.tasks ensures t in Apply(st, step).tasks && Apply(st, step).tasks[t] == st.tasks[t] {
      StepKeepsTask(st, step, t);
    }
  }

  /** With the text left alone meanwhile, and no active key forgotten, every reported task has the
      pressed text. */
  lemma {:induction false} ReportsHavePressedText(states: seq<State>, steps: seq<Step>, n: nat)
    requires FromStart(states, steps) && n <= |steps|
    requires EditsInTime(states, steps)
    requires forall i, k :: 0 <= i < |steps| ==> !ForgetsActive(states, steps, i, k)
    ensures TextTrue(states[n])
  {
    if n == 0 {
    } else {
      ReportsHavePressedText(states, steps, n - 1);
      RunKeepsInv(states, steps, n - 1);
      RepliesHaveTheirText(states, steps, n - 1, states[n - 1].key);
      StepKeepsText(states[n - 1], steps[n - 1]);
    }
  }
}
