/** Automatic prompt rollback: which version a rollback restores, and how far apart two rollbacks of
    one role are over whole runs with a moving clock. */
module PromptRollback {
  import opened Basics
  import opened PromptBenchmark

  datatype Status = Draft | InReview | Approved | Deployed | Superseded | Rejected

  /** Version numbers count from the first proposal of a role, so a version is an index here. */
  datatype Version = Version(status: Status, deployedAt: Option<int>)

  /** The highest version number with that status. */
  function MaxWith(vs: seq<Version>, s: Status): (n: Option<nat>)
    ensures n.Some? ==> n.value < |vs| && vs[n.value].status == s
    decreases |vs|
  {
    if vs == [] then None
    else if vs[|vs| - 1].status == s then Some(|vs| - 1)
    else MaxWith(vs[..|vs| - 1], s)
  }

  ghost predicate IsMax(vs: seq<Version>, s: Status, n: nat) {
    n < |vs| && vs[n].status == s && forall m :: 0 <= m < |vs| && vs[m].status == s ==> m <= n
  }

  lemma {:induction false} MaxWithMeaning(vs: seq<Version>, s: Status)
    ensures forall n: nat :: MaxWith(vs, s) == Some(n) <==> IsMax(vs, s, n)
    ensures MaxWith(vs, s).None? <==> forall m :: 0 <= m < |vs| ==> vs[m].status != s
    decreases |vs|
  {
    if vs == [] {
    } else {
      var front := vs[..|vs| - 1];
      MaxWithMeaning(front, s);
      assert forall m :: 0 <= m < |front| ==> front[m] == vs[m];
    }
  }

  /** registry.rollback: None when it raises because nothing was superseded. */
  function Rollback(vs: seq<Version>, now: int): Option<seq<Version>> {
    match MaxWith(vs, Superseded)
    case None => None
    case Some(p) =>
      var restored := vs[p := Version(Deployed, Some(now))];
      if MaxWith(vs, Deployed).None? then Some(restored)
      else Some(seq(|restored|, i requires 0 <= i < |restored| =>
             if i != p && restored[i].status == Deployed then restored[i].(status := Superseded) else restored[i]))
  }

  // ------------------------------------------------------- which version comes back

  ghost predicate OnlyDeployed(vs: seq<Version>, d: nat) {
    d < |vs| && forall m :: 0 <= m < |vs| ==> (vs[m].status == Deployed <==> m == d)
  }

  /** Whatever was deployed: a rollback needs a superseded version, and afterwards the newest of them is the
      only one deployed, from now on; what was deployed is superseded, and nothing else changes. */
  lemma RollbackDeploysExactly(vs: seq<Version>, now: int)
    ensures Rollback(vs, now).Some? <==> exists m :: 0 <= m < |vs| && vs[m].status == Superseded
    ensures forall p: nat :: IsMax(vs, Superseded, p) && Rollback(vs, now).Some? ==>
              var after := Rollback(vs, now).value;
              && OnlyDeployed(after, p) && |after| == |vs| && after[p] == Version(Deployed, Some(now))
              && forall m :: 0 <= m < |vs| && m != p ==>
                   after[m] == if vs[m].status == Deployed then vs[m].(status := Superseded) else vs[m]
  {
    MaxWithMeaning(vs, Superseded);
    MaxWithMeaning(vs, Deployed);
  }

  /** With one version deployed, a rollback swaps it with the newest superseded one. */
  lemma RollbackSwaps(vs: seq<Version>, now: int, d: nat, p: nat)
    requires OnlyDeployed(vs, d) && IsMax(vs, Superseded, p)
    ensures Rollback(vs, now) == Some(vs[p := Version(Deployed, Some(now))][d := vs[d].(status := Superseded)])
    ensures OnlyDeployed(Rollback(vs, now).value, p)
  {
    MaxWithMeaning(vs, Superseded);
    MaxWithMeaning(vs, Deployed);
    assert IsMax(vs, Deployed, d);
    var after := Rollback(vs, now).value;
    assert after == vs[p := Version(Deployed, Some(now))][d := vs[d].(status := Superseded)];
  }

  /** Rolling back a second time returns to the version that was rolled back first, exactly when that
      version is newer than every other superseded one. */
  lemma SecondRollbackReturnsExactly(vs: seq<Version>, t1: int, t2: int, d: nat, p: nat)
    requires OnlyDeployed(vs, d) && IsMax(vs, Superseded, p)
    ensures var once := Rollback(vs, t1);
            && once.Some? && Rollback(once.value, t2).Some?
            && (OnlyDeployed(Rollback(once.value, t2).value, d) <==>
                  forall m :: 0 <= m < |vs| && vs[m].status == Superseded && m != p ==> m < d)
  {
    RollbackSwaps(vs, t1, d, p);
    var vs1 := Rollback(vs, t1).value;
    MaxWithMeaning(vs1, Superseded);
    assert vs1[d].status == Superseded;
    var q := MaxWith(vs1, Superseded).value;
    assert IsMax(vs1, Superseded, q);
    RollbackSwaps(vs1, t2, p, q);
    var vs2 := Rollback(vs1, t2).value;
    assert OnlyDeployed(vs2, q);
    if q == d {
      forall m | 0 <= m < |vs| && vs[m].status == Superseded && m != p ensures m < d {
        assert vs1[m].status == Superseded;
      }
    } else {
      assert vs1[q] == vs[q] && vs[q].status == Superseded && q != p && d < q;
      assert vs2[q].status == Deployed && !OnlyDeployed(vs2, d);
    }
  }

  ghost function Repeated(vs: seq<Version>, times: seq<int>): seq<Version>
    decreases |times|
  {
    if times == [] then vs
    else match Rollback(vs, times[0])
      case None => vs
      case Some(next) => Repeated(next, times[1..])
  }

  /** `a` is deployed and `b` the newest superseded one; all other superseded ones are older than both. */
  ghost predicate TopTwo(vs: seq<Version>, a: nat, b: nat) {
    OnlyDeployed(vs, a) && IsMax(vs, Superseded, b) && forall m :: 0 <= m < |vs| && vs[m].status == Superseded && m != b ==> m < a
  }

  /** Started on the newest version, any number of automatic rollbacks only ever alternates between
      the two newest versions: an older good prompt is never reached. */
  lemma {:induction false} RollbacksAlternate(vs: seq<Version>, times: seq<int>, a: nat, b: nat)
    requires TopTwo(vs, a, b)
    ensures var end := Repeated(vs, times);
            if |times| % 2 == 0 then TopTwo(end, a, b) else TopTwo(end, b, a)
    decreases |times|
  {
    if times == [] {
    } else {
      RollbackSwaps(vs, times[0], a, b);
      var next := Rollback(vs, times[0]).value;
      assert IsMax(next, Superseded, a);
      assert TopTwo(next, b, a);
      RollbacksAlternate(next, times[1..], b, a);
    }
  }

  // ------------------------------------------------------------- over whole runs

  /** The stored time of the last automatic rollback; a value that is no time is ignored. */
  datatype Setting = Absent | Unreadable | At(time: int)

  datatype Role = Role(versions: seq<Version>, last: Setting)

  /** How far a monitor is with a role: it found a regression, it found the cooldown over, it has rolled
      back and will store the time. */
  datatype Stage = Idle | Judged(role: string) | Cleared(role: string) | Restored(role: string)

  /** Any number of monitors: an instance that lost its leader lock goes on running. */
  datatype State = State(now: int, roles: map<string, Role>, stages: map<nat, Stage>)

  datatype Config = Config(cooldown: int, settings: Settings)

  /** What a monitor sees of a role: its runs when the fleet was checked, its runs when the prompt is judged,
      oldest first, and the stored baseline. */
  datatype Look = Look(role: string, gate: seq<Run>, ring: seq<Run>, baseline: Option<Baseline>)

  datatype Step =
    | Judge(m: nat, look: Look, at: int)
    | Cool(m: nat, at: int)
    | Restore(m: nat, at: int)
    | Stamp(m: nat, at: int)
    | Crash(m: nat, at: int)
    | Others(role: string, versions: seq<Version>, at: int)  // proposals, deployments, manual rollbacks

  predicate Cooling(cfg: Config, last: Setting, at: int) {
    last.At? && at - last.time < cfg.cooldown
  }

  function DeployedAt(vs: seq<Version>): Option<int> {
    match MaxWith(vs, Deployed)
    case None => None
    case Some(d) => vs[d].deployedAt
  }

  predicate FindsRegression(cfg: Config, r: Role, look: Look) {
    && GateBlocked(cfg.settings, look.baseline, look.gate) && MaxWith(r.versions, Deployed).Some?
    && Regressed(cfg.settings, look.baseline, look.ring, DeployedAt(r.versions))
  }

  function StageOf(s: State, m: nat): Stage {
    if m in s.stages then s.stages[m] else Idle
  }

  predicate Enabled(s: State, step: Step) {
    && s.now <= step.at
    && match step
       case Judge(m, look, _) => StageOf(s, m).Idle? && look.role in s.roles
       case Cool(m, _) => StageOf(s, m).Judged? && StageOf(s, m).role in s.roles
       case Restore(m, _) => StageOf(s, m).Cleared? && StageOf(s, m).role in s.roles
       case Stamp(m, _) => StageOf(s, m).Restored? && StageOf(s, m).role in s.roles
       case Crash(_, _) => true
       case Others(role, _, _) => role in s.roles
  }

  function Moved(s: State, m: nat, stage: Stage): State {
    s.(stages := s.stages[m := stage])
  }

  function Apply(cfg: Config, before: State, step: Step): State
    requires Enabled(before, step)
  {
    var s := before.(now := step.at);
    match step
    case Judge(m, look, _) => Moved(s, m, if FindsRegression(cfg, s.roles[look.role], look) then Judged(look.role) else Idle)
    case Cool(m, at) =>
      var role := StageOf(s, m).role;
      Moved(s, m, if Cooling(cfg, s.roles[role].last, at) then Idle else Cleared(role))
    case Restore(m, at) =>
      var role := StageOf(s, m).role;
      (match Rollback(s.roles[role].versions, at)
       case None => Moved(s, m, Idle)
       case Some(vs) => Moved(s.(roles := s.roles[role := s.roles[role].(versions := vs)]), m, Restored(role)))
    case Stamp(m, at) =>
      var role := StageOf(s, m).role;
      Moved(s.(roles := s.roles[role := s.roles[role].(last := At(at))]), m, Idle)
    case Crash(m, _) => Moved(s, m, Idle)
    case Others(role, vs, _) => s.(roles := s.roles[role := s.roles[role].(versions := vs)])
  }

  ghost predicate IsRun(cfg: Config, states: seq<State>, steps: seq<Step>) {
    && |states| == |steps| + 1
    && forall i :: 0 <= i < |steps| ==> Enabled(states[i], steps[i]) && states[i + 1] == Apply(cfg, states[i], steps[i])
  }

  // --------------------------------------------------------- one monitor, undisturbed

  /** The new version list when a pass rolls the role back; `checked` and `done` are the times of the
      cooldown check and of the rollback. */
  function AutoRollback(cfg: Config, r: Role, look: Look, checked: int, done: int): Option<seq<Version>> {
    if !FindsRegression(cfg, r, look) || Cooling(cfg, r.last, checked) then None else Rollback(r.versions, done)
  }

  class RollbackMonitor {
    var roles: map<string, Role>

    /** What one pass does for one role. */
    method CheckRole(cfg: Config, look: Look, checked: int, done: int, stored: int) returns (rolledBack: bool)
      requires look.role in roles
      modifies this
      ensures var restored := AutoRollback(cfg, old(roles)[look.role], look, checked, done);
              && rolledBack == restored.Some?
              && roles == if restored.Some? then old(roles)[look.role := Role(restored.value, At(stored))] else old(roles)
    {
      var role := roles[look.role];
      if !GateBlocked(cfg.settings, look.baseline, look.gate) { return false; }
      var deployed := MaxWith(role.versions, Deployed);
      if deployed.None? { return false; }
      var regressed := RegressedUnderDeployed(cfg.settings, look.baseline, look.ring, DeployedAt(role.versions));
      if !regressed { return false; }
      if role.last.At? && checked - role.last.time < cfg.cooldown { return false; }
      var restored := Rollback(role.versions, done);
      if restored.None? { return false; }
      roles := roles[look.role := Role(restored.value, At(stored))];
      return true;
    }
  }

  /** The steps of a monitor that is left alone do what that method does. */
  lemma AloneIsCheckRole(cfg: Config, s: State, m: nat, look: Look, checked: int, done: int, stored: int)
    returns (states: seq<State>, steps: seq<Step>)
    requires StageOf(s, m).Idle? && look.role in s.roles && s.now <= checked <= done <= stored
    ensures IsRun(cfg, states, steps) && states[0] == s && StageOf(states[|steps|], m).Idle?
    ensures var restored := AutoRollback(cfg, s.roles[look.role], look, checked, done);
            states[|steps|].roles == if restored.Some? then s.roles[look.role := Role(restored.value, At(stored))] else s.roles
  {
    hide FindsRegression;
    var s1 := Apply(cfg, s, Judge(m, look, checked));
    if StageOf(s1, m).Idle? { return [s, s1], [Judge(m, look, checked)]; }
    var s2 := Apply(cfg, s1, Cool(m, checked));
    if StageOf(s2, m).Idle? { return [s, s1, s2], [Judge(m, look, checked), Cool(m, checked)]; }
    var s3 := Apply(cfg, s2, Restore(m, done));
    states, steps := [s, s1, s2, s3], [Judge(m, look, checked), Cool(m, checked), Restore(m, done)];
    if StageOf(s3, m).Restored? {
      states, steps := states + [Apply(cfg, s3, Stamp(m, stored))], steps + [Stamp(m, stored)];
    }
  }

  // ------------------------------------------------------------- what a rollback means

  /** Step `i` rolls the role back. */
  ghost predicate RollsBack(cfg: Config, states: seq<State>, steps: seq<Step>, i: nat, role: string)
    requires IsRun(cfg, states, steps) && i < |steps|
  {
    && steps[i].Restore? && StageOf(states[i], steps[i].m) == Cleared(role)
    && role in states[i].roles && Rollback(states[i].roles[role].versions, steps[i].at).Some?
  }

  predicate ActsFor(step: Step, m: nat) {
    !step.Others? && step.m == m
  }

  /** The monitor does nothing between the two steps. */
  ghost predicate QuietBetween(steps: seq<Step>, m: nat, i: nat, k: nat) {
    forall x :: i < x < k && x < |steps| ==> !ActsFor(steps[x], m)
  }

  ghost predicate Fresh(s: State) {
    s.stages == map[]
  }

  lemma {:induction false} StageStays(cfg: Config, states: seq<State>, steps: seq<Step>, m: nat, i: nat, k: nat)
    requires IsRun(cfg, states, steps) && i < k <= |steps| && QuietBetween(steps, m, i, k)
    ensures StageOf(states[k], m) == StageOf(states[i + 1], m)
  {
    hide FindsRegression;
    if k == i + 1 {
    } else {
      StageStays(cfg, states, steps, m, i, k - 1);
      assert !ActsFor(steps[k - 1], m);
    }
  }

  /** The last thing the monitor did before step `k`. */
  lemma {:induction false} LastAct(cfg: Config, states: seq<State>, steps: seq<Step>, m: nat, k: nat) returns (i: nat)
    requires IsRun(cfg, states, steps) && k <= |steps| && Fresh(states[0]) && !StageOf(states[k], m).Idle?
    ensures i < k && ActsFor(steps[i], m) && QuietBetween(steps, m, i, k)
    ensures StageOf(states[i + 1], m) == StageOf(states[k], m)
  {
    hide FindsRegression;
    assert k > 0;
    if ActsFor(steps[k - 1], m) {
      i := k - 1;
    } else {
      i := LastAct(cfg, states, steps, m, k - 1);
    }
  }

  /** Step `c` is the cooldown check that step `j` relies on, and step `l` the verdict. */
  ghost predicate Prepared(steps: seq<Step>, l: nat, c: nat, j: nat) {
    && l < c < j < |steps| && steps[j].Restore? && steps[c].Cool? && steps[l].Judge?
    && steps[c].m == steps[j].m && steps[l].m == steps[j].m
    && QuietBetween(steps, steps[j].m, c, j) && QuietBetween(steps, steps[j].m, l, c)
  }

  /** What an automatic rollback means, whatever else went on: its monitor saw a blocked gate, and a
      regression of what was deployed then, with enough runs started since; it found the cooldown over; and
      it deployed the newest version superseded by then. */
  lemma RollbackWasJudged(cfg: Config, states: seq<State>, steps: seq<Step>, j: nat, role: string) returns (l: nat, c: nat)
    requires IsRun(cfg, states, steps) && Fresh(states[0]) && j < |steps| && RollsBack(cfg, states, steps, j, role)
    ensures Prepared(steps, l, c, j) && steps[l].look.role == role
    ensures role in states[l].roles && role in states[c].roles
    ensures var r := states[l].roles[role];
            && FindsRegression(cfg, r, steps[l].look)
            && cfg.settings.minSamples <= |JudgedRuns(steps[l].look.ring, DeployedAt(r.versions).value)|
    ensures !Cooling(cfg, states[c].roles[role].last, steps[c].at)
    ensures forall p: nat :: IsMax(states[j].roles[role].versions, Superseded, p) ==>
              && OnlyDeployed(states[j + 1].roles[role].versions, p)
              && states[j + 1].roles[role].versions[p].deployedAt == Some(steps[j].at)
  {
    var m := steps[j].m;
    c := LastAct(cfg, states, steps, m, j);
    l := LastAct(cfg, states, steps, m, c);
    RollbackDeploysExactly(states[j].roles[role].versions, steps[j].at);
  }

  // ------------------------------------------------------------------- the cooldown

  lemma {:induction false} ClockRuns(cfg: Config, states: seq<State>, steps: seq<Step>, i: nat, k: nat)
    requires IsRun(cfg, states, steps) && i <= k <= |steps|
    ensures states[i].now <= states[k].now
  {
    hide FindsRegression;
    if k == i {
    } else {
      ClockRuns(cfg, states, steps, i, k - 1);
    }
  }

  lemma {:induction false} StampStays(cfg: Config, states: seq<State>, steps: seq<Step>, i: nat, k: nat, role: string)
    requires IsRun(cfg, states, steps) && i < k <= |steps| && steps[i].Stamp? && StageOf(states[i], steps[i].m) == Restored(role)
    ensures role in states[k].roles && states[k].roles[role].last.At?
    ensures steps[i].at <= states[k].roles[role].last.time <= states[k].now
  {
    hide FindsRegression;
    if k == i + 1 {
    } else {
      StampStays(cfg, states, steps, i, k - 1, role);
    }
  }

  /** A rollback whose check comes after the stamp of another one is at least the cooldown after it,
      however many monitors there are and whatever crashes. */
  lemma CooldownHolds(cfg: Config, states: seq<State>, steps: seq<Step>, s: nat, l: nat, c: nat, j: nat, role: string)
    requires IsRun(cfg, states, steps) && j < |steps| && RollsBack(cfg, states, steps, j, role) && Prepared(steps, l, c, j)
    requires s < c && steps[s].Stamp? && StageOf(states[s], steps[s].m) == Restored(role)
    ensures steps[c].at - steps[s].at >= cfg.cooldown && steps[j].at - steps[s].at >= cfg.cooldown
  {
    StageStays(cfg, states, steps, steps[j].m, c, j);
    StampStays(cfg, states, steps, s, c, role);
    ClockRuns(cfg, states, steps, c + 1, j);
  }

  lemma {:induction false} StampIsExact(cfg: Config, states: seq<State>, steps: seq<Step>, i: nat, k: nat, role: string)
    requires IsRun(cfg, states, steps) && i < k <= |steps| && steps[i].Stamp? && StageOf(states[i], steps[i].m) == Restored(role)
    requires forall x :: i < x < k && steps[x].Stamp? ==> StageOf(states[x], steps[x].m) != Restored(role)
    ensures role in states[k].roles && states[k].roles[role].last == At(steps[i].at)
  {
    hide FindsRegression;
    if k == i + 1 {
    } else {
      StampIsExact(cfg, states, steps, i, k - 1, role);
    }
  }

  /** A check clears a role exactly when the cooldown since that role's own last stamp is over; what is
      stored for other roles never matters. */
  lemma ClearsExactlyWhenCooledDown(cfg: Config, states: seq<State>, steps: seq<Step>, s: nat, c: nat, role: string)
    requires IsRun(cfg, states, steps) && s < c < |steps|
    requires steps[s].Stamp? && StageOf(states[s], steps[s].m) == Restored(role)
    requires forall x :: s < x < c && steps[x].Stamp? ==> StageOf(states[x], steps[x].m) != Restored(role)
    requires steps[c].Cool? && StageOf(states[c], steps[c].m) == Judged(role)
    ensures StageOf(states[c + 1], steps[c].m) == Cleared(role) <==> steps[c].at - steps[s].at >= cfg.cooldown
  {
    StampIsExact(cfg, states, steps, s, c, role);
  }

  // --------------------------------------------------- exactly when it can be broken

  /** Two rollbacks of the role, by these monitors and without a crash, less than the cooldown apart. */
  ghost predicate TooClose(cfg: Config, states: seq<State>, steps: seq<Step>, ms: set<nat>, role: string) {
    && IsRun(cfg, states, steps)
    && (forall x :: 0 <= x < |steps| ==> !steps[x].Crash? && (steps[x].Others? || steps[x].m in ms))
    && exists i, j :: 0 <= i < j < |steps| && RollsBack(cfg, states, steps, i, role) && RollsBack(cfg, states, steps, j, role)
                      && steps[j].at - steps[i].at < cfg.cooldown
  }

  ghost predicate CanBreak(cfg: Config, s: State, ms: set<nat>, role: string) {
    exists states, steps :: TooClose(cfg, states, steps, ms, role) && states[0] == s
  }

  /** After a rollback at time `t`, the only monitor has not stored the time yet, or it is cooling down, or
      it waited long enough. */
  ghost predicate WaitsAfter(cfg: Config, s: State, m: nat, role: string, t: int) {
    && role in s.roles && t <= s.now
    && (StageOf(s, m) == Restored(role) ||
        (var last := s.roles[role].last;
         && last.At? && t <= last.time
         && (StageOf(s, m) == Cleared(role) ==> s.now - last.time >= cfg.cooldown)))
  }

  lemma StepKeepsWaiting(cfg: Config, s: State, step: Step, m: nat, role: string, t: int)
    requires WaitsAfter(cfg, s, m, role, t) && Enabled(s, step) && !step.Crash? && (step.Others? || step.m == m)
    ensures WaitsAfter(cfg, Apply(cfg, s, step), m, role, t)
  {
    hide FindsRegression;
  }

  lemma {:induction false} LoneMonitorWaits(cfg: Config, states: seq<State>, steps: seq<Step>, i: nat, k: nat, m: nat, role: string)
    requires IsRun(cfg, states, steps) && i < k <= |steps| && RollsBack(cfg, states, steps, i, role) && steps[i].m == m
    requires forall x :: 0 <= x < |steps| ==> !steps[x].Crash? && (steps[x].Others? || steps[x].m == m)
    ensures WaitsAfter(cfg, states[k], m, role, steps[i].at)
  {
    if k == i + 1 {
    } else {
      LoneMonitorWaits(cfg, states, steps, i, k - 1, m, role);
      StepKeepsWaiting(cfg, states[k - 1], steps[k - 1], m, role, steps[i].at);
    }
  }

  lemma LoneMonitorKeepsCooldown(cfg: Config, states: seq<State>, steps: seq<Step>, ms: set<nat>, role: string)
    requires forall m, n :: m in ms && n in ms ==> m == n
    ensures !TooClose(cfg, states, steps, ms, role)
  {
    hide FindsRegression;
    if TooClose(cfg, states, steps, ms, role) {
      var i, j :| 0 <= i < j < |steps| && RollsBack(cfg, states, steps, i, role) && RollsBack(cfg, states, steps, j, role)
               && steps[j].at - steps[i].at < cfg.cooldown;
      LoneMonitorWaits(cfg, states, steps, i, j, steps[i].m, role);
    }
  }

  /** A role that a look finds regressed, with the cooldown over and a version to roll back to. */
  ghost predicate RipeFor(cfg: Config, s: State, look: Look) {
    && look.role in s.roles && FindsRegression(cfg, s.roles[look.role], look)
    && !Cooling(cfg, s.roles[look.role].last, s.now) && Rollback(s.roles[look.role].versions, s.now).Some?
  }

  lemma Extended(cfg: Config, states: seq<State>, steps: seq<Step>, step: Step) returns (longer: seq<State>, more: seq<Step>)
    requires IsRun(cfg, states, steps) && Enabled(states[|steps|], step)
    ensures more == steps + [step] && longer == states + [Apply(cfg, states[|steps|], step)] && IsRun(cfg, longer, more)
  {
    hide FindsRegression;
    longer, more := states + [Apply(cfg, states[|steps|], step)], steps + [step];
  }

  /** A monitor comes and finds everything ready. */
  lemma Prepare(cfg: Config, states: seq<State>, steps: seq<Step>, m: nat, look: Look) returns (longer: seq<State>, more: seq<Step>)
    requires IsRun(cfg, states, steps) && StageOf(states[|steps|], m).Idle? && RipeFor(cfg, states[|steps|], look)
    ensures IsRun(cfg, longer, more) && states <= longer
    ensures var s := states[|steps|];
            && more == steps + [Judge(m, look, s.now), Cool(m, s.now)]
            && longer[|more|] == s.(stages := s.stages[m := Judged(look.role)][m := Cleared(look.role)])
  {
    hide FindsRegression;
    var s := states[|steps|];
    longer, more := Extended(cfg, states, steps, Judge(m, look, s.now));
    longer, more := Extended(cfg, longer, more, Cool(m, s.now));
  }

  /** A monitor that has found everything ready rolls back. */
  lemma RollBack(cfg: Config, states: seq<State>, steps: seq<Step>, m: nat, role: string) returns (longer: seq<State>, more: seq<Step>)
    requires IsRun(cfg, states, steps) && StageOf(states[|steps|], m) == Cleared(role) && role in states[|steps|].roles
    requires Rollback(states[|steps|].roles[role].versions, states[|steps|].now).Some?
    ensures IsRun(cfg, longer, more) && states <= longer && more == steps + [Restore(m, states[|steps|].now)]
    ensures RollsBack(cfg, longer, more, |steps|, role)
    ensures var s := states[|steps|];
            var vs := Rollback(s.roles[role].versions, s.now).value;
            longer[|more|] == s.(roles := s.roles[role := s.roles[role].(versions := vs)], stages := s.stages[m := Restored(role)])
  {
    hide FindsRegression;
    longer, more := Extended(cfg, states, steps, Restore(m, states[|steps|].now));
  }

  lemma FoundHasDeployed(cfg: Config, r: Role, look: Look)
    requires FindsRegression(cfg, r, look)
    ensures MaxWith(r.versions, Deployed).Some?
  {
  }

  lemma FoundAgain(cfg: Config, r: Role, look: Look, deployedAt: int)
    requires MaxWith(r.versions, Deployed).Some? && DeployedAt(r.versions) == Some(deployedAt)
    requires GateBlocked(cfg.settings, look.baseline, look.gate)
    requires Regressed(cfg.settings, look.baseline, look.ring, Some(deployedAt))
    ensures FindsRegression(cfg, r, look)
  {
  }

  /** Two overlapping monitors roll one role back twice at the same moment. */
  lemma OverlapBreaksCooldown(cfg: Config, s: State, look: Look, m: nat, n: nat) returns (states: seq<State>, steps: seq<Step>)
    requires cfg.cooldown > 0 && Fresh(s) && RipeFor(cfg, s, look) && m != n
    ensures TooClose(cfg, states, steps, {m, n}, look.role) && states[0] == s
  {
    hide FindsRegression;
    FoundHasDeployed(cfg, s.roles[look.role], look);
    StillSuperseded(s.roles[look.role].versions, s.now);
    states, steps := Prepare(cfg, [s], [], m, look);
    states, steps := Prepare(cfg, states, steps, n, look);
    states, steps := RollBack(cfg, states, steps, m, look.role);
    assert RollsBack(cfg, states, steps, 4, look.role);
    states, steps := RollBack(cfg, states, steps, n, look.role);
    assert RollsBack(cfg, states, steps, 4, look.role) && RollsBack(cfg, states, steps, 5, look.role);
  }

  /** After a rollback of a deployed version there is something to roll back to again. */
  lemma StillSuperseded(vs: seq<Version>, now: int)
    requires Rollback(vs, now).Some? && MaxWith(vs, Deployed).Some?
    ensures Rollback(Rollback(vs, now).value, now).Some?
  {
    MaxWithMeaning(vs, Superseded);
    var p, d := MaxWith(vs, Superseded).value, MaxWith(vs, Deployed).value;
    RollbackDeploysExactly(vs, now);
    assert IsMax(vs, Superseded, p);
    assert Rollback(vs, now).value[d].status == Superseded;
    RollbackDeploysExactly(Rollback(vs, now).value, now);
  }

  /** Exactly when the cooldown can be broken without a crash: when two monitors run. */
  lemma CooldownBreakableExactly(cfg: Config, s: State, look: Look, ms: set<nat>)
    requires cfg.cooldown > 0 && Fresh(s) && RipeFor(cfg, s, look)
    ensures CanBreak(cfg, s, ms, look.role) <==> exists m, n :: m in ms && n in ms && m != n
  {
    hide FindsRegression;
    if m, n :| m in ms && n in ms && m != n {
      var states, steps := OverlapBreaksCooldown(cfg, s, look, m, n);
      assert TooClose(cfg, states, steps, ms, look.role) && states[0] == s;
    } else if CanBreak(cfg, s, ms, look.role) {
      var states, steps :| TooClose(cfg, states, steps, ms, look.role) && states[0] == s;
      LoneMonitorKeepsCooldown(cfg, states, steps, ms, look.role);
    }
  }

  lemma RollBackAndCrash(cfg: Config, s: State, m: nat, look: Look, later: int) returns (states: seq<State>, steps: seq<Step>)
    requires Fresh(s) && RipeFor(cfg, s, look) && s.now <= later
    ensures IsRun(cfg, states, steps) && states[0] == s && |steps| == 4 && RollsBack(cfg, states, steps, 2, look.role)
    ensures steps == [Judge(m, look, s.now), Cool(m, s.now), Restore(m, s.now), Crash(m, later)]
    ensures var role := s.roles[look.role].(versions := Rollback(s.roles[look.role].versions, s.now).value);
            && states[4].now == later && states[4].roles == s.roles[look.role := role] && StageOf(states[4], m).Idle?
  {
    hide FindsRegression;
    states, steps := Prepare(cfg, [s], [], m, look);
    states, steps := RollBack(cfg, states, steps, m, look.role);
    states, steps := Extended(cfg, states, steps, Crash(m, later));
  }

  /** A crash between the rollback and the stamp loses the time: one monitor alone can then roll back again
      at any later time, as soon as enough runs of the restored version are a regression too. */
  lemma CrashBreaksCooldown(cfg: Config, s: State, m: nat, look: Look, again: Look, later: int)
    returns (states: seq<State>, steps: seq<Step>)
    requires Fresh(s) && RipeFor(cfg, s, look) && s.now <= later
    requires again.role == look.role && GateBlocked(cfg.settings, again.baseline, again.gate)
    requires Regressed(cfg.settings, again.baseline, again.ring, Some(s.now))
    ensures IsRun(cfg, states, steps) && states[0] == s && |steps| == 7 && TwiceAlone(cfg, states, steps, m, look.role)
    ensures steps[2].at == s.now && steps[6].at == later && steps[4] == Judge(m, again, later)
  {
    hide FindsRegression;
    var versions := s.roles[look.role].versions;
    FoundHasDeployed(cfg, s.roles[look.role], look);
    StillSuperseded(versions, s.now);
    RestoredIsJudged(versions, s.now);
    RollbackAgain(Rollback(versions, s.now).value, s.now, later);
    FoundAgain(cfg, Role(Rollback(versions, s.now).value, s.roles[look.role].last), again, s.now);
    states, steps := RollBackAndCrash(cfg, s, m, look, later);
    states, steps := Prepare(cfg, states, steps, m, again);
    assert RollsBack(cfg, states, steps, 2, look.role);
    states, steps := RollBack(cfg, states, steps, m, look.role);
  }

  /** One monitor rolls the role back at the third and at the seventh step. */
  ghost predicate TwiceAlone(cfg: Config, states: seq<State>, steps: seq<Step>, m: nat, role: string)
    requires IsRun(cfg, states, steps) && |steps| == 7
  {
    && RollsBack(cfg, states, steps, 2, role) && RollsBack(cfg, states, steps, 6, role)
    && forall i :: 0 <= i < 7 ==> ActsFor(steps[i], m)
  }

  /** Whether there is a version to roll back to does not depend on the time. */
  lemma RollbackAgain(vs: seq<Version>, now: int, later: int)
    ensures Rollback(vs, now).Some? <==> Rollback(vs, later).Some?
  {
  }

  const TWO_VERSIONS := [Version(Superseded, None), Version(Deployed, Some(0))]

  /** A role whose prompt was deployed at time 0, over an older version. */
  function StartState(): State {
    State(0, map["coder" := Role(TWO_VERSIONS, Absent)], map[])
  }

  lemma StartIsRipe(cfg: Config, look: Look)
    requires look.role == "coder" && GateBlocked(cfg.settings, look.baseline, look.gate)
    requires Regressed(cfg.settings, look.baseline, look.ring, Some(0))
    ensures Fresh(StartState()) && RipeFor(cfg, StartState(), look)
  {
    var vs := TWO_VERSIONS;
    MaxWithMeaning(vs, Deployed);
    MaxWithMeaning(vs, Superseded);
    assert IsMax(vs, Deployed, 1) && IsMax(vs, Superseded, 0);
  }

  /** With the shipped settings, and for any number of runs of the new prompt from the least number for a
      verdict to 19: they are perfect, and one run from before the deployment rolls it back all the same. */
  lemma OlderRunRollsBack(n: nat) returns (cfg: Config, look: Look, states: seq<State>, steps: seq<Step>)
    requires DEFAULTS.minSamples <= n < 20
    ensures cfg.settings == DEFAULTS && look.ring == OlderRing(n, 0) && look.baseline == Some(Baseline(1.0, None))
    ensures !RegressedOnNew(cfg.settings, look.baseline, look.ring, Some(0))
    ensures IsRun(cfg, states, steps) && states[0] == StartState() && |steps| == 3
    ensures steps[0] == Judge(0, look, 0) && RollsBack(cfg, states, steps, 2, "coder")
  {
    cfg := Config(24, DEFAULTS);
    look := Look("coder", OlderRing(n, 0), OlderRing(n, 0), Some(Baseline(1.0, None)));
    OlderRunRegressesExactly(n, 0, DEFAULTS.minSamples);
    assert DEFAULTS.(minSamples := DEFAULTS.minSamples) == DEFAULTS;
    StartIsRipe(cfg, look);
    states, steps := Prepare(cfg, [StartState()], [], 0, look);
    states, steps := RollBack(cfg, states, steps, 0, "coder");
  }

  /** With the shipped settings, a crash lets one monitor roll back twice within the cooldown: the second
      verdict is on five runs that started after the first rollback. */
  lemma CrashWithinCooldown(later: int) returns (cfg: Config, again: Look, states: seq<State>, steps: seq<Step>)
    requires 1 <= later < 24
    ensures cfg == Config(24, DEFAULTS) && IsRun(cfg, states, steps) && states[0] == StartState() && |steps| == 7
    ensures TwiceAlone(cfg, states, steps, 0, "coder") && steps[6].at - steps[2].at == later < cfg.cooldown
    ensures steps[4] == Judge(0, again, later) && |again.ring| == 5
    ensures forall r :: r in again.ring ==> r.started == Some(later)
  {
    cfg := Config(24, DEFAULTS);
    assert DEFAULTS.(minSamples := 5) == DEFAULTS;
    var perfect := Some(Baseline(1.0, None));
    var first, second := Copies(PoorRun(0), 5), Copies(PoorRun(later), 5);
    PoorRunsRegressExactly(5, 0, 0, 5);
    PoorRunsRegressExactly(5, 0, later, 5);
    CopiesMeaning(PoorRun(later), 5);
    var look := Look("coder", first, first, perfect);
    again := Look("coder", second, second, perfect);
    StartIsRipe(cfg, look);
    states, steps := CrashBreaksCooldown(cfg, StartState(), 0, look, again, later);
  }

  lemma RestoredIsJudged(vs: seq<Version>, now: int)
    requires Rollback(vs, now).Some?
    ensures DeployedAt(Rollback(vs, now).value) == Some(now) && MaxWith(Rollback(vs, now).value, Deployed).Some?
  {
    MaxWithMeaning(vs, Superseded);
    var p := MaxWith(vs, Superseded).value;
    assert IsMax(vs, Superseded, p);
    RollbackDeploysExactly(vs, now);
    var after := Rollback(vs, now).value;
    MaxWithMeaning(after, Deployed);
    assert IsMax(after, Deployed, p);
  }
}
