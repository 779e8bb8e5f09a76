/** One whole pass of the auto-dispatcher, and how many passes a task graph needs when every
    dispatched task is completed before the next pass. */
module DispatchProgress {
  import opened Basics
  import opened DependencyDispatch

  predicate DepsMet(tb: Table, deps: seq<int>) {
    forall i :: 0 <= i < |deps| ==> IsCompleted(tb, deps[i])
  }

  predicate IsReady(tb: Table, c: Loaded) {
    c.deps != [] && DepsMet(tb, c.deps) && Transition(tb, c.id, Planning, None).Some?
  }

  function Visit(tb: Table, c: Loaded): Table {
    if IsReady(tb, c) then Transition(tb, c.id, Planning, None).value else tb
  }

  /** The table after an undisturbed pass over these candidates. */
  function PassTable(tb: Table, queue: seq<Loaded>): Table
    decreases |queue|
  {
    if queue == [] then tb else PassTable(Visit(tb, queue[0]), queue[1..])
  }

  /** The ids whose job an undisturbed pass starts; `broken` are those whose job cannot be started. */
  function Started(tb: Table, queue: seq<Loaded>, broken: set<int>): seq<int>
    decreases |queue|
  {
    if queue == [] then []
    else (if IsReady(tb, queue[0]) && queue[0].id !in broken then [queue[0].id] else [])
         + Started(Visit(tb, queue[0]), queue[1..], broken)
  }

  class TaskStore {
    var rows: Table

    /** The inner loop: reads the dependencies one after the other until one is not completed. */
    method StillUnmet(deps: seq<int>) returns (stillUnmet: bool)
      ensures stillUnmet <==> exists i :: 0 <= i < |deps| && !IsCompleted(rows, deps[i])
    {
      stillUnmet := false;
      for i := 0 to |deps|
        invariant !stillUnmet && DepsMet(rows, deps[..i])
      {
        if !IsCompleted(rows, deps[i]) {
          stillUnmet := true;
          break;
        }
      }
    }

    /** What the loop does for one candidate; an error here only ends this candidate. */
    method DispatchOne(task: Loaded, broken: set<int>) returns (started: bool)
      modifies this
      ensures rows == Visit(old(rows), task)
      ensures started <==> IsReady(old(rows), task) && task.id !in broken
    {
      if task.deps == [] { return false; }
      var stillUnmet := StillUnmet(task.deps);
      if stillUnmet { return false; }
      var moved := Transition(rows, task.id, Planning, None);
      if moved.None? { return false; }
      rows := moved.value;
      return task.id !in broken;
    }

    /** The body of the loop, with nothing else writing. A job that cannot be started leaves
        its task in planning. */
    method RunPass(queue: seq<Loaded>, broken: set<int>) returns (started: seq<int>)
      modifies this
      ensures rows == PassTable(old(rows), queue)
      ensures started == Started(old(rows), queue, broken)
    {
      started := [];
      assert queue[0..] == queue;
      for k := 0 to |queue|
        invariant PassTable(rows, queue[k..]) == PassTable(old(rows), queue)
        invariant started + Started(rows, queue[k..], broken) == Started(old(rows), queue, broken)
      {
        assert queue[k..][0] == queue[k] && queue[k..][1..] == queue[k + 1..];
        var ok := DispatchOne(queue[k], broken);
        if ok {
          started := started + [queue[k].id];
        }
      }
    }
  }

  // ------------------------------------------- the interleaved machine, left alone

  lemma JoinRuns(s1: seq<State>, r1: seq<Step>, s2: seq<State>, r2: seq<Step>)
    requires IsRun(s1, r1) && IsRun(s2, r2) && s1[|r1|] == s2[0]
    ensures IsRun(s1 + s2[1..], r1 + r2) && (s1 + s2[1..])[|r1 + r2|] == s2[|r2|]
  {
    var states, steps := s1 + s2[1..], r1 + r2;
    forall i | 0 <= i < |steps| ensures Enabled(states[i], steps[i]) && states[i + 1] == Apply(states[i], steps[i]) {
      if i >= |r1| { assert states[i] == s2[i - |r1|]; }
    }
  }

  lemma OneStep(st: State, step: Step) returns (states: seq<State>, steps: seq<Step>)
    requires Enabled(st, step)
    ensures IsRun(states, steps) && steps == [step] && states == [st, Apply(st, step)]
  {
    states, steps := [st, Apply(st, step)], [step];
  }

  predicate ActsOnly(steps: seq<Step>, d: nat) {
    forall i :: 0 <= i < |steps| ==> steps[i] == Next(d) || steps[i] == Read(d) || steps[i] == Promote(d) || steps[i] == Launch(d, true)
  }

  ghost function At(st: State, tb: Table, d: nat, p: Pass): State {
    st.(table := tb, passes := st.passes[d := p])
  }

  /** Checking one candidate to the end. */
  lemma {:induction false} QuietCheck(st: State, d: nat, c: Loaded, left: seq<int>, queue: seq<Loaded>)
    returns (states: seq<State>, steps: seq<Step>)
    requires PassOf(st, d) == Checking(c, left, queue)
    requires c.deps != [] && DepsMet(st.table, left) == DepsMet(st.table, c.deps)
    ensures IsRun(states, steps) && ActsOnly(steps, d) && states[0] == st
    ensures states[|steps|] == At(st, Visit(st.table, c), d, Working(queue))
    decreases |left|
  {
    states, steps := OneStep(st, Read(d));
    var next := states[1];
    var s2, r2;
    if left != [] && !IsCompleted(st.table, left[0]) {
      assert next == At(st, Visit(st.table, c), d, Working(queue));
    } else {
      if left == [] {
        s2, r2 := QuietPromote(next, d, c, queue);
      } else {
        assert DepsMet(st.table, left[1..]) == DepsMet(st.table, left);
        s2, r2 := QuietCheck(next, d, c, left[1..], queue);
      }
      JoinRuns(states, steps, s2, r2);
      states, steps := states + s2[1..], steps + r2;
    }
  }

  lemma QuietPromote(st: State, d: nat, c: Loaded, queue: seq<Loaded>) returns (states: seq<State>, steps: seq<Step>)
    requires PassOf(st, d) == Ready(c, queue) && c.deps != [] && DepsMet(st.table, c.deps)
    ensures IsRun(states, steps) && ActsOnly(steps, d) && states[0] == st
    ensures states[|steps|] == At(st, Visit(st.table, c), d, Working(queue))
  {
    states, steps := OneStep(st, Promote(d));
    if Transition(st.table, c.id, Planning, None).Some? {
      var s2, r2 := OneStep(states[1], Launch(d, true));
      JoinRuns(states, steps, s2, r2);
      states, steps := states + s2[1..], steps + r2;
    }
  }

  /** The interleaved machine does exactly one whole pass when nobody else moves. */
  lemma {:induction false} QuietPass(st: State, d: nat, queue: seq<Loaded>) returns (states: seq<State>, steps: seq<Step>)
    requires PassOf(st, d) == Working(queue)
    ensures IsRun(states, steps) && ActsOnly(steps, d) && states[0] == st
    ensures states[|steps|] == At(st, PassTable(st.table, queue), d, Asleep)
    decreases |queue|
  {
    states, steps := OneStep(st, Next(d));
    if queue == [] {
    } else {
      var c, rest := queue[0], queue[1..];
      if c.deps != [] {
        var s2, r2 := QuietCheck(states[1], d, c, c.deps, rest);
        JoinRuns(states, steps, s2, r2);
        states, steps := states + s2[1..], steps + r2;
      }
      var mid := states[|steps|];
      assert mid == At(st, Visit(st.table, c), d, Working(rest));
      var s3, r3 := QuietPass(mid, d, rest);
      JoinRuns(states, steps, s3, r3);
      states, steps := states + s3[1..], steps + r3;
    }
  }

  // ------------------------------------------------------------------- progress

  /** Every candidate has dependencies, each completed or a candidate of smaller rank. */
  ghost predicate Acyclic(tb: Table, rank: map<int, nat>) {
    forall id :: Candidate(tb, id) ==> id in rank && tb[id].deps != [] && DepsRanked(tb, rank, id, tb[id].deps)
  }

  ghost predicate DepsRanked(tb: Table, rank: map<int, nat>, id: int, deps: seq<int>) {
    id in rank &&
    forall i :: 0 <= i < |deps| ==>
      IsCompleted(tb, deps[i]) || (Candidate(tb, deps[i]) && deps[i] in rank && rank[deps[i]] < rank[id])
  }

  /** How many layers of unfinished tasks lie below a candidate. */
  ghost function Depth(tb: Table, rank: map<int, nat>, id: int): nat
    requires Acyclic(tb, rank) && Candidate(tb, id)
    decreases rank[id], |tb[id].deps| + 1
  {
    DepthOver(tb, rank, id, tb[id].deps)
  }

  ghost function DepthOver(tb: Table, rank: map<int, nat>, id: int, deps: seq<int>): nat
    requires Acyclic(tb, rank) && DepsRanked(tb, rank, id, deps)
    decreases rank[id], |deps|
  {
    if deps == [] then 0
    else
      var here := if IsCompleted(tb, deps[0]) then 0 else Depth(tb, rank, deps[0]) + 1;
      var rest := DepthOver(tb, rank, id, deps[1..]);
      if here <= rest then rest else here
  }

  ghost predicate Below(tb: Table, rank: map<int, nat>, x: int, k: nat)
    requires Acyclic(tb, rank)
  {
    IsCompleted(tb, x) || (Candidate(tb, x) && Depth(tb, rank, x) < k)
  }

  /** A candidate's dependencies are all below layer `k` exactly when it is not above it. */
  lemma {:induction false} DepthMeaning(tb: Table, rank: map<int, nat>, id: int, deps: seq<int>, k: nat)
    requires Acyclic(tb, rank) && DepsRanked(tb, rank, id, deps)
    ensures (forall i :: 0 <= i < |deps| ==> Below(tb, rank, deps[i], k)) <==> DepthOver(tb, rank, id, deps) <= k
    decreases |deps|
  {
    if deps == [] {
    } else {
      DepthMeaning(tb, rank, id, deps[1..], k);
      assert (forall i :: 0 <= i < |deps| ==> Below(tb, rank, deps[i], k)) <==>
             Below(tb, rank, deps[0], k) && (forall i :: 0 <= i < |deps[1..]| ==> Below(tb, rank, deps[1..][i], k)) by {
        assert forall i :: 1 <= i < |deps| ==> deps[i] == deps[1..][i - 1];
      }
    }
  }

  /** Between two passes every task in planning gets completed. */
  function CompleteAll(tb: Table): Table {
    map id | id in tb :: if tb[id].status == Planning then tb[id].(status := Completed) else tb[id]
  }

  function Round(tb: Table, order: seq<int>): Table
    requires forall i :: 0 <= i < |order| ==> order[i] in tb
  {
    CompleteAll(PassTable(tb, Load(tb, order)))
  }

  /** The tables seen by successive scans; each scan lists its candidates in some order. */
  ghost predicate Rounds(tables: seq<Table>, orders: seq<seq<int>>) {
    && |tables| == |orders| + 1
    && forall k :: 0 <= k < |orders| ==> ScanOf(tables[k], orders[k]) && tables[k + 1] == Round(tables[k], orders[k])
  }

  /** Moving a candidate to planning completes nothing. */
  lemma VisitMeaning(tb: Table, c: Loaded)
    requires Candidate(tb, c.id)
    ensures Visit(tb, c).Keys == tb.Keys && forall id :: id in tb && id != c.id ==> Visit(tb, c)[id] == tb[id]
    ensures Visit(tb, c)[c.id] ==
            if c.deps != [] && DepsMet(tb, c.deps) then tb[c.id].(status := Planning, reason := None) else tb[c.id]
    ensures forall deps :: DepsMet(Visit(tb, c), deps) == DepsMet(tb, deps)
  {
    assert forall x :: IsCompleted(Visit(tb, c), x) == IsCompleted(tb, x);
  }

  /** What a pass does to each row: the ready candidates go to planning, all else stays. */
  lemma {:induction false} PassPointwise(tb: Table, queue: seq<Loaded>)
    requires forall i :: 0 <= i < |queue| ==> Candidate(tb, queue[i].id)
    requires forall i, j :: 0 <= i < j < |queue| ==> queue[i].id != queue[j].id
    ensures PassTable(tb, queue).Keys == tb.Keys
    ensures forall i :: 0 <= i < |queue| ==>
              queue[i].id in tb && PassTable(tb, queue)[queue[i].id] ==
              if queue[i].deps != [] && DepsMet(tb, queue[i].deps)
              then tb[queue[i].id].(status := Planning, reason := None) else tb[queue[i].id]
    ensures forall id :: id in tb && (forall i :: 0 <= i < |queue| ==> queue[i].id != id) ==> PassTable(tb, queue)[id] == tb[id]
    decreases |queue|
  {
    hide Visit, DepsMet;
    if queue == [] {
    } else {
      VisitMeaning(tb, queue[0]);
      PassPointwise(Visit(tb, queue[0]), queue[1..]);
      assert forall i :: 1 <= i < |queue| ==> queue[i] == queue[1..][i - 1];
    }
  }

  /** What a task is after a pass that starts from this table. */
  function AfterPass(tb: Table, id: int): Row
    requires id in tb
  {
    var row := tb[id];
    if row.status == Blocked && row.reason == Some("dependency") && row.deps != []
       && forall i :: 0 <= i < |row.deps| ==> row.deps[i] in tb && tb[row.deps[i]].status == Completed
    then Row(Planning, None, row.deps) else row
  }

  /** The machine from scan to scan, left alone: exactly the tasks that are blocked on dependencies, have some,
      and have them all completed, go to planning. */
  lemma QuietRound(st: State, d: nat, order: seq<int>) returns (states: seq<State>, steps: seq<Step>)
    requires Enabled(st, Scan(d, order))
    ensures IsRun(states, steps) && steps != [] && steps[0] == Scan(d, order) && ActsOnly(steps[1..], d) && states[0] == st
    ensures PassOf(states[|steps|], d).Asleep?
    ensures states[|steps|].table == map id | id in st.table :: AfterPass(st.table, id)
  {
    hide PassTable, AfterPass;
    states, steps := OneStep(st, Scan(d, order));
    var s2, r2 := QuietPass(states[1], d, Load(st.table, order));
    JoinRuns(states, steps, s2, r2);
    states, steps := states + s2[1..], steps + r2;
    assert steps[1..] == r2;
    PassIsAfter(st.table, order);
  }

  lemma PassIsAfter(tb: Table, order: seq<int>)
    requires ScanOf(tb, order)
    ensures PassTable(tb, Load(tb, order)) == map id | id in tb :: AfterPass(tb, id)
  {
    PassPointwise(tb, Load(tb, order));
    hide PassTable, AfterPass;
    forall id | id in tb ensures PassTable(tb, Load(tb, order))[id] == AfterPass(tb, id) { PassRow(tb, order, id); }
  }

  lemma PassRow(tb: Table, order: seq<int>, id: int)
    requires ScanOf(tb, order) && id in tb
    ensures id in PassTable(tb, Load(tb, order)) && PassTable(tb, Load(tb, order))[id] == AfterPass(tb, id)
  {
    hide PassTable;
    if Candidate(tb, id) {
      var i :| 0 <= i < |order| && order[i] == id;
      PassAt(tb, Load(tb, order), i);
    } else {
      assert id in PassTable(tb, Load(tb, order)) && PassTable(tb, Load(tb, order))[id] == tb[id] by {
        PassPointwise(tb, Load(tb, order));
      }
    }
  }

  lemma PassAt(tb: Table, queue: seq<Loaded>, i: nat)
    requires forall i :: 0 <= i < |queue| ==> Candidate(tb, queue[i].id)
    requires forall i, j :: 0 <= i < j < |queue| ==> queue[i].id != queue[j].id
    requires i < |queue| && queue[i].id in tb && queue[i].deps == tb[queue[i].id].deps
    ensures var id := queue[i].id; id in PassTable(tb, queue) && PassTable(tb, queue)[id] == AfterPass(tb, id)
  {
    hide PassTable;
    PassPointwise(tb, queue);
  }

  /** Which jobs a pass starts: one for each ready candidate whose job can be started, and no other. */
  lemma {:induction false} StartsExactly(tb: Table, queue: seq<Loaded>, broken: set<int>)
    requires forall i :: 0 <= i < |queue| ==> Candidate(tb, queue[i].id)
    requires forall i, j :: 0 <= i < j < |queue| ==> queue[i].id != queue[j].id
    ensures forall id :: id in Started(tb, queue, broken) ==> id !in broken && exists i :: 0 <= i < |queue| && queue[i].id == id
    ensures forall i :: 0 <= i < |queue| ==>
              (queue[i].id in Started(tb, queue, broken) <==>
                 queue[i].id !in broken && queue[i].deps != []
                 && forall k :: 0 <= k < |queue[i].deps| ==> IsCompleted(tb, queue[i].deps[k]))
    ensures forall a, b :: 0 <= a < b < |Started(tb, queue, broken)| ==> Started(tb, queue, broken)[a] != Started(tb, queue, broken)[b]
    decreases |queue|
  {
    hide Visit;
    if queue == [] {
    } else {
      VisitMeaning(tb, queue[0]);
      var rest := Started(Visit(tb, queue[0]), queue[1..], broken);
      StartsExactly(Visit(tb, queue[0]), queue[1..], broken);
      assert forall i :: 1 <= i < |queue| ==> queue[i] == queue[1..][i - 1];
      assert queue[0].id !in rest;
      assert forall deps :: DepsMet(Visit(tb, queue[0]), deps) == DepsMet(tb, deps);
    }
  }

  /** After `k` rounds: the layers below `k` are completed, the others untouched. */
  ghost predicate LayersDone(tb: Table, rank: map<int, nat>, now: Table, k: nat)
    requires Acyclic(tb, rank)
  {
    forall id :: RowDone(tb, rank, now, k, id)
  }

  ghost predicate RowDone(tb: Table, rank: map<int, nat>, now: Table, k: nat, id: int)
    requires Acyclic(tb, rank)
  {
    && (IsCompleted(tb, id) ==> IsCompleted(now, id))
    && (Candidate(tb, id) ==> id in now && if Depth(tb, rank, id) < k then now[id].status == Completed else now[id] == tb[id])
    && (Candidate(now, id) ==> Candidate(tb, id))
  }

  lemma ReadyExactly(tb: Table, rank: map<int, nat>, now: Table, k: nat, id: int)
    requires Acyclic(tb, rank) && LayersDone(tb, rank, now, k) && Candidate(now, id)
    ensures Candidate(tb, id) && now[id] == tb[id] && (DepsMet(now, now[id].deps) <==> Depth(tb, rank, id) == k)
  {
    assert RowDone(tb, rank, now, k, id);
    var deps := tb[id].deps;
    DepthMeaning(tb, rank, id, deps, k);
    forall i | 0 <= i < |deps| ensures IsCompleted(now, deps[i]) <==> Below(tb, rank, deps[i], k) {
      assert RowDone(tb, rank, now, k, deps[i]);
    }
  }

  /** A pass moves exactly the tasks of layer `k` to planning. */
  lemma PassMovesLayer(tb: Table, rank: map<int, nat>, now: Table, k: nat, order: seq<int>, id: int)
    requires Acyclic(tb, rank) && LayersDone(tb, rank, now, k) && ScanOf(now, order) && id in now
    ensures var after := PassTable(now, Load(now, order));
            && id in after
            && after[id] == if Candidate(now, id) && Candidate(tb, id) && Depth(tb, rank, id) == k
                            then tb[id].(status := Planning, reason := None) else now[id]
  {
    var queue := Load(now, order);
    PassPointwise(now, queue);
    if Candidate(now, id) {
      ReadyExactly(tb, rank, now, k, id);
      var i :| 0 <= i < |order| && order[i] == id;
      assert queue[i] == Loaded(id, now[id].deps);
    }
  }

  lemma RoundKeepsLayers(tb: Table, rank: map<int, nat>, now: Table, k: nat, order: seq<int>)
    requires Acyclic(tb, rank) && LayersDone(tb, rank, now, k) && ScanOf(now, order)
    ensures LayersDone(tb, rank, Round(now, order), k + 1)
  {
    var next, n := Round(now, order), k + 1;
    forall id ensures RowDone(tb, rank, next, n, id) {
      RoundKeepsRow(tb, rank, now, k, order, id);
    }
  }

  lemma RoundKeepsRow(tb: Table, rank: map<int, nat>, now: Table, k: nat, order: seq<int>, id: int)
    requires Acyclic(tb, rank) && LayersDone(tb, rank, now, k) && ScanOf(now, order)
    ensures RowDone(tb, rank, Round(now, order), k + 1, id)
  {
    hide Depth;
    assert RowDone(tb, rank, now, k, id);
    PassPointwise(now, Load(now, order));
    if id in now { PassMovesLayer(tb, rank, now, k, order, id); }
  }

  /** Exactly when: with dispatching and completion working, a task is completed after `k` rounds
      if and only if fewer than `k` layers of unfinished tasks lay below it; until then it has
      not been touched. */
  lemma {:induction false} LayerByLayer(tb: Table, rank: map<int, nat>, tables: seq<Table>, orders: seq<seq<int>>, k: nat)
    requires Acyclic(tb, rank) && Rounds(tables, orders) && tables[0] == tb && k <= |orders|
    ensures LayersDone(tb, rank, tables[k], k)
  {
    if k == 0 {
    } else {
      LayerByLayer(tb, rank, tables, orders, k - 1);
      RoundKeepsLayers(tb, rank, tables[k - 1], k - 1, orders[k - 1]);
    }
  }

  lemma {:induction false} DeepestDep(tb: Table, rank: map<int, nat>, id: int, deps: seq<int>) returns (x: int)
    requires Acyclic(tb, rank) && DepsRanked(tb, rank, id, deps) && DepthOver(tb, rank, id, deps) > 0
    ensures x in deps && Candidate(tb, x) && Depth(tb, rank, x) + 1 == DepthOver(tb, rank, id, deps) && rank[x] < rank[id]
    decreases |deps|
  {
    var rest := DepthOver(tb, rank, id, deps[1..]);
    if rest == DepthOver(tb, rank, id, deps) {
      x := DeepestDep(tb, rank, id, deps[1..]);
    } else {
      x := deps[0];
    }
  }

  /** Below a task lie at least as many candidates as its depth. */
  lemma {:induction false} Chain(tb: Table, rank: map<int, nat>, id: int) returns (s: set<int>)
    requires Acyclic(tb, rank) && Candidate(tb, id)
    ensures |s| == Depth(tb, rank, id) + 1
    ensures forall x :: x in s ==> Candidate(tb, x) && Depth(tb, rank, x) <= Depth(tb, rank, id)
    decreases rank[id]
  {
    if Depth(tb, rank, id) == 0 {
      s := {id};
    } else {
      var x := DeepestDep(tb, rank, id, tb[id].deps);
      s := Chain(tb, rank, x);
      s := s + {id};
    }
  }

  function Candidates(tb: Table): set<int> {
    set id | id in tb && Candidate(tb, id)
  }

  /** `n` blocked tasks are all dispatched and completed within `n` passes. */
  lemma AllDoneWithinN(tb: Table, rank: map<int, nat>, tables: seq<Table>, orders: seq<seq<int>>)
    requires Acyclic(tb, rank) && Rounds(tables, orders) && tables[0] == tb && |orders| == |Candidates(tb)|
    ensures forall id :: Candidate(tb, id) ==> id in tables[|orders|] && tables[|orders|][id].status == Completed
    ensures Candidates(tables[|orders|]) == {}
  {
    var last := tables[|orders|];
    LayerByLayer(tb, rank, tables, orders, |orders|);
    forall id ensures Candidate(tb, id) ==> Depth(tb, rank, id) < |orders| && RowDone(tb, rank, last, |orders|, id) {
      assert RowDone(tb, rank, last, |orders|, id);
      if Candidate(tb, id) {
        var s := Chain(tb, rank, id);
        assert forall x :: x in s ==> x in Candidates(tb);
        SubsetSize(s, Candidates(tb));
      }
    }
    forall id ensures !Candidate(last, id) {
      assert RowDone(tb, rank, last, |orders|, id);
    }
  }

  // ------------------------------------------------- only acyclic tasks are all completed

  ghost predicate NoPlanning(tb: Table) {
    forall id :: id in tb ==> tb[id].status != Planning
  }

  /** What one round does, when it starts with nothing in planning. */
  ghost predicate RoundMoves(now: Table, next: Table) {
    && NoPlanning(next) && next.Keys == now.Keys
    && forall id :: id in now ==> if IsCompleted(next, id) && !IsCompleted(now, id) then MovedIn(now, id) else next[id] == now[id]
  }

  ghost predicate MovedIn(now: Table, id: int) {
    Candidate(now, id) && now[id].deps != [] && DepsMet(now, now[id].deps)
  }

  lemma RoundFromNoPlanning(now: Table, order: seq<int>)
    requires ScanOf(now, order) && NoPlanning(now)
    ensures RoundMoves(now, Round(now, order))
  {
    var queue := Load(now, order);
    PassPointwise(now, queue);
    forall id | id in now && Candidate(now, id)
      ensures PassTable(now, queue)[id] == if MovedIn(now, id) then now[id].(status := Planning, reason := None) else now[id]
    {
      var i :| 0 <= i < |order| && order[i] == id;
      assert queue[i] == Loaded(id, now[id].deps);
    }
  }

  /** Each row is as it was at the start, or was a candidate then and is completed. */
  ghost predicate OnlyCandidatesMoved(tb: Table, now: Table) {
    now.Keys == tb.Keys && forall id :: id in tb ==> now[id] == tb[id] || (Candidate(tb, id) && now[id].status == Completed)
  }

  lemma {:induction false} RoundsFromNoPlanning(tables: seq<Table>, orders: seq<seq<int>>, k: nat)
    requires Rounds(tables, orders) && k <= |orders| && NoPlanning(tables[0])
    ensures NoPlanning(tables[k]) && OnlyCandidatesMoved(tables[0], tables[k])
    ensures k < |orders| ==> RoundMoves(tables[k], tables[k + 1])
  {
    if k == 0 {
    } else {
      RoundsFromNoPlanning(tables, orders, k - 1);
    }
    if k < |orders| { RoundFromNoPlanning(tables[k], orders[k]); }
  }

  /** The round after which a task is completed. */
  ghost function DoneAfter(tables: seq<Table>, id: int, n: nat): (k: nat)
    requires n < |tables| && IsCompleted(tables[n], id)
    ensures k <= n && IsCompleted(tables[k], id) && (k > 0 ==> !IsCompleted(tables[k - 1], id))
  {
    if n > 0 && IsCompleted(tables[n - 1], id) then DoneAfter(tables, id, n - 1) else n
  }

  lemma {:induction false} DoneEarlier(tables: seq<Table>, orders: seq<seq<int>>, id: int, k: nat, n: nat)
    requires Rounds(tables, orders) && NoPlanning(tables[0]) && k <= n <= |orders| && IsCompleted(tables[k], id)
    ensures IsCompleted(tables[n], id) && DoneAfter(tables, id, n) <= k
  {
    hide Rounds, OnlyCandidatesMoved;
    if n == k {
    } else {
      DoneEarlier(tables, orders, id, k, n - 1);
      RoundsFromNoPlanning(tables, orders, n - 1);
    }
  }

  /** Conversely, tasks that are all completed in the end have no cycle below them: the round that completed
      each is its rank. */
  lemma DoneGivesRank(tables: seq<Table>, orders: seq<seq<int>>) returns (rank: map<int, nat>)
    requires Rounds(tables, orders) && NoPlanning(tables[0])
    requires forall id :: Candidate(tables[0], id) ==> IsCompleted(tables[|orders|], id)
    ensures Acyclic(tables[0], rank)
  {
    var tb, n := tables[0], |orders|;
    rank := map id | id in tb && Candidate(tb, id) :: DoneAfter(tables, id, n);
    forall id | Candidate(tb, id) ensures tb[id].deps != [] && DepsRanked(tb, rank, id, tb[id].deps) {
      var k := DoneAfter(tables, id, n);
      RoundsFromNoPlanning(tables, orders, k - 1);
      var now := tables[k - 1];
      assert MovedIn(now, id) && now[id] == tb[id];
      forall i | 0 <= i < |tb[id].deps|
        ensures var x := tb[id].deps[i]; IsCompleted(tb, x) || (Candidate(tb, x) && x in rank && rank[x] < rank[id])
      {
        var x := tb[id].deps[i];
        assert IsCompleted(now, x);
        DoneEarlier(tables, orders, x, k - 1, n);
      }
    }
  }

  /** Exactly when `n` blocked tasks are all completed by `n` passes, whatever the order of the scans: when their
      unfinished dependencies are among them, without a cycle. */
  lemma AllDoneExactly(tables: seq<Table>, orders: seq<seq<int>>)
    requires Rounds(tables, orders) && |orders| == |Candidates(tables[0])| && NoPlanning(tables[0])
    ensures (forall id :: Candidate(tables[0], id) ==> IsCompleted(tables[|orders|], id))
            <==> exists rank :: Acyclic(tables[0], rank)
  {
    if forall id :: Candidate(tables[0], id) ==> IsCompleted(tables[|orders|], id) {
      var rank := DoneGivesRank(tables, orders);
    }
    if rank :| Acyclic(tables[0], rank) {
      AllDoneWithinN(tables[0], rank, tables, orders);
    }
  }
}
