/** What removing the demo data guarantees: exactly which rows go, that nothing is left
    dangling, and that doing it again changes nothing. */
module DemoProperties {
  import opened DemoData

  // ------------------------------------------------------------------- cascades

  /** No row outside `s` goes with it. */
  ghost predicate Closed(rows: Rows, s: set<Ref>) {
    forall r :: r in rows && CascadesInto(rows[r], s) ==> r in s
  }

  lemma {:induction false} ClosureIsClosed(rows: Rows, s: set<Ref>)
    ensures s <= Closure(rows, s) && Closed(rows, Closure(rows, s))
    decreases rows.Keys - s
  {
    if Dependents(rows, s) != {} {
      assert exists r :: r in Dependents(rows, s);
      ClosureIsClosed(rows, s + Dependents(rows, s));
    } else {
      forall r | r in rows && CascadesInto(rows[r], s) ensures r in s {
        assert r !in Dependents(rows, s);
      }
    }
  }

  /** It is the least closed set. */
  lemma {:induction false} ClosureIsLeast(rows: Rows, s: set<Ref>, t: set<Ref>)
    requires s <= t && Closed(rows, t)
    ensures Closure(rows, s) <= t
    decreases rows.Keys - s
  {
    if Dependents(rows, s) != {} {
      assert exists r :: r in Dependents(rows, s);
      forall r | r in Dependents(rows, s) ensures r in t {
        assert CascadesInto(rows[r], t);
      }
      ClosureIsLeast(rows, s + Dependents(rows, s), t);
    }
  }

  /** `after` has some of the rows of `before`, with some columns that could be NULLed cut. */
  ghost predicate Shrunk(before: Rows, after: Rows) {
    after.Keys <= before.Keys && forall r :: r in after ==> RowShrunk(before[r], after[r], after)
  }

  /** The row is the same but for the columns whose target is gone, none of which cascades. */
  ghost predicate RowShrunk(old_: Row, new_: Row, after: Rows) {
    && new_ == old_.(fks := new_.fks)
    && (forall c :: c in new_.fks ==> c in old_.fks && new_.fks[c] == old_.fks[c])
    && (forall c :: c in old_.fks && c !in new_.fks ==> !old_.fks[c].cascade && old_.fks[c].target !in after)
  }

  lemma DeleteShrinks(rows: Rows, s: set<Ref>)
    ensures var after := DeleteRows(rows, s);
            Shrunk(rows, after) && after.Keys == rows.Keys - Closure(rows, s) && after.Keys !! s
    ensures Valid(rows) ==> Valid(DeleteRows(rows, s))
    ensures Schema(rows) ==> Schema(DeleteRows(rows, s))
  {
    ClosureIsClosed(rows, s);
    var gone, after := Closure(rows, s), DeleteRows(rows, s);
    forall r, c | r in after && c in rows[r].fks && rows[r].fks[c].cascade ensures rows[r].fks[c].target !in gone {
      assert !CascadesInto(rows[r], gone);
    }
  }

  lemma ShrunkTransitive(a: Rows, b: Rows, c: Rows)
    requires Shrunk(a, b) && Shrunk(b, c)
    ensures Shrunk(a, c)
  {
    forall r | r in c ensures RowShrunk(a[r], c[r], c) {
      assert RowShrunk(b[r], c[r], c) && RowShrunk(a[r], b[r], b);
    }
  }

  lemma DeleteWithin(a: Rows, b: Rows, s: set<Ref>, t: set<Ref>)
    requires Shrunk(a, b) && Closed(a, t) && s <= t && a.Keys - b.Keys <= t
    ensures Shrunk(a, DeleteRows(b, s)) && a.Keys - DeleteRows(b, s).Keys <= t && DeleteRows(b, s).Keys !! s
  {
    forall r | r in b && CascadesInto(b[r], t) ensures r in t {
      assert RowShrunk(a[r], b[r], b);
      assert CascadesInto(a[r], t);
    }
    ClosureIsLeast(b, s, t);
    DeleteShrinks(b, s);
    ShrunkTransitive(a, b, DeleteRows(b, s));
  }

  /** The rows that are deleted whatever refers to them. */
  function Seeds(db: Db): set<Ref> {
    var tasks := DemoRows(db.rows, Tasks);
    tasks + ApprovalsAbout(db.rows, tasks) + DemoRows(db.rows, Enhancements) + Refs(Roadmaps, db.ownedRoadmaps)
  }

  function Marked(db: Db): set<Ref> {
    Closure(db.rows, Seeds(db))
  }

  lemma RemoveTasksWithin(db: Db)
    requires Schema(db.rows)
    ensures var b := RemoveTasks(db.rows);
            && Shrunk(db.rows, b) && db.rows.Keys - b.Keys <= Marked(db)
            && b.Keys !! DemoRows(db.rows, Tasks) && b.Keys !! ApprovalsAbout(db.rows, DemoRows(db.rows, Tasks))
  {
    var rows, t, tasks := db.rows, Marked(db), DemoRows(db.rows, Tasks);
    ClosureIsClosed(rows, Seeds(db));
    if tasks != {} {
      var r1 := DeleteRows(rows, ApprovalsAbout(rows, tasks));
      DeleteWithin(rows, rows, ApprovalsAbout(rows, tasks), t);
      PointingWithin(rows, r1, AgentRuns, "task_id", tasks, t);
      var r2 := DeleteRows(r1, Pointing(r1, AgentRuns, "task_id", tasks));
      DeleteWithin(rows, r1, Pointing(r1, AgentRuns, "task_id", tasks), t);
      PointingWithin(rows, r2, TaskLogs, "task_id", tasks, t);
      var r3 := DeleteRows(r2, Pointing(r2, TaskLogs, "task_id", tasks));
      DeleteWithin(rows, r2, Pointing(r2, TaskLogs, "task_id", tasks), t);
      DeleteWithin(rows, r3, tasks, t);
      DeleteShrinks(r1, Pointing(r1, AgentRuns, "task_id", tasks));
      DeleteShrinks(r2, Pointing(r2, TaskLogs, "task_id", tasks));
      DeleteShrinks(r3, tasks);
    }
  }

  /** Rows that point by a cascading column into a closed set are in it. */
  lemma PointingWithin(a: Rows, b: Rows, table: Table, column: string, s: set<Ref>, t: set<Ref>)
    requires Schema(a) && Shrunk(a, b) && Closed(a, t) && s <= t
    requires (table == AgentRuns && column == "task_id") || (table == TaskLogs && column == "task_id")
          || (table == RoadmapItems && column == "roadmap_id")
    ensures Pointing(b, table, column, s) <= t
  {
    forall r | r in Pointing(b, table, column, s) ensures r in t {
      assert RowShrunk(a[r], b[r], b);
      assert CascadesInto(a[r], t);
    }
  }

  lemma RemoveMarkedWithin(db: Db)
    requires Schema(db.rows)
    ensures var e := RemoveMarked(db);
            Shrunk(db.rows, e) && db.rows.Keys - e.Keys <= Marked(db) && e.Keys !! Seeds(db)
  {
    var rows, t := db.rows, Marked(db);
    ClosureIsClosed(rows, Seeds(db));
    RemoveTasksWithin(db);
    var b := RemoveTasks(rows);
    forall r | r in DemoRows(b, Enhancements) ensures r in Seeds(db) { assert RowShrunk(rows[r], b[r], b); }
    forall r | r in b && r in DemoRows(rows, Enhancements) ensures r in DemoRows(b, Enhancements) {
      assert RowShrunk(rows[r], b[r], b);
    }
    var d := RemoveEnhancements(b);
    DeleteWithin(rows, b, DemoRows(b, Enhancements), t);
    DeleteShrinks(b, DemoRows(b, Enhancements));
    if db.ownedRoadmaps != [] {
      var maps := Refs(Roadmaps, db.ownedRoadmaps);
      PointingWithin(rows, d, RoadmapItems, "roadmap_id", maps, t);
      var items := Pointing(d, RoadmapItems, "roadmap_id", maps);
      DeleteWithin(rows, d, items, t);
      DeleteShrinks(d, items);
      DeleteWithin(rows, DeleteRows(d, items), maps, t);
      DeleteShrinks(DeleteRows(d, items), maps);
    }
  }

  lemma RemoveMarkedValid(db: Db)
    requires Valid(db.rows) && Schema(db.rows)
    ensures Valid(RemoveMarked(db)) && Schema(RemoveMarked(db))
  {
    var tasks := DemoRows(db.rows, Tasks);
    DeleteShrinks(db.rows, ApprovalsAbout(db.rows, tasks));
    var r1 := DeleteRows(db.rows, ApprovalsAbout(db.rows, tasks));
    DeleteShrinks(r1, Pointing(r1, AgentRuns, "task_id", tasks));
    var r2 := DeleteRows(r1, Pointing(r1, AgentRuns, "task_id", tasks));
    DeleteShrinks(r2, Pointing(r2, TaskLogs, "task_id", tasks));
    DeleteShrinks(DeleteRows(r2, Pointing(r2, TaskLogs, "task_id", tasks)), tasks);
    var b := RemoveTasks(db.rows);
    DeleteShrinks(b, DemoRows(b, Enhancements));
    var d := RemoveEnhancements(b);
    var items := Pointing(d, RoadmapItems, "roadmap_id", Refs(Roadmaps, db.ownedRoadmaps));
    DeleteShrinks(d, items);
    DeleteShrinks(DeleteRows(d, items), Refs(Roadmaps, db.ownedRoadmaps));
  }

  /** The unconditional part deletes the seeds and all that cascades from them, nothing else. */
  lemma RemoveMarkedExactly(db: Db)
    requires Valid(db.rows) && Schema(db.rows)
    ensures RemoveMarked(db).Keys == db.rows.Keys - Marked(db) && Shrunk(db.rows, RemoveMarked(db))
  {
    RemoveMarkedWithin(db);
    RemoveMarkedValid(db);
    ClosureIsClosed(db.rows, Seeds(db));
    var e := RemoveMarked(db);
    var t := Marked(db) - e.Keys;
    forall r | r in db.rows && CascadesInto(db.rows[r], t) ensures r in t {
      assert CascadesInto(db.rows[r], Marked(db));
    }
    ClosureIsLeast(db.rows, Seeds(db), t);
  }

  // --------------------------------------------------------- the partial deletions

  /** Rows nobody needs go alone. */
  lemma DropExactly(rows: Rows, ids: set<Ref>)
    ensures DropUnneeded(rows, ids) == rows - Unneeded(rows, ids)
  {
    var gone := Unneeded(rows, ids);
    forall q, c | q in rows && c in rows[q].fks ensures rows[q].fks[c].target !in gone {
      assert Refers(rows[q], rows[q].fks[c].target);
    }
    assert Dependents(rows, gone) == {};
    assert forall r :: r in rows ==> Cut(rows[r], gone) == rows[r];
  }

  /** Rows `e` is what is left of `rows` after dropping from `ids` (of level `n`), and then more
      rows of level at most `n` that are not in `ids`. */
  lemma SurvivesExactly(rows: Rows, ids: set<Ref>, n: nat, e: Rows, r: Ref)
    requires Schema(rows) && n < 3 && (forall x :: x in ids ==> Level(x.table) == n)
    requires forall q :: q in e ==> q in rows && e[q] == rows[q] && q !in Unneeded(rows, ids)
    requires forall q :: q in rows && q !in e ==> q in Unneeded(rows, ids) || (Level(q.table) <= n && q !in ids)
    requires r in ids && r in rows
    ensures r in e <==> Referenced(e, r)
  {
    if Referenced(rows, r) {
      var q :| q in rows && Refers(rows[q], r);
      var c :| c in rows[q].fks && rows[q].fks[c].target == r;
      assert ColumnOk(q.table, c, rows[q].fks[c]);
      assert q in e && Refers(e[q], r);
    }
  }

  /** The rows that go only when nothing needs them any more. */
  function Labels(db: Db): set<Ref> {
    var projects := DemoRows(db.rows, Projects);
    Pointing(db.rows, Goals, "project_id", projects) + Pointing(db.rows, Epics, "project_id", projects)
    + projects + (Refs(Repos, db.ownedRepos) * db.rows.Keys)
  }

  lemma SchemaOfSubmap(a: Rows, b: Rows)
    requires Schema(a) && forall q :: q in b ==> q in a && b[q] == a[q]
    ensures Schema(b)
  {
  }

  /** Only rows above the labels are seeds or cascade from them. */
  lemma MarkedAreAboveLabels(db: Db)
    requires Schema(db.rows)
    ensures forall r :: r in Marked(db) ==> Level(r.table) == 3
  {
    ClosureIsClosed(db.rows, Seeds(db));
    var t := set r | r in Marked(db) && Level(r.table) == 3;
    forall r | r in db.rows && CascadesInto(db.rows[r], t) ensures r in t {
      assert CascadesInto(db.rows[r], Marked(db));
      var c :| c in db.rows[r].fks && db.rows[r].fks[c].cascade && db.rows[r].fks[c].target in t;
      assert ColumnOk(r.table, c, db.rows[r].fks[c]);
    }
    ClosureIsLeast(db.rows, Seeds(db), t);
  }

  lemma LabelRowUncut(before: Rows, after: Rows, r: Ref)
    requires Valid(before) && Schema(before) && Shrunk(before, after)
    requires forall q :: q in before && Level(q.table) < 3 ==> q in after
    requires r in before && Level(r.table) < 3
    ensures after[r] == before[r]
  {
    assert RowShrunk(before[r], after[r], after);
    forall c | c in before[r].fks ensures c in after[r].fks {
      assert ColumnOk(r.table, c, before[r].fks[c]);
      assert before[r].fks[c].target in after;
    }
    assert after[r].fks == before[r].fks;
  }

  lemma LabelRowsUnchanged(db: Db, r: Ref)
    requires Valid(db.rows) && Schema(db.rows) && r in db.rows && Level(r.table) < 3
    ensures r in RemoveMarked(db) && RemoveMarked(db)[r] == db.rows[r]
  {
    RemoveMarkedExactly(db);
    MarkedAreAboveLabels(db);
    LabelRowUncut(db.rows, RemoveMarked(db), r);
  }

  lemma SelectionUnchanged(db: Db, t: Table)
    requires Valid(db.rows) && Schema(db.rows) && Level(t) < 3
    ensures var projects := DemoRows(db.rows, Projects);
            Pointing(RemoveMarked(db), t, "project_id", projects) == Pointing(db.rows, t, "project_id", projects)
  {
    forall r | r in db.rows && r.table == t ensures r in RemoveMarked(db) && RemoveMarked(db)[r] == db.rows[r] {
      LabelRowsUnchanged(db, r);
    }
    RemoveMarkedExactly(db);
  }

  // ------------------------------------------------------------ the main theorems

  function GoalIds(db: Db): set<Ref> { Pointing(db.rows, Goals, "project_id", DemoRows(db.rows, Projects)) }
  function EpicIds(db: Db): set<Ref> { Pointing(db.rows, Epics, "project_id", DemoRows(db.rows, Projects)) }

  /** The four partial deletions, one after the other. */
  lemma Stages(db: Db)
    requires Valid(db.rows) && Schema(db.rows)
    ensures var a, b, c, d, e := RemoveMarked(db), AfterGoals(db), AfterEpics(db), AfterProjects(db), Removed(db).rows;
            && b == a - Unneeded(a, GoalIds(db))
            && c == b - Unneeded(b, EpicIds(db))
            && d == c - Unneeded(c, DemoRows(db.rows, Projects))
            && e == d - Unneeded(d, Refs(Repos, db.ownedRepos))
  {
    var a, b, c := RemoveMarked(db), AfterGoals(db), AfterEpics(db);
    SelectionUnchanged(db, Goals);
    SelectionUnchanged(db, Epics);
    DropExactly(a, GoalIds(db));
    var projects := DemoRows(db.rows, Projects);
    assert Pointing(b, Epics, "project_id", projects) == EpicIds(db);
    DropExactly(b, EpicIds(db));
    DropExactly(c, projects);
    DropExactly(AfterProjects(db), Refs(Repos, db.ownedRepos));
  }

  lemma SurvivesStages(a: Rows, b: Rows, c: Rows, d: Rows, e: Rows,
                       gs: set<Ref>, es: set<Ref>, ps: set<Ref>, rs: set<Ref>, r: Ref)
    requires Schema(a) && b == a - Unneeded(a, gs) && c == b - Unneeded(b, es) && d == c - Unneeded(c, ps) && e == d - Unneeded(d, rs)
    requires forall x :: (x in gs ==> x.table == Goals) && (x in es ==> x.table == Epics)
                      && (x in ps ==> x.table == Projects) && (x in rs ==> x.table == Repos)
    requires r in a && r in gs + es + ps + rs
    ensures r in e <==> Referenced(e, r)
  {
    hide Referenced, Schema;
    SchemaOfSubmap(a, b);
    SchemaOfSubmap(b, c);
    SchemaOfSubmap(c, d);
    if r in gs { SurvivesExactly(a, gs, 2, e, r); }
    else if r in es { SurvivesExactly(b, es, 2, e, r); }
    else if r in ps { SurvivesExactly(c, ps, 1, e, r); }
    else { SurvivesExactly(d, rs, 0, e, r); }
  }

  /** A goal, epic or project of the demo, or a repo the script created, survives exactly when a
      surviving row needs it. */
  lemma LabelSurvivesExactly(db: Db, r: Ref)
    requires Valid(db.rows) && Schema(db.rows) && r in Labels(db)
    ensures r in Removed(db).rows <==> Referenced(Removed(db).rows, r)
  {
    hide DeleteRows, Unneeded;
    Stages(db);
    RemoveMarkedValid(db);
    LabelRowsUnchanged(db, r);
    SurvivesStages(RemoveMarked(db), AfterGoals(db), AfterEpics(db), AfterProjects(db), Removed(db).rows,
                   GoalIds(db), EpicIds(db), DemoRows(db.rows, Projects), Refs(Repos, db.ownedRepos), r);
  }

  lemma GoneInStages(a: Rows, b: Rows, c: Rows, d: Rows, e: Rows,
                     gs: set<Ref>, es: set<Ref>, ps: set<Ref>, rs: set<Ref>, r: Ref)
    requires b == a - Unneeded(a, gs) && c == b - Unneeded(b, es) && d == c - Unneeded(c, ps) && e == d - Unneeded(d, rs)
    requires r in a && r !in gs + es + ps + rs
    ensures r in e
  {
  }

  /** Exactly which rows are deleted: the marked ones with their cascades, and the labels that no
      surviving row needs. */
  lemma RemovesExactly(db: Db, r: Ref)
    requires Valid(db.rows) && Schema(db.rows) && r in db.rows
    ensures r !in Removed(db).rows <==> r in Marked(db) || (r in Labels(db) && !Referenced(Removed(db).rows, r))
  {
    RemoveMarkedExactly(db);
    Stages(db);
    if r in Labels(db) {
      LabelSurvivesExactly(db, r);
      MarkedAreAboveLabels(db);
    } else if r !in Marked(db) {
      GoneInStages(RemoveMarked(db), AfterGoals(db), AfterEpics(db), AfterProjects(db), Removed(db).rows,
                   GoalIds(db), EpicIds(db), DemoRows(db.rows, Projects), Refs(Repos, db.ownedRepos), r);
    }
  }

  /** Nothing is left dangling, and a surviving row lost at most the columns that pointed to a
      deleted row and may be NULL. */
  lemma RemovalLeavesNothingDangling(db: Db)
    requires Valid(db.rows) && Schema(db.rows)
    ensures Valid(Removed(db).rows) && Schema(Removed(db).rows) && Shrunk(db.rows, Removed(db).rows)
  {
    var a, b, c, d, e := RemoveMarked(db), AfterGoals(db), AfterEpics(db), AfterProjects(db), Removed(db).rows;
    RemoveMarkedValid(db);
    RemoveMarkedExactly(db);
    var projects := DemoRows(db.rows, Projects);
    DropKeeps(a, Pointing(a, Goals, "project_id", projects));
    DropKeeps(b, Pointing(b, Epics, "project_id", projects));
    DropKeeps(c, projects);
    DropKeeps(d, Refs(Repos, db.ownedRepos));
    ShrunkTransitive(db.rows, a, b);
    ShrunkTransitive(db.rows, b, c);
    ShrunkTransitive(db.rows, c, d);
    ShrunkTransitive(db.rows, d, e);
  }

  lemma DropKeeps(rows: Rows, ids: set<Ref>)
    requires Valid(rows) && Schema(rows)
    ensures Valid(DropUnneeded(rows, ids)) && Schema(DropUnneeded(rows, ids)) && Shrunk(rows, DropUnneeded(rows, ids))
  {
    DeleteShrinks(rows, Unneeded(rows, ids));
  }

  lemma {:induction false} WithoutMeaning(ids: seq<int>, t: Table, removed: set<Ref>)
    ensures forall i :: i in Without(ids, t, removed) <==> i in ids && Ref(t, i) !in removed
    ensures (forall i :: i in ids ==> Ref(t, i) !in removed) ==> Without(ids, t, removed) == ids
  {
    if ids == [] {
    } else {
      WithoutMeaning(ids[1..], t, removed);
      assert ids == [ids[0]] + ids[1..];
    }
  }

  lemma NothingMarkedIsLeft(db: Db)
    requires Valid(db.rows) && Schema(db.rows)
    ensures Seeds(Removed(db)) == {}
  {
    var e := Removed(db).rows;
    RemovalLeavesNothingDangling(db);
    ClosureIsClosed(db.rows, Seeds(db));
    forall r | r in e && (r.table == Tasks || r.table == Enhancements) ensures !e[r].demo {
      assert RowShrunk(db.rows[r], e[r], e);
      RemovesExactly(db, r);
    }
    assert DemoRows(e, Tasks) == {} && DemoRows(e, Enhancements) == {};
  }

  lemma LabelsOfShrunk(before: Db, after: Db, r: Ref)
    requires Shrunk(before.rows, after.rows) && r in Labels(after)
    requires forall i :: i in after.ownedRepos ==> i in before.ownedRepos
    ensures r in Labels(before) && r in after.rows
  {
    forall x | x in after.rows ensures RowShrunk(before.rows[x], after.rows[x], after.rows) {}
    assert DemoRows(after.rows, Projects) <= DemoRows(before.rows, Projects);
  }

  lemma ShrunkWithSameRows(before: Rows, after: Rows)
    requires Valid(before) && Shrunk(before, after) && after.Keys == before.Keys
    ensures after == before
  {
    forall r | r in before ensures after[r] == before[r] {
      assert RowShrunk(before[r], after[r], after);
      assert after[r].fks == before[r].fks;
    }
  }

  lemma NothingMarked(db: Db)
    requires Valid(db.rows) && Schema(db.rows) && Seeds(db) == {}
    ensures RemoveMarked(db) == db.rows
  {
    RemoveMarkedExactly(db);
    ClosureIsLeast(db.rows, {}, {});
    ShrunkWithSameRows(db.rows, RemoveMarked(db));
  }

  /** With nothing marked, and every label needed, the removal deletes nothing. */
  lemma NothingToRemove(db: Db)
    requires Valid(db.rows) && Schema(db.rows) && Seeds(db) == {} && db.ownedRoadmaps == []
    requires forall r :: r in Labels(db) ==> Referenced(db.rows, r)
    ensures Removed(db) == db
  {
    var e := db.rows;
    NothingMarked(db);
    NoneUnneeded(e, GoalIds(db));
    NoneUnneeded(e, EpicIds(db));
    NoneUnneeded(e, DemoRows(e, Projects));
    NoneUnneeded(e, Refs(Repos, db.ownedRepos));
    Stages(db);
    WithoutMeaning(db.ownedRepos, Repos, {});
  }

  lemma NoneUnneeded(rows: Rows, ids: set<Ref>)
    requires forall r :: r in ids && r in rows ==> Referenced(rows, r)
    ensures Unneeded(rows, ids) == {} && rows - Unneeded(rows, ids) == rows
  {
  }

  /** Nothing to remove: no marks, and every label is needed. */
  ghost predicate Settled(db: Db) {
    && Valid(db.rows) && Schema(db.rows) && Seeds(db) == {} && db.ownedRoadmaps == []
    && forall r :: r in Labels(db) ==> Referenced(db.rows, r)
  }

  lemma RemovedIsSettled(db: Db)
    requires Valid(db.rows) && Schema(db.rows)
    ensures Settled(Removed(db))
  {
    var once := Removed(db);
    RemovalLeavesNothingDangling(db);
    NothingMarkedIsLeft(db);
    WithoutMeaning(db.ownedRepos, Repos, Unneeded(AfterProjects(db), Refs(Repos, db.ownedRepos)));
    forall r | r in Labels(once) ensures Referenced(once.rows, r) {
      LabelsOfShrunk(db, once, r);
      LabelSurvivesExactly(db, r);
    }
  }

  /** Removing twice is removing once: the second removal finds nothing to delete. */
  lemma RemovalIsIdempotent(db: Db)
    requires Valid(db.rows) && Schema(db.rows)
    ensures Removed(Removed(db)) == Removed(db)
  {
    RemovedIsSettled(db);
    NothingToRemove(Removed(db));
  }

  // ------------------------------------------------- the removal, by the rows' own fields

  /** Each row of the path goes with the next one, by a cascading column. */
  ghost predicate CascadeChain(rows: Rows, path: seq<Ref>) {
    && path != [] && (forall i :: 0 <= i < |path| ==> path[i] in rows)
    && forall i :: 0 <= i < |path| - 1 ==> GoesWith(rows[path[i]], path[i + 1])
  }

  predicate GoesWith(row: Row, target: Ref) {
    exists c :: c in row.fks && row.fks[c].cascade && row.fks[c].target == target
  }

  ghost predicate CascadesFrom(rows: Rows, r: Ref, s: set<Ref>) {
    exists path :: CascadeChain(rows, path) && path[0] == r && path[|path| - 1] in s
  }

  lemma {:induction false} ChainIsInClosed(rows: Rows, s: set<Ref>, path: seq<Ref>)
    requires Closed(rows, s) && CascadeChain(rows, path) && path[|path| - 1] in s
    ensures path[0] in s
    decreases |path|
  {
    if |path| == 1 {
    } else {
      assert forall i :: 0 <= i < |path[1..]| ==> path[1..][i] == path[i + 1];
      ChainIsInClosed(rows, s, path[1..]);
      var c :| c in rows[path[0]].fks && rows[path[0]].fks[c].cascade && rows[path[0]].fks[c].target == path[1];
      assert CascadesInto(rows[path[0]], s);
    }
  }

  lemma ChainGrows(rows: Rows, r: Ref, s: set<Ref>)
    requires r in rows && CascadesInto(rows[r], set q | q in rows && CascadesFrom(rows, q, s))
    ensures CascadesFrom(rows, r, s)
  {
    var c :| c in rows[r].fks && rows[r].fks[c].cascade && rows[r].fks[c].target in rows && CascadesFrom(rows, rows[r].fks[c].target, s);
    var path :| CascadeChain(rows, path) && path[0] == rows[r].fks[c].target && path[|path| - 1] in s;
    assert GoesWith(rows[r], path[0]);
    assert CascadeChain(rows, [r] + path);
  }

  /** What goes with `s` is what has a chain of cascading columns into it. */
  lemma ClosureIsChains(rows: Rows, s: set<Ref>, r: Ref)
    requires Valid(rows) && r in rows
    ensures r in Closure(rows, s) <==> CascadesFrom(rows, r, s)
  {
    ClosureIsClosed(rows, s);
    if path :| CascadeChain(rows, path) && path[0] == r && path[|path| - 1] in s {
      ChainIsInClosed(rows, Closure(rows, s), path);
    }
    var t := set q | q in rows && CascadesFrom(rows, q, s);
    forall q | q in s && q in rows ensures q in t {
      assert CascadeChain(rows, [q]);
    }
    forall q | q in rows && CascadesInto(rows[q], t + s) ensures q in t {
      var c :| c in rows[q].fks && rows[q].fks[c].cascade && rows[q].fks[c].target in t + s;
      assert rows[q].fks[c].target in t;
      ChainGrows(rows, q, s);
    }
    ClosureIsLeast(rows, s, t + s);
  }

  /** The row is a demo task or enhancement, a recorded roadmap, or an approval about a demo task. */
  predicate IsMarked(db: Db, r: Ref)
    requires r in db.rows
  {
    var row := db.rows[r];
    match r.table
    case Tasks => row.demo
    case Enhancements => row.demo
    case Roadmaps => r.id in db.ownedRoadmaps
    case Approvals =>
      row.about.Some? && var task := Ref(Tasks, row.about.value); task in db.rows && db.rows[task].demo
    case _ => false
  }

  /** The row is a demo project, a repo on record, or a goal or epic of a demo project. */
  predicate IsLabel(db: Db, r: Ref)
    requires r in db.rows
  {
    var row := db.rows[r];
    match r.table
    case Projects => row.demo
    case Repos => r.id in db.ownedRepos
    case Goals => OfDemoProject(db, row)
    case Epics => OfDemoProject(db, row)
    case _ => false
  }

  predicate OfDemoProject(db: Db, row: Row) {
    && "project_id" in row.fks
    && var p := row.fks["project_id"].target; p.table == Projects && p in db.rows && db.rows[p].demo
  }

  lemma MarksByFields(db: Db, r: Ref)
    requires r in db.rows
    ensures r in Seeds(db) <==> IsMarked(db, r)
    ensures r in Labels(db) <==> IsLabel(db, r)
  {
  }

  /** Exactly which rows are deleted, by their fields: those with a chain of cascading columns to a marked
      row, and the labels that no column of a remaining row points to. */
  lemma RemovedByFields(db: Db, r: Ref)
    requires Valid(db.rows) && Schema(db.rows) && r in db.rows
    ensures var after := Removed(db).rows;
            r !in after <==>
              || (exists path :: CascadeChain(db.rows, path) && path[0] == r && IsMarked(db, path[|path| - 1]))
              || (IsLabel(db, r) && !exists q, c :: q in after && c in after[q].fks && after[q].fks[c].target == r)
  {
    var after := Removed(db).rows;
    RemovesExactly(db, r);
    ClosureIsChains(db.rows, Seeds(db), r);
    MarksByFields(db, r);
    forall path | CascadeChain(db.rows, path) ensures path[|path| - 1] in Seeds(db) <==> IsMarked(db, path[|path| - 1]) {
      MarksByFields(db, path[|path| - 1]);
    }
    if q, c :| q in after && c in after[q].fks && after[q].fks[c].target == r { assert Refers(after[q], r); }
    if q :| q in after && Refers(after[q], r) {
      var c :| c in after[q].fks && after[q].fks[c].target == r;
    }
  }

  /** Every demo task goes, every approval about one, every demo enhancement and every recorded roadmap. */
  lemma MarkedRowsGo(db: Db, r: Ref)
    requires Valid(db.rows) && Schema(db.rows) && r in Removed(db).rows
    ensures r in db.rows
    ensures r.table.Tasks? || r.table.Enhancements? ==> !db.rows[r].demo
    ensures r.table.Roadmaps? ==> r.id !in db.ownedRoadmaps
    ensures r.table.Approvals? && db.rows[r].about.Some? ==>
              forall task :: task in db.rows && task.table.Tasks? && task.id == db.rows[r].about.value ==> !db.rows[task].demo
  {
    hide Removed, Valid, Schema, Closure;
    RemovalLeavesNothingDangling(db);
    MarkedGoes(db, r);
  }

  lemma MarkedGoes(db: Db, r: Ref)
    requires Valid(db.rows) && Schema(db.rows) && r in db.rows && r in Removed(db).rows
    ensures !IsMarked(db, r)
  {
    hide Removed, Valid, Schema, Closure;
    RemovedByFields(db, r);
    assert CascadeChain(db.rows, [r]);
  }

  /** Any other row above the labels goes only with one that it cascades from. */
  lemma OthersGoByCascade(db: Db, r: Ref)
    requires Valid(db.rows) && Schema(db.rows) && r in db.rows && r !in Removed(db).rows && Level(r.table) == 3
    requires r.table.Tasks? || r.table.Enhancements? ==> !db.rows[r].demo
    requires r.table.Roadmaps? ==> r.id !in db.ownedRoadmaps
    requires r.table.Approvals? && db.rows[r].about.Some? ==>
               forall task :: task in db.rows && task.table.Tasks? && task.id == db.rows[r].about.value ==> !db.rows[task].demo
    ensures exists c :: c in db.rows[r].fks && db.rows[r].fks[c].cascade && db.rows[r].fks[c].target !in Removed(db).rows
  {
    hide Removed, Valid, Schema, Closure;
    RemovedByFields(db, r);
    assert !IsMarked(db, r);
    var path :| CascadeChain(db.rows, path) && path[0] == r && IsMarked(db, path[|path| - 1]);
    assert forall i :: 0 <= i < |path[1..]| ==> path[1..][i] == path[i + 1];
    assert GoesWith(db.rows[r], path[1]);
    assert CascadeChain(db.rows, path[1..]);
    RemovedByFields(db, path[1]);
  }

  lemma DroppedLast(a: Rows, b: Rows, c: Rows, d: Rows, e: Rows,
                    gs: set<Ref>, es: set<Ref>, ps: set<Ref>, rs: set<Ref>, r: Ref)
    requires b == a - Unneeded(a, gs) && c == b - Unneeded(b, es) && d == c - Unneeded(c, ps) && e == d - Unneeded(d, rs)
    requires r in a ==> r !in gs + es + ps
    requires r in rs
    ensures r in Unneeded(d, rs) <==> r in a && r !in e
  {
  }

  /** The record keeps the repos that are left, and ids without a row; it has no roadmap any more. */
  lemma RecordAfterRemoval(db: Db, id: int)
    requires Valid(db.rows) && Schema(db.rows)
    ensures Removed(db).ownedRoadmaps == []
    ensures id in Removed(db).ownedRepos <==>
            id in db.ownedRepos && (Ref(Repos, id) in db.rows ==> Ref(Repos, id) in Removed(db).rows)
  {
    hide RemoveMarked, AfterProjects;
    WithoutMeaning(db.ownedRepos, Repos, Unneeded(AfterProjects(db), Refs(Repos, db.ownedRepos)));
    if id in db.ownedRepos { RepoDroppedLast(db, Ref(Repos, id)); }
  }

  lemma RepoDroppedLast(db: Db, r: Ref)
    requires Valid(db.rows) && Schema(db.rows) && r in Refs(Repos, db.ownedRepos)
    ensures r in Unneeded(AfterProjects(db), Refs(Repos, db.ownedRepos)) <==> r in db.rows && r !in Removed(db).rows
  {
    hide DeleteRows, Unneeded, Closure, Schema, Valid;
    Stages(db);
    RemoveMarkedExactly(db);
    if r in db.rows { LabelRowsUnchanged(db, r); }
    hide RemoveMarked, AfterProjects, AfterGoals, AfterEpics;
    DroppedLast(RemoveMarked(db), AfterGoals(db), AfterEpics(db), AfterProjects(db), Removed(db).rows,
                GoalIds(db), EpicIds(db), DemoRows(db.rows, Projects), Refs(Repos, db.ownedRepos), r);
  }
}
