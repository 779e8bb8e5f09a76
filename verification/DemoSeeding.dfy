/** What seeding the demo projects does to the database, and what any sequence of seeding, removing and
    users' own work keeps. */
module DemoSeeding {
  import opened Basics
  import opened DemoData
  import opened DemoProperties

  datatype Spec = Spec(name: string, goals: seq<string>, epics: seq<string>)

  /** A project of the demo that still has its repo: seeding reuses it. */
  predicate Kept(rows: Rows, p: Ref, name: string) {
    p in rows && p.table == Projects && rows[p].demo && rows[p].name == name && "repo_id" in rows[p].fks
  }

  ghost predicate AtMostOneKept(rows: Rows) {
    forall p, q, name :: Kept(rows, p, name) && Kept(rows, q, name) ==> p == q
  }

  predicate HasTitle(rows: Rows, t: Table, p: Ref, title: string) {
    exists r :: r in rows && r.table == t && rows[r].name == title && PointsInto(rows[r], "project_id", {p})
  }

  ghost predicate HasTitles(rows: Rows, t: Table, p: Ref, titles: seq<string>) {
    forall i :: 0 <= i < |titles| ==> HasTitle(rows, t, p, titles[i])
  }

  ghost predicate Extends(before: Rows, after: Rows) {
    before.Keys <= after.Keys && forall r :: r in before ==> after[r] == before[r]
  }

  const NEW_REPO := Row(false, "", None, map[])

  function NewProject(name: string, repo: Ref): Row {
    Row(true, name, None, map["repo_id" := Fk(repo, false)])
  }

  /** A goal or an epic of a project; only epics carry the demo mark and the repo. */
  function NewChild(t: Table, title: string, p: Ref, repo: Ref): Row {
    if t.Goals? then Row(false, title, None, map["project_id" := Fk(p, false)])
    else Row(true, title, None, map["project_id" := Fk(p, false), "repo_id" := Fk(repo, false)])
  }

  /** Row `r` is a new goal or epic, under a title of the list that the project did not have. */
  predicate IsNewChild(before: Rows, after: Rows, t: Table, p: Ref, repo: Ref, titles: seq<string>, r: Ref) {
    && r in after && r.table == t && after[r] == NewChild(t, after[r].name, p, repo)
    && after[r].name in titles && !HasTitle(before, t, p, after[r].name)
  }

  ghost predicate AddsOnly(before: Rows, after: Rows, t: Table, p: Ref, repo: Ref, titles: seq<string>) {
    Extends(before, after) && forall r :: r in after && r !in before ==> IsNewChild(before, after, t, p, repo, titles, r)
  }

  /** The project is reused with its repo; or there was none to reuse, and both are new, and the record of
      owned repos now ends with the new one. */
  ghost predicate ReusesOrCreates(before: Db, name: string, after: Db, p: Ref, repo: Ref) {
    && Kept(after.rows, p, name) && after.rows[p].fks["repo_id"].target == repo
    && after.ownedRoadmaps == before.ownedRoadmaps
    && if p in before.rows then after.ownedRepos == before.ownedRepos
       else
         && (forall q :: !Kept(before.rows, q, name))
         && repo.table == Repos && repo !in before.rows && repo in after.rows
         && after.rows[p] == NewProject(name, repo) && after.rows[repo] == NEW_REPO
         && after.ownedRepos == before.ownedRepos + [repo.id]
  }

  ghost predicate Sound(db: Db) {
    Valid(db.rows) && Schema(db.rows)
  }

  /** Seeding one project: nothing is changed; new are at most the project with its repo, and the goals and
      epics of the spec that were missing; every goal and epic of the spec is there afterwards. */
  ghost predicate SeedsAs(before: Db, spec: Spec, after: Db, p: Ref, repo: Ref) {
    && Sound(after) && Extends(before.rows, after.rows) && ReusesOrCreates(before, spec.name, after, p, repo)
    && (forall r :: r in after.rows && r !in before.rows ==>
          || (p !in before.rows && (r == p || r == repo))
          || IsNewChild(before.rows, after.rows, Goals, p, repo, spec.goals, r)
          || IsNewChild(before.rows, after.rows, Epics, p, repo, spec.epics, r))
    && HasTitles(after.rows, Goals, p, spec.goals) && HasTitles(after.rows, Epics, p, spec.epics)
  }

  ghost predicate SeedsOne(before: Db, spec: Spec, after: Db) {
    exists p, repo :: SeedsAs(before, spec, after, p, repo)
  }

  ghost predicate SeedsAll(before: Db, specs: seq<Spec>, after: Db)
    decreases |specs|
  {
    if specs == [] then after == before
    else exists mid :: SeedsAll(before, Front(specs), mid) && SeedsOne(mid, Last(specs), after)
  }

  function Front(specs: seq<Spec>): seq<Spec>
    requires specs != []
  {
    specs[..|specs| - 1]
  }

  function Last(specs: seq<Spec>): Spec
    requires specs != []
  {
    specs[|specs| - 1]
  }

  ghost predicate HasKept(rows: Rows, name: string) {
    exists p :: Kept(rows, p, name)
  }

  // --------------------------------------------------------- at most one per name

  lemma SeedingOneKeepsOne(before: Db, spec: Spec, after: Db)
    requires AtMostOneKept(before.rows) && SeedsOne(before, spec, after)
    ensures AtMostOneKept(after.rows)
  {
    var p, repo :| SeedsAs(before, spec, after, p, repo);
    forall q, name | Kept(after.rows, q, name)
      ensures Kept(before.rows, q, name) || (q == p && p !in before.rows)
    {
      if q !in before.rows { OnlyOneNewProject(before, spec, after, p, repo, q); }
    }
  }

  lemma OnlyOneNewProject(before: Db, spec: Spec, after: Db, p: Ref, repo: Ref, q: Ref)
    requires SeedsAs(before, spec, after, p, repo) && q in after.rows && q.table == Projects && q !in before.rows
    ensures q == p && p !in before.rows
  {
  }

  lemma SeededNamesAreKept(mid: Db, specs: seq<Spec>, after: Db)
    requires specs != [] && SeedsOne(mid, Last(specs), after)
    requires forall i :: 0 <= i < |Front(specs)| ==> HasKept(mid.rows, Front(specs)[i].name)
    ensures forall i :: 0 <= i < |specs| ==> HasKept(after.rows, specs[i].name)
  {
    var last, repo :| SeedsAs(mid, Last(specs), after, last, repo);
    forall i | 0 <= i < |specs| ensures HasKept(after.rows, specs[i].name) {
      if i < |specs| - 1 {
        assert Front(specs)[i] == specs[i];
        var p :| Kept(mid.rows, p, specs[i].name);
        assert Kept(after.rows, p, specs[i].name);
      } else {
        assert Kept(after.rows, last, specs[i].name);
      }
    }
  }

  lemma {:induction false} SeedingKeepsOne(before: Db, specs: seq<Spec>, after: Db)
    requires AtMostOneKept(before.rows) && SeedsAll(before, specs, after)
    ensures AtMostOneKept(after.rows)
    ensures forall i :: 0 <= i < |specs| ==> HasKept(after.rows, specs[i].name)
    decreases |specs|
  {
    if specs == [] {
    } else {
      var mid :| SeedsAll(before, Front(specs), mid) && SeedsOne(mid, Last(specs), after);
      SeedingKeepsOne(before, Front(specs), mid);
      SeedingOneKeepsOne(mid, Last(specs), after);
      SeededNamesAreKept(mid, specs, after);
    }
  }

  /** A row that seeding added: an unmarked repo, a marked project of a spec on a repo, or an unmarked goal or a
      marked epic of a spec, in the marked project of that spec. */
  ghost predicate SeededRow(specs: seq<Spec>, rows: Rows, r: Ref)
    requires r in rows
  {
    var row := rows[r];
    && row.about.None? && (forall c :: c in row.fks ==> !row.fks[c].cascade)
    && match r.table
       case Repos => !row.demo && row.fks == map[]
       case Projects =>
         && row.demo && row.fks.Keys == {"repo_id"} && row.fks["repo_id"].target.table == Repos
         && exists i :: 0 <= i < |specs| && row.name == specs[i].name
       case Goals =>
         && !row.demo && row.fks.Keys == {"project_id"}
         && exists i :: 0 <= i < |specs| && row.name in specs[i].goals && IsProjectOf(rows, row.fks["project_id"].target, specs[i])
       case Epics =>
         && row.demo && row.fks.Keys == {"project_id", "repo_id"}
         && IsRepoOf(rows, row.fks["repo_id"].target, row.fks["project_id"].target)
         && exists i :: 0 <= i < |specs| && row.name in specs[i].epics && IsProjectOf(rows, row.fks["project_id"].target, specs[i])
       case _ => false
  }

  predicate IsProjectOf(rows: Rows, p: Ref, spec: Spec) {
    p in rows && p.table == Projects && rows[p].demo && rows[p].name == spec.name
  }

  predicate IsRepoOf(rows: Rows, repo: Ref, p: Ref) {
    p in rows && "repo_id" in rows[p].fks && rows[p].fks["repo_id"].target == repo
  }

  lemma SeededByLast(specs: seq<Spec>, mid: Db, after: Db, r: Ref)
    requires specs != [] && SeedsOne(mid, Last(specs), after) && r in after.rows && r !in mid.rows
    ensures SeededRow(specs, after.rows, r)
  {
    hide Sound, HasTitles, HasTitle;
    var p, repo :| SeedsAs(mid, Last(specs), after, p, repo);
    assert IsProjectOf(after.rows, p, Last(specs)) && IsRepoOf(after.rows, repo, p);
    if IsNewChild(mid.rows, after.rows, Goals, p, repo, Last(specs).goals, r) {
      SeededGoal(specs, mid.rows, after.rows, p, repo, r);
    } else if IsNewChild(mid.rows, after.rows, Epics, p, repo, Last(specs).epics, r) {
      SeededEpic(specs, mid.rows, after.rows, p, repo, r);
    }
  }

  lemma SeededGoal(specs: seq<Spec>, before: Rows, rows: Rows, p: Ref, repo: Ref, r: Ref)
    requires specs != [] && IsNewChild(before, rows, Goals, p, repo, Last(specs).goals, r) && IsProjectOf(rows, p, Last(specs))
    ensures SeededRow(specs, rows, r)
  {
    hide HasTitle;
    assert rows[r].fks == map["project_id" := Fk(p, false)];
  }

  lemma SeededEpic(specs: seq<Spec>, before: Rows, rows: Rows, p: Ref, repo: Ref, r: Ref)
    requires specs != [] && IsNewChild(before, rows, Epics, p, repo, Last(specs).epics, r)
    requires IsProjectOf(rows, p, Last(specs)) && IsRepoOf(rows, repo, p)
    ensures SeededRow(specs, rows, r)
  {
    hide HasTitle;
    assert rows[r].fks == map["project_id" := Fk(p, false), "repo_id" := Fk(repo, false)];
  }

  lemma SeededStays(specs: seq<Spec>, mid: Rows, after: Rows, r: Ref)
    requires specs != [] && Extends(mid, after) && r in mid && SeededRow(Front(specs), mid, r)
    ensures SeededRow(specs, after, r)
  {
    assert forall i :: 0 <= i < |Front(specs)| ==> Front(specs)[i] == specs[i];
  }

  /** Everything that seeding adds is of that kind. */
  lemma {:induction false} SeedingAddsOnly(before: Db, specs: seq<Spec>, after: Db)
    requires SeedsAll(before, specs, after)
    ensures Extends(before.rows, after.rows)
    ensures forall r :: r in after.rows && r !in before.rows ==> SeededRow(specs, after.rows, r)
    decreases |specs|
  {
    if specs == [] {
    } else {
      var mid :| SeedsAll(before, Front(specs), mid) && SeedsOne(mid, Last(specs), after);
      SeedingAddsOnly(before, Front(specs), mid);
      assert Extends(mid.rows, after.rows);
      forall r | r in after.rows && r !in before.rows ensures SeededRow(specs, after.rows, r) {
        if r in mid.rows { SeededStays(specs, mid.rows, after.rows, r); } else { SeededByLast(specs, mid, after, r); }
      }
    }
  }

  lemma SeedsAllSound(before: Db, specs: seq<Spec>, after: Db)
    requires Sound(before) && SeedsAll(before, specs, after)
    ensures Sound(after)
  {
  }

  datatype Action = SeedRun(specs: seq<Spec>) | RemoveRun | UserAdds(r: Ref, row: Row) | UserDeletes(s: set<Ref>)

  /** Users add rows of their own, not demo projects, and delete what they like. The database's
      constraints keep every foreign key of a user's row valid. */
  ghost predicate Acts(before: Db, a: Action, after: Db) {
    match a
    case SeedRun(specs) => SeedsAll(Removed(before), specs, after)
    case RemoveRun => after == Removed(before)
    case UserAdds(r, row) =>
      r !in before.rows && !(r.table == Projects && row.demo) && after == before.(rows := before.rows[r := row]) && Sound(after)
    case UserDeletes(s) => after == before.(rows := DeleteRows(before.rows, s))
  }

  lemma ShrinkingKeepsOne(before: Rows, after: Rows)
    requires AtMostOneKept(before) && Shrunk(before, after)
    ensures AtMostOneKept(after)
  {
    forall p, name | Kept(after, p, name) ensures Kept(before, p, name) {
      assert RowShrunk(before[p], after[p], after);
    }
  }

  /** No foreign key dangles, and at most one demo project per name has a repo. */
  ghost predicate Stable(db: Db) {
    Sound(db) && AtMostOneKept(db.rows)
  }

  lemma RemovalKeepsStable(before: Db)
    requires Stable(before)
    ensures Stable(Removed(before))
  {
    RemovalLeavesNothingDangling(before);
    ShrinkingKeepsOne(before.rows, Removed(before).rows);
  }

  lemma SeedingKeepsStable(before: Db, specs: seq<Spec>, after: Db)
    requires Stable(before) && SeedsAll(before, specs, after)
    ensures Stable(after)
  {
    SeedingKeepsOne(before, specs, after);
    SeedsAllSound(before, specs, after);
  }

  lemma ActionKeepsStable(before: Db, a: Action, after: Db)
    requires Stable(before) && Acts(before, a, after)
    ensures Stable(after)
  {
    RemovalKeepsStable(before);
    match a
    case SeedRun(specs) => SeedingKeepsStable(Removed(before), specs, after);
    case RemoveRun =>
    case UserAdds(r, row) =>
      forall p, name | Kept(after.rows, p, name) ensures Kept(before.rows, p, name) {}
    case UserDeletes(s) =>
      DeleteShrinks(before.rows, s);
      ShrinkingKeepsOne(before.rows, after.rows);
  }

  /** A history of the database: each action leads from one state to the next. */
  ghost predicate IsHistory(dbs: seq<Db>, actions: seq<Action>)
    decreases |actions|
  {
    |dbs| == |actions| + 1 &&
    (actions == [] || (Acts(dbs[0], actions[0], dbs[1]) && IsHistory(dbs[1..], actions[1..])))
  }

  /** Any sequence of seeding, removing and users' own work keeps at most one demo project with a
      repo per name. */
  lemma {:induction false} ReseedingIsStable(dbs: seq<Db>, actions: seq<Action>)
    requires IsHistory(dbs, actions) && Stable(dbs[0])
    ensures Stable(dbs[|actions|])
    decreases |actions|
  {
    if actions == [] {
    } else {
      ActionKeepsStable(dbs[0], actions[0], dbs[1]);
      ReseedingIsStable(dbs[1..], actions[1..]);
    }
  }

  // ------------------------------------------------------ removing undoes seeding

  /** A row that seeding may have added: a demo project, a repo recorded after `first` others, or a goal or
      epic of a demo project. */
  predicate Removable(db: Db, first: nat, r: Ref)
    requires first <= |db.ownedRepos|
  {
    && r in db.rows
    && match r.table
       case Projects => db.rows[r].demo
       case Repos => r.id in db.ownedRepos[first..]
       case Goals => PointsInto(db.rows[r], "project_id", DemoRows(db.rows, Projects))
       case Epics => PointsInto(db.rows[r], "project_id", DemoRows(db.rows, Projects))
       case _ => false
  }

  /** Seeding only adds rows that a removal looks for, and records exactly the repos it added. */
  ghost predicate Seeded(before: Db, after: Db) {
    && Sound(after) && Extends(before.rows, after.rows) && after.ownedRoadmaps == before.ownedRoadmaps
    && before.ownedRepos <= after.ownedRepos
    && (forall r :: r in after.rows && r !in before.rows ==> Removable(after, |before.ownedRepos|, r))
    && (forall i :: i in after.ownedRepos[|before.ownedRepos|..] ==> Ref(Repos, i) in after.rows && Ref(Repos, i) !in before.rows)
  }

  lemma SeedsOneIsSeeded(start: Db, before: Db, spec: Spec, after: Db)
    requires Seeded(start, before) && SeedsOne(before, spec, after)
    ensures Seeded(start, after)
  {
    var n := |start.ownedRepos|;
    var p, repo :| SeedsAs(before, spec, after, p, repo);
    assert before.ownedRepos <= after.ownedRepos;
    RecordedReposAreNew(start, before, spec, after, p, repo);
    forall r | r in after.rows && r !in start.rows ensures Removable(after, n, r) {
      if r in before.rows {
        StaysRemovable(before, after, n, r);
      } else {
        AddedIsRemovable(before, spec, after, p, repo, n, r);
      }
    }
  }

  lemma RecordedReposAreNew(start: Db, before: Db, spec: Spec, after: Db, p: Ref, repo: Ref)
    requires Seeded(start, before) && SeedsAs(before, spec, after, p, repo)
    ensures forall i :: i in after.ownedRepos[|start.ownedRepos|..] ==>
              Ref(Repos, i) in after.rows && Ref(Repos, i) !in start.rows
  {
    var n := |start.ownedRepos|;
    forall i | i in after.ownedRepos[n..]
      ensures Ref(Repos, i) in after.rows && Ref(Repos, i) !in start.rows
    {
      if i !in before.ownedRepos[n..] { assert Ref(Repos, i) == repo && p !in before.rows; }
    }
  }

  lemma AddedIsRemovable(before: Db, spec: Spec, after: Db, p: Ref, repo: Ref, n: nat, r: Ref)
    requires SeedsAs(before, spec, after, p, repo) && n <= |before.ownedRepos| && r in after.rows && r !in before.rows
    ensures Removable(after, n, r)
  {
    if r == repo && p !in before.rows {
      assert after.ownedRepos[|before.ownedRepos|] == r.id;
    }
  }

  lemma StaysRemovable(before: Db, after: Db, n: nat, r: Ref)
    requires n <= |before.ownedRepos| && Removable(before, n, r) && Extends(before.rows, after.rows) && before.ownedRepos <= after.ownedRepos
    ensures Removable(after, n, r)
  {
    if r.table.Repos? {
      var i :| n <= i < |before.ownedRepos| && before.ownedRepos[i] == r.id;
      assert after.ownedRepos[i] == r.id;
    }
  }

  lemma {:induction false} SeedsAllIsSeeded(start: Db, specs: seq<Spec>, after: Db)
    requires Sound(start) && SeedsAll(start, specs, after)
    ensures Seeded(start, after)
    decreases |specs|
  {
    if specs == [] {
    } else {
      var mid :| SeedsAll(start, Front(specs), mid) && SeedsOne(mid, Last(specs), after);
      SeedsAllIsSeeded(start, Front(specs), mid);
      SeedsOneIsSeeded(start, mid, Last(specs), after);
    }
  }

  lemma NothingMarkedAfterSeeding(start: Db, after: Db)
    requires Settled(start) && Seeded(start, after)
    ensures Seeds(after) == {}
  {
    assert DemoRows(start.rows, Tasks) == {} && DemoRows(start.rows, Enhancements) == {};
    forall r | r in after.rows && (r.table == Tasks || r.table == Enhancements) ensures !after.rows[r].demo {
      assert r in start.rows && r !in DemoRows(start.rows, r.table);
    }
    assert DemoRows(after.rows, Tasks) == {} && DemoRows(after.rows, Enhancements) == {};
  }

  /** Rows `e` are those of `all` without labels that no row of `e` needs. */
  ghost predicate LosesLabels(all: Rows, labels: set<Ref>, e: Rows) {
    && Extends(e, all)
    && (forall r :: r in all && r !in e ==> r in labels)
    && (forall r :: r in labels ==> (r in e <==> Referenced(e, r)))
  }

  /** Every label among the rows is needed by one of them. */
  ghost predicate LabelsNeeded(rows: Rows, labels: set<Ref>) {
    forall r :: r in labels && r in rows ==> Referenced(rows, r) && Level(r.table) < 3
  }

  lemma WithinStages(a: Rows, b: Rows, c: Rows, d: Rows, e: Rows, gs: set<Ref>, es: set<Ref>, ps: set<Ref>, rs: set<Ref>)
    requires b == a - Unneeded(a, gs) && c == b - Unneeded(b, es) && d == c - Unneeded(c, ps) && e == d - Unneeded(d, rs)
    ensures Extends(e, a) && Extends(d, a)
    ensures forall r :: r in a && r !in e ==> r in gs + es + ps + (rs * a.Keys)
    ensures forall r :: r in a && r !in d ==> r in gs + es + ps
    ensures forall r :: r in Unneeded(d, rs) <==> r in d && r in rs && r !in e
  {
  }

  lemma RemovalInStages(db: Db)
    requires Sound(db) && Seeds(db) == {}
    ensures var d, e := AfterProjects(db), Removed(db).rows;
            && Extends(e, db.rows) && Extends(d, db.rows)
            && (forall r :: r in db.rows && r !in e ==> r in Labels(db))
            && (forall r :: r in db.rows && r.table == Repos ==> r in d)
            && (forall r :: r in Unneeded(d, Refs(Repos, db.ownedRepos)) <==> r in d && r in Refs(Repos, db.ownedRepos) && r !in e)
  {
    hide DeleteRows, Unneeded;
    NothingMarked(db);
    Stages(db);
    WithinStages(RemoveMarked(db), AfterGoals(db), AfterEpics(db), AfterProjects(db), Removed(db).rows,
                 GoalIds(db), EpicIds(db), DemoRows(db.rows, Projects), Refs(Repos, db.ownedRepos));
  }

  /** With nothing marked, the removal drops labels and leaves every other row as it is. */
  lemma OnlyLabelsGo(db: Db)
    requires Sound(db) && Seeds(db) == {}
    ensures LosesLabels(db.rows, Labels(db), Removed(db).rows)
  {
    RemovalInStages(db);
    forall r | r in Labels(db) ensures r in Removed(db).rows <==> Referenced(Removed(db).rows, r) {
      LabelSurvivesExactly(db, r);
    }
  }

  /** Every row that seeding added goes. */
  lemma {:induction false} AddedRowsGo(start: Db, after: Db, e: Rows, r: Ref)
    requires Valid(start.rows) && Seeded(start, after) && LosesLabels(after.rows, Labels(after), e) && r in after.rows && r !in start.rows
    ensures r !in e
    decreases 2 - Level(r.table)
  {
    assert Removable(after, |start.ownedRepos|, r) && r in Labels(after);
    forall q | q in e ensures !Refers(e[q], r) {
      if c :| c in e[q].fks && e[q].fks[c].target == r {
        assert q in after.rows && after.rows[q] == e[q];
        assert q !in start.rows && Removable(after, |start.ownedRepos|, q);
        assert ColumnOk(q.table, c, after.rows[q].fks[c]);
        AddedRowsGo(start, after, e, q);
      }
    }
  }

  lemma StartLabel(start: Db, after: Db, r: Ref)
    requires Valid(start.rows) && Seeded(start, after) && r in start.rows && r in Labels(after)
    ensures r in Labels(start)
  {
    if r.table == Repos {
      var n := |start.ownedRepos|;
      assert after.ownedRepos == start.ownedRepos + after.ownedRepos[n..];
    }
  }

  lemma {:induction false} NeededRowsStay(rows: Rows, all: Rows, e: Rows, labels: set<Ref>, r: Ref)
    requires Schema(rows) && Extends(rows, all) && LosesLabels(all, labels, e) && LabelsNeeded(rows, labels) && r in rows
    ensures r in e
    decreases 3 - Level(r.table)
  {
    if r in labels {
      var q, c := NeededBy(rows, r);
      NeededRowsStay(rows, all, e, labels, q);
      assert Refers(e[q], r);
    }
  }

  lemma StartLabelsNeeded(start: Db, after: Db)
    requires Settled(start) && Seeded(start, after)
    ensures LabelsNeeded(start.rows, Labels(after))
  {
    forall r | r in Labels(after) && r in start.rows ensures Referenced(start.rows, r) && Level(r.table) < 3 {
      StartLabelNeeded(start, after, r);
    }
  }

  lemma StartLabelNeeded(start: Db, after: Db, r: Ref)
    requires Settled(start) && Seeded(start, after) && r in Labels(after) && r in start.rows
    ensures Referenced(start.rows, r) && Level(r.table) < 3
  {
    StartLabel(start, after, r);
    LabelLevel(start, r);
    LabelIsNeeded(start, r);
  }

  lemma LabelLevel(db: Db, r: Ref)
    requires r in Labels(db)
    ensures Level(r.table) < 3
  {
  }

  lemma LabelIsNeeded(db: Db, r: Ref)
    requires Settled(db) && r in Labels(db)
    ensures Referenced(db.rows, r)
  {
  }

  /** Every row that was there before stays. */
  lemma StartRowsStay(start: Db, after: Db, e: Rows, r: Ref)
    requires Settled(start) && Seeded(start, after) && LosesLabels(after.rows, Labels(after), e) && r in start.rows
    ensures r in e
  {
    StartLabelsNeeded(start, after);
    NeededRowsStay(start.rows, after.rows, e, Labels(after), r);
  }

  lemma NeededBy(rows: Rows, r: Ref) returns (q: Ref, c: string)
    requires Schema(rows) && Referenced(rows, r) && Level(r.table) < 3
    ensures q in rows && c in rows[q].fks && rows[q].fks[c].target == r && Level(q.table) > Level(r.table)
  {
    q :| q in rows && Refers(rows[q], r);
    c :| c in rows[q].fks && rows[q].fks[c].target == r;
    assert ColumnOk(q.table, c, rows[q].fks[c]);
  }

  lemma {:induction false} WithoutAppend(a: seq<int>, b: seq<int>, t: Table, removed: set<Ref>)
    ensures Without(a + b, t, removed) == Without(a, t, removed) + Without(b, t, removed)
    decreases |a|
  {
    if a == [] {
      assert a + b == b;
    } else {
      assert (a + b)[1..] == a[1..] + b;
      WithoutAppend(a[1..], b, t, removed);
    }
  }

  /** The repos that are dropped at the end are owned ones that did not survive. */
  ghost predicate DroppedRepos(after: Db, e: Rows, gone: set<Ref>) {
    forall i :: Ref(Repos, i) in gone <==> Ref(Repos, i) in after.rows && i in after.ownedRepos && Ref(Repos, i) !in e
  }

  /** The rows that seeding added. */
  function Added(start: Db, after: Db): set<Ref> {
    after.rows.Keys - start.rows.Keys
  }

  /** An id that was on record stays there, unless seeding gave it to a new repo. */
  lemma RecordedGoesExactly(start: Db, after: Db, e: Rows, gone: set<Ref>, i: int)
    requires Settled(start) && Seeded(start, after) && LosesLabels(after.rows, Labels(after), e) && DroppedRepos(after, e, gone)
    requires i in start.ownedRepos
    ensures Ref(Repos, i) in gone <==> Ref(Repos, i) in Added(start, after)
  {
    var r := Ref(Repos, i);
    if r in start.rows {
      StartRowsStay(start, after, e, r);
    } else if r in after.rows {
      AddedRowsGo(start, after, e, r);
    }
  }

  lemma OwnedSinceGoes(start: Db, after: Db, e: Rows, gone: set<Ref>, i: int)
    requires Settled(start) && Seeded(start, after) && LosesLabels(after.rows, Labels(after), e) && DroppedRepos(after, e, gone)
    requires i in after.ownedRepos[|start.ownedRepos|..]
    ensures Ref(Repos, i) in gone
  {
    assert i in after.ownedRepos;
    AddedRowsGo(start, after, e, Ref(Repos, i));
  }

  lemma WithoutAll(ids: seq<int>, t: Table, removed: set<Ref>)
    requires forall i :: i in ids ==> Ref(t, i) in removed
    ensures Without(ids, t, removed) == []
  {
    WithoutMeaning(ids, t, removed);
    assert forall i :: i !in Without(ids, t, removed);
  }

  lemma {:induction false} WithoutSame(ids: seq<int>, t: Table, a: set<Ref>, b: set<Ref>)
    requires forall i :: i in ids ==> (Ref(t, i) in a <==> Ref(t, i) in b)
    ensures Without(ids, t, a) == Without(ids, t, b)
  {
    if ids == [] {
    } else {
      assert ids[0] in ids;
      WithoutSame(ids[1..], t, a, b);
    }
  }

  lemma WithoutTail(a: seq<int>, b: seq<int>, t: Table, removed: set<Ref>)
    requires forall i :: i in b ==> Ref(t, i) in removed
    ensures Without(a + b, t, removed) == Without(a, t, removed)
  {
    WithoutAll(b, t, removed);
    WithoutAppend(a, b, t, removed);
  }

  /** The record of owned repos loses what was added, under whatever ids it lists that. */
  lemma RecordAfterRemoval(start: Db, after: Db, e: Rows, gone: set<Ref>)
    requires Settled(start) && Seeded(start, after) && LosesLabels(after.rows, Labels(after), e) && DroppedRepos(after, e, gone)
    ensures Without(after.ownedRepos, Repos, gone) == Without(start.ownedRepos, Repos, Added(start, after))
  {
    var added := after.ownedRepos[|start.ownedRepos|..];
    assert after.ownedRepos == start.ownedRepos + added;
    forall i | i in start.ownedRepos ensures Ref(Repos, i) in gone <==> Ref(Repos, i) in Added(start, after) {
      RecordedGoesExactly(start, after, e, gone, i);
    }
    forall i | i in added ensures Ref(Repos, i) in gone { OwnedSinceGoes(start, after, e, gone, i); }
    WithoutTail(start.ownedRepos, added, Repos, gone);
    WithoutSame(start.ownedRepos, Repos, gone, Added(start, after));
  }

  lemma RowsAreRestored(start: Db, after: Db, e: Rows)
    requires Settled(start) && Seeded(start, after) && LosesLabels(after.rows, Labels(after), e)
    ensures e == start.rows
  {
    forall r ensures r in e <==> r in start.rows {
      if r in start.rows {
        StartRowsStay(start, after, e, r);
      } else if r in after.rows {
        AddedRowsGo(start, after, e, r);
      }
    }
  }

  /** The database as it was, but for ids on record that now name a repo seeding added. */
  function WithoutAdded(start: Db, after: Db): Db {
    start.(ownedRepos := Without(start.ownedRepos, Repos, Added(start, after)))
  }

  lemma SeededIsUndone(start: Db, after: Db)
    requires Settled(start) && Seeded(start, after)
    ensures Removed(after) == WithoutAdded(start, after)
  {
    NothingMarkedAfterSeeding(start, after);
    OnlyLabelsGo(after);
    RowsAreRestored(start, after, Removed(after).rows);
    RemovalInStages(after);
    var gone := Unneeded(AfterProjects(after), Refs(Repos, after.ownedRepos));
    assert DroppedRepos(after, Removed(after).rows, gone);
    RecordAfterRemoval(start, after, Removed(after).rows, gone);
  }

  /** A record none of whose ids was given to a repo since. */
  ghost predicate RecordApart(start: Db, after: Db) {
    forall i :: i in start.ownedRepos ==> Ref(Repos, i) !in Added(start, after)
  }

  lemma RestoredExactly(start: Db, after: Db)
    ensures WithoutAdded(start, after) == start <==> RecordApart(start, after)
  {
    WithoutMeaning(start.ownedRepos, Repos, Added(start, after));
  }

  ghost predicate NoDemo(db: Db) {
    && db.ownedRepos == [] && db.ownedRoadmaps == []
    && DemoRows(db.rows, Projects) == {} && DemoRows(db.rows, Tasks) == {} && DemoRows(db.rows, Enhancements) == {}
  }

  lemma NoDemoNothingRemoved(db: Db)
    requires Sound(db) && NoDemo(db)
    ensures Removed(db) == db
  {
    NothingToRemove(db);
  }

  /** Removing after seeding leaves the rows exactly as a removal before would have left them, and the record
      too, if and only if it lists no id that seeding gave to a new repo; such an id is dropped from it. On a
      database without demo rows, exactly that database is left. */
  lemma RemovalUndoesSeeding(db: Db, specs: seq<Spec>, after: Db)
    requires Sound(db) && SeedsAll(Removed(db), specs, after)
    ensures Removed(after).rows == Removed(db).rows && Removed(after) == WithoutAdded(Removed(db), after)
    ensures Removed(after) == Removed(db) <==> RecordApart(Removed(db), after)
    ensures NoDemo(db) ==> Removed(after) == db
  {
    var start := Removed(db);
    RemovedIsSettled(db);
    UndoneFrom(start, specs, after);
    if NoDemo(db) { NoDemoNothingRemoved(db); }
  }

  lemma UndoneFrom(start: Db, specs: seq<Spec>, after: Db)
    requires Settled(start) && SeedsAll(start, specs, after)
    ensures Removed(after) == WithoutAdded(start, after)
    ensures Removed(after) == start <==> RecordApart(start, after)
  {
    SeedsAllIsSeeded(start, specs, after);
    SeededIsUndone(start, after);
    RestoredExactly(start, after);
  }
}
