/** The script itself, on a database whose rows it changes step by step: removing the demo,
    and the project part of seeding it. */
module DemoDatabase {
  import opened DemoData
  import opened DemoProperties
  import opened DemoSeeding

  /** A foreign-key column of the schema: of which table, its name, and the table it points to. */
  datatype Column = Column(table: Table, name: string, target: Table)

  /** Every foreign key of a row is in a column of the schema. */
  ghost predicate Covers(columns: seq<Column>, rows: Rows) {
    forall r, c :: r in rows && c in rows[r].fks ==> Column(r.table, c, rows[r].fks[c].target.table) in columns
  }

  /** The columns that seeding fills. */
  const SEED_COLUMNS := {
    Column(Projects, "repo_id", Repos), Column(Goals, "project_id", Projects),
    Column(Epics, "project_id", Projects), Column(Epics, "repo_id", Repos)}

  /** Some row needs `r` through this column. */
  predicate NeededThrough(rows: Rows, col: Column, r: Ref) {
    exists q :: q in rows && q.table == col.table && col.name in rows[q].fks && rows[q].fks[col.name].target == r
  }

  /** Looking through the columns that point to its table finds every row that needs `r`. */
  lemma ReferencedThroughColumns(columns: seq<Column>, rows: Rows, r: Ref)
    requires Covers(columns, rows)
    ensures Referenced(rows, r) <==>
            exists j :: 0 <= j < |columns| && columns[j].target == r.table && NeededThrough(rows, columns[j], r)
  {
    if q :| q in rows && Refers(rows[q], r) {
      var c :| c in rows[q].fks && rows[q].fks[c].target == r;
      var j :| 0 <= j < |columns| && columns[j] == Column(q.table, c, r.table);
      assert NeededThrough(rows, columns[j], r);
    }
    if j :| 0 <= j < |columns| && columns[j].target == r.table && NeededThrough(rows, columns[j], r) {
      var q :| q in rows && q.table == columns[j].table && columns[j].name in rows[q].fks && rows[q].fks[columns[j].name].target == r;
      assert Refers(rows[q], r);
    }
  }

  lemma CoversShrunk(columns: seq<Column>, before: Rows, after: Rows)
    requires Covers(columns, before) && Shrunk(before, after)
    ensures Covers(columns, after)
  {
    forall r, c | r in after && c in after[r].fks ensures Column(r.table, c, after[r].fks[c].target.table) in columns {
      assert RowShrunk(before[r], after[r], after);
    }
  }

  ghost predicate WellFormed(columns: seq<Column>, db: Db, next: int) {
    && Sound(db) && Covers(columns, db.rows) && (forall c :: c in SEED_COLUMNS ==> c in columns)
    && (forall r :: r in db.rows ==> r.id < next)
  }

  /** New rows have ids that were not given out before. */
  ghost predicate NewIds(before: Rows, after: Rows, next: int) {
    forall r :: r in after && r !in before ==> next <= r.id
  }

  class Database {
    var rows: Rows
    var ownedRepos: seq<int>
    var ownedRoadmaps: seq<int>
    var nextId: int  // the database's own id generator: it never gives an id twice
    const columns: seq<Column>

    constructor (columns: seq<Column>, found: Db, next: int)
      ensures this.columns == columns && Value() == found && nextId == next
    {
      this.columns, nextId := columns, next;
      rows, ownedRepos, ownedRoadmaps := found.rows, found.ownedRepos, found.ownedRoadmaps;
    }

    ghost function Value(): Db reads this { Db(rows, ownedRepos, ownedRoadmaps) }

    ghost predicate Good() reads this { WellFormed(columns, Value(), nextId) }

    method Delete(s: set<Ref>)
      modifies this`rows
      ensures rows == DeleteRows(old(rows), s)
      ensures old(Covers(columns, rows)) ==> Covers(columns, rows)
    {
      DeleteShrinks(rows, s);
      if Covers(columns, rows) { CoversShrunk(columns, rows, DeleteRows(rows, s)); }
      rows := DeleteRows(rows, s);
    }

    /** Builds the statement column by column, as the schema lists them: one condition for each column that
        points to the table. Exactly the rows that nothing needs go, and no other row is touched. */
    method DeleteUnreferenced(model: Table, ids: set<Ref>) returns (removed: set<Ref>)
      requires Covers(columns, rows) && forall r :: r in ids ==> r.table == model
      modifies this`rows
      ensures removed == Unneeded(old(rows), ids) && rows == old(rows) - removed
      ensures Covers(columns, rows)
    {
      removed := {};
      if ids == {} {
        assert Unneeded(rows, ids) == {};
        return;
      }
      removed := set r | r in ids && r in rows;
      for i := 0 to |columns|
        invariant forall r :: r in removed <==> r in ids && r in rows && UnneededThrough(columns[..i], r)
      {
        assert columns[..i + 1] == columns[..i] + [columns[i]];
        if columns[i].target == model {
          removed := set r | r in removed && !NeededThrough(rows, columns[i], r);
        }
      }
      assert columns[..|columns|] == columns;
      forall r | r in ids ensures UnneededThrough(columns, r) <==> !Referenced(rows, r) {
        ReferencedThroughColumns(columns, rows, r);
      }
      assert removed == Unneeded(rows, ids);
      DropExactly(rows, ids);
      Delete(removed);
    }

    ghost predicate UnneededThrough(some: seq<Column>, r: Ref)
      reads this
    {
      forall c :: c in some && c.target == r.table ==> !NeededThrough(rows, c, r)
    }

    method RemoveDemo() returns (removedProjects: set<Ref>)
      requires Covers(columns, rows)
      modifies this
      ensures Value() == Removed(old(Value())) && nextId == old(nextId) && Covers(columns, rows)
      ensures removedProjects == Unneeded(AfterEpics(old(Value())), DemoRows(old(rows), Projects))
    {
      var projects, tasks := DemoRows(rows, Projects), DemoRows(rows, Tasks);
      if tasks != {} {
        Delete(ApprovalsAbout(rows, tasks));
        Delete(Pointing(rows, AgentRuns, "task_id", tasks));
        Delete(Pointing(rows, TaskLogs, "task_id", tasks));
        Delete(tasks);
      }
      Delete(DemoRows(rows, Enhancements));
      if ownedRoadmaps != [] {
        Delete(Pointing(rows, RoadmapItems, "roadmap_id", Refs(Roadmaps, ownedRoadmaps)));
        Delete(Refs(Roadmaps, ownedRoadmaps));
        ownedRoadmaps := [];
      }
      assert rows == RemoveMarked(old(Value()));
      var _ := Drop(Goals, Pointing(rows, Goals, "project_id", projects));
      var _ := Drop(Epics, Pointing(rows, Epics, "project_id", projects));
      removedProjects := Drop(Projects, projects);
      var removedRepos := Drop(Repos, Refs(Repos, ownedRepos));
      ownedRepos := Without(ownedRepos, Repos, removedRepos);
    }

    /** The same deletion, as a step of the removal. */
    method Drop(model: Table, ids: set<Ref>) returns (removed: set<Ref>)
      requires Covers(columns, rows) && forall r :: r in ids ==> r.table == model
      modifies this`rows
      ensures removed == Unneeded(old(rows), ids) && rows == DropUnneeded(old(rows), ids) && Covers(columns, rows)
    {
      DropExactly(rows, ids);
      removed := DeleteUnreferenced(model, ids);
    }

    method Insert(t: Table, row: Row) returns (r: Ref)
      requires Good()
      requires forall c :: c in row.fks ==>
                 && row.fks[c].target in rows && ColumnOk(t, c, row.fks[c])
                 && Column(t, c, row.fks[c].target.table) in columns
      modifies this`rows, this`nextId
      ensures r.table == t && r !in old(rows) && old(nextId) <= r.id < nextId && rows == old(rows)[r := row]
      ensures Good()
    {
      r := Ref(t, nextId);
      rows := rows[r := row];
      nextId := nextId + 1;
    }

    /** Adds a goal or epic for every title the project does not have yet. */
    method AddMissing(t: Table, p: Ref, repo: Ref, titles: seq<string>)
      requires Good() && (t == Goals || t == Epics)
      requires p in rows && p.table == Projects && repo in rows && repo.table == Repos
      modifies this`rows, this`nextId
      ensures Good() && AddsOnly(old(rows), rows, t, p, repo, titles) && HasTitles(rows, t, p, titles)
      ensures old(nextId) <= nextId && NewIds(old(rows), rows, old(nextId))
    {
      var have := rows;
      for i := 0 to |titles|
        invariant Good() && AddsOnly(have, rows, t, p, repo, titles) && HasTitles(rows, t, p, titles[..i])
        invariant old(nextId) <= nextId && NewIds(have, rows, old(nextId))
      {
        var before := rows;
        AddIfMissing(have, t, p, repo, titles[i], titles);
        TitlesStay(before, rows, t, p, titles[..i]);
        TitlesSnoc(rows, t, p, titles, i);
      }
      assert titles[..|titles|] == titles;
    }

    method AddIfMissing(have: Rows, t: Table, p: Ref, repo: Ref, title: string, ghost titles: seq<string>)
      requires Good() && (t == Goals || t == Epics) && title in titles
      requires p in rows && p.table == Projects && repo in rows && repo.table == Repos
      requires AddsOnly(have, rows, t, p, repo, titles)
      modifies this`rows, this`nextId
      ensures Good() && Extends(old(rows), rows) && HasTitle(rows, t, p, title)
      ensures old(nextId) <= nextId && NewIds(old(rows), rows, old(nextId))
      ensures AddsOnly(have, rows, t, p, repo, titles)
    {
      if HasTitle(have, t, p, title) {
        TitleStays(have, rows, t, p, title);
      } else {
        var before := rows;
        var r := Insert(t, NewChild(t, title, p, repo));
        OneMoreChild(have, before, rows, t, p, repo, titles, r, title);
      }
    }

    /** The kept project, or a new one on a new repo that is recorded as owned. */
    method ReuseOrCreate(name: string) returns (p: Ref, repo: Ref)
      requires Good()
      modifies this`rows, this`nextId, this`ownedRepos
      ensures Good() && Extends(old(rows), rows) && ReusesOrCreates(old(Value()), name, Value(), p, repo)
      ensures repo in rows && repo.table == Repos
      ensures forall r :: r in rows && r !in old(rows) ==> p !in old(rows) && (r == p || r == repo)
      ensures old(nextId) <= nextId && NewIds(old(rows), rows, old(nextId))
    {
      if k :| k in rows && Kept(rows, k, name) {
        p, repo := k, rows[k].fks["repo_id"].target;
        assert ColumnOk(Projects, "repo_id", rows[k].fks["repo_id"]);
      } else {
        repo := Insert(Repos, NEW_REPO);
        ownedRepos := ownedRepos + [repo.id];
        p := Insert(Projects, NewProject(name, repo));
      }
    }

    method SeedProject(spec: Spec)
      requires Good()
      modifies this`rows, this`nextId, this`ownedRepos
      ensures Good() && SeedsOne(old(Value()), spec, Value())
      ensures old(nextId) <= nextId && NewIds(old(rows), rows, old(nextId))
    {
      var p, repo := ReuseOrCreate(spec.name);
      ghost var bare := Value();
      AddMissing(Goals, p, repo, spec.goals);
      var withGoals := rows;
      AddMissing(Epics, p, repo, spec.epics);
      TitlesStay(withGoals, rows, Goals, p, spec.goals);
      ProjectSeeded(old(Value()), spec, bare, withGoals, Value(), p, repo);
    }

    method RemoveAll()
      requires Good()
      modifies this
      ensures Good() && Value() == Removed(old(Value())) && nextId == old(nextId)
    {
      RemovalLeavesNothingDangling(Value());
      var _ := RemoveDemo();
    }

    method SeedSpecs(specs: seq<Spec>)
      requires Good()
      modifies this`rows, this`nextId, this`ownedRepos
      ensures Good() && SeedsAll(old(Value()), specs, Value())
      ensures old(nextId) <= nextId && NewIds(old(rows), rows, old(nextId))
    {
      hide WellFormed, SeedsOne;
      for i := 0 to |specs|
        invariant Good() && SeedsAll(old(Value()), specs[..i], Value())
        invariant old(nextId) <= nextId && NewIds(old(rows), rows, old(nextId)) && Extends(old(rows), rows)
      {
        ghost var mid := Value();
        SeedProject(specs[i]);
        OneMoreSpec(old(Value()), specs, i, mid, Value());
        NewIdsJoin(old(rows), mid.rows, rows, old(nextId));
      }
      assert specs[..|specs|] == specs;
    }

    /** Seeding removes the old demo first. */
    method Seed(specs: seq<Spec>)
      requires Good()
      modifies this
      ensures Good() && SeedsAll(Removed(old(Value())), specs, Value())
      ensures NewIds(Removed(old(Value())).rows, rows, old(nextId))
    {
      RemoveAll();
      SeedSpecs(specs);
    }

    /** The button that loads the demo, and the one that removes it. */
    method SeedThenRemove(specs: seq<Spec>)
      requires Good()
      modifies this
      ensures rows == Removed(old(Value())).rows
      ensures (forall i :: i in old(ownedRepos) ==> i < old(nextId)) ==> Value() == Removed(old(Value()))
      ensures NoDemo(old(Value())) ==> Value() == old(Value())
    {
      Seed(specs);
      RemovalUndoesSeeding(old(Value()), specs, Value());
      GivenOutAreApart(old(Value()), Value(), old(nextId));
      var _ := RemoveDemo();
    }
  }

  lemma OneMoreSpec(start: Db, specs: seq<Spec>, i: nat, mid: Db, after: Db)
    requires i < |specs| && SeedsAll(start, specs[..i], mid) && SeedsOne(mid, specs[i], after)
    ensures SeedsAll(start, specs[..i + 1], after) && Extends(mid.rows, after.rows)
  {
    assert Front(specs[..i + 1]) == specs[..i] && Last(specs[..i + 1]) == specs[i];
  }

  lemma NewIdsJoin(a: Rows, b: Rows, c: Rows, next: int)
    requires Extends(a, b) && Extends(b, c) && NewIds(a, b, next) && exists later :: next <= later && NewIds(b, c, later)
    ensures NewIds(a, c, next) && Extends(a, c)
  {
  }

  /** A record of ids that were given out lists none that seeding gave to a new repo. */
  lemma GivenOutAreApart(before: Db, after: Db, next: int)
    requires NewIds(Removed(before).rows, after.rows, next)
    ensures (forall i :: i in before.ownedRepos ==> i < next) ==> RecordApart(Removed(before), after)
  {
    WithoutMeaning(before.ownedRepos, Repos, Unneeded(AfterProjects(before), Refs(Repos, before.ownedRepos)));
  }

  lemma OneMoreChild(have: Rows, before: Rows, after: Rows, t: Table, p: Ref, repo: Ref, titles: seq<string>, r: Ref, title: string)
    requires AddsOnly(have, before, t, p, repo, titles) && title in titles && !HasTitle(have, t, p, title)
    requires r !in before && r.table == t && after == before[r := NewChild(t, title, p, repo)] && (t == Goals || t == Epics)
    ensures AddsOnly(have, after, t, p, repo, titles) && Extends(before, after) && HasTitle(after, t, p, title)
  {
    assert PointsInto(after[r], "project_id", {p});
  }

  /** The three parts together: the project, its goals, its epics. */
  lemma ProjectSeeded(before: Db, spec: Spec, bare: Db, withGoals: Rows, after: Db, p: Ref, repo: Ref)
    requires Sound(after) && Extends(before.rows, bare.rows) && ReusesOrCreates(before, spec.name, bare, p, repo)
    requires forall r :: r in bare.rows && r !in before.rows ==> p !in before.rows && (r == p || r == repo)
    requires AddsOnly(bare.rows, withGoals, Goals, p, repo, spec.goals)
    requires AddsOnly(withGoals, after.rows, Epics, p, repo, spec.epics)
    requires after.ownedRepos == bare.ownedRepos && after.ownedRoadmaps == bare.ownedRoadmaps
    requires HasTitles(after.rows, Goals, p, spec.goals) && HasTitles(after.rows, Epics, p, spec.epics)
    ensures SeedsAs(before, spec, after, p, repo)
  {
    forall r | r in after.rows && r !in before.rows
      ensures || (p !in before.rows && (r == p || r == repo))
              || IsNewChild(before.rows, after.rows, Goals, p, repo, spec.goals, r)
              || IsNewChild(before.rows, after.rows, Epics, p, repo, spec.epics, r)
    {
      if r !in bare.rows {
        var t := if r in withGoals then Goals else Epics;
        var title := after.rows[r].name;
        if HasTitle(before.rows, t, p, title) {
          TitleStays(before.rows, bare.rows, t, p, title);
          TitleStays(bare.rows, withGoals, t, p, title);
        }
      }
    }
  }

  lemma TitleStays(before: Rows, after: Rows, t: Table, p: Ref, title: string)
    requires Extends(before, after) && HasTitle(before, t, p, title)
    ensures HasTitle(after, t, p, title)
  {
    var r :| r in before && r.table == t && before[r].name == title && PointsInto(before[r], "project_id", {p});
    assert after[r] == before[r];
  }

  lemma TitlesStay(before: Rows, after: Rows, t: Table, p: Ref, titles: seq<string>)
    requires Extends(before, after) && HasTitles(before, t, p, titles)
    ensures HasTitles(after, t, p, titles)
  {
    forall i | 0 <= i < |titles| ensures HasTitle(after, t, p, titles[i]) {
      TitleStays(before, after, t, p, titles[i]);
    }
  }

  lemma TitlesSnoc(rows: Rows, t: Table, p: Ref, titles: seq<string>, i: nat)
    requires i < |titles| && HasTitles(rows, t, p, titles[..i]) && HasTitle(rows, t, p, titles[i])
    ensures HasTitles(rows, t, p, titles[..i + 1])
  {
    var upTo := titles[..i + 1];
    forall j | 0 <= j < |upTo| ensures HasTitle(rows, t, p, upTo[j]) {
      if j < i { assert titles[..i][j] == upTo[j]; }
    }
  }
}
