/** The demo-data script's view of the database, and the removal of demo data.

    A row is named by its table and id.  Its foreign keys carry what the database does with it
    when the target goes away: cascade, or set the column to NULL (an absent column here).
 */
module DemoData {
  import opened Basics

  datatype Table =
    | Repos | Projects | Goals | Epics | Tasks | Approvals | AgentRuns | TaskLogs
    | Roadmaps | RoadmapItems | Enhancements | Others(name: string)

  datatype Ref = Ref(table: Table, id: int)

  datatype Fk = Fk(target: Ref, cascade: bool)

  /** `demo`: the creator mark (created_by, or trace_id of an enhancement) is the demo creator.
      `name`: a project's name, a goal's text, an epic's title.
      `about`: an approval's task_id, which is a plain number and no foreign key. */
  datatype Row = Row(demo: bool, name: string, about: Option<int>, fks: map<string, Fk>)

  type Rows = map<Ref, Row>

  /** How far a table is from the repos along the foreign keys of the labels. */
  function Level(t: Table): nat {
    match t
    case Repos => 0
    case Projects => 1
    case Goals => 2
    case Epics => 2
    case _ => 3
  }

  /** No foreign key points to a missing row. */
  ghost predicate Valid(rows: Rows) {
    forall r, c :: r in rows && c in rows[r].fks ==> rows[r].fks[c].target in rows
  }

  /** The schema: labels only refer to labels nearer to the repos; runs, logs and roadmap items cascade from
      what they belong to. */
  ghost predicate Schema(rows: Rows) {
    forall r, c :: r in rows && c in rows[r].fks ==> ColumnOk(r.table, c, rows[r].fks[c])
  }

  predicate ColumnOk(t: Table, c: string, fk: Fk) {
    && (Level(t) < 3 ==> Level(fk.target.table) < Level(t))
    && (t.AgentRuns? && c == "task_id" ==> fk.cascade)
    && (t.TaskLogs? && c == "task_id" ==> fk.cascade)
    && (t.RoadmapItems? && c == "roadmap_id" ==> fk.cascade)
  }

  // ------------------------------------------------- what the database does on delete

  predicate CascadesInto(row: Row, gone: set<Ref>) {
    exists c :: c in row.fks && row.fks[c].cascade && row.fks[c].target in gone
  }

  function Dependents(rows: Rows, gone: set<Ref>): set<Ref> {
    set r | r in rows && r !in gone && CascadesInto(rows[r], gone)
  }

  /** `s` and every row that goes with it by cascades. */
  function Closure(rows: Rows, s: set<Ref>): set<Ref>
    decreases rows.Keys - s
  {
    if Dependents(rows, s) == {} then s else
    assert exists r :: r in Dependents(rows, s);
    Closure(rows, s + Dependents(rows, s))
  }

  function Cut(row: Row, gone: set<Ref>): Row {
    row.(fks := map c | c in row.fks && row.fks[c].target !in gone :: row.fks[c])
  }

  /** DELETE of the rows `s`. */
  function DeleteRows(rows: Rows, s: set<Ref>): Rows {
    var gone := Closure(rows, s);
    map r | r in rows && r !in gone :: Cut(rows[r], gone)
  }

  predicate Refers(row: Row, r: Ref) {
    exists c :: c in row.fks && row.fks[c].target == r
  }

  predicate Referenced(rows: Rows, r: Ref) {
    exists q :: q in rows && Refers(rows[q], r)
  }

  /** The owned rows that no row of any table needs. */
  function Unneeded(rows: Rows, ids: set<Ref>): set<Ref> {
    set r | r in ids && r in rows && !Referenced(rows, r)
  }

  // ---------------------------------------------------------------- the selections

  predicate PointsInto(row: Row, column: string, s: set<Ref>) {
    column in row.fks && row.fks[column].target in s
  }

  function DemoRows(rows: Rows, t: Table): set<Ref> {
    set r | r in rows && r.table == t && rows[r].demo
  }

  function Pointing(rows: Rows, t: Table, column: string, s: set<Ref>): set<Ref> {
    set r | r in rows && r.table == t && PointsInto(rows[r], column, s)
  }

  function ApprovalsAbout(rows: Rows, tasks: set<Ref>): set<Ref> {
    set r | r in rows && r.table == Approvals && rows[r].about.Some? && Ref(Tasks, rows[r].about.value) in tasks
  }

  function Refs(t: Table, ids: seq<int>): set<Ref> {
    set i | i in ids :: Ref(t, i)
  }

  // -------------------------------------------------------------------- the removal

  /** `ownedRepos` and `ownedRoadmaps` are the ids the script recorded as created by itself. */
  datatype Db = Db(rows: Rows, ownedRepos: seq<int>, ownedRoadmaps: seq<int>)

  function RemoveTasks(rows: Rows): Rows {
    var tasks := DemoRows(rows, Tasks);
    if tasks == {} then rows
    else
      var r1 := DeleteRows(rows, ApprovalsAbout(rows, tasks));
      var r2 := DeleteRows(r1, Pointing(r1, AgentRuns, "task_id", tasks));
      var r3 := DeleteRows(r2, Pointing(r2, TaskLogs, "task_id", tasks));
      DeleteRows(r3, tasks)
  }

  function RemoveEnhancements(rows: Rows): Rows {
    DeleteRows(rows, DemoRows(rows, Enhancements))
  }

  function RemoveRoadmaps(rows: Rows, owned: seq<int>): Rows {
    if owned == [] then rows
    else
      var r1 := DeleteRows(rows, Pointing(rows, RoadmapItems, "roadmap_id", Refs(Roadmaps, owned)));
      DeleteRows(r1, Refs(Roadmaps, owned))
  }

  /** Everything before the partial deletions. */
  function RemoveMarked(db: Db): Rows {
    RemoveRoadmaps(RemoveEnhancements(RemoveTasks(db.rows)), db.ownedRoadmaps)
  }

  function DropUnneeded(rows: Rows, ids: set<Ref>): Rows {
    DeleteRows(rows, Unneeded(rows, ids))
  }

  function Without(ids: seq<int>, t: Table, removed: set<Ref>): seq<int> {
    if ids == [] then []
    else (if Ref(t, ids[0]) in removed then [] else [ids[0]]) + Without(ids[1..], t, removed)
  }

  function AfterGoals(db: Db): Rows {
    var a := RemoveMarked(db);
    DropUnneeded(a, Pointing(a, Goals, "project_id", DemoRows(db.rows, Projects)))
  }

  function AfterEpics(db: Db): Rows {
    var b := AfterGoals(db);
    DropUnneeded(b, Pointing(b, Epics, "project_id", DemoRows(db.rows, Projects)))
  }

  function AfterProjects(db: Db): Rows {
    DropUnneeded(AfterEpics(db), DemoRows(db.rows, Projects))
  }

  function AfterRepos(db: Db): Rows {
    DropUnneeded(AfterProjects(db), Refs(Repos, db.ownedRepos))
  }

  function Removed(db: Db): Db {
    var gone := Unneeded(AfterProjects(db), Refs(Repos, db.ownedRepos));
    Db(AfterRepos(db), Without(db.ownedRepos, Repos, gone), [])
  }
}
