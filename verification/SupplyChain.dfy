/** The list of Python packages we ship: a worklist over the installed packages, starting from the
    lines of requirements.txt. */
module SupplyChain {
  import opened Basics

  datatype Requirement = Requirement(name: string, extras: set<string>)

  /** A dependency of an installed package; its marker is evaluated for one extra at a time. */
  datatype Dep = Dep(req: Requirement, marker: Option<string -> bool>)

  /** `canon` is the canonical spelling of a name; `installed` maps canonical names to what the
      installed package requires. */
  datatype Universe = Universe(canon: string -> string, installed: map<string, seq<Dep>>)

  /** The extras each listed package was expanded with. */
  type Seen = map<string, set<string>>

  function OrNone(extras: set<string>): set<string> {
    if extras == {} then {""} else extras
  }

  predicate Selected(d: Dep, extras: set<string>) {
    d.marker.None? || exists e :: e in OrNone(extras) && d.marker.value(e)
  }

  function SelectedReqs(deps: seq<Dep>, extras: set<string>): seq<Requirement> {
    if deps == [] then []
    else (if Selected(deps[0], extras) then [deps[0].req] else []) + SelectedReqs(deps[1..], extras)
  }

  /** The packages listed from `todo` on, or None when a package is not installed. */
  function Collect(u: Universe, todo: seq<Requirement>, seen: Seen): Option<Seen>
    decreases u.installed.Keys - seen.Keys, |todo|
  {
    if todo == [] then Some(seen)
    else
      var req, rest := todo[|todo| - 1], todo[..|todo| - 1];
      var name := u.canon(req.name);
      if name in seen then Collect(u, rest, seen)
      else if name !in u.installed then None
      else
        assert name in u.installed.Keys - seen.Keys;
        Collect(u, rest + SelectedReqs(u.installed[name], req.extras), seen[name := req.extras])
  }

  /** The loop as it is written. */
  method PythonPackages(u: Universe, requirements: seq<Requirement>) returns (listed: Option<Seen>)
    ensures listed == Collect(u, requirements, map[])
  {
    var todo, seen: Seen := requirements, map[];
    while todo != []
      invariant Collect(u, todo, seen) == Collect(u, requirements, map[])
      decreases u.installed.Keys - seen.Keys, |todo|
    {
      var req := todo[|todo| - 1];
      todo := todo[..|todo| - 1];
      var name := u.canon(req.name);
      if name in seen { continue; }
      if name !in u.installed { return None; }
      assert name in u.installed.Keys - seen.Keys;
      seen := seen[name := req.extras];
      var selected := SelectRequirements(u.installed[name], req.extras);
      todo := todo + selected;
    }
    return Some(seen);
  }

  method SelectRequirements(deps: seq<Dep>, extras: set<string>) returns (selected: seq<Requirement>)
    ensures selected == SelectedReqs(deps, extras)
  {
    selected := [];
    assert deps[0..] == deps;
    for i := 0 to |deps|
      invariant selected + SelectedReqs(deps[i..], extras) == SelectedReqs(deps, extras)
    {
      assert deps[i..][1..] == deps[i + 1..];
      if Selected(deps[i], extras) {
        selected := selected + [deps[i].req];
      }
    }
  }

  lemma {:induction false} SelectedMeaning(deps: seq<Dep>, extras: set<string>, r: Requirement)
    ensures r in SelectedReqs(deps, extras) <==> exists i :: 0 <= i < |deps| && Selected(deps[i], extras) && deps[i].req == r
  {
    if deps == [] {
    } else {
      SelectedMeaning(deps[1..], extras, r);
      assert forall i :: 1 <= i < |deps| ==> deps[i] == deps[1..][i - 1];
      if i :| 0 <= i < |deps[1..]| && Selected(deps[1..][i], extras) && deps[1..][i].req == r {
        assert deps[i + 1] == deps[1..][i];
      }
    }
  }

  // ------------------------------------------------------------------- reachability

  /** `to` is pulled in by package `from`, expanded with `extras`. */
  predicate Pulls(u: Universe, from: string, extras: set<string>, to: Requirement) {
    from in u.installed && to in SelectedReqs(u.installed[from], extras)
  }

  /** A package pulls in a requirement exactly when one of its dependencies gives it whose marker is absent, or
      true for any one of the extras, or true for the empty extra when there are none. */
  lemma PullsExactly(u: Universe, from: string, extras: set<string>, to: Requirement)
    ensures Pulls(u, from, extras, to) <==>
            && from in u.installed
            && exists d :: d in u.installed[from] && d.req == to
                 && (d.marker.None? || (exists e :: e in extras && d.marker.value(e)) || (extras == {} && d.marker.value("")))
  {
    if from in u.installed {
      SelectedMeaning(u.installed[from], extras, to);
      forall d: Dep ensures Selected(d, extras) <==>
          d.marker.None? || (exists e :: e in extras && d.marker.value(e)) || (extras == {} && d.marker.value("")) {
        assert "" in OrNone({});
      }
    }
  }

  /** A chain of requirements from a root, each pulled in by the package before it, with the extras
      that the requirement before it asked for. */
  ghost predicate Chain(u: Universe, roots: seq<Requirement>, path: seq<Requirement>) {
    && path != [] && path[0] in roots
    && forall i :: 0 <= i < |path| - 1 ==> Pulls(u, u.canon(path[i].name), path[i].extras, path[i + 1])
  }

  ghost predicate Needed(u: Universe, roots: seq<Requirement>, r: Requirement) {
    exists path :: Chain(u, roots, path) && path[|path| - 1] == r
  }

  lemma NeededStep(u: Universe, roots: seq<Requirement>, r: Requirement, next: Requirement)
    requires Needed(u, roots, r) && Pulls(u, u.canon(r.name), r.extras, next)
    ensures Needed(u, roots, next)
  {
    var path :| Chain(u, roots, path) && path[|path| - 1] == r;
    assert Chain(u, roots, path + [next]);
  }

  lemma NeededRoot(u: Universe, roots: seq<Requirement>, r: Requirement)
    requires r in roots
    ensures Needed(u, roots, r)
  {
    assert Chain(u, roots, [r]);
  }

  ghost predicate NeededWith(u: Universe, roots: seq<Requirement>, name: string, extras: set<string>) {
    exists r :: Needed(u, roots, r) && u.canon(r.name) == name && r.extras == extras
  }

  ghost predicate AllNeeded(u: Universe, roots: seq<Requirement>, todo: seq<Requirement>, seen: Seen) {
    && (forall r :: r in todo ==> Needed(u, roots, r))
    && (forall n :: n in seen ==> n in u.installed && NeededWith(u, roots, n, seen[n]))
  }

  /** Every listed package is really needed, with the extras it was expanded with. */
  lemma {:induction false} ListedAreNeeded(u: Universe, roots: seq<Requirement>, todo: seq<Requirement>, seen: Seen)
    requires AllNeeded(u, roots, todo, seen) && Collect(u, todo, seen).Some?
    ensures AllNeeded(u, roots, [], Collect(u, todo, seen).value)
    decreases u.installed.Keys - seen.Keys, |todo|
  {
    if todo == [] {
    } else {
      var req, rest := todo[|todo| - 1], todo[..|todo| - 1];
      var name := u.canon(req.name);
      if name in seen {
        ListedAreNeeded(u, roots, rest, seen);
      } else {
        var more := SelectedReqs(u.installed[name], req.extras);
        forall r | r in more ensures Needed(u, roots, r) { NeededStep(u, roots, req, r); }
        assert NeededWith(u, roots, name, req.extras);
        assert name in u.installed.Keys - seen.Keys;
        ListedAreNeeded(u, roots, rest + more, seen[name := req.extras]);
      }
    }
  }

  /** The script gives up only over a package that is needed and not installed. */
  lemma {:induction false} GivesUpOverMissing(u: Universe, roots: seq<Requirement>, todo: seq<Requirement>, seen: Seen)
    returns (missing: Requirement)
    requires AllNeeded(u, roots, todo, seen) && Collect(u, todo, seen).None?
    ensures Needed(u, roots, missing) && u.canon(missing.name) !in u.installed
    decreases u.installed.Keys - seen.Keys, |todo|
  {
    var req, rest := todo[|todo| - 1], todo[..|todo| - 1];
    var name := u.canon(req.name);
    missing := req;
    if name in seen {
      missing := GivesUpOverMissing(u, roots, rest, seen);
    } else if name in u.installed {
      var more := SelectedReqs(u.installed[name], req.extras);
      forall r | r in more ensures Needed(u, roots, r) { NeededStep(u, roots, req, r); }
      assert NeededWith(u, roots, name, req.extras);
      assert name in u.installed.Keys - seen.Keys;
      missing := GivesUpOverMissing(u, roots, rest + more, seen[name := req.extras]);
    }
  }

  /** Whatever a listed package pulls in is listed, or still to do. */
  ghost predicate ClosedBut(u: Universe, seen: Seen, todo: seq<Requirement>) {
    forall n, r :: n in seen && Pulls(u, n, seen[n], r) ==> u.canon(r.name) in seen || r in todo
  }

  ghost predicate Covered(u: Universe, roots: seq<Requirement>, seen: Seen, todo: seq<Requirement>) {
    forall r :: r in roots ==> u.canon(r.name) in seen || r in todo
  }

  /** The list is closed: it has the roots and all that its packages pull in with the extras they
      were expanded with. */
  lemma {:induction false} ListIsClosed(u: Universe, roots: seq<Requirement>, todo: seq<Requirement>, seen: Seen)
    requires ClosedBut(u, seen, todo) && Covered(u, roots, seen, todo) && Collect(u, todo, seen).Some?
    ensures var end := Collect(u, todo, seen).value; ClosedBut(u, end, []) && Covered(u, roots, end, [])
    decreases u.installed.Keys - seen.Keys, |todo|
  {
    if todo == [] {
    } else {
      var req, rest := todo[|todo| - 1], todo[..|todo| - 1];
      var name := u.canon(req.name);
      assert todo == rest + [req];
      if name in seen {
        ListIsClosed(u, roots, rest, seen);
      } else {
        var next := rest + SelectedReqs(u.installed[name], req.extras);
        var seen' := seen[name := req.extras];
        assert name in u.installed.Keys - seen.Keys;
        ListIsClosed(u, roots, next, seen');
      }
    }
  }

  /** Each package is read once: what was recorded first for a name stays, and it is the extras of the
      first requirement popped for it. */
  lemma {:induction false} FirstPoppedWins(u: Universe, todo: seq<Requirement>, seen: Seen)
    requires Collect(u, todo, seen).Some?
    ensures var end := Collect(u, todo, seen).value;
            && (forall n :: n in seen ==> n in end && end[n] == seen[n])
            && (todo != [] && u.canon(todo[|todo| - 1].name) !in seen ==>
                  u.canon(todo[|todo| - 1].name) in end && end[u.canon(todo[|todo| - 1].name)] == todo[|todo| - 1].extras)
    decreases u.installed.Keys - seen.Keys, |todo|
  {
    if todo == [] {
    } else {
      var req, rest := todo[|todo| - 1], todo[..|todo| - 1];
      var name := u.canon(req.name);
      if name in seen {
        FirstPoppedWins(u, rest, seen);
      } else {
        assert name in u.installed.Keys - seen.Keys;
        FirstPoppedWins(u, rest + SelectedReqs(u.installed[name], req.extras), seen[name := req.extras]);
      }
    }
  }

  /** All the requirements of the closure that name one package select the same dependencies of it. */
  ghost predicate SameSelection(u: Universe, roots: seq<Requirement>) {
    forall r, s, t | Needed(u, roots, r) && Needed(u, roots, s) && u.canon(r.name) == u.canon(s.name) ::
      Pulls(u, u.canon(r.name), r.extras, t) ==> Pulls(u, u.canon(s.name), s.extras, t)
  }

  /** The list is complete when requirements that name one package agree on what they select. */
  lemma ListIsExact(u: Universe, roots: seq<Requirement>)
    requires Collect(u, roots, map[]).Some? && SameSelection(u, roots)
    ensures forall n :: n in Collect(u, roots, map[]).value <==> exists r :: Needed(u, roots, r) && u.canon(r.name) == n
  {
    var end := Collect(u, roots, map[]).value;
    forall r | r in roots ensures Needed(u, roots, r) { NeededRoot(u, roots, r); }
    ListedAreNeeded(u, roots, roots, map[]);
    ListIsClosed(u, roots, roots, map[]);
    forall n | n in end ensures exists r :: Needed(u, roots, r) && u.canon(r.name) == n {
      assert NeededWith(u, roots, n, end[n]);
    }
    forall r, t | Needed(u, roots, r) && u.canon(r.name) in end && Pulls(u, u.canon(r.name), r.extras, t)
      ensures u.canon(t.name) in end
    {
      NextIsListed(u, roots, end, r, t);
    }
    forall r | Needed(u, roots, r) ensures u.canon(r.name) in end {
      var path :| Chain(u, roots, path) && path[|path| - 1] == r;
      ChainIsListed(u, roots, end, path);
    }
  }

  /** What a listed and needed requirement pulls in is listed. */
  ghost predicate Transfers(u: Universe, roots: seq<Requirement>, end: Seen) {
    forall r, t | Needed(u, roots, r) && u.canon(r.name) in end ::
      Pulls(u, u.canon(r.name), r.extras, t) ==> u.canon(t.name) in end
  }

  lemma {:induction false} ChainIsListed(u: Universe, roots: seq<Requirement>, end: Seen, path: seq<Requirement>)
    requires Transfers(u, roots, end) && Covered(u, roots, end, [])
    requires Chain(u, roots, path)
    ensures u.canon(path[|path| - 1].name) in end
    decreases |path|
  {
    if |path| > 1 {
      var front, r, t := path[..|path| - 1], path[|path| - 2], path[|path| - 1];
      ChainIsListed(u, roots, end, front);
      assert Needed(u, roots, r) by { assert Chain(u, roots, front) && front[|front| - 1] == r; }
      assert Pulls(u, u.canon(r.name), r.extras, t);
    }
  }

  lemma NextIsListed(u: Universe, roots: seq<Requirement>, end: Seen, r: Requirement, t: Requirement)
    requires SameSelection(u, roots) && AllNeeded(u, roots, [], end) && ClosedBut(u, end, [])
    requires Needed(u, roots, r) && u.canon(r.name) in end && Pulls(u, u.canon(r.name), r.extras, t)
    ensures u.canon(t.name) in end
  {
    var name := u.canon(r.name);
    assert NeededWith(u, roots, name, end[name]);
    var s :| Needed(u, roots, s) && u.canon(s.name) == name && s.extras == end[name];
    assert Pulls(u, name, s.extras, t);
  }

  /** Markers that do not depend on the extra make every graph agree. */
  lemma ExtraFreeMarkersAgree(u: Universe, roots: seq<Requirement>)
    requires forall n, d, e, e' :: n in u.installed && d in u.installed[n] && d.marker.Some? ==> d.marker.value(e) == d.marker.value(e')
    ensures SameSelection(u, roots)
  {
    forall n, extras, extras', t | Pulls(u, n, extras, t) ensures Pulls(u, n, extras', t) {
      SelectedMeaning(u.installed[n], extras, t);
      SelectedMeaning(u.installed[n], extras', t);
      var i :| 0 <= i < |u.installed[n]| && Selected(u.installed[n][i], extras) && u.installed[n][i].req == t;
      var some :| some in OrNone(extras');
      assert Selected(u.installed[n][i], extras');
    }
  }

  /** Otherwise it can be incomplete, and depend on the order of the lines: of two lines for one
      package, only the extras of the later one count. */
  lemma ExtrasOfEarlierLineAreLost(u: Universe, p: string, x: string, q: string)
    requires u.canon(p) == p && u.canon(q) == q && p != q && x != ""
    requires u.installed == map[p := [Dep(Requirement(q, {}), Some(e => e == x))], q := []]
    ensures var plain, extra := Requirement(p, {}), Requirement(p, {x});
            && Collect(u, [extra, plain], map[]) == Some(map[p := {}])
            && Collect(u, [plain, extra], map[]).Some? && q in Collect(u, [plain, extra], map[]).value
            && Needed(u, [extra, plain], Requirement(q, {}))
  {
    var plain, extra, dep := Requirement(p, {}), Requirement(p, {x}), u.installed[p][0];
    assert dep.marker.value(x) && !dep.marker.value("");
    assert u.installed[p][1..] == [];
    assert SelectedReqs(u.installed[p], {}) == [];
    assert x in OrNone({x});
    assert SelectedReqs(u.installed[p], {x}) == [Requirement(q, {})];
    assert [extra, plain][..1] == [extra] && [extra][..0] == [];
    assert [extra] + [] == [extra];
    assert Collect(u, [extra], map[p := {}]) == Collect(u, [], map[p := {}]);
    var todo := [plain] + [Requirement(q, {})];
    assert [plain, extra][..1] == [plain];
    assert Collect(u, [plain, extra], map[]) == Collect(u, todo, map[p := {x}]);
    assert todo[..1] == [plain];
    var both := map[p := {x}][q := {}];
    assert Collect(u, todo, map[p := {x}]) == Collect(u, [plain] + SelectedReqs([], {}), both);
    assert [plain] + [] == [plain] && [plain][..0] == [];
    assert Collect(u, [plain], both) == Collect(u, [], both);
    assert Chain(u, [extra, plain], [extra, Requirement(q, {})]);
  }

  /** Agreement is enough for a complete list, but not necessary: these two lines disagree in any order, and
      in one of the two orders the list is complete. So no condition on the requirements alone is exact. */
  lemma LinesDisagreeInAnyOrder(u: Universe, p: string, x: string, q: string, roots: seq<Requirement>)
    requires u.canon(p) == p && x != "" && Requirement(p, {}) in roots && Requirement(p, {x}) in roots
    requires p in u.installed && u.installed[p] == [Dep(Requirement(q, {}), Some(e => e == x))]
    ensures !SameSelection(u, roots)
  {
    var plain, extra, dep := Requirement(p, {}), Requirement(p, {x}), u.installed[p][0];
    assert dep.marker.value(x) && !dep.marker.value("") && x in OrNone({x});
    SelectedMeaning(u.installed[p], {x}, dep.req);
    SelectedMeaning(u.installed[p], {}, dep.req);
    assert Pulls(u, p, extra.extras, dep.req) && !Pulls(u, p, plain.extras, dep.req);
    NeededRoot(u, roots, plain);
    NeededRoot(u, roots, extra);
  }

  /** The list has every package that is needed. */
  ghost predicate Complete(u: Universe, roots: seq<Requirement>) {
    var listed := Collect(u, roots, map[]);
    listed.Some? && forall r :: Needed(u, roots, r) ==> u.canon(r.name) in listed.value
  }

  lemma {:induction false} ChainStays(u: Universe, roots: seq<Requirement>, names: set<string>, path: seq<Requirement>)
    requires Chain(u, roots, path) && forall r :: r in roots ==> u.canon(r.name) in names
    requires forall n, extras, t :: n in names && Pulls(u, n, extras, t) ==> u.canon(t.name) in names
    ensures u.canon(path[|path| - 1].name) in names
    decreases |path|
  {
    if |path| == 1 {
    } else {
      var front := path[..|path| - 1];
      ChainStays(u, roots, names, front);
      var r := front[|front| - 1];
      assert Pulls(u, u.canon(r.name), r.extras, path[|path| - 1]);
    }
  }

  lemma NeededWithin(u: Universe, roots: seq<Requirement>, names: set<string>)
    requires forall r :: r in roots ==> u.canon(r.name) in names
    requires forall n, extras, t :: n in names && Pulls(u, n, extras, t) ==> u.canon(t.name) in names
    ensures forall r :: Needed(u, roots, r) ==> u.canon(r.name) in names
  {
    forall r | Needed(u, roots, r) ensures u.canon(r.name) in names {
      var path :| Chain(u, roots, path) && path[|path| - 1] == r;
      ChainStays(u, roots, names, path);
    }
  }

  /** The same requirements, in two orders: one list is complete, and the other is not. So no condition that
      looks at the requirements as a set can tell. */
  lemma CompletenessDependsOnOrder(u: Universe, p: string, x: string, q: string)
    requires u.canon(p) == p && u.canon(q) == q && p != q && x != ""
    requires u.installed == map[p := [Dep(Requirement(q, {}), Some(e => e == x))], q := []]
    ensures var plain, extra := Requirement(p, {}), Requirement(p, {x});
            && multiset([extra, plain]) == multiset([plain, extra])
            && !Complete(u, [extra, plain]) && Complete(u, [plain, extra])
  {
    ExtrasOfEarlierLineAreLost(u, p, x, q);
    TwoPackagesNeeded(u, p, q, [Requirement(p, {}), Requirement(p, {x})]);
    FirstPoppedWins(u, [Requirement(p, {}), Requirement(p, {x})], map[]);
  }

  lemma TwoPackagesNeeded(u: Universe, p: string, q: string, roots: seq<Requirement>)
    requires u.canon(p) == p && u.canon(q) == q && (forall r :: r in roots ==> r.name == p)
    requires p in u.installed && q in u.installed && u.installed[q] == []
    requires forall d :: d in u.installed[p] ==> d.req.name == q
    ensures forall r :: Needed(u, roots, r) ==> u.canon(r.name) in {p, q}
  {
    forall n, extras, t | n in {p, q} && Pulls(u, n, extras, t) ensures u.canon(t.name) in {p, q} {
      SelectedMeaning(u.installed[n], extras, t);
    }
    NeededWithin(u, roots, {p, q});
  }
}
