/** Two scripts that look for sync functions an async function must not call directly: those that
    end up in asyncio.run, and those that end up in a blocking call.  Both close a set of
    function names under sync callers, by a loop that runs until nothing changes. */
module EventLoopAudit {
  import opened Basics
  import opened PythonCalls

  function CalledName(c: Callee): Option<string> {
    match c
    case Name(id) => Some(id)
    case Attribute(_, attr) => Some(attr)
    case OtherExpr => None
  }

  function CalledNames(f: Func): set<string> {
    set c | c in OwnCalls(f.children) && CalledName(c).Some? :: CalledName(c).value
  }

  function NamesOf(funcs: seq<Func>): set<string> {
    set f | f in funcs :: f.name
  }

  // ----------------------------------------------------------------- asyncio.run

  predicate IsAsyncioRun(c: Callee) {
    c == Attribute(Name("asyncio"), "run")
  }

  predicate RunsDirectly(f: Func) {
    exists c :: c in OwnCalls(f.children) && IsAsyncioRun(c)
  }

  function RunFn(f: Func): Fn {
    Fn(f.name, RunsDirectly(f), CalledNames(f))
  }

  /** The sync functions as the closure sees them. */
  function RunView(funcs: seq<Func>): set<Fn> {
    set f | f in funcs && !f.isAsync :: RunFn(f)
  }

  /** A call of the function's own body. */
  ghost predicate OwnCall(f: Func, c: Callee) {
    exists path :: PathToCall(f.children, path, c)
  }

  lemma OwnCallMeaning(f: Func)
    ensures forall c :: c in OwnCalls(f.children) <==> OwnCall(f, c)
  {
    forall c ensures c in OwnCalls(f.children) <==> OwnCall(f, c) { OwnCallsExactly(f.children, c); }
  }

  /** A sync function starts the closure if its own body calls `asyncio.run`; it calls the names that its own body
      calls, plain or as an attribute. */
  lemma RunFnByCalls(f: Func, name: string)
    ensures RunFn(f).name == f.name
    ensures RunFn(f).seed <==> OwnCall(f, Attribute(Name("asyncio"), "run"))
    ensures name in RunFn(f).calls <==> OwnCall(f, Name(name)) || exists value :: OwnCall(f, Attribute(value, name))
  {
    OwnCallMeaning(f);
    if name in CalledNames(f) {
      var c :| c in OwnCalls(f.children) && CalledName(c) == Some(name);
      assert c == Name(name) || (c.Attribute? && c == Attribute(c.value, name));
    }
    if OwnCall(f, Name(name)) { assert CalledName(Name(name)) == Some(name); }
    if value :| OwnCall(f, Attribute(value, name)) { assert CalledName(Attribute(value, name)) == Some(name); }
  }

  /** Where a wrapping function is defined. */
  datatype Place = Place(file: string, line: nat, transitive: bool)

  /** The recorded place is a sync function of that name, which runs or calls a wrapping name. */
  ghost predicate PlaceOk(funcs: seq<Func>, names: set<string>, name: string, p: Place) {
    exists f :: f in funcs && !f.isAsync && f.name == name && f.file == p.file && f.line == p.line
             && if p.transitive then CalledNames(f) * names != {} else RunsDirectly(f)
  }

  ghost predicate PlacesOk(funcs: seq<Func>, wrapping: map<string, seq<Place>>) {
    forall k :: k in wrapping ==> wrapping[k] != [] && forall p :: p in wrapping[k] ==> PlaceOk(funcs, wrapping.Keys, k, p)
  }

  method AnyAsyncioRun(f: Func) returns (found: bool)
    ensures found == RunsDirectly(f)
  {
    var calls := CollectOwnCalls(f);
    found := exists c :: c in calls && IsAsyncioRun(c);
  }

  method CallsAny(f: Func, names: set<string>) returns (found: bool)
    ensures found <==> CalledNames(f) * names != {}
  {
    var calls := CollectOwnCalls(f);
    found := exists c :: c in calls && CalledName(c).Some? && CalledName(c).value in names;
    if found {
      var c :| c in calls && CalledName(c).Some? && CalledName(c).value in names;
      assert CalledName(c).value in CalledNames(f) * names;
    }
  }

  /** wrapping.setdefault(name, []).append(place) */
  method Append(wrapping: map<string, seq<Place>>, name: string, p: Place, ghost funcs: seq<Func>)
    returns (w: map<string, seq<Place>>)
    requires PlacesOk(funcs, wrapping) && PlaceOk(funcs, wrapping.Keys, name, p)
    ensures w.Keys == wrapping.Keys + {name} && PlacesOk(funcs, w)
  {
    w := wrapping[name := (if name in wrapping then wrapping[name] else []) + [p]];
    forall k, q | k in w && q in w[k] ensures PlaceOk(funcs, w.Keys, k, q) {
      assert PlaceOk(funcs, wrapping.Keys, k, q);
      PlaceOkMono(funcs, wrapping.Keys, w.Keys, k, q);
    }
  }

  lemma PlaceOkMono(funcs: seq<Func>, a: set<string>, b: set<string>, name: string, p: Place)
    requires a <= b && PlaceOk(funcs, a, name, p)
    ensures PlaceOk(funcs, b, name, p)
  {
    var f :| f in funcs && !f.isAsync && f.name == name && f.file == p.file && f.line == p.line
          && if p.transitive then CalledNames(f) * a != {} else RunsDirectly(f);
    assert CalledNames(f) * a <= CalledNames(f) * b;
  }

  /** The functions that use asyncio.run themselves. */
  method DirectlyWrapping(funcs: seq<Func>) returns (wrapping: map<string, seq<Place>>)
    ensures wrapping.Keys == set f | f in funcs && !f.isAsync && RunsDirectly(f) :: f.name
    ensures PlacesOk(funcs, wrapping)
  {
    wrapping := map[];
    for i := 0 to |funcs|
      invariant wrapping.Keys == set f | f in funcs[..i] && !f.isAsync && RunsDirectly(f) :: f.name
      invariant PlacesOk(funcs, wrapping)
    {
      var f := funcs[i];
      assert funcs[..i + 1] == funcs[..i] + [f];
      if !f.isAsync {
        var runs := AnyAsyncioRun(f);
        if runs {
          assert PlaceOk(funcs, wrapping.Keys, f.name, Place(f.file, f.line, false));
          wrapping := Append(wrapping, f.name, Place(f.file, f.line, false), funcs);
        }
      }
    }
    assert funcs[..|funcs|] == funcs;
  }

  /** Below every closed set, and made of function names. */
  ghost predicate Within(fns: set<Fn>, all: set<string>, names: set<string>) {
    names <= all && forall other :: Closed(fns, other) ==> names <= other
  }

  /** Nothing to do for this function: it is async, or calls no listed name, or is listed. */
  ghost predicate Settled(f: Func, calls: set<string>, names: set<string>) {
    f.isAsync || calls * names == {} || f.name in names
  }

  lemma AddCaller(fns: set<Fn>, all: set<string>, names: set<string>, f: Fn)
    requires Within(fns, all, names) && f in fns && f.name in all && (f.seed || f.calls * names != {})
    ensures Within(fns, all, names + {f.name})
  {
    forall other | Closed(fns, other) ensures names + {f.name} <= other {
      assert f.calls * names <= f.calls * other;
    }
  }

  /** One pass of the `while changed` loop. */
  method WrapCallers(funcs: seq<Func>, before: map<string, seq<Place>>) returns (wrapping: map<string, seq<Place>>, changed: bool)
    requires PlacesOk(funcs, before) && Within(RunView(funcs), NamesOf(funcs), before.Keys)
    ensures PlacesOk(funcs, wrapping) && Within(RunView(funcs), NamesOf(funcs), wrapping.Keys)
    ensures before.Keys <= wrapping.Keys && (changed <==> before.Keys != wrapping.Keys)
    ensures !changed ==> forall j :: 0 <= j < |funcs| ==> Settled(funcs[j], CalledNames(funcs[j]), wrapping.Keys)
  {
    wrapping, changed := before, false;
    for i := 0 to |funcs|
      invariant PlacesOk(funcs, wrapping) && Within(RunView(funcs), NamesOf(funcs), wrapping.Keys)
      invariant before.Keys <= wrapping.Keys && (changed <==> before.Keys != wrapping.Keys)
      invariant !changed ==> forall j :: 0 <= j < i ==> Settled(funcs[j], CalledNames(funcs[j]), wrapping.Keys)
    {
      var f := funcs[i];
      if !f.isAsync && f.name !in wrapping {
        var calls := CallsAny(f, wrapping.Keys);
        if calls {
          assert PlaceOk(funcs, wrapping.Keys, f.name, Place(f.file, f.line, true));
          assert RunFn(f) in RunView(funcs);
          AddCaller(RunView(funcs), NamesOf(funcs), wrapping.Keys, RunFn(f));
          wrapping := Append(wrapping, f.name, Place(f.file, f.line, true), funcs);
          changed := true;
        }
      }
    }
  }

  /** The script's `wrapping`: exactly the least set of names that contains every sync function with
      an asyncio.run of its own and every sync caller of a name in it. */
  method Wrapping(funcs: seq<Func>) returns (wrapping: map<string, seq<Place>>)
    ensures IsLeastClosed(RunView(funcs), wrapping.Keys)
    ensures PlacesOk(funcs, wrapping)
  {
    wrapping := DirectlyWrapping(funcs);
    SeedsWithin(funcs, wrapping.Keys);
    ghost var seeds := wrapping.Keys;
    var changed := true;
    while changed
      invariant PlacesOk(funcs, wrapping) && Within(RunView(funcs), NamesOf(funcs), wrapping.Keys) && seeds <= wrapping.Keys
      invariant !changed ==> forall j :: 0 <= j < |funcs| ==> Settled(funcs[j], CalledNames(funcs[j]), wrapping.Keys)
      decreases NamesOf(funcs) - wrapping.Keys, changed
    {
      wrapping, changed := WrapCallers(funcs, wrapping);
    }
  }

  lemma SeedsWithin(funcs: seq<Func>, seeds: set<string>)
    requires seeds == set f | f in funcs && !f.isAsync && RunsDirectly(f) :: f.name
    ensures Within(RunView(funcs), NamesOf(funcs), seeds)
  {
    forall other, n | Closed(RunView(funcs), other) && n in seeds ensures n in other {
      var f :| f in funcs && !f.isAsync && RunsDirectly(f) && f.name == n;
      assert RunFn(f) in RunView(funcs);
    }
  }

  /** The result does not depend on the order in which the functions were found. */
  lemma OrderDoesNotMatter(a: seq<Func>, b: seq<Func>, wa: set<string>, wb: set<string>)
    requires multiset(a) == multiset(b)
    requires IsLeastClosed(RunView(a), wa) && IsLeastClosed(RunView(b), wb)
    ensures wa == wb
  {
    forall f ensures f in a <==> f in b {
      assert f in a <==> f in multiset(a);
      assert f in b <==> f in multiset(b);
    }
    assert RunView(a) == RunView(b);
    LeastClosedIsUnique(RunView(a), wa, wb);
  }

  const AMBIGUOUS := {"run", "get", "call", "main", "__init__", "execute", "handler"}

  datatype Hit = Hit(caller: Func, callee: Callee, definedAt: seq<Place>)

  /** A call that an async function makes itself to a wrapping, unambiguous name. */
  predicate HitOf(h: Hit, wrapping: map<string, seq<Place>>) {
    h.caller.isAsync && h.callee in OwnCalls(h.caller.children) && NamesWrapping(h, wrapping)
  }

  predicate NamesWrapping(h: Hit, wrapping: map<string, seq<Place>>) {
    && CalledName(h.callee).Some? && CalledName(h.callee).value in wrapping && CalledName(h.callee).value !in AMBIGUOUS
    && h.definedAt == wrapping[CalledName(h.callee).value]
  }

  method HitsAmong(f: Func, calls: seq<Callee>, wrapping: map<string, seq<Place>>) returns (hits: seq<Hit>)
    ensures forall h :: h in hits <==> h.caller == f && h.callee in calls && NamesWrapping(h, wrapping)
  {
    hits := [];
    for j := 0 to |calls|
      invariant forall h :: h in hits <==> h.caller == f && h.callee in calls[..j] && NamesWrapping(h, wrapping)
    {
      assert calls[..j + 1] == calls[..j] + [calls[j]];
      var name := CalledName(calls[j]);
      if name.Some? && name.value in wrapping && name.value !in AMBIGUOUS {
        hits := hits + [Hit(f, calls[j], wrapping[name.value])];
      }
    }
    assert calls[..|calls|] == calls;
  }

  method HitsIn(f: Func, wrapping: map<string, seq<Place>>) returns (hits: seq<Hit>)
    ensures forall h :: h in hits <==> h.caller == f && HitOf(h, wrapping)
  {
    hits := [];
    if f.isAsync {
      var calls := CollectOwnCalls(f);
      hits := HitsAmong(f, calls, wrapping);
    }
  }

  /** Exactly the calls that are hits are reported. */
  method Hits(funcs: seq<Func>, wrapping: map<string, seq<Place>>) returns (hits: seq<Hit>)
    ensures forall h :: h in hits <==> h.caller in funcs && HitOf(h, wrapping)
  {
    hits := [];
    for i := 0 to |funcs|
      invariant forall h :: h in hits <==> h.caller in funcs[..i] && HitOf(h, wrapping)
    {
      var f := funcs[i];
      assert funcs[..i + 1] == funcs[..i] + [f];
      var more := HitsIn(f, wrapping);
      hits := hits + more;
    }
    assert funcs[..|funcs|] == funcs;
  }

  // -------------------------------------------------------------- blocking calls

  function Dotted(c: Callee): string {
    match c
    case Name(id) => id
    case Attribute(value, attr) => Dotted(value) + "." + attr
    case OtherExpr => ""
  }

  /** The dotted name split at its last dot; identifiers contain no dots. */
  function SplitLast(c: Callee): (string, string) {
    match c
    case Name(id) => ("", id)
    case Attribute(value, attr) => (Dotted(value), attr)
    case OtherExpr => ("", "")
  }

  const BLOCKING := {
    ("subprocess", "run"), ("subprocess", "check_output"), ("subprocess", "check_call"),
    ("subprocess", "call"), ("subprocess", "Popen"), ("os", "system"), ("time", "sleep"),
    ("requests", "get"), ("requests", "post"), ("requests", "put"), ("requests", "delete"),
    ("requests", "request"), ("urllib.request", "urlopen"), ("shutil", "rmtree"), ("shutil", "copytree")}

  predicate Blocks(c: Callee) {
    SplitLast(c) in BLOCKING
  }

  function Tail(c: Callee): string {
    SplitLast(c).1
  }

  function Tails(f: Func): set<string> {
    set c | c in OwnCalls(f.children) :: Tail(c)
  }

  predicate BlocksDirectly(f: Func) {
    exists c :: c in OwnCalls(f.children) && Blocks(c)
  }

  function BlockFn(f: Func): Fn {
    Fn(f.name, BlocksDirectly(f), Tails(f))
  }

  function BlockView(funcs: seq<Func>): set<Fn> {
    set f | f in funcs && !f.isAsync :: BlockFn(f)
  }

  /** The same for the second script: it starts with a call of one of the blocking functions by its dotted name,
      never with a bare name. */
  lemma BlockFnByCalls(f: Func, name: string)
    ensures BlockFn(f).name == f.name
    ensures BlockFn(f).seed <==> exists value, attr :: OwnCall(f, Attribute(value, attr)) && (Dotted(value), attr) in BLOCKING
    ensures name in BlockFn(f).calls <==>
              OwnCall(f, Name(name)) || (exists value :: OwnCall(f, Attribute(value, name))) || (name == "" && OwnCall(f, OtherExpr))
  {
    OwnCallMeaning(f);
    if c :| c in OwnCalls(f.children) && Blocks(c) {
      assert |"subprocess"| > 0 && |"os"| > 0 && |"time"| > 0 && |"requests"| > 0 && |"urllib.request"| > 0 && |"shutil"| > 0;
      assert OwnCall(f, Attribute(c.value, c.attr));
    }
    if value, attr :| OwnCall(f, Attribute(value, attr)) && (Dotted(value), attr) in BLOCKING { assert Blocks(Attribute(value, attr)); }
    if name in Tails(f) {
      var c :| c in OwnCalls(f.children) && Tail(c) == name;
      assert c == Name(name) || c == OtherExpr || (c.Attribute? && c == Attribute(c.value, name));
    }
    if OwnCall(f, Name(name)) { assert Tail(Name(name)) == name; }
    if value :| OwnCall(f, Attribute(value, name)) { assert Tail(Attribute(value, name)) == name; }
    if OwnCall(f, OtherExpr) { assert Tail(OtherExpr) == ""; }
  }

  /** Some of the calls that it looks for, and some that it does not. */
  lemma BlockingExamples()
    ensures Blocks(Attribute(Name("time"), "sleep")) && Blocks(Attribute(Name("subprocess"), "Popen"))
    ensures Blocks(Attribute(Attribute(Name("urllib"), "request"), "urlopen"))
    ensures !Blocks(Name("sleep")) && !Blocks(Attribute(Name("asyncio"), "sleep"))
  {
    assert Dotted(Attribute(Name("urllib"), "request")) == "urllib.request";
    assert |"asyncio"| == 7 && |"shutil"| == 6 && |"requests"| == 8 && |"time"| == 4;
  }

  /** Why a function is recorded: a blocking call of its own, or a call to a recorded function. */
  datatype Reason = Direct(call: Callee) | Via(call: Callee)

  type Reasons = map<string, Reason>

  ghost predicate ReasonOk(funcs: seq<Func>, names: set<string>, name: string, r: Reason) {
    exists f :: f in funcs && !f.isAsync && f.name == name && r.call in OwnCalls(f.children)
             && if r.Direct? then Blocks(r.call) else Tail(r.call) in names
  }

  ghost predicate ReasonsOk(funcs: seq<Func>, m: Reasons) {
    forall k {:trigger ReasonOk(funcs, m.Keys, k, m[k])} :: k in m ==> ReasonOk(funcs, m.Keys, k, m[k])
  }

  /** Following the recorded callee names from `name` ends at a direct blocking call within `n` steps. */
  predicate EndsInDirect(m: Reasons, name: string, n: nat)
    decreases n
  {
    name in m && (m[name].Direct? || (n > 0 && EndsInDirect(m, Tail(m[name].call), n - 1)))
  }

  lemma {:induction false} EndsMono(m: Reasons, m': Reasons, name: string, n: nat, n': nat)
    requires n <= n' && EndsInDirect(m, name, n)
    requires forall k :: k in m ==> k in m' && m'[k] == m[k]
    ensures EndsInDirect(m', name, n')
    decreases n
  {
    if m[name].Via? { EndsMono(m, m', Tail(m[name].call), n - 1, n' - 1); }
  }

  ghost predicate Grounded(m: Reasons) {
    forall k {:trigger EndsInDirect(m, k, |m|)} :: k in m ==> EndsInDirect(m, k, |m|)
  }

  lemma AddVia(m: Reasons, name: string, c: Callee)
    requires Grounded(m) && name !in m && Tail(c) in m
    ensures Grounded(m[name := Via(c)])
  {
    var m' := m[name := Via(c)];
    forall k | k in m' ensures EndsInDirect(m', k, |m'|) {
      if k == name {
        EndsMono(m, m', Tail(c), |m|, |m|);
      } else {
        EndsMono(m, m', k, |m|, |m'|);
      }
    }
  }

  /** Either a blocking call or a call to one of the names. */
  predicate Wanted(c: Callee, names: set<string>, direct: bool) {
    if direct then Blocks(c) else Tail(c) in names
  }

  method FindAmong(calls: seq<Callee>, names: set<string>, direct: bool) returns (found: Option<Callee>)
    ensures found.Some? ==> found.value in calls && Wanted(found.value, names, direct)
    ensures found.None? ==> forall c :: c in calls ==> !Wanted(c, names, direct)
  {
    found := None;
    for i := 0 to |calls|
      invariant forall j :: 0 <= j < i ==> !Wanted(calls[j], names, direct)
    {
      if Wanted(calls[i], names, direct) {
        return Some(calls[i]);
      }
    }
  }

  method FindCall(f: Func, names: set<string>, direct: bool) returns (found: Option<Callee>)
    ensures found.Some? ==> found.value in OwnCalls(f.children) && Wanted(found.value, names, direct)
    ensures found.None? && direct ==> !BlocksDirectly(f)
    ensures found.None? && !direct ==> Tails(f) * names == {}
  {
    var calls := CollectOwnCalls(f);
    found := FindAmong(calls, names, direct);
  }

  method DirectlyBlocking(funcs: seq<Func>) returns (m: Reasons)
    ensures m.Keys == set f | f in funcs && !f.isAsync && BlocksDirectly(f) :: f.name
    ensures ReasonsOk(funcs, m) && forall k :: k in m ==> m[k].Direct?
  {
    m := map[];
    for i := 0 to |funcs|
      invariant m.Keys == set f | f in funcs[..i] && !f.isAsync && BlocksDirectly(f) :: f.name
      invariant ReasonsOk(funcs, m) && forall k :: k in m ==> m[k].Direct?
    {
      var f := funcs[i];
      assert funcs[..i + 1] == funcs[..i] + [f];
      if !f.isAsync {
        var c := FindCall(f, {}, true);
        if c.Some? {
          assert ReasonOk(funcs, m.Keys, f.name, Direct(c.value));
          m := RecordReason(funcs, m, f.name, Direct(c.value));
        }
      }
    }
    assert funcs[..|funcs|] == funcs;
  }

  method RecordReason(ghost funcs: seq<Func>, m: Reasons, name: string, r: Reason) returns (m': Reasons)
    requires ReasonsOk(funcs, m) && ReasonOk(funcs, m.Keys, name, r)
    ensures m' == m[name := r] && ReasonsOk(funcs, m')
  {
    m' := m[name := r];
    forall k | k in m' ensures ReasonOk(funcs, m'.Keys, k, m'[k]) {
      assert ReasonOk(funcs, m.Keys, k, m'[k]);
      var f :| f in funcs && !f.isAsync && f.name == k && m'[k].call in OwnCalls(f.children)
            && if m'[k].Direct? then Blocks(m'[k].call) else Tail(m'[k].call) in m.Keys;
      assert m'[k].Via? ==> Tail(m'[k].call) in m'.Keys;
    }
  }

  ghost predicate BlockingSound(funcs: seq<Func>, m: Reasons) {
    ReasonsOk(funcs, m) && Grounded(m) && Within(BlockView(funcs), NamesOf(funcs), m.Keys)
  }

  /** Records a sync function that calls a recorded one, with the call as its reason. */
  method BlockCaller(funcs: seq<Func>, m: Reasons, f: Func) returns (m': Reasons, added: bool)
    requires BlockingSound(funcs, m) && f in funcs && !f.isAsync && f.name !in m
    ensures BlockingSound(funcs, m')
    ensures if added then m'.Keys == m.Keys + {f.name} else Tails(f) * m.Keys == {}
  {
    m', added := m, false;
    var c := FindCall(f, m.Keys, false);
    if c.Some? {
      assert ReasonOk(funcs, m.Keys, f.name, Via(c.value));
      assert Tail(c.value) in Tails(f) * m.Keys;
      assert BlockFn(f) in BlockView(funcs);
      AddCaller(BlockView(funcs), NamesOf(funcs), m.Keys, BlockFn(f));
      AddVia(m, f.name, c.value);
      m' := RecordReason(funcs, m, f.name, Via(c.value));
      added := true;
    }
  }

  /** One pass of the `while changed` loop. */
  method BlockCallers(funcs: seq<Func>, before: Reasons) returns (m: Reasons, changed: bool)
    requires BlockingSound(funcs, before)
    ensures BlockingSound(funcs, m)
    ensures before.Keys <= m.Keys && (changed <==> before.Keys != m.Keys)
    ensures !changed ==> forall j :: 0 <= j < |funcs| ==> Settled(funcs[j], Tails(funcs[j]), m.Keys)
  {
    m, changed := before, false;
    for i := 0 to |funcs|
      invariant BlockingSound(funcs, m)
      invariant before.Keys <= m.Keys && (changed <==> before.Keys != m.Keys)
      invariant !changed ==> forall j :: 0 <= j < i ==> Settled(funcs[j], Tails(funcs[j]), m.Keys)
    {
      var f := funcs[i];
      if !f.isAsync && f.name !in m {
        var more, added := BlockCaller(funcs, m, f);
        if added {
          m, changed := more, true;
        }
      }
    }
  }

  /** The script's `blocking_sync`: the least closed set again, and every entry is a witness that
      leads, without a cycle, to a function that blocks itself. */
  method BlockingSync(funcs: seq<Func>) returns (m: Reasons)
    ensures IsLeastClosed(BlockView(funcs), m.Keys)
    ensures ReasonsOk(funcs, m) && Grounded(m)
  {
    m := DirectlyBlocking(funcs);
    BlockSeedsWithin(funcs, m.Keys);
    ghost var seeds := m.Keys;
    var changed := true;
    while changed
      invariant BlockingSound(funcs, m) && seeds <= m.Keys
      invariant !changed ==> forall j :: 0 <= j < |funcs| ==> Settled(funcs[j], Tails(funcs[j]), m.Keys)
      decreases NamesOf(funcs) - m.Keys, changed
    {
      m, changed := BlockCallers(funcs, m);
    }
  }

  lemma BlockSeedsWithin(funcs: seq<Func>, seeds: set<string>)
    requires seeds == set f | f in funcs && !f.isAsync && BlocksDirectly(f) :: f.name
    ensures Within(BlockView(funcs), NamesOf(funcs), seeds)
  {
    forall other, n | Closed(BlockView(funcs), other) && n in seeds ensures n in other {
      var f :| f in funcs && !f.isAsync && BlocksDirectly(f) && f.name == n;
      assert BlockFn(f) in BlockView(funcs);
    }
  }
}
