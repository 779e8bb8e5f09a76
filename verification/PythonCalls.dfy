/** The part of a Python syntax tree that the two event-loop scripts look at, the stack walk that
    collects a function's own calls, and what "closed under callers" means. */
module PythonCalls {

  /** The expression that is called. */
  datatype Callee = Name(id: string) | Attribute(value: Callee, attr: string) | OtherExpr

  datatype Kind = FunctionDef | AsyncFunctionDef | Lambda | Call(func: Callee) | Other

  datatype Node = Node(kind: Kind, children: seq<Node>) {
    predicate IsScope() { kind.FunctionDef? || kind.AsyncFunctionDef? || kind.Lambda? }

    function Here(): seq<Callee> { if kind.Call? then [kind.func] else [] }
  }

  /** A function definition found anywhere in the code. */
  datatype Func = Func(file: string, line: nat, name: string, isAsync: bool, children: seq<Node>)

  /** The calls in these nodes, from left to right, not looking inside nested functions and lambdas. */
  function OwnCalls(nodes: seq<Node>): seq<Callee> {
    if nodes == [] then []
    else (if nodes[0].IsScope() then [] else nodes[0].Here() + OwnCalls(nodes[0].children)) + OwnCalls(nodes[1..])
  }

  /** The same walk from right to left. */
  function OwnCallsReversed(nodes: seq<Node>): seq<Callee> {
    if nodes == [] then []
    else
      var last := nodes[|nodes| - 1];
      (if last.IsScope() then [] else last.Here() + OwnCallsReversed(last.children)) + OwnCallsReversed(nodes[..|nodes| - 1])
  }

  function Size(nodes: seq<Node>): nat {
    if nodes == [] then 0
    else Size(nodes[..|nodes| - 1]) + 1 + Size(nodes[|nodes| - 1].children)
  }

  lemma {:induction false} SizeAppend(a: seq<Node>, b: seq<Node>)
    ensures Size(a + b) == Size(a) + Size(b)
    decreases |b|
  {
    if b == [] {
      assert a + b == a;
    } else {
      assert (a + b)[..|a + b| - 1] == a + b[..|b| - 1];
      SizeAppend(a, b[..|b| - 1]);
    }
  }

  lemma {:induction false} ReversedAppend(a: seq<Node>, b: seq<Node>)
    ensures OwnCallsReversed(a + b) == OwnCallsReversed(b) + OwnCallsReversed(a)
    decreases |b|
  {
    if b == [] {
      assert a + b == a;
    } else {
      assert (a + b)[..|a + b| - 1] == a + b[..|b| - 1];
      ReversedAppend(a, b[..|b| - 1]);
    }
  }

  /** What popping one node does to the calls still to come and to the size of the stack. */
  lemma PopStep(stack: seq<Node>)
    requires stack != []
    ensures var n, rest := stack[|stack| - 1], stack[..|stack| - 1];
            && Size(rest) < Size(stack) && Size(rest + n.children) < Size(stack)
            && OwnCallsReversed(stack) ==
               if n.IsScope() then OwnCallsReversed(rest) else n.Here() + OwnCallsReversed(rest + n.children)
  {
    var n, rest := stack[|stack| - 1], stack[..|stack| - 1];
    SizeAppend(rest, n.children);
    ReversedAppend(rest, n.children);
    assert n.Here() + OwnCallsReversed(n.children) + OwnCallsReversed(rest)
        == n.Here() + (OwnCallsReversed(n.children) + OwnCallsReversed(rest));
  }

  /** The body of the loop: pops a node, records it if it is a call, and pushes its children. */
  method Pop(out: seq<Callee>, stack: seq<Node>) returns (out': seq<Callee>, stack': seq<Node>)
    requires stack != []
    ensures Size(stack') < Size(stack)
    ensures out' + OwnCallsReversed(stack') == out + OwnCallsReversed(stack)
  {
    PopStep(stack);
    var n := stack[|stack| - 1];
    out', stack' := out, stack[..|stack| - 1];
    if !n.IsScope() {
      if n.kind.Call? {
        out' := out' + [n.kind.func];
      }
      stack' := stack' + n.children;
      assert out' == out + n.Here();
      assert out + n.Here() + OwnCallsReversed(stack') == out + (n.Here() + OwnCallsReversed(stack'));
    }
  }

  /** own_body_calls / own_calls: the walk with an explicit stack. */
  method CollectOwnCalls(f: Func) returns (out: seq<Callee>)
    ensures out == OwnCallsReversed(f.children)
    ensures multiset(out) == multiset(OwnCalls(f.children))
    ensures forall c :: c in out <==> c in OwnCalls(f.children)
  {
    out := [];
    var stack := f.children;
    while stack != []
      invariant out + OwnCallsReversed(stack) == OwnCallsReversed(f.children)
      decreases Size(stack)
    {
      out, stack := Pop(out, stack);
    }
    SameCalls(f.children);
    assert forall c :: c in out <==> c in multiset(out);
  }

  lemma {:induction false} OwnCallsAppend(a: seq<Node>, b: seq<Node>)
    ensures OwnCalls(a + b) == OwnCalls(a) + OwnCalls(b)
    decreases |a|
  {
    if a == [] {
      assert a + b == b;
    } else {
      assert (a + b)[1..] == a[1..] + b;
      OwnCallsAppend(a[1..], b);
    }
  }

  lemma SameElements(h: seq<Callee>, a: seq<Callee>, b: seq<Callee>, c: seq<Callee>, d: seq<Callee>)
    requires multiset(a) == multiset(c) && multiset(b) == multiset(d)
    ensures multiset(h + a + b) == multiset(d + (h + c))
  {
  }

  lemma OwnCallsLast(nodes: seq<Node>, front: seq<Node>, last: Node)
    requires nodes == front + [last]
    ensures OwnCalls(nodes) == OwnCalls(front) + if last.IsScope() then [] else last.Here() + OwnCalls(last.children)
    ensures OwnCallsReversed(nodes) == (if last.IsScope() then [] else last.Here() + OwnCallsReversed(last.children)) + OwnCallsReversed(front)
  {
    OwnCallsAppend(front, [last]);
    OwnCallsOne(last);
    assert nodes[..|nodes| - 1] == front;
  }

  /** A path down the tree from one of these nodes, through no function definition and no lambda, to a call. */
  ghost predicate PathToCall(nodes: seq<Node>, path: seq<Node>, c: Callee) {
    && path != [] && path[0] in nodes && path[|path| - 1].kind == Call(c)
    && (forall i :: 0 <= i < |path| - 1 ==> path[i + 1] in path[i].children)
    && forall i :: 0 <= i < |path| ==> !path[i].kind.FunctionDef? && !path[i].kind.AsyncFunctionDef? && !path[i].kind.Lambda?
  }

  lemma PathBelow(nodes: seq<Node>, n: Node, path: seq<Node>, c: Callee)
    requires n in nodes && PathToCall(n.children, path, c)
    requires !n.kind.FunctionDef? && !n.kind.AsyncFunctionDef? && !n.kind.Lambda?
    ensures PathToCall(nodes, [n] + path, c)
  {
  }

  /** A function's own calls are those with such a path. */
  lemma {:induction false} OwnCallsExactly(nodes: seq<Node>, c: Callee)
    ensures c in OwnCalls(nodes) <==> exists path :: PathToCall(nodes, path, c)
  {
    if nodes == [] {
    } else {
      var n, rest := nodes[0], nodes[1..];
      OwnCallsExactly(rest, c);
      if !n.IsScope() { OwnCallsExactly(n.children, c); }
      if path :| PathToCall(nodes, path, c) {
        PathSplits(n, rest, path, c);
      }
      if path :| PathToCall(rest, path, c) {
        assert PathToCall(nodes, path, c);
      }
      if !n.IsScope() {
        if path :| PathToCall(n.children, path, c) { PathBelow(nodes, n, path, c); }
        if n.kind == Call(c) { assert PathToCall(nodes, [n], c); }
      }
    }
  }

  lemma PathSplits(n: Node, rest: seq<Node>, path: seq<Node>, c: Callee)
    requires PathToCall([n] + rest, path, c)
    ensures PathToCall(rest, path, c)
         || (!n.IsScope() && (n.kind == Call(c) || PathToCall(n.children, path[1..], c)))
  {
    if path[0] !in rest && |path| > 1 {
      assert forall i :: 0 <= i < |path[1..]| ==> path[1..][i] == path[i + 1];
    }
  }

  /** Both directions collect the same calls, each as often. */
  lemma {:induction false} SameCalls(nodes: seq<Node>)
    ensures multiset(OwnCallsReversed(nodes)) == multiset(OwnCalls(nodes))
  {
    if nodes == [] {
    } else {
      var front, last := nodes[..|nodes| - 1], nodes[|nodes| - 1];
      assert nodes == front + [last];
      OwnCallsLast(nodes, front, last);
      SameCalls(front);
      if !last.IsScope() {
        SameCalls(last.children);
        SameElements(last.Here(), OwnCallsReversed(last.children), OwnCallsReversed(front),
                     OwnCalls(last.children), OwnCalls(front));
      }
    }
  }

  lemma OwnCallsOne(n: Node)
    ensures OwnCalls([n]) == if n.IsScope() then [] else n.Here() + OwnCalls(n.children)
  {
    assert [n][1..] == [];
  }

  // ------------------------------------------------------ closure under sync callers

  /** What the closure needs to know of a sync function: is it one of the starting ones, and which
      names does it call. */
  datatype Fn = Fn(name: string, seed: bool, calls: set<string>)

  ghost predicate Closed(fns: set<Fn>, names: set<string>) {
    forall f :: f in fns && (f.seed || f.calls * names != {}) ==> f.name in names
  }

  /** The least set of names that has every starting function and is closed under callers. */
  ghost predicate IsLeastClosed(fns: set<Fn>, names: set<string>) {
    Closed(fns, names) && forall other :: Closed(fns, other) ==> names <= other
  }

  /** Each function of the chain calls the next one by its name, and the last is a starting one. */
  ghost predicate CallChain(fns: set<Fn>, chain: seq<Fn>) {
    && chain != [] && (forall i :: 0 <= i < |chain| ==> chain[i] in fns) && chain[|chain| - 1].seed
    && forall i :: 0 <= i < |chain| - 1 ==> chain[i + 1].name in chain[i].calls
  }

  lemma {:induction false} ChainIsInClosed(fns: set<Fn>, names: set<string>, chain: seq<Fn>)
    requires Closed(fns, names) && CallChain(fns, chain)
    ensures chain[0].name in names
    decreases |chain|
  {
    if |chain| == 1 {
    } else {
      ChainIsInClosed(fns, names, chain[1..]);
      assert chain[1].name in chain[0].calls * names;
    }
  }

  /** The least closed set has exactly the names from which a chain of calls leads to a starting function. */
  lemma LeastClosedIsChains(fns: set<Fn>, names: set<string>, name: string)
    requires IsLeastClosed(fns, names)
    ensures name in names <==> exists chain: seq<Fn> :: CallChain(fns, chain) && chain[0].name == name
  {
    var reached := set f | f in fns && (exists chain: seq<Fn> :: CallChain(fns, chain) && chain[0].name == f.name) :: f.name;
    forall f | f in fns && (f.seed || f.calls * reached != {}) ensures f.name in reached {
      if f.seed {
        assert CallChain(fns, [f]);
      } else {
        var n :| n in f.calls * reached;
        var chain: seq<Fn> :| CallChain(fns, chain) && chain[0].name == n;
        assert CallChain(fns, [f] + chain);
      }
    }
    assert Closed(fns, reached);
    if chain: seq<Fn> :| CallChain(fns, chain) && chain[0].name == name { ChainIsInClosed(fns, names, chain); }
  }

  lemma LeastClosedIsUnique(fns: set<Fn>, a: set<string>, b: set<string>)
    requires IsLeastClosed(fns, a) && IsLeastClosed(fns, b)
    ensures a == b
  {
  }
}
