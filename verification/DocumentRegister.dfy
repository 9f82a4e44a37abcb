/** The document register's graph and authority checks: supersession must be acyclic, and
    no context may have two current authoritative documents in one domain. */
module DocumentRegister {
  import opened Wrappers

  // ---------------------------------------------------------------- supersession

  type Key = string

  type Graph = map<Key, seq<Key>>

  /** Every predecessor is registered; the check before the search has established it. */
  predicate Closed(g: Graph) {
    forall k, i :: k in g && 0 <= i < |g[k]| ==> g[k][i] in g
  }

  predicate Edge(g: Graph, a: Key, b: Key) {
    a in g && b in g[a]
  }

  /** A walk along edges. */
  predicate Walk(g: Graph, path: seq<Key>) {
    forall i :: 0 <= i < |path| - 1 ==> Edge(g, path[i], path[i + 1])
  }

  predicate Cycle(g: Graph, path: seq<Key>) {
    |path| >= 2 && Walk(g, path) && path[0] == path[|path| - 1]
  }

  ghost predicate Cyclic(g: Graph) {
    exists path: seq<Key> :: Cycle(g, path)
  }

  /** Every edge from a listed key leads to a key listed earlier. */
  ghost predicate Sorted(g: Graph, order: seq<Key>) {
    && (forall i, j :: 0 <= i < j < |order| ==> order[i] != order[j])
    && (forall i, b :: 0 <= i < |order| && Edge(g, order[i], b) ==> b in order[..i])
  }

  lemma {:induction false} WalkDescends(g: Graph, order: seq<Key>, path: seq<Key>, i: nat) returns (j: nat)
    requires Sorted(g, order) && Walk(g, path) && |path| >= 1
    requires i < |order| && path[0] == order[i]
    ensures j <= i && order[j] == path[|path| - 1] && (|path| >= 2 ==> j < i)
    decreases |path|
  {
    if |path| == 1 {
      j := i;
    } else {
      assert Edge(g, path[0], path[1]);
      var k :| 0 <= k < i && order[k] == path[1];
      forall n | 0 <= n < |path[1..]| - 1 ensures Edge(g, path[1..][n], path[1..][n + 1]) {
        assert path[1..][n] == path[n + 1];
      }
      j := WalkDescends(g, order, path[1..], k);
    }
  }

  /** A complete order excludes cycles. */
  lemma SortedIsAcyclic(g: Graph, order: seq<Key>)
    requires Sorted(g, order) && forall k :: k in g ==> k in order
    ensures !Cyclic(g)
  {
    if Cyclic(g) {
      var path :| Cycle(g, path);
      assert Edge(g, path[0], path[1]);
      var i :| 0 <= i < |order| && order[i] == path[0];
      var j := WalkDescends(g, order, path, i);
    }
  }

  /** The keys being visited form a walk, the visited ones are in dependency order. */
  ghost predicate Explained(g: Graph, visiting: set<Key>, visited: set<Key>, stack: seq<Key>, order: seq<Key>) {
    && Closed(g)
    && (forall k :: k in visiting <==> k in stack) && (forall k :: k in stack ==> k in g)
    && Walk(g, stack)
    && (forall k :: k in visited <==> k in order) && Sorted(g, order)
    && (forall k :: k in visiting ==> k !in visited)
  }

  lemma Enter(g: Graph, visiting: set<Key>, visited: set<Key>, stack: seq<Key>, order: seq<Key>, node: Key)
    requires Explained(g, visiting, visited, stack, order) && node in g && node !in visiting && node !in visited
    requires stack != [] ==> Edge(g, stack[|stack| - 1], node)
    ensures Explained(g, visiting + {node}, visited, stack + [node], order)
  {
    hide Walk, Sorted, Closed, Edge;
    WalkExtends(g, stack, node);
  }

  lemma Leave(g: Graph, visiting: set<Key>, visited0: set<Key>, visited: set<Key>, stack: seq<Key>, order0: seq<Key>,
              order: seq<Key>, node: Key)
    requires Explained(g, visiting, visited0, stack, order0) && node in g && node !in visiting
    requires Explained(g, visiting + {node}, visited, stack + [node], order)
    requires forall k :: 0 <= k < |g[node]| ==> g[node][k] in visited
    ensures Explained(g, visiting, visited + {node}, stack, order + [node])
  {
    hide Sorted, Closed, Walk;
    assert node in visiting + {node};
    SortedExtends(g, order, node);
  }

  lemma Reenter(g: Graph, visiting: set<Key>, visited: set<Key>, stack: seq<Key>, order: seq<Key>, node: Key)
    requires Explained(g, visiting, visited, stack, order) && node in visiting
    requires stack != [] ==> Edge(g, stack[|stack| - 1], node)
    ensures Cyclic(g)
  {
    hide Sorted, Closed, Edge, Cyclic;
    CycleThrough(g, stack, node);
  }

  /** The depth-first search; the ghost stack and order explain its two sets. */
  class Search {
    const graph: Graph
    var visiting: set<Key>
    var visited: set<Key>
    ghost var stack: seq<Key>
    ghost var order: seq<Key>

    constructor (graph: Graph)
      requires Closed(graph)
      ensures
        && Explained(graph, visiting, visited, stack, order)
        && this.graph == graph
        && visiting == {}
        && visited == {}
        && stack == []
    {
      this.graph := graph;
      visiting, visited := {}, {};
      stack, order := [], [];
    }

    /** Terminates; succeeds with everything below the key visited, or there is a cycle. */
    method Visit(node: Key) returns (ok: bool)
      requires Explained(graph, visiting, visited, stack, order) && node in graph
      requires stack != [] ==> Edge(graph, stack[|stack| - 1], node)
      modifies this
      ensures ok ==>
        Explained(graph, visiting, visited, stack, order) && stack == old(stack) && visiting == old(visiting)
      ensures ok ==> node in visited && old(visited) <= visited
      ensures !ok ==> Cyclic(graph)
      decreases |graph.Keys - visiting - visited|
    {
      hide *;
      if node in visiting {
        Reenter(graph, visiting, visited, stack, order, node);
        return false;
      }
      if node in visited {
        return true;
      }
      ghost var stackBefore, visitingBefore, orderBefore := stack, visiting, order;
      Enter(graph, visiting, visited, stack, order, node);
      visiting := visiting + {node};
      stack := stack + [node];
      var refs := graph[node];
      var i := 0;
      while i < |refs|
        invariant
          && 0 <= i <= |refs|
          && Explained(graph, visiting, visited, stack, order)
          && stack == stackBefore + [node]
          && visiting == visitingBefore + {node}
        invariant old(visited) <= visited && forall k :: 0 <= k < i ==> refs[k] in visited
      {
        RefIsEdge(graph, visiting, visited, stack, order, node, i);
        FewerLeft(graph.Keys, visitingBefore, old(visited), visited, node);
        var inner := Visit(refs[i]);
        if !inner {
          return false;
        }
        i := i + 1;
      }
      Leave(graph, visitingBefore, old(visited), visited, stackBefore, orderBefore, order, node);
      visiting := visiting - {node};
      visited := visited + {node};
      stack := stack[..|stack| - 1];
      order := order + [node];
      Undo(visitingBefore, stackBefore, node);
      ok := true;
    }
  }

  lemma Undo(visiting: set<Key>, stack: seq<Key>, node: Key)
    requires node !in visiting
    ensures (visiting + {node}) - {node} == visiting && (stack + [node])[..|stack + [node]| - 1] == stack
  {
  }

  lemma WalkExtends(g: Graph, stack: seq<Key>, node: Key)
    requires Walk(g, stack) && (stack != [] ==> Edge(g, stack[|stack| - 1], node))
    ensures Walk(g, stack + [node])
  {
  }

  lemma RefIsEdge(g: Graph, visiting: set<Key>, visited: set<Key>, stack: seq<Key>, order: seq<Key>, node: Key, i: nat)
    requires Explained(g, visiting, visited, stack, order) && node in g && i < |g[node]|
    ensures Edge(g, node, g[node][i]) && g[node][i] in g
  {
  }

  /** While a key is being visited, fewer keys are left. */
  lemma FewerLeft(keys: set<Key>, visiting: set<Key>, before: set<Key>, visited: set<Key>, node: Key)
    requires node in keys && node !in visiting && node !in before && before <= visited
    ensures |keys - (visiting + {node}) - visited| < |keys - visiting - before|
  {
    var small, big := keys - (visiting + {node}) - visited, keys - visiting - before;
    SubsetSize(small, big - {node});
  }

  lemma {:induction false} SubsetSize(a: set<Key>, b: set<Key>)
    requires a <= b
    ensures |a| <= |b|
  {
    if a != {} {
      var k :| k in a;
      SubsetSize(a - {k}, b - {k});
    }
  }

  lemma SortedExtends(g: Graph, order: seq<Key>, node: Key)
    requires Sorted(g, order) && node !in order && node in g && forall k :: 0 <= k < |g[node]| ==> g[node][k] in order
    ensures Sorted(g, order + [node])
  {
    var now := order + [node];
    forall i, b | 0 <= i < |now| && Edge(g, now[i], b) ensures b in now[..i] {
      assert now[..i] == order[..i];
    }
  }

  lemma CycleThrough(g: Graph, stack: seq<Key>, node: Key)
    requires Walk(g, stack) && node in stack && Edge(g, stack[|stack| - 1], node)
    ensures Cyclic(g)
  {
    var i :| 0 <= i < |stack| && stack[i] == node;
    var path := stack[i..] + [node];
    forall k | 0 <= k < |path| - 1 ensures Edge(g, path[k], path[k + 1]) {
      if k + 1 < |path| - 1 {
        assert path[k] == stack[i + k] && path[k + 1] == stack[i + k + 1];
      }
    }
    assert Cycle(g, path);
  }

  /** The graph step passes iff the supersession graph is acyclic. */
  method GraphStep(graph: Graph, keys: seq<Key>) returns (passes: bool)
    requires Closed(graph) && forall k :: k in graph <==> k in keys
    ensures passes <==> !Cyclic(graph)
  {
    var search := new Search(graph);
    var i := 0;
    while i < |keys|
      invariant 0 <= i <= |keys| && fresh(search)
      invariant
        && Explained(search.graph, search.visiting, search.visited, search.stack, search.order)
        && search.graph == graph
        && search.stack == []
        && search.visiting == {}
      invariant forall k :: 0 <= k < i ==> keys[k] in search.visited
    {
      var ok := search.Visit(keys[i]);
      if !ok {
        return false;
      }
      i := i + 1;
    }
    SortedIsAcyclic(graph, search.order);
    passes := true;
  }

  // ---------------------------------------------------------------- scopes

  datatype Dimension =
    Component | ChipFamily | HardwareRevision | FirmwareVersion | ProtocolVersion | SemanticProfile | SystemRole

  type Scope = map<Dimension, seq<string>>

  predicate SelectorCharacter(c: char) {
    'A' <= c <= 'Z' || 'a' <= c <= 'z' || '0' <= c <= '9' || c in "._:+*-"
  }

  predicate ValidSelector(value: seq<string>) {
    && value != []
    && (forall i, j :: 0 <= i < j < |value| ==> value[i] != value[j])
    && ("*" in value ==> |value| == 1)
    && (forall i :: 0 <= i < |value| ==>
          value[i] != "" && forall j :: 0 <= j < |value[i]| ==> SelectorCharacter(value[i][j]))
  }

  predicate ValidScope(scope: Scope) {
    Component in scope && forall d :: d in scope ==> ValidSelector(scope[d])
  }

  function Get(scope: Scope, d: Dimension): Option<seq<string>> {
    if d in scope then Some(scope[d]) else None
  }

  predicate SelectorsOverlap(a: Option<seq<string>>, b: Option<seq<string>>) {
    || a.None? || b.None? || a.value == ["*"] || b.value == ["*"]
    || (set x | x in a.value) * (set x | x in b.value) != {}
  }

  predicate ScopesOverlap(a: Scope, b: Scope) {
    forall d: Dimension :: SelectorsOverlap(Get(a, d), Get(b, d))
  }

  /** A concrete context: one value in every dimension. */
  type Context = Dimension -> string

  predicate Selects(selector: Option<seq<string>>, value: string) {
    selector.None? || selector.value == ["*"] || value in selector.value
  }

  predicate InScope(scope: Scope, context: Context) {
    forall d: Dimension :: Selects(Get(scope, d), context(d))
  }

  lemma OverlapIsShared(a: Option<seq<string>>, b: Option<seq<string>>)
    requires (a.Some? ==> ValidSelector(a.value)) && (b.Some? ==> ValidSelector(b.value))
    ensures SelectorsOverlap(a, b) <==> exists v: string :: Selects(a, v) && Selects(b, v)
  {
    if a.Some? && b.Some? {
      var common := (set x | x in a.value) * (set x | x in b.value);
      if common != {} {
        var v :| v in common;
        assert Selects(a, v) && Selects(b, v);
      } else {
        assert forall v :: v in a.value && v in b.value ==> v in common;
      }
      if a.value == ["*"] {
        assert Selects(a, b.value[0]) && Selects(b, b.value[0]);
      }
      if b.value == ["*"] {
        assert Selects(a, a.value[0]) && Selects(b, a.value[0]);
      }
    } else if a.Some? {
      assert Selects(a, a.value[0]) && Selects(b, a.value[0]);
    } else if b.Some? {
      assert Selects(a, b.value[0]) && Selects(b, b.value[0]);
    } else {
      assert Selects(a, "") && Selects(b, "");
    }
  }

  ghost function Shared(a: Scope, b: Scope, d: Dimension): (v: string)
    requires exists v: string :: Selects(Get(a, d), v) && Selects(Get(b, d), v)
    ensures Selects(Get(a, d), v) && Selects(Get(b, d), v)
  {
    var v: string :| Selects(Get(a, d), v) && Selects(Get(b, d), v);
    v
  }

  /** Two valid scopes overlap iff some concrete context is selected by both. */
  lemma ScopesOverlapMeans(a: Scope, b: Scope)
    requires ValidScope(a) && ValidScope(b)
    ensures ScopesOverlap(a, b) <==> exists context: Context :: InScope(a, context) && InScope(b, context)
  {
    hide SelectorsOverlap, Selects, ValidSelector;
    forall d: Dimension
      ensures SelectorsOverlap(Get(a, d), Get(b, d))
        <==> exists v: string :: Selects(Get(a, d), v) && Selects(Get(b, d), v)
    {
      OverlapIsShared(Get(a, d), Get(b, d));
    }
    if ScopesOverlap(a, b) {
      ghost var context: Context := (d: Dimension) =>
        if exists v: string :: Selects(Get(a, d), v) && Selects(Get(b, d), v) then Shared(a, b, d) else "";
      assert InScope(a, context) && InScope(b, context);
    }
  }

  // ---------------------------------------------------------------- current authority

  datatype Document = Document(lifecycleStatus: string, authorityStatus: string, domain: string, scope: Scope)

  predicate IsCurrent(d: Document) {
    d.lifecycleStatus == "APPROVED" && d.authorityStatus == "AUTHORITATIVE"
  }

  predicate Conflict(a: Document, b: Document) {
    a.domain == b.domain && ScopesOverlap(a.scope, b.scope)
  }

  function Current(docs: seq<Document>): seq<Document> {
    if docs == [] then []
    else
      var rest := Current(docs[..|docs| - 1]);
      if IsCurrent(docs[|docs| - 1]) then rest + [docs[|docs| - 1]] else rest
  }

  ghost predicate ConflictFree(docs: seq<Document>) {
    forall i, j :: 0 <= i < j < |docs| && IsCurrent(docs[i]) && IsCurrent(docs[j]) ==> !Conflict(docs[i], docs[j])
  }

  ghost predicate Pairwise(current: seq<Document>) {
    forall i, j :: 0 <= i < j < |current| ==> !Conflict(current[i], current[j])
  }

  lemma {:induction false} CurrentContains(docs: seq<Document>, d: Document)
    ensures d in Current(docs) <==> d in docs && IsCurrent(d)
  {
    if docs != [] {
      CurrentContains(docs[..|docs| - 1], d);
      assert docs == docs[..|docs| - 1] + [docs[|docs| - 1]];
    }
  }

  lemma {:induction false} CurrentKeepsConflicts(docs: seq<Document>)
    ensures Pairwise(Current(docs)) <==> ConflictFree(docs)
  {
    hide Conflict, IsCurrent;
    if docs != [] {
      var most, last := docs[..|docs| - 1], docs[|docs| - 1];
      CurrentKeepsConflicts(most);
      forall d: Document ensures d in Current(most) <==> d in most && IsCurrent(d) {
        CurrentContains(most, d);
      }
      if IsCurrent(last) {
        PairwiseExtends(Current(most), last);
      }
      ConflictFreeExtends(most, last);
      assert docs == most + [last];
    }
  }

  lemma PairwiseExtends(current: seq<Document>, d: Document)
    ensures Pairwise(current + [d]) <==> Pairwise(current) && forall x :: x in current ==> !Conflict(x, d)
  {
    hide Conflict;
    var all := current + [d];
    if Pairwise(all) {
      forall i, j | 0 <= i < j < |current| ensures !Conflict(current[i], current[j]) {
        assert current[i] == all[i] && current[j] == all[j];
      }
      forall x | x in current ensures !Conflict(x, d) {
        var i :| 0 <= i < |current| && current[i] == x;
        assert all[i] == x && all[|current|] == d;
      }
    }
  }

  lemma ConflictFreeExtends(docs: seq<Document>, d: Document)
    ensures ConflictFree(docs + [d])
      <==> ConflictFree(docs) && (IsCurrent(d) ==> forall x :: x in docs && IsCurrent(x) ==> !Conflict(x, d))
  {
    hide Conflict, IsCurrent;
    var all := docs + [d];
    if ConflictFree(all) {
      forall i, j | 0 <= i < j < |docs| && IsCurrent(docs[i]) && IsCurrent(docs[j])
        ensures !Conflict(docs[i], docs[j])
      {
        assert docs[i] == all[i] && docs[j] == all[j];
      }
      forall x | x in docs && IsCurrent(x) && IsCurrent(d) ensures !Conflict(x, d) {
        var i :| 0 <= i < |docs| && docs[i] == x;
        assert all[i] == x && all[|docs|] == d;
      }
    }
  }

  /** Select the current documents, then compare every pair once. */
  method AuthorityStep(docs: seq<Document>) returns (passes: bool)
    ensures passes <==> ConflictFree(docs)
  {
    var current := [];
    for k := 0 to |docs|
      invariant current == Current(docs[..k])
    {
      assert docs[..k + 1][..k] == docs[..k] && docs[..k + 1][k] == docs[k];
      if IsCurrent(docs[k]) {
        current := current + [docs[k]];
      }
    }
    assert docs[..|docs|] == docs;
    CurrentKeepsConflicts(docs);
    for i := 0 to |current|
      invariant forall a, b :: 0 <= a < i && a < b < |current| ==> !Conflict(current[a], current[b])
    {
      for j := i + 1 to |current|
        invariant forall b :: i < b < j ==> !Conflict(current[i], current[b])
      {
        if current[i].domain != current[j].domain {
          continue;
        }
        if ScopesOverlap(current[i].scope, current[j].scope) {
          assert Conflict(current[i], current[j]);
          return false;
        }
      }
    }
    passes := true;
  }

  /** This document answers for this context in this domain. */
  ghost predicate Answers(d: Document, domain: string, context: Context) {
    && d.lifecycleStatus == "APPROVED" && d.authorityStatus == "AUTHORITATIVE"
    && d.domain == domain && InScope(d.scope, context)
  }

  lemma BothAnswer(a: Document, b: Document, domain: string, context: Context)
    requires ValidScope(a.scope) && ValidScope(b.scope) && Answers(a, domain, context) && Answers(b, domain, context)
    ensures Conflict(a, b)
  {
    hide ScopesOverlap, InScope, ValidScope;
    ScopesOverlapMeans(a.scope, b.scope);
  }

  /** The step passes iff every context has at most one current authoritative document in
      every authority domain. */
  lemma AuthorityIsUnique(docs: seq<Document>)
    requires forall i :: 0 <= i < |docs| ==> ValidScope(docs[i].scope)
    ensures ConflictFree(docs)
      <==> forall domain: string, context: Context, i, j ::
        0 <= i < |docs| && 0 <= j < |docs| && Answers(docs[i], domain, context) && Answers(docs[j], domain, context) ==>
          i == j
  {
    hide ScopesOverlap, InScope, ValidScope;
    forall i, j | 0 <= i < |docs| && 0 <= j < |docs|
      ensures ScopesOverlap(docs[i].scope, docs[j].scope)
        <==> exists context: Context :: InScope(docs[i].scope, context) && InScope(docs[j].scope, context)
    {
      ScopesOverlapMeans(docs[i].scope, docs[j].scope);
    }
    if ConflictFree(docs) {
      forall domain: string, context: Context, i, j
        | 0 <= i < |docs| && 0 <= j < |docs| && Answers(docs[i], domain, context) && Answers(docs[j], domain, context)
        ensures i == j
      {
        BothAnswer(docs[i], docs[j], domain, context);
        BothAnswer(docs[j], docs[i], domain, context);
      }
    } else {
      var i, j :| 0 <= i < j < |docs| && IsCurrent(docs[i]) && IsCurrent(docs[j]) && Conflict(docs[i], docs[j]);
      var context: Context :| InScope(docs[i].scope, context) && InScope(docs[j].scope, context);
      assert Answers(docs[i], docs[i].domain, context) && Answers(docs[j], docs[i].domain, context);
    }
  }
}
