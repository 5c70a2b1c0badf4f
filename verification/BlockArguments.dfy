/** Phis pass the block arguments: along every edge, the entry for the label that ends the
    predecessor holds the argument the edge passes. */
module BlockArguments {
  import opened Wrappers
  import opened Lists
  import opened MachineWir
  import opened Renderer
  import opened Llvm
  import opened Labels

  // ---- the edge inventory ----

  /** The label control comes from when it leaves block p. */
  function EndOf(f: Function, p: nat): BlockName
    requires p < |f.blocks|
  {
    FinalLabel(p, Continuation(f.blocks[p].instructions))
  }

  ghost predicate IsEdge(f: Function, e: Incoming)
  {
    && e.predecessor < |f.blocks|
    && e.continuation == Continuation(f.blocks[e.predecessor].instructions)
    && Edge(e.target, e.arguments) in Successors(f.blocks[e.predecessor].terminator)
  }

  lemma {:induction false} EdgesFromMembers(b: Block, e: Incoming)
    ensures e in EdgesFrom(b)
       <==> (e.predecessor == b.id && e.continuation == Continuation(b.instructions)
             && Edge(e.target, e.arguments) in Successors(b.terminator))
  {
    var successors, edges := Successors(b.terminator), EdgesFrom(b);
    if e in edges {
      var k :| 0 <= k < |edges| && edges[k] == e;
      assert successors[k] == Edge(e.target, e.arguments);
    } else if Edge(e.target, e.arguments) in successors {
      var k :| 0 <= k < |successors| && successors[k] == Edge(e.target, e.arguments);
      assert edges[k] in edges;
    }
  }

  lemma {:induction false} InventoryMembers(f: Function, edges: seq<Incoming>, e: Incoming)
    requires DenseIds(f) && IsInventory(f, edges)
    ensures e in edges <==> IsEdge(f, e)
  {
    var g := BlockEdges(f.blocks);
    assert e in edges <==> e in multiset(AllEdges(f.blocks));
    ConcatMembers(g, |f.blocks|, e);
    if InSome(g, |f.blocks|, e) {
      var b: nat :| b < |f.blocks| && e in g(b);
      EdgesFromMembers(f.blocks[b], e);
    }
    if IsEdge(f, e) {
      EdgesFromMembers(f.blocks[e.predecessor], e);
      assert e in g(e.predecessor);
    }
  }

  /** The two partition points cut out exactly the edges to the block. */
  lemma {:induction false} EdgesToMembers(edges: seq<Incoming>, target: nat, e: Incoming)
    requires Sorting.Sorted(EdgeOrder, edges)
    ensures e in EdgesTo(edges, target) <==> e in edges && e.target == target
  {
    var start, end := PartitionPoint(edges, target), PartitionPoint(edges, target + 1);
    assert start <= end;
    forall k | start <= k < end ensures edges[k].target == target {
      if k > start { assert EdgeOrder(edges[start], edges[k]); }
    }
    if e in edges && e.target == target {
      var k :| 0 <= k < |edges| && edges[k] == e;
      assert start <= k;
      assert edges[start..end][k - start] == e;
    }
  }

  lemma {:induction false} EdgesToSorted(edges: seq<Incoming>, target: nat)
    requires Sorting.Sorted(EdgeOrder, edges)
    ensures Grouped(EdgesTo(edges, target))
  {
    var incoming := EdgesTo(edges, target);
    var start := PartitionPoint(edges, target);
    forall j, k | 0 <= j < k < |incoming| ensures incoming[j].predecessor <= incoming[k].predecessor {
      assert incoming[j] == edges[start + j] && incoming[k] == edges[start + k];
      EdgesToMembers(edges, target, incoming[j]);
      EdgesToMembers(edges, target, incoming[k]);
      assert EdgeOrder(edges[start + j], edges[start + k]);
    }
  }

  /** Validation guarantees that rendering finds every argument. */
  lemma {:induction false} ArgumentsPresent(f: Function, edges: seq<Incoming>, target: nat, e: Incoming)
    requires WellFormed(f) && IsInventory(f, edges) && e in EdgesTo(edges, target)
    ensures target < |f.blocks| && |e.arguments| == |f.blocks[target].parameters|
  {
    EdgesToMembers(edges, target, e);
    InventoryMembers(f, edges, e);
    var t := f.blocks[e.predecessor].terminator;
    assert EdgesMatch(f, t);
    var k :| 0 <= k < |Successors(t)| && Successors(t)[k] == Edge(e.target, e.arguments);
  }

  // ---- labels identify predecessors ----

  lemma {:induction false} ContinuationInBlock(instructions: seq<Instruction>, n: nat)
    requires n <= |instructions|
    ensures LastSplit(instructions, n).Some? ==> HasId(instructions, LastSplit(instructions, n).value)
  {
    if n > 0 {
      ContinuationInBlock(instructions, n - 1);
      assert instructions[n - 1].id == instructions[n - 1].id;
    }
  }

  lemma {:induction false} EndsApart(f: Function, p: nat, q: nat)
    requires UniqueIds(f) && p < |f.blocks| && q < |f.blocks| && EndOf(f, p) == EndOf(f, q)
    ensures p == q
  {
    ContinuationInBlock(f.blocks[p].instructions, |f.blocks[p].instructions|);
    ContinuationInBlock(f.blocks[q].instructions, |f.blocks[q].instructions|);
    OneOwner(f, EndOf(f, p), p, q);
  }

  // ---- what the phis say ----

  /** Edges of f that all go to one block. */
  ghost predicate EdgesInto(f: Function, incoming: seq<Incoming>, target: nat)
  {
    forall e :: e in incoming ==> IsEdge(f, e) && e.target == target
  }

  lemma {:induction false} ParallelEdgesAgree(f: Function, a: Incoming, b: Incoming)
    requires WellFormed(f) && IsEdge(f, a) && IsEdge(f, b) && a.target == b.target && a.predecessor == b.predecessor
    ensures a == b
  {
    var t := f.blocks[a.predecessor].terminator;
    assert EdgesMatch(f, t);
    var j :| 0 <= j < |Successors(t)| && Successors(t)[j] == Edge(a.target, a.arguments);
    var k :| 0 <= k < |Successors(t)| && Successors(t)[k] == Edge(b.target, b.arguments);
  }

  // ---- the edges a phi reads ----

  ghost predicate HasEdgeFrom(incoming: seq<Incoming>, p: nat) { exists e :: e in incoming && e.predecessor == p }

  lemma {:induction false} FirstEdgesWithin(incoming: seq<Incoming>, n: nat, e: Incoming)
    requires n <= |incoming| && e in FirstEdges(incoming, n)
    ensures e in incoming
  {
    if e in FirstEdges(incoming, n - 1) { FirstEdgesWithin(incoming, n - 1, e); }
  }

  /** Every predecessor keeps an edge. */
  lemma {:induction false} FirstEdgesCover(incoming: seq<Incoming>, n: nat, k: nat)
    requires k < n <= |incoming|
    ensures HasEdgeFrom(FirstEdges(incoming, n), incoming[k].predecessor)
  {
    var p := incoming[k].predecessor;
    if k < n - 1 {
      FirstEdgesCover(incoming, n - 1, k);
    } else if n > 1 && incoming[n - 2].predecessor == p {
      FirstEdgesCover(incoming, n - 1, n - 2);
    } else {
      assert incoming[k] in FirstEdges(incoming, n);
    }
    if HasEdgeFrom(FirstEdges(incoming, n - 1), p) {
      var e :| e in FirstEdges(incoming, n - 1) && e.predecessor == p;
      assert e in FirstEdges(incoming, n);
    }
  }

  ghost predicate Grouped(incoming: seq<Incoming>)
  {
    forall j, k :: 0 <= j < k < |incoming| ==> incoming[j].predecessor <= incoming[k].predecessor
  }

  function PredecessorsOf(edges: seq<Incoming>): seq<nat>
  {
    seq(|edges|, k requires 0 <= k < |edges| => edges[k].predecessor)
  }

  predicate AtMost(s: seq<nat>, bound: nat) { forall k :: 0 <= k < |s| ==> s[k] <= bound }

  /** In order, so none twice. */
  lemma {:induction false} FirstEdgesIncrease(incoming: seq<Incoming>, n: nat)
    requires Grouped(incoming) && n <= |incoming|
    ensures Increasing(PredecessorsOf(FirstEdges(incoming, n)))
    ensures n > 0 ==> AtMost(PredecessorsOf(FirstEdges(incoming, n)), incoming[n - 1].predecessor)
  {
    if n > 0 {
      FirstEdgesIncrease(incoming, n - 1);
      var front, last := FirstEdges(incoming, n - 1), incoming[n - 1];
      if n > 1 { assert incoming[n - 2].predecessor <= last.predecessor; }
      assert PredecessorsOf(front + [last]) == PredecessorsOf(front) + [last.predecessor];
    }
  }

  // ---- entries ----

  /** The phi entries of a block name each of the listed predecessors once, by the label that ends it. */
  ghost predicate ListsOnce(f: Function, entries: seq<Entry>, listed: seq<nat>)
  {
    && |entries| == |listed| && Increasing(listed)
    && (forall k :: 0 <= k < |listed| ==> listed[k] < |f.blocks| && entries[k].origin == EndOf(f, listed[k]))
    && (forall a, b :: 0 <= a < b < |entries| ==> entries[a].origin != entries[b].origin)
  }

  lemma {:induction false} EntriesListOnce(f: Function, incoming: seq<Incoming>, j: nat)
    requires UniqueIds(f) && Grouped(incoming) && forall e :: e in incoming ==> IsEdge(f, e)
    ensures ListsOnce(f, EntriesOf(PhiEdges(incoming), j), PredecessorsOf(PhiEdges(incoming)))
  {
    var edges := PhiEdges(incoming);
    var entries, listed := EntriesOf(edges, j), PredecessorsOf(edges);
    FirstEdgesIncrease(incoming, |incoming|);
    forall k | 0 <= k < |edges| ensures IsEdge(f, edges[k]) { FirstEdgesWithin(incoming, |incoming|, edges[k]); }
    forall a, b | 0 <= a < b < |entries| ensures entries[a].origin != entries[b].origin {
      if entries[a].origin == entries[b].origin { EndsApart(f, listed[a], listed[b]); }
    }
  }

  /** The entry found is the one with the origin, if only one has it. */
  lemma {:induction false} LookupAt(entries: seq<Entry>, k: nat)
    requires k < |entries| && forall i, j :: 0 <= i < j < |entries| ==> entries[i].origin != entries[j].origin
    ensures Lookup(entries, entries[k].origin) == Some(entries[k].value)
  {
    if k > 0 {
      assert entries[0].origin != entries[k].origin;
      LookupAt(entries[1..], k - 1);
    }
  }

  /** The phi of parameter j has the argument of every edge, under the label that ends the edge's
      predecessor. */
  lemma {:induction false} EntryFor(f: Function, incoming: seq<Incoming>, j: nat, e: Incoming)
    requires WellFormed(f) && EdgesInto(f, incoming, e.target) && Grouped(incoming) && e in incoming
    ensures Lookup(EntriesOf(PhiEdges(incoming), j), EndOf(f, e.predecessor)) == Some(ArgumentAt(e, j))
  {
    var edges, entries := PhiEdges(incoming), EntriesOf(PhiEdges(incoming), j);
    var at :| 0 <= at < |incoming| && incoming[at] == e;
    FirstEdgesCover(incoming, |incoming|, at);
    var x :| x in edges && x.predecessor == e.predecessor;
    var k :| 0 <= k < |edges| && edges[k] == x;
    FirstEdgesWithin(incoming, |incoming|, x);
    ParallelEdgesAgree(f, x, e);
    EntriesListOnce(f, incoming, j);
    LookupAt(entries, k);
  }

  ghost predicate IsPredecessor(f: Function, p: nat, target: nat)
  {
    p < |f.blocks| && exists e :: e in Successors(f.blocks[p].terminator) && e.target == target
  }

  lemma {:induction false} InventoryInto(f: Function, edges: seq<Incoming>, target: nat)
    requires DenseIds(f) && IsInventory(f, edges)
    ensures EdgesInto(f, EdgesTo(edges, target), target)
  {
    forall e | e in EdgesTo(edges, target) ensures IsEdge(f, e) && e.target == target {
      EdgesToMembers(edges, target, e);
      InventoryMembers(f, edges, e);
    }
  }

  /** Each predecessor appears in every phi of a block exactly once, under the label that ends it,
      and nothing else does. */
  lemma {:induction false} PhiListsPredecessorsOnce(f: Function, edges: seq<Incoming>, target: nat, j: nat)
    requires DenseIds(f) && UniqueIds(f) && IsInventory(f, edges)
    ensures var incoming := EdgesTo(edges, target);
      && ListsOnce(f, EntriesOf(PhiEdges(incoming), j), PredecessorsOf(PhiEdges(incoming)))
      && forall p: nat :: p in PredecessorsOf(PhiEdges(incoming)) <==> IsPredecessor(f, p, target)
  {
    var incoming := EdgesTo(edges, target);
    InventoryInto(f, edges, target);
    EdgesToSorted(edges, target);
    EntriesListOnce(f, incoming, j);
    forall p: nat ensures p in PredecessorsOf(PhiEdges(incoming)) <==> IsPredecessor(f, p, target) {
      ListedMembers(incoming, p);
      PredecessorListed(f, edges, target, p);
    }
  }

  lemma {:induction false} ListedMembers(incoming: seq<Incoming>, p: nat)
    ensures p in PredecessorsOf(PhiEdges(incoming)) <==> HasEdgeFrom(incoming, p)
  {
    var edges := PhiEdges(incoming);
    if p in PredecessorsOf(edges) {
      var k :| 0 <= k < |edges| && PredecessorsOf(edges)[k] == p;
      FirstEdgesWithin(incoming, |incoming|, edges[k]);
    }
    if HasEdgeFrom(incoming, p) {
      var e :| e in incoming && e.predecessor == p;
      var k :| 0 <= k < |incoming| && incoming[k] == e;
      FirstEdgesCover(incoming, |incoming|, k);
      var x :| x in edges && x.predecessor == p;
      var i :| 0 <= i < |edges| && edges[i] == x;
      assert PredecessorsOf(edges)[i] == p;
    }
  }

  lemma {:induction false} PredecessorListed(f: Function, edges: seq<Incoming>, target: nat, p: nat)
    requires DenseIds(f) && IsInventory(f, edges)
    ensures HasEdgeFrom(EdgesTo(edges, target), p) <==> IsPredecessor(f, p, target)
  {
    if HasEdgeFrom(EdgesTo(edges, target), p) {
      var x :| x in EdgesTo(edges, target) && x.predecessor == p;
      EdgesToMembers(edges, target, x);
      InventoryMembers(f, edges, x);
      assert Edge(x.target, x.arguments).target == target;
    }
    if IsPredecessor(f, p, target) {
      var e :| e in Successors(f.blocks[p].terminator) && e.target == target;
      var x := Incoming(target, p, Continuation(f.blocks[p].instructions), e.arguments);
      assert e == Edge(x.target, x.arguments);
      InventoryMembers(f, edges, x);
      EdgesToMembers(edges, target, x);
    }
  }

  // ---- entering a block ----

  /** Read from the predecessor's final label, the phis of the target yield the edge's arguments. */
  lemma {:induction false} PhisYieldArguments(f: Function, edges: seq<Incoming>, p: nat, e: Edge)
    requires WellFormed(f) && IsInventory(f, edges) && p < |f.blocks| && e in Successors(f.blocks[p].terminator)
    ensures e.target < |f.blocks| && |e.arguments| == |f.blocks[e.target].parameters|
    ensures PhiValues(Phis(EdgesTo(edges, e.target), f.blocks[e.target].parameters), EndOf(f, p)) == Some(e.arguments)
  {
    var x := Incoming(e.target, p, Continuation(f.blocks[p].instructions), e.arguments);
    InventoryMembers(f, edges, x);
    EdgesToMembers(edges, e.target, x);
    ArgumentsPresent(f, edges, e.target, x);
    var incoming, parameters := EdgesTo(edges, e.target), f.blocks[e.target].parameters;
    InventoryInto(f, edges, e.target);
    EdgesToSorted(edges, e.target);
    forall k | 0 <= k < |parameters|
      ensures Lookup(Phis(incoming, parameters)[k].entries, EndOf(f, p)) == Some(e.arguments[k])
    {
      EntryFor(f, incoming, k, x);
    }
    PhiValuesFrom(Phis(incoming, parameters), EndOf(f, p), e.arguments);
  }

  lemma {:induction false} PhiValuesFrom(phis: seq<Phi>, origin: BlockName, arguments: seq<nat>)
    requires |phis| == |arguments|
    requires forall k :: 0 <= k < |phis| ==> Lookup(phis[k].entries, origin) == Some(arguments[k])
    ensures PhiValues(phis, origin) == Some(arguments)
  {
    if |phis| > 0 {
      PhiValuesFrom(phis[1..], origin, arguments[1..]);
      assert arguments == [arguments[0]] + arguments[1..];
    }
  }

  lemma {:induction false} PhiResultsAre(phis: seq<Phi>, parameters: seq<nat>)
    requires |phis| == |parameters| && forall k :: 0 <= k < |phis| ==> phis[k].result == parameters[k]
    ensures PhiResults(phis) == parameters
  {
    if |phis| > 0 {
      PhiResultsAre(phis[1..], parameters[1..]);
      assert parameters == [parameters[0]] + parameters[1..];
    }
  }
}
