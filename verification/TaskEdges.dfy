/** The edge index and the edge check. */
module TaskEdges {
  // src/tasks/edge-index.ts refuses a bad parent or dep write against the whole root. Two things
  // live in the `pm` package and are parameters here: how a tag names an edge, and which cycles
  // `checkEdges` lists. Of the latter only this is used: it lists a cycle through the written task
  // exactly when there is one.

  import opened Prelude

  datatype Task = Task(
    id: string,
    status: string,
    doneAt: Option<string>,
    parent: Option<string>,
    dep: Option<seq<string>>,
    tags: Option<seq<string>>,
    notes: Option<string>,
    updated: string,
    rest: string)  // every other field, carried through unread

  datatype Entry = Entry(slug: string, task: Task)

  // --- Reading edges ---------------------------------------------------------

  datatype TagReader = TagReader(depOf: string -> Option<string>, parentOf: string -> Option<string>)

  datatype Field = Parent | Dep

  /** One task's edges as the check sees them. */
  datatype Node = Node(parent: Option<string>, dep: seq<string>)

  function TagDeps(r: TagReader, tags: seq<string>): seq<string> {
    if tags == [] then []
    else TagDeps(r, tags[..|tags| - 1]) +
         (match r.depOf(tags[|tags| - 1]) case Some(id) => [id] case None => [])
  }

  function TagParent(r: TagReader, tags: seq<string>): Option<string> {
    if tags == [] then None
    else if r.parentOf(tags[0]).Some? then r.parentOf(tags[0])
    else TagParent(r, tags[1..])
  }

  /** readEdges: a field, once there, hides the tags. */
  function NodeOf(r: TagReader, t: Task): Node {
    Node(if t.parent.Some? then t.parent else TagParent(r, t.tags.GetOr([])),
         if t.dep.Some? then t.dep.value else TagDeps(r, t.tags.GetOr([])))
  }

  function Targets(n: Node, f: Field): seq<string> {
    match f
    case Parent => if n.parent.Some? then [n.parent.value] else []
    case Dep => n.dep
  }

  // --- Graphs and cycles --------------------------------------------------------

  type Graph = map<string, Node>

  ghost predicate Edge(g: Graph, f: Field, a: string, b: string) {
    a in g && b in Targets(g[a], f)
  }

  ghost predicate Walk(g: Graph, f: Field, p: seq<string>) {
    forall i :: 0 <= i < |p| - 1 ==> Edge(g, f, p[i], p[i + 1])
  }

  ghost predicate Connects(g: Graph, f: Field, p: seq<string>, a: string, b: string) {
    |p| >= 2 && p[0] == a && p[|p| - 1] == b && Walk(g, f, p)
  }

  ghost predicate OnCycle(g: Graph, f: Field, id: string) {
    exists p :: Connects(g, f, p, id, id)
  }

  ghost predicate Acyclic(g: Graph) {
    forall f, id :: !OnCycle(g, f, id)
  }

  /** Neighbours in a closed list that is started over at `k` are neighbours in the list. */
  lemma {:induction false} RotatedPair(p: seq<string>, k: nat, i: nat) returns (j: nat)
    requires 0 < k < |p| - 1 && p[0] == p[|p| - 1] && i < |p| - 1
    ensures var q := p[k..] + p[1..k + 1];
            && i + 1 < |q| == |p| && j + 1 < |p| && q[i] == p[j] && q[i + 1] == p[j + 1]
  {
    var front, back := p[k..], p[1..k + 1];
    if i < |front| - 1 {
      j := k + i;
    } else {
      j := i - (|front| - 1);
      assert (front + back)[i + 1] == back[j];
      if j > 0 {
        assert (front + back)[i] == back[j - 1];
      }
    }
  }

  lemma {:induction false} RotatedEnds(p: seq<string>, k: nat)
    requires 0 < k < |p| - 1
    ensures var q := p[k..] + p[1..k + 1];
            |q| == |p| && q[0] == p[k] && q[|q| - 1] == p[k]
  {
    assert p[1..k + 1][k - 1] == p[k];
  }

  /** A closed walk can start at any node it passes. */
  lemma {:induction false} Rotate(g: Graph, f: Field, p: seq<string>, a: string, k: nat)
    requires Connects(g, f, p, a, a) && k < |p|
    ensures OnCycle(g, f, p[k])
  {
    if 0 < k < |p| - 1 {
      var q := p[k..] + p[1..k + 1];
      forall i | 0 <= i < |q| - 1 ensures Edge(g, f, q[i], q[i + 1]) {
        var j := RotatedPair(p, k, i);
        assert Edge(g, f, p[j], p[j + 1]);
      }
      RotatedEnds(p, k);
      assert Connects(g, f, q, p[k], p[k]);
    } else {
      assert p[k] == a;
    }
  }

  lemma {:induction false} WalkAvoids(g: Graph, id: string, node: Node, f: Field, p: seq<string>)
    requires Walk(g[id := node], f, p) && id !in p
    ensures Walk(g, f, p)
  {
    forall i | 0 <= i < |p| - 1 ensures Edge(g, f, p[i], p[i + 1]) {
      assert Edge(g[id := node], f, p[i], p[i + 1]);
    }
  }

  lemma {:induction false} CycleElsewhere(g: Graph, id: string, node: Node, f: Field, x: string)
    requires OnCycle(g[id := node], f, x) && !OnCycle(g[id := node], f, id)
    ensures OnCycle(g, f, x)
  {
    var g' := g[id := node];
    var p :| Connects(g', f, p, x, x);
    forall k | 0 <= k < |p| ensures p[k] != id {
      Rotate(g', f, p, x, k);
    }
    WalkAvoids(g, id, node, f, p);
    assert Connects(g, f, p, x, x);
  }

  /** Changing one node's edges can only close cycles through that node. */
  lemma {:induction false} UpdateAcyclic(g: Graph, id: string, node: Node)
    requires Acyclic(g)
    requires !OnCycle(g[id := node], Parent, id) && !OnCycle(g[id := node], Dep, id)
    ensures Acyclic(g[id := node])
  {
    var g' := g[id := node];
    forall f, x ensures !OnCycle(g', f, x) {
      if OnCycle(g', f, x) {
        assert f == Parent || f == Dep;
        CycleElsewhere(g, id, node, f, x);
      }
    }
  }

  ghost predicate FewerEdges(a: Node, b: Node) {
    forall f, x :: x in Targets(a, f) ==> x in Targets(b, f)
  }

  lemma {:induction false} FewerCycles(g: Graph, id: string, a: Node, b: Node, f: Field, x: string)
    requires FewerEdges(a, b) && OnCycle(g[id := a], f, x)
    ensures OnCycle(g[id := b], f, x)
  {
    var p :| Connects(g[id := a], f, p, x, x);
    forall i | 0 <= i < |p| - 1 ensures Edge(g[id := b], f, p[i], p[i + 1]) {
      assert Edge(g[id := a], f, p[i], p[i + 1]);
    }
    assert Connects(g[id := b], f, p, x, x);
  }

  /** Dropping edges closes nothing. */
  lemma {:induction false} FewerAcyclic(g: Graph, id: string, a: Node, b: Node)
    requires Acyclic(g[id := b]) && FewerEdges(a, b)
    ensures Acyclic(g[id := a])
  {
    var fewer := g[id := a];
    forall f, x ensures !OnCycle(fewer, f, x) {
      if OnCycle(fewer, f, x) {
        FewerCycles(g, id, a, b, f, x);
      }
    }
  }

  // --- Which writes close a cycle ----------------------------------------------------

  ghost predicate Reaches(g: Graph, f: Field, from: string, to: string) {
    exists p :: Connects(g, f, p, from, to)
  }

  /** `s` is another id than `id`, and no walk leads from it back there. */
  ghost predicate Clear(g: Graph, f: Field, s: string, id: string) {
    s != id && !Reaches(g, f, s, id)
  }

  ghost predicate AllClear(g: Graph, f: Field, refs: seq<string>, id: string) {
    forall s :: s in refs ==> Clear(g, f, s, id)
  }

  /** The first place from `from` on where the walk is at `id`. */
  lemma {:induction false} FirstVisit(p: seq<string>, id: string, from: nat) returns (k: nat)
    requires from < |p| && p[|p| - 1] == id
    ensures from <= k < |p| && p[k] == id && forall i :: from <= i < k ==> p[i] != id
  {
    k := from;
    while p[k] != id
      invariant from <= k < |p| && forall i :: from <= i < k ==> p[i] != id
      decreases |p| - k
    {
      k := k + 1;
    }
  }

  /** A cycle through the changed node leaves it by a new target that leads back without it. */
  lemma {:induction false} CycleLeavesBy(g: Graph, id: string, node: Node, f: Field) returns (s: string)
    requires OnCycle(g[id := node], f, id)
    ensures s in Targets(node, f) && !Clear(g, f, s, id)
  {
    var g' := g[id := node];
    var p :| Connects(g', f, p, id, id);
    assert Edge(g', f, p[0], p[1]);
    s := p[1];
    var k := FirstVisit(p, id, 1);
    if k > 1 {
      var q := p[1..k + 1];
      forall i | 0 <= i < |q| - 1 ensures Edge(g, f, q[i], q[i + 1]) {
        assert Edge(g', f, p[i + 1], p[i + 2]);
      }
      assert Connects(g, f, q, s, id);
    }
  }

  lemma {:induction false} TargetCloses(g: Graph, id: string, node: Node, f: Field, s: string)
    requires s in Targets(node, f) && !Clear(g, f, s, id)
    ensures OnCycle(g[id := node], f, id)
  {
    var g' := g[id := node];
    assert Edge(g', f, id, s);
    if s == id {
      assert Connects(g', f, [id, id], id, id);
    } else {
      var p :| Connects(g, f, p, s, id);
      var k := FirstVisit(p, id, 0);
      var q := [id] + p[..k + 1];
      forall i | 0 <= i < |q| - 1 ensures Edge(g', f, q[i], q[i + 1]) {
        if i > 0 {
          assert Edge(g, f, p[i - 1], p[i]);
        }
      }
      assert Connects(g', f, q, id, id);
    }
  }

  /** Changing one node closes a cycle through it exactly when one of its targets is itself or leads back to it. */
  lemma {:induction false} ClosesCycleIff(g: Graph, id: string, node: Node, f: Field)
    ensures OnCycle(g[id := node], f, id) <==> !AllClear(g, f, Targets(node, f), id)
  {
    if OnCycle(g[id := node], f, id) {
      var s := CycleLeavesBy(g, id, node, f);
    }
    if !AllClear(g, f, Targets(node, f), id) {
      var s :| s in Targets(node, f) && !Clear(g, f, s, id);
      TargetCloses(g, id, node, f, s);
    }
  }

  /** An acyclic graph stays so exactly when the new node's targets are clear of the node. */
  lemma {:induction false} UpdateAcyclicIff(g: Graph, id: string, node: Node)
    requires Acyclic(g)
    ensures Acyclic(g[id := node]) <==>
            AllClear(g, Parent, Targets(node, Parent), id) && AllClear(g, Dep, Targets(node, Dep), id)
  {
    ClosesCycleIff(g, id, node, Parent);
    ClosesCycleIff(g, id, node, Dep);
    if !OnCycle(g[id := node], Parent, id) && !OnCycle(g[id := node], Dep, id) {
      UpdateAcyclic(g, id, node);
    }
  }

  /** What an acyclic graph has already is clear. */
  lemma {:induction false} PresentIsClear(g: Graph, id: string, f: Field)
    requires Acyclic(g) && id in g
    ensures AllClear(g, f, Targets(g[id], f), id)
  {
    assert g[id := g[id]] == g;
    ClosesCycleIff(g, id, g[id], f);
  }

  // --- Listing cycles --------------------------------------------------------------

  /** The cycles checkEdges reports for one task, as lists of ids. */
  type CycleLister = (Graph, Field, string) -> seq<seq<string>>

  ghost predicate ListsCycles(cycles: CycleLister) {
    forall g, f, id :: (cycles(g, f, id) != [] <==> OnCycle(g, f, id))
  }

  function Successors(g: Graph, f: Field, from: set<string>): set<string> {
    set a, b | a in from && a in g && b in Targets(g[a], f) && b in g :: b
  }

  /** Everything reachable from `seen` inside the graph. */
  function Reach(g: Graph, f: Field, seen: set<string>): (r: set<string>)
    requires seen <= g.Keys
    ensures seen <= r <= g.Keys
    ensures Successors(g, f, r) <= r
    decreases g.Keys - seen
  {
    var next := seen + Successors(g, f, seen);
    if next == seen then seen else Reach(g, f, next)
  }

  function ListByReach(g: Graph, f: Field, id: string): seq<seq<string>> {
    if id in g && id in Reach(g, f, Successors(g, f, {id})) then [[id]] else []
  }

  lemma {:induction false} OneStepOn(g: Graph, f: Field, seen: set<string>, a: string, x: string)
    requires x in Successors(g, f, seen) && forall s :: s in seen ==> exists p :: Connects(g, f, p, a, s)
    ensures exists p :: Connects(g, f, p, a, x)
  {
    var s :| s in seen && s in g && x in Targets(g[s], f) && x in g;
    var p :| Connects(g, f, p, a, s);
    assert Edge(g, f, s, x);
    assert Connects(g, f, p + [x], a, x);
  }

  lemma {:induction false} ReachIsWalked(g: Graph, f: Field, seen: set<string>, a: string, b: string)
    requires seen <= g.Keys && b in Reach(g, f, seen)
    requires forall x :: x in seen ==> exists p :: Connects(g, f, p, a, x)
    ensures exists p :: Connects(g, f, p, a, b)
    decreases g.Keys - seen
  {
    var next := seen + Successors(g, f, seen);
    if next != seen {
      forall x | x in next ensures exists p :: Connects(g, f, p, a, x) {
        if x !in seen {
          OneStepOn(g, f, seen, a, x);
        }
      }
      ReachIsWalked(g, f, next, a, b);
    }
  }

  lemma {:induction false} WalkStaysInReach(g: Graph, f: Field, seen: set<string>, p: seq<string>, k: nat)
    requires seen <= g.Keys && |p| >= 2 && Walk(g, f, p) && 1 <= k < |p|
    requires Successors(g, f, {p[0]}) <= seen && p[|p| - 1] in g
    ensures p[k] in Reach(g, f, seen)
  {
    assert Edge(g, f, p[k - 1], p[k]);
    InGraph(g, f, p, k);
    if k == 1 {
      assert p[1] in Successors(g, f, {p[0]});
    } else {
      WalkStaysInReach(g, f, seen, p, k - 1);
      assert p[k] in Successors(g, f, Reach(g, f, seen));
    }
  }

  lemma {:induction false} InGraph(g: Graph, f: Field, p: seq<string>, k: nat)
    requires Walk(g, f, p) && k < |p| && p[|p| - 1] in g
    ensures p[k] in g
  {
    if k < |p| - 1 {
      assert Edge(g, f, p[k], p[k + 1]);
    }
  }

  /** A real reachability search meets the contract the check relies on. */
  lemma {:induction false} ReachabilityListsCycles()
    ensures ListsCycles(ListByReach)
  {
    forall g, f, id ensures ListByReach(g, f, id) != [] <==> OnCycle(g, f, id) {
      if ListByReach(g, f, id) != [] {
        var start := Successors(g, f, {id});
        forall x | x in start ensures exists p :: Connects(g, f, p, id, x) {
          assert Edge(g, f, id, x);
          assert Connects(g, f, [id, x], id, x);
        }
        ReachIsWalked(g, f, start, id, id);
      }
      if OnCycle(g, f, id) {
        var p :| Connects(g, f, p, id, id);
        assert Edge(g, f, p[0], p[1]);
        WalkStaysInReach(g, f, Successors(g, f, {id}), p, |p| - 1);
      }
    }
  }

  // --- The index ---------------------------------------------------------------------

  /** checkEdges keys its graph by id: of two copies of an id the later entry stands. */
  function Keyed(r: TagReader, entries: seq<Entry>): Graph {
    if entries == [] then map[]
    else
      var last := entries[|entries| - 1].task;
      Keyed(r, entries[..|entries| - 1])[last.id := NodeOf(r, last)]
  }

  /** homes.get(id): the initiatives an id is filed in. */
  function Homes(entries: seq<Entry>, id: string): seq<string> {
    if entries == [] then []
    else Homes(entries[..|entries| - 1], id) +
         (if entries[|entries| - 1].task.id == id then [entries[|entries| - 1].slug] else [])
  }

  /** The entries with the other copies of the written id left out. */
  function GraphEntries(entries: seq<Entry>, slug: string, id: string): seq<Entry> {
    if entries == [] then []
    else
      var last := entries[|entries| - 1];
      GraphEntries(entries[..|entries| - 1], slug, id) +
      (if last.task.id != id || last.slug == slug then [last] else [])
  }

  datatype EdgeWrite = EdgeWrite(slug: string, id: string, parent: Option<string>, dep: Option<seq<string>>)

  datatype EdgeError =
    | Ambiguous(ref: string)
    | ForeignParent(ref: string)
    | UnknownId(field: Field, ref: string)
    | ClosesCycle(field: Field, ids: seq<string>)

  function NotIn(refs: seq<string>, known: seq<string>): (r: seq<string>)
    ensures forall x :: x in r <==> x in refs && x !in known
    ensures r == [] <==> forall x :: x in refs ==> x in known
  {
    if refs == [] then []
    else (if refs[0] in known then [] else [refs[0]]) + NotIn(refs[1..], known)
  }

  /** The ids the write adds: its parent, and any dep the task does not have yet. */
  function Named(r: TagReader, g: Graph, w: EdgeWrite): (n: seq<string>)
    ensures n == [] <==> w.parent.None? && forall x :: x in w.dep.GetOr([]) ==> w.id in g && x in g[w.id].dep
  {
    var current := if w.id in g then g[w.id].dep else [];
    var added := NotIn(w.dep.GetOr([]), current);
    (if w.parent.Some? then [w.parent.value] else []) + added
  }

  function PlacementErrors(entries: seq<Entry>, w: EdgeWrite, named: seq<string>): seq<EdgeError> {
    AmbiguousIds(entries, named) +
    (if w.parent.Some? && |Homes(entries, w.parent.value)| == 1 && Homes(entries, w.parent.value)[0] != w.slug
     then [ForeignParent(w.parent.value)] else [])
  }

  function AmbiguousIds(entries: seq<Entry>, named: seq<string>): seq<EdgeError> {
    if named == [] then []
    else (if |Homes(entries, named[0])| >= 2 then [Ambiguous(named[0])] else []) + AmbiguousIds(entries, named[1..])
  }

  /** The written task's node: an omitted field keeps its current edges. */
  function Overridden(g: Graph, w: EdgeWrite): Node {
    var current := if w.id in g then g[w.id] else Node(None, []);
    Node(if w.parent.Some? then w.parent else current.parent, w.dep.GetOr(current.dep))
  }

  function UnknownRefs(g: Graph, f: Field, refs: seq<string>, named: seq<string>): (r: seq<EdgeError>)
    ensures forall e :: e in r ==> e.UnknownId?
  {
    if refs == [] then []
    else (if refs[0] !in g && refs[0] in named then [UnknownId(f, refs[0])] else []) +
         UnknownRefs(g, f, refs[1..], named)
  }

  /** The cycles of `after` that were not there before. */
  function NewCycles(f: Field, after: seq<seq<string>>, before: seq<seq<string>>): (r: seq<EdgeError>)
    ensures before == [] ==> (r == [] <==> after == [])
    ensures forall e :: e in r ==> e.ClosesCycle? && e.field == f
  {
    if after == [] then []
    else (if after[0] in before then [] else [ClosesCycle(f, after[0])]) + NewCycles(f, after[1..], before)
  }

  function GraphErrors(cycles: CycleLister, g: Graph, w: EdgeWrite, named: seq<string>): seq<EdgeError> {
    if named == [] then []
    else
      var node := Overridden(g, w);
      var after := g[w.id := node];
      UnknownRefs(after, Parent, Targets(node, Parent), named) +
      UnknownRefs(after, Dep, Targets(node, Dep), named) +
      NewCycles(Parent, cycles(after, Parent, w.id), cycles(g, Parent, w.id)) +
      NewCycles(Dep, cycles(after, Dep, w.id), cycles(g, Dep, w.id))
  }

  function EdgeWriteErrors(r: TagReader, cycles: CycleLister, entries: seq<Entry>, w: EdgeWrite): seq<EdgeError> {
    var g := Keyed(r, GraphEntries(entries, w.slug, w.id));
    var named := Named(r, g, w);
    PlacementErrors(entries, w, named) + GraphErrors(cycles, g, w, named)
  }

  /** An accepted write leaves an acyclic graph acyclic. */
  lemma {:induction false} AcceptedWriteKeepsAcyclic(r: TagReader, cycles: CycleLister, g: Graph, w: EdgeWrite)
    requires ListsCycles(cycles) && Acyclic(g) && w.id in g
    requires GraphErrors(cycles, g, w, Named(r, g, w)) == []
    ensures Acyclic(g[w.id := Overridden(g, w)])
  {
    var node := Overridden(g, w);
    var after := g[w.id := node];
    if Named(r, g, w) == [] {
      assert g[w.id := g[w.id]] == g;
      assert FewerEdges(node, g[w.id]);
      FewerAcyclic(g, w.id, node, g[w.id]);
    } else {
      assert cycles(g, Parent, w.id) == [] && cycles(g, Dep, w.id) == [];
      assert cycles(after, Parent, w.id) == [] && cycles(after, Dep, w.id) == [];
      UpdateAcyclic(g, w.id, node);
    }
  }

  /** One of the errors is a cycle of this kind. */
  ghost predicate NamesCycle(errors: seq<EdgeError>, f: Field) {
    exists e :: e in errors && e.ClosesCycle? && e.field == f
  }

  lemma {:induction false} NamesCycleIn(errors: seq<EdgeError>, own: seq<EdgeError>, f: Field)
    requires forall e :: e in own ==> e in errors && e.ClosesCycle? && e.field == f
    requires forall e :: e in errors && e.ClosesCycle? && e.field == f ==> e in own
    ensures NamesCycle(errors, f) <==> own != []
  {
    if own != [] {
      assert own[0] in own;
    }
  }

  /**
   * On an acyclic graph a write is refused for a cycle exactly when one of the
   * ids it would leave the task with is the task itself or leads back to it.
   */
  lemma {:induction false} RefusedForCycleIff(r: TagReader, cycles: CycleLister, g: Graph, w: EdgeWrite, f: Field)
    requires ListsCycles(cycles) && Acyclic(g) && w.id in g
    ensures NamesCycle(GraphErrors(cycles, g, w, Named(r, g, w)), f) <==>
            !AllClear(g, f, Targets(Overridden(g, w), f), w.id)
  {
    var node := Overridden(g, w);
    if Named(r, g, w) == [] {
      PresentIsClear(g, w.id, f);
      assert forall s :: s in Targets(node, f) ==> s in Targets(g[w.id], f);
    } else {
      var errors := GraphErrors(cycles, g, w, Named(r, g, w));
      ClosesCycleIff(g, w.id, node, f);
      assert cycles(g, f, w.id) == [];
      NamesCycleIn(errors, NewCycles(f, cycles(g[w.id := node], f, w.id), cycles(g, f, w.id)), f);
    }
  }
}
