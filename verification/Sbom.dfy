/**
 The dependency depths of a software bill of materials: the component and edge lists built from a
 CycloneDX document, and the breadth-first search that writes a depth into the components in place.
 References are taken as already trimmed; the empty string stands for a missing reference.
 */
module Sbom {
  import opened Wrappers

  type Id = nat

  datatype Component = Component(id: Id, ref: string, isRoot: bool, depth: Option<nat>)

  datatype Edge = Edge(from: Id, to: Id)

  // ----- what a depth means -----

  predicate Known(components: seq<Component>, id: Id) {
    exists i | 0 <= i < |components| :: components[i].id == id
  }

  /** A walk of k dependency edges from some root to `id`, through known components only. */
  ghost predicate Walk(components: seq<Component>, edges: seq<Edge>, k: nat, id: Id)
    decreases k
  {
    Known(components, id) &&
    if k == 0 then exists i | 0 <= i < |components| :: components[i].id == id && components[i].isRoot
    else exists e | e in edges :: e.to == id && Walk(components, edges, k - 1, e.from)
  }

  /** A component's depth is the length of the shortest walk to it, and is absent if there is none. */
  ghost predicate IsDepth(components: seq<Component>, edges: seq<Edge>, id: Id, depth: Option<nat>) {
    match depth
    case None => forall k: nat :: !Walk(components, edges, k, id)
    case Some(d) => Walk(components, edges, d, id) && forall k: nat | k < d :: !Walk(components, edges, k, id)
  }

  ghost predicate DistinctIds(components: seq<Component>) {
    forall i, j | 0 <= i < j < |components| :: components[i].id != components[j].id
  }

  // The list as the caller hands it over: only roots have a depth yet.
  ghost predicate Fresh(components: seq<Component>) {
    && DistinctIds(components)
    && forall i | 0 <= i < |components| ::
         components[i].depth == if components[i].isRoot then Some(0) else None
  }

  // ----- the search, seen as labels on identifiers -----

  type Labels = map<Id, nat>

  // Labels are walk lengths, and every root is labelled 0.
  ghost predicate Sound(components: seq<Component>, edges: seq<Edge>, labels: Labels) {
    && (forall id | id in labels :: Walk(components, edges, labels[id], id))
    && (forall i | 0 <= i < |components| && components[i].isRoot ::
          components[i].id in labels && labels[components[i].id] == 0)
  }

  ghost predicate StepDone(components: seq<Component>, labels: Labels, from: Id, to: Id)
    requires from in labels
  {
    Known(components, to) ==> to in labels && labels[to] <= labels[from] + 1
  }

  // Every labelled identifier that no longer waits in the queue has passed its label on.
  ghost predicate PassedOn(components: seq<Component>, edges: seq<Edge>, labels: Labels, queue: seq<Id>) {
    forall e | e in edges && e.from in labels && e.from !in queue :: StepDone(components, labels, e.from, e.to)
  }

  // The queue holds labelled identifiers in the order of their labels, which span at most two levels,
  // and no label lies beyond the second one.
  ghost predicate Ordered(labels: Labels, queue: seq<Id>) {
    && (forall q | q in queue :: q in labels)
    && (forall x, y | 0 <= x < y < |queue| :: labels[queue[x]] <= labels[queue[y]])
    && (|queue| > 0 ==> forall id | id in labels :: labels[id] <= labels[queue[0]] + 1)
  }

  /** Once nothing waits, no walk is shorter than the label of its end. */
  lemma {:induction false} LabelsAreLeast(components: seq<Component>, edges: seq<Edge>, labels: Labels, k: nat, id: Id)
    requires Sound(components, edges, labels) && PassedOn(components, edges, labels, [])
    requires Walk(components, edges, k, id)
    ensures id in labels && labels[id] <= k
    decreases k
  {
    if k > 0 {
      var e :| e in edges && e.to == id && Walk(components, edges, k - 1, e.from);
      LabelsAreLeast(components, edges, labels, k - 1, e.from);
      assert StepDone(components, labels, e.from, e.to);
    }
  }

  lemma LabelsAreDepths(components: seq<Component>, edges: seq<Edge>, labels: Labels, id: Id)
    requires Sound(components, edges, labels) && PassedOn(components, edges, labels, [])
    ensures IsDepth(components, edges, id, if id in labels then Some(labels[id]) else None)
  {
    forall k: nat | Walk(components, edges, k, id)
      ensures id in labels && labels[id] <= k
    {
      LabelsAreLeast(components, edges, labels, k, id);
    }
  }

  // ----- the search, in place -----

  // The array holds the initial components with the labels as their depths.
  ghost predicate Shows(components: array<Component>, initial: seq<Component>, labels: Labels)
    reads components
  {
    && components.Length == |initial|
    && (forall i | 0 <= i < |initial| ::
          components[i] == initial[i].(depth := if initial[i].id in labels then Some(labels[initial[i].id]) else None))
    && (forall id | id in labels :: Known(initial, id))
  }

  ghost predicate Index(initial: seq<Component>, byId: map<Id, nat>) {
    && (forall id | id in byId :: byId[id] < |initial| && initial[byId[id]].id == id)
    && (forall i | 0 <= i < |initial| :: initial[i].id in byId && byId[initial[i].id] == i)
  }

  ghost predicate Adjacent(edges: seq<Edge>, children: map<Id, seq<Id>>) {
    && (forall e | e in edges :: e.from in children && e.to in children[e.from])
    && (forall from, to | from in children && to in children[from] :: Edge(from, to) in edges)
  }

  /** The lookup tables and the initial queue of setSBOMDepths. */
  method Tables(components: array<Component>, edges: seq<Edge>)
    returns (byId: map<Id, nat>, children: map<Id, seq<Id>>, queue: seq<Id>)
    requires DistinctIds(components[..])
    ensures Index(components[..], byId) && Adjacent(edges, children)
    ensures forall q :: q in queue <==> exists i | 0 <= i < components.Length :: components[i].id == q && components[i].isRoot
  {
    byId, children, queue := map[], map[], [];
    ghost var all := components[..];
    for i := 0 to components.Length
      invariant forall id | id in byId :: byId[id] < i && all[byId[id]].id == id
      invariant forall j | 0 <= j < i :: all[j].id in byId && byId[all[j].id] == j
      invariant forall q :: q in queue <==> exists j | 0 <= j < i :: all[j].id == q && all[j].isRoot
    {
      byId := byId[components[i].id := i];
      if components[i].isRoot {
        queue := queue + [components[i].id];
      }
    }
    for i := 0 to |edges|
      invariant Adjacent(edges[..i], children)
    {
      var e := edges[i];
      children := children[e.from := (if e.from in children then children[e.from] else []) + [e.to]];
      assert edges[..i + 1] == edges[..i] + [e];
    }
    assert edges[..|edges|] == edges;
  }

  // The whole state of the search between two turns of its outer loop.
  ghost predicate Searching(components: array<Component>, initial: seq<Component>, edges: seq<Edge>, labels: Labels, queue: seq<Id>)
    reads components
  {
    && Shows(components, initial, labels)
    && Sound(initial, edges, labels)
    && PassedOn(initial, edges, labels, queue)
    && Ordered(labels, queue)
  }

  ghost function Ids(components: seq<Component>): (ids: set<Id>)
    ensures forall id :: id in ids <==> Known(components, id)
  {
    set i | 0 <= i < |components| :: components[i].id
  }

  // The middle of a turn: the children of `current`, whose label is d, have been treated up to `done`.
  ghost predicate Turning(initial: seq<Component>, edges: seq<Edge>, labels: Labels, queue: seq<Id>, current: Id, d: nat, done: seq<Id>) {
    && Sound(initial, edges, labels)
    && current in labels && labels[current] == d
    && (forall id | id in labels :: labels[id] <= d + 1)
    && (forall q | q in queue :: q in labels && labels[q] >= d)
    && (forall x, y | 0 <= x < y < |queue| :: labels[queue[x]] <= labels[queue[y]])
    && (forall e | e in edges && e.from in labels && e.from !in queue && e.from != current ::
          StepDone(initial, labels, e.from, e.to))
    && (forall c | c in done :: StepDone(initial, labels, current, c))
  }

  lemma TurnBegins(initial: seq<Component>, edges: seq<Edge>, labels: Labels, queue: seq<Id>)
    requires queue != [] && Sound(initial, edges, labels) && PassedOn(initial, edges, labels, queue) && Ordered(labels, queue)
    ensures Turning(initial, edges, labels, queue[1..], queue[0], labels[queue[0]], [])
  {
    assert queue == [queue[0]] + queue[1..];
  }

  // A child without a label gets one more than the label of `current` and joins the queue.
  lemma ChildLabelled(initial: seq<Component>, edges: seq<Edge>, labels: Labels, queue: seq<Id>, current: Id, d: nat, done: seq<Id>, child: Id)
    requires Turning(initial, edges, labels, queue, current, d, done)
    requires Edge(current, child) in edges && Known(initial, child) && child !in labels
    ensures Turning(initial, edges, labels[child := d + 1], queue + [child], current, d, done + [child])
  {
    var labels', queue' := labels[child := d + 1], queue + [child];
    assert Walk(initial, edges, d + 1, child) by {
      assert Edge(current, child).from == current;
    }
    forall e | e in edges && e.from in labels' && e.from !in queue' && e.from != current
      ensures StepDone(initial, labels', e.from, e.to)
    {
      assert child in queue';
      assert e.from in labels && e.from !in queue;
      assert StepDone(initial, labels, e.from, e.to);
    }
    forall c | c in done
      ensures StepDone(initial, labels', current, c)
    {
      assert StepDone(initial, labels, current, c);
    }
  }

  lemma TurnEnds(initial: seq<Component>, edges: seq<Edge>, labels: Labels, queue: seq<Id>, current: Id, d: nat, done: seq<Id>)
    requires Turning(initial, edges, labels, queue, current, d, done)
    requires forall e | e in edges && e.from == current :: e.to in done
    ensures PassedOn(initial, edges, labels, queue) && Ordered(labels, queue)
  {
  }

  // Writing a label through the index.
  method WriteLabel(components: array<Component>, byId: map<Id, nat>, id: Id, depth: nat, ghost initial: seq<Component>, ghost labels: Labels)
    requires Shows(components, initial, labels) && Index(initial, byId) && id in byId
    modifies components
    ensures Shows(components, initial, labels[id := depth])
  {
    components[byId[id]] := components[byId[id]].(depth := Some(depth));
  }

  /** One child of the component whose turn it is. */
  method TreatChild(components: array<Component>, byId: map<Id, nat>, childId: Id, nextDepth: nat, queue: seq<Id>,
                    ghost initial: seq<Component>, ghost edges: seq<Edge>, ghost labels: Labels, ghost current: Id, ghost done: seq<Id>)
    returns (queue': seq<Id>, ghost labels': Labels)
    requires Index(initial, byId) && Shows(components, initial, labels) && nextDepth > 0
    requires Turning(initial, edges, labels, queue, current, nextDepth - 1, done)
    requires Edge(current, childId) in edges
    modifies components
    ensures Shows(components, initial, labels')
    ensures Turning(initial, edges, labels', queue', current, nextDepth - 1, done + [childId])
    ensures labels.Keys < labels'.Keys || (labels.Keys == labels'.Keys && queue' == queue)
  {
    queue', labels' := queue, labels;
    if childId in byId {
      var child := components[byId[childId]];
      assert child.id == childId && Known(initial, childId);
      if child.depth.None? || child.depth.value > nextDepth {
        ChildLabelled(initial, edges, labels, queue, current, nextDepth - 1, done, childId);
        WriteLabel(components, byId, childId, nextDepth, initial, labels);
        labels' := labels[childId := nextDepth];
        queue' := queue + [childId];
        assert childId in labels'.Keys - labels.Keys;
      }
    }
  }

  /**
   One turn: take the head of the queue and label its unlabelled children. Because the queue is in
   label order, a child that already has a label never needs a smaller one.
   */
  method Visit(components: array<Component>, edges: seq<Edge>, byId: map<Id, nat>, children: map<Id, seq<Id>>, queue: seq<Id>,
               ghost initial: seq<Component>, ghost labels: Labels)
    returns (queue': seq<Id>, ghost labels': Labels)
    requires queue != [] && Index(initial, byId) && Adjacent(edges, children)
    requires Searching(components, initial, edges, labels, queue)
    modifies components
    ensures Searching(components, initial, edges, labels', queue')
    ensures labels.Keys < labels'.Keys || (labels.Keys == labels'.Keys && |queue'| < |queue|)
  {
    var current := queue[0];
    queue', labels' := queue[1..], labels;
    assert current in labels;
    if current !in byId || components[byId[current]].depth.None? {
      assert false;
    }
    var nextDepth := components[byId[current]].depth.value + 1;
    var next := if current in children then children[current] else [];
    TurnBegins(initial, edges, labels, queue);
    for i := 0 to |next|
      invariant Shows(components, initial, labels')
      invariant Turning(initial, edges, labels', queue', current, nextDepth - 1, next[..i])
      invariant labels.Keys < labels'.Keys || (labels.Keys == labels'.Keys && |queue'| < |queue|)
    {
      assert Edge(current, next[i]) in edges;
      queue', labels' := TreatChild(components, byId, next[i], nextDepth, queue', initial, edges, labels', current, next[..i]);
      TakeOneMore(next, i);
    }
    assert next[..|next|] == next;
    TurnEnds(initial, edges, labels', queue', current, nextDepth - 1, next);
  }

  lemma SearchBegins(components: array<Component>, edges: seq<Edge>, queue: seq<Id>)
    requires Fresh(components[..])
    requires forall q :: q in queue <==> exists i | 0 <= i < components.Length :: components[i].id == q && components[i].isRoot
    ensures Searching(components, components[..], edges, map q | q in queue :: 0, queue)
  {
    var initial := components[..];
    forall i | 0 <= i < |initial| && initial[i].id in queue
      ensures initial[i].isRoot
    {
      var j :| 0 <= j < |initial| && initial[j].id == initial[i].id && initial[j].isRoot;
      assert i == j;
    }
  }

  ghost predicate DepthsSet(initial: seq<Component>, edges: seq<Edge>, final: seq<Component>) {
    && |final| == |initial|
    && forall i | 0 <= i < |initial| ::
         && final[i] == initial[i].(depth := final[i].depth)
         && IsDepth(initial, edges, initial[i].id, final[i].depth)
  }

  lemma SearchEnds(components: array<Component>, initial: seq<Component>, edges: seq<Edge>, labels: Labels)
    requires Searching(components, initial, edges, labels, [])
    ensures DepthsSet(initial, edges, components[..])
  {
    forall i | 0 <= i < |initial|
      ensures IsDepth(initial, edges, initial[i].id, components[i].depth)
    {
      LabelsAreDepths(initial, edges, labels, initial[i].id);
    }
  }

  /**
   setSBOMDepths: afterwards every depth is the length of a shortest dependency path from a root, and
   is absent exactly where there is none. Cycles and edges to unknown components are allowed.
   */
  method SetDepths(components: array<Component>, edges: seq<Edge>)
    requires Fresh(components[..])
    modifies components
    ensures DepthsSet(old(components[..]), edges, components[..])
  {
    ghost var initial := components[..];
    var byId, children, queue := Tables(components, edges);
    ghost var labels: Labels := map q | q in queue :: 0;
    SearchBegins(components, edges, queue);
    while |queue| > 0
      invariant Searching(components, initial, edges, labels, queue)
      decreases Ids(initial) - labels.Keys, |queue|
    {
      queue, labels := Visit(components, edges, byId, children, queue, initial, labels);
      assert labels.Keys <= Ids(initial);
    }
    SearchEnds(components, initial, edges, labels);
  }

  // ----- from the document to the graph -----

  datatype Dependency = Dependency(ref: string, dependsOn: seq<string>)

  // The parts of a CycloneDX document the graph is built from. The root is absent, or has a reference,
  // which may be empty.
  datatype Document = Document(root: Option<string>, items: seq<string>, dependencies: seq<Dependency>)

  function RootRef(doc: Document): string {
    if doc.root.Some? then doc.root.value else ""
  }

  // The references that name a component of the document.
  ghost predicate Listed(doc: Document, ref: string) {
    ref != "" && (doc.root == Some(ref) || ref in doc.items)
  }

  ghost predicate DependsOn(dependencies: seq<Dependency>, from: string, to: string) {
    exists d | d in dependencies :: d.ref == from && to in d.dependsOn
  }

  /** A chain of k recorded dependencies from the root reference to `ref`, through listed references. */
  ghost predicate Chain(doc: Document, k: nat, ref: string)
    decreases k
  {
    Listed(doc, ref) &&
    if k == 0 then doc.root == Some(ref)
    else exists from: string :: DependsOn(doc.dependencies, from, ref) && Chain(doc, k - 1, from)
  }

  ghost predicate IsDistance(doc: Document, ref: string, depth: Option<nat>) {
    match depth
    case None => forall k: nat :: !Chain(doc, k, ref)
    case Some(d) => Chain(doc, d, ref) && forall k: nat | k < d :: !Chain(doc, k, ref)
  }

  // References and identifiers correspond one to one; an identifier is a position.
  ghost predicate Names(refs: seq<string>, byRef: map<string, Id>) {
    && (forall i | 0 <= i < |refs| :: refs[i] in byRef && byRef[refs[i]] == i)
    && (forall ref | ref in byRef :: byRef[ref] < |refs| && refs[byRef[ref]] == ref)
  }

  function Refs(components: seq<Component>): (refs: seq<string>)
    ensures |refs| == |components| && forall i | 0 <= i < |refs| :: refs[i] == components[i].ref
  {
    seq(|components|, i requires 0 <= i < |components| => components[i].ref)
  }

  ghost predicate Lists(doc: Document, components: seq<Component>, byRef: map<string, Id>) {
    && Names(Refs(components), byRef)
    && forall i | 0 <= i < |components| ::
         components[i] == Component(i, components[i].ref, components[i].ref == RootRef(doc),
                                    if components[i].ref == RootRef(doc) then Some(0) else None)
  }

  // The edges are exactly the recorded dependencies between named references.
  ghost predicate Records(dependencies: seq<Dependency>, refs: seq<string>, edges: seq<Edge>) {
    && (forall e | e in edges ::
          e.from < |refs| && e.to < |refs| && DependsOn(dependencies, refs[e.from], refs[e.to]))
    && (forall i, j | 0 <= i < |refs| && 0 <= j < |refs| && DependsOn(dependencies, refs[i], refs[j]) :: Edge(i, j) in edges)
  }

  method BuildComponents(doc: Document) returns (components: seq<Component>, byRef: map<string, Id>)
    ensures Lists(doc, components, byRef)
    ensures forall ref :: ref in byRef <==> Listed(doc, ref)
  {
    components, byRef := [], map[];
    var rootRef := RootRef(doc);
    if rootRef != "" {
      components := [Component(0, rootRef, true, Some(0))];
      byRef := map[rootRef := 0];
    }
    for i := 0 to |doc.items|
      invariant Lists(doc, components, byRef)
      invariant forall ref :: ref in byRef <==> ref != "" && (ref == rootRef || ref in doc.items[..i])
    {
      var ref := doc.items[i];
      TakeOneMore(doc.items, i);
      if ref != "" && ref !in byRef {
        byRef := byRef[ref := |components|];
        components := components + [Component(|components|, ref, false, None)];
      }
    }
    assert doc.items[..|doc.items|] == doc.items;
  }

  // What the graph misses: the source or a target of a dependency that is not listed.
  datatype Warning = SourceAbsent(ref: string) | TargetAbsent(ref: string)

  /** The dependency records give reason for the warning. */
  ghost predicate Warns(dependencies: seq<Dependency>, byRef: map<string, Id>, w: Warning) {
    && w.ref !in byRef
    && match w
       case SourceAbsent(ref) => exists d :: d in dependencies && d.ref == ref
       case TargetAbsent(ref) => exists d :: d in dependencies && d.ref in byRef && ref in d.dependsOn
  }

  // A single record gives reason for it.
  ghost predicate WarnsFor(d: Dependency, byRef: map<string, Id>, w: Warning) {
    || (d.ref !in byRef && w == SourceAbsent(d.ref))
    || (d.ref in byRef && w.TargetAbsent? && w.ref in d.dependsOn && w.ref !in byRef)
  }

  ghost predicate WarningsOf(dependencies: seq<Dependency>, byRef: map<string, Id>, warnings: seq<Warning>) {
    forall w :: w in warnings <==> Warns(dependencies, byRef, w)
  }

  lemma WarnsOneMore(dependencies: seq<Dependency>, i: nat, byRef: map<string, Id>, before: seq<Warning>, after: seq<Warning>)
    requires i < |dependencies| && WarningsOf(dependencies[..i], byRef, before)
    requires var d := dependencies[i];
             forall w :: w in after <==> w in before || WarnsFor(d, byRef, w)
    ensures WarningsOf(dependencies[..i + 1], byRef, after)
  {
    TakeOneMore(dependencies, i);
    var some, more, d := dependencies[..i], dependencies[..i + 1], dependencies[i];
    forall w
      ensures Warns(more, byRef, w) <==> Warns(some, byRef, w) || WarnsFor(d, byRef, w)
    {
      assert forall x :: x in more <==> x in some || x == d;
    }
  }

  // No warning is the same as nothing missing.
  lemma SilentIffComplete(dependencies: seq<Dependency>, byRef: map<string, Id>, warnings: seq<Warning>)
    requires WarningsOf(dependencies, byRef, warnings)
    ensures warnings == [] <==> AllComplete(dependencies, byRef)
  {
    if warnings != [] {
      assert warnings[0] in warnings && Warns(dependencies, byRef, warnings[0]);
      var d :| d in dependencies && (d.ref == warnings[0].ref || warnings[0].ref in d.dependsOn) && !Complete(d, byRef);
      var i :| 0 <= i < |dependencies| && dependencies[i] == d;
    }
    if i :| 0 <= i < |dependencies| && !Complete(dependencies[i], byRef) {
      var d := dependencies[i];
      if d.ref !in byRef {
        assert Warns(dependencies, byRef, SourceAbsent(d.ref));
      } else {
        var to :| to in d.dependsOn && to !in byRef;
        assert Warns(dependencies, byRef, TargetAbsent(to));
      }
    }
  }

  // A place in the dependency records: the target at a position of a record.
  datatype Place = Place(record: nat, target: nat)

  predicate Before(o: Place, i: nat, j: nat) { o.record < i || (o.record == i && o.target < j) }

  predicate IsPlace(dependencies: seq<Dependency>, o: Place) {
    o.record < |dependencies| && o.target < |dependencies[o.record].dependsOn|
  }

  ghost predicate Links(dependencies: seq<Dependency>, refs: seq<string>, e: Edge, o: Place) {
    && IsPlace(dependencies, o) && e.from < |refs| && e.to < |refs|
    && refs[e.from] == dependencies[o.record].ref && refs[e.to] == dependencies[o.record].dependsOn[o.target]
  }

  ghost predicate BothListed(dependencies: seq<Dependency>, refs: seq<string>, o: Place)
    requires IsPlace(dependencies, o)
  {
    dependencies[o.record].ref in refs && dependencies[o.record].dependsOn[o.target] in refs
  }

  /** The edges, in order, stand for exactly the places before (i, j) whose two references are listed. */
  ghost predicate StandFor(dependencies: seq<Dependency>, refs: seq<string>, edges: seq<Edge>, places: seq<Place>, i: nat, j: nat) {
    && |places| == |edges|
    && (forall k | 0 <= k < |edges| :: Links(dependencies, refs, edges[k], places[k]) && Before(places[k], i, j))
    && (forall k, l | 0 <= k < l < |places| :: Before(places[k], places[l].record, places[l].target))
    && (forall o | IsPlace(dependencies, o) && Before(o, i, j) && BothListed(dependencies, refs, o) :: o in places)
  }

  lemma NextTarget(dependencies: seq<Dependency>, refs: seq<string>, edges: seq<Edge>, places: seq<Place>, i: nat, j: nat)
    requires StandFor(dependencies, refs, edges, places, i, j) && IsPlace(dependencies, Place(i, j))
    ensures !BothListed(dependencies, refs, Place(i, j)) ==> StandFor(dependencies, refs, edges, places, i, j + 1)
  {
  }

  lemma NextEdge(dependencies: seq<Dependency>, refs: seq<string>, edges: seq<Edge>, places: seq<Place>, i: nat, j: nat, e: Edge)
    requires StandFor(dependencies, refs, edges, places, i, j) && Links(dependencies, refs, e, Place(i, j))
    ensures StandFor(dependencies, refs, edges + [e], places + [Place(i, j)], i, j + 1)
  {
    var more := places + [Place(i, j)];
    forall o | IsPlace(dependencies, o) && Before(o, i, j + 1) && BothListed(dependencies, refs, o)
      ensures o in more
    {
      if o == Place(i, j) { assert more[|places|] == o; } else { assert Before(o, i, j); }
    }
  }

  lemma NextRecord(dependencies: seq<Dependency>, refs: seq<string>, edges: seq<Edge>, places: seq<Place>, i: nat, j: nat)
    requires StandFor(dependencies, refs, edges, places, i, j) && i < |dependencies|
    requires j == |dependencies[i].dependsOn| || (j == 0 && dependencies[i].ref !in refs)
    ensures StandFor(dependencies, refs, edges, places, i + 1, 0)
  {
  }

  // Whether a dependency record names only components of the document.
  predicate Complete(d: Dependency, byRef: map<string, Id>) {
    d.ref in byRef && forall to | to in d.dependsOn :: to in byRef
  }

  predicate AllComplete(dependencies: seq<Dependency>, byRef: map<string, Id>) {
    forall i | 0 <= i < |dependencies| :: Complete(dependencies[i], byRef)
  }

  method AddTargets(d: Dependency, byRef: map<string, Id>, edges: seq<Edge>, warnings: seq<Warning>,
                    ghost dependencies: seq<Dependency>, ghost refs: seq<string>, ghost places: seq<Place>, ghost r: nat)
    returns (edges': seq<Edge>, warnings': seq<Warning>, ghost places': seq<Place>)
    requires d.ref in byRef && Names(refs, byRef) && r < |dependencies| && dependencies[r] == d
    requires StandFor(dependencies, refs, edges, places, r, 0)
    ensures StandFor(dependencies, refs, edges', places', r + 1, 0)
    ensures forall e :: e in edges' <==> e in edges || exists to | to in d.dependsOn && to in byRef :: e == Edge(byRef[d.ref], byRef[to])
    ensures forall w :: w in warnings' <==> w in warnings || (w.TargetAbsent? && w.ref in d.dependsOn && w.ref !in byRef)
  {
    edges', warnings', places' := edges, warnings, places;
    for i := 0 to |d.dependsOn|
      invariant StandFor(dependencies, refs, edges', places', r, i)
      invariant forall e :: e in edges' <==>
                  e in edges || exists to | to in d.dependsOn[..i] && to in byRef :: e == Edge(byRef[d.ref], byRef[to])
      invariant forall w :: w in warnings' <==> w in warnings || (w.TargetAbsent? && w.ref in d.dependsOn[..i] && w.ref !in byRef)
    {
      var to := d.dependsOn[i];
      TakeOneMore(d.dependsOn, i);
      NextTarget(dependencies, refs, edges', places', r, i);
      if to !in byRef {
        warnings' := warnings' + [TargetAbsent(to)];
      } else {
        NextEdge(dependencies, refs, edges', places', r, i, Edge(byRef[d.ref], byRef[to]));
        edges' := edges' + [Edge(byRef[d.ref], byRef[to])];
        places' := places' + [Place(r, i)];
      }
    }
    NextRecord(dependencies, refs, edges', places', r, |d.dependsOn|);
    assert d.dependsOn[..|d.dependsOn|] == d.dependsOn;
  }

  method BuildEdges(dependencies: seq<Dependency>, byRef: map<string, Id>, ghost refs: seq<string>)
    returns (edges: seq<Edge>, warnings: seq<Warning>, ghost places: seq<Place>)
    requires Names(refs, byRef)
    ensures StandFor(dependencies, refs, edges, places, |dependencies|, 0)
    ensures Records(dependencies, refs, edges)
    ensures WarningsOf(dependencies, byRef, warnings)
  {
    edges, warnings, places := [], [], [];
    for i := 0 to |dependencies|
      invariant StandFor(dependencies, refs, edges, places, i, 0)
      invariant Records(dependencies[..i], refs, edges)
      invariant WarningsOf(dependencies[..i], byRef, warnings)
    {
      var d := dependencies[i];
      ghost var before, warned := edges, warnings;
      if d.ref !in byRef {
        warnings := warnings + [SourceAbsent(d.ref)];
        NextRecord(dependencies, refs, edges, places, i, 0);
      } else {
        edges, warnings, places := AddTargets(d, byRef, edges, warnings, dependencies, refs, places, i);
      }
      RecordsOneMore(dependencies, i, byRef, refs, before, edges);
      WarnsOneMore(dependencies, i, byRef, warned, warnings);
    }
    assert dependencies[..|dependencies|] == dependencies;
  }

  lemma DependsOnOneMore(dependencies: seq<Dependency>, i: nat, from: string, to: string)
    requires i < |dependencies|
    ensures DependsOn(dependencies[..i + 1], from, to) <==>
            DependsOn(dependencies[..i], from, to) || (from == dependencies[i].ref && to in dependencies[i].dependsOn)
  {
    TakeOneMore(dependencies, i);
    if d :| d in dependencies[..i] && d.ref == from && to in d.dependsOn {
      assert d in dependencies[..i + 1];
    }
    if from == dependencies[i].ref && to in dependencies[i].dependsOn {
      assert dependencies[i] in dependencies[..i + 1];
    }
  }

  lemma RecordsOneMore(dependencies: seq<Dependency>, i: nat, byRef: map<string, Id>, refs: seq<string>, before: seq<Edge>, after: seq<Edge>)
    requires i < |dependencies| && Names(refs, byRef) && Records(dependencies[..i], refs, before)
    requires var d := dependencies[i];
             if d.ref !in byRef then after == before
             else forall e :: e in after <==> e in before || exists to | to in d.dependsOn && to in byRef :: e == Edge(byRef[d.ref], byRef[to])
    ensures Records(dependencies[..i + 1], refs, after)
    ensures AllComplete(dependencies[..i + 1], byRef) <==> AllComplete(dependencies[..i], byRef) && Complete(dependencies[i], byRef)
  {
    var d, some, more := dependencies[i], dependencies[..i], dependencies[..i + 1];
    assert more[i] == d && forall j | 0 <= j < i :: more[j] == some[j];
    forall e | e in after
      ensures e.from < |refs| && e.to < |refs| && DependsOn(more, refs[e.from], refs[e.to])
    {
      DependsOnOneMore(dependencies, i, refs[e.from], refs[e.to]);
    }
    forall f, t | 0 <= f < |refs| && 0 <= t < |refs| && DependsOn(more, refs[f], refs[t])
      ensures Edge(f, t) in after
    {
      DependsOnOneMore(dependencies, i, refs[f], refs[t]);
    }
  }

  // The component list and the edge list belong to the document.
  ghost predicate Built(doc: Document, components: seq<Component>, byRef: map<string, Id>, edges: seq<Edge>) {
    && Lists(doc, components, byRef)
    && Records(doc.dependencies, Refs(components), edges)
    && forall r :: r in byRef <==> Listed(doc, r)
  }

  // What a walk is made of comes from the document.
  ghost predicate Traced(doc: Document, components: seq<Component>, edges: seq<Edge>) {
    && (forall i | 0 <= i < |components| ::
          && components[i].id == i && Listed(doc, components[i].ref)
          && (components[i].isRoot ==> components[i].ref == RootRef(doc)))
    && (forall e | e in edges ::
          e.from < |components| && e.to < |components| && DependsOn(doc.dependencies, components[e.from].ref, components[e.to].ref))
  }

  lemma BuiltIsTraced(doc: Document, components: seq<Component>, byRef: map<string, Id>, edges: seq<Edge>)
    requires Built(doc, components, byRef, edges)
    ensures Traced(doc, components, edges)
  {
    var refs := Refs(components);
    forall i | 0 <= i < |components|
      ensures Listed(doc, components[i].ref)
    {
      assert refs[i] in byRef;
    }
    forall e | e in edges
      ensures e.from < |components| && e.to < |components| && DependsOn(doc.dependencies, components[e.from].ref, components[e.to].ref)
    {
      assert DependsOn(doc.dependencies, refs[e.from], refs[e.to]);
    }
  }

  lemma {:induction false} WalksAreChains(doc: Document, components: seq<Component>, edges: seq<Edge>, k: nat, i: nat)
    requires Traced(doc, components, edges) && i < |components| && Walk(components, edges, k, i)
    ensures Chain(doc, k, components[i].ref)
    decreases k
  {
    if k > 0 {
      var e :| e in edges && e.to == i && Walk(components, edges, k - 1, e.from);
      WalksAreChains(doc, components, edges, k - 1, e.from);
    }
  }

  lemma {:induction false} ChainsAreWalks(doc: Document, components: seq<Component>, byRef: map<string, Id>, edges: seq<Edge>, k: nat, ref: string)
    requires Built(doc, components, byRef, edges) && Chain(doc, k, ref)
    ensures Walk(components, edges, k, byRef[ref])
    decreases k
  {
    var i := byRef[ref];
    assert components[i].id == i && components[i].ref == ref;
    if k > 0 {
      var from :| DependsOn(doc.dependencies, from, ref) && Chain(doc, k - 1, from);
      ChainsAreWalks(doc, components, byRef, edges, k - 1, from);
      var e := Edge(byRef[from], i);
      assert components[e.from].ref == from;
      assert e in edges && e.to == i && Walk(components, edges, k - 1, e.from);
    }
  }

  lemma DepthIsDistance(doc: Document, components: seq<Component>, byRef: map<string, Id>, edges: seq<Edge>, i: nat, depth: Option<nat>)
    requires Built(doc, components, byRef, edges) && i < |components| && IsDepth(components, edges, i, depth)
    ensures IsDistance(doc, components[i].ref, depth)
  {
    BuiltIsTraced(doc, components, byRef, edges);
    assert byRef[components[i].ref] == i by { assert byRef[Refs(components)[i]] == i; }
    forall k: nat
      ensures Walk(components, edges, k, i) <==> Chain(doc, k, components[i].ref)
    {
      if Walk(components, edges, k, i) { WalksAreChains(doc, components, edges, k, i); }
      if Chain(doc, k, components[i].ref) { ChainsAreWalks(doc, components, byRef, edges, k, components[i].ref); }
    }
  }

  // A reference that is not listed, as the source of a record, or as a target of a record whose source is.
  ghost predicate IsMissing(doc: Document, w: Warning) {
    && !Listed(doc, w.ref)
    && if w.SourceAbsent? then exists d :: d in doc.dependencies && d.ref == w.ref
       else exists d :: d in doc.dependencies && Listed(doc, d.ref) && w.ref in d.dependsOn
  }

  /**
   The graph part of PersistSBOMDocument, from the document to the stored depths: one component per
   listed reference, with the root at most once, and as its depth the length of the shortest recorded
   dependency chain from the root. The graph counts as complete exactly when there is a root, there
   are dependency records, and every reference in them is listed.
   */
  method PersistGraph(doc: Document)
    returns (components: array<Component>, edges: seq<Edge>, warnings: seq<Warning>, graphComplete: bool, ghost places: seq<Place>)
    ensures forall ref :: Listed(doc, ref) <==> exists i | 0 <= i < components.Length :: components[i].ref == ref
    ensures forall i, j | 0 <= i < j < components.Length :: components[i].ref != components[j].ref
    ensures forall i | 0 <= i < components.Length ::
              && components[i].id == i && (components[i].isRoot <==> doc.root == Some(components[i].ref))
              && IsDistance(doc, components[i].ref, components[i].depth)
    ensures Records(doc.dependencies, Refs(components[..]), edges)
    ensures StandFor(doc.dependencies, Refs(components[..]), edges, places, |doc.dependencies|, 0)
    ensures forall w :: w in warnings <==> IsMissing(doc, w)
    ensures graphComplete <==>
              && doc.root.Some? && doc.root.value != "" && |doc.dependencies| > 0
              && forall d | d in doc.dependencies :: Listed(doc, d.ref) && forall to | to in d.dependsOn :: Listed(doc, to)
    ensures fresh(components)
  {
    var listed, byRef := BuildComponents(doc);
    edges, warnings, places := BuildEdges(doc.dependencies, byRef, Refs(listed));
    SilentIffComplete(doc.dependencies, byRef, warnings);
    forall w
      ensures w in warnings <==> IsMissing(doc, w)
    {
      assert w in warnings <==> Warns(doc.dependencies, byRef, w);
    }
    components := new Component[|listed|](i requires 0 <= i < |listed| => listed[i]);
    assert components[..] == listed;
    SetDepths(components, edges);
    graphComplete := RootRef(doc) != "" && |doc.dependencies| > 0 && warnings == [];
    forall i | 0 <= i < components.Length
      ensures components[i] == listed[i].(depth := components[i].depth)
      ensures IsDistance(doc, components[i].ref, components[i].depth)
    {
      assert components[i] == components[..][i];
      DepthIsDistance(doc, listed, byRef, edges, i, components[i].depth);
    }
    assert Refs(components[..]) == Refs(listed);
  }
}
