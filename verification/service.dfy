// The accessibility requests over the in-memory backend: snapshot, normalize, then either
// project the tree or search it, with ids from the registry; and invoking an element by id.

module Service {
  import opened Core
  import opened Trees
  import opened Snapshot
  import opened Accessibility
  import opened ElementIds
  import Geometry

  /** A node as a client sees it. */
  datatype Wire = Wire(
    id: nat, role: string, name: string, description: Option<string>, value: Option<string>, states: seq<State>,
    bounds: Option<Geometry.Rect>, actions: seq<string>)

  datatype TreeOptions = TreeOptions(
    maxDepth: nat, maxNodes: nat, includeStates: bool, includeBounds: bool, includeActions: bool)

  datatype Error = Unavailable | InvalidRequest | UnknownNode(id: nat)

  const FIND_MAX_DEPTH: nat := 16
  const FIND_MAX_NODES: nat := 5000

  // ----- roles of a whole tree -----

  function NormalSource(s: Source): Source { s.(role := NormalRole(s.role)) }

  function NormalTree(t: SourceNode): SourceNode
    decreases t, 1
  {
    Tree(NormalSource(t.data), NormalTrees(t.children))
  }

  function NormalTrees(ts: seq<SourceNode>): (r: seq<SourceNode>)
    ensures |r| == |ts|
    decreases ts, 0
  {
    if ts == [] then [] else [NormalTree(ts[0])] + NormalTrees(ts[1..])
  }

  method NormalizeNode(node: SourceNode) returns (out: SourceNode)
    ensures out == NormalTree(node)
    decreases node
  {
    var role := NormalizeRole(node.data.role);
    var children: seq<SourceNode> := [];
    for i := 0 to |node.children|
      invariant children + NormalTrees(node.children[i..]) == NormalTrees(node.children)
    {
      var child := NormalizeNode(node.children[i]);
      assert node.children[i..][1..] == node.children[i + 1..];
      children := children + [child];
    }
    assert children + [] == children;
    out := Tree(node.data.(role := role), children);
  }

  function NormalEntries(list: seq<Entry<Source>>): seq<Entry<Source>> {
    seq(|list|, i requires 0 <= i < |list| => Entry(list[i].depth, NormalSource(list[i].data)))
  }

  /** Normalizing rewrites roles and nothing else: same shape, same order. */
  lemma {:induction false} FlatOfNormal(ts: seq<SourceNode>, depth: nat)
    ensures FlatAll(NormalTrees(ts), depth) == NormalEntries(FlatAll(ts, depth))
    decreases ts
  {
    if ts != [] {
      var t := ts[0];
      FlatOfNormal(t.children, depth + 1);
      FlatOfNormal(ts[1..], depth);
      assert NormalTrees(ts)[1..] == NormalTrees(ts[1..]);
      assert Flat(NormalTree(t), depth) == NormalEntries(Flat(t, depth));
    }
  }

  lemma FlatOfNormalRoot(t: SourceNode)
    ensures Flat(NormalTree(t), 0) == NormalEntries(Flat(t, 0))
  {
    FlatOfNormal([t], 0);
    FlatOfOne(t, 0);
    FlatOfOne(NormalTree(t), 0);
    assert NormalTrees([t]) == [NormalTree(t)] by { assert [t][1..] == []; }
  }

  // ----- projection -----

  function Project(s: Source, id: nat, o: TreeOptions): Wire {
    Wire(id, s.role, s.name, s.description, s.value,
         if o.includeStates then s.states else [],
         if o.includeBounds then s.bounds else None,
         if o.includeActions then s.actions else [])
  }

  function Handles(list: seq<Entry<Source>>): seq<string> {
    seq(|list|, i requires 0 <= i < |list| => list[i].data.handle)
  }

  function Projected(list: seq<Entry<Source>>, ids: seq<nat>, o: TreeOptions): seq<Entry<Wire>>
    requires |ids| == |list|
  {
    seq(|list|, i requires 0 <= i < |list| => Entry(list[i].depth, Project(list[i].data, ids[i], o)))
  }

  lemma ProjectedAppend(a: seq<Entry<Source>>, b: seq<Entry<Source>>, ia: seq<nat>, ib: seq<nat>, o: TreeOptions)
    requires |ia| == |a| && |ib| == |b|
    ensures Projected(a + b, ia + ib, o) == Projected(a, ia, o) + Projected(b, ib, o)
    ensures Handles(a + b) == Handles(a) + Handles(b)
  {
  }

  /** What a projection of `list` leaves behind: the new registry, and the listing of the result. */
  ghost predicate ProjectsTo(before: Reg, list: seq<Entry<Source>>, o: TreeOptions, after: Reg, out: seq<Entry<Wire>>) {
    var (r, ids) := AssignedAll(before, Handles(list));
    after == r && out == Projected(list, ids, o)
  }

  lemma ProjectsToAppend(r0: Reg, a: seq<Entry<Source>>, r1: Reg, b: seq<Entry<Source>>, r2: Reg, o: TreeOptions,
                         oa: seq<Entry<Wire>>, ob: seq<Entry<Wire>>)
    requires ProjectsTo(r0, a, o, r1, oa) && ProjectsTo(r1, b, o, r2, ob)
    ensures ProjectsTo(r0, a + b, o, r2, oa + ob)
  {
    AssignedAllAppend(r0, Handles(a), Handles(b));
    ProjectedAppend(a, b, AssignedAll(r0, Handles(a)).1, AssignedAll(r1, Handles(b)).1, o);
  }

  lemma ProjectsToOne(r: Reg, e: Entry<Source>, o: TreeOptions)
    ensures ProjectsTo(r, [e], o, Assigned(r, e.data.handle).0,
                       [Entry(e.depth, Project(e.data, Assigned(r, e.data.handle).1, o))])
  {
    assert Handles([e]) == [e.data.handle];
    assert [e.data.handle][1..] == [];
  }

  method ProjectNode(node: SourceNode, o: TreeOptions, registry: Registry, count: nat, ghost depth: nat)
    returns (out: Tree<Wire>, count': nat)
    modifies registry
    ensures ProjectsTo(old(registry.View()), Flat(node, depth), o, registry.View(), Flat(out, depth))
    ensures count' == count + |Flat(node, depth)|
    decreases node
  {
    count' := count + 1;
    ghost var r0 := registry.View();
    var id := registry.Assign(node.data.handle);
    var data := Project(node.data, id, o);
    ghost var self := [Entry(depth, node.data)];
    ProjectsToOne(r0, self[0], o);
    hide ProjectsTo, Project, Assigned, AssignedAll, Handles, Projected;
    var children: seq<Tree<Wire>> := [];
    assert self + FlatAll<Source>([], depth + 1) == self;
    assert [Entry(depth, data)] + FlatAll<Wire>([], depth + 1) == [Entry(depth, data)];
    for i := 0 to |node.children|
      invariant ProjectsTo(r0, self + FlatAll(node.children[..i], depth + 1), o, registry.View(),
                           [Entry(depth, data)] + FlatAll(children, depth + 1))
      invariant count' == count + 1 + |FlatAll(node.children[..i], depth + 1)|
    {
      ghost var elder, r1 := node.children[..i], registry.View();
      assert node.children[..i + 1] == elder + [node.children[i]];
      var child;
      child, count' := ProjectNode(node.children[i], o, registry, count', depth + 1);
      ProjectsToAppend(r0, self + FlatAll(elder, depth + 1), r1, Flat(node.children[i], depth + 1), registry.View(), o,
                       [Entry(depth, data)] + FlatAll(children, depth + 1), Flat(child, depth + 1));
      GrowListing(self, elder, node.children[i], depth + 1);
      GrowListing([Entry(depth, data)], children, child, depth + 1);
      children := children + [child];
    }
    assert node.children[..|node.children|] == node.children;
    out := Tree(data, children);
  }

  lemma GrowListing<T>(head: seq<Entry<T>>, ts: seq<Tree<T>>, t: Tree<T>, depth: nat)
    ensures (head + FlatAll(ts, depth)) + Flat(t, depth) == head + FlatAll(ts + [t], depth)
  {
    FlatAllAppend(ts, [t], depth);
    FlatOfOne(t, depth);
  }

  // ----- elements by handle -----

  function FindNode(node: SourceNode, handle: string): Option<Source>
    decreases node, 1
  {
    if node.data.handle == handle then Some(node.data) else FindIn(node.children, handle)
  }

  function FindIn(nodes: seq<SourceNode>, handle: string): Option<Source>
    decreases nodes, 0
  {
    if nodes == [] then None
    else if FindNode(nodes[0], handle).Some? then FindNode(nodes[0], handle)
    else FindIn(nodes[1..], handle)
  }

  /** First in pre-order. */
  function FirstWith(list: seq<Entry<Source>>, handle: string): (r: Option<Source>)
    ensures r.Some? ==> exists i :: 0 <= i < |list| && list[i].data == r.value && r.value.handle == handle
                                    && forall j :: 0 <= j < i ==> list[j].data.handle != handle
    ensures r.None? ==> forall i :: 0 <= i < |list| ==> list[i].data.handle != handle
  {
    if list == [] then None
    else if list[0].data.handle == handle then Some(list[0].data)
    else FirstWith(list[1..], handle)
  }

  lemma {:induction false} FirstWithAppend(a: seq<Entry<Source>>, b: seq<Entry<Source>>, handle: string)
    ensures FirstWith(a + b, handle) ==
            if FirstWith(a, handle).Some? then FirstWith(a, handle) else FirstWith(b, handle)
  {
    if a == [] {
      assert a + b == b;
    } else {
      assert (a + b)[1..] == a[1..] + b;
      FirstWithAppend(a[1..], b, handle);
    }
  }

  lemma {:induction false} FindInIsFirst(nodes: seq<SourceNode>, handle: string, depth: nat)
    ensures FindIn(nodes, handle) == FirstWith(FlatAll(nodes, depth), handle)
    decreases nodes
  {
    if nodes != [] {
      var t := nodes[0];
      FindInIsFirst(t.children, handle, depth + 1);
      FindInIsFirst(nodes[1..], handle, depth);
      assert Flat(t, depth)[1..] == FlatAll(t.children, depth + 1);
      FirstWithAppend(Flat(t, depth), FlatAll(nodes[1..], depth), handle);
    }
  }

  datatype Outcome = Invoked(action: string) | NoSuchAction | Gone

  function InvokeOn(root: SourceNode, handle: string, action: Option<string>): Outcome {
    match FindNode(root, handle)
    case None => Gone
    case Some(element) =>
      match action
      case Some(a) => if a in element.actions then Invoked(a) else NoSuchAction
      case None => if element.actions == [] then NoSuchAction else Invoked(element.actions[0])
  }

  /** The first element with the handle decides, and without a named action its first one is meant. */
  lemma InvokeExact(root: SourceNode, handle: string, action: Option<string>)
    ensures var found := FirstWith(Flat(root, 0), handle);
            var r := InvokeOn(root, handle, action);
            && (found.None? ==> r == Gone)
            && (found.Some? && action.Some? ==>
                  r == if action.value in found.value.actions then Invoked(action.value) else NoSuchAction)
            && (found.Some? && action.None? ==>
                  r == if found.value.actions != [] then Invoked(found.value.actions[0]) else NoSuchAction)
  {
    FindInIsFirst([root], handle, 0);
    FlatOfOne(root, 0);
    var one := [root];
    assert one[1..] == [] && FindIn([root], handle) == FindNode(root, handle);
    hide FindNode, FindIn, FirstWith, Flat;
  }

  function Answered(o: Outcome, id: nat): Result<string, Error> {
    match o
    case Invoked(a) => Ok(a)
    case NoSuchAction => Err(InvalidRequest)
    case Gone => Err(UnknownNode(id))
  }

  datatype TreeAnswer = TreeAnswer(root: Tree<Wire>, nodeCount: nat, truncated: bool)

  datatype Match = Match(id: nat, role: string, name: string, value: Option<string>, states: seq<State>,
                         bounds: Option<Geometry.Rect>, actions: seq<string>, path: seq<string>)

  function ToMatch(h: Hit, id: nat): Match {
    var s := h.node.data;
    Match(id, s.role, s.name, s.value, s.states, s.bounds, s.actions, h.path)
  }

  function HitHandles(hits: seq<Hit>): seq<string> {
    seq(|hits|, i requires 0 <= i < |hits| => hits[i].node.data.handle)
  }

  function ToMatches(hits: seq<Hit>, ids: seq<nat>): seq<Match>
    requires |ids| == |hits|
  {
    seq(|hits|, i requires 0 <= i < |hits| => ToMatch(hits[i], ids[i]))
  }

  /** The tree a search runs on: sixteen levels below the root, five thousand nodes. */
  ghost predicate SearchSnapshot(root: SourceNode, kept: SourceNode) {
    Flat(kept, 0) == Take(AtMost(Flat(root, 0), 16), 5000)
  }

  /** `matches` reports `hits`, each under the id its handle gets, in order. */
  ghost predicate Answers(hits: seq<Hit>, before: Reg, after: Reg, matches: seq<Match>) {
    var (r, ids) := AssignedAll(before, HitHandles(hits));
    after == r && matches == ToMatches(hits, ids)
  }

  class AccessibilityService {
    const root: SourceNode
    const available: bool
    const cutShort: bool
    const registry: Registry
    /** The handles of everything answered so far, in the order ids were asked for. */
    ghost var sightings: seq<string>

    /** The registry is the outcome of the whole run of requests. */
    ghost predicate Valid()
      reads this, registry
    {
      registry.View() == AssignedAll(Empty(registry.cap), sightings).0
    }

    constructor (root: SourceNode, available: bool, cutShort: bool, cap: nat)
      ensures this.root == root && this.available == available && this.cutShort == cutShort
      ensures fresh(registry) && registry.View() == Empty(cap)
      ensures Valid() && sightings == []
    {
      this.root, this.available, this.cutShort := root, available, cutShort;
      this.registry := new Registry(cap);
      sightings := [];
    }

    method TakeSnapshot(maxDepth: nat, maxNodes: nat) returns (r: Result<(SourceNode, bool), Error>)
      ensures !available ==> r == Err(Unavailable)
      ensures available ==> r.Ok?
      ensures r.Ok? ==> Flat(r.value.0, 0) == Take(AtMost(Flat(root, 0), maxDepth), Max(1, maxNodes))
      ensures r.Ok? ==> (r.value.1 <==> cutShort || Size(r.value.0) < Size(root))
      ensures r.Ok? && !r.value.1 ==> r.value.0 == root
    {
      if !available {
        return Err(Unavailable);
      }
      var kept, trimmed := Trim(root, maxDepth, maxNodes);
      return Ok((kept, cutShort || trimmed));
    }

    /** The bounded tree: the kept nodes in order, normalized, each with its stable id. */
    method TreeRequest(o: TreeOptions) returns (r: Result<TreeAnswer, Error>)
      requires Valid()
      modifies registry, `sightings
      ensures Valid()
      ensures sightings == old(sightings) + if r.Err? then [] else
                Handles(NormalEntries(Take(AtMost(Flat(root, 0), o.maxDepth), Max(1, o.maxNodes))))
      ensures !available ==> r == Err(Unavailable) && registry.View() == old(registry.View())
      ensures available ==> r.Ok?
      ensures r.Ok? ==>
                ProjectsTo(old(registry.View()),
                           NormalEntries(Take(AtMost(Flat(root, 0), o.maxDepth), Max(1, o.maxNodes))),
                           o, registry.View(), Flat(r.value.root, 0))
      ensures r.Ok? ==> r.value.nodeCount == Size(r.value.root)
      ensures r.Ok? ==> (r.value.truncated <==> cutShort || Size(r.value.root) < Size(root))
    {
      var snapshot := TakeSnapshot(o.maxDepth, o.maxNodes);
      if snapshot.Err? {
        return Err(snapshot.error);
      }
      var node := NormalizeNode(snapshot.value.0);
      FlatOfNormalRoot(snapshot.value.0);
      var out, count := ProjectNode(node, o, registry, 0, 0);
      ghost var seen := Handles(Flat(node, 0));
      AssignedAllAppend(Empty(registry.cap), sightings, seen);
      sightings := sightings + seen;
      return Ok(TreeAnswer(out, count, snapshot.value.1));
    }

    /** The first `maxResults` matches of the snapshot; all matches of the whole tree when not truncated. */
    method FindRequest(q: Query, maxResults: nat, fold: Folding) returns (r: Result<(seq<Match>, bool), Error>)
      requires Valid()
      modifies registry, `sightings
      ensures Valid()
      ensures r.Err? ==> sightings == old(sightings)
      ensures maxResults == 0 ==> r == Err(InvalidRequest)
      ensures maxResults > 0 && !available ==> r == Err(Unavailable)
      ensures r.Err? ==> registry.View() == old(registry.View())
      ensures maxResults > 0 && available ==> r.Ok?
      ensures r.Ok? ==>
                exists kept :: SearchSnapshot(root, kept)
                  && Answers(Take(Hits(NormalTree(kept), [], q, fold), maxResults),
                             old(registry.View()), registry.View(), r.value.0)
                  && sightings == old(sightings) + HitHandles(Take(Hits(NormalTree(kept), [], q, fold), maxResults))
                  && (r.value.1 <==>
                        |Hits(NormalTree(kept), [], q, fold)| > maxResults || cutShort || Size(kept) < Size(root))
      ensures r.Ok? && !r.value.1 ==>
                Answers(Hits(NormalTree(root), [], q, fold), old(registry.View()), registry.View(), r.value.0)
      ensures r.Ok? ==> forall m :: m in r.value.0 ==> Meets(q, m.role, m.name, m.value, fold)
      ensures r.Ok? && !r.value.1 ==>
                forall i :: 0 <= i < |Flat(root, 0)| ==>
                  var s := Flat(root, 0)[i].data;
                  Meets(q, NormalRole(s.role), s.name, s.value, fold) ==>
                    exists m :: m in r.value.0 && m.role == NormalRole(s.role) && m.name == s.name && m.value == s.value
                      && m.states == s.states && m.bounds == s.bounds && m.actions == s.actions
      ensures r.Ok? && !r.value.1 && q == Query(None, None, None, None) ==> |r.value.0| == Size(root)
    {
      if maxResults == 0 {
        return Err(InvalidRequest);
      }
      var snapshot := TakeSnapshot(FIND_MAX_DEPTH, FIND_MAX_NODES);
      if snapshot.Err? {
        return Err(snapshot.error);
      }
      var node := NormalizeNode(snapshot.value.0);
      var hits, cut := CollectMatches(node, q, fold, maxResults);
      assert SearchSnapshot(root, snapshot.value.0);
      var matches := AssignHits(hits, registry);
      AssignedAllAppend(Empty(registry.cap), sightings, HitHandles(hits));
      sightings := sightings + HitHandles(hits);
      MatchesMeetFilters(node, q, fold, maxResults, old(registry.View()), registry.View(), matches);
      if !cut && !snapshot.value.1 {
        assert Take(Hits(node, [], q, fold), maxResults) == Hits(node, [], q, fold);
        WholeTreeAnswered(root, q, fold, old(registry.View()), registry.View(), matches);
      }
      return Ok((matches, cut || snapshot.value.1));
    }

    /** Availability first, then the id, then what the element exposes. */
    method Invoke(id: nat, action: Option<string>) returns (r: Result<string, Error>)
      ensures !available ==> r == Err(Unavailable)
      ensures available && HandleOf(registry.View(), id).None? ==> r == Err(UnknownNode(id))
      ensures available && HandleOf(registry.View(), id).Some? ==>
                r == Answered(InvokeOn(root, HandleOf(registry.View(), id).value, action), id)
    {
      if !available {
        return Err(Unavailable);
      }
      var handle := registry.Resolve(id);
      if handle.None? {
        return Err(UnknownNode(id));
      }
      match InvokeOn(root, handle.value, action)
      case Invoked(a) => return Ok(a);
      case NoSuchAction => return Err(InvalidRequest);
      case Gone => return Err(UnknownNode(id));
    }
  }

  // ----- what an answer says, field by field -----

  /** A match reports its own element: nothing is swapped, dropped or blanked. */
  predicate Reports(m: Match, s: Source) {
    m.role == s.role && m.name == s.name && m.value == s.value
    && m.states == s.states && m.bounds == s.bounds && m.actions == s.actions
  }

  lemma AnswersReport(hits: seq<Hit>, before: Reg, after: Reg, matches: seq<Match>)
    requires Answers(hits, before, after, matches)
    ensures |matches| == |hits|
    ensures forall i :: 0 <= i < |hits| ==> Reports(matches[i], hits[i].node.data) && matches[i].path == hits[i].path
    ensures forall i :: 0 <= i < |hits| ==> matches[i].id == AssignedAll(before, HitHandles(hits)).1[i]
  {
    hide AssignedAll;
  }

  /** Every reported match meets every given filter. */
  lemma MatchesMeetFilters(node: SourceNode, q: Query, fold: Folding, max: nat, before: Reg, after: Reg,
                           matches: seq<Match>)
    requires Answers(Take(Hits(node, [], q, fold), max), before, after, matches)
    ensures forall m :: m in matches ==> Meets(q, m.role, m.name, m.value, fold)
  {
    var hits := Take(Hits(node, [], q, fold), max);
    AnswersReport(hits, before, after, matches);
    hide Meets, Hits, Answers, Matches;
    forall i | 0 <= i < |hits|
      ensures var s := hits[i].node.data; Meets(q, s.role, s.name, s.value, fold)
    {
      assert hits[i] in Hits(node, [], q, fold);
      HitsSound(node, [], q, fold, hits[i]);
    }
  }

  /** The matches of a whole tree are exactly its selected elements, in pre-order, with normalized roles. */
  lemma AllMatchesReported(root: SourceNode, q: Query, fold: Folding, before: Reg, after: Reg, matches: seq<Match>)
    requires Answers(Hits(NormalTree(root), [], q, fold), before, after, matches)
    ensures var chosen := Chosen(DataOf(NormalEntries(Flat(root, 0))), q, fold);
            |matches| == |chosen| && forall i :: 0 <= i < |chosen| ==> Reports(matches[i], chosen[i])
  {
    var hits := Hits(NormalTree(root), [], q, fold);
    AnswersReport(hits, before, after, matches);
    hide Answers, Reports, Hits, Chosen, NormalTree, DataOf, NormalEntries, Flat;
    HitsAreChosen([NormalTree(root)], [], 0, q, fold);
    FlatOfOne(NormalTree(root), 0);
    HitsAllOfOne(NormalTree(root), [], q, fold);
    FlatOfNormalRoot(root);
    assert HitData(hits) == Chosen(DataOf(NormalEntries(Flat(root, 0))), q, fold);
  }

  /** Normalizing an element touches its role only. */
  lemma NormalSourceFields(s: Source)
    ensures var n := NormalSource(s);
            && n.role == NormalRole(s.role) && n.name == s.name && n.value == s.value
            && n.description == s.description && n.states == s.states && n.bounds == s.bounds
            && n.actions == s.actions && n.handle == s.handle
  {
  }

  /** Nothing that meets the filters is missing from the answer. */
  lemma NothingMissing(root: SourceNode, q: Query, fold: Folding, before: Reg, after: Reg, matches: seq<Match>, i: nat)
    requires Answers(Hits(NormalTree(root), [], q, fold), before, after, matches) && i < |Flat(root, 0)|
    requires var s := Flat(root, 0)[i].data; Meets(q, NormalRole(s.role), s.name, s.value, fold)
    ensures var s := Flat(root, 0)[i].data;
            exists m :: m in matches && m.role == NormalRole(s.role) && m.name == s.name && m.value == s.value
              && m.states == s.states && m.bounds == s.bounds && m.actions == s.actions
  {
    AllMatchesReported(root, q, fold, before, after, matches);
    var nodes := DataOf(NormalEntries(Flat(root, 0)));
    var s := Flat(root, 0)[i].data;
    assert nodes[i] == NormalSource(s);
    NormalSourceFields(s);
    hide Meets, Chosen, Answers, NormalRole, Flat;
    ChosenMembers(nodes, q, fold, i);
    var k :| 0 <= k < |Chosen(nodes, q, fold)| && Chosen(nodes, q, fold)[k] == nodes[i];
    assert Reports(matches[k], nodes[i]);
  }

  /** The answer to a search of the whole tree: every element that meets the filters, all without filters. */
  lemma WholeTreeAnswered(root: SourceNode, q: Query, fold: Folding, before: Reg, after: Reg, matches: seq<Match>)
    requires Answers(Hits(NormalTree(root), [], q, fold), before, after, matches)
    ensures forall i :: 0 <= i < |Flat(root, 0)| ==>
              var s := Flat(root, 0)[i].data;
              Meets(q, NormalRole(s.role), s.name, s.value, fold) ==>
                exists m :: m in matches && m.role == NormalRole(s.role) && m.name == s.name && m.value == s.value
                  && m.states == s.states && m.bounds == s.bounds && m.actions == s.actions
    ensures q == Query(None, None, None, None) ==> |matches| == Size(root)
  {
    hide Meets, Answers, NormalRole, Flat, Hits, NormalTree, Chosen;
    forall i | 0 <= i < |Flat(root, 0)| &&
               var s := Flat(root, 0)[i].data; Meets(q, NormalRole(s.role), s.name, s.value, fold)
      ensures var s := Flat(root, 0)[i].data;
              exists m :: m in matches && m.role == NormalRole(s.role) && m.name == s.name && m.value == s.value
                && m.states == s.states && m.bounds == s.bounds && m.actions == s.actions
    {
      NothingMissing(root, q, fold, before, after, matches, i);
    }
    AllMatchesReported(root, q, fold, before, after, matches);
    NoFilterChoosesAll(DataOf(NormalEntries(Flat(root, 0))), fold);
  }

  /** An answered tree shows the kept elements one by one, each field its own, less what was not asked for. */
  lemma AnsweredFields(before: Reg, list: seq<Entry<Source>>, o: TreeOptions, after: Reg, out: seq<Entry<Wire>>, i: nat)
    requires ProjectsTo(before, NormalEntries(list), o, after, out) && i < |list|
    ensures |out| == |list| && out[i].depth == list[i].depth
    ensures var w, s := out[i].data, list[i].data;
            && w.role == NormalRole(s.role) && w.name == s.name && w.description == s.description && w.value == s.value
            && w.states == (if o.includeStates then s.states else [])
            && w.bounds == (if o.includeBounds then s.bounds else None)
            && w.actions == (if o.includeActions then s.actions else [])
  {
    hide AssignedAll, NormalRole;
    var ids := AssignedAll(before, Handles(NormalEntries(list))).1;
    ProjectedFields(NormalSource(list[i].data), ids[i], o);
    NormalSourceFields(list[i].data);
  }

  /** What the projection flags of a tree request leave of an element. */
  lemma ProjectedFields(s: Source, id: nat, o: TreeOptions)
    ensures var w := Project(s, id, o);
            && w.id == id && w.role == s.role && w.name == s.name && w.description == s.description
            && w.value == s.value
            && w.states == (if o.includeStates then s.states else [])
            && w.bounds == (if o.includeBounds then s.bounds else None)
            && w.actions == (if o.includeActions then s.actions else [])
  {
  }

  lemma AssignedOneMore(r: Reg, hs: seq<string>, h: string)
    ensures var (r1, ids) := AssignedAll(r, hs);
            AssignedAll(r, hs + [h]) == (Assigned(r1, h).0, ids + [Assigned(r1, h).1])
  {
    hide Assigned;
    AssignedAllAppend(r, hs, [h]);
    assert [h][1..] == [];
    var r1 := AssignedAll(r, hs).0;
    assert AssignedAll(r1, [h]).0 == Assigned(r1, h).0 && AssignedAll(r1, [h]).1 == [Assigned(r1, h).1];
  }

  lemma MatchesSnoc(hits: seq<Hit>, ids: seq<nat>, h: Hit, id: nat)
    requires |ids| == |hits|
    ensures ToMatches(hits + [h], ids + [id]) == ToMatches(hits, ids) + [ToMatch(h, id)]
    ensures HitHandles(hits + [h]) == HitHandles(hits) + [h.node.data.handle]
  {
    hide ToMatch;
  }

  lemma NothingAssigned(r: Reg)
    ensures AssignedAll(r, []) == (r, [])
  {
  }

  method AssignHits(hits: seq<Hit>, registry: Registry) returns (matches: seq<Match>)
    modifies registry
    ensures Answers(hits, old(registry.View()), registry.View(), matches)
  {
    matches := [];
    assert hits[..0] == [] && HitHandles([]) == [] && ToMatches([], []) == [];
    hide AssignedAll, Assigned, ToMatch, ToMatches, HitHandles;
    NothingAssigned(registry.View());
    ghost var r0, ids := registry.View(), [];
    for i := 0 to |hits|
      invariant |ids| == i && matches == ToMatches(hits[..i], ids)
      invariant AssignedAll(r0, HitHandles(hits[..i])).0 == registry.View()
      invariant AssignedAll(r0, HitHandles(hits[..i])).1 == ids
    {
      ghost var elder := HitHandles(hits[..i]);
      ghost var handle := hits[i].node.data.handle;
      var id := registry.Assign(hits[i].node.data.handle);
      assert hits[..i + 1] == hits[..i] + [hits[i]];
      AssignedOneMore(r0, elder, handle);
      MatchesSnoc(hits[..i], ids, hits[i], id);
      matches := matches + [ToMatch(hits[i], id)];
      ids := ids + [id];
    }
    assert hits[..|hits|] == hits;
  }

  /**
   * Ids end to end: when a tree's handles fit the cap, every id it was answered with resolves
   * to the handle of its own node.
   */
  lemma AnsweredIdsResolve(before: Reg, list: seq<Entry<Source>>, o: TreeOptions, after: Reg,
                           out: seq<Entry<Wire>>, i: nat)
    requires Consistent(before) && FitsCap(before, Handles(list))
    requires ProjectsTo(before, list, o, after, out) && i < |list|
    ensures |out| == |list| && HandleOf(after, out[i].data.id) == Some(list[i].data.handle)
  {
    FittingKeepsAll(before, Handles(list));
    AssignedAllConsistent(before, Handles(list));
    assert Handles(list)[i] == list[i].data.handle;
  }

  /**
   * Over every run of requests: an id answered for a node, or for a match, is never answered for
   * another handle, and resolves ever after to its own handle or to nothing.
   */
  lemma AnsweredIdsNeverReused(cap: nat, earlier: seq<string>, now: seq<string>, later: seq<string>, i: nat, j: nat)
    requires i < |now| && j < |earlier + now + later|
    ensures var ids := AssignedAll(AssignedAll(Empty(cap), earlier).0, now).1;
            var (end, all) := AssignedAll(Empty(cap), earlier + now + later);
            && (ids[i] == all[j] ==> now[i] == (earlier + now + later)[j])
            && (HandleOf(end, ids[i]) == None || HandleOf(end, ids[i]) == Some(now[i]))
  {
    hide *;
    var run := earlier + now + later;
    IdsNeverReused(cap, run, |earlier| + i, j);
    AnsweredIdIsIssued(cap, earlier, now, later, i);
    assert run[|earlier| + i] == now[i];
  }

  /** The ids of an answer are those of its place in the run. */
  lemma AnsweredIdIsIssued(cap: nat, earlier: seq<string>, now: seq<string>, later: seq<string>, i: nat)
    requires i < |now|
    ensures AssignedAll(AssignedAll(Empty(cap), earlier).0, now).1[i] ==
            AssignedAll(Empty(cap), earlier + now + later).1[|earlier| + i]
  {
    AssignedAllAppend(Empty(cap), earlier, now);
    AssignedAllAppend(Empty(cap), earlier + now, later);
    hide AssignedAll;
  }
}
