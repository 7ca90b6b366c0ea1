/** The two generations of workflow documents, and what running each one means. */
module Workflow {
  import opened Options

  type Id = string

  datatype Status = Succeeded | Failed

  /** Where a run goes after a node: another node, or its end. */
  datatype Target = ToNode(id: Id) | ToEnd(status: Status)

  /** A v1 outcome. */
  datatype Go = Continue | Stop | Fail | Goto(node: Id)

  datatype V1Node =
    | Script(id: Id, next: Option<Id>, onFailure: Option<Go>)
    | Gate(id: Id, then_: Option<Go>, else_: Option<Go>)

  datatype V2Node =
    | Start2(id: Id, next: Option<Id>)
    | Script2(id: Id, next: Option<Id>, onFailure: Option<Id>)
    | Gate2(id: Id, then_: Option<Id>, else_: Option<Id>)
    | Finish2(id: Id, status: Status)

  datatype V2Doc = V2Doc(entry: Id, nodes: seq<V2Node>)

  // The defaults a v1 document is read with.

  function OnFailure(n: V1Node): Go
    requires n.Script?
  {
    if n.onFailure.Some? then n.onFailure.value else Fail
  }

  function Then(n: V1Node): Go
    requires n.Gate?
  {
    if n.then_.Some? then n.then_.value else Continue
  }

  function Else(n: V1Node): Go
    requires n.Gate?
  {
    if n.else_.Some? then n.else_.value else Stop
  }

  predicate UniqueV1(nodes: seq<V1Node>) {
    forall i, j | 0 <= i < j < |nodes| :: nodes[i].id != nodes[j].id
  }

  predicate UniqueV2(nodes: seq<V2Node>) {
    forall i, j | 0 <= i < j < |nodes| :: nodes[i].id != nodes[j].id
  }

  /** The id of the node after position `i` in array order. */
  function ArrayNext(nodes: seq<V1Node>, i: nat): Option<Id> {
    if i + 1 < |nodes| then Some(nodes[i + 1].id) else None
  }

  // ------------------------------------------------------------ running v1

  function IndexV1(nodes: seq<V1Node>, id: Id): (r: Option<nat>)
    ensures r.Some? ==> r.value < |nodes| && nodes[r.value].id == id
    ensures r.None? ==> forall i | 0 <= i < |nodes| :: nodes[i].id != id
  {
    if nodes == [] then None
    else if nodes[|nodes| - 1].id == id then Some(|nodes| - 1)
    else IndexV1(nodes[..|nodes| - 1], id)
  }

  /** Falling through position `i`: the next node in array order, or a success. */
  function FallThrough(nodes: seq<V1Node>, i: nat): Target {
    if i + 1 < |nodes| then ToNode(nodes[i + 1].id) else ToEnd(Succeeded)
  }

  function Perform(nodes: seq<V1Node>, i: nat, go: Go): Target {
    match go
    case Continue => FallThrough(nodes, i)
    case Stop => ToEnd(Succeeded)
    case Fail => ToEnd(Failed)
    case Goto(id) => ToNode(id)
  }

  /** Where a v1 run goes from node `id` when it went well, or did not. A missing node is where it stays. */
  function V1Next(nodes: seq<V1Node>, id: Id, ok: bool): Target {
    match IndexV1(nodes, id)
    case None => ToNode(id)
    case Some(i) =>
      match nodes[i]
      case Script(_, next, _) =>
        if !ok then Perform(nodes, i, OnFailure(nodes[i]))
        else if next.Some? then ToNode(next.value) else FallThrough(nodes, i)
      case Gate(_, _, _) => Perform(nodes, i, if ok then Then(nodes[i]) else Else(nodes[i]))
  }

  // ------------------------------------------------------------ running v2

  function IndexV2(nodes: seq<V2Node>, id: Id): (r: Option<nat>)
    ensures r.Some? ==> r.value < |nodes| && nodes[r.value].id == id
    ensures r.None? ==> forall i | 0 <= i < |nodes| :: nodes[i].id != id
  {
    if nodes == [] then None
    else if nodes[|nodes| - 1].id == id then Some(|nodes| - 1)
    else IndexV2(nodes[..|nodes| - 1], id)
  }

  /** A `finish` ends the run and costs no step; any other node is where the run then stands. */
  function Land(doc: V2Doc, id: Id): Target {
    match IndexV2(doc.nodes, id)
    case None => ToNode(id)
    case Some(i) => if doc.nodes[i].Finish2? then ToEnd(doc.nodes[i].status) else ToNode(id)
  }

  /** Following an edge: a dangling one ends the run as `dangling`, and a `start` is passed through. */
  function Follow(doc: V2Doc, edge: Option<Id>, dangling: Status): Target {
    match edge
    case None => ToEnd(dangling)
    case Some(id) =>
      match IndexV2(doc.nodes, id)
      case None => ToNode(id)
      case Some(i) =>
        if doc.nodes[i].Start2? then
          (match doc.nodes[i].next case None => ToEnd(Succeeded) case Some(next) => Land(doc, next))
        else Land(doc, id)
  }

  function V2Next(doc: V2Doc, id: Id, ok: bool): Target {
    match IndexV2(doc.nodes, id)
    case None => ToNode(id)
    case Some(i) =>
      match doc.nodes[i]
      case Start2(_, next) => Follow(doc, next, Succeeded)
      case Script2(_, next, onFailure) => if ok then Follow(doc, next, Succeeded) else Follow(doc, onFailure, Failed)
      case Gate2(_, then_, else_) => Follow(doc, if ok then then_ else else_, Succeeded)
      case Finish2(_, status) => ToEnd(status)
  }

  // ------------------------------------------------------------------- runs

  /** A run so far: the nodes it visited, and where it stands. */
  datatype Run = Run(visited: seq<Id>, at: Target)

  /** The run from `at` when the visited nodes' outcomes are `outcomes`, in order. */
  function Walk(next: (Id, bool) -> Target, at: Target, outcomes: seq<bool>): Run
    decreases |outcomes|
  {
    if at.ToEnd? || outcomes == [] then Run([], at) else
    var rest := Walk(next, next(at.id, outcomes[0]), outcomes[1..]);
    Run([at.id] + rest.visited, rest.at)
  }

  function V1Run(nodes: seq<V1Node>, at: Target, outcomes: seq<bool>): Run {
    Walk((id, ok) => V1Next(nodes, id, ok), at, outcomes)
  }

  function V2Run(doc: V2Doc, at: Target, outcomes: seq<bool>): Run {
    Walk((id, ok) => V2Next(doc, id, ok), at, outcomes)
  }

  ghost predicate NamesV1(nodes: seq<V1Node>, t: Target) {
    t.ToNode? ==> exists i :: 0 <= i < |nodes| && nodes[i].id == t.id
  }

  /** Every place a v1 document can send a run is one of its own nodes, or the end. */
  ghost predicate Closed(nodes: seq<V1Node>) {
    forall i, ok | 0 <= i < |nodes| :: NamesV1(nodes, V1Next(nodes, nodes[i].id, ok))
  }

  /** Every run of the two documents from a node of the first visits the same nodes and ends the same way. */
  ghost predicate SameRuns(nodes: seq<V1Node>, doc: V2Doc) {
    forall i, outcomes | 0 <= i < |nodes| ::
      V1Run(nodes, ToNode(nodes[i].id), outcomes) == V2Run(doc, ToNode(nodes[i].id), outcomes)
  }

  /** The two documents agree on one step from every node of the first. */
  ghost predicate SameSteps(nodes: seq<V1Node>, doc: V2Doc) {
    forall i, ok | 0 <= i < |nodes| :: V1Next(nodes, nodes[i].id, ok) == V2Next(doc, nodes[i].id, ok)
  }

  /** Agreement on every step is agreement on every run, loops included. */
  lemma {:induction false} SameStepsSameRun(nodes: seq<V1Node>, doc: V2Doc, at: Target, outcomes: seq<bool>)
    requires SameSteps(nodes, doc) && Closed(nodes) && NamesV1(nodes, at)
    ensures V1Run(nodes, at, outcomes) == V2Run(doc, at, outcomes)
    decreases |outcomes|
  {
    if at.ToNode? && outcomes != [] {
      var i :| 0 <= i < |nodes| && nodes[i].id == at.id;
      var t := V1Next(nodes, nodes[i].id, outcomes[0]);
      assert V2Next(doc, nodes[i].id, outcomes[0]) == t;
      SameStepsSameRun(nodes, doc, t, outcomes[1..]);
    }
  }

  lemma SameRunsIffSameSteps(nodes: seq<V1Node>, doc: V2Doc)
    requires Closed(nodes)
    ensures SameRuns(nodes, doc) <==> SameSteps(nodes, doc)
  {
    if SameSteps(nodes, doc) {
      forall i, outcomes | 0 <= i < |nodes|
        ensures V1Run(nodes, ToNode(nodes[i].id), outcomes) == V2Run(doc, ToNode(nodes[i].id), outcomes)
      {
        SameStepsSameRun(nodes, doc, ToNode(nodes[i].id), outcomes);
      }
    }
    if SameRuns(nodes, doc) {
      forall i, ok | 0 <= i < |nodes|
        ensures V1Next(nodes, nodes[i].id, ok) == V2Next(doc, nodes[i].id, ok)
      {
        OneStep(nodes, doc, nodes[i].id, ok);
        assert V1Run(nodes, ToNode(nodes[i].id), [ok]) == V2Run(doc, ToNode(nodes[i].id), [ok]);
      }
    }
  }

  lemma OneStep(nodes: seq<V1Node>, doc: V2Doc, id: Id, ok: bool)
    ensures V1Run(nodes, ToNode(id), [ok]).at == V1Next(nodes, id, ok)
    ensures V2Run(doc, ToNode(id), [ok]).at == V2Next(doc, id, ok)
  {
    assert [ok][1..] == [];
    hide V1Next, V2Next;
    assert Walk((x, b) => V1Next(nodes, x, b), ToNode(id), [ok]).at
        == Walk((x, b) => V1Next(nodes, x, b), V1Next(nodes, id, ok), []).at;
    assert Walk((x, b) => V2Next(doc, x, b), ToNode(id), [ok]).at
        == Walk((x, b) => V2Next(doc, x, b), V2Next(doc, id, ok), []).at;
  }
}

/** The checker: successor relations of both documents, and their difference. */
module WorkflowCheck {
  import opened Options
  import opened Workflow

  /** One node's two targets. */
  datatype Relation = Relation(success: Target, failure: Target)

  /** A key-ordered map: a key keeps its first place and takes its last value. */
  datatype Table = Table(keys: seq<Id>, at: map<Id, Relation>)

  function Put(t: Table, id: Id, r: Relation): Table {
    Table(if id in t.at then t.keys else t.keys + [id], t.at[id := r])
  }

  /** The key list lists the map's keys. */
  ghost predicate Keyed(t: Table) {
    forall id :: id in t.keys <==> id in t.at
  }

  function TargetKey(t: Target): string {
    match t
    case ToNode(id) => "node:" + id
    case ToEnd(Succeeded) => "end:succeeded"
    case ToEnd(Failed) => "end:failed"
  }

  /** Comparing keys is comparing targets. */
  lemma TargetKeyInjective(s: Target, t: Target)
    ensures TargetKey(s) == TargetKey(t) <==> s == t
  {
    var a, b := TargetKey(s), TargetKey(t);
    if a == b {
      assert a[0] == b[0] && a[4] == b[4];
      if s.ToNode? {
        assert s.id == a[5..] && t.ToNode? && t.id == b[5..];
      }
    }
  }

  function V1OutcomeTarget(outcome: Option<Go>, arrayNext: Option<Id>): Option<Target> {
    match outcome
    case None => None
    case Some(Goto(id)) => Some(ToNode(id))
    case Some(Continue) => Some(if arrayNext.Some? then ToNode(arrayNext.value) else ToEnd(Succeeded))
    case Some(Stop) => Some(ToEnd(Succeeded))
    case Some(Fail) => Some(ToEnd(Failed))
  }

  function Or(t: Option<Target>, default: Target): Target {
    if t.Some? then t.value else default
  }

  function V1Relation(node: V1Node, arrayNext: Option<Id>): Relation {
    var fall := if arrayNext.Some? then ToNode(arrayNext.value) else ToEnd(Succeeded);
    match node
    case Script(_, next, onFailure) =>
      Relation(if next.Some? then ToNode(next.value) else fall,
               Or(V1OutcomeTarget(onFailure, arrayNext), ToEnd(Failed)))
    case Gate(_, then_, else_) =>
      Relation(Or(V1OutcomeTarget(then_, arrayNext), fall),
               Or(V1OutcomeTarget(else_, arrayNext), ToEnd(Succeeded)))
  }

  /** The relations of the first `n` nodes. */
  function V1Table(nodes: seq<V1Node>, n: nat): Table
    requires n <= |nodes|
  {
    if n == 0 then Table([], map[])
    else Put(V1Table(nodes, n - 1), nodes[n - 1].id, V1Relation(nodes[n - 1], ArrayNext(nodes, n - 1)))
  }

  /** The table lists the nodes in the order of the document. */
  lemma {:induction false} TableInOrder(nodes: seq<V1Node>, n: nat)
    requires n <= |nodes| && UniqueV1(nodes)
    ensures var t := V1Table(nodes, n);
      && |t.keys| == n && (forall i | 0 <= i < n :: t.keys[i] == nodes[i].id) && (forall id :: id in t.at <==> id in t.keys)
  {
    if n > 0 {
      TableInOrder(nodes, n - 1);
      var t := V1Table(nodes, n - 1);
      assert nodes[n - 1].id !in t.keys;
    }
  }

  method V1Relations(nodes: seq<V1Node>) returns (out: Table)
    ensures out == V1Table(nodes, |nodes|)
  {
    out := Table([], map[]);
    for i := 0 to |nodes|
      invariant out == V1Table(nodes, i)
    {
      out := Put(out, nodes[i].id, V1Relation(nodes[i], ArrayNext(nodes, i)));
    }
  }

  function V2EdgeTarget(id: Option<Id>, endsAs: Status): Target {
    match id case None => ToEnd(endsAs) case Some(n) => ToNode(n)
  }

  function ResolveThroughFinish(t: Target, finishById: map<Id, Status>): Target {
    if t.ToNode? && t.id in finishById then ToEnd(finishById[t.id]) else t
  }

  function Finishes(nodes: seq<V2Node>, n: nat): map<Id, Status>
    requires n <= |nodes|
  {
    if n == 0 then map[] else
    var before := Finishes(nodes, n - 1);
    if nodes[n - 1].Finish2? then before[nodes[n - 1].id := nodes[n - 1].status] else before
  }

  function V2Relation(node: V2Node, finishById: map<Id, Status>): Relation
    requires node.Script2? || node.Gate2?
  {
    match node
    case Script2(_, next, onFailure) =>
      Relation(ResolveThroughFinish(V2EdgeTarget(next, Succeeded), finishById),
               ResolveThroughFinish(V2EdgeTarget(onFailure, Failed), finishById))
    case Gate2(_, then_, else_) =>
      Relation(ResolveThroughFinish(V2EdgeTarget(then_, Succeeded), finishById),
               ResolveThroughFinish(V2EdgeTarget(else_, Succeeded), finishById))
  }

  function V2Table(nodes: seq<V2Node>, finishById: map<Id, Status>, n: nat): Table
    requires n <= |nodes|
  {
    if n == 0 then Table([], map[]) else
    var before := V2Table(nodes, finishById, n - 1);
    var node := nodes[n - 1];
    if node.Script2? || node.Gate2? then Put(before, node.id, V2Relation(node, finishById)) else before
  }

  method V2Relations(doc: V2Doc) returns (out: Table)
    ensures out == V2Table(doc.nodes, Finishes(doc.nodes, |doc.nodes|), |doc.nodes|)
  {
    var finishById: map<Id, Status> := map[];
    for i := 0 to |doc.nodes|
      invariant finishById == Finishes(doc.nodes, i)
    {
      if doc.nodes[i].Finish2? { finishById := finishById[doc.nodes[i].id := doc.nodes[i].status]; }
    }
    out := Table([], map[]);
    for i := 0 to |doc.nodes|
      invariant out == V2Table(doc.nodes, finishById, i)
    {
      var node := doc.nodes[i];
      if node.Script2? || node.Gate2? { out := Put(out, node.id, V2Relation(node, finishById)); }
    }
  }

  datatype Divergence = MissingNode(id: Id) | SuccessDiverges(id: Id) | FailureDiverges(id: Id)

  /** The divergences node `id` contributes. */
  function DiffNode(id: Id, before: Table, after: Table): seq<Divergence>
    requires id in before.at
  {
    if id !in after.at then [MissingNode(id)] else
    var r, s := before.at[id], after.at[id];
    (if TargetKey(r.success) != TargetKey(s.success) then [SuccessDiverges(id)] else [])
    + (if TargetKey(r.failure) != TargetKey(s.failure) then [FailureDiverges(id)] else [])
  }

  function DiffKeys(keys: seq<Id>, before: Table, after: Table): (d: seq<Divergence>)
    requires Keyed(before) && forall id | id in keys :: id in before.at
    ensures d == [] <==> forall id | id in keys :: DiffNode(id, before, after) == []
  {
    if keys == [] then [] else
    DiffKeys(keys[..|keys| - 1], before, after) + DiffNode(keys[|keys| - 1], before, after)
  }

  lemma V1TableKeys(nodes: seq<V1Node>, n: nat)
    requires n <= |nodes|
    ensures Keyed(V1Table(nodes, n))
  {
    if n > 0 { V1TableKeys(nodes, n - 1); }
  }

  /** What the checker says of a v1 document and the v2 document it was upgraded to. */
  function Divergences(nodes: seq<V1Node>, doc: V2Doc): seq<Divergence> {
    V1TableKeys(nodes, |nodes|);
    var before := V1Table(nodes, |nodes|);
    DiffKeys(before.keys, before, V2Table(doc.nodes, Finishes(doc.nodes, |doc.nodes|), |doc.nodes|))
  }

  method DiffOneDoc(nodes: seq<V1Node>, doc: V2Doc) returns (divergences: seq<Divergence>)
    ensures divergences == Divergences(nodes, doc)
  {
    var before := V1Relations(nodes);
    var after := V2Relations(doc);
    V1TableKeys(nodes, |nodes|);
    divergences := [];
    for i := 0 to |before.keys|
      invariant divergences == DiffKeys(before.keys[..i], before, after)
    {
      assert before.keys[..i + 1][..i] == before.keys[..i];
      divergences := divergences + DiffNode(before.keys[i], before, after);
    }
    assert before.keys[..|before.keys|] == before.keys;
  }

  // ------------------------------------------------- the relations are the steps

  lemma {:induction false} V1TableAt(nodes: seq<V1Node>, n: nat, i: nat)
    requires UniqueV1(nodes) && i < n <= |nodes|
    ensures var t := V1Table(nodes, n);
      nodes[i].id in t.at && t.at[nodes[i].id] == V1Relation(nodes[i], ArrayNext(nodes, i))
  {
    if i < n - 1 { V1TableAt(nodes, n - 1, i); }
  }

  lemma {:induction false} V1TableOnly(nodes: seq<V1Node>, n: nat, id: Id)
    requires n <= |nodes| && id in V1Table(nodes, n).at
    ensures exists i :: 0 <= i < n && nodes[i].id == id
  {
    if nodes[n - 1].id != id { V1TableOnly(nodes, n - 1, id); }
  }

  lemma IndexV1Is(nodes: seq<V1Node>, i: nat)
    requires UniqueV1(nodes) && i < |nodes|
    ensures IndexV1(nodes, nodes[i].id) == Some(i)
  {
    var r := IndexV1(nodes, nodes[i].id);
  }

  lemma IndexV2Is(nodes: seq<V2Node>, i: nat)
    requires UniqueV2(nodes) && i < |nodes|
    ensures IndexV2(nodes, nodes[i].id) == Some(i)
  {
    var r := IndexV2(nodes, nodes[i].id);
  }

  /** A v1 node's relation is its two steps. */
  lemma V1RelationIsStep(nodes: seq<V1Node>, i: nat)
    requires UniqueV1(nodes) && i < |nodes|
    ensures V1Relation(nodes[i], ArrayNext(nodes, i))
      == Relation(V1Next(nodes, nodes[i].id, true), V1Next(nodes, nodes[i].id, false))
  {
    IndexV1Is(nodes, i);
  }

  lemma {:induction false} FinishesAt(nodes: seq<V2Node>, n: nat, id: Id)
    requires UniqueV2(nodes) && n <= |nodes|
    ensures var f := Finishes(nodes, n);
      id in f <==> exists i :: 0 <= i < n && nodes[i].id == id && nodes[i].Finish2?
    ensures var f := Finishes(nodes, n);
      forall i | 0 <= i < n && nodes[i].id == id && nodes[i].Finish2? :: id in f && f[id] == nodes[i].status
  {
    if n > 0 { FinishesAt(nodes, n - 1, id); }
  }

  /** No edge of a script or gate leads to a `start` node. */
  ghost predicate NoEdgeToStart(doc: V2Doc) {
    forall i, j | 0 <= i < |doc.nodes| && 0 <= j < |doc.nodes| && doc.nodes[j].Start2? ::
      match doc.nodes[i]
      case Script2(_, next, onFailure) => next != Some(doc.nodes[j].id) && onFailure != Some(doc.nodes[j].id)
      case Gate2(_, then_, else_) => then_ != Some(doc.nodes[j].id) && else_ != Some(doc.nodes[j].id)
      case _ => true
  }

  /** Resolving an edge through `finish` nodes is following it, unless it leads to a `start`. */
  lemma ResolvedEdge(doc: V2Doc, edge: Option<Id>, endsAs: Status)
    requires UniqueV2(doc.nodes)
    requires forall j | 0 <= j < |doc.nodes| && doc.nodes[j].Start2? :: edge != Some(doc.nodes[j].id)
    ensures ResolveThroughFinish(V2EdgeTarget(edge, endsAs), Finishes(doc.nodes, |doc.nodes|))
      == Follow(doc, edge, endsAs)
  {
    if edge.Some? {
      FinishesAt(doc.nodes, |doc.nodes|, edge.value);
      var r := IndexV2(doc.nodes, edge.value);
      if r.Some? { IndexV2Is(doc.nodes, r.value); }
    }
  }

  lemma {:induction false} V2TableAt(nodes: seq<V2Node>, f: map<Id, Status>, n: nat, id: Id)
    requires UniqueV2(nodes) && n <= |nodes|
    ensures var t := V2Table(nodes, f, n);
      id in t.at <==> exists i :: 0 <= i < n && nodes[i].id == id && (nodes[i].Script2? || nodes[i].Gate2?)
    ensures var t := V2Table(nodes, f, n);
      forall i | 0 <= i < n && nodes[i].id == id && (nodes[i].Script2? || nodes[i].Gate2?) ::
        id in t.at && t.at[id] == V2Relation(nodes[i], f)
  {
    if n > 0 { V2TableAt(nodes, f, n - 1, id); }
  }

  lemma V2RelationIsStep(doc: V2Doc, i: nat)
    requires UniqueV2(doc.nodes) && NoEdgeToStart(doc) && i < |doc.nodes|
    requires doc.nodes[i].Script2? || doc.nodes[i].Gate2?
    ensures V2Relation(doc.nodes[i], Finishes(doc.nodes, |doc.nodes|))
      == Relation(V2Next(doc, doc.nodes[i].id, true), V2Next(doc, doc.nodes[i].id, false))
  {
    IndexV2Is(doc.nodes, i);
    match doc.nodes[i]
    case Script2(_, next, onFailure) =>
      ResolvedEdge(doc, next, Succeeded);
      ResolvedEdge(doc, onFailure, Failed);
    case Gate2(_, then_, else_) =>
      ResolvedEdge(doc, then_, Succeeded);
      ResolvedEdge(doc, else_, Succeeded);
  }

  /** `id` is a script or a gate of `doc`. */
  ghost predicate IsStep(doc: V2Doc, id: Id) {
    exists j :: 0 <= j < |doc.nodes| && doc.nodes[j].id == id && (doc.nodes[j].Script2? || doc.nodes[j].Gate2?)
  }

  /** The checker finds nothing at a node exactly when both documents step alike from it. */
  lemma NodeDiffIsStepDiff(nodes: seq<V1Node>, doc: V2Doc, i: nat)
    requires UniqueV1(nodes) && UniqueV2(doc.nodes) && NoEdgeToStart(doc) && i < |nodes|
    ensures var before := V1Table(nodes, |nodes|);
      var after := V2Table(doc.nodes, Finishes(doc.nodes, |doc.nodes|), |doc.nodes|);
      var id := nodes[i].id;
      && id in before.at
      && (DiffNode(id, before, after) == []
          <==> IsStep(doc, id) && forall ok :: V1Next(nodes, id, ok) == V2Next(doc, id, ok))
  {
    var id := nodes[i].id;
    var f := Finishes(doc.nodes, |doc.nodes|);
    V1TableAt(nodes, |nodes|, i);
    V1RelationIsStep(nodes, i);
    V2TableAt(doc.nodes, f, |doc.nodes|, id);
    if IsStep(doc, id) {
      var j :| 0 <= j < |doc.nodes| && doc.nodes[j].id == id && (doc.nodes[j].Script2? || doc.nodes[j].Gate2?);
      V2RelationIsStep(doc, j);
      TargetKeyInjective(V1Next(nodes, id, true), V2Next(doc, id, true));
      TargetKeyInjective(V1Next(nodes, id, false), V2Next(doc, id, false));
      hide V1Next, V2Next, V2Relation, V1Relation, TargetKey;
      assert (forall ok :: V1Next(nodes, id, ok) == V2Next(doc, id, ok))
        <==> V1Next(nodes, id, true) == V2Next(doc, id, true) && V1Next(nodes, id, false) == V2Next(doc, id, false);
    }
  }

  /** Every v1 node is a script or gate of the v2 document. */
  ghost predicate KeepsSteps(nodes: seq<V1Node>, doc: V2Doc) {
    forall i | 0 <= i < |nodes| :: IsStep(doc, nodes[i].id)
  }

  /**
   * The checker is exact: it reports nothing if and only if every v1 node survives
   * and every run from every node, loops included, is the same in both documents.
   */
  lemma CheckerIsExact(nodes: seq<V1Node>, doc: V2Doc)
    requires UniqueV1(nodes) && UniqueV2(doc.nodes) && NoEdgeToStart(doc) && Closed(nodes)
    ensures Divergences(nodes, doc) == [] <==> KeepsSteps(nodes, doc) && SameRuns(nodes, doc)
  {
    SameRunsIffSameSteps(nodes, doc);
    CheckerComparesSteps(nodes, doc);
  }

  lemma CheckerComparesSteps(nodes: seq<V1Node>, doc: V2Doc)
    requires UniqueV1(nodes) && UniqueV2(doc.nodes) && NoEdgeToStart(doc)
    ensures Divergences(nodes, doc) == [] <==> KeepsSteps(nodes, doc) && SameSteps(nodes, doc)
  {
    var before := V1Table(nodes, |nodes|);
    var after := V2Table(doc.nodes, Finishes(doc.nodes, |doc.nodes|), |doc.nodes|);
    V1TableKeys(nodes, |nodes|);
    forall i | 0 <= i < |nodes|
      ensures nodes[i].id in before.at
      ensures DiffNode(nodes[i].id, before, after) == []
        <==> IsStep(doc, nodes[i].id) && forall ok :: V1Next(nodes, nodes[i].id, ok) == V2Next(doc, nodes[i].id, ok)
    {
      NodeDiffIsStepDiff(nodes, doc, i);
    }
    forall id | id in before.at
      ensures exists i :: 0 <= i < |nodes| && nodes[i].id == id
    {
      V1TableOnly(nodes, |nodes|, id);
    }
    hide DiffNode, V1Next, V2Next, V1Table, V2Table, IsStep;
    assert Divergences(nodes, doc) == [] <==> forall id | id in before.keys :: DiffNode(id, before, after) == [];
  }
}
