/** The v1 to v2 upgrade, and exactly when it changes what a document does. */
module WorkflowUpgrade {
  import opened Options
  import opened Workflow
  import opened WorkflowCheck
  import Sets

  const MAX_NODES: nat := 50
  const MAX_SUFFIX: nat := 10_000

  // ----------------------------------------------------------------- fresh ids

  function Decimal(n: nat): (s: string)
    ensures s != "" && forall i | 0 <= i < |s| :: '0' <= s[i] <= '9'
  {
    var digit := [('0' as int + n % 10) as char];
    if n < 10 then digit else Decimal(n / 10) + digit
  }

  function ValueOf(s: string): nat
    requires forall i | 0 <= i < |s| :: '0' <= s[i] <= '9'
  {
    if s == "" then 0 else 10 * ValueOf(s[..|s| - 1]) + (s[|s| - 1] as int - '0' as int)
  }

  lemma {:induction false} DecimalReads(n: nat)
    ensures ValueOf(Decimal(n)) == n
  {
    if n < 10 {
      assert Decimal(n)[..0] == "";
    } else {
      DecimalReads(n / 10);
      var digit := [('0' as int + n % 10) as char];
      assert (Decimal(n / 10) + digit)[..|Decimal(n / 10)|] == Decimal(n / 10);
    }
  }

  function Candidate(seed: Id, i: nat): Id {
    seed + "-" + Decimal(i)
  }

  lemma CandidatesDiffer(seed: Id, i: nat, j: nat)
    requires Candidate(seed, i) == Candidate(seed, j)
    ensures i == j
  {
    assert Candidate(seed, i)[|seed| + 1..] == Decimal(i);
    assert Candidate(seed, j)[|seed| + 1..] == Decimal(j);
    DecimalReads(i);
    DecimalReads(j);
  }

  /** The first free candidate from suffix `i` on. */
  function FreshFrom(seed: Id, taken: set<Id>, i: nat): (r: Option<Id>)
    ensures r.Some? ==> r.value !in taken
    ensures r.None? ==> forall k | i <= k < MAX_SUFFIX :: Candidate(seed, k) in taken
    decreases MAX_SUFFIX - i
  {
    if i >= MAX_SUFFIX then None
    else if Candidate(seed, i) !in taken then Some(Candidate(seed, i))
    else FreshFrom(seed, taken, i + 1)
  }

  function FreshId(seed: Id, taken: set<Id>): (r: Option<Id>)
    ensures r.Some? ==> r.value !in taken
  {
    if seed !in taken then Some(seed) else FreshFrom(seed, taken, 2)
  }

  method FindFreshId(seed: Id, taken: set<Id>) returns (r: Option<Id>)
    ensures r == FreshId(seed, taken)
  {
    if seed !in taken { return Some(seed); }
    var i := 2;
    while i < MAX_SUFFIX
      invariant 2 <= i <= MAX_SUFFIX
      invariant FreshId(seed, taken) == FreshFrom(seed, taken, i)
    {
      if Candidate(seed, i) !in taken { return Some(Candidate(seed, i)); }
      i := i + 1;
    }
    return None;
  }

  /** The candidates with suffixes 2 up to `n`: as many as there are suffixes. */
  lemma {:induction false} CandidatesCount(seed: Id, taken: set<Id>, n: nat) returns (used: set<Id>)
    requires 2 <= n <= MAX_SUFFIX && forall k | 2 <= k < n :: Candidate(seed, k) in taken
    ensures used <= taken && |used| == n - 2
    ensures forall id | id in used :: exists k :: 2 <= k < n && id == Candidate(seed, k)
  {
    if n == 2 {
      used := {};
    } else {
      used := CandidatesCount(seed, taken, n - 1);
      var id := Candidate(seed, n - 1);
      if id in used {
        var k :| 2 <= k < n - 1 && id == Candidate(seed, k);
        CandidatesDiffer(seed, k, n - 1);
      }
      used := used + {id};
    }
  }

  /** A document cannot use up the candidates: a fresh id is always found. */
  lemma FreshIdFound(seed: Id, taken: set<Id>)
    requires |taken| < MAX_SUFFIX - 2
    ensures FreshId(seed, taken).Some?
  {
    if FreshId(seed, taken).None? {
      var used := CandidatesCount(seed, taken, MAX_SUFFIX);
      Sets.SubsetSize(used, taken);
      assert false;
    }
  }

  // --------------------------------------------------------------- conversion

  predicate GoNeedsSucceed(nodes: seq<V1Node>, i: nat, go: Go) {
    go.Stop? || (go.Continue? && ArrayNext(nodes, i).None?)
  }

  predicate GateNeedsSucceed(nodes: seq<V1Node>, i: nat)
    requires i < |nodes|
  {
    nodes[i].Gate? && (GoNeedsSucceed(nodes, i, Then(nodes[i])) || GoNeedsSucceed(nodes, i, Else(nodes[i])))
  }

  /** A `finish` that succeeds is made only when some gate leads to one. */
  predicate NeedsSucceed(nodes: seq<V1Node>) {
    exists i | 0 <= i < |nodes| :: GateNeedsSucceed(nodes, i)
  }

  predicate NodeNeedsFail(n: V1Node) {
    if n.Script? then OnFailure(n).Fail? else Then(n).Fail? || Else(n).Fail?
  }

  predicate NeedsFail(nodes: seq<V1Node>) {
    exists i | 0 <= i < |nodes| :: NodeNeedsFail(nodes[i])
  }

  /** The ids the conversion adds: its `start`, and the `finish` nodes it needs. */
  datatype Plan = Plan(startId: Id, succeedId: Option<Id>, failId: Option<Id>)

  function IdsOf(nodes: seq<V1Node>): (ids: set<Id>)
    ensures |ids| <= |nodes|
    ensures forall i | 0 <= i < |nodes| :: nodes[i].id in ids
    ensures forall id | id in ids :: exists i :: 0 <= i < |nodes| && nodes[i].id == id
  {
    if nodes == [] then {} else
    var rest := IdsOf(nodes[..|nodes| - 1]);
    assert forall i | 0 <= i < |nodes| - 1 :: nodes[i] == nodes[..|nodes| - 1][i];
    rest + {nodes[|nodes| - 1].id}
  }

  function OptionalFreshId(needed: bool, seed: Id, taken: set<Id>): Option<Option<Id>> {
    if !needed then Some(None) else
    match FreshId(seed, taken) case None => None case Some(id) => Some(Some(id))
  }

  function Ids(o: Option<Id>): set<Id> {
    if o.Some? then {o.value} else {}
  }

  function MakePlan(nodes: seq<V1Node>): Option<Plan> {
    var ids := IdsOf(nodes);
    match FreshId("start", ids)
    case None => None
    case Some(startId) =>
      match OptionalFreshId(NeedsSucceed(nodes), "finish-succeed", ids + {startId})
      case None => None
      case Some(succeedId) =>
        match OptionalFreshId(NeedsFail(nodes), "finish-failed", ids + {startId} + Ids(succeedId))
        case None => None
        case Some(failId) => Some(Plan(startId, succeedId, failId))
  }

  function OutcomeToEdge(nodes: seq<V1Node>, i: nat, go: Go, plan: Plan): Option<Id> {
    match go
    case Goto(id) => Some(id)
    case Continue => if ArrayNext(nodes, i).Some? then ArrayNext(nodes, i) else plan.succeedId
    case Stop => plan.succeedId
    case Fail => plan.failId
  }

  function ConvertNode(nodes: seq<V1Node>, i: nat, plan: Plan): V2Node
    requires i < |nodes|
  {
    var n := nodes[i];
    match n
    case Script(id, next, _) =>
      Script2(id, if next.Some? then next else ArrayNext(nodes, i), OutcomeToEdge(nodes, i, OnFailure(n), plan))
    case Gate(id, _, _) =>
      Gate2(id, OutcomeToEdge(nodes, i, Then(n), plan), OutcomeToEdge(nodes, i, Else(n), plan))
  }

  function FinishNode(id: Option<Id>, status: Status): seq<V2Node> {
    if id.Some? then [Finish2(id.value, status)] else []
  }

  function Convert(nodes: seq<V1Node>, plan: Plan): V2Doc
    requires nodes != []
  {
    V2Doc(plan.startId,
          [Start2(plan.startId, Some(nodes[0].id))]
          + seq(|nodes|, i requires 0 <= i < |nodes| => ConvertNode(nodes, i, plan))
          + FinishNode(plan.succeedId, Succeeded) + FinishNode(plan.failId, Failed))
  }

  /** The v2 schema's own rules about nodes. */
  predicate SchemaAccepts(doc: V2Doc) {
    && 1 <= |doc.nodes| <= MAX_NODES
    && UniqueV2(doc.nodes)
    && (exists i | 0 <= i < |doc.nodes| :: doc.nodes[i].id == doc.entry && doc.nodes[i].Start2?)
    && (forall i, j | 0 <= i < j < |doc.nodes| :: !(doc.nodes[i].Start2? && doc.nodes[j].Start2?))
  }

  datatype Upgraded = Upgraded(doc: V2Doc) | BadV1Shape | NoFreshId | SchemaRefused

  /** `upgradeWorkflowDoc` on a v1 document. */
  function Upgrade(nodes: seq<V1Node>): Upgraded {
    if !(1 <= |nodes| <= MAX_NODES) then BadV1Shape else
    match MakePlan(nodes)
    case None => NoFreshId
    case Some(plan) =>
      var doc := Convert(nodes, plan);
      if SchemaAccepts(doc) then Upgraded(doc) else SchemaRefused
  }

  // ------------------------------------------------------ when it is accepted

  function Count(b: bool): nat { if b then 1 else 0 }

  lemma PlanExists(nodes: seq<V1Node>)
    requires |nodes| <= MAX_NODES
    ensures MakePlan(nodes).Some?
  {
    var ids := IdsOf(nodes);
    FreshIdFound("start", ids);
    var startId := FreshId("start", ids).value;
    FreshIdFound("finish-succeed", ids + {startId});
    var s := OptionalFreshId(NeedsSucceed(nodes), "finish-succeed", ids + {startId}).value;
    FreshIdFound("finish-failed", ids + {startId} + Ids(s));
  }

  /** The plan's ids are new, and different from each other. */
  lemma PlanIsFresh(nodes: seq<V1Node>)
    requires MakePlan(nodes).Some?
    ensures var p := MakePlan(nodes).value;
      && (p.succeedId.Some? <==> NeedsSucceed(nodes)) && (p.failId.Some? <==> NeedsFail(nodes))
      && (forall i | 0 <= i < |nodes| ::
            nodes[i].id != p.startId && p.succeedId != Some(nodes[i].id) && p.failId != Some(nodes[i].id))
      && p.succeedId != Some(p.startId) && p.failId != Some(p.startId)
      && (p.succeedId.Some? ==> p.succeedId != p.failId)
  {
  }

  /** The converted nodes, one by one. */
  lemma Layout(nodes: seq<V1Node>, plan: Plan)
    requires nodes != []
    ensures var ns, n := Convert(nodes, plan).nodes, |nodes|;
      && |ns| == n + 1 + |Ids(plan.succeedId)| + |Ids(plan.failId)|
      && ns[0] == Start2(plan.startId, Some(nodes[0].id))
      && (forall i | 0 <= i < n :: ns[i + 1] == ConvertNode(nodes, i, plan))
      && (plan.succeedId.Some? ==> ns[n + 1] == Finish2(plan.succeedId.value, Succeeded))
      && (plan.failId.Some? ==> ns[|ns| - 1] == Finish2(plan.failId.value, Failed))
  {
  }

  /** The id at place `k` of the converted document. */
  function IdAt(nodes: seq<V1Node>, plan: Plan, k: nat): Id {
    if k == 0 then plan.startId
    else if k <= |nodes| then nodes[k - 1].id
    else if k == |nodes| + 1 && plan.succeedId.Some? then plan.succeedId.value
    else if plan.failId.Some? then plan.failId.value
    else plan.startId
  }

  lemma IdsInPlace(nodes: seq<V1Node>, plan: Plan, k: nat)
    requires nodes != [] && k < |Convert(nodes, plan).nodes|
    ensures Convert(nodes, plan).nodes[k].id == IdAt(nodes, plan, k)
    ensures k > |nodes| ==> plan.failId.Some? || (plan.succeedId.Some? && k == |nodes| + 1)
    ensures k > |nodes| + 1 ==> plan.failId.Some? && plan.succeedId.Some? && k == |nodes| + 2
  {
    var ns := Convert(nodes, plan).nodes;
    Layout(nodes, plan);
    if 0 < k <= |nodes| { assert ns[k - 1 + 1] == ConvertNode(nodes, k - 1, plan); }
  }

  lemma DistinctPlaces(nodes: seq<V1Node>, plan: Plan, j: nat, k: nat)
    requires nodes != [] && MakePlan(nodes) == Some(plan) && UniqueV1(nodes)
    requires j < k < |Convert(nodes, plan).nodes|
    ensures IdAt(nodes, plan, j) != IdAt(nodes, plan, k)
  {
    hide Convert, MakePlan, NeedsSucceed, NeedsFail;
    PlanIsFresh(nodes);
    IdsInPlace(nodes, plan, j);
    IdsInPlace(nodes, plan, k);
  }

  lemma ConvertedIdsUnique(nodes: seq<V1Node>)
    requires nodes != [] && MakePlan(nodes).Some?
    ensures UniqueV2(Convert(nodes, MakePlan(nodes).value).nodes) <==> UniqueV1(nodes)
  {
    var plan := MakePlan(nodes).value;
    var ns := Convert(nodes, plan).nodes;
    Layout(nodes, plan);
    hide Convert, MakePlan, ConvertNode;
    if UniqueV1(nodes) {
      forall j, k | 0 <= j < k < |ns|
        ensures ns[j].id != ns[k].id
      {
        IdsInPlace(nodes, plan, j);
        IdsInPlace(nodes, plan, k);
        DistinctPlaces(nodes, plan, j, k);
      }
    } else {
      var i, j :| 0 <= i < j < |nodes| && nodes[i].id == nodes[j].id;
      IdsInPlace(nodes, plan, i + 1);
      IdsInPlace(nodes, plan, j + 1);
      assert ns[i + 1].id == ns[j + 1].id;
    }
  }

  /**
   * A document upgrades if and only if its ids are unique and it leaves room for the
   * nodes the conversion adds. A v1 document of full size therefore does not.
   */
  lemma UpgradesIff(nodes: seq<V1Node>)
    ensures Upgrade(nodes).Upgraded? <==>
      nodes != [] && UniqueV1(nodes)
      && |nodes| + 1 + Count(NeedsSucceed(nodes)) + Count(NeedsFail(nodes)) <= MAX_NODES
  {
    hide Convert, MakePlan, NeedsSucceed, NeedsFail, UniqueV1, UniqueV2;
    if 1 <= |nodes| <= MAX_NODES {
      PlanExists(nodes);
      ConvertedIdsUnique(nodes);
      ConvertedSize(nodes, MakePlan(nodes).value);
    }
  }

  lemma ConvertedSize(nodes: seq<V1Node>, plan: Plan)
    requires nodes != [] && MakePlan(nodes) == Some(plan)
    ensures var doc := Convert(nodes, plan);
      && |doc.nodes| == |nodes| + 1 + Count(NeedsSucceed(nodes)) + Count(NeedsFail(nodes))
      && doc.nodes[0].id == doc.entry && doc.nodes[0].Start2?
      && forall k | 0 < k < |doc.nodes| :: !doc.nodes[k].Start2?
  {
    PlanIsFresh(nodes);
    Layout(nodes, plan);
    OneStart(nodes, plan);
  }

  /** A step of a node, by what came of it. */
  function GoOf(n: V1Node, ok: bool): Go {
    if n.Script? then OnFailure(n) else if ok then Then(n) else Else(n)
  }

  /** A `finish` is needed exactly where an outcome ends the run so: a gate's as a success, anyone's as a failure. */
  lemma FinishNeededIff(nodes: seq<V1Node>)
    ensures NeedsSucceed(nodes) <==>
      exists i, ok | 0 <= i < |nodes| :: nodes[i].Gate? && Perform(nodes, i, GoOf(nodes[i], ok)) == ToEnd(Succeeded)
    ensures NeedsFail(nodes) <==>
      exists i, ok | 0 <= i < |nodes| :: Perform(nodes, i, GoOf(nodes[i], ok)) == ToEnd(Failed)
  {
    if i :| 0 <= i < |nodes| && GateNeedsSucceed(nodes, i) {
      assert GoOf(nodes[i], true) == Then(nodes[i]) && GoOf(nodes[i], false) == Else(nodes[i]);
    }
    if i :| 0 <= i < |nodes| && NodeNeedsFail(nodes[i]) {
      assert nodes[i].Gate? ==> GoOf(nodes[i], true) == Then(nodes[i]) && GoOf(nodes[i], false) == Else(nodes[i]);
      assert nodes[i].Script? ==> GoOf(nodes[i], true) == OnFailure(nodes[i]);
    }
    if i, ok :| 0 <= i < |nodes| && nodes[i].Gate? && Perform(nodes, i, GoOf(nodes[i], ok)) == ToEnd(Succeeded) {
      assert GateNeedsSucceed(nodes, i);
    }
    if i, ok :| 0 <= i < |nodes| && Perform(nodes, i, GoOf(nodes[i], ok)) == ToEnd(Failed) {
      assert NodeNeedsFail(nodes[i]);
    }
  }

  /** What a document is refused as: its own shape, or what it would grow to; ids never run out. */
  lemma RefusedAs(nodes: seq<V1Node>)
    ensures Upgrade(nodes) == BadV1Shape <==> nodes == [] || |nodes| > 50
    ensures Upgrade(nodes) != NoFreshId
    ensures Upgrade(nodes) == SchemaRefused <==>
      1 <= |nodes| <= 50
      && (!UniqueV1(nodes) || |nodes| + 1 + Count(NeedsSucceed(nodes)) + Count(NeedsFail(nodes)) > 50)
  {
    hide Convert, MakePlan, NeedsSucceed, NeedsFail, UniqueV1, UniqueV2, SchemaAccepts;
    UpgradesIff(nodes);
    if |nodes| <= MAX_NODES { PlanExists(nodes); }
  }

  lemma OneStart(nodes: seq<V1Node>, plan: Plan)
    requires nodes != []
    ensures var ns := Convert(nodes, plan).nodes; forall i | 0 < i < |ns| :: !ns[i].Start2?
  {
    var ns := Convert(nodes, plan).nodes;
    Layout(nodes, plan);
    forall i | 0 < i < |ns|
      ensures !ns[i].Start2?
    {
      if i <= |nodes| { assert ns[i - 1 + 1] == ConvertNode(nodes, i - 1, plan); }
    }
  }

  // ------------------------------------------------- when it changes the runs

  /** A script failure that is to end the run well, in a document that got no `finish` to end it at. */
  predicate LosesSuccess(nodes: seq<V1Node>) {
    && !NeedsSucceed(nodes)
    && exists i | 0 <= i < |nodes| :: nodes[i].Script? && GoNeedsSucceed(nodes, i, OnFailure(nodes[i]))
  }

  /** `doc` is what `nodes` converts to. */
  ghost predicate Converted(nodes: seq<V1Node>, doc: V2Doc) {
    nodes != [] && UniqueV1(nodes) && MakePlan(nodes).Some? && doc == Convert(nodes, MakePlan(nodes).value)
  }

  /** Node `i` stands one place later in the converted document, and is found there. */
  ghost predicate Placed(nodes: seq<V1Node>, doc: V2Doc, i: nat) {
    && Converted(nodes, doc)
    && i < |nodes| && i + 1 < |doc.nodes|
    && IndexV1(nodes, nodes[i].id) == Some(i) && IndexV2(doc.nodes, nodes[i].id) == Some(i + 1)
    && doc.nodes[i + 1] == ConvertNode(nodes, i, MakePlan(nodes).value)
  }

  /** Following an edge of the converted document. */
  lemma FollowConverted(nodes: seq<V1Node>, doc: V2Doc, edge: Option<Id>, dangling: Status)
    requires Converted(nodes, doc)
    ensures edge.Some? && (exists i :: 0 <= i < |nodes| && nodes[i].id == edge.value) ==>
      Follow(doc, edge, dangling) == ToNode(edge.value)
    ensures var p := MakePlan(nodes).value;
      && (edge.Some? && edge == p.succeedId ==> Follow(doc, edge, dangling) == ToEnd(Succeeded))
      && (edge.Some? && edge == p.failId ==> Follow(doc, edge, dangling) == ToEnd(Failed))
  {
    hide Convert, MakePlan, NeedsSucceed, NeedsFail, Follow;
    var plan := MakePlan(nodes).value;
    if edge.Some? {
      if i :| 0 <= i < |nodes| && nodes[i].id == edge.value { FollowToStep(nodes, doc, i, dangling); }
      FollowToFinish(nodes, doc, edge, dangling);
    }
  }

  lemma FollowToStep(nodes: seq<V1Node>, doc: V2Doc, i: nat, dangling: Status)
    requires Converted(nodes, doc) && i < |nodes|
    ensures Follow(doc, Some(nodes[i].id), dangling) == ToNode(nodes[i].id)
  {
    var plan := MakePlan(nodes).value;
    ConvertedIdsUnique(nodes);
    Layout(nodes, plan);
    hide Convert, MakePlan, UniqueV1, UniqueV2;
    assert doc.nodes[i + 1] == ConvertNode(nodes, i, plan);
    IndexV2Is(doc.nodes, i + 1);
  }

  lemma FollowToFinish(nodes: seq<V1Node>, doc: V2Doc, edge: Option<Id>, dangling: Status)
    requires Converted(nodes, doc) && edge.Some?
    ensures var p := MakePlan(nodes).value;
      && (edge == p.succeedId ==> Follow(doc, edge, dangling) == ToEnd(Succeeded))
      && (edge == p.failId ==> Follow(doc, edge, dangling) == ToEnd(Failed))
  {
    var plan := MakePlan(nodes).value;
    ConvertedIdsUnique(nodes);
    Layout(nodes, plan);
    hide Convert, MakePlan, ConvertNode, UniqueV1, UniqueV2;
    if edge == plan.succeedId { IndexV2Is(doc.nodes, |nodes| + 1); }
    if edge == plan.failId { IndexV2Is(doc.nodes, |doc.nodes| - 1); }
  }

  /** What an outcome's edge leads to, against what the outcome means. */
  lemma OutcomeKept(nodes: seq<V1Node>, doc: V2Doc, i: nat, go: Go, dangling: Status)
    requires Converted(nodes, doc)
    requires i < |nodes| && NamesV1(nodes, Perform(nodes, i, go))
    requires go.Fail? ==> NeedsFail(nodes)
    ensures Follow(doc, OutcomeToEdge(nodes, i, go, MakePlan(nodes).value), dangling) == Perform(nodes, i, go)
      <==> (GoNeedsSucceed(nodes, i, go) && !NeedsSucceed(nodes) ==> dangling == Succeeded)
  {
    PlanIsFresh(nodes);
    FollowConverted(nodes, doc, OutcomeToEdge(nodes, i, go, MakePlan(nodes).value), dangling);
    hide Convert, MakePlan, NeedsSucceed, NeedsFail, UniqueV1;
    if i + 1 < |nodes| { assert nodes[i + 1].id == nodes[i + 1].id; }
  }

  /** Position `i` steps alike in both documents unless it is a script whose failure loses its success. */
  lemma StepKept(nodes: seq<V1Node>, doc: V2Doc, i: nat)
    requires Closed(nodes) && Upgrade(nodes) == Upgraded(doc) && i < |nodes|
    ensures (forall ok :: V1Next(nodes, nodes[i].id, ok) == V2Next(doc, nodes[i].id, ok))
      <==> !(nodes[i].Script? && GoNeedsSucceed(nodes, i, OnFailure(nodes[i])) && !NeedsSucceed(nodes))
  {
    PlacedStep(nodes, doc, i);
    hide Upgrade, Convert, MakePlan, Follow, UniqueV1, UniqueV2, Closed, V1Next, V2Next, GoNeedsSucceed, NeedsSucceed;
    var id := nodes[i].id;
    assert (forall ok :: V1Next(nodes, id, ok) == V2Next(doc, id, ok))
      <==> V1Next(nodes, id, true) == V2Next(doc, id, true) && V1Next(nodes, id, false) == V2Next(doc, id, false);
    match nodes[i]
    case Script(_, next, _) => ScriptKept(nodes, doc, i);
    case Gate(_, _, _) => GateKept(nodes, doc, i);
  }

  lemma PlacedStep(nodes: seq<V1Node>, doc: V2Doc, i: nat)
    requires Closed(nodes) && Upgrade(nodes) == Upgraded(doc) && i < |nodes|
    ensures Placed(nodes, doc, i)
    ensures NamesV1(nodes, V1Next(nodes, nodes[i].id, true)) && NamesV1(nodes, V1Next(nodes, nodes[i].id, false))
  {
    hide Upgrade, Convert, MakePlan, NeedsSucceed, NeedsFail, V1Next, NamesV1, Closed, ConvertNode, UniqueV1, UniqueV2;
    NamedSteps(nodes, i);
    UpgradedIsConverted(nodes, doc);
    NodeInPlace(nodes, MakePlan(nodes).value, i);
    IndexV1Is(nodes, i);
    IndexV2Is(doc.nodes, i + 1);
  }

  lemma NamedSteps(nodes: seq<V1Node>, i: nat)
    requires Closed(nodes) && i < |nodes|
    ensures NamesV1(nodes, V1Next(nodes, nodes[i].id, true)) && NamesV1(nodes, V1Next(nodes, nodes[i].id, false))
  {
    hide NamesV1, V1Next;
  }

  lemma UpgradedIsConverted(nodes: seq<V1Node>, doc: V2Doc)
    requires Upgrade(nodes) == Upgraded(doc)
    ensures Converted(nodes, doc) && UniqueV2(doc.nodes)
  {
    hide Convert, MakePlan, UniqueV1, UniqueV2, NeedsSucceed, NeedsFail;
    UpgradesIff(nodes);
    ConvertedIdsUnique(nodes);
  }

  lemma NodeInPlace(nodes: seq<V1Node>, plan: Plan, i: nat)
    requires i < |nodes|
    ensures var ns := Convert(nodes, plan).nodes;
      && i + 1 < |ns| && ns[i + 1] == ConvertNode(nodes, i, plan)
      && ns[i + 1].id == nodes[i].id && !ns[i + 1].Start2? && !ns[i + 1].Finish2?
  {
    Layout(nodes, plan);
    hide Convert;
  }

  lemma ScriptKept(nodes: seq<V1Node>, doc: V2Doc, i: nat)
    requires Placed(nodes, doc, i) && nodes[i].Script?
    requires NamesV1(nodes, V1Next(nodes, nodes[i].id, true)) && NamesV1(nodes, V1Next(nodes, nodes[i].id, false))
    ensures V1Next(nodes, nodes[i].id, true) == V2Next(doc, nodes[i].id, true)
    ensures V1Next(nodes, nodes[i].id, false) == V2Next(doc, nodes[i].id, false)
      <==> !(GoNeedsSucceed(nodes, i, OnFailure(nodes[i])) && !NeedsSucceed(nodes))
  {
    ScriptSuccessKept(nodes, doc, i);
    hide Convert, MakePlan, NeedsSucceed, NeedsFail, UniqueV1, GoNeedsSucceed, IndexV1, IndexV2, Follow, NamesV1;
    var go := OnFailure(nodes[i]);
    assert V1Next(nodes, nodes[i].id, false) == Perform(nodes, i, go);
    assert V2Next(doc, nodes[i].id, false) == Follow(doc, OutcomeToEdge(nodes, i, go, MakePlan(nodes).value), Failed);
    ReadFails(nodes, i);
    OutcomeKept(nodes, doc, i, go, Failed);
  }

  lemma ScriptSuccessKept(nodes: seq<V1Node>, doc: V2Doc, i: nat)
    requires Placed(nodes, doc, i) && nodes[i].Script?
    requires NamesV1(nodes, V1Next(nodes, nodes[i].id, true))
    ensures V1Next(nodes, nodes[i].id, true) == V2Next(doc, nodes[i].id, true)
  {
    var n := nodes[i];
    var edge := if n.next.Some? then n.next else ArrayNext(nodes, i);
    FollowConverted(nodes, doc, edge, Succeeded);
    hide Convert, MakePlan, IndexV1, IndexV2, Follow, OutcomeToEdge;
    assert V1Next(nodes, n.id, true) == if edge.Some? then ToNode(edge.value) else ToEnd(Succeeded);
    assert edge.None? ==> Follow(doc, edge, Succeeded) == ToEnd(Succeeded) by { DanglingEnds(doc, Succeeded); }
  }

  lemma DanglingEnds(doc: V2Doc, status: Status)
    ensures Follow(doc, None, status) == ToEnd(status)
  {
  }

  /** A node that can fail the run makes the document need a failing `finish`. */
  lemma ReadFails(nodes: seq<V1Node>, i: nat)
    requires i < |nodes|
    ensures NodeNeedsFail(nodes[i]) ==> NeedsFail(nodes)
  {
  }

  lemma GateKept(nodes: seq<V1Node>, doc: V2Doc, i: nat)
    requires Placed(nodes, doc, i) && nodes[i].Gate?
    requires NamesV1(nodes, V1Next(nodes, nodes[i].id, true)) && NamesV1(nodes, V1Next(nodes, nodes[i].id, false))
    ensures V1Next(nodes, nodes[i].id, true) == V2Next(doc, nodes[i].id, true)
    ensures V1Next(nodes, nodes[i].id, false) == V2Next(doc, nodes[i].id, false)
  {
    hide Convert, MakePlan, NeedsSucceed, NeedsFail, UniqueV1, GoNeedsSucceed, IndexV1, IndexV2, Follow, NamesV1;
    var plan := MakePlan(nodes).value;
    var yes, no := Then(nodes[i]), Else(nodes[i]);
    assert V1Next(nodes, nodes[i].id, true) == Perform(nodes, i, yes);
    assert V1Next(nodes, nodes[i].id, false) == Perform(nodes, i, no);
    assert V2Next(doc, nodes[i].id, true) == Follow(doc, OutcomeToEdge(nodes, i, yes, plan), Succeeded);
    assert V2Next(doc, nodes[i].id, false) == Follow(doc, OutcomeToEdge(nodes, i, no, plan), Succeeded);
    ReadFails(nodes, i);
    OutcomeKept(nodes, doc, i, yes, Succeeded);
    OutcomeKept(nodes, doc, i, no, Succeeded);
  }

  /** The converted document keeps every node and has no edge back to its start. */
  lemma ConvertedShape(nodes: seq<V1Node>, doc: V2Doc)
    requires Closed(nodes) && Upgrade(nodes) == Upgraded(doc)
    ensures UniqueV1(nodes) && UniqueV2(doc.nodes) && KeepsSteps(nodes, doc) && NoEdgeToStart(doc)
  {
    UpgradesIff(nodes);
    var plan := MakePlan(nodes).value;
    ConvertedIdsUnique(nodes);
    KeptSteps(nodes, plan);
    NoEdgesBack(nodes, plan);
  }

  lemma KeptSteps(nodes: seq<V1Node>, plan: Plan)
    requires nodes != []
    ensures KeepsSteps(nodes, Convert(nodes, plan))
  {
    var doc := Convert(nodes, plan);
    Layout(nodes, plan);
    hide Convert;
    forall i | 0 <= i < |nodes|
      ensures IsStep(doc, nodes[i].id)
    {
      assert doc.nodes[i + 1] == ConvertNode(nodes, i, plan);
    }
  }

  lemma NoEdgesBack(nodes: seq<V1Node>, plan: Plan)
    requires nodes != [] && Closed(nodes) && UniqueV1(nodes) && MakePlan(nodes) == Some(plan)
    ensures NoEdgeToStart(Convert(nodes, plan))
  {
    var doc := Convert(nodes, plan);
    OneStart(nodes, plan);
    hide Convert, Closed, UniqueV1, MakePlan, NoEdgeToStart, HasEdge;
    forall i, j | 0 <= i < |doc.nodes| && 0 <= j < |doc.nodes| && doc.nodes[j].Start2?
      ensures !HasEdge(doc.nodes[i], doc.nodes[j].id)
    {
      NoEdgeFrom(nodes, plan, i);
      assert j == 0;
    }
    EdgesOf(doc);
  }

  lemma NoEdgeFrom(nodes: seq<V1Node>, plan: Plan, i: nat)
    requires nodes != [] && Closed(nodes) && UniqueV1(nodes) && MakePlan(nodes) == Some(plan)
    requires i < |Convert(nodes, plan).nodes|
    ensures Convert(nodes, plan).nodes[0].id == plan.startId
    ensures !HasEdge(Convert(nodes, plan).nodes[i], plan.startId)
  {
    hide Convert, ConvertNode, Closed, UniqueV1, MakePlan;
    var doc := Convert(nodes, plan);
    Layout(nodes, plan);
    if 0 < i <= |nodes| {
      assert doc.nodes[i - 1 + 1] == ConvertNode(nodes, i - 1, plan);
      NoEdgeBack(nodes, plan, i - 1);
    } else if i > |nodes| {
      assert i == |nodes| + 1 || i == |doc.nodes| - 1;
      assert doc.nodes[i].Finish2?;
    }
  }

  lemma EdgesOf(doc: V2Doc)
    ensures NoEdgeToStart(doc) <==>
      forall i, j | 0 <= i < |doc.nodes| && 0 <= j < |doc.nodes| && doc.nodes[j].Start2? ::
        !HasEdge(doc.nodes[i], doc.nodes[j].id)
  {
  }

  /** A script or gate with an edge to `id`. */
  predicate HasEdge(n: V2Node, id: Id) {
    match n
    case Script2(_, next, onFailure) => next == Some(id) || onFailure == Some(id)
    case Gate2(_, then_, else_) => then_ == Some(id) || else_ == Some(id)
    case _ => false
  }

  lemma NoEdgeBack(nodes: seq<V1Node>, plan: Plan, i: nat)
    requires Closed(nodes) && UniqueV1(nodes) && i < |nodes| && MakePlan(nodes) == Some(plan)
    ensures !HasEdge(ConvertNode(nodes, i, plan), plan.startId)
  {
    PlanIsFresh(nodes);
    IndexV1Is(nodes, i);
    var n := nodes[i];
    assert NamesV1(nodes, V1Next(nodes, n.id, true)) && NamesV1(nodes, V1Next(nodes, n.id, false));
    hide MakePlan, NeedsSucceed, NeedsFail, Closed, UniqueV1, NamesV1;
    match n
    case Script(_, next, _) =>
      EdgeElsewhere(nodes, plan, i, OnFailure(n));
      if next.Some? { assert NamesV1(nodes, ToNode(next.value)); NamedIsNotStart(nodes, plan, next.value); }
    case Gate(_, _, _) =>
      EdgeElsewhere(nodes, plan, i, Then(n));
      EdgeElsewhere(nodes, plan, i, Else(n));
  }

  lemma NamedIsNotStart(nodes: seq<V1Node>, plan: Plan, id: Id)
    requires NamesV1(nodes, ToNode(id)) && forall i | 0 <= i < |nodes| :: nodes[i].id != plan.startId
    ensures id != plan.startId
  {
  }

  lemma EdgeElsewhere(nodes: seq<V1Node>, plan: Plan, i: nat, go: Go)
    requires NamesV1(nodes, Perform(nodes, i, go))
    requires forall j | 0 <= j < |nodes| :: nodes[j].id != plan.startId
    requires plan.succeedId != Some(plan.startId) && plan.failId != Some(plan.startId)
    ensures OutcomeToEdge(nodes, i, go, plan) != Some(plan.startId)
  {
    if go.Goto? { NamedIsNotStart(nodes, plan, go.node); }
  }

  /** Where a run of the upgraded document starts. */
  function EntryTarget(doc: V2Doc): Target {
    Follow(doc, Some(doc.entry), Succeeded)
  }

  lemma EntryIsFirstNode(nodes: seq<V1Node>, doc: V2Doc)
    requires Upgrade(nodes) == Upgraded(doc)
    ensures EntryTarget(doc) == ToNode(nodes[0].id)
  {
    hide Upgrade, Convert, MakePlan, NeedsSucceed, NeedsFail, UniqueV1, UniqueV2, ConvertNode;
    UpgradedIsConverted(nodes, doc);
    var plan := MakePlan(nodes).value;
    Layout(nodes, plan);
    ConvertedSize(nodes, plan);
    NodeInPlace(nodes, plan, 0);
    IndexV2Is(doc.nodes, 0);
    IndexV2Is(doc.nodes, 1);
  }

  /**
   * The upgrade is a no-op for every run, from the entry and from every other node,
   * if and only if no script failure loses its success; and the checker says so.
   */
  lemma UpgradeIsExact(nodes: seq<V1Node>, doc: V2Doc)
    requires Closed(nodes) && Upgrade(nodes) == Upgraded(doc)
    ensures SameRuns(nodes, doc) <==> !LosesSuccess(nodes)
    ensures Divergences(nodes, doc) == [] <==> !LosesSuccess(nodes)
    ensures !LosesSuccess(nodes) ==>
      forall outcomes :: V1Run(nodes, ToNode(nodes[0].id), outcomes) == V2Run(doc, EntryTarget(doc), outcomes)
  {
    ConvertedShape(nodes, doc);
    CheckerIsExact(nodes, doc);
    SameRunsIffSameSteps(nodes, doc);
    EntryIsFirstNode(nodes, doc);
    UpgradesIff(nodes);
    forall i | 0 <= i < |nodes|
      ensures (forall ok :: V1Next(nodes, nodes[i].id, ok) == V2Next(doc, nodes[i].id, ok))
        <==> !(nodes[i].Script? && GoNeedsSucceed(nodes, i, OnFailure(nodes[i])) && !NeedsSucceed(nodes))
    {
      StepKept(nodes, doc, i);
    }
    hide V1Next, V2Next, Upgrade, NeedsSucceed, GoNeedsSucceed, Divergences;
  }

  /** A script alone that stops when it fails: the run that succeeded in v1 fails in v2. */
  lemma LostSuccessExample()
    ensures var nodes := [Script("a", None, Some(Stop))];
      && Closed(nodes) && LosesSuccess(nodes) && Upgrade(nodes).Upgraded?
      && V1Run(nodes, ToNode("a"), [false]) == Run(["a"], ToEnd(Succeeded))
      && V2Run(Upgrade(nodes).doc, ToNode("a"), [false]) == Run(["a"], ToEnd(Failed))
  {
    var n := Script("a", None, Some(Stop));
    var nodes := [n];
    assert nodes[0] == n && GoNeedsSucceed(nodes, 0, OnFailure(n));
    assert IndexV1(nodes, "a") == Some(0);
    UpgradesIff(nodes);
    var doc := Upgrade(nodes).doc;
    StepKept(nodes, doc, 0);
    OneStep(nodes, doc, "a", false);
    LostStep(nodes, doc);
    assert [false][1..] == [];
  }

  lemma LostStep(nodes: seq<V1Node>, doc: V2Doc)
    requires nodes == [Script("a", None, Some(Stop))] && Upgrade(nodes) == Upgraded(doc)
    ensures V2Next(doc, "a", false) == ToEnd(Failed)
  {
    UpgradesIff(nodes);
    var plan := MakePlan(nodes).value;
    PlanIsFresh(nodes);
    ConvertedIdsUnique(nodes);
    Layout(nodes, plan);
    assert !GateNeedsSucceed(nodes, 0);
    assert doc.nodes[1] == ConvertNode(nodes, 0, plan) && doc.nodes[1].id == "a";
    IndexV2Is(doc.nodes, 1);
  }
}
