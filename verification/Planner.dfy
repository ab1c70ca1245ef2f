/** Layered topological planning of a workflow's steps. */
module Planner {
  import opened Common
  import opened WorkflowModel
  import opened Dag

  datatype PlanError =
    | EmptyWorkflow
    | DuplicateStep(id: string)
    | UnknownDependency(step: string, dep: string)
    | CycleDetected

  type Plan = seq<seq<StepDef>>

  /** Layer `k` holds, once each, the steps whose longest dependency chain has `k` edges; no layer is empty. */
  ghost predicate IsPlan(steps: seq<StepDef>, layers: Plan) {
    && (forall k :: 0 <= k < |layers| ==> layers[k] != [] && DistinctIds(layers[k]))
    && (forall k, s {:trigger AtDepth(steps, k, s)} :: 0 <= k < |layers| && s in layers[k] ==> AtDepth(steps, k, s))
    && (forall s {:trigger Placed(layers, s)} :: s in steps ==> Placed(layers, s))
  }

  ghost predicate AtDepth(steps: seq<StepDef>, k: nat, s: StepDef) {
    s in steps && LongestChain(steps, s.id, k)
  }

  predicate Placed(layers: Plan, s: StepDef) {
    exists k :: 0 <= k < |layers| && s in layers[k]
  }

  /** The error a rejected step list is reported with: the first repeated id, else the first unknown dependency. */
  ghost predicate IsPlanError(steps: seq<StepDef>, e: PlanError) {
    match e
    case EmptyWorkflow => steps == []
    case DuplicateStep(id) =>
      exists i :: 0 <= i < |steps| && steps[i].id == id && id in Ids(steps[..i]) && DistinctIds(steps[..i])
    case UnknownDependency(step, dep) =>
      && DistinctIds(steps)
      && exists i: nat, j: nat :: StopsAt(steps, Ids(steps), i, j) && steps[i].id == step && steps[i].dependsOn[j] == dep
    case CycleDetected => steps != [] && DistinctIds(steps) && DepsExist(steps) && !Acyclic(steps)
  }

  // ---- The three tables of the algorithm -------------------------------------------------

  predicate IsStepMap(steps: seq<StepDef>, stepMap: map<string, StepDef>) {
    && stepMap.Keys == Ids(steps)
    && (forall s :: s in steps ==> stepMap[s.id] == s)
    && (forall x :: x in stepMap ==> stepMap[x] in steps && stepMap[x].id == x)
  }

  function Count(q: seq<string>, x: string): nat {
    if q == [] then 0
    else Count(q[..|q| - 1], x) + if q[|q| - 1] == x then 1 else 0
  }

  lemma CountAppend(q: seq<string>, y: string, x: string)
    ensures Count(q + [y], x) == Count(q, x) + if y == x then 1 else 0
  {
    assert (q + [y])[..|q|] == q;
  }

  lemma {:induction false} PrefixMisses(q: seq<string>, j: nat)
    requires j < |q|
    ensures Count(q[..j], q[j]) < Count(q, q[j])
  {
    if j < |q| - 1 {
      assert q[..|q| - 1][..j] == q[..j];
      PrefixMisses(q[..|q| - 1], j);
    }
  }

  lemma {:induction false} CountPositive(q: seq<string>, x: string)
    ensures Count(q, x) > 0 <==> x in q
  {
    if q == [] {
    } else {
      CountPositive(q[..|q| - 1], x);
      assert q == q[..|q| - 1] + [q[|q| - 1]];
    }
  }

  /** How many entries of a dependency list are not yet done; repeated entries count separately. */
  function Pending(deps: seq<string>, done: set<string>): nat {
    if deps == [] then 0
    else Pending(deps[..|deps| - 1], done) + if deps[|deps| - 1] in done then 0 else 1
  }

  lemma {:induction false} PendingNone(deps: seq<string>, done: set<string>)
    ensures Pending(deps, done) == 0 <==> forall d :: d in deps ==> d in done
  {
    if deps == [] {
    } else {
      PendingNone(deps[..|deps| - 1], done);
      assert deps == deps[..|deps| - 1] + [deps[|deps| - 1]];
    }
  }

  lemma {:induction false} PendingAll(deps: seq<string>)
    ensures Pending(deps, {}) == |deps|
  {
    if deps == [] {
    } else {
      PendingAll(deps[..|deps| - 1]);
    }
  }

  /** Finishing a step settles exactly the entries that name it. */
  lemma {:induction false} PendingAfter(deps: seq<string>, done: set<string>, id: string)
    requires id !in done
    ensures Pending(deps, done + {id}) == Pending(deps, done) - Count(deps, id)
  {
    if deps == [] {
    } else {
      PendingAfter(deps[..|deps| - 1], done, id);
    }
  }

  lemma DepsOfMapped(steps: seq<StepDef>, stepMap: map<string, StepDef>, x: string)
    requires IsStepMap(steps, stepMap) && x in stepMap
    ensures forall d :: d in Deps(steps, x) <==> d in stepMap[x].dependsOn
  {
    assert stepMap[x] in steps;
    forall s | s in steps && s.id == x ensures s == stepMap[x] {}
  }

  /** The adjacency lists hold each dependency entry once, turned round. */
  ghost predicate IsAdjacency(stepMap: map<string, StepDef>, adj: map<string, seq<string>>) {
    && adj.Keys == stepMap.Keys
    && (forall y, x :: y in adj && x in adj[y] ==> x in stepMap)
    && (forall y, x {:trigger Mirrors(stepMap, adj, y, x)} :: y in adj && x in stepMap ==> Mirrors(stepMap, adj, y, x))
  }

  predicate Mirrors(stepMap: map<string, StepDef>, adj: map<string, seq<string>>, y: string, x: string)
    requires y in adj && x in stepMap
  {
    Count(adj[y], x) == Count(stepMap[x].dependsOn, y)
  }

  method IndexSteps(steps: seq<StepDef>) returns (r: Result<map<string, StepDef>, PlanError>)
    ensures r.Success? <==> DistinctIds(steps)
    ensures r.Success? ==> IsStepMap(steps, r.value)
    ensures r.Failure? ==> r.error.DuplicateStep? && IsPlanError(steps, r.error)
  {
    var stepMap: map<string, StepDef> := map[];
    for i := 0 to |steps|
      invariant DistinctIds(steps[..i]) && IsStepMap(steps[..i], stepMap)
    {
      var step := steps[i];
      if step.id in stepMap {
        assert stepMap[step.id] in steps[..i];
        return Failure(DuplicateStep(step.id));
      }
      stepMap := stepMap[step.id := step];
      assert steps[..i + 1] == steps[..i] + [step];
    }
    assert steps[..|steps|] == steps;
    r := Success(stepMap);
  }

  /** The dependency entries of step `j` counted once the loop stands at entry `b` of step `a`. */
  function Counted(steps: seq<StepDef>, a: nat, b: nat, j: nat): seq<string>
    requires j < |steps| && (a < |steps| ==> b <= |steps[a].dependsOn|)
  {
    if j < a then steps[j].dependsOn else if j == a then steps[j].dependsOn[..b] else []
  }

  ghost predicate CountedSoFar(steps: seq<StepDef>, ids: set<string>, a: nat, b: nat,
                               inDegree: map<string, int>, adj: map<string, seq<string>>)
    requires a < |steps| ==> b <= |steps[a].dependsOn|
  {
    && inDegree.Keys == adj.Keys == ids
    && (forall j :: 0 <= j < |steps| ==> steps[j].id in ids)
    && (forall y, x :: y in adj && x in adj[y] ==> x in ids)
    && (forall j :: 0 <= j < |steps| ==> inDegree[steps[j].id] == |Counted(steps, a, b, j)|)
    && (forall j, y :: 0 <= j < |steps| && y in adj ==> CountedEntry(steps, a, b, j, y, adj))
  }

  predicate CountedEntry(steps: seq<StepDef>, a: nat, b: nat, j: nat, y: string, adj: map<string, seq<string>>)
    requires j < |steps| && (a < |steps| ==> b <= |steps[a].dependsOn|) && y in adj
  {
    Count(adj[y], steps[j].id) == Count(Counted(steps, a, b, j), y)
  }

  /** One more entry of step `a` itself. */
  lemma CountOwnEntry(deps: seq<string>, b: nat, y: string, adjacent: seq<string>, x: string)
    requires b < |deps| && Count(adjacent, x) == Count(deps[..b], y)
    ensures Count(if y == deps[b] then adjacent + [x] else adjacent, x) == Count(deps[..b + 1], y)
  {
    assert deps[..b + 1] == deps[..b] + [deps[b]];
    CountAppend(deps[..b], deps[b], y);
    CountAppend(adjacent, x, x);
  }

  lemma CountEntryMore(steps: seq<StepDef>, a: nat, b: nat, j: nat, y: string,
                       adj: map<string, seq<string>>, adj': map<string, seq<string>>)
    requires a < |steps| && b < |steps[a].dependsOn| && j < |steps| && y in adj
    requires j != a ==> steps[j].id != steps[a].id
    requires CountedEntry(steps, a, b, j, y, adj)
    requires y in adj' && adj'[y] == if y == steps[a].dependsOn[b] then adj[y] + [steps[a].id] else adj[y]
    ensures CountedEntry(steps, a, b + 1, j, y, adj')
  {
    if j == a {
      CountOwnEntry(steps[a].dependsOn, b, y, adj[y], steps[a].id);
    } else {
      CountAppend(adj[y], steps[a].id, steps[j].id);
    }
  }

  lemma CountOneMore(steps: seq<StepDef>, ids: set<string>, a: nat, b: nat,
                     inDegree: map<string, int>, adj: map<string, seq<string>>)
    requires DistinctIds(steps) && a < |steps| && b < |steps[a].dependsOn|
    requires CountedSoFar(steps, ids, a, b, inDegree, adj) && steps[a].dependsOn[b] in ids
    ensures
      var x, dep := steps[a].id, steps[a].dependsOn[b];
      CountedSoFar(steps, ids, a, b + 1, inDegree[x := inDegree[x] + 1], adj[dep := adj[dep] + [x]])
  {
    var x, dep := steps[a].id, steps[a].dependsOn[b];
    var adj' := adj[dep := adj[dep] + [x]];
    var b' := b + 1;
    forall j, y | 0 <= j < |steps| && y in adj'
      ensures CountedEntry(steps, a, b', j, y, adj')
    {
      assert CountedEntry(steps, a, b, j, y, adj);
      CountEntryMore(steps, a, b, j, y, adj, adj');
    }
    forall j | 0 <= j < |steps| && j != a
      ensures Counted(steps, a, b + 1, j) == Counted(steps, a, b, j) && steps[j].id != x
    {}
  }

  lemma CountNextStep(steps: seq<StepDef>, ids: set<string>, a: nat,
                      inDegree: map<string, int>, adj: map<string, seq<string>>)
    requires a < |steps| && CountedSoFar(steps, ids, a, |steps[a].dependsOn|, inDegree, adj)
    ensures CountedSoFar(steps, ids, a + 1, 0, inDegree, adj)
  {
    forall j | 0 <= j < |steps|
      ensures Counted(steps, a + 1, 0, j) == Counted(steps, a, |steps[a].dependsOn|, j)
    {}
    var a' := a + 1;
    forall j, y | 0 <= j < |steps| && y in adj ensures CountedEntry(steps, a', 0, j, y, adj) {
      assert CountedEntry(steps, a, |steps[a].dependsOn|, j, y, adj);
    }
  }

  lemma CountingDone(steps: seq<StepDef>, stepMap: map<string, StepDef>,
                     inDegree: map<string, int>, adj: map<string, seq<string>>)
    requires IsStepMap(steps, stepMap) && CountedSoFar(steps, stepMap.Keys, |steps|, 0, inDegree, adj)
    ensures IsAdjacency(stepMap, adj) && DegreesAt(stepMap, inDegree, {})
  {
    forall x | x in stepMap
      ensures inDegree[x] == Pending(stepMap[x].dependsOn, {})
      ensures forall y :: y in adj ==> Mirrors(stepMap, adj, y, x)
    {
      var j :| 0 <= j < |steps| && steps[j] == stepMap[x];
      PendingAll(steps[j].dependsOn);
      forall y | y in adj ensures Mirrors(stepMap, adj, y, x) {
        assert CountedEntry(steps, |steps|, 0, j, y, adj);
      }
    }
  }

  predicate KnownUpTo(steps: seq<StepDef>, ids: set<string>, a: nat)
    requires a <= |steps|
  {
    forall k :: 0 <= k < a ==> Known(steps[k], ids)
  }

  predicate Known(step: StepDef, ids: set<string>) {
    forall d :: d in step.dependsOn ==> d in ids
  }

  lemma KnownIsDepsExist(steps: seq<StepDef>)
    ensures DepsExist(steps) <==> KnownUpTo(steps, Ids(steps), |steps|)
  {
    if KnownUpTo(steps, Ids(steps), |steps|) {
      forall s | s in steps ensures Known(s, Ids(steps)) {}
    } else {
      var k :| 0 <= k < |steps| && !Known(steps[k], Ids(steps));
      assert steps[k] in steps;
    }
  }

  /** Counts the entries of step `a`, up to the first one that names no step. */
  method CountEntries(steps: seq<StepDef>, stepMap: map<string, StepDef>, a: nat,
                      inDegree0: map<string, int>, adj0: map<string, seq<string>>)
    returns (b: nat, inDegree: map<string, int>, adj: map<string, seq<string>>)
    requires DistinctIds(steps) && a < |steps|
    requires CountedSoFar(steps, stepMap.Keys, a, 0, inDegree0, adj0)
    ensures b <= |steps[a].dependsOn|
    ensures forall d :: d in steps[a].dependsOn[..b] ==> d in stepMap
    ensures b < |steps[a].dependsOn| ==> steps[a].dependsOn[b] !in stepMap
    ensures b == |steps[a].dependsOn| ==> CountedSoFar(steps, stepMap.Keys, a + 1, 0, inDegree, adj)
  {
    inDegree, adj, b := inDegree0, adj0, 0;
    var step := steps[a];
    while b < |step.dependsOn|
      invariant b <= |step.dependsOn|
      invariant forall d :: d in step.dependsOn[..b] ==> d in stepMap
      invariant CountedSoFar(steps, stepMap.Keys, a, b, inDegree, adj)
    {
      var dep := step.dependsOn[b];
      if dep !in stepMap {
        return;
      }
      CountOneMore(steps, stepMap.Keys, a, b, inDegree, adj);
      adj := adj[dep := adj[dep] + [step.id]];
      inDegree := inDegree[step.id := inDegree[step.id] + 1];
      b := b + 1;
    }
    CountNextStep(steps, stepMap.Keys, a, inDegree, adj);
  }

  lemma UnknownStops(steps: seq<StepDef>, a: nat, b: nat)
    requires DistinctIds(steps) && StopsAt(steps, Ids(steps), a, b)
    ensures !DepsExist(steps)
    ensures IsPlanError(steps, UnknownDependency(steps[a].id, steps[a].dependsOn[b]))
  {
    assert steps[a] in steps && steps[a].dependsOn[b] in steps[a].dependsOn;
  }

  lemma StartCounting(steps: seq<StepDef>, stepMap: map<string, StepDef>,
                      inDegree: map<string, int>, adj: map<string, seq<string>>)
    requires IsStepMap(steps, stepMap)
    requires inDegree.Keys == adj.Keys == stepMap.Keys
    requires forall x :: x in stepMap ==> inDegree[x] == 0 && adj[x] == []
    ensures CountedSoFar(steps, stepMap.Keys, 0, 0, inDegree, adj)
  {
    forall j | 0 <= j < |steps| ensures steps[j].id in stepMap {
      assert steps[j] in steps;
    }
  }

  /** The position of a dependency entry that names no step, everything before it being known. */
  predicate StopsAt(steps: seq<StepDef>, ids: set<string>, a: nat, b: nat) {
    && a < |steps| && b < |steps[a].dependsOn|
    && KnownUpTo(steps, ids, a)
    && (forall d :: d in steps[a].dependsOn[..b] ==> d in ids)
    && steps[a].dependsOn[b] !in ids
  }

  method CountAll(steps: seq<StepDef>, stepMap: map<string, StepDef>,
                  inDegree0: map<string, int>, adj0: map<string, seq<string>>)
    returns (a: nat, b: nat, inDegree: map<string, int>, adj: map<string, seq<string>>)
    requires DistinctIds(steps) && CountedSoFar(steps, stepMap.Keys, 0, 0, inDegree0, adj0)
    ensures a <= |steps|
    ensures a < |steps| ==> StopsAt(steps, stepMap.Keys, a, b)
    ensures a == |steps| ==> KnownUpTo(steps, stepMap.Keys, a) && CountedSoFar(steps, stepMap.Keys, a, 0, inDegree, adj)
  {
    inDegree, adj, a, b := inDegree0, adj0, 0, 0;
    while a < |steps|
      invariant a <= |steps| && KnownUpTo(steps, stepMap.Keys, a)
      invariant CountedSoFar(steps, stepMap.Keys, a, 0, inDegree, adj)
    {
      b, inDegree, adj := CountEntries(steps, stepMap, a, inDegree, adj);
      if b < |steps[a].dependsOn| {
        return;
      }
      assert steps[a].dependsOn[..b] == steps[a].dependsOn;
      a := a + 1;
    }
  }

  method CountDependencies(steps: seq<StepDef>, stepMap: map<string, StepDef>)
    returns (r: Result<(map<string, int>, map<string, seq<string>>), PlanError>)
    requires DistinctIds(steps) && IsStepMap(steps, stepMap)
    ensures r.Success? <==> DepsExist(steps)
    ensures r.Success? ==> DegreesAt(stepMap, r.value.0, {}) && IsAdjacency(stepMap, r.value.1)
    ensures r.Failure? ==> r.error.UnknownDependency? && IsPlanError(steps, r.error)
  {
    var inDegree: map<string, int> := map x | x in stepMap :: 0;
    var adj: map<string, seq<string>> := map x | x in stepMap :: [];
    StartCounting(steps, stepMap, inDegree, adj);
    var a, b;
    a, b, inDegree, adj := CountAll(steps, stepMap, inDegree, adj);
    if a < |steps| {
      UnknownStops(steps, a, b);
      return Failure(UnknownDependency(steps[a].id, steps[a].dependsOn[b]));
    }
    CountingDone(steps, stepMap, inDegree, adj);
    KnownIsDepsExist(steps);
    r := Success((inDegree, adj));
  }

  predicate Distinct(q: seq<string>) {
    forall i, j :: 0 <= i < j < |q| ==> q[i] != q[j]
  }

  /** Every in-degree counts the dependency entries that are not yet done. */
  ghost predicate DegreesAt(stepMap: map<string, StepDef>, inDegree: map<string, int>, done: set<string>) {
    && inDegree.Keys == stepMap.Keys
    && (forall x {:trigger inDegree[x]} :: x in stepMap ==> inDegree[x] == Pending(stepMap[x].dependsOn, done))
  }

  /** As `DegreesAt`, when in addition the first `j` neighbours of `id` have been told that `id` is done. */
  ghost predicate DegreesWithin(stepMap: map<string, StepDef>, inDegree: map<string, int>, done: set<string>, told: seq<string>) {
    && inDegree.Keys == stepMap.Keys
    && (forall x :: x in stepMap ==> inDegree[x] == Pending(stepMap[x].dependsOn, done) - Count(told, x))
  }

  /** `next` holds, once each, the steps outside `taken` whose in-degree has reached zero. */
  ghost predicate IsNextQueue(inDegree: map<string, int>, taken: set<string>, next: seq<string>) {
    Distinct(next) && forall x :: x in next <==> x in inDegree && x !in taken && inDegree[x] == 0
  }

  /** The steps without dependencies, in whatever order the map is walked. */
  method InitialQueue(inDegree: map<string, int>) returns (queue: seq<string>)
    ensures IsNextQueue(inDegree, {}, queue)
  {
    queue := [];
    var rest := inDegree.Keys;
    while rest != {}
      invariant rest <= inDegree.Keys && Distinct(queue)
      invariant forall x :: x in queue <==> x in inDegree && x !in rest && inDegree[x] == 0
    {
      var id :| id in rest;
      if inDegree[id] == 0 {
        queue := queue + [id];
      }
      rest := rest - {id};
    }
  }

  lemma TellDegree(stepMap: map<string, StepDef>, inDegree: map<string, int>, done: set<string>,
                   told: seq<string>, x: string)
    requires x in stepMap && DegreesWithin(stepMap, inDegree, done, told)
    ensures DegreesWithin(stepMap, inDegree[x := inDegree[x] - 1], done, told + [x])
  {
    forall y | y in stepMap ensures Count(told + [x], y) == Count(told, y) + if x == y then 1 else 0 {
      CountAppend(told, x, y);
    }
  }

  /** A step whose last pending entry is settled is queued, and no other step is. */
  lemma TellQueue(inDegree: map<string, int>, taken: set<string>, x: string, next: seq<string>)
    requires x in inDegree && x !in taken && inDegree[x] >= 1 && IsNextQueue(inDegree, taken, next)
    ensures
      var d := inDegree[x := inDegree[x] - 1];
      IsNextQueue(d, taken, if d[x] == 0 then next + [x] else next)
  {}

  lemma ReleaseDone(id: string, neighbours: seq<string>, stepMap: map<string, StepDef>,
                    inDegree: map<string, int>, done: set<string>)
    requires DegreesWithin(stepMap, inDegree, done, neighbours) && id !in done
    requires forall x :: x in stepMap ==> Count(neighbours, x) == Count(stepMap[x].dependsOn, id)
    ensures DegreesAt(stepMap, inDegree, done + {id})
  {
    forall x | x in stepMap ensures inDegree[x] == Pending(stepMap[x].dependsOn, done + {id}) {
      PendingAfter(stepMap[x].dependsOn, done, id);
    }
  }

  /** Tells every step that depends on `id` that `id` is done, and queues the ones that became free. */
  method Release(ghost id: string, neighbours: seq<string>, inDegree0: map<string, int>, next0: seq<string>,
                 ghost stepMap: map<string, StepDef>, ghost done: set<string>, ghost taken: set<string>)
    returns (inDegree: map<string, int>, next: seq<string>)
    requires DegreesAt(stepMap, inDegree0, done) && IsNextQueue(inDegree0, taken, next0)
    requires id !in done
    requires forall x :: x in neighbours ==> x in stepMap && x !in taken
    requires forall x :: x in stepMap ==> Count(neighbours, x) == Count(stepMap[x].dependsOn, id)
    ensures DegreesAt(stepMap, inDegree, done + {id}) && IsNextQueue(inDegree, taken, next)
  {
    inDegree, next := inDegree0, next0;
    for j := 0 to |neighbours|
      invariant DegreesWithin(stepMap, inDegree, done, neighbours[..j])
      invariant IsNextQueue(inDegree, taken, next)
    {
      var x := neighbours[j];
      PrefixMisses(neighbours, j);
      PendingAfter(stepMap[x].dependsOn, done, id);
      TellDegree(stepMap, inDegree, done, neighbours[..j], x);
      TellQueue(inDegree, taken, x, next);
      assert neighbours[..j + 1] == neighbours[..j] + [x];
      inDegree := inDegree[x := inDegree[x] - 1];
      if inDegree[x] == 0 {
        next := next + [x];
      }
    }
    assert neighbours[..|neighbours|] == neighbours;
    ReleaseDone(id, neighbours, stepMap, inDegree, done);
  }

  // ---- Waves ------------------------------------------------------------------------------

  function SetOf(q: seq<string>): (s: set<string>) {
    set x | x in q
  }

  /** The layer lists the steps at the front of the queue. */
  predicate LooksUp(queue: seq<string>, stepMap: map<string, StepDef>, layer: seq<StepDef>) {
    |layer| <= |queue| && forall m {:trigger layer[m]} :: 0 <= m < |layer| ==> queue[m] in stepMap && layer[m] == stepMap[queue[m]]
  }

  lemma LooksUpMore(queue: seq<string>, stepMap: map<string, StepDef>, layer: seq<StepDef>)
    requires |layer| < |queue| && LooksUp(queue, stepMap, layer) && queue[|layer|] in stepMap
    ensures LooksUp(queue, stepMap, layer + [stepMap[queue[|layer|]]])
  {
    var n := |layer|;
    var longer := layer + [stepMap[queue[n]]];
    forall m | 0 <= m < |longer| ensures queue[m] in stepMap && longer[m] == stepMap[queue[m]] {
      if m < n {
        assert longer[m] == layer[m];
      }
    }
  }

  /** No step that depends on a queued one is done or queued. */
  predicate FreshNeighbours(queue: seq<string>, adj: map<string, seq<string>>, taken: set<string>) {
    forall y, x {:trigger x in adj[y]} :: y in queue && y in adj && x in adj[y] ==> x !in taken
  }

  /** What releasing the neighbours of the `i`-th queued step needs. */
  lemma NextInQueue(queue: seq<string>, i: nat, stepMap: map<string, StepDef>, adj: map<string, seq<string>>,
                    inDegree0: map<string, int>, done: set<string>)
    requires i < |queue| && IsAdjacency(stepMap, adj) && DegreesAt(stepMap, inDegree0, done)
    requires IsNextQueue(inDegree0, done, queue) && FreshNeighbours(queue, adj, done + SetOf(queue))
    ensures
      var id := queue[i];
      && id in stepMap && id in adj && id !in done + SetOf(queue[..i])
      && done + SetOf(queue[..i + 1]) == done + SetOf(queue[..i]) + {id}
      && (forall x :: x in adj[id] ==> x in stepMap && x !in done + SetOf(queue))
      && (forall x :: x in stepMap ==> Count(adj[id], x) == Count(stepMap[x].dependsOn, id))
  {
    var id := queue[i];
    assert id in queue;
    assert queue[..i + 1] == queue[..i] + [id];
    forall x | x in stepMap ensures Count(adj[id], x) == Count(stepMap[x].dependsOn, id) {
      assert Mirrors(stepMap, adj, id, x);
    }
  }

  /** The tables when the first `i` steps of the queue have released their neighbours. */
  ghost predicate InWave(queue: seq<string>, i: nat, stepMap: map<string, StepDef>, done: set<string>,
                         inDegree: map<string, int>, next: seq<string>)
    requires i <= |queue|
  {
    && DegreesAt(stepMap, inDegree, done + SetOf(queue[..i]))
    && IsNextQueue(inDegree, done + SetOf(queue), next)
  }

  method ReleaseNext(queue: seq<string>, i: nat, stepMap: map<string, StepDef>, adj: map<string, seq<string>>,
                     inDegree: map<string, int>, next: seq<string>, ghost inDegree0: map<string, int>, ghost done: set<string>)
    returns (inDegree': map<string, int>, next': seq<string>)
    requires i < |queue| && IsAdjacency(stepMap, adj) && DegreesAt(stepMap, inDegree0, done)
    requires IsNextQueue(inDegree0, done, queue) && FreshNeighbours(queue, adj, done + SetOf(queue))
    requires InWave(queue, i, stepMap, done, inDegree, next)
    ensures queue[i] in stepMap && InWave(queue, i + 1, stepMap, done, inDegree', next')
  {
    NextInQueue(queue, i, stepMap, adj, inDegree0, done);
    inDegree', next' := Release(queue[i], adj[queue[i]], inDegree, next, stepMap, done + SetOf(queue[..i]), done + SetOf(queue));
  }

  lemma WaveBegins(queue: seq<string>, stepMap: map<string, StepDef>, done: set<string>, inDegree: map<string, int>)
    requires DegreesAt(stepMap, inDegree, done) && IsNextQueue(inDegree, done, queue)
    ensures InWave(queue, 0, stepMap, done, inDegree, [])
  {
    assert done + SetOf(queue[..0]) == done;
  }

  /** One wave: every queued step is put in the layer and releases the steps that depend on it. */
  method RunWave(queue: seq<string>, stepMap: map<string, StepDef>, adj: map<string, seq<string>>,
                 inDegree0: map<string, int>, ghost done: set<string>)
    returns (layer: seq<StepDef>, inDegree: map<string, int>, next: seq<string>)
    requires IsAdjacency(stepMap, adj) && DegreesAt(stepMap, inDegree0, done)
    requires IsNextQueue(inDegree0, done, queue) && FreshNeighbours(queue, adj, done + SetOf(queue))
    ensures |layer| == |queue| && LooksUp(queue, stepMap, layer)
    ensures DegreesAt(stepMap, inDegree, done + SetOf(queue))
    ensures IsNextQueue(inDegree, done + SetOf(queue), next)
  {
    layer, inDegree, next := [], inDegree0, [];
    WaveBegins(queue, stepMap, done, inDegree0);
    for i := 0 to |queue|
      invariant |layer| == i && LooksUp(queue, stepMap, layer)
      invariant InWave(queue, i, stepMap, done, inDegree, next)
    {
      inDegree, next := ReleaseNext(queue, i, stepMap, adj, inDegree, next, inDegree0, done);
      LooksUpMore(queue, stepMap, layer);
      layer := layer + [stepMap[queue[i]]];
    }
    assert queue[..|queue|] == queue;
  }

  /** With every degree up to date, the next queue is the set of steps that have become ready. */
  lemma QueueIsReady(steps: seq<StepDef>, stepMap: map<string, StepDef>, inDegree: map<string, int>, done: set<string>, queue: seq<string>)
    requires IsStepMap(steps, stepMap)
    requires DegreesAt(stepMap, inDegree, done) && IsNextQueue(inDegree, done, queue)
    ensures SetOf(queue) == Ready(steps, done) - done
  {
    forall x | x in Ids(steps)
      ensures x in Ready(steps, done) <==> inDegree[x] == 0
    {
      DepsOfMapped(steps, stepMap, x);
      PendingNone(stepMap[x].dependsOn, done);
    }
  }

  /** No step that waits for an unfinished step is ready. */
  lemma NeighboursWait(steps: seq<StepDef>, stepMap: map<string, StepDef>, adj: map<string, seq<string>>, done: set<string>, y: string, x: string)
    requires IsStepMap(steps, stepMap) && IsAdjacency(stepMap, adj)
    requires y in adj && y !in done && x in adj[y]
    ensures x !in Ready(steps, done)
  {
    assert Mirrors(stepMap, adj, y, x);
    CountPositive(adj[y], x);
    CountPositive(stepMap[x].dependsOn, y);
    DepsOfMapped(steps, stepMap, x);
  }

  /** The layer holds, once each, the steps of `now`. */
  ghost predicate IsLayer(steps: seq<StepDef>, now: set<string>, layer: seq<StepDef>) {
    && DistinctIds(layer) && layer != []
    && (forall s :: s in layer ==> s in steps && s.id in now)
    && (forall s :: s in steps && s.id in now ==> s in layer)
  }

  lemma WaveMakesLayer(steps: seq<StepDef>, stepMap: map<string, StepDef>, queue: seq<string>, layer: seq<StepDef>)
    requires IsStepMap(steps, stepMap) && queue != [] && Distinct(queue)
    requires |layer| == |queue| && LooksUp(queue, stepMap, layer)
    ensures IsLayer(steps, SetOf(queue), layer)
  {
    forall s | s in steps && s.id in queue ensures s in layer {
      var i :| 0 <= i < |queue| && queue[i] == s.id;
      assert layer[i] == s;
    }
    forall s | s in layer ensures s in steps && s.id in queue {
      var i :| 0 <= i < |queue| && layer[i] == s;
      assert queue[i] == s.id;
    }
    forall i, j | 0 <= i < j < |layer| ensures layer[i].id != layer[j].id {
      assert layer[i].id == queue[i] && layer[j].id == queue[j];
    }
  }

  lemma {:induction false} DistinctSize(q: seq<string>)
    requires Distinct(q)
    ensures |SetOf(q)| == |q|
  {
    if q == [] {
    } else {
      var p := q[..|q| - 1];
      DistinctSize(p);
      assert SetOf(q) == SetOf(p) + {q[|q| - 1]};
    }
  }

  lemma {:induction false} IdsSize(steps: seq<StepDef>)
    requires DistinctIds(steps)
    ensures |Ids(steps)| == |steps|
  {
    if steps == [] {
    } else {
      var p := steps[..|steps| - 1];
      IdsSize(p);
      assert steps == p + [steps[|steps| - 1]];
      assert Ids(steps) == Ids(p) + {steps[|steps| - 1].id};
    }
  }

  /** `waves` lists what is done before each layer and after the last one. */
  ghost predicate AreWaves(steps: seq<StepDef>, layers: Plan, waves: seq<set<string>>) {
    && |waves| == |layers| + 1 && waves[0] == {}
    && (forall k {:trigger NextWave(steps, layers, waves, k)} :: 0 <= k < |layers| ==> NextWave(steps, layers, waves, k))
  }

  ghost predicate NextWave(steps: seq<StepDef>, layers: Plan, waves: seq<set<string>>, k: nat)
    requires |waves| == |layers| + 1 && k < |layers|
  {
    waves[k + 1] == Ready(steps, waves[k]) && IsLayer(steps, waves[k + 1] - waves[k], layers[k])
  }

  lemma {:induction false} WavesAreWave(steps: seq<StepDef>, layers: Plan, waves: seq<set<string>>, k: nat)
    requires AreWaves(steps, layers, waves) && k <= |layers|
    ensures waves[k] == Wave(steps, k)
  {
    if k == 0 {
    } else {
      WavesAreWave(steps, layers, waves, k - 1);
      assert NextWave(steps, layers, waves, k - 1);
    }
  }

  lemma LayerOfWave(steps: seq<StepDef>, layers: Plan, waves: seq<set<string>>, k: nat, s: StepDef)
    requires DepsExist(steps) && AreWaves(steps, layers, waves) && k < |layers|
    ensures s in layers[k] <==> s in steps && LongestChain(steps, s.id, k)
  {
    WavesAreWave(steps, layers, waves, k);
    WavesAreWave(steps, layers, waves, k + 1);
    assert NextWave(steps, layers, waves, k);
    if s in steps {
      WaveIsLongestChain(steps, k, s.id);
    }
  }

  lemma LayersArePlan(steps: seq<StepDef>, layers: Plan, waves: seq<set<string>>)
    requires DepsExist(steps) && AreWaves(steps, layers, waves) && Ids(steps) <= waves[|layers|]
    ensures IsPlan(steps, layers)
  {
    forall k, s | 0 <= k < |layers| && s in layers[k] ensures AtDepth(steps, k, s) {
      LayerOfWave(steps, layers, waves, k, s);
    }
    forall s | s in steps ensures Placed(layers, s) {
      WavesAreWave(steps, layers, waves, |layers|);
      var k := FinishingWave(steps, s.id, |layers|);
      WaveIsLongestChain(steps, k, s.id);
      LayerOfWave(steps, layers, waves, k, s);
    }
    forall k | 0 <= k < |layers| ensures layers[k] != [] && DistinctIds(layers[k]) {
      assert NextWave(steps, layers, waves, k);
    }
  }

  lemma {:induction false} FinishingWave(steps: seq<StepDef>, id: string, n: nat) returns (k: nat)
    requires id in Wave(steps, n)
    ensures k < n && id in Wave(steps, k + 1) && id !in Wave(steps, k)
  {
    if id in Wave(steps, n - 1) {
      k := FinishingWave(steps, id, n - 1);
    } else {
      k := n - 1;
    }
  }

  /** The tables and the queue when exactly the steps of `done` have been put in a layer. */
  ghost predicate AtWave(stepMap: map<string, StepDef>, done: set<string>, inDegree: map<string, int>, queue: seq<string>) {
    DegreesAt(stepMap, inDegree, done) && IsNextQueue(inDegree, done, queue)
  }

  method StepWave(steps: seq<StepDef>, stepMap: map<string, StepDef>, adj: map<string, seq<string>>, ghost done: set<string>,
                  inDegree0: map<string, int>, queue: seq<string>)
    returns (layer: seq<StepDef>, inDegree: map<string, int>, next: seq<string>)
    requires IsStepMap(steps, stepMap) && IsAdjacency(stepMap, adj) && AtWave(stepMap, done, inDegree0, queue)
    requires queue != [] && done <= Ready(steps, done)
    ensures SetOf(queue) == Ready(steps, done) - done && IsLayer(steps, SetOf(queue), layer)
    ensures AtWave(stepMap, Ready(steps, done), inDegree, next)
  {
    QueueIsReady(steps, stepMap, inDegree0, done, queue);
    assert done + SetOf(queue) == Ready(steps, done);
    forall y, x | y in queue && y in adj && x in adj[y] ensures x !in Ready(steps, done) {
      NeighboursWait(steps, stepMap, adj, done, y, x);
    }
    layer, inDegree, next := RunWave(queue, stepMap, adj, inDegree0, done);
    WaveMakesLayer(steps, stepMap, queue, layer);
  }

  ghost predicate LayersSoFar(steps: seq<StepDef>, layers: Plan, waves: seq<set<string>>, done: set<string>, visited: nat) {
    && AreWaves(steps, layers, waves)
    && done == waves[|layers|] && done <= Ready(steps, done) && visited == |done|
  }

  lemma ReadyGrows(steps: seq<StepDef>, done: set<string>)
    requires done <= Ready(steps, done)
    ensures Ready(steps, done) <= Ready(steps, Ready(steps, done))
  {}

  lemma QueueSize(steps: seq<StepDef>, done: set<string>, queue: seq<string>)
    requires done <= Ready(steps, done) && Distinct(queue) && SetOf(queue) == Ready(steps, done) - done
    ensures done + SetOf(queue) == Ready(steps, done) && SetOf(queue) == Ready(steps, done) - done
    ensures |done| + |queue| == |Ready(steps, done)| <= |Ids(steps)|
  {
    DistinctSize(queue);
    assert done !! SetOf(queue) && done + SetOf(queue) == Ready(steps, done);
    SubsetSize(Ready(steps, done), Ids(steps));
  }

  lemma LayerAdded(steps: seq<StepDef>, layers: Plan, waves: seq<set<string>>, visited: nat, queue: seq<string>,
                   layer: seq<StepDef>, done: set<string>)
    returns (waves': seq<set<string>>)
    requires LayersSoFar(steps, layers, waves, done, visited) && Distinct(queue)
    requires SetOf(queue) == Ready(steps, done) - done && IsLayer(steps, SetOf(queue), layer)
    ensures LayersSoFar(steps, layers + [layer], waves', Ready(steps, done), visited + |queue|)
    ensures visited + |queue| <= |Ids(steps)|
  {
    QueueSize(steps, done, queue);
    ReadyGrows(steps, done);
    waves' := waves + [Ready(steps, done)];
    forall k | 0 <= k < |layers| + 1 ensures NextWave(steps, layers + [layer], waves', k) {
      assert k < |layers| ==> NextWave(steps, layers, waves, k);
    }
  }

  lemma NoDifference(a: set<string>, b: set<string>)
    requires a - b == {}
    ensures a <= b
  {
    forall x | x in a ensures x in b {
      assert x in a - b || x in b;
    }
  }

  lemma NoLayers(steps: seq<StepDef>)
    ensures LayersSoFar(steps, [], [{}], {}, 0)
  {}

  lemma EmptyQueue(steps: seq<StepDef>, stepMap: map<string, StepDef>, inDegree: map<string, int>, done: set<string>)
    requires IsStepMap(steps, stepMap) && AtWave(stepMap, done, inDegree, [])
    ensures Ready(steps, done) <= done
  {
    QueueIsReady(steps, stepMap, inDegree, done, []);
    NoDifference(Ready(steps, done), done);
  }

  /** Runs the waves until none is left; `visited` counts the steps put in a layer. */
  method RunWaves(steps: seq<StepDef>, stepMap: map<string, StepDef>, inDegree0: map<string, int>, adj: map<string, seq<string>>)
    returns (layers: Plan, visited: nat, ghost waves: seq<set<string>>, ghost done: set<string>)
    requires IsStepMap(steps, stepMap) && IsAdjacency(stepMap, adj) && DegreesAt(stepMap, inDegree0, {})
    ensures LayersSoFar(steps, layers, waves, done, visited) && Ready(steps, done) <= done
  {
    var inDegree := inDegree0;
    var queue := InitialQueue(inDegree);
    layers, visited, waves, done := [], 0, [{}], {};
    NoLayers(steps);
    while queue != []
      invariant LayersSoFar(steps, layers, waves, done, visited)
      invariant AtWave(stepMap, done, inDegree, queue)
      decreases |Ids(steps)| - visited
    {
      var layer, next;
      layer, inDegree, next := StepWave(steps, stepMap, adj, done, inDegree, queue);
      waves := LayerAdded(steps, layers, waves, visited, queue, layer, done);
      layers, visited, done, queue := layers + [layer], visited + |queue|, Ready(steps, done), next;
    }
    EmptyQueue(steps, stepMap, inDegree, done);
  }

  /** Every step was visited exactly when the list has no cycle. */
  lemma VisitedDecides(steps: seq<StepDef>, layers: Plan, waves: seq<set<string>>, done: set<string>, visited: nat)
    requires DistinctIds(steps) && DepsExist(steps)
    requires LayersSoFar(steps, layers, waves, done, visited) && Ready(steps, done) <= done
    ensures visited == |steps| <==> Acyclic(steps)
    ensures visited == |steps| ==> IsPlan(steps, layers)
  {
    IdsSize(steps);
    SubsetSize(done, Ids(steps));
    WavesAreWave(steps, layers, waves, |layers|);
    FixpointDecidesAcyclic(steps, done, |layers|);
    assert Ids(steps) <= done ==> Ids(steps) == done;
    if visited == |steps| {
      LayersArePlan(steps, layers, waves);
    }
  }

  /**
   * Kahn's algorithm in waves. A step list is accepted exactly when it is non-empty, has distinct ids, names only
   * existing dependencies and has no dependency cycle; the plan then puts every step in the layer given by its
   * longest dependency chain.
   */
  method BuildExecutionPlan(steps: seq<StepDef>) returns (r: Result<Plan, PlanError>)
    ensures r.Success? <==> Plannable(steps)
    ensures r.Success? ==> IsPlan(steps, r.value)
    ensures r.Failure? ==> IsPlanError(steps, r.error)
    ensures r == Failure(EmptyWorkflow) <==> steps == []
    ensures r.Failure? && r.error.DuplicateStep? ==>
      exists i, j :: 0 <= i < j < |steps| && steps[i].id == steps[j].id == r.error.id
    ensures r.Failure? && r.error.UnknownDependency? ==>
      && (exists s :: s in steps && s.id == r.error.step && r.error.dep in s.dependsOn)
      && (forall s :: s in steps ==> s.id != r.error.dep)
    ensures r.Failure? && r.error.CycleDetected? ==> exists c :: IsCycle(steps, c)
  {
    r := PlanSteps(steps);
    if r.Failure? {
      ErrorSays(steps, r.error);
    }
  }

  /** A rejection names a real fault of the list. */
  lemma ErrorSays(steps: seq<StepDef>, e: PlanError)
    requires IsPlanError(steps, e)
    ensures e == EmptyWorkflow <==> steps == []
    ensures e.DuplicateStep? ==> exists i, j :: 0 <= i < j < |steps| && steps[i].id == steps[j].id == e.id
    ensures e.UnknownDependency? ==>
      && (exists s :: s in steps && s.id == e.step && e.dep in s.dependsOn)
      && (forall s :: s in steps ==> s.id != e.dep)
    ensures e.CycleDetected? ==> exists c :: IsCycle(steps, c)
  {
    match e {
      case DuplicateStep(id) =>
        var j :| 0 <= j < |steps| && steps[j].id == id && id in Ids(steps[..j]) && DistinctIds(steps[..j]);
        var s :| s in steps[..j] && s.id == id;
        var i :| 0 <= i < j && steps[..j][i] == s;
      case UnknownDependency(step, dep) =>
        var i: nat, j: nat :| StopsAt(steps, Ids(steps), i, j) && steps[i].id == step && steps[i].dependsOn[j] == dep;
        assert steps[i] in steps;
      case _ =>
    }
  }

  /**
   * What makes layers usable and tight, said of the steps alone: they hold every step, and no id twice; every
   * dependency stands in an earlier layer, and every step after the first layer has one in the layer just before.
   */
  ghost predicate ValidLayers(steps: seq<StepDef>, layers: Plan) {
    && (forall s :: s in steps ==> exists k :: 0 <= k < |layers| && s in layers[k])
    && (forall k, s :: 0 <= k < |layers| && s in layers[k] ==> s in steps)
    && (forall k, i, l, j :: 0 <= k < |layers| && 0 <= i < |layers[k]| && 0 <= l < |layers| && 0 <= j < |layers[l]| ==>
          layers[k][i].id == layers[l][j].id ==> k == l && i == j)
    && (forall k, s, d :: 0 <= k < |layers| && s in layers[k] && d in s.dependsOn ==>
          exists j :: 0 <= j < k && InLayer(layers, j, d))
    && (forall k, s :: 0 < k < |layers| && s in layers[k] ==> DependsInto(layers, k - 1, s))
  }

  /** The step depends on one of the layer. */
  ghost predicate DependsInto(layers: Plan, k: nat, s: StepDef) {
    k < |layers| && exists t :: t in layers[k] && t.id in s.dependsOn
  }

  lemma PlanIsValidLayers(steps: seq<StepDef>, p: Plan)
    requires Plannable(steps) && IsPlan(steps, p)
    ensures ValidLayers(steps, p)
  {
    forall s | s in steps ensures exists k :: 0 <= k < |p| && s in p[k] { assert Placed(p, s); }
    forall k, s | 0 <= k < |p| && s in p[k] ensures s in steps { assert AtDepth(steps, k, s); }
    forall k, i, l, j | 0 <= k < |p| && 0 <= i < |p[k]| && 0 <= l < |p| && 0 <= j < |p[l]| && p[k][i].id == p[l][j].id
      ensures k == l && i == j
    {
      PlanHasEachStepOnce(steps, p, k, i, l, j);
    }
    forall k, s, d | 0 <= k < |p| && s in p[k] && d in s.dependsOn ensures exists j :: 0 <= j < k && InLayer(p, j, d) {
      PlanRespectsDependencies(steps, p, k, s, d);
    }
    forall k, s | 0 < k < |p| && s in p[k] ensures DependsInto(p, k - 1, s) {
      PlanIsTight(steps, p, k, s);
    }
  }

  lemma PlanIsTight(steps: seq<StepDef>, p: Plan, k: nat, s: StepDef)
    requires Plannable(steps) && IsPlan(steps, p) && 0 < k < |p| && s in p[k]
    ensures DependsInto(p, k - 1, s)
  {
    assert AtDepth(steps, k, s);
    var d := DepOneBelow(steps, s.id, k);
    OneStepForId(steps, s, d);
    var t :| t in steps && t.id == d;
    assert Placed(p, t);
    var j :| 0 <= j < |p| && t in p[j];
    assert AtDepth(steps, j, t);
    LongestChainUnique(steps, d, j, k - 1);
  }

  lemma OneStepForId(steps: seq<StepDef>, s: StepDef, d: string)
    requires DistinctIds(steps) && s in steps && d in Deps(steps, s.id)
    ensures d in s.dependsOn
  {
    var t :| t in steps && t.id == s.id && d in t.dependsOn;
    assert t == s;
  }

  /** On a longest chain, the step before the last has a longest chain that is one shorter. */
  lemma DepOneBelow(steps: seq<StepDef>, id: string, k: nat) returns (d: string)
    requires k > 0 && LongestChain(steps, id, k)
    ensures d in Deps(steps, id) && d in Ids(steps) && LongestChain(steps, d, k - 1)
  {
    var c :| ChainTo(steps, c, id) && |c| == k + 1;
    ShortenChain(steps, c, id);
    d := c[|c| - 2];
    assert ChainTo(steps, c[..|c| - 1], d);
    assert c[|c| - 1] in Ids(steps) && c[|c| - 2] in Ids(steps);
    forall e | ChainTo(steps, e, d) ensures |e| <= k {
      ExtendChain(steps, e, d, id);
    }
  }

  method PlanSteps(steps: seq<StepDef>) returns (r: Result<Plan, PlanError>)
    ensures r.Success? <==> Plannable(steps)
    ensures r.Success? ==> IsPlan(steps, r.value)
    ensures r.Failure? ==> IsPlanError(steps, r.error)
  {
    if |steps| == 0 {
      return Failure(EmptyWorkflow);
    }
    var indexed := IndexSteps(steps);
    if indexed.Failure? {
      return Failure(indexed.error);
    }
    var counted := CountDependencies(steps, indexed.value);
    if counted.Failure? {
      return Failure(counted.error);
    }
    var (inDegree, adj) := counted.value;
    var layers, visited, waves, done := RunWaves(steps, indexed.value, inDegree, adj);
    VisitedDecides(steps, layers, waves, done, visited);
    if visited != |steps| {
      return Failure(CycleDetected);
    }
    r := Success(layers);
  }

  // ---- What a plan means for the caller ---------------------------------------------------

  /** The layers as sets do not depend on the order in which the maps are walked. */
  lemma PlanIsUnique(steps: seq<StepDef>, p: Plan, q: Plan)
    requires IsPlan(steps, p) && IsPlan(steps, q)
    ensures |p| == |q| && forall k :: 0 <= k < |p| ==> forall s :: s in p[k] <==> s in q[k]
  {
    PlanWithin(steps, p, q);
    PlanWithin(steps, q, p);
  }

  lemma PlanWithin(steps: seq<StepDef>, p: Plan, q: Plan)
    requires IsPlan(steps, p) && IsPlan(steps, q)
    ensures |p| <= |q| && forall k :: 0 <= k < |p| ==> forall s :: s in p[k] ==> k < |q| && s in q[k]
  {
    forall k, s | 0 <= k < |p| && s in p[k] ensures k < |q| && s in q[k] {
      assert AtDepth(steps, k, s) && Placed(q, s);
      var j :| 0 <= j < |q| && s in q[j];
      assert AtDepth(steps, j, s);
      LongestChainUnique(steps, s.id, j, k);
    }
    if p != [] {
      assert p[|p| - 1][0] in p[|p| - 1];
    }
  }

  /** The layer a step is in. */
  ghost predicate InLayer(p: Plan, k: nat, id: string) {
    k < |p| && exists s :: s in p[k] && s.id == id
  }

  /** Each step stands in exactly one layer, once. */
  lemma PlanHasEachStepOnce(steps: seq<StepDef>, p: Plan, k: nat, i: nat, l: nat, j: nat)
    requires IsPlan(steps, p)
    requires k < |p| && i < |p[k]| && l < |p| && j < |p[l]| && p[k][i].id == p[l][j].id
    ensures k == l && i == j
  {
    assert AtDepth(steps, k, p[k][i]) && AtDepth(steps, l, p[l][j]);
    LongestChainUnique(steps, p[k][i].id, k, l);
    assert DistinctIds(p[k]);
  }

  /** A dependency always stands in an earlier layer. */
  lemma PlanRespectsDependencies(steps: seq<StepDef>, p: Plan, k: nat, s: StepDef, d: string)
    requires Plannable(steps) && IsPlan(steps, p) && k < |p| && s in p[k] && d in s.dependsOn
    ensures exists j :: 0 <= j < k && InLayer(p, j, d)
  {
    assert AtDepth(steps, k, s) && d in Deps(steps, s.id) && d in Ids(steps);
    var t :| t in steps && t.id == d;
    assert Placed(p, t);
    var j :| 0 <= j < |p| && t in p[j];
    assert AtDepth(steps, j, t);
    DependencyIsEarlier(steps, d, s.id, j, k);
    assert InLayer(p, j, d);
  }

  /** No assignment of steps to rounds that puts dependencies in earlier rounds uses fewer rounds than the plan. */
  lemma PlanIsShortest(steps: seq<StepDef>, p: Plan, round: map<string, nat>, rounds: nat)
    requires Plannable(steps) && IsPlan(steps, p)
    requires Ids(steps) <= round.Keys
    requires forall x :: x in Ids(steps) ==> round[x] < rounds && forall d :: d in Deps(steps, x) ==> d in round && round[d] < round[x]
    ensures |p| <= rounds
  {
    if p != [] {
      var s := p[|p| - 1][0];
      assert AtDepth(steps, |p| - 1, s);
      var c :| ChainTo(steps, c, s.id) && |c| == |p|;
      ChainNeedsRounds(steps, c, round, |c| - 1);
    }
  }

  lemma {:induction false} ChainNeedsRounds(steps: seq<StepDef>, c: seq<string>, round: map<string, nat>, i: nat)
    requires Chain(steps, c) && i < |c| && Ids(steps) <= round.Keys
    requires forall x :: x in Ids(steps) ==> forall d :: d in Deps(steps, x) ==> d in round && round[d] < round[x]
    ensures i <= round[c[i]]
  {
    if i == 0 {
    } else {
      ChainNeedsRounds(steps, c, round, i - 1);
      assert c[i - 1] in Deps(steps, c[i]);
    }
  }
}
