/** Dependency graphs of step lists: chains, cycles and the waves in which steps become ready. */
module Dag {
  import opened WorkflowModel

  predicate DistinctIds(steps: seq<StepDef>) {
    forall i, j :: 0 <= i < j < |steps| ==> steps[i].id != steps[j].id
  }

  function Ids(steps: seq<StepDef>): set<string> {
    set s | s in steps :: s.id
  }

  /** The direct dependencies of a step. */
  function Deps(steps: seq<StepDef>, id: string): set<string> {
    set s, d | s in steps && s.id == id && d in s.dependsOn :: d
  }

  predicate DepsExist(steps: seq<StepDef>) {
    forall s :: s in steps ==> forall d :: d in s.dependsOn ==> d in Ids(steps)
  }

  /** A dependency chain: each step is a direct dependency of the next one. */
  predicate Chain(steps: seq<StepDef>, c: seq<string>) {
    && c != []
    && (forall i :: 0 <= i < |c| ==> c[i] in Ids(steps))
    && (forall i :: 0 <= i < |c| - 1 ==> c[i] in Deps(steps, c[i + 1]))
  }

  predicate ChainTo(steps: seq<StepDef>, c: seq<string>, id: string) {
    Chain(steps, c) && c[|c| - 1] == id
  }

  /** A chain whose last step is a dependency of its first one. */
  predicate IsCycle(steps: seq<StepDef>, c: seq<string>) {
    Chain(steps, c) && c[|c| - 1] in Deps(steps, c[0])
  }

  ghost predicate Acyclic(steps: seq<StepDef>) {
    forall c :: !IsCycle(steps, c)
  }

  /** What a step list must satisfy to be run at all. */
  ghost predicate Plannable(steps: seq<StepDef>) {
    steps != [] && DistinctIds(steps) && DepsExist(steps) && Acyclic(steps)
  }

  /** The longest dependency chain that ends in `id` has exactly `k` edges. */
  ghost predicate LongestChain(steps: seq<StepDef>, id: string, k: nat) {
    && (exists c :: ChainTo(steps, c, id) && |c| == k + 1)
    && (forall c :: ChainTo(steps, c, id) ==> |c| <= k + 1)
  }

  /** `d` is reached from `id` by following dependencies one or more times. */
  ghost predicate Ancestor(steps: seq<StepDef>, d: string, id: string) {
    exists c :: ChainTo(steps, c, id) && |c| > 1 && c[0] == d
  }

  /** The steps whose dependencies are all in `done`. */
  function Ready(steps: seq<StepDef>, done: set<string>): set<string> {
    set x | x in Ids(steps) && Deps(steps, x) <= done
  }

  /** The steps that are finished after `k` waves. */
  function Wave(steps: seq<StepDef>, k: nat): set<string> {
    if k == 0 then {} else Ready(steps, Wave(steps, k - 1))
  }

  lemma DepsAreIds(steps: seq<StepDef>, id: string)
    requires DepsExist(steps)
    ensures Deps(steps, id) <= Ids(steps)
  {}

  lemma ExtendChain(steps: seq<StepDef>, c: seq<string>, d: string, id: string)
    requires ChainTo(steps, c, d) && id in Ids(steps) && d in Deps(steps, id)
    ensures ChainTo(steps, c + [id], id)
  {}

  lemma ShortenChain(steps: seq<StepDef>, c: seq<string>, id: string)
    requires ChainTo(steps, c, id) && |c| > 1
    ensures c[|c| - 2] in Deps(steps, id) && ChainTo(steps, c[..|c| - 1], c[|c| - 2])
  {}

  ghost predicate ChainsWithin(steps: seq<StepDef>, id: string, k: nat) {
    forall c :: ChainTo(steps, c, id) ==> |c| <= k
  }

  lemma ChainsWithinDeps(steps: seq<StepDef>, id: string, k: nat)
    requires id in Ids(steps) && k > 0
    ensures ChainsWithin(steps, id, k) <==> forall d :: d in Deps(steps, id) ==> ChainsWithin(steps, d, k - 1)
  {
    if ChainsWithin(steps, id, k) {
      forall d, c | d in Deps(steps, id) && ChainTo(steps, c, d) ensures |c| <= k - 1 {
        ExtendChain(steps, c, d, id);
      }
    } else {
      var c :| ChainTo(steps, c, id) && |c| > k;
      ShortenChain(steps, c, id);
    }
  }

  /** A step is finished after `k` waves exactly when no chain that ends in it has more than `k` steps. */
  lemma {:induction false} WaveBoundsChains(steps: seq<StepDef>, k: nat, id: string)
    requires DepsExist(steps) && id in Ids(steps)
    ensures id in Wave(steps, k) <==> ChainsWithin(steps, id, k)
  {
    if k == 0 {
      assert ChainTo(steps, [id], id);
    } else {
      ChainsWithinDeps(steps, id, k);
      DepsAreIds(steps, id);
      forall d | d in Deps(steps, id)
        ensures d in Wave(steps, k - 1) <==> ChainsWithin(steps, d, k - 1)
      {
        WaveBoundsChains(steps, k - 1, d);
      }
    }
  }

  /** The steps that finish in wave `k` are the steps whose longest chain has `k` edges. */
  lemma WaveIsLongestChain(steps: seq<StepDef>, k: nat, id: string)
    requires DepsExist(steps) && id in Ids(steps)
    ensures id in Wave(steps, k + 1) && id !in Wave(steps, k) <==> LongestChain(steps, id, k)
  {
    WaveBoundsChains(steps, k, id);
    WaveBoundsChains(steps, k + 1, id);
  }

  lemma SingletonChain(steps: seq<StepDef>, x: string)
    requires x in Ids(steps)
    ensures Chain(steps, [x])
  {}

  lemma PrefixClosesCycle(steps: seq<StepDef>, c: seq<string>, j: nat)
    requires Chain(steps, c) && j < |c| && c[j] in Deps(steps, c[0])
    ensures IsCycle(steps, c[..j + 1])
  {}

  lemma PrependToChain(steps: seq<StepDef>, d: string, c: seq<string>)
    requires Chain(steps, c) && d in Ids(steps) && d in Deps(steps, c[0])
    ensures Chain(steps, [d] + c)
  {}

  predicate Blocked(steps: seq<StepDef>, rest: set<string>, x: string) {
    Deps(steps, x) * rest != {}
  }

  /** If every step of `rest` has a dependency in `rest`, following them backwards must close a cycle. */
  lemma {:induction false} StuckHasCycle(steps: seq<StepDef>, rest: set<string>, c: seq<string>) returns (cycle: seq<string>)
    requires rest <= Ids(steps)
    requires forall x {:trigger Blocked(steps, rest, x)} :: x in rest ==> Blocked(steps, rest, x)
    requires Chain(steps, c) && forall x :: x in c ==> x in rest
    ensures IsCycle(steps, cycle)
    decreases rest - (set x | x in c)
  {
    assert c[0] in c;
    assert Blocked(steps, rest, c[0]);
    var d :| d in Deps(steps, c[0]) * rest;
    if d in c {
      var j :| 0 <= j < |c| && c[j] == d;
      PrefixClosesCycle(steps, c, j);
      cycle := c[..j + 1];
    } else {
      PrependToChain(steps, d, c);
      assert (set x | x in [d] + c) == {d} + (set x | x in c);
      cycle := StuckHasCycle(steps, rest, [d] + c);
    }
  }

  /** No step of a cycle is ever finished. */
  lemma {:induction false} CycleNeverFinishes(steps: seq<StepDef>, c: seq<string>, k: nat, i: nat)
    requires IsCycle(steps, c) && i < |c|
    ensures c[i] !in Wave(steps, k)
  {
    if k == 0 {
    } else {
      CycleNeverFinishes(steps, c, k - 1, if i == 0 then |c| - 1 else i - 1);
    }
  }

  lemma UnreadyHasUnfinishedDep(steps: seq<StepDef>, done: set<string>, x: string)
    requires Deps(steps, x) <= Ids(steps)
    requires x in Ids(steps) && x !in Ready(steps, done)
    ensures Blocked(steps, Ids(steps) - done, x)
  {
    var deps := Deps(steps, x);
    assert !(deps <= done);
    var d :| d in deps && d !in done;
    assert d in deps * (Ids(steps) - done);
  }

  /** A set of finished steps that makes no further step ready leaves a cycle behind. */
  lemma UnfinishedHasCycle(steps: seq<StepDef>, done: set<string>) returns (cycle: seq<string>)
    requires forall x :: x in Ids(steps) ==> Deps(steps, x) <= Ids(steps)
    requires Ready(steps, done) <= done && !(Ids(steps) <= done)
    ensures IsCycle(steps, cycle)
  {
    var rest := Ids(steps) - done;
    forall x | x in rest ensures Blocked(steps, rest, x) {
      UnreadyHasUnfinishedDep(steps, done, x);
    }
    var x :| x in Ids(steps) && x !in done;
    SingletonChain(steps, x);
    assert forall y :: y in [x] ==> y == x;
    cycle := StuckHasCycle(steps, rest, [x]);
  }

  /** When a wave finishes nothing, the graph is acyclic exactly if everything is finished. */
  lemma FixpointDecidesAcyclic(steps: seq<StepDef>, done: set<string>, k: nat)
    requires DepsExist(steps)
    requires done == Wave(steps, k) && Ready(steps, done) <= done
    ensures Acyclic(steps) <==> Ids(steps) <= done
  {
    if Ids(steps) <= done {
      forall c ensures !IsCycle(steps, c) {
        if IsCycle(steps, c) { CycleNeverFinishes(steps, c, k, 0); }
      }
    } else {
      forall x | x in Ids(steps) ensures Deps(steps, x) <= Ids(steps) {
        DepsAreIds(steps, x);
      }
      var cycle := UnfinishedHasCycle(steps, done);
    }
  }

  lemma LongestChainUnique(steps: seq<StepDef>, id: string, j: nat, k: nat)
    requires LongestChain(steps, id, j) && LongestChain(steps, id, k)
    ensures j == k
  {}

  /** A dependency has a strictly shorter longest chain. */
  lemma DependencyIsEarlier(steps: seq<StepDef>, d: string, id: string, j: nat, k: nat)
    requires LongestChain(steps, d, j) && LongestChain(steps, id, k)
    requires d in Deps(steps, id)
    ensures j < k
  {
    var c :| ChainTo(steps, c, d) && |c| == j + 1;
    var e :| ChainTo(steps, e, id) && |e| == k + 1;
    assert e[|e| - 1] in Ids(steps);
    assert ChainTo(steps, c + [id], id);
  }
}
