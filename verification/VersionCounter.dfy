/**
 * The counter from which a worker's engine takes the versions of its execution updates. All runs of one worker share
 * it: each sets it to its own claimed version when it starts, and each advances it.
 */
module VersionCounter {

  datatype Op = Start(run: nat, claimed: int) | Next(run: nat)

  function AfterOp(version: int, op: Op): int {
    match op
    case Start(_, claimed) => claimed
    case Next(_) => version + 1
  }

  /** The counter after a log of operations by any runs. */
  function CounterAfter(log: seq<Op>): int {
    if log == [] then 0 else AfterOp(CounterAfter(log[..|log| - 1]), log[|log| - 1])
  }

  /** Operation `s` is the last start of any run. */
  predicate IsLastStart(log: seq<Op>, s: nat) {
    s < |log| && log[s].Start? && forall k :: s < k < |log| ==> log[k].Next?
  }

  lemma {:induction false} CounterFromLastStart(log: seq<Op>, s: nat)
    requires IsLastStart(log, s)
    ensures CounterAfter(log) == log[s].claimed + (|log| - 1 - s)
  {
    var n := |log| - 1;
    if n == s {
    } else {
      CounterFromLastStart(log[..n], s);
    }
  }

  /** Some start is the last one. */
  lemma {:induction false} LastStart(log: seq<Op>, a: nat) returns (s: nat)
    requires a < |log| && log[a].Start?
    ensures a <= s && IsLastStart(log, s)
  {
    var n := |log| - 1;
    if log[n].Start? {
      s := n;
    } else {
      s := LastStart(log[..n], a);
      assert forall k :: s < k < |log| ==> k == n || log[k] == log[..n][k];
    }
  }

  /**
   * The version that the log's last operation names is above, at or below the claim of the run that started at `a`
   * exactly as the last start's claim plus the operations since compare with that claim.
   */
  lemma NamesAboveClaimIff(log: seq<Op>, a: nat, s: nat)
    requires a <= s && a < |log| && log[a].Start? && IsLastStart(log, s) && log[|log| - 1].Next?
    ensures CounterAfter(log) > log[a].claimed <==> log[s].claimed + (|log| - 1 - s) > log[a].claimed
    ensures CounterAfter(log) == log[a].claimed <==> log[s].claimed + (|log| - 1 - s) == log[a].claimed
    ensures s == a ==> CounterAfter(log) > log[a].claimed
  {
    CounterFromLastStart(log, s);
  }

  /** With no other start in between, a run always names a version above its claim. */
  lemma AloneNamesAboveClaim(log: seq<Op>, a: nat)
    requires a < |log| - 1 && log[a].Start? && forall k :: a < k < |log| ==> log[k].Next?
    ensures CounterAfter(log) == log[a].claimed + (|log| - 1 - a) > log[a].claimed
  {
    CounterFromLastStart(log, a);
  }

  /** A run that another one follows with a lower claim names a version below its own claim, or exactly its claim. */
  lemma OtherStartResetsCounter()
    ensures CounterAfter([Start(0, 6), Start(1, 2), Next(0)]) == 3
    ensures CounterAfter([Start(0, 6), Start(1, 2), Next(1), Next(1), Next(0), Next(0)]) == 6
  {
    CounterFromLastStart([Start(0, 6), Start(1, 2), Next(0)], 1);
    CounterFromLastStart([Start(0, 6), Start(1, 2), Next(1), Next(1), Next(0), Next(0)], 1);
  }
}
