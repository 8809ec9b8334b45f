/** Dispatching a shipment: a pure append to the list of runs. */
module Shipments {
  import opened CartelState

  /** The list of runs after dispatching one worth `value` at `risk`, named `id`:
      the old runs, in order, then a new run at progress 0 and in transit. */
  function WithNewRun(runs: seq<Run>, id: int, value: int, risk: real): (r: seq<Run>)
    ensures |r| == |runs| + 1
    ensures r[..|runs|] == runs
    ensures r[|runs|].id == id && r[|runs|].value == value && r[|runs|].risk == risk
    ensures r[|runs|].progress == 0 && r[|runs|].status == InTransit
  {
    runs + [Run(id, value, 0, risk, InTransit)]
  }

  /** How many runs are in transit. */
  function InTransitCount(runs: seq<Run>): (r: nat)
  {
    if runs == [] then 0
    else (if runs[0].status == InTransit then 1 else 0) + InTransitCount(runs[1..])
  }

  lemma {:induction false} InTransitCountAppend(a: seq<Run>, b: seq<Run>)
    ensures InTransitCount(a + b) == InTransitCount(a) + InTransitCount(b)
  {
    if a == [] {
      assert a + b == b;
    } else {
      assert (a + b)[1..] == a[1..] + b;
      InTransitCountAppend(a[1..], b);
    }
  }

  /** Dispatching puts exactly one more run in transit. */
  lemma DispatchAddsOneInTransit(runs: seq<Run>, id: int, value: int, risk: real)
    ensures InTransitCount(WithNewRun(runs, id, value, risk)) == InTransitCount(runs) + 1
  {
    var run := Run(id, value, 0, risk, InTransit);
    InTransitCountAppend(runs, [run]);
    assert [run][1..] == [];
  }

  /** Dispatching keeps every run as dispatch created it. */
  lemma DispatchKeepsRunsFresh(runs: seq<Run>, id: int, value: int, risk: real)
    requires ValidRuns(runs)
    ensures ValidRuns(WithNewRun(runs, id, value, risk))
  {
  }

  /** Since no run is ever advanced or resolved, every run is in transit. */
  lemma {:induction false} InTransitCountOfFreshRuns(runs: seq<Run>)
    requires ValidRuns(runs)
    ensures InTransitCount(runs) == |runs|
  {
    if runs != [] {
      assert runs[0] in runs;
      assert forall run :: run in runs[1..] ==> run in runs;
      InTransitCountOfFreshRuns(runs[1..]);
    }
  }

  /** Two dispatches in a row leave the runs in the order they were dispatched. */
  lemma DispatchOrder(runs: seq<Run>, id1: int, v1: int, r1: real, id2: int, v2: int, r2: real)
    ensures var after := WithNewRun(WithNewRun(runs, id1, v1, r1), id2, v2, r2);
      |after| == |runs| + 2 && after[..|runs|] == runs &&
      after[|runs|] == Run(id1, v1, 0, r1, InTransit) &&
      after[|runs| + 1] == Run(id2, v2, 0, r2, InTransit)
  {
  }
}
