/** The three pieces of state the dashboard component keeps: the empire ledger,
    the registry of owned businesses and the list of shipments in flight. */
module CartelState {

  /** The business type that launders money (compared by string equality). */
  const LaundromatKind: string := "Laundromat"

  /** The only status a shipment is ever given. */
  const InTransit: string := "In Transit"

  /** Heat is a percentage: it never goes above this cap. */
  const HeatCap: real := 100.0

  /** The ambient heat added on every tick. */
  const HeatCreep: real := 0.1

  /** The empire ledger. Cash is whole dollars; heat is exact (no floating-point rounding). */
  datatype Empire = Empire(dirtyCash: int, cleanCash: int, globalHeat: real, rank: string)

  /** An owned enterprise; `kind` is the source's `type` field. */
  datatype Business = Business(id: int, name: string, kind: string, rate: int, heatGen: int, active: bool)

  /** A shipment ("run"); `progress` is a percentage and `risk` a fraction. */
  datatype Run = Run(id: int, value: int, progress: int, risk: real, status: string)

  function Max(a: int, b: int): (r: int) { if a >= b then a else b }

  function Min(a: real, b: real): (r: real) { if a <= b then a else b }

  /** The ledger the component starts with. */
  function InitialEmpire(): (r: Empire)
  {
    Empire(500000, 50000, 15.0, "Capo")
  }

  /** The two businesses the component starts with. */
  function InitialBusinesses(): (r: seq<Business>)
  {
    [ Business(1, "Vespucci Nightclub", LaundromatKind, 5000, 1, true),
      Business(2, "Paleto Sawmill", "Production", 0, 5, true) ]
  }

  /** What a consistent ledger looks like: no negative cash, heat within [0, 100]. */
  predicate ValidEmpire(e: Empire)
  {
    e.dirtyCash >= 0 && e.cleanCash >= 0 && 0.0 <= e.globalHeat <= HeatCap
  }

  /** Every business launders at a non-negative rate. */
  predicate ValidRegistry(bs: seq<Business>)
  {
    forall b :: b in bs ==> b.rate >= 0
  }

  /** A run as dispatch creates it: not yet under way and in transit. */
  predicate FreshRun(run: Run)
  {
    run.progress == 0 && run.status == InTransit
  }

  /** No operation advances or resolves a run, so every run stays as it was dispatched. */
  predicate ValidRuns(runs: seq<Run>)
  {
    forall run :: run in runs ==> FreshRun(run)
  }

  lemma InitialStateValid()
    ensures ValidEmpire(InitialEmpire()) && ValidRegistry(InitialBusinesses())
  {
  }
}
