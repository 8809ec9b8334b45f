# CartelOS economy engine, in Dafny

This project models the one piece of state-transition logic in the `CartelOS`
dashboard component (`engine.js`). It covers two things. The first is the periodic economy tick
(`processEconomy`), which launders dirty cash through the active Laundromats,
credits clean cash and raises heat. The second is the dispatch command
(`startShipment`), which appends a new shipment to the list of runs.

- `CartelState` (state.dfy): the empire ledger (`Empire`), a business
  (`Business`; the source's `type` field is called `kind` because `type` is a
  Dafny keyword), a shipment (`Run`), the constants used by the code, and the
  initial state of the component.
- `Economy` (economy.dfy): the tick as a pure function `Tick` of the ledger and
  the registry, with the laundering sum defined as the sum of `rate` over the
  filtered registry (`Capacity`), and lemmas about one tick and about `n` ticks.
- `Shipments` (shipments.dfy): the new list of runs after a dispatch
  (`WithNewRun`), and lemmas about it.
- `Component` (cartel_os.dfy): class `CartelOS` with fields `empire`,
  `businesses` and `activeRuns`. `LaunderedAmount` is the `forEach` loop that
  accumulates `launderedAmount`, proved equal to `Capacity`. `ProcessEconomy`
  replaces `empire` with `Tick` of the old ledger. `StartShipment` replaces
  `activeRuns` with `WithNewRun` of the old list.

Modelling choices:
- Cash, rates and shipment values are unbounded integers; all values the
  component uses are whole dollars. Heat and risk are `real`, so the
  `+ 0.1` creep is exact.
- The tick is one atomic step from the current state. The guard in the loop
  reads the closure's `empire.dirtyCash` and the update reads `prev`; in a
  sequential model these are the same pre-tick ledger. Likewise `startShipment`
  appends to the current `activeRuns`.
- The model follows the code where it differs from the intended design. Clean
  cash is credited with the whole laundered sum even when that sum exceeds the
  dirty cash. Dirty cash is only floored at 0 afterwards (`engine.js:38-39`).
  So the model does not clamp the laundered amount to the dirty cash before
  crediting. `TickCashBalance` states exactly when cash is conserved, and
  `ShortfallTick` shows 3000 dirty cash with a 5000 laundromat crediting 5000.
- The shipment id is a parameter, standing for the `Date.now()` reading.

## Model

| member | source | states |
|---|---|---|
| CartelState.InitialStateValid | engine.js:6-16 | the initial ledger has non-negative cash and heat 15 within [0, 100], and the initial businesses have non-negative rates |
| Economy.Launderers | engine.js:30-31 | the businesses counted by the loop are exactly those that are active and of type "Laundromat", never more than the registry holds |
| Economy.LaunderersMultiplicity | engine.js:30-31 | every active Laundromat is counted exactly as many times as it occurs in the registry, and no other business is counted |
| Economy.CapacityAppend | engine.js:29-34 | the laundering sum over two registries put together is the sum of the two laundering sums |
| Economy.CapacitySnoc | engine.js:30-33 | one more business adds its rate to the laundering sum exactly when it is an active Laundromat |
| Economy.CapacityNonNegative | engine.js:29-34 | with non-negative rates the laundering sum is non-negative |
| Economy.CapacityZero | engine.js:29-34 | with non-negative rates the laundering sum is 0 exactly when every active Laundromat has rate 0, in particular when there is none |
| Economy.Tick | engine.js:36-41 | a tick keeps the rank, never leaves dirty cash negative and never leaves heat above 100 |
| Economy.TickDirtyCash | engine.js:38 | dirty cash after a tick is never negative, never above a non-negative start, and is 0 exactly when the laundered amount reaches the dirty cash |
| Economy.TickCleanCash | engine.js:39 | clean cash never decreases; it gains the whole laundering sum while dirty cash is positive, even beyond the dirty cash available, and nothing otherwise |
| Economy.TickCashBalance | engine.js:38-39 | total cash grows by exactly max(0, laundered - dirtyBefore), so it is conserved if and only if the laundered amount is at most the dirty cash |
| Economy.TickHeat | engine.js:40 | heat never exceeds 100, never decreases from a start at or below 100, strictly rises below 100, and is 100 exactly when heat + 0.1 reaches the cap |
| Economy.HeatClamp | engine.js:40 | heat 99.95 becomes 100, not 100.05 |
| Economy.IdleTick | engine.js:29-41 | from non-negative dirty cash, a tick changes only heat if and only if dirty cash is 0 or no active Laundromat has a positive rate |
| Economy.TickPreservesValid | engine.js:36-41 | a tick keeps cash non-negative and heat within [0, 100] |
| Economy.HeatAfterTicks | engine.js:40 | after n ticks from heat h at or below 100, heat is min(100, h + n * 0.1) |
| Economy.DirtyAfterTicks | engine.js:29-38 | after n ticks from non-negative dirty cash d with an unchanged registry, dirty cash is max(0, d - n * laundering sum) |
| Economy.TicksPreserveValid | engine.js:36-41 | any number of ticks keeps the ledger consistent and the rank unchanged |
| Economy.FirstTick | engine.js:6-41 | the first tick from the initial state gives dirty 495000, clean 55000, heat 15.1, rank "Capo" |
| Economy.ShortfallTick | engine.js:36-41 | 3000 dirty cash with a 5000 laundromat ends at dirty 0 and credits clean cash 5000, not 3000 |
| Shipments.WithNewRun | engine.js:45-53 | a dispatch makes the runs list one longer, keeps the earlier runs in order, and the last run has the given id, value and risk, progress 0 and status "In Transit" |
| Shipments.DispatchAddsOneInTransit | engine.js:46-53 | a dispatch puts exactly one more run in transit |
| Shipments.DispatchKeepsRunsFresh | engine.js:46-53 | dispatching keeps every run at progress 0 and status "In Transit" |
| Shipments.InTransitCountOfFreshRuns | engine.js:46-53 | when every run is as dispatch created it, every run is in transit |
| Shipments.DispatchOrder | engine.js:45-53 | two dispatches in a row append their runs in call order after the untouched earlier runs |
| Component.CartelOS.constructor | engine.js:6-18 | the component starts with the initial ledger, the two initial businesses, no runs, in a consistent state (non-negative cash and rates, heat within [0, 100], every run at progress 0 and in transit) |
| Component.CartelOS.LaunderedAmount | engine.js:29-34 | the accumulating loop returns the sum of rate over the active Laundromats while dirty cash is positive, and 0 otherwise |
| Component.CartelOS.ProcessEconomy | engine.js:28-42 | the ledger becomes the tick of the old ledger, the business list and the runs are unchanged, and consistency is kept |
| Component.CartelOS.StartShipment | engine.js:45-54 | the runs become the old runs plus the new run, the ledger and the businesses are unchanged, and consistency is kept, including every run being at progress 0 and in transit |

## Left out

- The `setInterval` timer in `useEffect` and its 5-second cadence (engine.js:21-26): this is host scheduling. Here a tick is one call of `ProcessEconomy`.
- How shipment ids are made: `Date.now()` reads the wall clock. The id is a parameter, and nothing is claimed about uniqueness.
- All JSX rendering, the `StatBox` component and display formatting (`toLocaleString`, `toFixed`, the fixed 45% progress bar): presentation only.
- Floating-point rounding of `+ 0.1` and of cash sums: heat is an exact `real`, so the model has no binary rounding. Cash is an unbounded integer, so the model has no precision loss above 2^53.
- Behaviour the source does not have is not modelled: shipment progress and risk resolution, any use of `heatGen` in the tick, validation of `value` or `risk`, toggling businesses, and the min-clamp on the laundered amount.
- React's batching of state updates and stale closures: the model is sequential, and each operation acts on the current state.
