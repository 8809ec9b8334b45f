/** The dashboard component's state and its two operations, as an object whose
    fields are replaced by the tick and by the dispatch command. */
module Component {
  import opened CartelState
  import opened Economy
  import Shipments

  class CartelOS {
    var empire: Empire
    var businesses: seq<Business>
    var activeRuns: seq<Run>

    /** The consistency the component starts in and keeps. */
    ghost predicate Valid()
      reads this
    {
      ValidEmpire(empire) && ValidRegistry(businesses) && ValidRuns(activeRuns)
    }

    constructor ()
      ensures Valid()
      ensures empire == InitialEmpire() && businesses == InitialBusinesses() && activeRuns == []
    {
      empire := InitialEmpire();
      businesses := InitialBusinesses();
      activeRuns := [];
      InitialStateValid();
    }

    /** The laundering loop: the sum of `rate` over the active Laundromats while
        there is dirty cash, and 0 otherwise. */
    method LaunderedAmount() returns (launderedAmount: int)
      ensures empire.dirtyCash > 0 ==> launderedAmount == Capacity(businesses)
      ensures empire.dirtyCash <= 0 ==> launderedAmount == 0
    {
      launderedAmount := 0;
      var i := 0;
      while i < |businesses|
        invariant 0 <= i <= |businesses|
        invariant launderedAmount == if empire.dirtyCash > 0 then Capacity(businesses[..i]) else 0
      {
        var b := businesses[i];
        if b.active && b.kind == LaundromatKind && empire.dirtyCash > 0 {
          launderedAmount := launderedAmount + b.rate;
        }
        CapacityPrefix(businesses, i);
        i := i + 1;
      }
      assert businesses[..i] == businesses;
    }

    /** One economy tick: the ledger becomes `Tick` of the old ledger; the
        registry and the runs are left alone. */
    method ProcessEconomy()
      modifies this`empire
      ensures empire == Tick(old(empire), businesses)
      ensures businesses == old(businesses) && activeRuns == old(activeRuns)
      ensures old(Valid()) ==> Valid()
    {
      var launderedAmount := LaunderedAmount();
      empire := empire.(dirtyCash := Max(0, empire.dirtyCash - launderedAmount),
                        cleanCash := empire.cleanCash + launderedAmount,
                        globalHeat := Min(HeatCap, empire.globalHeat + HeatCreep));
      if old(Valid()) {
        TickPreservesValid(old(empire), businesses);
      }
    }

    /** Dispatch a shipment named `id` (the source uses the wall clock): one new
        run at the end, the ledger and registry left alone. */
    method StartShipment(id: int, value: int, risk: real)
      modifies this`activeRuns
      ensures activeRuns == Shipments.WithNewRun(old(activeRuns), id, value, risk)
      ensures empire == old(empire) && businesses == old(businesses)
      ensures old(Valid()) ==> Valid()
    {
      var newRun := Run(id, value, 0, risk, InTransit);
      activeRuns := activeRuns + [newRun];
      if old(Valid()) {
        Shipments.DispatchKeepsRunsFresh(old(activeRuns), id, value, risk);
      }
    }
  }
}
