/** The economy tick as a pure function of the state before it, and what it
    guarantees about the ledger. */
module Economy {
  import opened CartelState

  /** A business launders on a tick when it is active and is a Laundromat. */
  predicate Launders(b: Business)
  {
    b.active && b.kind == LaundromatKind
  }

  /** The launderers of a registry, in registry order. */
  function Launderers(bs: seq<Business>): (r: seq<Business>)
    ensures |r| <= |bs|
    ensures forall b :: b in r <==> b in bs && Launders(b)
  {
    if bs == [] then []
    else (if Launders(bs[0]) then [bs[0]] else []) + Launderers(bs[1..])
  }

  /** Each launderer occurs among the launderers exactly as often as in the
      registry, and no other business occurs there. */
  lemma {:induction false} LaunderersMultiplicity(bs: seq<Business>)
    ensures forall b :: multiset(Launderers(bs))[b] == if Launders(b) then multiset(bs)[b] else 0
  {
    if bs != [] {
      assert bs == [bs[0]] + bs[1..];
      LaunderersMultiplicity(bs[1..]);
    }
  }

  /** The sum of the rates of the given businesses. */
  function TotalRate(bs: seq<Business>): (r: int)
  {
    if bs == [] then 0 else bs[0].rate + TotalRate(bs[1..])
  }

  /** How much the registry can launder in one tick: the sum of `rate` over the
      active Laundromats. */
  function Capacity(bs: seq<Business>): (r: int)
  {
    TotalRate(Launderers(bs))
  }

  /** The amount the tick launders: the capacity while there is dirty cash, else 0. */
  function Laundered(e: Empire, bs: seq<Business>): (r: int)
  {
    if e.dirtyCash > 0 then Capacity(bs) else 0
  }

  /** One tick: dirty cash loses the laundered amount (floored at 0), clean cash
      gains all of it, heat creeps up by 0.1 (capped at 100); rank passes through. */
  function Tick(e: Empire, bs: seq<Business>): (r: Empire)
    ensures r.rank == e.rank
    ensures r.dirtyCash >= 0
    ensures r.globalHeat <= HeatCap
  {
    var amount := Laundered(e, bs);
    e.(dirtyCash := Max(0, e.dirtyCash - amount),
       cleanCash := e.cleanCash + amount,
       globalHeat := Min(HeatCap, e.globalHeat + HeatCreep))
  }

  /** `n` ticks in a row, with an unchanged registry. */
  function Ticks(e: Empire, bs: seq<Business>, n: nat): (r: Empire)
  {
    if n == 0 then e else Tick(Ticks(e, bs, n - 1), bs)
  }

  // ---- the laundering sum ----

  lemma {:induction false} LaunderersAppend(a: seq<Business>, b: seq<Business>)
    ensures Launderers(a + b) == Launderers(a) + Launderers(b)
  {
    if a == [] {
      assert a + b == b;
    } else {
      assert (a + b)[1..] == a[1..] + b;
      LaunderersAppend(a[1..], b);
    }
  }

  lemma {:induction false} TotalRateAppend(a: seq<Business>, b: seq<Business>)
    ensures TotalRate(a + b) == TotalRate(a) + TotalRate(b)
  {
    if a == [] {
      assert a + b == b;
    } else {
      assert (a + b)[1..] == a[1..] + b;
      TotalRateAppend(a[1..], b);
    }
  }

  /** The capacity of two registries put together is the sum of their capacities. */
  lemma CapacityAppend(a: seq<Business>, b: seq<Business>)
    ensures Capacity(a + b) == Capacity(a) + Capacity(b)
  {
    LaunderersAppend(a, b);
    TotalRateAppend(Launderers(a), Launderers(b));
  }

  /** Extending a registry by one business adds that business's rate exactly when it launders. */
  lemma CapacitySnoc(bs: seq<Business>, b: Business)
    ensures Capacity(bs + [b]) == Capacity(bs) + (if Launders(b) then b.rate else 0)
  {
    CapacityAppend(bs, [b]);
    assert [b][1..] == [];
    assert Launderers([b]) == if Launders(b) then [b] else [];
    assert TotalRate([b]) == b.rate;
  }

  /** The laundering sum over one more prefix of a registry: the step of the accumulating loop. */
  lemma CapacityPrefix(bs: seq<Business>, i: nat)
    requires i < |bs|
    ensures Capacity(bs[..i + 1]) == Capacity(bs[..i]) + (if Launders(bs[i]) then bs[i].rate else 0)
  {
    assert bs[..i + 1] == bs[..i] + [bs[i]];
    CapacitySnoc(bs[..i], bs[i]);
  }

  lemma {:induction false} TotalRateNonNegative(bs: seq<Business>)
    requires forall b :: b in bs ==> b.rate >= 0
    ensures TotalRate(bs) >= 0
  {
    if bs != [] {
      assert bs[0] in bs;
      TotalRateNonNegative(bs[1..]);
    }
  }

  /** With non-negative rates, a sum of rates is 0 exactly when every rate is 0. */
  lemma {:induction false} TotalRateZero(bs: seq<Business>)
    requires forall b :: b in bs ==> b.rate >= 0
    ensures TotalRate(bs) == 0 <==> forall b :: b in bs ==> b.rate == 0
  {
    if bs != [] {
      assert bs[0] in bs;
      TotalRateNonNegative(bs[1..]);
      TotalRateZero(bs[1..]);
      assert forall b :: b in bs <==> b == bs[0] || b in bs[1..];
    }
  }

  lemma CapacityNonNegative(bs: seq<Business>)
    requires ValidRegistry(bs)
    ensures Capacity(bs) >= 0
  {
    TotalRateNonNegative(Launderers(bs));
  }

  /** With non-negative rates, the registry launders nothing exactly when every
      active Laundromat has rate 0 (in particular when there is none). */
  lemma CapacityZero(bs: seq<Business>)
    requires ValidRegistry(bs)
    ensures Capacity(bs) == 0 <==> forall b :: b in bs && Launders(b) ==> b.rate == 0
  {
    TotalRateZero(Launderers(bs));
  }

  // ---- one tick ----

  /** Dirty cash ends at dirty cash minus the laundered amount, floored at 0:
      never negative, never above a non-negative start when the rates are
      non-negative, and 0 exactly when the laundered amount reaches it. */
  lemma TickDirtyCash(e: Empire, bs: seq<Business>)
    requires ValidRegistry(bs)
    ensures 0 <= Tick(e, bs).dirtyCash
    ensures e.dirtyCash >= 0 ==> Tick(e, bs).dirtyCash <= e.dirtyCash
    ensures Tick(e, bs).dirtyCash == 0 <==> e.dirtyCash <= Laundered(e, bs)
  {
    CapacityNonNegative(bs);
  }

  /** Clean cash gains exactly the laundered amount, so it never decreases when
      the rates are non-negative; it gains the full capacity whenever there is
      dirty cash, even more than the dirty cash there was. */
  lemma TickCleanCash(e: Empire, bs: seq<Business>)
    requires ValidRegistry(bs)
    ensures Tick(e, bs).cleanCash >= e.cleanCash
    ensures e.dirtyCash > 0 ==> Tick(e, bs).cleanCash == e.cleanCash + Capacity(bs)
    ensures e.dirtyCash <= 0 ==> Tick(e, bs).cleanCash == e.cleanCash
  {
    CapacityNonNegative(bs);
  }

  /** Total cash is conserved exactly when the laundered amount is at most the
      dirty cash; otherwise the tick creates the difference out of nothing. */
  lemma TickCashBalance(e: Empire, bs: seq<Business>)
    ensures var r := Tick(e, bs);
      r.dirtyCash + r.cleanCash == e.dirtyCash + e.cleanCash + Max(0, Laundered(e, bs) - e.dirtyCash)
    ensures var r := Tick(e, bs);
      r.dirtyCash + r.cleanCash == e.dirtyCash + e.cleanCash <==> Laundered(e, bs) <= e.dirtyCash
  {
  }

  /** Heat never exceeds 100, never decreases from a value at or below 100, and
      strictly rises while below 100; it lands on 100 exactly when adding 0.1
      would reach or pass the cap. */
  lemma TickHeat(e: Empire, bs: seq<Business>)
    ensures Tick(e, bs).globalHeat <= HeatCap
    ensures e.globalHeat <= HeatCap ==> e.globalHeat <= Tick(e, bs).globalHeat
    ensures e.globalHeat < HeatCap ==> e.globalHeat < Tick(e, bs).globalHeat
    ensures Tick(e, bs).globalHeat == HeatCap <==> e.globalHeat + HeatCreep >= HeatCap
  {
  }

  /** From a non-negative dirty balance, a tick changes nothing but the heat
      exactly when there is no dirty cash or no active Laundromat has a positive rate. */
  lemma IdleTick(e: Empire, bs: seq<Business>)
    requires e.dirtyCash >= 0
    requires ValidRegistry(bs)
    ensures Tick(e, bs) == e.(globalHeat := Tick(e, bs).globalHeat)
        <==> (e.dirtyCash == 0 || forall b :: b in bs && Launders(b) ==> b.rate == 0)
  {
    CapacityZero(bs);
    CapacityNonNegative(bs);
  }

  /** A tick keeps a consistent ledger consistent. */
  lemma TickPreservesValid(e: Empire, bs: seq<Business>)
    requires ValidEmpire(e) && ValidRegistry(bs)
    ensures ValidEmpire(Tick(e, bs))
  {
    CapacityNonNegative(bs);
  }

  // ---- many ticks ----

  /** After `n` ticks heat is `min(100, h + n * 0.1)` from any start at or below 100. */
  lemma {:induction false} HeatAfterTicks(e: Empire, bs: seq<Business>, n: nat)
    requires e.globalHeat <= HeatCap
    ensures Ticks(e, bs, n).globalHeat == Min(HeatCap, e.globalHeat + n as real * HeatCreep)
  {
    if n > 0 {
      HeatAfterTicks(e, bs, n - 1);
      assert (n - 1) as real * HeatCreep + HeatCreep == n as real * HeatCreep;
    }
  }

  /** After `n` ticks from a non-negative balance, dirty cash is `max(0, d - n * capacity)`. */
  lemma {:induction false} DirtyAfterTicks(e: Empire, bs: seq<Business>, n: nat)
    requires e.dirtyCash >= 0 && ValidRegistry(bs)
    ensures Ticks(e, bs, n).dirtyCash == Max(0, e.dirtyCash - n * Capacity(bs))
  {
    if n > 0 {
      DirtyAfterTicks(e, bs, n - 1);
      CapacityNonNegative(bs);
      assert (n - 1) * Capacity(bs) + Capacity(bs) == n * Capacity(bs);
    }
  }

  /** Any number of ticks keeps a consistent ledger consistent and the rank as it was. */
  lemma {:induction false} TicksPreserveValid(e: Empire, bs: seq<Business>, n: nat)
    requires ValidEmpire(e) && ValidRegistry(bs)
    ensures ValidEmpire(Ticks(e, bs, n))
    ensures Ticks(e, bs, n).rank == e.rank
  {
    if n > 0 {
      TicksPreserveValid(e, bs, n - 1);
      TickPreservesValid(Ticks(e, bs, n - 1), bs);
    }
  }

  // ---- concrete ticks ----

  /** The first tick from the initial state launders the nightclub's 5000. */
  lemma FirstTick()
    ensures Tick(InitialEmpire(), InitialBusinesses()) == Empire(495000, 55000, 15.1, "Capo")
  {
    assert Launderers(InitialBusinesses()) == [InitialBusinesses()[0]] by {
      assert InitialBusinesses()[1..][1..] == [];
    }
  }

  /** With 3000 dirty and a 5000 laundromat, dirty cash floors at 0 but clean
      cash is credited the full 5000. */
  lemma ShortfallTick()
    ensures var e := Empire(3000, 50000, 15.0, "Capo");
      Tick(e, [InitialBusinesses()[0]]) == Empire(0, 55000, 15.1, "Capo")
  {
    CapacitySnoc([], InitialBusinesses()[0]);
    assert [] + [InitialBusinesses()[0]] == [InitialBusinesses()[0]];
  }

  /** Heat 99.95 is clamped to 100, not 100.05. */
  lemma HeatClamp(bs: seq<Business>)
    ensures Tick(Empire(0, 0, 99.95, "Capo"), bs).globalHeat == 100.0
  {
  }
}
