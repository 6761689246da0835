/**
 * The single-product (s, S) inventory-control simulation of run_simulation.
 *
 * One run starts with the level at S and no outstanding order, then executes
 * the same five-step day for a fixed number of days: receive a due order,
 * meet the day's demand (unmet demand is lost and charged), charge holding
 * cost on what is left, and reorder up to S when the level is at most s and
 * nothing is on order.
 *
 * The random draws are inputs: `demands[d]` is day d's demand, and
 * `arrivals[d]` is the first day on which an order placed on day d counts as
 * arrived. Money is kept in whole units, since every rate is a whole number.
 */
module Inventory {
  import opened Wrappers

  // The configuration fixed inside run_simulation.
  const ReferenceHorizon: nat := 365
  const DemandMean: nat := 5
  const LeadTimeMin: nat := 2
  const LeadTimeMax: nat := 5
  const HoldingCostPerUnit: int := 1
  const OrderCost: int := 20
  const StockoutCostPerUnit: int := 5

  /** Reorder point s and order-up-to level S. */
  datatype Policy = Policy(s: int, S: int)

  /**
   * The inventory level, the quantity on order, and the pending arrival: the
   * day from which the outstanding Timeout counts as triggered, or None when
   * there is no arrival event.
   */
  datatype Stock = Stock(level: int, onOrder: int, arrival: Option<int>)

  datatype Costs = Costs(holding: int, ordering: int, stockout: int)

  datatype State = State(stock: Stock, costs: Costs)

  datatype SimulationResult = SimulationResult(
    totalCost: int,
    holdingCost: int,
    orderingCost: int,
    stockoutCost: int,
    endingInventory: int)

  // ---------------------------------------------------------------------
  // Random draws
  // ---------------------------------------------------------------------

  /** The number of uniform draws that fall below one half. */
  function CountBelowHalf(draws: seq<real>): (n: nat)
    ensures n == |set i | 0 <= i < |draws| && draws[i] < 0.5|
    ensures n <= |draws|
    ensures (forall i :: 0 <= i < |draws| ==> draws[i] < 0.5) ==> n == |draws|
    ensures (forall i :: 0 <= i < |draws| ==> 0.5 <= draws[i]) ==> n == 0
  {
    if draws == [] then 0
    else
      var init, last := draws[..|draws| - 1], |draws| - 1;
      assert forall i :: 0 <= i < |init| ==> init[i] == draws[i];
      var below := set i | 0 <= i < |draws| && draws[i] < 0.5;
      var belowInit := set i | 0 <= i < |init| && init[i] < 0.5;
      assert below == belowInit + (if draws[last] < 0.5 then {last} else {});
      assert last !in belowInit;
      CountBelowHalf(init) + (if draws[last] < 0.5 then 1 else 0)
  }

  /**
   * generate_demand: the successes among 2 * mean Bernoulli trials with
   * probability one half, given the trials' uniform draws.
   */
  function GenerateDemand(mean: nat, draws: seq<real>): (d: nat)
    requires |draws| == 2 * mean
    ensures d <= 2 * mean
    ensures mean == DemandMean ==> DemandInRange(d)
  {
    CountBelowHalf(draws)
  }

  predicate DemandInRange(d: int)
  {
    0 <= d <= 2 * DemandMean
  }

  /**
   * How `arrival_event.triggered` is read for the Timeout that schedules a
   * delivery. SimPy marks a Timeout as triggered when it is created, so as
   * written an order is received on the next day; the documented intent is
   * that it is received once its delay has elapsed.
   */
  datatype TimeoutReading = TriggeredOnCreation | TriggeredAfterDelay

  /** The first day on which an order placed on `day` with lead time `lead` arrives. */
  function ArrivalDay(reading: TimeoutReading, day: int, lead: int): (a: int)
    requires LeadTimeMin <= lead <= LeadTimeMax
    ensures day < a <= day + lead
  {
    match reading
    case TriggeredOnCreation => day + 1
    case TriggeredAfterDelay => day + lead
  }

  /** The arrival day of an order placed on each day, from one lead time per day. */
  function Schedule(reading: TimeoutReading, leads: seq<int>): (arrivals: seq<int>)
    requires forall d :: 0 <= d < |leads| ==> LeadTimeMin <= leads[d] <= LeadTimeMax
    ensures |arrivals| == |leads|
    ensures forall d :: 0 <= d < |leads| ==> d < arrivals[d] <= d + leads[d]
  {
    seq(|leads|, d requires 0 <= d < |leads| => ArrivalDay(reading, d, leads[d]))
  }

  /** Draws for a run of `days` days: bounded demands, arrivals strictly after placement. */
  predicate ValidDraws(days: nat, demands: seq<int>, arrivals: seq<int>)
  {
    && |demands| == days
    && |arrivals| == days
    && (forall d :: 0 <= d < days ==> DemandInRange(demands[d]))
    && (forall d :: 0 <= d < days ==> d < arrivals[d] <= d + LeadTimeMax)
  }

  lemma ScheduleIsValid(reading: TimeoutReading, demands: seq<int>, leads: seq<int>)
    requires |demands| == |leads|
    requires forall d :: 0 <= d < |demands| ==> DemandInRange(demands[d])
    requires forall d :: 0 <= d < |leads| ==> LeadTimeMin <= leads[d] <= LeadTimeMax
    ensures ValidDraws(|demands|, demands, Schedule(reading, leads))
  {
  }

  // ---------------------------------------------------------------------
  // One day
  // ---------------------------------------------------------------------

  /** Step 1: an order whose arrival day has come is received whole, in one step. */
  function Receive(st: Stock, day: int): (r: Stock)
    ensures r.level + r.onOrder == st.level + st.onOrder
    ensures r == st <==> !(st.arrival.Some? && st.arrival.value <= day)
    ensures r != st ==> r.level == st.level + st.onOrder && r.onOrder == 0 && r.arrival == None
  {
    if st.arrival.Some? && st.arrival.value <= day then Stock(st.level + st.onOrder, 0, None)
    else st
  }

  /** The level after a day's demand, and the demand left unmet. */
  datatype Consumption = Consumption(level: int, shortage: int)

  /** Step 2: demand is served from stock; what stock cannot cover is lost. */
  function ConsumeDemand(level: int, demand: int): (c: Consumption)
    requires 0 <= demand
    ensures 0 <= c.level && 0 <= c.shortage
    ensures c.level - c.shortage == level - demand
    ensures c.level == 0 || c.shortage == 0
    ensures 0 < c.shortage <==> level < demand
  {
    if demand <= level then Consumption(level - demand, 0)
    else Consumption(0, demand - level)
  }

  /** The stock after steps 1 and 2 of `day`. */
  function AfterDemand(st: Stock, day: int, demand: int): (r: Stock)
    requires 0 <= demand
    // what is left of the received stock once demand is served, never below zero
    ensures var received := Receive(st, day);
      && 0 <= r.level
      && (demand <= received.level ==> r.level == received.level - demand)
      && (received.level < demand ==> r.level == 0)
    // serving demand does not touch the pending order
    ensures r.onOrder == Receive(st, day).onOrder && r.arrival == Receive(st, day).arrival
  {
    var received := Receive(st, day);
    received.(level := ConsumeDemand(received.level, demand).level)
  }

  /** The (s, S) trigger, restricted to a single outstanding order. */
  predicate OrderDue(p: Policy, st: Stock)
  {
    st.level <= p.s && st.onOrder == 0
  }

  /** Whether step 4 of `day` places an order. */
  predicate PlacesOrder(p: Policy, st: Stock, day: int, demand: int)
    requires 0 <= demand
  {
    OrderDue(p, AfterDemand(st, day, demand))
  }

  /** Step 4: order enough to bring the level up to S. */
  function Reorder(p: Policy, st: Stock, arrivalDay: int): (r: Stock)
    ensures r.level == st.level
    ensures OrderDue(p, st) ==> r.level + r.onOrder == p.S && r.arrival == Some(arrivalDay)
    ensures !OrderDue(p, st) ==> r == st
  {
    if OrderDue(p, st) then Stock(st.level, p.S - st.level, Some(arrivalDay)) else st
  }

  /** One iteration of the day loop, steps 1 to 4 in their fixed order. */
  function DayStep(p: Policy, st: State, day: int, demand: int, arrivalDay: int): (r: State)
    requires 0 <= demand
    // the level is never negative after the demand step, and reordering leaves it alone
    ensures r.stock.level == AfterDemand(st.stock, day, demand).level >= 0
    // holding cost is charged on the post-demand level
    ensures r.costs.holding == st.costs.holding + HoldingCostPerUnit * r.stock.level
    // a shortage is charged per unit short; otherwise the stockout total stays
    ensures var available := Receive(st.stock, day).level;
      if available < demand
      then r.stock.level == 0
        && r.costs.stockout == st.costs.stockout + StockoutCostPerUnit * (demand - available)
      else r.stock.level == available - demand && r.costs.stockout == st.costs.stockout
    // each order costs a fixed amount whatever its quantity
    ensures r.costs.ordering
      == st.costs.ordering + (if PlacesOrder(p, st.stock, day, demand) then OrderCost else 0)
    // an order is placed only at or below s with nothing on order, and tops the position up to S
    ensures PlacesOrder(p, st.stock, day, demand) ==>
      && r.stock.level <= p.s
      && Receive(st.stock, day).onOrder == 0
      && r.stock.level + r.stock.onOrder == p.S
      && r.stock.arrival == Some(arrivalDay)
    ensures !PlacesOrder(p, st.stock, day, demand) ==>
      r.stock.onOrder == Receive(st.stock, day).onOrder && r.stock.arrival == Receive(st.stock, day).arrival
    // an order placed today is not received today
    ensures PlacesOrder(p, st.stock, day, demand) && day < arrivalDay ==> Receive(r.stock, day) == r.stock
    ensures st.costs.holding <= r.costs.holding
    ensures st.costs.ordering <= r.costs.ordering
    ensures st.costs.stockout <= r.costs.stockout
  {
    var received := Receive(st.stock, day);
    var c := ConsumeDemand(received.level, demand);
    var consumed := received.(level := c.level);
    var ordering := st.costs.ordering + (if OrderDue(p, consumed) then OrderCost else 0);
    State(
      Reorder(p, consumed, arrivalDay),
      Costs(st.costs.holding + c.level * HoldingCostPerUnit, ordering,
            st.costs.stockout + c.shortage * StockoutCostPerUnit))
  }

  // ---------------------------------------------------------------------
  // The run
  // ---------------------------------------------------------------------

  /** The state before the first day: the level at S, nothing on order, no cost. */
  function Initial(p: Policy): (r: State)
    ensures r.stock.level == p.S && r.stock.onOrder == 0
    ensures Consistent(p, r, 0)
  {
    State(Stock(p.S, 0, None), Costs(0, 0, 0))
  }

  /** The state after the first n days. */
  function Simulate(p: Policy, demands: seq<int>, arrivals: seq<int>, n: nat): (r: State)
    requires ValidDraws(|demands|, demands, arrivals) && n <= |demands|
    ensures 0 <= r.costs.holding && 0 <= r.costs.ordering && 0 <= r.costs.stockout
  {
    if n == 0 then Initial(p)
    else DayStep(p, Simulate(p, demands, arrivals, n - 1), n - 1, demands[n - 1], arrivals[n - 1])
  }

  /** The number of orders placed in the first n days. */
  function Orders(p: Policy, demands: seq<int>, arrivals: seq<int>, n: nat): nat
    requires ValidDraws(|demands|, demands, arrivals) && n <= |demands|
  {
    if n == 0 then 0
    else
      var placed := PlacesOrder(p, Simulate(p, demands, arrivals, n - 1).stock, n - 1, demands[n - 1]);
      Orders(p, demands, arrivals, n - 1) + (if placed then 1 else 0)
  }

  /** The returned dictionary. */
  function Report(st: State): (r: SimulationResult)
    ensures r.totalCost == r.holdingCost + r.orderingCost + r.stockoutCost
    ensures r.holdingCost == st.costs.holding && r.orderingCost == st.costs.ordering
      && r.stockoutCost == st.costs.stockout
    ensures r.endingInventory == st.stock.level
  {
    var c := st.costs;
    SimulationResult(c.holding + c.ordering + c.stockout, c.holding, c.ordering, c.stockout, st.stock.level)
  }

  /**
   * What holds before every day `day` of a run: the totals are non-negative,
   * no quantity is on order without an arrival event, a pending arrival is
   * never overdue (it is received on the first day it is due), and, for a
   * non-negative S, the level lies in [0, S] and level plus on-order does not
   * exceed S.
   */
  predicate Consistent(p: Policy, st: State, day: int)
  {
    && 0 <= st.costs.holding
    && 0 <= st.costs.ordering
    && 0 <= st.costs.stockout
    && (st.stock.arrival == None ==> st.stock.onOrder == 0)
    && (st.stock.arrival.Some? ==> day <= st.stock.arrival.value)
    && (0 <= p.S ==>
          && 0 <= st.stock.level <= p.S
          && 0 <= st.stock.onOrder
          && st.stock.level + st.stock.onOrder <= p.S)
  }

  lemma DayStepConsistent(p: Policy, st: State, day: int, demand: int, arrivalDay: int)
    requires Consistent(p, st, day)
    requires 0 <= demand && day < arrivalDay
    ensures Consistent(p, DayStep(p, st, day, demand, arrivalDay), day + 1)
  {
  }

  /** Every state of a run is consistent; in particular 0 <= level <= S after each day when S >= 0. */
  lemma {:induction false} SimulateConsistent(p: Policy, demands: seq<int>, arrivals: seq<int>, n: nat)
    requires ValidDraws(|demands|, demands, arrivals) && n <= |demands|
    ensures Consistent(p, Simulate(p, demands, arrivals, n), n)
  {
    if n > 0 {
      SimulateConsistent(p, demands, arrivals, n - 1);
      DayStepConsistent(p, Simulate(p, demands, arrivals, n - 1), n - 1, demands[n - 1], arrivals[n - 1]);
    }
  }

  /** When S >= 0 every order quantity is non-negative, so clamping it at zero would change nothing. */
  lemma OrderQuantityNonNegative(p: Policy, demands: seq<int>, arrivals: seq<int>, n: nat)
    requires ValidDraws(|demands|, demands, arrivals) && n < |demands|
    requires 0 <= p.S
    requires PlacesOrder(p, Simulate(p, demands, arrivals, n).stock, n, demands[n])
    ensures var after := Simulate(p, demands, arrivals, n + 1).stock;
      after.onOrder == p.S - after.level >= 0
  {
    SimulateConsistent(p, demands, arrivals, n + 1);
  }

  /** The three totals never decrease over a run. */
  lemma {:induction false} CostsNonDecreasing(p: Policy, demands: seq<int>, arrivals: seq<int>, m: nat, n: nat)
    requires ValidDraws(|demands|, demands, arrivals) && m <= n <= |demands|
    ensures var a, b := Simulate(p, demands, arrivals, m).costs, Simulate(p, demands, arrivals, n).costs;
      a.holding <= b.holding && a.ordering <= b.ordering && a.stockout <= b.stockout
  {
    if m < n {
      CostsNonDecreasing(p, demands, arrivals, m, n - 1);
    }
  }

  /** The ordering total is the fixed cost times the number of orders, at most one a day. */
  lemma {:induction false} OrderingCostPerOrder(p: Policy, demands: seq<int>, arrivals: seq<int>, n: nat)
    requires ValidDraws(|demands|, demands, arrivals) && n <= |demands|
    ensures Simulate(p, demands, arrivals, n).costs.ordering == OrderCost * Orders(p, demands, arrivals, n)
    ensures Orders(p, demands, arrivals, n) <= n
  {
    if n > 0 {
      OrderingCostPerOrder(p, demands, arrivals, n - 1);
    }
  }

  function Sum(xs: seq<int>): int
  {
    if xs == [] then 0 else Sum(xs[..|xs| - 1]) + xs[|xs| - 1]
  }

  /**
   * The degenerate policy s = S = 0: the level stays at zero, each order has
   * quantity zero so one is placed every day, nothing is held, and every unit
   * of demand is lost.
   */
  lemma {:induction false} ZeroPolicy(demands: seq<int>, arrivals: seq<int>, n: nat)
    requires ValidDraws(|demands|, demands, arrivals) && n <= |demands|
    ensures var st := Simulate(Policy(0, 0), demands, arrivals, n);
      && st.stock.level == 0
      && st.stock.onOrder == 0
      && st.costs.holding == 0
      && st.costs.ordering == OrderCost * n
      && st.costs.stockout == StockoutCostPerUnit * Sum(demands[..n])
  {
    if n > 0 {
      ZeroPolicy(demands, arrivals, n - 1);
      assert demands[..n][..n - 1] == demands[..n - 1];
    }
  }

  /** For a non-negative S, one day charges holding on at most S units and stockout on at most its demand. */
  lemma DayCostBounds(p: Policy, st: State, day: int, demand: int, arrivalDay: int)
    requires Consistent(p, st, day) && 0 <= p.S
    requires 0 <= demand && day < arrivalDay
    ensures var r := DayStep(p, st, day, demand, arrivalDay);
      && r.costs.holding <= st.costs.holding + HoldingCostPerUnit * p.S
      && r.costs.stockout <= st.costs.stockout + StockoutCostPerUnit * demand
  {
  }

  /** a * n unfolded by one step, kept apart from the larger proof context that needs it. */
  lemma MulSucc(a: int, n: nat)
    requires 0 < n
    ensures a * (n - 1) + a == a * n
  {
  }

  /** For a non-negative S, a run charges holding on at most S units a day, at one unit of cost each. */
  lemma {:induction false} HoldingBound(p: Policy, demands: seq<int>, arrivals: seq<int>, n: nat)
    requires ValidDraws(|demands|, demands, arrivals) && n <= |demands|
    requires 0 <= p.S
    ensures Simulate(p, demands, arrivals, n).costs.holding <= p.S * n
  {
    if n > 0 {
      HoldingBound(p, demands, arrivals, n - 1);
      SimulateConsistent(p, demands, arrivals, n - 1);
      DayCostBounds(p, Simulate(p, demands, arrivals, n - 1), n - 1, demands[n - 1], arrivals[n - 1]);
      var prev := Simulate(p, demands, arrivals, n - 1).costs.holding;
      var next := Simulate(p, demands, arrivals, n).costs.holding;
      assert prev <= p.S * (n - 1) && next <= prev + p.S;
      assert p.S * (n - 1) + p.S == p.S * n by {
        MulSucc(p.S, n);
      }
    }
  }

  /** For a non-negative S, a run charges stockout on at most the units demanded. */
  lemma {:induction false} StockoutBound(p: Policy, demands: seq<int>, arrivals: seq<int>, n: nat)
    requires ValidDraws(|demands|, demands, arrivals) && n <= |demands|
    requires 0 <= p.S
    ensures Simulate(p, demands, arrivals, n).costs.stockout <= StockoutCostPerUnit * Sum(demands[..n])
  {
    if n > 0 {
      StockoutBound(p, demands, arrivals, n - 1);
      SimulateConsistent(p, demands, arrivals, n - 1);
      DayCostBounds(p, Simulate(p, demands, arrivals, n - 1), n - 1, demands[n - 1], arrivals[n - 1]);
      assert demands[..n][..n - 1] == demands[..n - 1];
    }
  }

  /** run_simulation over a horizon of `days` days. */
  method RunSimulation(p: Policy, days: nat, demands: seq<int>, arrivals: seq<int>) returns (r: SimulationResult)
    requires ValidDraws(days, demands, arrivals)
    ensures r == Report(Simulate(p, demands, arrivals, days))
    ensures r.totalCost == r.holdingCost + r.orderingCost + r.stockoutCost
    ensures 0 <= r.holdingCost && 0 <= r.orderingCost && 0 <= r.stockoutCost
    ensures r.orderingCost == OrderCost * Orders(p, demands, arrivals, days) <= OrderCost * days
    ensures 0 < days ==> 0 <= r.endingInventory
    ensures 0 <= p.S ==> 0 <= r.endingInventory <= p.S
  {
    var level := p.S;
    var holding, ordering, stockout := 0, 0, 0;
    var onOrder := 0;
    var arrival: Option<int> := None;
    for day := 0 to days
      invariant State(Stock(level, onOrder, arrival), Costs(holding, ordering, stockout))
        == Simulate(p, demands, arrivals, day)
    {
      // 1. receive a due replenishment
      if arrival.Some? && arrival.value <= day {
        level := level + onOrder;
        onOrder := 0;
        arrival := None;
      }
      // 2. demand realisation
      var demand := demands[day];
      if demand <= level {
        level := level - demand;
      } else {
        var shortage := demand - level;
        level := 0;
        stockout := stockout + shortage * StockoutCostPerUnit;
      }
      // 3. holding cost
      holding := holding + level * HoldingCostPerUnit;
      // 4. (s, S) reorder decision
      if level <= p.s && onOrder == 0 {
        onOrder := p.S - level;
        ordering := ordering + OrderCost;
        arrival := Some(arrivals[day]);
      }
    }
    r := SimulationResult(holding + ordering + stockout, holding, ordering, stockout, level);
    SimulateConsistent(p, demands, arrivals, days);
    OrderingCostPerOrder(p, demands, arrivals, days);
  }
}
