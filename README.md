# Syncraft core in Dafny: (s, S) inventory simulation and product routes

This project models two parts of the Syncraft repository and proves properties
of the model.

1. **The inventory-control simulation** (`run_simulation` in
   `tools/simpy/inventory_control.py`). A single product is run under an
   (s, S) policy. The level starts at S with nothing on order, and each day
   runs the same steps in order:
   - receive a due replenishment, all of it at once;
   - serve the day's demand, charging 5 per unit that stock cannot cover (lost,
     not backordered);
   - charge 1 per unit left in stock;
   - if the level is at most s and nothing is on order, order `S - level`,
     charge 20, and schedule its arrival.

   `Inventory.RunSimulation` is the day loop, written as a method with a `for`
   loop over local state. It is proved equal to the specification function
   `Inventory.Simulate`, a fold of `Inventory.DayStep` over the days. The
   lemmas about `Simulate` give:
   - the cost accounting;
   - the level bounds and the single-outstanding-order discipline;
   - monotone non-negative totals;
   - the ordering cost as 20 per order, at most one order a day;
   - the degenerate policy s = S = 0.

2. **Product-route list maintenance** (`tools/syncraft/product_setup.py`).
   Each record has a label, a route of station ids and a colour.
   - `ProductRoutes.AddProductRoute` first checks the route against the graph's
     node ids. Then a loop overwrites the first record with the same label, or
     appends a new record if none matches.
   - `RemoveProductRoute` filters out every record with a label.
   - `ResetProductRoutes` gives the empty list.

   The list the store would load is an input and the list it would save is an
   output (`None` when nothing is saved). The graph is the sequence of its
   node ids.

Files:
- `wrappers.dfy`: `Option`.
- `inventory.dfy`: module `Inventory`.
- `node_order.dfy`: module `NodeOrder`, Python's string order and `sorted()` for the node list.
- `product_routes.dfy`: module `ProductRoutes`.

Randomness is an input:
- `demands[d]` is day d's demand, in `[0, 2 * 5]`.
- `arrivals[d]` is the first day on which an order placed on day d counts as
  arrived, with `d < arrivals[d] <= d + 5`.

The arrival test at line 109 reads SimPy's `Event.triggered`. SimPy marks a
`Timeout` as triggered when it is created, so as written an order is received
on the next day whatever delay was drawn. The intended reading is that it
arrives after its 2–5 day delay. `Inventory.ArrivalDay` gives the arrival day
under either reading (`TimeoutReading`), and every property below holds for
any arrival day that is strictly after the placement day.

The horizon `days` is a parameter; the source's 365 is `ReferenceHorizon`. The
cost rates 1, 20 and 5 are whole numbers and every quantity is an integer, so
the model keeps money as `int`.

Two places where another reading is possible follow the code:
- **Order quantity.** The code orders `S - level` with no clamp at zero (line
  134). `Inventory.OrderQuantityNonNegative` proves that the quantity is never
  negative when `S >= 0`, so a clamped quantity `max(S - level, 0)` would
  change nothing there. With `S < 0`
  the model, like the code, can hold a negative order, and the day-0 level
  `S < 0` is charged as a shortage of `demand - S` units.
- **Arrival day.** Arrival on `day + lead time` is the reading of the
  docstring's "Orders arrive after a stochastic lead time" (line 19). The
  code's `triggered` test is modelled as described above, with both readings
  available.
- **Validation.** There is no validation: the horizon may be 0, and the cost
  rates are fixed constants, so no negative rate can occur.

## Model

| member | source | states |
|---|---|---|
| Inventory.CountBelowHalf | tools/simpy/inventory_control.py:99 | the count is the size of the set of positions whose draw is below 0.5; it is at most the number of draws; it is all of them when every draw is below 0.5 and none when none is |
| Inventory.GenerateDemand | tools/simpy/inventory_control.py:96-99 | a generated demand lies in [0, 2 * mean], so with mean 5 it is a valid daily demand |
| Inventory.ArrivalDay | tools/simpy/inventory_control.py:139-140 | under both readings of `triggered`, an order placed on `day` with a lead time in [2, 5] arrives strictly after `day` and no later than `day + lead` |
| Inventory.Schedule | tools/simpy/inventory_control.py:139-140 | one arrival day per placement day, each strictly after its day and within its lead time |
| Inventory.ScheduleIsValid | tools/simpy/inventory_control.py:99-140 | bounded demands with arrival days from either reading are admissible draws for the run |
| Inventory.Receive | tools/simpy/inventory_control.py:109-112 | a receipt happens exactly when an order is pending and due; it moves the whole on-order quantity into stock at once (level + on-order unchanged) and clears the order and its arrival event |
| Inventory.ConsumeDemand | tools/simpy/inventory_control.py:117-123 | after demand the level is non-negative; served plus unmet equals demand (level - shortage = old level - demand); either stock is left or demand went unmet, never both; a shortage occurs iff demand exceeds the level |
| Inventory.AfterDemand | tools/simpy/inventory_control.py:109-123 | after receipt and demand the level is what remains of the received level, or 0 when demand exceeds it, so never negative; the pending order and its arrival are untouched by demand |
| Inventory.OrderDue | tools/simpy/inventory_control.py:133 | the (s, S) trigger, with no contract of its own: level at most s and nothing on order. Its meaning is stated in `DayStep` (an order is placed exactly when it holds after demand, and then costs 20), `Reorder` and `OrderingCostPerOrder` |
| Inventory.Reorder | tools/simpy/inventory_control.py:133-140 | reordering never moves the level; when an order is due it tops level + on-order up to S and records the arrival day; otherwise the stock is unchanged. When it fires is `OrderDue`, whose meaning is given by `DayStep` and `OrderingCostPerOrder` |
| Inventory.DayStep | tools/simpy/inventory_control.py:105-145 | one day: the post-demand level is non-negative and reordering does not move it; holding grows by the post-demand level; stockout grows by 5 per unit short, or not at all; ordering grows by 20 exactly when an order is placed; an order is placed only at or below s with nothing on order after the arrival check; it makes level + on-order equal S and is not received on the day it is placed; no total decreases |
| Inventory.Initial | tools/simpy/inventory_control.py:89-103 | the run starts with the level at S, nothing on order and no arrival event, a state that satisfies the run invariant `Consistent` |
| Inventory.Simulate | tools/simpy/inventory_control.py:101-145 | the fold of the day loop; its own contract states that the three totals stay non-negative. Its full meaning is in `SimulateConsistent`, `CostsNonDecreasing`, `OrderingCostPerOrder`, `HoldingBound`, `StockoutBound` and `RunSimulation` |
| Inventory.DayStepConsistent | tools/simpy/inventory_control.py:105-145 | one day preserves the run invariant: non-negative totals, no quantity on order without an arrival event, no overdue arrival, and for S >= 0 a level in [0, S] with level + on-order <= S |
| Inventory.SimulateConsistent | tools/simpy/inventory_control.py:89-145 | the invariant holds from the initial state (level S, nothing on order) after every number of days, so for S >= 0 the level stays in [0, S] |
| Inventory.OrderQuantityNonNegative | tools/simpy/inventory_control.py:133-135 | on a day an order is placed, the quantity on order afterwards is S - level, and for S >= 0 it is non-negative |
| Inventory.CostsNonDecreasing | tools/simpy/inventory_control.py:123-136 | holding, ordering and stockout totals never decrease from one day to a later one |
| Inventory.OrderingCostPerOrder | tools/simpy/inventory_control.py:133-136 | the ordering total is 20 times the number of orders placed, and at most one order is placed per day |
| Inventory.ZeroPolicy | tools/simpy/inventory_control.py:105-145 | under s = S = 0 the level and on-order stay 0, nothing is held, an order is placed every day (ordering = 20 per day), and every unit demanded is charged as a shortage |
| Inventory.DayCostBounds | tools/simpy/inventory_control.py:117-128 | for S >= 0 one day charges holding on at most S units and stockout on at most the day's demand |
| Inventory.HoldingBound | tools/simpy/inventory_control.py:128 | for S >= 0 the holding total over n days is at most S * n |
| Inventory.StockoutBound | tools/simpy/inventory_control.py:118-123 | for S >= 0 the stockout total is at most 5 times the total demand |
| Inventory.Report | tools/simpy/inventory_control.py:154-161 | the returned dictionary: total = holding + ordering + stockout, each component the accumulated total, and the ending inventory the final level |
| Inventory.RunSimulation | tools/simpy/inventory_control.py:86-161 | the day loop returns the result of the specification run; total = holding + ordering + stockout; the three totals are non-negative; ordering = 20 * orders <= 20 * days; the ending inventory is non-negative after at least one day, and in [0, S] when S >= 0 |
| NodeOrder.Insert | tools/syncraft/product_setup.py:52 | inserting into a sorted list yields a sorted list holding exactly the old elements plus the new one |
| NodeOrder.SortNodes | tools/syncraft/product_setup.py:52 | `sorted(list(graph.nodes))`: the result is in lexicographic code-point order and a permutation of the node list |
| ProductRoutes.MissingNodes | tools/syncraft/product_setup.py:46 | the missing-node list is no longer than the route |
| ProductRoutes.MissingNodesExactly | tools/syncraft/product_setup.py:46 | a station is reported iff it is on the route and not a graph node; each such station is reported as many times as the route visits it, and graph nodes never |
| ProductRoutes.MissingNodesAppend | tools/syncraft/product_setup.py:46 | the missing stations of a concatenated route are those of the first part followed by those of the second, so route order is kept |
| ProductRoutes.IndexOfName | tools/syncraft/product_setup.py:59-60 | the index found is the first record carrying the label; none is found only when no record carries it |
| ProductRoutes.Upsert | tools/syncraft/product_setup.py:57-73 | the new record is in the list and the list grows by at most one. Which record it replaces and where it goes are stated in `UpsertOverwritesFirstMatch` and `UpsertAppends` |
| ProductRoutes.UpsertOverwritesFirstMatch | tools/syncraft/product_setup.py:57-64 | when a record has the label, only the first such record is replaced by the new one; the length and every other record are unchanged |
| ProductRoutes.UpsertAppends | tools/syncraft/product_setup.py:66-73 | when no record has the label, the new record is appended after the unchanged old list |
| ProductRoutes.UpsertContains | tools/syncraft/product_setup.py:57-76 | after adding, the list holds the new record, and it is the first record with its label |
| ProductRoutes.UpsertIdempotent | tools/syncraft/product_setup.py:57-73 | adding the same record twice gives the same list as adding it once |
| ProductRoutes.AddProductRoute | tools/syncraft/product_setup.py:27-76 | success iff every station is a graph node; on failure the error message, the missing stations in route order and the sorted node list are returned and nothing is saved; on success the saved list is the first match overwritten or the record appended |
| ProductRoutes.RemoveProductRoute | tools/syncraft/product_setup.py:86 | removal never lengthens the list |
| ProductRoutes.RemoveExactly | tools/syncraft/product_setup.py:86 | a record survives iff its label differs; surviving records keep their multiplicity and records with the label are all gone |
| ProductRoutes.RemoveAppend | tools/syncraft/product_setup.py:86 | removal from a concatenation is the concatenation of the removals, so kept records stay in their original order |
| ProductRoutes.RemoveAbsent | tools/syncraft/product_setup.py:86 | removing a label no record carries leaves the list unchanged |
| ProductRoutes.RemoveIdempotent | tools/syncraft/product_setup.py:86 | removing a label twice gives the same list as removing it once |
| ProductRoutes.RemoveAfterUpsert | tools/syncraft/product_setup.py:57-86 | removing a label after adding a record with that label gives the list removing it from the original gives |
| ProductRoutes.ResetProductRoutes | tools/syncraft/product_setup.py:105 | the saved list after a reset is empty |
| ProductRoutes.UpsertAfterReset | tools/syncraft/product_setup.py:66-105 | adding a record after a reset leaves exactly that record |

## Left out

- Python's `random.seed`, `random.random` and `random.randint` (lines 80, 99, 139) are not modelled. Demands, the uniform draws of `generate_demand` and the arrival days are inputs with the stated bounds. So the model says nothing about the distribution, and reproducibility under a seed is just the fact that every member is deterministic.
- SimPy's `Environment`, `env.timeout`, `env.process` and `env.run` are not modelled. The day loop is a plain `for` loop, and the arrival is an abstract arrival day, for the reason given above.
- Floating point is not modelled. Costs are integers; Python's float totals agree with them while they stay below 2^53.
- The `print` calls and the `@tool` decorators are left out: they are output and framework glue.
- Loading and saving (`load_products`, `save_products`, `load_graph`) are left out: they are file I/O and JSON decoding. The loaded list and node sequence are parameters, and the saved list is a result. The fallbacks of those loaders for missing or corrupt files are not part of this model.
- `get_product_routes` is left out: it returns the loaded list unchanged, so with loading as a parameter it is the identity.
- Product records are modelled with exactly the keys label, route and colour. Other keys a stored dict may carry, which the overwrite would keep, and records without a `label` key (`p.get("label")` is then `None`) are not modelled.
- ProductRoutes.MissingNodes: its own contract states only the length bound. Which stations it reports, how often, and in which order are stated in MissingNodesExactly and MissingNodesAppend.
- ProductRoutes.Upsert: its own contract states only membership and the length bound. Which record it replaces, or that it appends, is stated in UpsertOverwritesFirstMatch and UpsertAppends.
- Inventory.Simulate: its own contract states only non-negative totals. The run invariant, monotonicity and the cost bounds are stated in the lemmas after it.
- Inventory.OrderDue: the (s, S) trigger at line 133 is a predicate with no contract of its own; its effect is stated in DayStep, Reorder and OrderingCostPerOrder.
- ProductRoutes.RemoveProductRoute: its own contract states only the length bound. Its full meaning (which records survive, their order, idempotence) is stated in the lemmas next to it.
- `app/agents/syncraft_tools.py`, `app/ui/plotly_graph.py`, `app/state/*.py`, `agents/*.py`, `main.py` and `app/main.py` are not part of this model. They are graph-mutation wrappers over networkx, UI, persistence, and agent glue.
