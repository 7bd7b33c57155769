# Elevator bank: a verified model

This project models the core of a discrete-time elevator simulator written in
Java (package `com.elevsim`). A building has a fixed floor range and a number
of cars. Each car moves one floor per tick, serves its pending stops in SCAN
order, and holds its doors open for `DWELL_TICKS = 2` ticks after it stops. A
cost-based dispatcher gives each hall call (a floor plus a wanted direction)
to one car; a car call (a destination pressed inside a car) goes straight to
that car. The simulator checks every floor against the building's range and
advances every car once per tick.

Modules, following the source files:

- `Directions` (`directions.dfy`): `Direction.java`, the `UP/DOWN/IDLE` enum
  and `fromFloors`.
- `Calls` (`calls.dfy`): `HallCall.java` and `CarCall.java` as datatypes, with
  Java's `equals(Object)` and `hashCode()` (`Objects.hash` written out with
  32-bit wrap-around).
- `Elevators` (`elevators.dfy`): `Elevator.java`. The class `Elevator` keeps the
  Java fields and updates them in place. Each of its methods is proved equal
  to a pure function on the value `CarState` (`WithStop`, `NextTarget`,
  `Stepped`). The lemmas about those functions carry the properties: the car
  invariant `Inv`, the one-tick transitions, multi-tick runs and the timing
  scenarios. The two `TreeSet`s are `set<int>` with `Min`/`Max`.
- `Scheduling` (`scheduler.dfy`): `SimpleScheduler.java`. It holds the cost
  function, the choice rule `IsChoice` (least cost, then lowest id), its two
  loops, and both dispatch operations.
- `Simulators` (`simulator.dfy`): `Simulator.java` as a class over the list of
  cars, plus an end-to-end scenario.
- `Wrappers` (`wrappers.dfy`): no source file of its own. It holds `Option`
  for `OptionalInt`, and `Result`/`Outcome` with an `Error` for the exceptions
  the Java code throws.

Timing, as `Elevator.tick` has it:

- Closing the doors does not use up a tick. When the dwell has run out, the
  branch at `Elevator.java:81-84` closes the doors without returning, so the
  same tick goes on to serve or move (`DoorCloseCostsNoTick`).
- A floor reached by moving is served on the next tick: the move at
  `Elevator.java:100-111` returns an empty list, and the serving check at
  `Elevator.java:87-97` runs before the move, so a floor reached by moving is
  checked on the next tick. An idle car at
  floor 0 sent to floor 10 therefore serves nothing on ticks 1-10 and reports
  floor 10 on tick 11 (`ScenarioStopAtTen`, `ScenarioThreeCars`).

## Model

| member | source | states |
|---|---|---|
| Directions.FromFloors | src/com/elevsim/Direction.java:6-16 | the result is UP iff `to > from`, DOWN iff `to < from`, IDLE iff they are equal |
| Directions.FromFloorsAntisymmetric | src/com/elevsim/Direction.java:6-16 | swapping the floors turns UP into DOWN and back, and leaves IDLE as IDLE |
| Calls.HallCallEquals | src/com/elevsim/HallCall.java:14-18 | `equals` holds exactly when the argument is a HallCall with the same floor and direction; it is false for any other object |
| Calls.HallCallEqualsIsEquivalence | src/com/elevsim/HallCall.java:14-18 | HallCall equality is reflexive, symmetric and transitive |
| Calls.HallCallHashConsistent | src/com/elevsim/HallCall.java:20-22 | equal HallCalls have equal hash codes, whatever hash the enum constants carry |
| Calls.CarCallEquals | src/com/elevsim/CarCall.java:14-18 | `equals` holds exactly when the argument is a CarCall with the same car id and destination; it is false for any other object |
| Calls.CarCallEqualsIsEquivalence | src/com/elevsim/CarCall.java:14-18 | CarCall equality is reflexive, symmetric and transitive |
| Calls.CarCallHashConsistent | src/com/elevsim/CarCall.java:20-22 | equal CarCalls have equal hash codes |
| Calls.CallsOfDifferentKindsDiffer | src/com/elevsim/HallCall.java:15 | a HallCall never equals a CarCall or another object, nor the other way round |
| Calls.ObjectsHash2 | src/com/elevsim/HallCall.java:21 | `Objects.hash` of two fields is a Java `int` that agrees modulo 2^32 with the exact value 31 * (31 + h1) + h2 |
| Calls.HallCallHash | src/com/elevsim/HallCall.java:20-22 | the hash code is a Java `int` congruent modulo 2^32 to 961 + 31 * floor + the direction's hash |
| Calls.CarCallHash | src/com/elevsim/CarCall.java:20-22 | the hash code is a Java `int` congruent modulo 2^32 to 961 + 31 * elevatorId + destinationFloor |
| Calls.Wrap32 | src/com/elevsim/CarCall.java:21 | the hash arithmetic stays in the Java `int` range and agrees with the exact value modulo 2^32 |
| Elevators.Min | src/com/elevsim/Elevator.java:21-22 | the lowest stop of a non-empty set (`upStops.first()`, `downStops.last()`) is in the set and below every other stop |
| Elevators.Max | src/com/elevsim/Elevator.java:21-22 | the highest stop of a non-empty set (`upStops.last()`, `downStops.first()`) is in the set and above every other stop |
| Elevators.InitialSatisfiesInv | src/com/elevsim/Elevator.java:27-32 | a new car at a start floor inside the building satisfies the car invariant |
| Elevators.Elevator.constructor | src/com/elevsim/Elevator.java:27-32 | a new car is idle at its start floor, doors closed, no dwell, no stops, and keeps the invariant |
| Elevators.WithStop | src/com/elevsim/Elevator.java:39-47 | a floor outside the building or equal to the current floor changes nothing. A floor above joins `upStops` only, one below joins `downStops` only. Position, doors and dwell never change. A moving car keeps its direction; an idle car turns up if any up stop is pending, else down if any down stop is pending |
| Elevators.WithStopKeepsInv | src/com/elevsim/Elevator.java:40-46 | `addStop` keeps the invariant, so the stop sets only ever hold floors inside the building on the proper side of the car |
| Elevators.WithStopIdempotent | src/com/elevsim/Elevator.java:39-47 | adding the same floor twice is the same as adding it once |
| Elevators.Elevator.AddStop | src/com/elevsim/Elevator.java:39-47 | the car's new state is `WithStop` of its old state, and the invariant is kept |
| Elevators.WillPass | src/com/elevsim/Elevator.java:50-60 | true only if the car already travels in the asked direction (not IDLE). Going up, the floor must lie between the car and the highest up stop, or the top floor if no up stop is pending. Going down, it must lie between the lowest down stop, or the bottom floor, and the car |
| Elevators.NextTarget | src/com/elevsim/Elevator.java:63-70 | SCAN: a target exists iff some stop is pending. Going up it is the lowest up stop, going down the highest down stop. The direction changes only when no stop is ahead: it turns UP toward the lowest up stop if any is pending, else DOWN toward the highest down stop. A target always comes with UP or DOWN; with nothing pending it becomes IDLE |
| Elevators.Elevator.NextStop | src/com/elevsim/Elevator.java:63-70 | returns the target and leaves the direction `NextTarget` gives, changing nothing else |
| Elevators.OneFloorToward | src/com/elevsim/Elevator.java:101-104 | a move goes at most one floor, in the direction of the target, and never past it |
| Elevators.Stepped | src/com/elevsim/Elevator.java:73-112 | one tick serves nothing or exactly the current floor. It serves only a pending floor, without moving, and leaves the doors open and the floor removed from both sets. It never adds stops, keeps the range, and moves at most one floor, only with the doors closed |
| Elevators.Elevator.Tick | src/com/elevsim/Elevator.java:73-112 | the car's new state and the returned list are exactly `Stepped` of the old state, and the invariant is kept |
| Elevators.StepKeepsInv | src/com/elevsim/Elevator.java:73-112 | a tick keeps the car invariant (inside the building, stops on the proper side, an idle car has no stops and closed doors, dwell only with open doors) |
| Elevators.DwellTick | src/com/elevsim/Elevator.java:77-80 | with the doors open and dwell left, a tick only decrements the dwell and serves nothing |
| Elevators.DoorCloseCostsNoTick | src/com/elevsim/Elevator.java:81-84 | with the dwell run out, the tick closes the doors and does in the same tick what a car with closed doors would do |
| Elevators.ServeTick | src/com/elevsim/Elevator.java:87-97 | at a pending stop of its direction the car stays put, removes the floor from both sets, opens the doors with dwell `DWELL_TICKS` and returns exactly that floor |
| Elevators.MoveTick | src/com/elevsim/Elevator.java:99-111 | otherwise the car serves nothing and keeps its stops. It moves exactly one floor toward the `nextStop` target and not past it, in the direction `nextStop` left; with no stops it goes IDLE where it is |
| Elevators.RunKeepsInv | src/com/elevsim/Elevator.java:73-112 | any number of ticks keeps the car invariant |
| Elevators.IdleCarStaysPut | src/com/elevsim/Elevator.java:99-109 | an idle car with nothing pending never moves and serves nothing, however many ticks pass |
| Elevators.DwellPhase | src/com/elevsim/Elevator.java:77-80 | after a stop the doors stay open and nothing is served for as many ticks as dwell remains |
| Elevators.ApproachUp | src/com/elevsim/Elevator.java:99-105 | a car sweeping up with closed doors climbs one floor per tick, serving nothing, until it reaches its lowest up stop |
| Elevators.ApproachDown | src/com/elevsim/Elevator.java:99-105 | a car sweeping down with closed doors descends one floor per tick, serving nothing, until it reaches its highest down stop |
| Elevators.NeverServedUnlessPending | src/com/elevsim/Elevator.java:87-94 | ticks alone never serve a floor that is in neither stop set |
| Elevators.ServedOnlyOnce | src/com/elevsim/Elevator.java:90-91 | a floor served in one tick is not served again by later ticks unless it is added anew |
| Elevators.ScenarioStopAtTen | src/com/elevsim/Elevator.java:99-105 | an idle car at floor 0 given floor 10 serves nothing on ticks 1-10 and serves floor 10 on tick 11 |
| Elevators.ScenarioStopsAtThreeAndSeven | src/com/elevsim/Elevator.java:73-112 | a car at floor 0 given stops 3 and 7 serves 3 on tick 4 and 7 on tick 11, and nothing on the other ticks |
| Scheduling.Distance | src/com/elevsim/SimpleScheduler.java:52 | the distance is the absolute difference of the two floors |
| Scheduling.Cost | src/com/elevsim/SimpleScheduler.java:49-61 | the cost is never below the distance from the car to the call's floor |
| Scheduling.CostBands | src/com/elevsim/SimpleScheduler.java:49-61 | the cost is the bare distance iff the car will pass the floor. It is the distance + 100 iff the car is idle, and the distance + 1000 iff it is moving and will not pass |
| Scheduling.CostPreference | src/com/elevsim/SimpleScheduler.java:54-60 | at equal distance a car that will pass the floor costs less than an idle car, which costs less than a car that must reverse |
| Scheduling.ChoiceIsUnique | src/com/elevsim/SimpleScheduler.java:20-26 | the choice rule (least cost, then lowest id) picks exactly one id |
| Scheduling.ChoiceIgnoresOrder | src/com/elevsim/SimpleScheduler.java:22 | reordering the cars does not change which id the rule picks |
| Scheduling.BestCar | src/com/elevsim/SimpleScheduler.java:17-26 | the loop returns -1 for no cars; otherwise the id of a car of least cost that is lowest among the cars of that cost |
| Scheduling.FindById | src/com/elevsim/SimpleScheduler.java:29-32 | the search returns the index of the first car carrying the id, or -1 iff no car carries it |
| Scheduling.DispatchHallCall | src/com/elevsim/SimpleScheduler.java:16-37 | with no cars it fails (id -1). Otherwise it returns the id the choice rule picks from the states before the call. Only the first car with that id gets `addStop(call.floor)`; every other car is unchanged |
| Scheduling.DispatchCarCall | src/com/elevsim/SimpleScheduler.java:40-47 | it succeeds iff some car carries the call's id. Then only the first such car gets `addStop(destination)`; otherwise it fails naming the id and changes no car |
| Simulators.Simulator.constructor | src/com/elevsim/Simulator.java:12-20 | it creates `numElevators` new cars; car `i` has id `i`, sits at the start floor and shares the building's range |
| Simulators.Simulator.ValidFloor | src/com/elevsim/Simulator.java:24 | holds iff `minFloor <= f <= maxFloor` |
| Simulators.Simulator.HallCall | src/com/elevsim/Simulator.java:24-29 | a floor outside `[minFloor, maxFloor]` fails with InvalidFloor and changes no car. Otherwise the result is the dispatcher's choice over the cars' states before the call; that car alone gets the stop |
| Simulators.Simulator.CarCall | src/com/elevsim/Simulator.java:31-34 | a destination outside the building fails with InvalidFloor, and an unknown car id fails naming it; neither changes any car. Otherwise car `elevatorId` alone gets the stop |
| Simulators.Simulator.Tick | src/com/elevsim/Simulator.java:37-43 | every car advances exactly one tick from its own old state alone; the map has one key per car id, holding that car's served list |
| Simulators.ScenarioHallCallChoosesCarZero | src/com/elevsim/SimpleScheduler.java:17-26 | with three idle cars at floor 0, a hall call at floor 10 going up goes to car 0 |
| Simulators.ScenarioThreeCars | src/com/elevsim/Simulator.java:26-43 | in a building with floors 0-15 and three cars at floor 0, hall call (10, up) returns car 0. Car 0 then serves nothing on ticks 1-10 and floor 10 on tick 11 |

## Left out

- `Main.java` (the interactive command loop, number parsing, direction-token parsing, console output) is not part of this model. It only drives the core.
- `Elevator.debug`, `Simulator.status` and the `toString` methods of the two calls are display-only string formatting and are not modelled.
- `Scheduler.java` is an interface with one implementation. The interface adds no behaviour of its own, so the simulator calls the `Scheduling` operations of its one implementation directly.
- `DoorState.java` is not part of this model. Its two values are taken to be `OPEN` and `CLOSED`, as `Elevator.java` uses them.
- The getters of `Elevator` are its fields, read directly. `willPassWhileContinuing` is the function `WillPass` on the car's state, which the dispatcher reads through `Snapshot()`.
- Java `int` overflow is not modelled for floors, distances or costs. Buildings are assumed small enough that a distance plus 1000 stays below `Integer.MAX_VALUE`. Under that assumption `Math.abs` does not overflow, and no real cost reaches the `Integer.MAX_VALUE` start value of `bestCost`. The model writes "no best car yet" as `bestId == -1`.
- HallCallHash: the hash code of an enum constant is an identity hash chosen by the runtime, so `HallCallHash` takes the direction's hash as a parameter. Both hash codes are stated as `Objects.hash`'s polynomial modulo 2^32; for a HallCall only the direction's part of that value is left open.
- `Elevator.id` is a `nat`. The only place cars are created (the simulator's constructor) numbers them from 0, so the -1 "no car" marker never clashes with a real id.
- The constructors do not check that `minFloor <= startFloor <= maxFloor`. This is a precondition of both constructors, not an error path. A negative `numElevators` makes `new ArrayList<>(n)` throw; the model takes a `nat`.
- `Simulator.tick` returns a `LinkedHashMap` whose order is the order of insertion. The model returns a `map`. Its keys are the ids 0..n-1, inserted in ascending order, so the insertion order is the key order.
- The `TreeSet`s are mathematical sets. Their logarithmic cost is not modelled, only their order (`first`/`last` as `Min`/`Max`).
- Scheduling.Cost: its own contract gives only the lower bound "cost is at least the distance"; the exact three bands are stated by `CostBands`, and the ordering between them by `CostPreference`.
- Scheduling.BestCar: the loop walks the cars' states as one list of values taken before the loop (`FleetOf`). That is the same as reading each car in turn, because nothing changes a car during the loop.
