/** The cost-based dispatcher (SimpleScheduler.java): a hall call goes to the
  * car that can reach it most cheaply, preferring a car already sweeping past
  * the floor in the requested direction, then an idle car, then any other
  * car, with ties broken by the lowest car id. */
module Scheduling {
  import opened Wrappers
  import opened Directions
  import opened Calls
  import opened Elevators

  /** Added to the distance of an idle car. */
  const IDLE_PENALTY: int := 100
  /** Added to the distance of a car that must finish its sweep first. */
  const REVERSAL_PENALTY: int := 1000

  /** `Math.abs(a - b)`. */
  function Distance(a: int, b: int): (d: nat)
    ensures d == a - b || d == b - a
  {
    if a >= b then a - b else b - a
  }

  /** `costFor`: the distance from the car to the call, plus a penalty unless
    * the car will pass the floor going the requested way. */
  function Cost(c: CarState, call: HallCall): (r: int)
    ensures r >= Distance(call.floor, c.currentFloor)
  {
    var distance := Distance(call.floor, c.currentFloor);
    if WillPass(c, call.floor, call.direction) then distance
    else if c.direction == Idle then distance + IDLE_PENALTY
    else distance + REVERSAL_PENALTY
  }

  /** The three cost bands: the bare distance exactly for a car that will pass
    * the floor, the idle penalty on top for an idle car, and the reversal
    * penalty on top for every other car. */
  lemma CostBands(c: CarState, call: HallCall)
    ensures var d := Distance(call.floor, c.currentFloor);
            && (Cost(c, call) == d <==> WillPass(c, call.floor, call.direction))
            && (Cost(c, call) == d + IDLE_PENALTY <==> c.direction == Idle)
            && (Cost(c, call) == d + REVERSAL_PENALTY <==>
                  c.direction != Idle && !WillPass(c, call.floor, call.direction))
  {
  }

  /** At equal distance a car that will pass the floor beats an idle car,
    * which beats a car that must reverse first. */
  lemma CostPreference(passing: CarState, idle: CarState, other: CarState, call: HallCall)
    requires Distance(call.floor, passing.currentFloor) == Distance(call.floor, idle.currentFloor)
             == Distance(call.floor, other.currentFloor)
    requires WillPass(passing, call.floor, call.direction)
    requires idle.direction == Idle
    requires other.direction != Idle && !WillPass(other, call.floor, call.direction)
    ensures Cost(passing, call) < Cost(idle, call) < Cost(other, call)
  {
  }

  // ---------------------------------------------------------------------
  // The choice among the cars
  // ---------------------------------------------------------------------

  /** A car as the dispatcher sees it: its id and its state. */
  datatype Candidate = Candidate(id: nat, car: CarState)

  /** The cars of a list as values, in list order. */
  function FleetOf(elevators: seq<Elevator>): (fleet: seq<Candidate>)
    reads elevators
    ensures |fleet| == |elevators|
    ensures forall i :: 0 <= i < |fleet| ==>
              fleet[i] == Candidate(elevators[i].id, elevators[i].Snapshot())
  {
    if elevators == [] then []
    else [Candidate(elevators[0].id, elevators[0].Snapshot())] + FleetOf(elevators[1..])
  }

  /** Car `i` of the fleet costs no more than any car, and has the lowest id
    * among the cars that cost as little. */
  ghost predicate CheapestAt(fleet: seq<Candidate>, call: HallCall, i: int)
  {
    && 0 <= i < |fleet|
    && (forall j :: 0 <= j < |fleet| ==> Cost(fleet[i].car, call) <= Cost(fleet[j].car, call))
    && (forall j :: 0 <= j < |fleet| && Cost(fleet[j].car, call) == Cost(fleet[i].car, call) ==>
          fleet[i].id <= fleet[j].id)
  }

  /** `id` is the car the dispatcher should pick: the id of a car of least
    * cost, and no larger than the id of any other car of that cost. */
  ghost predicate IsChoice(fleet: seq<Candidate>, call: HallCall, id: int)
  {
    exists i :: CheapestAt(fleet, call, i) && fleet[i].id == id
  }

  /** The choice is determined: two ids that both qualify are the same. */
  lemma ChoiceIsUnique(fleet: seq<Candidate>, call: HallCall, a: int, b: int)
    requires IsChoice(fleet, call, a) && IsChoice(fleet, call, b)
    ensures a == b
  {
    var i :| CheapestAt(fleet, call, i) && fleet[i].id == a;
    var k :| CheapestAt(fleet, call, k) && fleet[k].id == b;
    assert Cost(fleet[i].car, call) == Cost(fleet[k].car, call);
  }

  /** The choice does not depend on the order of the cars in the list. */
  lemma ChoiceIgnoresOrder(fleet: seq<Candidate>, reordered: seq<Candidate>, call: HallCall, id: int)
    requires multiset(fleet) == multiset(reordered)
    requires IsChoice(fleet, call, id)
    ensures IsChoice(reordered, call, id)
  {
    var i :| CheapestAt(fleet, call, i) && fleet[i].id == id;
    var best := fleet[i];
    assert best in multiset(reordered);
    var k :| 0 <= k < |reordered| && reordered[k] == best;
    forall j | 0 <= j < |reordered|
      ensures Cost(best.car, call) <= Cost(reordered[j].car, call)
      ensures Cost(reordered[j].car, call) == Cost(best.car, call) ==> id <= reordered[j].id
    {
      assert reordered[j] in multiset(fleet);
      var l :| 0 <= l < |fleet| && fleet[l] == reordered[j];
    }
    assert CheapestAt(reordered, call, k);
  }

  // ---------------------------------------------------------------------
  // The two loops of dispatchHallCall and the lookup of dispatchCarCall
  // ---------------------------------------------------------------------

  /** The first loop of `dispatchHallCall`: the id of the cheapest car, the
    * lowest id among equally cheap ones, or -1 for an empty list. The loop
    * only reads the cars, so it walks their states as one list of values;
    * "no best car yet" is `bestId == -1` rather than a cost of
    * `Integer.MAX_VALUE`, which no real cost reaches in a building small
    * enough that a distance plus 1000 stays below that value. */
  method BestCar(call: HallCall, elevators: seq<Elevator>) returns (bestId: int)
    ensures elevators == [] ==> bestId == -1
    ensures elevators != [] ==> IsChoice(FleetOf(elevators), call, bestId)
  {
    var fleet := FleetOf(elevators);
    bestId := -1;
    var bestCost := 0;
    ghost var bestIndex := 0;
    var i := 0;
    while i < |elevators|
      invariant 0 <= i <= |elevators|
      invariant i == 0 <==> bestId == -1
      invariant i > 0 ==> 0 <= bestIndex < i && fleet[bestIndex].id == bestId
                          && Cost(fleet[bestIndex].car, call) == bestCost
      invariant forall j :: 0 <= j < i ==> bestCost <= Cost(fleet[j].car, call)
      invariant forall j :: 0 <= j < i && Cost(fleet[j].car, call) == bestCost ==> bestId <= fleet[j].id
    {
      var e := fleet[i];
      var cost := Cost(e.car, call);
      if bestId == -1 || cost < bestCost || (cost == bestCost && e.id < bestId) {
        bestCost := cost;
        bestId := e.id;
        bestIndex := i;
      }
      i := i + 1;
    }
  }

  /** Car `k` is the first car of the list that carries `id`. */
  predicate FirstWithId(elevators: seq<Elevator>, id: int, k: int)
    reads elevators
  {
    0 <= k < |elevators| && elevators[k].id == id
    && forall j :: 0 <= j < k ==> elevators[j].id != id
  }

  /** The search loop: the index of the first car with `id`, or -1 when no
    * car carries it. */
  method FindById(id: int, elevators: seq<Elevator>) returns (index: int)
    ensures index == -1 <==> forall j :: 0 <= j < |elevators| ==> elevators[j].id != id
    ensures index != -1 ==> FirstWithId(elevators, id, index)
  {
    index := -1;
    var i := 0;
    while i < |elevators|
      invariant 0 <= i <= |elevators|
      invariant index == -1
      invariant forall j :: 0 <= j < i ==> elevators[j].id != id
    {
      if elevators[i].id == id {
        index := i;
        break;
      }
      i := i + 1;
    }
  }

  // ---------------------------------------------------------------------
  // Dispatch
  // ---------------------------------------------------------------------

  /** `dispatchHallCall`: pick the car by cost from the states before the
    * call, add the call's floor as a stop of the first car with that id and
    * of no other car, and return the id. An empty list fails (the Java code
    * throws, naming id -1) and changes nothing. */
  method DispatchHallCall(call: HallCall, elevators: seq<Elevator>) returns (r: Result<nat>)
    modifies elevators
    ensures elevators == [] ==> r == Err(NoElevatorWithId(-1))
    ensures elevators != [] ==> r.Ok?
    ensures r.Ok? ==> IsChoice(old(FleetOf(elevators)), call, r.value)
    ensures r.Ok? ==>
              exists k :: (&& FirstWithId(elevators, r.value, k)
                           && elevators[k].Snapshot() == WithStop(old(elevators[k].Snapshot()), call.floor)
                           && forall j :: 0 <= j < |elevators| && elevators[j] != elevators[k] ==>
                                elevators[j].Snapshot() == old(elevators[j].Snapshot()))
    ensures forall j :: 0 <= j < |elevators| && old(elevators[j].Valid()) ==> elevators[j].Valid()
  {
    ghost var fleet := FleetOf(elevators);
    var bestId := BestCar(call, elevators);
    var k := FindById(bestId, elevators);
    if k == -1 {
      if elevators != [] {
        assert false;
      }
      return Err(NoElevatorWithId(bestId));
    }
    var chosen := elevators[k];
    chosen.AddStop(call.floor);
    assert IsChoice(fleet, call, bestId);
    assert FirstWithId(elevators, bestId, k);
    return Ok(bestId);
  }

  /** `dispatchCarCall`: add the destination as a stop of the first car whose
    * id the call names; with no such car, fail and change nothing. */
  method DispatchCarCall(call: CarCall, elevators: seq<Elevator>) returns (r: Outcome)
    modifies elevators
    ensures r == Pass <==> exists j :: 0 <= j < |elevators| && elevators[j].id == call.elevatorId
    ensures r != Pass ==> r == Fail(NoElevatorWithId(call.elevatorId))
    ensures r.Pass? ==>
              exists k :: (&& FirstWithId(elevators, call.elevatorId, k)
                           && elevators[k].Snapshot()
                              == WithStop(old(elevators[k].Snapshot()), call.destinationFloor)
                           && forall j :: 0 <= j < |elevators| && elevators[j] != elevators[k] ==>
                                elevators[j].Snapshot() == old(elevators[j].Snapshot()))
    ensures r.Fail? ==> forall j :: 0 <= j < |elevators| ==> elevators[j].Snapshot() == old(elevators[j].Snapshot())
    ensures forall j :: 0 <= j < |elevators| && old(elevators[j].Valid()) ==> elevators[j].Valid()
  {
    var k := FindById(call.elevatorId, elevators);
    if k == -1 {
      return Fail(NoElevatorWithId(call.elevatorId));
    }
    var chosen := elevators[k];
    chosen.AddStop(call.destinationFloor);
    return Pass;
  }
}
