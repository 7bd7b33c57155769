/** The building (Simulator.java): a fixed floor range and a list of cars
  * with ids 0 to n-1, which it validates calls for, hands to the
  * dispatcher, and advances one tick at a time. */
module Simulators {
  import opened Wrappers
  import opened Directions
  import Calls
  import opened Elevators
  import opened Scheduling

  class Simulator {
    const minFloor: int
    const maxFloor: int
    const elevators: seq<Elevator>

    /** Car `i` has id `i`, every car shares the building's floor range, and
      * every car keeps the car invariant. */
    ghost predicate Valid()
      reads this, elevators
    {
      forall i :: 0 <= i < |elevators| ==>
        && elevators[i].id == i
        && elevators[i].minFloor == minFloor
        && elevators[i].maxFloor == maxFloor
        && elevators[i].Valid()
    }

    constructor (numElevators: nat, minFloor: int, maxFloor: int, startFloor: int)
      requires minFloor <= startFloor <= maxFloor
      ensures Valid()
      ensures this.minFloor == minFloor && this.maxFloor == maxFloor
      ensures |elevators| == numElevators
      ensures forall i :: 0 <= i < numElevators ==>
                fresh(elevators[i]) && elevators[i].Snapshot() == Initial(minFloor, maxFloor, startFloor)
    {
      this.minFloor := minFloor;
      this.maxFloor := maxFloor;
      var cars: seq<Elevator> := [];
      var i := 0;
      while i < numElevators
        invariant 0 <= i <= numElevators
        invariant |cars| == i
        invariant forall j :: 0 <= j < i ==>
                    && fresh(cars[j])
                    && cars[j].id == j
                    && cars[j].minFloor == minFloor && cars[j].maxFloor == maxFloor
                    && cars[j].Snapshot() == Initial(minFloor, maxFloor, startFloor)
                    && cars[j].Valid()
      {
        var e := new Elevator(i, startFloor, minFloor, maxFloor);
        cars := cars + [e];
        i := i + 1;
      }
      elevators := cars;
    }

    /** `validFloor`: the floor lies in the building. */
    predicate ValidFloor(f: int)
      reads this
      ensures ValidFloor(f) <==> minFloor <= f <= maxFloor
    {
      minFloor <= f <= maxFloor
    }

    /** `hallCall`: a floor outside the building fails before the dispatcher
      * runs and changes no car; otherwise the dispatcher's choice among the
      * cars' states before the call gets the stop and its id is returned. */
    method HallCall(floor: int, dir: Direction) returns (r: Result<nat>)
      requires Valid()
      modifies elevators
      ensures Valid()
      ensures !ValidFloor(floor) ==> r == Err(InvalidFloor(floor))
      ensures ValidFloor(floor) && elevators == [] ==> r == Err(NoElevatorWithId(-1))
      ensures ValidFloor(floor) && elevators != [] ==>
                && r.Ok? && r.value < |elevators|
                && IsChoice(old(FleetOf(elevators)), Calls.HallCall(floor, dir), r.value)
      ensures forall i :: 0 <= i < |elevators| ==>
                elevators[i].Snapshot()
                == if r.Ok? && i == r.value then WithStop(old(elevators[i].Snapshot()), floor)
                   else old(elevators[i].Snapshot())
    {
      if !ValidFloor(floor) {
        return Err(InvalidFloor(floor));
      }
      ghost var fleet := FleetOf(elevators);
      r := DispatchHallCall(Calls.HallCall(floor, dir), elevators);
      if r.Ok? {
        assert IsChoice(fleet, Calls.HallCall(floor, dir), r.value);
        ghost var k :| FirstWithId(elevators, r.value, k)
          && elevators[k].Snapshot() == WithStop(old(elevators[k].Snapshot()), floor)
          && forall j :: 0 <= j < |elevators| && elevators[j] != elevators[k] ==>
               elevators[j].Snapshot() == old(elevators[j].Snapshot());
        assert k == r.value;
        forall i | 0 <= i < |elevators| && i != k
          ensures elevators[i].Snapshot() == old(elevators[i].Snapshot())
        {
          assert elevators[i].id != elevators[k].id;
        }
      }
    }

    /** `carCall`: a destination outside the building fails before the
      * dispatcher runs; so does an id that no car carries; otherwise that
      * car gets the stop. A failure changes no car. */
    method CarCall(elevatorId: int, destination: int) returns (r: Outcome)
      requires Valid()
      modifies elevators
      ensures Valid()
      ensures !ValidFloor(destination) ==> r == Fail(InvalidFloor(destination))
      ensures ValidFloor(destination) && !(0 <= elevatorId < |elevators|) ==>
                r == Fail(NoElevatorWithId(elevatorId))
      ensures ValidFloor(destination) && 0 <= elevatorId < |elevators| ==> r == Pass
      ensures forall i :: 0 <= i < |elevators| ==>
                elevators[i].Snapshot()
                == if r.Pass? && i == elevatorId then WithStop(old(elevators[i].Snapshot()), destination)
                   else old(elevators[i].Snapshot())
    {
      if !ValidFloor(destination) {
        return Fail(InvalidFloor(destination));
      }
      if 0 <= elevatorId < |elevators| {
        assert elevators[elevatorId].id == elevatorId;
      }
      r := DispatchCarCall(Calls.CarCall(elevatorId, destination), elevators);
      if r.Pass? {
        ghost var k :| FirstWithId(elevators, elevatorId, k)
          && elevators[k].Snapshot() == WithStop(old(elevators[k].Snapshot()), destination)
          && forall j :: 0 <= j < |elevators| && elevators[j] != elevators[k] ==>
               elevators[j].Snapshot() == old(elevators[j].Snapshot());
        assert k == elevatorId;
      }
    }

    /** `tick`: every car advances exactly one tick, in list order, each from
      * its own state alone; the answer maps every car id to the floors that
      * car served. */
    method Tick() returns (served: map<nat, seq<int>>)
      requires Valid()
      modifies elevators
      ensures Valid()
      ensures forall i: nat :: i in served <==> i < |elevators|
      ensures forall i :: 0 <= i < |elevators| ==>
                Stepped(old(elevators[i].Snapshot())) == Step(elevators[i].Snapshot(), served[i])
    {
      served := map[];
      var i := 0;
      while i < |elevators|
        invariant 0 <= i <= |elevators|
        invariant forall j: nat :: j in served <==> j < i
        invariant forall j :: 0 <= j < i ==>
                    Stepped(old(elevators[j].Snapshot())) == Step(elevators[j].Snapshot(), served[j])
        invariant forall j :: i <= j < |elevators| ==> elevators[j].Snapshot() == old(elevators[j].Snapshot())
        invariant Valid()
      {
        var e := elevators[i];
        var s := e.Tick();
        served := served[e.id := s];
        i := i + 1;
      }
    }
  }

  /** Three idle cars at floor 0: a hall call at floor 10 going up goes to
    * car 0, since all three cost the same and 0 is the lowest id. */
  lemma ScenarioHallCallChoosesCarZero()
    ensures var c := Initial(0, 15, 0);
            IsChoice([Candidate(0, c), Candidate(1, c), Candidate(2, c)], Calls.HallCall(10, Up), 0)
  {
    var c := Initial(0, 15, 0);
    var fleet := [Candidate(0, c), Candidate(1, c), Candidate(2, c)];
    assert CheapestAt(fleet, Calls.HallCall(10, Up), 0);
  }

  /** Ticks the building `n` times and collects what car 0 served, tick by
    * tick: exactly what car 0 would serve on its own. */
  method TickAndWatchCarZero(sim: Simulator, n: nat) returns (servedByCarZero: seq<seq<int>>)
    requires sim.Valid() && |sim.elevators| > 0
    modifies sim.elevators
    ensures sim.Valid()
    ensures servedByCarZero == History(old(sim.elevators[0].Snapshot()), n)
  {
    ghost var start := sim.elevators[0].Snapshot();
    servedByCarZero := [];
    var k := 0;
    while k < n
      invariant 0 <= k <= n
      invariant sim.Valid()
      invariant sim.elevators[0].Snapshot() == Run(start, k)
      invariant servedByCarZero == History(start, k)
    {
      ghost var before := Run(start, k);
      var served := sim.Tick();
      assert Stepped(before) == Step(sim.elevators[0].Snapshot(), served[0]);
      RunAdd(start, k, 1);
      RunOne(before);
      servedByCarZero := servedByCarZero + [served[0]];
      k := k + 1;
    }
  }

  /** A building with floors 0 to 15 and three cars at floor 0: the hall
    * call at floor 10 going up is given to car 0, which reports nothing on
    * ticks 1 to 10 and floor 10 on tick 11. */
  method ScenarioThreeCars() returns (chosen: Result<nat>, servedByCarZero: seq<seq<int>>)
    ensures chosen == Ok(0)
    ensures servedByCarZero == Quiet(10) + [[10]]
  {
    var sim := new Simulator(3, 0, 15, 0);
    ghost var c := Initial(0, 15, 0);
    ScenarioHallCallChoosesCarZero();
    ghost var fleet := FleetOf(sim.elevators);
    assert fleet == [Candidate(0, c), Candidate(1, c), Candidate(2, c)];
    chosen := sim.HallCall(10, Up);
    ChoiceIsUnique(fleet, Calls.HallCall(10, Up), chosen.value, 0);
    assert sim.elevators[0].Snapshot() == WithStop(c, 10);
    servedByCarZero := TickAndWatchCarZero(sim, 11);
    ScenarioStopAtTen();
  }
}
