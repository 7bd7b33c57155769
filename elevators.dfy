/** One elevator car (Elevator.java): a door and movement state machine that
  * advances one tick at a time and serves its stops in SCAN order, sweeping
  * in one direction until no stop is left ahead and then reversing. */
module Elevators {
  import opened Wrappers
  import opened Directions

  /** Ticks the doors stay open after the car stops at a floor. */
  const DWELL_TICKS: int := 2

  datatype DoorState = Open | Closed

  // ---------------------------------------------------------------------
  // Ordered stop sets
  // ---------------------------------------------------------------------

  /** A non-empty set has a member. */
  lemma NonEmptyHasMember(s: set<int>)
    requires s != {}
    ensures exists y :: y in s
  {
    if forall y :: y !in s {
      assert false;
    }
  }

  /** Every non-empty finite set of floors has a least element. */
  lemma {:induction false} MinExists(s: set<int>)
    requires s != {}
    ensures exists m :: m in s && forall x :: x in s ==> m <= x
    decreases |s|
  {
    NonEmptyHasMember(s);
    var y :| y in s;
    var rest := s - {y};
    assert forall x :: x in s ==> x == y || x in rest;
    if rest == {} {
      assert forall x :: x in s ==> y <= x;
    } else {
      MinExists(rest);
      var m :| m in rest && forall x :: x in rest ==> m <= x;
      var least := if y < m then y else m;
      assert least in s && forall x :: x in s ==> least <= x;
    }
  }

  /** Every non-empty finite set of floors has a greatest element. */
  lemma {:induction false} MaxExists(s: set<int>)
    requires s != {}
    ensures exists m :: m in s && forall x :: x in s ==> x <= m
    decreases |s|
  {
    NonEmptyHasMember(s);
    var y :| y in s;
    var rest := s - {y};
    assert forall x :: x in s ==> x == y || x in rest;
    if rest == {} {
      assert forall x :: x in s ==> x <= y;
    } else {
      MaxExists(rest);
      var m :| m in rest && forall x :: x in rest ==> x <= m;
      var greatest := if y > m then y else m;
      assert greatest in s && forall x :: x in s ==> x <= greatest;
    }
  }

  /** The smallest floor of a non-empty stop set: `upStops.first()` of the
    * ascending up set, and `downStops.last()` of the descending down set. */
  function Min(s: set<int>): (m: int)
    requires s != {}
    ensures m in s && forall x :: x in s ==> m <= x
  {
    MinExists(s);
    var m :| m in s && forall x :: x in s ==> m <= x; m
  }

  /** The largest floor of a non-empty stop set: `upStops.last()`, and
    * `downStops.first()` of the descending down set. */
  function Max(s: set<int>): (m: int)
    requires s != {}
    ensures m in s && forall x :: x in s ==> x <= m
  {
    MaxExists(s);
    var m :| m in s && forall x :: x in s ==> x <= m; m
  }

  // ---------------------------------------------------------------------
  // The state of one car, as a value
  // ---------------------------------------------------------------------

  /** Everything an Elevator object holds apart from its id: the fixed floor
    * range, the position, the direction of travel, the doors, the dwell
    * counter, and the pending stops above (`upStops`) and below
    * (`downStops`) the car. */
  datatype CarState = CarState(
    minFloor: int,
    maxFloor: int,
    currentFloor: int,
    direction: Direction,
    doorState: DoorState,
    dwellRemaining: int,
    upStops: set<int>,
    downStops: set<int>)

  /** A car as the constructor leaves it: idle at the start floor, doors
    * closed, nothing pending. */
  function Initial(minFloor: int, maxFloor: int, startFloor: int): CarState
  {
    CarState(minFloor, maxFloor, startFloor, Idle, Closed, 0, {}, {})
  }

  /** What holds of every car the simulator can reach: it is inside the
    * building, every up stop is at or above it and every down stop at or
    * below it (both inside the building), a stop at the current floor is
    * pending only in the direction of travel, an idle car has nothing
    * pending and its doors closed, and the dwell counter runs only while the
    * doors are open. */
  ghost predicate Inv(c: CarState)
  {
    && c.minFloor <= c.currentFloor <= c.maxFloor
    && (forall u :: u in c.upStops ==> c.currentFloor <= u <= c.maxFloor)
    && (forall d :: d in c.downStops ==> c.minFloor <= d <= c.currentFloor)
    && (c.currentFloor in c.upStops ==> c.direction == Up)
    && (c.currentFloor in c.downStops ==> c.direction == Down)
    && (c.direction == Idle ==> c.upStops == {} && c.downStops == {} && c.doorState == Closed)
    && 0 <= c.dwellRemaining <= DWELL_TICKS
    && (c.doorState == Closed ==> c.dwellRemaining == 0)
  }

  lemma InitialSatisfiesInv(minFloor: int, maxFloor: int, startFloor: int)
    requires minFloor <= startFloor <= maxFloor
    ensures Inv(Initial(minFloor, maxFloor, startFloor))
  {
  }

  // ---------------------------------------------------------------------
  // addStop
  // ---------------------------------------------------------------------

  /** The floors `addStop` does not ignore: inside the building and not the
    * floor the car is at. */
  predicate Accepts(c: CarState, floor: int)
  {
    c.minFloor <= floor <= c.maxFloor && floor != c.currentFloor
  }

  /** `addStop(floor)`: a floor outside the building or equal to the current
    * floor is ignored; a floor above goes to the up set and one below to the
    * down set; an idle car then starts in the direction of its stops, up
    * first. */
  function WithStop(c: CarState, floor: int): (r: CarState)
    ensures !Accepts(c, floor) ==> r == c
    ensures Accepts(c, floor) && floor > c.currentFloor ==>
              r.upStops == c.upStops + {floor} && r.downStops == c.downStops
    ensures Accepts(c, floor) && floor < c.currentFloor ==>
              r.downStops == c.downStops + {floor} && r.upStops == c.upStops
    ensures r == c.(upStops := r.upStops, downStops := r.downStops, direction := r.direction)
    ensures c.direction != Idle ==> r.direction == c.direction
    ensures c.direction == Idle && Accepts(c, floor) ==>
              r.direction == (if r.upStops != {} then Up else if r.downStops != {} then Down else Idle)
    ensures r.upStops == {} && r.downStops == {} ==> r.direction == c.direction
  {
    if floor < c.minFloor || floor > c.maxFloor || floor == c.currentFloor then c
    else
      var added :=
        if floor > c.currentFloor then c.(upStops := c.upStops + {floor})
        else if floor < c.currentFloor then c.(downStops := c.downStops + {floor})
        else c;
      if added.direction == Idle then
        added.(direction :=
          if added.upStops != {} then Up
          else if added.downStops != {} then Down
          else Idle)
      else added
  }

  /** addStop keeps the invariant: the sets only ever hold floors inside the
    * building, on the proper side of the car. */
  lemma WithStopKeepsInv(c: CarState, floor: int)
    requires Inv(c)
    ensures Inv(WithStop(c, floor))
  {
    var r := WithStop(c, floor);
    if Accepts(c, floor) {
      assert floor in r.upStops || floor in r.downStops;
      assert r.direction != Idle;
    }
  }

  /** Adding the same stop twice is the same as adding it once. */
  lemma WithStopIdempotent(c: CarState, floor: int)
    ensures WithStop(WithStop(c, floor), floor) == WithStop(c, floor)
  {
    var once := WithStop(c, floor);
    if Accepts(c, floor) {
      assert floor in once.upStops || floor in once.downStops;
      assert once.direction != Idle;
    }
  }

  // ---------------------------------------------------------------------
  // willPassWhileContinuing
  // ---------------------------------------------------------------------

  /** `willPassWhileContinuing(floor, dir)`: the car already travels in
    * `dir` and `floor` lies between the car and the farthest pending stop in
    * that direction, or the end of the building when nothing is pending
    * there. */
  function WillPass(c: CarState, floor: int, dir: Direction): (b: bool)
    ensures b ==> dir == c.direction && dir != Idle
    ensures dir == Up && c.direction == Up ==>
              (b <==> c.currentFloor <= floor
                      && (if c.upStops == {} then floor <= c.maxFloor
                          else exists u :: u in c.upStops && floor <= u))
    ensures dir == Down && c.direction == Down ==>
              (b <==> floor <= c.currentFloor
                      && (if c.downStops == {} then c.minFloor <= floor
                          else exists d :: d in c.downStops && d <= floor))
  {
    if dir == Up && c.direction == Up then
      var highest := if c.upStops == {} then c.maxFloor else Max(c.upStops);
      floor >= c.currentFloor && floor <= highest
    else if dir == Down && c.direction == Down then
      var lowest := if c.downStops == {} then c.minFloor else Min(c.downStops);
      floor <= c.currentFloor && floor >= lowest
    else
      false
  }

  // ---------------------------------------------------------------------
  // nextStop
  // ---------------------------------------------------------------------

  /** The answer of `nextStop`: the floor to head for, if any, and the
    * direction the car travels in afterwards. */
  datatype Target = Target(stop: Option<int>, direction: Direction)

  /** The stops ahead of the car in its direction of travel. */
  function ActiveStops(c: CarState): set<int>
  {
    match c.direction
    case Up => c.upStops
    case Down => c.downStops
    case Idle => {}
  }

  /** `nextStop`, the SCAN rule: keep sweeping while stops remain ahead and
    * head for the nearest of them; otherwise turn towards the other set (up
    * first); with nothing pending anywhere, go idle. */
  function NextTarget(c: CarState): (r: Target)
    ensures r.stop.None? <==> c.upStops == {} && c.downStops == {}
    ensures r.stop.None? ==> r.direction == Idle
    ensures r.direction == Up ==>
              r.stop.Some? && r.stop.value in c.upStops
              && forall u :: u in c.upStops ==> r.stop.value <= u
    ensures r.direction == Down ==>
              r.stop.Some? && r.stop.value in c.downStops
              && forall d :: d in c.downStops ==> d <= r.stop.value
    ensures ActiveStops(c) != {} ==> r.direction == c.direction
    ensures ActiveStops(c) == {} && c.upStops != {} ==> r.direction == Up
    ensures ActiveStops(c) == {} && c.upStops == {} && c.downStops != {} ==> r.direction == Down
    ensures r.stop.Some? ==> r.direction != Idle
  {
    if c.direction == Up && c.upStops != {} then Target(Some(Min(c.upStops)), Up)
    else if c.direction == Down && c.downStops != {} then Target(Some(Max(c.downStops)), Down)
    else if c.upStops != {} then Target(Some(Min(c.upStops)), Up)
    else if c.downStops != {} then Target(Some(Max(c.downStops)), Down)
    else Target(None, Idle)
  }

  // ---------------------------------------------------------------------
  // tick
  // ---------------------------------------------------------------------

  /** The car after one tick and the floors it served in that tick. */
  datatype Step = Step(car: CarState, served: seq<int>)

  /** The car is at a pending stop of its direction of travel. */
  predicate StoppingHere(c: CarState)
  {
    || (c.direction == Up && c.currentFloor in c.upStops)
    || (c.direction == Down && c.currentFloor in c.downStops)
  }

  /** One floor from `from` towards `to`, never past it. */
  function OneFloorToward(from: int, to: int): (r: int)
    ensures FromFloors(from, r) == FromFloors(from, to)
    ensures from - 1 <= r <= from + 1
    ensures from <= to ==> r <= to
    ensures to <= from ==> to <= r
  {
    if to > from then from + 1
    else if to < from then from - 1
    else from
  }

  /** `tick()`: with the doors open and dwell left, count the dwell down;
    * otherwise close the doors and, in the same tick, either serve the
    * current floor (remove it from both sets, open the doors, start the
    * dwell) or move one floor towards the target `nextStop` gives, or go
    * idle when there is none. */
  function Stepped(c: CarState): (r: Step)
    ensures r.served == [] || r.served == [c.currentFloor]
    ensures r.served != [] ==>
              && (c.currentFloor in c.upStops || c.currentFloor in c.downStops)
              && r.car.currentFloor == c.currentFloor
              && r.car.doorState == Open
              && c.currentFloor !in r.car.upStops && c.currentFloor !in r.car.downStops
    ensures r.car.minFloor == c.minFloor && r.car.maxFloor == c.maxFloor
    ensures r.car.upStops <= c.upStops && r.car.downStops <= c.downStops
    ensures c.currentFloor - 1 <= r.car.currentFloor <= c.currentFloor + 1
    ensures r.car.currentFloor != c.currentFloor ==> r.car.doorState == Closed && r.served == []
  {
    if c.doorState == Open && c.dwellRemaining > 0 then
      Step(c.(dwellRemaining := c.dwellRemaining - 1), [])
    else
      var closed := c.(doorState := Closed);
      if StoppingHere(closed) then
        Step(closed.(upStops := closed.upStops - {c.currentFloor},
                     downStops := closed.downStops - {c.currentFloor},
                     doorState := Open,
                     dwellRemaining := DWELL_TICKS),
             [c.currentFloor])
      else
        var target := NextTarget(closed);
        var turned := closed.(direction := target.direction);
        if target.stop.Some? && target.direction != Idle then
          Step(turned.(currentFloor := OneFloorToward(c.currentFloor, target.stop.value)), [])
        else
          Step(turned.(direction := Idle), [])
  }

  /** A tick keeps the invariant. */
  lemma StepKeepsInv(c: CarState)
    requires Inv(c)
    ensures Inv(Stepped(c).car)
  {
    if !(c.doorState == Open && c.dwellRemaining > 0) {
      var closed := c.(doorState := Closed);
      if !StoppingHere(closed) {
        var target := NextTarget(closed);
        if target.stop.Some? {
          var t := target.stop.value;
          if target.direction == Up {
            assert c.currentFloor !in c.upStops;
            assert c.currentFloor < t;
          } else {
            assert c.currentFloor !in c.downStops;
            assert t < c.currentFloor;
          }
        }
      }
    }
  }

  /** With the doors open and dwell left, a tick only counts the dwell down. */
  lemma DwellTick(c: CarState)
    requires c.doorState == Open && c.dwellRemaining > 0
    ensures Stepped(c) == Step(c.(dwellRemaining := c.dwellRemaining - 1), [])
  {
  }

  /** Closing the doors does not cost a tick: a car whose dwell has run out
    * does in this tick exactly what it would do with its doors already
    * closed. */
  lemma DoorCloseCostsNoTick(c: CarState)
    requires c.doorState == Open && c.dwellRemaining == 0
    ensures Stepped(c) == Stepped(c.(doorState := Closed))
  {
  }

  /** A car (doors closed, or dwell over) at a pending stop of its direction
    * serves it: it stays put, drops the floor from both sets, opens the
    * doors for DWELL_TICKS and reports exactly that floor. */
  lemma ServeTick(c: CarState)
    requires c.doorState == Closed || c.dwellRemaining <= 0
    requires StoppingHere(c)
    ensures Stepped(c).served == [c.currentFloor]
    ensures Stepped(c).car == c.(upStops := c.upStops - {c.currentFloor},
                                 downStops := c.downStops - {c.currentFloor},
                                 doorState := Open,
                                 dwellRemaining := DWELL_TICKS)
  {
  }

  /** Otherwise the car serves nothing and moves exactly one floor towards
    * the nearest stop of the sweep `nextStop` chooses, never past it; with
    * nothing pending it goes idle where it is. */
  lemma MoveTick(c: CarState)
    requires Inv(c)
    requires c.doorState == Closed || c.dwellRemaining == 0
    requires !StoppingHere(c)
    ensures Stepped(c).served == []
    ensures Stepped(c).car.upStops == c.upStops && Stepped(c).car.downStops == c.downStops
    ensures Stepped(c).car.doorState == Closed
    ensures c.upStops == {} && c.downStops == {} ==>
              Stepped(c).car == c.(direction := Idle, doorState := Closed)
    ensures c.upStops != {} || c.downStops != {} ==>
              var t := NextTarget(c);
              var n := Stepped(c).car;
              && n.direction == t.direction
              && (t.direction == Up ==> n.currentFloor == c.currentFloor + 1 <= t.stop.value)
              && (t.direction == Down ==> t.stop.value <= c.currentFloor - 1 == n.currentFloor)
  {
    var closed := c.(doorState := Closed);
    assert NextTarget(closed) == NextTarget(c);
    var t := NextTarget(c);
    if t.direction == Up {
      assert c.currentFloor !in c.upStops;
    } else if t.direction == Down {
      assert c.currentFloor !in c.downStops;
    }
  }

  // ---------------------------------------------------------------------
  // Runs of several ticks
  // ---------------------------------------------------------------------

  /** The car after `n` ticks with no new stops. */
  function Run(c: CarState, n: nat): CarState
    decreases n
  {
    if n == 0 then c else Run(Stepped(c).car, n - 1)
  }

  /** What those `n` ticks served, tick by tick. */
  function History(c: CarState, n: nat): (h: seq<seq<int>>)
    ensures |h| == n
    decreases n
  {
    if n == 0 then [] else [Stepped(c).served] + History(Stepped(c).car, n - 1)
  }

  /** A tick is a run of length one. */
  lemma RunOne(c: CarState)
    ensures Run(c, 1) == Stepped(c).car && History(c, 1) == [Stepped(c).served]
  {
  }

  /** Ticks compose: `a + b` ticks are `a` ticks followed by `b`. */
  lemma {:induction false} RunAdd(c: CarState, a: nat, b: nat)
    ensures Run(c, a + b) == Run(Run(c, a), b)
    ensures History(c, a + b) == History(c, a) + History(Run(c, a), b)
    decreases a
  {
    if a > 0 {
      var step := Stepped(c);
      RunAdd(step.car, a - 1, b);
      assert Run(c, a + b) == Run(step.car, (a - 1) + b);
      assert Run(c, a) == Run(step.car, a - 1);
      assert History(c, a + b) == [step.served] + History(step.car, (a - 1) + b);
      assert History(c, a) == [step.served] + History(step.car, a - 1);
    }
  }

  /** Any number of ticks keeps the invariant. */
  lemma {:induction false} RunKeepsInv(c: CarState, n: nat)
    requires Inv(c)
    ensures Inv(Run(c, n))
    decreases n
  {
    if n > 0 {
      StepKeepsInv(c);
      RunKeepsInv(Stepped(c).car, n - 1);
    }
  }

  /** An idle car stays where it is and serves nothing, however long it is
    * left alone. */
  lemma {:induction false} IdleCarStaysPut(c: CarState, n: nat)
    requires Inv(c) && c.direction == Idle
    ensures Run(c, n) == c
    ensures forall k :: 0 <= k < n ==> History(c, n)[k] == []
    decreases n
  {
    if n > 0 {
      assert Stepped(c) == Step(c, []);
      IdleCarStaysPut(c, n - 1);
    }
  }

  /** After stopping, the car keeps its doors open and serves nothing for as
    * many ticks as dwell remains. */
  lemma {:induction false} DwellPhase(c: CarState, n: nat)
    requires c.doorState == Open && n <= c.dwellRemaining
    ensures Run(c, n) == c.(dwellRemaining := c.dwellRemaining - n)
    ensures forall k :: 0 <= k < n ==> History(c, n)[k] == []
    decreases n
  {
    if n > 0 {
      DwellPhase(c.(dwellRemaining := c.dwellRemaining - 1), n - 1);
    }
  }

  /** A car sweeping up with its doors closed climbs one floor per tick,
    * serving nothing, until it reaches its nearest up stop. */
  lemma {:induction false} ApproachUp(c: CarState, k: nat)
    requires Inv(c) && c.direction == Up && c.doorState == Closed
    requires c.upStops != {} && c.currentFloor + k <= Min(c.upStops)
    ensures Run(c, k) == c.(currentFloor := c.currentFloor + k)
    ensures forall j :: 0 <= j < k ==> History(c, k)[j] == []
    decreases k
  {
    if k > 0 {
      assert c.currentFloor !in c.upStops;
      MoveTick(c);
      var next := c.(currentFloor := c.currentFloor + 1);
      assert Stepped(c).car == next;
      StepKeepsInv(c);
      ApproachUp(next, k - 1);
    }
  }

  /** A car sweeping down with its doors closed descends one floor per tick,
    * serving nothing, until it reaches its nearest down stop. */
  lemma {:induction false} ApproachDown(c: CarState, k: nat)
    requires Inv(c) && c.direction == Down && c.doorState == Closed
    requires c.downStops != {} && Max(c.downStops) <= c.currentFloor - k
    ensures Run(c, k) == c.(currentFloor := c.currentFloor - k)
    ensures forall j :: 0 <= j < k ==> History(c, k)[j] == []
    decreases k
  {
    if k > 0 {
      assert c.currentFloor !in c.downStops;
      MoveTick(c);
      var next := c.(currentFloor := c.currentFloor - 1);
      assert Stepped(c).car == next;
      StepKeepsInv(c);
      ApproachDown(next, k - 1);
    }
  }

  /** Ticks alone never serve a floor that is not pending: a served stop is
    * not served again until it is added anew. */
  lemma {:induction false} NeverServedUnlessPending(c: CarState, n: nat, f: int)
    requires f !in c.upStops && f !in c.downStops
    ensures forall k :: 0 <= k < n ==> f !in History(c, n)[k]
    decreases n
  {
    if n > 0 {
      NeverServedUnlessPending(Stepped(c).car, n - 1, f);
    }
  }

  /** A floor served in one tick is not served again by any later tick. */
  lemma ServedOnlyOnce(c: CarState, n: nat)
    requires Stepped(c).served != []
    ensures forall k :: 0 <= k < n ==> c.currentFloor !in History(Stepped(c).car, n)[k]
  {
    NeverServedUnlessPending(Stepped(c).car, n, c.currentFloor);
  }

  /** `n` ticks that serve nothing. */
  function Quiet(n: nat): (h: seq<seq<int>>)
    ensures |h| == n && forall k :: 0 <= k < n ==> h[k] == []
  {
    seq(n, _ => [])
  }

  /** An idle car at floor 0 of a building with floors 0 to 15, given a stop
    * at floor 10, climbs on ticks 1 to 10 and serves floor 10 on tick 11:
    * arrival and serving are separate ticks. */
  lemma ScenarioStopAtTen()
    ensures var c := WithStop(Initial(0, 15, 0), 10);
            && c.upStops == {10} && c.direction == Up
            && History(c, 11) == Quiet(10) + [[10]]
  {
    var c := WithStop(Initial(0, 15, 0), 10);
    InitialSatisfiesInv(0, 15, 0);
    WithStopKeepsInv(Initial(0, 15, 0), 10);
    assert Min(c.upStops) == 10;
    ApproachUp(c, 10);
    var arrived := Run(c, 10);
    ServeTick(arrived);
    RunOne(arrived);
    RunAdd(c, 10, 1);
  }

  /** Ticks 1-4 of the scenario below: climb from floor 0 to floor 3 and
    * serve it. */
  lemma ScenarioClimbToThree(c: CarState)
    requires c == CarState(0, 15, 0, Up, Closed, 0, {3, 7}, {})
    ensures Run(c, 4) == CarState(0, 15, 3, Up, Open, DWELL_TICKS, {7}, {})
    ensures History(c, 4) == Quiet(3) + [[3]]
  {
    assert Min(c.upStops) == 3;
    ApproachUp(c, 3);
    var atThree := Run(c, 3);
    ServeTick(atThree);
    RunOne(atThree);
    assert {3, 7} - {3} == {7};
    RunAdd(c, 3, 1);
  }

  /** Ticks 5-7 of the scenario below: dwell twice, then close the doors and
    * leave floor 3 in the same tick. */
  lemma ScenarioDwellAndLeaveThree(c: CarState)
    requires c == CarState(0, 15, 3, Up, Open, DWELL_TICKS, {7}, {})
    ensures Run(c, 3) == CarState(0, 15, 4, Up, Closed, 0, {7}, {})
    ensures History(c, 3) == Quiet(3)
  {
    DwellPhase(c, 2);
    var dwelt := Run(c, 2);
    DoorCloseCostsNoTick(dwelt);
    var closed := dwelt.(doorState := Closed);
    assert Inv(closed);
    assert Min(closed.upStops) == 7;
    MoveTick(closed);
    RunOne(dwelt);
    RunAdd(c, 2, 1);
  }

  /** Ticks 8-11 of the scenario below: climb from floor 4 to floor 7 and
    * serve it. */
  lemma ScenarioClimbToSeven(c: CarState)
    requires c == CarState(0, 15, 4, Up, Closed, 0, {7}, {})
    ensures History(c, 4) == Quiet(3) + [[7]]
  {
    assert Min(c.upStops) == 7;
    ApproachUp(c, 3);
    var atSeven := Run(c, 3);
    ServeTick(atSeven);
    RunOne(atSeven);
    RunAdd(c, 3, 1);
  }

  /** Ticks 1-11 of the scenario below, from the car its two stops leave. */
  lemma ScenarioElevenTicks(c: CarState)
    requires c == CarState(0, 15, 0, Up, Closed, 0, {3, 7}, {})
    ensures History(c, 11) == Quiet(3) + [[3]] + Quiet(6) + [[7]]
  {
    ScenarioClimbToThree(c);
    var atThree := Run(c, 4);
    ScenarioDwellAndLeaveThree(atThree);
    var atFour := Run(atThree, 3);
    ScenarioClimbToSeven(atFour);
    RunAdd(c, 4, 3);
    RunAdd(c, 7, 4);
    assert History(c, 11) == Quiet(3) + [[3]] + Quiet(3) + Quiet(3) + [[7]];
  }

  /** A car at floor 0 given stops 3 and 7 serves floor 3 on tick 4, dwells
    * on ticks 5 and 6, closes its doors and leaves on tick 7 (closing costs
    * no tick), reaches floor 7 on tick 10 and serves it on tick 11. */
  lemma ScenarioStopsAtThreeAndSeven()
    ensures var c := WithStop(WithStop(Initial(0, 15, 0), 3), 7);
            && c.upStops == {3, 7} && c.direction == Up
            && History(c, 11) == Quiet(3) + [[3]] + Quiet(6) + [[7]]
  {
    var c := WithStop(WithStop(Initial(0, 15, 0), 3), 7);
    assert c == CarState(0, 15, 0, Up, Closed, 0, {3, 7}, {});
    ScenarioElevenTicks(c);
  }

  // ---------------------------------------------------------------------
  // The Elevator object
  // ---------------------------------------------------------------------

  /** A car whose state `addStop` and `tick` update in place. The getters of
    * the Java class are its fields, read directly. */
  class Elevator {
    const id: nat
    const minFloor: int
    const maxFloor: int

    var currentFloor: int
    var direction: Direction
    var doorState: DoorState
    var dwellRemaining: int
    var upStops: set<int>
    var downStops: set<int>

    /** The car's state as a value. */
    function Snapshot(): CarState
      reads this
    {
      CarState(minFloor, maxFloor, currentFloor, direction, doorState,
               dwellRemaining, upStops, downStops)
    }

    ghost predicate Valid()
      reads this
    {
      Inv(Snapshot())
    }

    constructor (id: nat, startFloor: int, minFloor: int, maxFloor: int)
      requires minFloor <= startFloor <= maxFloor
      ensures this.id == id
      ensures Snapshot() == Initial(minFloor, maxFloor, startFloor)
      ensures Valid()
    {
      this.id := id;
      this.minFloor := minFloor;
      this.maxFloor := maxFloor;
      currentFloor := startFloor;
      direction := Idle;
      doorState := Closed;
      dwellRemaining := 0;
      upStops := {};
      downStops := {};
    }

    method AddStop(floor: int)
      modifies this
      ensures Snapshot() == WithStop(old(Snapshot()), floor)
      ensures old(Valid()) ==> Valid()
    {
      ghost var before := Snapshot();
      if Inv(before) {
        WithStopKeepsInv(before, floor);
      }
      if floor < minFloor || floor > maxFloor || floor == currentFloor {
        return;
      }
      if floor > currentFloor {
        upStops := upStops + {floor};
      } else if floor < currentFloor {
        downStops := downStops + {floor};
      }
      if direction == Idle {
        direction := if upStops != {} then Up else if downStops != {} then Down else Idle;
      }
    }

    /** Private in the Java class; it may turn the car or make it idle. */
    method NextStop() returns (target: Option<int>)
      modifies this`direction
      ensures NextTarget(old(Snapshot())) == Target(target, direction)
    {
      if direction == Up && upStops != {} {
        return Some(Min(upStops));
      }
      if direction == Down && downStops != {} {
        return Some(Max(downStops));
      }
      if upStops != {} {
        direction := Up;
        return Some(Min(upStops));
      }
      if downStops != {} {
        direction := Down;
        return Some(Max(downStops));
      }
      direction := Idle;
      return None;
    }

    method Tick() returns (served: seq<int>)
      modifies this
      ensures Stepped(old(Snapshot())) == Step(Snapshot(), served)
      ensures old(Valid()) ==> Valid()
    {
      ghost var before := Snapshot();
      if Inv(before) {
        StepKeepsInv(before);
      }
      served := [];

      if doorState == Open {
        if dwellRemaining > 0 {
          dwellRemaining := dwellRemaining - 1;
          return;
        } else {
          doorState := Closed;
        }
      }

      var stoppingHere := (direction == Up && currentFloor in upStops)
                          || (direction == Down && currentFloor in downStops);
      if stoppingHere {
        upStops := upStops - {currentFloor};
        downStops := downStops - {currentFloor};
        doorState := Open;
        dwellRemaining := DWELL_TICKS;
        served := served + [currentFloor];
        return;
      }

      var target := NextStop();
      if target.Some? && direction != Idle {
        var t := target.value;
        if t > currentFloor {
          currentFloor := currentFloor + 1;
        } else if t < currentFloor {
          currentFloor := currentFloor - 1;
        }
      } else {
        direction := Idle;
      }
    }
  }
}
