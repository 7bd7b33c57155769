/** The two immutable request records, HallCall.java and CarCall.java.
  * Their fields are final and set once by the constructor, which a datatype
  * value captures: no operation can change a HallCall or a CarCall. */
module Calls {
  import opened Directions

  /** A request made at a floor by someone who wants to travel `direction`. */
  datatype HallCall = HallCall(floor: int, direction: Direction)

  /** A destination pressed inside car `elevatorId`. */
  datatype CarCall = CarCall(elevatorId: int, destinationFloor: int)

  /** The argument of Java's `equals(Object)`: a HallCall, a CarCall, or any
    * other object. */
  datatype JavaObject =
    | AHallCall(hallCall: HallCall)
    | ACarCall(carCall: CarCall)
    | OtherObject

  const TWO_TO_32: int := 0x1_0000_0000
  const TWO_TO_31: int := 0x8000_0000

  /** The Java `int` that an unbounded integer wraps around to. */
  function Wrap32(x: int): (r: int)
    ensures -TWO_TO_31 <= r < TWO_TO_31
    ensures (r - x) % TWO_TO_32 == 0
  {
    (x + TWO_TO_31) % TWO_TO_32 - TWO_TO_31
  }

  /** A multiple of 2^32 stays one when scaled, and the sum of two is one. */
  lemma {:induction false} MultiplesOfTwoToThe32(x: int, y: int, k: int)
    requires x % TWO_TO_32 == 0 && y % TWO_TO_32 == 0
    ensures (k * x + y) % TWO_TO_32 == 0
  {
    var qx, qy := x / TWO_TO_32, y / TWO_TO_32;
    assert x == qx * TWO_TO_32;
    assert y == qy * TWO_TO_32;
    assert k * x + y == (k * qx + qy) * TWO_TO_32;
  }

  /** `java.util.Objects.hash(a, b)` for two fields whose own hash codes are
    * `ha` and `hb`: the polynomial 31 * (31 * 1 + ha) + hb, evaluated step by
    * step in `int` arithmetic, which wraps around at every step. The result
    * is a Java `int` that agrees with the exact polynomial modulo 2^32. */
  function ObjectsHash2(ha: int, hb: int): (r: int)
    ensures -TWO_TO_31 <= r < TWO_TO_31
    ensures (r - (961 + 31 * ha + hb)) % TWO_TO_32 == 0
  {
    var inner := Wrap32(31 + ha);
    var outer := Wrap32(31 * inner + hb);
    MultiplesOfTwoToThe32(inner - (31 + ha), outer - (31 * inner + hb), 31);
    assert outer - (961 + 31 * ha + hb)
           == 31 * (inner - (31 + ha)) + (outer - (31 * inner + hb));
    outer
  }

  /** `HallCall.equals(o)`: false for anything that is not a HallCall,
    * otherwise a field-by-field comparison. */
  function HallCallEquals(self: HallCall, o: JavaObject): (b: bool)
    ensures b <==> o == AHallCall(self)
  {
    o.AHallCall? && self.floor == o.hallCall.floor && self.direction == o.hallCall.direction
  }

  /** `HallCall.hashCode()`. An enum constant hashes by identity, which this
    * model cannot know, so that hash is a parameter. */
  function HallCallHash(self: HallCall, directionHash: Direction -> int): (h: int)
    ensures -TWO_TO_31 <= h < TWO_TO_31
    ensures (h - (961 + 31 * self.floor + directionHash(self.direction))) % TWO_TO_32 == 0
  {
    ObjectsHash2(self.floor, directionHash(self.direction))
  }

  /** `CarCall.equals(o)`. */
  function CarCallEquals(self: CarCall, o: JavaObject): (b: bool)
    ensures b <==> o == ACarCall(self)
  {
    o.ACarCall? && self.elevatorId == o.carCall.elevatorId
    && self.destinationFloor == o.carCall.destinationFloor
  }

  /** `CarCall.hashCode()`; an `Integer` hashes to its own value. */
  function CarCallHash(self: CarCall): (h: int)
    ensures -TWO_TO_31 <= h < TWO_TO_31
    ensures (h - (961 + 31 * self.elevatorId + self.destinationFloor)) % TWO_TO_32 == 0
  {
    ObjectsHash2(self.elevatorId, self.destinationFloor)
  }

  /** `HallCall.equals` is an equivalence relation on HallCalls. */
  lemma HallCallEqualsIsEquivalence(a: HallCall, b: HallCall, c: HallCall)
    ensures HallCallEquals(a, AHallCall(a))
    ensures HallCallEquals(a, AHallCall(b)) ==> HallCallEquals(b, AHallCall(a))
    ensures HallCallEquals(a, AHallCall(b)) && HallCallEquals(b, AHallCall(c))
            ==> HallCallEquals(a, AHallCall(c))
  {
  }

  /** Equal HallCalls have equal hash codes. */
  lemma HallCallHashConsistent(a: HallCall, b: HallCall, directionHash: Direction -> int)
    requires HallCallEquals(a, AHallCall(b))
    ensures HallCallHash(a, directionHash) == HallCallHash(b, directionHash)
  {
  }

  /** `CarCall.equals` is an equivalence relation on CarCalls. */
  lemma CarCallEqualsIsEquivalence(a: CarCall, b: CarCall, c: CarCall)
    ensures CarCallEquals(a, ACarCall(a))
    ensures CarCallEquals(a, ACarCall(b)) ==> CarCallEquals(b, ACarCall(a))
    ensures CarCallEquals(a, ACarCall(b)) && CarCallEquals(b, ACarCall(c))
            ==> CarCallEquals(a, ACarCall(c))
  {
  }

  /** Equal CarCalls have equal hash codes. */
  lemma CarCallHashConsistent(a: CarCall, b: CarCall)
    requires CarCallEquals(a, ACarCall(b))
    ensures CarCallHash(a) == CarCallHash(b)
  {
  }

  /** A HallCall never equals a CarCall, and the other way round. */
  lemma CallsOfDifferentKindsDiffer(h: HallCall, c: CarCall)
    ensures !HallCallEquals(h, ACarCall(c)) && !CarCallEquals(c, AHallCall(h))
    ensures !HallCallEquals(h, OtherObject) && !CarCallEquals(c, OtherObject)
  {
  }
}
