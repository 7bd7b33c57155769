/** The direction of travel of a car or of a hall call (Direction.java). */
module Directions {
  datatype Direction = Up | Down | Idle

  /** The direction that leads from floor `from` to floor `to`: the sign of
    * `to - from`. */
  function FromFloors(from: int, to: int): (d: Direction)
    ensures d == Up <==> to > from
    ensures d == Down <==> to < from
    ensures d == Idle <==> to == from
  {
    if to > from then Up
    else if to < from then Down
    else Idle
  }

  /** Swapping the two floors swaps Up and Down. */
  lemma FromFloorsAntisymmetric(a: int, b: int)
    ensures FromFloors(a, b) == Up <==> FromFloors(b, a) == Down
    ensures FromFloors(a, b) == Idle <==> FromFloors(b, a) == Idle
  {
  }
}
