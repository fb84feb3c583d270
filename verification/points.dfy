/** Operating points: where the devices are set, and what they report there. */
module Points {
  import opened Domain

  datatype Coordinate = Coordinate(name: string, axis: Axis, value: Scalar)

  /** An operating point: the coordinates set on the devices, and what the successive
      measurement calls made at this point return, each in its canonical unit. */
  datatype Point = Point(coordinates: seq<Coordinate>, readings: seq<real>)

  /** The first coordinate on an axis; None where the lookup throws. */
  function CoordinateOf(coordinates: seq<Coordinate>, axis: Axis): Option<Value> {
    if |coordinates| == 0 then None
    else if coordinates[0].axis == axis then
      if coordinates[0].value.kind == AxisType(axis)
      then Some(Quantity(coordinates[0].value.kind, coordinates[0].value.amount))
      else None
    else CoordinateOf(coordinates[1..], axis)
  }
}
