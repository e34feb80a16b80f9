/** The `System.Drawing` value types the layouter works with.  All three are
    structs, so every assignment or argument passing copies them. */
module Drawing {

  datatype Point = Point(x: int, y: int)

  datatype Size = Size(width: int, height: int)

  datatype Rectangle = Rectangle(x: int, y: int, width: int, height: int)
  {
    function Left(): int { x }
    function Top(): int { y }
    function Right(): int { x + width }
    function Bottom(): int { y + height }
    function Location(): Point { Point(x, y) }
    function Dimensions(): Size { Size(width, height) }

    /** The closed region the rectangle covers holds the point. */
    predicate Covers(px: int, py: int) {
      Left() <= px <= Right() && Top() <= py <= Bottom()
    }
  }

  /** `new Rectangle(location, size)`. */
  function RectangleAt(location: Point, size: Size): (r: Rectangle)
    ensures r.Location() == location && r.Dimensions() == size
  {
    Rectangle(location.x, location.y, size.width, size.height)
  }
}
