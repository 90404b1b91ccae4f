/** Points and polygons in pixel space. */
module Points {

  /** A pixel position: x grows to the right, y grows downwards. */
  datatype Point = Point(x: real, y: real)

  /** A polygon as a contour approximation yields it: its vertices in contour order. */
  type Polygon = seq<Point>
}
