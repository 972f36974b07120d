/** Grid positions and the Manhattan distance the planner ranks dig cells by. */
module Geometry {
  import opened FixedWidth

  /** A column `x` (0 is the home column) and a row `y`, both unsigned 32-bit. */
  datatype Position = Position(x: U32, y: U32)

  function Abs(k: int): nat { if k < 0 then -k else k }

  function Max(a: U32, b: U32): U32 { if a < b then b else a }

  function Min(a: U32, b: U32): U32 { if a < b then a else b }

  /** `Position::distanceTo`: each difference is taken as max minus min, which
      never goes below zero on unsigned values; only the final sum is a
      32-bit addition and may wrap. */
  function DistanceTo(p: Position, q: Position): (d: U32)
    ensures d == (Abs(p.x - q.x) + Abs(p.y - q.y)) % TWO_TO_32
  {
    var dx := Max(p.x, q.x) - Min(p.x, q.x);
    var dy := Max(p.y, q.y) - Min(p.y, q.y);
    AddU32(dx, dy)
  }

  /** Distance does not depend on the order of the two positions. */
  lemma DistanceSymmetric(p: Position, q: Position)
    ensures DistanceTo(p, q) == DistanceTo(q, p)
  {
  }

  /** On any grid narrower and shorter than 2^31 the sum cannot wrap: the
      distance is exactly the Manhattan distance, and it is zero exactly when
      the positions coincide. */
  lemma DistanceIsManhattan(p: Position, q: Position)
    requires p.x < 0x8000_0000 && q.x < 0x8000_0000
    requires p.y < 0x8000_0000 && q.y < 0x8000_0000
    ensures DistanceTo(p, q) == Abs(p.x - q.x) + Abs(p.y - q.y)
    ensures DistanceTo(p, q) == 0 <==> p == q
  {
  }

  /** Without that bound the wrap is reachable: two distinct positions can be
      at distance 0. */
  lemma DistanceWrapsOnHugeGrids()
    ensures DistanceTo(Position(0, 0), Position(0x8000_0000, 0x8000_0000)) == 0
  {
  }
}
