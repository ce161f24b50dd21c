/** The map adapter: it turns a level map, given as an integer matrix, into
    the calls a lighting system expects (grid size, light positions,
    obstacle positions), then asks that system for its lighting. */
module Adapter {
  import opened Wrappers

  /** A map cell address: column `x`, row `y`. */
  datatype Coord = Coord(x: int, y: int)

  /** Rows of cells; rows may differ in length. 1 marks a light, -1 an
      obstacle, anything else is open floor. */
  type Matrix = seq<seq<int>>

  /** What the lighting system is told, in order. */
  datatype Call =
    | SetDim(width: int, height: int)
    | SetLights(lights: seq<Coord>)
    | SetObstacles(obstacles: seq<Coord>)
    | GenerateLights

  /** What the lighting system knows when asked to generate. */
  datatype Setup = Setup(width: int, height: int, lights: seq<Coord>, obstacles: seq<Coord>)

  datatype Lightened<R> = Lightened(calls: seq<Call>, result: R)

  datatype AdapterError = IndexError

  /** The cell at `c` exists and holds `v`. */
  predicate Holds(m: Matrix, c: Coord, v: int)
  {
    0 <= c.y < |m| && 0 <= c.x < |m[c.y]| && m[c.y][c.x] == v
  }

  /** `a` comes before `b` when the map is read row by row. */
  predicate Before(a: Coord, b: Coord)
  {
    a.y < b.y || (a.y == b.y && a.x < b.x)
  }

  predicate RowMajor(s: seq<Coord>)
  {
    forall i, j :: 0 <= i < j < |s| ==> Before(s[i], s[j])
  }

  /** Reads the map row by row and collects the coordinates of the lights and
      of the obstacles, each in reading order. */
  method Scan(m: Matrix) returns (lights: seq<Coord>, obstacles: seq<Coord>)
    ensures forall c :: c in lights <==> Holds(m, c, 1)
    ensures forall c :: c in obstacles <==> Holds(m, c, -1)
    ensures RowMajor(lights) && RowMajor(obstacles)
  {
    lights, obstacles := [], [];
    var y := 0;
    while y < |m|
      invariant 0 <= y <= |m|
      invariant forall c :: c in lights <==> Holds(m, c, 1) && c.y < y
      invariant forall c :: c in obstacles <==> Holds(m, c, -1) && c.y < y
      invariant RowMajor(lights) && RowMajor(obstacles)
    {
      var x := 0;
      while x < |m[y]|
        invariant 0 <= x <= |m[y]|
        invariant forall c :: c in lights <==> Holds(m, c, 1) && Before(c, Coord(x, y))
        invariant forall c :: c in obstacles <==> Holds(m, c, -1) && Before(c, Coord(x, y))
        invariant RowMajor(lights) && RowMajor(obstacles)
      {
        if m[y][x] == -1 {
          obstacles := obstacles + [Coord(x, y)];
        } else if m[y][x] == 1 {
          lights := lights + [Coord(x, y)];
        }
        x := x + 1;
      }
      y := y + 1;
    }
  }

  /** A list in strict reading order names no cell twice. */
  lemma RowMajorHasNoDuplicates(s: seq<Coord>, i: nat, j: nat)
    requires RowMajor(s) && i < j < |s|
    ensures s[i] != s[j]
  {
  }

  /** No cell is both a light and an obstacle, and open floor appears in
      neither list. */
  lemma ScanPartitions(m: Matrix, lights: seq<Coord>, obstacles: seq<Coord>, c: Coord)
    requires forall c :: c in lights <==> Holds(m, c, 1)
    requires forall c :: c in obstacles <==> Holds(m, c, -1)
    ensures !(c in lights && c in obstacles)
    ensures (c in lights || c in obstacles) <==>
      0 <= c.y < |m| && 0 <= c.x < |m[c.y]| && (m[c.y][c.x] == 1 || m[c.y][c.x] == -1)
  {
  }

  /** The adapter's one operation. The grid size is the first row's length
      by the number of rows, so an empty map fails before any call is made.
      Otherwise the lighting system is told the size, the lights and the
      obstacles, in that order, and its answer is returned unchanged.
      `generate` stands for the lighting system's own computation. */
  method Lighten<R>(m: Matrix, generate: Setup -> R) returns (r: Result<Lightened<R>, AdapterError>)
    ensures r.Failure? <==> m == []
    ensures r.Success? ==> exists lights, obstacles ::
      (forall c :: c in lights <==> Holds(m, c, 1)) &&
      (forall c :: c in obstacles <==> Holds(m, c, -1)) &&
      RowMajor(lights) && RowMajor(obstacles) &&
      r.value.calls == [SetDim(|m[0]|, |m|), SetLights(lights), SetObstacles(obstacles), GenerateLights] &&
      r.value.result == generate(Setup(|m[0]|, |m|, lights, obstacles))
  {
    if m == [] {
      return Failure(IndexError);
    }
    var lights, obstacles := Scan(m);
    var calls := [SetDim(|m[0]|, |m|), SetLights(lights), SetObstacles(obstacles), GenerateLights];
    r := Success(Lightened(calls, generate(Setup(|m[0]|, |m|, lights, obstacles))));
  }
}
