/** The screensaver's two-dimensional vector (`Vec2d` in week2/screensaver/refactored.py).
    Coordinates are exact reals; the comparisons are the componentwise-strict
    ones of the source, which form a partial order, not a total one. */
module Vec2d {

  datatype Vec = Vec(x: real, y: real)

  function Add(a: Vec, b: Vec): (r: Vec) {
    Vec(a.x + b.x, a.y + b.y)
  }

  function Sub(a: Vec, b: Vec): (r: Vec) {
    Vec(a.x - b.x, a.y - b.y)
  }

  function Scale(a: Vec, k: real): (r: Vec) {
    Vec(a.x * k, a.y * k)
  }

  /** `a < b`: both coordinates strictly smaller. */
  predicate Lt(a: Vec, b: Vec) {
    a.x < b.x && a.y < b.y
  }

  /** `a > b`: both coordinates strictly greater. */
  predicate Gt(a: Vec, b: Vec) {
    a.x > b.x && a.y > b.y
  }

  /** Addition and subtraction are componentwise, and subtracting what was
      added gives back the original vector exactly. */
  lemma AddSubCancel(a: Vec, b: Vec)
    ensures Add(a, b).x == a.x + b.x && Add(a, b).y == a.y + b.y
    ensures Sub(a, b).x == a.x - b.x && Sub(a, b).y == a.y - b.y
    ensures Sub(Add(a, b), b) == a
  {
  }

  /** Scaling is componentwise; scaling by 1 is the identity and by 0 the origin. */
  lemma ScaleLaws(a: Vec, k: real)
    ensures Scale(a, k).x == a.x * k && Scale(a, k).y == a.y * k
    ensures Scale(a, 1.0) == a
    ensures Scale(a, 0.0) == Vec(0.0, 0.0)
  {
  }

  /** `>` is the converse of `<`, and `<` is a strict partial order. */
  lemma OrderIsStrictPartial(a: Vec, b: Vec, c: Vec)
    ensures Gt(a, b) <==> Lt(b, a)
    ensures !Lt(a, a)
    ensures Lt(a, b) ==> !Lt(b, a)
    ensures Lt(a, b) && Lt(b, c) ==> Lt(a, c)
  {
  }

  /** The order is not total: distinct vectors may be incomparable. */
  lemma OrderIsNotTotal()
    ensures exists a: Vec, b: Vec :: a != b && !Lt(a, b) && !Lt(b, a) && !Gt(a, b) && !Gt(b, a)
  {
    var a, b := Vec(0.0, 1.0), Vec(1.0, 0.0);
    assert a != b && !Lt(a, b) && !Lt(b, a) && !Gt(a, b) && !Gt(b, a);
  }

  /** Two vectors are incomparable exactly when neither dominates the other
      on both axes. */
  lemma IncomparableIff(a: Vec, b: Vec)
    ensures (!Lt(a, b) && !Gt(a, b)) <==>
            (a.x >= b.x || a.y >= b.y) && (a.x <= b.x || a.y <= b.y)
  {
  }
}
