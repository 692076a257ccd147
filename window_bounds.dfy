/** The reference window fetched around a variant (`main`, lines 76-78). */
module WindowBounds {

  /** C's `/` on `int`: the quotient truncated toward zero. Dafny's `/` is
      Euclidean and differs for a negative dividend. */
  function CDiv(a: int, b: int): (q: int)
    requires b > 0
    ensures a >= 0 ==> q == a / b
    ensures a >= 0 ==> q * b <= a < q * b + b
    ensures a < 0 ==> q * b - b < a <= q * b
  {
    if a >= 0 then a / b else -((-a) / b)
  }

  /** A window as passed to the fetch: `start` and `end` in 0-based
      coordinates (whether `end` is inclusive is the index's business). */
  datatype Window = Window(start: int, end: int)

  /** `start = pos - w/2; end = pos + w/2; if (start < 0) start = 0;` */
  function WindowAround(pos: int, windowSize: int): (w: Window)
    requires windowSize > 0
    ensures w.start >= 0
  {
    var half := CDiv(windowSize, 2);
    var start := pos - half;
    var end := pos + half;
    Window(if start < 0 then 0 else start, end)
  }

  /** The bounds lie `w/2` on either side of the variant: the lower bound
      is clamped at 0, the upper bound never is, so `end - start` never
      exceeds `2 * (w/2)` (nor `w`) and equals it exactly unless the clamp
      applied. */
  lemma WindowAroundBounds(pos: int, windowSize: int)
    requires windowSize > 0
    ensures var w := WindowAround(pos, windowSize);
      && w.start >= 0
      && w.end == pos + windowSize / 2
      && (w.start == pos - windowSize / 2 || w.start == 0)
      && (pos >= 0 ==> w.start <= pos <= w.end)
      && w.end - w.start <= 2 * (windowSize / 2) <= windowSize
      && (w.end - w.start == 2 * (windowSize / 2) <==> pos >= windowSize / 2)
  {
  }
}
