/** The playing field: grid cells and the sizing of the drawing surface. */
module Grid {

  /** Side of one cell in pixels. */
  const GridSize: int := 20
  /** Upper bounds on the drawing surface in pixels. */
  const MaxWidth: int := 600
  const MaxHeight: int := 400

  /** A grid cell `{x, y}`; the head of the snake, its segments and the food are cells. */
  datatype Cell = Cell(x: int, y: int)

  /** `c` lies on a grid of `tileCountX` by `tileCountY` cells. */
  predicate InGrid(c: Cell, tileCountX: int, tileCountY: int)
  {
    0 <= c.x < tileCountX && 0 <= c.y < tileCountY
  }

  function Min(a: int, b: int): (m: int)
    ensures m <= a && m <= b && (m == a || m == b)
  {
    if a <= b then a else b
  }

  function Max(a: int, b: int): (m: int)
    ensures m >= a && m >= b && (m == a || m == b)
  {
    if a >= b then a else b
  }

  /** JavaScript's `a % GridSize`: the remainder truncates toward zero and so
      takes the sign of the dividend. */
  function JsRemGrid(a: int): (r: int)
    ensures (a - r) % GridSize == 0
    ensures -GridSize < r < GridSize
    ensures a >= 0 ==> r >= 0
    ensures a <= 0 ==> r <= 0
  {
    if a >= 0 then a % GridSize else -((-a) % GridSize)
  }

  /** `v - v % GridSize` in JavaScript: `v` rounded toward zero to a whole
      number of cells. */
  function FloorToGrid(v: int): (r: int)
    ensures r % GridSize == 0
    ensures v >= 0 ==> 0 <= r <= v < r + GridSize
    ensures v < 0 ==> r - GridSize < v <= r <= 0
  {
    v - JsRemGrid(v)
  }

  /** Width in pixels that the canvas is given for a container of the given
      inner width (container width minus padding). */
  function CanvasWidth(containerWidth: int): (w: int)
    ensures w % GridSize == 0 && w <= MaxWidth
    ensures containerWidth >= 0 ==> 0 <= w <= containerWidth
    ensures containerWidth >= 0 ==> Min(containerWidth, MaxWidth) - w < GridSize
    ensures containerWidth >= MaxWidth ==> w == MaxWidth
    ensures containerWidth >= GridSize ==> w >= GridSize
  {
    FloorToGrid(Min(containerWidth, MaxWidth))
  }

  /** Height in pixels that the canvas is given: the fixed maximum, which is
      already a whole number of cells. */
  function CanvasHeight(): (h: int)
    ensures h == MaxHeight && h % GridSize == 0 && h / GridSize == 20
  {
    FloorToGrid(Min(MaxHeight, MaxHeight))
  }
}
