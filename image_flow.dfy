/**
  The image flow of the page's image `load` handler. The picture is drawn
  on a 459 by 459 canvas and its RGBA pixel data is sampled every
  `detail` = 5 pixels in both directions into a grid of cells, each cell
  holding the colour of its sampled pixel and that pixel's brightness. Then
  3000 particles rise through the picture: on every update a particle
  looks up the cell under it, takes its speed from the cell's brightness
  and, when drawn, its fill from the cell's colour, and when it reaches
  the top edge it starts again from the bottom edge.

  The pixel data is an input (what `getImageData` returns); `Math.sqrt`
  and `Math.cos` are function parameters and `Math.random()` values are
  parameters or come from `Helpers.MathRandom`.
*/
module ImageFlow {
  import opened Helpers
  import Entities

  const Detail: nat := 5
  const CanvasSide: nat := 459
  const NumberOfParticles: nat := 3000

  /** The colour string `'rgb(red,green,blue)'` of a cell, as its three channels. */
  datatype Rgb = Rgb(red: int, green: int, blue: int)

  /** A grid cell `[color, brightness]`. */
  datatype Cell = Cell(color: Rgb, brightness: real)

  /** The fill style a grid particle is drawn with. */
  datatype Fill = Color(rgb: Rgb) | Black | White

  /**
    The number of positions 0, 5, 10, ... below `n`: the iterations of a
    `for (let v = 0; v < n; v += detail)` loop.
  */
  function Samples(n: nat): (c: nat)
    ensures Detail * c >= n
    ensures c > 0 ==> Detail * (c - 1) < n
  {
    (n + Detail - 1) / Detail
  }

  /** The offset of the red byte of pixel (x, y) in RGBA data that is `width` pixels wide. */
  function PixelIndex(x: nat, y: nat, width: nat): nat
  {
    y * 4 * width + x * 4
  }

  /** Every byte of every pixel of a `width` by `height` picture lies inside its RGBA data. */
  lemma PixelInBounds(x: nat, y: nat, width: nat, height: nat)
    requires x < width && y < height
    ensures PixelIndex(x, y, width) + 3 < 4 * width * height
  {
    MulAtMost(y, height - 1, 4 * width);
    assert (height - 1) * (4 * width) == 4 * width * height - 4 * width;
  }

  lemma MulAtMost(a: nat, b: nat, c: nat)
    requires a <= b
    ensures a * c <= b * c
  {
    assert b * c == a * c + (b - a) * c;
  }

  /** The colour of pixel (x, y) of a `width` by `height` picture. */
  function PixelColor(data: seq<int>, width: nat, height: nat, x: nat, y: nat): Rgb
    requires |data| == 4 * width * height && x < width && y < height
  {
    PixelInBounds(x, y, width, height);
    var i := PixelIndex(x, y, width);
    Rgb(data[i], data[i + 1], data[i + 2])
  }

  /** `calculateBrightness(red, green, blue) / 100`, where `sqrt` is `Math.sqrt`. */
  function Brightness(c: Rgb, sqrt: real -> real): real
  {
    sqrt((c.red * c.red) as real * 0.299 + (c.green * c.green) as real * 0.587 +
         (c.blue * c.blue) as real * 0.114) / 100.0
  }

  /**
    The three weights of `calculateBrightness` sum to 1, so a grey pixel
    with all three channels equal to `v` has brightness sqrt(v * v) / 100.
  */
  lemma GreyBrightness(v: int, sqrt: real -> real)
    ensures Brightness(Rgb(v, v, v), sqrt) == sqrt((v * v) as real) / 100.0
  {
    var q := (v * v) as real;
    assert q * 0.299 + q * 0.587 + q * 0.114 == q;
  }

  /** The cell sampled at pixel (x, y). */
  function Sample(data: seq<int>, width: nat, height: nat, x: nat, y: nat, sqrt: real -> real): Cell
    requires |data| == 4 * width * height && x < width && y < height
  {
    var c := PixelColor(data, width, height, x, y);
    Cell(c, Brightness(c, sqrt))
  }

  /** `row` is the row of cells sampled along pixel row `y`. */
  ghost predicate IsRow(row: seq<Cell>, data: seq<int>, width: nat, height: nat, y: nat, sqrt: real -> real)
  {
    |data| == 4 * width * height && y < height &&
    |row| == Samples(width) &&
    forall k :: 0 <= k < |row| ==> Detail * k < width && row[k] == Sample(data, width, height, Detail * k, y, sqrt)
  }

  /** `grid` is the grid sampled from a `width` by `height` picture: cell [r][k] is pixel (5k, 5r). */
  ghost predicate IsGrid(grid: seq<seq<Cell>>, data: seq<int>, width: nat, height: nat, sqrt: real -> real)
  {
    |grid| == Samples(height) &&
    forall r :: 0 <= r < |grid| ==> IsRow(grid[r], data, width, height, Detail * r, sqrt)
  }

  /**
    The grid-building loops of the load handler: for each pixel row
    y = 0, 5, 10, ... a row of cells, pushed in order.
  */
  method BuildGrid(data: seq<int>, width: nat, height: nat, sqrt: real -> real) returns (grid: seq<seq<Cell>>)
    requires |data| == 4 * width * height
    ensures IsGrid(grid, data, width, height, sqrt)
  {
    grid := [];
    var y := 0;
    while y < height
      invariant y == Detail * |grid| && |grid| <= Samples(height)
      invariant forall r :: 0 <= r < |grid| ==> IsRow(grid[r], data, width, height, Detail * r, sqrt)
    {
      var row := SampleRow(data, width, height, y, sqrt);
      grid := grid + [row];
      y := y + Detail;
    }
  }

  /**
    The inner loop: for each pixel column x = 0, 5, 10, ... of pixel row
    `y`, the cell of pixel (x, y), read from offsets
    `(y * 4 * width) + (x * 4) + c` for c = 0, 1, 2.
  */
  method SampleRow(data: seq<int>, width: nat, height: nat, y: nat, sqrt: real -> real) returns (row: seq<Cell>)
    requires |data| == 4 * width * height && y < height
    ensures IsRow(row, data, width, height, y, sqrt)
  {
    row := [];
    var x := 0;
    while x < width
      invariant x == Detail * |row| && |row| <= Samples(width)
      invariant forall k :: 0 <= k < |row| ==>
                  Detail * k < width && row[k] == Sample(data, width, height, Detail * k, y, sqrt)
    {
      PixelInBounds(x, y, width, height);
      var red := data[PixelIndex(x, y, width)];
      var green := data[PixelIndex(x, y, width) + 1];
      var blue := data[PixelIndex(x, y, width) + 2];
      var color := Rgb(red, green, blue);
      row := row + [Cell(color, Brightness(color, sqrt))];
      x := x + Detail;
    }
  }

  /** The sampled grid of the 459 by 459 canvas has 92 rows of 92 cells. */
  lemma CanvasGridSize(grid: seq<seq<Cell>>, data: seq<int>, sqrt: real -> real)
    requires IsGrid(grid, data, CanvasSide, CanvasSide, sqrt)
    ensures |grid| == 92 && forall r :: 0 <= r < |grid| ==> |grid[r]| == 92
  {
    assert Samples(CanvasSide) == 92;
  }

  /** `grid[p1]` is defined: an index outside the rows yields `undefined`. */
  predicate HasRow(grid: seq<seq<Cell>>, p1: int)
  {
    0 <= p1 < |grid|
  }

  /** `grid[p1][p2]` is defined. */
  predicate HasCell(grid: seq<seq<Cell>>, p1: int, p2: int)
  {
    HasRow(grid, p1) && 0 <= p2 < |grid[p1]|
  }

  /** The speed lookup of `update`: the cell's brightness if there is a cell, else `speed` unchanged. */
  function SpeedAt(grid: seq<seq<Cell>>, p1: int, p2: int, speed: real): real
  {
    if HasCell(grid, p1, p2) then grid[p1][p2].brightness else speed
  }

  /**
    The fill lookup of `draw`: the cell's colour if there is a cell, black
    if the row exists but the column does not, white if the row is missing.
  */
  function FillAt(grid: seq<seq<Cell>>, p1: int, p2: int): Fill
  {
    if HasRow(grid, p1) then
      if HasCell(grid, p1, p2) then Color(grid[p1][p2].color) else Black
    else
      White
  }

  /** `Math.floor(v / detail)`: the index of the 5-pixel band that `v` lies in. */
  function CellIndex(v: real): (i: int)
    ensures (Detail * i) as real <= v < (Detail * i + Detail) as real
  {
    (v / Detail as real).Floor
  }

  /**
    A point of the canvas plane looks up the cell of the 5 by 5 block it
    lies in: on the sampled grid of the canvas, its fill is the colour of
    pixel (5 floor(x/5), 5 floor(y/5)) while both coordinates are in
    [0, 460), black when only the row is there and white when it is not,
    and its speed lookup finds that pixel's brightness exactly when there
    is a cell.
  */
  lemma LookupByBlock(grid: seq<seq<Cell>>, data: seq<int>, sqrt: real -> real,
                                         x: real, y: real, speed: real)
    requires IsGrid(grid, data, CanvasSide, CanvasSide, sqrt)
    ensures var p1, p2 := CellIndex(y), CellIndex(x);
            (HasCell(grid, p1, p2) <==> 0.0 <= x < 460.0 && 0.0 <= y < 460.0) &&
            (HasRow(grid, p1) <==> 0.0 <= y < 460.0) &&
            (HasCell(grid, p1, p2) ==>
               Detail * p2 < CanvasSide && Detail * p1 < CanvasSide &&
               (Detail * p2) as real <= x < (Detail * p2 + Detail) as real &&
               (Detail * p1) as real <= y < (Detail * p1 + Detail) as real &&
               FillAt(grid, p1, p2) == Color(PixelColor(data, CanvasSide, CanvasSide, Detail * p2, Detail * p1)) &&
               SpeedAt(grid, p1, p2, speed) ==
                 Sample(data, CanvasSide, CanvasSide, Detail * p2, Detail * p1, sqrt).brightness) &&
            (!HasCell(grid, p1, p2) ==> SpeedAt(grid, p1, p2, speed) == speed) &&
            (HasRow(grid, p1) && !HasCell(grid, p1, p2) ==> FillAt(grid, p1, p2) == Black) &&
            (!HasRow(grid, p1) ==> FillAt(grid, p1, p2) == White)
  {
    CanvasGridSize(grid, data, sqrt);
    var p1, p2 := CellIndex(y), CellIndex(x);
    if HasCell(grid, p1, p2) {
      assert IsRow(grid[p1], data, CanvasSide, CanvasSide, Detail * p1, sqrt);
    }
  }

  /** The fields of a grid particle (the `Particle` class of the load handler) as a value. */
  datatype GridParticleState = GridParticleState(
    x: real, y: real, speed: real, velocity: real, size: real,
    position1: int, position2: int, angle: real)

  /** The state the grid particle constructor creates: at the bottom edge, at rest on the grid. */
  predicate Released(d: GridParticleState)
  {
    0.0 <= d.x < CanvasSide as real && d.y == CanvasSide as real &&
    d.speed == 0.7 && 0.0 <= d.velocity < 0.4 && 0.5 <= d.size < 2.5 &&
    d.position1 == CellIndex(d.y) && d.position2 == CellIndex(d.x) && d.angle == 0.0
  }

  /**
    One `update` of a grid particle on `grid`, with `cos` for `Math.cos` and
    `u` the `Math.random()` value a restart uses: look up the cell under
    the particle, take its speed from it if there is one, turn, rise by
    `(6 - speed) + velocity + 2 cos(angle)`, drift sideways by
    `2 cos(angle)`, and restart from the bottom edge at a random column
    once at or above the top edge.
  */
  function GridParticleStep(d: GridParticleState, grid: seq<seq<Cell>>, cos: real -> real, u: real): (r: GridParticleState)
    requires 0.0 <= u < 1.0
    ensures r.position1 == CellIndex(d.y) && r.position2 == CellIndex(d.x)
    ensures HasCell(grid, r.position1, r.position2) ==> r.speed == grid[r.position1][r.position2].brightness
    ensures !HasCell(grid, r.position1, r.position2) ==> r.speed == d.speed
    ensures r.angle == d.angle + r.speed / 10.0
    ensures r.velocity == d.velocity && r.size == d.size
    ensures r.y > 0.0
    ensures var rise := (6.0 - r.speed) + d.velocity + 2.0 * cos(r.angle);
            if d.y - rise <= 0.0 then r.y == CanvasSide as real && 0.0 <= r.x < CanvasSide as real
            else r.y == d.y - rise && r.x == d.x + 2.0 * cos(r.angle)
  {
    var p1, p2 := CellIndex(d.y), CellIndex(d.x);
    var speed := SpeedAt(grid, p1, p2, d.speed);
    var angle := d.angle + speed / 10.0;
    var movement := (6.0 - speed) + d.velocity;
    var y := d.y - (movement + cos(angle) * 2.0);
    var x := d.x + cos(angle) * 2.0;
    if y <= 0.0 then
      d.(position1 := p1, position2 := p2, speed := speed, angle := angle,
         y := CanvasSide as real, x := Scaled(u, CanvasSide as real))
    else
      d.(position1 := p1, position2 := p2, speed := speed, angle := angle, y := y, x := x)
  }

  /**
    `draw` follows `update` and looks up the cell indices that `update`
    stored before it moved the particle: the particle is drawn with the
    fill of the block it stood in before the move, black when only that
    block's row is on the grid, and white when the row is not.
  */
  lemma FillAfterUpdate(d: GridParticleState, grid: seq<seq<Cell>>, data: seq<int>, sqrt: real -> real,
                        cos: real -> real, u: real)
    requires IsGrid(grid, data, CanvasSide, CanvasSide, sqrt) && 0.0 <= u < 1.0
    ensures var r := GridParticleStep(d, grid, cos, u);
            FillAt(grid, r.position1, r.position2) ==
              if 0.0 <= d.x < 460.0 && 0.0 <= d.y < 460.0 then
                Color(PixelColor(data, CanvasSide, CanvasSide, Detail * CellIndex(d.x), Detail * CellIndex(d.y)))
              else if 0.0 <= d.y < 460.0 then Black
              else White
  {
    LookupByBlock(grid, data, sqrt, d.x, d.y, d.speed);
  }

  /** A grid particle of the image flow. */
  class GridParticle {
    var x: real
    var y: real
    var speed: real
    const velocity: real
    const size: real
    var position1: int
    var position2: int
    var angle: real

    ghost function Snapshot(): GridParticleState
      reads this
    {
      GridParticleState(x, y, speed, velocity, size, position1, position2, angle)
    }

    /** `new Particle()`: a random column on the bottom edge, a random rise and size. */
    constructor ()
      ensures Released(Snapshot())
    {
      var u := MathRandom();
      var v := MathRandom();
      var w := MathRandom();
      x := Scaled(u, CanvasSide as real);
      y := CanvasSide as real;
      speed := 0.7;
      velocity := Scaled(v, 0.4);
      size := Scaled(w, 2.0) + 0.5;
      position1 := CellIndex(CanvasSide as real);
      position2 := CellIndex(Scaled(u, CanvasSide as real));
      angle := 0.0;
    }

    /** `update()`, with `cos` for `Math.cos` and `u` the `Math.random()` value a restart uses. */
    method Update(grid: seq<seq<Cell>>, cos: real -> real, u: real)
      requires 0.0 <= u < 1.0
      modifies this
      ensures Snapshot() == GridParticleStep(old(Snapshot()), grid, cos, u)
    {
      position1 := CellIndex(y);
      position2 := CellIndex(x);
      if HasRow(grid, position1) {
        if HasCell(grid, position1, position2) {
          speed := grid[position1][position2].brightness;
        }
      }
      angle := angle + speed / 10.0;
      var movement := (6.0 - speed) + velocity;
      y := y - (movement + cos(angle) * 2.0);
      x := x + cos(angle) * 2.0;
      if y <= 0.0 {
        y := CanvasSide as real;
        x := Scaled(u, CanvasSide as real);
      }
    }

    /** The fill `draw()` uses: the lookup at the cell position of the latest update. */
    function FillStyle(grid: seq<seq<Cell>>): Fill
      reads this
    {
      FillAt(grid, position1, position2)
    }
  }

  ghost function GridParticleSnapshots(ps: seq<GridParticle>): (r: seq<GridParticleState>)
    reads set p | p in ps
    ensures |r| == |ps|
    ensures forall k :: 0 <= k < |ps| ==> r[k] == ps[k].Snapshot()
  {
    if ps == [] then [] else [ps[0].Snapshot()] + GridParticleSnapshots(ps[1..])
  }

  /** The image flow: the sampled grid and the particles rising through it. */
  class Flow {
    const grid: seq<seq<Cell>>
    var particles: seq<GridParticle>

    ghost predicate Valid()
      reads this
    {
      Entities.Distinct(particles)
    }

    /**
      The load handler: sample the canvas-sized picture `data` into the
      grid, then `init()` pushes 3000 fresh particles.
    */
    constructor (data: seq<int>, sqrt: real -> real)
      requires |data| == 4 * CanvasSide * CanvasSide
      ensures Valid()
      ensures IsGrid(grid, data, CanvasSide, CanvasSide, sqrt)
      ensures |particles| == NumberOfParticles
      ensures forall k :: 0 <= k < |particles| ==> fresh(particles[k]) && Released(particles[k].Snapshot())
    {
      var sampled := BuildGrid(data, CanvasSide, CanvasSide, sqrt);
      grid := sampled;
      particles := [];
      new;
      var i := 0;
      while i < NumberOfParticles
        invariant 0 <= i <= NumberOfParticles && |particles| == i
        invariant Valid()
        invariant forall k :: 0 <= k < i ==> fresh(particles[k]) && Released(particles[k].Snapshot())
      {
        var p := new GridParticle();
        particles := particles + [p];
        i := i + 1;
      }
    }

    /**
      The particles of an `animate()` frame once the first `i` have been
      updated: `P0` are the particles, `S0` their states at the start of
      the frame and `us` the `Math.random()` values of their restarts.
    */
    ghost predicate AnimatePass(P0: seq<GridParticle>, S0: seq<GridParticleState>, cos: real -> real, us: seq<real>, i: nat)
      reads this, set p | p in P0
    {
      particles == P0 && Valid() &&
      |S0| == |P0| == |us| && i <= |P0| &&
      (forall k :: 0 <= k < |us| ==> 0.0 <= us[k] < 1.0) &&
      (forall k :: 0 <= k < i ==> P0[k].Snapshot() == GridParticleStep(S0[k], grid, cos, us[k])) &&
      (forall k :: i <= k < |P0| ==> P0[k].Snapshot() == S0[k])
    }

    /** One iteration of `animate()`'s loop: update particle `i`. */
    method AnimateStep(ghost P0: seq<GridParticle>, ghost S0: seq<GridParticleState>, cos: real -> real, us: seq<real>, i: nat)
      requires AnimatePass(P0, S0, cos, us, i) && i < |P0|
      modifies P0[i]
      ensures AnimatePass(P0, S0, cos, us, i + 1)
    {
      label Visit:
      particles[i].Update(grid, cos, us[i]);
      forall k | 0 <= k < |P0| && k != i
        ensures P0[k].Snapshot() == old@Visit(P0[k].Snapshot())
      {
        assert P0[k] != P0[i];
      }
    }

    /**
      `animate()`, drawing aside: update every particle once, in order, the
      k-th restarting (if it does) at column `us[k]` of the width.
    */
    method Animate(cos: real -> real, us: seq<real>)
      requires Valid() && |us| == |particles|
      requires forall k :: 0 <= k < |us| ==> 0.0 <= us[k] < 1.0
      modifies set p | p in particles
      ensures Valid()
      ensures forall k :: 0 <= k < |particles| ==>
                particles[k].Snapshot() == GridParticleStep(old(particles[k].Snapshot()), grid, cos, us[k]) &&
                particles[k].y > 0.0
    {
      ghost var P0 := particles;
      ghost var S0 := GridParticleSnapshots(particles);
      var i := 0;
      while i < |particles|
        invariant AnimatePass(P0, S0, cos, us, i)
      {
        AnimateStep(P0, S0, cos, us, i);
        i := i + 1;
      }
    }
  }
}
