/** State images of the simulation: a grid of four-channel pixels
    (x, y, vx, vy), stored row-major and indexed [y][x], and the host-side
    construction of the initial grid that is uploaded into slot 0. */
module Pixels {

  /** One texel of an RGBA float texture, read as position and velocity.
      The source stores 32-bit floats; the model uses reals. */
  datatype Pixel = Pixel(x: real, y: real, vx: real, vy: real)

  /** A whole state image, row-major: img[y][x]. */
  type Image = seq<seq<Pixel>>

  /** The window and texture size. */
  const Width: nat := 600
  const Height: nat := 600

  /** The value every texel has after a clear (all channels zero). */
  const Blank: Pixel := Pixel(0.0, 0.0, 0.0, 0.0)

  /** img is a grid of exactly h rows of w pixels. */
  predicate Shaped(img: Image, w: nat, h: nat)
  {
    |img| == h && forall y :: 0 <= y < h ==> |img[y]| == w
  }

  /** Pixel (x, y) of img, as a readback of the whole texture gives it;
      Blank outside the grid. */
  function Sample(img: Image, x: int, y: int): (p: Pixel)
    ensures 0 <= y < |img| && 0 <= x < |img[y]| ==> p == img[y][x]
  {
    if 0 <= y < |img| && 0 <= x < |img[y]| then img[y][x] else Blank
  }

  /** The image a pass produces when the full-screen quad covers every
      pixel of a w-by-h target and the fragment program yields
      shade(x, y) at pixel (x, y). */
  function Rasterize(shade: (int, int) -> Pixel, w: nat, h: nat): (img: Image)
    ensures Shaped(img, w, h)
    ensures forall y, x :: 0 <= y < h && 0 <= x < w ==> img[y][x] == shade(x, y)
  {
    seq(h, y => seq(w, x => shade(x, y)))
  }

  /** A w-by-h image in which every pixel is Blank. */
  function Cleared(w: nat, h: nat): (img: Image)
    ensures Shaped(img, w, h)
    ensures forall y, x :: 0 <= y < h && 0 <= x < w ==> img[y][x] == Blank
  {
    Rasterize((x: int, y: int) => Blank, w, h)
  }

  /** The initial state of pixel (x, y): its coordinates mapped linearly
      into the plane, velocity (0, 1). Since x < w the position lies in
      [-1, 1), never reaching 1. */
  function InitialPixel(x: nat, y: nat, w: nat, h: nat): (p: Pixel)
    requires x < w && y < h
    ensures -1.0 <= p.x < 1.0 && -1.0 <= p.y < 1.0
    ensures p.vx == 0.0 && p.vy == 1.0
    ensures p.x * (w as real) == 2.0 * (x as real) - (w as real)
    ensures p.y * (h as real) == 2.0 * (y as real) - (h as real)
  {
    UnitInterval(x, w);
    UnitInterval(y, h);
    Pixel((x as real / w as real) * 2.0 - 1.0, (y as real / h as real) * 2.0 - 1.0, 0.0, 1.0)
  }

  /** For 0 <= n < d, the quotient n / d lies in [0, 1) and scales back to n. */
  lemma UnitInterval(n: nat, d: nat)
    requires n < d
    ensures 0.0 <= n as real / d as real < 1.0
    ensures (n as real / d as real) * (d as real) == n as real
  {
    var q := n as real / d as real;
    assert q * (d as real) == n as real;
  }

  /** The whole initial grid, the value uploaded into slot 0. */
  function InitialImage(w: nat, h: nat): (img: Image)
    ensures Shaped(img, w, h)
  {
    seq(h, (y: int) requires 0 <= y < h =>
      seq(w, (x: int) requires 0 <= x < w => InitialPixel(x, y, w, h)))
  }

  /** The contents of a host-side h-by-w array as an image. */
  function Grid(data: array2<Pixel>): (img: Image)
    reads data
    ensures Shaped(img, data.Length1, data.Length0)
    ensures forall y, x :: 0 <= y < data.Length0 && 0 <= x < data.Length1 ==> img[y][x] == data[y, x]
  {
    seq(data.Length0, (y: int) requires 0 <= y < data.Length0 reads data =>
      seq(data.Length1, (x: int) requires 0 <= x < data.Length1 reads data => data[y, x]))
  }

  /** Fills a zeroed h-by-w host array row by row with the initial state
      of every pixel. */
  method BuildInitialData(w: nat, h: nat) returns (data: array2<Pixel>)
    ensures fresh(data)
    ensures data.Length0 == h && data.Length1 == w
    ensures Grid(data) == InitialImage(w, h)
  {
    data := new Pixel[h, w]((y: nat, x: nat) => Blank);
    for y := 0 to h
      invariant forall j, i :: 0 <= j < y && 0 <= i < w ==> data[j, i] == InitialPixel(i, j, w, h)
    {
      for x := 0 to w
        invariant forall j, i :: 0 <= j < y && 0 <= i < w ==> data[j, i] == InitialPixel(i, j, w, h)
        invariant forall i :: 0 <= i < x ==> data[y, i] == InitialPixel(i, y, w, h)
      {
        data[y, x] := InitialPixel(x, y, w, h);
      }
    }
    forall j | 0 <= j < h
      ensures Grid(data)[j] == InitialImage(w, h)[j]
    {
      assert forall i :: 0 <= i < w ==> Grid(data)[j][i] == InitialImage(w, h)[j][i];
    }
  }

  /** Every pixel of the initial grid is the linear coordinate mapping. */
  lemma InitialImageAt(w: nat, h: nat, x: nat, y: nat)
    requires x < w && y < h
    ensures InitialImage(w, h)[y][x] == InitialPixel(x, y, w, h)
    ensures InitialImage(w, h)[y][x].vy == 1.0
  {
  }

  /** On a 2-by-2 grid the positions are -1 and 0: the mapping x/w*2-1
      never yields 1. */
  lemma InitialImageTwoByTwo()
    ensures InitialImage(2, 2) == [
      [Pixel(-1.0, -1.0, 0.0, 1.0), Pixel(0.0, -1.0, 0.0, 1.0)],
      [Pixel(-1.0, 0.0, 0.0, 1.0), Pixel(0.0, 0.0, 0.0, 1.0)]]
  {
    var img := InitialImage(2, 2);
    assert img[0][0] == InitialPixel(0, 0, 2, 2);
    assert img[0][1] == InitialPixel(1, 0, 2, 2);
    assert img[1][0] == InitialPixel(0, 1, 2, 2);
    assert img[1][1] == InitialPixel(1, 1, 2, 2);
    assert img[0] == [Pixel(-1.0, -1.0, 0.0, 1.0), Pixel(0.0, -1.0, 0.0, 1.0)];
    assert img[1] == [Pixel(-1.0, 0.0, 0.0, 1.0), Pixel(0.0, 0.0, 0.0, 1.0)];
  }

  /** On a 4-by-4 grid pixel (2, 1) starts at (0, -0.5) with velocity (0, 1). */
  lemma InitialImageFourByFour()
    ensures InitialImage(4, 4)[1][2] == Pixel(0.0, -0.5, 0.0, 1.0)
  {
    assert InitialImage(4, 4)[1][2] == InitialPixel(2, 1, 4, 4);
  }
}
