/**
 * The part of System.Drawing that stitching and unstitching rely on, over an abstract pixel grid:
 * a transparent canvas (`new Bitmap(w, h)` followed by `Clear(Color.Transparent)`), drawing a
 * sprite at a corner (`Graphics.DrawImage`), and cutting a rectangle out (`Bitmap.Clone`).
 */
module AtlasImage {
  import opened AtlasRecords

  /** A 32-bit ARGB colour. */
  type Pixel = bv32

  /** Color.Transparent: alpha 0 over white. */
  const Transparent: Pixel := 0x00FF_FFFF

  /** A bitmap: its size and its rows of pixels, top row first. */
  datatype Bitmap = Bitmap(width: int, height: int, pixels: seq<seq<Pixel>>)

  /** A bitmap GDI+ can hold: a positive size and rows of exactly that size. */
  predicate WellFormed(b: Bitmap)
  {
    && b.width > 0 && b.height > 0
    && |b.pixels| == b.height
    && forall row :: 0 <= row < |b.pixels| ==> |b.pixels[row]| == b.width
  }

  /** A fresh canvas of the given size cleared to Transparent. */
  function Blank(width: int, height: int): (b: Bitmap)
    requires width > 0 && height > 0
    ensures WellFormed(b) && b.width == width && b.height == height
    ensures forall row, col :: 0 <= row < height && 0 <= col < width ==> b.pixels[row][col] == Transparent
  {
    Bitmap(width, height, seq(height, _ => seq(width, _ => Transparent)))
  }

  /** Whether the pixel (row, col) lies in the w x h area whose top-left corner is (x, y). */
  predicate Covers(x: int, y: int, w: int, h: int, row: int, col: int)
  {
    y <= row < y + h && x <= col < x + w
  }

  /**
   * DrawImage of img with its top-left corner at (x, y), at its own size: pixels under the image
   * take the image's colour, the others keep the canvas's, and whatever falls outside the canvas
   * is clipped.
   */
  function Draw(canvas: Bitmap, img: Bitmap, x: int, y: int): (r: Bitmap)
    requires WellFormed(canvas) && WellFormed(img)
    ensures WellFormed(r) && r.width == canvas.width && r.height == canvas.height
  {
    Bitmap(canvas.width, canvas.height,
      seq(canvas.height, row requires 0 <= row < canvas.height =>
        seq(canvas.width, col requires 0 <= col < canvas.width =>
          if Covers(x, y, img.width, img.height, row, col) then img.pixels[row - y][col - x]
          else canvas.pixels[row][col])))
  }

  /** The colour Draw leaves at one pixel. */
  lemma DrawAt(canvas: Bitmap, img: Bitmap, x: int, y: int, row: int, col: int)
    requires WellFormed(canvas) && WellFormed(img)
    requires 0 <= row < canvas.height && 0 <= col < canvas.width
    ensures Draw(canvas, img, x, y).pixels[row][col]
         == if Covers(x, y, img.width, img.height, row, col) then img.pixels[row - y][col - x]
            else canvas.pixels[row][col]
  {
  }

  /** The rectangles Clone accepts: non-empty and inside the bitmap. Any other makes it throw. */
  predicate FitsIn(b: Bitmap, rect: Rectangle)
  {
    0 <= rect.x && 0 <= rect.y && 0 < rect.width && 0 < rect.height
    && rect.x + rect.width <= b.width && rect.y + rect.height <= b.height
  }

  /** Bitmap.Clone(rect): a new bitmap holding the pixels of rect. */
  function Crop(b: Bitmap, rect: Rectangle): (r: Bitmap)
    requires WellFormed(b) && FitsIn(b, rect)
    ensures WellFormed(r) && r.width == rect.width && r.height == rect.height
  {
    Bitmap(rect.width, rect.height,
      seq(rect.height, row requires 0 <= row < rect.height =>
        seq(rect.width, col requires 0 <= col < rect.width => b.pixels[rect.y + row][rect.x + col])))
  }

  /** The colour Crop takes from the source at one pixel. */
  lemma CropAt(b: Bitmap, rect: Rectangle, row: int, col: int)
    requires WellFormed(b) && FitsIn(b, rect)
    requires 0 <= row < rect.height && 0 <= col < rect.width
    ensures Crop(b, rect).pixels[row][col] == b.pixels[rect.y + row][rect.x + col]
  {
  }

  /** Two bitmaps with the same size and the same colour at every pixel are equal. */
  lemma SamePixels(a: Bitmap, b: Bitmap)
    requires WellFormed(a) && WellFormed(b) && a.width == b.width && a.height == b.height
    requires forall row, col :: 0 <= row < a.height && 0 <= col < a.width ==> a.pixels[row][col] == b.pixels[row][col]
    ensures a == b
  {
    forall row | 0 <= row < a.height
      ensures a.pixels[row] == b.pixels[row]
    {
      assert forall col :: 0 <= col < a.width ==> a.pixels[row][col] == b.pixels[row][col];
    }
  }

  /** The area an image drawn at (x, y) covers, as a rectangle. */
  function Footprint(img: Bitmap, x: int, y: int): (rect: Rectangle)
    ensures rect.width == img.width && rect.height == img.height
  {
    Rectangle(x, y, img.width, img.height)
  }

  /** Two rectangles that share no pixel. */
  predicate Disjoint(a: Rectangle, b: Rectangle)
  {
    a.x + a.width <= b.x || b.x + b.width <= a.x || a.y + a.height <= b.y || b.y + b.height <= a.y
  }

  /** Cutting out exactly the area an image was drawn into gives that image back. */
  lemma CropOfDraw(canvas: Bitmap, img: Bitmap, x: int, y: int)
    requires WellFormed(canvas) && WellFormed(img)
    requires FitsIn(canvas, Footprint(img, x, y))
    ensures Crop(Draw(canvas, img, x, y), Footprint(img, x, y)) == img
  {
    var rect := Footprint(img, x, y);
    var r := Crop(Draw(canvas, img, x, y), rect);
    forall row, col | 0 <= row < img.height && 0 <= col < img.width
      ensures r.pixels[row][col] == img.pixels[row][col]
    {
      CropAt(Draw(canvas, img, x, y), rect, row, col);
      DrawAt(canvas, img, x, y, y + row, x + col);
    }
    SamePixels(r, img);
  }

  /** Drawing an image does not change what a rectangle disjoint from it cuts out. */
  lemma CropBesideDraw(canvas: Bitmap, img: Bitmap, x: int, y: int, rect: Rectangle)
    requires WellFormed(canvas) && WellFormed(img)
    requires FitsIn(canvas, rect) && Disjoint(rect, Footprint(img, x, y))
    ensures Crop(Draw(canvas, img, x, y), rect) == Crop(canvas, rect)
  {
    var a := Crop(Draw(canvas, img, x, y), rect);
    var b := Crop(canvas, rect);
    forall row, col | 0 <= row < rect.height && 0 <= col < rect.width
      ensures a.pixels[row][col] == b.pixels[row][col]
    {
      CropAt(Draw(canvas, img, x, y), rect, row, col);
      CropAt(canvas, rect, row, col);
      DrawAt(canvas, img, x, y, rect.y + row, rect.x + col);
    }
    SamePixels(a, b);
  }

  /** One DrawImage call of the compositing loop: an image and the corner it is drawn at. */
  datatype Layer = Layer(image: Bitmap, x: int, y: int)

  predicate LayersWellFormed(layers: seq<Layer>)
  {
    forall i :: 0 <= i < |layers| ==> WellFormed(layers[i].image)
  }

  /** The canvas after the layers are drawn in order, later ones over earlier ones. */
  function Composite(canvas: Bitmap, layers: seq<Layer>): (r: Bitmap)
    requires WellFormed(canvas) && LayersWellFormed(layers)
    ensures WellFormed(r) && r.width == canvas.width && r.height == canvas.height
  {
    if |layers| == 0 then canvas
    else
      var last := layers[|layers| - 1];
      Draw(Composite(canvas, layers[..|layers| - 1]), last.image, last.x, last.y)
  }

  /**
   * The compositing round trip: a layer inside the canvas that no later layer overlaps is cut out
   * of the composite unchanged.
   */
  lemma {:induction false} CompositeCrop(canvas: Bitmap, layers: seq<Layer>, j: nat)
    requires WellFormed(canvas) && LayersWellFormed(layers) && j < |layers|
    requires FitsIn(canvas, Footprint(layers[j].image, layers[j].x, layers[j].y))
    requires forall i :: j < i < |layers| ==>
               Disjoint(Footprint(layers[j].image, layers[j].x, layers[j].y),
                        Footprint(layers[i].image, layers[i].x, layers[i].y))
    ensures Crop(Composite(canvas, layers), Footprint(layers[j].image, layers[j].x, layers[j].y)) == layers[j].image
  {
    var n := |layers|;
    var front := layers[..n - 1];
    var last := layers[n - 1];
    var rect := Footprint(layers[j].image, layers[j].x, layers[j].y);
    assert LayersWellFormed(front);
    if j == n - 1 {
      CropOfDraw(Composite(canvas, front), last.image, last.x, last.y);
    } else {
      assert front[j] == layers[j];
      CompositeCrop(canvas, front, j);
      CropBesideDraw(Composite(canvas, front), last.image, last.x, last.y, rect);
    }
  }
}
