/**
 * The poster footer (app.py:57-64): a white canvas as wide as the rendered map
 * and 80 pixels taller, the map pasted at its top-left corner, and the event,
 * runner and duration lines drawn below it, each centred, 25 pixels apart.
 * The map raster is reduced to its size and text measurement is a parameter.
 */
module Footer {

  /** Extra canvas height below the map. */
  const FOOTER_HEIGHT: nat := 80
  /** Offset of the first caption line below the map. */
  const CAPTION_TOP: nat := 5
  /** Vertical distance between caption lines. */
  const LINE_SPACING: nat := 25

  /** A raster image, reduced to its size. */
  datatype Raster = Raster(width: nat, height: nat)

  /** An image pasted with its top-left corner at (x, y). */
  datatype Pasted = Pasted(image: Raster, x: int, y: int)

  /** A text drawn with its top-left corner at (x, y). */
  datatype Caption = Caption(text: string, x: real, y: int)

  /** The PIL image the footer is drawn on: its size, and what has been pasted and drawn on it. */
  class Canvas {
    const width: nat
    const height: nat
    var pasted: seq<Pasted>
    var captions: seq<Caption>

    /** A new white image of the given size. */
    constructor (width: nat, height: nat)
      ensures this.width == width && this.height == height
      ensures pasted == [] && captions == []
    {
      this.width := width;
      this.height := height;
      pasted := [];
      captions := [];
    }

    /** Pastes an image with its top-left corner at (x, y). */
    method Paste(image: Raster, x: int, y: int)
      modifies this
      ensures pasted == old(pasted) + [Pasted(image, x, y)]
      ensures captions == old(captions)
    {
      pasted := pasted + [Pasted(image, x, y)];
    }

    /** Draws a text with its top-left corner at (x, y). */
    method DrawText(x: real, y: int, text: string)
      modifies this
      ensures captions == old(captions) + [Caption(text, x, y)]
      ensures pasted == old(pasted)
    {
      captions := captions + [Caption(text, x, y)];
    }
  }

  /** Top edge of caption line i under a map of the given height. */
  function CaptionY(mapHeight: nat, i: nat): nat
  {
    mapHeight + CAPTION_TOP + LINE_SPACING * i
  }

  /** Caption lines start inside the footer band exactly for the first three lines. */
  lemma FooterHoldsThreeLines(mapHeight: nat, i: nat)
    ensures mapHeight <= CaptionY(mapHeight, i)
    ensures CaptionY(mapHeight, i) < mapHeight + FOOTER_HEIGHT <==> i < 3
  {
  }

  /**
   * Builds the poster canvas for a rendered map and the three caption lines;
   * `textWidth` is the width PIL measures for a text in the default font.
   */
  method ComposePoster(img: Raster, event: string, runner: string, duration: string,
                       textWidth: string -> nat)
    returns (canvas: Canvas)
    ensures fresh(canvas)
    ensures canvas.width == img.width && canvas.height == img.height + FOOTER_HEIGHT
    ensures canvas.pasted == [Pasted(img, 0, 0)]
    ensures |canvas.captions| == 3
    ensures canvas.captions[0].text == event
    ensures canvas.captions[1].text == runner
    ensures canvas.captions[2].text == duration
    ensures forall i :: 0 <= i < 3 ==>
              2.0 * canvas.captions[i].x + textWidth(canvas.captions[i].text) as real == canvas.width as real
    ensures forall i :: 0 <= i < 3 ==> canvas.captions[i].y == CaptionY(img.height, i)
    ensures forall i, j :: 0 <= i < j < 3 ==> canvas.captions[i].y < canvas.captions[j].y
    ensures forall i :: 0 <= i < 3 ==> img.height <= canvas.captions[i].y < canvas.height
  {
    canvas := new Canvas(img.width, img.height + FOOTER_HEIGHT);
    canvas.Paste(img, 0, 0);
    var lines := [event, runner, duration];
    for i := 0 to |lines|
      invariant canvas.width == img.width && canvas.height == img.height + FOOTER_HEIGHT
      invariant canvas.pasted == [Pasted(img, 0, 0)]
      invariant |canvas.captions| == i
      invariant forall k :: 0 <= k < i ==> canvas.captions[k].text == lines[k]
      invariant forall k :: 0 <= k < i ==>
                  2.0 * canvas.captions[k].x + textWidth(lines[k]) as real == canvas.width as real
      invariant forall k :: 0 <= k < i ==> canvas.captions[k].y == CaptionY(img.height, k)
    {
      var w := textWidth(lines[i]);
      var y := CaptionY(img.height, i);
      canvas.DrawText((canvas.width as real - w as real) / 2.0, y, lines[i]);
    }
  }
}
