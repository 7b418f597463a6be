/** The pixel buffer of the report images: filled rectangles and text, both clipped to the canvas. */
module Raster {
  import opened Options
  import opened Png

  datatype Colour = Colour(red: Byte, green: Byte, blue: Byte)

  /** The drawn cells of one character, row by row. */
  type Glyph = seq<seq<bool>>

  const GLYPH_WIDTH := 5

  /** The pixels of a rectangle; none when an extent is negative. */
  predicate Inside(x: int, y: int, width: int, height: int, px: int, py: int) {
    x <= px < x + width && y <= py < y + height
  }

  /** Some drawn cell among the first n of a glyph row lies over the pixel. */
  ghost predicate RowCovers(bits: seq<bool>, n: nat, x: int, y: int, scale: int, px: int, py: int)
    requires n <= |bits|
  {
    exists column :: 0 <= column < n && bits[column] && Inside(x + column * scale, y, scale, scale, px, py)
  }

  ghost predicate GlyphCovers(glyph: Glyph, n: nat, x: int, y: int, scale: int, px: int, py: int)
    requires n <= |glyph|
  {
    exists row :: 0 <= row < n && RowCovers(glyph[row], |glyph[row]|, x, y + row * scale, scale, px, py)
  }

  /** The glyph for a character: its own entry, else that of its upper-case form. */
  function GlyphOf(font: map<string, Glyph>, upper: char -> string, character: char): (glyph: Glyph)
    ensures [character] in font && font[[character]] != [] ==> glyph == font[[character]]
    ensures [character] !in font && upper(character) in font ==> glyph == font[upper(character)]
    ensures [character] !in font && upper(character) !in font ==> glyph == []
  {
    if [character] in font && font[[character]] != [] then font[[character]]
    else if upper(character) in font then font[upper(character)]
    else []
  }

  function Advance(count: nat, scale: int): int {
    count * (GLYPH_WIDTH + 1) * scale
  }

  function TextWidth(message: string, scale: int): (width: int)
    ensures width == 6 * scale * |message|
  {
    AdvanceMeans(|message|, scale);
    Advance(|message|, scale)
  }

  /** A character is five cells wide, with one between it and the next. */
  lemma AdvanceMeans(count: nat, scale: int)
    ensures Advance(count, scale) == 6 * scale * count
  {
  }

  lemma AdvanceOne(count: nat, scale: int)
    ensures Advance(count + 1, scale) == Advance(count, scale) + (GLYPH_WIDTH + 1) * scale
  {
  }

  /** Some drawn cell of the first n characters lies over the pixel. */
  ghost predicate TextCovers(font: map<string, Glyph>, upper: char -> string, message: string, n: nat,
                             x: int, y: int, scale: int, px: int, py: int)
    requires n <= |message|
  {
    exists k :: 0 <= k < n &&
      var glyph := GlyphOf(font, upper, message[k]);
      GlyphCovers(glyph, |glyph|, x + 6 * scale * k, y, scale, px, py)
  }

  // ----- where a pixel lives in the buffer -----

  lemma IndexFits(width: nat, height: nat, x: int, y: int)
    requires 0 <= x < width && 0 <= y < height
    ensures 0 <= y * width + x < width * height
  {
    assert (y + 1) * width <= height * width;
  }

  /** A run of pixels within one row meets exactly the pixels of that row and those columns. */
  lemma RunMeets(width: nat, x: int, y: int, row: int, left: int, span: int)
    requires 0 <= x < width && 0 <= left && left + span <= width
    ensures row * width + left <= y * width + x < row * width + left + span <==> y == row && left <= x < left + span
  {
    if y < row {
      assert (y + 1) * width <= row * width;
    } else if row < y {
      assert (row + 1) * width <= y * width;
    }
  }

  class Canvas {
    const width: nat
    const height: nat
    const pixels: array<Byte>

    ghost predicate Valid() {
      0 < width && 0 < height && pixels.Length == 3 * (width * height)
    }

    ghost function ColourAt(p: nat): Colour
      reads pixels
      requires 3 * p + 2 < pixels.Length
    {
      Colour(pixels[3 * p], pixels[3 * p + 1], pixels[3 * p + 2])
    }

    ghost function Pixel(x: int, y: int): Colour
      reads pixels
      requires Valid() && 0 <= x < width && 0 <= y < height
    {
      IndexFits(width, height, x, y);
      ColourAt(y * width + x)
    }

    constructor (width: nat, height: nat, background: Colour)
      requires 0 < width && 0 < height
      ensures Valid() && fresh(pixels) && this.width == width && this.height == height
      ensures forall x, y :: 0 <= x < width && 0 <= y < height ==> Pixel(x, y) == background
    {
      this.width, this.height := width, height;
      pixels := new Byte[3 * (width * height)];
      new;
      FillRun(0, width * height, background);
      forall x, y | 0 <= x < width && 0 <= y < height ensures Pixel(x, y) == background {
        IndexFits(width, height, x, y);
      }
    }

    /** Dimensions that are not positive are an error. */
    static method Create(width: int, height: int, background: Colour) returns (canvas: Option<Canvas>)
      ensures canvas.None? <==> width <= 0 || height <= 0
      ensures canvas.Some? ==>
                var c := canvas.value;
                && c.Valid() && fresh(c) && fresh(c.pixels) && c.width == width && c.height == height
                && forall x, y :: 0 <= x < width && 0 <= y < height ==> c.Pixel(x, y) == background
    {
      if width <= 0 || height <= 0 { return None; }
      var c := new Canvas(width, height, background);
      return Some(c);
    }

    /** Overwrites the bytes of `count` consecutive pixels. */
    method FillRun(start: nat, count: nat, colour: Colour)
      requires Valid() && start + count <= width * height
      modifies pixels
      ensures forall p :: 0 <= p < width * height ==>
                ColourAt(p) == if start <= p < start + count then colour else old(ColourAt(p))
    {
      for p := start to start + count
        invariant forall q :: 0 <= q < width * height ==>
                    ColourAt(q) == if start <= q < p then colour else old(ColourAt(q))
      {
        pixels[3 * p] := colour.red;
        pixels[3 * p + 1] := colour.green;
        pixels[3 * p + 2] := colour.blue;
      }
    }

    /** Recolours exactly the pixels of the canvas that the rectangle contains. */
    method Rect(x: int, y: int, width: int, height: int, colour: Colour)
      requires Valid()
      modifies pixels
      ensures forall px, py :: 0 <= px < this.width && 0 <= py < this.height ==>
                Pixel(px, py) == if Inside(x, y, width, height, px, py) then colour else old(Pixel(px, py))
    {
      var top, bottom := Max(0, y), Min(this.height, y + Max(0, height));
      var row := top;
      while row < bottom
        invariant top <= row && (row <= bottom || bottom < top == row)
        invariant forall px, py :: 0 <= px < this.width && 0 <= py < this.height ==>
                    Pixel(px, py) == if Inside(x, y, width, height, px, py) && py < row then colour
                                     else old(Pixel(px, py))
      {
        var left := Max(0, x);
        var span := Min(this.width, x + Max(0, width)) - left;
        if span > 0 {
          RunFits(row, left, span);
          FillRun(row * this.width + left, span, colour);
        }
        forall px, py | 0 <= px < this.width && 0 <= py < this.height
          ensures Pixel(px, py) == if Inside(x, y, width, height, px, py) && py < row + 1 then colour
                                   else old(Pixel(px, py))
        {
          IndexFits(this.width, this.height, px, py);
          if span > 0 { RunMeets(this.width, px, py, row, left, span); }
        }
        row := row + 1;
      }
    }

    lemma RunFits(row: nat, left: nat, span: nat)
      requires row < height && left + span <= width
      ensures row * width + left + span <= width * height
    {
      assert (row + 1) * width <= height * width;
    }

    method RowOfText(bits: seq<bool>, x: int, y: int, scale: int, colour: Colour)
      requires Valid()
      modifies pixels
      ensures forall px, py :: 0 <= px < width && 0 <= py < height ==>
                Pixel(px, py) == if RowCovers(bits, |bits|, x, y, scale, px, py) then colour else old(Pixel(px, py))
    {
      for column := 0 to |bits|
        invariant forall px, py :: 0 <= px < width && 0 <= py < height ==>
                    Pixel(px, py) == if RowCovers(bits, column, x, y, scale, px, py) then colour else old(Pixel(px, py))
      {
        if bits[column] {
          Rect(x + column * scale, y, scale, scale, colour);
        }
        forall px, py
          ensures RowCovers(bits, column + 1, x, y, scale, px, py) <==>
                  RowCovers(bits, column, x, y, scale, px, py)
                  || (bits[column] && Inside(x + column * scale, y, scale, scale, px, py))
        {
        }
      }
    }

    method DrawGlyph(glyph: Glyph, x: int, y: int, scale: int, colour: Colour)
      requires Valid()
      modifies pixels
      ensures forall px, py :: 0 <= px < width && 0 <= py < height ==>
                Pixel(px, py) == if GlyphCovers(glyph, |glyph|, x, y, scale, px, py) then colour else old(Pixel(px, py))
    {
      for row := 0 to |glyph|
        invariant forall px, py :: 0 <= px < width && 0 <= py < height ==>
                    Pixel(px, py) == if GlyphCovers(glyph, row, x, y, scale, px, py) then colour else old(Pixel(px, py))
      {
        RowOfText(glyph[row], x, y + row * scale, scale, colour);
        forall px, py
          ensures GlyphCovers(glyph, row + 1, x, y, scale, px, py) <==>
                  GlyphCovers(glyph, row, x, y, scale, px, py)
                  || RowCovers(glyph[row], |glyph[row]|, x, y + row * scale, scale, px, py)
        {
        }
      }
    }

    /** Paints exactly the union of the message's drawn cells, clipped, and reports where the text ends. */
    method Text(font: map<string, Glyph>, upper: char -> string, x: int, y: int, message: string,
                colour: Colour, scale: int) returns (cursor: int)
      requires Valid()
      modifies pixels
      ensures cursor == x + TextWidth(message, scale) == x + 6 * scale * |message|
      ensures forall px, py :: 0 <= px < width && 0 <= py < height ==>
                Pixel(px, py) == if TextCovers(font, upper, message, |message|, x, y, scale, px, py) then colour
                                 else old(Pixel(px, py))
    {
      cursor := x;
      for k := 0 to |message|
        invariant cursor == x + Advance(k, scale)
        invariant forall px, py :: 0 <= px < width && 0 <= py < height ==>
                    Pixel(px, py) == if TextCovers(font, upper, message, k, x, y, scale, px, py) then colour
                                     else old(Pixel(px, py))
      {
        var glyph := GlyphOf(font, upper, message[k]);
        DrawGlyph(glyph, cursor, y, scale, colour);
        TextCoversOneMore(font, upper, message, k, x, y, scale);
        AdvanceOne(k, scale);
        AdvanceMeans(k, scale);
        cursor := cursor + (GLYPH_WIDTH + 1) * scale;
      }
    }

    ghost function Picture(): Image
      reads pixels
      requires Valid()
      ensures Png.WellFormed(Picture())
    {
      assert width * height * 3 == height * (3 * width);
      Image(width, height, pixels[..])
    }

    /** Encodes the canvas row by row; a size that does not fit its field is an error. */
    method ToPng(compress: seq<Byte> -> seq<Byte>, crc: seq<Byte> -> nat) returns (file: Option<seq<Byte>>)
      requires Valid()
      ensures file == Encode(Picture(), compress, crc)
    {
      var raw: seq<Byte> := [];
      var stride := width * 3;
      ghost var bytes := pixels[..];
      WholeRows(bytes, stride);
      hide *;
      for row := 0 to height
        invariant row * stride <= |bytes|
        invariant raw == Scanlines(bytes[..row * stride], stride, row)
      {
        RowWithin(row, height, stride);
        ScanlineAppended(bytes, stride, row);
        raw := raw + [0];
        raw := raw + pixels[row * stride..(row + 1) * stride];
      }
      return FileOf(width, height, compress(raw), crc);
    }

    lemma WholeRows(bytes: seq<Byte>, stride: nat)
      requires Valid() && stride == width * 3 && |bytes| == pixels.Length
      ensures |bytes| == height * stride && bytes[..height * stride] == bytes
      ensures bytes[..0 * stride] == [] && Scanlines(bytes[..0 * stride], stride, 0) == []
    {
      assert width * height * 3 == height * stride;
    }
  }

  lemma RowWithin(row: nat, rows: nat, stride: nat)
    requires row < rows
    ensures (row + 1) * stride == row * stride + stride <= rows * stride
  {
    assert (row + 1) * stride <= rows * stride;
  }

  lemma TextCoversOneMore(font: map<string, Glyph>, upper: char -> string, message: string, k: nat,
                          x: int, y: int, scale: int)
    requires k < |message|
    ensures var glyph := GlyphOf(font, upper, message[k]);
            forall px, py :: TextCovers(font, upper, message, k + 1, x, y, scale, px, py) <==>
              TextCovers(font, upper, message, k, x, y, scale, px, py)
              || GlyphCovers(glyph, |glyph|, x + 6 * scale * k, y, scale, px, py)
  {
  }

  /** A message whose characters have no glyphs of their own is drawn as its upper-case form. */
  lemma UpperCaseDrawsAlike(font: map<string, Glyph>, upper: char -> string, message: string, capitals: string,
                            x: int, y: int, scale: int, px: int, py: int)
    requires |capitals| == |message|
    requires forall k :: 0 <= k < |message| ==>
               capitals[k] == message[k] ||
               ([message[k]] !in font && upper(message[k]) == [capitals[k]]
                && [capitals[k]] in font && font[[capitals[k]]] != [])
    ensures TextCovers(font, upper, message, |message|, x, y, scale, px, py) <==>
            TextCovers(font, upper, capitals, |capitals|, x, y, scale, px, py)
  {
    forall k | 0 <= k < |message| ensures GlyphOf(font, upper, message[k]) == GlyphOf(font, upper, capitals[k]) {}
    hide GlyphOf, GlyphCovers;
  }

  /** Characters that have no glyph, in upper case neither, leave the canvas as it is. */
  lemma UnknownDrawsNothing(font: map<string, Glyph>, upper: char -> string, message: string,
                            x: int, y: int, scale: int, px: int, py: int)
    requires forall k :: 0 <= k < |message| ==> [message[k]] !in font && upper(message[k]) !in font
    ensures !TextCovers(font, upper, message, |message|, x, y, scale, px, py)
  {
    forall k | 0 <= k < |message| ensures GlyphOf(font, upper, message[k]) == [] {}
  }

  function Max(a: int, b: int): int { if a < b then b else a }

  function Min(a: int, b: int): int { if b < a then b else a }
}
