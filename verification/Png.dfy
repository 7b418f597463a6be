/** The image file format: unfiltered scanlines in checksummed chunks, and a reader for it. */
module Png {
  import opened Options

  type Byte = n: nat | n < 256

  const WORD_RANGE := 0x1_0000_0000

  // ----- numbers -----

  /** Four bytes, most significant first. */
  function Big(n: nat): (bytes: seq<Byte>)
    requires n < WORD_RANGE
    ensures |bytes| == 4
  {
    [n / 0x100_0000, n / 0x1_0000 % 256, n / 256 % 256, n % 256]
  }

  function OfBig(b: seq<Byte>): nat
    requires |b| == 4
  {
    ((b[0] as int * 256 + b[1] as int) * 256 + b[2] as int) * 256 + b[3] as int
  }

  lemma BigRoundTrip(n: nat)
    requires n < WORD_RANGE
    ensures OfBig(Big(n)) == n
  {
    assert n / 256 / 256 == n / 0x1_0000;
    assert n / 0x1_0000 / 256 == n / 0x100_0000;
  }

  // ----- scanlines -----

  /** Each row of pixel bytes behind the filter byte 0. */
  function Scanlines(pixels: seq<Byte>, stride: nat, rows: nat): (raw: seq<Byte>)
    requires |pixels| == rows * stride
    ensures |raw| == rows * (1 + stride)
  {
    if rows == 0 then []
    else
      RowsFit(rows, stride);
      [0] + pixels[..stride] + Scanlines(pixels[stride..], stride, rows - 1)
  }

  lemma RowsFit(rows: nat, stride: nat)
    requires rows > 0
    ensures rows * stride == stride + (rows - 1) * stride
  {
  }

  /** Takes the filter bytes off again; only rows of filter type 0 are understood. */
  function Unfilter(raw: seq<Byte>, stride: nat, rows: nat): Option<seq<Byte>> {
    if rows == 0 then
      if raw == [] then Some([]) else None
    else if |raw| <= stride || raw[0] != 0 then None
    else
      match Unfilter(raw[1 + stride..], stride, rows - 1)
      case None => None
      case Some(rest) => Some(raw[1..1 + stride] + rest)
  }

  lemma {:induction false} ScanlinesRoundTrip(pixels: seq<Byte>, stride: nat, rows: nat)
    requires |pixels| == rows * stride
    ensures Unfilter(Scanlines(pixels, stride, rows), stride, rows) == Some(pixels)
  {
    if rows > 0 {
      RowsFit(rows, stride);
      var raw := Scanlines(pixels, stride, rows);
      assert raw[1..1 + stride] == pixels[..stride];
      assert raw[1 + stride..] == Scanlines(pixels[stride..], stride, rows - 1);
      ScanlinesRoundTrip(pixels[stride..], stride, rows - 1);
      assert pixels == pixels[..stride] + pixels[stride..];
    }
  }

  /** A row at the bottom can equally be appended last. */
  lemma {:induction false} ScanlinesAppend(pixels: seq<Byte>, stride: nat, rows: nat)
    requires rows > 0 && |pixels| == rows * stride
    ensures (rows - 1) * stride + stride == rows * stride
    ensures Scanlines(pixels, stride, rows) ==
            Scanlines(pixels[..(rows - 1) * stride], stride, rows - 1) + [0] + pixels[(rows - 1) * stride..]
  {
    RowsFit(rows, stride);
    if rows > 1 {
      RowsFit(rows - 1, stride);
      ScanlinesAppend(pixels[stride..], stride, rows - 1);
      var upper := pixels[..(rows - 1) * stride];
      assert upper[..stride] == pixels[..stride];
      assert pixels[stride..][..(rows - 2) * stride] == upper[stride..];
      assert pixels[stride..][(rows - 2) * stride..] == pixels[(rows - 1) * stride..];
    } else {
      assert Scanlines(pixels[..0], stride, 0) == [];
      assert Scanlines(pixels[stride..], stride, 0) == [];
      assert pixels[..stride] == pixels;
    }
  }

  /** One round of the loop that writes the rows. */
  lemma ScanlineAppended(pixels: seq<Byte>, stride: nat, row: nat)
    requires (row + 1) * stride == row * stride + stride <= |pixels|
    ensures Scanlines(pixels[..(row + 1) * stride], stride, row + 1) ==
            Scanlines(pixels[..row * stride], stride, row) + [0] + pixels[row * stride..(row + 1) * stride]
  {
    var top := pixels[..(row + 1) * stride];
    ScanlinesAppend(top, stride, row + 1);
    assert top[..row * stride] == pixels[..row * stride];
    assert top[row * stride..] == pixels[row * stride..(row + 1) * stride];
  }

  // ----- chunks -----

  datatype Chunk = Chunk(kind: seq<Byte>, payload: seq<Byte>)

  const IHDR: seq<Byte> := [73, 72, 68, 82]
  const IDAT: seq<Byte> := [73, 68, 65, 84]
  const IEND: seq<Byte> := [73, 69, 78, 68]
  const SIGNATURE: seq<Byte> := [137, 80, 78, 71, 13, 10, 26, 10]

  ghost predicate Framable(c: Chunk) {
    |c.kind| == 4 && |c.payload| < WORD_RANGE
  }

  /** Length, kind, payload, and the checksum of the last two. */
  function Frame(c: Chunk, crc: seq<Byte> -> nat): seq<Byte>
    requires Framable(c)
  {
    Big(|c.payload|) + c.kind + c.payload + Big(crc(c.kind + c.payload) % WORD_RANGE)
  }

  /** Splits a file into chunks; a short chunk or a wrong checksum is an error. */
  function ReadChunks(bytes: seq<Byte>, crc: seq<Byte> -> nat): Option<seq<Chunk>> {
    if bytes == [] then Some([])
    else if |bytes| < 12 then None
    else
      var n := OfBig(bytes[..4]);
      if |bytes| < 12 + n then None
      else
        var c := Chunk(bytes[4..8], bytes[8..8 + n]);
        if OfBig(bytes[8 + n..12 + n]) != crc(c.kind + c.payload) % WORD_RANGE then None
        else
          match ReadChunks(bytes[12 + n..], crc)
          case None => None
          case Some(rest) => Some([c] + rest)
  }

  lemma ReadFrame(c: Chunk, rest: seq<Byte>, crc: seq<Byte> -> nat)
    requires Framable(c)
    ensures ReadChunks(Frame(c, crc) + rest, crc) ==
            match ReadChunks(rest, crc) case None => None case Some(more) => Some([c] + more)
  {
    var bytes := Frame(c, crc) + rest;
    var n := |c.payload|;
    BigRoundTrip(n);
    BigRoundTrip(crc(c.kind + c.payload) % WORD_RANGE);
    assert bytes[..4] == Big(n);
    assert bytes[4..8] == c.kind;
    assert bytes[8..8 + n] == c.payload;
    assert bytes[8 + n..12 + n] == Big(crc(c.kind + c.payload) % WORD_RANGE);
    assert bytes[12 + n..] == rest;
  }

  // ----- whole files -----

  datatype Image = Image(width: nat, height: nat, pixels: seq<Byte>)

  predicate WellFormed(image: Image) {
    |image.pixels| == image.height * (3 * image.width)
  }

  /** Eight bits a sample, true colour, and no interlacing. */
  const TRUE_COLOUR: seq<Byte> := [8, 2, 0, 0, 0]

  function Raw(image: Image): seq<Byte>
    requires WellFormed(image)
  {
    Scanlines(image.pixels, 3 * image.width, image.height)
  }

  function HeaderOf(width: nat, height: nat): seq<Byte>
    requires width < WORD_RANGE && height < WORD_RANGE
  {
    Big(width) + Big(height) + TRUE_COLOUR
  }

  /** SIGNATURE, header, compressed data and end; nothing when a size does not fit its four bytes. */
  function FileOf(width: nat, height: nat, data: seq<Byte>, crc: seq<Byte> -> nat): Option<seq<Byte>> {
    if width >= WORD_RANGE || height >= WORD_RANGE || |data| >= WORD_RANGE then None
    else Some(SIGNATURE
              + Frame(Chunk(IHDR, HeaderOf(width, height)), crc)
              + Frame(Chunk(IDAT, data), crc)
              + Frame(Chunk(IEND, []), crc))
  }

  function Encode(image: Image, compress: seq<Byte> -> seq<Byte>, crc: seq<Byte> -> nat): Option<seq<Byte>>
    requires WellFormed(image)
  {
    FileOf(image.width, image.height, compress(Raw(image)), crc)
  }

  /** The bytes of a text of plain characters. */
  function Ascii(text: string): seq<nat> {
    seq(|text|, i requires 0 <= i < |text| => text[i] as nat)
  }

  /** The payloads of data chunks, joined. */
  function Joined(chunks: seq<Chunk>): Option<seq<Byte>> {
    if chunks == [] then Some([])
    else if chunks[0].kind != Ascii("IDAT") then None
    else match Joined(chunks[1..])
      case None => None
      case Some(rest) => Some(chunks[0].payload + rest)
  }

  function Decode(bytes: seq<Byte>, inflate: seq<Byte> -> Option<seq<Byte>>, crc: seq<Byte> -> nat): Option<Image> {
    if |bytes| < 8 || bytes[..8] != [0x89] + Ascii("PNG\r\n") + [0x1A] + Ascii("\n") then None
    else match ReadChunks(bytes[8..], crc)
      case None => None
      case Some(chunks) =>
        if |chunks| < 2 || chunks[0].kind != Ascii("IHDR")
           || chunks[|chunks| - 1].kind != Ascii("IEND") || chunks[|chunks| - 1].payload != [] then None
        else OfChunks(chunks[0].payload, chunks[1..|chunks| - 1], inflate)
  }

  function OfChunks(header: seq<Byte>, chunks: seq<Chunk>, inflate: seq<Byte> -> Option<seq<Byte>>): Option<Image> {
    if |header| != 13 || header[8] != 8 || header[9] != 2
       || header[10] != 0 || header[11] != 0 || header[12] != 0 then None
    else
      var width, height := OfBig(header[..4]), OfBig(header[4..8]);
      match Joined(chunks)
      case None => None
      case Some(data) =>
        match inflate(data)
        case None => None
        case Some(raw) =>
          match Unfilter(raw, 3 * width, height)
          case None => None
          case Some(pixels) => Some(Image(width, height, pixels))
  }

  lemma DecodeChunks(file: seq<Byte>, header: Chunk, body: Chunk, inflate: seq<Byte> -> Option<seq<Byte>>,
                     crc: seq<Byte> -> nat)
    requires |file| >= 8 && file[..8] == SIGNATURE && header.kind == IHDR
    requires ReadChunks(file[8..], crc) == Some([header, body, Chunk(IEND, [])])
    ensures Decode(file, inflate, crc) == OfChunks(header.payload, [body], inflate)
  {
    hide ReadChunks, OfChunks;
    var chunks := [header, body, Chunk(IEND, [])];
    assert chunks[1..|chunks| - 1] == [body];
  }

  /** Whatever was written is read back: dimensions and every pixel byte. */
  lemma FileRoundTrip(image: Image, compress: seq<Byte> -> seq<Byte>, inflate: seq<Byte> -> Option<seq<Byte>>,
                      crc: seq<Byte> -> nat)
    requires WellFormed(image)
    requires inflate(compress(Raw(image))) == Some(Raw(image))
    ensures var file := Encode(image, compress, crc);
            file.Some? ==> Decode(file.value, inflate, crc) == Some(image)
  {
    hide ReadChunks, Decode, OfChunks, Frame, HeaderOf, Raw;
    var data := compress(Raw(image));
    if image.width < WORD_RANGE && image.height < WORD_RANGE && |data| < WORD_RANGE {
      var header := HeaderOf(image.width, image.height);
      ReadAll(image.width, image.height, data, crc);
      ReadHeader(image, header, data, inflate);
      hide FileOf;
      var file := FileOf(image.width, image.height, data, crc).value;
      DecodeChunks(file, Chunk(IHDR, header), Chunk(IDAT, data), inflate, crc);
    }
  }

  lemma ReadAll(width: nat, height: nat, data: seq<Byte>, crc: seq<Byte> -> nat)
    requires width < WORD_RANGE && height < WORD_RANGE && |data| < WORD_RANGE
    ensures var file := FileOf(width, height, data, crc);
            && file.Some? && |file.value| >= 8 && file.value[..8] == SIGNATURE
            && ReadChunks(file.value[8..], crc) ==
               Some([Chunk(IHDR, HeaderOf(width, height)), Chunk(IDAT, data), Chunk(IEND, [])])
  {
    hide ReadChunks, Frame, Big;
    var first, middle, last := Chunk(IHDR, HeaderOf(width, height)), Chunk(IDAT, data), Chunk(IEND, []);
    AfterSignature(Frame(first, crc), Frame(middle, crc), Frame(last, crc));
    ReadThree(first, middle, crc);
  }

  lemma AfterSignature(first: seq<Byte>, middle: seq<Byte>, last: seq<Byte>)
    ensures var file := SIGNATURE + first + middle + last;
            |file| >= 8 && file[..8] == SIGNATURE && file[8..] == first + (middle + last)
  {
    assert |SIGNATURE| == 8;
    assert SIGNATURE + first + middle + last == SIGNATURE + (first + (middle + last));
  }

  lemma ReadThree(first: Chunk, middle: Chunk, crc: seq<Byte> -> nat)
    requires Framable(first) && Framable(middle)
    ensures ReadChunks(Frame(first, crc) + (Frame(middle, crc) + Frame(Chunk(IEND, []), crc)), crc) ==
            Some([first, middle, Chunk(IEND, [])])
  {
    hide ReadChunks, Frame;
    var last := Chunk(IEND, []);
    ReadTail(crc);
    ReadFrame(middle, Frame(last, crc), crc);
    ReadFrame(first, Frame(middle, crc) + Frame(last, crc), crc);
    assert [first] + ([middle] + [last]) == [first, middle, last];
  }

  lemma ReadTail(crc: seq<Byte> -> nat)
    ensures ReadChunks(Frame(Chunk(IEND, []), crc), crc) == Some([Chunk(IEND, [])])
  {
    var end := Chunk(IEND, []);
    ReadFrame(end, [], crc);
    assert Frame(end, crc) + [] == Frame(end, crc);
    assert [end] + [] == [end];
    assert ReadChunks([], crc) == Some([]);
  }

  lemma ReadHeader(image: Image, header: seq<Byte>, data: seq<Byte>, inflate: seq<Byte> -> Option<seq<Byte>>)
    requires WellFormed(image) && image.width < WORD_RANGE && image.height < WORD_RANGE
    requires header == HeaderOf(image.width, image.height)
    requires inflate(data) == Some(Raw(image))
    ensures OfChunks(header, [Chunk(IDAT, data)], inflate) == Some(image)
  {
    assert OfBig(header[..4]) == image.width && OfBig(header[4..8]) == image.height && header[8..] == TRUE_COLOUR by {
      BigRoundTrip(image.width);
      BigRoundTrip(image.height);
      assert header[..4] == Big(image.width) && header[4..8] == Big(image.height);
    }
    assert Unfilter(Raw(image), 3 * image.width, image.height) == Some(image.pixels) by {
      ScanlinesRoundTrip(image.pixels, 3 * image.width, image.height);
    }
    hide HeaderOf, Big, OfBig, Raw, Unfilter;
    assert Joined([Chunk(IDAT, data)]) == Some(data) by {
      assert [Chunk(IDAT, data)][1..] == [];
      assert Joined([]) == Some([]);
      assert data + [] == data;
    }
  }
}
