/** read_png_pixels: chunk walk, inflation, and the row loop, against a writer of the same format. */
module PngReader {
  import opened Basics
  import opened PngFilters

  // ----- rows -----

  /** The row loop: a filter byte and then a scanline, each against the row before it. */
  function DecodeRows(data: seq<Byte>, rowBytes: nat, bpp: nat, height: nat, prev: seq<Byte>): Option<seq<Byte>>
    decreases height
  {
    if height == 0 then Some([])
    else if data == [] then None
    else
      var end := Min(1 + rowBytes, |data|);
      var raw := data[1..end];
      if data[0] > 4 && raw != [] then None
      else
        var row := UnfilterRow(data[0], raw, prev, bpp);
        match DecodeRows(data[end..], rowBytes, bpp, height - 1, row)
        case None => None
        case Some(rest) => Some(row + rest)
  }

  /** One turn of the row loop. */
  lemma DecodeStep(data: seq<Byte>, rowBytes: nat, bpp: nat, height: nat, prev: seq<Byte>)
    requires height > 0
    ensures DecodeRows(data, rowBytes, bpp, height, prev) ==
      if data == [] || (data[0] > 4 && data[1..Min(1 + rowBytes, |data|)] != []) then None
      else
        var row := UnfilterRow(data[0], data[1..Min(1 + rowBytes, |data|)], prev, bpp);
        Behind(row, DecodeRows(data[Min(1 + rowBytes, |data|)..], rowBytes, bpp, height - 1, row))
  {
  }

  /** What is decoded is all rows, unless the data ends in the last one; each row is preceded by its filter byte. */
  lemma {:induction false} DecodedSize(data: seq<Byte>, rowBytes: nat, bpp: nat, height: nat, prev: seq<Byte>)
    requires DecodeRows(data, rowBytes, bpp, height, prev).Some?
    ensures |DecodeRows(data, rowBytes, bpp, height, prev).value| == Min(height * rowBytes, |data| - height)
    decreases height
  {
    if height > 0 {
      var end := Min(1 + rowBytes, |data|);
      var row := UnfilterRow(data[0], data[1..end], prev, bpp);
      DecodedSize(data[end..], rowBytes, bpp, height - 1, row);
      assert height * rowBytes == rowBytes + (height - 1) * rowBytes;
      assert (height - 1) * rowBytes >= 0;
    }
  }

  lemma NextRow(y: nat, n: nat)
    ensures y * n >= 0 && (y + 1) * n == y * n + n
  {
  }

  /** Row y of the data: a filter byte, then a scanline that is reconstructed against the row before it. */
  predicate RowAt(data: seq<Byte>, pixels: seq<Byte>, rowBytes: nat, bpp: nat, prev: seq<Byte>, y: nat) {
    NextRow(y, rowBytes);
    NextRow(y, 1 + rowBytes);
    var at, from := y * (1 + rowBytes), y * rowBytes;
    && at < |data|
    && var raw := data[at + 1..Min(at + 1 + rowBytes, |data|)];
       && (raw == [] || data[at] <= 4) && from + |raw| <= |pixels| && (y > 0 ==> from >= rowBytes)
       && pixels[from..from + |raw|]
            == UnfilterRow(data[at], raw, if y == 0 then prev else pixels[from - rowBytes..from], bpp)
  }

  /** Every row of a decoded image, from the row loop alone. */
  lemma {:induction false} EveryRow(data: seq<Byte>, rowBytes: nat, bpp: nat, height: nat, prev: seq<Byte>, y: nat)
    requires DecodeRows(data, rowBytes, bpp, height, prev).Some? && y < height
    ensures RowAt(data, DecodeRows(data, rowBytes, bpp, height, prev).value, rowBytes, bpp, prev, y)
    decreases y
  {
    hide DecodeRows, UnfilterRow, RowAt;
    DecodeStep(data, rowBytes, bpp, height, prev);
    var end := Min(1 + rowBytes, |data|);
    var row := UnfilterRow(data[0], data[1..end], prev, bpp);
    var rest := DecodeRows(data[end..], rowBytes, bpp, height - 1, row).value;
    if y == 0 {
      RowInFront(data, rest, rowBytes, bpp, prev);
    } else {
      DecodeStep(data[end..], rowBytes, bpp, height - 1, row);
      assert end == 1 + rowBytes;
      EveryRow(data[end..], rowBytes, bpp, height - 1, row, y - 1);
      RowBehind(data, rest, row, rowBytes, bpp, prev, y - 1);
    }
  }

  /** Row y has no filter byte, or an unknown one in front of a scanline. */
  predicate BadRow(data: seq<Byte>, rowBytes: nat, y: nat) {
    NextRow(y, 1 + rowBytes);
    var at := y * (1 + rowBytes);
    at >= |data| || (data[at] > 4 && data[at + 1..Min(at + 1 + rowBytes, |data|)] != [])
  }

  /** Rows are refused exactly when one of them is bad. */
  lemma RowsAreRefused(data: seq<Byte>, rowBytes: nat, bpp: nat, height: nat, prev: seq<Byte>)
    ensures DecodeRows(data, rowBytes, bpp, height, prev).None?
      <==> exists y: nat :: y < height && BadRow(data, rowBytes, y)
  {
    if DecodeRows(data, rowBytes, bpp, height, prev).None? {
      var y := FirstBadRow(data, rowBytes, bpp, height, prev);
    } else {
      forall y: nat | y < height
        ensures !BadRow(data, rowBytes, y)
      {
        EveryRow(data, rowBytes, bpp, height, prev, y);
      }
    }
    hide DecodeRows, BadRow;
  }

  lemma {:induction false} FirstBadRow(data: seq<Byte>, rowBytes: nat, bpp: nat, height: nat, prev: seq<Byte>)
    returns (y: nat)
    requires DecodeRows(data, rowBytes, bpp, height, prev).None?
    ensures y < height && BadRow(data, rowBytes, y)
    decreases height
  {
    assert height > 0;
    hide DecodeRows, UnfilterRow;
    DecodeStep(data, rowBytes, bpp, height, prev);
    y := 0;
    if !BadRow(data, rowBytes, 0) {
      var end := Min(1 + rowBytes, |data|);
      var before := FirstBadRow(data[end..], rowBytes, bpp, height - 1, UnfilterRow(data[0], data[1..end], prev, bpp));
      y := before + 1;
      BadRowBehind(data, rowBytes, before);
    }
  }

  lemma BadRowBehind(data: seq<Byte>, rowBytes: nat, y: nat)
    requires data != [] && BadRow(data[Min(1 + rowBytes, |data|)..], rowBytes, y)
    ensures BadRow(data, rowBytes, y + 1)
  {
    NextRow(y, 1 + rowBytes);
    if 1 + rowBytes <= |data| {
      var at, rest := y * (1 + rowBytes), data[1 + rowBytes..];
      if at < |rest| {
        SliceOfDrop(data, 1 + rowBytes, at + 1, Min(at + 1 + rowBytes, |rest|));
      }
    }
  }

  lemma RowInFront(data: seq<Byte>, rest: seq<Byte>, rowBytes: nat, bpp: nat, prev: seq<Byte>)
    requires data != [] && (data[0] <= 4 || data[1..Min(1 + rowBytes, |data|)] == [])
    ensures var row := UnfilterRow(data[0], data[1..Min(1 + rowBytes, |data|)], prev, bpp);
      RowAt(data, row + rest, rowBytes, bpp, prev, 0)
  {
    hide UnfilterRow;
  }

  lemma RowBehind(data: seq<Byte>, rest: seq<Byte>, row: seq<Byte>, rowBytes: nat, bpp: nat, prev: seq<Byte>, y: nat)
    requires 1 + rowBytes <= |data| && |row| == rowBytes && RowAt(data[1 + rowBytes..], rest, rowBytes, bpp, row, y)
    ensures RowAt(data, row + rest, rowBytes, bpp, prev, y + 1)
  {
    hide UnfilterRow;
    NextRow(y, rowBytes);
    NextRow(y, 1 + rowBytes);
    var at, from := y * (1 + rowBytes), y * rowBytes;
    var tail := data[1 + rowBytes..];
    var end := Min(at + 1 + rowBytes, |tail|);
    SliceOfDrop(data, 1 + rowBytes, at + 1, end);
    SliceBehind(row, rest, from, from + (end - (at + 1)));
    if y == 0 {
      assert (row + rest)[0..rowBytes] == row;
    } else {
      SliceBehind(row, rest, from - rowBytes, from);
    }
  }

  function Zeros(n: nat): (r: seq<Byte>)
    ensures |r| == n
  {
    seq(n, _ => 0)
  }

  /** The loop with its offset and its two row buffers. */
  method ReadRows(data: seq<Byte>, rowBytes: nat, bpp: nat, height: nat) returns (pixels: Option<seq<Byte>>)
    requires bpp > 0
    ensures pixels == DecodeRows(data, rowBytes, bpp, height, Zeros(rowBytes))
  {
    var out: seq<Byte> := [];
    var prev := new Byte[rowBytes](_ => 0);
    ghost var above := Zeros(rowBytes);
    assert prev[..] == above;
    var offset: nat := 0;
    var left: nat := height;
    ghost var all := DecodeRows(data, rowBytes, bpp, height, above);
    assert data[0..] == data;
    NothingBefore(all);
    hide DecodeRows, UnfilterRow, Behind;
    while left > 0
      invariant fresh(prev) && offset <= |data| && left <= height
      invariant prev[..] == above && (prev.Length == rowBytes || offset == |data|)
      invariant all == Behind(out, DecodeRows(data[offset..], rowBytes, bpp, left, above))
      decreases left
    {
      RowTurn(all, out, data, offset, rowBytes, bpp, left, above);
      if offset == |data| {
        return None;
      }
      var ft := data[offset];
      var end := Min(offset + 1 + rowBytes, |data|);
      var scanline := data[offset + 1..end];
      var current := new Byte[|scanline|](i requires 0 <= i < |scanline| => scanline[i]);
      assert current[..] == scanline;
      var ok := UnfilterScanline(current, prev, bpp, ft);
      if !ok {
        return None;
      }
      out := out + current[..];
      prev, above := current, UnfilterRow(ft, scanline, above, bpp);
      offset := end;
      left := left - 1;
    }
    NothingLeft(out, data[offset..], rowBytes, bpp, above);
    return Some(out);
  }

  /** One turn of the loop at an offset, in terms of what the rest of the loop will return. */
  lemma RowTurn(all: Option<seq<Byte>>, out: seq<Byte>, data: seq<Byte>, offset: nat, rowBytes: nat, bpp: nat,
                left: nat, above: seq<Byte>)
    requires offset <= |data| && left > 0
    requires all == Behind(out, DecodeRows(data[offset..], rowBytes, bpp, left, above))
    ensures offset == |data| ==> all == None
    ensures offset < |data| ==>
      var end := Min(offset + 1 + rowBytes, |data|);
      var scanline, row := data[offset + 1..end], UnfilterRow(data[offset], data[offset + 1..end], above, bpp);
      all == if data[offset] > 4 && scanline != [] then None
             else Behind(out + row, DecodeRows(data[end..], rowBytes, bpp, left - 1, row))
  {
    var rest := data[offset..];
    DecodeStep(rest, rowBytes, bpp, left, above);
    if offset < |data| {
      hide DecodeRows, UnfilterRow;
      var end := Min(offset + 1 + rowBytes, |data|);
      var row := UnfilterRow(data[offset], data[offset + 1..end], above, bpp);
      assert rest[1..Min(1 + rowBytes, |rest|)] == data[offset + 1..end];
      assert rest[Min(1 + rowBytes, |rest|)..] == data[end..];
      BehindTwice(out, row, DecodeRows(data[end..], rowBytes, bpp, left - 1, row));
    }
  }

  function Behind(out: seq<Byte>, rest: Option<seq<Byte>>): Option<seq<Byte>> {
    if rest.None? then None else Some(out + rest.value)
  }

  lemma BehindTwice(a: seq<Byte>, b: seq<Byte>, rest: Option<seq<Byte>>)
    ensures Behind(a, Behind(b, rest)) == Behind(a + b, rest)
  {
    if rest.Some? {
      ConcatAssoc(a, b, rest.value);
    }
  }

  lemma NothingBefore(rest: Option<seq<Byte>>)
    ensures Behind([], rest) == rest
  {
    assert rest.Some? ==> [] + rest.value == rest.value;
  }

  lemma NothingLeft(out: seq<Byte>, data: seq<Byte>, rowBytes: nat, bpp: nat, prev: seq<Byte>)
    ensures Behind(out, DecodeRows(data, rowBytes, bpp, 0, prev)) == Some(out)
  {
    assert out + [] == out;
  }

  // ----- writing rows -----

  /** The rows of an image, filtered one by one and each preceded by the filter chosen for it. */
  function EncodeRows(rows: seq<seq<Byte>>, filters: seq<Byte>, bpp: nat, prev: seq<Byte>): seq<Byte>
    requires |rows| == |filters|
  {
    if rows == [] then []
    else [filters[0]] + FilterRow(filters[0], rows[0], prev, bpp) + EncodeRows(rows[1..], filters[1..], bpp, rows[0])
  }

  function Flatten(rows: seq<seq<Byte>>): seq<Byte> {
    if rows == [] then [] else rows[0] + Flatten(rows[1..])
  }

  /** Whatever filter each row was written with, the row loop gives the pixels back; what follows does not matter. */
  lemma {:induction false} RowsRoundTrip(rows: seq<seq<Byte>>, filters: seq<Byte>, rowBytes: nat, bpp: nat,
                                         prev: seq<Byte>, extra: seq<Byte>)
    requires |rows| == |filters| && bpp > 0
    requires forall i :: 0 <= i < |rows| ==> |rows[i]| == rowBytes
    requires forall i :: 0 <= i < |filters| ==> filters[i] <= 4
    ensures DecodeRows(EncodeRows(rows, filters, bpp, prev) + extra, rowBytes, bpp, |rows|, prev) == Some(Flatten(rows))
    decreases |rows|
  {
    if rows != [] {
      var filtered := FilterRow(filters[0], rows[0], prev, bpp);
      var more := EncodeRows(rows[1..], filters[1..], bpp, rows[0]) + extra;
      var data := EncodeRows(rows, filters, bpp, prev) + extra;
      assert data == [filters[0]] + filtered + more;
      assert data[0] == filters[0];
      assert data[1..1 + rowBytes] == filtered;
      assert data[1 + rowBytes..] == more;
      assert Min(1 + rowBytes, |data|) == 1 + rowBytes;
      UnfilterInverts(filters[0], rows[0], prev, bpp);
      RowsRoundTrip(rows[1..], filters[1..], rowBytes, bpp, rows[0], extra);
    }
  }

  // ----- chunks -----

  const SIGNATURE: seq<Byte> := [0x89, 0x50, 0x4E, 0x47, 0x0D, 0x0A, 0x1A, 0x0A]
  const IHDR: seq<Byte> := [0x49, 0x48, 0x44, 0x52]
  const IDAT: seq<Byte> := [0x49, 0x44, 0x41, 0x54]
  const IEND: seq<Byte> := [0x49, 0x45, 0x4E, 0x44]

  datatype Header = Header(width: nat, height: nat, bitDepth: Byte, colorType: Byte)

  /** A big-endian 32-bit number. */
  function FromBE(s: seq<Byte>): nat
    requires |s| == 4
  {
    var a: int, b: int, c: int := s[0], s[1], s[2];
    ((a * 256 + b) * 256 + c) * 256 + s[3]
  }

  function ToBE(n: nat): seq<Byte>
    requires n < 0x1_0000_0000
  {
    [n / 0x100_0000, n / 0x1_0000 % 256, n / 0x100 % 256, n % 256]
  }

  lemma BigEndianRoundTrip(n: nat)
    requires n < 0x1_0000_0000
    ensures FromBE(ToBE(n)) == n
    ensures var a: int, b: int, c: int := ToBE(n)[0], ToBE(n)[1], ToBE(n)[2];
      |ToBE(n)| == 4 && n == a * 0x100_0000 + b * 0x1_0000 + c * 0x100 + ToBE(n)[3]
  {
    var a := n / 256;
    var b := a / 256;
    assert n / 0x1_0000 == b && n / 0x100_0000 == b / 256;
  }

  datatype Scan = Malformed | Scanned(header: Option<Header>, compressed: seq<Byte>)

  function HeaderOf(body: seq<Byte>): Header
    requires |body| >= 10
  {
    Header(FromBE(body[0..4]), FromBE(body[4..8]), body[8], body[9])
  }

  function ChunkBody(rest: seq<Byte>): seq<Byte>
    requires |rest| >= 8
  {
    rest[8..Min(8 + FromBE(rest[..4]), |rest|)]
  }

  function ChunkTail(rest: seq<Byte>): (tail: seq<Byte>)
    requires |rest| >= 8
    ensures |tail| < |rest|
  {
    rest[Min(12 + FromBE(rest[..4]), |rest|)..]
  }

  /** The chunk loop: the last IHDR wins, IDAT bodies are concatenated, IEND or a short rest ends it. */
  function ScanChunks(rest: seq<Byte>, header: Option<Header>, compressed: seq<Byte>): Scan
    decreases |rest|
  {
    if |rest| < 8 then Scanned(header, compressed)
    else
      var body := ChunkBody(rest);
      if rest[4..8] == IHDR then
        if |body| < 10 then Malformed else ScanChunks(ChunkTail(rest), Some(HeaderOf(body)), compressed)
      else if rest[4..8] == IDAT then ScanChunks(ChunkTail(rest), header, compressed + body)
      else if rest[4..8] == IEND then Scanned(header, compressed)
      else ScanChunks(ChunkTail(rest), header, compressed)
  }

  datatype Image = Image(width: nat, height: nat, colorType: Byte, raw: seq<Byte>)

  function Channels(colorType: Byte): nat
    requires colorType == 0 || colorType == 2 || colorType == 6
  {
    if colorType == 0 then 1 else if colorType == 2 then 3 else 4
  }

  predicate Supported(h: Header) {
    h.bitDepth == 8 && (h.colorType == 0 || h.colorType == 2 || h.colorType == 6)
  }

  /** What a PNG file holds; inflate is the decompressor, None its error. */
  function PngPixels(data: seq<Byte>, inflate: seq<Byte> -> Option<seq<Byte>>): Option<Image> {
    if |data| < 8 || data[..8] != SIGNATURE then None
    else
      match ScanChunks(data[8..], None, [])
      case Malformed => None
      case Scanned(None, _) => None
      case Scanned(Some(h), compressed) =>
        if !Supported(h) then None
        else
          match inflate(compressed)
          case None => None
          case Some(rows) =>
            var channels := Channels(h.colorType);
            match DecodeRows(rows, h.width * channels, channels, h.height, Zeros(h.width * channels))
            case None => None
            case Some(raw) => Some(Image(h.width, h.height, h.colorType, raw))
  }

  /** read_png_pixels, with its position in the file; None stands for every exception it raises. */
  method ReadPngPixels(data: seq<Byte>, inflate: seq<Byte> -> Option<seq<Byte>>) returns (image: Option<Image>)
    ensures image == PngPixels(data, inflate)
  {
    if |data| < 8 || data[..8] != SIGNATURE {
      return None;
    }
    var pos := 8;
    var header: Option<Header> := None;
    var compressed: seq<Byte> := [];
    var ended := false;
    while !ended && pos + 8 <= |data|
      invariant 8 <= pos
      invariant ScanChunks(data[8..], None, []) ==
        if ended || pos > |data| then Scanned(header, compressed) else ScanChunks(data[pos..], header, compressed)
      decreases !ended, |data| - pos
    {
      ghost var rest := data[pos..];
      var length := FromBE(data[pos..pos + 4]);
      var chunkType := data[pos + 4..pos + 8];
      var body := data[pos + 8..Min(pos + 8 + length, |data|)];
      assert data[pos..pos + 4] == rest[..4] && chunkType == rest[4..8] && body == ChunkBody(rest);
      pos := pos + 12 + length;
      assert pos <= |data| ==> data[pos..] == ChunkTail(rest);
      assert pos > |data| ==> ChunkTail(rest) == [];
      if chunkType == IHDR {
        if |body| < 10 {
          return None;
        }
        header := Some(HeaderOf(body));
      } else if chunkType == IDAT {
        compressed := compressed + body;
      } else if chunkType == IEND {
        ended := true;
      }
    }
    if header.None? || !Supported(header.value) {
      return None;
    }
    var rows := inflate(compressed);
    if rows.None? {
      return None;
    }
    var h := header.value;
    var channels := Channels(h.colorType);
    var pixels := ReadRows(rows.value, h.width * channels, channels, h.height);
    if pixels.None? {
      return None;
    }
    return Some(Image(h.width, h.height, h.colorType, pixels.value));
  }

  // ----- writing files -----

  datatype Chunk = Chunk(kind: seq<Byte>, body: seq<Byte>, crc: seq<Byte>)

  predicate WellFormed(c: Chunk) {
    |c.kind| == 4 && |c.body| < 0x1_0000_0000 && |c.crc| == 4
  }

  function ChunkBytes(c: Chunk): seq<Byte>
    requires WellFormed(c)
  {
    ToBE(|c.body|) + c.kind + c.body + c.crc
  }

  function ChunksBytes(cs: seq<Chunk>): seq<Byte>
    requires forall c <- cs :: WellFormed(c)
  {
    if cs == [] then [] else ChunkBytes(cs[0]) + ChunksBytes(cs[1..])
  }

  /** A chunk type, as it is written: four ASCII letters. */
  function Kind(name: string): seq<Byte>
    requires |name| == 4 && forall i :: 0 <= i < 4 ==> 'A' <= name[i] <= 'Z'
  {
    seq<Byte>(4, i requires 0 <= i < 4 => name[i] as Byte)
  }

  lemma Kinds()
    ensures IHDR == Kind("IHDR") && IDAT == Kind("IDAT") && IEND == Kind("IEND")
  {
  }

  /** The compressed stream, however it was cut into IDAT chunks. */
  function DataOf(cs: seq<Chunk>): seq<Byte> {
    if cs == [] then [] else (if cs[0].kind == Kind("IDAT") then cs[0].body else []) + DataOf(cs[1..])
  }

  lemma ChunkRead(c: Chunk, more: seq<Byte>)
    requires WellFormed(c)
    ensures var rest := ChunkBytes(c) + more;
      |rest| >= 8 && rest[4..8] == c.kind && ChunkBody(rest) == c.body && ChunkTail(rest) == more
  {
    var rest := ChunkBytes(c) + more;
    assert rest[..4] == ToBE(|c.body|);
    BigEndianRoundTrip(|c.body|);
  }

  /** An IHDR chunk that is too short to hold a header. */
  predicate ShortHeader(c: Chunk) {
    c.kind == Kind("IHDR") && |c.body| < 10
  }

  /** The header of the last IHDR chunk. */
  function HeaderAfter(cs: seq<Chunk>, header: Option<Header>): Option<Header> {
    if cs == [] then header
    else
      var isHeader := cs[0].kind == Kind("IHDR") && |cs[0].body| >= 10;
      HeaderAfter(cs[1..], if isHeader then Some(HeaderOf(cs[0].body)) else header)
  }

  /** Any chunks but IEND, in front of anything: the last IHDR counts, and the bodies of all IDAT chunks. */
  lemma {:induction false} ChunksScanned(cs: seq<Chunk>, tail: seq<Byte>, header: Option<Header>, compressed: seq<Byte>)
    requires forall c <- cs :: WellFormed(c) && c.kind != Kind("IEND")
    ensures ScanChunks(ChunksBytes(cs) + tail, header, compressed) ==
      if exists c :: c in cs && ShortHeader(c) then Malformed
      else ScanChunks(tail, HeaderAfter(cs, header), compressed + DataOf(cs))
    decreases |cs|
  {
    Kinds();
    hide ChunkBytes, ChunkBody, ChunkTail, HeaderOf, Kind;
    if cs == [] {
      assert ChunksBytes(cs) + tail == tail;
      assert compressed + [] == compressed;
    } else {
      var more := ChunksBytes(cs[1..]) + tail;
      ConcatAssoc(ChunkBytes(cs[0]), ChunksBytes(cs[1..]), tail);
      ChunkRead(cs[0], more);
      assert cs[0] in cs && forall c :: c in cs <==> c == cs[0] || c in cs[1..];
      var header' := if cs[0].kind == IHDR && |cs[0].body| >= 10 then Some(HeaderOf(cs[0].body)) else header;
      var compressed' := if cs[0].kind == IDAT then compressed + cs[0].body else compressed;
      ChunksScanned(cs[1..], tail, header', compressed');
      ConcatAssoc(compressed, cs[0].body, DataOf(cs[1..]));
      assert [] + DataOf(cs[1..]) == DataOf(cs[1..]);
      OneScanned(cs[0], more, header, compressed);
    }
  }

  lemma OneScanned(c: Chunk, more: seq<Byte>, header: Option<Header>, compressed: seq<Byte>)
    requires WellFormed(c) && c.kind != IEND
    ensures ScanChunks(ChunkBytes(c) + more, header, compressed) ==
      if c.kind == IHDR && |c.body| < 10 then Malformed
      else ScanChunks(more, if c.kind == IHDR then Some(HeaderOf(c.body)) else header,
                      if c.kind == IDAT then compressed + c.body else compressed)
  {
    ChunkRead(c, more);
    hide ChunkBytes, ChunkBody, ChunkTail, HeaderOf;
  }

  /**
   The end of the file: an IEND chunk, whatever follows and even without its checksum, or any other chunk but
   IHDR that is cut short. Of an IDAT chunk what there is of its body counts.
  */
  lemma EndScanned(c: Chunk, n: nat, header: Option<Header>, compressed: seq<Byte>, trailing: seq<Byte>)
    requires WellFormed(c) && c.kind != Kind("IHDR") && n <= |ChunkBytes(c)|
    requires trailing == [] || (c.kind == Kind("IEND") && n >= 8)
    ensures ScanChunks(ChunkBytes(c)[..n] + trailing, header, compressed) ==
      Scanned(header, if c.kind != Kind("IDAT") || n <= 8 then compressed
                      else compressed + c.body[..Min(n - 8, |c.body|)])
  {
    Kinds();
    var rest := ChunkBytes(c)[..n] + trailing;
    if n >= 8 {
      CutChunk(c, n, trailing);
      hide FromBE, ToBE, Kind, ChunkBytes, ChunkBody, ChunkTail;
      assert compressed + [] == compressed;
    }
  }

  lemma CutChunk(c: Chunk, n: nat, trailing: seq<Byte>)
    requires WellFormed(c) && 8 <= n <= |ChunkBytes(c)|
    ensures var rest := ChunkBytes(c)[..n] + trailing;
      && rest[4..8] == c.kind
      && (trailing == [] ==> ChunkBody(rest) == c.body[..Min(n - 8, |c.body|)] && ChunkTail(rest) == [])
  {
    var whole, rest := ChunkBytes(c), ChunkBytes(c)[..n] + trailing;
    assert whole[..4] == ToBE(|c.body|) && whole[4..8] == c.kind && whole[8..8 + |c.body|] == c.body;
    BigEndianRoundTrip(|c.body|);
    hide FromBE, ToBE, ChunkBytes;
    assert rest[..4] == whole[..4] && rest[4..8] == whole[4..8];
    if trailing == [] {
      assert rest == whole[..n];
      assert rest[8..Min(8 + |c.body|, n)] == whole[8..8 + |c.body|][..Min(n - 8, |c.body|)];
    }
  }

  /** The first ten bytes of an IHDR body; compression, filter and interlace methods follow. */
  function HeaderBytes(h: Header): seq<Byte>
    requires h.width < 0x1_0000_0000 && h.height < 0x1_0000_0000
  {
    ToBE(h.width) + ToBE(h.height) + [h.bitDepth, h.colorType]
  }

  /** A file: signature, chunks, IEND, and whatever follows. */
  function FileBytes(cs: seq<Chunk>, last: Chunk, trailing: seq<Byte>): seq<Byte>
    requires WellFormed(last) && forall c <- cs :: WellFormed(c)
  {
    [0x89, 0x50, 0x4E, 0x47, 0x0D, 0x0A, 0x1A, 0x0A] + (ChunksBytes(cs) + (ChunkBytes(last) + trailing))
  }

  /** Bytes of a pixel of eight-bit samples: grey, red green and blue, or these with alpha. */
  function PixelSize(colorType: Byte): nat {
    if colorType == 0 then 1 else if colorType == 2 then 3 else if colorType == 6 then 4 else 0
  }

  /** A file that begins with this header and ends with IEND. */
  ghost predicate HasHeader(h: Header, first: Chunk, cs: seq<Chunk>, last: Chunk, methods: seq<Byte>) {
    && h.width < 0x1_0000_0000 && h.height < 0x1_0000_0000
    && WellFormed(first) && first.kind == Kind("IHDR") && first.body == HeaderBytes(h) + methods
    && WellFormed(last) && last.kind == Kind("IEND")
    && (forall c <- cs :: WellFormed(c) && c.kind != Kind("IHDR") && c.kind != Kind("IEND"))
  }

  lemma HeaderIsRead(h: Header, first: Chunk, methods: seq<Byte>)
    requires h.width < 0x1_0000_0000 && h.height < 0x1_0000_0000
    requires WellFormed(first) && first.kind == Kind("IHDR") && first.body == HeaderBytes(h) + methods
    ensures !ShortHeader(first) && HeaderOf(first.body) == h
  {
    assert first.body[0..4] == ToBE(h.width) && first.body[4..8] == ToBE(h.height);
    BigEndianRoundTrip(h.width);
    BigEndianRoundTrip(h.height);
  }

  /** What counts of a file: the header of its last IHDR chunk, and its IDAT chunks; else it is refused. */
  lemma FileIsRead(cs: seq<Chunk>, last: Chunk, trailing: seq<Byte>, inflate: seq<Byte> -> Option<seq<Byte>>)
    requires forall c <- cs :: WellFormed(c) && c.kind != Kind("IEND")
    requires WellFormed(last) && last.kind == Kind("IEND")
    ensures var image := PngPixels(FileBytes(cs, last, trailing), inflate);
      var header, rows := HeaderAfter(cs, None), inflate(DataOf(cs));
      if (exists c :: c in cs && ShortHeader(c)) || header.None? || header.value.bitDepth != 8
         || header.value.colorType !in {0, 2, 6} || rows.None?
      then image == None
      else
        var h, size := header.value, PixelSize(header.value.colorType);
        match DecodeRows(rows.value, h.width * size, size, h.height, Zeros(h.width * size))
        case None => image == None
        case Some(raw) => image == Some(Image(h.width, h.height, h.colorType, raw))
  {
    var data, tail := FileBytes(cs, last, trailing), ChunkBytes(last) + trailing;
    assert data[..8] == SIGNATURE && data[8..] == ChunksBytes(cs) + tail;
    ChunksScanned(cs, tail, None, []);
    assert ChunkBytes(last)[..|ChunkBytes(last)|] == ChunkBytes(last);
    Kinds();
    hide Kind, DecodeRows, ChunkBytes;
    EndScanned(last, |ChunkBytes(last)|, HeaderAfter(cs, None), [] + DataOf(cs), trailing);
    assert [] + DataOf(cs) == DataOf(cs);
    hide ChunksBytes, FileBytes, ScanChunks, DataOf, HeaderAfter;
  }

  lemma NoSignature(data: seq<Byte>, inflate: seq<Byte> -> Option<seq<Byte>>)
    requires !([0x89, 0x50, 0x4E, 0x47, 0x0D, 0x0A, 0x1A, 0x0A] <= data)
    ensures PngPixels(data, inflate) == None
  {
    assert |data| >= 8 && data[..8] == SIGNATURE ==> SIGNATURE <= data;
  }

  /** A file written from rows: header, filters, IDAT chunks among others that hold the compressed rows. */
  ghost predicate IsWritten(h: Header, rows: seq<seq<Byte>>, filters: seq<Byte>, first: Chunk, cs: seq<Chunk>,
                            last: Chunk, inflate: seq<Byte> -> Option<seq<Byte>>, methods: seq<Byte>)
  {
    && HasHeader(h, first, cs, last, methods)
    && h.bitDepth == 8 && h.colorType in {0, 2, 6}
    && |rows| == |filters| == h.height
    && var size := PixelSize(h.colorType);
       && (forall i :: 0 <= i < |rows| ==> |rows[i]| == h.width * size)
       && (forall i :: 0 <= i < |filters| ==> filters[i] <= 4)
       && inflate(DataOf(cs)) == Some(EncodeRows(rows, filters, size, Zeros(h.width * size)))
  }

  /**
   The reader inverts the writer: for every supported header, every image of that size, every choice of
   filters, every way of cutting the compressed stream into IDAT chunks among other chunks, the pixels
   come back byte for byte.
  */
  lemma PngRoundTrip(h: Header, rows: seq<seq<Byte>>, filters: seq<Byte>, first: Chunk, cs: seq<Chunk>, last: Chunk,
                     trailing: seq<Byte>, inflate: seq<Byte> -> Option<seq<Byte>>, methods: seq<Byte>)
    requires IsWritten(h, rows, filters, first, cs, last, inflate, methods)
    ensures PngPixels(FileBytes([first] + cs, last, trailing), inflate) ==
      Some(Image(h.width, h.height, h.colorType, Flatten(rows)))
  {
    HeaderIsRead(h, first, methods);
    FirstHeader(first, cs);
    FileIsRead([first] + cs, last, trailing, inflate);
    var size := PixelSize(h.colorType);
    hide FileBytes, ScanChunks, HasHeader, DecodeRows, EncodeRows, HeaderBytes, DataOf, HeaderAfter;
    RowsRoundTrip(rows, filters, h.width * size, size, Zeros(h.width * size), []);
    assert EncodeRows(rows, filters, size, Zeros(h.width * size)) + [] ==
      EncodeRows(rows, filters, size, Zeros(h.width * size));
  }

  lemma FirstHeader(first: Chunk, cs: seq<Chunk>)
    requires first.kind == Kind("IHDR") && !ShortHeader(first) && forall c <- cs :: c.kind != Kind("IHDR")
    ensures HeaderAfter([first] + cs, None) == Some(HeaderOf(first.body)) && DataOf([first] + cs) == DataOf(cs)
    ensures !exists c :: c in [first] + cs && ShortHeader(c)
  {
    assert ([first] + cs)[1..] == cs && [] + DataOf(cs) == DataOf(cs);
    Kinds();
    hide HeaderOf, Kind;
    NoMoreHeaders(cs, Some(HeaderOf(first.body)));
  }

  lemma {:induction false} NoMoreHeaders(cs: seq<Chunk>, header: Option<Header>)
    requires forall c <- cs :: c.kind != Kind("IHDR")
    ensures HeaderAfter(cs, header) == header
  {
    if cs != [] {
      assert cs[0] in cs && forall c <- cs[1..] :: c in cs;
      NoMoreHeaders(cs[1..], header);
    }
  }
}
