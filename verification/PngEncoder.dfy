/**
 The streaming PNG encoders: rows are packed, filtered against the previous row and fed to the compressor.
 The compressor and the output writer are opaque: `fed` lists what the compressor received, `room` is how many
 more writes the output accepts before it fails, `patience` how many more polls the context survives.
 */
module PngEncoder {
  import opened Bytes
  import opened PngFilters

  datatype Error =
    | Translucent | WriteFailed | Cancelled | AlreadyStarted | NotStarted
    | BadDimensions | NilBand | BadBand | BadStorage | WrongRowCount | NoRows

  datatype Outcome = Ok | Fail(error: Error)

  /** Chunks of the file in order; Data stands for the IDAT chunks of one compressed stream. */
  datatype Chunk =
    | Header(width: nat, height: nat, colorType: nat)
    | Exif
    | Data(rows: seq<seq<byte>>)
    | End

  // ----- pixels -----

  /** The first n pixels without their alpha byte. */
  function PackRGB(pixels: seq<byte>, n: nat): (packed: seq<byte>)
    requires 4 * n <= |pixels|
    ensures |packed| == 3 * n
  {
    if n == 0 then [] else PackRGB(pixels, n - 1) + pixels[4 * n - 4..4 * n - 1]
  }

  predicate AllOpaque(pixels: seq<byte>, n: nat)
    requires 4 * n <= |pixels|
  {
    n == 0 || (AllOpaque(pixels, n - 1) && pixels[4 * n - 1] == 255)
  }

  function UnpackRGB(packed: seq<byte>, n: nat): seq<byte>
    requires 3 * n <= |packed|
  {
    if n == 0 then [] else UnpackRGB(packed, n - 1) + packed[3 * n - 3..3 * n] + [255]
  }

  // A row of width pixels as the stream stores it.
  function Pack(pixels: seq<byte>, width: nat, channels: nat): (packed: seq<byte>)
    requires |pixels| == 4 * width
    ensures channels in {3, 4} ==> |packed| == RowBytes(width, channels)
  {
    if channels == 4 then pixels else PackRGB(pixels, width)
  }

  function Unpack(packed: seq<byte>, width: nat, channels: nat): seq<byte>
    requires channels in {3, 4} && |packed| == RowBytes(width, channels)
  {
    if channels == 4 then packed else UnpackRGB(packed, width)
  }

  // A four-channel stream keeps alpha; a three-channel stream accepts opaque pixels only.
  predicate Accepts(pixels: seq<byte>, width: nat, channels: nat)
    requires |pixels| == 4 * width
  {
    channels == 4 || AllOpaque(pixels, width)
  }

  lemma {:induction false} UnpackPackRGB(pixels: seq<byte>, packed: seq<byte>, n: nat)
    requires 4 * n <= |pixels| && AllOpaque(pixels, n)
    requires PackRGB(pixels, n) <= packed
    ensures UnpackRGB(packed, n) == pixels[..4 * n]
  {
    if n > 0 {
      assert PackRGB(pixels, n - 1) <= packed;
      UnpackPackRGB(pixels, packed, n - 1);
      assert packed[3 * n - 3..3 * n] == PackRGB(pixels, n)[3 * n - 3..3 * n] == pixels[4 * n - 4..4 * n - 1];
    }
  }

  /** Red, green and blue of pixel x are bytes 3x, 3x + 1 and 3x + 2 of a packed row. */
  lemma {:induction false} PackedColours(pixels: seq<byte>, n: nat, x: nat)
    requires 4 * n <= |pixels| && x < n
    ensures PackRGB(pixels, n)[3 * x] == pixels[4 * x]
    ensures PackRGB(pixels, n)[3 * x + 1] == pixels[4 * x + 1]
    ensures PackRGB(pixels, n)[3 * x + 2] == pixels[4 * x + 2]
  {
    if x < n - 1 {
      PackedColours(pixels, n - 1, x);
    }
  }

  lemma {:induction false} UnpackedColours(packed: seq<byte>, n: nat, x: nat)
    requires 3 * n <= |packed| && x < n
    ensures |UnpackRGB(packed, n)| == 4 * n
    ensures UnpackRGB(packed, n)[4 * x..4 * x + 3] == packed[3 * x..3 * x + 3]
    ensures UnpackRGB(packed, n)[4 * x + 3] == 255
  {
    if x < n - 1 {
      UnpackedColours(packed, n - 1, x);
    } else if n > 1 {
      UnpackedColours(packed, n - 1, 0);
    }
  }

  /** Every pixel of an accepted row survives packing. */
  lemma UnpackPack(pixels: seq<byte>, width: nat, channels: nat)
    requires |pixels| == 4 * width && channels in {3, 4} && Accepts(pixels, width, channels)
    ensures Unpack(Pack(pixels, width, channels), width, channels) == pixels
  {
    if channels == 3 {
      UnpackPackRGB(pixels, PackRGB(pixels, width), width);
      assert pixels[..4 * width] == pixels;
    }
  }

  lemma UnfoldOpaque(s: seq<byte>, x: nat)
    requires 4 * x + 16 <= |s|
    ensures AllOpaque(s, x + 4) <==>
            AllOpaque(s, x) && s[4 * x + 3] == 255 && s[4 * x + 7] == 255 && s[4 * x + 11] == 255 &&
            s[4 * x + 15] == 255
  {
    assert AllOpaque(s, x + 4) == (AllOpaque(s, x + 3) && s[4 * x + 15] == 255);
    assert AllOpaque(s, x + 3) == (AllOpaque(s, x + 2) && s[4 * x + 11] == 255);
    assert AllOpaque(s, x + 2) == (AllOpaque(s, x + 1) && s[4 * x + 7] == 255);
  }

  lemma OpaqueStep(s: seq<byte>, x: nat)
    requires 4 * x + 4 <= |s|
    ensures AllOpaque(s, x + 1) <==> AllOpaque(s, x) && s[4 * x + 3] == 255
  {
  }

  lemma PackStart(s: seq<byte>)
    ensures AllOpaque(s, 0) && PackRGB(s, 0) == []
  {
  }

  lemma {:induction false} OpaqueUpTo(s: seq<byte>, m: nat, n: nat)
    requires m <= n && 4 * n <= |s|
    ensures AllOpaque(s, n) ==> AllOpaque(s, m)
    decreases n
  {
    if m < n {
      OpaqueUpTo(s, m, n - 1);
    }
  }

  function RowBytes(width: nat, channels: nat): nat {
    if channels == 3 then 3 * width else 4 * width
  }

  // ----- what the compressor must receive -----

  function Zeros(n: nat): (z: seq<byte>)
    ensures |z| == n
  {
    seq(n, _ => 0)
  }

  predicate RowsFit(rows: seq<seq<byte>>, size: nat) {
    forall i :: 0 <= i < |rows| ==> |rows[i]| == size
  }

  /** The row above row k; the row above the first one is all zeros. */
  function Above(rows: seq<seq<byte>>, k: nat, size: nat): (above: seq<byte>)
    requires k <= |rows| && RowsFit(rows, size)
    ensures |above| == size
  {
    if k == 0 then Zeros(size) else rows[k - 1]
  }

  /** data is rows, each under its chosen filter against the row above it. */
  ghost predicate EncodesRows(data: seq<seq<byte>>, rows: seq<seq<byte>>, size: nat, bpp: nat)
    requires 0 < bpp && RowsFit(rows, size)
    decreases |rows|
  {
    var k := |rows| - 1;
    && |data| == |rows|
    && (rows != [] ==>
        EncodesRows(data[..k], rows[..k], size, bpp) &&
        EncodesRow(data[k], rows[k], Above(rows, k, size), bpp))
  }

  /** There is exactly one correct compressor input for an image, however its rows arrived. */
  lemma {:induction false} EncodesRowsUnique(data: seq<seq<byte>>, data': seq<seq<byte>>, rows: seq<seq<byte>>,
                                             size: nat, bpp: nat)
    requires 0 < bpp && RowsFit(rows, size)
    requires EncodesRows(data, rows, size, bpp) && EncodesRows(data', rows, size, bpp)
    ensures data == data'
    decreases |rows|
  {
    hide EncodesRow, Above;
    if rows != [] {
      var k := |rows| - 1;
      EncodesRowsUnique(data[..k], data'[..k], rows[..k], size, bpp);
      EncodesRowUnique(data[k], data'[k], rows[k], Above(rows, k, size), bpp);
      assert data == data[..k] + [data[k]] && data' == data'[..k] + [data'[k]];
    }
  }

  predicate Decodable(data: seq<seq<byte>>, size: nat) {
    forall k :: 0 <= k < |data| ==> |data[k]| == size + 1 && data[k][0] < 5
  }

  /** A decoder: reconstruct row after row, each against the row reconstructed before it. */
  function DecodeRows(data: seq<seq<byte>>, size: nat, bpp: nat): (rows: seq<seq<byte>>)
    requires 0 < bpp && Decodable(data, size)
    ensures |rows| == |data| && RowsFit(rows, size)
  {
    if data == [] then []
    else
      var k := |data| - 1;
      var done := DecodeRows(data[..k], size, bpp);
      done + [DecodeRow(data[k], Above(done, k, size), bpp)]
  }

  lemma {:induction false} EncodingDecodable(data: seq<seq<byte>>, rows: seq<seq<byte>>, size: nat, bpp: nat)
    requires 0 < bpp && RowsFit(rows, size) && EncodesRows(data, rows, size, bpp)
    ensures |data| == |rows| && Decodable(data, size)
    decreases |rows|
  {
    hide EncodesRow;
    if rows != [] {
      var k := |rows| - 1;
      EncodingDecodable(data[..k], rows[..k], size, bpp);
      RowShape(data[k], rows[k], Above(rows, k, size), bpp);
      hide *;
      assert data == data[..k] + [data[k]];
      DecodableAppend(data[..k], data[k], size);
    }
  }

  lemma DecodableAppend(data: seq<seq<byte>>, last: seq<byte>, size: nat)
    requires Decodable(data, size) && |last| == size + 1 && last[0] < 5
    ensures Decodable(data + [last], size)
  {
  }

  lemma RowShape(coded: seq<byte>, raw: seq<byte>, prior: seq<byte>, bpp: nat)
    requires 0 < bpp && |raw| == |prior| && EncodesRow(coded, raw, prior, bpp)
    ensures |coded| == |raw| + 1 && coded[0] < 5
  {
  }

  /** Decoding the compressor's input gives back every packed row of the image. */
  lemma {:induction false} DecodeEncodedRows(data: seq<seq<byte>>, rows: seq<seq<byte>>, size: nat, bpp: nat)
    requires 0 < bpp && RowsFit(rows, size) && Decodable(data, size) && EncodesRows(data, rows, size, bpp)
    ensures DecodeRows(data, size, bpp) == rows
    decreases |rows|
  {
    if rows != [] {
      var k := |rows| - 1;
      DecodeEncodedRows(data[..k], rows[..k], size, bpp);
      DecodeEncoded(FilterOfTag(data[k][0]), rows[k], Above(rows, k, size), bpp);
      assert rows == rows[..k] + [rows[k]];
    }
  }

  /** The encoder's state between rows: prior is the last row, and everything fed so far encodes the rows so far. */
  ghost predicate InStep(prior: seq<byte>, fed: seq<seq<byte>>, rows: seq<seq<byte>>, size: nat, bpp: nat) {
    && 0 < bpp && RowsFit(rows, size)
    && prior == Above(rows, |rows|, size)
    && EncodesRows(fed, rows, size, bpp)
  }

  lemma FirstRow(size: nat, bpp: nat)
    requires 0 < bpp
    ensures InStep(Zeros(size), [], [], size, bpp)
  {
  }

  lemma NextRow(prior: seq<byte>, fed: seq<seq<byte>>, rows: seq<seq<byte>>, coded: seq<byte>, row: seq<byte>,
                size: nat, bpp: nat)
    requires InStep(prior, fed, rows, size, bpp)
    requires |row| == size == |prior| && EncodesRow(coded, row, prior, bpp)
    ensures InStep(row, fed + [coded], rows + [row], size, bpp)
  {
    hide EncodesRow;
    assert (fed + [coded])[..|fed|] == fed && (rows + [row])[..|rows|] == rows;
  }

  lemma PutThree(before: seq<byte>, after: seq<byte>, at: nat, three: seq<byte>)
    requires |three| == 3 && 1 <= at && at + 3 <= |before|
    requires after == before[at := three[0]][at + 1 := three[1]][at + 2 := three[2]]
    ensures after[0] == before[0] && after[1..at + 3] == before[1..at] + three
  {
  }

  // ----- the row encoder -----

  method ZeroRow(size: nat) returns (row: array<byte>)
    ensures fresh(row) && row.Length == size + 1 && row[0] == 0 && row[1..] == Zeros(size)
  {
    row := new byte[size + 1];
    forall i | 0 <= i < size + 1 {
      row[i] := 0;
    }
  }

  class RowEncoder {
    var raw: array<byte>
    var prior: array<byte>
    var candidate0: array<byte>
    var candidate1: array<byte>
    var channels: nat
    var width: nat
    var room: nat
    var chunks: seq<Chunk>
    var fed: seq<seq<byte>>
    ghost var rows: seq<seq<byte>>
    ghost var Buffers: set<object>

    ghost predicate Valid()
      reads this, Buffers
    {
      && Buffers == {raw, prior, candidate0, candidate1}
      && raw != prior && raw != candidate0 && raw != candidate1
      && prior != candidate0 && prior != candidate1 && candidate0 != candidate1
      && channels in {3, 4} && 0 < width
      && raw.Length == prior.Length == candidate0.Length == candidate1.Length == 1 + RowBytes(width, channels)
      && raw[0] == 0
      && InStep(prior[1..], fed, rows, RowBytes(width, channels), channels)
    }

    constructor (room: nat)
      ensures this.room == room && chunks == [] && Buffers == {}
    {
      raw, prior, candidate0, candidate1 := new byte[0], new byte[0], new byte[0], new byte[0];
      channels, width, this.room := 3, 0, room;
      chunks, fed, rows := [], [], [];
      Buffers := {};
    }

    method Emit(chunk: Chunk) returns (r: Outcome)
      modifies this`room, this`chunks
      ensures if old(room) == 0 then r == Fail(WriteFailed) && room == 0 && chunks == old(chunks)
              else r == Ok && room == old(room) - 1 && chunks == old(chunks) + [chunk]
      ensures old(Valid()) ==> Valid()
    {
      hide InStep, RowBytes;
      if room == 0 {
        return Fail(WriteFailed);
      }
      room, chunks := room - 1, chunks + [chunk];
      return Ok;
    }

    /** Fresh row buffers for a new image: the row above the first one is cleared. */
    method Allocate()
      requires 0 < width && channels in {3, 4} && rows == [] && fed == []
      modifies this`raw, this`prior, this`candidate0, this`candidate1, this`Buffers
      ensures Valid() && fresh(Buffers)
    {
      hide InStep, RowBytes, Zeros;
      var size := RowBytes(width, channels);
      var row0 := ZeroRow(size);
      var row1 := ZeroRow(size);
      var row2 := ZeroRow(size);
      var row3 := ZeroRow(size);
      FirstRow(size, channels);
      raw, prior, candidate0, candidate1, Buffers := row0, row1, row2, row3, {row0, row1, row2, row3};
    }

    method Start(width: nat, height: nat, opaque_: bool) returns (r: Outcome)
      requires 0 < width
      modifies this
      ensures Valid() && fresh(Buffers) && rows == [] && fed == []
      ensures this.width == width && channels == (if opaque_ then 3 else 4)
      ensures if old(room) == 0 then r == Fail(WriteFailed) && room == 0 && chunks == []
              else r == Ok && chunks == [Header(width, height, if opaque_ then 2 else 6)]
    {
      hide InStep, RowBytes;
      channels := 4;
      if opaque_ {
        channels := 3;
      }
      this.width, chunks, fed, rows := width, [], [], [];
      Allocate();
      r := Emit(Header(width, height, if opaque_ then 2 else 6));
    }

    method CopyAll(sourceRow: seq<byte>)
      requires raw.Length == 1 + |sourceRow|
      modifies raw
      ensures raw[0] == old(raw[0]) && raw[1..] == sourceRow
    {
      for i := 0 to |sourceRow|
        invariant raw[0] == old(raw[0]) && raw[1..i + 1] == sourceRow[..i]
      {
        raw[i + 1] := sourceRow[i];
      }
      assert raw[1..] == raw[1..|sourceRow| + 1];
      assert sourceRow[..|sourceRow|] == sourceRow;
    }

    method CopyPixel(sourceRow: seq<byte>, x: nat)
      requires 4 * x + 4 <= |sourceRow| && 3 * x + 4 <= raw.Length
      requires raw[1..1 + 3 * x] == PackRGB(sourceRow, x)
      modifies raw
      ensures raw[0] == old(raw[0])
      ensures raw[1..1 + 3 * (x + 1)] == PackRGB(sourceRow, x + 1)
    {
      ghost var before := raw[..];
      var at, from := 1 + 3 * x, 4 * x;
      raw[at], raw[at + 1], raw[at + 2] := sourceRow[from], sourceRow[from + 1], sourceRow[from + 2];
      PutThree(before, raw[..], at, sourceRow[from..from + 3]);
    }

    method CopyFour(sourceRow: seq<byte>, x: nat)
      requires 4 * x + 16 <= |sourceRow| && 3 * x + 13 <= raw.Length
      requires raw[1..1 + 3 * x] == PackRGB(sourceRow, x)
      modifies raw
      ensures raw[0] == old(raw[0])
      ensures raw[1..1 + 3 * (x + 4)] == PackRGB(sourceRow, x + 4)
    {
      hide PackRGB;
      CopyPixel(sourceRow, x);
      CopyPixel(sourceRow, x + 1);
      CopyPixel(sourceRow, x + 2);
      CopyPixel(sourceRow, x + 3);
    }

    /** Copies the colour bytes of sourceRow into raw, dropping alpha on a three-channel stream. */
    method PackInto(sourceRow: seq<byte>) returns (r: Outcome)
      requires channels in {3, 4} && raw.Length == 1 + RowBytes(width, channels) && raw[0] == 0
      requires |sourceRow| == 4 * width
      modifies raw
      ensures raw[0] == 0
      ensures if Accepts(sourceRow, width, channels) then r == Ok && raw[1..] == Pack(sourceRow, width, channels)
              else r == Fail(Translucent)
    {
      if channels == 4 {
        CopyAll(sourceRow);
        return Ok;
      }
      r := PackThree(sourceRow);
    }

    method PackThree(sourceRow: seq<byte>) returns (r: Outcome)
      requires raw.Length == 1 + 3 * width && raw[0] == 0 && |sourceRow| == 4 * width
      modifies raw
      ensures raw[0] == 0
      ensures if AllOpaque(sourceRow, width) then r == Ok && raw[1..] == PackRGB(sourceRow, width)
              else r == Fail(Translucent)
    {
      hide PackRGB, AllOpaque;
      PackStart(sourceRow);
      var x := 0;
      while x + 4 <= width
        invariant x <= width && raw[0] == 0
        invariant AllOpaque(sourceRow, x) && raw[1..1 + 3 * x] == PackRGB(sourceRow, x)
      {
        UnfoldOpaque(sourceRow, x);
        OpaqueUpTo(sourceRow, x + 4, width);
        // The code tests the bitwise conjunction of the four alpha bytes, which is 255 exactly when each one is.
        if !(sourceRow[4 * x + 3] == 255 && sourceRow[4 * x + 7] == 255 && sourceRow[4 * x + 11] == 255 &&
             sourceRow[4 * x + 15] == 255) {
          return Fail(Translucent);
        }
        CopyFour(sourceRow, x);
        x := x + 4;
      }
      while x < width
        invariant x <= width && raw[0] == 0
        invariant AllOpaque(sourceRow, x) && raw[1..1 + 3 * x] == PackRGB(sourceRow, x)
      {
        OpaqueStep(sourceRow, x);
        OpaqueUpTo(sourceRow, x + 1, width);
        if sourceRow[4 * x + 3] != 255 {
          return Fail(Translucent);
        }
        CopyPixel(sourceRow, x);
        x := x + 1;
      }
      assert raw[1..] == raw[1..1 + 3 * width];
      return Ok;
    }

    method WriteRow(sourceRow: seq<byte>) returns (r: Outcome)
      requires Valid() && |sourceRow| == 4 * width
      modifies this, Buffers
      ensures Valid() && Buffers == old(Buffers) && width == old(width) && channels == old(channels)
      ensures chunks == old(chunks)
      ensures r.Ok? <==> Accepts(sourceRow, width, channels) && old(room) > 0
      ensures r.Ok? ==> rows == old(rows) + [Pack(sourceRow, width, channels)]
      ensures r.Fail? ==> rows == old(rows) && fed == old(fed)
                          && r.error == (if Accepts(sourceRow, width, channels) then WriteFailed else Translucent)
    {
      hide EncodesRow, InStep, Pack, Accepts;
      r := PackInto(sourceRow);
      if r.Fail? {
        return;
      }
      ghost var size := RowBytes(width, channels);
      ghost var line, above := raw[1..], prior[1..];
      var row := FilteredRow(raw, prior, candidate0, candidate1, channels);
      assert raw[1..] == line && prior[1..] == above;
      if room == 0 {
        return Fail(WriteFailed);
      }
      room := room - 1;
      NextRow(above, fed, rows, row[..], line, size, channels);
      fed, rows := fed + [row[..]], rows + [line];
      prior, raw := raw, prior;
      raw[0] := 0;
      assert prior[1..] == line;
      return Ok;
    }

    /** Closes the compressed stream and appends the trailer. */
    method Finish() returns (r: Outcome)
      modifies this`room, this`chunks
      ensures r.Ok? ==> chunks == old(chunks) + [Data(fed), End]
      ensures r.Fail? ==> r == Fail(WriteFailed)
      ensures r.Fail? ==> chunks == old(chunks) || chunks == old(chunks) + [Data(fed)]
    {
      r := Emit(Data(fed));
      if r.Ok? {
        r := Emit(End);
      }
    }
  }
}
