/**
 Writing a PNG as consecutive full-width bands arrive, and the proof that the split into bands cannot be seen
 in the file: it is the file of the whole image, and decoding it gives back every pixel.
 */
module PngBands {
  import opened Bytes
  import opened PngEncoder
  import O = Options

  const MAX_INT32: int := 0x7fff_ffff
  const MAX_INT: int := 0x7fff_ffff_ffff_ffff

  /** An NRGBA image: row y starts stride bytes after row y - 1 in pix; four bytes a pixel. */
  datatype Image = Image(minX: int, minY: int, maxX: int, maxY: int, stride: int, pix: seq<byte>) {
    function Dx(): int { maxX - minX }

    function Dy(): int { maxY - minY }

    predicate Stored() {
      && 0 < Dx() && 0 < Dy() && 4 * Dx() <= stride
      && Offset(stride, Dy() - 1) + 4 * Dx() <= |pix|
    }
  }

  function Offset(stride: int, row: nat): int {
    row * stride
  }

  lemma OffsetBound(stride: int, row: nat, last: nat)
    requires 0 <= stride && row <= last
    ensures 0 <= Offset(stride, row) <= Offset(stride, last)
  {
    assert Offset(stride, last) == Offset(stride, row) + (last - row) * stride;
  }

  /** The division the band encoder tests with bounds the last row's storage. */
  lemma StorageTest(length: int, stride: int, last: nat)
    requires 0 < stride && 0 <= length && last <= length / stride
    ensures Offset(stride, last) <= length
  {
    OffsetBound(stride, last, length / stride);
    assert Offset(stride, length / stride) + length % stride == length;
  }

  function PixelRow(img: Image, row: nat): (pixels: seq<byte>)
    requires img.Stored() && row < img.Dy()
    ensures |pixels| == 4 * img.Dx()
  {
    OffsetBound(img.stride, row, img.Dy() - 1);
    img.pix[Offset(img.stride, row)..Offset(img.stride, row) + 4 * img.Dx()]
  }

  /** The first n rows as the stream stores them. */
  function PackedRows(img: Image, channels: nat, n: nat): (rows: seq<seq<byte>>)
    requires img.Stored() && n <= img.Dy() && channels in {3, 4}
    ensures |rows| == n && RowsFit(rows, RowBytes(img.Dx(), channels))
  {
    if n == 0 then [] else PackedRows(img, channels, n - 1) + [Pack(PixelRow(img, n - 1), img.Dx(), channels)]
  }

  predicate AcceptsRows(img: Image, channels: nat, n: nat)
    requires img.Stored() && n <= img.Dy()
  {
    n == 0 || (AcceptsRows(img, channels, n - 1) && Accepts(PixelRow(img, n - 1), img.Dx(), channels))
  }

  // ----- splitting an image into bands -----

  /** Rows from up to to, sharing the pixel storage. */
  function SubImage(img: Image, from: int, to: int): (band: Image)
    requires img.Stored() && img.minY <= from < to <= img.maxY
    ensures band.Stored() && band.Dx() == img.Dx()
  {
    var skip := from - img.minY;
    OffsetBound(img.stride, skip, img.Dy() - 1);
    OffsetBound(img.stride, to - 1 - img.minY, img.Dy() - 1);
    OffsetSum(img.stride, skip, to - 1 - from);
    Image(img.minX, from, img.maxX, to, img.stride, img.pix[Offset(img.stride, skip)..])
  }

  lemma OffsetSum(stride: int, a: nat, b: nat)
    ensures Offset(stride, a + b) == Offset(stride, a) + Offset(stride, b)
  {
  }

  /** A band of the image, wherever its pixels are stored: full width, and the image's rows between its bounds. */
  ghost predicate IsBandOf(img: Image, band: Image)
    requires img.Stored()
  {
    && band.Stored() && band.minX == img.minX && band.maxX == img.maxX && img.minY <= band.minY && band.maxY <= img.maxY
    && forall r :: 0 <= r < band.Dy() ==> PixelRow(band, r) == PixelRow(img, band.minY - img.minY + r)
  }

  /** bands are the image cut at increasing rows, ending at row `upTo`. */
  ghost predicate Splits(img: Image, bands: seq<Image>, upTo: int)
    requires img.Stored()
    decreases |bands|
  {
    if bands == [] then upTo == img.minY
    else
      var last := bands[|bands| - 1];
      && last.maxY == upTo && IsBandOf(img, last)
      && Splits(img, bands[..|bands| - 1], last.minY)
  }

  predicate AllStored(bands: seq<Image>) {
    forall i :: 0 <= i < |bands| ==> bands[i].Stored()
  }

  function BandRows(bands: seq<Image>, channels: nat): seq<seq<byte>>
    requires AllStored(bands) && channels in {3, 4}
  {
    if bands == [] then []
    else
      var last := bands[|bands| - 1];
      BandRows(bands[..|bands| - 1], channels) + PackedRows(last, channels, last.Dy())
  }

  lemma SubImagePixelRow(img: Image, from: int, to: int, row: nat)
    requires img.Stored() && img.minY <= from < to <= img.maxY && row < to - from
    ensures PixelRow(SubImage(img, from, to), row) == PixelRow(img, from - img.minY + row)
  {
    var skip, w := from - img.minY, 4 * img.Dx();
    OffsetSum(img.stride, skip, row);
    OffsetBound(img.stride, skip + row, img.Dy() - 1);
    OffsetBound(img.stride, 0, skip);
    OffsetBound(img.stride, 0, row);
    hide Offset;
    SliceOfTail(img.pix, Offset(img.stride, skip), Offset(img.stride, row), w);
  }

  lemma SliceOfTail(s: seq<byte>, a: nat, b: nat, n: nat)
    requires a + b + n <= |s|
    ensures s[a..][b..b + n] == s[a + b..a + b + n]
  {
  }

  /** A view of some rows that shares the image's storage is one kind of band. */
  lemma SubImageIsBand(img: Image, from: int, to: int)
    requires img.Stored() && img.minY <= from < to <= img.maxY
    ensures IsBandOf(img, SubImage(img, from, to))
  {
    hide PixelRow;
    forall r | 0 <= r < to - from
      ensures PixelRow(SubImage(img, from, to), r) == PixelRow(img, from - img.minY + r)
    {
      SubImagePixelRow(img, from, to, r);
    }
  }

  lemma {:induction false} RowsOfBand(img: Image, band: Image, channels: nat, n: nat)
    requires img.Stored() && IsBandOf(img, band) && n <= band.Dy() && channels in {3, 4}
    ensures PackedRows(img, channels, band.minY - img.minY) + PackedRows(band, channels, n)
         == PackedRows(img, channels, band.minY - img.minY + n)
  {
    hide Pack, PixelRow;
    if n > 0 {
      RowsOfBand(img, band, channels, n - 1);
    }
  }

  /** However an image is cut, the bands bring exactly its rows, in order. */
  lemma {:induction false} BandRowsOfSplit(img: Image, bands: seq<Image>, upTo: int, channels: nat)
    requires img.Stored() && Splits(img, bands, upTo) && channels in {3, 4}
    ensures AllStored(bands) && img.minY <= upTo <= img.maxY
    ensures BandRows(bands, channels) == PackedRows(img, channels, upTo - img.minY)
    decreases |bands|
  {
    if bands != [] {
      var last := bands[|bands| - 1];
      hide Image.Stored, PixelRow;
      BandRowsOfSplit(img, bands[..|bands| - 1], last.minY, channels);
      RowsOfBand(img, last, channels, last.Dy());
      assert forall i :: 0 <= i < |bands| - 1 ==> bands[i] == bands[..|bands| - 1][i];
    }
  }

  // ----- the image that bands make up -----

  /** Bands from row 0 on, each of the same columns and starting where the one before ends. */
  predicate Consecutive(bands: seq<Image>, width: nat) {
    forall i :: 0 <= i < |bands| ==> FollowsOn(bands, i, width)
  }

  predicate FollowsOn(bands: seq<Image>, i: nat, width: nat)
    requires i < |bands|
  {
    && bands[i].Stored() && bands[i].minX == 0 && bands[i].maxX == width
    && bands[i].minY == if i == 0 then 0 else bands[i - 1].maxY
  }

  function RawRows(img: Image, n: nat): (rows: seq<seq<byte>>)
    requires img.Stored() && n <= img.Dy()
    ensures |rows| == n && RowsFit(rows, 4 * img.Dx())
    ensures forall y :: 0 <= y < n ==> rows[y] == PixelRow(img, y)
  {
    if n == 0 then [] else RawRows(img, n - 1) + [PixelRow(img, n - 1)]
  }

  function RawBands(bands: seq<Image>): seq<seq<byte>>
    requires AllStored(bands)
  {
    if bands == [] then []
    else
      var last := bands[|bands| - 1];
      RawBands(bands[..|bands| - 1]) + RawRows(last, last.Dy())
  }

  function Flat(rows: seq<seq<byte>>): seq<byte> {
    if rows == [] then [] else Flat(rows[..|rows| - 1]) + rows[|rows| - 1]
  }

  lemma {:induction false} FlatRow(rows: seq<seq<byte>>, w: nat, y: nat)
    requires RowsFit(rows, w)
    ensures |Flat(rows)| == Offset(w, |rows|)
    ensures y < |rows| ==> Offset(w, y) + w <= |Flat(rows)| && Flat(rows)[Offset(w, y)..Offset(w, y) + w] == rows[y]
  {
    hide Offset;
    OneRow(w);
    if rows != [] {
      var n := |rows| - 1;
      OffsetSum(w, n, 1);
      FlatRow(rows[..n], w, y);
      if y < n {
        assert rows[..n][y] == rows[y];
        OffsetBound(w, y, y);
        FrontSlice(Flat(rows[..n]), rows[n], Offset(w, y), w);
      } else {
        BackSlice(Flat(rows[..n]), rows[n]);
      }
    }
  }

  lemma OneRow(w: nat)
    ensures Offset(w, 0) == 0 && Offset(w, 1) == w
  {
  }

  lemma FrontSlice(a: seq<byte>, b: seq<byte>, from: nat, n: nat)
    requires from + n <= |a|
    ensures (a + b)[from..from + n] == a[from..from + n]
  {
  }

  lemma BackSlice(a: seq<byte>, b: seq<byte>)
    ensures (a + b)[|a|..|a| + |b|] == b
  {
  }

  lemma {:induction false} RawBandsFit(bands: seq<Image>, width: nat)
    requires Consecutive(bands, width)
    ensures AllStored(bands) && RowsFit(RawBands(bands), 4 * width)
    ensures |RawBands(bands)| == if bands == [] then 0 else bands[|bands| - 1].maxY
    decreases |bands|
  {
    hide PixelRow;
    if bands != [] {
      var n := |bands| - 1;
      ConsecutiveInit(bands, width);
      RawBandsFit(bands[..n], width);
      assert FollowsOn(bands, n, width);
    }
  }

  lemma ConsecutiveInit(bands: seq<Image>, width: nat)
    requires Consecutive(bands, width) && bands != []
    ensures Consecutive(bands[..|bands| - 1], width) && AllStored(bands[..|bands| - 1])
    ensures bands[|bands| - 1].minY == if |bands| == 1 then 0 else bands[|bands| - 2].maxY
  {
    hide Image.Stored;
    var init := bands[..|bands| - 1];
    forall i | 0 <= i < |init|
      ensures FollowsOn(init, i, width) && init[i].Stored()
    {
      assert FollowsOn(bands, i, width);
    }
    assert FollowsOn(bands, |bands| - 1, width);
  }

  /** Rows stored one after the other. */
  function OfRows(rows: seq<seq<byte>>, width: nat): Image {
    Image(0, 0, width, |rows|, 4 * width, Flat(rows))
  }

  lemma OfRowsStored(rows: seq<seq<byte>>, width: nat)
    requires rows != [] && 0 < width && RowsFit(rows, 4 * width)
    ensures OfRows(rows, width).Stored()
  {
    FlatRow(rows, 4 * width, |rows| - 1);
    hide Flat, Offset;
  }

  lemma OfRowsAt(rows: seq<seq<byte>>, width: nat, y: nat)
    requires y < |rows| && RowsFit(rows, 4 * width) && OfRows(rows, width).Stored()
    ensures PixelRow(OfRows(rows, width), y) == rows[y]
  {
    FlatRow(rows, 4 * width, y);
    hide Flat, Offset;
  }

  function Whole(bands: seq<Image>, width: nat): Image
    requires AllStored(bands)
  {
    OfRows(RawBands(bands), width)
  }

  lemma WholeRows(bands: seq<Image>, width: nat)
    requires bands != [] && Consecutive(bands, width)
    ensures AllStored(bands) && Whole(bands, width).Stored() && Whole(bands, width).maxY == |RawBands(bands)|
    ensures forall y :: 0 <= y < |RawBands(bands)| ==> PixelRow(Whole(bands, width), y) == RawBands(bands)[y]
  {
    hide Flat, RawBands, Consecutive, PixelRow, Image.Stored;
    WidthIs(bands, width);
    RawBandsFit(bands, width);
    OfRowsStored(RawBands(bands), width);
    forall y | 0 <= y < |RawBands(bands)|
      ensures PixelRow(Whole(bands, width), y) == RawBands(bands)[y]
    {
      OfRowsAt(RawBands(bands), width, y);
    }
  }

  lemma WidthIs(bands: seq<Image>, width: nat)
    requires bands != [] && Consecutive(bands, width)
    ensures AllStored(bands) && 0 < width && RawBands(bands) != []
  {
    hide RawRows;
    forall i | 0 <= i < |bands|
      ensures bands[i].Stored()
    {
      assert FollowsOn(bands, i, width);
    }
    assert FollowsOn(bands, |bands| - 1, width);
  }

  /** Whatever bands follow one another, they are a cut of the image they make up. */
  lemma {:induction false} WholeSplits(img: Image, bands: seq<Image>, width: nat)
    requires img.Stored() && img.minX == img.minY == 0 && img.maxX == width && Consecutive(bands, width)
    requires AllStored(bands) && |RawBands(bands)| <= img.maxY
    requires forall y :: 0 <= y < |RawBands(bands)| ==> PixelRow(img, y) == RawBands(bands)[y]
    ensures Splits(img, bands, |RawBands(bands)|)
    decreases |bands|
  {
    hide PixelRow, Consecutive, Image.Stored, RawRows;
    if bands != [] {
      var n := |bands| - 1;
      var last, front := bands[n], RawBands(bands[..n]);
      ConsecutiveInit(bands, width);
      RawBandsFit(bands, width);
      RawBandsFit(bands[..n], width);
      BandShape(bands, width);
      assert RawBands(bands) == front + RawRows(last, last.Dy());
      LastRows(img, last, front, RawBands(bands));
      WholeSplits(img, bands[..n], width);
    }
  }

  lemma LastRows(img: Image, last: Image, front: seq<seq<byte>>, rows: seq<seq<byte>>)
    requires img.Stored() && last.Stored() && rows == front + RawRows(last, last.Dy()) && |rows| <= img.Dy()
    requires forall y :: 0 <= y < |rows| ==> PixelRow(img, y) == rows[y]
    ensures forall y :: 0 <= y < |front| ==> PixelRow(img, y) == front[y]
    ensures forall r :: 0 <= r < last.Dy() ==> PixelRow(last, r) == PixelRow(img, |front| + r)
  {
    hide PixelRow, Image.Stored;
    forall y | 0 <= y < |front|
      ensures PixelRow(img, y) == front[y]
    {
      assert rows[y] == front[y];
    }
    forall r | 0 <= r < last.Dy()
      ensures PixelRow(last, r) == PixelRow(img, |front| + r)
    {
      assert rows[|front| + r] == RawRows(last, last.Dy())[r];
    }
  }

  lemma BandShape(bands: seq<Image>, width: nat)
    requires bands != [] && Consecutive(bands, width)
    ensures var last := bands[|bands| - 1]; last.Stored() && last.minX == 0 && last.maxX == width
  {
    hide Image.Stored;
    assert FollowsOn(bands, |bands| - 1, width);
  }

  predicate AllAccepted(bands: seq<Image>, channels: nat)
    requires AllStored(bands)
  {
    forall i :: 0 <= i < |bands| ==> AcceptsRows(bands[i], channels, bands[i].Dy())
  }

  lemma {:induction false} BandAccepts(img: Image, band: Image, channels: nat, n: nat)
    requires img.Stored() && IsBandOf(img, band) && n <= band.Dy()
    requires AcceptsRows(img, channels, band.minY - img.minY) && AcceptsRows(band, channels, n)
    ensures AcceptsRows(img, channels, band.minY - img.minY + n)
  {
    hide Accepts, PixelRow;
    if n > 0 {
      BandAccepts(img, band, channels, n - 1);
    }
  }

  /** If every band's rows are accepted, so are the image's. */
  lemma {:induction false} SplitAccepts(img: Image, bands: seq<Image>, upTo: int, channels: nat)
    requires img.Stored() && Splits(img, bands, upTo) && AllStored(bands) && AllAccepted(bands, channels)
    ensures img.minY <= upTo <= img.maxY && AcceptsRows(img, channels, upTo - img.minY)
    decreases |bands|
  {
    if bands != [] {
      var last := bands[|bands| - 1];
      assert AllAccepted(bands[..|bands| - 1], channels);
      SplitAccepts(img, bands[..|bands| - 1], last.minY, channels);
      BandAccepts(img, last, channels, last.Dy());
    }
  }

  /**
   The main result for bands: whatever split is used, the compressor receives what it receives for the whole
   image, and decoding that input row by row and unpacking gives back every pixel row of the image.
   */
  lemma BandsEncodeImage(img: Image, bands: seq<Image>, channels: nat, fedBands: seq<seq<byte>>,
                         fedImage: seq<seq<byte>>)
    requires img.Stored() && Splits(img, bands, img.maxY) && channels in {3, 4} && AcceptsRows(img, channels, img.Dy())
    requires AllStored(bands) && RowsFit(BandRows(bands, channels), RowBytes(img.Dx(), channels))
    requires EncodesRows(fedBands, BandRows(bands, channels), RowBytes(img.Dx(), channels), channels)
    requires EncodesRows(fedImage, PackedRows(img, channels, img.Dy()), RowBytes(img.Dx(), channels), channels)
    ensures fedBands == fedImage
    ensures Decodable(fedBands, RowBytes(img.Dx(), channels))
    ensures |DecodeRows(fedBands, RowBytes(img.Dx(), channels), channels)| == img.Dy()
    ensures forall y :: 0 <= y < img.Dy() ==>
              Unpack(DecodeRows(fedBands, RowBytes(img.Dx(), channels), channels)[y], img.Dx(), channels) ==
              PixelRow(img, y)
  {
    hide EncodesRows, Unpack, Pack;
    var size, rows := RowBytes(img.Dx(), channels), PackedRows(img, channels, img.Dy());
    BandRowsOfSplit(img, bands, img.maxY, channels);
    EncodesRowsUnique(fedBands, fedImage, rows, size, channels);
    EncodingDecodable(fedBands, rows, size, channels);
    DecodeEncodedRows(fedBands, rows, size, channels);
    forall y | 0 <= y < img.Dy()
      ensures Unpack(rows[y], img.Dx(), channels) == PixelRow(img, y)
    {
      UnpackRow(img, channels, img.Dy(), y);
    }
  }

  lemma {:induction false} UnpackRow(img: Image, channels: nat, n: nat, y: nat)
    requires img.Stored() && n <= img.Dy() && channels in {3, 4} && y < n && AcceptsRows(img, channels, n)
    ensures Unpack(PackedRows(img, channels, n)[y], img.Dx(), channels) == PixelRow(img, y)
  {
    hide Unpack, Pack, PixelRow, Accepts;
    if y == n - 1 {
      UnpackPack(PixelRow(img, y), img.Dx(), channels);
    } else {
      UnpackRow(img, channels, n - 1, y);
    }
  }

  // ----- the encoders -----

  /** Encodes a whole image on a three-channel stream. */
  method EncodeImage(e: RowEncoder, img: Image) returns (r: Outcome)
    requires img.Stored()
    modifies e
    ensures r.Ok? ==>
              && AcceptsRows(img, 3, img.Dy())
              && EncodesRows(e.fed, PackedRows(img, 3, img.Dy()), RowBytes(img.Dx(), 3), 3)
              && e.chunks == [Header(img.Dx(), img.Dy(), 2), Data(e.fed), End]
    ensures r == Fail(Translucent) ==> !AcceptsRows(img, 3, img.Dy())
  {
    hide InStep, EncodesRows, PackedRows, AcceptsRows;
    r := e.Start(img.Dx(), img.Dy(), true);
    if r.Fail? {
      return;
    }
    r := WriteRows(e, img);
    if r.Ok? {
      r := e.Finish();
    }
  }

  method WriteRows(e: RowEncoder, img: Image) returns (r: Outcome)
    requires img.Stored() && e.Valid() && e.width == img.Dx() && e.channels == 3 && e.rows == []
    requires e !in e.Buffers
    modifies e, e.Buffers
    ensures e.chunks == old(e.chunks)
    ensures r.Ok? ==> AcceptsRows(img, 3, img.Dy()) && EncodesRows(e.fed, PackedRows(img, 3, img.Dy()),
                                                                   RowBytes(img.Dx(), 3), 3)
    ensures r == Fail(Translucent) ==> !AcceptsRows(img, 3, img.Dy())
  {
    hide Accepts, Pack, PixelRow, InStep;
    for y := 0 to img.Dy()
      invariant e.Valid() && e.Buffers == old(e.Buffers) && e.width == img.Dx() && e.channels == 3
      invariant e.rows == PackedRows(img, 3, y) && AcceptsRows(img, 3, y)
      invariant e.chunks == old(e.chunks)
    {
      r := e.WriteRow(PixelRow(img, y));
      if r.Fail? {
        AcceptsUpTo(img, 3, y + 1, img.Dy());
        return;
      }
    }
    InStepEncodes(e.prior[1..], e.fed, e.rows, RowBytes(img.Dx(), 3), 3);
    return Ok;
  }

  lemma {:induction false} AcceptsUpTo(img: Image, channels: nat, m: nat, n: nat)
    requires img.Stored() && m <= n <= img.Dy()
    ensures AcceptsRows(img, channels, n) ==> AcceptsRows(img, channels, m)
    decreases n
  {
    if m < n {
      AcceptsUpTo(img, channels, m, n - 1);
    }
  }

  lemma InStepEncodes(prior: seq<byte>, fed: seq<seq<byte>>, rows: seq<seq<byte>>, size: nat, bpp: nat)
    requires InStep(prior, fed, rows, size, bpp)
    ensures 0 < bpp && RowsFit(rows, size) && EncodesRows(fed, rows, size, bpp)
  {
  }

  class BandEncoder {
    const native: RowEncoder
    var width: int
    var height: int
    var nextY: int
    var active: bool
    var err: Outcome
    var patience: nat

    /** Between calls a live stream holds exactly nextY rows, and no trailer exists unless all height rows are in. */
    ghost predicate Valid()
      reads this, native, native.Buffers
    {
      && this !in native.Buffers && native !in native.Buffers
      && (active && err.Ok? ==>
            && native.Valid() && 0 < width == native.width && 0 <= nextY <= height
            && |native.rows| == nextY
            && native.chunks == [Header(width, height, if native.channels == 3 then 2 else 6), Exif])
      && (End in native.chunks ==> !active || err.Fail?)
    }

    constructor (room: nat, patience: nat)
      ensures Valid() && !active && err.Ok? && fresh(native) && fresh(native.Buffers)
    {
      native := new RowEncoder(room);
      width, height, nextY, active, err := 0, 0, 0, false, Ok;
      this.patience := patience;
      new;
    }

    /** Whether the context is still alive; once cancelled it stays cancelled. */
    method Poll() returns (r: Outcome)
      modifies this`patience
      ensures r == if old(patience) == 0 then Fail(Cancelled) else Ok
      ensures old(patience) == 0 ==> patience == 0
    {
      if patience == 0 {
        return Fail(Cancelled);
      }
      patience := patience - 1;
      return Ok;
    }

    method Start(width: int, height: int, opaque_: bool) returns (r: Outcome)
      requires Valid()
      modifies this, native
      ensures Valid() && fresh(native.Buffers - old(native.Buffers))
      ensures old(active) ==> r == Fail(AlreadyStarted) && err == old(err) && active
      ensures r.Ok? ==> && active && err.Ok? && nextY == 0 && native.rows == []
                        && 0 < width == this.width && 0 < height == this.height
                        && native.channels == (if opaque_ then 3 else 4)
    {
      hide InStep, RowBytes, RowEncoder.Valid;
      if active {
        return Fail(AlreadyStarted);
      }
      Close();
      r := Poll();
      if r.Fail? {
        return;
      }
      if width <= 0 || height <= 0 || width > MAX_INT32 || height > MAX_INT32 || width > (MAX_INT / 4 - 1) / 4 {
        return Fail(BadDimensions);
      }
      this.width, this.height, active := width, height, true;
      err := native.Start(width, height, opaque_);
      if err.Fail? {
        return err;
      }
      err := native.Emit(Exif);
      return err;
    }

    /** Drops the band state; the row workspaces stay with the encoder. */
    method Close()
      requires Valid()
      modifies this
      ensures Valid() && !active && err.Ok? && nextY == 0
      ensures patience == old(patience)
    {
      width, height, nextY, active, err := 0, 0, 0, false, Ok;
    }

    /**
     Accepts the next band or fails for good: after a failure every further call reports the same error. An
     accepted band adds exactly its packed rows; a rejected one adds at most the rows before the failure.
     */
    method Append(band: O.Option<Image>) returns (r: Outcome)
      requires Valid()
      modifies this, native, native.Buffers
      ensures Valid() && native.Buffers == old(native.Buffers) && native.channels == old(native.channels)
      ensures active == old(active) && width == old(width) && height == old(height)
      ensures old(err).Fail? ==> r == old(err) && err == old(err) && native.rows == old(native.rows)
      ensures old(err).Ok? && !old(active) ==> r == Fail(NotStarted) && err.Ok? && native.rows == old(native.rows)
      ensures old(err).Ok? && old(active) ==> r == err && old(native.rows) <= native.rows
      ensures r.Ok? ==>
                && active && band.Some? && band.value.Stored()
                && band.value.minX == 0 && band.value.maxX == width
                && band.value.minY == old(nextY) && nextY == band.value.maxY <= height
                && native.rows == old(native.rows) + PackedRows(band.value, native.channels, band.value.Dy())
                && AcceptsRows(band.value, native.channels, band.value.Dy())
    {
      if err.Fail? {
        return err;
      }
      if !active {
        return Fail(NotStarted);
      }
      err := Poll();
      if err.Fail? {
        return err;
      }
      if band.None? {
        err := Fail(NilBand);
        return err;
      }
      var b := band.value;
      if b.minX != 0 || b.maxX != width || b.minY != nextY || b.maxY <= b.minY || b.maxY > height {
        err := Fail(BadBand);
        return err;
      }
      var rowBytes := 4 * width;
      if b.stride < rowBytes || |b.pix| < rowBytes || b.Dy() - 1 > (|b.pix| - rowBytes) / b.stride {
        err := Fail(BadStorage);
        return err;
      }
      StorageTest(|b.pix| - rowBytes, b.stride, b.Dy() - 1);
      err := AppendRows(b);
      if err.Ok? {
        err := Poll();
      }
      return err;
    }

    method AppendRows(b: Image) returns (r: Outcome)
      requires Valid() && active && err.Ok?
      requires b.Stored() && b.Dx() == width && b.minY == nextY && b.maxY <= height
      modifies this`nextY, this`patience, native, native.Buffers
      ensures native.Valid() && native.Buffers == old(native.Buffers) && native.width == width
      ensures native.channels == old(native.channels) && native.chunks == old(native.chunks)
      ensures old(native.rows) <= native.rows && |native.rows| == nextY <= height
      ensures r.Ok? ==> && nextY == b.maxY
                        && native.rows == old(native.rows) + PackedRows(b, native.channels, b.Dy())
                        && AcceptsRows(b, native.channels, b.Dy())
    {
      hide Accepts, Pack, PixelRow, InStep;
      ghost var before := native.rows;
      for row := 0 to b.Dy()
        invariant native.Valid() && native.Buffers == old(native.Buffers) && native.width == width
        invariant native.channels == old(native.channels) && native.chunks == old(native.chunks)
        invariant nextY == b.minY + row && |native.rows| == nextY
        invariant native.rows == before + PackedRows(b, native.channels, row)
        invariant AcceptsRows(b, native.channels, row)
      {
        r := Poll();
        if r.Fail? {
          return;
        }
        r := native.WriteRow(PixelRow(b, row));
        if r.Fail? {
          return;
        }
        nextY := nextY + 1;
      }
      return Ok;
    }

    /** Reaches the trailer only with exactly height rows in the stream. */
    method Finish() returns (r: Outcome)
      requires Valid()
      modifies this, native`room, native`chunks
      ensures Valid() && native.rows == old(native.rows) && width == old(width) && height == old(height)
      ensures old(err).Ok? && old(active) && old(nextY) != height ==>
              r == Fail(WrongRowCount) &&
              native.chunks == old(native.chunks)
      ensures End in native.chunks ==> End in old(native.chunks) || |native.rows| == height
      ensures r.Ok? ==>
                && |native.rows| == height && native.Valid() && 0 < width == native.width
                && native.channels in {3, 4} && RowsFit(native.rows, RowBytes(width, native.channels))
                && native.chunks == [Header(width, height, if native.channels == 3 then 2 else 6), Exif,
                                     Data(native.fed), End]
                && EncodesRows(native.fed, native.rows, RowBytes(width, native.channels), native.channels)
    {
      if err.Fail? {
        return err;
      }
      if !active {
        return Fail(NotStarted);
      }
      if nextY != height {
        err := Fail(WrongRowCount);
        return err;
      }
      err := Poll();
      if err.Fail? {
        return err;
      }
      hide InStep;
      InStepEncodes(native.prior[1..], native.fed, native.rows, RowBytes(width, native.channels), native.channels);
      err := native.Finish();
      if err.Ok? {
        err := Poll();
      }
      active := false;
      return err;
    }
  }

  /** The file of the whole image: its header and, decoded row by row and unpacked, its pixels. */
  ghost predicate IsFileOf(chunks: seq<Chunk>, fed: seq<seq<byte>>, img: Image)
    requires img.Stored()
  {
    var size := RowBytes(img.Dx(), 3);
    && chunks == [Header(img.Dx(), img.Dy(), 2), Exif, Data(fed), End]
    && AcceptsRows(img, 3, img.Dy()) && EncodesRows(fed, PackedRows(img, 3, img.Dy()), size, 3)
    && Decodable(fed, size) && |DecodeRows(fed, size, 3)| == img.Dy()
    && forall y :: 0 <= y < img.Dy() ==> Unpack(DecodeRows(fed, size, 3)[y], img.Dx(), 3) == PixelRow(img, y)
  }

  /** In the file of an image, row y decodes to the red, green and blue of each of its pixels, in this order. */
  lemma FileColours(chunks: seq<Chunk>, fed: seq<seq<byte>>, img: Image, x: nat, y: nat)
    requires img.Stored() && IsFileOf(chunks, fed, img) && x < img.Dx() && y < img.Dy()
    ensures var row := DecodeRows(fed, 3 * img.Dx(), 3)[y];
            |row| == 3 * img.Dx() &&
            row[3 * x..3 * x + 3] == PixelRow(img, y)[4 * x..4 * x + 3] && PixelRow(img, y)[4 * x + 3] == 255
  {
    hide DecodeRows, EncodesRows, PixelRow, AcceptsRows, PackedRows;
    var row := DecodeRows(fed, 3 * img.Dx(), 3)[y];
    assert Unpack(row, img.Dx(), 3) == PixelRow(img, y);
    UnpackedColours(row, img.Dx(), x);
  }

  lemma FileOfSplit(chunks: seq<Chunk>, fed: seq<seq<byte>>, img: Image, bands: seq<Image>, width: nat, height: nat)
    requires img.Stored() && Splits(img, bands, img.maxY) && AllStored(bands) && AllAccepted(bands, 3)
    requires bands != [] ==> bands[0].Dx() == width
    requires |BandRows(bands, 3)| == height && chunks == [Header(width, height, 2), Exif, Data(fed), End]
    requires RowsFit(BandRows(bands, 3), RowBytes(width, 3))
    requires EncodesRows(fed, BandRows(bands, 3), RowBytes(width, 3), 3)
    ensures IsFileOf(chunks, fed, img)
  {
    hide EncodesRows, Unpack, Pack, AcceptsRows, SubImage, PackedRows, BandRows;
    BandRowsOfSplit(img, bands, img.maxY, 3);
    SplitAccepts(img, bands, img.maxY, 3);
    SplitWidth(img, bands, img.maxY);
    BandsEncodeImage(img, bands, 3, fed, fed);
  }

  /** The file the bands make is the file of every image they are a cut of. */
  lemma FileOfBands(chunks: seq<Chunk>, fed: seq<seq<byte>>, bands: seq<Image>, rows: seq<seq<byte>>)
    requires bands != [] && AllStored(bands) && AllAccepted(bands, 3) && rows == BandRows(bands, 3)
    requires 0 < bands[0].Dx() && chunks == [Header(bands[0].Dx(), |rows|, 2), Exif, Data(fed), End]
    requires RowsFit(rows, RowBytes(bands[0].Dx(), 3)) && EncodesRows(fed, rows, RowBytes(bands[0].Dx(), 3), 3)
    ensures forall img: Image :: img.Stored() && Splits(img, bands, img.maxY) ==> IsFileOf(chunks, fed, img)
    ensures Decodable(fed, RowBytes(bands[0].Dx(), 3)) && DecodeRows(fed, RowBytes(bands[0].Dx(), 3), 3) == rows
  {
    hide *;
    EncodingDecodable(fed, rows, RowBytes(bands[0].Dx(), 3), 3);
    DecodeEncodedRows(fed, rows, RowBytes(bands[0].Dx(), 3), 3);
    forall img: Image | img.Stored() && Splits(img, bands, img.maxY)
      ensures IsFileOf(chunks, fed, img)
    {
      FileOfSplit(chunks, fed, img, bands, bands[0].Dx(), |rows|);
    }
  }

  lemma WholeIsCut(bands: seq<Image>, width: nat)
    requires bands != [] && Consecutive(bands, width)
    ensures AllStored(bands) && Whole(bands, width).Stored()
    ensures Splits(Whole(bands, width), bands, Whole(bands, width).maxY)
  {
    hide Splits, PixelRow, Consecutive, RawBands, Flat;
    WholeRows(bands, width);
    WholeSplits(Whole(bands, width), bands, width);
  }

  lemma {:induction false} SplitWidth(img: Image, bands: seq<Image>, upTo: int)
    requires img.Stored() && Splits(img, bands, upTo)
    ensures forall i :: 0 <= i < |bands| ==> bands[i].Dx() == img.Dx()
    ensures bands == [] ==> upTo == img.minY
    decreases |bands|
  {
    if bands != [] {
      SplitWidth(img, bands[..|bands| - 1], bands[|bands| - 1].minY);
      assert forall i :: 0 <= i < |bands| - 1 ==> bands[i] == bands[..|bands| - 1][i];
    }
  }

  /**
   Encodes the bands of a rendering as they arrive, starting the stream with the first. Success means that the bands
   follow one another and have the announced height, that the file decodes to exactly their rows, and that it is the
   file of every image the bands are a cut of; there is one, the bands put together.
   */
  method EncodePNGBands(e: BandEncoder, bands: seq<Image>, height: int) returns (r: Outcome)
    requires e.Valid() && !e.active
    modifies e, e.native, e.native.Buffers
    ensures e.Valid() && !e.active && e.err.Ok?
    ensures bands == [] ==> r == Fail(NoRows)
    ensures r.Ok? ==> bands != [] && AllStored(bands) && |BandRows(bands, 3)| == height
    ensures r.Ok? ==> var width, rows := bands[0].Dx(), BandRows(bands, 3);
              && Consecutive(bands, width) && AllAccepted(bands, 3)
              && e.native.chunks == [Header(width, height, 2), Exif, Data(e.native.fed), End]
              && RowsFit(rows, RowBytes(width, 3)) && EncodesRows(e.native.fed, rows, RowBytes(width, 3), 3)
              && Decodable(e.native.fed, RowBytes(width, 3))
              && DecodeRows(e.native.fed, RowBytes(width, 3), 3) == rows
    ensures r.Ok? ==> Whole(bands, bands[0].Dx()).Stored()
                      && IsFileOf(e.native.chunks, e.native.fed, Whole(bands, bands[0].Dx()))
    ensures r.Ok? ==> forall img: Image :: img.Stored() && Splits(img, bands, img.maxY) ==>
                        IsFileOf(e.native.chunks, e.native.fed, img)
  {
    hide EncodesRows, BandEncoder.Valid, RowEncoder.Valid, AllAccepted, Splits, IsFileOf, BandRows, RowsFit,
      Consecutive, Whole, Decodable, DecodeRows;
    r := AppendBands(e, bands, height);
    if r.Ok? {
      if bands == [] {
        r := Fail(NoRows);
      } else {
        r := e.Finish();
        if r.Ok? {
          FileOfBands(e.native.chunks, e.native.fed, bands, e.native.rows);
          WholeIsCut(bands, bands[0].Dx());
        }
      }
    }
    e.Close();
  }

  method AppendBands(e: BandEncoder, bands: seq<Image>, height: int) returns (r: Outcome)
    requires e.Valid() && !e.active
    modifies e, e.native, e.native.Buffers
    ensures e.Valid() && fresh(e.native.Buffers - old(e.native.Buffers))
    ensures bands == [] ==> r.Ok?
    ensures r.Ok? && bands != [] ==>
              && AllStored(bands) && AllAccepted(bands, 3) && e.native.channels == 3
              && e.width == bands[0].Dx() && e.height == height && e.native.rows == BandRows(bands, 3)
              && Consecutive(bands, bands[0].Dx())
  {
    hide BandEncoder.Valid, RowEncoder.Valid, AcceptsRows, PackedRows;
    var started := false;
    r := Ok;
    for i := 0 to |bands|
      invariant e.Valid() && fresh(e.native.Buffers - old(e.native.Buffers)) && r.Ok?
      invariant started == (i > 0) && (!started ==> !e.active)
      invariant started ==> e.width == bands[0].Dx() && e.height == height && e.native.channels == 3
      invariant AllStored(bands[..i]) && AllAccepted(bands[..i], 3)
      invariant started ==> e.native.rows == BandRows(bands[..i], 3)
      invariant started ==> Consecutive(bands[..i], bands[0].Dx()) && e.nextY == bands[i - 1].maxY
    {
      if !started {
        r := e.Start(bands[i].Dx(), height, true);
        if r.Fail? {
          return;
        }
        started := true;
      }
      r := e.Append(O.Some(bands[i]));
      if r.Fail? {
        return;
      }
      assert bands[..i + 1] == bands[..i] + [bands[i]];
      BandRowsMore(bands[..i], bands[i]);
      ConsecutiveMore(bands[..i], bands[i], bands[0].Dx());
    }
    assert bands[..|bands|] == bands;
  }

  lemma ConsecutiveMore(bands: seq<Image>, band: Image, width: nat)
    requires Consecutive(bands, width) && band.Stored() && band.minX == 0 && band.maxX == width
    requires band.minY == if bands == [] then 0 else bands[|bands| - 1].maxY
    ensures Consecutive(bands + [band], width)
  {
    hide Image.Stored;
    var more := bands + [band];
    forall i | 0 <= i < |more|
      ensures FollowsOn(more, i, width)
    {
      if i < |bands| {
        assert FollowsOn(bands, i, width);
      }
    }
  }

  lemma BandRowsMore(bands: seq<Image>, band: Image)
    requires AllStored(bands) && band.Stored()
    ensures AllStored(bands + [band])
    ensures BandRows(bands + [band], 3) == BandRows(bands, 3) + PackedRows(band, 3, band.Dy())
  {
    assert (bands + [band])[..|bands|] == bands;
  }
}
