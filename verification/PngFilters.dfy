/**
 The five row filters of the streaming PNG encoder, the reconstruction that undoes them
 (section 9 of the PNG Specification, ISO/IEC 15948), and the cost by which a filter is chosen.
 Row arrays carry the filter tag in byte 0, so pixel byte i of a row sits at index i + 1.
 */
module PngFilters {
  import opened Bytes

  datatype Filter = None | Sub | Up | Average | Paeth {
    function Tag(): byte {
      match this
      case None => 0
      case Sub => 1
      case Up => 2
      case Average => 3
      case Paeth => 4
    }

    /** Position in the tie-breaking order: Up wins ties, then Paeth, None, Sub, Average. */
    function Rank(): nat {
      match this
      case Up => 0
      case Paeth => 1
      case None => 2
      case Sub => 3
      case Average => 4
    }
  }

  // Byte arithmetic wraps modulo 256.
  function Minus(a: byte, b: byte): byte {
    if a >= b then a - b else a - b + 256
  }

  function Plus(a: byte, b: byte): byte {
    if a + b < 256 then a + b else a + b - 256
  }

  // Computed without overflow and rounded down.
  function Mean(a: byte, b: byte): byte {
    (a + b) / 2
  }

  // Magnitude of the byte read as a signed 8-bit number.
  function AbsSigned(v: byte): nat {
    if v < 128 then v else 256 - v
  }

  function Abs(x: int): nat {
    if x < 0 then -x else x
  }

  /** PaethPredictor of section 9.4: a is left, b above, c upper left. */
  function PaethPredictor(a: byte, b: byte, c: byte): byte {
    var p := a + b - c;
    if Abs(p - a) <= Abs(p - b) && Abs(p - a) <= Abs(p - c) then a
    else if Abs(p - b) <= Abs(p - c) then b
    else c
  }

  /**
   The predictor is the one of the three nearest to a + b - c; when there are several, left goes before above and above
   before upper left.
   */
  lemma PaethIsNearest(a: byte, b: byte, c: byte)
    ensures var r, p := PaethPredictor(a, b, c), a + b - c;
            && (r == a || r == b || r == c)
            && Abs(p - r) <= Abs(p - a) && Abs(p - r) <= Abs(p - b) && Abs(p - r) <= Abs(p - c)
            && (Abs(p - r) == Abs(p - a) ==> r == a)
            && (Abs(p - r) == Abs(p - b) ==> r == a || r == b)
  {
  }

  lemma MeanRoundsDown(a: byte, b: byte)
    ensures 2 * Mean(a, b) <= a + b < 2 * Mean(a, b) + 2
  {
  }

  function Left(row: seq<byte>, bpp: nat, i: nat): byte
    requires 0 < bpp && i <= |row|
  {
    if i < bpp then 0 else row[i - bpp]
  }

  /** The prediction for byte i; it reads only the first i bytes of row, so a decoder can make it too. */
  function Predict(f: Filter, row: seq<byte>, prior: seq<byte>, bpp: nat, i: nat): byte
    requires 0 < bpp && i <= |row| && i < |prior|
  {
    match f
    case None => 0
    case Sub => Left(row, bpp, i)
    case Up => prior[i]
    case Average => Mean(Left(row, bpp, i), prior[i])
    case Paeth => PaethPredictor(Left(row, bpp, i), prior[i], Left(prior, bpp, i))
  }

  function Filtered(f: Filter, raw: seq<byte>, prior: seq<byte>, bpp: nat): (r: seq<byte>)
    requires 0 < bpp && |raw| == |prior|
    ensures |r| == |raw|
  {
    seq(|raw|, i requires 0 <= i < |raw| => Minus(raw[i], Predict(f, raw, prior, bpp, i)))
  }

  /** Filter tag followed by the filtered bytes: what the compressor receives for one row. */
  function Encoded(f: Filter, raw: seq<byte>, prior: seq<byte>, bpp: nat): (r: seq<byte>)
    requires 0 < bpp && |raw| == |prior|
    ensures |r| == |raw| + 1
  {
    [f.Tag()] + Filtered(f, raw, prior, bpp)
  }

  // ----- reconstruction -----

  function Unfilter(f: Filter, data: seq<byte>, prior: seq<byte>, bpp: nat): (recon: seq<byte>)
    requires 0 < bpp && |data| <= |prior|
    ensures |recon| == |data|
  {
    if data == [] then []
    else
      var k := |data| - 1;
      var done := Unfilter(f, data[..k], prior, bpp);
      done + [Plus(data[k], Predict(f, done, prior, bpp, k))]
  }

  /** The reconstruction functions of section 9.2: a is left, b above, c upper left, x the filtered byte. */
  predicate IsReconstructed(f: Filter, x: int, a: byte, b: byte, c: byte, r: int) {
    && (f.None? ==> r == x)
    && (f.Sub? ==> r == (x + a) % 256)
    && (f.Up? ==> r == (x + b) % 256)
    && (f.Average? ==> r == (x + (a as int + b as int) / 2) % 256)
    && (f.Paeth? ==> r == (x + PaethPredictor(a, b, c)) % 256)
  }

  /** Byte by byte as the standard has it: the filtered byte plus what the filter predicts from the bytes around. */
  lemma {:induction false} UnfilterAt(f: Filter, data: seq<byte>, prior: seq<byte>, bpp: nat, i: nat)
    requires 0 < bpp && |data| <= |prior| && i < |data|
    ensures var recon := Unfilter(f, data, prior, bpp);
            IsReconstructed(f, data[i], if i < bpp then 0 else recon[i - bpp], prior[i],
                            if i < bpp then 0 else prior[i - bpp], recon[i])
    decreases |data|
  {
    hide IsReconstructed;
    var k := |data| - 1;
    var done := Unfilter(f, data[..k], prior, bpp);
    if i < k {
      UnfilterAt(f, data[..k], prior, bpp, i);
    } else {
      PlusIs(f, data[k], if k < bpp then 0 else done[k - bpp], prior[k], if k < bpp then 0 else prior[k - bpp]);
    }
  }

  lemma PlusIs(f: Filter, x: byte, a: byte, b: byte, c: byte)
    ensures IsReconstructed(f, x, a, b, c, Plus(x, match f
                                                   case None => 0
                                                   case Sub => a
                                                   case Up => b
                                                   case Average => Mean(a, b)
                                                   case Paeth => PaethPredictor(a, b, c)))
  {
    hide PaethPredictor;
  }

  function FilterOfTag(t: byte): Filter
    requires t < 5
  {
    if t == 0 then None else if t == 1 then Sub else if t == 2 then Up else if t == 3 then Average else Paeth
  }

  function DecodeRow(row: seq<byte>, prior: seq<byte>, bpp: nat): (recon: seq<byte>)
    requires 0 < bpp && 0 < |row| == |prior| + 1 && row[0] < 5
    ensures |recon| == |prior|
  {
    Unfilter(FilterOfTag(row[0]), row[1..], prior, bpp)
  }

  lemma {:induction false} UnfilterPrefix(f: Filter, raw: seq<byte>, prior: seq<byte>, bpp: nat, n: nat)
    requires 0 < bpp && |raw| == |prior| && n <= |raw|
    ensures Unfilter(f, Filtered(f, raw, prior, bpp)[..n], prior, bpp) == raw[..n]
  {
    var data := Filtered(f, raw, prior, bpp);
    if n > 0 {
      UnfilterPrefix(f, raw, prior, bpp, n - 1);
      assert data[..n][..n - 1] == data[..n - 1];
      assert Predict(f, raw[..n - 1], prior, bpp, n - 1) == Predict(f, raw, prior, bpp, n - 1);
    }
  }

  /** Reconstruction inverts every filter on every row. */
  lemma DecodeEncoded(f: Filter, raw: seq<byte>, prior: seq<byte>, bpp: nat)
    requires 0 < bpp && |raw| == |prior|
    ensures DecodeRow(Encoded(f, raw, prior, bpp), prior, bpp) == raw
  {
    var data := Filtered(f, raw, prior, bpp);
    UnfilterPrefix(f, raw, prior, bpp, |raw|);
    assert data[..|raw|] == data && raw[..|raw|] == raw;
    assert Encoded(f, raw, prior, bpp)[1..] == data;
  }

  // ----- cost -----

  function Sum(s: seq<byte>): nat {
    if s == [] then 0 else Sum(s[..|s| - 1]) + AbsSigned(s[|s| - 1])
  }

  function Cost(f: Filter, raw: seq<byte>, prior: seq<byte>, bpp: nat): nat
    requires 0 < bpp && |raw| == |prior|
  {
    Sum(Filtered(f, raw, prior, bpp))
  }

  lemma {:induction false} SumPrefix(s: seq<byte>, n: nat)
    requires n <= |s|
    ensures Sum(s[..n]) <= Sum(s)
    ensures n < |s| ==> Sum(s[..n + 1]) == Sum(s[..n]) + AbsSigned(s[n])
    decreases |s| - n
  {
    if n < |s| {
      assert s[..n + 1][..n] == s[..n];
      SumPrefix(s, n + 1);
    } else {
      assert s[..n] == s;
    }
  }

  lemma {:induction false} SumZero(s: seq<byte>)
    requires forall i :: 0 <= i < |s| ==> s[i] == 0
    ensures Sum(s) == 0
  {
    if s != [] {
      SumZero(s[..|s| - 1]);
    }
  }

  /** f costs no more than any filter, and strictly less than every filter that would win a tie against it. */
  ghost predicate Chosen(f: Filter, raw: seq<byte>, prior: seq<byte>, bpp: nat)
    requires 0 < bpp && |raw| == |prior|
  {
    forall g: Filter ::
      Cost(f, raw, prior, bpp) < Cost(g, raw, prior, bpp)
      || (Cost(f, raw, prior, bpp) == Cost(g, raw, prior, bpp) && f.Rank() <= g.Rank())
  }

  /** The choice determines one filter, so the encoded row is a function of the raw and prior rows. */
  lemma ChosenUnique(f: Filter, g: Filter, raw: seq<byte>, prior: seq<byte>, bpp: nat)
    requires 0 < bpp && |raw| == |prior|
    requires Chosen(f, raw, prior, bpp) && Chosen(g, raw, prior, bpp)
    ensures f == g
  {
    assert f.Rank() <= g.Rank() && g.Rank() <= f.Rank();
  }

  /** Comparing a candidate against the five costs in rank order settles the choice. */
  lemma Settle(f: Filter, raw: seq<byte>, prior: seq<byte>, bpp: nat, best: nat)
    requires 0 < bpp && |raw| == |prior|
    requires best == Cost(f, raw, prior, bpp)
    requires BeatsRest(f, best, raw, prior, bpp) && Beaten(f, best, Average, raw, prior, bpp)
    ensures Chosen(f, raw, prior, bpp)
  {
    hide Cost;
    forall g: Filter
      ensures best < Cost(g, raw, prior, bpp) || (best == Cost(g, raw, prior, bpp) && f.Rank() <= g.Rank())
    {
      match g
      case None =>
      case Sub =>
      case Up =>
      case Average =>
      case Paeth =>
    }
  }

  ghost predicate Beaten(f: Filter, best: nat, g: Filter, raw: seq<byte>, prior: seq<byte>, bpp: nat)
    requires 0 < bpp && |raw| == |prior|
  {
    best < Cost(g, raw, prior, bpp) || (best == Cost(g, raw, prior, bpp) && f.Rank() <= g.Rank())
  }

  ghost predicate BeatsRest(f: Filter, best: nat, raw: seq<byte>, prior: seq<byte>, bpp: nat)
    requires 0 < bpp && |raw| == |prior|
  {
    && Beaten(f, best, Up, raw, prior, bpp) && Beaten(f, best, Paeth, raw, prior, bpp)
    && Beaten(f, best, None, raw, prior, bpp) && Beaten(f, best, Sub, raw, prior, bpp)
  }

  /** coded is raw under the filter chosen against the row above. */
  ghost predicate EncodesRow(coded: seq<byte>, raw: seq<byte>, prior: seq<byte>, bpp: nat)
    requires 0 < bpp && |raw| == |prior|
  {
    && |coded| == |raw| + 1 && coded[0] < 5
    && Chosen(FilterOfTag(coded[0]), raw, prior, bpp)
    && coded == Encoded(FilterOfTag(coded[0]), raw, prior, bpp)
  }

  lemma EncodesRowUnique(coded: seq<byte>, coded': seq<byte>, raw: seq<byte>, prior: seq<byte>, bpp: nat)
    requires 0 < bpp && |raw| == |prior| && EncodesRow(coded, raw, prior, bpp) && EncodesRow(coded', raw, prior, bpp)
    ensures coded == coded'
  {
    hide Chosen, Encoded;
    ChosenUnique(FilterOfTag(coded[0]), FilterOfTag(coded'[0]), raw, prior, bpp);
  }

  lemma NoneRow(raw: seq<byte>, prior: seq<byte>, bpp: nat)
    requires 0 < bpp && |raw| == |prior|
    ensures Encoded(None, raw, prior, bpp) == [0] + raw
  {
    assert Filtered(None, raw, prior, bpp) == raw;
  }

  lemma RowIsEncoded(f: Filter, raw: seq<byte>, prior: seq<byte>, bpp: nat)
    requires 0 < bpp && |raw| == |prior| && Chosen(f, raw, prior, bpp)
    ensures EncodesRow(Encoded(f, raw, prior, bpp), raw, prior, bpp)
  {
    hide Chosen;
    assert FilterOfTag(f.Tag()) == f;
  }

  // ----- the filters as they run, with early cut-off -----

  /**
   What one filter pass promises: below the cut-off the destination holds the complete encoded row and
   the cost is exact; at or above it only that the true cost also reaches the cut-off.
   */
  ghost predicate Scored(f: Filter, dest: seq<byte>, raw: seq<byte>, prior: seq<byte>, bpp: nat, stopAt: nat, cost: nat)
    requires 0 < bpp && |raw| == |prior|
  {
    if cost < stopAt then dest == Encoded(f, raw, prior, bpp) && cost == Cost(f, raw, prior, bpp)
    else Cost(f, raw, prior, bpp) >= stopAt
  }

  ghost predicate Progress(f: Filter, dest: seq<byte>, raw: seq<byte>, prior: seq<byte>, bpp: nat, n: nat, cost: nat)
    requires 0 < bpp && |raw| == |prior|
  {
    && n <= |raw| && |dest| == |raw| + 1
    && dest[0] == f.Tag()
    && (forall k :: 1 <= k <= n ==> dest[k] == Filtered(f, raw, prior, bpp)[k - 1])
    && cost == Sum(Filtered(f, raw, prior, bpp)[..n])
  }

  lemma Begin(f: Filter, dest: seq<byte>, raw: seq<byte>, prior: seq<byte>, bpp: nat)
    requires 0 < bpp && |raw| == |prior| && |dest| == |raw| + 1 && dest[0] == f.Tag()
    ensures Progress(f, dest, raw, prior, bpp, 0, 0)
  {
  }

  lemma Extend(f: Filter, dest: seq<byte>, raw: seq<byte>, prior: seq<byte>, bpp: nat, n: nat, cost: nat,
               dest': seq<byte>)
    requires 0 < bpp && |raw| == |prior|
    requires Progress(f, dest, raw, prior, bpp, n, cost) && n < |raw|
    requires dest' == dest[n + 1 := Minus(raw[n], Predict(f, raw, prior, bpp, n))]
    ensures Progress(f, dest', raw, prior, bpp, n + 1, cost + AbsSigned(dest'[n + 1]))
    ensures cost + AbsSigned(dest'[n + 1]) <= Cost(f, raw, prior, bpp)
  {
    SumPrefix(Filtered(f, raw, prior, bpp), n);
    SumPrefix(Filtered(f, raw, prior, bpp), n + 1);
  }

  lemma Complete(f: Filter, dest: seq<byte>, raw: seq<byte>, prior: seq<byte>, bpp: nat, cost: nat)
    requires 0 < bpp && |raw| == |prior|
    requires Progress(f, dest, raw, prior, bpp, |raw|, cost)
    ensures dest == Encoded(f, raw, prior, bpp) && cost == Cost(f, raw, prior, bpp)
  {
    var data := Filtered(f, raw, prior, bpp);
    assert data[..|raw|] == data;
    assert dest[1..] == data;
    assert dest == [dest[0]] + dest[1..];
  }

  method NoneCost(raw: array<byte>, ghost prior: seq<byte>, ghost bpp: nat, stopAt: nat) returns (cost: nat)
    requires 0 < bpp && raw.Length == |prior| + 1
    ensures if cost < stopAt then cost == Cost(None, raw[1..], prior, bpp)
            else Cost(None, raw[1..], prior, bpp) >= stopAt
  {
    ghost var r := raw[1..];
    assert Filtered(None, r, prior, bpp) == r;
    cost := 0;
    assert Sum(r[..0]) == 0;
    for index := 0 to raw.Length - 1
      invariant cost == Sum(r[..index])
    {
      SumPrefix(r, index);
      SumPrefix(r, index + 1);
      cost := cost + AbsSigned(raw[index + 1]);
      if cost >= stopAt {
        return;
      }
    }
    assert r[..|r|] == r;
  }

  method UpFilter(dest: array<byte>, raw: array<byte>, prior: array<byte>, ghost bpp: nat) returns (cost: nat)
    requires 0 < bpp && 1 < raw.Length == prior.Length == dest.Length
    requires dest != raw && dest != prior
    modifies dest
    ensures dest[..] == Encoded(Up, raw[1..], prior[1..], bpp)
    ensures cost == Cost(Up, raw[1..], prior[1..], bpp)
  {
    ghost var r, p := raw[1..], prior[1..];
    var n := raw.Length - 1;
    dest[0] := 2;
    if raw[1..] == prior[1..] {
      for index := 0 to n
        invariant dest[0] == 2
        invariant forall k :: 1 <= k <= index ==> dest[k] == 0
      {
        dest[index + 1] := 0;
      }
      assert forall k :: 0 <= k < n ==> Filtered(Up, r, p, bpp)[k] == 0;
      SumZero(Filtered(Up, r, p, bpp));
      assert dest[1..] == Filtered(Up, r, p, bpp);
      assert dest[..] == [dest[0]] + dest[1..];
      return 0;
    }
    cost := 0;
    hide Progress, Filtered, Encoded, Cost;
    Begin(Up, dest[..], r, p, bpp);
    for index := 0 to n
      invariant Progress(Up, dest[..], r, p, bpp, index, cost)
    {
      ghost var before := dest[..];
      dest[index + 1] := Minus(raw[index + 1], prior[index + 1]);
      Extend(Up, before, r, p, bpp, index, cost, dest[..]);
      cost := cost + AbsSigned(dest[index + 1]);
    }
    Complete(Up, dest[..], r, p, bpp, cost);
  }

  method SubFilter(dest: array<byte>, raw: array<byte>, ghost prior: seq<byte>, stopAt: nat, channels: nat)
        returns (cost: nat)
    requires 0 < channels < raw.Length == dest.Length == |prior| + 1
    requires dest != raw
    modifies dest
    ensures Scored(Sub, dest[..], raw[1..], prior, channels, stopAt, cost)
  {
    ghost var r := raw[1..];
    dest[0] := 1;
    cost := 0;
    hide Progress, Filtered, Encoded, Cost;
    Begin(Sub, dest[..], r, prior, channels);
    for index := 0 to channels
      invariant Progress(Sub, dest[..], r, prior, channels, index, cost)
    {
      ghost var before := dest[..];
      dest[index + 1] := raw[index + 1];
      Extend(Sub, before, r, prior, channels, index, cost, dest[..]);
      cost := cost + AbsSigned(dest[index + 1]);
      if cost >= stopAt {
        return;
      }
    }
    for index := channels to raw.Length - 1
      invariant Progress(Sub, dest[..], r, prior, channels, index, cost)
    {
      ghost var before := dest[..];
      dest[index + 1] := Minus(raw[index + 1], raw[index + 1 - channels]);
      Extend(Sub, before, r, prior, channels, index, cost, dest[..]);
      cost := cost + AbsSigned(dest[index + 1]);
      if cost >= stopAt {
        return;
      }
    }
    Complete(Sub, dest[..], r, prior, channels, cost);
  }

  method AverageFilter(dest: array<byte>, raw: array<byte>, prior: array<byte>, stopAt: nat, channels: nat)
        returns (cost: nat)
    requires 0 < channels < raw.Length == prior.Length == dest.Length
    requires dest != raw && dest != prior
    modifies dest
    ensures Scored(Average, dest[..], raw[1..], prior[1..], channels, stopAt, cost)
  {
    ghost var r, p := raw[1..], prior[1..];
    dest[0] := 3;
    cost := 0;
    hide Progress, Filtered, Encoded, Cost;
    Begin(Average, dest[..], r, p, channels);
    for index := 0 to channels
      invariant Progress(Average, dest[..], r, p, channels, index, cost)
    {
      ghost var before := dest[..];
      assert Predict(Average, r, p, channels, index) == p[index] / 2;
      dest[index + 1] := Minus(raw[index + 1], prior[index + 1] / 2);
      Extend(Average, before, r, p, channels, index, cost, dest[..]);
      cost := cost + AbsSigned(dest[index + 1]);
      if cost >= stopAt {
        return;
      }
    }
    for index := channels to raw.Length - 1
      invariant Progress(Average, dest[..], r, p, channels, index, cost)
    {
      ghost var before := dest[..];
      assert Predict(Average, r, p, channels, index) == Mean(r[index - channels], p[index]);
      dest[index + 1] := Minus(raw[index + 1], Mean(raw[index + 1 - channels], prior[index + 1]));
      Extend(Average, before, r, p, channels, index, cost, dest[..]);
      cost := cost + AbsSigned(dest[index + 1]);
      if cost >= stopAt {
        return;
      }
    }
    Complete(Average, dest[..], r, p, channels, cost);
  }

  function ByteDistance(left: byte, right: byte): byte {
    if left >= right then left - right else right - left
  }

  /** The encoder's rearranged distances pick the predictor the standard defines. */
  function FastPaeth(left: byte, upper: byte, upperLeft: byte): (p: byte)
    ensures p == PaethPredictor(left, upper, upperLeft)
  {
    var leftDistance := ByteDistance(upper, upperLeft);
    var upperDistance := ByteDistance(left, upperLeft);
    var diagonal := left + upper - 2 * upperLeft;
    var diagonalDistance := if diagonal < 0 then -diagonal else diagonal;
    if leftDistance <= upperDistance && leftDistance <= diagonalDistance then left
    else if upperDistance <= diagonalDistance then upper
    else upperLeft
  }

  lemma PaethAt(raw: seq<byte>, prior: seq<byte>, bpp: nat, i: nat)
    requires 0 < bpp && i < |raw| == |prior|
    ensures Predict(Paeth, raw, prior, bpp, i)
         == if i < bpp then prior[i] else FastPaeth(raw[i - bpp], prior[i], prior[i - bpp])
  {
  }

  method PaethFilter(dest: array<byte>, raw: array<byte>, prior: array<byte>, stopAt: nat, channels: nat)
        returns (cost: nat)
    requires 0 < channels < raw.Length == prior.Length == dest.Length
    requires dest != raw && dest != prior
    modifies dest
    ensures Scored(Paeth, dest[..], raw[1..], prior[1..], channels, stopAt, cost)
  {
    ghost var r, p := raw[1..], prior[1..];
    dest[0] := 4;
    cost := 0;
    hide Progress, Filtered, Encoded, Cost, Predict, FastPaeth;
    Begin(Paeth, dest[..], r, p, channels);
    for index := 0 to channels
      invariant Progress(Paeth, dest[..], r, p, channels, index, cost)
    {
      ghost var before := dest[..];
      dest[index + 1] := Minus(raw[index + 1], prior[index + 1]);
      PaethAt(r, p, channels, index);
      Extend(Paeth, before, r, p, channels, index, cost, dest[..]);
      cost := cost + AbsSigned(dest[index + 1]);
      if cost >= stopAt {
        return;
      }
    }
    for index := channels to raw.Length - 1
      invariant Progress(Paeth, dest[..], r, p, channels, index, cost)
    {
      ghost var before := dest[..];
      var predictor := FastPaeth(raw[index + 1 - channels], prior[index + 1], prior[index + 1 - channels]);
      PaethAt(r, p, channels, index);
      dest[index + 1] := Minus(raw[index + 1], predictor);
      Extend(Paeth, before, r, p, channels, index, cost, dest[..]);
      cost := cost + AbsSigned(dest[index + 1]);
      if cost >= stopAt {
        return;
      }
    }
    Complete(Paeth, dest[..], r, p, channels, cost);
  }

  /**
   Chooses a filter for one row with two alternating candidate buffers. The returned row is complete, its
   filter is the chosen one, and it is either the raw row itself (tag 0) or one of the two candidates.
   */
  method FilteredRow(raw: array<byte>, prior: array<byte>, candidate0: array<byte>, candidate1: array<byte>,
                     channels: nat)
      returns (row: array<byte>)
    requires 0 < channels < raw.Length == prior.Length == candidate0.Length == candidate1.Length
    requires raw != candidate0 && raw != candidate1 && prior != candidate0 && prior != candidate1
    requires candidate0 != candidate1
    requires raw[0] == 0
    modifies candidate0, candidate1
    ensures row in {raw, candidate0, candidate1}
    ensures EncodesRow(row[..], raw[1..], prior[1..], channels)
  {
    hide Filtered, Encoded, Cost, EncodesRow, Chosen;
    ghost var r, p := raw[1..], prior[1..];
    var winner, scratch := candidate0, candidate1;
    var best := UpFilter(winner, raw, prior, channels);
    assert raw[1..] == r && prior[1..] == p;
    var selected: byte := 2;
    ghost var f := Up;
    ghost var held := winner[..];
    var cost := PaethFilter(scratch, raw, prior, best, channels);
    assert raw[1..] == r && prior[1..] == p;
    if cost < best {
      best, selected := cost, 4;
      f := Paeth;
      winner, scratch := scratch, winner;
      held := winner[..];
    }
    cost := NoneCost(raw, p, channels, best);
    if cost < best {
      best, selected := cost, 0;
      f := None;
    }
    cost := SubFilter(scratch, raw, p, best, channels);
    assert raw[1..] == r && prior[1..] == p;
    if cost < best {
      best, selected := cost, 1;
      f := Sub;
      winner, scratch := scratch, winner;
      held := winner[..];
    }
    assert BeatsRest(f, best, r, p, channels);
    cost := AverageFilter(scratch, raw, prior, best, channels);
    assert raw[1..] == r && prior[1..] == p;
    if cost < best {
      best, selected := cost, 3;
      f := Average;
      winner := scratch;
      held := winner[..];
    }
    assert winner[..] == held;
    assert best == Cost(f, r, p, channels);
    Settle(f, r, p, channels, best);
    row := winner;
    if selected == 0 {
      assert raw[..] == [0] + r;
      NoneRow(r, p, channels);
      row := raw;
    }
    assert row[..] == Encoded(f, r, p, channels);
    RowIsEncoded(f, r, p, channels);
  }
}
