/** The pure-Python PNG reader of `hack/churn/compare.py`: undoing the scanline
    filters of section 6 of RFC 2083 in place, then dropping the alpha channel. */
module Png {
  import opened Prelude

  /** What the encoder stores for a byte: its difference from the prediction, modulo 256. */
  function Residue(value: int, prediction: int): (r: Byte)
    ensures 0 <= value < 256 && prediction == 0 ==> r == value
  {
    (value - prediction) % 256
  }

  /** What the reader rebuilds from a stored byte: `(stored + prediction) & 255`. */
  function Restored(stored: int, prediction: int): (r: Byte)
    requires 0 <= stored < 256
    ensures Residue(r, prediction) == stored
  {
    (stored + prediction) % 256
  }

  // ---- The filters, as section 6 of RFC 2083 defines them ------------------

  function Abs(x: int): nat {
    if x < 0 then -x else x
  }

  /** Section 6.6: the neighbour nearest to left + up - upLeft; ties go to left, then up. */
  function PaethPredictor(left: Byte, up: Byte, upLeft: Byte): Byte {
    var estimate: int := left as int + up - upLeft;
    var toLeft, toUp, toUpLeft := Abs(estimate - left), Abs(estimate - up), Abs(estimate - upLeft);
    if toLeft <= toUp && toLeft <= toUpLeft then left
    else if toUp <= toUpLeft then up
    else upLeft
  }

  /** `(a + b) >> 1` on the full sum, before any truncation to a byte. */
  function Mean(a: Byte, b: Byte): (r: Byte)
    ensures 2 * r <= a as int + b <= 2 * r + 1
  {
    var sum: int := a as int + b;
    sum / 2
  }

  /** What filter type `f` predicts for a byte from its three decoded neighbours. */
  function Predictor(f: Byte, left: Byte, up: Byte, upLeft: Byte): Byte {
    match f
    case 1 => left
    case 2 => up
    case 3 => Mean(left, up)
    case 4 => PaethPredictor(left, up, upLeft)
    case _ => 0
  }

  /** Section 6.6 in other words: of the three neighbours, one nearest to their estimate, and of those the
      first in the order left, up, upper left. */
  lemma PaethIsNearest(left: Byte, up: Byte, upLeft: Byte)
    ensures var r, estimate := PaethPredictor(left, up, upLeft), left as int + up - upLeft;
      && r in {left, up, upLeft}
      && (forall n :: n in {left, up, upLeft} ==> Distance(r, estimate) <= Distance(n, estimate))
      && (Distance(left, estimate) == Distance(r, estimate) ==> r == left)
      && (Distance(up, estimate) == Distance(r, estimate) && r != left ==> r == up)
  {
  }

  function Distance(a: int, b: int): int {
    Max(a - b, b - a)
  }

  /** The byte `bpp` places to the left, or zero at the start of a scanline. */
  function Before(row: seq<Byte>, x: nat, bpp: nat): Byte
    requires x < |row|
  {
    if bpp <= x then row[x - bpp] else 0
  }

  function Prediction(f: Byte, row: seq<Byte>, prev: seq<Byte>, bpp: nat, x: nat): Byte
    requires x < |row| == |prev|
  {
    Predictor(f, Before(row, x, bpp), prev[x], Before(prev, x, bpp))
  }

  /** One scanline as the encoder writes it. */
  function FilterRow(f: Byte, row: seq<Byte>, prev: seq<Byte>, bpp: nat): (r: seq<Byte>)
    requires |row| == |prev|
    ensures |r| == |row|
  {
    seq(|row|, x requires 0 <= x < |row| => Residue(row[x], Prediction(f, row, prev, bpp, x)))
  }

  function Zeros(n: nat): (r: seq<Byte>)
    ensures |r| == n
  {
    seq(n, _ => 0)
  }

  ghost predicate IsImage(rows: seq<seq<Byte>>, stride: nat) {
    forall y :: 0 <= y < |rows| ==> |rows[y]| == stride
  }

  function PriorRow(rows: seq<seq<Byte>>, y: nat, stride: nat): (r: seq<Byte>)
    requires y <= |rows|
  {
    if y == 0 then Zeros(stride) else rows[y - 1]
  }

  /** The decompressed stream of an image: per scanline, its filter byte and its filtered bytes. */
  function Encode(rows: seq<seq<Byte>>, filters: seq<Byte>, stride: nat, bpp: nat): (raw: seq<Byte>)
    requires |rows| == |filters|
    requires IsImage(rows, stride)
    ensures |raw| == |rows| * (stride + 1)
  {
    if rows == [] then []
    else
      var last := |rows| - 1;
      Encode(rows[..last], filters[..last], stride, bpp)
      + [filters[last]]
      + FilterRow(filters[last], rows[last], PriorRow(rows, last, stride), bpp)
  }

  function Concat(rows: seq<seq<Byte>>): seq<Byte> {
    if rows == [] then [] else Concat(rows[..|rows| - 1]) + rows[|rows| - 1]
  }

  /** A stored byte and its prediction add up to the byte, wrapping at 256. */
  lemma ResidueIs(value: Byte, prediction: Byte)
    ensures var r := Residue(value, prediction); r as int + prediction == value || r as int + prediction == value + 256
    ensures forall stored: Byte :: Restored(stored, prediction) == value <==> stored == Residue(value, prediction)
  {
  }

  /** Two RGB pixels, and the two decoded above them. */
  const SCANLINE: seq<Byte> := [11, 50, 33, 47, 52, 250]
  const ABOVE: seq<Byte> := [10, 30, 20, 40, 10, 20]

  /** As the encoder writes them: as they are under type 0, and under one that no encoder writes; less the
      pixel to the left; less the pixel above; */
  lemma ScanlinePlain()
    ensures FilterRow(0, SCANLINE, ABOVE, 3) == FilterRow(5, SCANLINE, ABOVE, 3) == SCANLINE
  {
  }

  lemma ScanlineByLeft()
    ensures FilterRow(1, SCANLINE, ABOVE, 3) == [11, 50, 33, 36, 2, 217]
  {
  }

  lemma ScanlineByUp()
    ensures FilterRow(2, SCANLINE, ABOVE, 3) == [1, 20, 13, 7, 42, 230]
  {
  }

  /** less the mean of the two, rounded down; */
  lemma ScanlineByMean()
    ensures FilterRow(3, SCANLINE, ABOVE, 3) == [6, 35, 23, 22, 22, 224]
  {
  }

  /** and less the nearest of three, which is here the one above, the one to the upper left, and the one
      to the left. */
  lemma ScanlineByPaeth()
    ensures FilterRow(4, SCANLINE, ABOVE, 3) == [1, 20, 13, 7, 22, 217]
  {
  }

  // ---- Filtering loses nothing --------------------------------------------

  lemma UnfilterUnique(a: Byte, b: Byte, p: int)
    requires Residue(a, p) == Residue(b, p)
    ensures a == b
  {
    assert (a - b) % 256 == 0;
  }

  /** Two scanlines that filter to the same bytes agree on every prefix. */
  lemma {:induction false} FilterRowPrefixInjective(
      f: Byte, r0: seq<Byte>, r1: seq<Byte>, prev: seq<Byte>, bpp: nat, n: nat)
    requires |r0| == |r1| == |prev| && 0 < bpp && n <= |prev|
    requires FilterRow(f, r0, prev, bpp) == FilterRow(f, r1, prev, bpp)
    ensures r0[..n] == r1[..n]
  {
    if n > 0 {
      FilterRowPrefixInjective(f, r0, r1, prev, bpp, n - 1);
      var x := n - 1;
      assert FilterRow(f, r0, prev, bpp)[x] == FilterRow(f, r1, prev, bpp)[x];
      assert bpp <= x ==> r0[..x][x - bpp] == r1[..x][x - bpp];
      UnfilterUnique(r0[x], r1[x], Prediction(f, r0, prev, bpp, x));
      assert r0[..n] == r0[..x] + [r0[x]] && r1[..n] == r1[..x] + [r1[x]];
    }
  }

  /** The stream determines the image: no two images share an encoding. */
  lemma {:induction false} EncodeInjective(
      rows0: seq<seq<Byte>>, filters0: seq<Byte>, rows1: seq<seq<Byte>>, filters1: seq<Byte>, stride: nat, bpp: nat)
    requires |rows0| == |filters0| == |rows1| == |filters1| && 0 < bpp
    requires IsImage(rows0, stride) && IsImage(rows1, stride)
    requires Encode(rows0, filters0, stride, bpp) == Encode(rows1, filters1, stride, bpp)
    ensures rows0 == rows1 && filters0 == filters1
  {
    hide FilterRow, Encode;
    if rows0 != [] {
      var n := |rows0| - 1;
      LastScanline(rows0, filters0, rows1, filters1, stride, bpp);
      EncodeInjective(rows0[..n], filters0[..n], rows1[..n], filters1[..n], stride, bpp);
      assert n > 0 ==> rows0[..n][n - 1] == rows1[..n][n - 1];
      FilterRowPrefixInjective(filters0[n], rows0[n], rows1[n], PriorRow(rows0, n, stride), bpp, stride);
      assert rows0[n][..stride] == rows0[n] && rows1[n][..stride] == rows1[n];
      assert rows0 == rows0[..n] + [rows0[n]] && rows1 == rows1[..n] + [rows1[n]];
      assert filters0 == filters0[..n] + [filters0[n]] && filters1 == filters1[..n] + [filters1[n]];
    }
  }

  /** Equal streams end in equal scanlines, and are equal before them. */
  lemma LastScanline(
      rows0: seq<seq<Byte>>, filters0: seq<Byte>, rows1: seq<seq<Byte>>, filters1: seq<Byte>, stride: nat, bpp: nat)
    requires |rows0| == |filters0| == |rows1| == |filters1| > 0
    requires IsImage(rows0, stride) && IsImage(rows1, stride)
    requires Encode(rows0, filters0, stride, bpp) == Encode(rows1, filters1, stride, bpp)
    ensures var n := |rows0| - 1;
      && IsImage(rows0[..n], stride) && IsImage(rows1[..n], stride)
      && Encode(rows0[..n], filters0[..n], stride, bpp) == Encode(rows1[..n], filters1[..n], stride, bpp)
      && filters0[n] == filters1[n] && |rows0[n]| == |rows1[n]| == stride
      && FilterRow(filters0[n], rows0[n], PriorRow(rows0, n, stride), bpp)
         == FilterRow(filters1[n], rows1[n], PriorRow(rows1, n, stride), bpp)
  {
    hide FilterRow, PriorRow;
    var n := |rows0| - 1;
    PriorLength(rows0, n, stride);
    PriorLength(rows1, n, stride);
    SplitThree(Encode(rows0[..n], filters0[..n], stride, bpp), filters0[n],
               FilterRow(filters0[n], rows0[n], PriorRow(rows0, n, stride), bpp),
               Encode(rows1[..n], filters1[..n], stride, bpp), filters1[n],
               FilterRow(filters1[n], rows1[n], PriorRow(rows1, n, stride), bpp));
  }

  lemma PriorLength(rows: seq<seq<Byte>>, y: nat, stride: nat)
    requires IsImage(rows, stride) && y <= |rows|
    ensures |PriorRow(rows, y, stride)| == stride
  {
  }

  lemma SplitThree(a0: seq<Byte>, f0: Byte, b0: seq<Byte>, a1: seq<Byte>, f1: Byte, b1: seq<Byte>)
    requires |a0| == |a1| && a0 + [f0] + b0 == a1 + [f1] + b1
    ensures a0 == a1 && f0 == f1 && b0 == b1
  {
    var s0, s1 := a0 + [f0] + b0, a1 + [f1] + b1;
    assert s0[..|a0|] == a0 && s1[..|a0|] == a1;
    assert s0[|a0|] == f0 && s1[|a0|] == f1;
    assert s0[|a0| + 1..] == b0 && s1[|a0| + 1..] == b1;
  }

  // ---- The reconstruction loop --------------------------------------------

  /** The first `n` bytes of `line` are decoded: they filter to the first `n` given bytes. */
  ghost predicate Decoded(f: Byte, line: seq<Byte>, prev: seq<Byte>, ch: nat, given: seq<Byte>, n: nat)
    requires |line| == |prev| == |given|
  {
    && (forall k :: n <= k < |line| ==> line[k] == given[k])
    && (forall k :: 0 <= k < n && k < |line| ==> Residue(line[k], Prediction(f, line, prev, ch, k)) == given[k])
  }

  lemma DecodeOne(f: Byte, line: seq<Byte>, prev: seq<Byte>, ch: nat, given: seq<Byte>, x: nat)
    requires |line| == |prev| == |given| && x < |line| && 0 < ch
    requires Decoded(f, line, prev, ch, given, x)
    ensures Decoded(f, line[x := Restored(line[x], Prediction(f, line, prev, ch, x))], prev, ch, given, x + 1)
  {
    var line' := line[x := Restored(line[x], Prediction(f, line, prev, ch, x))];
    forall k | 0 <= k <= x
      ensures Residue(line'[k], Prediction(f, line', prev, ch, k)) == given[k]
    {
      assert Prediction(f, line', prev, ch, k) == Prediction(f, line, prev, ch, k);
    }
  }

  /** Rewrites `line` in place, left to right. What it leaves is the scanline that filters
      back to what it was given. */
  method UnfilterRow(f: Byte, line: array<Byte>, prev: array<Byte>, ch: nat)
    requires line.Length == prev.Length && line != prev && 0 < ch
    modifies line
    ensures FilterRow(f, line[..], prev[..], ch) == old(line[..])
  {
    hide Decoded, FilterRow;
    var stride := line.Length;
    ghost var given := line[..];
    NothingToAdd(f, given, prev[..], ch);
    if f == 1 {
      var x := ch;
      while x < stride
        invariant ch <= x
        invariant Decoded(f, line[..], prev[..], ch, given, x)
      {
        DecodeOne(f, line[..], prev[..], ch, given, x);
        line[x] := Restored(line[x], line[x - ch]);
        x := x + 1;
      }
    } else if f == 2 {
      for x := 0 to stride
        invariant Decoded(f, line[..], prev[..], ch, given, x)
      {
        DecodeOne(f, line[..], prev[..], ch, given, x);
        line[x] := Restored(line[x], prev[x]);
      }
    } else if f == 3 {
      for x := 0 to stride
        invariant Decoded(f, line[..], prev[..], ch, given, x)
      {
        DecodeOne(f, line[..], prev[..], ch, given, x);
        var a := if x >= ch then line[x - ch] else 0;
        line[x] := Restored(line[x], Mean(a, prev[x]));
      }
    } else if f == 4 {
      for x := 0 to stride
        invariant Decoded(f, line[..], prev[..], ch, given, x)
      {
        DecodeOne(f, line[..], prev[..], ch, given, x);
        var a: int := if x >= ch then line[x - ch] else 0;
        var c: int := if x >= ch then prev[x - ch] else 0;
        var b: int := prev[x];
        var p := a + b - c;
        var pa, pb, pc := Abs(p - a), Abs(p - b), Abs(p - c);
        var pr := if pa <= pb && pa <= pc then a else if pb <= pc then b else c;
        line[x] := Restored(line[x], pr);
      }
    }
    AllDecoded(f, line[..], prev[..], ch, given);
  }

  /** Before the loop: type 1 predicts zero for the first pixel, other unknown types for all. */
  lemma NothingToAdd(f: Byte, line: seq<Byte>, prev: seq<Byte>, ch: nat)
    requires |line| == |prev|
    ensures Decoded(f, line, prev, ch, line, 0)
    ensures f == 1 ==> Decoded(f, line, prev, ch, line, ch)
    ensures f == 0 || 4 < f ==> Decoded(f, line, prev, ch, line, |line|)
  {
  }

  lemma AllDecoded(f: Byte, line: seq<Byte>, prev: seq<Byte>, ch: nat, given: seq<Byte>)
    requires |line| == |prev| == |given|
    requires exists n :: |line| <= n && Decoded(f, line, prev, ch, given, n)
    ensures FilterRow(f, line, prev, ch) == given
  {
    assert forall k :: 0 <= k < |line| ==> FilterRow(f, line, prev, ch)[k] == given[k];
  }

  /** `raw` is the stream of the image `rows`, filtered scanline by scanline as `filters` says. */
  ghost predicate IsStreamOf(raw: seq<Byte>, rows: seq<seq<Byte>>, filters: seq<Byte>, h: nat, stride: nat, ch: nat) {
    |rows| == |filters| == h && IsImage(rows, stride) && Encode(rows, filters, stride, ch) == raw
  }

  lemma ExtendStream(raw: seq<Byte>, rows: seq<seq<Byte>>, filters: seq<Byte>, y: nat, stride: nat, ch: nat, f: Byte,
                     row: seq<Byte>)
    requires IsStreamOf(raw, rows, filters, y, stride, ch) && |row| == stride
    ensures IsStreamOf(raw + [f] + FilterRow(f, row, PriorRow(rows, y, stride), ch), rows + [row], filters + [f],
      y + 1, stride, ch)
    ensures Concat(rows + [row]) == Concat(rows) + row
    ensures PriorRow(rows + [row], y + 1, stride) == row
  {
    var rows', filters' := rows + [row], filters + [f];
    assert rows'[..y] == rows && filters'[..y] == filters;
    assert PriorRow(rows', y, stride) == PriorRow(rows, y, stride);
  }

  lemma NextScanline(y: nat, h: nat, n: nat)
    requires y < h
    ensures y * n + n == (y + 1) * n <= h * n
  {
  }

  /** The scanline loop, down to the joined bytes. Whatever the filter bytes are, `out` is the
      one image that encodes to the stream. */
  method Reconstruct(raw: seq<Byte>, w: nat, h: nat, ch: nat)
    returns (out: seq<Byte>, ghost rows: seq<seq<Byte>>, ghost filters: seq<Byte>)
    requires 0 < ch
    requires |raw| >= h * (w * ch + 1)
    ensures IsStreamOf(raw[..h * (w * ch + 1)], rows, filters, h, w * ch, ch) && out == Concat(rows)
  {
    var stride := w * ch;
    out, rows, filters := [], [], [];
    var prev := new Byte[stride](_ => 0);
    var i := 0;
    assert prev[..] == Zeros(stride);
    for y := 0 to h
      invariant i == y * (stride + 1) <= |raw|
      invariant |rows| == y && prev.Length == stride && prev[..] == PriorRow(rows, y, stride)
      invariant IsStreamOf(raw[..i], rows, filters, y, stride, ch)
      invariant out == Concat(rows)
    {
      NextScanline(y, h, stride + 1);
      ghost var read := raw[..i];
      var f := raw[i];
      i := i + 1;
      var line := ReadLine(raw, i, stride);
      i := i + stride;
      assert raw[..i] == read + [f] + line[..];
      UnfilterRow(f, line, prev, ch);
      ExtendStream(read, rows, filters, y, stride, ch, f, line[..]);
      out := out + line[..];
      rows, filters := rows + [line[..]], filters + [f];
      prev := line;
    }
  }

  /** `bytearray(raw[i : i + stride])`. */
  method ReadLine(raw: seq<Byte>, i: nat, stride: nat) returns (line: array<Byte>)
    requires i + stride <= |raw|
    ensures fresh(line) && line[..] == raw[i..i + stride]
  {
    line := new Byte[stride](k requires 0 <= k < stride => raw[i + k]);
  }

  // ---- Pixels -------------------------------------------------------------

  /** `out[o : o + 3]` for o in 0, 4, 8, ..., joined. */
  function DropAlpha(out: seq<Byte>): seq<Byte> {
    if |out| <= 3 then out else out[..3] + DropAlpha(out[4..])
  }

  /** Dropping alpha keeps exactly the RGB triples, in order. */
  lemma {:induction false} DropAlphaKeepsTriples(out: seq<Byte>, pixels: nat, p: nat, k: nat)
    requires |out| == 4 * pixels && p < pixels && k < 3
    ensures |DropAlpha(out)| == 3 * pixels
    ensures DropAlpha(out)[3 * p + k] == out[4 * p + k]
  {
    if pixels > 1 {
      DropAlphaKeepsTriples(out[4..], pixels - 1, if p > 0 then p - 1 else 0, k);
    } else {
      assert out[4..] == [];
    }
  }

  lemma {:induction false} ConcatLength(rows: seq<seq<Byte>>, stride: nat)
    requires IsImage(rows, stride)
    ensures |Concat(rows)| == |rows| * stride
  {
    if rows != [] {
      ConcatLength(rows[..|rows| - 1], stride);
      NextScanline(|rows| - 1, |rows|, stride);
    }
  }

  lemma {:induction false} ConcatAt(rows: seq<seq<Byte>>, stride: nat, y: nat, x: nat)
    requires IsImage(rows, stride) && y < |rows| && x < stride
    ensures y * stride + x < |Concat(rows)| && Concat(rows)[y * stride + x] == rows[y][x]
    decreases |rows|
  {
    var n := |rows| - 1;
    ConcatLength(rows, stride);
    ConcatLength(rows[..n], stride);
    NextScanline(y, n + 1, stride);
    if y < n {
      ConcatAt(rows[..n], stride, y, x);
      NextScanline(y, n, stride);
    }
  }

  /** The stream begins with the image `rows`; any bytes after it are ignored. */
  ghost predicate Holds(raw: seq<Byte>, rows: seq<seq<Byte>>, filters: seq<Byte>, w: nat, h: nat, ch: nat) {
    h * (w * ch + 1) <= |raw| && IsStreamOf(raw[..h * (w * ch + 1)], rows, filters, h, w * ch, ch)
  }

  /** The whole decoder, from the decompressed stream to RGB triples. For every image, every
      choice of filter per scanline and either channel count, decoding what the encoder wrote
      yields the image's colours, pixel by pixel. */
  method Decode(raw: seq<Byte>, w: nat, h: nat, ch: nat) returns (rgb: seq<Byte>)
    requires ch == 3 || ch == 4
    requires |raw| >= h * (w * ch + 1)
    ensures forall rows, filters :: Holds(raw, rows, filters, w, h, ch) ==> ShowsImage(rgb, rows, w, h, ch)
  {
    ghost var rows, filters;
    var out: seq<Byte>;
    out, rows, filters := Reconstruct(raw, w, h, ch);
    rgb := Colours(out, ch);
    forall rows', filters' | Holds(raw, rows', filters', w, h, ch)
      ensures ShowsImage(rgb, rows', w, h, ch)
    {
      EncodeInjective(rows, filters, rows', filters', w * ch, ch);
      ColoursKept(rows, w, h, ch);
    }
  }

  ghost predicate ShowsImage(rgb: seq<Byte>, rows: seq<seq<Byte>>, w: nat, h: nat, ch: nat)
    requires ch >= 3
    requires |rows| == h && IsImage(rows, w * ch)
  {
    && |rgb| == 3 * (h * w)
    && (forall y, x, k :: 0 <= y < h && 0 <= x < w && 0 <= k < 3 ==> ShowsChannel(rgb, rows, w, ch, y, x, k))
  }

  ghost predicate ShowsChannel(rgb: seq<Byte>, rows: seq<seq<Byte>>, w: nat, ch: nat, y: nat, x: nat, k: nat)
    requires y < |rows|
  {
    && 0 <= 3 * (y * w + x) + k < |rgb|
    && x * ch + k < |rows[y]|
    && rgb[3 * (y * w + x) + k] == rows[y][x * ch + k]
  }

  lemma ChannelIndex(y: nat, w: nat, x: nat, ch: nat, k: nat)
    ensures y * (w * ch) + (x * ch + k) == ch * (y * w + x) + k
  {
    assert y * (w * ch) == ch * (y * w);
  }

  function Colours(out: seq<Byte>, ch: nat): seq<Byte> {
    if ch == 3 then out else DropAlpha(out)
  }

  lemma ColourAt(out: seq<Byte>, ch: nat, pixels: nat, p: nat, k: nat)
    requires (ch == 3 || ch == 4) && |out| == ch * pixels && p < pixels && k < 3
    ensures |Colours(out, ch)| == 3 * pixels && Colours(out, ch)[3 * p + k] == out[ch * p + k]
  {
    if ch == 4 {
      DropAlphaKeepsTriples(out, pixels, p, k);
    }
  }

  lemma ColoursLength(out: seq<Byte>, ch: nat, pixels: nat)
    requires (ch == 3 || ch == 4) && |out| == ch * pixels
    ensures |Colours(out, ch)| == 3 * pixels
  {
    if pixels > 0 {
      ColourAt(out, ch, pixels, 0, 0);
    }
  }

  lemma ConcatPixel(rows: seq<seq<Byte>>, w: nat, h: nat, ch: nat, y: nat, x: nat, k: nat)
    requires k < ch && |rows| == h && IsImage(rows, w * ch) && y < h && x < w
    ensures |Concat(rows)| == ch * (h * w) && y * w + x < h * w
    ensures x * ch + k < w * ch
    ensures 0 <= ch * (y * w + x) + k < |Concat(rows)|
    ensures Concat(rows)[ch * (y * w + x) + k] == rows[y][x * ch + k]
  {
    hide Concat;
    ConcatLength(rows, w * ch);
    ChannelIndex(h, w, 0, ch, 0);
    NextScanline(y, h, w);
    NextScanline(x, w, ch);
    ConcatAt(rows, w * ch, y, x * ch + k);
    ChannelIndex(y, w, x, ch, k);
  }

  lemma ColoursKept(rows: seq<seq<Byte>>, w: nat, h: nat, ch: nat)
    requires ch == 3 || ch == 4
    requires |rows| == h && IsImage(rows, w * ch)
    ensures ShowsImage(Colours(Concat(rows), ch), rows, w, h, ch)
  {
    hide Concat, Colours, IsImage;
    ConcatLength(rows, w * ch);
    ChannelIndex(h, w, 0, ch, 0);
    ColoursLength(Concat(rows), ch, h * w);
    forall y, x, k | 0 <= y < h && 0 <= x < w && 0 <= k < 3
      ensures ShowsChannel(Colours(Concat(rows), ch), rows, w, ch, y, x, k)
    {
      ChannelKept(rows, w, h, ch, y, x, k);
    }
  }

  lemma ChannelKept(rows: seq<seq<Byte>>, w: nat, h: nat, ch: nat, y: nat, x: nat, k: nat)
    requires ch == 3 || ch == 4
    requires |rows| == h && IsImage(rows, w * ch) && y < h && x < w && k < 3
    ensures ShowsChannel(Colours(Concat(rows), ch), rows, w, ch, y, x, k)
  {
    hide Concat, Colours;
    var p := y * w + x;
    ConcatPixel(rows, w, h, ch, y, x, k);
    ColourAt(Concat(rows), ch, h * w, p, k);
  }
}
