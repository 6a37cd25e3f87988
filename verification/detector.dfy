/**
 * The tensor layout and output decoding of the face detector
 * (src/FaceDetector.cpp): the 128x128 RGB input is copied pixel by pixel into
 * an HWC buffer, transposed into the CHW order the network expects, and the
 * network's flat box tensor is decoded, 16 values per record, into
 * `FaceDetection`s, dropping boxes smaller than 5 pixels. The network itself
 * sits between the two halves and is not modelled.
 */
module Detector {
  import opened Wrappers

  const Side: int := 128
  const Channels: int := 3
  /** Values in one colour plane of the CHW tensor. */
  const Plane: int := 16384
  /** Values in the whole input tensor, in either layout. */
  const TensorSize: int := 49152
  /** Values per record of the box tensor. */
  const RecordWidth: int := 16
  /** Smallest width and height, in pixels, of a reported box. */
  const MinSize: real := 5.0
  /** Confidence reported when the network has no score output. */
  const DefaultConfidence: real := 1.0

  lemma TensorSizeIsProduct()
    ensures Plane == Side * Side && TensorSize == Channels * Plane
  {
  }

  // ---------------------------------------------------------------------------
  // Input tensor: HWC fill and HWC -> CHW transpose
  // ---------------------------------------------------------------------------

  /** One pixel of the resized RGB888 image, each channel in 0..255. */
  datatype Rgb = Rgb(red: int, green: int, blue: int)

  /** `pixelColor(x, y)` of the resized 128x128 image. */
  type Image = (int, int) -> Rgb

  /** Channel `c` (0 red, 1 green, 2 blue) of a pixel, scaled to [0, 1]. */
  function Intensity(p: Rgb, c: int): real {
    (if c == 0 then p.red else if c == 1 then p.green else p.blue) as real / 255.0
  }

  /** Where pixel (x, y), channel c sits in the HWC buffer. */
  function HwcIndex(y: int, x: int, c: int): int {
    (y * Side + x) * Channels + c
  }

  /** Where row h, column w, channel c sits in the CHW buffer. */
  function ChwIndex(c: int, h: int, w: int): int {
    c * Plane + h * Side + w
  }

  /** The HWC slot that CHW slot k is copied from. */
  function SourceOf(k: int): int {
    (k % Plane) * Channels + k / Plane
  }

  /** The CHW slot that HWC slot j is copied to. */
  function TargetOf(j: int): int {
    (j % Channels) * Plane + j / Channels
  }

  /** The HWC buffer as a function of the image: slot k holds channel k % 3 of pixel k / 3. */
  function HwcTensor(img: Image): (r: seq<real>)
    ensures |r| == TensorSize
  {
    seq(TensorSize, k requires 0 <= k < TensorSize => Intensity(img((k / Channels) % Side, k / (Side * Channels)), k % Channels))
  }

  /** The CHW buffer as a function of the HWC buffer. */
  function Transpose(hwc: seq<real>): (r: seq<real>)
    requires |hwc| == TensorSize
    ensures |r| == TensorSize
  {
    seq(TensorSize, k requires 0 <= k < TensorSize => hwc[SourceOf(k)])
  }

  /** The HWC buffer recovered from a CHW buffer. */
  function Untranspose(chw: seq<real>): (r: seq<real>)
    requires |chw| == TensorSize
    ensures |r| == TensorSize
  {
    seq(TensorSize, j requires 0 <= j < TensorSize => chw[TargetOf(j)])
  }

  /** Slot (y, x, c) of the HWC layout: the index, and back again. */
  lemma {:induction false} HwcIndexDecodes(y: int, x: int, c: int)
    requires 0 <= y < Side && 0 <= x < Side && 0 <= c < Channels
    ensures 0 <= HwcIndex(y, x, c) < TensorSize
    ensures var k := HwcIndex(y, x, c); (k / Channels) % Side == x && k / (Side * Channels) == y && k % Channels == c
  {
    var k := HwcIndex(y, x, c);
    assert k / Channels == y * Side + x;
    assert k / (Side * Channels) == (k / Channels) / Side;
  }

  /** Slot (c, h, w) of the CHW layout is read from slot (h, w, c) of the HWC layout. */
  lemma {:induction false} SourceOfChw(c: int, h: int, w: int)
    requires 0 <= c < Channels && 0 <= h < Side && 0 <= w < Side
    ensures 0 <= ChwIndex(c, h, w) < TensorSize
    ensures SourceOf(ChwIndex(c, h, w)) == HwcIndex(h, w, c)
  {
    var k := ChwIndex(c, h, w);
    assert k / Plane == c;
    assert k % Plane == h * Side + w;
  }

  /** SourceOf and TargetOf are inverse permutations of 0..TensorSize-1. */
  lemma {:induction false} SourceTargetInverse(k: int)
    requires 0 <= k < TensorSize
    ensures 0 <= SourceOf(k) < TensorSize && TargetOf(SourceOf(k)) == k
    ensures 0 <= TargetOf(k) < TensorSize && SourceOf(TargetOf(k)) == k
  {
    var j := SourceOf(k);
    assert j % Channels == k / Plane;
    assert j / Channels == k % Plane;
    var t := TargetOf(k);
    assert t % Plane == k / Channels;
    assert t / Plane == k % Channels;
  }

  /** Every CHW slot is written from exactly one HWC slot, and every HWC slot is read exactly once. */
  lemma {:induction false} TransposeIsBijection(k1: int, k2: int)
    requires 0 <= k1 < TensorSize && 0 <= k2 < TensorSize
    ensures SourceOf(k1) == SourceOf(k2) <==> k1 == k2
    ensures TargetOf(k1) == TargetOf(k2) <==> k1 == k2
  {
    SourceTargetInverse(k1);
    SourceTargetInverse(k2);
  }

  /** The transposed tensor at (c, h, w) is the HWC tensor at (h, w, c). */
  lemma {:induction false} TransposeAt(hwc: seq<real>, c: int, h: int, w: int)
    requires |hwc| == TensorSize
    requires 0 <= c < Channels && 0 <= h < Side && 0 <= w < Side
    ensures 0 <= ChwIndex(c, h, w) < TensorSize && 0 <= HwcIndex(h, w, c) < TensorSize
    ensures Transpose(hwc)[ChwIndex(c, h, w)] == hwc[HwcIndex(h, w, c)]
  {
    SourceOfChw(c, h, w);
  }

  /** Transposing and transposing back gives the original buffer, in both orders. */
  lemma {:induction false} TransposeRoundTrip(hwc: seq<real>, chw: seq<real>)
    requires |hwc| == TensorSize && |chw| == TensorSize
    ensures Untranspose(Transpose(hwc)) == hwc
    ensures Transpose(Untranspose(chw)) == chw
  {
    forall j | 0 <= j < TensorSize
      ensures Untranspose(Transpose(hwc))[j] == hwc[j]
    {
      SourceTargetInverse(j);
    }
    forall k | 0 <= k < TensorSize
      ensures Transpose(Untranspose(chw))[k] == chw[k]
    {
      SourceTargetInverse(k);
    }
  }

  /** The HWC tensor at (y, x, c) is channel c of pixel (x, y), scaled to [0, 1]. */
  lemma {:induction false} HwcTensorAt(img: Image, y: int, x: int, c: int)
    requires 0 <= y < Side && 0 <= x < Side && 0 <= c < Channels
    ensures 0 <= HwcIndex(y, x, c) < TensorSize
    ensures HwcTensor(img)[HwcIndex(y, x, c)] == Intensity(img(x, y), c)
  {
    HwcIndexDecodes(y, x, c);
  }

  /** Copies the image into a row-major, channel-interleaved buffer. */
  method FillHwc(img: Image) returns (hwc: seq<real>)
    ensures |hwc| == TensorSize
    ensures hwc == HwcTensor(img)
    ensures forall y, x, c | 0 <= y < Side && 0 <= x < Side && 0 <= c < Channels ::
      hwc[HwcIndex(y, x, c)] == Intensity(img(x, y), c)
  {
    var a := new real[TensorSize];
    ghost var t := HwcTensor(img);
    var y := 0;
    while y < Side
      invariant 0 <= y <= Side
      invariant forall k :: 0 <= k < y * (Side * Channels) ==> a[k] == t[k]
    {
      var x := 0;
      while x < Side
        invariant 0 <= x <= Side
        invariant forall k :: 0 <= k < y * (Side * Channels) + x * Channels ==> a[k] == t[k]
      {
        var p := img(x, y);
        HwcTensorAt(img, y, x, 0);
        HwcTensorAt(img, y, x, 1);
        HwcTensorAt(img, y, x, 2);
        a[HwcIndex(y, x, 0)] := Intensity(p, 0);
        a[HwcIndex(y, x, 1)] := Intensity(p, 1);
        a[HwcIndex(y, x, 2)] := Intensity(p, 2);
        x := x + 1;
      }
      y := y + 1;
    }
    hwc := a[..];
    forall y, x, c | 0 <= y < Side && 0 <= x < Side && 0 <= c < Channels
      ensures hwc[HwcIndex(y, x, c)] == Intensity(img(x, y), c)
    {
      HwcTensorAt(img, y, x, c);
    }
  }

  /** Copies an HWC buffer into CHW order, one plane per channel. */
  method ToChw(hwc: seq<real>) returns (chw: seq<real>)
    requires |hwc| == TensorSize
    ensures |chw| == TensorSize
    ensures chw == Transpose(hwc)
    ensures forall c, h, w | 0 <= c < Channels && 0 <= h < Side && 0 <= w < Side ::
      chw[ChwIndex(c, h, w)] == hwc[HwcIndex(h, w, c)]
  {
    var a := new real[TensorSize];
    ghost var t := Transpose(hwc);
    var done := 0;
    var c := 0;
    while c < Channels
      invariant 0 <= c <= Channels && done == c * Plane
      invariant forall k :: 0 <= k < done ==> a[k] == t[k]
    {
      var h := 0;
      while h < Side
        invariant 0 <= h <= Side && done == c * Plane + h * Side
        invariant forall k :: 0 <= k < done ==> a[k] == t[k]
      {
        var w := 0;
        while w < Side
          invariant 0 <= w <= Side && done == c * Plane + h * Side + w
          invariant forall k :: 0 <= k < done ==> a[k] == t[k]
        {
          TransposeAt(hwc, c, h, w);
          a[ChwIndex(c, h, w)] := hwc[HwcIndex(h, w, c)];
          done := done + 1;
          w := w + 1;
        }
        h := h + 1;
      }
      c := c + 1;
    }
    chw := a[..];
    forall c, h, w | 0 <= c < Channels && 0 <= h < Side && 0 <= w < Side
      ensures chw[ChwIndex(c, h, w)] == hwc[HwcIndex(h, w, c)]
    {
      TransposeAt(hwc, c, h, w);
    }
  }

  // ---------------------------------------------------------------------------
  // Output decoding
  // ---------------------------------------------------------------------------

  datatype Point = Point(x: real, y: real)

  /** One 16-value record of the box tensor, in stored order: the box as y1, x1, y2, x2, then six (x, y) landmarks. */
  datatype RawRecord = RawRecord(
    y1: real, x1: real, y2: real, x2: real,
    leftEye: Point, rightEye: Point, nose: Point, mouth: Point,
    leftCheek: Point, rightCheek: Point)

  /** A detected face in image pixels (include/FaceDetector.hpp), landmarks as points. */
  datatype FaceDetection = FaceDetection(
    x1: real, y1: real, x2: real, y2: real,
    confidence: real,
    leftEye: Point, rightEye: Point, nose: Point, mouth: Point,
    leftCheek: Point, rightCheek: Point)

  /** What the network returns: the box tensor, its shape, and the score tensor when there is a second output. */
  datatype Outputs = Outputs(boxes: seq<real>, shape: seq<int>, scores: Option<seq<real>>)

  /** Record i, read from offset 16 * i. */
  function ReadRecord(boxes: seq<real>, i: nat): RawRecord
    requires RecordWidth * i + RecordWidth <= |boxes|
  {
    var b := RecordWidth * i;
    RawRecord(
      boxes[b], boxes[b + 1], boxes[b + 2], boxes[b + 3],
      Point(boxes[b + 4], boxes[b + 5]), Point(boxes[b + 6], boxes[b + 7]),
      Point(boxes[b + 8], boxes[b + 9]), Point(boxes[b + 10], boxes[b + 11]),
      Point(boxes[b + 12], boxes[b + 13]), Point(boxes[b + 14], boxes[b + 15]))
  }

  /** A record laid out as the network writes it. */
  function Flatten(r: RawRecord): (s: seq<real>)
    ensures |s| == RecordWidth
  {
    [r.y1, r.x1, r.y2, r.x2,
     r.leftEye.x, r.leftEye.y, r.rightEye.x, r.rightEye.y,
     r.nose.x, r.nose.y, r.mouth.x, r.mouth.y,
     r.leftCheek.x, r.leftCheek.y, r.rightCheek.x, r.rightCheek.y]
  }

  /** Reading a record back from its layout gives the record; the layout of what is read is the 16 values at its offset. */
  lemma {:induction false} RecordLayoutRoundTrip(r: RawRecord, boxes: seq<real>, i: nat)
    requires RecordWidth * i + RecordWidth <= |boxes|
    ensures ReadRecord(Flatten(r), 0) == r
    ensures Flatten(ReadRecord(boxes, i)) == boxes[RecordWidth * i..RecordWidth * i + RecordWidth]
  {
  }

  /** Record i of a buffer depends only on the 16 values at offset 16 * i. */
  lemma {:induction false} ReadRecordLocal(boxes: seq<real>, i: nat, r: RawRecord)
    requires RecordWidth * i + RecordWidth <= |boxes|
    requires boxes[RecordWidth * i..RecordWidth * i + RecordWidth] == Flatten(r)
    ensures ReadRecord(boxes, i) == r
  {
    var f := Flatten(r);
    assert forall j :: 0 <= j < RecordWidth ==> boxes[RecordWidth * i + j] == f[j];
  }

  /** `num_boxes`: the second dimension of the box tensor, or 1 when the shape has rank 1. */
  function NumBoxes(shape: seq<int>): nat
    requires |shape| >= 1 && (|shape| > 1 ==> shape[1] >= 0)
  {
    if |shape| > 1 then shape[1] else 1
  }

  /** Outputs whose reads stay inside the tensors: the source does not check this. */
  predicate WellShaped(o: Outputs) {
    |o.shape| >= 1 && (|o.shape| > 1 ==> o.shape[1] >= 0)
    && RecordWidth * NumBoxes(o.shape) <= |o.boxes|
    && (o.scores.Some? ==> NumBoxes(o.shape) <= |o.scores.value|)
  }

  /** The confidence of record i: its score when the network has a score output, else 1. */
  function Confidence(scores: Option<seq<real>>, i: nat): real
    requires scores.Some? ==> i < |scores.value|
  {
    match scores
    case Some(s) => s[i]
    case None => DefaultConfidence
  }

  /** A record scaled to an image of w x h pixels: x-coordinates by w, y-coordinates by h. */
  function Scale(r: RawRecord, confidence: real, w: int, h: int): FaceDetection {
    var sw := w as real;
    var sh := h as real;
    FaceDetection(
      r.x1 * sw, r.y1 * sh, r.x2 * sw, r.y2 * sh,
      confidence,
      Point(r.leftEye.x * sw, r.leftEye.y * sh), Point(r.rightEye.x * sw, r.rightEye.y * sh),
      Point(r.nose.x * sw, r.nose.y * sh), Point(r.mouth.x * sw, r.mouth.y * sh),
      Point(r.leftCheek.x * sw, r.leftCheek.y * sh), Point(r.rightCheek.x * sw, r.rightCheek.y * sh))
  }

  /** The raw record a detection came from, for an image of positive size. */
  function Unscale(d: FaceDetection, w: int, h: int): RawRecord
    requires w > 0 && h > 0
  {
    var sw := w as real;
    var sh := h as real;
    RawRecord(
      d.y1 / sh, d.x1 / sw, d.y2 / sh, d.x2 / sw,
      Point(d.leftEye.x / sw, d.leftEye.y / sh), Point(d.rightEye.x / sw, d.rightEye.y / sh),
      Point(d.nose.x / sw, d.nose.y / sh), Point(d.mouth.x / sw, d.mouth.y / sh),
      Point(d.leftCheek.x / sw, d.leftCheek.y / sh), Point(d.rightCheek.x / sw, d.rightCheek.y / sh))
  }

  /** Scaling loses nothing: x-coordinates were multiplied by the width and y-coordinates by the height. */
  lemma {:induction false} ScaleInverse(r: RawRecord, confidence: real, w: int, h: int)
    requires w > 0 && h > 0
    ensures Unscale(Scale(r, confidence, w, h), w, h) == r
    ensures Scale(r, confidence, w, h).confidence == confidence
  {
  }

  /** A detection large enough to report: at least 5 pixels wide and 5 pixels high. */
  predicate Reported(d: FaceDetection) {
    d.x2 - d.x1 >= MinSize && d.y2 - d.y1 >= MinSize
  }

  /** Record i of the outputs as a detection in a w x h image, before the size filter. */
  function Candidate(o: Outputs, i: nat, w: int, h: int): FaceDetection
    requires WellShaped(o) && i < NumBoxes(o.shape)
  {
    Scale(ReadRecord(o.boxes, i), Confidence(o.scores, i), w, h)
  }

  /**
   * A candidate is exactly the 16 values at offset 16 * i, scaled to the image,
   * with the record's score as confidence, or 1 without a score output.
   */
  lemma {:induction false} CandidateOfRecord(o: Outputs, i: nat, w: int, h: int)
    requires WellShaped(o) && i < NumBoxes(o.shape)
    requires w > 0 && h > 0
    ensures Flatten(Unscale(Candidate(o, i, w, h), w, h)) == o.boxes[RecordWidth * i..RecordWidth * i + RecordWidth]
    ensures Candidate(o, i, w, h).confidence == if o.scores.Some? then o.scores.value[i] else DefaultConfidence
  {
    ScaleInverse(ReadRecord(o.boxes, i), Confidence(o.scores, i), w, h);
    RecordLayoutRoundTrip(ReadRecord(o.boxes, i), o.boxes, i);
  }

  /** The detections among the first n records, in record order. */
  function DecodeUpTo(o: Outputs, n: nat, w: int, h: int): (r: seq<FaceDetection>)
    requires WellShaped(o) && n <= NumBoxes(o.shape)
    ensures |r| <= n
    ensures forall d :: d in r ==> Reported(d)
  {
    if n == 0 then []
    else
      var d := Candidate(o, n - 1, w, h);
      DecodeUpTo(o, n - 1, w, h) + (if Reported(d) then [d] else [])
  }

  /** The indices of the reported records among the first n, in increasing order. */
  function ReportedIndices(o: Outputs, n: nat, w: int, h: int): (r: seq<nat>)
    requires WellShaped(o) && n <= NumBoxes(o.shape)
    ensures forall k :: 0 <= k < |r| ==> r[k] < n
  {
    if n == 0 then []
    else ReportedIndices(o, n - 1, w, h) + (if Reported(Candidate(o, n - 1, w, h)) then [n - 1] else [])
  }

  predicate Increasing(s: seq<nat>) {
    forall k1, k2 :: 0 <= k1 < k2 < |s| ==> s[k1] < s[k2]
  }

  /** The reported indices are strictly increasing, so the output keeps record order. */
  lemma {:induction false} ReportedIndicesIncreasing(o: Outputs, n: nat, w: int, h: int)
    requires WellShaped(o) && n <= NumBoxes(o.shape)
    ensures Increasing(ReportedIndices(o, n, w, h))
  {
    if n > 0 {
      ReportedIndicesIncreasing(o, n - 1, w, h);
      var idx, idx' := ReportedIndices(o, n, w, h), ReportedIndices(o, n - 1, w, h);
      if Reported(Candidate(o, n - 1, w, h)) {
        assert idx == idx' + [n - 1];
        forall k1, k2 | 0 <= k1 < k2 < |idx|
          ensures idx[k1] < idx[k2]
        {
          assert idx[k1] == idx'[k1] < n - 1;
          if k2 < |idx'| {
            assert idx[k2] == idx'[k2];
          }
        }
      } else {
        assert idx == idx';
      }
    }
  }

  /** A record's index is reported exactly when the record passes the size filter. */
  lemma {:induction false} ReportedIndicesExact(o: Outputs, n: nat, w: int, h: int)
    requires WellShaped(o) && n <= NumBoxes(o.shape)
    ensures forall i :: 0 <= i < n ==> (i in ReportedIndices(o, n, w, h) <==> Reported(Candidate(o, i, w, h)))
  {
    if n > 0 {
      ReportedIndicesExact(o, n - 1, w, h);
      var idx, idx' := ReportedIndices(o, n, w, h), ReportedIndices(o, n - 1, w, h);
      if Reported(Candidate(o, n - 1, w, h)) {
        assert idx == idx' + [n - 1];
      } else {
        assert idx == idx';
      }
      assert n - 1 !in idx';
    }
  }

  /** The decoded list is the candidates at the reported indices, in that order. */
  lemma {:induction false} DecodeFollowsIndices(o: Outputs, n: nat, w: int, h: int)
    requires WellShaped(o) && n <= NumBoxes(o.shape)
    ensures var idx := ReportedIndices(o, n, w, h);
      var out := DecodeUpTo(o, n, w, h);
      |out| == |idx| <= n
      && forall k :: 0 <= k < |out| ==> idx[k] < NumBoxes(o.shape) && out[k] == Candidate(o, idx[k], w, h)
  {
    if n > 0 {
      DecodeFollowsIndices(o, n - 1, w, h);
      var d := Candidate(o, n - 1, w, h);
      var out, idx := DecodeUpTo(o, n, w, h), ReportedIndices(o, n, w, h);
      var out', idx' := DecodeUpTo(o, n - 1, w, h), ReportedIndices(o, n - 1, w, h);
      if Reported(d) {
        assert out == out' + [d] && idx == idx' + [n - 1];
        forall k | 0 <= k < |out|
          ensures idx[k] < NumBoxes(o.shape) && out[k] == Candidate(o, idx[k], w, h)
        {
          if k < |out'| {
            assert out[k] == out'[k] && idx[k] == idx'[k];
          }
        }
      } else {
        assert out == out' && idx == idx';
      }
    }
  }

  /** Every record that passes the size filter is decoded. */
  lemma {:induction false} DecodeComplete(o: Outputs, n: nat, w: int, h: int)
    requires WellShaped(o) && n <= NumBoxes(o.shape)
    ensures forall i :: 0 <= i < n ==> Reported(Candidate(o, i, w, h)) ==> Candidate(o, i, w, h) in DecodeUpTo(o, n, w, h)
  {
    if n > 0 {
      DecodeComplete(o, n - 1, w, h);
    }
  }

  /** One more record: the decoded list grows by that record exactly when it passes the size filter. */
  lemma {:induction false} DecodeStep(o: Outputs, i: nat, w: int, h: int, d: FaceDetection)
    requires WellShaped(o) && i < NumBoxes(o.shape)
    requires d == Scale(ReadRecord(o.boxes, i), Confidence(o.scores, i), w, h)
    ensures Reported(d) ==> DecodeUpTo(o, i + 1, w, h) == DecodeUpTo(o, i, w, h) + [d]
    ensures !Reported(d) ==> DecodeUpTo(o, i + 1, w, h) == DecodeUpTo(o, i, w, h)
  {
  }

  /**
   * The decode loop: record i is read at offset 16 * i, its confidence is its
   * score or 1, its coordinates are scaled to the image, and it is skipped when
   * narrower or lower than 5 pixels.
   */
  method Decode(o: Outputs, w: int, h: int) returns (results: seq<FaceDetection>)
    requires WellShaped(o)
    ensures results == DecodeUpTo(o, NumBoxes(o.shape), w, h)
    ensures |results| <= NumBoxes(o.shape)
    ensures forall d :: d in results ==> Reported(d)
  {
    var numBoxes := if |o.shape| > 1 then o.shape[1] else o.shape[0];
    if |o.shape| == 1 {
      numBoxes := 1;
    }
    results := [];
    var i := 0;
    while i < numBoxes
      invariant 0 <= i <= numBoxes == NumBoxes(o.shape)
      invariant results == DecodeUpTo(o, i, w, h)
    {
      var det := ReadRecord(o.boxes, i);
      var confidence := Confidence(o.scores, i);
      var fd := Scale(det, confidence, w, h);
      DecodeStep(o, i, w, h, fd);
      if fd.x2 - fd.x1 < MinSize || fd.y2 - fd.y1 < MinSize {
        i := i + 1;
        continue;
      }
      results := results + [fd];
      i := i + 1;
    }
  }
}
