/**
 * Conversion of a pixel box to the YOLO annotation encoding: box centre and
 * box size, each divided by the image size. Nothing is clamped to [0, 1].
 */
module Yolo {
  import opened Extremes

  /** The source's key_points list [x1, y1, x2, y2]; the corners need not be
      ordered. */
  datatype KeyPoints = KeyPoints(x1: real, y1: real, x2: real, y2: real)

  datatype YoloBox = YoloBox(xCenter: real, yCenter: real, width: real, height: real)

  function Abs(r: real): real { if r < 0.0 then -r else r }

  /** The same box with its corners ordered. */
  function Sorted(k: KeyPoints): KeyPoints
  {
    KeyPoints(Min(k.x1, k.x2), Min(k.y1, k.y2), Max(k.x1, k.x2), Max(k.y1, k.y2))
  }

  /** Normalised centre and size: the left and right edges the result
      denotes are the smaller and the larger x corner, and likewise for y. */
  function ConvertToYoloFormat(imageWidth: real, imageHeight: real, k: KeyPoints): (r: YoloBox)
    requires imageWidth > 0.0 && imageHeight > 0.0
    ensures r.width >= 0.0 && r.height >= 0.0
    ensures (r.xCenter - r.width / 2.0) * imageWidth == Min(k.x1, k.x2)
    ensures (r.xCenter + r.width / 2.0) * imageWidth == Max(k.x1, k.x2)
    ensures (r.yCenter - r.height / 2.0) * imageHeight == Min(k.y1, k.y2)
    ensures (r.yCenter + r.height / 2.0) * imageHeight == Max(k.y1, k.y2)
  {
    YoloBox(
      (k.x1 + k.x2) / 2.0 / imageWidth,
      (k.y1 + k.y2) / 2.0 / imageHeight,
      Abs(k.x2 - k.x1) / imageWidth,
      Abs(k.y2 - k.y1) / imageHeight)
  }

  /** The ordered pixel box a YOLO tuple stands for. */
  function ToPixels(imageWidth: real, imageHeight: real, r: YoloBox): KeyPoints
  {
    KeyPoints(
      (r.xCenter - r.width / 2.0) * imageWidth,
      (r.yCenter - r.height / 2.0) * imageHeight,
      (r.xCenter + r.width / 2.0) * imageWidth,
      (r.yCenter + r.height / 2.0) * imageHeight)
  }

  /** Decoding an encoded box gives the box back, corners ordered. */
  lemma DecodeEncode(imageWidth: real, imageHeight: real, k: KeyPoints)
    requires imageWidth > 0.0 && imageHeight > 0.0
    ensures ToPixels(imageWidth, imageHeight, ConvertToYoloFormat(imageWidth, imageHeight, k)) == Sorted(k)
  {
  }

  /** Every YOLO tuple of non-negative size is the encoding of its own
      pixel box. */
  lemma EncodeDecode(imageWidth: real, imageHeight: real, r: YoloBox)
    requires imageWidth > 0.0 && imageHeight > 0.0
    requires r.width >= 0.0 && r.height >= 0.0
    ensures ConvertToYoloFormat(imageWidth, imageHeight, ToPixels(imageWidth, imageHeight, r)) == r
  {
    var k := ToPixels(imageWidth, imageHeight, r);
    assert k.x1 + k.x2 == 2.0 * r.xCenter * imageWidth;
    assert k.x2 - k.x1 == r.width * imageWidth >= 0.0;
    assert k.y1 + k.y2 == 2.0 * r.yCenter * imageHeight;
    assert k.y2 - k.y1 == r.height * imageHeight >= 0.0;
  }

  /** Swapping the two x corners does not change the result. */
  lemma SwapXInvariant(imageWidth: real, imageHeight: real, k: KeyPoints)
    requires imageWidth > 0.0 && imageHeight > 0.0
    ensures ConvertToYoloFormat(imageWidth, imageHeight, KeyPoints(k.x2, k.y1, k.x1, k.y2))
         == ConvertToYoloFormat(imageWidth, imageHeight, k)
  {
  }

  /** Swapping the two y corners does not change the result. */
  lemma SwapYInvariant(imageWidth: real, imageHeight: real, k: KeyPoints)
    requires imageWidth > 0.0 && imageHeight > 0.0
    ensures ConvertToYoloFormat(imageWidth, imageHeight, KeyPoints(k.x1, k.y2, k.x2, k.y1))
         == ConvertToYoloFormat(imageWidth, imageHeight, k)
  {
  }

  /** The whole image is centred at (0.5, 0.5) with size (1, 1). */
  lemma FullImage(imageWidth: real, imageHeight: real)
    requires imageWidth > 0.0 && imageHeight > 0.0
    ensures ConvertToYoloFormat(imageWidth, imageHeight, KeyPoints(0.0, 0.0, imageWidth, imageHeight))
         == YoloBox(0.5, 0.5, 1.0, 1.0)
  {
  }

  /** A box inside the image has all four values in [0, 1]. */
  lemma InsideImageNormalised(imageWidth: real, imageHeight: real, k: KeyPoints)
    requires imageWidth > 0.0 && imageHeight > 0.0
    requires 0.0 <= k.x1 <= imageWidth && 0.0 <= k.x2 <= imageWidth
    requires 0.0 <= k.y1 <= imageHeight && 0.0 <= k.y2 <= imageHeight
    ensures var r := ConvertToYoloFormat(imageWidth, imageHeight, k);
            0.0 <= r.xCenter <= 1.0 && 0.0 <= r.yCenter <= 1.0 && 0.0 <= r.width <= 1.0 && 0.0 <= r.height <= 1.0
  {
    RatioInUnit((k.x1 + k.x2) / 2.0, imageWidth);
    RatioInUnit((k.y1 + k.y2) / 2.0, imageHeight);
    RatioInUnit(Abs(k.x2 - k.x1), imageWidth);
    RatioInUnit(Abs(k.y2 - k.y1), imageHeight);
  }

  lemma RatioInUnit(a: real, d: real)
    requires d > 0.0 && 0.0 <= a <= d
    ensures 0.0 <= a / d <= 1.0
  {
    assert a / d * d == a;
  }
}
