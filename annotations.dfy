/**
 * The annotation box written for one frame: the envelope of the landmarks of
 * every detected hand together, widened by a fixed margin and converted to
 * the YOLO encoding.
 */
module Annotations {
  import opened Wrappers
  import opened HandData
  import opened Extremes
  import opened Yolo

  /** Padding, in pixels, added on every side of the envelope. */
  const Margin: real := 20.0

  /** What one annotation line holds: the class index and the YOLO tuple. */
  datatype AnnotationEntry = AnnotationEntry(classIndex: int, box: YoloBox)

  function Pad(b: Box, margin: real): Box
  {
    Box(b.xMin - margin, b.yMin - margin, b.xMax + margin, b.yMax + margin)
  }

  function AsKeyPoints(b: Box): KeyPoints
  {
    KeyPoints(b.xMin, b.yMin, b.xMax, b.yMax)
  }

  /** The annotation a frame with at least one hand receives. */
  function FrameAnnotation(hands: seq<Hand>, shape: Shape, classIndex: int): AnnotationEntry
    requires |hands| > 0 && shape.width > 0 && shape.height > 0
  {
    AnnotationEntry(
      classIndex,
      ConvertToYoloFormat(shape.width as real, shape.height as real,
                          AsKeyPoints(Pad(Envelope(Positions(hands, shape)), Margin))))
  }

  /**
   * The routine folds running minima and maxima (starting from the infinite
   * sentinels, here None) over the landmarks of every hand, pads the result
   * and converts it. With no hand the image size is never read and the
   * routine fails: None.
   */
  method AnnotationData(d: Detection, shape: Shape, classIndex: int) returns (r: Option<AnnotationEntry>)
    requires shape.width > 0 && shape.height > 0
    ensures r.None? <==> |d.hands| == 0
    ensures r.Some? ==> r.value == FrameAnnotation(d.hands, shape, classIndex)
  {
    var running: Option<Box> := None;
    var i := 0;
    while i < |d.hands|
      invariant 0 <= i <= |d.hands|
      invariant running.None? <==> i == 0
      invariant running.Some? ==> running.value == Envelope(Positions(d.hands[..i], shape))
    {
      var hand := d.hands[i];
      var xs, ys := HandKeypoints(hand, shape);
      var handBox := Box(MinOf(xs), MinOf(ys), MaxOf(xs), MaxOf(ys));
      EnvelopeStep(d.hands, i, shape);
      match running {
        case None =>
          running := Some(handBox);
        case Some(b) =>
          running := Some(Join(b, handBox));
      }
      i := i + 1;
    }
    assert d.hands[..i] == d.hands;
    if running.None? {
      r := None;
    } else {
      var ancho, alto := shape.width as real, shape.height as real;
      var padded := Pad(running.value, Margin);
      var box := ConvertToYoloFormat(ancho, alto, AsKeyPoints(padded));
      r := Some(AnnotationEntry(classIndex, box));
    }
  }

  /** The inner loop: the x and y pixel coordinates of one hand's landmarks,
      in order. */
  method HandKeypoints(hand: seq<Landmark>, shape: Shape) returns (xs: seq<real>, ys: seq<real>)
    ensures xs == Xs(ScaleHand(hand, shape)) && ys == Ys(ScaleHand(hand, shape))
  {
    xs, ys := [], [];
    var j := 0;
    while j < |hand|
      invariant 0 <= j <= |hand|
      invariant xs == Xs(ScaleHand(hand[..j], shape)) && ys == Ys(ScaleHand(hand[..j], shape))
    {
      // x_rel and y_rel: the landmark scaled by the image width and height
      var rel := Scale(hand[j], shape);
      ScaleHandSnoc(hand, j, shape);
      ProjectionsAppend(ScaleHand(hand[..j], shape), [rel]);
      xs := xs + [rel.x];
      ys := ys + [rel.y];
      j := j + 1;
    }
    assert hand[..j] == hand;
  }

  /** Folding one more hand into the running box. */
  lemma EnvelopeStep(hands: seq<Hand>, i: nat, shape: Shape)
    requires i < |hands|
    ensures i == 0 ==> Envelope(Positions(hands[..i + 1], shape)) == Envelope(ScaleHand(hands[i], shape))
    ensures i > 0 ==> Envelope(Positions(hands[..i + 1], shape))
                      == Join(Envelope(Positions(hands[..i], shape)), Envelope(ScaleHand(hands[i], shape)))
  {
    assert hands[..i + 1][..i] == hands[..i];
    assert Positions(hands[..i + 1], shape) == Positions(hands[..i], shape) + ScaleHand(hands[i], shape);
    if i == 0 {
      assert Positions(hands[..i], shape) == [];
    } else {
      EnvelopeAppend(Positions(hands[..i], shape), ScaleHand(hands[i], shape));
    }
  }

  /** Every landmark of every hand lies in the annotated box, at least the
      margin away from each edge, and each unpadded edge is touched by some
      landmark. */
  lemma AnnotationEnclosesAllHands(hands: seq<Hand>, shape: Shape, classIndex: int)
    requires |hands| > 0 && shape.width > 0 && shape.height > 0
    ensures var b := ToPixels(shape.width as real, shape.height as real, FrameAnnotation(hands, shape, classIndex).box);
            (forall k, j :: 0 <= k < |hands| && 0 <= j < |hands[k]| ==>
               var p := Scale(hands[k][j], shape);
               b.x1 + Margin <= p.x <= b.x2 - Margin && b.y1 + Margin <= p.y <= b.y2 - Margin)
            && (exists p :: p in Positions(hands, shape) && p.x == b.x1 + Margin)
            && (exists p :: p in Positions(hands, shape) && p.x == b.x2 - Margin)
            && (exists p :: p in Positions(hands, shape) && p.y == b.y1 + Margin)
            && (exists p :: p in Positions(hands, shape) && p.y == b.y2 - Margin)
  {
    var W, H := shape.width as real, shape.height as real;
    var e := Envelope(Positions(hands, shape));
    var padded := Pad(e, Margin);
    DecodeEncode(W, H, AsKeyPoints(padded));
    forall k, j | 0 <= k < |hands| && 0 <= j < |hands[k]|
      ensures Scale(hands[k][j], shape) in Positions(hands, shape)
    {
      assert ScaleHand(hands[k], shape)[j] == Scale(hands[k][j], shape);
      PositionsMembers(hands, shape, Scale(hands[k][j], shape));
    }
  }

  /** The pixel box the annotation stands for is the envelope of all
      landmarks widened by the margin on every side. */
  lemma AnnotationIsPaddedEnvelope(hands: seq<Hand>, shape: Shape, classIndex: int)
    requires |hands| > 0 && shape.width > 0 && shape.height > 0
    ensures ToPixels(shape.width as real, shape.height as real, FrameAnnotation(hands, shape, classIndex).box)
            == AsKeyPoints(Pad(Envelope(Positions(hands, shape)), Margin))
  {
    var ps := Positions(hands, shape);
    var e := Envelope(ps);
    var p :| p in ps && p.x == e.xMin;
    var q :| q in ps && q.y == e.yMin;
    DecodeEncode(shape.width as real, shape.height as real, AsKeyPoints(Pad(e, Margin)));
  }

  /** Padding a box by the margin and converting it gives a YOLO size whose
      pixel width and height are the raw extent plus 40: the generic form,
      over any ordered box, of AnnotationPaddingAddsForty, stated on the
      normalised width and height rather than on the decoded pixel box. */
  lemma PadWidensExtent(e: Box, imageWidth: real, imageHeight: real)
    requires imageWidth > 0.0 && imageHeight > 0.0
    requires e.xMin <= e.xMax && e.yMin <= e.yMax
    ensures ConvertToYoloFormat(imageWidth, imageHeight, AsKeyPoints(Pad(e, Margin))).width * imageWidth
            == e.xMax - e.xMin + 40.0
    ensures ConvertToYoloFormat(imageWidth, imageHeight, AsKeyPoints(Pad(e, Margin))).height * imageHeight
            == e.yMax - e.yMin + 40.0
  {
    var y := ConvertToYoloFormat(imageWidth, imageHeight, AsKeyPoints(Pad(e, Margin)));
    EdgesSpan(y.xCenter, y.width, imageWidth);
    EdgesSpan(y.yCenter, y.height, imageHeight);
  }

  /** The pixel box a frame's annotation encodes is 40 pixels wider and 40
      pixels taller than the envelope of all its hands' landmarks. */
  lemma AnnotationPaddingAddsForty(hands: seq<Hand>, shape: Shape, classIndex: int)
    requires |hands| > 0 && shape.width > 0 && shape.height > 0
    ensures var e := Envelope(Positions(hands, shape));
            var b := ToPixels(shape.width as real, shape.height as real, FrameAnnotation(hands, shape, classIndex).box);
            b.x2 - b.x1 == e.xMax - e.xMin + 40.0 && b.y2 - b.y1 == e.yMax - e.yMin + 40.0
  {
    AnnotationIsPaddedEnvelope(hands, shape, classIndex);
  }

  lemma EdgesSpan(center: real, size: real, scale: real)
    ensures (center + size / 2.0) * scale - (center - size / 2.0) * scale == size * scale
  {
  }

  /** The annotation does not depend on the order in which the hands are
      reported. */
  lemma AnnotationOrderIndependent(a: seq<Hand>, b: seq<Hand>, shape: Shape, classIndex: int)
    requires |a| > 0 && shape.width > 0 && shape.height > 0
    requires multiset(a) == multiset(b)
    ensures |b| > 0 && FrameAnnotation(a, shape, classIndex) == FrameAnnotation(b, shape, classIndex)
  {
    assert a[0] in multiset(b);
    forall p
      ensures p in Positions(a, shape) <==> p in Positions(b, shape)
    {
      PositionsMembers(a, shape, p);
      PositionsMembers(b, shape, p);
      if p in Positions(a, shape) {
        var k :| 0 <= k < |a| && p in ScaleHand(a[k], shape);
        assert a[k] in multiset(b);
        var k' :| 0 <= k' < |b| && b[k'] == a[k];
      }
      if p in Positions(b, shape) {
        var k :| 0 <= k < |b| && p in ScaleHand(b[k], shape);
        assert b[k] in multiset(a);
        var k' :| 0 <= k' < |a| && a[k'] == b[k];
      }
    }
    EnvelopeSamePoints(Positions(a, shape), Positions(b, shape));
  }
}
