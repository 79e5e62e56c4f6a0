/**
 * The values every part of the model shares: what the hand detector reports
 * for one frame, the shape of an image, landmarks scaled to pixel space and
 * the configuration the Utils constructor stores.
 */
module HandData {

  /** A landmark as the detector reports it: x and y normalised by the image
      width and height, z a relative depth. */
  datatype Landmark = Landmark(x: real, y: real, z: real)

  /** The landmarks of one detected hand in the detector's order; the
      detector never reports a hand without landmarks. */
  type Hand = s: seq<Landmark> | |s| > 0 witness [Landmark(0.0, 0.0, 0.0)]

  /** One frame's detection result: the landmark lists of the hands
      (multi_hand_landmarks) and, per handedness entry, the label of its
      first classification (multi_handedness). No hand is the empty lists. */
  datatype Detection = Detection(hands: seq<Hand>, labels: seq<string>)

  /** All the model keeps of an image: its shape, rows then columns. */
  datatype Shape = Shape(height: nat, width: nat)

  /** A landmark in pixel space. */
  datatype Point = Point(x: real, y: real, z: real)

  type Positive = n: int | n > 0 witness 1

  /** The configuration fields of a Utils object. The constructor takes the
      first four and always sets saveFrequency and offset to 10. */
  datatype Utils = Utils(
    dataPath: string,
    actions: seq<string>,
    imgSize: int,
    sizeData: int,
    saveFrequency: Positive,
    offset: int)

  const DefaultSaveFrequency: Positive := 10
  const DefaultOffset: int := 10

  /** The stored configuration of a freshly constructed Utils object. */
  function NewUtils(dataPath: string, actions: seq<string>, imgSize: int, sizeData: int): Utils
  {
    Utils(dataPath, actions, imgSize, sizeData, DefaultSaveFrequency, DefaultOffset)
  }

  /** x is scaled by the width, y by the height and z, as in the source, by
      the width. */
  function Scale(lm: Landmark, shape: Shape): Point
  {
    Point(lm.x * shape.width as real, lm.y * shape.height as real, lm.z * shape.width as real)
  }

  function ScaleHand(hand: seq<Landmark>, shape: Shape): seq<Point>
  {
    seq(|hand|, k requires 0 <= k < |hand| => Scale(hand[k], shape))
  }

  /** The pixel-space points of all hands: hand after hand, each hand's
      landmarks in order. */
  function Positions(hands: seq<Hand>, shape: Shape): (ps: seq<Point>)
    ensures |hands| > 0 ==> |ps| > 0
  {
    if |hands| == 0 then []
    else Positions(hands[..|hands| - 1], shape) + ScaleHand(hands[|hands| - 1], shape)
  }

  /** The number of landmarks over all hands. */
  function LandmarkCount(hands: seq<Hand>): nat
  {
    if |hands| == 0 then 0 else LandmarkCount(hands[..|hands| - 1]) + |hands[|hands| - 1]|
  }

  lemma ScaleHandSnoc(hand: seq<Landmark>, j: nat, shape: Shape)
    requires j < |hand|
    ensures ScaleHand(hand[..j + 1], shape) == ScaleHand(hand[..j], shape) + [Scale(hand[j], shape)]
  {
    assert forall k :: 0 <= k < j ==> hand[..j + 1][k] == hand[..j][k];
  }

  /** There is one point per landmark. */
  lemma {:induction false} PositionsLength(hands: seq<Hand>, shape: Shape)
    ensures |Positions(hands, shape)| == LandmarkCount(hands)
  {
    if |hands| > 0 {
      PositionsLength(hands[..|hands| - 1], shape);
    }
  }

  /** The points of a concatenation of hand lists are the points of the
      first list followed by those of the second. */
  lemma {:induction false} PositionsAppend(a: seq<Hand>, b: seq<Hand>, shape: Shape)
    ensures Positions(a + b, shape) == Positions(a, shape) + Positions(b, shape)
  {
    if |b| == 0 {
      assert a + b == a;
    } else {
      var n := |b| - 1;
      assert (a + b)[..|a + b| - 1] == a + b[..n];
      assert (a + b)[|a + b| - 1] == b[n];
      PositionsAppend(a, b[..n], shape);
    }
  }

  /** A point is among the positions exactly when it is the scaled image of
      a landmark of some hand. */
  lemma {:induction false} PositionsMembers(hands: seq<Hand>, shape: Shape, p: Point)
    ensures p in Positions(hands, shape) <==> exists k :: 0 <= k < |hands| && p in ScaleHand(hands[k], shape)
  {
    if |hands| > 0 {
      var n := |hands| - 1;
      var init := hands[..n];
      PositionsMembers(init, shape, p);
      assert forall k :: 0 <= k < n ==> init[k] == hands[k];
      if p in Positions(hands, shape) {
        if p !in ScaleHand(hands[n], shape) {
          assert p in Positions(init, shape);
          var k :| 0 <= k < n && p in ScaleHand(init[k], shape);
          assert p in ScaleHand(hands[k], shape);
        }
      } else {
        assert p !in Positions(init, shape) && p !in ScaleHand(hands[n], shape);
        forall k | 0 <= k < |hands|
          ensures p !in ScaleHand(hands[k], shape)
        {
          if k < n {
            assert hands[k] == init[k];
          }
        }
      }
    }
  }
}
