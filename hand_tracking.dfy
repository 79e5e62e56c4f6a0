/**
 * Collection of pixel-space landmark triples into the caller's positions
 * list, and the hand-type filter in front of it. The caller's list is passed
 * in and the extended list handed back.
 */
module HandTracking {
  import opened Wrappers
  import opened HandData

  /** Appends (x * width, y * height, z * width) for every landmark of every
      hand, hand after hand; what the list held before stays as its prefix. */
  method GetPosition(positions: seq<Point>, d: Detection, shape: Shape) returns (result: seq<Point>)
    ensures result == positions + Positions(d.hands, shape)
    ensures |result| == |positions| + LandmarkCount(d.hands)
    ensures result[..|positions|] == positions
  {
    result := positions;
    for i := 0 to |d.hands|
      invariant result == positions + Positions(d.hands[..i], shape)
    {
      var hand := d.hands[i];
      for j := 0 to |hand|
        invariant result == positions + Positions(d.hands[..i], shape) + ScaleHand(hand[..j], shape)
      {
        var lm := hand[j];
        ScaleHandSnoc(hand, j, shape);
        result := result + [Scale(lm, shape)];
      }
      assert hand[..|hand|] == hand;
      assert d.hands[..i + 1][..i] == d.hands[..i];
    }
    assert d.hands[..|d.hands|] == d.hands;
    PositionsLength(d.hands, shape);
  }

  /**
   * The loop over the handedness entries returns during its first pass, so
   * only entry 0 is looked at. A label equal to handType appends the points
   * of all hands; handType "all" appends them (again). With no entry the
   * loop body never runs: the list is untouched and the result is None.
   */
  method DetectHandType(handType: string, d: Detection, positions: seq<Point>, shape: Shape)
    returns (result: seq<Point>, returned: Option<seq<Point>>)
    ensures |d.labels| == 0 ==> result == positions && returned == None
    ensures |d.labels| > 0 ==> returned == Some(result)
    ensures |d.labels| > 0 ==>
              result == positions
                        + (if d.labels[0] == handType then Positions(d.hands, shape) else [])
                        + (if handType == "all" then Positions(d.hands, shape) else [])
  {
    result, returned := positions, None;
    for handIndex := 0 to |d.labels|
      invariant handIndex == 0 && result == positions
    {
      var handTypes := d.labels[handIndex];
      if handTypes == handType {
        result := GetPosition(result, d, shape);
      }
      if handType == "all" {
        result := GetPosition(result, d, shape);
      }
      returned := Some(result);
      return;
    }
  }
}
