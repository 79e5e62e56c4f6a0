# Hand-gesture dataset geometry and capture, in Dafny

This project models the computational core of the `Utils` class of a
hand-gesture dataset tool (`dataset_manager/utils/utils.py`). The tool runs a
hand-landmark detector on camera frames and then does five things:

- it turns the landmarks of a frame into pixel positions (`get_position`,
  `Detect_hand_type`);
- it writes a YOLO annotation for the box around all hands
  (`anotation_data`, `convert_to_yolo_format`);
- it draws a box around the hand when that box fits in the frame
  (`Draw_Bound_Boxes`);
- it crops a square around the hand (`Get_image_resized`);
- it saves the crop once per action and sequence index under a name that
  never overwrites an existing file, then tests the capture quota
  (`Save_resized_hand`).

The modules follow that structure:

- `HandData` (`hand_data.dfy`) holds the shared values:
  - landmarks, hands, one frame's detection result and an image's shape;
  - pixel points;
  - the stored configuration of a `Utils` object, where `NewUtils` sets the
    save frequency and the offset to 10, as the constructor does.

  It also defines `Positions`: the pixel points of all hands, hand after
  hand, in landmark order. This function specifies the list-appending code.
- `Extremes` (`extremes.dfy`) holds the min/max folds (`MinOf`, `MaxOf`) and
  the real-valued envelope `Envelope` of a list of points. The source
  computes these with `min`/`max` over keypoint slices and running extremes.
- `Yolo` (`yolo.dfy`) holds `ConvertToYoloFormat` and its inverse
  `ToPixels`.
- `Annotations` (`annotations.dfy`) holds `AnnotationData`, the nested loop
  of `anotation_data`. It is proved equal to `FrameAnnotation`: the padded
  envelope of all hands, converted.
- `HandTracking` (`hand_tracking.dfy`) holds `GetPosition` and
  `DetectHandType`. Both append to the caller's list, which is modelled as a
  sequence passed in and returned.
- `BoundBoxes` (`bound_boxes.dfy`) holds:
  - Python's `int()` truncation;
  - the integer hand box;
  - the draw guard and rectangle of `Draw_Bound_Boxes`;
  - the crop rectangle of `Get_image_resized`.
- `Capture` (`capture.dfy`) models the file system as a class whose field is
  the set of existing paths. It holds:
  - the collision-free naming (`ChooseName`);
  - the sequence of all paths one call writes (`Saved`);
  - the method `SaveResizedHand`, with its probe loop and the quota test.

  In this model the quota test returns a flag.

## Model

| member | source | states |
|---|---|---|
| Yolo.ConvertToYoloFormat | dataset_manager/utils/utils.py:70-75 | width and height are non-negative; centre minus or plus half the size, scaled back by the image dimension, gives the smaller and the larger key-point coordinate on each axis |
| Yolo.DecodeEncode | dataset_manager/utils/utils.py:70-75 | converting key points and scaling the YOLO box back to pixels gives the key points with each axis ordered |
| Yolo.EncodeDecode | dataset_manager/utils/utils.py:70-75 | every YOLO box with non-negative size is the conversion of its own pixel corners |
| Yolo.SwapXInvariant | dataset_manager/utils/utils.py:71-73 | swapping the two x key points does not change the result, because of the abs |
| Yolo.SwapYInvariant | dataset_manager/utils/utils.py:72-74 | swapping the two y key points does not change the result |
| Yolo.FullImage | dataset_manager/utils/utils.py:70-75 | the full image converts to centre (0.5, 0.5) and size (1, 1) |
| Yolo.InsideImageNormalised | dataset_manager/utils/utils.py:70-75 | key points inside the image give four values in [0, 1] |
| Extremes.MinOf | dataset_manager/utils/utils.py:118-119 | the result is an element of the list and no element is smaller |
| Extremes.MaxOf | dataset_manager/utils/utils.py:120-121 | the result is an element of the list and no element is larger |
| Extremes.MinOfConcat | dataset_manager/utils/utils.py:123-124 | the minimum of two concatenated lists is the min of their minima, which is the running-minimum step |
| Extremes.MaxOfConcat | dataset_manager/utils/utils.py:125-126 | the maximum of two concatenated lists is the max of their maxima, which is the running-maximum step |
| Extremes.MinOfSameValues | dataset_manager/utils/utils.py:118-119 | lists with the same elements have the same minimum |
| Extremes.MaxOfSameValues | dataset_manager/utils/utils.py:120-121 | lists with the same elements have the same maximum |
| Extremes.Envelope | dataset_manager/utils/utils.py:105-126 | every point lies in the box, and each of the four edges is attained by some point |
| Extremes.EnvelopeAppend | dataset_manager/utils/utils.py:110-126 | the envelope of two point lists joined is the join of their envelopes, which is what folding hand by hand computes |
| Extremes.EnvelopeSamePoints | dataset_manager/utils/utils.py:110-126 | point lists with the same members have the same envelope |
| HandData.Positions | dataset_manager/utils/utils.py:157-161 | at least one hand gives at least one point |
| HandData.PositionsLength | dataset_manager/utils/utils.py:157-161 | one point per landmark over all hands |
| HandData.PositionsAppend | dataset_manager/utils/utils.py:157-161 | the points of two hand lists joined are the points of the first followed by those of the second |
| HandData.PositionsMembers | dataset_manager/utils/utils.py:157-161 | a point is in the list exactly when it is the scaled landmark of some hand |
| Annotations.AnnotationData | dataset_manager/utils/utils.py:102-134 | no result exactly when there is no hand; otherwise the nested min/max loop, the 20-pixel padding and the conversion give the padded envelope of all hands' points, converted, with the class index |
| Annotations.HandKeypoints | dataset_manager/utils/utils.py:111-116 | the inner loop collects the x and y pixel coordinates of the hand's landmarks, in landmark order |
| Annotations.AnnotationEnclosesAllHands | dataset_manager/utils/utils.py:110-133 | every landmark of every hand lies inside the annotated box, at least 20 pixels from each edge, and each edge is exactly 20 pixels from some landmark |
| Annotations.AnnotationIsPaddedEnvelope | dataset_manager/utils/utils.py:128-133 | the annotation, scaled back to pixels, is the envelope of all hands grown by 20 on every side |
| Annotations.AnnotationPaddingAddsForty | dataset_manager/utils/utils.py:128-133 | the pixel box a frame's annotation encodes is the envelope of all hands' landmarks plus 40 in width and plus 40 in height |
| Annotations.PadWidensExtent | dataset_manager/utils/utils.py:128-133 | after padding, the annotated width and height in pixels are the raw extent plus 40 |
| Annotations.AnnotationOrderIndependent | dataset_manager/utils/utils.py:110-126 | reordering the hands does not change the annotation |
| HandTracking.GetPosition | dataset_manager/utils/utils.py:156-161 | the list becomes the old list followed by every hand's scaled landmarks in order; it gains one entry per landmark and keeps its prefix |
| HandTracking.DetectHandType | dataset_manager/utils/utils.py:136-154 | with no handedness entry, the list is unchanged and nothing is returned; otherwise only the first label is compared, all hands' points are appended once if it matches and once more if the type is "all", and the list is returned |
| BoundBoxes.Trunc | dataset_manager/utils/utils.py:171-174 | int() truncates toward zero: the result is within one of the argument on the side of zero |
| BoundBoxes.TruncMonotone | dataset_manager/utils/utils.py:171-174 | truncation preserves order |
| BoundBoxes.HalfTowardZero | dataset_manager/utils/utils.py:203 | int(n / 2) is n halved and rounded toward zero |
| BoundBoxes.HandBox | dataset_manager/utils/utils.py:171-174 | the box is ordered, contains every point's truncated coordinates, and each edge is some point's truncated coordinate |
| BoundBoxes.DrawBoundBoxes | dataset_manager/utils/utils.py:164-185 | a drawing happens exactly when the offset rectangle lies in the frame; it is that rectangle, captioned with the class 5 pixels above its top-left corner, ordered and inside the frame, and for offsets from -15 to 40 it encloses every truncated point |
| BoundBoxes.DrawNoOpAtTopBoundary | dataset_manager/utils/utils.py:179-185 | a padded top edge at -1 means nothing is drawn |
| BoundBoxes.GetImageResized | dataset_manager/utils/utils.py:196-210 | the crop's top-left corner is max(0, int((x_min + x_max) / 2) - int(lado / 2) - 50) on x, likewise on y, and each side is min(frame extent - start, lado + 100), with lado the longer side of the truncated hand box |
| BoundBoxes.CropWithinFrame | dataset_manager/utils/utils.py:206-210 | the crop starts at or below and right of the origin, never passes the right or bottom edge, and has sides of at most lado + 100; on an axis whose start lies inside the frame it is non-empty, and on one whose start is at or past the far edge it ends at that edge |
| BoundBoxes.CropCoversBox | dataset_manager/utils/utils.py:201-210 | a hand box inside the frame lies inside its crop |
| BoundBoxes.CropIsSquareAwayFromEdges | dataset_manager/utils/utils.py:203-210 | when the centred square fits in the frame, the crop is that square, of side lado + 100 |
| Capture.FirstFreeIndex | dataset_manager/utils/utils.py:232-239 | the probe from index k ends at a free suffixed name, and every index probed before it exists |
| Capture.FirstFreeIndexUnique | dataset_manager/utils/utils.py:232-239 | a free index with every earlier index taken is the one the probe finds |
| Capture.ChooseName | dataset_manager/utils/utils.py:226-239 | the chosen name does not exist; it differs from the canonical name only in its suffix; it is the canonical name exactly when that name is free; otherwise its suffix is the smallest free one from 1 on |
| Capture.CollisionSuffixes | dataset_manager/utils/utils.py:229-239 | an existing canonical name leads to _1, or to _2 when _1 exists as well |
| Capture.FreeImagePath | dataset_manager/utils/utils.py:226-239 | the probe loop returns the name ChooseName describes |
| Capture.SequenceNames | dataset_manager/utils/utils.py:225-227 | n names, none of them suffixed |
| Capture.SequenceNamesAt | dataset_manager/utils/utils.py:225-227 | entry i is the canonical name of sequence index i |
| Capture.CanonicalNames | dataset_manager/utils/utils.py:224-227 | save_frequency unsuffixed names per action, for all actions |
| Capture.CanonicalNamesAt | dataset_manager/utils/utils.py:224-227 | entry a * save_frequency + s is the canonical name of action a and sequence index s, the order of the two nested loops |
| Capture.Saved | dataset_manager/utils/utils.py:224-240 | one written path per canonical name |
| Capture.SavedFresh | dataset_manager/utils/utils.py:224-240 | no save overwrites a file that existed before the call, and no two saves of the call share a path |
| Capture.SavedStep | dataset_manager/utils/utils.py:229-240 | each save is the name chosen against the files before the call plus the call's earlier saves |
| Capture.SavedGrowth | dataset_manager/utils/utils.py:224-240 | the call adds exactly one new file per save |
| Capture.SavedAppend | dataset_manager/utils/utils.py:224-240 | saving two batches of names in order is saving the second against the files the first leaves, which is the action-by-action loop |
| Capture.QuotaThreshold | dataset_manager/utils/utils.py:241 | count >= size_data / save_frequency in true division holds exactly when count * save_frequency >= size_data |
| Capture.SaveAction | dataset_manager/utils/utils.py:225-240 | one action's saves are its canonical names saved against the current files, and the files grow by exactly those paths |
| Capture.DefaultQuota | dataset_manager/utils/utils.py:34-40 | a freshly constructed Utils has offset 10, saves ten names per action, and stops exactly when count * 10 >= size_data |
| Capture.SaveResizedHand | dataset_manager/utils/utils.py:216-242 | the paths written are the saves of all canonical names in order; the files grow by exactly those paths; none existed before; one new file per action and sequence index; the stop flag is raised exactly when count * save_frequency >= size_data |

## Left out

- Detector configuration and detection (`Hands_model_configuration`,
  `Hands_detection`, lines 49-67) belong to the landmark library. A frame's
  detection result is an input value.
- Creating the action directories in the constructor (lines 42-47) is file
  system set-up. It does not affect any of the modelled computations.
- The drawing, cropping, resizing, display and image writing done by the
  image library are left out. The model returns the rectangle to draw or
  crop, and the path an image is written to. The crop's pixels and the
  `imgSize` resize are not modelled.
- Writing the annotation line, and its six-decimal formatting, are left out.
  `AnnotationData` returns the class index and the four real YOLO values.
  Real arithmetic is exact, so float rounding, `inf` and NaN are not
  modelled.
- The commented-out per-hand variant of `anotation_data` (lines 78-100) is
  dead code.
- `exit(0)` at the end of `Save_resized_hand` becomes the returned `stop`
  flag.
- A detection result of `None` (no hand) is modelled as empty lists. In the
  source, iterating over `None` raises a TypeError in `anotation_data`
  (line 110), `Detect_hand_type` (line 148) and `get_position` (line 158);
  an empty list of hands makes `anotation_data` fail as well, because the
  image size is only read inside the loop. The model has no error there:
  `AnnotationData` returns `None`, `DetectHandType` returns `None` with the
  list unchanged, and `GetPosition` returns the list unchanged.
- Each handedness entry is reduced to the label of its first
  classification, the one field the source reads.
- AnnotationData: requires a positive image size. The source divides by it,
  and a zero-sized image never carries landmarks.
- HandBox, DrawBoundBoxes and GetImageResized: require a non-empty position
  list, because `min` of an empty list raises in the source.
- The save frequency has a positive integer type. The source fixes it at
  10, and the quota test divides by it.
- NewUtils: the constructor's arguments all default to `None` in the
  source; with those defaults `Save_resized_hand` raises (iterating over
  `None` actions, dividing `None` by the save frequency). The model takes
  every argument as a value of its type and has no `None` configuration.
- DrawBoundBoxes: the caption's default value, the empty string, is not
  modelled as a default; callers pass the caption.
- GetImageResized: when the crop starts at or past the right or bottom edge
  (a hand box far outside the frame), `copie_img[y1:y2, x1:x2]` is empty and
  `cv2.resize` raises (lines 211-212). The model returns the empty or
  inverted rectangle instead of an error.
- ImagePath: a path is kept as its fields (data path, action, sequence
  index, hand type, counter, suffix). Two different field tuples are taken
  to format to different file names. The string formatting and
  `os.path.join` are not modelled.
- SaveResizedHand: the file system only tracks which paths exist. Failed
  writes, and other processes creating files during the call, are not
  modelled.
