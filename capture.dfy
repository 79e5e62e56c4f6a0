/**
 * Saving the cropped hand image: for every action and every sequence index
 * one file, named so that no existing file is overwritten, followed by the
 * capture-quota test. The file system is reduced to the set of paths that
 * exist.
 */
module Capture {
  import opened Wrappers
  import opened HandData

  /** <dataPath>/<action>/sequence <sequence> capture <handType> <count>[_<index>].png */
  datatype ImagePath = ImagePath(
    dataPath: string,
    action: string,
    sequence: nat,
    handType: string,
    count: int,
    index: Option<nat>)

  /** The paths that exist on disk. */
  class FileSystem {
    var files: set<ImagePath>

    constructor (existing: set<ImagePath>)
      ensures files == existing
    {
      files := existing;
    }
  }

  function Canonical(u: Utils, action: string, sequence: nat, handType: string, count: int): ImagePath
  {
    ImagePath(u.dataPath, action, sequence, handType, count, None)
  }

  function Suffixed(base: ImagePath, k: nat): ImagePath
  {
    base.(index := Some(k))
  }

  function SetOf(s: seq<ImagePath>): set<ImagePath>
  {
    set p | p in s
  }

  /** The smallest k' >= k whose suffixed name is free: every name probed
      before it exists. */
  function FirstFreeIndex(files: set<ImagePath>, base: ImagePath, k: nat): (r: nat)
    ensures k <= r && Suffixed(base, r) !in files
    ensures forall j :: k <= j < r ==> Suffixed(base, j) in files
    decreases set p | p in files && p.index.Some? && p.index.value >= k
  {
    if Suffixed(base, k) !in files then k
    else
      ProbeShrinks(files, base, k);
      FirstFreeIndex(files, base, k + 1)
  }

  /** Probing an existing name leaves fewer suffixed names to probe past. */
  lemma ProbeShrinks(files: set<ImagePath>, base: ImagePath, k: nat)
    requires Suffixed(base, k) in files
    ensures (set p | p in files && p.index.Some? && p.index.value >= k + 1)
            < (set p | p in files && p.index.Some? && p.index.value >= k)
  {
    var later := set p | p in files && p.index.Some? && p.index.value >= k + 1;
    var from := set p | p in files && p.index.Some? && p.index.value >= k;
    assert later <= from;
    assert Suffixed(base, k) in from && Suffixed(base, k) !in later;
  }

  lemma FirstFreeIndexUnique(files: set<ImagePath>, base: ImagePath, k: nat, r: nat)
    requires k <= r && Suffixed(base, r) !in files
    requires forall j :: k <= j < r ==> Suffixed(base, j) in files
    ensures FirstFreeIndex(files, base, k) == r
  {
    var f := FirstFreeIndex(files, base, k);
    if f < r {
      assert false;
    } else if r < f {
      assert false;
    }
  }

  /** The name a save goes to: the canonical name when it is free, otherwise
      the canonical name with the smallest free index from 1 on. */
  function ChooseName(files: set<ImagePath>, base: ImagePath): (p: ImagePath)
    requires base.index.None?
    ensures p !in files
    ensures p.(index := None) == base
    ensures p == base <==> base !in files
    ensures p != base ==>
              p.index.Some? && 1 <= p.index.value
              && forall j :: 1 <= j < p.index.value ==> Suffixed(base, j) in files
  {
    if base !in files then base else Suffixed(base, FirstFreeIndex(files, base, 1))
  }

  /** An existing canonical name is followed by _1, and by _2 when _1 exists
      too. */
  lemma CollisionSuffixes(files: set<ImagePath>, base: ImagePath)
    requires base.index.None? && base in files
    ensures Suffixed(base, 1) !in files ==> ChooseName(files, base) == Suffixed(base, 1)
    ensures Suffixed(base, 1) in files && Suffixed(base, 2) !in files ==> ChooseName(files, base) == Suffixed(base, 2)
  {
    if Suffixed(base, 1) !in files {
      FirstFreeIndexUnique(files, base, 1, 1);
    } else if Suffixed(base, 2) !in files {
      FirstFreeIndexUnique(files, base, 1, 2);
    }
  }

  /** Canonical names for sequence indices 0 .. n-1 of one action. */
  function SequenceNames(u: Utils, action: string, handType: string, count: int, n: nat): (r: seq<ImagePath>)
    ensures |r| == n
    ensures forall p :: p in r ==> p.index.None?
  {
    if n == 0 then []
    else SequenceNames(u, action, handType, count, n - 1) + [Canonical(u, action, n - 1, handType, count)]
  }

  /** Entry i is the canonical name of sequence index i. */
  lemma {:induction false} SequenceNamesAt(u: Utils, action: string, handType: string, count: int, n: nat, i: nat)
    requires i < n
    ensures SequenceNames(u, action, handType, count, n)[i] == Canonical(u, action, i, handType, count)
  {
    if i < n - 1 {
      SequenceNamesAt(u, action, handType, count, n - 1, i);
    }
  }

  /** Canonical names of all saves of one call, action by action. */
  function CanonicalNames(u: Utils, actions: seq<string>, handType: string, count: int): (r: seq<ImagePath>)
    ensures |r| == |actions| * u.saveFrequency
    ensures forall p :: p in r ==> p.index.None?
  {
    if |actions| == 0 then []
    else
      CanonicalNames(u, actions[..|actions| - 1], handType, count)
      + SequenceNames(u, actions[|actions| - 1], handType, count, u.saveFrequency)
  }

  /** Save a * save_frequency + s is sequence index s of action a. */
  lemma {:induction false} CanonicalNamesAt(u: Utils, actions: seq<string>, handType: string, count: int, a: nat, s: nat)
    requires a < |actions| && s < u.saveFrequency
    ensures a * u.saveFrequency + s < |CanonicalNames(u, actions, handType, count)|
    ensures CanonicalNames(u, actions, handType, count)[a * u.saveFrequency + s]
            == Canonical(u, actions[a], s, handType, count)
  {
    var n := |actions| - 1;
    var f := u.saveFrequency;
    var prefix := CanonicalNames(u, actions[..n], handType, count);
    assert |prefix| == n * f;
    if a < n {
      assert a * f + s < (a + 1) * f <= n * f;
      CanonicalNamesAt(u, actions[..n], handType, count, a, s);
      assert actions[..n][a] == actions[a];
    } else {
      assert a * f + s == |prefix| + s;
      SequenceNamesAt(u, actions[a], handType, count, f, s);
    }
  }

  /** The paths written, one per canonical name, each chosen against the
      files that exist at that moment (the earlier saves included). */
  function Saved(files: set<ImagePath>, bases: seq<ImagePath>): (written: seq<ImagePath>)
    requires forall b :: b in bases ==> b.index.None?
    ensures |written| == |bases|
  {
    if |bases| == 0 then []
    else
      var prev := Saved(files, bases[..|bases| - 1]);
      prev + [ChooseName(files + SetOf(prev), bases[|bases| - 1])]
  }

  /** Every save goes to a name that existed neither before the call nor
      among the earlier saves of the call. */
  lemma {:induction false} SavedFresh(files: set<ImagePath>, bases: seq<ImagePath>)
    requires forall b :: b in bases ==> b.index.None?
    ensures forall i :: 0 <= i < |bases| ==> Saved(files, bases)[i] !in files
    ensures forall i, j :: 0 <= i < j < |bases| ==> Saved(files, bases)[i] != Saved(files, bases)[j]
  {
    if |bases| > 0 {
      var n := |bases| - 1;
      var prev := Saved(files, bases[..n]);
      SavedFresh(files, bases[..n]);
      var last := ChooseName(files + SetOf(prev), bases[n]);
      assert Saved(files, bases) == prev + [last];
      assert last !in SetOf(prev);
    }
  }

  /** Save i uses the canonical name exactly when it is free at that moment,
      and otherwise its smallest free suffix. */
  lemma {:induction false} SavedStep(files: set<ImagePath>, bases: seq<ImagePath>, i: nat)
    requires forall b :: b in bases ==> b.index.None?
    requires i < |bases|
    ensures Saved(files, bases)[i] == ChooseName(files + SetOf(Saved(files, bases)[..i]), bases[i])
  {
    var n := |bases| - 1;
    var prev := Saved(files, bases[..n]);
    assert Saved(files, bases) == prev + [ChooseName(files + SetOf(prev), bases[n])];
    if i < n {
      SavedStep(files, bases[..n], i);
      assert Saved(files, bases)[..i] == prev[..i];
    } else {
      assert Saved(files, bases)[..i] == prev;
    }
  }

  /** Each call adds exactly one new file per save. */
  lemma {:induction false} SavedGrowth(files: set<ImagePath>, bases: seq<ImagePath>)
    requires forall b :: b in bases ==> b.index.None?
    ensures |files + SetOf(Saved(files, bases))| == |files| + |bases|
  {
    if |bases| == 0 {
      assert SetOf([]) == {};
      assert files + {} == files;
    } else {
      var n := |bases| - 1;
      var prev := Saved(files, bases[..n]);
      SavedGrowth(files, bases[..n]);
      var last := ChooseName(files + SetOf(prev), bases[n]);
      assert SetOf(prev + [last]) == SetOf(prev) + {last};
      assert files + SetOf(prev + [last]) == (files + SetOf(prev)) + {last};
    }
  }

  /** The stop test count >= size_data / save_frequency, in true division,
      is count * save_frequency >= size_data. */
  lemma QuotaThreshold(count: int, sizeData: int, saveFrequency: Positive)
    ensures count as real >= sizeData as real / saveFrequency as real <==> count * saveFrequency >= sizeData
  {
    var f := saveFrequency as real;
    assert (count * saveFrequency) as real == count as real * f;
    assert sizeData as real / f * f == sizeData as real;
    if count as real >= sizeData as real / f {
      assert count as real * f >= sizeData as real / f * f;
    } else {
      assert count as real * f < sizeData as real / f * f;
    }
  }

  /** A freshly constructed Utils saves ten images per action and call, and
      its stop test is count * 10 >= size_data. */
  lemma DefaultQuota(dataPath: string, actions: seq<string>, imgSize: int, sizeData: int, handType: string, count: int)
    ensures var u := NewUtils(dataPath, actions, imgSize, sizeData);
            u.offset == 10 && |CanonicalNames(u, actions, handType, count)| == 10 * |actions|
            && (count as real >= sizeData as real / u.saveFrequency as real <==> count * 10 >= sizeData)
  {
    QuotaThreshold(count, sizeData, 10);
  }

  /** Probes the canonical name, then _1, _2, ... until one does not exist. */
  method FreeImagePath(fs: FileSystem, base: ImagePath) returns (imagePath: ImagePath)
    requires base.index.None?
    ensures imagePath == ChooseName(fs.files, base)
  {
    imagePath := base;
    if imagePath in fs.files {
      var index := 1;
      while true
        invariant 1 <= index
        invariant forall j :: 1 <= j < index ==> Suffixed(base, j) in fs.files
        decreases set p | p in fs.files && p.index.Some? && p.index.value >= index
      {
        var newImagePath := base.(index := Some(index));
        if newImagePath !in fs.files {
          FirstFreeIndexUnique(fs.files, base, 1, index);
          imagePath := newImagePath;
          break;
        }
        ProbeShrinks(fs.files, base, index);
        index := index + 1;
      }
    }
  }

  /** One more canonical name extends the saves by its chosen name. */
  lemma SavedSnoc(files: set<ImagePath>, bases: seq<ImagePath>, base: ImagePath)
    requires forall b :: b in bases ==> b.index.None?
    requires base.index.None?
    ensures Saved(files, bases + [base])
            == Saved(files, bases) + [ChooseName(files + SetOf(Saved(files, bases)), base)]
  {
    assert (bases + [base])[..|bases|] == bases;
  }

  lemma SetOfAppend(a: seq<ImagePath>, b: seq<ImagePath>)
    ensures SetOf(a + b) == SetOf(a) + SetOf(b)
  {
  }

  lemma CanonicalNamesSnoc(u: Utils, actions: seq<string>, handType: string, count: int, i: nat)
    requires i < |actions|
    ensures CanonicalNames(u, actions[..i + 1], handType, count)
            == CanonicalNames(u, actions[..i], handType, count) + SequenceNames(u, actions[i], handType, count, u.saveFrequency)
  {
    assert actions[..i + 1][..i] == actions[..i];
  }

  /** Saving two batches of names one after the other is saving the
      second against the files the first one leaves. */
  lemma {:induction false} SavedAppend(files: set<ImagePath>, a: seq<ImagePath>, b: seq<ImagePath>)
    requires forall p :: p in a ==> p.index.None?
    requires forall p :: p in b ==> p.index.None?
    ensures Saved(files, a + b)
            == Saved(files, a) + Saved(files + SetOf(Saved(files, a)), b)
  {
    if |b| > 0 {
      var n := |b| - 1;
      assert (a + b)[..|a + b| - 1] == a + b[..n];
      SavedAppend(files, a, b[..n]);
      var first := Saved(files, a);
      var rest := Saved(files + SetOf(first), b[..n]);
      assert SetOf(first + rest) == SetOf(first) + SetOf(rest);
      assert files + SetOf(first + rest) == (files + SetOf(first)) + SetOf(rest);
    } else {
      assert a + b == a;
    }
  }

  /** The saves for one action: save_frequency sequence indices, each written
      to the first free name. */
  method SaveAction(u: Utils, fs: FileSystem, action: string, handType: string, count: int)
    returns (written: seq<ImagePath>)
    modifies fs
    ensures written == Saved(old(fs.files), SequenceNames(u, action, handType, count, u.saveFrequency))
    ensures fs.files == old(fs.files) + SetOf(written)
  {
    ghost var start := fs.files;
    written := [];
    for sequence := 0 to u.saveFrequency
      invariant written == Saved(start, SequenceNames(u, action, handType, count, sequence))
      invariant fs.files == start + SetOf(written)
    {
      var base := Canonical(u, action, sequence, handType, count);
      var imagePath := FreeImagePath(fs, base);
      SavedSnoc(start, SequenceNames(u, action, handType, count, sequence), base);
      SetOfAppend(written, [imagePath]);
      // the image is written to imagePath
      fs.files := fs.files + {imagePath};
      written := written + [imagePath];
    }
  }

  /**
   * For every action and every sequence index, writes the hand image to the
   * first free name. Returns the paths written, in order, and whether the
   * capture quota is reached (where the source exits the process).
   */
  method SaveResizedHand(u: Utils, fs: FileSystem, count: int, handType: string)
    returns (written: seq<ImagePath>, stop: bool)
    modifies fs
    ensures written == Saved(old(fs.files), CanonicalNames(u, u.actions, handType, count))
    ensures fs.files == old(fs.files) + SetOf(written)
    ensures forall p :: p in written ==> p !in old(fs.files)
    ensures |written| == |u.actions| * u.saveFrequency
    ensures |fs.files| == |old(fs.files)| + |u.actions| * u.saveFrequency
    ensures stop <==> count * u.saveFrequency >= u.sizeData
  {
    ghost var start := fs.files;
    written := [];
    for i := 0 to |u.actions|
      invariant written == Saved(start, CanonicalNames(u, u.actions[..i], handType, count))
      invariant fs.files == start + SetOf(written)
    {
      ghost var done := CanonicalNames(u, u.actions[..i], handType, count);
      var more := SaveAction(u, fs, u.actions[i], handType, count);
      SavedAppend(start, done, SequenceNames(u, u.actions[i], handType, count, u.saveFrequency));
      CanonicalNamesSnoc(u, u.actions, handType, count, i);
      SetOfAppend(written, more);
      written := written + more;
    }
    assert u.actions[..|u.actions|] == u.actions;
    ghost var bases := CanonicalNames(u, u.actions, handType, count);
    SavedFresh(start, bases);
    SavedGrowth(start, bases);
    stop := count as real >= u.sizeData as real / u.saveFrequency as real;
    QuotaThreshold(count, u.sizeData, u.saveFrequency);
  }
}
