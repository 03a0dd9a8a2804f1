/**
 * Enrollment: building the reference encodings from the friend's photos, or
 * loading them from the cache (`load_or_create_encodings` in friend_detector.py
 * and in face_recognition_handler.py, which run the same per-photo loop).
 *
 * The file system, the image preprocessing and the face library are inputs: each
 * photo comes with the fate those calls would give it, and the cache file with what
 * loading it would yield.
 */
module Enrollment {
  import opened Wrappers
  import opened Geometry
  import opened Matching

  /** At least this many encodings are needed: fewer are not saved, and the caller refuses to start. */
  const MIN_ENCODINGS: nat := 3

  /** `(loc[2] - loc[0]) * (loc[1] - loc[3])`: (bottom - top) * (right - left). */
  function Area(b: Box): (a: int)
    ensures b.top <= b.bottom && b.left <= b.right ==> a >= 0
    ensures b.top == b.bottom || b.left == b.right ==> a == 0
  {
    (b.bottom - b.top) * (b.right - b.left)
  }

  /** Python's `max(boxes, key=Area)`: the first box of largest area. */
  function LargestIndex(boxes: seq<Box>): (k: nat)
    requires |boxes| > 0
    ensures k < |boxes|
    ensures forall j :: 0 <= j < |boxes| ==> Area(boxes[j]) <= Area(boxes[k])
    ensures forall j :: 0 <= j < k ==> Area(boxes[j]) < Area(boxes[k])
  {
    if |boxes| == 1 then 0
    else
      var k := LargestIndex(boxes[..|boxes| - 1]);
      if Area(boxes[|boxes| - 1]) > Area(boxes[k]) then |boxes| - 1 else k
  }

  /**
   * What the outside world does with one photo: the file is missing; preprocessing
   * returns None; a library call raises; or face detection returns `boxes` and
   * `encode` is what `face_encodings` returns for a given list of locations.
   * No face is `Located([], _)`; an encoding failure is an empty `encode` result.
   */
  datatype Fate =
    | Missing
    | Unreadable
    | Raised
    | Located(boxes: seq<Box>, encode: seq<Box> -> seq<Encoding>)

  datatype Image = Image(path: string, fate: Fate)

  /**
   * The body of the per-photo loop: the encoding this photo contributes, if any.
   * It is always the first encoding computed for the largest face (first on ties),
   * whether the photo has one face or several.
   */
  function Accept(img: Image): (r: Option<Encoding>)
    ensures r.Some? <==>
      img.fate.Located? && |img.fate.boxes| > 0 && |img.fate.encode([img.fate.boxes[LargestIndex(img.fate.boxes)]])| > 0
    ensures r.Some? ==> r.value == img.fate.encode([img.fate.boxes[LargestIndex(img.fate.boxes)]])[0]
  {
    match img.fate
    case Located(boxes, encode) =>
      if |boxes| == 0 then None
      else
        var locations := if |boxes| > 1 then [boxes[LargestIndex(boxes)]] else boxes;
        assert |boxes| == 1 ==> locations == [boxes[LargestIndex(boxes)]];
        var encodings := encode(locations);
        if |encodings| > 0 then Some(encodings[0]) else None
    case _ => None
  }

  /** The loop's accumulators `known_encodings` and `failed_images`. */
  datatype Tally = Tally(encodings: seq<Encoding>, failed: seq<string>)

  function Record(t: Tally, img: Image): (r: Tally)
    ensures t.encodings <= r.encodings && t.failed <= r.failed
    ensures |r.encodings| + |r.failed| == |t.encodings| + |t.failed| + 1
    ensures |r.encodings| == |t.encodings| + 1 <==> Accept(img).Some?
  {
    match Accept(img)
    case Some(e) => t.(encodings := t.encodings + [e])
    case None => t.(failed := t.failed + [img.path])
  }

  /** The rebuild loop over the photos, in order: every photo lands in exactly one of the two lists. */
  function Rebuild(images: seq<Image>): (r: Tally)
    ensures |r.encodings| + |r.failed| == |images|
  {
    if |images| == 0 then Tally([], [])
    else Record(Rebuild(images[..|images| - 1]), images[|images| - 1])
  }

  /** Rebuilding is compositional: the photos of `a` contribute, in order, before those of `b`. */
  lemma {:induction false} RebuildConcat(a: seq<Image>, b: seq<Image>)
    ensures Rebuild(a + b).encodings == Rebuild(a).encodings + Rebuild(b).encodings
    ensures Rebuild(a + b).failed == Rebuild(a).failed + Rebuild(b).failed
  {
    if |b| == 0 {
      assert a + b == a;
    } else {
      var b' := b[..|b| - 1];
      assert (a + b)[..|a + b| - 1] == a + b';
      assert (a + b)[|a + b| - 1] == b[|b| - 1];
      RebuildConcat(a, b');
    }
  }

  /** One photo contributes exactly one entry: its encoding or its path. */
  lemma RebuildOne(img: Image)
    ensures Rebuild([img]) ==
      if Accept(img).Some? then Tally([Accept(img).value], []) else Tally([], [img.path])
  {
    assert [img][..0] == [];
  }

  /** The indices of the photos that yield an encoding, in increasing order. */
  function SuccessIndices(images: seq<Image>): seq<nat>
  {
    if |images| == 0 then []
    else
      var prev := SuccessIndices(images[..|images| - 1]);
      if Accept(images[|images| - 1]).Some? then prev + [|images| - 1] else prev
  }

  /**
   * The encodings are exactly those of the successful photos, in path order: the
   * j-th encoding comes from the j-th successful photo, and every successful photo
   * is listed.
   */
  lemma {:induction false} RebuildInPathOrder(images: seq<Image>)
    ensures var idx := SuccessIndices(images);
      && |idx| == |Rebuild(images).encodings|
      && (forall j :: 0 <= j < |idx| ==> idx[j] < |images| && Accept(images[idx[j]]) == Some(Rebuild(images).encodings[j]))
      && (forall j, k :: 0 <= j < k < |idx| ==> idx[j] < idx[k])
      && (forall i :: 0 <= i < |images| && Accept(images[i]).Some? ==> i in idx)
  {
    if |images| > 0 {
      var n := |images|;
      var prefix := images[..n - 1];
      RebuildInPathOrder(prefix);
      assert forall i :: 0 <= i < n - 1 ==> prefix[i] == images[i];
    }
  }

  /** The cache file at start-up: absent, present but failing to load, or loading a list. */
  datatype Cache = NoCache | Unloadable | Stored(encodings: seq<Encoding>)

  /** What a successful call returns, and whether it wrote the cache file. */
  datatype Loaded = Loaded(encodings: seq<Encoding>, saved: bool)

  /** The success-rate print divides by the number of photos. */
  datatype LoadError = ZeroDivision

  /** `valid_images / total_images * 100`, which raises for zero photos. */
  function SuccessRate(valid: nat, total: nat): (r: Result<real, LoadError>)
    ensures r.Err? <==> total == 0
    ensures r.Ok? && valid <= total ==> 0.0 <= r.value <= 100.0
    ensures r.Ok? ==> (r.value == 100.0 <==> valid == total)
  {
    if total == 0 then Err(ZeroDivision)
    else Ok(valid as real / total as real * 100.0)
  }

  /** The whole of `load_or_create_encodings`, as a function of the cache and the photos. */
  function LoadOrCreate(cache: Cache, images: seq<Image>): (r: Result<Loaded, LoadError>)
    ensures r.Err? <==> !cache.Stored? && |images| == 0
    ensures r.Ok? && r.value.saved ==> !cache.Stored? && |r.value.encodings| >= MIN_ENCODINGS
    ensures r.Ok? && !cache.Stored? ==> |r.value.encodings| <= |images|
  {
    if cache.Stored? then Ok(Loaded(cache.encodings, false))
    else
      var t := Rebuild(images);
      match SuccessRate(|t.encodings|, |images|)
      case Err(e) => Err(e)
      case Ok(_) => Ok(Loaded(t.encodings, |t.encodings| >= MIN_ENCODINGS))
  }

  /** A loadable cache is returned as it is, whatever the photos, and nothing is written. */
  lemma CacheHitIgnoresImages(e: seq<Encoding>, a: seq<Image>, b: seq<Image>)
    ensures LoadOrCreate(Stored(e), a) == LoadOrCreate(Stored(e), b) == Ok(Loaded(e, false))
  {
  }

  /** A cache that fails to load is not fatal: the result is that of a rebuild. */
  lemma UnloadableCacheRebuilds(images: seq<Image>)
    ensures LoadOrCreate(Unloadable, images) == LoadOrCreate(NoCache, images)
  {
  }

  /**
   * A rebuild fails only for an empty photo list; otherwise it returns the rebuilt
   * list, however short, writes the cache exactly when it holds at least three
   * encodings, and never returns more encodings than there were photos.
   */
  lemma RebuildResult(cache: Cache, images: seq<Image>)
    requires !cache.Stored?
    ensures LoadOrCreate(cache, images).Err? <==> |images| == 0
    ensures var r := LoadOrCreate(cache, images);
      r.Ok? ==>
        && r.value.encodings == Rebuild(images).encodings
        && (r.value.saved <==> |Rebuild(images).encodings| >= MIN_ENCODINGS)
        && |r.value.encodings| + |Rebuild(images).failed| == |images|
  {
  }

  /** What a rebuild saves, the next start loads back unchanged. */
  lemma SavedCacheReloads(cache: Cache, images: seq<Image>, later: seq<Image>)
    requires LoadOrCreate(cache, images).Ok? && LoadOrCreate(cache, images).value.saved
    ensures var e := LoadOrCreate(cache, images).value.encodings;
      LoadOrCreate(Stored(e), later) == Ok(Loaded(e, false)) && |e| >= MIN_ENCODINGS
  {
  }

  /** The per-photo loop: one pass over the photos, counting successes in `validImages`. */
  method RebuildEncodings(images: seq<Image>) returns (knownEncodings: seq<Encoding>, validImages: nat, failedImages: seq<string>)
    ensures Tally(knownEncodings, failedImages) == Rebuild(images)
    ensures validImages == |knownEncodings|
    ensures validImages + |failedImages| == |images|
  {
    knownEncodings, validImages, failedImages := [], 0, [];
    for i := 0 to |images|
      invariant Tally(knownEncodings, failedImages) == Rebuild(images[..i])
      invariant validImages == |knownEncodings|
    {
      assert images[..i + 1][..i] == images[..i];
      var image := images[i];
      match image.fate
      case Missing =>
        failedImages := failedImages + [image.path];
      case Unreadable =>
        failedImages := failedImages + [image.path];
      case Raised =>
        failedImages := failedImages + [image.path];
      case Located(boxes, encode) =>
        if |boxes| == 0 {
          failedImages := failedImages + [image.path];
        } else {
          var faceLocations := boxes;
          if |boxes| > 1 {
            faceLocations := [boxes[LargestIndex(boxes)]];
          }
          var encodings := encode(faceLocations);
          if |encodings| > 0 {
            knownEncodings := knownEncodings + [encodings[0]];
            validImages := validImages + 1;
          } else {
            failedImages := failedImages + [image.path];
          }
        }
    }
    assert images[..|images|] == images;
  }

  /** `load_or_create_encodings` of friend_detector.py. */
  method LoadOrCreateEncodings(cache: Cache, images: seq<Image>) returns (r: Result<Loaded, LoadError>)
    ensures r == LoadOrCreate(cache, images)
  {
    if cache.Stored? {
      return Ok(Loaded(cache.encodings, false));
    }
    var knownEncodings, validImages, failedImages := RebuildEncodings(images);
    var rate := SuccessRate(validImages, |images|);
    if rate.Err? {
      return Err(rate.error);
    }
    var saved := validImages >= MIN_ENCODINGS;
    r := Ok(Loaded(knownEncodings, saved));
  }

  /** Why start-up stops before the detection loop. */
  datatype StartupError = LoadFailed(error: LoadError) | TooFewEncodings(count: nat)

  /** The caller's check: fewer than three reference encodings (from the cache or a rebuild) abort. */
  function StartupReferences(cache: Cache, images: seq<Image>): (r: Result<seq<Encoding>, StartupError>)
    ensures r.Ok? ==> |r.value| >= MIN_ENCODINGS
    ensures r.Ok? <==> LoadOrCreate(cache, images).Ok? && |LoadOrCreate(cache, images).value.encodings| >= MIN_ENCODINGS
  {
    match LoadOrCreate(cache, images)
    case Err(e) => Err(LoadFailed(e))
    case Ok(loaded) =>
      if |loaded.encodings| < MIN_ENCODINGS then Err(TooFewEncodings(|loaded.encodings|))
      else Ok(loaded.encodings)
  }

  /** Starting after a rebuild needs at least three successful photos, and then the cache was written. */
  lemma StartAfterRebuildSaved(cache: Cache, images: seq<Image>)
    requires !cache.Stored? && StartupReferences(cache, images).Ok?
    ensures LoadOrCreate(cache, images).value.saved
    ensures |SuccessIndices(images)| >= MIN_ENCODINGS
  {
    RebuildInPathOrder(images);
  }
}
