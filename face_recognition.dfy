/**
 * `FaceRecognitionHandler` of face_recognition_handler.py: the reference encodings
 * as an object field, the same load-or-rebuild logic as `Enrollment.LoadOrCreate`,
 * and the per-frame distance computation.
 */
module FaceRecognition {
  import opened Wrappers
  import opened Geometry
  import opened Matching
  import opened Enrollment

  class FaceRecognitionHandler {
    var knownFaceEncodings: seq<Encoding>

    constructor ()
      ensures knownFaceEncodings == []
    {
      knownFaceEncodings := [];
    }

    /**
     * On a cache hit the field becomes, and the call returns, the loaded list; after a
     * rebuild the field holds the rebuilt list whatever its length. When the summary's
     * division raises, the field is left as it was.
     */
    method LoadOrCreateEncodings(cache: Cache, images: seq<Image>) returns (r: Result<Loaded, LoadError>)
      modifies this
      ensures r == LoadOrCreate(cache, images)
      ensures r.Ok? ==> knownFaceEncodings == r.value.encodings
      ensures r.Err? ==> knownFaceEncodings == old(knownFaceEncodings)
    {
      if cache.Stored? {
        knownFaceEncodings := cache.encodings;
        return Ok(Loaded(knownFaceEncodings, false));
      }
      var knownEncodings, validImages, failedImages := RebuildEncodings(images);
      var summary := SuccessRate(validImages, |images|);
      if summary.Err? {
        return Err(summary.error);
      }
      var saved := false;
      if validImages >= MIN_ENCODINGS {
        saved := true;
      }
      knownFaceEncodings := knownEncodings;
      r := Ok(Loaded(knownEncodings, saved));
    }

    /**
     * `recognize_faces`: the detected locations and their encodings come from the face
     * library. With no face it returns three empty lists; otherwise one distance list
     * per encoding, in order, each with one distance per reference encoding.
     */
    method RecognizeFaces(faceLocations: seq<Box>, faceEncodings: seq<Encoding>, dist: (Encoding, Encoding) -> real)
      returns (locations: seq<Box>, encodings: seq<Encoding>, faceDistancesList: seq<seq<real>>)
      ensures |faceLocations| == 0 ==> locations == [] && encodings == [] && faceDistancesList == []
      ensures |faceLocations| > 0 ==> locations == faceLocations && encodings == faceEncodings
      ensures |faceLocations| > 0 ==> |faceDistancesList| == |faceEncodings|
      ensures forall i :: 0 <= i < |faceDistancesList| ==>
        faceDistancesList[i] == FaceDistances(knownFaceEncodings, faceEncodings[i], dist)
        && |faceDistancesList[i]| == |knownFaceEncodings|
    {
      if |faceLocations| == 0 {
        return [], [], [];
      }
      faceDistancesList := [];
      for i := 0 to |faceEncodings|
        invariant |faceDistancesList| == i
        invariant forall j :: 0 <= j < i ==>
          faceDistancesList[j] == FaceDistances(knownFaceEncodings, faceEncodings[j], dist)
          && |faceDistancesList[j]| == |knownFaceEncodings|
      {
        var distances := FaceDistances(knownFaceEncodings, faceEncodings[i], dist);
        faceDistancesList := faceDistancesList + [distances];
      }
      locations, encodings := faceLocations, faceEncodings;
    }
  }
}
