/**
 * Nearest-reference matching: a detected face is the enrolled friend when the
 * smallest of its distances to the reference encodings is below the confidence
 * threshold (friend_detector.py, detection loop).
 */
module Matching {

  /** `CONFIDENCE_THRESHOLD`: a distance strictly below it is a match. */
  const CONFIDENCE_THRESHOLD: real := 0.37

  /** A face encoding: a fixed-length real vector. */
  type Encoding = seq<real>

  /** Python's `min` over a non-empty list of distances. */
  function MinDistance(ds: seq<real>): (m: real)
    requires |ds| > 0
    ensures exists i :: 0 <= i < |ds| && ds[i] == m
    ensures forall i :: 0 <= i < |ds| ==> m <= ds[i]
  {
    if |ds| == 1 then ds[0]
    else
      var rest := MinDistance(ds[1..]);
      assert forall i :: 1 <= i < |ds| ==> ds[i] == ds[1..][i - 1];
      if ds[0] <= rest then ds[0] else rest
  }

  /**
   * `len(face_distances) > 0 and min(face_distances) < CONFIDENCE_THRESHOLD`.
   * A face is the friend exactly when SOME reference is closer than the threshold;
   * an empty distance list (no references) is never a match.
   */
  predicate IsFriend(ds: seq<real>)
    ensures IsFriend(ds) <==> exists i :: 0 <= i < |ds| && ds[i] < CONFIDENCE_THRESHOLD
  {
    |ds| > 0 && MinDistance(ds) < CONFIDENCE_THRESHOLD
  }

  /**
   * `face_recognition.face_distance(known, e)`: one distance per reference encoding,
   * in the order of the references. The metric itself belongs to the library and is a parameter.
   */
  function FaceDistances(known: seq<Encoding>, e: Encoding, dist: (Encoding, Encoding) -> real): (ds: seq<real>)
    ensures |ds| == |known|
    ensures forall i :: 0 <= i < |known| ==> ds[i] == dist(known[i], e)
    ensures |known| == 0 ==> !IsFriend(ds)
  {
    seq(|known|, i requires 0 <= i < |known| => dist(known[i], e))
  }

  /**
   * An observed encoding equal to one of the references is a match at distance 0,
   * provided the metric is zero on equal vectors and never negative.
   */
  lemma IdenticalEncodingMatches(known: seq<Encoding>, e: Encoding, dist: (Encoding, Encoding) -> real)
    requires e in known
    requires dist(e, e) == 0.0
    requires forall k :: k in known ==> dist(k, e) >= 0.0
    ensures IsFriend(FaceDistances(known, e, dist))
    ensures MinDistance(FaceDistances(known, e, dist)) == 0.0
  {
    var ds := FaceDistances(known, e, dist);
    var j :| 0 <= j < |known| && known[j] == e;
    assert ds[j] == 0.0;
    assert forall i :: 0 <= i < |ds| ==> ds[i] >= 0.0 by {
      forall i | 0 <= i < |ds| ensures ds[i] >= 0.0 {
        assert known[i] in known;
      }
    }
  }
}
