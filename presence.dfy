/**
 * The per-frame presence state machine of the detection loop in `main()` of
 * friend_detector.py, as pure functions: `Step` is what one pass of the
 * `while True` body does to the loop's variables and to the player's flag.
 * `Transition` is an independent, table-shaped statement of the same rules,
 * and `StepIsTransition` proves the two agree.
 */
module Presence {
  import opened Geometry
  import opened Matching
  import opened Playback

  const TRIGGER_DISTANCE: nat := 180
  const NO_FRIEND_FRAMES_THRESHOLD: nat := 15
  const DETECTION_INTERVAL: nat := 3

  /**
   * One camera read. A captured frame carries the frame's shape, the detected face
   * boxes (already in full-frame coordinates) and, per face encoding, its list of
   * distances to the reference encodings. The loop pairs boxes and distance lists
   * with `zip`, so only the first `min` of the two lengths take part.
   */
  datatype Frame =
    | ReadFailed
    | Captured(shape: Shape, boxes: seq<Box>, distances: seq<seq<real>>)

  /** The loop's `frame_count`, `friend_detected`, `no_friend_frames` and the player's state. */
  datatype LoopState = LoopState(frameCount: nat, friendDetected: bool, noFriendFrames: nat, player: PlayerState)

  /** The values the loop starts with. */
  function Initial(player: PlayerState): LoopState
  {
    LoopState(0, false, 0, player)
  }

  /** The counter invariant: the miss counter stays below the threshold and is zero while absent. */
  predicate Inv(st: LoopState)
  {
    st.noFriendFrames < NO_FRIEND_FRAMES_THRESHOLD && (!st.friendDetected ==> st.noFriendFrames == 0)
  }

  /** Adaptive sampling: every 2nd frame while the friend is present, every 3rd otherwise. */
  predicate Sampled(frameCount: nat, friendDetected: bool)
    ensures Sampled(frameCount, friendDetected) ==> frameCount % 2 == 0 || frameCount % 3 == 0
    ensures frameCount % 6 == 0 ==> Sampled(frameCount, friendDetected)
    ensures frameCount % 2 != 0 && frameCount % 3 != 0 ==> !Sampled(frameCount, friendDetected)
  {
    if friendDetected then frameCount % 2 == 0 else frameCount % DETECTION_INTERVAL == 0
  }

  /** The number of (box, distances) pairs `zip` yields. */
  function FaceCount(f: Frame): nat
    requires f.Captured?
  {
    if |f.boxes| <= |f.distances| then |f.boxes| else |f.distances|
  }

  predicate MatchAt(f: Frame, i: nat)
    requires f.Captured? && i < FaceCount(f)
  {
    IsFriend(f.distances[i])
  }

  /** A matched face whose centre is closer than `TRIGGER_DISTANCE` to the frame centre. */
  predicate NearMatchAt(f: Frame, i: nat)
    requires f.Captured? && i < FaceCount(f)
  {
    MatchAt(f, i) && CloserThan(f.boxes[i], f.shape, TRIGGER_DISTANCE)
  }

  predicate MatchIn(f: Frame, n: nat)
    requires f.Captured? && n <= FaceCount(f)
  {
    exists i: nat :: i < n && MatchAt(f, i)
  }

  predicate NearMatchIn(f: Frame, n: nat)
    requires f.Captured? && n <= FaceCount(f)
  {
    exists i: nat :: i < n && NearMatchAt(f, i)
  }

  predicate AnyMatch(f: Frame)
    requires f.Captured?
  {
    MatchIn(f, FaceCount(f))
  }

  predicate AnyNearMatch(f: Frame)
    requires f.Captured?
  {
    NearMatchIn(f, FaceCount(f))
  }

  /** The state while the faces of a sampled frame are being visited, with `friend_found_this_frame`. */
  datatype Scan = Scan(state: LoopState, found: bool)

  /** The body of the per-face `for` loop. */
  function Visit(sc: Scan, b: Box, ds: seq<real>, s: Shape): (r: Scan)
    ensures r.found <==> sc.found || IsFriend(ds)
    ensures r.state.frameCount == sc.state.frameCount
    ensures !(IsFriend(ds) && CloserThan(b, s, TRIGGER_DISTANCE)) ==> r.state == sc.state
    ensures IsFriend(ds) && CloserThan(b, s, TRIGGER_DISTANCE) ==>
      r.state == sc.state.(friendDetected := true, noFriendFrames := 0, player := Played(sc.state.player))
  {
    if !IsFriend(ds) then sc
    else
      var near := CloserThan(b, s, TRIGGER_DISTANCE);
      var st := sc.state;
      var afterPlay := if near && !st.player.isPlaying then st.(player := Played(st.player), friendDetected := true) else st;
      var afterNear := if near then afterPlay.(friendDetected := true, noFriendFrames := 0) else afterPlay;
      Scan(afterNear, true)
  }

  /** The first `n` iterations of the per-face loop, starting from `st` with nothing found. */
  function ScanFaces(st: LoopState, f: Frame, n: nat): (r: Scan)
    requires f.Captured? && n <= FaceCount(f)
    ensures r.state.frameCount == st.frameCount
    ensures r.state.player.videoExists == st.player.videoExists
  {
    if n == 0 then Scan(st, false)
    else Visit(ScanFaces(st, f, n - 1), f.boxes[n - 1], f.distances[n - 1], f.shape)
  }

  /** The departure logic after the per-face loop: hysteresis over consecutive sampled misses. */
  function Depart(sc: Scan): (r: LoopState)
    ensures r.frameCount == sc.state.frameCount && r.player == sc.state.player
    ensures r.friendDetected ==> sc.state.friendDetected
    ensures sc.found ==> r.friendDetected == sc.state.friendDetected
    ensures Inv(sc.state) ==> Inv(r)
  {
    var st := sc.state;
    if !st.friendDetected then st
    else if sc.found then st.(noFriendFrames := 0)
    else if st.noFriendFrames + 1 >= NO_FRIEND_FRAMES_THRESHOLD then st.(friendDetected := false, noFriendFrames := 0)
    else st.(noFriendFrames := st.noFriendFrames + 1)
  }

  /** One pass of the loop body. A failed read changes nothing; a captured frame always advances the count. */
  function Step(st: LoopState, f: Frame): (r: LoopState)
    ensures f.ReadFailed? ==> r == st
    ensures f.Captured? ==> r.frameCount == st.frameCount + 1
    ensures r.player.videoExists == st.player.videoExists
  {
    match f
    case ReadFailed => st
    case Captured(_, _, _) =>
      var counted := st.(frameCount := st.frameCount + 1);
      if Sampled(counted.frameCount, st.friendDetected) then Depart(ScanFaces(counted, f, FaceCount(f)))
      else counted
  }

  /** The loop over a finite sequence of camera reads, in arrival order. */
  function RunFrames(st: LoopState, frames: seq<Frame>): (r: LoopState)
    ensures st.frameCount <= r.frameCount <= st.frameCount + |frames|
    ensures r.player.videoExists == st.player.videoExists
    ensures st.player.isPlaying ==> r.player == st.player
  {
    if |frames| == 0 then st
    else
      var mid := RunFrames(st, frames[..|frames| - 1]);
      StepNeverStopsPlayback(mid, frames[|frames| - 1]);
      Step(mid, frames[|frames| - 1])
  }

  /**
   * The rules of one frame as a table. A near match arrives (starting playback if it
   * is idle); a distant match only keeps an existing presence alive; a sampled miss
   * while present moves the counter, and the 15th consecutive one departs without
   * touching the player.
   */
  function Transition(st: LoopState, f: Frame): (r: LoopState)
    ensures r.frameCount == st.frameCount + (if f.Captured? then 1 else 0)
    ensures r.player == st.player || r.player == Played(st.player)
    ensures r.friendDetected && !st.friendDetected ==> f.Captured? && AnyNearMatch(f)
  {
    match f
    case ReadFailed => st
    case Captured(_, _, _) =>
      var fc := st.frameCount + 1;
      if !Sampled(fc, st.friendDetected) then st.(frameCount := fc)
      else if AnyNearMatch(f) then LoopState(fc, true, 0, Played(st.player))
      else if !st.friendDetected then st.(frameCount := fc)
      else if AnyMatch(f) then st.(frameCount := fc, noFriendFrames := 0)
      else if st.noFriendFrames + 1 >= NO_FRIEND_FRAMES_THRESHOLD then st.(frameCount := fc, friendDetected := false, noFriendFrames := 0)
      else st.(frameCount := fc, noFriendFrames := st.noFriendFrames + 1)
  }

  /**
   * What the per-face loop computes, in closed form: without a near match nothing but
   * the found flag changes; with one, presence is set, the counter cleared and the
   * player has been asked to play (once or many times: it is the same).
   */
  lemma {:induction false} ScanClosedForm(st: LoopState, f: Frame, n: nat)
    requires f.Captured? && n <= FaceCount(f)
    ensures ScanFaces(st, f, n) ==
      if NearMatchIn(f, n) then Scan(st.(friendDetected := true, noFriendFrames := 0, player := Played(st.player)), MatchIn(f, n))
      else Scan(st, MatchIn(f, n))
  {
    if n > 0 {
      ScanClosedForm(st, f, n - 1);
      var k := n - 1;
      assert MatchIn(f, n) <==> MatchIn(f, k) || MatchAt(f, k) by {
        if MatchAt(f, k) {
          assert k < n && MatchAt(f, k);
        }
        if MatchIn(f, n) {
          var i: nat :| i < n && MatchAt(f, i);
          if i < k {
            assert MatchIn(f, k);
          }
        }
        if MatchIn(f, k) {
          var i: nat :| i < k && MatchAt(f, i);
          assert i < n;
        }
      }
      assert NearMatchIn(f, n) <==> NearMatchIn(f, k) || NearMatchAt(f, k) by {
        if NearMatchAt(f, k) {
          assert k < n && NearMatchAt(f, k);
        }
        if NearMatchIn(f, n) {
          var i: nat :| i < n && NearMatchAt(f, i);
          if i < k {
            assert NearMatchIn(f, k);
          }
        }
        if NearMatchIn(f, k) {
          var i: nat :| i < k && NearMatchAt(f, i);
          assert i < n;
        }
      }
    }
  }

  lemma NearImpliesMatch(f: Frame)
    requires f.Captured?
    ensures AnyNearMatch(f) ==> AnyMatch(f)
  {
    if AnyNearMatch(f) {
      var i: nat :| i < FaceCount(f) && NearMatchAt(f, i);
      assert MatchAt(f, i);
    }
  }

  /** The loop body and the table agree on every state and every frame. */
  lemma StepIsTransition(st: LoopState, f: Frame)
    ensures Step(st, f) == Transition(st, f)
  {
    if f.Captured? {
      var counted := st.(frameCount := st.frameCount + 1);
      ScanClosedForm(counted, f, FaceCount(f));
      NearImpliesMatch(f);
    }
  }

  /** The counter invariant holds initially and after every frame. */
  lemma StepPreservesInv(st: LoopState, f: Frame)
    requires Inv(st)
    ensures Inv(Step(st, f))
  {
    StepIsTransition(st, f);
  }

  lemma InitialSatisfiesInv(player: PlayerState)
    ensures Inv(Initial(player)) && !Initial(player).friendDetected
  {
  }

  /** A frame that is read but not sampled only advances the frame count. */
  lemma UnsampledFrameOnlyCounts(st: LoopState, f: Frame)
    requires f.Captured? && !Sampled(st.frameCount + 1, st.friendDetected)
    ensures Step(st, f) == st.(frameCount := st.frameCount + 1)
  {
  }

  /**
   * Playback starts in a frame exactly when the frame is sampled, has a matched face
   * within the trigger distance, the player is idle and its file exists; the frame
   * then starts exactly one thread.
   */
  lemma PlaybackStartsOnlyOnNearMatch(st: LoopState, f: Frame)
    ensures var r := Step(st, f);
      (!st.player.isPlaying && r.player.isPlaying) <==>
        (f.Captured? && Sampled(st.frameCount + 1, st.friendDetected) && AnyNearMatch(f)
         && !st.player.isPlaying && st.player.videoExists)
    ensures var r := Step(st, f);
      r.player.threadsStarted == st.player.threadsStarted + (if !st.player.isPlaying && r.player.isPlaying then 1 else 0)
  {
    StepIsTransition(st, f);
  }

  /** No frame ever stops playback: in particular departure leaves the video running. */
  lemma StepNeverStopsPlayback(st: LoopState, f: Frame)
    ensures st.player.isPlaying ==> Step(st, f).player == st.player
  {
    StepIsTransition(st, f);
  }

  /**
   * A sampled frame with a near match sets presence and clears the counter, whether
   * or not the video is already playing; the player receives one `play()`.
   */
  lemma NearMatchArrives(st: LoopState, f: Frame)
    requires f.Captured? && Sampled(st.frameCount + 1, st.friendDetected) && AnyNearMatch(f)
    ensures Step(st, f) == LoopState(st.frameCount + 1, true, 0, Played(st.player))
  {
    StepIsTransition(st, f);
  }

  /** Without a near match nobody arrives and the player is untouched, however good the match. */
  lemma NoArrivalWithoutNearMatch(st: LoopState, f: Frame)
    requires f.Captured? && !AnyNearMatch(f)
    ensures Step(st, f).player == st.player
    ensures !st.friendDetected ==> Step(st, f) == st.(frameCount := st.frameCount + 1)
  {
    StepIsTransition(st, f);
  }

  /** While present, any sampled match, even a distant one, resets the miss counter. */
  lemma MatchKeepsPresence(st: LoopState, f: Frame)
    requires f.Captured? && st.friendDetected && Sampled(st.frameCount + 1, true) && AnyMatch(f)
    ensures Step(st, f).friendDetected && Step(st, f).noFriendFrames == 0
  {
    StepIsTransition(st, f);
  }

  /** While present, a sampled miss increments the counter; reaching the threshold departs. */
  lemma MissWhilePresent(st: LoopState, f: Frame)
    requires f.Captured? && st.friendDetected && Sampled(st.frameCount + 1, true) && !AnyMatch(f)
    ensures var r := Step(st, f);
      r.player == st.player &&
      if st.noFriendFrames + 1 >= NO_FRIEND_FRAMES_THRESHOLD then !r.friendDetected && r.noFriendFrames == 0
      else r.friendDetected && r.noFriendFrames == st.noFriendFrames + 1
  {
    NearImpliesMatch(f);
    StepIsTransition(st, f);
  }

  /** A captured frame in which no face matches. */
  predicate Miss(f: Frame)
  {
    f.Captured? && !AnyMatch(f)
  }

  /** How many of the frame counts `fc + 1 .. fc + n` are even: the frames sampled while present. */
  function SampledWhilePresent(fc: nat, n: nat): nat
  {
    (fc + n) / 2 - fc / 2
  }

  lemma SampledWhilePresentStep(fc: nat, n: nat)
    requires n > 0
    ensures SampledWhilePresent(fc, n) == SampledWhilePresent(fc, n - 1) + (if (fc + n) % 2 == 0 then 1 else 0)
  {
  }

  /**
   * Hysteresis, part one: a run of misses while present keeps presence as long as the
   * number of sampled misses stays below the threshold (so 14 misses keep it), and
   * leaves the player alone.
   */
  lemma {:induction false} MissesKeepPresence(st: LoopState, frames: seq<Frame>)
    requires st.friendDetected && Inv(st)
    requires forall k :: 0 <= k < |frames| ==> Miss(frames[k])
    requires st.noFriendFrames + SampledWhilePresent(st.frameCount, |frames|) < NO_FRIEND_FRAMES_THRESHOLD
    ensures RunFrames(st, frames) ==
      st.(frameCount := st.frameCount + |frames|,
          noFriendFrames := st.noFriendFrames + SampledWhilePresent(st.frameCount, |frames|))
  {
    var n := |frames|;
    if n > 0 {
      var prefix := frames[..n - 1];
      assert forall k :: 0 <= k < |prefix| ==> Miss(prefix[k]) by {
        forall k | 0 <= k < |prefix| ensures Miss(prefix[k]) {
          assert prefix[k] == frames[k];
        }
      }
      SampledWhilePresentStep(st.frameCount, n);
      MissesKeepPresence(st, prefix);
      var mid := RunFrames(st, prefix);
      assert Miss(frames[n - 1]);
      StepIsTransition(mid, frames[n - 1]);
      NearImpliesMatch(frames[n - 1]);
    }
  }

  /**
   * Hysteresis, part two: the sampled miss that brings the count to the threshold
   * departs — presence cleared, counter zero — and still leaves the player alone.
   */
  lemma {:induction false} ThresholdMissDeparts(st: LoopState, frames: seq<Frame>)
    requires st.friendDetected && Inv(st)
    requires forall k :: 0 <= k < |frames| ==> Miss(frames[k])
    requires (st.frameCount + |frames|) % 2 == 0
    requires st.noFriendFrames + SampledWhilePresent(st.frameCount, |frames|) == NO_FRIEND_FRAMES_THRESHOLD
    ensures RunFrames(st, frames) ==
      st.(frameCount := st.frameCount + |frames|, friendDetected := false, noFriendFrames := 0)
  {
    var n := |frames|;
    assert n > 0;
    var prefix := frames[..n - 1];
    assert forall k :: 0 <= k < |prefix| ==> Miss(prefix[k]) by {
      forall k | 0 <= k < |prefix| ensures Miss(prefix[k]) {
        assert prefix[k] == frames[k];
      }
    }
    SampledWhilePresentStep(st.frameCount, n);
    MissesKeepPresence(st, prefix);
    var mid := RunFrames(st, prefix);
    assert Miss(frames[n - 1]);
    StepIsTransition(mid, frames[n - 1]);
    NearImpliesMatch(frames[n - 1]);
  }

  /** The counter invariant holds after any sequence of frames. */
  lemma {:induction false} RunPreservesInv(st: LoopState, frames: seq<Frame>)
    requires Inv(st)
    ensures Inv(RunFrames(st, frames))
  {
    if |frames| > 0 {
      RunPreservesInv(st, frames[..|frames| - 1]);
      StepPreservesInv(RunFrames(st, frames[..|frames| - 1]), frames[|frames| - 1]);
    }
  }
}
