/**
 * The detection loop of `main()` in friend_detector.py, imperatively: the loop's
 * variables are fields, the player is the `VideoPlayer` object it calls, and each
 * method is proved to do what the pure `Presence.Step` says.
 */
module DetectionLoop {
  import opened Geometry
  import opened Matching
  import opened Playback
  import opened Presence

  class Detector {
    var frameCount: nat
    var friendDetected: bool
    var noFriendFrames: nat
    const player: VideoPlayer

    function State(): LoopState
      reads this, player
    {
      LoopState(frameCount, friendDetected, noFriendFrames, player.State())
    }

    /** The loop's initial assignments, with the player built before the loop. */
    constructor (player: VideoPlayer)
      ensures this.player == player
      ensures State() == Initial(player.State())
    {
      this.player := player;
      friendDetected := false;
      frameCount := 0;
      noFriendFrames := 0;
    }

    /** One pass of the `while True` body, for one camera read. */
    method ProcessFrame(f: Frame)
      modifies this, player
      ensures State() == Step(old(State()), f)
      ensures Inv(old(State())) ==> Inv(State())
    {
      if Inv(State()) {
        StepPreservesInv(State(), f);
      }
      if f.ReadFailed? {
        return;
      }
      frameCount := frameCount + 1;
      var doDetection := if friendDetected then frameCount % 2 == 0 else frameCount % DETECTION_INTERVAL == 0;
      if doDetection {
        ghost var counted := State();
        var friendFoundThisFrame := false;
        var n := FaceCount(f);
        var i := 0;
        while i < n
          invariant 0 <= i <= n
          invariant ScanFaces(counted, f, i) == Scan(State(), friendFoundThisFrame)
        {
          var faceDistances := f.distances[i];
          if |faceDistances| > 0 {
            var minDistance := MinDistance(faceDistances);
            var isFriend := minDistance < CONFIDENCE_THRESHOLD;
            if isFriend {
              friendFoundThisFrame := true;
              var near := CloserThan(f.boxes[i], f.shape, TRIGGER_DISTANCE);
              if near && !player.isPlaying {
                player.Play();
                friendDetected := true;
              }
              if near {
                friendDetected := true;
                noFriendFrames := 0;
              }
            }
          }
          i := i + 1;
        }
        if friendDetected {
          if !friendFoundThisFrame {
            noFriendFrames := noFriendFrames + 1;
            if noFriendFrames >= NO_FRIEND_FRAMES_THRESHOLD {
              friendDetected := false;
              noFriendFrames := 0;
            }
          } else {
            noFriendFrames := 0;
          }
        }
      }
    }

    /** The loop over the camera reads until the quit key, which ends the sequence. */
    method Run(frames: seq<Frame>)
      modifies this, player
      ensures State() == RunFrames(old(State()), frames)
    {
      var k := 0;
      while k < |frames|
        invariant 0 <= k <= |frames|
        invariant State() == RunFrames(old(State()), frames[..k])
      {
        ProcessFrame(frames[k]);
        assert frames[..k + 1][..k] == frames[..k];
        k := k + 1;
      }
      assert frames[..|frames|] == frames;
    }

    /** The `finally` clause: a running video is stopped; nothing else changes. */
    method Shutdown()
      modifies player
      ensures !player.isPlaying
      ensures player.State() == if old(player.isPlaying) then Stopped(old(player.State())) else old(player.State())
    {
      if player.isPlaying {
        player.Stop();
      }
    }
  }
}
