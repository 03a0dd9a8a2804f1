/**
 * The `is_playing` flag guard of `VideoPlayer` (friend_detector.py). Only the flag
 * and the starting of the background playback thread are modelled; what the thread
 * does (the video loop, the full-screen window, the ESC key) is not.
 */
module Playback {

  /**
   * The player's observable state. `videoExists` is fixed when the player is
   * constructed; `threadsStarted` counts the playback threads `play()` has spawned
   * (each one is a fresh assignment to `self.thread`).
   */
  datatype PlayerState = PlayerState(videoExists: bool, isPlaying: bool, threadsStarted: nat)

  /** `play()`: a no-op when the file is missing or playback already runs; otherwise it sets the flag and starts one thread. */
  function Played(p: PlayerState): (r: PlayerState)
    ensures r.videoExists == p.videoExists
    ensures r.isPlaying <==> p.isPlaying || p.videoExists
    ensures r.threadsStarted == p.threadsStarted + (if r.isPlaying && !p.isPlaying then 1 else 0)
  {
    if !p.videoExists || p.isPlaying then p
    else p.(isPlaying := true, threadsStarted := p.threadsStarted + 1)
  }

  /** `stop()`: the flag is cleared whatever it was; no thread is started. */
  function Stopped(p: PlayerState): (r: PlayerState)
    ensures !r.isPlaying
    ensures r.videoExists == p.videoExists && r.threadsStarted == p.threadsStarted
  {
    p.(isPlaying := false)
  }

  /** Playing is idempotent: a second `play()` without a `stop()` between starts no second thread. */
  lemma PlayIsIdempotent(p: PlayerState)
    ensures Played(Played(p)) == Played(p)
    ensures Played(p).threadsStarted <= p.threadsStarted + 1
    ensures Played(p).isPlaying <==> p.isPlaying || p.videoExists
    ensures Played(p).videoExists == p.videoExists
  {
  }

  /** A stopped player with its file present plays again, starting exactly one new thread. */
  lemma StopThenPlay(p: PlayerState)
    ensures !Stopped(p).isPlaying
    ensures p.videoExists ==> Played(Stopped(p)).isPlaying
    ensures Played(Stopped(p)).threadsStarted == p.threadsStarted + (if p.videoExists then 1 else 0)
  {
  }

  class VideoPlayer {
    const videoPath: string
    const videoExists: bool
    var isPlaying: bool
    var threadsStarted: nat

    function State(): PlayerState
      reads this
    {
      PlayerState(videoExists, isPlaying, threadsStarted)
    }

    /** `__init__`: whether the file exists is decided once, by the caller's file-system check. */
    constructor (videoPath: string, fileExists: bool)
      ensures this.videoPath == videoPath
      ensures State() == PlayerState(fileExists, false, 0)
    {
      this.videoPath := videoPath;
      videoExists := fileExists;
      isPlaying := false;
      threadsStarted := 0;
    }

    method Play()
      modifies this
      ensures State() == Played(old(State()))
    {
      if !videoExists {
        return;
      }
      if !isPlaying {
        isPlaying := true;
        threadsStarted := threadsStarted + 1;
      }
    }

    method Stop()
      modifies this
      ensures State() == Stopped(old(State()))
    {
      isPlaying := false;
    }
  }
}
