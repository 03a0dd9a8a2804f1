# Friend detector: presence state machine and enrollment, in Dafny

This project models the core of a face-triggered video player. A camera loop
samples frames. It matches the faces it sees against reference encodings of one
enrolled friend. When the friend is recognised close enough to the middle of the
picture, it starts a full-screen video. It then tracks the friend's presence, with
hysteresis, until 15 consecutive sampled frames show no match.

The modules follow the program's parts:

- `Wrappers` (`wrappers.dfy`): `Option` and `Result`.
- `Geometry` (`geometry.dfy`): face-centre and frame-centre arithmetic with Python's
  floor division. The source's `sqrt(dx² + dy²) < T` is modelled as the squared
  integer distance `< T*T`, and a lemma shows the two comparisons agree.
- `Matching` (`matching.dfy`): the 0.37 threshold, `min` over the distance list,
  the match decision, and the shape of `face_distance`.
- `Playback` (`playback.dfy`): the `is_playing` guard of `VideoPlayer.play` and
  `stop`. It is a class whose methods are proved against the pure functions
  `Played` and `Stopped`.
- `Presence` (`presence.dfy`): one pass of the detection loop as a pure
  `Step(state, frame)`. `Transition` restates the same rules as a table, and
  `StepIsTransition` proves the two agree. The lemmas cover sampling, arrival,
  hysteresis and the counter invariant.
- `DetectionLoop` (`detection_loop.dfy`): class `Detector`. Its fields are the
  loop's variables and it holds the `VideoPlayer` object. `ProcessFrame` runs the
  per-face `for` loop imperatively and is proved equal to `Step`. `Run` is proved
  equal to `RunFrames`.
- `Enrollment` (`enrollment.dfy`): the per-photo rebuild loop, which both copies
  of `load_or_create_encodings` share. It also covers the largest-face choice,
  the cache and persistence rules, the success-rate division, and the start-up
  check for at least three encodings.
- `FaceRecognition` (`face_recognition.dfy`): class `FaceRecognitionHandler`, with
  its `known_face_encodings` field, `load_or_create_encodings` and `recognize_faces`.

Inputs that come from the outside world are parameters:

- A camera read is a `Frame`. It is either `ReadFailed`, or the frame's shape, the
  detected boxes (already scaled to full-frame coordinates) and one list of
  distances per face encoding.
- Each enrollment photo comes with its `Fate`: missing, preprocessing returned
  `None`, a library call raised, or the detected boxes together with what
  `face_encodings` returns for a list of locations.
- The cache file is `NoCache`, `Unloadable` (loading raises) or `Stored(list)`.
- Whether the video file exists is a constructor argument of `VideoPlayer`.
- The distance metric of `face_distance` is a function parameter.

What the code does that a reader might not expect:

- A rebuild with fewer than three usable photos prints an error and still
  returns the short list it built (friend_detector.py:210-213,
  face_recognition_handler.py:93-97). It does not write the cache, and the
  caller (`StartupReferences`) refuses to start.
- A rebuild over an empty photo list raises at the success-rate division
  (`Err(ZeroDivision)`).
- A cache that loads is returned even when it holds fewer than three encodings.
  The start-up check then refuses it.
- Departure never stops the video.

## Model

| member | source | states |
|---|---|---|
| Geometry.FloorHalf | utils.py:79-80 | `x // 2` is floor division: `2q <= x < 2q + 2`, also for negative sums |
| Geometry.FaceCenter | utils.py:78-79 | the centre is `((left+right)//2, (top+bottom)//2)` and lies inside a well-formed box |
| Geometry.FrameCenter | utils.py:80 | the frame centre's x is half the width (`shape[1]`) and its y half the height (`shape[0]`) |
| Geometry.SquaredCenterDistance | utils.py:82-84 | the squared distance is non-negative and is 0 exactly when the face centre is the frame centre |
| Geometry.CloserThan | friend_detector.py:407-412 | the trigger test: a face centred on the frame is within any positive distance, and nothing is within distance 0 |
| Geometry.SqrtFreeThreshold | utils.py:82-83 | for `T >= 0` and the non-negative root `r` of `d2`, `r < T` iff `d2 < T*T` |
| Geometry.CloserThanIsDistanceBelow | friend_detector.py:407-412 | the model's trigger test agrees with `sqrt(dx**2 + dy**2) < TRIGGER_DISTANCE` |
| Matching.MinDistance | friend_detector.py:400 | `min` returns an element of the list that is no greater than any other |
| Matching.IsFriend | friend_detector.py:399-401 | a face matches iff some distance is strictly below 0.37; an empty distance list never matches |
| Matching.FaceDistances | friend_detector.py:397 | one distance per reference encoding, in reference order (also in `recognize_faces`, face_recognition_handler.py:124); with no references the face never matches |
| Matching.IdenticalEncodingMatches | friend_detector.py:397-401 | an encoding equal to a reference matches at minimum distance 0 (for a metric that is 0 on equal vectors and never negative) |
| Playback.Played | friend_detector.py:52-61 | `play()` keeps the file's existence; afterwards the flag is set iff it was set already or the file exists; exactly one thread is started when it goes from idle to playing, none otherwise |
| Playback.Stopped | friend_detector.py:63-64 | `stop()` clears the flag and changes neither the file's existence nor the started threads |
| Playback.PlayIsIdempotent | friend_detector.py:52-61 | a second `play()` changes nothing and starts no second thread; after `play()` the flag is set iff it was set already or the file exists |
| Playback.StopThenPlay | friend_detector.py:63-64 | `stop()` always clears the flag; a later `play()` with the file present plays again with exactly one new thread |
| Playback.VideoPlayer.constructor | friend_detector.py:38-50 | a new player is idle, has started no thread, and records whether the file exists |
| Playback.VideoPlayer.Play | friend_detector.py:52-61 | no-op when the file is missing or playback runs; otherwise sets `is_playing` and starts one thread |
| Playback.VideoPlayer.Stop | friend_detector.py:63-70 | clears `is_playing` and nothing else |
| Presence.Sampled | friend_detector.py:369-372 | a frame is examined only when its count is even or a multiple of 3; a multiple of 6 is examined whether or not the friend is present; a count divisible by neither is never examined |
| Presence.Visit | friend_detector.py:397-419 | one face: `friend_found_this_frame` becomes true iff the face matches; a face that is not a match within 180 px changes no loop variable; one that is sets presence, clears the counter and applies `play()`; `frame_count` is untouched |
| Presence.ScanFaces | friend_detector.py:395-419 | the per-face loop keeps `frame_count` and the file's existence |
| Presence.Depart | friend_detector.py:432-440 | the departure logic keeps `frame_count` and the player, never sets presence, keeps it when some face matched, and preserves the counter invariant |
| Presence.RunFrames | friend_detector.py:357-440 | over any sequence of reads `frame_count` grows by at most one per read, the file's existence is kept, and a player that was playing is left as it was |
| Presence.Transition | friend_detector.py:358-440 | the reference table: a captured frame advances `frame_count` by one and a failed read by none; the player is untouched or gets `play()`; presence is gained only in a captured frame with a near match |
| Presence.Step | friend_detector.py:358-440 | a failed read changes nothing; a captured frame advances `frame_count` by exactly one; the file's existence never changes |
| Presence.ScanClosedForm | friend_detector.py:395-419 | the per-face loop: without a near match nothing changes except `friend_found_this_frame` (true iff some face matched); with one, presence is set, the counter is 0 and `play()` has been applied |
| Presence.StepIsTransition | friend_detector.py:365-440 | the loop body equals the transition table: sampling, arrival, distant match, reset and departure |
| Presence.StepPreservesInv | friend_detector.py:432-440 | after every frame `0 <= no_friend_frames < 15`, and the counter is 0 while absent |
| Presence.InitialSatisfiesInv | friend_detector.py:351-353 | the initial state (count 0, absent, counter 0) satisfies the invariant |
| Presence.UnsampledFrameOnlyCounts | friend_detector.py:365-374 | a frame that is not sampled (odd count while present, not a multiple of 3 while absent) only advances `frame_count` |
| Presence.PlaybackStartsOnlyOnNearMatch | friend_detector.py:412-415 | playback starts in a frame iff the frame is sampled, has a matched face within 180 px, the player is idle and the file exists; it then starts exactly one thread |
| Presence.StepNeverStopsPlayback | friend_detector.py:432-440 | no frame, including the departing one, changes a playing player |
| Presence.NearMatchArrives | friend_detector.py:412-419 | a sampled near match sets presence and clears the counter even while the video already plays |
| Presence.NoArrivalWithoutNearMatch | friend_detector.py:403-419 | without a near match the player is untouched, and an absent friend stays absent however well a distant face matches |
| Presence.MatchKeepsPresence | friend_detector.py:439-440 | while present, a sampled frame with any match, even a distant one, resets the counter to 0 |
| Presence.MissWhilePresent | friend_detector.py:432-438 | while present, a sampled miss increments the counter, the 15th departs with counter 0, and the player is untouched |
| Presence.MissesKeepPresence | friend_detector.py:432-437 | over a run of missed frames while present, presence is kept while the number of even (sampled) frame counts keeps the counter below 15, so 14 misses keep it |
| Presence.ThresholdMissDeparts | friend_detector.py:432-438 | the sampled miss that brings the counter to 15 departs: absent, counter 0, player unchanged |
| Presence.RunPreservesInv | friend_detector.py:358-440 | the counter invariant holds after any sequence of camera reads |
| DetectionLoop.Detector.constructor | friend_detector.py:351-353 | the loop starts with `frame_count = 0`, `friend_detected = False`, `no_friend_frames = 0` |
| DetectionLoop.Detector.ProcessFrame | friend_detector.py:358-440 | one imperative pass of the loop body (per-face loop, `play()` calls, departure) yields exactly `Step` of the old state and keeps the invariant |
| DetectionLoop.Detector.Run | friend_detector.py:357-460 | the loop over camera reads until quit yields `RunFrames` of the old state |
| DetectionLoop.Detector.Shutdown | friend_detector.py:466-470 | on exit a playing video is stopped, and the player ends idle |
| Enrollment.Area | friend_detector.py:177 | the area `(bottom-top)*(right-left)` is non-negative for a well-formed box and 0 for a degenerate one |
| Enrollment.LargestIndex | friend_detector.py:175-178 | `max` by area `(bottom-top)*(right-left)` picks a box of maximal area, the first such on ties |
| Enrollment.Accept | friend_detector.py:154-193 | a photo yields an encoding iff it exists, preprocesses, shows a face and its largest face encodes; it is then the first encoding of that face, whatever the number of faces |
| Enrollment.Record | friend_detector.py:154-193 | one photo appends exactly one entry: the earlier lists are prefixes of the new ones, and the encodings grow iff the photo is accepted |
| Enrollment.Rebuild | friend_detector.py:147-193 | `valid_images + len(failed_images) == len(image_paths)` |
| Enrollment.RebuildConcat | friend_detector.py:151-193 | the rebuild is compositional: earlier photos' encodings and failures come first |
| Enrollment.RebuildOne | friend_detector.py:151-193 | each photo contributes exactly one entry, its encoding or its path |
| Enrollment.RebuildInPathOrder | friend_detector.py:151-193 | the j-th encoding is from the j-th successful photo, the indices increase, and every successful photo is used |
| Enrollment.SuccessRate | face_recognition_handler.py:129-136 | the rate raises iff there are no photos; it lies in [0, 100] and is 100 iff every photo succeeded |
| Enrollment.LoadOrCreate | friend_detector.py:135-213 | loading raises iff there is no loadable cache and no photo; a saved list has at least 3 encodings and came from a rebuild; a rebuild never yields more encodings than photos |
| Enrollment.CacheHitIgnoresImages | friend_detector.py:137-141 | a loadable cache is returned unchanged, whatever the photos, and nothing is written |
| Enrollment.UnloadableCacheRebuilds | friend_detector.py:142-144 | a cache that fails to load gives the same result as no cache |
| Enrollment.RebuildResult | friend_detector.py:195-213 | a rebuild raises iff there are no photos; otherwise it returns the rebuilt list, however short, and saves it iff it has at least 3 encodings |
| Enrollment.SavedCacheReloads | friend_detector.py:203-206 | what a rebuild saves has at least 3 encodings and is loaded back unchanged next time |
| Enrollment.RebuildEncodings | friend_detector.py:147-193 | the imperative loop yields the rebuild's lists, with `valid_images == len(known_encodings)` |
| Enrollment.LoadOrCreateEncodings | friend_detector.py:135-213 | the function returns exactly `LoadOrCreate` of the cache and the photos |
| Enrollment.StartupReferences | friend_detector.py:317-325 | detection starts only with at least 3 reference encodings |
| Enrollment.StartAfterRebuildSaved | friend_detector.py:317-325 | starting after a rebuild needs at least 3 successful photos, and the cache was then written |
| FaceRecognition.FaceRecognitionHandler.constructor | face_recognition_handler.py:12-14 | `known_face_encodings` starts empty |
| FaceRecognition.FaceRecognitionHandler.LoadOrCreateEncodings | face_recognition_handler.py:16-97 | returns `LoadOrCreate`; on success the field holds exactly the returned list (loaded or rebuilt); if the division raises, the field is unchanged |
| FaceRecognition.FaceRecognitionHandler.RecognizeFaces | face_recognition_handler.py:99-127 | no face gives `([], [], [])`; otherwise one distance list per encoding, in order, each with one entry per reference |

## Left out

- Face detection, face encoding and the distance metric of the face library are inputs. These are boxes, encoding results and distance lists.
- Image preprocessing (brightness and contrast with PIL) is left out. Only its outcome, an image or `None`, is modelled.
- Text rendering (`cv2_puttext_chinese`), box drawing and the status overlay are display only.
- The ×2 rescaling of detected boxes is left out, because frames carry full-frame boxes.
- The pickle cache format is left out. Loading is an abstract `Cache` value. Writing is the `saved` flag, which records that a write was attempted; a write that fails is only logged.
- The next start's cache is taken to hold exactly the list the rebuild wrote (the pickle round trip is assumed lossless); this is why `SavedCacheReloads` passes the saved list back as `Stored`.
- The `_save_encodings` helper is folded into that `saved` flag.
- Console messages are left out, including `_print_processing_summary` apart from its division.
- `VideoPlayer._play_loop` and video_player.py are left out: the background thread, the cv2 window, `pyautogui` and the ESC key. That thread can also clear `is_playing` (ESC). The model treats the flag as changed only by `play()` and `stop()`. An interleaving with the thread is not modelled. Note also that the thread's exception handler does not clear the flag.
- The camera, its resolution settings and the 0.1-second `sleep` after a failed read (friend_detector.py:362) are left out. A failed read is `ReadFailed`.
- The FPS computation is wall-clock floating point.
- The `q` quit key is represented as the end of the frame sequence given to `Run`.
- main.py is left out. It refers to a `FriendDetector` class and a config module that are not part of this model. The authoritative loop is the one in friend_detector.py.
- Exceptions raised inside the detection loop are left out. They end the loop in the source, and the model's frames do not raise.
- Distances are exact reals compared against `CONFIDENCE_THRESHOLD`; the source compares floating-point values.
