# PPE violation session: filter, deduplicator and alarm

This project models the per-frame decision logic of the hard-hat monitor's
frame loop (`generate_object_data` in `main.py`). Each turn of the loop does three things.

1. **Violation filter.** It goes through the detector's boxes in order. Each
   class index is looked up in the ten-entry class table. A box of class
   `NO-Hardhat` whose rounded confidence is above 0.5 becomes a tracker row
   `[x1, y1, x2, y2, conf]`, and it sets the frame's "safety violation
   detected" flag.
2. **Deduplicator.** For each `(box, id)` the SORT tracker returns, one
   `object_data` message is built when the frame has a violation and the id
   is not yet in the process-wide set of emitted ids. The id is added to the
   set at the same step.
3. **Alarm controller.** A two-state machine (`alarm_playing`). It starts the
   looping sound on a clean-to-violating frame, stops it on a
   violating-to-clean frame, and makes no call otherwise.

Modules:

- `Results` (results.dfy): `Option` and `Result`.
- `Detections` (detections.dfy): the detection and row types and the class
  table. `ScanFrame` is the filter loop. It is proved against the
  specification functions `Forwarded`, `ViolationPresent` and `Passing`.
- `Deduplicator` (dedup.dfy): the message types and the specification
  function `Dedup`, which processes the tracker output row by row. `Emits`
  and `Origins` are an independent reference definition of which rows emit.
  Lemmas connect the two.
- `Alarm` (alarm.dfy): `Step` is the per-frame transition. `Calls` is the
  sequence of sound calls over a run of frames. Lemmas cover alternation and
  bursts.
- `Sessions` (session.dfy): the class `Session` holds the state kept between
  frames:
  - `alarmPlaying`;
  - `emittedIds`;
  - a ghost `history` of every message emitted.

  Its invariant `Valid()` says that `emittedIds` is exactly the set of
  identities in `history`, and that no identity appears twice in `history`.
  This is the at-most-once guarantee over the whole lifetime.
  - `EmitNew` is the deduplication loop.
  - `ProcessFrame` processes one captured frame.
  - `Turn` is one turn of the loop, including a failed read.
  - `Run` is the capture loop over a finite run of turns. The function
    `Emitted` specifies its messages: it folds the deduplicator over the
    turns.

Modelling choices:

- Confidence is an integer number of hundredths (0..100), so the test
  `conf > 0.5` becomes `conf > 50`. Box corners are integers.
- The event position is `(x1 + x2) // 2`. Python's `//` floors. For the
  divisor 2, Dafny's `/` gives the same result, including for negative sums.
- The class lookup follows Python list indexing, as the code does. Indices
  -10..9 succeed, and negative indices count from the end, so index -8 also
  names `NO-Hardhat`. Any other index raises `IndexError`. The exception
  escapes the frame loop and ends it. Nothing in the frame has changed the
  session state by then. The model returns `Failure(UnknownClass(i, cls))`
  for the first such detection, leaves the session unchanged, and `Run`
  stops there.
- Each message carries the confidence of the last detection examined in the
  frame, of any class. This need not be the confidence of the tracked box
  the message is about. The model reproduces this.
- The tracker is treated as an oracle. For each frame, the caller supplies a
  total function from the forwarded rows to the tracker's
  `(x1, y1, x2, y2, id)` results, with integer coordinates. So the tracker
  sees exactly the forwarded rows. Its internal state across frames is not
  modelled.
- The unique message id (`generate()`) and the timestamp (`time.time()`)
  are supplied by a function `supply: nat -> Stamp`. The k-th message of a
  frame takes `supply(k)`.
- The message sent on the channel has no track id. `Emission` pairs each
  message with the track id it was built for, so that per-id properties can
  be stated.
- The detector's result batches (`for r in results: for box in r.boxes`)
  are flattened into one ordered sequence of detections.

## Model

| member | source | states |
|---|---|---|
| `Detections.ClassName` | main.py:74-75 | the lookup yields a name iff the index is one Python accepts for the ten-entry table (-10..9), and the name is one of the table's entries; otherwise the lookup raises |
| `Detections.ViolationClassIndices` | main.py:30-31 | exactly the indices 2 and -8 name `NO-Hardhat` |
| `Detections.ScanFrame` | main.py:59-83 | the scan succeeds iff every class index is valid; on failure it reports the first invalid one; on success the rows are the forwarded rows, the flag is "some detection violates", and the confidence left over is that of the last detection (none for an empty frame) |
| `Detections.ForwardedSelects` | main.py:77-83 | the tracker input holds one row `[x1,y1,x2,y2,conf]` per detection with conf > 50 and class `NO-Hardhat`, each taken from that detection, in input order, and no other rows |
| `Detections.ViolationIffForwarded` | main.py:61-78 | the frame flag is true iff at least one detection was forwarded to the tracker |
| `Deduplicator.Midpoint` | main.py:101 | the position coordinate is the floor of the mean of the two box edges |
| `Deduplicator.DedupIds` | main.py:94-95 | after a frame the emitted-id set is the old set plus the ids of the messages emitted; with a violation that is every id the tracker returned; without one the set is unchanged |
| `Deduplicator.DedupQuiet` | main.py:94 | a frame without a violation emits no message and leaves the set unchanged |
| `Deduplicator.Origins` | main.py:87-95 | the rows that emit, by the reference definition, are positions within the tracker output |
| `Deduplicator.OriginsCharacterised` | main.py:87-95 | the emitting rows are in increasing order, and a row emits iff the frame has a violation, its id was not emitted before, and no earlier row of the frame has the same id |
| `Deduplicator.DedupFollowsOrigins` | main.py:87-104 | the k-th message of the frame is built from the k-th emitting row in tracker-output order. It has that row's id, status "No Hardhat Detected", the floor-midpoint position of the row's box, the frame's confidence, and the k-th supplied unique id and timestamp |
| `Deduplicator.DedupAtMostOnce` | main.py:94-96 | no message is for an id emitted before the frame, and no two messages of a frame share an id |
| `Deduplicator.DedupEveryNewId` | main.py:87-96 | in a violating frame every id returned by the tracker that was not yet emitted gets a message |
| `Alarm.Step` | main.py:108-120 | the sound is started iff the alarm was silent and the frame violates, and stopped iff it was playing and the frame is clean; otherwise nothing is called |
| `Alarm.CallsAlternate` | main.py:108-120 | over any run of frames, only starts and stops are called and they strictly alternate. The first call moves away from the initial state. The alarm is playing afterwards iff the last call was a start, or, if nothing was called, iff it was playing at the start |
| `Alarm.CallsAppend` | main.py:108-120 | the calls of two consecutive runs are the calls of the first followed by those of the second from the state the first leaves |
| `Alarm.CallsRepeat` | main.py:108-120 | a run of equal flags makes one call if the flag differs from the state, and none otherwise |
| `Alarm.CallsBurst` | main.py:108-120 | n violating frames then m clean frames make exactly one start (if n > 0 and the alarm was silent), then exactly one stop (if m > 0 and the alarm was sounding by then), and nothing else |
| `Sessions.Session.constructor` | main.py:33-36 | a new session is silent, has emitted no id, and satisfies the invariant |
| `Sessions.Session.EmitNew` | main.py:87-106 | the deduplication loop emits exactly the messages of `Dedup` and leaves the emitted-id set as `Dedup` says. It keeps the invariant, so an id has at most one message over the session's lifetime. The alarm state is untouched |
| `Sessions.Session.ProcessFrame` | main.py:58-120 | a frame fails iff some class index is invalid, and then the state is unchanged. Otherwise: the tracker receives the forwarded rows; the messages are `Dedup` of the tracker's answer with the frame flag and the last confidence; the set grows by their ids; the alarm action is `Step`; and afterwards the alarm state equals the frame flag |
| `Sessions.Session.Turn` | main.py:52-120 | a failed read emits nothing and changes nothing. A captured frame fails iff a class index is invalid, and then nothing changes. Otherwise its messages and the new emitted-id set are those `Dedup` gives for the frame's flag, last confidence and the tracker's answer to the forwarded rows, its sound calls and alarm state are those of `Calls` and `After` for that flag, and its messages are appended to the history |
| `Sessions.TurnAtMostOnce` | main.py:94-95 | one turn adds exactly the ids of its messages to the set, and those ids are new and pairwise distinct; a failed read adds none |
| `Sessions.EmittedAtMostOnce` | main.py:36 | over any run of turns, no message is for an id emitted before the run, no id gets two messages, and the set afterwards is the old set plus the ids of the messages |
| `Sessions.Session.Run` | main.py:51-127 | the capture loop skips failed reads and processes frames in order until the first frame with an invalid class index. The messages and the final emitted-id set are `Emitted` of the processed turns: the deduplicator folded over them, threading the id set. The sound calls are `Calls` of their flags, and the final alarm state is `After` of them. Every message is recorded in the history |

## Left out

- The SORT tracker (Kalman prediction, IoU association, `min_hits`,
  `max_age`). Its source is not part of this model. The tracker is an oracle
  supplied per frame.
- YOLO inference. Detections are inputs.
- Float handling. The `int()` truncation of box corners and the
  `math.ceil(conf * 100) / 100` rounding are not modelled. Detections arrive
  with integer corners and integer hundredths, and tracker results arrive
  with integer corners and ids.
- Video capture, rewinding on a failed read, drawing, text rendering, the
  window and the `q` key. A failed read is modelled only as a skipped turn
  (`ReadFailed`). The loop ending on `q` is modelled by `Run` reaching the
  end of its finite input.
- pygame audio. The sound calls are recorded as `Start` and `Stop` actions.
- The Flask/SocketIO server, `socketio.emit`, `print`, eventlet
  monkey-patching and `eventlet.sleep(0)`, and the connect/disconnect
  handlers. These are network transport and cooperative scheduling. Each
  emitted message is returned instead.
- `nanoid.generate()` and `time.time()`. They are nondeterministic, so they
  are supplied as a parameter. Uniqueness of the generated ids is not
  modelled.
- `src/App.js`, the React client. It only stores and renders the latest
  message.
