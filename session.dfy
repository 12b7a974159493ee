/**
 * The frame-processing session: the state the frame loop keeps between
 * frames (whether the alarm is playing, the identities already reported) and
 * the per-frame pipeline filter -> tracker -> deduplicator -> alarm.
 */
module Sessions {
  import opened Results
  import opened Detections
  import opened Deduplicator
  import opened Alarm

  /** What one frame produces: the tracker input, the frame flag, the messages
      published, and the call made on the sound. */
  datatype FrameResult = FrameResult(forwarded: seq<Row>, violation: bool, emissions: seq<Emission>, alarm: AlarmAction)

  /** One turn of the capture loop: either the read failed (the video is
      rewound and the turn skipped), or a frame was captured; for a captured
      frame the detector's output, the tracker's answer for this frame as a
      function of its input, and the source of message ids and times are given. */
  datatype Capture =
    | ReadFailed
    | Captured(dets: seq<Detection>, tracker: seq<Row> -> seq<TrackedBox>, supply: nat -> Stamp)

  /** A captured frame whose class lookup raises, ending the loop. */
  predicate Fails(c: Capture) {
    c.Captured? && !AllKnown(c.dets)
  }

  /** The violation flag of one turn: none for a failed read. */
  function TurnFlags(frame: Capture): seq<bool> {
    if frame.Captured? then [ViolationPresent(frame.dets)] else []
  }

  /** The violation flags of the frames that were captured, in order. */
  function Flags(frames: seq<Capture>): seq<bool> {
    if frames == [] then []
    else
      var n := |frames| - 1;
      Flags(frames[..n]) + TurnFlags(frames[n])
  }

  lemma FlagsSnoc(frames: seq<Capture>, i: nat)
    requires i < |frames|
    ensures Flags(frames[..i + 1]) == Flags(frames[..i]) + TurnFlags(frames[i])
  {
    assert frames[..i + 1][..i] == frames[..i];
  }

  /** The confidence a frame's messages carry: that of its last detection.
      An empty frame has no violation and emits nothing, so its 0 is never published. */
  function FrameConf(dets: seq<Detection>): int {
    if dets == [] then 0 else dets[|dets| - 1].conf
  }

  /** The deduplicator's effect for one turn of the capture loop, from the
      emitted-identity set `ids`; a failed read emits nothing. */
  function TurnDedup(ids: set<int>, frame: Capture): DedupState {
    if frame.Captured? then
      Dedup(ViolationPresent(frame.dets), FrameConf(frame.dets), frame.supply, ids, frame.tracker(Forwarded(frame.dets)))
    else
      DedupState([], ids)
  }

  /** The messages of a run of turns, in order, and the emitted-identity set
      after it, threading the set from turn to turn. */
  function Emitted(ids: set<int>, frames: seq<Capture>): DedupState {
    if frames == [] then DedupState([], ids)
    else
      var n := |frames| - 1;
      var prev := Emitted(ids, frames[..n]);
      var turn := TurnDedup(prev.ids, frames[n]);
      DedupState(prev.events + turn.events, turn.ids)
  }

  lemma EmittedSnoc(ids: set<int>, frames: seq<Capture>, i: nat)
    requires i < |frames|
    ensures Emitted(ids, frames[..i + 1]) ==
      DedupState(Emitted(ids, frames[..i]).events + TurnDedup(Emitted(ids, frames[..i]).ids, frames[i]).events,
                 TurnDedup(Emitted(ids, frames[..i]).ids, frames[i]).ids)
  {
    assert frames[..i + 1][..i] == frames[..i];
  }

  /** Identities are fresh with respect to `ids` and pairwise distinct. */
  ghost predicate FreshAndDistinct(ids: set<int>, events: seq<Emission>) {
    (forall k :: 0 <= k < |events| ==> events[k].trackId !in ids) &&
    (forall k, l :: 0 <= k < l < |events| ==> events[k].trackId != events[l].trackId)
  }

  /** One turn emits fresh, distinct identities and adds exactly those. */
  lemma TurnAtMostOnce(ids: set<int>, frame: Capture)
    ensures TurnDedup(ids, frame).ids == ids + IdsOf(TurnDedup(ids, frame).events)
    ensures FreshAndDistinct(ids, TurnDedup(ids, frame).events)
  {
    if frame.Captured? {
      var v, c, tr := ViolationPresent(frame.dets), FrameConf(frame.dets), frame.tracker(Forwarded(frame.dets));
      DedupIds(v, c, frame.supply, ids, tr);
      DedupAtMostOnce(v, c, frame.supply, ids, tr);
    }
  }

  lemma FreshAndDistinctAppend(ids: set<int>, a: seq<Emission>, b: seq<Emission>)
    requires FreshAndDistinct(ids, a)
    requires FreshAndDistinct(ids + IdsOf(a), b)
    ensures FreshAndDistinct(ids, a + b)
  {
    forall k, l | 0 <= k < l < |a + b| ensures (a + b)[k].trackId != (a + b)[l].trackId {
      if k < |a| <= l {
        assert (a + b)[k] in a;
      }
    }
  }

  /** Over any run of turns, no identity gets two messages, none is for an
      identity emitted before the run, and the set afterwards is the old set
      plus the identities of the messages. */
  lemma {:induction false} EmittedAtMostOnce(ids: set<int>, frames: seq<Capture>)
    ensures Emitted(ids, frames).ids == ids + IdsOf(Emitted(ids, frames).events)
    ensures FreshAndDistinct(ids, Emitted(ids, frames).events)
  {
    if frames != [] {
      var n := |frames| - 1;
      var prev := Emitted(ids, frames[..n]);
      EmittedAtMostOnce(ids, frames[..n]);
      TurnAtMostOnce(prev.ids, frames[n]);
      var turn := TurnDedup(prev.ids, frames[n]);
      IdsOfAppend(prev.events, turn.events);
      FreshAndDistinctAppend(ids, prev.events, turn.events);
    }
  }

  lemma AppendAssoc(a: seq<Emission>, b: seq<Emission>, c: seq<Emission>)
    ensures a + b + c == a + (b + c)
  {
  }

  class Session {
    var alarmPlaying: bool
    var emittedIds: set<int>
    /** Every message emitted over the session's lifetime, in order. */
    ghost var history: seq<Emission>

    /** The emitted-identity set is the set of identities messages were
        emitted for, and no identity has more than one message. */
    ghost predicate Valid()
      reads this
    {
      emittedIds == IdsOf(history) &&
      forall k, l :: 0 <= k < l < |history| ==> history[k].trackId != history[l].trackId
    }

    constructor ()
      ensures Valid()
      ensures !alarmPlaying && emittedIds == {} && history == []
    {
      alarmPlaying := false;
      emittedIds := {};
      history := [];
    }

    /** The deduplication loop over the tracker's results for one frame. */
    method EmitNew(violation: bool, conf: int, tracked: seq<TrackedBox>, supply: nat -> Stamp)
      returns (events: seq<Emission>)
      requires Valid()
      modifies this
      ensures Valid()
      ensures events == Dedup(violation, conf, supply, old(emittedIds), tracked).events
      ensures emittedIds == Dedup(violation, conf, supply, old(emittedIds), tracked).ids
      ensures history == old(history) + events
      ensures alarmPlaying == old(alarmPlaying)
    {
      events := [];
      for i := 0 to |tracked|
        invariant Valid()
        invariant events == Dedup(violation, conf, supply, old(emittedIds), tracked[..i]).events
        invariant emittedIds == Dedup(violation, conf, supply, old(emittedIds), tracked[..i]).ids
        invariant history == old(history) + events
        invariant alarmPlaying == old(alarmPlaying)
      {
        var t := tracked[i];
        if violation && t.id !in emittedIds {
          emittedIds := emittedIds + {t.id};
          var s := supply(|events|);
          var e := EventFor(t, conf, s);
          IdsOfAppend(history, [e]);
          assert IdsOf([e]) == {t.id};
          events := events + [e];
          history := history + [e];
        }
        assert tracked[..i + 1][..i] == tracked[..i];
        assert tracked[..i + 1][i] == t;
      }
      assert tracked[..|tracked|] == tracked;
    }

    /** One frame: scan the detections, hand the forwarded rows to the
        tracker, emit a message for each new identity, and drive the alarm.
        An unknown class index aborts the frame before any state changes. */
    method ProcessFrame(dets: seq<Detection>, tracker: seq<Row> -> seq<TrackedBox>, supply: nat -> Stamp)
      returns (r: Result<FrameResult, ScanError>)
      requires Valid()
      modifies this
      ensures Valid()
      ensures r.Failure? <==> !AllKnown(dets)
      ensures r.Failure? ==> FirstUnknown(dets, r.error.index)
      ensures r.Failure? ==>
        alarmPlaying == old(alarmPlaying) && emittedIds == old(emittedIds) && history == old(history)
      ensures r.Success? ==>
        var violation := ViolationPresent(dets);
        var d := Dedup(violation, FrameConf(dets), supply, old(emittedIds), tracker(Forwarded(dets)));
        r.value == FrameResult(Forwarded(dets), violation, d.events, Step(old(alarmPlaying), violation)) &&
        emittedIds == d.ids &&
        history == old(history) + d.events &&
        alarmPlaying == violation
    {
      var scan := ScanFrame(dets);
      if scan.Failure? {
        return Failure(scan.error);
      }
      var rows := scan.value.rows;
      var violation := scan.value.violation;
      // Without a detection the frame has no violation and emits nothing,
      // so the placeholder confidence is never published.
      var conf := if scan.value.lastConf.Some? then scan.value.lastConf.value else 0;
      var tracked := tracker(rows);
      var events := EmitNew(violation, conf, tracked, supply);
      var action := Hold;
      if violation {
        if !alarmPlaying {
          action := Start;
          alarmPlaying := true;
        }
      } else {
        if alarmPlaying {
          action := Stop;
          alarmPlaying := false;
        }
      }
      return Success(FrameResult(rows, violation, events, action));
    }

    /** One turn of the capture loop: a failed read changes nothing, a
        captured frame is processed; the sound calls of the turn are returned. */
    method Turn(frame: Capture) returns (failure: Option<ScanError>, calls: seq<AlarmAction>, events: seq<Emission>)
      requires Valid()
      modifies this
      ensures Valid()
      ensures failure.Some? <==> Fails(frame)
      ensures failure.Some? ==> FirstUnknown(frame.dets, failure.value.index)
      ensures failure.Some? ==>
        alarmPlaying == old(alarmPlaying) && emittedIds == old(emittedIds) && history == old(history)
      ensures failure.None? ==> events == TurnDedup(old(emittedIds), frame).events
      ensures failure.None? ==> emittedIds == TurnDedup(old(emittedIds), frame).ids
      ensures failure.None? ==> calls == Calls(old(alarmPlaying), TurnFlags(frame))
      ensures failure.None? ==> alarmPlaying == After(old(alarmPlaying), TurnFlags(frame))
      ensures failure.None? ==> history == old(history) + events
    {
      failure, calls, events := None, [], [];
      if frame.Captured? {
        var r := ProcessFrame(frame.dets, frame.tracker, frame.supply);
        if r.Failure? {
          failure := Some(r.error);
          return;
        }
        CallsSnoc(old(alarmPlaying), [], r.value.violation);
        assert [] + [r.value.violation] == TurnFlags(frame);
        if r.value.alarm != Hold {
          calls := [r.value.alarm];
        }
        events := r.value.emissions;
      }
    }

    /** The capture loop over a finite run of turns: a failed read skips the
        turn, a captured frame is processed, and an unknown class index ends
        the loop. `processed` is the number of turns completed. */
    method Run(frames: seq<Capture>)
      returns (processed: nat, failure: Option<ScanError>, calls: seq<AlarmAction>, events: seq<Emission>)
      requires Valid()
      modifies this
      ensures Valid()
      ensures processed <= |frames|
      ensures forall j :: 0 <= j < processed ==> !Fails(frames[j])
      ensures failure.Some? <==> processed < |frames|
      ensures failure.Some? ==> Fails(frames[processed]) && FirstUnknown(frames[processed].dets, failure.value.index)
      ensures calls == Calls(old(alarmPlaying), Flags(frames[..processed]))
      ensures alarmPlaying == After(old(alarmPlaying), Flags(frames[..processed]))
      ensures events == Emitted(old(emittedIds), frames[..processed]).events
      ensures emittedIds == Emitted(old(emittedIds), frames[..processed]).ids
      ensures history == old(history) + events
      ensures emittedIds == old(emittedIds) + IdsOf(events)
    {
      processed, failure, calls, events := 0, None, [], [];
      while processed < |frames|
        invariant processed <= |frames|
        invariant Valid()
        invariant forall j :: 0 <= j < processed ==> !Fails(frames[j])
        invariant calls == Calls(old(alarmPlaying), Flags(frames[..processed]))
        invariant alarmPlaying == After(old(alarmPlaying), Flags(frames[..processed]))
        invariant history == old(history) + events
        invariant events == Emitted(old(emittedIds), frames[..processed]).events
        invariant emittedIds == Emitted(old(emittedIds), frames[..processed]).ids
      {
        ghost var before := history;
        var f, c, e := Turn(frames[processed]);
        if f.Some? {
          failure := f;
          EmittedAtMostOnce(old(emittedIds), frames[..processed]);
          return;
        }
        FlagsSnoc(frames, processed);
        EmittedSnoc(old(emittedIds), frames, processed);
        CallsAppend(old(alarmPlaying), Flags(frames[..processed]), TurnFlags(frames[processed]));
        assert history == before + e;
        AppendAssoc(old(history), events, e);
        calls, events := calls + c, events + e;
        processed := processed + 1;
      }
      EmittedAtMostOnce(old(emittedIds), frames[..processed]);
    }
  }
}
