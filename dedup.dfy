/**
 * The deduplicator: for each box the tracker returns in a frame with a
 * violation, one message is built the first time its identity is seen, and
 * the identity joins a set that only grows.
 */
module Deduplicator {

  /** One tracker result: box corners truncated to integers and the track identity. */
  datatype TrackedBox = TrackedBox(x1: int, y1: int, x2: int, y2: int, id: int)

  /** What the environment supplies for one message: a fresh unique id and the
      current time in milliseconds. */
  datatype Stamp = Stamp(uid: string, millis: int)

  /** The 'object_data' message. */
  datatype ObjectData = ObjectData(id: string, status: string, x: int, y: int, confidence: int, timestamp: int)

  /** A message together with the track identity it was built for (the
      identity itself is not part of the message). */
  datatype Emission = Emission(trackId: int, data: ObjectData)

  const Status: string := "No Hardhat Detected"

  /** Python's (a + b) // 2: the floor of the mean, also for negative sums. */
  function Midpoint(a: int, b: int): (m: int)
    ensures 2 * m <= a + b < 2 * m + 2
  {
    (a + b) / 2
  }

  function EventFor(t: TrackedBox, conf: int, s: Stamp): Emission {
    Emission(t.id, ObjectData(s.uid, Status, Midpoint(t.x1, t.x2), Midpoint(t.y1, t.y2), conf, s.millis))
  }

  function IdsOf(events: seq<Emission>): set<int> {
    set e | e in events :: e.trackId
  }

  function TrackIds(tracked: seq<TrackedBox>): set<int> {
    set t | t in tracked :: t.id
  }

  /** The messages emitted so far in the frame and the emitted-identity set. */
  datatype DedupState = DedupState(events: seq<Emission>, ids: set<int>)

  /** The deduplicator over the tracker results of one frame, row by row:
      `violation` is the frame flag, `conf` the confidence every message of the
      frame carries, `ids` the emitted-identity set before the frame, and the
      k-th message of the frame takes its id and time from supply(k). */
  function Dedup(violation: bool, conf: int, supply: nat -> Stamp, ids: set<int>, tracked: seq<TrackedBox>): DedupState
  {
    if tracked == [] then DedupState([], ids)
    else
      var n := |tracked| - 1;
      var prev := Dedup(violation, conf, supply, ids, tracked[..n]);
      if violation && tracked[n].id !in prev.ids then
        DedupState(prev.events + [EventFor(tracked[n], conf, supply(|prev.events|))], prev.ids + {tracked[n].id})
      else
        prev
  }

  /** Reference definition: row j emits iff the frame has a violation, its
      identity was not emitted before the frame, and no earlier row of the
      frame carries the same identity. */
  predicate Emits(violation: bool, ids: set<int>, tracked: seq<TrackedBox>, j: int)
    requires 0 <= j < |tracked|
  {
    violation && tracked[j].id !in ids &&
    forall i :: 0 <= i < j ==> tracked[i].id != tracked[j].id
  }

  /** The rows that emit, by the reference definition, in order. */
  function Origins(violation: bool, ids: set<int>, tracked: seq<TrackedBox>): (r: seq<nat>)
    ensures forall k :: 0 <= k < |r| ==> r[k] < |tracked|
  {
    if tracked == [] then []
    else
      var n := |tracked| - 1;
      Origins(violation, ids, tracked[..n]) + (if Emits(violation, ids, tracked, n) then [n] else [])
  }

  lemma TrackIdsSnoc(tracked: seq<TrackedBox>)
    requires tracked != []
    ensures TrackIds(tracked) == TrackIds(tracked[..|tracked| - 1]) + {tracked[|tracked| - 1].id}
  {
  }

  lemma InTrackIds(tracked: seq<TrackedBox>, n: nat, x: int)
    requires n <= |tracked|
    ensures x in TrackIds(tracked[..n]) <==> exists i :: 0 <= i < n && tracked[i].id == x
  {
  }

  lemma IdsOfAppend(a: seq<Emission>, b: seq<Emission>)
    ensures IdsOf(a + b) == IdsOf(a) + IdsOf(b)
  {
  }

  /** After a frame the set is the old set plus the identities emitted; with a
      violation that is every identity the tracker returned, without one the
      set is unchanged. */
  lemma {:induction false} DedupIds(violation: bool, conf: int, supply: nat -> Stamp, ids: set<int>, tracked: seq<TrackedBox>)
    ensures Dedup(violation, conf, supply, ids, tracked).ids == ids + IdsOf(Dedup(violation, conf, supply, ids, tracked).events)
    ensures Dedup(violation, conf, supply, ids, tracked).ids == if violation then ids + TrackIds(tracked) else ids
  {
    if tracked != [] {
      var n := |tracked| - 1;
      var prev := Dedup(violation, conf, supply, ids, tracked[..n]);
      DedupIds(violation, conf, supply, ids, tracked[..n]);
      TrackIdsSnoc(tracked);
      if violation && tracked[n].id !in prev.ids {
        var e := EventFor(tracked[n], conf, supply(|prev.events|));
        IdsOfAppend(prev.events, [e]);
        assert IdsOf([e]) == {tracked[n].id};
      }
    }
  }

  /** A frame without a violation emits nothing and leaves the set as it was. */
  lemma {:induction false} DedupQuiet(conf: int, supply: nat -> Stamp, ids: set<int>, tracked: seq<TrackedBox>)
    ensures Dedup(false, conf, supply, ids, tracked) == DedupState([], ids)
  {
    if tracked != [] {
      DedupQuiet(conf, supply, ids, tracked[..|tracked| - 1]);
    }
  }

  /** The reference rows are in increasing order and are exactly the rows
      that satisfy Emits. */
  lemma {:induction false} OriginsCharacterised(violation: bool, ids: set<int>, tracked: seq<TrackedBox>)
    ensures forall k, l :: 0 <= k < l < |Origins(violation, ids, tracked)| ==>
      Origins(violation, ids, tracked)[k] < Origins(violation, ids, tracked)[l]
    ensures forall j :: 0 <= j < |tracked| ==> (j in Origins(violation, ids, tracked) <==> Emits(violation, ids, tracked, j))
  {
    if tracked != [] {
      var n := |tracked| - 1;
      OriginsCharacterised(violation, ids, tracked[..n]);
      forall j | 0 <= j < n
        ensures Emits(violation, ids, tracked[..n], j) == Emits(violation, ids, tracked, j)
      {
        assert forall i :: 0 <= i <= j ==> tracked[..n][i] == tracked[i];
      }
    }
  }

  /** The k-th message of the frame is built from the k-th emitting row, in
      tracker-output order: its position is the floor midpoint of that row's
      box, its status the constant, its confidence the frame's, and its id and
      time come from supply(k). */
  lemma {:induction false} DedupFollowsOrigins(violation: bool, conf: int, supply: nat -> Stamp, ids: set<int>, tracked: seq<TrackedBox>)
    ensures |Dedup(violation, conf, supply, ids, tracked).events| == |Origins(violation, ids, tracked)|
    ensures forall k :: 0 <= k < |Origins(violation, ids, tracked)| ==>
      Dedup(violation, conf, supply, ids, tracked).events[k] ==
      EventFor(tracked[Origins(violation, ids, tracked)[k]], conf, supply(k))
  {
    if tracked != [] {
      var n := |tracked| - 1;
      var pre := tracked[..n];
      var prev := Dedup(violation, conf, supply, ids, pre);
      var o := Origins(violation, ids, pre);
      DedupFollowsOrigins(violation, conf, supply, ids, pre);
      DedupIds(violation, conf, supply, ids, pre);
      InTrackIds(tracked, n, tracked[n].id);
      assert violation && tracked[n].id !in prev.ids <==> Emits(violation, ids, tracked, n);
      forall k | 0 <= k < |o| ensures pre[o[k]] == tracked[o[k]] {}
    }
  }

  /** At most one message per identity: no message is for an identity emitted
      before the frame, and no two messages of the frame share an identity. */
  lemma DedupAtMostOnce(violation: bool, conf: int, supply: nat -> Stamp, ids: set<int>, tracked: seq<TrackedBox>)
    ensures forall k :: 0 <= k < |Dedup(violation, conf, supply, ids, tracked).events| ==>
      Dedup(violation, conf, supply, ids, tracked).events[k].trackId !in ids
    ensures forall k, l :: 0 <= k < l < |Dedup(violation, conf, supply, ids, tracked).events| ==>
      Dedup(violation, conf, supply, ids, tracked).events[k].trackId != Dedup(violation, conf, supply, ids, tracked).events[l].trackId
  {
    var o := Origins(violation, ids, tracked);
    DedupFollowsOrigins(violation, conf, supply, ids, tracked);
    OriginsCharacterised(violation, ids, tracked);
    forall k | 0 <= k < |o| ensures Emits(violation, ids, tracked, o[k]) {
      assert o[k] in o;
    }
  }

  /** In a frame with a violation, every identity not emitted before gets a message. */
  lemma DedupEveryNewId(violation: bool, conf: int, supply: nat -> Stamp, ids: set<int>, tracked: seq<TrackedBox>)
    requires violation
    ensures forall j :: 0 <= j < |tracked| && tracked[j].id !in ids ==>
      exists k :: 0 <= k < |Dedup(violation, conf, supply, ids, tracked).events| &&
        Dedup(violation, conf, supply, ids, tracked).events[k].trackId == tracked[j].id
  {
    var d := Dedup(violation, conf, supply, ids, tracked);
    DedupIds(violation, conf, supply, ids, tracked);
    forall j | 0 <= j < |tracked| && tracked[j].id !in ids
      ensures exists k :: 0 <= k < |d.events| && d.events[k].trackId == tracked[j].id
    {
      assert tracked[j] in tracked;
      assert tracked[j].id in IdsOf(d.events);
      var e :| e in d.events && e.trackId == tracked[j].id;
      var k :| 0 <= k < |d.events| && d.events[k] == e;
    }
  }
}
