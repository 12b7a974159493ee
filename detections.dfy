/**
 * The violation filter of one frame: every raw detection is looked up in the
 * class table, and those of class "NO-Hardhat" whose rounded confidence is
 * above one half are forwarded to the tracker as rows [x1, y1, x2, y2, conf].
 */
module Detections {
  import opened Results

  /** A raw detection: box corners already truncated to integers, confidence
      already rounded up to hundredths (0..100), and the class index. */
  datatype Detection = Detection(x1: int, y1: int, x2: int, y2: int, conf: int, cls: int)

  /** One row of the tracker input. */
  datatype Row = Row(x1: int, y1: int, x2: int, y2: int, conf: int)

  const ClassNames: seq<string> :=
    ["Hardhat", "Mask", "NO-Hardhat", "NO-Mask", "NO-Safety Vest",
     "Person", "Safety Cone", "Safety Vest", "machinery", "vehicle"]

  const ViolationClass: string := "NO-Hardhat"

  /** Confidence threshold, in hundredths: a detection passes when conf > 0.5. */
  const Threshold: int := 50

  /** Indices that Python list indexing accepts: negative ones count from the end. */
  predicate KnownClass(cls: int) {
    -|ClassNames| <= cls < |ClassNames|
  }

  /** The class-table lookup; None stands for the IndexError an out-of-range index raises. */
  function ClassName(cls: int): (r: Option<string>)
    ensures r.Some? <==> KnownClass(cls)
    ensures r.Some? ==> r.value in ClassNames
  {
    if 0 <= cls < |ClassNames| then Some(ClassNames[cls])
    else if -|ClassNames| <= cls < 0 then Some(ClassNames[|ClassNames| + cls])
    else None
  }

  /** Exactly two indices name the violation class: 2, and -8 from the end. */
  lemma ViolationClassIndices(cls: int)
    ensures ClassName(cls) == Some(ViolationClass) <==> cls == 2 || cls == -8
  {
  }

  predicate IsViolation(d: Detection) {
    d.conf > Threshold && ClassName(d.cls) == Some(ViolationClass)
  }

  function ToRow(d: Detection): Row {
    Row(d.x1, d.y1, d.x2, d.y2, d.conf)
  }

  /** The tracker input a frame produces: the rows of its violating detections, in order. */
  function Forwarded(dets: seq<Detection>): seq<Row> {
    if dets == [] then []
    else
      var n := |dets| - 1;
      Forwarded(dets[..n]) + (if IsViolation(dets[n]) then [ToRow(dets[n])] else [])
  }

  /** The positions of the violating detections of a frame, in order. */
  function Passing(dets: seq<Detection>): (r: seq<nat>)
    ensures forall k :: 0 <= k < |r| ==> r[k] < |dets|
  {
    if dets == [] then []
    else
      var n := |dets| - 1;
      Passing(dets[..n]) + (if IsViolation(dets[n]) then [n] else [])
  }

  /** The frame-level "safety violation detected" flag. */
  predicate ViolationPresent(dets: seq<Detection>) {
    exists i :: 0 <= i < |dets| && IsViolation(dets[i])
  }

  predicate AllKnown(dets: seq<Detection>) {
    forall i :: 0 <= i < |dets| ==> KnownClass(dets[i].cls)
  }

  /** k is the position of the first detection whose class lookup fails. */
  predicate FirstUnknown(dets: seq<Detection>, k: int) {
    0 <= k < |dets| && !KnownClass(dets[k].cls) &&
    forall i :: 0 <= i < k ==> KnownClass(dets[i].cls)
  }

  /** What scanning a frame yields: the tracker input, the violation flag and
      the confidence of the last detection examined (None for an empty frame). */
  datatype Scan = Scan(rows: seq<Row>, violation: bool, lastConf: Option<int>)

  /** The IndexError raised by the class lookup, with the detection's position. */
  datatype ScanError = UnknownClass(index: nat, cls: int)

  lemma ScanStep(dets: seq<Detection>, i: nat)
    requires i < |dets|
    ensures Forwarded(dets[..i + 1]) == Forwarded(dets[..i]) + (if IsViolation(dets[i]) then [ToRow(dets[i])] else [])
    ensures ViolationPresent(dets[..i + 1]) == (ViolationPresent(dets[..i]) || IsViolation(dets[i]))
  {
    assert dets[..i + 1][..i] == dets[..i];
    assert dets[..i + 1][i] == dets[i];
    if ViolationPresent(dets[..i + 1]) && !IsViolation(dets[i]) {
      var j :| 0 <= j < i + 1 && IsViolation(dets[..i + 1][j]);
      assert dets[..i][j] == dets[j];
    }
  }

  /** Scans the detections of a frame in order, as the nested loop over the
      detector's results does, stopping at the first unknown class index. */
  method ScanFrame(dets: seq<Detection>) returns (r: Result<Scan, ScanError>)
    ensures r.Success? <==> AllKnown(dets)
    ensures r.Failure? ==> FirstUnknown(dets, r.error.index) && r.error.cls == dets[r.error.index].cls
    ensures r.Success? ==> r.value.rows == Forwarded(dets)
    ensures r.Success? ==> r.value.violation == ViolationPresent(dets)
    ensures r.Success? ==> r.value.lastConf == if dets == [] then None else Some(dets[|dets| - 1].conf)
  {
    var rows: seq<Row> := [];
    var violation := false;
    var conf: Option<int> := None;
    for i := 0 to |dets|
      invariant forall j :: 0 <= j < i ==> KnownClass(dets[j].cls)
      invariant rows == Forwarded(dets[..i])
      invariant violation == ViolationPresent(dets[..i])
      invariant conf == if i == 0 then None else Some(dets[i - 1].conf)
    {
      var d := dets[i];
      ScanStep(dets, i);
      conf := Some(d.conf);
      var name := ClassName(d.cls);
      if name.None? {
        return Failure(UnknownClass(i, d.cls));
      }
      if d.conf > Threshold && name.value == ViolationClass {
        violation := true;
        rows := rows + [Row(d.x1, d.y1, d.x2, d.y2, d.conf)];
      }
    }
    assert dets[..|dets|] == dets;
    return Success(Scan(rows, violation, conf));
  }

  /** The forwarded rows are exactly the rows of the violating detections,
      each once, in input order. */
  lemma {:induction false} ForwardedSelects(dets: seq<Detection>)
    ensures |Passing(dets)| == |Forwarded(dets)|
    ensures forall k :: 0 <= k < |Passing(dets)| ==> Forwarded(dets)[k] == ToRow(dets[Passing(dets)[k]])
    ensures forall k, l :: 0 <= k < l < |Passing(dets)| ==> Passing(dets)[k] < Passing(dets)[l]
    ensures forall i :: 0 <= i < |dets| ==> (i in Passing(dets) <==> IsViolation(dets[i]))
  {
    if dets != [] {
      var n := |dets| - 1;
      ForwardedSelects(dets[..n]);
      forall k | 0 <= k < |Passing(dets[..n])|
        ensures dets[..n][Passing(dets[..n])[k]] == dets[Passing(dets[..n])[k]]
      {
      }
    }
  }

  /** The flag is set iff at least one detection reached the tracker input. */
  lemma {:induction false} ViolationIffForwarded(dets: seq<Detection>)
    ensures ViolationPresent(dets) <==> Forwarded(dets) != []
  {
    if dets != [] {
      var n := |dets| - 1;
      ViolationIffForwarded(dets[..n]);
      if ViolationPresent(dets[..n]) {
        var i :| 0 <= i < n && IsViolation(dets[..n][i]);
        assert IsViolation(dets[i]);
      }
      if ViolationPresent(dets) && !IsViolation(dets[n]) {
        var i :| 0 <= i < |dets| && IsViolation(dets[i]);
        assert dets[..n][i] == dets[i];
      }
    }
  }
}
