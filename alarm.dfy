/**
 * The alarm controller: a two-state machine (playing or not) that starts the
 * looping sound on a clean-to-violating frame, stops it on a
 * violating-to-clean frame, and does nothing otherwise.
 */
module Alarm {

  /** The call made on the sound in a frame: play(loops=-1), stop(), or none. */
  datatype AlarmAction = Start | Stop | Hold

  /** The action of one frame, given whether the alarm was playing and the frame flag. */
  function Step(playing: bool, violation: bool): (a: AlarmAction)
    ensures a == Start <==> !playing && violation
    ensures a == Stop <==> playing && !violation
  {
    if violation then (if playing then Hold else Start)
    else (if playing then Stop else Hold)
  }

  /** Whether the alarm is playing after a run of frames with these flags. */
  function After(playing: bool, flags: seq<bool>): bool {
    if flags == [] then playing else flags[|flags| - 1]
  }

  /** The calls made on the sound over a run of frames, in order. */
  function Calls(playing: bool, flags: seq<bool>): seq<AlarmAction> {
    if flags == [] then []
    else
      var n := |flags| - 1;
      var a := Step(After(playing, flags[..n]), flags[n]);
      Calls(playing, flags[..n]) + (if a == Hold then [] else [a])
  }

  function Repeat(v: bool, n: nat): seq<bool> {
    seq(n, _ => v)
  }

  /** Starts and stops strictly alternate, the first one is a transition away
      from the initial state, and the alarm plays after the run iff the last
      call was a start (or, with no call, iff it played before). */
  lemma {:induction false} CallsAlternate(playing: bool, flags: seq<bool>)
    ensures forall k :: 0 <= k < |Calls(playing, flags)| ==> Calls(playing, flags)[k] != Hold
    ensures forall k :: 0 <= k < |Calls(playing, flags)| - 1 ==> Calls(playing, flags)[k] != Calls(playing, flags)[k + 1]
    ensures Calls(playing, flags) != [] ==> Calls(playing, flags)[0] == (if playing then Stop else Start)
    ensures Calls(playing, flags) == [] ==> After(playing, flags) == playing
    ensures Calls(playing, flags) != [] ==>
      Calls(playing, flags)[|Calls(playing, flags)| - 1] == (if After(playing, flags) then Start else Stop)
  {
    if flags != [] {
      CallsAlternate(playing, flags[..|flags| - 1]);
    }
  }

  lemma CallsSnoc(playing: bool, flags: seq<bool>, v: bool)
    ensures Calls(playing, flags + [v]) ==
      Calls(playing, flags) + (if Step(After(playing, flags), v) == Hold then [] else [Step(After(playing, flags), v)])
    ensures After(playing, flags + [v]) == v
  {
  }

  /** A run splits at any point into the calls of its two halves. */
  lemma {:induction false} CallsAppend(playing: bool, a: seq<bool>, b: seq<bool>)
    ensures Calls(playing, a + b) == Calls(playing, a) + Calls(After(playing, a), b)
    ensures After(playing, a + b) == After(After(playing, a), b)
  {
    if b != [] {
      var n := |b| - 1;
      CallsAppend(playing, a, b[..n]);
      assert (a + b)[..|a + b| - 1] == a + b[..n];
    } else {
      assert a + b == a;
    }
  }

  /** A run of n equal flags makes one call, on its first frame, if the flag
      differs from the initial state, and none otherwise. */
  lemma {:induction false} CallsRepeat(playing: bool, v: bool, n: nat)
    ensures Calls(playing, Repeat(v, n)) == if n > 0 && playing != v then [Step(playing, v)] else []
    ensures After(playing, Repeat(v, n)) == if n > 0 then v else playing
  {
    if n > 0 {
      CallsRepeat(playing, v, n - 1);
      assert Repeat(v, n)[..n - 1] == Repeat(v, n - 1);
    }
  }

  /** n violating frames then m clean frames: one start if the alarm was
      silent and n > 0, and one stop if m > 0 and the alarm was sounding by
      then; nothing else. */
  lemma CallsBurst(playing: bool, n: nat, m: nat)
    ensures Calls(playing, Repeat(true, n) + Repeat(false, m)) ==
      (if n > 0 && !playing then [Start] else []) + (if m > 0 && (n > 0 || playing) then [Stop] else [])
  {
    CallsAppend(playing, Repeat(true, n), Repeat(false, m));
    CallsRepeat(playing, true, n);
    CallsRepeat(After(playing, Repeat(true, n)), false, m);
  }
}
