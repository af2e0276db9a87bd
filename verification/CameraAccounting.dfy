/** Camera-off accounting and the effective duration of a stream (src/routes/service/serviceLive.js):
    a stored off-timestamp and a counter of uncounted seconds, against the sum over the maximal
    intervals during which the camera was off. Times are epoch milliseconds. */
module CameraAccounting {
  import opened Options

  const GRACE_SEC := 60

  datatype Toggle = Toggle(at: int, isCameraOn: bool)

  /** [from, until): the camera was switched off at `from` and next switched on (or the stream ended) at `until`. */
  datatype Interval = Interval(from: int, until: int)

  predicate InOrder(toggles: seq<Toggle>, from: int, until: int) {
    && from <= until
    && (forall i :: 0 <= i < |toggles| ==> from <= toggles[i].at <= until)
    && (forall i, j :: 0 <= i < j < |toggles| ==> toggles[i].at <= toggles[j].at)
  }

  /** The maximal off intervals of a history that begins at `since` switched off, or with the camera on. */
  function OffIntervals(since: Option<int>, toggles: seq<Toggle>, end: int): seq<Interval>
    decreases |toggles|
  {
    if toggles == [] then
      if since.Some? then [Interval(since.value, end)] else []
    else if since.Some? && toggles[0].isCameraOn then
      [Interval(since.value, toggles[0].at)] + OffIntervals(None, toggles[1..], end)
    else if since.None? && !toggles[0].isCameraOn then
      OffIntervals(Some(toggles[0].at), toggles[1..], end)
    else
      OffIntervals(since, toggles[1..], end)
  }

  /** The camera's state at time t: set by the last toggle at or before t; on before any. */
  function OffAt(off: bool, toggles: seq<Toggle>, t: int): bool
    decreases |toggles|
  {
    if toggles == [] || t < toggles[0].at then off else OffAt(!toggles[0].isCameraOn, toggles[1..], t)
  }

  predicate Covers(intervals: seq<Interval>, t: int) {
    exists k :: 0 <= k < |intervals| && intervals[k].from <= t < intervals[k].until
  }

  lemma CoversCons(i: Interval, rest: seq<Interval>, t: int)
    ensures Covers([i] + rest, t) <==> i.from <= t < i.until || Covers(rest, t)
  {
    if Covers(rest, t) {
      var k :| 0 <= k < |rest| && rest[k].from <= t < rest[k].until;
      assert ([i] + rest)[k + 1] == rest[k];
    }
    if i.from <= t < i.until {
      assert ([i] + rest)[0] == i;
    }
  }

  /** The intervals lie one after the other, with the camera on in between. */
  ghost predicate Separate(intervals: seq<Interval>, from: int) {
    && (forall k :: 0 <= k < |intervals| ==> from <= intervals[k].from <= intervals[k].until)
    && (forall k, l :: 0 <= k < l < |intervals| ==> intervals[k].until <= intervals[l].from)
  }

  lemma {:induction false} OffIntervalsFollow(since: Option<int>, toggles: seq<Toggle>, from: int, end: int)
    requires InOrder(toggles, from, end) && (since.Some? ==> since.value <= from)
    ensures Separate(OffIntervals(since, toggles, end), if since.Some? then since.value else from)
    decreases |toggles|
  {
    if toggles != [] {
      var t := toggles[0];
      assert InOrder(toggles[1..], t.at, end);
      var next := if t.isCameraOn then None else if since.Some? then since else Some(t.at);
      OffIntervalsFollow(next, toggles[1..], t.at, end);
    }
  }

  /** The intervals are right: an instant of the stream lies in one exactly when the camera is off then. */
  lemma {:induction false} IntervalsAreTheOffTimes(since: Option<int>, toggles: seq<Toggle>, from: int, end: int,
      t: int)
    requires InOrder(toggles, from, end) && (since.Some? ==> since.value <= from) && from <= t < end
    ensures Covers(OffIntervals(since, toggles, end), t) <==> OffAt(since.Some?, toggles, t)
    decreases |toggles|
  {
    if toggles == [] {
      if since.Some? {
        assert OffIntervals(since, [], end)[0] == Interval(since.value, end);
      }
    } else {
      var x, rest := toggles[0], toggles[1..];
      var next := if x.isCameraOn then None else if since.Some? then since else Some(x.at);
      assert InOrder(rest, x.at, end);
      if since.Some? && x.isCameraOn {
        CoversCons(Interval(since.value, x.at), OffIntervals(next, rest, end), t);
      }
      if x.at <= t {
        IntervalsAreTheOffTimes(next, rest, x.at, end, t);
      } else {
        OffIntervalsFollow(next, rest, x.at, end);
        if since.Some? && !x.isCameraOn {
          FirstIntervalBegins(next, rest, end);
          StaysOffUntil(next, rest, x.at, end, t);
        }
      }
    }
  }

  /** The interval ends with the stream or when the camera is switched on. */
  predicate EndsWhenOn(toggles: seq<Toggle>, end: int, i: Interval) {
    i.until == end || exists j :: 0 <= j < |toggles| && toggles[j].isCameraOn && toggles[j].at == i.until
  }

  /** The intervals are maximal: each ends with the stream or when the camera is switched on, so that switching it
      off again does not begin a new one with a new grace. */
  lemma {:induction false} IntervalsAreMaximal(since: Option<int>, toggles: seq<Toggle>, end: int)
    ensures forall k :: 0 <= k < |OffIntervals(since, toggles, end)| ==>
              EndsWhenOn(toggles, end, OffIntervals(since, toggles, end)[k])
    decreases |toggles|
  {
    if toggles != [] {
      var x, rest := toggles[0], toggles[1..];
      var next := if x.isCameraOn then None else if since.Some? then since else Some(x.at);
      IntervalsAreMaximal(next, rest, end);
      var later := OffIntervals(next, rest, end);
      forall k | 0 <= k < |later| ensures EndsWhenOn(toggles, end, later[k]) {
        if later[k].until != end {
          var j :| 0 <= j < |rest| && rest[j].isCameraOn && rest[j].at == later[k].until;
          assert toggles[j + 1] == rest[j];
        }
      }
      if since.Some? && x.isCameraOn {
        assert toggles[0].isCameraOn && OffIntervals(since, toggles, end) == [Interval(since.value, x.at)] + later;
      }
    }
  }

  lemma {:induction false} FirstIntervalBegins(since: Option<int>, toggles: seq<Toggle>, end: int)
    requires since.Some?
    ensures OffIntervals(since, toggles, end) != [] && OffIntervals(since, toggles, end)[0].from == since.value
    decreases |toggles|
  {
    if toggles != [] && !toggles[0].isCameraOn {
      FirstIntervalBegins(since, toggles[1..], end);
    }
  }

  lemma {:induction false} StaysOffUntil(since: Option<int>, toggles: seq<Toggle>, from: int, end: int, t: int)
    requires since.Some? && InOrder(toggles, from, end) && since.value <= t < from
    ensures Covers(OffIntervals(since, toggles, end), t)
    decreases |toggles|
  {
    if toggles == [] {
      assert OffIntervals(since, [], end)[0] == Interval(since.value, end);
    } else if toggles[0].isCameraOn {
      CoversCons(Interval(since.value, toggles[0].at), OffIntervals(None, toggles[1..], end), t);
    } else {
      assert InOrder(toggles[1..], toggles[0].at, end);
      StaysOffUntil(since, toggles[1..], toggles[0].at, end, t);
    }
  }

  // ----- The seconds that do not count -----

  function Uncounted(i: Interval): nat {
    var offSec := (i.until - i.from) / 1000;
    if offSec > GRACE_SEC then offSec - GRACE_SEC else 0
  }

  /** Of an off time every whole second beyond the first sixty is not counted. */
  lemma SecondsBeyondSixty(i: Interval)
    requires i.from <= i.until
    ensures i.until - i.from < 61000 ==> Uncounted(i) == 0
    ensures i.until - i.from >= 61000 ==> (Uncounted(i) + 60) * 1000 <= i.until - i.from < (Uncounted(i) + 61) * 1000
  {
  }

  lemma {:induction false} OneIntervalMore(intervals: seq<Interval>, i: Interval)
    requires i.from <= i.until
    ensures i.until - i.from < 61000 ==> TotalUncounted(intervals + [i]) == TotalUncounted(intervals)
    ensures i.until - i.from >= 61000 ==>
              var more := TotalUncounted(intervals + [i]) - TotalUncounted(intervals);
              (more + 60) * 1000 <= i.until - i.from < (more + 61) * 1000
    decreases |intervals|
  {
    SecondsBeyondSixty(i);
    if intervals == [] {
      assert [] + [i] == [i];
      assert TotalUncounted([i][1..]) == 0;
    } else {
      assert (intervals + [i])[0] == intervals[0] && (intervals + [i])[1..] == intervals[1..] + [i];
      OneIntervalMore(intervals[1..], i);
    }
  }

  function TotalUncounted(intervals: seq<Interval>): nat {
    if intervals == [] then 0 else Uncounted(intervals[0]) + TotalUncounted(intervals[1..])
  }

  /** The uncounted seconds of intervals within [from, until) fit into its whole seconds. */
  lemma {:induction false} UncountedFits(intervals: seq<Interval>, from: int, until: int)
    requires Separate(intervals, from) && from <= until
    requires intervals != [] ==> intervals[|intervals| - 1].until <= until
    ensures 1000 * TotalUncounted(intervals) <= until - from
    ensures TotalUncounted(intervals) <= (until - from) / 1000
  {
    if intervals != [] {
      var i, rest := intervals[0], intervals[1..];
      assert Separate(rest, i.until);
      UncountedFits(rest, i.until, until);
    }
  }

  lemma {:induction false} OffIntervalsEnd(since: Option<int>, toggles: seq<Toggle>, from: int, end: int)
    requires InOrder(toggles, from, end)
    ensures var intervals := OffIntervals(since, toggles, end);
            intervals != [] ==> intervals[|intervals| - 1].until <= end
    decreases |toggles|
  {
    if toggles != [] {
      var t := toggles[0];
      assert InOrder(toggles[1..], t.at, end);
      var next := if t.isCameraOn then None else if since.Some? then since else Some(t.at);
      OffIntervalsEnd(next, toggles[1..], t.at, end);
    }
  }

  function Max0(x: int): nat {
    if x > 0 then x else 0
  }

  // ----- The stream -----

  datatype Ended = Ended(grossSeconds: nat, uncountedSeconds: nat, effectiveSeconds: nat)

  class StreamCamera {
    var cameraOffAt: Option<int>
    var uncountedSeconds: nat

    constructor ()
      ensures cameraOffAt == None && uncountedSeconds == 0
    {
      cameraOffAt, uncountedSeconds := None, 0;
    }

    /** `handleCameraStateChangeService`. */
    method HandleCameraStateChange(isCameraOn: bool, now: int)
      modifies this
      ensures cameraOffAt == if isCameraOn then None else if old(cameraOffAt).Some? then old(cameraOffAt) else Some(now)
      ensures uncountedSeconds == old(uncountedSeconds) +
                if isCameraOn && old(cameraOffAt).Some? then Uncounted(Interval(old(cameraOffAt).value, now)) else 0
    {
      if !isCameraOn {
        if cameraOffAt.None? {
          cameraOffAt := Some(now);
        }
      } else if cameraOffAt.Some? {
        var offSec := (now - cameraOffAt.value) / 1000;
        if offSec > GRACE_SEC {
          uncountedSeconds := uncountedSeconds + (offSec - GRACE_SEC);
        }
        cameraOffAt := None;
      }
    }

    /** The winner's part of `endLiveStreamService`: close a running off interval, then the durations. */
    method EndStream(startedAt: int, endedAt: int) returns (ended: Ended)
      modifies this
      ensures cameraOffAt == None
      ensures uncountedSeconds ==
              old(uncountedSeconds) +
              if old(cameraOffAt).Some? then Uncounted(Interval(old(cameraOffAt).value, endedAt)) else 0
      ensures ended.grossSeconds == Max0((endedAt - startedAt) / 1000)
      ensures ended.uncountedSeconds == uncountedSeconds
      ensures ended.effectiveSeconds == Max0(ended.grossSeconds - ended.uncountedSeconds)
    {
      if cameraOffAt.Some? {
        var offSec := (endedAt - cameraOffAt.value) / 1000;
        if offSec > GRACE_SEC {
          uncountedSeconds := uncountedSeconds + (offSec - GRACE_SEC);
        }
        cameraOffAt := None;
      }
      var gross := Max0((endedAt - startedAt) / 1000);
      ended := Ended(gross, uncountedSeconds, Max0(gross - uncountedSeconds));
    }

    /** A whole stream: any toggles during its life, then its end. The counter is the sum over the maximal
        off intervals, it never exceeds the gross seconds, and the clamp at zero never bites. */
    method WholeStream(startedAt: int, toggles: seq<Toggle>, endedAt: int) returns (ended: Ended)
      requires InOrder(toggles, startedAt, endedAt)
      requires cameraOffAt == None && uncountedSeconds == 0
      modifies this
      ensures ended.uncountedSeconds == TotalUncounted(OffIntervals(None, toggles, endedAt))
      ensures ended.grossSeconds == (endedAt - startedAt) / 1000
      ensures ended.uncountedSeconds <= ended.grossSeconds
      ensures ended.effectiveSeconds == ended.grossSeconds - ended.uncountedSeconds
    {
      for i := 0 to |toggles|
        invariant uncountedSeconds + TotalUncounted(OffIntervals(cameraOffAt, toggles[i..], endedAt))
                  == TotalUncounted(OffIntervals(None, toggles, endedAt))
      {
        assert toggles[i..][1..] == toggles[i + 1..];
        HandleCameraStateChange(toggles[i].isCameraOn, toggles[i].at);
      }
      OffIntervalsFollow(None, toggles, startedAt, endedAt);
      OffIntervalsEnd(None, toggles, startedAt, endedAt);
      UncountedFits(OffIntervals(None, toggles, endedAt), startedAt, endedAt);
      ended := EndStream(startedAt, endedAt);
    }
  }
}
