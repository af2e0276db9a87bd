/** The host heartbeat of a live stream (src/routes/service/serviceHeartbeat.js and heartbeatPolicy.js): a
    Redis key that expires, and a monitor that decides as if it remembered the last ping for ever.
    Times are epoch milliseconds. */
module Heartbeat {
  import opened Options

  datatype Verdict = Alive | KeepAlive | Paused | End

  /** `heartbeatVerdict`. A heartbeat time of zero counts as none. */
  function HeartbeatVerdict(now: int, ageMs: int, last: Option<int>, timeoutMs: int, startGraceMs: int, paused: bool,
      hostInLiveKit: bool): Verdict {
    if ageMs < startGraceMs then Alive
    else
      var sinceLastPing := if last.Some? && last.value != 0 then now - last.value else ageMs;
      if sinceLastPing <= timeoutMs then Alive
      else if hostInLiveKit then KeepAlive
      else if paused then Paused
      else End
  }

  /** HEARTBEAT_KEY_TTL_SEC, in milliseconds: the timeout rounded up to seconds, plus 15 s. */
  function KeyTtlMs(timeoutMs: nat): nat {
    ((timeoutMs + 999) / 1000 + 15) * 1000
  }

  /** What a read at `readAt` finds of a ping stored at `setAt`. */
  function ReadKey(ping: int, setAt: int, readAt: int, timeoutMs: nat): Option<int> {
    if readAt < setAt + KeyTtlMs(timeoutMs) then Some(ping) else None
  }

  /** The verdict on what the key still holds is the verdict on the ping itself. */
  predicate Agrees(timeoutMs: nat, startGraceMs: nat, now: int, readAt: int, startedAt: int, ping: int, setAt: int,
      paused: bool, hostInLiveKit: bool) {
    HeartbeatVerdict(now, now - startedAt, ReadKey(ping, setAt, readAt, timeoutMs), timeoutMs, startGraceMs, paused,
        hostInLiveKit)
    == HeartbeatVerdict(now, now - startedAt, Some(ping), timeoutMs, startGraceMs, paused, hostInLiveKit)
  }

  /** A monitor tick that reads the key `lag` after the clock it judges by gives the verdict of one that
      remembers every ping, for all streams pinged since their start. */
  ghost predicate AgreesAtLag(timeoutMs: nat, startGraceMs: nat, lag: nat) {
    forall now: int, startedAt: int, ping: int, setAt: int, readAt: int, paused: bool, hostInLiveKit: bool ::
      0 < startedAt <= ping <= setAt && readAt == now + lag ==>
        Agrees(timeoutMs, startGraceMs, now, readAt, startedAt, ping, setAt, paused, hostInLiveKit)
  }

  lemma ReadInTimeAgrees(timeoutMs: nat, startGraceMs: nat, now: int, readAt: int, startedAt: int, ping: int,
      setAt: int, paused: bool, hostInLiveKit: bool)
    requires 0 < startedAt <= ping <= setAt && readAt - now < KeyTtlMs(timeoutMs) - timeoutMs
    ensures Agrees(timeoutMs, startGraceMs, now, readAt, startedAt, ping, setAt, paused, hostInLiveKit)
  {
    if !(readAt < setAt + KeyTtlMs(timeoutMs)) {
      assert now - ping > timeoutMs;
    }
  }

  /** The expiring key is as good as a memory exactly when the tick reads it within the TTL's margin over
      the timeout, which is at least 15 s. */
  lemma ExpiringKeyAgreesIffReadInTime(timeoutMs: nat, startGraceMs: nat, lag: nat)
    ensures AgreesAtLag(timeoutMs, startGraceMs, lag) <==> lag < KeyTtlMs(timeoutMs) - timeoutMs
    ensures 15000 <= KeyTtlMs(timeoutMs) - timeoutMs < 16000
  {
    if lag < KeyTtlMs(timeoutMs) - timeoutMs {
      forall now: int, startedAt: int, ping: int, setAt: int, readAt: int, paused: bool, hostInLiveKit: bool
        | 0 < startedAt <= ping <= setAt && readAt == now + lag
        ensures Agrees(timeoutMs, startGraceMs, now, readAt, startedAt, ping, setAt, paused, hostInLiveKit)
      {
        ReadInTimeAgrees(timeoutMs, startGraceMs, now, readAt, startedAt, ping, setAt, paused, hostInLiveKit);
      }
    } else {
      var ping := 2 + startGraceMs;
      var now := ping + timeoutMs;
      assert !Agrees(timeoutMs, startGraceMs, now, now + lag, 1, ping, ping, false, false);
    }
  }

  /** Pings and keepalives were recorded one after the other. */
  predicate InOrder(heard: seq<int>) {
    forall i, j :: 0 <= i < j < |heard| ==> heard[i] <= heard[j]
  }

  function Last(heard: seq<int>): Option<int> {
    if heard == [] then None else Some(heard[|heard| - 1])
  }

  /** Nothing was heard of the host in the timeout before `now`, in all the history of the stream. */
  predicate Silent(heard: seq<int>, now: int, ageMs: int, timeoutMs: int) {
    (heard == [] ==> ageMs > timeoutMs) && forall i :: 0 <= i < |heard| ==> now - heard[i] > timeoutMs
  }

  /** With the last ping remembered, a stream is ended exactly when it is past its grace, nothing was heard
      of its host for longer than the timeout, and the host is neither in the room nor paused. */
  lemma EndsIffSilent(heard: seq<int>, now: int, ageMs: int, timeoutMs: int, startGraceMs: int, paused: bool,
      hostInLiveKit: bool)
    requires InOrder(heard) && forall i :: 0 <= i < |heard| ==> heard[i] > 0
    ensures HeartbeatVerdict(now, ageMs, Last(heard), timeoutMs, startGraceMs, paused, hostInLiveKit) == End
            <==> ageMs >= startGraceMs && Silent(heard, now, ageMs, timeoutMs) && !paused && !hostInLiveKit
    // A silent host in the room keeps its stream and counts as heard, also when paused; a paused one keeps it only.
    ensures HeartbeatVerdict(now, ageMs, Last(heard), timeoutMs, startGraceMs, paused, hostInLiveKit) == KeepAlive
            <==> ageMs >= startGraceMs && Silent(heard, now, ageMs, timeoutMs) && hostInLiveKit
    ensures HeartbeatVerdict(now, ageMs, Last(heard), timeoutMs, startGraceMs, paused, hostInLiveKit) == Paused
            <==> ageMs >= startGraceMs && Silent(heard, now, ageMs, timeoutMs) && paused && !hostInLiveKit
  {
    if heard != [] {
      var last := heard[|heard| - 1];
      assert forall i :: 0 <= i < |heard| ==> heard[i] <= last;
      assert Silent(heard, now, ageMs, timeoutMs) <==> now - last > timeoutMs;
    }
  }

  /** The read comes within the TTL's margin over the timeout after the clock was read. */
  predicate InMargin(now: int, readAt: int, timeoutMs: nat) {
    readAt - now < KeyTtlMs(timeoutMs) - timeoutMs
  }

  datatype Key = Key(timestamp: int, setAt: int)

  function Found(key: Option<Key>, readAt: int, timeoutMs: nat): Option<int> {
    if key.Some? then ReadKey(key.value.timestamp, key.value.setAt, readAt, timeoutMs) else None
  }

  /** One stream's heartbeat key, with a record of all pings and keepalives that never expires. */
  class StreamHeartbeat {
    const startedAt: int
    const timeoutMs: nat
    const startGraceMs: nat
    var key: Option<Key>
    ghost var heard: seq<int>

    ghost predicate Valid()
      reads this
    {
      && 0 < startedAt
      && (key.None? <==> heard == [])
      && (key.Some? ==> Last(heard) == Some(key.value.timestamp) && key.value.timestamp <= key.value.setAt)
      && forall i :: 0 <= i < |heard| ==> startedAt <= heard[i]
    }

    constructor (startedAt: int, timeoutMs: nat, startGraceMs: nat)
      requires 0 < startedAt
      ensures Valid() && heard == []
      ensures this.startedAt == startedAt && this.timeoutMs == timeoutMs && this.startGraceMs == startGraceMs
    {
      this.startedAt, this.timeoutMs, this.startGraceMs := startedAt, timeoutMs, startGraceMs;
      key, heard := None, [];
    }

    /** `recordStreamHeartbeat`: the clock is read, then the key is set. */
    method RecordStreamHeartbeat(now: int, setAt: int)
      requires Valid() && startedAt <= now <= setAt
      modifies this
      ensures Valid() && heard == old(heard) + [now] && key == Some(Key(now, setAt))
    {
      key := Some(Key(now, setAt));
      heard := heard + [now];
    }

    /** The heartbeat part of `checkStream`. Over every history of pings and ticks, the verdict of a tick that
        reads the key within the TTL's margin after its clock is the one of a monitor that remembers the last
        ping, so that a stream is ended exactly after a silence. A later tick may find the key expired: then
        it judges by the stream's age. A keepalive counts as a ping. */
    method CheckStream(now: int, readAt: int, paused: bool, hostInLiveKit: bool, recordedAt: int)
        returns (verdict: Verdict)
      requires Valid() && startedAt <= recordedAt && now <= recordedAt
      modifies this
      ensures Valid()
      ensures InMargin(now, readAt, timeoutMs) ==>
                verdict ==
                HeartbeatVerdict(now, now - startedAt, Last(old(heard)), timeoutMs, startGraceMs, paused, hostInLiveKit)
      ensures InMargin(now, readAt, timeoutMs) && InOrder(old(heard)) ==>
                (verdict == End <==> && now - startedAt >= startGraceMs && !paused && !hostInLiveKit
                                     && Silent(old(heard), now, now - startedAt, timeoutMs))
      ensures heard == if verdict == KeepAlive then old(heard) + [recordedAt] else old(heard)
      ensures verdict != KeepAlive ==> key == old(key)
      ensures verdict == HeartbeatVerdict(now, now - startedAt, Found(old(key), readAt, timeoutMs), timeoutMs,
                                          startGraceMs, paused, hostInLiveKit)
    {
      ghost var past := heard;
      if InOrder(past) {
        EndsIffSilent(past, now, now - startedAt, timeoutMs, startGraceMs, paused, hostInLiveKit);
      }
      var ageMs := now - startedAt;
      if ageMs < startGraceMs {
        return Alive;
      }
      var last := Found(key, readAt, timeoutMs);
      if key.Some? && InMargin(now, readAt, timeoutMs) {
        var ping, setAt := key.value.timestamp, key.value.setAt;
        ReadInTimeAgrees(timeoutMs, startGraceMs, now, readAt, startedAt, ping, setAt, paused, hostInLiveKit);
      }
      verdict := HeartbeatVerdict(now, ageMs, last, timeoutMs, startGraceMs, paused, hostInLiveKit);
      if verdict == KeepAlive {
        RecordStreamHeartbeat(recordedAt, recordedAt);
      }
    }
  }
}
