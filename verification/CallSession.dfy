/** One video-call session row and everything that may end it (src/modules/videoCall/service.js).
    Each database command is atomic; between two commands of one request, any commands of other
    requests may run. */
module CallSession {
  import opened Options

  datatype Status = RINGING | ACTIVE | ENDED | MISSED | REJECTED {
    predicate Live() {
      this == RINGING || this == ACTIVE
    }

    /** How far a session has come; no command takes it back. */
    function Progress(): nat {
      if RINGING? then 0 else if ACTIVE? then 1 else 2
    }
  }

  type User = string

  datatype End = End(at: int, reason: string)

  datatype Session = Session(callerId: User, creatorId: User, status: Status, minsCharged: nat, end: Option<End>)

  /** The atomic commands on the row: the ledger's accept and minute charge, and the conditional
      updates of reject, end and the reset route. `EndUpdate` carries the status its caller has read. */
  datatype Command =
    | Accept
    | ChargeMinute(minute: nat)
    | Reject(at: int)
    | EndUpdate(seen: Status, end: End)
    | Reset(at: int)

  /** The command finds the row in a state it applies to. */
  predicate Hits(s: Session, c: Command) {
    match c
    case Accept => s.status == RINGING
    case ChargeMinute(m) => s.status == ACTIVE && m == s.minsCharged + 1
    case Reject(_) => s.status == RINGING
    case EndUpdate(seen, _) => s.status == seen && seen.Live()
    case Reset(_) => s.status.Live()
  }

  function Step(s: Session, c: Command): Session {
    if !Hits(s, c) then s else
    match c
    case Accept => s.(status := ACTIVE, minsCharged := 1)
    case ChargeMinute(m) => s.(minsCharged := m)
    case Reject(at) => s.(status := REJECTED, end := Some(End(at, "REJECTED_BY_RECEIVER")))
    case EndUpdate(seen, end) => s.(status := if seen == RINGING then MISSED else ENDED, end := Some(end))
    case Reset(at) => s.(status := ENDED, end := Some(End(at, "TEST_RESET")))
  }

  function Run(s: Session, trace: seq<Command>): Session
    decreases |trace|
  {
    if trace == [] then s else Run(Step(s, trace[0]), trace[1..])
  }

  /** The commands of the trace that finished the session, one entry for each. */
  function Finishers(s: Session, trace: seq<Command>): seq<Command>
    decreases |trace|
  {
    if trace == [] then []
    else
      (if Hits(s, trace[0]) && !trace[0].Accept? && !trace[0].ChargeMinute? then [trace[0]] else [])
      + Finishers(Step(s, trace[0]), trace[1..])
  }

  /** Command `i` of the trace took effect and ended the session. */
  predicate WinsAt(s: Session, trace: seq<Command>, i: nat) {
    i < |trace| && trace[i].EndUpdate? && Hits(Run(s, trace[..i]), trace[i])
  }

  /** A session as initiate creates it. */
  predicate Fresh(s: Session) {
    s.status == RINGING && s.minsCharged == 0 && s.end == None
  }

  predicate Consistent(s: Session) {
    && (s.status == RINGING ==> s.minsCharged == 0)
    && (s.status == ACTIVE ==> s.minsCharged > 0)
    && (s.status in {MISSED, REJECTED} ==> s.minsCharged == 0)
    && (s.status.Live() <==> s.end == None)
  }

  // ----- Laws of all traces -----

  lemma {:induction false} RunAppend(s: Session, t: seq<Command>, u: seq<Command>)
    ensures Run(s, t + u) == Run(Run(s, t), u)
    decreases |t|
  {
    if t == [] {
      assert t + u == u;
    } else {
      assert (t + u)[1..] == t[1..] + u;
      RunAppend(Step(s, t[0]), t[1..], u);
    }
  }

  lemma {:induction false} RunForward(s: Session, trace: seq<Command>)
    ensures s.status.Progress() <= Run(s, trace).status.Progress()
    ensures Run(s, trace).status.Progress() == s.status.Progress() ==> Run(s, trace).status == s.status
    ensures !s.status.Live() ==> Run(s, trace) == s
    ensures Consistent(s) ==> Consistent(Run(s, trace))
    ensures (Run(s, trace).callerId, Run(s, trace).creatorId) == (s.callerId, s.creatorId)
    decreases |trace|
  {
    if trace != [] {
      RunForward(Step(s, trace[0]), trace[1..]);
    }
  }

  lemma {:induction false} OneFinisher(s: Session, trace: seq<Command>)
    requires Consistent(s)
    ensures |Finishers(s, trace)| <= 1
    ensures |Finishers(s, trace)| == 1 <==> s.status.Live() && !Run(s, trace).status.Live()
    decreases |trace|
  {
    if trace != [] {
      OneFinisher(Step(s, trace[0]), trace[1..]);
      RunForward(Step(s, trace[0]), trace[1..]);
    }
  }

  function EndWritten(c: Command): Option<End> {
    match c
    case EndUpdate(_, end) => Some(end)
    case Reject(at) => Some(End(at, "REJECTED_BY_RECEIVER"))
    case Reset(at) => Some(End(at, "TEST_RESET"))
    case Accept | ChargeMinute(_) => None
  }

  /** What the trace leaves in the row is what its finisher wrote. */
  lemma {:induction false} FinisherIsRecorded(s: Session, trace: seq<Command>)
    requires Consistent(s) && Finishers(s, trace) != []
    ensures Run(s, trace).end == EndWritten(Finishers(s, trace)[0])
    ensures Run(s, trace).status == MISSED ==> Finishers(s, trace)[0].EndUpdate? && Run(s, trace).minsCharged == 0
    ensures Run(s, trace).status == REJECTED ==> Finishers(s, trace)[0].Reject? && Run(s, trace).minsCharged == 0
    decreases |trace|
  {
    var s' := Step(s, trace[0]);
    if s'.status.Live() {
      FinisherIsRecorded(s', trace[1..]);
    } else {
      RunForward(s', trace[1..]);
      OneFinisher(s', trace[1..]);
    }
  }

  /** However many ends, rejects, accepts and resets race on one session, at most one end wins. */
  lemma AtMostOneWinner(s: Session, trace: seq<Command>, i: nat, j: nat)
    requires WinsAt(s, trace, i) && WinsAt(s, trace, j)
    ensures i == j
  {
    if i < j {
      LoserAfterWinner(s, trace, i, j);
    } else if j < i {
      LoserAfterWinner(s, trace, j, i);
    }
  }

  lemma LoserAfterWinner(s: Session, trace: seq<Command>, i: nat, j: nat)
    requires WinsAt(s, trace, i) && i < j < |trace|
    ensures !WinsAt(s, trace, j)
  {
    var after := Step(Run(s, trace[..i]), trace[i]);
    assert trace[..j] == trace[..i] + trace[i..j];
    RunAppend(s, trace[..i], trace[i..j]);
    assert trace[i..j][0] == trace[i] && trace[i..j][1..] == trace[i + 1..j];
    RunForward(after, trace[i + 1..j]);
  }

  /** A session that was ever accepted, so billed, never ends up MISSED or REJECTED; one that ends
      up MISSED or REJECTED was never charged a minute. */
  lemma BilledIsNeverMissed(s: Session, trace: seq<Command>, i: nat)
    requires Fresh(s) && i < |trace|
    requires trace[i].Accept? && Hits(Run(s, trace[..i]), trace[i])
    ensures Run(s, trace).status in {ACTIVE, ENDED} && Run(s, trace).minsCharged > 0
  {
    var after := Step(Run(s, trace[..i]), trace[i]);
    assert trace == trace[..i] + trace[i..];
    RunAppend(s, trace[..i], trace[i..]);
    assert trace[i..][0] == trace[i] && trace[i..][1..] == trace[i + 1..];
    RunForward(s, trace[..i]);
    RunForward(after, trace[i + 1..]);
    ChargesNeverDrop(after, trace[i + 1..]);
  }

  lemma {:induction false} ChargesNeverDrop(s: Session, trace: seq<Command>)
    requires Consistent(s)
    ensures s.minsCharged <= Run(s, trace).minsCharged
    decreases |trace|
  {
    if trace != [] {
      ChargesNeverDrop(Step(s, trace[0]), trace[1..]);
    }
  }

  /** The first command that reaches a fresh session decides what becomes of it, whatever follows. */
  lemma FirstDecides(s: Session, trace: seq<Command>)
    requires Fresh(s) && trace != []
    ensures trace[0].Accept? ==> Run(s, trace).status in {ACTIVE, ENDED} && Run(s, trace).minsCharged > 0
    ensures trace[0].Reject? ==>
            Run(s, trace) == s.(status := REJECTED, end := Some(End(trace[0].at, "REJECTED_BY_RECEIVER")))
    ensures trace[0].Reset? ==> Run(s, trace) == s.(status := ENDED, end := Some(End(trace[0].at, "TEST_RESET")))
    ensures trace[0].EndUpdate? && trace[0].seen == RINGING ==>
            Run(s, trace) == s.(status := MISSED, end := Some(trace[0].end))
  {
    var s' := Step(s, trace[0]);
    RunForward(s', trace[1..]);
    ChargesNeverDrop(s', trace[1..]);
  }

  /** An accepted session is charged minute after minute, and ends as ENDED under what its end recorded. */
  lemma {:induction false} ChargedInOrder(s: Session, n: nat, end: End)
    requires s.status == ACTIVE && s.minsCharged > 0
    ensures Run(s, seq(n, (i: nat) => ChargeMinute(s.minsCharged + 1 + i))) == s.(minsCharged := s.minsCharged + n)
    ensures Run(s, [EndUpdate(ACTIVE, end)]) == s.(status := ENDED, end := Some(end))
    decreases n
  {
    assert Run(Step(s, EndUpdate(ACTIVE, end)), [EndUpdate(ACTIVE, end)][1..]) == Step(s, EndUpdate(ACTIVE, end));
    if n > 0 {
      var s' := Step(s, ChargeMinute(s.minsCharged + 1));
      var all := seq(n, (i: nat) => ChargeMinute(s.minsCharged + 1 + i));
      var rest := seq(n - 1, (i: nat) => ChargeMinute(s'.minsCharged + 1 + i));
      assert all[1..] == rest && all[0] == ChargeMinute(s.minsCharged + 1);
      ChargedInOrder(s', n - 1, end);
    }
  }

  // ----- The requests, with other requests running at every await -----

  const SYSTEM_END_REASONS: set<string> :=
    {"HEARTBEAT_LOST", "INSUFFICIENT_BALANCE", "RINGING_TIMEOUT", "TEST_RESET", "SYSTEM_RESET",
     "ROOM_FINISHED_WEBHOOK", "VIOLATION_NUDITY"}

  /** The participants may end a call; without a user, only a system reason may. */
  predicate MayEnd(s: Session, userId: Option<User>, reason: string) {
    match userId
    case None => reason in SYSTEM_END_REASONS
    case Some(u) => s.callerId == u || s.creatorId == u
  }

  datatype Attempt = Over | NotAllowed | Updated(seen: Status, hit: bool)

  datatype EndResult = AlreadyOver | Unauthorized | Won(session: Session)

  /** The row of one session id in the database; None when there is no such session. */
  class SessionRow {
    var row: Option<Session>

    predicate Valid()
      reads this
    {
      row.Some? ==> Consistent(row.value)
    }

    constructor (row: Option<Session>)
      ensures this.row == row
    {
      this.row := row;
    }

    /** An await: other requests' commands reach the row. */
    method Await(others: seq<Command>)
      requires Valid()
      modifies this
      ensures Valid()
      ensures row.Some? == old(row).Some?
      ensures row.Some? ==> row.value == Run(old(row).value, others)
    {
      if row.Some? {
        RunForward(row.value, others);
        row := Some(Run(row.value, others));
      }
    }

    /** `updateMany` with the read status in its condition. */
    method UpdateWhereStatus(seen: Status, end: End) returns (count: nat)
      requires Valid() && row.Some? && seen.Live()
      modifies this
      ensures Valid() && row.Some? && row.value == Step(old(row).value, EndUpdate(seen, end))
      ensures count == if old(row).value.status == seen then 1 else 0
    {
      if row.value.status == seen {
        row := Some(row.value.(status := if seen == RINGING then MISSED else ENDED, end := Some(end)));
        count := 1;
      } else {
        count := 0;
      }
    }

    /** One attempt of `endCall`: read the row, then update it under the status just read. */
    method EndAttempt(userId: Option<User>, reason: string, end: End, beforeRead: seq<Command>,
        beforeUpdate: seq<Command>)
      returns (outcome: Attempt)
      requires Valid() && row.Some?
      modifies this
      ensures Valid() && row.Some?
      ensures var read := Run(old(row).value, beforeRead);
              match outcome
              case Over => row.value == read && !read.status.Live()
              case NotAllowed => row.value == read && !MayEnd(read, userId, reason)
              case Updated(seen, hit) =>
                && seen == read.status && MayEnd(read, userId, reason) && read.status.Live()
                && row.value == Step(Run(read, beforeUpdate), EndUpdate(read.status, end))
                && hit == Hits(Run(read, beforeUpdate), EndUpdate(read.status, end))
                && (!hit ==> row.value.status.Progress() > read.status.Progress())
      ensures beforeRead == beforeUpdate == [] && old(row).value.status.Live()
              && MayEnd(old(row).value, userId, reason) ==>
                outcome.Updated? && outcome.hit
    {
      Await(beforeRead);
      var session := row.value;
      if !session.status.Live() {
        return Over;
      }
      if !MayEnd(session, userId, reason) {
        return NotAllowed;
      }
      RunForward(session, beforeUpdate);
      Await(beforeUpdate);
      var count := UpdateWhereStatus(session.status, end);
      return Updated(session.status, count == 1);
    }

    /** An attempt within a call that has sent `trace` so far, its own updates at `mine` without success. */
    method TryToEnd(ghost s0: Session, trace: seq<Command>, mine: seq<nat>, userId: Option<User>, reason: string,
        end: End, beforeRead: seq<Command>, beforeUpdate: seq<Command>)
      returns (outcome: Attempt, longer: seq<Command>, tried: seq<nat>)
      requires Valid() && row.Some? && row.value == Run(s0, trace) && Consistent(s0) && AllLost(s0, trace, mine)
      modifies this
      ensures Valid() && row.Some? && row.value == Run(s0, longer)
      ensures Run(s0, trace).status.Progress() <= row.value.status.Progress()
      ensures outcome.Over? ==> !row.value.status.Live()
      ensures beforeRead == beforeUpdate == [] && old(row).value.status.Live() && MayEnd(s0, userId, reason) ==>
                outcome.Updated? && outcome.hit
      ensures outcome.NotAllowed? ==> !MayEnd(row.value, userId, reason)
      ensures outcome.Updated? ==> EndsWithUpdate(s0, longer, EndUpdate(outcome.seen, end), outcome.hit)
                                   && MayEnd(s0, userId, reason) && tried == mine + [|longer| - 1]
      ensures !outcome.Updated? ==> tried == mine
      ensures Updates(longer, tried)
      ensures !(outcome.Updated? && outcome.hit) ==> AllLost(s0, longer, tried)
      ensures outcome.Updated? && !outcome.hit ==> Run(s0, trace).status.Progress() < row.value.status.Progress()
    {
      SameParticipants(s0, trace, userId, reason);
      RunForward(s0, trace + beforeRead);
      RunForward(row.value, beforeRead);
      StillLost(s0, trace, beforeRead, mine);
      outcome := EndAttempt(userId, reason, end, beforeRead, beforeUpdate);
      longer, tried := trace + beforeRead, mine;
      if outcome.Updated? {
        ghost var c := EndUpdate(outcome.seen, end);
        StillLost(s0, longer, beforeUpdate, mine);
        longer := longer + beforeUpdate;
        OwnUpdate(s0, longer, c, mine);
        assert (longer + [c])[..|longer|] == longer;
        tried := mine + [|longer|];
        longer := longer + [EndUpdate(outcome.seen, end)];
      }
    }

    /** The attempts of `endCall`. `others(k)` are the commands of other requests at its k-th await; `trace` is what
        reached the row, its own updates included, `mine` the positions of those in the trace. */
    method EndByAttempts(userId: Option<User>, reason: string, now: int, endedAtOverride: Option<int>,
        others: nat -> seq<Command>)
      returns (result: EndResult, trace: seq<Command>, mine: seq<nat>)
      requires Valid()
      modifies this
      ensures Valid() && row.Some? == old(row).Some?
      ensures row.Some? ==> row.value == Run(old(row).value, trace)
      // Two attempts always suffice: without a result, the session does not exist or is over.
      ensures result.AlreadyOver? ==> row.None? || !row.value.status.Live()
      // The one winner is told so, and its end is the one recorded.
      ensures Updates(trace, mine)
      ensures result.Won? <==> old(row).Some? && exists k :: 0 <= k < |mine| && WinsAt(old(row).value, trace, mine[k])
      ensures result.Won? ==> row == Some(result.session) && MayEnd(result.session, userId, reason)
      ensures result.Won? ==>
              result.session.end == Some(End(if endedAtOverride.Some? then endedAtOverride.value else now, reason))
      ensures result.Won? ==> result.session.status == if result.session.minsCharged == 0 then MISSED else ENDED
      ensures (forall k :: others(k) == []) && old(row).Some? ==>
                old(row).value.status.Live() && MayEnd(old(row).value, userId, reason) ==> result.Won?
      // Whoever may not end the call changes nothing.
      ensures result.Unauthorized? ==> row.Some? && !MayEnd(row.value, userId, reason)
      ensures old(row).Some? && !MayEnd(old(row).value, userId, reason) ==> mine == [] && !result.Won?
    {
      trace, mine := [], [];
      if row.None? {
        return AlreadyOver, trace, mine;
      }
      ghost var s0 := row.value;
      var end := End(if endedAtOverride.Some? then endedAtOverride.value else now, reason);
      for attempt := 0 to 2
        invariant Valid() && row.Some? && row.value == Run(s0, trace)
        invariant row.value.status.Progress() >= attempt
        invariant mine == [] || MayEnd(s0, userId, reason)
        invariant AllLost(s0, trace, mine)
        invariant (forall k :: others(k) == []) && s0.status.Live() && MayEnd(s0, userId, reason) ==>
                  attempt == 0 && trace == []
      {
        var outcome;
        var beforeRead, beforeUpdate := others(3 * attempt), others(3 * attempt + 1);
        outcome, trace, mine := TryToEnd(s0, trace, mine, userId, reason, end, beforeRead, beforeUpdate);
        match outcome {
          case Over =>
            return AlreadyOver, trace, mine;
          case NotAllowed =>
            SameParticipants(s0, trace, userId, reason);
            return Unauthorized, trace, mine;
          case Updated(seen, hit) =>
            if hit {
              var after := others(3 * attempt + 2);
              WonForGood(s0, trace, EndUpdate(seen, end), after);
              Await(after);
              assert Updates(trace + after, mine);
              trace := trace + after;
              assert WinsAt(s0, trace, mine[|mine| - 1]);
              return Won(row.value), trace, mine;
            }
        }
      }
      return AlreadyOver, trace, mine;
    }

    /** `endCall`. `others(k)` are the commands of other requests at its k-th await; `trace` is what
        reached the row, its own updates included, `mine` the positions of those in the trace. */
    method EndCall(userId: Option<User>, reason: string, now: int, endedAtOverride: Option<int>,
        others: nat -> seq<Command>)
      returns (result: EndResult, trace: seq<Command>, mine: seq<nat>)
      requires Valid()
      modifies this
      ensures Valid() && row.Some? == old(row).Some?
      ensures row.Some? ==> row.value == Run(old(row).value, trace)
      // Two attempts always suffice: without a result, the session does not exist or is over.
      ensures result.AlreadyOver? ==> row.None? || !row.value.status.Live()
      // The one winner is told so, and its end is the one recorded.
      ensures Updates(trace, mine)
      ensures result.Won? <==> old(row).Some? && exists k :: 0 <= k < |mine| && WinsAt(old(row).value, trace, mine[k])
      ensures result.Won? ==> row == Some(result.session) && MayEnd(result.session, userId, reason)
      ensures result.Won? ==>
              result.session.end == Some(End(if endedAtOverride.Some? then endedAtOverride.value else now, reason))
      ensures result.Won? ==> result.session.status == if result.session.minsCharged == 0 then MISSED else ENDED
      // Its caller and its callee may end a live call, and so may the system for its own reasons.
      ensures (forall k :: others(k) == []) && old(row).Some? ==>
                var s := old(row).value;
                s.status in {RINGING, ACTIVE} && EndsFor(s.callerId, s.creatorId, userId, reason) ==> result.Won?
      // Nobody else may, and nobody else is refused.
      ensures result.Unauthorized? ==> row.Some? && !EndsFor(row.value.callerId, row.value.creatorId, userId, reason)
      ensures result.Won? ==> EndsFor(result.session.callerId, result.session.creatorId, userId, reason)
      // Whoever may not end the call changes nothing.
      ensures result.Unauthorized? ==> row.Some? && !MayEnd(row.value, userId, reason)
      ensures old(row).Some? && !MayEnd(old(row).value, userId, reason) ==> mine == [] && !result.Won?
    {
      ghost var before := row;
      result, trace, mine := EndByAttempts(userId, reason, now, endedAtOverride, others);
      if before.Some? {
        MayEndIff(before.value, userId, reason);
        MayEndIff(row.value, userId, reason);
        if result.Won? {
          MayEndIff(result.session, userId, reason);
        }
      }
    }

    /** `rejectCall`: only the callee, only while ringing, never over an accept or an end. */
    method RejectCall(receiverId: User, now: int, others: nat -> seq<Command>)
      returns (ok: bool, trace: seq<Command>)
      requires Valid()
      modifies this
      ensures Valid() && row.Some? == old(row).Some?
      ensures row.Some? ==> row.value == Run(old(row).value, trace)
      ensures ok <==> && old(row).Some?
                      && var read := Run(old(row).value, others(0));
                         read.status == RINGING && read.creatorId == receiverId
                         && Run(read, others(1)).status == RINGING
      ensures ok ==> row.Some? && trace == others(0) + others(1) + [Reject(now)]
      ensures ok ==> row.value.status == REJECTED && row.value.creatorId == receiverId && row.value.minsCharged == 0
      ensures ok ==> row.value.end == Some(End(now, "REJECTED_BY_RECEIVER"))
      ensures !ok && row.Some? ==> row.value == Run(Run(old(row).value, others(0)), others(1))
                                   || row.value == Run(old(row).value, others(0))
    {
      if row.None? {
        return false, [];
      }
      RunForward(row.value, others(0));
      Await(others(0));
      trace := others(0);
      var session := row.value;
      if session.status != RINGING || session.creatorId != receiverId {
        return false, trace;
      }
      RunForward(session, others(1));
      Await(others(1));
      RunAppend(old(row).value, trace, others(1));
      trace := trace + others(1);
      if row.value.status != RINGING {
        return false, trace;
      }
      RunAppend(old(row).value, trace, [Reject(now)]);
      trace := trace + [Reject(now)];
      row := Some(row.value.(status := REJECTED, end := Some(End(now, "REJECTED_BY_RECEIVER"))));
      return true, trace;
    }
  }

  lemma StillWon(s: Session, trace: seq<Command>, more: seq<Command>, i: nat)
    requires i < |trace|
    ensures WinsAt(s, trace + more, i) == WinsAt(s, trace, i)
    ensures Run(s, trace + more) == Run(Run(s, trace), more)
  {
    assert (trace + more)[..i] == trace[..i];
    RunAppend(s, trace, more);
  }

  /** The trace ends with the update, which took effect or not. */
  predicate EndsWithUpdate(s: Session, trace: seq<Command>, c: Command, hit: bool) {
    c.EndUpdate? && trace != [] && trace[|trace| - 1] == c && hit == Hits(Run(s, trace[..|trace| - 1]), c)
  }

  lemma SameParticipants(s: Session, trace: seq<Command>, userId: Option<User>, reason: string)
    ensures MayEnd(Run(s, trace), userId, reason) == MayEnd(s, userId, reason)
  {
    RunForward(s, trace);
  }

  /** What a winning update wrote stays, whatever reaches the row afterwards. */
  lemma WonForGood(s: Session, trace: seq<Command>, c: Command, after: seq<Command>)
    requires Consistent(s) && EndsWithUpdate(s, trace, c, true)
    ensures WinsAt(s, trace + after, |trace| - 1)
    ensures var won := Run(s, trace);
            && Run(won, after) == won == Run(s, trace + after) && won.end == Some(c.end)
            && won.status == (if won.minsCharged == 0 then MISSED else ENDED)
            && (won.callerId, won.creatorId) == (s.callerId, s.creatorId)
  {
    var upTo := trace[..|trace| - 1];
    assert trace == upTo + [c];
    RunForward(s, upTo);
    OwnUpdate(s, upTo, c, []);
    StillWon(s, trace, after, |trace| - 1);
    RunForward(Run(s, trace), after);
  }

  predicate Updates(trace: seq<Command>, mine: seq<nat>) {
    forall k :: 0 <= k < |mine| ==> mine[k] < |trace| && trace[mine[k]].EndUpdate?
  }

  /** The user is one of the two participants; or there is none, and the reason is one of the system's own. */
  predicate EndsFor(callerId: User, creatorId: User, userId: Option<User>, reason: string) {
    || userId == Some(callerId)
    || userId == Some(creatorId)
    || (userId == None
        && (reason == "HEARTBEAT_LOST" || reason == "INSUFFICIENT_BALANCE" || reason == "RINGING_TIMEOUT"
            || reason == "TEST_RESET" || reason == "SYSTEM_RESET" || reason == "ROOM_FINISHED_WEBHOOK"
            || reason == "VIOLATION_NUDITY"))
  }

  lemma MayEndIff(s: Session, userId: Option<User>, reason: string)
    ensures MayEnd(s, userId, reason) <==> EndsFor(s.callerId, s.creatorId, userId, reason)
  {
  }

  /** None of the updates at these positions of the trace ended the session. */
  predicate AllLost(s: Session, trace: seq<Command>, mine: seq<nat>) {
    Updates(trace, mine) && forall k :: 0 <= k < |mine| ==> !WinsAt(s, trace, mine[k])
  }

  lemma StillLost(s: Session, trace: seq<Command>, more: seq<Command>, mine: seq<nat>)
    requires AllLost(s, trace, mine)
    ensures AllLost(s, trace + more, mine)
    ensures Run(s, trace + more) == Run(Run(s, trace), more)
  {
    RunAppend(s, trace, more);
    forall k | 0 <= k < |mine| ensures !WinsAt(s, trace + more, mine[k]) {
      StillWon(s, trace, more, mine[k]);
    }
  }

  lemma OwnUpdate(s: Session, trace: seq<Command>, c: Command, mine: seq<nat>)
    requires c.EndUpdate? && AllLost(s, trace, mine)
    ensures Run(s, trace + [c]) == Step(Run(s, trace), c)
    ensures WinsAt(s, trace + [c], |trace|) == Hits(Run(s, trace), c)
    ensures AllLost(s, trace + [c], mine)
    ensures !Hits(Run(s, trace), c) ==> AllLost(s, trace + [c], mine + [|trace|])
  {
    StillLost(s, trace, [c], mine);
    assert (trace + [c])[..|trace|] == trace;
  }
}
