/** Starting a video call (`initiateCall` in src/modules/videoCall/service.js): two per-user Redis
    locks around the busy checks, the clean-up of stale calls and the insert. Every Redis or
    database command is one event; any number of requests interleave. */
module InitiateCall {
  import opened Options
  import S = CallSession
  import opened CallSession

  const INITIATE_LOCK_MS := 5000

  type Token = nat
  type SessionId = nat

  datatype Lock = Lock(owner: Token, expires: int)

  /** Where a request stands; side 0 is the caller's, side 1 the callee's. */
  datatype Phase =
    | Locking(side: nat)
    | Checking(side: nat)
    | Cleaning(side: nat, stale: SessionId, attempt: nat, seen: Option<Status>)
    | Creating
    | Releasing

  datatype Request = Request(callerId: User, creatorId: User, phase: Phase, held: set<User>, since: int) {
    function Side(side: nat): User {
      if side == 0 then callerId else creatorId
    }
  }

  datatype State = State(
    now: int,
    locks: map<User, Lock>,
    sessions: map<SessionId, Session>,
    requests: map<Token, Request>)

  datatype Event =
    | Tick(to: int)
    | Begin(token: Token, callerId: User, creatorId: User)
    | SetNx(token: Token)
    | FindBusy(token: Token, found: Option<SessionId>, isStale: bool)
    | EndRead(token: Token)
    | EndWrite(token: Token, end: End)
    | Create(token: Token, id: SessionId)
    | Fail(token: Token)
    | Unlock(token: Token, key: User)
    | Crash(token: Token)
    | RowCommand(id: SessionId, command: Command)

  predicate Locked(s: State, key: User) {
    key in s.locks && s.now < s.locks[key].expires
  }

  predicate Busy(s: State, id: SessionId, user: User) {
    id in s.sessions && s.sessions[id].status.Live()
    && (s.sessions[id].callerId == user || s.sessions[id].creatorId == user)
  }

  ghost predicate Idle(s: State, user: User) {
    forall id :: !Busy(s, id, user)
  }

  /** After the busy check of one side has passed. */
  function NextCheck(side: nat): Phase {
    if side == 0 then Checking(1) else Creating
  }

  ghost predicate Enabled(s: State, e: Event) {
    match e
    case Tick(to) => s.now <= to
    case Begin(tk, caller, creator) => tk !in s.requests && caller != creator
    case SetNx(tk) => tk in s.requests && s.requests[tk].phase.Locking?
    case FindBusy(tk, found, _) =>
      && tk in s.requests && s.requests[tk].phase.Checking?
      && var user := s.requests[tk].Side(s.requests[tk].phase.side);
         if found.Some? then Busy(s, found.value, user) else Idle(s, user)
    case EndRead(tk) => tk in s.requests && s.requests[tk].phase.Cleaning? && s.requests[tk].phase.seen.None?
    case EndWrite(tk, _) => tk in s.requests && s.requests[tk].phase.Cleaning? && s.requests[tk].phase.seen.Some?
    case Create(tk, id) => tk in s.requests && s.requests[tk].phase.Creating? && id !in s.sessions
    case Fail(tk) => tk in s.requests
    case Unlock(tk, key) => tk in s.requests && s.requests[tk].phase.Releasing? && key in s.requests[tk].held
    case Crash(tk) => tk in s.requests
    case RowCommand(id, _) => id in s.sessions
  }

  function Go(s: State, tk: Token, phase: Phase): State
    requires tk in s.requests
  {
    s.(requests := s.requests[tk := s.requests[tk].(phase := phase)])
  }

  /** `SET key token NX PX 5000`, then on to the next lock or to the checks. */
  function TakeLock(s: State, tk: Token): State
    requires tk in s.requests && s.requests[tk].phase.Locking?
  {
    var r := s.requests[tk];
    var key := r.Side(r.phase.side);
    if Locked(s, key) then Go(s, tk, Releasing)
    else
      var since := if r.phase.side == 0 then s.now else r.since;
      var phase := if r.phase.side == 0 then Locking(1) else Checking(0);
      s.(locks := s.locks[key := Lock(tk, s.now + INITIATE_LOCK_MS)],
         requests := s.requests[tk := r.(phase := phase, held := r.held + {key}, since := since)])
  }

  /** Delete the lock only if it still carries the request's own token. */
  function ReleaseLock(s: State, tk: Token, key: User): State
    requires tk in s.requests
  {
    var r := s.requests[tk];
    s.(locks := if Locked(s, key) && s.locks[key].owner == tk then s.locks - {key} else s.locks,
       requests := s.requests[tk := r.(held := r.held - {key})])
  }

  function ReadStale(s: State, tk: Token): State
    requires tk in s.requests && s.requests[tk].phase.Cleaning?
  {
    var p := s.requests[tk].phase;
    if p.stale in s.sessions && s.sessions[p.stale].status.Live()
    then Go(s, tk, p.(seen := Some(s.sessions[p.stale].status)))
    else Go(s, tk, NextCheck(p.side))
  }

  function WriteStale(s: State, tk: Token, end: End): State
    requires tk in s.requests && s.requests[tk].phase.Cleaning? && s.requests[tk].phase.seen.Some?
  {
    var p := s.requests[tk].phase;
    var c := EndUpdate(p.seen.value, end);
    if p.stale in s.sessions && Hits(s.sessions[p.stale], c)
    then Go(s, tk, NextCheck(p.side)).(sessions := s.sessions[p.stale := S.Step(s.sessions[p.stale], c)])
    else if p.attempt == 0 then Go(s, tk, p.(attempt := 1, seen := None))
    else Go(s, tk, NextCheck(p.side))
  }

  function Step(s: State, e: Event): State
    requires Enabled(s, e)
  {
    match e
    case Tick(to) => s.(now := to)
    case Begin(tk, caller, creator) =>
      s.(requests := s.requests[tk := Request(caller, creator, Locking(0), {}, s.now)])
    case SetNx(tk) => TakeLock(s, tk)
    case FindBusy(tk, found, isStale) =>
      var side := s.requests[tk].phase.side;
      if found.None? then Go(s, tk, NextCheck(side))
      else if isStale then Go(s, tk, Cleaning(side, found.value, 0, None))
      else Go(s, tk, Releasing)
    case EndRead(tk) => ReadStale(s, tk)
    case EndWrite(tk, end) => WriteStale(s, tk, end)
    case Create(tk, id) =>
      var r := s.requests[tk];
      Go(s, tk, Releasing).(sessions := s.sessions[id := Session(r.callerId, r.creatorId, RINGING, 0, None)])
    case Fail(tk) => Go(s, tk, Releasing)
    case Unlock(tk, key) => ReleaseLock(s, tk, key)
    case Crash(tk) => s.(requests := s.requests - {tk})
    case RowCommand(id, c) => s.(sessions := s.sessions[id := S.Step(s.sessions[id], c)])
  }

  /** Every request that is past its first lock and not yet releasing has had that for less than 5 s. */
  predicate Timely(s: State) {
    forall tk :: tk in s.requests && !s.requests[tk].phase.Releasing? && s.requests[tk].held != {} ==>
      s.now < s.requests[tk].since + 5000
  }

  ghost predicate ValidRun(s: State, events: seq<Event>)
    decreases |events|
  {
    events == [] || (Enabled(s, events[0]) && ValidRun(Step(s, events[0]), events[1..]))
  }

  ghost predicate TimelyRun(s: State, events: seq<Event>)
    requires ValidRun(s, events)
    decreases |events|
  {
    Timely(s) && (events == [] || TimelyRun(Step(s, events[0]), events[1..]))
  }

  ghost function Run(s: State, events: seq<Event>): State
    requires ValidRun(s, events)
    decreases |events|
  {
    if events == [] then s else Run(Step(s, events[0]), events[1..])
  }

  // ----- The invariant -----

  /** No user is in two calls at once, in either role. */
  ghost predicate OneCallPerUser(s: State) {
    forall a, b, user :: Busy(s, a, user) && Busy(s, b, user) ==> a == b
  }

  function HeldIn(r: Request): set<User> {
    match r.phase
    case Locking(side) => if side == 0 then {} else {r.callerId}
    case _ => {r.callerId, r.creatorId}
  }

  ghost predicate LocksIntact(s: State, tk: Token, r: Request) {
    !r.phase.Releasing? ==>
      && r.held == HeldIn(r) && r.since <= s.now
      && forall key :: key in r.held ==>
           key in s.locks && s.locks[key].owner == tk && r.since + INITIATE_LOCK_MS <= s.locks[key].expires
  }

  /** What a request has found out so far stays true while it holds its locks. */
  ghost predicate ChecksHold(s: State, r: Request) {
    && r.callerId != r.creatorId
    && match r.phase
       case Locking(side) => side <= 1
       case Checking(side) => side <= 1 && (side == 1 ==> Idle(s, r.callerId))
       case Cleaning(side, stale, attempt, seen) =>
         && side <= 1 && (side == 1 ==> Idle(s, r.callerId))
         && (forall id :: Busy(s, id, r.Side(side)) ==> id == stale)
         && stale in s.sessions
         && attempt <= s.sessions[stale].status.Progress()
         && (seen.Some? ==>
             seen.value.Live() && attempt <= seen.value.Progress() <= s.sessions[stale].status.Progress())
       case Creating => Idle(s, r.callerId) && Idle(s, r.creatorId)
       case Releasing => true
  }

  ghost predicate Inv(s: State) {
    && OneCallPerUser(s)
    && forall tk :: tk in s.requests ==> LocksIntact(s, tk, s.requests[tk]) && ChecksHold(s, s.requests[tk])
  }

  /** A step that makes nobody busy and takes no session back keeps what the other requests know. */
  ghost predicate Calmer(s: State, s': State) {
    && (forall id, user :: Busy(s', id, user) ==> Busy(s, id, user))
    && (forall id :: id in s.sessions ==>
        id in s'.sessions && s.sessions[id].status.Progress() <= s'.sessions[id].status.Progress())
  }

  lemma CalmKeeps(s: State, s': State)
    requires Calmer(s, s')
    ensures OneCallPerUser(s) ==> OneCallPerUser(s')
    ensures forall r: Request :: ChecksHold(s, r) ==> ChecksHold(s', r)
  {
    assert forall user :: Idle(s, user) ==> Idle(s', user);
  }

  lemma TakeLockKeeps(s: State, tk: Token)
    requires Inv(s) && Timely(s) && Enabled(s, SetNx(tk))
    ensures Inv(TakeLock(s, tk))
  {
    var s' := TakeLock(s, tk);
    CalmKeeps(s, s');
    var r := s.requests[tk];
    var key := r.Side(r.phase.side);
    forall other | other in s'.requests
      ensures ChecksHold(s', s'.requests[other]) && LocksIntact(s', other, s'.requests[other])
    {
      var o := s.requests[other];
      assert ChecksHold(s, o) && LocksIntact(s, other, o) && ChecksHold(s', o);
      if other == tk {
        assert r.held == HeldIn(r);
      } else if !o.phase.Releasing? && key in o.held {
        assert Locked(s, key);
      }
    }
  }

  /** The clean-up step leaves its request in the clean-up phase, or the stale call over. */
  ghost predicate CleaningOrOver(s: State, s': State, tk: Token)
    requires tk in s.requests && tk in s'.requests && s.requests[tk].phase.Cleaning?
  {
    var p, p' := s.requests[tk].phase, s'.requests[tk].phase;
    && p.stale in s'.sessions
    && if p'.Cleaning? then
         && p'.side == p.side && p'.stale == p.stale && p'.attempt <= s'.sessions[p.stale].status.Progress()
         && (p'.seen.Some? ==>
             p'.seen.value.Live() && p'.attempt <= p'.seen.value.Progress() <= s'.sessions[p.stale].status.Progress())
       else p' == NextCheck(p.side) && !s'.sessions[p.stale].status.Live()
  }

  /** Two attempts end the stale call. */
  lemma CleanedOrOver(s: State, e: Event)
    requires Inv(s) && Enabled(s, e) && (e.EndRead? || e.EndWrite?)
    ensures CleaningOrOver(s, Step(s, e), e.token)
  {
    assert ChecksHold(s, s.requests[e.token]);
  }

  /** Everything but the request itself and the stale session is as before. */
  ghost predicate Cleaned(s: State, s': State, tk: Token)
    requires tk in s.requests
  {
    && Calmer(s, s') && s'.locks == s.locks && s'.now == s.now
    && s'.requests.Keys == s.requests.Keys
    && (forall other :: other in s.requests && other != tk ==> s'.requests[other] == s.requests[other])
    && s'.requests[tk] == s.requests[tk].(phase := s'.requests[tk].phase)
    && (s'.requests[tk].phase.Cleaning? || s'.requests[tk].phase.Checking? || s'.requests[tk].phase.Creating?)
  }

  lemma ReadStaleCalms(s: State, tk: Token)
    requires tk in s.requests && s.requests[tk].phase.Cleaning?
    ensures Cleaned(s, ReadStale(s, tk), tk)
  {
    assert ReadStale(s, tk).sessions == s.sessions;
  }

  /** A command on a row makes nobody busy and takes no session back. */
  lemma RowCommandCalms(s: State, id: SessionId, c: Command, s': State)
    requires id in s.sessions && s'.sessions == s.sessions[id := S.Step(s.sessions[id], c)]
    ensures Calmer(s, s')
  {
  }

  lemma WriteStaleCalms(s: State, tk: Token, end: End)
    requires tk in s.requests && s.requests[tk].phase.Cleaning? && s.requests[tk].phase.seen.Some?
    ensures Cleaned(s, WriteStale(s, tk, end), tk)
  {
    var p := s.requests[tk].phase;
    var c := EndUpdate(p.seen.value, end);
    if p.stale in s.sessions && Hits(s.sessions[p.stale], c) {
      RowCommandCalms(s, p.stale, c, WriteStale(s, tk, end));
    } else {
      assert WriteStale(s, tk, end).sessions == s.sessions;
    }
  }

  /** So the side that was checked is idle when the clean-up is over. */
  lemma CleanedIsIdle(s: State, s': State, tk: Token)
    requires tk in s.requests && s.requests[tk].phase.Cleaning? && Cleaned(s, s', tk) && CleaningOrOver(s, s', tk)
    requires ChecksHold(s, s.requests[tk])
    ensures ChecksHold(s', s'.requests[tk])
  {
    var r, p := s.requests[tk], s.requests[tk].phase;
    assert p.side == 1 ==> Idle(s', r.callerId);
    assert forall id :: Busy(s', id, r.Side(p.side)) ==> id == p.stale;
    if s'.requests[tk].phase.Cleaning? {
      assert s'.requests[tk].Side(s'.requests[tk].phase.side) == r.Side(p.side);
    } else {
      assert Idle(s', r.Side(p.side));
    }
  }

  lemma CleaningKeeps(s: State, e: Event)
    requires Inv(s) && Enabled(s, e) && (e.EndRead? || e.EndWrite?)
    ensures Inv(Step(s, e))
  {
    var s' := Step(s, e);
    if e.EndRead? {
      ReadStaleCalms(s, e.token);
    } else {
      WriteStaleCalms(s, e.token, e.end);
    }
    CleanedOrOver(s, e);
    CleanedIsIdle(s, s', e.token);
    assert LocksIntact(s, e.token, s.requests[e.token]);
    CalmKeepsAll(s, s', e.token);
  }

  /** A calm step that leaves the locks and all but one request alone keeps the invariant of the others. */
  lemma CalmKeepsAll(s: State, s': State, tk: Token)
    requires Inv(s) && Calmer(s, s') && s'.locks == s.locks && s'.now == s.now
    requires forall other :: other in s'.requests && other != tk ==>
             other in s.requests && s'.requests[other] == s.requests[other]
    requires tk in s'.requests ==> LocksIntact(s, tk, s'.requests[tk]) && ChecksHold(s', s'.requests[tk])
    ensures Inv(s')
  {
    CalmKeeps(s, s');
    forall other | other in s'.requests
      ensures LocksIntact(s', other, s'.requests[other]) && ChecksHold(s', s'.requests[other])
    {
      if other != tk {
        assert LocksIntact(s, other, s.requests[other]) && ChecksHold(s', s.requests[other]);
      }
    }
  }

  /** Only the holder of both locks creates, so nobody else's findings are spoilt. */
  lemma CreateKeeps(s: State, tk: Token, id: SessionId)
    requires Inv(s) && Enabled(s, Create(tk, id))
    ensures Inv(Step(s, Create(tk, id)))
  {
    var s' := Step(s, Create(tk, id));
    var r := s.requests[tk];
    assert forall other, user :: other != id ==> (Busy(s', other, user) <==> Busy(s, other, user));
    assert forall user :: Busy(s', id, user) <==> user == r.callerId || user == r.creatorId;
    forall other | other in s'.requests
        ensures LocksIntact(s', other, s'.requests[other]) && ChecksHold(s', s'.requests[other]) {
      var o := s.requests[other];
      assert LocksIntact(s, other, o) && LocksIntact(s, tk, r) && ChecksHold(s, o);
      if other != tk && !o.phase.Locking? && !o.phase.Releasing? {
        assert o.callerId in o.held && o.creatorId in o.held && r.callerId in r.held && r.creatorId in r.held;
        assert forall user :: user == o.callerId || user == o.creatorId ==> !Busy(s', id, user);
      }
    }
  }

  lemma RowCommandKeeps(s: State, id: SessionId, c: Command)
    requires Inv(s) && Enabled(s, RowCommand(id, c))
    ensures Inv(Step(s, RowCommand(id, c)))
  {
    var s' := Step(s, RowCommand(id, c));
    RowCommandCalms(s, id, c, s');
    CalmKeeps(s, s');
    assert forall other :: other in s.requests ==> LocksIntact(s, other, s.requests[other]) ==>
        LocksIntact(s', other, s.requests[other]);
  }

  /** The steps of one request that touch no session. */
  lemma QuietStepKeeps(s: State, e: Event)
    requires Inv(s) && Timely(s) && Enabled(s, e)
    requires e.Begin? || e.FindBusy? || e.Fail? || e.Crash?
    ensures Inv(Step(s, e))
  {
    var s' := Step(s, e);
    if e.token in s.requests {
      assert LocksIntact(s, e.token, s.requests[e.token]);
    }
    if e.FindBusy? {
      FoundKeeps(s, e);
    }
    CalmKeepsAll(s, s', e.token);
  }

  lemma TickKeeps(s: State, to: int)
    requires Inv(s) && s.now <= to
    ensures Inv(s.(now := to))
  {
    var s' := s.(now := to);
    assert Calmer(s, s');
    CalmKeeps(s, s');
    forall tk | tk in s'.requests ensures LocksIntact(s', tk, s'.requests[tk]) && ChecksHold(s', s'.requests[tk]) {
      assert LocksIntact(s, tk, s.requests[tk]) && ChecksHold(s', s.requests[tk]);
    }
  }

  /** Dropping one's own lock while releasing concerns nobody else. */
  lemma UnlockKeeps(s: State, tk: Token, key: User)
    requires Inv(s) && Enabled(s, Unlock(tk, key))
    ensures Inv(ReleaseLock(s, tk, key))
  {
    var s' := ReleaseLock(s, tk, key);
    assert Calmer(s, s');
    CalmKeeps(s, s');
    forall other | other in s'.requests
      ensures LocksIntact(s', other, s'.requests[other]) && ChecksHold(s', s'.requests[other])
    {
      assert LocksIntact(s, other, s.requests[other]) && ChecksHold(s', s.requests[other]);
    }
  }

  lemma FoundKeeps(s: State, e: Event)
    requires Inv(s) && Enabled(s, e) && e.FindBusy?
    ensures ChecksHold(Step(s, e), Step(s, e).requests[e.token])
  {
    var s' := Step(s, e);
    assert ChecksHold(s, s.requests[e.token]);
    assert forall id, user :: Busy(s', id, user) == Busy(s, id, user);
    assert forall user :: Idle(s, user) ==> Idle(s', user);
  }

  lemma StepKeeps(s: State, e: Event)
    requires Inv(s) && Timely(s) && Enabled(s, e)
    ensures Inv(Step(s, e))
  {
    match e
    case SetNx(tk) => TakeLockKeeps(s, tk);
    case EndRead(_) => CleaningKeeps(s, e);
    case EndWrite(_, _) => CleaningKeeps(s, e);
    case Create(tk, id) => CreateKeeps(s, tk, id);
    case RowCommand(id, c) => RowCommandKeeps(s, id, c);
    case Tick(to) => TickKeeps(s, to);
    case Unlock(tk, key) => UnlockKeeps(s, tk, key);
    case _ => QuietStepKeeps(s, e);
  }

  /** Before any request: nothing locked, nobody in two calls. */
  ghost predicate Initial(s: State) {
    s.requests == map[] && OneCallPerUser(s)
  }

  lemma {:induction false} RunKeeps(s: State, events: seq<Event>)
    requires Inv(s) && ValidRun(s, events) && TimelyRun(s, events)
    ensures Inv(Run(s, events))
    decreases |events|
  {
    if events != [] {
      StepKeeps(s, events[0]);
      RunKeeps(Step(s, events[0]), events[1..]);
    }
  }

  /** Under every interleaving of starts, accepts, rejects, ends, resets, stale clean-ups and crashes, no
      user is ever in two ringing or active calls, while lock sections stay within their TTL. */
  lemma NeverInTwoCalls(s: State, events: seq<Event>, a: SessionId, b: SessionId, user: User)
    requires Initial(s) && ValidRun(s, events) && TimelyRun(s, events)
    requires InCall(Run(s, events), a, user) && InCall(Run(s, events), b, user)
    ensures a == b
  {
    RunKeeps(s, events);
    assert Busy(Run(s, events), a, user) && Busy(Run(s, events), b, user);
  }

  /** The user is the caller or the callee of a ringing or active session. */
  predicate InCall(s: State, id: SessionId, user: User) {
    && id in s.sessions
    && s.sessions[id].status in {RINGING, ACTIVE}
    && user in {s.sessions[id].callerId, s.sessions[id].creatorId}
  }

  /** One more step at the end of a run. */
  lemma {:induction false} Extend(s: State, events: seq<Event>, e: Event)
    requires ValidRun(s, events) && Enabled(Run(s, events), e)
    ensures ValidRun(s, events + [e]) && Run(s, events + [e]) == Step(Run(s, events), e)
    decreases |events|
  {
    if events == [] {
      assert [] + [e] == [e];
      assert Run(Step(s, e), [e][1..]) == Step(s, e);
    } else {
      assert (events + [e])[1..] == events[1..] + [e];
      Extend(Step(s, events[0]), events[1..], e);
    }
  }

  // ----- Where sessions come from -----

  /** The last step of a run. */
  lemma {:induction false} LastStep(s: State, events: seq<Event>, e: Event)
    requires ValidRun(s, events + [e])
    ensures ValidRun(s, events) && Enabled(Run(s, events), e) && Run(s, events + [e]) == Step(Run(s, events), e)
    decreases |events|
  {
    if events == [] {
      assert [] + [e] == [e];
      assert Run(Step(s, e), [e][1..]) == Step(s, e);
    } else {
      assert (events + [e])[1..] == events[1..] + [e];
      LastStep(Step(s, events[0]), events[1..], e);
    }
  }

  /** A step keeps the users of every request but the one it begins, ... */
  lemma RequestsKeepUsers(s: State, e: Event, tk: Token)
    requires Enabled(s, e) && tk in Step(s, e).requests && !(e.Begin? && e.token == tk)
    ensures tk in s.requests
    ensures Step(s, e).requests[tk].callerId == s.requests[tk].callerId
    ensures Step(s, e).requests[tk].creatorId == s.requests[tk].creatorId
  {
  }

  /** ... and the users of every session but the one it creates. */
  lemma SessionsKeepUsers(s: State, e: Event, id: SessionId)
    requires Enabled(s, e) && id in Step(s, e).sessions && !(e.Create? && e.id == id)
    ensures id in s.sessions
    ensures Step(s, e).sessions[id].callerId == s.sessions[id].callerId
    ensures Step(s, e).sessions[id].creatorId == s.sessions[id].creatorId
  {
  }

  lemma {:induction false} RequestWasBegun(s: State, events: seq<Event>, tk: Token) returns (j: nat)
    requires s.requests == map[] && ValidRun(s, events) && tk in Run(s, events).requests
    ensures j < |events|
    ensures events[j] == Begin(tk, Run(s, events).requests[tk].callerId, Run(s, events).requests[tk].creatorId)
  {
    var init, e := events[..|events| - 1], events[|events| - 1];
    assert events == init + [e];
    LastStep(s, init, e);
    if e.Begin? && e.token == tk {
      j := |events| - 1;
    } else {
      RequestsKeepUsers(Run(s, init), e, tk);
      j := RequestWasBegun(s, init, tk);
    }
  }

  /** Every session that was not there at first goes back to a start of the run: it was inserted by the request
      of that start, ringing, with nothing charged and no end, its caller as caller and its callee as creator;
      and these it keeps. */
  lemma {:induction false} SessionWasBegun(s: State, events: seq<Event>, id: SessionId) returns (i: nat, j: nat)
    requires s.requests == map[] && ValidRun(s, events)
    requires id !in s.sessions && id in Run(s, events).sessions
    ensures j < i < |events| && events[i].Create? && events[i].id == id
    ensures events[j].Begin? && events[j].token == events[i].token
    ensures ValidRun(s, events[..i + 1]) && id in Run(s, events[..i + 1]).sessions
    ensures Run(s, events[..i + 1]).sessions[id] == Session(events[j].callerId, events[j].creatorId, RINGING, 0, None)
    ensures Run(s, events).sessions[id].callerId == events[j].callerId
    ensures Run(s, events).sessions[id].creatorId == events[j].creatorId
  {
    var n := |events| - 1;
    var init, e := events[..n], events[n];
    assert events == init + [e];
    LastStep(s, init, e);
    if e.Create? && e.id == id {
      i := n;
      j := RequestWasBegun(s, init, e.token);
      assert events[..n + 1] == events;
    } else {
      SessionsKeepUsers(Run(s, init), e, id);
      i, j := SessionWasBegun(s, init, id);
      assert events[..i + 1] == init[..i + 1];
    }
  }

  const NOTHING := State(0, map[], map[], map[])

  /** Taking a free lock. */
  lemma TakeFree(s: State, tk: Token)
    requires Enabled(s, SetNx(tk)) && !Locked(s, s.requests[tk].Side(s.requests[tk].phase.side))
    ensures var r := s.requests[tk];
            var key, first := r.Side(r.phase.side), r.phase.side == 0;
            var phase, since := if first then Locking(1) else Checking(0), if first then s.now else r.since;
            var r' := r.(phase := phase, held := r.held + {key}, since := since);
            TakeLock(s, tk) ==
                s.(locks := s.locks[key := Lock(tk, s.now + INITIATE_LOCK_MS)], requests := s.requests[tk := r'])
  {
  }

  /** A start whose two locks are free takes them. */
  lemma StartTakesLocks(s: State, events: seq<Event>, tk: Token, caller: User, creator: User)
      returns (events': seq<Event>)
    requires ValidRun(s, events) && tk !in Run(s, events).requests && caller != creator
    requires !Locked(Run(s, events), caller) && !Locked(Run(s, events), creator)
    ensures ValidRun(s, events')
    ensures var r := Run(s, events); var lock := Lock(tk, r.now + INITIATE_LOCK_MS);
            Run(s, events') == r.(locks := r.locks[caller := lock][creator := lock],
                                  requests := r.requests[tk :=
                                    Request(caller, creator, Checking(0), {caller, creator}, r.now)])
  {
    var r := Run(s, events);
    var lock := Lock(tk, r.now + INITIATE_LOCK_MS);
    Extend(s, events, Begin(tk, caller, creator));
    events' := events + [Begin(tk, caller, creator)];
    Extend(s, events', SetNx(tk));
    TakeFree(Run(s, events'), tk);
    events' := events' + [SetNx(tk)];
    assert {} + {caller} == {caller} && {caller} + {creator} == {caller, creator};
    var once := r.(locks := r.locks[caller := lock],
        requests := r.requests[tk := Request(caller, creator, Locking(1), {caller}, r.now)]);
    assert Run(s, events') == once by { assert Run(s, events').requests == once.requests; }
    TakeFree(once, tk);
    Extend(s, events', SetNx(tk));
    events' := events' + [SetNx(tk)];
    assert once.requests[tk := Request(caller, creator, Checking(0), {caller, creator}, r.now)]
        == r.requests[tk := Request(caller, creator, Checking(0), {caller, creator}, r.now)];
  }

  /** With both its users idle, it then gets to its insert. */
  lemma ChecksPass(s: State, events: seq<Event>, tk: Token) returns (events': seq<Event>)
    requires ValidRun(s, events) && tk in Run(s, events).requests && Run(s, events).requests[tk].phase == Checking(0)
    requires Idle(Run(s, events), Run(s, events).requests[tk].callerId)
    requires Idle(Run(s, events), Run(s, events).requests[tk].creatorId)
    ensures ValidRun(s, events') && Run(s, events') == Go(Run(s, events), tk, Creating)
  {
    var r := Run(s, events);
    Extend(s, events, FindBusy(tk, None, false));
    events' := events + [FindBusy(tk, None, false)];
    assert forall id, user :: Busy(Run(s, events'), id, user) == Busy(r, id, user);
    Extend(s, events', FindBusy(tk, None, false));
    events' := events' + [FindBusy(tk, None, false)];
  }

  /** The TTL bound is needed: two starts by "a", the first of which sleeps 5 s before its insert. */
  lemma OverrunCanCreateTwo() returns (events: seq<Event>)
    ensures Initial(NOTHING) && ValidRun(NOTHING, events)
    ensures InCall(Run(NOTHING, events), 1, "a") && InCall(Run(NOTHING, events), 2, "a")
  {
    events := StartTakesLocks(NOTHING, [], 1, "a", "b");
    assert forall user :: Idle(Run(NOTHING, events), user);
    events := ChecksPass(NOTHING, events, 1);
    Extend(NOTHING, events, Tick(INITIATE_LOCK_MS));
    events := events + [Tick(INITIATE_LOCK_MS)];
    events := StartTakesLocks(NOTHING, events, 2, "a", "c");
    assert forall user :: Idle(Run(NOTHING, events), user);
    events := ChecksPass(NOTHING, events, 2);
    Extend(NOTHING, events, Create(2, 2));
    events := events + [Create(2, 2)];
    Extend(NOTHING, events, Create(1, 1));
    events := events + [Create(1, 1)];
  }

  /** A release, at any time and of any request, leaves every lock of another request in place. */
  lemma ReleaseSparesOthers(s: State, tk: Token, key: User, other: User)
    requires Enabled(s, Unlock(tk, key))
    requires Locked(s, other) && s.locks[other].owner != tk
    ensures Locked(Step(s, Unlock(tk, key)), other)
    ensures Step(s, Unlock(tk, key)).locks[other] == s.locks[other]
    ensures key in s.locks && Locked(s, key) && s.locks[key].owner == tk ==> !Locked(Step(s, Unlock(tk, key)), key)
  {
  }
}
