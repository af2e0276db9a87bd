/** The durable timers of src/services/cluster.service.js. Deadlines live in a Redis sorted set and
    payload hash shared by all nodes; each node has local timers for the deadlines it scheduled, and a
    sweeper fires those whose node died. Redis is reachable throughout. A node that crashes simply
    issues no further commands, so the laws below, which hold of every sequence of commands, cover
    any number of nodes, crashes, reschedules, cancels, stale local timers and sweeps. */
module DurableTimers {
  import opened Options

  type Member = string
  type Payload = string

  datatype Redis = Redis(deadlines: map<Member, int>, payloads: map<Member, Payload>)

  /** The atomic commands: MULTI zAdd+hSet, the claiming zRem, the hDel after it, MULTI zRem+hDel. */
  datatype Command =
    | Persist(m: Member, at: int, payload: Payload)
    | Claim(m: Member)
    | DropPayload(m: Member)
    | Withdraw(m: Member)

  function Step(r: Redis, c: Command): Redis {
    match c
    case Persist(m, at, payload) => Redis(r.deadlines[m := at], r.payloads[m := payload])
    case Claim(m) => r.(deadlines := r.deadlines - {m})
    case DropPayload(m) => r.(payloads := r.payloads - {m})
    case Withdraw(m) => Redis(r.deadlines - {m}, r.payloads - {m})
  }

  function Run(r: Redis, trace: seq<Command>): Redis
    decreases |trace|
  {
    if trace == [] then r else Run(Step(r, trace[0]), trace[1..])
  }

  lemma {:induction false} RunAppend(r: Redis, t: seq<Command>, u: seq<Command>)
    ensures Run(r, t + u) == Run(Run(r, t), u)
    decreases |t|
  {
    if t == [] {
      assert t + u == u;
    } else {
      assert (t + u)[1..] == t[1..] + u;
      RunAppend(Step(r, t[0]), t[1..], u);
    }
  }

  // ----- Conservation of deadlines -----

  datatype Effect = Schedule | FirstInsert | WinningClaim | EffectiveCancel

  predicate Has(r: Redis, c: Command, m: Member, what: Effect) {
    c.m == m &&
    match what
    case Schedule => c.Persist?
    case FirstInsert => c.Persist? && m !in r.deadlines
    case WinningClaim => c.Claim? && m in r.deadlines
    case EffectiveCancel => c.Withdraw? && m in r.deadlines
  }

  function Count(r: Redis, trace: seq<Command>, m: Member, what: Effect): nat
    decreases |trace|
  {
    if trace == [] then 0
    else (if Has(r, trace[0], m, what) then 1 else 0) + Count(Step(r, trace[0]), trace[1..], m, what)
  }

  function Pending(r: Redis, m: Member): nat {
    if m in r.deadlines then 1 else 0
  }

  /** A deadline put in is claimed once, cancelled once, or still there. */
  lemma {:induction false} DeadlinesAreConserved(r: Redis, trace: seq<Command>, m: Member)
    ensures Pending(r, m) + Count(r, trace, m, FirstInsert)
            == Count(r, trace, m, WinningClaim) + Count(r, trace, m, EffectiveCancel) + Pending(Run(r, trace), m)
    ensures Count(r, trace, m, FirstInsert) <= Count(r, trace, m, Schedule)
    decreases |trace|
  {
    if trace != [] {
      DeadlinesAreConserved(Step(r, trace[0]), trace[1..], m);
    }
  }

  /** Every winning claim is a handler run at most; there are never more of them than schedules. */
  lemma NoMoreClaimsThanSchedules(r: Redis, trace: seq<Command>, m: Member)
    requires m !in r.deadlines
    ensures Count(r, trace, m, WinningClaim) <= Count(r, trace, m, Schedule)
  {
    DeadlinesAreConserved(r, trace, m);
  }

  /** After a cancel nothing can claim the deadline before it is scheduled again; nor twice after that. */
  lemma NothingToClaimAfterCancel(r: Redis, trace: seq<Command>, m: Member)
    ensures Count(Step(r, Withdraw(m)), trace, m, WinningClaim) <= Count(Step(r, Withdraw(m)), trace, m, Schedule)
    ensures Count(Step(r, Withdraw(m)), trace, m, Schedule) == 0 ==>
              Count(Step(r, Withdraw(m)), trace, m, WinningClaim) == 0
                  && m !in Run(Step(r, Withdraw(m)), trace).deadlines
  {
    DeadlinesAreConserved(Step(r, Withdraw(m)), trace, m);
  }

  // ----- Payloads -----

  /** Every DropPayload of the trace is the second step of a `fire`: it follows a claim of its own that won. */
  ghost predicate IssuedByFires(r: Redis, trace: seq<Command>, claimOf: nat -> nat) {
    && (forall i :: 0 <= i < |trace| && trace[i].DropPayload? ==>
          claimOf(i) < i && trace[claimOf(i)] == Claim(trace[i].m)
              && trace[i].m in Run(r, trace[..claimOf(i)]).deadlines)
    && (forall i, j :: 0 <= i < j < |trace| && trace[i].DropPayload? && trace[j].DropPayload? ==>
        claimOf(i) != claimOf(j))
  }

  /** No drop so far belongs to the claim at `at`. */
  ghost predicate Unused(trace: seq<Command>, claimOf: nat -> nat, at: nat) {
    forall i :: 0 <= i < |trace| && trace[i].DropPayload? ==> claimOf(i) != at
  }

  /** Every interleaving of fires is such a trace: any command but a drop may follow, ... */
  lemma OthersFollow(r: Redis, trace: seq<Command>, claimOf: nat -> nat, c: Command)
    requires IssuedByFires(r, trace, claimOf) && !c.DropPayload?
    ensures IssuedByFires(r, trace + [c], claimOf)
    ensures claimOf(|trace|) != |trace| ==> forall at :: Unused(trace, claimOf, at) ==> Unused(trace + [c], claimOf, at)
  {
    var more := trace + [c];
    assert forall i :: 0 <= i < |trace| ==> more[i] == trace[i] && more[..i] == trace[..i];
  }

  /** ... and so may the drop of a fire that has won its claim: by the contract of `Fire` its commands are the
      claim, what others send meanwhile, and then, if the claim took the deadline out, the drop. */
  lemma FireIssues(r: Redis, before: seq<Command>, m: Member, meanwhile: seq<Command>, claimOf: nat -> nat)
      returns (claimOf': nat -> nat)
    requires Has(Run(r, before), Claim(m), m, WinningClaim)
    requires IssuedByFires(r, before + [Claim(m)] + meanwhile, claimOf)
    requires Unused(before + [Claim(m)] + meanwhile, claimOf, |before|)
    ensures IssuedByFires(r, before + [Claim(m)] + meanwhile + [DropPayload(m)], claimOf')
    ensures forall i :: 0 <= i < |before| + 1 + |meanwhile| ==> claimOf'(i) == claimOf(i)
    ensures claimOf'(|before| + 1 + |meanwhile|) == |before|
  {
    var trace := before + [Claim(m)] + meanwhile;
    var more := trace + [DropPayload(m)];
    claimOf' := i => if i == |trace| then |before| else claimOf(i);
    assert more[..|before|] == before && more[|before|] == Claim(m);
    assert forall i :: 0 <= i < |trace| ==> more[i] == trace[i] && more[..i] == trace[..i];
  }

  predicate IsPersist(c: Command, m: Member) {
    c.Persist? && c.m == m
  }

  predicate IsLastPersist(trace: seq<Command>, m: Member, p: nat) {
    p < |trace| && IsPersist(trace[p], m) && forall i :: p < i < |trace| ==> !IsPersist(trace[i], m)
  }

  /** A pending deadline was put in by its last Persist, and no claim or cancel came since. */
  lemma {:induction false} PendingSince(r: Redis, trace: seq<Command>, m: Member) returns (p: nat)
    requires m !in r.deadlines && m in Run(r, trace).deadlines
    ensures IsLastPersist(trace, m, p)
    ensures forall i :: p < i < |trace| ==> trace[i] != Claim(m) && trace[i] != Withdraw(m)
  {
    var init, last := trace[..|trace| - 1], trace[|trace| - 1];
    assert trace == init + [last];
    RunAppend(r, init, [last]);
    if IsPersist(last, m) {
      p := |trace| - 1;
    } else {
      p := PendingSince(r, init, m);
      assert IsPersist(init[p], m);
    }
  }

  /** From a deadline with its payload on, without a claim, cancel or persist of it, the payload is gone
      exactly when it was dropped. */
  lemma {:induction false} DroppedSince(r: Redis, trace: seq<Command>, m: Member)
    requires m in r.payloads
    requires forall i :: 0 <= i < |trace| ==> !IsPersist(trace[i], m) && trace[i] != Withdraw(m)
    ensures m !in Run(r, trace).payloads <==> DropPayload(m) in trace
  {
    if trace != [] {
      var init, last := trace[..|trace| - 1], trace[|trace| - 1];
      assert trace == init + [last];
      RunAppend(r, init, [last]);
      DroppedSince(r, init, m);
    }
  }

  lemma SplitAfter(r: Redis, trace: seq<Command>, p: nat)
    requires p < |trace|
    ensures Run(r, trace) == Run(Step(Run(r, trace[..p]), trace[p]), trace[p + 1..])
  {
    assert trace == trace[..p] + trace[p..] && trace[p..][0] == trace[p] && trace[p..][1..] == trace[p + 1..];
    RunAppend(r, trace[..p], trace[p..]);
  }

  /** What was persisted stays, until it is persisted anew or removed. */
  lemma {:induction false} StaysAsPersisted(r: Redis, trace: seq<Command>, m: Member)
    requires forall i :: 0 <= i < |trace| ==> !IsPersist(trace[i], m)
    ensures m in Run(r, trace).deadlines ==> m in r.deadlines && Run(r, trace).deadlines[m] == r.deadlines[m]
    ensures m in Run(r, trace).payloads ==> m in r.payloads && Run(r, trace).payloads[m] == r.payloads[m]
    decreases |trace|
  {
    if trace != [] {
      assert !IsPersist(trace[0], m);
      assert forall i :: 0 <= i < |trace[1..]| ==> trace[1..][i] == trace[i + 1];
      StaysAsPersisted(Step(r, trace[0]), trace[1..], m);
    }
  }

  /** Over all runs, a pending deadline has the time of its last schedule, so a reschedule moves it; and its
      payload, where it is not lost, is that schedule's. */
  lemma DeadlineIsTheLastOne(r: Redis, trace: seq<Command>, m: Member, p: nat)
    requires IsLastPersist(trace, m, p)
    ensures m in Run(r, trace).deadlines ==> Run(r, trace).deadlines[m] == trace[p].at
    ensures m in Run(r, trace).payloads ==> Run(r, trace).payloads[m] == trace[p].payload
  {
    SplitAfter(r, trace, p);
    var rest := trace[p + 1..];
    assert forall i :: 0 <= i < |rest| ==> rest[i] == trace[p + 1 + i];
    StaysAsPersisted(Step(Run(r, trace[..p]), trace[p]), rest, m);
  }

  /** Over all runs of fires, schedules, cancels and sweeps: a pending deadline has lost its payload exactly
      when a claim from before its last schedule dropped it after that. */
  lemma PayloadLostIff(r: Redis, trace: seq<Command>, claimOf: nat -> nat, m: Member) returns (p: nat)
    requires IssuedByFires(r, trace, claimOf)
    requires m !in r.deadlines && m in Run(r, trace).deadlines
    ensures IsLastPersist(trace, m, p)
    ensures m !in Run(r, trace).payloads <==>
            exists i :: p < i < |trace| && trace[i] == DropPayload(m) && claimOf(i) < p
  {
    p := PendingSince(r, trace, m);
    var rest := trace[p + 1..];
    SplitAfter(r, trace, p);
    assert forall i :: 0 <= i < |rest| ==> rest[i] == trace[p + 1 + i];
    DroppedSince(Step(Run(r, trace[..p]), trace[p]), rest, m);
    if DropPayload(m) in rest {
      var i := DroppedBy(r, trace, claimOf, m, p);
    } else {
      assert forall i :: p < i < |trace| ==> trace[i] == rest[i - p - 1];
    }
  }

  lemma DroppedBy(r: Redis, trace: seq<Command>, claimOf: nat -> nat, m: Member, p: nat) returns (i: nat)
    requires IssuedByFires(r, trace, claimOf) && p < |trace| && IsPersist(trace[p], m)
    requires forall i :: p < i < |trace| ==> trace[i] != Claim(m)
    requires DropPayload(m) in trace[p + 1..]
    ensures p < i < |trace| && trace[i] == DropPayload(m) && claimOf(i) < p
  {
    var k :| 0 <= k < |trace[p + 1..]| && trace[p + 1..][k] == DropPayload(m);
    i := p + 1 + k;
    assert trace[i] == DropPayload(m) && trace[claimOf(i)] == Claim(m);
  }

  /** And it happens. */
  lemma RescheduleCanLoseItsPayload(m: Member, first: Payload, second: Payload)
    ensures var trace := [Persist(m, 1, first), Claim(m), Persist(m, 2, second), DropPayload(m)];
            var r := Run(Redis(map[], map[]), trace);
            IssuedByFires(Redis(map[], map[]), trace, _ => 1) && m in r.deadlines && m !in r.payloads
  {
    var r0 := Redis(map[], map[]);
    var trace := [Persist(m, 1, first), Claim(m), Persist(m, 2, second), DropPayload(m)];
    var r1 := Step(r0, trace[0]);
    var r2 := Step(r1, Claim(m));
    var r3 := Step(r2, Persist(m, 2, second));
    assert Run(r3, [DropPayload(m)]) == Step(r3, DropPayload(m));
    assert Run(r2, [Persist(m, 2, second), DropPayload(m)]) == Run(r3, [DropPayload(m)]);
    assert Run(r1, [Claim(m), Persist(m, 2, second), DropPayload(m)]) ==
        Run(r2, [Persist(m, 2, second), DropPayload(m)]);
    assert trace[..1] == [trace[0]] && Run(r0, [trace[0]]) == r1;
  }

  ghost predicate NoCommandOn(trace: seq<Command>, m: Member) {
    forall i :: 0 <= i < |trace| ==> trace[i].m != m
  }

  lemma {:induction false} OtherMembersUntouched(r: Redis, trace: seq<Command>, m: Member)
    requires NoCommandOn(trace, m)
    ensures m in Run(r, trace).deadlines <==> m in r.deadlines
    ensures m in Run(r, trace).payloads <==> m in r.payloads
    ensures m in r.deadlines ==> Run(r, trace).deadlines[m] == r.deadlines[m]
    ensures m in r.payloads ==> Run(r, trace).payloads[m] == r.payloads[m]
    decreases |trace|
  {
    if trace != [] {
      assert trace[0].m != m;
      OtherMembersUntouched(Step(r, trace[0]), trace[1..], m);
    }
  }

  // ----- The nodes -----

  const SWEEP_GRACE_MS := 1500
  const SWEEP_LIMIT := 100

  datatype LocalTimer = LocalTimer(at: int, payload: Payload)

  /** The deadlines due at `upTo`. */
  function Overdue(r: Redis, upTo: int): set<Member> {
    set m | m in r.deadlines && r.deadlines[m] <= upTo
  }

  class RedisServer {
    var redis: Redis

    constructor (redis: Redis)
      ensures this.redis == redis
    {
      this.redis := redis;
    }

    /** An await: other nodes' commands. */
    method Await(others: seq<Command>)
      modifies this
      ensures redis == Run(old(redis), others)
    {
      redis := Run(redis, others);
    }

    method ZRem(m: Member) returns (removed: nat)
      modifies this
      ensures redis == Step(old(redis), Claim(m))
      ensures removed == Pending(old(redis), m)
    {
      removed := if m in redis.deadlines then 1 else 0;
      redis := redis.(deadlines := redis.deadlines - {m});
    }

    /** ZRANGEBYSCORE -inf upTo LIMIT 0 limit; which ones are returned when there are more is left open. */
    method ZRangeByScore(upTo: int, limit: nat) returns (due: seq<Member>)
      ensures |due| <= limit
      ensures forall m :: m in due ==> m in Overdue(redis, upTo)
      ensures forall i, j :: 0 <= i < j < |due| ==> due[i] != due[j]
      ensures |due| < limit ==> forall m :: m in Overdue(redis, upTo) ==> m in due
    {
      due := [];
      var rest := Overdue(redis, upTo);
      while |due| < limit && rest != {}
        invariant |due| <= limit
        invariant rest <= Overdue(redis, upTo)
        invariant forall m :: m in due ==> m in Overdue(redis, upTo) - rest
        invariant forall i, j :: 0 <= i < j < |due| ==> due[i] != due[j]
        invariant forall m :: m in Overdue(redis, upTo) - rest ==> m in due
        decreases |rest|
      {
        var m :| m in rest;
        assert m !in due;
        due := due + [m];
        rest := rest - {m};
      }
    }
  }

  class TimerNode {
    const server: RedisServer
    var localTimers: map<Member, LocalTimer>

    constructor (server: RedisServer)
      ensures this.server == server && localTimers == map[]
    {
      this.server := server;
      localTimers := map[];
    }

    /** `scheduleDurable`: persist, then arm the local timer (overwriting an earlier one). */
    method ScheduleDurable(m: Member, at: int, payload: Payload, others: seq<Command>)
      modifies this`localTimers, server
      ensures server.redis == Run(old(server.redis), [Persist(m, at, payload)] + others)
      ensures localTimers == old(localTimers)[m := LocalTimer(at, payload)]
      // Whatever was stored for the member before, it now has this time and payload, until others change that.
      ensures NoCommandOn(others, m) ==>
                && m in server.redis.deadlines && server.redis.deadlines[m] == at
                && m in server.redis.payloads && server.redis.payloads[m] == payload
    {
      RunAppend(server.redis, [Persist(m, at, payload)], others);
      server.redis := Redis(server.redis.deadlines[m := at], server.redis.payloads[m := payload]);
      if NoCommandOn(others, m) {
        OtherMembersUntouched(server.redis, others, m);
      }
      server.Await(others);
      localTimers := localTimers[m := LocalTimer(at, payload)];
    }

    /** `cancelDurable`. */
    method CancelDurable(m: Member)
      modifies this`localTimers, server
      ensures server.redis == Step(old(server.redis), Withdraw(m))
      ensures server.redis == Redis(old(server.redis).deadlines - {m}, old(server.redis).payloads - {m})
      ensures localTimers == old(localTimers) - {m}
    {
      localTimers := localTimers - {m};
      server.redis := Redis(server.redis.deadlines - {m}, server.redis.payloads - {m});
    }

    /** `fire`: claim the deadline and, having won, take its payload and run the handler. `beforeRead` and
        `beforeDrop` are other nodes' commands at the awaits in between. */
    method Fire(m: Member, localPayload: Option<Payload>, beforeRead: seq<Command>, beforeDrop: seq<Command>)
      returns (ran: bool, payload: Option<Payload>)
      modifies this`localTimers, server
      ensures localTimers == old(localTimers) - {m}
      // The handler runs exactly when this claim took the deadline out.
      ensures ran <==> Has(old(server.redis), Claim(m), m, WinningClaim)
      ensures server.redis == Run(old(server.redis), FireCommands(m, ran, beforeRead, beforeDrop))
      ensures ran ==> var read := Run(Step(old(server.redis), Claim(m)), beforeRead).payloads;
                      payload == if m in read then Some(read[m]) else localPayload
      // Undisturbed, it runs with the payload that was stored with the deadline.
      ensures ran && NoCommandOn(beforeRead, m) && m in old(server.redis).payloads ==>
              payload == Some(old(server.redis).payloads[m])
    {
      localTimers := localTimers - {m};
      payload := localPayload;
      ghost var r0 := server.redis;
      var removed := server.ZRem(m);
      if removed != 1 {
        assert [Claim(m)] + [] == [Claim(m)];
        return false, payload;
      }
      ghost var claimed := server.redis;
      server.Await(beforeRead);
      if m in server.redis.payloads {
        payload := Some(server.redis.payloads[m]);
      }
      if NoCommandOn(beforeRead, m) {
        OtherMembersUntouched(claimed, beforeRead, m);
      }
      server.Await(beforeDrop);
      server.redis := server.redis.(payloads := server.redis.payloads - {m});
      FireTrace(r0, m, beforeRead, beforeDrop);
      ran := true;
    }

    /** The sweeper's tick on the leader: fire what is overdue and has no local timer here. `others(3k)`,
        `others(3k + 1)` and `others(3k + 2)` are other nodes' commands around the k-th claim. */
    method Sweep(now: int, others: nat -> seq<Command>) returns (fired: seq<Member>, trace: seq<Command>)
      modifies this`localTimers, server
      ensures localTimers == old(localTimers)
      ensures server.redis == Run(old(server.redis), trace)
      // It claims each of the members it fires, and issues nothing but these claims and their drops.
      // Each of them has been due for at least 1.5 s, so that its own node's timer had its chance.
      ensures forall m :: m in fired ==>
                && m in old(server.redis).deadlines && old(server.redis).deadlines[m] + 1500 <= now
                && m !in localTimers && Claim(m) in trace
      ensures forall c :: c in trace ==> FiredIn(c, fired) || exists k :: c in others(k)
      // Unless there are as many as the limit, no overdue deadline of another node is left unclaimed.
      ensures |Overdue(old(server.redis), now - 1500)| < 100 ==>
                forall m ::
                  (m in old(server.redis).deadlines && old(server.redis).deadlines[m] + 1500 <= now
                   && m !in localTimers) ==>
                    m in fired
      // Undisturbed, they are gone with their payloads, and nothing else is.
      ensures (forall k :: others(k) == []) ==> server.redis == Without(old(server.redis), Members(fired))
    {
      ghost var before, quiet := server.redis, forall k :: others(k) == [];
      var due := server.ZRangeByScore(now - SWEEP_GRACE_MS, SWEEP_LIMIT);
      DistinctFit(due, Overdue(server.redis, now - SWEEP_GRACE_MS));
      fired, trace := [], [];
      for i := 0 to |due|
        invariant localTimers == old(localTimers) && server.redis == Run(before, trace)
        invariant forall m :: m in fired ==> m in due[..i] && m !in localTimers && Claim(m) in trace
        invariant forall m :: m in due[..i] && m !in localTimers ==> m in fired
        invariant forall c :: c in trace ==> FiredIn(c, fired) || exists k :: c in others(k)
        invariant quiet ==> server.redis == Without(before, Members(fired))
      {
        if due[i] !in localTimers {
          var more := FireOverdue(before, trace, due[i], others(3 * i), others(3 * i + 1), others(3 * i + 2));
          MembersSnoc(fired, due[i]);
          WithoutMore(before, Members(fired), due[i]);
          assert due[i] in due && due[i] in Overdue(before, now - SWEEP_GRACE_MS);
          assert due[i] !in Members(fired) && due[i] in before.deadlines;
          fired := fired + [due[i]];
          trace := trace + more;
        }
      }
      assert due[..|due|] == due;
    }

    /** `fire` as the sweeper calls it, without a payload of its own, behind the commands of `trace`. */
    method FireOverdue(ghost start: Redis, ghost trace: seq<Command>, m: Member,
                       beforeClaim: seq<Command>, beforeRead: seq<Command>, beforeDrop: seq<Command>)
      returns (more: seq<Command>)
      requires m !in localTimers && server.redis == Run(start, trace)
      modifies this`localTimers, server
      ensures localTimers == old(localTimers) && server.redis == Run(start, trace + more)
      ensures Claim(m) in more
      ensures forall c :: c in more ==>
              c == Claim(m) || c == DropPayload(m) || c in beforeClaim || c in beforeRead || c in beforeDrop
      ensures beforeClaim == beforeRead == beforeDrop == [] && m in old(server.redis).deadlines ==>
                server.redis == Without(old(server.redis), {m})
    {
      ghost var before := server.redis;
      server.Await(beforeClaim);
      ghost var claimedAt := server.redis;
      var ran, _ := Fire(m, None, beforeRead, beforeDrop);
      var own := FireCommands(m, ran, beforeRead, beforeDrop);
      OnlyFireCommands(m, ran, beforeRead, beforeDrop);
      more := beforeClaim + own;
      RunAppend(before, beforeClaim, own);
      RunAppend(start, trace, more);
      if beforeClaim == beforeRead == beforeDrop == [] && m in before.deadlines {
        FireTrace(claimedAt, m, [], []);
      }
    }
  }

  function Without(r: Redis, members: set<Member>): Redis {
    Redis(r.deadlines - members, r.payloads - members)
  }

  lemma WithoutMore(r: Redis, members: set<Member>, m: Member)
    ensures Without(Without(r, members), {m}) == Without(r, members + {m})
  {
    assert (r.deadlines - members) - {m} == r.deadlines - (members + {m});
    assert (r.payloads - members) - {m} == r.payloads - (members + {m});
  }

  /** What a `fire` sends, with what others send meanwhile. */
  function FireCommands(m: Member, won: bool, beforeRead: seq<Command>, beforeDrop: seq<Command>): seq<Command> {
    [Claim(m)] + if won then beforeRead + beforeDrop + [DropPayload(m)] else []
  }

  lemma OnlyFireCommands(m: Member, won: bool, beforeRead: seq<Command>, beforeDrop: seq<Command>)
    ensures var own := FireCommands(m, won, beforeRead, beforeDrop);
            && Claim(m) in own
            && forall c :: c in own ==> c == Claim(m) || c == DropPayload(m) || c in beforeRead || c in beforeDrop
  {
    assert FireCommands(m, won, beforeRead, beforeDrop)[0] == Claim(m);
  }

  predicate FiredIn(c: Command, fired: seq<Member>) {
    (c.Claim? || c.DropPayload?) && c.m in fired
  }

  function Members(s: seq<Member>): set<Member> {
    set m | m in s
  }

  lemma MembersSnoc(s: seq<Member>, m: Member)
    ensures Members(s + [m]) == Members(s) + {m}
  {
  }

  lemma FireTrace(r: Redis, m: Member, beforeRead: seq<Command>, beforeDrop: seq<Command>)
    ensures Run(r, [Claim(m)] + (beforeRead + beforeDrop + [DropPayload(m)]))
            == Step(Run(Run(Step(r, Claim(m)), beforeRead), beforeDrop), DropPayload(m))
  {
    RunAppend(r, [Claim(m)], beforeRead + beforeDrop + [DropPayload(m)]);
    RunAppend(Step(r, Claim(m)), beforeRead + beforeDrop, [DropPayload(m)]);
    RunAppend(Step(r, Claim(m)), beforeRead, beforeDrop);
  }

  lemma {:induction false} DistinctFit(s: seq<Member>, keys: set<Member>)
    requires forall i, j :: 0 <= i < j < |s| ==> s[i] != s[j]
    requires forall m :: m in s ==> m in keys
    ensures |s| <= |keys|
  {
    if s != [] {
      var init := s[..|s| - 1];
      DistinctFit(init, keys - {s[|s| - 1]});
    }
  }
}
