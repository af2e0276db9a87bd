/** Two kinds of writers racing on one agency row (src/services/agencyTierRecompute.service.js): the
    daily evaluation, a compare-and-set on `last_level_recomputed_at` with up to five attempts, and the
    refresh after every credit, which may raise the level of the row it read. An admin may assign a tier
    lock at any time. */
module AgencyRace {
  import opened Options
  import opened AgencyTier

  datatype Row = Row(level: string, lastEvaluated: Option<int>, total: int, lock: TierLock)

  /** The UPDATE statements that reach the row. `clock` is the evaluator's own clock, read before the row. */
  datatype Command =
    | Evaluate(expected: Option<int>, clock: int, level: string, total: int, clearLock: bool)
    | Raise(seenLevel: string, level: string, total: int)
    | SetTotal(total: int)
    | AssignLock(lock: TierLock)

  predicate Hits(r: Row, c: Command) {
    match c
    case Evaluate(expected, _, _, _, _) => r.lastEvaluated == expected
    case Raise(seen, _, _) => r.level == seen
    case SetTotal(_) | AssignLock(_) => true
  }

  function Step(r: Row, c: Command): Row {
    if !Hits(r, c) then r else
    match c
    case Evaluate(_, clock, level, total, clearLock) =>
      Row(level, Some(clock), total, if clearLock then NO_LOCK else r.lock)
    case Raise(_, level, total) => r.(level := level, total := total)
    case SetTotal(total) => r.(total := total)
    case AssignLock(lock) => r.(lock := lock)
  }

  function Run(r: Row, trace: seq<Command>): Row
    decreases |trace|
  {
    if trace == [] then r else Run(Step(r, trace[0]), trace[1..])
  }

  lemma {:induction false} RunAppend(r: Row, t: seq<Command>, u: seq<Command>)
    ensures Run(r, t + u) == Run(Run(r, t), u)
    decreases |t|
  {
    if t == [] {
      assert t + u == u;
    } else {
      assert (t + u)[1..] == t[1..] + u;
      RunAppend(Step(r, t[0]), t[1..], u);
    }
  }

  /** What the code sends: an evaluation only when the row it read was not evaluated on the clock's UTC
      day; a raise only to another level that does not rank below the one it read. */
  predicate WellIssued(c: Command, levels: seq<Level>) {
    match c
    case Evaluate(expected, clock, _, _, _) => expected.Some? ==> Day(expected.value) != Day(clock)
    case Raise(seen, level, _) => level != seen && Rank(level, levels) >= Rank(seen, levels)
    case SetTotal(_) | AssignLock(_) => true
  }

  ghost predicate AllWellIssued(trace: seq<Command>, levels: seq<Level>) {
    forall i :: 0 <= i < |trace| ==> WellIssued(trace[i], levels)
  }

  /** The UTC days of the winning evaluations, in order. */
  function WonDays(r: Row, trace: seq<Command>): seq<int>
    decreases |trace|
  {
    if trace == [] then []
    else
      (if trace[0].Evaluate? && Hits(r, trace[0]) then [Day(trace[0].clock)] else [])
      + WonDays(Step(r, trace[0]), trace[1..])
  }

  /** Between winning evaluations the level only rises. */
  lemma {:induction false} LevelRisesBetweenEvaluations(r: Row, trace: seq<Command>, levels: seq<Level>)
    requires AllWellIssued(trace, levels) && WonDays(r, trace) == []
    ensures Rank(r.level, levels) <= Rank(Run(r, trace).level, levels)
    ensures Run(r, trace).lastEvaluated == r.lastEvaluated
    ensures (forall i :: 0 <= i < |trace| ==> !trace[i].AssignLock?) ==> Run(r, trace).lock == r.lock
    decreases |trace|
  {
    if trace != [] {
      assert WellIssued(trace[0], levels);
      LevelRisesBetweenEvaluations(Step(r, trace[0]), trace[1..], levels);
    }
  }

  // ----- Once per day -----

  /** The evaluator's clock is not on an earlier UTC day than the row it has read. */
  predicate ClockNotBehind(c: Command) {
    c.Evaluate? && c.expected.Some? ==> Day(c.expected.value) <= Day(c.clock)
  }

  predicate Increasing(days: seq<int>) {
    forall i, j :: 0 <= i < j < |days| ==> days[i] < days[j]
  }

  predicate Before(last: Option<int>, day: int) {
    last.Some? ==> Day(last.value) < day
  }

  /** No winning evaluation had a clock on an earlier UTC day than the row it replaced. */
  predicate WinnersNotBehind(r: Row, trace: seq<Command>)
    decreases |trace|
  {
    trace == [] || ((Hits(r, trace[0]) ==> ClockNotBehind(trace[0])) && WinnersNotBehind(Step(r, trace[0]), trace[1..]))
  }

  /** The days rise strictly, from after the row's. */
  predicate Rising(last: Option<int>, days: seq<int>) {
    Increasing(days) && forall i :: 0 <= i < |days| ==> Before(last, days[i])
  }

  lemma RisingCons(last: Option<int>, clock: int, days: seq<int>)
    ensures Rising(last, [Day(clock)] + days) <==> Before(last, Day(clock)) && Rising(Some(clock), days)
  {
    var all := [Day(clock)] + days;
    if Rising(last, all) {
      assert forall i :: 0 <= i < |days| ==> days[i] == all[i + 1];
      assert all[0] == Day(clock);
    }
  }

  /** Winning evaluations fall on strictly later and later UTC days, so at most one on each, exactly when no
      winner's clock was on a day before the row it replaced. */
  lemma {:induction false} OneWinPerDayIff(r: Row, trace: seq<Command>, levels: seq<Level>)
    requires AllWellIssued(trace, levels)
    ensures Rising(r.lastEvaluated, WonDays(r, trace)) <==> WinnersNotBehind(r, trace)
    decreases |trace|
  {
    if trace != [] {
      var r' := Step(r, trace[0]);
      assert WellIssued(trace[0], levels);
      OneWinPerDayIff(r', trace[1..], levels);
      if trace[0].Evaluate? && Hits(r, trace[0]) {
        assert WonDays(r, trace) == [Day(trace[0].clock)] + WonDays(r', trace[1..]);
        RisingCons(r.lastEvaluated, trace[0].clock, WonDays(r', trace[1..]));
      } else {
        assert WonDays(r, trace) == WonDays(r', trace[1..]);
      }
    }
  }

  /** With no winner's clock behind, no day is won twice. */
  lemma OneWinPerDay(r: Row, trace: seq<Command>, levels: seq<Level>, i: nat, j: nat)
    requires AllWellIssued(trace, levels) && WinnersNotBehind(r, trace)
    requires i < j < |WonDays(r, trace)|
    ensures WonDays(r, trace)[i] < WonDays(r, trace)[j]
  {
    OneWinPerDayIff(r, trace, levels);
  }

  /** The evaluation at clock `c` passes the daily check of a row and then wins on it. */
  predicate CanWin(r: Row, clock: int) {
    r.lastEvaluated.None? || Day(r.lastEvaluated.value) != Day(clock)
  }

  /** The daily check compares days for equality only. So in a history without a winner behind, a day that
      was won can be won again, for the first time, exactly by a clock on a day before the row's. */
  lemma DayRepeatsIffClockBehind(r: Row, trace: seq<Command>, levels: seq<Level>, clock: int)
    requires AllWellIssued(trace, levels) && WinnersNotBehind(r, trace) && Day(clock) in WonDays(r, trace)
    ensures CanWin(Run(r, trace), clock) <==>
            Run(r, trace).lastEvaluated.Some? && Day(clock) < Day(Run(r, trace).lastEvaluated.value)
  {
    OneWinPerDayIff(r, trace, levels);
    LastWonDay(r, trace);
    var days := WonDays(r, trace);
    var k :| 0 <= k < |days| && days[k] == Day(clock);
    assert days[k] <= days[|days| - 1];
  }

  lemma {:induction false} LastWonDay(r: Row, trace: seq<Command>)
    ensures WonDays(r, trace) == [] ==> Run(r, trace).lastEvaluated == r.lastEvaluated
    ensures var days := WonDays(r, trace);
            days != [] ==>
                Run(r, trace).lastEvaluated.Some? && Day(Run(r, trace).lastEvaluated.value) == days[|days| - 1]
    decreases |trace|
  {
    if trace != [] {
      LastWonDay(Step(r, trace[0]), trace[1..]);
    }
  }

  /** And it happens: an evaluator that read its clock just before midnight and the row just after the
      next day's evaluation wins a day that was won before. */
  lemma StraddlingMidnightWinsADayTwice(r: Row, levels: seq<Level>)
    requires r.lastEvaluated == None
    ensures var trace := [Evaluate(None, 10, "A", 0, true),
                          Evaluate(Some(10), DAY_MS + 10, "B", 0, true),
                          Evaluate(Some(DAY_MS + 10), DAY_MS - 1, "A", 0, true)];
            AllWellIssued(trace, levels) && WonDays(r, trace) == [0, 1, 0]
  {
    var e1 := Evaluate(None, 10, "A", 0, true);
    var e2 := Evaluate(Some(10), DAY_MS + 10, "B", 0, true);
    var e3 := Evaluate(Some(DAY_MS + 10), DAY_MS - 1, "A", 0, true);
    var r1 := Step(r, e1);
    var r2 := Step(r1, e2);
    assert WonDays(r2, [e3]) == [0] + WonDays(Step(r2, e3), []);
    assert [e2, e3][1..] == [e3] && [e1, e2, e3][1..] == [e2, e3];
    assert WonDays(r1, [e2, e3]) == [1] + WonDays(r2, [e3]);
    assert WonDays(r, [e1, e2, e3]) == [0] + WonDays(r1, [e2, e3]);
  }

  // ----- The requests -----

  const MAX_CAS_ATTEMPTS := 5

  /** What a request reads besides the row, and what other requests do meanwhile, at its k-th await. */
  datatype World = World(
    levels: seq<Level>,
    clock: nat -> int,
    atDayStart: nat -> int,
    actual: nat -> int,
    others: nat -> seq<Command>)

  function EvaluatedLevel(lock: TierLock, w: World, k: nat): string {
    var now := w.clock(k);
    HigherLevel(
      Reached(lock, w, StartOfDay(now), w.atDayStart(k)),
      Reached(lock, w, now, w.actual(k)),
      w.levels)
  }

  /** The compare-and-set of attempt k on the row it has read. */
  function UpdateFor(read: Row, w: World, k: nat): Command {
    Evaluate(read.lastEvaluated, w.clock(k), EvaluatedLevel(read.lock, w, k), w.actual(k),
        !LockedAtDayStart(read.lock, w, k))
  }

  /** The trace ends with attempt k: the row read after its first `n` commands, what others did
      meanwhile, and the update for the row as read, which hit. */
  predicate EndsWithWin(r: Row, trace: seq<Command>, w: World, k: nat, n: nat) {
    && k < MAX_CAS_ATTEMPTS && n <= |trace|
    && var read := Run(r, trace[..n]);
       trace[n..] == w.others(2 * k + 1) + [UpdateFor(read, w, k)]
       && Hits(Run(read, w.others(2 * k + 1)), UpdateFor(read, w, k))
  }

  /** A lock that is active at some time of the day was active at its start, so the evaluation neither
      clears it nor ranks below its tier. */
  lemma EvaluationRespectsLock(lock: TierLock, w: World, k: nat)
    requires Ladder(w.levels)
    requires EffectiveTotal(w.actual(k), lock, LockMin(lock, w.levels), w.clock(k)).lockActive
    ensures EffectiveTotal(w.atDayStart(k), lock, LockMin(lock, w.levels), StartOfDay(w.clock(k))).lockActive
    ensures Rank(EvaluatedLevel(lock, w, k), w.levels) >= Rank(lock.level.value, w.levels)
  {
    assert StartOfDay(w.clock(k)) <= w.clock(k);
    LockIsAFloor(w.actual(k), lock, w.levels, w.clock(k));
  }

  function Max(x: int, y: int): int {
    if x >= y then x else y
  }

  /** The evaluated level ranks as the one matched by the larger of the two effective totals, whatever the
      windows and the lock. */
  lemma EvaluationTakesTheHigher(lock: TierLock, w: World, k: nat)
    requires Ladder(w.levels)
    ensures var lockMin := LockMin(lock, w.levels);
            var atDayStart := EffectiveTotal(w.atDayStart(k), lock, lockMin, StartOfDay(w.clock(k))).points;
            var soFar := EffectiveTotal(w.actual(k), lock, lockMin, w.clock(k)).points;
            Rank(EvaluatedLevel(lock, w, k), w.levels) == Rank(MatchLevel(Max(atDayStart, soFar), w.levels), w.levels)
  {
    var lockMin := LockMin(lock, w.levels);
    var atDayStart := EffectiveTotal(w.atDayStart(k), lock, lockMin, StartOfDay(w.clock(k))).points;
    var soFar := EffectiveTotal(w.actual(k), lock, lockMin, w.clock(k)).points;
    if atDayStart <= soFar {
      MatchIsMonotone(atDayStart, soFar, w.levels);
    } else {
      MatchIsMonotone(soFar, atDayStart, w.levels);
    }
  }

  /** The lock runs at that time and names a level of the ladder. */
  predicate ActiveFrom(lock: TierLock, levels: seq<Level>, t: int) {
    && lock.until.Some? && t < lock.until.value && lock.bonusPoints.Some?
    && lock.level.Some? && lock.level.value != ""
    && exists i :: 0 <= i < |levels| && levels[i].level == lock.level.value
  }

  predicate NoAssignment(trace: seq<Command>) {
    forall i :: 0 <= i < |trace| ==> !trace[i].AssignLock?
  }

  lemma LockedIffActive(lock: TierLock, w: World, k: nat)
    ensures LockedAtDayStart(lock, w, k) <==> ActiveFrom(lock, w.levels, w.clock(k) / 86400000 * 86400000)
  {
    if lock.level.Some? {
      FoundIffOnLadder(lock.level.value, w.levels);
    }
  }

  /** A winning evaluation, as `RecomputeAgencyLevel` reports it, leaves a lock that was active when the day
      began, and drops any other one. */
  lemma WinnerKeepsActiveLock(r: Row, trace: seq<Command>, w: World, k: nat, n: nat)
    requires EndsWithWin(r, trace, w, k, n)
    ensures var read := Run(r, trace[..n]);
            var others := w.others(2 * k + 1);
            if ActiveFrom(read.lock, w.levels, w.clock(k) / 86400000 * 86400000)
            then NoAssignment(others) && WonDays(read, others) == [] ==> Run(r, trace).lock == read.lock
            else Run(r, trace).lock == TierLock(None, None, None)
  {
    var read, others := Run(r, trace[..n]), w.others(2 * k + 1);
    assert trace == trace[..n] + (others + [UpdateFor(read, w, k)]);
    RunAppend(r, trace[..n], others + [UpdateFor(read, w, k)]);
    RunAppend(read, others, [UpdateFor(read, w, k)]);
    LockedIffActive(read.lock, w, k);
    if NoAssignment(others) && WonDays(read, others) == [] {
      SameLock(read, others);
    }
  }

  lemma {:induction false} SameLock(r: Row, trace: seq<Command>)
    requires NoAssignment(trace) && WonDays(r, trace) == []
    ensures Run(r, trace).lock == r.lock
    decreases |trace|
  {
    if trace != [] {
      assert !trace[0].AssignLock? && forall i :: 0 <= i < |trace[1..]| ==> trace[1..][i] == trace[i + 1];
      SameLock(Step(r, trace[0]), trace[1..]);
    }
  }

  predicate LockedAtDayStart(lock: TierLock, w: World, k: nat) {
    EffectiveTotal(w.atDayStart(k), lock, LockMin(lock, w.levels), StartOfDay(w.clock(k))).lockActive
  }

  /** The compare-and-set does not look at the lock. So a lock that was assigned between the read and the
      update of an evaluation, with no other evaluation in between, is wiped out exactly when the lock that
      was read was not active at the start of the day. */
  lemma AssignedLockIsLostIff(read: Row, others: seq<Command>, lock: TierLock, w: World, k: nat)
    requires WonDays(read, others) == [] && Run(read, others).lock == lock != NO_LOCK
    ensures Step(Run(read, others), UpdateFor(read, w, k)).lock != lock <==> !LockedAtDayStart(read.lock, w, k)
  {
    LastWonDay(read, others);
  }

  /** The level that the window so far reaches. */
  function Reached(lock: TierLock, w: World, now: int, total: int): string {
    MatchLevel(EffectiveTotal(total, lock, LockMin(lock, w.levels), now).points, w.levels)
  }

  datatype EvaluationResult = Deduped | Won(level: string, total: int) | Exhausted

  class AgencyRow {
    var row: Row

    constructor (row: Row)
      ensures this.row == row
    {
      this.row := row;
    }

    /** Other requests' commands, then one of this request's own, which reports whether it hit. */
    method Send(ghost start: Row, trace: seq<Command>, others: seq<Command>, c: Command)
        returns (longer: seq<Command>, hit: bool)
      requires row == Run(start, trace)
      modifies this
      ensures longer == trace + others + [c] && row == Run(start, longer)
      ensures hit == Hits(Run(old(row), others), c) && row == Step(Run(old(row), others), c)
    {
      RunAppend(start, trace, others);
      RunAppend(start, trace + others, [c]);
      row := Run(row, others);
      hit := Hits(row, c);
      row := Step(row, c);
      longer := trace + others + [c];
    }

    /** `recomputeAgencyLevel`. A winner won at its attempt `k`, having read the row after `n` commands. */
    method RecomputeAgencyLevel(w: World, skipDailyDedupe: bool)
        returns (result: EvaluationResult, trace: seq<Command>, ghost k: nat, ghost n: nat)
      modifies this
      ensures row == Run(old(row), trace)
      ensures !skipDailyDedupe ==> forall c :: c in trace ==>
              (c.Evaluate? && WellIssued(c, w.levels)) || exists i :: c in w.others(i)
      ensures result.Won? ==> EndsWithWin(old(row), trace, w, k, n)
      ensures result.Won? ==> row.level == result.level == EvaluatedLevel(Run(old(row), trace[..n]).lock, w, k)
      ensures result.Won? ==> row.total == result.total == w.actual(k) && row.lastEvaluated == Some(w.clock(k))
      ensures result.Deduped? ==> !skipDailyDedupe && row.lastEvaluated.Some?
                                  && k < MAX_CAS_ATTEMPTS && Day(w.clock(k)) == Day(row.lastEvaluated.value)
      // Alone at the row, the first attempt decides.
      ensures (forall i :: w.others(i) == []) ==> !result.Exhausted? && k == 0
    {
      trace, k, n := [], 0, 0;
      for attempt := 0 to MAX_CAS_ATTEMPTS
        invariant row == Run(old(row), trace)
        invariant !skipDailyDedupe ==> forall c :: c in trace ==>
                  (c.Evaluate? && WellIssued(c, w.levels)) || exists i :: c in w.others(i)
        invariant (forall i :: w.others(i) == []) ==> attempt == 0
      {
        k := attempt;
        var now := w.clock(attempt);
        RunAppend(old(row), trace, w.others(2 * attempt));
        row := Run(row, w.others(2 * attempt));
        trace := trace + w.others(2 * attempt);
        n := |trace|;
        var cur := row;
        if !skipDailyDedupe && cur.lastEvaluated.Some? && Day(cur.lastEvaluated.value) == Day(now) {
          return Deduped, trace, k, n;
        }
        var update := UpdateFor(cur, w, attempt);
        ghost var upTo := trace;
        var hit;
        trace, hit := Send(old(row), trace, w.others(2 * attempt + 1), update);
        if hit {
          assert trace[..n] == upTo && trace[n..] == w.others(2 * attempt + 1) + [update];
          return Won(update.level, update.total), trace, k, n;
        }
      }
      return Exhausted, trace, k, n;
    }

    /** `refreshWindowProgress`: on a row not evaluated on the clock's day, the evaluation; otherwise a
        raise to the level reached, if that is another and not a lower one. `later` is what the evaluation
        finds at its own awaits. */
    method RefreshWindowProgress(w: World, now: int, total: int, later: World)
        returns (trace: seq<Command>, evaluation: bool)
      modifies this
      ensures row == Run(old(row), trace)
      ensures forall c :: c in trace ==>
              WellIssued(c, w.levels) || (exists k :: c in w.others(k)) || exists k :: c in later.others(k)
      ensures evaluation <==> CanWin(Run(old(row), w.others(0)), now)
      ensures !evaluation ==> row.total == total
      // Its own commands store the total or raise the level to the one reached.
      ensures !evaluation ==> var read := Run(old(row), w.others(0));
                forall c :: c in trace ==>
                    c == SetTotal(total) || c == Raise(read.level, Reached(read.lock, w, now, total), total)
                    || exists k :: c in w.others(k)
      // With nobody else at the row, the level rises to the one reached, and never falls.
      ensures !evaluation && (forall k :: w.others(k) == []) ==>
                var reached := Reached(old(row).lock, w, now, total);
                row.level ==
                    (if Rank(old(row).level, w.levels) > Rank(reached, w.levels) then old(row).level else reached)
    {
      row := Run(row, w.others(0));
      trace := w.others(0);
      var cur := row;
      evaluation := cur.lastEvaluated.None? || Day(cur.lastEvaluated.value) != Day(now);
      if evaluation {
        var _, more, _, _ := RecomputeAgencyLevel(later, false);
        RunAppend(old(row), trace, more);
        trace := trace + more;
        return;
      }
      var reached := Reached(cur.lock, w, now, total);
      var hit := false;
      if HigherLevel(reached, cur.level, w.levels) != cur.level {
        trace, hit := Send(old(row), trace, w.others(1), Raise(cur.level, reached, total));
      }
      if !hit {
        trace, hit := Send(old(row), trace, w.others(2), SetTotal(total));
      }
    }
  }
}
