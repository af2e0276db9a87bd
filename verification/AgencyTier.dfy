/** The agency tier ladder, its admin lock and its rolling window (src/utils/agencyTierLock.js and
    the window bounds of src/services/agencyTierRecompute.service.js). Times are epoch milliseconds. */
module AgencyTier {
  import opened Options

  datatype Level = Level(level: string, minWindowPoints: int)

  /** The ladder as read: ordered by its minimum, one row per level name. */
  predicate Ladder(levels: seq<Level>) {
    && (forall i, j :: 0 <= i < j < |levels| ==> levels[i].minWindowPoints <= levels[j].minWindowPoints)
    && (forall i, j :: 0 <= i < j < |levels| ==> levels[i].level != levels[j].level)
  }

  // ----- Matching and comparing levels -----

  /** The highest of the rows 0..i that the total meets, or the first row when it meets none. */
  function MatchUpTo(total: int, levels: seq<Level>, i: int): string
    requires -1 <= i < |levels| && levels != []
    decreases i + 1
  {
    if i < 0 then levels[0].level
    else if total >= levels[i].minWindowPoints then levels[i].level
    else MatchUpTo(total, levels, i - 1)
  }

  function MatchLevel(total: int, levels: seq<Level>): string {
    if levels == [] then "D" else MatchUpTo(total, levels, |levels| - 1)
  }

  method MatchAgencyLevel(total: int, levels: seq<Level>) returns (newLevel: string)
    ensures newLevel == MatchLevel(total, levels)
    ensures levels == [] ==> newLevel == "D"
  {
    newLevel := if levels == [] then "D" else levels[0].level;
    var i := |levels| - 1;
    while i >= 0
      invariant -1 <= i < |levels|
      invariant newLevel == if levels == [] then "D" else levels[0].level
      invariant levels != [] ==> MatchLevel(total, levels) == MatchUpTo(total, levels, i)
    {
      if total >= levels[i].minWindowPoints {
        return levels[i].level;
      }
      i := i - 1;
    }
  }

  /** A level's minimum; a level missing from the ladder ranks at -1. */
  function Rank(level: string, levels: seq<Level>): int {
    if levels == [] then -1
    else if levels[0].level == level then levels[0].minWindowPoints
    else Rank(level, levels[1..])
  }

  function HigherLevel(a: string, b: string, levels: seq<Level>): (r: string)
    ensures r == a || r == b
    ensures Rank(r, levels) >= Rank(a, levels) && Rank(r, levels) >= Rank(b, levels)
    ensures Rank(a, levels) == Rank(b, levels) ==> r == a
  {
    if Rank(b, levels) > Rank(a, levels) then b else a
  }

  lemma {:induction false} RankAt(levels: seq<Level>, i: nat)
    requires Ladder(levels) && i < |levels|
    ensures Rank(levels[i].level, levels) == levels[i].minWindowPoints
  {
    if i > 0 {
      assert levels[0].level != levels[i].level;
      assert levels[1..][i - 1] == levels[i];
      RankAt(levels[1..], i - 1);
    }
  }

  /** The matched level is on the ladder, and no row the total meets ranks above it. It is itself met
      whenever the lowest minimum is. */
  lemma {:induction false} MatchIsHighest(total: int, levels: seq<Level>, k: nat) returns (i: nat)
    requires Ladder(levels) && k < |levels|
    requires forall j :: k < j < |levels| ==> total < levels[j].minWindowPoints
    ensures i < |levels| && MatchUpTo(total, levels, k) == levels[i].level
    ensures Rank(levels[i].level, levels) == levels[i].minWindowPoints
    ensures levels[0].minWindowPoints <= total ==> levels[i].minWindowPoints <= total
    ensures total < levels[0].minWindowPoints ==> i == 0
    ensures forall j :: 0 <= j < |levels| && levels[j].minWindowPoints <= total ==>
            levels[j].minWindowPoints <= levels[i].minWindowPoints
  {
    if total >= levels[k].minWindowPoints {
      i := k;
    } else if k == 0 {
      i := 0;
      assert MatchUpTo(total, levels, -1) == levels[0].level;
    } else {
      i := MatchIsHighest(total, levels, k - 1);
    }
    RankAt(levels, i);
  }

  /** More points never match a lower level. */
  lemma MatchIsMonotone(a: int, b: int, levels: seq<Level>)
    requires Ladder(levels) && a <= b
    ensures Rank(MatchLevel(a, levels), levels) <= Rank(MatchLevel(b, levels), levels)
  {
    if levels != [] {
      var i := MatchIsHighest(a, levels, |levels| - 1);
      var j := MatchIsHighest(b, levels, |levels| - 1);
    }
  }

  // ----- The tier lock -----

  datatype TierLock = TierLock(level: Option<string>, until: Option<int>, bonusPoints: Option<int>)

  const NO_LOCK := TierLock(None, None, None)

  predicate IsLockActive(lock: TierLock, now: int) {
    && lock.until.Some? && lock.until.value > now
    && lock.level.Some? && lock.level.value != ""
    && lock.bonusPoints.Some?
  }

  datatype Effective = Effective(points: int, lockActive: bool)

  function EffectiveTotal(actual: int, lock: TierLock, lockMin: Option<int>, now: int): (e: Effective)
    ensures e.lockActive <==> && lock.until.Some? && now < lock.until.value && lock.level.Some?
                              && |lock.level.value| > 0 && lock.bonusPoints.Some? && lockMin.Some?
    ensures e.lockActive ==> e.points >= lockMin.value && e.points >= actual + lock.bonusPoints.value
    ensures e.lockActive ==> e.points in {lockMin.value, actual + lock.bonusPoints.value}
    ensures !e.lockActive ==> e.points == actual
  {
    if !IsLockActive(lock, now) || lockMin.None? then Effective(actual, false)
    else
      var withBonus := actual + lock.bonusPoints.value;
      Effective(if withBonus > lockMin.value then withBonus else lockMin.value, true)
  }

  /** The minimum of the lock's level, when the ladder has that level. */
  function LockMin(lock: TierLock, levels: seq<Level>): Option<int> {
    if lock.level.None? || lock.level.value == "" then None else FindMin(lock.level.value, levels)
  }

  function FindMin(level: string, levels: seq<Level>): Option<int> {
    if levels == [] then None
    else if levels[0].level == level then Some(levels[0].minWindowPoints)
    else FindMin(level, levels[1..])
  }

  lemma {:induction false} FindMinIsRank(level: string, levels: seq<Level>) returns (i: nat)
    requires FindMin(level, levels).Some?
    ensures Rank(level, levels) == FindMin(level, levels).value
    ensures i < |levels| && levels[i] == Level(level, FindMin(level, levels).value)
  {
    if levels[0].level == level {
      i := 0;
    } else {
      i := FindMinIsRank(level, levels[1..]);
      i := i + 1;
    }
  }

  /** The minimum is found exactly when the ladder has the level; a level that it lacks ranks lowest. */
  lemma {:induction false} FoundIffOnLadder(level: string, levels: seq<Level>)
    ensures FindMin(level, levels).Some? <==> exists i :: 0 <= i < |levels| && levels[i].level == level
    ensures FindMin(level, levels).None? ==> Rank(level, levels) == -1
  {
    if levels != [] {
      FoundIffOnLadder(level, levels[1..]);
      if levels[0].level != level && FindMin(level, levels).Some? {
        var i :| 0 <= i < |levels[1..]| && levels[1..][i].level == level;
        assert levels[i + 1].level == level;
      }
      if i :| 0 <= i < |levels| && levels[i].level == level && i > 0 {
        assert levels[1..][i - 1].level == level;
      }
    }
  }

  /** While the lock is active, the level matched for any actual total ranks at least as the locked tier. */
  lemma LockIsAFloor(actual: int, lock: TierLock, levels: seq<Level>, now: int)
    requires Ladder(levels) && EffectiveTotal(actual, lock, LockMin(lock, levels), now).lockActive
    ensures Rank(MatchLevel(EffectiveTotal(actual, lock, LockMin(lock, levels), now).points, levels), levels)
            >= Rank(lock.level.value, levels)
  {
    var k := FindMinIsRank(lock.level.value, levels);
    var points := EffectiveTotal(actual, lock, LockMin(lock, levels), now).points;
    var i := MatchIsHighest(points, levels, |levels| - 1);
  }

  // ----- The rolling window -----

  const MINUTE_MS := 60000
  const DAY_MS := 86400000

  function Day(t: int): int {
    t / DAY_MS
  }

  function StartOfDay(t: int): int {
    Day(t) * DAY_MS
  }

  function TotalMinutes(days: int, hours: int, minutes: int): int {
    var total := days * 24 * 60 + hours * 60 + minutes;
    if total > 1 then total else 1
  }

  /** The window is [WindowStart, now): anchored to midnight UTC when it is a number of whole days. */
  function WindowStart(now: int, totalMinutes: int): int {
    (if totalMinutes % (24 * 60) == 0 then StartOfDay(now) else now) - totalMinutes * MINUTE_MS
  }

  /** The window reaches back for its whole length from now, or, when that is a number of whole days, from the
      last midnight UTC. */
  lemma WindowReachesBack(now: int, days: int, hours: int, minutes: int)
    requires days * 1440 + hours * 60 + minutes >= 1
    ensures var length := (days * 1440 + hours * 60 + minutes) * 60000;
            var start := WindowStart(now, TotalMinutes(days, hours, minutes));
            if length % 86400000 == 0
            then start % 86400000 == 0 && start + length <= now < start + length + 86400000
            else start + length == now
  {
    var n := days * 1440 + hours * 60 + minutes;
    assert TotalMinutes(days, hours, minutes) == n;
    assert n % 1440 == 0 <==> (n * 60000) % 86400000 == 0;
    if n % 1440 == 0 {
      assert n == n / 1440 * 1440;
      assert StartOfDay(now) - n * 60000 == (Day(now) - n / 1440) * 86400000;
    }
  }

  /** A credit as one read finds it: it counts unless it was reversed or its host suspended or deleted. */
  datatype Credit = Credit(at: int, points: nat, counted: bool)

  function PointsIn(c: Credit, from: int, until: int): nat {
    if c.counted && from <= c.at < until then c.points else 0
  }

  function WindowTotal(ledger: seq<Credit>, from: int, until: int): nat {
    if ledger == [] then 0 else PointsIn(ledger[0], from, until) + WindowTotal(ledger[1..], from, until)
  }

  /** The total is that of the credits that count and were given in the window, each with all its points. */
  lemma {:induction false} OneCreditMore(ledger: seq<Credit>, c: Credit, from: int, until: int)
    ensures WindowTotal(ledger + [c], from, until)
            == WindowTotal(ledger, from, until) + if c.counted && from <= c.at && c.at < until then c.points else 0
  {
    if ledger == [] {
      assert [] + [c] == [c];
      assert WindowTotal([c][1..], from, until) == 0;
    } else {
      assert (ledger + [c])[0] == ledger[0] && (ledger + [c])[1..] == ledger[1..] + [c];
      OneCreditMore(ledger[1..], c, from, until);
    }
  }

  /** A later read finds the same credits, which may count or not count any more, and new ones. */
  predicate ReadLater(ledger: seq<Credit>, later: seq<Credit>) {
    && |ledger| <= |later|
    && forall i :: 0 <= i < |ledger| ==> later[i].at == ledger[i].at && later[i].points == ledger[i].points
  }

  /** The points in the window that counted at the first read and do not count any more at the second. */
  function Lost(ledger: seq<Credit>, later: seq<Credit>, from: int, until: int): nat
    requires |ledger| <= |later|
  {
    if ledger == [] then 0
    else (if later[0].counted then 0 else PointsIn(ledger[0], from, until)) + Lost(ledger[1..], later[1..], from, until)
  }

  /** The points counted at the second read that were not counted at the first. */
  function Gained(ledger: seq<Credit>, later: seq<Credit>, from: int, until: int, until': int): nat
    requires |ledger| <= |later|
  {
    if later == [] then 0
    else if ledger == [] then PointsIn(later[0], from, until') + Gained([], later[1..], from, until, until')
    else
      (if PointsIn(ledger[0], from, until) > 0 then 0 else PointsIn(later[0], from, until'))
      + Gained(ledger[1..], later[1..], from, until, until')
  }

  lemma {:induction false} Balance(ledger: seq<Credit>, later: seq<Credit>, from: int, until: int, until': int)
    requires ReadLater(ledger, later) && until <= until'
    ensures WindowTotal(later, from, until') + Lost(ledger, later, from, until)
            == WindowTotal(ledger, from, until) + Gained(ledger, later, from, until, until')
  {
    if later != [] {
      Balance(if ledger == [] then [] else ledger[1..], later[1..], from, until, until');
    }
  }

  lemma {:induction false} NothingLost(ledger: seq<Credit>, later: seq<Credit>, from: int, until: int)
    requires |ledger| <= |later| && forall i :: 0 <= i < |ledger| && ledger[i].counted ==> later[i].counted
    ensures Lost(ledger, later, from, until) == 0
  {
    if ledger != [] {
      assert forall i :: 0 <= i < |ledger[1..]| ==> ledger[1..][i] == ledger[i + 1] && later[1..][i] == later[i + 1];
      NothingLost(ledger[1..], later[1..], from, until);
    }
  }

  /** With a window of whole days, no credit leaves the window within a UTC day. So from one read of a day to a
      later one the total falls exactly when more points have stopped to count than new ones were gained; when
      none has, it only grows. */
  lemma WithinADayTheTotalGrows(ledger: seq<Credit>, later: seq<Credit>, days: int, hours: int, minutes: int,
      t1: int, t2: int)
    requires t1 <= t2 && Day(t1) == Day(t2) && TotalMinutes(days, hours, minutes) % (24 * 60) == 0
    requires ReadLater(ledger, later)
    ensures var n := TotalMinutes(days, hours, minutes);
            var from := WindowStart(t1, n);
            && WindowStart(t2, n) == from == WindowStart(StartOfDay(t1), n)
            && (WindowTotal(later, WindowStart(t2, n), t2) < WindowTotal(ledger, from, t1) <==>
                Lost(ledger, later, from, t1) > Gained(ledger, later, from, t1, t2))
            && ((forall i :: 0 <= i < |ledger| && ledger[i].counted ==> later[i].counted) ==>
                WindowTotal(ledger, from, t1) <= WindowTotal(later, WindowStart(t2, n), t2))
  {
    var n := TotalMinutes(days, hours, minutes);
    var from := WindowStart(t1, n);
    assert Day(StartOfDay(t1)) == Day(t1);
    Balance(ledger, later, from, t1, t2);
    if forall i :: 0 <= i < |ledger| && ledger[i].counted ==> later[i].counted {
      NothingLost(ledger, later, from, t1);
    }
  }
}
