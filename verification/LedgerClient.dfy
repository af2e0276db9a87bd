/** The client of the external ledger (`callLedger` in src/services/ledgerClient.js): up to three attempts
    with one requestId inside a time budget. A request may arrive late or never, its transaction may run
    on after the client has stopped waiting, and an attempt may be refused while an earlier one runs. */
module LedgerClient {
  import opened Options

  // ----- The ledger, as one requestId sees it -----

  /** Any status but success. */
  type ErrorStatus = s: int | !(200 <= s <= 299) witness 500

  datatype Answer = Done(replayed: bool) | Refused(status: ErrorStatus)

  /** Attempts on their way and attempts that arrived but are undecided; the one that holds the wallet
      lock, and whether it found the requestId recorded when it took the lock; what was answered; and how
      often the requestId was charged. */
  datatype Ledger = Ledger(
    inFlight: set<nat>,
    running: set<nat>,
    holder: Option<nat>,
    found: bool,
    answers: map<nat, Answer>,
    charges: nat)

  const UNTOUCHED := Ledger({}, {}, None, false, map[], 0)

  /** What may happen at the ledger and on the network at any await, and after the call has returned. */
  datatype Event =
    | Lose(k: nat)
    | Arrive(k: nat)
    | Lock(k: nat)
    | Commit(k: nat)
    | Refuse(k: nat, status: ErrorStatus)
    | Abort(k: nat)

  function Send(l: Ledger, k: nat): Ledger {
    l.(inFlight := l.inFlight + {k})
  }

  /** The contract: a transaction looks its requestId up under the wallet lock and charges unless it is
      recorded; a retry of a request that did commit is not refused. A refusal needs no lock, so it may
      overtake a running attempt. */
  predicate Happens(l: Ledger, e: Event) {
    match e
    case Lose(k) => k in l.inFlight
    case Arrive(k) => k in l.inFlight
    case Lock(k) => k in l.running && l.holder == None
    case Commit(k) => l.holder == Some(k)
    case Refuse(k, _) => k in l.running && l.charges == 0
    case Abort(k) => k in l.running
  }

  /** The attempt leaves the ledger, and with it its lock. */
  function Leave(l: Ledger, k: nat): Ledger {
    l.(running := l.running - {k}, holder := if l.holder == Some(k) then None else l.holder)
  }

  function Step(l: Ledger, e: Event): Ledger {
    if !Happens(l, e) then l else
    match e
    case Lose(k) => l.(inFlight := l.inFlight - {k})
    case Arrive(k) => l.(inFlight := l.inFlight - {k}, running := l.running + {k})
    case Lock(k) => l.(holder := Some(k), found := l.charges > 0)
    case Commit(k) =>
      Leave(l, k).(answers := l.answers[k := Done(l.found)], charges := if l.found then l.charges else l.charges + 1)
    case Refuse(k, status) => Leave(l, k).(answers := l.answers[k := Refused(status)])
    case Abort(k) => Leave(l, k)
  }

  function Run(l: Ledger, events: seq<Event>): Ledger
    decreases |events|
  {
    if events == [] then l else Run(Step(l, events[0]), events[1..])
  }

  /** The attempts that may still commit. */
  function Open(l: Ledger): set<nat> {
    l.inFlight + l.running
  }

  ghost predicate Sound(l: Ledger) {
    && l.inFlight !! l.running && l.answers.Keys !! Open(l)
    && (l.holder.Some? ==> l.holder.value in l.running && (l.found <==> l.charges > 0))
    && (l.charges > 0 <==> exists k :: k in l.answers && l.answers[k] == Done(false))
    && (forall k :: k in l.answers && l.answers[k].Done? ==> l.charges > 0)
    && l.charges <= 1
  }

  lemma StepKeeps(l: Ledger, e: Event)
    requires Sound(l)
    ensures Sound(Step(l, e))
    ensures Open(Step(l, e)) <= Open(l) && l.charges <= Step(l, e).charges
    ensures forall k :: k in l.answers ==> k in Step(l, e).answers && Step(l, e).answers[k] == l.answers[k]
    ensures Step(l, e).answers.Keys <= l.answers.Keys + Open(l)
  {
    var l' := Step(l, e);
    if Happens(l, e) && e.Commit? {
      assert l'.answers[e.k] == Done(l.found);
    }
    if l.charges > 0 {
      var k :| k in l.answers && l.answers[k] == Done(false);
      assert k in l'.answers && l'.answers[k] == Done(false);
    }
  }

  /** Whatever happens, the requestId is charged at most once; answers are final, and nobody who was not
      open can still commit. */
  lemma {:induction false} RunKeeps(l: Ledger, events: seq<Event>)
    requires Sound(l)
    ensures Sound(Run(l, events)) && l.charges <= Run(l, events).charges <= 1
    ensures Open(Run(l, events)) <= Open(l)
    ensures forall k :: k in l.answers ==> k in Run(l, events).answers && Run(l, events).answers[k] == l.answers[k]
    ensures Run(l, events).answers.Keys <= l.answers.Keys + Open(l)
    decreases |events|
  {
    if events != [] {
      StepKeeps(l, events[0]);
      RunKeeps(Step(l, events[0]), events[1..]);
    }
  }

  lemma {:induction false} ClosedStays(l: Ledger, events: seq<Event>)
    requires Sound(l) && Open(l) == {}
    ensures Run(l, events) == l
    decreases |events|
  {
    if events != [] {
      assert l.inFlight == {} && l.running == {};
      assert Step(l, events[0]) == l;
      ClosedStays(l, events[1..]);
    }
  }

  /** Any open attempt of an uncharged request may still charge it. */
  lemma OpenMayCharge(l: Ledger) returns (later: seq<Event>)
    requires Sound(l) && l.charges == 0 && Open(l) != {}
    ensures Run(l, later).charges == 1
  {
    if l.holder.Some? {
      later := [Commit(l.holder.value)];
      RunOne(l, later[0]);
    } else if l.running != {} {
      var k :| k in l.running;
      var l1 := Step(l, Lock(k));
      RunOne(l1, Commit(k));
      later := [Lock(k), Commit(k)];
      assert later[1..] == [Commit(k)];
    } else {
      var k :| k in l.inFlight;
      var l1 := Step(l, Arrive(k));
      var l2 := Step(l1, Lock(k));
      RunOne(l2, Commit(k));
      later := [Arrive(k), Lock(k), Commit(k)];
      assert later[1..] == [Lock(k), Commit(k)] && later[1..][1..] == [Commit(k)];
      assert Run(l1, [Lock(k), Commit(k)]) == Run(l2, [Commit(k)]);
    }
  }

  lemma RunOne(l: Ledger, e: Event)
    ensures Run(l, [e]) == Step(l, e)
  {
    assert Run(Step(l, e), [e][1..]) == Step(l, e);
  }

  /** A failed call has left the request uncharged for good exactly when it is uncharged and no attempt is
      open any more. */
  lemma UnchargedForGoodIff(l: Ledger)
    requires Sound(l)
    ensures (forall later :: Run(l, later).charges == 0) <==> l.charges == 0 && Open(l) == {}
  {
    if l.charges == 0 && Open(l) == {} {
      forall later ensures Run(l, later).charges == 0 {
        ClosedStays(l, later);
      }
    } else if l.charges == 0 {
      var later := OpenMayCharge(l);
      assert Run(l, later).charges != 0;
    } else {
      var none: seq<Event> := [];
      assert Run(l, none).charges != 0;
    }
  }

  /** A charged request is charged once, for good. */
  lemma ChargedForGood(l: Ledger, later: seq<Event>)
    requires Sound(l) && l.charges == 1
    ensures Run(l, later).charges == 1
  {
    RunKeeps(l, later);
  }

  /** At most one attempt is told that it made the charge; the others replay it. */
  lemma OneCharge(l: Ledger, events: seq<Event>, j: nat, k: nat)
    requires Sound(l) && l.charges == 0
    requires j in Run(l, events).answers && Run(l, events).answers[j] == Done(false)
    requires k in Run(l, events).answers && Run(l, events).answers[k] == Done(false)
    ensures j == k
  {
    OneChargeFrom(l, events, j, k);
  }

  lemma {:induction false} OneChargeFrom(l: Ledger, events: seq<Event>, j: nat, k: nat)
    requires Sound(l)
    requires forall a, b :: a in l.answers && b in l.answers && l.answers[a] == Done(false) == l.answers[b] ==> a == b
    requires j in Run(l, events).answers && Run(l, events).answers[j] == Done(false)
    requires k in Run(l, events).answers && Run(l, events).answers[k] == Done(false)
    ensures j == k
    decreases |events|
  {
    if events != [] {
      StepKeeps(l, events[0]);
      OneChargeFrom(Step(l, events[0]), events[1..], j, k);
    }
  }

  // ----- The client -----

  const ATTEMPT_TIMEOUT_MS := 18000
  const TOTAL_BUDGET_MS := 19000
  const MIN_ATTEMPT_MS := 1000
  const RETRY_DELAYS_MS := [100, 300]

  /** Answers that are retried like a network error. */
  predicate IsRetryStatus(status: int) {
    status == 502 || status == 503 || status == 504
  }

  function Min(x: int, y: int): int {
    if x <= y then x else y
  }

  function Max(x: int, y: int): int {
    if x >= y then x else y
  }

  /** What the network makes of one attempt, given all the time in the world: an error, a gateway's status,
      or the head of the ledger's answer after `ms` and its body after another `bodyMs`. */
  datatype Fate =
    | NetworkError(ms: nat)
    | Gateway(ms: nat, status: ErrorStatus)
    | Reply(ms: nat, bodyMs: nat)

  /** How an attempt ended. The body of an answer is lost when its time runs out. */
  datatype Outcome = Failed | TimedOut | HttpError(status: ErrorStatus) | Ok(replayed: Option<bool>) {
    /** The call goes on after this. */
    predicate Retried() {
      Failed? || TimedOut? || (HttpError? && IsRetryStatus(status))
    }
  }

  /** What the client sees of an attempt: how it ended and how long it took. */
  datatype View = View(outcome: Outcome, ms: nat)

  datatype CallResult =
    | Success(replayed: Option<bool>)
    | Rejected(status: ErrorStatus)
    | GaveUp(lastStatus: Option<ErrorStatus>, outcomeUnknown: bool)

  datatype Limits = Limits(attemptTimeoutMs: int, budgetMs: int)

  const DEFAULTS := Limits(ATTEMPT_TIMEOUT_MS, TOTAL_BUDGET_MS)

  /** The time limit of an attempt that starts at `now`, in milliseconds since the call began. */
  function Timeout(c: Limits, now: int): nat {
    Max(1, Min(c.attemptTimeoutMs, c.budgetMs - now))
  }

  /** Too little of the budget is left for another attempt. */
  predicate TooLate(c: Limits, now: int) {
    c.budgetMs - now < Min(MIN_ATTEMPT_MS, c.attemptTimeoutMs)
  }

  /** What the client would see of attempt k under a time limit. */
  type Sight = (nat, nat) -> View

  function Delay(k: nat): nat {
    if 1 <= k <= |RETRY_DELAYS_MS| then RETRY_DELAYS_MS[k - 1] else 0
  }

  /** When attempt k starts, given the attempts before it; with all of them, when the next one would. */
  function StartOf(views: seq<View>, k: nat): int
    requires k <= |views|
  {
    if k == 0 then 0 else StartOf(views, k - 1) + views[k - 1].ms + Delay(k)
  }

  /** Attempt k of a call comes to pass, and this is what the client sees of it. */
  predicate Seen(c: Limits, sight: Sight, views: seq<View>, k: nat)
    requires k < |views|
  {
    && views[k] == sight(k, Timeout(c, StartOf(views, k)))
    && (k > 0 ==> views[k - 1].outcome.Retried() && !TooLate(c, StartOf(views, k)))
  }

  ghost predicate AllSeen(c: Limits, sight: Sight, views: seq<View>) {
    |views| <= |RETRY_DELAYS_MS| + 1 && forall k :: 0 <= k < |views| ==> Seen(c, sight, views, k)
  }

  /** There is no attempt after these. */
  predicate NoMore(c: Limits, views: seq<View>) {
    views != []
    && (!views[|views| - 1].outcome.Retried() || |views| > |RETRY_DELAYS_MS| || TooLate(c, StartOf(views, |views|)))
  }

  /** These are the attempts of a call, from the first to the last. */
  ghost predicate IsCall(c: Limits, sight: Sight, views: seq<View>) {
    AllSeen(c, sight, views) && NoMore(c, views)
  }

  /** When it is over: unless it is answered, it waits once more before it finds its budget used up. */
  function Elapsed(views: seq<View>): int
    requires views != []
  {
    var last := |views| - 1;
    if views[last].outcome.Retried() then StartOf(views, |views|) else StartOf(views, last) + views[last].ms
  }

  predicate SomeTimedOut(views: seq<View>) {
    exists k :: 0 <= k < |views| && views[k].outcome.TimedOut?
  }

  /** A retry starts 100 ms after the first attempt has ended, a second one 300 ms after that; and each attempt
      may take its whole timeout, or what is left of the budget, but always some time. */
  lemma Schedule(c: Limits, views: seq<View>)
    ensures StartOf(views, 0) == 0
    ensures |views| >= 1 ==> StartOf(views, 1) == views[0].ms + 100
    ensures |views| >= 2 ==> StartOf(views, 2) == StartOf(views, 1) + views[1].ms + 300
    ensures views != [] ==>
              var n := |views|;
              if !views[n - 1].outcome.Retried() || n == 3
              then Elapsed(views) == StartOf(views, n - 1) + views[n - 1].ms
              else n <= 2 ==> Elapsed(views) == StartOf(views, n - 1) + views[n - 1].ms + if n == 1 then 100 else 300
    ensures forall now: int :: c.attemptTimeoutMs >= 1 ==>
              var t := Timeout(c, now);
              1 <= t && (t == 1 || t <= c.budgetMs - now) && t <= c.attemptTimeoutMs
              && (t == c.attemptTimeoutMs || t >= c.budgetMs - now)
  {
    if |views| >= 2 {
      assert StartOf(views, 2) == StartOf(views, 1) + views[1].ms + Delay(2);
    }
  }

  /** The last outcome decides; a call that gave up is of unknown outcome when an attempt timed out. */
  function ResultOf(views: seq<View>): CallResult
    requires views != []
  {
    var last := views[|views| - 1].outcome;
    if last.Ok? then Success(last.replayed)
    else if last.HttpError? && !IsRetryStatus(last.status) then Rejected(last.status)
    else GaveUp(if last.HttpError? then Some(last.status) else None, SomeTimedOut(views))
  }

  lemma {:induction false} SameStarts(views: seq<View>, v: View, k: nat)
    requires k <= |views|
    ensures StartOf(views + [v], k) == StartOf(views, k)
  {
    if k > 0 {
      SameStarts(views, v, k - 1);
    }
  }

  lemma OneMore(c: Limits, sight: Sight, views: seq<View>, v: View)
    requires AllSeen(c, sight, views) && |views| <= |RETRY_DELAYS_MS|
    requires v == sight(|views|, Timeout(c, StartOf(views, |views|)))
    requires views != [] ==> views[|views| - 1].outcome.Retried() && !TooLate(c, StartOf(views, |views|))
    ensures AllSeen(c, sight, views + [v])
    ensures StartOf(views + [v], |views| + 1) == StartOf(views, |views|) + v.ms + Delay(|views| + 1)
    ensures Elapsed(views + [v])
            == if v.outcome.Retried() then StartOf(views + [v], |views| + 1) else StartOf(views, |views|) + v.ms
    ensures SomeTimedOut(views + [v]) <==> SomeTimedOut(views) || v.outcome.TimedOut?
  {
    var more := views + [v];
    SameStarts(views, v, |views|);
    forall k | 0 <= k < |more| ensures Seen(c, sight, more, k) {
      SameStarts(views, v, k);
      assert k < |views| ==> Seen(c, sight, views, k) && more[k] == views[k];
      assert k > 0 ==> more[k - 1] == views[k - 1];
    }
    assert more[|views|] == v && forall k :: 0 <= k < |views| ==> more[k] == views[k];
  }

  // ----- Laws of the loop, whatever the client sees -----

  /** No attempt takes longer than its limit, and one that times out takes all of it. */
  ghost predicate InTime(sight: Sight) {
    forall k, t: nat :: sight(k, t).ms <= t && (sight(k, t).outcome.TimedOut? ==> sight(k, t).ms == t)
  }

  /** Every attempt but the last is retried; a call gives up only after three attempts or for lack of budget;
      it is over 300 ms after the budget at the latest. */
  lemma LoopEnds(c: Limits, sight: Sight, views: seq<View>)
    requires IsCall(c, sight, views) && InTime(sight) && c.attemptTimeoutMs >= 1
    ensures forall k :: 0 <= k < |views| - 1 ==> views[k].outcome.Retried()
    ensures ResultOf(views).GaveUp? ==>
              |views| == 3 || (c.budgetMs - Elapsed(views) < 1000 && c.budgetMs - Elapsed(views) < c.attemptTimeoutMs)
    ensures 0 <= Elapsed(views) <= Max(c.budgetMs, 1) + 300
  {
    forall k | 0 <= k < |views| - 1 ensures views[k].outcome.Retried() {
      assert Seen(c, sight, views, k + 1);
    }
    InBudget(c, sight, views, |views| - 1);
  }

  lemma {:induction false} InBudget(c: Limits, sight: Sight, views: seq<View>, k: nat)
    requires AllSeen(c, sight, views) && InTime(sight) && c.attemptTimeoutMs >= 1 && k < |views|
    ensures 0 <= StartOf(views, k) <= StartOf(views, k) + views[k].ms <= Max(c.budgetMs, 1)
  {
    assert Seen(c, sight, views, k);
    if k > 0 {
      InBudget(c, sight, views, k - 1);
    }
  }

  /** A timed-out attempt is retried only if the limits leave room for a second one after a whole timeout. */
  lemma RetriedTimeout(c: Limits, sight: Sight, views: seq<View>, k: nat)
    requires IsCall(c, sight, views) && InTime(sight) && c.attemptTimeoutMs >= 1
    requires k < |views| - 1 && views[k].outcome.TimedOut?
    ensures c.budgetMs - c.attemptTimeoutMs - 100 >= 1000 || c.budgetMs - c.attemptTimeoutMs - 100 >= c.attemptTimeoutMs
  {
    InBudget(c, sight, views, k);
    assert Seen(c, sight, views, k) && Seen(c, sight, views, k + 1);
    assert Delay(k + 1) >= Delay(1);
  }

  /** A first attempt that timed out is retried exactly when the limits leave room for a second one. */
  lemma FirstTimeoutIsRetriedIff(c: Limits, sight: Sight, views: seq<View>)
    requires IsCall(c, sight, views) && views[0].outcome.TimedOut?
    ensures |views| > 1 <==>
            c.budgetMs - views[0].ms - 100 >= 1000 || c.budgetMs - views[0].ms - 100 >= c.attemptTimeoutMs
  {
    assert StartOf(views, 1) == views[0].ms + 100;
    if |views| > 1 {
      assert Seen(c, sight, views, 1);
    }
  }

  /** With the limits that every operation uses, no attempt is retried after a timeout. */
  lemma DefaultsNeverRetryATimeout(sight: Sight, views: seq<View>, k: nat)
    requires IsCall(DEFAULTS, sight, views) && InTime(sight)
    requires k < |views| - 1
    ensures !views[k].outcome.TimedOut?
  {
    if views[k].outcome.TimedOut? {
      RetriedTimeout(DEFAULTS, sight, views, k);
    }
  }

  // ----- The ledger's side of a call -----

  /** What becomes of the attempts: `events(2k)` happen while the client waits to send attempt k, and
      `events(2k + 1)` while it waits for the answer. */
  datatype World = World(fates: nat -> Fate, events: nat -> seq<Event>)

  /** The ledger when attempt k is sent, and when it has ended. */
  function Waiting(w: World, k: nat): Ledger
    decreases k, 0
  {
    if k == 0 then UNTOUCHED else Run(Ended(w, k - 1), w.events(2 * k))
  }

  function Ended(w: World, k: nat): Ledger
    decreases k, 1
  {
    Run(Send(Waiting(w, k), k), w.events(2 * k + 1))
  }

  /** The end of attempt k, with the ledger as the attempt leaves it. Without an answer there is no reply. */
  function ViewOf(l: Ledger, k: nat, fate: Fate, timeout: nat): View {
    if fate.ms > timeout || (fate.Reply? && k !in l.answers) then View(TimedOut, timeout)
    else match fate
      case NetworkError(ms) => View(Failed, ms)
      case Gateway(ms, status) => View(HttpError(status), ms)
      case Reply(ms, bodyMs) =>
        var whole := ms + bodyMs <= timeout;
        var spent := if whole then ms + bodyMs else timeout;
        match l.answers[k]
        case Done(replayed) => View(Ok(if whole then Some(replayed) else None), spent)
        case Refused(status) => View(HttpError(status), spent)
  }

  /** What the client sees is what becomes of its attempts at the ledger. */
  ghost predicate Shows(w: World, sight: Sight) {
    forall k: nat, t: nat {:trigger ViewOf(Ended(w, k), k, w.fates(k), t)} ::
      sight(k, t) == ViewOf(Ended(w, k), k, w.fates(k), t)
  }

  function SightOf(w: World): Sight {
    (k: nat, timeout: nat) => ViewOf(Ended(w, k), k, w.fates(k), timeout)
  }

  /** The ledger when the call returns. */
  function LedgerAtEnd(w: World, views: seq<View>): Ledger
    requires views != []
  {
    var n := |views|;
    if views[n - 1].outcome.Retried() && n <= |RETRY_DELAYS_MS| then Waiting(w, n) else Ended(w, n - 1)
  }

  class LedgerServer {
    const world: World
    var ledger: Ledger
    ghost var attempts: nat
    ghost var waited: bool

    /** So many attempts have been made, and the client has waited to make the next one, or not yet. */
    ghost predicate Valid()
      reads this
    {
      && (forall k {:trigger Waiting(world, k)} :: waited && k == attempts ==> ledger == Waiting(world, k))
      && (forall k: nat {:trigger Ended(world, k)} :: !waited && k + 1 == attempts ==> ledger == Ended(world, k))
    }

    constructor (world: World)
      ensures Valid() && ledger == UNTOUCHED && attempts == 0 && waited && this.world == world
    {
      this.world := world;
      ledger, attempts, waited := UNTOUCHED, 0, true;
    }

    /** The wait before a retry. */
    method Await(k: nat)
      requires Valid() && !waited && k == attempts > 0
      modifies this
      ensures Valid() && waited && attempts == k
    {
      ledger := Run(ledger, world.events(2 * k));
      waited := true;
    }

    /** The next attempt: send the request and wait, at most until the timeout. */
    method Attempt(k: nat, timeout: nat, ghost sight: Sight) returns (view: View)
      requires Valid() && waited && k == attempts && Shows(world, sight)
      modifies this
      ensures Valid() && !waited && attempts == k + 1
      ensures view == sight(k, timeout)
    {
      assert ledger == Waiting(world, k);
      ledger := Run(Send(ledger, k), world.events(2 * k + 1));
      assert ledger == Ended(world, k);
      view := ViewOf(ledger, k, world.fates(k), timeout);
      assert view == ViewOf(Ended(world, k), k, world.fates(k), timeout);
      attempts, waited := k + 1, false;
    }
  }

  /** The retry loop of `callLedger`. */
  method Retry(server: LedgerServer, c: Limits, ghost sight: Sight)
      returns (result: CallResult, elapsed: int, ghost views: seq<View>)
    requires server.Valid() && server.attempts == 0 && server.waited && Shows(server.world, sight)
    modifies server
    ensures IsCall(c, sight, views) && result == ResultOf(views) && elapsed == Elapsed(views)
    ensures server.Valid() && server.attempts == |views|
    ensures server.waited <==> views[|views| - 1].outcome.Retried() && |views| <= |RETRY_DELAYS_MS|
  {
    elapsed, views := 0, [];
    var lastStatus: Option<ErrorStatus> := None;
    var timedOut := false;
    var attempt := 0;
    while attempt <= |RETRY_DELAYS_MS|
      invariant 0 <= attempt == |views| <= |RETRY_DELAYS_MS| + 1
      invariant server.Valid() && server.attempts == attempt && server.waited == (attempt == 0)
      invariant AllSeen(c, sight, views) && elapsed + Delay(attempt) == StartOf(views, attempt)
      invariant timedOut == SomeTimedOut(views)
      invariant attempt > 0 ==> views[attempt - 1].outcome.Retried() && GaveUp(lastStatus, timedOut) == ResultOf(views)
    {
      if attempt > 0 {
        elapsed := elapsed + RETRY_DELAYS_MS[attempt - 1];
        server.Await(attempt);
        if TooLate(c, elapsed) {
          return GaveUp(lastStatus, timedOut), elapsed, views;
        }
      }
      var view := server.Attempt(attempt, Timeout(c, elapsed), sight);
      elapsed := elapsed + view.ms;
      OneMore(c, sight, views, view);
      views := views + [view];
      if view.outcome.Ok? {
        return Success(view.outcome.replayed), elapsed, views;
      }
      if !view.outcome.Retried() {
        return Rejected(view.outcome.status), elapsed, views;
      }
      timedOut := timedOut || view.outcome.TimedOut?;
      lastStatus := if view.outcome.HttpError? then Some(view.outcome.status) else None;
      attempt := attempt + 1;
    }
    return GaveUp(lastStatus, timedOut), elapsed, views;
  }

  /** `callLedger`, with all that its laws say. */
  method CallLedger(server: LedgerServer, c: Limits)
      returns (result: CallResult, elapsed: int, ghost views: seq<View>)
    requires server.Valid() && server.attempts == 0 && server.waited && c.attemptTimeoutMs >= 1
    modifies server
    ensures IsCall(c, SightOf(server.world), views) && result == ResultOf(views) && elapsed == Elapsed(views)
    ensures server.ledger == LedgerAtEnd(server.world, views)
    // Charged at most once, whatever gets lost or delayed, and exactly once on success.
    ensures Sound(server.ledger) && server.ledger.charges <= 1
    ensures result.Success? ==> server.ledger.charges == 1
    // The caller is told the last answer, or, without one, whether any attempt timed out.
    ensures var last := views[|views| - 1].outcome;
            match result
            case Success(replayed) => last == Ok(replayed)
            case Rejected(status) => last == HttpError(status) && status as int !in {502, 503, 504}
            case GaveUp(lastStatus, unknown) =>
              && (unknown <==> exists k :: 0 <= k < |views| && views[k].outcome == TimedOut)
              && (if lastStatus.Some? then last == HttpError(lastStatus.value)
                  && lastStatus.value as int in {502, 503, 504}
                  else last == TimedOut || last == Failed)
    // It is over 300 ms after the budget at the latest.
    ensures 0 <= elapsed <= Max(c.budgetMs, 1) + 300
  {
    var w := server.world;
    ghost var sight := SightOf(w);
    SightFits(w);
    result, elapsed, views := Retry(server, c, sight);
    LoopEnds(c, sight, views);
    LedgerEnds(c, w, views);
    assert server.ledger == LedgerAtEnd(w, views);
  }

  // ----- Laws of every call -----

  /** No attempt from n on has been sent. */
  ghost predicate SentBefore(l: Ledger, n: nat) {
    OpenBefore(l, n) && forall k :: k in l.answers ==> k < n
  }

  ghost predicate OpenBefore(l: Ledger, n: nat) {
    forall k :: k in Open(l) ==> k < n
  }

  lemma SightFits(w: World)
    ensures InTime(SightOf(w)) && Shows(w, SightOf(w))
  {
    forall k: nat, t: nat
      ensures SightOf(w)(k, t).ms <= t && (SightOf(w)(k, t).outcome.TimedOut? ==> SightOf(w)(k, t).ms == t)
    {
      ViewInTime(Ended(w, k), k, w.fates(k), t);
    }
  }

  lemma ViewInTime(l: Ledger, k: nat, fate: Fate, timeout: nat)
    ensures var v := ViewOf(l, k, fate, timeout); v.ms <= timeout && (v.outcome.TimedOut? ==> v.ms == timeout)
  {
  }

  lemma SendKeeps(l: Ledger, k: nat)
    requires Sound(l) && SentBefore(l, k)
    ensures Sound(Send(l, k)) && SentBefore(Send(l, k), k + 1)
  {
  }

  lemma {:induction false} WorldKeeps(w: World, k: nat)
    ensures Sound(Waiting(w, k)) && SentBefore(Waiting(w, k), k)
    ensures Sound(Ended(w, k)) && SentBefore(Ended(w, k), k + 1)
    decreases k
  {
    if k > 0 {
      WorldKeeps(w, k - 1);
      RunKeeps(Ended(w, k - 1), w.events(2 * k));
    }
    SendKeeps(Waiting(w, k), k);
    RunKeeps(Send(Waiting(w, k), k), w.events(2 * k + 1));
  }

  /** However the call ends, its request is charged at most once; a success is charged; an attempt that the
      ledger has answered cannot charge any more. */
  lemma LedgerEnds(c: Limits, w: World, views: seq<View>)
    requires IsCall(c, SightOf(w), views)
    ensures var l := LedgerAtEnd(w, views);
            && Sound(l) && SentBefore(l, |views|)
            && (ResultOf(views).Success? ==> l.charges == 1)
            && (!ResultOf(views).GaveUp? && w.fates(|views| - 1).Reply? ==>
                |views| - 1 in l.answers && OpenBefore(l, |views| - 1))
  {
    var last := |views| - 1;
    WorldKeeps(w, last);
    WorldKeeps(w, last + 1);
    assert Seen(c, SightOf(w), views, last);
    AnswerCloses(Ended(w, last), last, w.fates(last), Timeout(c, StartOf(views, last)));
  }

  lemma AnswerCloses(l: Ledger, k: nat, fate: Fate, timeout: nat)
    requires Sound(l) && SentBefore(l, k + 1)
    ensures var v := ViewOf(l, k, fate, timeout);
            && (v.outcome.Ok? ==> l.charges == 1)
            && (fate.Reply? && !v.outcome.TimedOut? ==> k in l.answers && OpenBefore(l, k))
  {
  }

  /** What becomes of the attempts decides the call. */
  lemma CallIsDetermined(c: Limits, sight: Sight, views: seq<View>, others: seq<View>)
    requires IsCall(c, sight, views) && IsCall(c, sight, others)
    ensures views == others
  {
    if |views| <= |others| {
      SameSoFar(c, sight, views, others, |views|);
    } else {
      SameSoFar(c, sight, others, views, |others|);
    }
  }

  lemma {:induction false} SameSoFar(c: Limits, sight: Sight, views: seq<View>, others: seq<View>, k: nat)
    requires IsCall(c, sight, views) && IsCall(c, sight, others) && k <= |views| <= |others|
    ensures views[..k] == others[..k] && StartOf(views, k) == StartOf(others, k)
    ensures k == |views| ==> |views| == |others|
  {
    if k > 0 {
      SameSoFar(c, sight, views, others, k - 1);
      assert Seen(c, sight, views, k - 1) && Seen(c, sight, others, k - 1);
      assert views[..k] == views[..k - 1] + [views[k - 1]] && others[..k] == others[..k - 1] + [others[k - 1]];
      if k == |views| < |others| {
        assert Seen(c, sight, others, k);
      }
    }
  }

  // ----- What the client can know -----

  ghost predicate UnchargedForGood(l: Ledger) {
    forall later :: Run(l, later).charges == 0
  }

  /** The call ended with the ledger's own refusal. */
  predicate RefusedByLedger(w: World, views: seq<View>) {
    views != [] && ResultOf(views).Rejected? && w.fates(|views| - 1).Reply?
  }

  /** Whatever has become of the attempts, as long as the client sees these and the ledger refused the last
      one, the request stays uncharged. */
  ghost predicate RefusalIsFinal(c: Limits, views: seq<View>) {
    forall w :: IsCall(c, SightOf(w), views) && RefusedByLedger(w, views) ==> UnchargedForGood(LedgerAtEnd(w, views))
  }

  /** A network without the ledger's answer that looks like this. */
  function FateLike(v: View): Fate {
    match v.outcome
    case Failed => NetworkError(v.ms)
    case TimedOut => NetworkError(v.ms + 1)
    case HttpError(status) => Gateway(v.ms, status)
    case Ok(_) => Reply(v.ms, 0)
  }

  lemma LooksLike(v: View, l: Ledger, k: nat, timeout: nat)
    requires !v.outcome.Ok? && v.ms <= timeout && (v.outcome.TimedOut? ==> v.ms == timeout)
    ensures ViewOf(l, k, FateLike(v), timeout) == v
  {
  }

  /** A world in which the first attempt meets `first` at the ledger and all others but the last are still on
      their way; the last one meets `last`. */
  function Rival(views: seq<View>, answered: bool, first: seq<Event>, last: seq<Event>): World {
    World((k: nat) =>
            if k >= |views| then NetworkError(0)
            else if answered && k == |views| - 1 then Reply(views[k].ms, 0)
            else FateLike(views[k]),
          (i: nat) => if i == 1 then first else if i == 2 * |views| - 1 then last else [])
  }

  lemma {:induction false} RivalWaits(w: World, n: nat, k: nat)
    requires k < n && forall i :: 2 <= i <= 2 * n ==> w.events(i) == []
    ensures Waiting(w, k + 1) == Ended(w, k)
    ensures Ended(w, k).charges == Ended(w, 0).charges && Ended(w, k).running == Ended(w, 0).running
    ensures k > 0 ==> Ended(w, k) == Send(Ended(w, k - 1), k)
  {
    if k > 0 {
      RivalWaits(w, n, k - 1);
      assert w.events(2 * k) == [] && w.events(2 * k + 1) == [];
    }
    assert w.events(2 * (k + 1)) == [];
  }

  /** An unanswered call looks the same when its first attempt has charged the request. */
  lemma ChargedUnseen(c: Limits, w: World, views: seq<View>) returns (rival: World)
    requires IsCall(c, SightOf(w), views) && !ResultOf(views).Success?
    ensures IsCall(c, SightOf(rival), views) && LedgerAtEnd(rival, views).charges == 1
  {
    var first := [Arrive(0), Lock(0), Commit(0)];
    rival := Rival(views, false, first, []);
    FirstCommits(rival);
    RivalWaits(rival, |views|, |views| - 1);
    SightFits(w);
    forall k | 0 <= k < |views| ensures Seen(c, SightOf(rival), views, k) {
      assert Seen(c, SightOf(w), views, k);
      NoneOk(c, SightOf(w), views, k);
      LooksLike(views[k], Ended(rival, k), k, Timeout(c, StartOf(views, k)));
    }
  }

  lemma NoneOk(c: Limits, sight: Sight, views: seq<View>, k: nat)
    requires IsCall(c, sight, views) && k < |views| && (k < |views| - 1 || !ResultOf(views).Success?)
    ensures !views[k].outcome.Ok?
  {
    if k < |views| - 1 {
      assert Seen(c, sight, views, k + 1);
    }
  }

  lemma FirstCommits(w: World)
    requires w.events(1) == [Arrive(0), Lock(0), Commit(0)]
    ensures Ended(w, 0).charges == 1
  {
    var l0 := Send(UNTOUCHED, 0);
    var l1 := Step(l0, Arrive(0));
    RunTwo(l1, Lock(0), Commit(0));
    assert w.events(1)[1..] == [Lock(0), Commit(0)] && Run(l0, w.events(1)) == Run(l1, [Lock(0), Commit(0)]);
    assert Waiting(w, 0) == UNTOUCHED && Ended(w, 0) == Run(l0, w.events(2 * 0 + 1));
  }

  lemma RunTwo(l: Ledger, e: Event, f: Event)
    ensures Run(l, [e, f]) == Step(Step(l, e), f)
  {
    assert [e, f][1..] == [f];
    RunOne(Step(l, e), f);
  }

  /** It also looks the same when all of its attempts got lost on their way. So a client whose call was not
      answered by the ledger cannot know whether it is charged, timed out or not. */
  lemma LostUnseen(c: Limits, w: World, views: seq<View>) returns (rival: World)
    requires IsCall(c, SightOf(w), views) && !ResultOf(views).Success?
    ensures IsCall(c, SightOf(rival), views) && UnchargedForGood(LedgerAtEnd(rival, views))
  {
    rival := World((k: nat) => if k < |views| then FateLike(views[k]) else NetworkError(0),
                   (i: nat) => if i % 2 == 1 then [Lose(i / 2)] else []);
    AllLost(rival, |views| - 1);
    AllLost(rival, |views|);
    SightFits(w);
    forall k | 0 <= k < |views| ensures Seen(c, SightOf(rival), views, k) {
      assert Seen(c, SightOf(w), views, k);
      NoneOk(c, SightOf(w), views, k);
      LooksLike(views[k], Ended(rival, k), k, Timeout(c, StartOf(views, k)));
    }
    UnchargedForGoodIff(UNTOUCHED);
  }

  lemma {:induction false} AllLost(w: World, k: nat)
    requires forall i: nat :: w.events(i) == if i % 2 == 1 then [Lose(i / 2)] else []
    ensures Waiting(w, k) == UNTOUCHED && Ended(w, k) == UNTOUCHED
  {
    if k > 0 {
      AllLost(w, k - 1);
      assert w.events(2 * k) == [];
    }
    assert w.events(2 * k + 1) == [Lose(k)];
    RunOne(Send(UNTOUCHED, k), Lose(k));
  }

  /** A refused retry looks the same when the first attempt still runs and may yet commit. */
  lemma OpenUnseen(c: Limits, w: World, views: seq<View>) returns (rival: World)
    requires IsCall(c, SightOf(w), views) && RefusedByLedger(w, views) && |views| > 1
    ensures IsCall(c, SightOf(rival), views) && RefusedByLedger(rival, views)
    ensures !UnchargedForGood(LedgerAtEnd(rival, views))
  {
    var n := |views|;
    var status := ResultOf(views).status;
    rival := Rival(views, true, [Arrive(0)], [Arrive(n - 1), Refuse(n - 1, status)]);
    FirstStillRuns(rival, n - 1, status);
    SightFits(w);
    forall k | 0 <= k < n ensures Seen(c, SightOf(rival), views, k) {
      assert Seen(c, SightOf(w), views, k);
      NoneOk(c, SightOf(w), views, k);
      if k < n - 1 {
        LooksLike(views[k], Ended(rival, k), k, Timeout(c, StartOf(views, k)));
      } else {
        LooksRefused(Ended(rival, k), k, status, views[k].ms, Timeout(c, StartOf(views, k)));
      }
    }
    UnchargedForGoodIff(Ended(rival, n - 1));
  }

  lemma LooksRefused(l: Ledger, k: nat, status: ErrorStatus, ms: nat, timeout: nat)
    requires k in l.answers && l.answers[k] == Refused(status) && ms <= timeout
    ensures ViewOf(l, k, Reply(ms, 0), timeout) == View(HttpError(status), ms)
  {
  }

  lemma FirstStillRuns(w: World, k: nat, status: ErrorStatus)
    requires k > 0 && w.events(1) == [Arrive(0)] && w.events(2 * k + 1) == [Arrive(k), Refuse(k, status)]
    requires forall i :: 2 <= i <= 2 * k ==> w.events(i) == []
    ensures Sound(Ended(w, k)) && k in Ended(w, k).answers && Ended(w, k).answers[k] == Refused(status)
    ensures 0 in Open(Ended(w, k))
  {
    RunOne(Send(UNTOUCHED, 0), Arrive(0));
    assert Waiting(w, 0) == UNTOUCHED && Ended(w, 0) == Run(Send(UNTOUCHED, 0), w.events(2 * 0 + 1));
    RivalWaits(w, k, k - 1);
    WorldKeeps(w, k);
    LastIsRefused(w, k, status);
  }

  lemma LastIsRefused(w: World, k: nat, status: ErrorStatus)
    requires k > 0 && w.events(2 * k + 1) == [Arrive(k), Refuse(k, status)]
    requires Sound(Waiting(w, k)) && SentBefore(Waiting(w, k), k)
    requires Waiting(w, k).charges == 0 && 0 in Waiting(w, k).running
    ensures k in Ended(w, k).answers && Ended(w, k).answers[k] == Refused(status)
    ensures 0 in Open(Ended(w, k))
  {
    RunTwo(Send(Waiting(w, k), k), Arrive(k), Refuse(k, status));
  }

  /** As far as its client can tell, the ledger's refusal is final exactly when it refused the first attempt. */
  lemma RefusalIsFinalIff(c: Limits, w: World, views: seq<View>)
    requires IsCall(c, SightOf(w), views) && RefusedByLedger(w, views)
    ensures RefusalIsFinal(c, views) <==> |views| == 1
  {
    if |views| > 1 {
      var rival := OpenUnseen(c, w, views);
    } else {
      forall v | IsCall(c, SightOf(v), views) && RefusedByLedger(v, views)
        ensures UnchargedForGood(LedgerAtEnd(v, views))
      {
        FirstRefusal(c, v, views);
      }
    }
  }

  lemma FirstRefusal(c: Limits, w: World, views: seq<View>)
    requires IsCall(c, SightOf(w), views) && RefusedByLedger(w, views) && |views| == 1
    ensures UnchargedForGood(LedgerAtEnd(w, views))
  {
    LedgerEnds(c, w, views);
    assert Seen(c, SightOf(w), views, 0);
    var l := Ended(w, 0);
    assert l.answers[0].Refused?;
    assert forall k :: k in l.answers ==> k == 0;
    UnchargedForGoodIff(l);
  }

  /** An answer of the ledger whose head and body come within the timeout of the first attempt and the budget is
      the call's result. */
  lemma PromptAnswerCounts(c: Limits, w: World, views: seq<View>)
    requires IsCall(c, SightOf(w), views) && w.fates(0).Reply? && 0 in Ended(w, 0).answers
    requires w.fates(0).ms + w.fates(0).bodyMs <= c.attemptTimeoutMs
    requires w.fates(0).ms + w.fates(0).bodyMs <= c.budgetMs
    ensures match Ended(w, 0).answers[0]
            case Done(replayed) => |views| == 1 && ResultOf(views) == Success(Some(replayed))
            case Refused(status) =>
              status as int !in {502, 503, 504} ==> |views| == 1 && ResultOf(views) == Rejected(status)
    ensures views[0].ms == w.fates(0).ms + w.fates(0).bodyMs
  {
    assert Seen(c, SightOf(w), views, 0);
    if |views| > 1 {
      assert Seen(c, SightOf(w), views, 1);
    }
  }

  /** It happens, with the limits that every operation uses: the first attempt reaches the ledger, but meets
      a network error or a gateway's 502, 503 or 504 while its transaction holds the lock; the second is
      refused, so that the call fails as refused; then the first one commits. */
  lemma RefusedThenCharged(first: Fate, status: ErrorStatus) returns (w: World, views: seq<View>)
    requires first.NetworkError? || (first.Gateway? && first.status as int in {502, 503, 504})
    requires first.ms <= 17900 && status as int !in {502, 503, 504}
    ensures w.fates(0) == first && IsCall(DEFAULTS, SightOf(w), views)
    ensures |views| == 2 && ResultOf(views) == Rejected(status) && RefusedByLedger(w, views)
    ensures LedgerAtEnd(w, views).charges == 0 && Run(LedgerAtEnd(w, views), [Commit(0)]).charges == 1
  {
    w := World((k: nat) => if k == 0 then first else Reply(0, 0),
               (i: nat) =>
                 if i == 1 then [Arrive(0), Lock(0)] else if i == 3 then [Arrive(1), Refuse(1, status)] else []);
    views := [View(if first.Gateway? then HttpError(first.status) else Failed, first.ms), View(HttpError(status), 0)];
    OvertakenWhileLocked(w, status);
    assert StartOf(views, 0) == 0 && StartOf(views, 1) == first.ms + 100;
    LooksRefused(Ended(w, 1), 1, status, 0, Timeout(DEFAULTS, first.ms + 100));
    LooksLike(views[0], Ended(w, 0), 0, Timeout(DEFAULTS, 0));
    assert FateLike(views[0]) == first == w.fates(0);
    assert SightOf(w)(0, Timeout(DEFAULTS, 0)) == views[0];
    assert SightOf(w)(1, Timeout(DEFAULTS, first.ms + 100)) == views[1];
    assert Seen(DEFAULTS, SightOf(w), views, 0) && Seen(DEFAULTS, SightOf(w), views, 1);
  }

  lemma OvertakenWhileLocked(w: World, status: ErrorStatus)
    requires w.events(1) == [Arrive(0), Lock(0)] && w.events(2) == [] && w.events(3) == [Arrive(1), Refuse(1, status)]
    ensures var l := Ended(w, 1);
            1 in l.answers && l.answers[1] == Refused(status) && l.charges == 0 && Run(l, [Commit(0)]).charges == 1
  {
    var l0 := Step(Step(Send(UNTOUCHED, 0), Arrive(0)), Lock(0));
    RunTwo(Send(UNTOUCHED, 0), Arrive(0), Lock(0));
    assert Waiting(w, 0) == UNTOUCHED && w.events(2 * 0 + 1) == [Arrive(0), Lock(0)] && Ended(w, 0) == l0;
    assert w.events(2 * 1) == [] && Waiting(w, 1) == l0;
    var l1 := Step(Step(Send(l0, 1), Arrive(1)), Refuse(1, status));
    RunTwo(Send(l0, 1), Arrive(1), Refuse(1, status));
    assert w.events(2 * 1 + 1) == [Arrive(1), Refuse(1, status)] && Ended(w, 1) == l1;
    RunOne(l1, Commit(0));
  }
}
