/** Per-minute billing of a video call (`billDueMinutes` in src/modules/videoCall/service.js) against
    the contract of the external ledger: minute m is charged only on an ACTIVE call whose last charged
    minute is m - 1, and a repeat charges nothing. */
module CallBilling {
  import opened Options
  import opened CallSession

  const MINUTE_MS := 60000
  const BILL_HEARTBEAT_STALE_MS := 30000
  const DISCONNECT_SLACK_MS := 5000

  /** The ledger's view of one call. `charged` lists the charged minutes in order. */
  datatype Account = Account(status: Status, minsCharged: nat, charged: seq<nat>, deducted: nat, balance: nat)

  /** What reaches the ledger: accepts, minute charges (with the clock the billing pass had read), ends,
      and the caller's other income and spending. */
  datatype Request =
    | AcceptCall
    | CallMinute(minute: nat, readAt: int)
    | EndOfCall(final: Status)
    | NewBalance(coins: nat)

  datatype Answer = Charged | AlreadyBilled | InsufficientCoins | CallNotActive | MinuteOutOfOrder | InvalidCallState

  function AnswerTo(a: Account, r: Request, rate: nat): Answer {
    match r
    case AcceptCall =>
      if a.status != RINGING then InvalidCallState else if a.balance < rate then InsufficientCoins else Charged
    case CallMinute(m, _) =>
      if a.status != ACTIVE then CallNotActive
      else if m <= a.minsCharged then AlreadyBilled
      else if m > a.minsCharged + 1 then MinuteOutOfOrder
      else if a.balance < rate then InsufficientCoins
      else Charged
    case EndOfCall(_) | NewBalance(_) => AlreadyBilled
  }

  function Charge(a: Account, m: nat, rate: nat): Account
    requires rate <= a.balance
  {
    a.(status := ACTIVE, minsCharged := m, charged := a.charged + [m], deducted := a.deducted + rate,
        balance := a.balance - rate)
  }

  function Serve(a: Account, r: Request, rate: nat): Account {
    match r
    case AcceptCall => if AnswerTo(a, r, rate).Charged? then Charge(a, 1, rate) else a
    case CallMinute(m, _) => if AnswerTo(a, r, rate).Charged? then Charge(a, m, rate) else a
    case EndOfCall(final) => if a.status.Live() && !final.Live() then a.(status := final) else a
    case NewBalance(coins) => a.(balance := coins)
  }

  function ServeAll(a: Account, trace: seq<Request>, rate: nat): Account
    decreases |trace|
  {
    if trace == [] then a else ServeAll(Serve(a, trace[0], rate), trace[1..], rate)
  }

  function MinutesUpTo(k: nat): seq<nat> {
    seq(k, i => i + 1)
  }

  /** The minute of the call that is running at clock `now`. */
  function CurrentMinute(startedAt: int, now: int): int {
    (now - startedAt) / MINUTE_MS + 1
  }

  /** The minutes 1..k were charged, each once and in order, for k times the rate. */
  ghost predicate ChargedExactly(a: Account, rate: nat) {
    && a.charged == MinutesUpTo(a.minsCharged)
    && a.deducted == a.minsCharged * rate
    && (a.status == RINGING ==> a.minsCharged == 0)
    && (a.status == ACTIVE ==> a.minsCharged > 0)
  }

  predicate NewCall(a: Account) {
    a.status == RINGING && a.minsCharged == 0 && a.charged == [] && a.deducted == 0
  }

  lemma ServeKeeps(a: Account, r: Request, rate: nat)
    requires ChargedExactly(a, rate)
    ensures ChargedExactly(Serve(a, r, rate), rate)
    ensures a.minsCharged <= Serve(a, r, rate).minsCharged
  {
    if (r.AcceptCall? || r.CallMinute?) && AnswerTo(a, r, rate).Charged? {
      var m := if r.AcceptCall? then 1 else r.minute;
      assert MinutesUpTo(m) == MinutesUpTo(m - 1) + [m];
      assert m * rate == (m - 1) * rate + rate;
    }
  }

  lemma {:induction false} ServeAllKeeps(a: Account, trace: seq<Request>, rate: nat)
    requires ChargedExactly(a, rate)
    ensures ChargedExactly(ServeAll(a, trace, rate), rate)
    ensures a.minsCharged <= ServeAll(a, trace, rate).minsCharged
    decreases |trace|
  {
    if trace != [] {
      ServeKeeps(a, trace[0], rate);
      ServeAllKeeps(Serve(a, trace[0], rate), trace[1..], rate);
    }
  }

  /** A charged minute was asked for, unless it is the first one, which the accept charges. */
  lemma {:induction false} ChargedOnRequest(a: Account, trace: seq<Request>, rate: nat, m: nat)
    requires m in ServeAll(a, trace, rate).charged
    ensures m in a.charged || m == 1 || exists r :: r in trace && r.CallMinute? && r.minute == m
    decreases |trace|
  {
    if trace != [] {
      ChargedOnRequest(Serve(a, trace[0], rate), trace[1..], rate, m);
      assert trace[0] in trace && forall r :: r in trace[1..] ==> r in trace;
    }
  }

  /** Once the call is over, nothing is charged any more. */
  lemma {:induction false} NothingAfterTheEnd(a: Account, trace: seq<Request>, rate: nat)
    requires !a.status.Live()
    ensures ServeAll(a, trace, rate) == a.(balance := ServeAll(a, trace, rate).balance)
    decreases |trace|
  {
    if trace != [] {
      NothingAfterTheEnd(Serve(a, trace[0], rate), trace[1..], rate);
    }
  }

  lemma {:induction false} ServeAllAppend(a: Account, t: seq<Request>, u: seq<Request>, rate: nat)
    ensures ServeAll(a, t + u, rate) == ServeAll(ServeAll(a, t, rate), u, rate)
    decreases |t|
  {
    if t == [] {
      assert t + u == u;
    } else {
      assert (t + u)[1..] == t[1..] + u;
      ServeAllAppend(Serve(a, t[0], rate), t[1..], u, rate);
    }
  }

  /** The ledger's contract at work: an accept that the caller can pay charges minute 1 and starts the call; the
      next minute is charged as long as there are coins for it; a repeat and a minute ahead change nothing. */
  lemma ChargesWhatIsDue(a: Account, m: nat, readAt: int, rate: nat)
    ensures NewCall(a) && a.balance >= rate ==>
              var b := Serve(a, AcceptCall, rate);
              b == Account(ACTIVE, 1, [1], rate, a.balance - rate)
    ensures a.status == ACTIVE && m == a.minsCharged + 1 && a.balance >= rate ==>
              Serve(a, CallMinute(m, readAt), rate)
              == Account(ACTIVE, m, a.charged + [m], a.deducted + rate, a.balance - rate)
    ensures m <= a.minsCharged || m > a.minsCharged + 1 || a.balance < rate || a.status != ACTIVE ==>
              Serve(a, CallMinute(m, readAt), rate) == a
  {
  }

  // ----- One billing pass -----

  datatype HeartbeatMode = Off | Log | Enforce

  /** What becomes of one ledger call: answered, or lost on the way there or on the way back. */
  datatype Fate = Answered | RequestLost | ReplyLost

  /** How a pass ends: nothing was due; every due minute was answered; it skipped a minute that follows
      a silence or a disconnect; the ledger said the caller is out of coins, so the call is to be
      ended; or any other error stopped it. */
  datatype PassResult = NothingDue | Completed | Skipped(minute: nat) | OutOfCoins(minute: nat) | Stopped(minute: nat)

  /** What one pass knows: the row it works from, as stale as it may be, and what it reads on the way. */
  datatype Pass = Pass(
    startedAt: int,
    minsCharged: nat,
    now: int,
    mode: HeartbeatMode,
    lastHeartbeat: Option<int>,
    disconnectedAt: nat -> Option<int>,
    fates: nat -> Fate,
    others: nat -> seq<Request>)

  function MinuteStart(startedAt: int, m: nat): int {
    startedAt + (m - 1) * MINUTE_MS
  }

  /** No side has pinged for 30 s before minute m starts. No heartbeat read (or none asked for, when the
      mode is off, or a zero one) counts as no silence. */
  predicate SilentBefore(p: Pass, m: nat) {
    && p.mode != Off
    && p.lastHeartbeat.Some? && p.lastHeartbeat.value != 0
    && MinuteStart(p.startedAt, m) - p.lastHeartbeat.value > BILL_HEARTBEAT_STALE_MS
  }

  predicate DisconnectedBefore(p: Pass, m: nat) {
    p.disconnectedAt(m).Some? && p.disconnectedAt(m).value <= MinuteStart(p.startedAt, m) + DISCONNECT_SLACK_MS
  }

  /** No other traffic during the pass, and every call of it is answered. */
  ghost predicate Smooth(p: Pass) {
    forall m :: p.others(m) == [] && p.fates(m).Answered?
  }

  /** Why a minute may be skipped, in milliseconds. */
  predicate SkipsFor(p: Pass, m: nat) {
    var start := p.startedAt + (m - 1) * 60000;
    || (p.mode == Enforce && p.lastHeartbeat.Some? && p.lastHeartbeat.value != 0
        && start - p.lastHeartbeat.value > 30000)
    || (p.disconnectedAt(m).Some? && p.disconnectedAt(m).value <= start + 5000)
  }

  lemma SkippedForGoodReason(p: Pass, m: nat)
    ensures MustSkip(p, m) <==> SkipsFor(p, m)
  {
  }

  predicate MustSkip(p: Pass, m: nat) {
    (p.mode == Enforce && SilentBefore(p, m)) || DisconnectedBefore(p, m)
  }

  predicate AskedFor(p: Pass, m: nat, next: nat) {
    p.minsCharged < m < next
  }

  /** The traffic of a pass that asked for the minutes after its snapshot up to `next`, exclusive: a
      request for each, unless that got lost, and nothing else but other requests' traffic. */
  ghost predicate Asked(p: Pass, trace: seq<Request>, next: nat) {
    && (forall r :: r in trace ==>
        (exists m :: r in p.others(m)) || (r.CallMinute? && AskedFor(p, r.minute, next) && r.readAt == p.now))
    && (forall m: nat :: AskedFor(p, m, next) ==> p.fates(m).RequestLost? || CallMinute(m, p.now) in trace)
  }

  /** The minutes asked for have begun, and none of them must be skipped. */
  ghost predicate AllDue(p: Pass, next: nat) {
    forall m: nat :: AskedFor(p, m, next) ==> m <= CurrentMinute(p.startedAt, p.now) && !MustSkip(p, m)
  }

  lemma OneMoreDue(p: Pass, m: nat)
    requires AllDue(p, m) && m <= CurrentMinute(p.startedAt, p.now) && !MustSkip(p, m)
    ensures AllDue(p, m + 1)
  {
    forall k: nat | AskedFor(p, k, m + 1) ensures k <= CurrentMinute(p.startedAt, p.now) && !MustSkip(p, k) {
      assert k < m ==> AskedFor(p, k, m);
    }
  }

  lemma AskMore(p: Pass, trace: seq<Request>, m: nat, more: seq<Request>)
    requires Asked(p, trace, m) && p.minsCharged < m
    requires more == p.others(m) + if p.fates(m).RequestLost? then [] else [CallMinute(m, p.now)]
    ensures Asked(p, trace + more, m + 1)
  {
    if !p.fates(m).RequestLost? {
      assert more[|more| - 1] == CallMinute(m, p.now);
    }
    forall k: nat | AskedFor(p, k, m + 1) ensures p.fates(k).RequestLost? || CallMinute(k, p.now) in trace + more {
      assert k < m ==> AskedFor(p, k, m);
    }
  }

  /** The running call's next minute is m, and the caller's coins do not cover it. */
  predicate CannotPay(a: Account, m: nat, rate: nat) {
    a.status == ACTIVE && a.minsCharged + 1 == m && a.balance < rate
  }

  /** The call for minute m got lost, the call is not active, or an earlier minute is not billed yet. */
  predicate NotBillable(p: Pass, a: Account, m: nat) {
    !p.fates(m).Answered? || a.status != ACTIVE || a.minsCharged + 1 < m
  }

  /** The running call's minutes up to m, and the coins for those not charged yet. */
  predicate CanPayTo(a: Account, m: int, rate: nat) {
    a.status == ACTIVE && (m > a.minsCharged ==> a.balance >= (m - a.minsCharged) * rate)
  }

  /** The call runs on with the minutes up to m charged, and the caller paid the rate for each new one. */
  predicate BilledUpTo(a: Account, b: Account, m: int, rate: nat) {
    b.status == ACTIVE && b.minsCharged >= m && b.minsCharged >= a.minsCharged
    && b.balance == a.balance - (b.minsCharged - a.minsCharged) * rate
  }

  lemma {:induction false} OnlyMinutes(a: Account, trace: seq<Request>, rate: nat)
    requires a.status == ACTIVE && forall r :: r in trace ==> r.CallMinute?
    ensures BilledUpTo(a, ServeAll(a, trace, rate), a.minsCharged, rate)
    decreases |trace|
  {
    assert 0 * rate == 0;
    if trace != [] {
      assert trace[0] in trace && forall r :: r in trace[1..] ==> r in trace;
      var a' := Serve(a, trace[0], rate);
      OnlyMinutes(a', trace[1..], rate);
      var b := ServeAll(a', trace[1..], rate);
      assert (b.minsCharged - a.minsCharged) * rate
          == (b.minsCharged - a'.minsCharged) * rate + (a'.minsCharged - a.minsCharged) * rate;
    }
  }

  /** A smooth pass over a call that can pay neither runs out of coins nor stops. */
  lemma NoReasonToStop(p: Pass, a: Account, trace: seq<Request>, next: nat, m: nat, upTo: int, rate: nat)
    requires Smooth(p) && Asked(p, trace, next) && CanPayTo(a, upTo, rate) && m <= upTo
    requires ServeAll(a, trace, rate).minsCharged >= m - 1
    ensures !CannotPay(ServeAll(a, trace, rate), m, rate) && !NotBillable(p, ServeAll(a, trace, rate), m)
  {
    assert forall r :: r in trace ==> r.CallMinute?;
    OnlyMinutes(a, trace, rate);
    var b := ServeAll(a, trace, rate);
    if b.minsCharged + 1 == m {
      assert (upTo - a.minsCharged) * rate == (upTo - b.minsCharged) * rate + (b.minsCharged - a.minsCharged) * rate;
      TimesMonotone(1, upTo - b.minsCharged, rate);
    }
  }

  /** The pass ended with a due minute, all before which are billed. */
  predicate EndedAt(p: Pass, a: Account, m: nat) {
    m <= CurrentMinute(p.startedAt, p.now) && (m > p.minsCharged + 1 ==> a.minsCharged >= m - 1)
  }

  lemma PassIsSmooth(p: Pass, a: Account, trace: seq<Request>, next: nat, result: PassResult, rate: nat)
    requires Smooth(p) && Asked(p, trace, next) && CanPayTo(a, CurrentMinute(p.startedAt, p.now), rate)
    requires p.minsCharged <= a.minsCharged && ChargedExactly(a, rate) && AllDue(p, next)
    requires result.NothingDue? ==> CurrentMinute(p.startedAt, p.now) <= p.minsCharged && trace == []
    requires result.Completed? ==> CurrentMinute(p.startedAt, p.now) <= ServeAll(a, trace, rate).minsCharged
    requires result.OutOfCoins? ==> CannotPay(ServeAll(a, trace, rate), result.minute, rate)
    requires result.Stopped? ==> NotBillable(p, ServeAll(a, trace, rate), result.minute)
    requires result.OutOfCoins? || result.Stopped? ==> EndedAt(p, ServeAll(a, trace, rate), result.minute)
    ensures result.Skipped? || BilledUpTo(a, ServeAll(a, trace, rate), CurrentMinute(p.startedAt, p.now), rate)
  {
    assert forall r :: r in trace ==> r.CallMinute?;
    OnlyMinutes(a, trace, rate);
    if result.OutOfCoins? || result.Stopped? {
      NoReasonToStop(p, a, trace, next, result.minute, CurrentMinute(p.startedAt, p.now), rate);
    }
  }

  lemma TimesMonotone(x: int, y: int, rate: nat)
    requires x <= y
    ensures x * rate <= y * rate
  {
  }

  class LedgerAccount {
    var account: Account
    const rate: nat

    ghost predicate Valid()
      reads this
    {
      ChargedExactly(account, rate)
    }

    constructor (account: Account, rate: nat)
      requires NewCall(account)
      ensures Valid() && this.account == account && this.rate == rate
    {
      this.account := account;
      this.rate := rate;
      new;
      assert 0 * rate == 0;
    }

    /** Other requests reach the ledger, then this call does, unless it gets lost. */
    method Call(m: nat, p: Pass) returns (answer: Option<Answer>, trace: seq<Request>)
      requires Valid()
      modifies this
      ensures Valid() && account == ServeAll(old(account), trace, rate)
      ensures trace == p.others(m) + if p.fates(m).RequestLost? then [] else [CallMinute(m, p.now)]
      ensures answer.Some? <==> p.fates(m).Answered?
      ensures answer == Some(Charged) || answer == Some(AlreadyBilled) ==> account.minsCharged >= m
      ensures answer == Some(InsufficientCoins) ==>
              account.status == ACTIVE && account.minsCharged + 1 == m && account.balance < rate
      ensures answer == Some(CallNotActive) ==> account.status != ACTIVE
      ensures answer == Some(MinuteOutOfOrder) ==> account.minsCharged + 1 < m
      ensures answer != Some(InvalidCallState)
      ensures old(account).minsCharged <= account.minsCharged
    {
      trace := p.others(m);
      ServeAllKeeps(account, trace, rate);
      account := ServeAll(account, trace, rate);
      if p.fates(m).RequestLost? {
        assert trace + [] == trace;
        return None, trace;
      }
      ServeKeeps(account, CallMinute(m, p.now), rate);
      var reply := AnswerTo(account, CallMinute(m, p.now), rate);
      ServeAllAppend(old(account), trace, [CallMinute(m, p.now)], rate);
      account := Serve(account, CallMinute(m, p.now), rate);
      trace := trace + [CallMinute(m, p.now)];
      return if p.fates(m).Answered? then Some(reply) else None, trace;
    }

    /** One turn of the billing loop: the ledger call for minute m and what its answer means. */
    method BillMinute(ghost start: Account, p: Pass, trace: seq<Request>, m: nat)
        returns (stop: Option<PassResult>, longer: seq<Request>)
      requires Valid() && account == ServeAll(start, trace, rate)
      requires Asked(p, trace, m) && p.minsCharged < m
      modifies this
      ensures Valid() && account == ServeAll(start, longer, rate) && Asked(p, longer, m + 1)
      ensures old(account).minsCharged <= account.minsCharged && (stop.None? ==> account.minsCharged >= m)
      ensures stop.Some? ==>
              (stop.value == OutOfCoins(m) && CannotPay(account, m, rate))
              || (stop.value == Stopped(m) && NotBillable(p, account, m))
    {
      var answer, more := Call(m, p);
      ServeAllAppend(start, trace, more, rate);
      AskMore(p, trace, m, more);
      longer := trace + more;
      if answer.None? {
        return Some(Stopped(m)), longer;
      }
      match answer.value {
        case InsufficientCoins => stop := Some(OutOfCoins(m));
        case Charged | AlreadyBilled => stop := None;
        case _ => stop := Some(Stopped(m));
      }
    }

    /** The billing loop of `billDueMinutes`. It asks for the minutes after its snapshot up to `next`, exclusive. */
    method BillInTurn(p: Pass) returns (result: PassResult, trace: seq<Request>, ghost next: nat)
      requires Valid()
      modifies this
      ensures Valid() && account == ServeAll(old(account), trace, rate)
      ensures result.NothingDue? <==> CurrentMinute(p.startedAt, p.now) <= p.minsCharged
      ensures result.NothingDue? ==> trace == []
      // It asks for consecutive due minutes, none it must skip, and adds nothing else to the traffic.
      ensures Asked(p, trace, next)
      ensures AllDue(p, next)
      // A pass that ran through has asked for every due minute, and leaves none unbilled.
      ensures result.Completed? ==> next == CurrentMinute(p.startedAt, p.now) + 1 && next - 1 <= account.minsCharged
      ensures result.Skipped? ==>
              MustSkip(p, result.minute) && result.minute == next <= CurrentMinute(p.startedAt, p.now)
      // It ends the call only when the caller cannot pay the next minute, and stops for good reason only.
      ensures result.OutOfCoins? ==> next == result.minute + 1 && CannotPay(account, result.minute, rate)
      ensures result.Stopped? ==> next == result.minute + 1 && NotBillable(p, account, result.minute)
      ensures result.OutOfCoins? || result.Stopped? ==> EndedAt(p, account, result.minute)
    {
      trace, next := [], p.minsCharged + 1;
      var currentMinute := CurrentMinute(p.startedAt, p.now);
      if currentMinute <= p.minsCharged {
        return NothingDue, trace, next;
      }
      for m := p.minsCharged + 1 to currentMinute + 1
        invariant Valid() && account == ServeAll(old(account), trace, rate)
        invariant next == m && Asked(p, trace, next)
        invariant AllDue(p, m)
        invariant m > p.minsCharged + 1 ==> account.minsCharged >= m - 1
      {
        if MustSkip(p, m) {
          return Skipped(m), trace, next;
        }
        OneMoreDue(p, m);
        var stop;
        stop, trace := BillMinute(old(account), p, trace, m);
        next := m + 1;
        if stop.Some? {
          return stop.value, trace, next;
        }
      }
      return Completed, trace, next;
    }

    /** `billDueMinutes`. It asks for the minutes after its snapshot up to `next`, exclusive. */
    method BillDueMinutes(p: Pass) returns (result: PassResult, trace: seq<Request>, ghost next: nat)
      requires Valid()
      modifies this
      ensures Valid() && account == ServeAll(old(account), trace, rate)
      ensures result.NothingDue? <==> CurrentMinute(p.startedAt, p.now) <= p.minsCharged
      ensures result.NothingDue? ==> trace == []
      // It asks for consecutive due minutes, none it must skip, and adds nothing else to the traffic.
      ensures Asked(p, trace, next)
      ensures AllDue(p, next)
      // A pass that ran through has asked for every due minute, and leaves none unbilled.
      ensures result.Completed? ==> next == CurrentMinute(p.startedAt, p.now) + 1 && next - 1 <= account.minsCharged
      ensures result.Skipped? ==>
              MustSkip(p, result.minute) && result.minute == next <= CurrentMinute(p.startedAt, p.now)
      // It skips a minute only in enforce mode, when that starts more than 30 s after the heartbeat it read, or
      // when it saw the caller disconnected at most 5 s after the minute's start.
      ensures result.Skipped? ==> SkipsFor(p, result.minute)
      // Undisturbed, answered and with coins for all of them, a running call has every minute up to the running
      // one charged after the pass, unless one had to be skipped.
      ensures Smooth(p) && CanPayTo(old(account), (p.now - p.startedAt) / 60000 + 1, rate)
              && p.minsCharged <= old(account).minsCharged
              ==> result.Skipped? || BilledUpTo(old(account), account, (p.now - p.startedAt) / 60000 + 1, rate)
      // It ends the call only when the caller cannot pay the next minute, and stops for good reason only.
      ensures result.OutOfCoins? ==> next == result.minute + 1 && CannotPay(account, result.minute, rate)
      ensures result.Stopped? ==> next == result.minute + 1 && NotBillable(p, account, result.minute)
    {
      ghost var before := account;
      result, trace, next := BillInTurn(p);
      if result.Skipped? {
        SkippedForGoodReason(p, result.minute);
      }
      if Smooth(p) && CanPayTo(before, CurrentMinute(p.startedAt, p.now), rate) && p.minsCharged <= before.minsCharged {
        PassIsSmooth(p, before, trace, next, result, rate);
      }
    }
  }

  // ----- Any number of passes -----

  predicate GoneBy(p: Pass, m: nat, gone: int) {
    p.disconnectedAt(m).Some? && p.disconnectedAt(m).value <= gone
  }

  /** Whenever it looks, the pass sees a disconnect of the caller, of `gone` at the latest. */
  ghost predicate SeenGone(p: Pass, gone: int) {
    forall m :: GoneBy(p, m, gone)
  }

  /** The request is one that this pass makes. */
  predicate MadeBy(p: Pass, r: Request) {
    && r.CallMinute? && r.readAt == p.now
    && p.minsCharged < r.minute <= CurrentMinute(p.startedAt, p.now) && !MustSkip(p, r.minute)
  }

  /** All minute requests are made by these passes, however they interleave. */
  ghost predicate BilledBy(trace: seq<Request>, passes: seq<Pass>) {
    forall r :: r in trace && r.CallMinute? ==> exists p :: p in passes && MadeBy(p, r)
  }

  /** The traffic that `BillDueMinutes` reports is made by its own pass and those that run meanwhile. */
  lemma OnePassMore(p: Pass, trace: seq<Request>, next: nat, passes: seq<Pass>)
    requires Asked(p, trace, next)
    requires AllDue(p, next)
    requires forall m :: BilledBy(p.others(m), passes)
    ensures BilledBy(trace, passes + [p])
  {
    forall r | r in trace && r.CallMinute? ensures exists q :: q in passes + [p] && MadeBy(q, r) {
      if m :| r in p.others(m) {
        assert BilledBy(p.others(m), passes);
        var q :| q in passes && MadeBy(q, r);
        assert q in passes + [p];
      } else {
        assert (passes + [p])[|passes|] == p && MadeBy(p, r);
      }
    }
  }

  /** In enforce mode every minute request that a pass adds to the traffic is for a minute that starts at
      most 30 s after the heartbeat it read. */
  lemma SilenceStopsAPass(p: Pass, trace: seq<Request>, next: nat, r: Request)
    requires Asked(p, trace, next) && AllDue(p, next)
    requires p.mode == Enforce && p.lastHeartbeat.Some? && p.lastHeartbeat.value != 0
    requires r in trace && r.CallMinute? && forall m :: r !in p.others(m)
    ensures MinuteStart(p.startedAt, r.minute) <= p.lastHeartbeat.value + BILL_HEARTBEAT_STALE_MS
  {
    assert AskedFor(p, r.minute, next);
    assert !MustSkip(p, r.minute);
  }

  /** Every pass works on the call that started then, by a clock that is not ahead of `now`. */
  predicate SameCall(passes: seq<Pass>, startedAt: int, now: int) {
    startedAt <= now && forall i :: 0 <= i < |passes| ==> passes[i].startedAt == startedAt && passes[i].now <= now
  }

  /** Any number of timer and sweep passes, on snapshots as stale as can be, interleaved with accepts,
      ends and other spending: the call is charged exactly the minutes 1..k, each once, k times the
      rate, and never for a minute that has not begun. */
  lemma EachDueMinuteOnce(a: Account, trace: seq<Request>, passes: seq<Pass>, rate: nat, startedAt: int, now: int)
    requires NewCall(a) && BilledBy(trace, passes) && SameCall(passes, startedAt, now)
    ensures var b := ServeAll(a, trace, rate);
            && b.charged == MinutesUpTo(b.minsCharged)
            && b.deducted == b.minsCharged * rate
            && b.minsCharged <= (now - startedAt) / MINUTE_MS + 1
  {
    assert 0 * rate == 0;
    ServeAllKeeps(a, trace, rate);
    var k := ServeAll(a, trace, rate).minsCharged;
    if k > 1 {
      var p := LastMinuteWasAsked(a, trace, passes, rate);
      assert CurrentMinute(startedAt, p.now) <= CurrentMinute(startedAt, now);
    }
  }

  lemma LastMinuteWasAsked(a: Account, trace: seq<Request>, passes: seq<Pass>, rate: nat) returns (p: Pass)
    requires NewCall(a) && BilledBy(trace, passes) && ServeAll(a, trace, rate).minsCharged > 1
    ensures p in passes
    ensures var k := ServeAll(a, trace, rate).minsCharged; k <= CurrentMinute(p.startedAt, p.now) && !MustSkip(p, k)
  {
    assert 0 * rate == 0;
    ServeAllKeeps(a, trace, rate);
    var k := ServeAll(a, trace, rate).minsCharged;
    assert MinutesUpTo(k)[k - 1] == k;
    ChargedOnRequest(a, trace, rate, k);
    var r :| r in trace && r.CallMinute? && r.minute == k;
    p :| p in passes && MadeBy(p, r);
  }

  /** In enforce mode, when no pass has read a heartbeat later than `last`, no minute after the first is
      charged that starts more than 30 s after it, however many passes run and however late. */
  lemma NoMinuteAfterSilence(a: Account, trace: seq<Request>, passes: seq<Pass>, rate: nat, startedAt: int,
      last: int, m: nat)
    requires NewCall(a) && BilledBy(trace, passes)
    requires forall i :: 0 <= i < |passes| ==> passes[i].startedAt == startedAt && ReadBy(passes[i], last)
    requires m in ServeAll(a, trace, rate).charged
    ensures m <= 1 || MinuteStart(startedAt, m) <= last + BILL_HEARTBEAT_STALE_MS
  {
    assert 0 * rate == 0;
    ServeAllKeeps(a, trace, rate);
    if m > 1 {
      assert m <= ServeAll(a, trace, rate).minsCharged;
      var p := LastMinuteWasAsked(a, trace, passes, rate);
      assert MinuteStart(startedAt, m) <= MinuteStart(startedAt, ServeAll(a, trace, rate).minsCharged);
    }
  }

  /** The pass enforces, and read a heartbeat no later than `last`. */
  predicate ReadBy(p: Pass, last: int) {
    p.mode == Enforce && p.lastHeartbeat.Some? && p.lastHeartbeat.value != 0 && p.lastHeartbeat.value <= last
  }

  /** In whatever mode, when every pass has seen the caller disconnected since `gone` at the latest, every
      minute charged after the first starts more than 5 s before that. */
  lemma NoMinuteAfterDisconnect(a: Account, trace: seq<Request>, passes: seq<Pass>, rate: nat, startedAt: int,
      gone: int, m: nat)
    requires NewCall(a) && BilledBy(trace, passes)
    requires forall i :: 0 <= i < |passes| ==> passes[i].startedAt == startedAt && SeenGone(passes[i], gone)
    requires m in ServeAll(a, trace, rate).charged
    ensures m <= 1 || MinuteStart(startedAt, m) + DISCONNECT_SLACK_MS < gone
  {
    assert 0 * rate == 0;
    ServeAllKeeps(a, trace, rate);
    if m > 1 {
      assert m <= ServeAll(a, trace, rate).minsCharged;
      var p := LastMinuteWasAsked(a, trace, passes, rate);
      assert MinuteStart(startedAt, m) <= MinuteStart(startedAt, ServeAll(a, trace, rate).minsCharged);
      assert GoneBy(p, ServeAll(a, trace, rate).minsCharged, gone);
    }
  }

  const BILL_MIN_GAP_MS := 5000

  function NextBillingAt(startedAt: int, minsCharged: nat, now: int): int {
    var due := startedAt + minsCharged * MINUTE_MS;
    if due > now + BILL_MIN_GAP_MS then due else now + BILL_MIN_GAP_MS
  }

  /** The timer set by `scheduleNextBilling` is never early: when it fires, the next unbilled minute has
      begun, and a pass from a fresh row asks for that minute first. */
  lemma TimerIsOnTime(startedAt: int, minsCharged: nat, now: int, firedAt: int)
    requires NextBillingAt(startedAt, minsCharged, now) <= firedAt
    ensures minsCharged + 1 <= CurrentMinute(startedAt, firedAt)
    ensures now + 5000 <= firedAt
    // Set less than a minute before it begins and at least 5 s ahead, it fires at that very moment.
    ensures NextBillingAt(startedAt, minsCharged, now) == now + 5000
            || NextBillingAt(startedAt, minsCharged, now) == startedAt + minsCharged * 60000
    ensures startedAt + minsCharged * 60000 >= now + 5000 ==>
              (firedAt == NextBillingAt(startedAt, minsCharged, now) ==>
               (firedAt - startedAt) / 60000 == minsCharged && (firedAt - startedAt) % 60000 == 0)
  {
    assert minsCharged * MINUTE_MS / MINUTE_MS == minsCharged;
  }
}
