/** The viewer list of a live room (src/routes/service/serviceLive.js): cards cached in Redis under the
    stream's epoch, retired all at once by bumping the epoch, and sorted by a four-tier order. */
module ViewerCards {
  import opened Options

  type Viewer = string

  datatype Card = Card(id: Viewer, coins7d: nat, isGuardian: bool, isVip: bool, wealthLevel: int)

  /** What is known of one viewer; stealth and unknown viewers are remembered as hidden. */
  datatype Known = Visible(card: Card) | Hidden

  // ----- Epochs: requests, late writers and bumps in any order -----

  /** A cached card. `readAt` is the step at which the database read behind it began. */
  datatype Entry = Entry(at: int, known: Known, readAt: nat)

  /** A request: the epoch it read and when, the cached entries it was served, and when its own
      database read for the missing viewers began. */
  datatype Request = Request(epoch: nat, epochReadAt: nat, served: map<Viewer, Entry>, fetchAt: Option<nat>)

  /** `since[e]` is the step of the bump that started epoch e. */
  datatype State = State(
    step: nat,
    since: seq<nat>,
    cache: map<nat, map<Viewer, Entry>>,
    requests: map<nat, Request>)

  datatype Event =
    | Bump
    | ReadEpoch(id: nat)
    | ReadCache(id: nat, viewers: set<Viewer>, now: int)
    | BeginFetch(id: nat)
    | WriteBack(id: nat, cards: map<Viewer, Known>, at: int)
    | Expire(epoch: nat)

  const VIEWER_CARD_MAX_AGE_MS := 60000

  predicate Enabled(s: State, e: Event) {
    match e
    case Bump => true
    case ReadEpoch(id) => id !in s.requests && s.since != []
    case ReadCache(id, _, _) => id in s.requests
    case BeginFetch(id) => id in s.requests && s.requests[id].fetchAt.None?
    case WriteBack(id, _, _) => id in s.requests && s.requests[id].fetchAt.Some?
    case Expire(_) => true
  }

  function CacheAt(s: State, epoch: nat): map<Viewer, Entry> {
    if epoch in s.cache then s.cache[epoch] else map[]
  }

  function Step(s: State, e: Event): State
    requires Enabled(s, e)
  {
    var s' := match e
      case Bump => s.(since := s.since + [s.step])
      case ReadEpoch(id) => s.(requests := s.requests[id := Request(|s.since| - 1, s.step, map[], None)])
      case ReadCache(id, viewers, now) =>
        var r := s.requests[id];
        var hits := map v | v in viewers && v in CacheAt(s, r.epoch)
            && now - CacheAt(s, r.epoch)[v].at <= VIEWER_CARD_MAX_AGE_MS
                      :: CacheAt(s, r.epoch)[v];
        s.(requests := s.requests[id := r.(served := hits)])
      case BeginFetch(id) => s.(requests := s.requests[id := s.requests[id].(fetchAt := Some(s.step))])
      case WriteBack(id, cards, at) =>
        var r := s.requests[id];
        s.(cache := s.cache[r.epoch := CacheAt(s, r.epoch) + map v | v in cards ::
            Entry(at, cards[v], r.fetchAt.value)])
      case Expire(epoch) => s.(cache := s.cache - {epoch});
    s'.(step := s.step + 1)
  }

  predicate ValidRun(s: State, events: seq<Event>)
    decreases |events|
  {
    events == [] || (Enabled(s, events[0]) && ValidRun(Step(s, events[0]), events[1..]))
  }

  function Run(s: State, events: seq<Event>): State
    requires ValidRun(s, events)
    decreases |events|
  {
    if events == [] then s else Run(Step(s, events[0]), events[1..])
  }

  /** Before the first bump the epoch is 0. */
  predicate Initial(s: State) {
    s == State(1, [0], map[], map[])
  }

  predicate SinceSorted(s: State) {
    && s.since != []
    && (forall i, j :: 0 <= i < j < |s.since| ==> s.since[i] <= s.since[j])
    && (forall i :: 0 <= i < |s.since| ==> s.since[i] < s.step)
  }

  predicate RequestFresh(s: State, r: Request) {
    && r.epoch < |s.since| && s.since[r.epoch] <= r.epochReadAt < s.step
    && (forall e :: 0 <= e < |s.since| && s.since[e] < r.epochReadAt ==> e <= r.epoch)
    && (r.fetchAt.Some? ==> r.epochReadAt <= r.fetchAt.value)
    && (forall v :: v in r.served ==> s.since[r.epoch] <= r.served[v].readAt)
  }

  ghost predicate CacheFresh(s: State) {
    forall e, v :: e in s.cache && v in s.cache[e] ==> e < |s.since| && s.since[e] <= s.cache[e][v].readAt
  }

  ghost predicate Inv(s: State) {
    && SinceSorted(s)
    && (forall id :: id in s.requests ==> RequestFresh(s, s.requests[id]))
    && CacheFresh(s)
  }

  lemma WriteBackKeeps(s: State, e: Event)
    requires Inv(s) && Enabled(s, e) && e.WriteBack?
    ensures CacheFresh(Step(s, e))
  {
    var r := s.requests[e.id];
    assert RequestFresh(s, r);
    assert forall v :: v in CacheAt(s, r.epoch) ==> s.since[r.epoch] <= CacheAt(s, r.epoch)[v].readAt;
  }

  /** A request that keeps its epoch stays fresh when time passes and epochs begin. */
  lemma FreshLater(s: State, s': State, r: Request)
    requires SinceSorted(s) && RequestFresh(s, r) && s'.step == s.step + 1
    requires s'.since == s.since || s'.since == s.since + [s.step]
    ensures RequestFresh(s', r)
  {
  }

  lemma RequestKeeps(s: State, e: Event, id: nat)
    requires Inv(s) && Enabled(s, e) && id in Step(s, e).requests
    ensures RequestFresh(Step(s, e), Step(s, e).requests[id])
  {
    var s' := Step(s, e);
    if id in s.requests {
      var r := s.requests[id];
      FreshLater(s, s', r);
      if e.ReadCache? && e.id == id {
        assert s'.requests[id] == r.(served := s'.requests[id].served);
        assert forall v :: v in s'.requests[id].served ==> s.since[r.epoch] <= s'.requests[id].served[v].readAt;
      }
    }
  }

  lemma StepKeeps(s: State, e: Event)
    requires Inv(s) && Enabled(s, e)
    ensures Inv(Step(s, e))
  {
    var s' := Step(s, e);
    assert SinceSorted(s');
    assert CacheFresh(s') by {
      if e.WriteBack? {
        WriteBackKeeps(s, e);
      }
    }
    forall id | id in s'.requests ensures RequestFresh(s', s'.requests[id]) {
      RequestKeeps(s, e, id);
    }
  }

  lemma {:induction false} RunKeeps(s: State, events: seq<Event>)
    requires Inv(s) && ValidRun(s, events)
    ensures Inv(Run(s, events))
    decreases |events|
  {
    if events != [] {
      StepKeeps(s, events[0]);
      RunKeeps(Step(s, events[0]), events[1..]);
    }
  }

  lemma ServedAfterRecordedBump(s: State, events: seq<Event>, bump: nat, id: nat)
    requires Initial(s) && ValidRun(s, events)
    requires bump in Run(s, events).since
    requires id in Run(s, events).requests && bump < Run(s, events).requests[id].epochReadAt
    ensures var r := Run(s, events).requests[id];
            && (forall v :: v in r.served ==> bump <= r.served[v].readAt)
            && (r.fetchAt.Some? ==> bump < r.fetchAt.value)
  {
    RunKeeps(s, events);
    var end := Run(s, events);
    var r := end.requests[id];
    assert RequestFresh(end, r);
    var e :| 0 <= e < |end.since| && end.since[e] == bump;
    assert end.since[e] <= end.since[r.epoch];
  }

  /** `since` is the list of the steps at which bumps happened. */
  lemma {:induction false} BumpsAreRecorded(s: State, events: seq<Event>, i: nat)
    requires ValidRun(s, events) && i < |events| && events[i] == Bump
    ensures s.step + i in Run(s, events).since
    decreases |events|
  {
    var s' := Step(s, events[0]);
    if i == 0 {
      assert s'.since[|s'.since| - 1] == s.step;
      SinceGrows(s', events[1..], s.step);
    } else {
      BumpsAreRecorded(s', events[1..], i - 1);
    }
  }

  lemma {:induction false} SinceGrows(s: State, events: seq<Event>, step: nat)
    requires ValidRun(s, events) && step in s.since
    ensures step in Run(s, events).since
    decreases |events|
  {
    if events != [] {
      SinceGrows(Step(s, events[0]), events[1..], step);
    }
  }

  /** A request that read the epoch after a bump is served only cards whose database read began after
      that bump, from the cache or from its own read, however readers, late writers and bumps interleave. */
  lemma ServedAfterTheBump(s: State, events: seq<Event>, i: nat, id: nat)
    requires Initial(s) && ValidRun(s, events)
    requires i < |events| && events[i] == Bump
    requires id in Run(s, events).requests && s.step + i < Run(s, events).requests[id].epochReadAt
    ensures var r := Run(s, events).requests[id];
            && (forall v :: v in r.served ==> s.step + i <= r.served[v].readAt)
            && (r.fetchAt.Some? ==> s.step + i < r.fetchAt.value)
  {
    BumpsAreRecorded(s, events, i);
    ServedAfterRecordedBump(s, events, s.step + i, id);
  }

  /** A card that was written back is served to every request under the same epoch for 60 s, as long as it is
      not retired, overwritten or expired; and nothing older is served. */
  lemma WrittenCardsAreServed(s: State, w: Event, id: nat, viewers: set<Viewer>, now: int)
    requires Enabled(s, w) && w.WriteBack? && id in s.requests && s.requests[id].epoch == s.requests[w.id].epoch
    ensures var served := Step(Step(s, w), ReadCache(id, viewers, now)).requests[id].served;
            && (forall v :: v in viewers && v in w.cards && now - w.at <= 60000 ==>
                  v in served && served[v].known == w.cards[v])
            && (forall v :: v in served ==> v in viewers && now - served[v].at <= 60000)
  {
  }

  /** A bump retires every card at once: whoever reads the epoch after it finds none until one is written back. */
  lemma BumpRetires(s: State, id: nat, viewers: set<Viewer>, now: int)
    requires Inv(s) && id !in s.requests
    ensures var bumped := Step(Step(s, Bump), ReadEpoch(id));
            Step(bumped, ReadCache(id, viewers, now)).requests[id].served == map[]
  {
    assert |s.since| !in s.cache || s.cache[|s.since|] == map[] by {
      if |s.since| in s.cache && s.cache[|s.since|] != map[] {
        var v :| v in s.cache[|s.since|];
      }
    }
  }

  // ----- The order -----

  /** `sortViewers`' comparator: 7-day coins, then guardians, then VIPs, then wealth level, higher first. */
  function Compare(a: Card, b: Card): int {
    if a.coins7d != b.coins7d then b.coins7d - a.coins7d
    else if a.isGuardian != b.isGuardian then if b.isGuardian then 1 else -1
    else if a.isVip != b.isVip then if b.isVip then 1 else -1
    else b.wealthLevel - a.wealthLevel
  }

  /** It is a consistent comparator, as Array.prototype.sort demands. */
  lemma CompareIsATotalPreorder(a: Card, b: Card, c: Card)
    ensures Compare(a, b) < 0 <==> Compare(b, a) > 0
    ensures Compare(a, b) <= 0 && Compare(b, c) <= 0 ==> Compare(a, c) <= 0
    ensures Compare(a, b) == 0 <==>
            (a.coins7d, a.isGuardian, a.isVip, a.wealthLevel) == (b.coins7d, b.isGuardian, b.isVip, b.wealthLevel)
  {
  }

  /** More 7-day coins come first; among equals the host's guardians, then VIPs, then the higher wealth level. */
  predicate ComesBefore(a: Card, b: Card) {
    || a.coins7d > b.coins7d
    || (a.coins7d == b.coins7d && a.isGuardian && !b.isGuardian)
    || (a.coins7d == b.coins7d && a.isGuardian == b.isGuardian && a.isVip && !b.isVip)
    || (a.coins7d == b.coins7d && a.isGuardian == b.isGuardian && a.isVip == b.isVip && a.wealthLevel > b.wealthLevel)
  }

  lemma CompareIsByTiers(a: Card, b: Card)
    ensures Compare(a, b) < 0 <==> ComesBefore(a, b)
    ensures Compare(a, b) > 0 <==> ComesBefore(b, a)
  {
  }

  predicate Sorted(s: seq<Card>) {
    forall i, j :: 0 <= i < j < |s| ==> Compare(s[i], s[j]) <= 0
  }

  /** The cards that tie with `c`, in their order in `s`. */
  function Ties(s: seq<Card>, c: Card): seq<Card> {
    if s == [] then [] else (if Compare(s[0], c) == 0 then [s[0]] else []) + Ties(s[1..], c)
  }

  function Insert(x: Card, s: seq<Card>): seq<Card> {
    if s == [] || Compare(x, s[0]) <= 0 then [x] + s else [s[0]] + Insert(x, s[1..])
  }

  /** The stable sort of a list of cards. */
  function SortViewers(s: seq<Card>): seq<Card> {
    if s == [] then [] else Insert(s[0], SortViewers(s[1..]))
  }

  lemma {:induction false} InsertSorts(x: Card, s: seq<Card>)
    requires Sorted(s)
    ensures Sorted(Insert(x, s))
    ensures multiset(Insert(x, s)) == multiset{x} + multiset(s)
  {
    if s == [] || Compare(x, s[0]) <= 0 {
      InsertFront(x, s);
    } else {
      InsertSorts(x, s[1..]);
      assert s == [s[0]] + s[1..];
      InsertBehind(x, s);
    }
  }

  lemma TiesCons(x: Card, s: seq<Card>, c: Card)
    ensures Ties([x] + s, c) == (if Compare(x, c) == 0 then [x] else []) + Ties(s, c)
  {
    assert ([x] + s)[1..] == s;
  }

  /** A card goes in front of the cards it ties with. */
  lemma {:induction false} InsertKeepsTies(x: Card, s: seq<Card>, c: Card)
    ensures Ties(Insert(x, s), c) == Ties([x] + s, c)
  {
    if s != [] && Compare(x, s[0]) > 0 {
      InsertKeepsTies(x, s[1..], c);
      TiesCons(s[0], Insert(x, s[1..]), c);
      TiesCons(x, s[1..], c);
      TiesCons(x, s, c);
      assert !(Compare(x, c) == 0 && Compare(s[0], c) == 0);
    }
  }

  lemma InsertFront(x: Card, s: seq<Card>)
    requires Sorted(s) && (s == [] || Compare(x, s[0]) <= 0)
    ensures Sorted([x] + s)
  {
    forall j | 0 <= j < |s| ensures Compare(x, s[j]) <= 0 {
      CompareIsATotalPreorder(x, s[0], s[j]);
    }
  }

  lemma InsertBehind(x: Card, s: seq<Card>)
    requires Sorted(s) && s != [] && Compare(x, s[0]) > 0
    requires Sorted(Insert(x, s[1..])) && multiset(Insert(x, s[1..])) == multiset{x} + multiset(s[1..])
    ensures Sorted([s[0]] + Insert(x, s[1..]))
  {
    var rest := Insert(x, s[1..]);
    forall j | 0 <= j < |rest| ensures Compare(s[0], rest[j]) <= 0 {
      assert rest[j] in multiset(rest);
      if rest[j] == x {
        CompareIsATotalPreorder(s[0], x, x);
      } else {
        assert rest[j] in s[1..];
      }
    }
  }

  /** The result is the same cards, in the four-tier order, and cards that tie keep their order. */
  lemma {:induction false} SortIsStable(s: seq<Card>, c: Card)
    ensures Sorted(SortViewers(s))
    ensures multiset(SortViewers(s)) == multiset(s)
    ensures Ties(SortViewers(s), c) == Ties(s, c)
  {
    if s != [] {
      SortIsStable(s[1..], c);
      InsertSorts(s[0], SortViewers(s[1..]));
      InsertKeepsTies(s[0], SortViewers(s[1..]), c);
      TiesCons(s[0], SortViewers(s[1..]), c);
      assert s == [s[0]] + s[1..];
    }
  }

  // ----- The answer to one request -----

  /** What the request knows of a viewer: a cached entry no older than 60 s, or the database row. */
  function KnownOf(id: Viewer, cached: map<Viewer, Entry>, now: int, db: map<Viewer, Card>): Known {
    if id in cached && now - cached[id].at <= VIEWER_CARD_MAX_AGE_MS then cached[id].known
    else if id in db then Visible(db[id])
    else Hidden
  }

  /** The card to show of its viewer: a cached one of at most 60 s, unless it says hidden, or the database's. */
  predicate ShownAs(c: Card, cached: map<Viewer, Entry>, now: int, db: map<Viewer, Card>) {
    if c.id in cached && now - cached[c.id].at <= 60000 then cached[c.id].known == Visible(c)
    else c.id in db && db[c.id] == c
  }

  /** Every card is filed under its own viewer. */
  ghost predicate FiledById(cached: map<Viewer, Entry>, db: map<Viewer, Card>) {
    && (forall v :: v in cached && cached[v].known.Visible? ==> cached[v].known.card.id == v)
    && (forall v :: v in db ==> db[v].id == v)
  }

  predicate NoDuplicates(ids: seq<Viewer>) {
    forall i, j :: 0 <= i < j < |ids| ==> ids[i] != ids[j]
  }

  function FirstIndex(ids: seq<Viewer>, id: Viewer): nat {
    if ids == [] || ids[0] == id then 0 else 1 + FirstIndex(ids[1..], id)
  }

  lemma {:induction false} FirstIndexAt(ids: seq<Viewer>, i: nat)
    requires i < |ids| && ids[i] !in ids[..i]
    ensures FirstIndex(ids, ids[i]) == i
  {
    if i > 0 {
      assert ids[..i][0] == ids[0] && ids[1..][i - 1] == ids[i] && ids[1..][..i - 1] == ids[..i][1..];
      FirstIndexAt(ids[1..], i - 1);
    }
  }

  predicate Ascending(viewerIds: seq<Viewer>, ids: seq<Viewer>) {
    forall k, l :: 0 <= k < l < |ids| ==> FirstIndex(viewerIds, ids[k]) < FirstIndex(viewerIds, ids[l])
  }

  /** The cards stand in the order in which their viewers first occur. */
  predicate InOrderOf(cards: seq<Card>, viewerIds: seq<Viewer>) {
    forall k, l :: 0 <= k < l < |cards| ==> FirstIndex(viewerIds, cards[k].id) < FirstIndex(viewerIds, cards[l].id)
  }

  /** The requested viewers, each at its first occurrence. */
  method WithoutRepeats(viewerIds: seq<Viewer>) returns (ids: seq<Viewer>)
    ensures NoDuplicates(ids) && Ascending(viewerIds, ids)
    ensures forall v :: v in ids <==> v in viewerIds
  {
    ids := [];
    for i := 0 to |viewerIds|
      invariant NoDuplicates(ids)
      invariant forall v :: v in ids <==> v in viewerIds[..i]
      invariant forall k :: 0 <= k < |ids| ==> FirstIndex(viewerIds, ids[k]) < i
      invariant Ascending(viewerIds, ids)
    {
      if viewerIds[i] !in ids {
        FirstIndexAt(viewerIds, i);
        ids := ids + [viewerIds[i]];
      }
    }
    assert viewerIds[..|viewerIds|] == viewerIds;
  }

  /** The visible ones among them, in the same order. */
  method Visibles(ghost viewerIds: seq<Viewer>, ids: seq<Viewer>, cards: map<Viewer, Known>) returns (shown: seq<Card>)
    requires Ascending(viewerIds, ids)
    requires forall v :: v in ids ==> v in cards && (cards[v].Visible? ==> cards[v].card.id == v)
    ensures InOrderOf(shown, viewerIds)
    ensures forall c :: c in shown <==> c.id in ids && cards[c.id] == Visible(c)
  {
    shown := [];
    for i := 0 to |ids|
      invariant forall c :: c in shown <==> c.id in ids[..i] && cards[c.id] == Visible(c)
      invariant InOrderOf(shown, viewerIds)
      invariant forall k, l :: 0 <= k < |shown| && i <= l < |ids| ==>
                  FirstIndex(viewerIds, shown[k].id) < FirstIndex(viewerIds, ids[l])
    {
      if cards[ids[i]].Visible? {
        shown := shown + [cards[ids[i]].card];
      }
    }
    assert ids[..|ids|] == ids;
  }

  /** `sortRoomViewersService`. `shown` are the visible viewers in the order in which they were asked for. */
  method SortRoomViewers(viewerIds: seq<Viewer>, cached: map<Viewer, Entry>, now: int, db: map<Viewer, Card>)
    returns (viewers: seq<Card>, ghost shown: seq<Card>)
    requires FiledById(cached, db)
    ensures Sorted(viewers) && forall i, j :: 0 <= i < j < |viewers| ==> !ComesBefore(viewers[j], viewers[i])
    // Exactly the visible viewers that were asked for, each once: by a cached card of at most 60 s, or the database.
    ensures forall c :: c in viewers <==> c.id in viewerIds && ShownAs(c, cached, now, db)
    ensures forall i, j :: 0 <= i < j < |viewers| ==> viewers[i].id != viewers[j].id
    ensures forall c :: c in viewers <==> c.id in viewerIds && KnownOf(c.id, cached, now, db) == Visible(c)
    // Those that tie stand in the order of the request.
    ensures InOrderOf(shown, viewerIds) && multiset(viewers) == multiset(shown)
    ensures forall c :: Ties(viewers, c) == Ties(shown, c)
  {
    var ids := WithoutRepeats(viewerIds);
    var cards: map<Viewer, Known> := map[];
    for i := 0 to |ids|
      invariant forall v :: v in cards ==> cards[v] == KnownOf(v, cached, now, db)
      invariant forall k :: 0 <= k < i ==> ids[k] in cards
    {
      cards := cards[ids[i] := KnownOf(ids[i], cached, now, db)];
    }
    var inOrder := Visibles(viewerIds, ids, cards);
    shown := inOrder;
    viewers := SortViewers(inOrder);
    SortKeeps(inOrder);
    PermutationKeepsDistinct(inOrder, viewers);
  }

  lemma SortKeeps(s: seq<Card>)
    ensures Sorted(SortViewers(s)) && multiset(SortViewers(s)) == multiset(s)
    ensures forall c :: Ties(SortViewers(s), c) == Ties(s, c)
  {
    SortIsStable(s, Card("", 0, false, false, 0));
    forall c ensures Ties(SortViewers(s), c) == Ties(s, c) {
      SortIsStable(s, c);
    }
  }

  ghost predicate DistinctIds(s: seq<Card>) {
    forall i, j :: 0 <= i < j < |s| ==> s[i].id != s[j].id
  }

  lemma {:induction false} CountDistinct(s: seq<Card>, c: Card)
    requires DistinctIds(s)
    ensures multiset(s)[c] <= 1
  {
    if s != [] {
      var init, last := s[..|s| - 1], s[|s| - 1];
      assert s == init + [last];
      CountDistinct(init, c);
      assert last !in init;
    }
  }

  lemma CountTwice(s: seq<Card>, i: nat, j: nat)
    requires i < j < |s| && s[i] == s[j]
    ensures multiset(s)[s[i]] >= 2
  {
    assert s == s[..j] + [s[j]] + s[j + 1..];
    assert s[..j][i] in s[..j];
  }

  lemma PermutationKeepsDistinct(s: seq<Card>, t: seq<Card>)
    requires DistinctIds(s) && multiset(s) == multiset(t)
    ensures DistinctIds(t)
    ensures forall c :: c in t <==> c in s
  {
    assert forall c :: c in t <==> c in multiset(t);
    forall i, j | 0 <= i < j < |t| ensures t[i].id != t[j].id {
      CountDistinct(s, t[i]);
      if t[i] == t[j] {
        CountTwice(t, i, j);
        assert false;
      }
      assert t[i] in multiset(s) && t[j] in multiset(s);
      var x :| 0 <= x < |s| && s[x] == t[i];
      var y :| 0 <= y < |s| && s[y] == t[j];
      assert x != y;
    }
  }
}
