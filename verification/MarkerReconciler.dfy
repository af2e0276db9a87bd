/** The active-stream marker reconciler of src/services/liveHostStatus.service.js: a marker per hosting
    user in Redis, the live rows of the database as the truth, and repairs that need two ticks. */
module MarkerReconciler {

  type User = string
  type Stream = string

  datatype Row = Row(userId: User, streamId: Stream)

  /** A proposed repair of one user's marker. */
  datatype Repair = Delete(userId: User, streamId: Stream) | Restore(userId: User, streamId: Stream)

  datatype Plan = Plan(del: seq<Row>, add: seq<Row>, touch: seq<User>, suspects: set<Repair>)

  predicate Usable(row: Row) {
    row.userId != "" && row.streamId != ""
  }

  /** The user hosts this stream according to the rows. */
  predicate IsLive(live: seq<Row>, u: User, s: Stream) {
    Usable(Row(u, s)) && Row(u, s) in live
  }

  predicate Hosts(live: seq<Row>, u: User) {
    exists i :: 0 <= i < |live| && live[i].userId == u && Usable(live[i])
  }

  /** The user's first usable row, which names the marker to restore. */
  function FirstStream(live: seq<Row>, u: User): Stream {
    if live == [] then ""
    else if live[0].userId == u && Usable(live[0]) then live[0].streamId
    else FirstStream(live[1..], u)
  }

  lemma {:induction false} FirstStreamIsLive(live: seq<Row>, u: User)
    ensures Hosts(live, u) ==> IsLive(live, u, FirstStream(live, u))
    ensures !Hosts(live, u) ==> FirstStream(live, u) == "" && forall s :: !IsLive(live, u, s)
  {
    if live != [] {
      FirstStreamIsLive(live[1..], u);
      assert live == [live[0]] + live[1..];
      if Hosts(live, u) && !(live[0].userId == u && Usable(live[0])) {
        var i :| 0 <= i < |live| && live[i].userId == u && Usable(live[i]);
        assert live[1..][i - 1] == live[i];
      }
      if Hosts(live[1..], u) {
        var i :| 0 <= i < |live[1..]| && live[1..][i].userId == u && Usable(live[1..][i]);
        assert live[i + 1] == live[1..][i];
      }
    }
  }

  /** It is the first row of that user in the order of the rows. */
  lemma {:induction false} NoUsableRowBefore(live: seq<Row>, u: User) returns (i: nat)
    requires Hosts(live, u)
    ensures i < |live| && live[i] == Row(u, FirstStream(live, u)) && u != "" && FirstStream(live, u) != ""
    ensures forall j :: 0 <= j < i ==> live[j].userId != u || live[j].streamId == ""
  {
    if live[0].userId == u && Usable(live[0]) {
      i := 0;
    } else {
      HostsTail(live, u);
      i := NoUsableRowBefore(live[1..], u);
      assert forall j :: 0 <= j < i ==> live[1..][j] == live[j + 1];
      i := i + 1;
    }
  }

  /** The repairs that markers and rows call for, whether or not they were suspected before. */
  ghost predicate Proposed(markers: map<User, Stream>, live: seq<Row>, r: Repair) {
    match r
    case Delete(u, s) => u in markers && markers[u] == s && !IsLive(live, u, s)
    case Restore(u, s) => u !in markers && Hosts(live, u) && s == FirstStream(live, u)
  }

  /** What planMarkerRepair owes its caller. */
  ghost predicate IsPlan(p: Plan, markers: map<User, Stream>, live: seq<Row>, suspects: set<Repair>) {
    && (forall r :: r in p.suspects <==> Proposed(markers, live, r))
    && (forall u, s :: Row(u, s) in p.del <==> Delete(u, s) in p.suspects && Delete(u, s) in suspects)
    && (forall u, s :: Row(u, s) in p.add <==> Restore(u, s) in p.suspects && Restore(u, s) in suspects)
    && (forall u :: u in p.touch <==> u in markers && IsLive(live, u, markers[u]))
  }

  /** `planMarkerRepair`. Group the live rows by user, then go through the markers and the users. */
  method PlanMarkerRepair(markers: map<User, Stream>, live: seq<Row>, suspects: set<Repair>) returns (plan: Plan)
    ensures IsPlan(plan, markers, live, suspects)
  {
    var liveByUser := GroupByUser(live);
    var next: set<Repair> := {};
    var del, add, touch := [], [], [];
    var users := markers.Keys;
    while users != {}
      invariant users <= markers.Keys
      invariant forall r :: r in next <==> r.Delete? && r.userId !in users && Proposed(markers, live, r)
      invariant forall u, s :: Row(u, s) in del <==> Delete(u, s) in next && Delete(u, s) in suspects
      invariant forall u :: u in touch <==> u in markers && u !in users && IsLive(live, u, markers[u])
      decreases |users|
    {
      var u :| u in users;
      users := users - {u};
      var s := markers[u];
      if u in liveByUser && s in liveByUser[u] {
        touch := touch + [u];
      } else {
        next := next + {Delete(u, s)};
        if Delete(u, s) in suspects {
          del := del + [Row(u, s)];
        }
      }
    }
    ghost var deletions := next;
    users := liveByUser.Keys;
    while users != {}
      invariant users <= liveByUser.Keys
      invariant forall r :: r in next <==>
                r in deletions || (r.Restore? && r.userId !in users && Proposed(markers, live, r))
      invariant forall u, s :: Row(u, s) in add <==> Restore(u, s) in next && Restore(u, s) in suspects
      decreases |users|
    {
      var u :| u in users;
      users := users - {u};
      if u !in markers {
        var s := liveByUser[u][0];
        next := next + {Restore(u, s)};
        if Restore(u, s) in suspects {
          add := add + [Row(u, s)];
        }
      }
    }
    plan := Plan(del, add, touch, next);
  }

  /** The streams of every usable row by user, in row order. */
  ghost predicate Grouped(liveByUser: map<User, seq<Stream>>, live: seq<Row>) {
    && (forall u :: u in liveByUser <==> Hosts(live, u))
    && (forall u :: u in liveByUser ==> liveByUser[u] != [] && liveByUser[u][0] == FirstStream(live, u))
    && (forall u, s :: u in liveByUser ==> (s in liveByUser[u] <==> IsLive(live, u, s)))
  }

  function AddRow(liveByUser: map<User, seq<Stream>>, row: Row): map<User, seq<Stream>> {
    if !Usable(row) then liveByUser
    else
      var streams := if row.userId in liveByUser then liveByUser[row.userId] else [];
      liveByUser[row.userId := if row.streamId in streams then streams else streams + [row.streamId]]
  }

  lemma AddRowGroups(liveByUser: map<User, seq<Stream>>, live: seq<Row>, row: Row)
    requires Grouped(liveByUser, live)
    ensures Grouped(AddRow(liveByUser, row), live + [row])
  {
    var after := AddRow(liveByUser, row);
    forall u
      ensures u in after <==> Hosts(live + [row], u)
      ensures u in after ==> after[u] != [] && after[u][0] == FirstStream(live + [row], u)
    {
      OneMoreRow(live, row, u);
    }
    forall u, s | u in after ensures s in after[u] <==> IsLive(live + [row], u, s) {
      OneMoreRow(live, row, u);
      FirstStreamIsLive(live, u);
    }
  }

  method GroupByUser(live: seq<Row>) returns (liveByUser: map<User, seq<Stream>>)
    ensures Grouped(liveByUser, live)
  {
    liveByUser := map[];
    for i := 0 to |live|
      invariant Grouped(liveByUser, live[..i])
    {
      AddRowGroups(liveByUser, live[..i], live[i]);
      assert live[..i + 1] == live[..i] + [live[i]];
      liveByUser := AddRow(liveByUser, live[i]);
    }
    assert live[..|live|] == live;
  }

  lemma {:induction false} OneMoreRow(live: seq<Row>, row: Row, u: User)
    ensures Hosts(live + [row], u) <==> Hosts(live, u) || (row.userId == u && Usable(row))
    ensures FirstStream(live + [row], u) ==
            if Hosts(live, u) then FirstStream(live, u)
            else if row.userId == u && Usable(row) then row.streamId
            else ""
    ensures forall s :: IsLive(live + [row], u, s) <==> IsLive(live, u, s) || (row == Row(u, s) && Usable(row))
  {
    HostsMore(live, row, u);
    FirstMore(live, row, u);
  }

  lemma HostsMore(live: seq<Row>, row: Row, u: User)
    ensures Hosts(live + [row], u) <==> Hosts(live, u) || (row.userId == u && Usable(row))
  {
    if Hosts(live, u) {
      var i :| 0 <= i < |live| && live[i].userId == u && Usable(live[i]);
      assert (live + [row])[i] == live[i];
    }
    assert (live + [row])[|live|] == row;
    if Hosts(live + [row], u) {
      var i :| 0 <= i < |live + [row]| && (live + [row])[i].userId == u && Usable((live + [row])[i]);
      assert i < |live| ==> live[i] == (live + [row])[i];
    }
  }

  lemma {:induction false} FirstMore(live: seq<Row>, row: Row, u: User)
    ensures FirstStream(live + [row], u) ==
            if Hosts(live, u) then FirstStream(live, u)
            else if row.userId == u && Usable(row) then row.streamId
            else ""
  {
    if live == [] {
      assert live + [row] == [row];
    } else {
      assert (live + [row])[1..] == live[1..] + [row];
      FirstMore(live[1..], row, u);
      HostsTail(live, u);
    }
  }

  lemma HostsTail(live: seq<Row>, u: User)
    requires live != []
    ensures Hosts(live, u) <==> (live[0].userId == u && Usable(live[0])) || Hosts(live[1..], u)
  {
    if Hosts(live[1..], u) {
      var i :| 0 <= i < |live[1..]| && live[1..][i].userId == u && Usable(live[1..][i]);
      assert live[i + 1] == live[1..][i];
    }
    if Hosts(live, u) {
      var i :| 0 <= i < |live| && live[i].userId == u && Usable(live[i]);
      assert i > 0 ==> live[1..][i - 1] == live[i];
    }
  }

  // ----- Applying a plan -----

  /** Commands on the markers in Redis: the plan's compare-and-delete and set-if-absent, and what
      go-live and end do to them. */
  datatype Command =
    | DelIfEquals(userId: User, streamId: Stream)
    | SetNx(userId: User, streamId: Stream)
    | GoLive(userId: User, streamId: Stream)
    | Clear(userId: User)

  type Store = map<User, Stream>

  function Step(store: Store, c: Command): Store {
    match c
    case DelIfEquals(u, s) => if u in store && store[u] == s then store - {u} else store
    case SetNx(u, s) => if u in store then store else store[u := s]
    case GoLive(u, s) => store[u := s]
    case Clear(u) => store - {u}
  }

  function Run(store: Store, trace: seq<Command>): Store
    decreases |trace|
  {
    if trace == [] then store else Run(Step(store, trace[0]), trace[1..])
  }

  lemma {:induction false} RunAppend(store: Store, t: seq<Command>, u: seq<Command>)
    ensures Run(store, t + u) == Run(Run(store, t), u)
    decreases |t|
  {
    if t == [] {
      assert t + u == u;
    } else {
      assert (t + u)[1..] == t[1..] + u;
      RunAppend(Step(store, t[0]), t[1..], u);
    }
  }

  predicate FromPlan(p: Plan, c: Command) {
    || (c.DelIfEquals? && Row(c.userId, c.streamId) in p.del)
    || (c.SetNx? && Row(c.userId, c.streamId) in p.add)
  }

  /** A marker that a go-live put in place after planning survives whatever the plan still does to that
      user, unless it is the very marker the plan found stale. */
  lemma {:induction false} GoLiveSurvives(store: Store, p: Plan, trace: seq<Command>, u: User, s: Stream)
    requires u in store && store[u] == s && Row(u, s) !in p.del
    requires forall i :: 0 <= i < |trace| && trace[i].userId == u ==> FromPlan(p, trace[i])
    ensures u in Run(store, trace) && Run(store, trace)[u] == s
    decreases |trace|
  {
    if trace != [] {
      GoLiveSurvives(Step(store, trace[0]), p, trace[1..], u, s);
    }
  }

  /** The plan deletes no marker of a stream that was live in its snapshot, so with GoLiveSurvives a
      stream whose row is there by the second tick keeps its marker. */
  lemma LiveMarkersAreSpared(p: Plan, markers: map<User, Stream>, live: seq<Row>, suspects: set<Repair>, u: User,
      s: Stream)
    requires IsPlan(p, markers, live, suspects) && IsLive(live, u, s)
    ensures Row(u, s) !in p.del
    ensures u in markers && markers[u] == s ==> u in p.touch && forall t :: Row(u, t) !in p.add
  {
  }

  // ----- The reconciler object -----

  /** The markers as `readMarkers` returns them: keys with an empty value are skipped. */
  function ReadMarkers(store: Store): map<User, Stream> {
    map u | u in store && store[u] != "" :: store[u]
  }

  /** The repair is proposed now and was suspected before. */
  ghost predicate Due(store: Store, suspects: set<Repair>, live: seq<Row>, r: Repair) {
    r in suspects && Proposed(ReadMarkers(store), live, r)
  }

  /** One undisturbed pass: exactly the due repairs are made, and the new suspects are the proposals. */
  ghost predicate IsPass(store: Store, suspects: set<Repair>, live: seq<Row>, store': Store, suspects': set<Repair>) {
    && (forall r :: r in suspects' <==> Proposed(ReadMarkers(store), live, r))
    && forall u :: UserAfter(store, suspects, live, store', u)
  }

  ghost predicate UserAfter(store: Store, suspects: set<Repair>, live: seq<Row>, store': Store, u: User) {
    if u in store then
      if Due(store, suspects, live, Delete(u, store[u])) then u !in store' else u in store' && store'[u] == store[u]
    else
      var first := FirstStream(live, u);
      if Due(store, suspects, live, Restore(u, first)) then u in store' && store'[u] == first else u !in store'
  }

  class Reconciler {
    var store: Store
    var suspects: set<Repair>

    constructor (store: Store)
      ensures this.store == store && suspects == {}
    {
      this.store := store;
      suspects := {};
    }

    /** The apply steps of a pass; `others(k)` are go-lives and ends before its k-th command. */
    method Apply(plan: Plan, others: nat -> seq<Command>) returns (trace: seq<Command>)
      modifies this`store
      ensures store == Run(old(store), trace)
      ensures forall c :: c in trace ==> FromPlan(plan, c) || exists k :: c in others(k)
      ensures (forall k :: others(k) == []) ==> store == AddAll(DelAll(old(store), plan.del), plan.add)
    {
      ghost var quiet := forall k :: others(k) == [];
      trace := [];
      for i := 0 to |plan.del|
        invariant store == Run(old(store), trace)
        invariant forall c :: c in trace ==> FromPlan(plan, c) || exists k :: c in others(k)
        invariant quiet ==> DelAll(store, plan.del[i..]) == DelAll(old(store), plan.del)
      {
        assert plan.del[i..][1..] == plan.del[i + 1..];
        trace := Send(old(store), trace, others(i), DelIfEquals(plan.del[i].userId, plan.del[i].streamId));
      }
      for i := 0 to |plan.add|
        invariant store == Run(old(store), trace)
        invariant forall c :: c in trace ==> FromPlan(plan, c) || exists k :: c in others(k)
        invariant quiet ==> AddAll(store, plan.add[i..]) == AddAll(DelAll(old(store), plan.del), plan.add)
      {
        assert plan.add[i..][1..] == plan.add[i + 1..];
        trace := Send(old(store), trace, others(|plan.del| + i), SetNx(plan.add[i].userId, plan.add[i].streamId));
      }
    }

    method Send(ghost start: Store, trace: seq<Command>, others: seq<Command>, c: Command)
        returns (longer: seq<Command>)
      requires store == Run(start, trace)
      modifies this`store
      ensures longer == trace + others + [c]
      ensures store == Run(start, longer)
      ensures others == [] ==> store == Step(old(store), c)
    {
      RunAppend(start, trace, others);
      RunAppend(start, trace + others, [c]);
      store := Step(Run(store, others), c);
      longer := trace + others + [c];
    }

    /** `readMarkers`, over the keys that the scan has found, in chunks of 200; `others(k)` are go-lives and
        ends before the k-th chunk is read. */
    method ReadChunks(scanned: seq<User>, others: nat -> seq<Command>)
        returns (markers: map<User, Stream>, trace: seq<Command>)
      modifies this`store
      ensures store == Run(old(store), trace)
      ensures forall c :: c in trace ==> exists k :: c in others(k)
      // Every marker was there at some moment of the reading.
      ensures forall u :: u in markers ==>
              u in scanned && markers[u] != "" && WasThere(old(store), trace, u, markers[u])
      ensures (forall k :: others(k) == []) && ScanFinds(scanned, old(store)) ==>
                markers == ReadMarkers(old(store)) && store == old(store)
    {
      ghost var start, quiet := store, forall k :: others(k) == [];
      markers, trace := map[], [];
      var i, chunk := 0, 0;
      while i < |scanned|
        invariant 0 <= i <= |scanned| && store == Run(start, trace)
        invariant forall c :: c in trace ==> exists k :: c in others(k)
        invariant forall u :: u in markers ==> u in scanned && markers[u] != "" && WasThere(start, trace, u, markers[u])
        invariant quiet ==> trace == [] && ReadSoFar(markers, start, scanned[..i])
      {
        StillThere(start, trace, others(chunk), markers);
        RunAppend(start, trace, others(chunk));
        store := Run(store, others(chunk));
        trace := trace + others(chunk);
        var end := if i + CHUNK <= |scanned| then i + CHUNK else |scanned|;
        markers := ReadChunk(start, trace, scanned, i, end, markers);
        i, chunk := end, chunk + 1;
      }
      assert scanned[..|scanned|] == scanned;
    }

    /** One MGET: the values of a chunk of keys at one moment; empty ones are skipped. */
    method ReadChunk(ghost start: Store, ghost trace: seq<Command>, scanned: seq<User>, from: nat, end: nat,
        markers: map<User, Stream>) returns (more: map<User, Stream>)
      requires from <= end <= |scanned| && store == Run(start, trace)
      requires forall u :: u in markers ==> u in scanned && markers[u] != "" && WasThere(start, trace, u, markers[u])
      ensures forall u :: u in more ==> u in scanned && more[u] != "" && WasThere(start, trace, u, more[u])
      ensures trace == [] && ReadSoFar(markers, start, scanned[..from]) ==> ReadSoFar(more, start, scanned[..end])
    {
      more := markers;
      assert trace[..|trace|] == trace;
      for j := from to end
        invariant forall u :: u in more ==> u in scanned && more[u] != "" && WasThere(start, trace, u, more[u])
        invariant trace == [] && ReadSoFar(markers, start, scanned[..from]) ==> ReadSoFar(more, start, scanned[..j])
      {
        assert scanned[..j + 1] == scanned[..j] + [scanned[j]];
        if scanned[j] in store && store[scanned[j]] != "" {
          assert WasThere(start, trace, scanned[j], store[scanned[j]]);
          more := more[scanned[j] := store[scanned[j]]];
        }
      }
    }

    /** One pass of `reconcileActiveStreamMarkers`. `beforeReads` are go-lives and ends before the chunks of
        markers are read, `beforeRows` those before the rows are, and `others(k)` those before the k-th command
        of the apply steps. */
    method Reconcile(live: seq<Row>, scanned: seq<User>, beforeReads: nat -> seq<Command>, beforeRows: seq<Command>,
        others: nat -> seq<Command>)
        returns (plan: Plan, ghost markers: map<User, Stream>, ghost meanwhile: seq<Command>, trace: seq<Command>)
      modifies this
      // The plan is made from markers that were there while they were read, and is all that the pass does to them.
      ensures forall u :: u in markers ==> markers[u] != "" && WasThere(old(store), meanwhile, u, markers[u])
      ensures IsPlan(plan, markers, live, old(suspects)) && suspects == plan.suspects
      ensures store == Run(Run(Run(old(store), meanwhile), beforeRows), trace)
      ensures forall c :: c in meanwhile ==> exists k :: c in beforeReads(k)
      ensures forall c :: c in trace ==> FromPlan(plan, c) || exists k :: c in others(k)
      // Undisturbed, exactly the due repairs are made.
      ensures (forall k :: beforeReads(k) == [] && others(k) == []) && beforeRows == []
              && ScanFinds(scanned, old(store)) ==>
                IsPass(old(store), old(suspects), live, store, suspects)
    {
      ghost var before, suspected := store, suspects;
      var read;
      read, meanwhile := ReadChunks(scanned, beforeReads);
      markers := read;
      store := Run(store, beforeRows);
      plan := PlanMarkerRepair(read, live, suspects);
      suspects := plan.suspects;
      trace := Apply(plan, others);
      if (forall k :: beforeReads(k) == [] && others(k) == []) && beforeRows == [] && ScanFinds(scanned, before) {
        forall u ensures UserAfter(before, suspected, live, store, u) {
          AppliedPlan(before, suspected, live, plan, u);
        }
      }
    }

    /** A pass with nobody else at the markers; the scan then finds every key. */
    method ReconcileAlone(live: seq<Row>)
      modifies this
      ensures IsPass(old(store), old(suspects), live, store, suspects)
    {
      var scanned := [];
      var keys := store.Keys;
      while keys != {}
        invariant keys <= store.Keys && store == old(store) && suspects == old(suspects)
        invariant forall u :: u in scanned <==> u in store.Keys - keys
        decreases |keys|
      {
        var u :| u in keys;
        scanned, keys := scanned + [u], keys - {u};
      }
      var _, _, _, _ := Reconcile(live, scanned, _ => [], [], _ => []);
    }

    /** Four passes from any markers and any suspects. */
    method ReconcileFourTimes(live: seq<Row>)
      modifies this
      ensures Settled(store, live) <==> !Blocked(old(store), live)
    {
      ghost var s0, q0 := store, suspects;
      ReconcileAlone(live);
      ghost var s1, q1 := store, suspects;
      ReconcileAlone(live);
      ghost var s2, q2 := store, suspects;
      ReconcileAlone(live);
      ghost var s3, q3 := store, suspects;
      ReconcileAlone(live);
      FourPassesSettle(live, [s0, s1, s2, s3, store], [q0, q1, q2, q3, suspects]);
    }
  }

  const CHUNK := 200

  /** The marker was there at some moment while these commands reached the store. */
  ghost predicate WasThere(store: Store, trace: seq<Command>, u: User, s: Stream) {
    exists n :: 0 <= n <= |trace| && u in Run(store, trace[..n]) && Run(store, trace[..n])[u] == s
  }

  /** The scan has found exactly the keys of the store; it may return one twice. */
  ghost predicate ScanFinds(scanned: seq<User>, store: Store) {
    forall u :: u in scanned <==> u in store
  }

  ghost predicate ReadSoFar(markers: map<User, Stream>, store: Store, scanned: seq<User>) {
    markers == map u | u in scanned && u in store && store[u] != "" :: store[u]
  }

  lemma StillThere(store: Store, trace: seq<Command>, more: seq<Command>, markers: map<User, Stream>)
    ensures forall u :: u in markers && WasThere(store, trace, u, markers[u]) ==>
            WasThere(store, trace + more, u, markers[u])
  {
    forall u | u in markers && WasThere(store, trace, u, markers[u])
        ensures WasThere(store, trace + more, u, markers[u]) {
      var n :| 0 <= n <= |trace| && u in Run(store, trace[..n]) && Run(store, trace[..n])[u] == markers[u];
      assert (trace + more)[..n] == trace[..n];
    }
  }

  function DelAll(store: Store, rows: seq<Row>): Store
    decreases |rows|
  {
    if rows == [] then store else DelAll(Step(store, DelIfEquals(rows[0].userId, rows[0].streamId)), rows[1..])
  }

  function AddAll(store: Store, rows: seq<Row>): Store
    decreases |rows|
  {
    if rows == [] then store else AddAll(Step(store, SetNx(rows[0].userId, rows[0].streamId)), rows[1..])
  }

  lemma {:induction false} DelAllAt(store: Store, rows: seq<Row>, u: User)
    ensures u in DelAll(store, rows) <==> u in store && Row(u, store[u]) !in rows
    ensures u in DelAll(store, rows) ==> DelAll(store, rows)[u] == store[u]
    decreases |rows|
  {
    if rows != [] {
      DelAllAt(Step(store, DelIfEquals(rows[0].userId, rows[0].streamId)), rows[1..], u);
      assert rows == [rows[0]] + rows[1..];
    }
  }

  lemma {:induction false} AddAllAt(store: Store, rows: seq<Row>, u: User, s: Stream)
    requires forall t :: Row(u, t) in rows ==> t == s
    ensures u in AddAll(store, rows) <==> u in store || Row(u, s) in rows
    ensures u in AddAll(store, rows) ==> AddAll(store, rows)[u] == if u in store then store[u] else s
    decreases |rows|
  {
    if rows != [] {
      assert rows == [rows[0]] + rows[1..];
      assert forall t :: Row(u, t) in rows[1..] ==> Row(u, t) in rows;
      assert rows[0].userId == u ==> rows[0] == Row(u, s);
      AddAllAt(Step(store, SetNx(rows[0].userId, rows[0].streamId)), rows[1..], u, s);
    }
  }

  lemma AppliedPlan(store: Store, suspects: set<Repair>, live: seq<Row>, plan: Plan, u: User)
    requires IsPlan(plan, ReadMarkers(store), live, suspects)
    ensures UserAfter(store, suspects, live, AddAll(DelAll(store, plan.del), plan.add), u)
  {
    var first := FirstStream(live, u);
    DelAllAt(store, plan.del, u);
    assert forall t :: Row(u, t) in plan.add ==> Restore(u, t) in plan.suspects && t == first;
    AddAllAt(DelAll(store, plan.del), plan.add, u, first);
    if u in store {
      assert Row(u, store[u]) in plan.del <==> Due(store, suspects, live, Delete(u, store[u]));
      if Row(u, store[u]) in plan.del {
        assert u in ReadMarkers(store);
        assert Row(u, first) !in plan.add;
      }
    } else {
      assert Row(u, first) in plan.add <==> Due(store, suspects, live, Restore(u, first));
    }
  }

  // ----- Convergence -----

  /** Every marker that is read names a live stream of its user, and every live user has one. */
  ghost predicate Settled(store: Store, live: seq<Row>) {
    forall u :: UserSettled(store, live, u)
  }

  ghost predicate UserSettled(store: Store, live: seq<Row>, u: User) {
    if u in ReadMarkers(store) then IsLive(live, u, store[u]) else !Hosts(live, u)
  }

  /** That is: every non-empty marker names a row of its user, and every user with a usable row has one. */
  lemma SettledMeans(store: Store, live: seq<Row>)
    ensures Settled(store, live) <==>
            && (forall u :: u in store && store[u] != "" ==> u != "" && Row(u, store[u]) in live)
            && (forall i :: 0 <= i < |live| && live[i].userId != "" && live[i].streamId != "" ==>
                  live[i].userId in store && store[live[i].userId] != "")
  {
    if Settled(store, live) {
      forall i | 0 <= i < |live| && live[i].userId != "" && live[i].streamId != ""
        ensures live[i].userId in store && store[live[i].userId] != ""
      {
        assert UserSettled(store, live, live[i].userId) && Hosts(live, live[i].userId);
      }
      forall u | u in store && store[u] != "" ensures u != "" && Row(u, store[u]) in live {
        assert UserSettled(store, live, u);
      }
    }
  }

  /** An empty value under a live user's key: skipped by the reader, yet in the way of SET NX. */
  ghost predicate Blocked(store: Store, live: seq<Row>) {
    exists u :: Hosts(live, u) && u in store && store[u] == ""
  }

  lemma OneUserInTwoPasses(live: seq<Row>, s0: Store, s1: Store, s2: Store, q0: set<Repair>, q1: set<Repair>,
      q2: set<Repair>, u: User)
    requires IsPass(s0, q0, live, s1, q1) && IsPass(s1, q1, live, s2, q2)
    ensures u in s0 && (s0[u] == "" || IsLive(live, u, s0[u])) ==> u in s2 && s2[u] == s0[u]
    ensures u in s0 && s0[u] != "" && !IsLive(live, u, s0[u]) ==> u !in s2
    ensures u !in s0 && !Hosts(live, u) ==> u !in s2
    ensures u !in s0 && Hosts(live, u) ==> u in s2 && s2[u] == FirstStream(live, u)
  {
    FirstStreamIsLive(live, u);
    assert UserAfter(s0, q0, live, s1, u) && UserAfter(s1, q1, live, s2, u);
  }

  /** From any markers and any suspects, with the rows held fixed, four passes settle everything,
      exactly when no live user's marker is an empty string. */
  lemma FourPassesSettle(live: seq<Row>, s: seq<Store>, q: seq<set<Repair>>)
    requires |s| == |q| == 5 && forall k :: 0 <= k < 4 ==> IsPass(s[k], q[k], live, s[k + 1], q[k + 1])
    ensures Settled(s[4], live) <==> !Blocked(s[0], live)
  {
    forall u ensures UserSettled(s[4], live, u) <==> !(Hosts(live, u) && u in s[0] && s[0][u] == "") {
      FirstStreamIsLive(live, u);
      OneUserInTwoPasses(live, s[0], s[1], s[2], q[0], q[1], q[2], u);
      OneUserInTwoPasses(live, s[2], s[3], s[4], q[2], q[3], q[4], u);
    }
  }

  /** And settled markers stay as they are. */
  lemma SettledStays(live: seq<Row>, s0: Store, q0: set<Repair>, s1: Store, q1: set<Repair>)
    requires Settled(s0, live) && IsPass(s0, q0, live, s1, q1)
    ensures s1 == s0 && q1 == {}
  {
    assert q1 == {} by {
      assert forall r :: r in q1 ==> !UserSettled(s0, live, r.userId);
    }
    forall u
      ensures u in s1 <==> u in s0
      ensures u in s0 && u in s1 ==> s1[u] == s0[u]
    {
      assert UserSettled(s0, live, u) && UserAfter(s0, q0, live, s1, u);
    }
    assert s1.Keys == s0.Keys;
  }

  /** A pass changes a user's marker only by a repair that was proposed in this pass and in the last. */
  lemma RepairNeedsTwoPasses(live0: seq<Row>, live1: seq<Row>, s0: Store, q0: set<Repair>, s1: Store,
      q1: set<Repair>, s2: Store, q2: set<Repair>, u: User) returns (r: Repair)
    requires IsPass(s0, q0, live0, s1, q1) && IsPass(s1, q1, live1, s2, q2)
    requires (u in s1) != (u in s2) || (u in s1 && s2[u] != s1[u])
    ensures r.userId == u && Proposed(ReadMarkers(s0), live0, r) && Proposed(ReadMarkers(s1), live1, r)
    ensures r.Delete? ==> u in s1 && s1[u] == r.streamId && u !in s2
    ensures r.Restore? ==> u !in s1 && u in s2 && s2[u] == r.streamId
  {
    assert UserAfter(s1, q1, live1, s2, u);
    r := if u in s1 then Delete(u, s1[u]) else Restore(u, FirstStream(live1, u));
    assert r in q1;
  }

  /** The rows must come back in the same order: a missing marker of a user with several live rows is
      restored by the second pass if and only if both passes saw the same row first. */
  lemma RestoredIffSameFirstRow(live1: seq<Row>, live2: seq<Row>, s0: Store, q0: set<Repair>, s1: Store,
      q1: set<Repair>, s2: Store, q2: set<Repair>, u: User)
    requires IsPass(s0, q0, live1, s1, q1) && IsPass(s1, q1, live2, s2, q2)
    requires u !in s0 && Hosts(live1, u) && Hosts(live2, u) && Restore(u, FirstStream(live1, u)) !in q0
    ensures u in s2 <==> FirstStream(live1, u) == FirstStream(live2, u)
    ensures u !in s2 ==> Restore(u, FirstStream(live1, u)) !in q2
  {
    assert UserAfter(s0, q0, live1, s1, u) && UserAfter(s1, q1, live2, s2, u);
    assert Restore(u, FirstStream(live1, u)) in q1;
  }
}
