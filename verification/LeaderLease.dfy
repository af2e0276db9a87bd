/** The leader lock of src/services/cluster.service.js: one Redis key per loop name, taken with
    SET NX PX, renewed and released only by its owner. */
module LeaderLease {

  type Node = string
  type Name = string

  datatype Lease = Lease(owner: Node, expires: int)

  /** Redis: its clock and the leader keys. A key whose expiry has passed is gone. */
  datatype Redis = Redis(now: int, leases: map<Name, Lease>)

  datatype Command =
    | Tick(to: int)
    | SetNx(node: Node, name: Name)
    | Renew(node: Node, name: Name)
    | Release(node: Node, name: Name)

  predicate Held(r: Redis, name: Name) {
    name in r.leases && r.now < r.leases[name].expires
  }

  predicate HeldBy(r: Redis, name: Name, node: Node) {
    Held(r, name) && r.leases[name].owner == node
  }

  /** The command grants (or extends) its node's leadership. */
  predicate Grants(r: Redis, c: Command) {
    match c
    case SetNx(_, name) => !Held(r, name)
    case Renew(node, name) => HeldBy(r, name, node)
    case Tick(_) | Release(_, _) => false
  }

  function Step(r: Redis, c: Command, ttl: int): Redis {
    match c
    case Tick(to) => if r.now <= to then r.(now := to) else r
    case SetNx(node, name) => if Grants(r, c) then r.(leases := r.leases[name := Lease(node, r.now + ttl)]) else r
    case Renew(node, name) => if Grants(r, c) then r.(leases := r.leases[name := Lease(node, r.now + ttl)]) else r
    case Release(node, name) => if HeldBy(r, name, node) then r.(leases := r.leases - {name}) else r
  }

  function Run(r: Redis, trace: seq<Command>, ttl: int): Redis
    decreases |trace|
  {
    if trace == [] then r else Run(Step(r, trace[0], ttl), trace[1..], ttl)
  }

  /** Redis as command i of the trace finds it. */
  function At(r: Redis, trace: seq<Command>, ttl: int, i: nat): Redis
    requires i <= |trace|
  {
    Run(r, trace[..i], ttl)
  }

  predicate GrantedAt(r: Redis, trace: seq<Command>, ttl: int, i: nat, node: Node, name: Name) {
    i < |trace| && (trace[i] == SetNx(node, name) || trace[i] == Renew(node, name))
        && Grants(At(r, trace, ttl, i), trace[i])
  }

  predicate ReleasedAt(r: Redis, trace: seq<Command>, ttl: int, i: nat, node: Node, name: Name) {
    i < |trace| && trace[i] == Release(node, name) && HeldBy(At(r, trace, ttl, i), name, node)
  }

  lemma {:induction false} RunAppend(r: Redis, t: seq<Command>, u: seq<Command>, ttl: int)
    ensures Run(r, t + u, ttl) == Run(Run(r, t, ttl), u, ttl)
    decreases |t|
  {
    if t == [] {
      assert t + u == u;
    } else {
      assert (t + u)[1..] == t[1..] + u;
      RunAppend(Step(r, t[0], ttl), t[1..], u, ttl);
    }
  }

  lemma AtNext(r: Redis, trace: seq<Command>, ttl: int, i: nat)
    requires i < |trace|
    ensures At(r, trace, ttl, i + 1) == Step(At(r, trace, ttl, i), trace[i], ttl)
  {
    assert trace[..i + 1] == trace[..i] + [trace[i]];
    RunAppend(r, trace[..i], [trace[i]], ttl);
  }

  /** From a grant at Redis time t until t + ttl the lease stays its node's, unless the node releases it. */
  lemma {:induction false} LeaseLasts(r: Redis, trace: seq<Command>, ttl: int, i: nat, j: nat, node: Node, name: Name)
    requires GrantedAt(r, trace, ttl, i, node, name) && i < j <= |trace|
    requires forall k :: i < k < j ==> !ReleasedAt(r, trace, ttl, k, node, name)
    ensures At(r, trace, ttl, i).now <= At(r, trace, ttl, j).now
    ensures var until := At(r, trace, ttl, i).now + ttl;
            || until <= At(r, trace, ttl, j).now
            || (HeldBy(At(r, trace, ttl, j), name, node) && until <= At(r, trace, ttl, j).leases[name].expires)
    decreases j
  {
    if i + 1 == j {
      AtNext(r, trace, ttl, i);
    } else {
      LeaseLasts(r, trace, ttl, i, j - 1, node, name);
      AtNext(r, trace, ttl, j - 1);
      assert !ReleasedAt(r, trace, ttl, j - 1, node, name);
    }
  }

  /** Leases of different nodes for one name are disjoint: after a grant at Redis time t no other node is
      granted the name before t + ttl, unless the owner itself released it in between. */
  lemma LeasesAreDisjoint(r: Redis, trace: seq<Command>, ttl: int, i: nat, j: nat, a: Node, b: Node, name: Name)
    requires i < j && a != b
    requires GrantedAt(r, trace, ttl, i, a, name) && GrantedAt(r, trace, ttl, j, b, name)
    ensures || At(r, trace, ttl, i).now + ttl <= At(r, trace, ttl, j).now
            || exists k :: i < k < j && ReleasedAt(r, trace, ttl, k, a, name)
  {
    if forall k :: i < k < j ==> !ReleasedAt(r, trace, ttl, k, a, name) {
      LeaseLasts(r, trace, ttl, i, j, a, name);
    }
  }

  /** No command of another node takes a running lease away, shortens it or renews it. */
  lemma OthersCannotTouch(r: Redis, c: Command, ttl: int, node: Node, name: Name)
    requires HeldBy(r, name, node)
    requires !c.Tick? ==> c.node != node
    ensures !c.Tick? ==> HeldBy(Step(r, c, ttl), name, node) && Step(r, c, ttl).leases[name] == r.leases[name]
    ensures c.Tick? && c.to < r.leases[name].expires ==> HeldBy(Step(r, c, ttl), name, node)
  {
  }

  // ----- The node's side -----

  class RedisServer {
    var redis: Redis
    var isOpen: bool

    constructor (redis: Redis)
      ensures this.redis == redis && isOpen
    {
      this.redis := redis;
      isOpen := true;
    }

    method Exec(c: Command, ttl: int) returns (ok: bool)
      modifies this`redis
      ensures redis == Step(old(redis), c, ttl)
      ensures ok <==> if c.Release? then HeldBy(old(redis), c.name, c.node) else Grants(old(redis), c)
    {
      ok := if c.Release? then HeldBy(redis, c.name, c.node) else Grants(redis, c);
      redis := Step(redis, c, ttl);
    }
  }

  class ClusterNode {
    const id: Node
    const server: RedisServer
    const ttl: int
    var shuttingDown: bool
    var heldLocks: set<Name>

    constructor (id: Node, server: RedisServer, ttl: int)
      requires ttl > 0
      ensures this.id == id && this.server == server && this.ttl == ttl && heldLocks == {} && !shuttingDown
    {
      this.id, this.server, this.ttl := id, server, ttl;
      heldLocks, shuttingDown := {}, false;
    }

    /** `isLeader`: try to take the free key, otherwise to renew one's own. `between` is what other nodes
        and the clock do between the two commands. */
    method IsLeader(name: Name, between: seq<Command>) returns (leader: bool, trace: seq<Command>)
      modifies this`heldLocks, server`redis
      ensures server.redis == Run(old(server.redis), trace, ttl)
      ensures shuttingDown || !server.isOpen ==> !leader && trace == [] && heldLocks == old(heldLocks)
      ensures !shuttingDown && server.isOpen ==>
              heldLocks == if leader then old(heldLocks) + {name} else old(heldLocks) - {name}
      ensures !shuttingDown && server.isOpen ==>
                trace == [SetNx(id, name)] + if Held(old(server.redis), name) then between + [Renew(id, name)] else []
      // True exactly when the last command granted, so with the whole lease still ahead.
      ensures leader ==> trace != [] && GrantedAt(old(server.redis), trace, ttl, |trace| - 1, id, name)
      ensures leader ==> name in server.redis.leases && server.redis.leases[name] == Lease(id, server.redis.now + ttl)
      ensures !leader && trace != [] ==> !GrantedAt(old(server.redis), trace, ttl, |trace| - 1, id, name)
      ensures !shuttingDown && server.isOpen && !Held(old(server.redis), name) ==> leader
      ensures !shuttingDown && server.isOpen
              && (name in old(server.redis).leases ==>
                  old(server.redis).leases[name].expires <= old(server.redis).now) ==>
                leader && server.redis.leases ==
                    old(server.redis).leases[name := Lease(id, old(server.redis).now + ttl)]
      // Alone, it also keeps leading as long as its lease runs, for a whole TTL more, and never takes over
      // another node's running lease.
      ensures !shuttingDown && server.isOpen && between == [] && name in old(server.redis).leases
              && old(server.redis).now < old(server.redis).leases[name].expires ==>
                && (leader <==> old(server.redis).leases[name].owner == id)
                && (leader ==> server.redis.leases[name] == Lease(id, old(server.redis).now + ttl))
                && (!leader ==> server.redis == old(server.redis))
    {
      if shuttingDown || !server.isOpen {
        return false, [];
      }
      ghost var before := server.redis;
      leader := server.Exec(SetNx(id, name), ttl);
      trace := [SetNx(id, name)];
      assert [SetNx(id, name)][..0] == [];
      assert server.redis == Run(before, trace, ttl);
      if !leader {
        RunAppend(before, trace, between, ttl);
        server.redis := Run(server.redis, between, ttl);
        trace := trace + between;
        ghost var upTo := trace;
        leader := server.Exec(Renew(id, name), ttl);
        RunAppend(before, trace, [Renew(id, name)], ttl);
        trace := trace + [Renew(id, name)];
        assert trace[..|trace| - 1] == upTo;
      }
      heldLocks := if leader then heldLocks + {name} else heldLocks - {name};
    }

    /** `releaseLeaderLocks`: every lock this node holds, and no other node's. `others(k)` is what other nodes
        and the clock do before the k-th release. */
    method ReleaseLeaderLocks(others: nat -> seq<Command>) returns (trace: seq<Command>)
      modifies this`heldLocks, server`redis
      ensures server.redis == Run(old(server.redis), trace, ttl)
      ensures !server.isOpen ==> trace == [] && heldLocks == old(heldLocks)
      // It sends one release of its own for every lock it holds, and nothing else.
      ensures server.isOpen ==> heldLocks == {} && forall name :: name in old(heldLocks) ==> Release(id, name) in trace
      ensures forall c :: c in trace ==>
              (c.Release? && c.node == id && c.name in old(heldLocks)) || exists k :: c in others(k)
      // Afterwards it holds none of them, unless somebody took one in its name meanwhile.
      ensures server.isOpen && (forall k :: NotBy(others(k), id)) ==>
                forall name :: name in old(heldLocks) ==> !HeldBy(server.redis, name, id)
      // Undisturbed, every other lease is as before.
      ensures (forall k :: others(k) == []) ==>
                forall name, node ::
                  HeldBy(old(server.redis), name, node) && (node != id || name !in old(heldLocks)) ==>
                    HeldBy(server.redis, name, node) && server.redis.leases[name] == old(server.redis).leases[name]
    {
      trace := [];
      if !server.isOpen {
        return;
      }
      ghost var start := server.redis;
      ghost var apart, quiet := forall k :: NotBy(others(k), id), forall k :: others(k) == [];
      var left := heldLocks;
      var k := 0;
      while left != {}
        invariant left <= old(heldLocks) && server.redis == Run(start, trace, ttl)
        invariant forall name :: name in old(heldLocks) - left ==> Release(id, name) in trace
        invariant forall c :: c in trace ==>
                  (c.Release? && c.node == id && c.name in old(heldLocks)) || exists k :: c in others(k)
        invariant apart ==> forall name :: name in old(heldLocks) - left ==> !HeldBy(server.redis, name, id)
        invariant quiet ==> Spared(start, server.redis, id, old(heldLocks))
        decreases |left|
      {
        var name :| name in left;
        trace := Drop(start, trace, others(k), name);
        if apart {
          assert NotBy(others(k), id);
        }
        left := left - {name};
        k := k + 1;
      }
      heldLocks := {};
    }

    /** Others' commands, and then the release of one lock. */
    method Drop(ghost start: Redis, trace: seq<Command>, others: seq<Command>, name: Name)
        returns (longer: seq<Command>)
      requires server.redis == Run(start, trace, ttl)
      modifies server`redis
      ensures longer == trace + others + [Release(id, name)] && server.redis == Run(start, longer, ttl)
      ensures NotBy(others, id) ==> !HeldBy(server.redis, name, id)
      ensures NotBy(others, id) ==> forall n :: !HeldBy(old(server.redis), n, id) ==> !HeldBy(server.redis, n, id)
      ensures others == [] ==> forall names :: name in names && Spared(start, old(server.redis), id, names) ==>
                                 Spared(start, server.redis, id, names)
    {
      RunAppend(start, trace, others, ttl);
      server.redis := Run(server.redis, others, ttl);
      if NotBy(others, id) {
        forall n | !HeldBy(old(server.redis), n, id) ensures !HeldBy(server.redis, n, id) {
          NotGranted(old(server.redis), others, ttl, id, n);
        }
      }
      var _ := server.Exec(Release(id, name), ttl);
      RunAppend(start, trace + others, [Release(id, name)], ttl);
      longer := trace + others + [Release(id, name)];
    }
  }

  /** None of the commands is this node's. */
  ghost predicate NotBy(trace: seq<Command>, node: Node) {
    forall c :: c in trace && !c.Tick? ==> c.node != node
  }

  /** Other nodes' leases, and those under other names, are as before. */
  ghost predicate Spared(r: Redis, r': Redis, node: Node, names: set<Name>) {
    r'.now == r.now
    && forall name, owner :: HeldBy(r, name, owner) && (owner != node || name !in names) ==>
         HeldBy(r', name, owner) && r'.leases[name] == r.leases[name]
  }

  lemma {:induction false} NotGranted(r: Redis, trace: seq<Command>, ttl: int, node: Node, name: Name)
    requires NotBy(trace, node) && !HeldBy(r, name, node)
    ensures !HeldBy(Run(r, trace, ttl), name, node)
    decreases |trace|
  {
    if trace != [] {
      assert trace[0] in trace && forall c :: c in trace[1..] ==> c in trace;
      NotGranted(Step(r, trace[0], ttl), trace[1..], ttl, node, name);
    }
  }
}
