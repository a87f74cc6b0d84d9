/**
 The discovery handler with its table of pools (lib/gat/handlers/discovery/module.go): the loops of
 added, updated, removed and reconcile, proved against DiscoverySpec, and the invariant they keep
 over any number of clusters.
 */
module Discovery {
  import opened Collections
  import opened DiscoverySpec

  // ---- the table is right for a set of clusters ------------------------------------------

  ghost predicate InFoot(c: Cluster, k: Key) {
    k.1 in c.databases && !Unowned(c.users, k)
  }

  /** The cell is as built, except that an empty read-only pool may be missing. */
  ghost predicate CellOk(rp: bool, t: Table, c: Cluster, u: string, d: string) {
    CellAt(t, u, d) == Want(rp, c, u, d, true) || CellAt(t, u, d) == Want(rp, c, u, d, false)
  }

  /** Every cell of every cluster is as built for it, and there is no other pool. */
  ghost predicate Right(rp: bool, clusters: map<string, Cluster>, t: Table) {
    && (forall id, u, d | id in clusters && Covers(clusters[id], u, d) :: CellOk(rp, t, clusters[id], u, d))
    && (forall k | k in t :: InSome(clusters, k))
  }

  ghost predicate InSome(clusters: map<string, Cluster>, k: Key) {
    exists id :: id in clusters && InFoot(clusters[id], k)
  }

  /** The change from prev to next has nothing to do with the pools of c. */
  ghost predicate Aside(prev: Cluster, next: Cluster, c: Cluster) {
    forall k | InFoot(c, k) :: Outside(prev, next, k)
  }

  const NOTHING := Cluster("", Node("", 0), map[], [], [])

  ghost predicate Named(prev: Cluster, next: Cluster, u: string) {
    exists user :: (user in prev.users || user in next.users) && user.username == u
  }

  /** The table t was changed into t' for the change from prev to next, and only there. */
  ghost predicate Moves(rp: bool, prev: Cluster, next: Cluster, t: Table, t': Table) {
    && (forall k | Outside(prev, next, k) :: At(t', k) == At(t, k))
    && (forall u, d | Named(prev, next, u) && CellOk(rp, t, prev, u, d) :: CellOk(rp, t', next, u, d))
  }

  lemma CoveredInFoot(c: Cluster, u: string, d: string)
    requires Covers(c, u, d)
    ensures InFoot(c, (u, d)) && InFoot(c, (ReplicaName(u), d))
  {
    FindIs(c.users, u);
    var i :| 0 <= i < |c.users| && c.users[i].username == u;
    assert Owns(c.users[i].username, d, (u, d)) && Owns(c.users[i].username, d, (ReplicaName(u), d));
  }

  lemma OwnedInFoot(c: Cluster, u: string, d: string, k: Key)
    requires Covers(c, u, d) && Owns(u, d, k)
    ensures InFoot(c, k)
  {
    CoveredInFoot(c, u, d);
  }

  /** A key of the footprint belongs to a covered cell. */
  lemma FootOwner(c: Cluster, k: Key) returns (user: User)
    requires InFoot(c, k)
    ensures user in c.users && Owns(user.username, k.1, k) && Covers(c, user.username, k.1)
  {
    var i :| 0 <= i < |c.users| && Owns(c.users[i].username, k.1, k);
    user := c.users[i];
    FindIs(c.users, user.username);
  }

  /** A key of a cell within the scope of the change is not outside it. */
  lemma ScopeIsInside(prev: Cluster, next: Cluster, u: string, d: string, k: Key)
    requires Named(prev, next, u) && (d in prev.databases || d in next.databases) && Owns(u, d, k)
    ensures !Outside(prev, next, k)
  {
    var user :| (user in prev.users || user in next.users) && user.username == u;
    if user in prev.users {
      var i :| 0 <= i < |prev.users| && prev.users[i] == user;
      assert Owns(prev.users[i].username, k.1, k);
    } else {
      var i :| 0 <= i < |next.users| && next.users[i] == user;
      assert Owns(next.users[i].username, k.1, k);
    }
  }

  /** Before the change, every cell in its scope is as the old cluster wants it. */
  lemma PriorCell(rp: bool, clusters: map<string, Cluster>, id: string, next: Cluster, t: Table, u: string, d: string)
    requires id in clusters && Right(rp, clusters, t) && SaneNames(clusters[id], next)
    requires forall other | other in clusters && other != id :: Aside(clusters[id], next, clusters[other])
    requires Named(clusters[id], next, u) && (d in clusters[id].databases || d in next.databases)
    ensures CellOk(rp, t, clusters[id], u, d)
  {
    hide Want, Owns;
    var prev := clusters[id];
    if !Covers(prev, u, d) {
      NotThere(rp, clusters, id, next, t, u, d, (u, d));
      NotThere(rp, clusters, id, next, t, u, d, (ReplicaName(u), d));
      assert CellAt(t, u, d) == EMPTY;
      assert Want(rp, prev, u, d, true) == EMPTY by {
        Uncovered(rp, prev, u, d, true);
      }
    }
  }

  lemma Uncovered(rp: bool, c: Cluster, u: string, d: string, bare: bool)
    requires !Covers(c, u, d)
    ensures Want(rp, c, u, d, bare) == EMPTY
  {
  }

  lemma NotThere(rp: bool, clusters: map<string, Cluster>, id: string, next: Cluster, t: Table, u: string, d: string, k: Key)
    requires id in clusters && Right(rp, clusters, t) && SaneNames(clusters[id], next)
    requires forall other | other in clusters && other != id :: Aside(clusters[id], next, clusters[other])
    requires Named(clusters[id], next, u) && (d in clusters[id].databases || d in next.databases)
    requires !Covers(clusters[id], u, d) && (k == (u, d) || k == (ReplicaName(u), d))
    ensures k !in t
  {
    hide CellOk, Covers;
    forall other | other in clusters
      ensures !InFoot(clusters[other], k)
    {
      ScopeIsInside(clusters[id], next, u, d, k);
      if other == id {
        NotOwned(clusters[id], next, u, d, k);
      }
    }
  }

  lemma NotOwned(prev: Cluster, next: Cluster, u: string, d: string, k: Key)
    requires SaneNames(prev, next) && Named(prev, next, u)
    requires !Covers(prev, u, d) && (k == (u, d) || k == (ReplicaName(u), d))
    ensures !InFoot(prev, k)
  {
    if InFoot(prev, k) {
      var user := FootOwner(prev, k);
      ReplicaNameInjective(u, user.username);
    }
  }

  lemma MovesKeep(rp: bool, clusters: map<string, Cluster>, id: string, next: Cluster, t: Table, t': Table)
    requires id in clusters && Right(rp, clusters, t) && SaneNames(clusters[id], next)
    requires forall other | other in clusters && other != id :: Aside(clusters[id], next, clusters[other])
    requires Moves(rp, clusters[id], next, t, t')
    ensures Right(rp, clusters[id := next], t')
  {
    var prev, now := clusters[id], clusters[id := next];
    forall i, u, d | i in now && Covers(now[i], u, d)
      ensures CellOk(rp, t', now[i], u, d)
    {
      if i == id {
        FindIs(next.users, u);
        assert Named(prev, next, u);
        PriorCell(rp, clusters, id, next, t, u, d);
      } else {
        CoveredInFoot(clusters[i], u, d);
        assert CellAt(t', u, d) == CellAt(t, u, d);
      }
    }
    forall k | k in t'
      ensures InSome(now, k)
    {
      KeyKept(rp, clusters, id, next, t, t', k);
    }
  }

  lemma KeyKept(rp: bool, clusters: map<string, Cluster>, id: string, next: Cluster, t: Table, t': Table, k: Key)
    requires id in clusters && Right(rp, clusters, t) && SaneNames(clusters[id], next)
    requires forall other | other in clusters && other != id :: Aside(clusters[id], next, clusters[other])
    requires Moves(rp, clusters[id], next, t, t') && k in t'
    ensures InSome(clusters[id := next], k)
  {
    hide Want;
    var prev, now := clusters[id], clusters[id := next];
    if Outside(prev, next, k) {
      assert At(t', k) == At(t, k);
      var i :| i in clusters && InFoot(clusters[i], k);
      assert i != id;
      assert i in now && InFoot(now[i], k);
    } else {
      var user := KeyOfCell(prev, next, k);
      var u, d := user.username, k.1;
      assert Named(prev, next, u);
      PriorCell(rp, clusters, id, next, t, u, d);
      assert CellOk(rp, t', next, u, d);
      if !Covers(next, u, d) {
        Uncovered(rp, next, u, d, true);
        Uncovered(rp, next, u, d, false);
        OwnedIsInCell(u, k);
      } else {
        OwnedInFoot(next, u, d, k);
      }
      assert id in now && InFoot(now[id], k);
    }
  }

  // ---- what the operations do is such a move ---------------------------------------------

  lemma UpdatedMoves(rp: bool, t: Table, prev: Cluster, next: Cluster, adds: seq<string>, drops: seq<string>)
    requires SaneNames(prev, next) && Enumerates(adds, next.replicas) && Enumerates(drops, prev.replicas)
    ensures Moves(rp, prev, next, t, Updated(rp, t, prev, next, adds, drops))
  {
    hide Updated, Want, Sane, Outside, Enumerates;
    var t' := Updated(rp, t, prev, next, adds, drops);
    forall k | Outside(prev, next, k)
      ensures At(t', k) == At(t, k)
    {
      UpdatedFrame(rp, t, prev, next, adds, drops, k);
    }
    forall u, d | Named(prev, next, u) && CellOk(rp, t, prev, u, d)
      ensures CellOk(rp, t', next, u, d)
    {
      var bare := CellAt(t, u, d) == Want(rp, prev, u, d, true);
      UpdatedCell(rp, t, prev, next, adds, drops, u, d, bare);
    }
  }

  lemma AddedMoves(rp: bool, t: Table, c: Cluster)
    requires SaneNames(NOTHING, c)
    ensures Moves(rp, NOTHING, c, t, Added(rp, t, c))
  {
    hide Added, Want, Owns;
    var t' := Added(rp, t, c);
    forall k | Outside(NOTHING, c, k)
      ensures At(t', k) == At(t, k)
    {
      AddedFrame(rp, t, c, k);
    }
    forall u, d | Named(NOTHING, c, u) && CellOk(rp, t, NOTHING, u, d)
      ensures CellOk(rp, t', c, u, d)
    {
      Uncovered(rp, NOTHING, u, d, true);
      Uncovered(rp, NOTHING, u, d, false);
      AddedCell(rp, t, c, u, d);
      if !Covers(c, u, d) {
        Uncovered(rp, c, u, d, false);
      }
    }
  }

  lemma AddedFrame(rp: bool, t: Table, c: Cluster, k: Key)
    requires Outside(NOTHING, c, k)
    ensures At(Added(rp, t, c), k) == At(t, k)
  {
    hide Owns, RunUsers, ToAdd;
    UsersFrame(rp, t, c.users, c.databases, ToAdd(c), k);
  }

  lemma {:induction false} RemovedFrame(rp: bool, t: Table, c: Cluster, dbs: seq<string>, k: Key)
    requires k.1 in dbs ==> Unowned(c.users, k)
    ensures At(Removed(rp, t, c, dbs), k) == At(t, k)
    decreases |dbs|
  {
    hide Owns, RunUsers, ToRemove, At;
    if dbs != [] {
      UsersFrame(rp, t, c.users, [dbs[0]], ToRemove(c.replicas), k);
      RemovedFrame(rp, RunUsers(rp, t, c.users, [dbs[0]], ToRemove(c.replicas)), c, dbs[1..], k);
    }
  }

  lemma {:induction false} RemovedCells(rp: bool, t: Table, c: Cluster, dbs: seq<string>, u: string, d: string)
    requires AllApart(c.users, u) && Consistent(c.users)
    requires CellAt(t, u, d) == EMPTY || exists user, bare :: CellAt(t, u, d) == Full(rp, c.primary, c.replicas, user, d, bare)
    ensures CellAt(Removed(rp, t, c, dbs), u, d) == if Find(c.users, u).Some? && d in dbs then EMPTY else CellAt(t, u, d)
    decreases |dbs|
  {
    hide CellAt, RunUsers, ToRemove, Full, ActAll, Apart, Consistent;
    if dbs != [] {
      var t' := RunUsers(rp, t, c.users, [dbs[0]], ToRemove(c.replicas));
      AddIdempotentAll(rp, c.users, d, c);
      UsersCell(rp, t, c.users, [dbs[0]], ToRemove(c.replicas), u, d);
      if d == dbs[0] && Find(c.users, u).Some? {
        RemovedCell(rp, CellAt(t, u, d), c, Find(c.users, u).value, d);
      }
      RemovedCells(rp, t', c, dbs[1..], u, d);
    }
  }

  lemma RemovedMoves(rp: bool, t: Table, c: Cluster)
    requires SaneNames(c, NOTHING)
    ensures Moves(rp, c, NOTHING, t, Removed(rp, t, c, c.databases))
  {
    hide Removed, Full, Owns, Apart, Consistent;
    var t' := Removed(rp, t, c, c.databases);
    forall k | Outside(c, NOTHING, k)
      ensures At(t', k) == At(t, k)
    {
      RemovedFrame(rp, t, c, c.databases, k);
    }
    forall u, d | Named(c, NOTHING, u) && CellOk(rp, t, c, u, d)
      ensures CellOk(rp, t', NOTHING, u, d)
    {
      RemovedCells(rp, t, c, c.databases, u, d);
    }
  }

  lemma NothingAdded(rp: bool, clusters: map<string, Cluster>, t: Table, id: string)
    requires Right(rp, clusters, t) && id !in clusters
    ensures Right(rp, clusters[id := NOTHING], t)
  {
    hide CellOk;
    forall k | k in t
      ensures InSome(clusters[id := NOTHING], k)
    {
      var i :| i in clusters && InFoot(clusters[i], k);
      assert i in clusters[id := NOTHING] && InFoot(clusters[id := NOTHING][i], k);
    }
  }

  lemma NothingRemoved(rp: bool, clusters: map<string, Cluster>, t: Table, id: string)
    requires Right(rp, clusters[id := NOTHING], t)
    ensures Right(rp, clusters - {id}, t)
  {
    hide CellOk;
    var now, was := clusters - {id}, clusters[id := NOTHING];
    forall i, u, d | i in now && Covers(now[i], u, d)
      ensures CellOk(rp, t, now[i], u, d)
    {
      assert i in was && was[i] == now[i];
    }
    forall k | k in t
      ensures InSome(now, k)
    {
      var i :| i in was && InFoot(was[i], k);
      assert i != id;
      assert i in now && InFoot(now[i], k);
    }
  }

  /** Pools that hold their own replicas leave no slack: the clusters determine the table. */
  lemma Determined(clusters: map<string, Cluster>, t: Table, t': Table)
    requires Right(true, clusters, t) && Right(true, clusters, t')
    ensures t == t'
  {
    forall k
      ensures At(t, k) == At(t', k)
    {
      if k in t {
        SameEntry(clusters, t, t', k);
      } else if k in t' {
        SameEntry(clusters, t', t, k);
      }
    }
    Extensional(t, t');
  }

  lemma SameEntry(clusters: map<string, Cluster>, t: Table, t': Table, k: Key)
    requires Right(true, clusters, t) && Right(true, clusters, t') && k in t
    ensures At(t, k) == At(t', k)
  {
    var id :| id in clusters && InFoot(clusters[id], k);
    var user := FootOwner(clusters[id], k);
    assert CellOk(true, t, clusters[id], user.username, k.1) && CellOk(true, t', clusters[id], user.username, k.1);
    OwnedIsInCell(user.username, k);
  }

  // ---- premises of a reconciliation ------------------------------------------------------

  function Was(clusters: map<string, Cluster>, id: string): Cluster {
    if id in clusters then clusters[id] else NOTHING
  }

  function Listed(cs: seq<Cluster>, id: string): Option<Cluster> {
    if cs == [] then None else if cs[0].id == id then Some(cs[0]) else Listed(cs[1..], id)
  }

  function WillBe(cs: seq<Cluster>, id: string): Cluster {
    if Listed(cs, id).Some? then Listed(cs, id).value else NOTHING
  }

  function ById(cs: seq<Cluster>): map<string, Cluster> {
    if cs == [] then map[] else ById(cs[1..])[cs[0].id := cs[0]]
  }

  /** A pool that the change of this cluster may touch. */
  ghost predicate InScope(clusters: map<string, Cluster>, cs: seq<Cluster>, id: string, k: Key) {
    !Outside(Was(clusters, id), WillBe(cs, id), k)
  }

  /** Distinct ids, sane names within each cluster, and no pool that two of them could touch. */
  ghost predicate Compatible(clusters: map<string, Cluster>, cs: seq<Cluster>) {
    && DistinctIds(cs)
    && (forall id :: SaneNames(Was(clusters, id), WillBe(cs, id)))
    && (forall id, id', k :: id != id' && InScope(clusters, cs, id, k) ==> !InScope(clusters, cs, id', k))
  }

  /** Part of the way through, each cluster is still as it was or already as it will be. */
  ghost predicate Between(clusters: map<string, Cluster>, cs: seq<Cluster>, now: map<string, Cluster>) {
    forall id | id in now :: now[id] == Was(clusters, id) || now[id] == WillBe(cs, id)
  }

  lemma FootInScope(clusters: map<string, Cluster>, cs: seq<Cluster>, id: string, c: Cluster, k: Key)
    requires (c == Was(clusters, id) || c == WillBe(cs, id)) && InFoot(c, k)
    ensures InScope(clusters, cs, id, k)
  {
  }

  lemma OthersAside(clusters: map<string, Cluster>, cs: seq<Cluster>, now: map<string, Cluster>, id: string)
    requires Compatible(clusters, cs) && Between(clusters, cs, now)
    ensures forall other | other in now && other != id :: Aside(Was(clusters, id), WillBe(cs, id), now[other])
  {
    hide Outside, InFoot, Was, WillBe, SaneNames;
    forall other, k | other in now && other != id && InFoot(now[other], k)
      ensures Outside(Was(clusters, id), WillBe(cs, id), k)
    {
      FootInScope(clusters, cs, other, now[other], k);
      assert !InScope(clusters, cs, id, k);
    }
  }

  lemma {:induction false} ListedIs(cs: seq<Cluster>, id: string)
    ensures Listed(cs, id).Some? ==> Listed(cs, id).value in cs && Listed(cs, id).value.id == id
    ensures Listed(cs, id).None? ==> forall c | c in cs :: c.id != id
    ensures (forall i, j :: 0 <= i < j < |cs| ==> cs[i].id != cs[j].id) ==>
      forall i :: 0 <= i < |cs| && cs[i].id == id ==> Listed(cs, id) == Some(cs[i])
  {
    if cs != [] {
      ListedIs(cs[1..], id);
      assert forall i :: 1 <= i < |cs| ==> cs[i] == cs[1..][i - 1];
    }
  }

  lemma {:induction false} ByIdIs(cs: seq<Cluster>, id: string)
    ensures id in ById(cs) <==> Listed(cs, id).Some?
    ensures id in ById(cs) ==> ById(cs)[id] == Listed(cs, id).value
  {
    if cs != [] {
      ByIdIs(cs[1..], id);
    }
  }

  ghost function Overwritten(clusters: map<string, Cluster>, cs: seq<Cluster>, n: nat): map<string, Cluster>
    requires n <= |cs|
  {
    if n == 0 then clusters else Overwritten(clusters, cs, n - 1)[cs[n - 1].id := cs[n - 1]]
  }

  ghost predicate DistinctIds(cs: seq<Cluster>) {
    forall i, j :: 0 <= i < j < |cs| ==> cs[i].id != cs[j].id
  }

  lemma {:induction false} OverwrittenAt(clusters: map<string, Cluster>, cs: seq<Cluster>, n: nat, id: string)
    requires n <= |cs| && DistinctIds(cs)
    ensures var o, l := Overwritten(clusters, cs, n), Listed(cs[..n], id);
      (id in o <==> l.Some? || id in clusters) && (id in o ==> o[id] == if l.Some? then l.value else clusters[id])
  {
    hide Listed;
    assert Listed(cs[..0], id).None? by {
      ListedIs(cs[..0], id);
    }
    if n > 0 {
      OverwrittenAt(clusters, cs, n - 1, id);
      ListedIs(cs[..n - 1], id);
      ListedIs(cs[..n], id);
      assert cs[..n][n - 1] == cs[n - 1];
      if cs[n - 1].id != id {
        ListedShorter(cs, n, id);
      }
    }
  }

  lemma ListedShorter(cs: seq<Cluster>, n: nat, id: string)
    requires 0 < n <= |cs| && DistinctIds(cs) && cs[n - 1].id != id
    ensures Listed(cs[..n], id) == Listed(cs[..n - 1], id)
  {
    hide Listed;
    ListedIs(cs[..n], id);
    ListedIs(cs[..n - 1], id);
    if Listed(cs[..n], id).Some? {
      var i :| 0 <= i < n && cs[..n][i] == Listed(cs[..n], id).value;
      assert cs[..n - 1][i] == cs[i];
    } else {
      assert forall c | c in cs[..n - 1] :: c in cs[..n];
    }
  }

  /** When a cluster's turn comes in the first loop, it is still as it was. */
  lemma Turn(clusters: map<string, Cluster>, cs: seq<Cluster>, i: nat)
    requires Compatible(clusters, cs) && i < |cs|
    ensures var now, id := Overwritten(clusters, cs, i), cs[i].id;
      && SaneNames(Was(now, id), cs[i])
      && forall other | other in now && other != id :: Aside(Was(now, id), cs[i], now[other])
  {
    hide SaneNames, Aside, Overwritten, Listed;
    var now, id := Overwritten(clusters, cs, i), cs[i].id;
    ListedIs(cs, id);
    ListedIs(cs[..i], id);
    OverwrittenAt(clusters, cs, i, id);
    assert WillBe(cs, id) == cs[i] && Was(now, id) == Was(clusters, id);
    assert Between(clusters, cs, now) by {
      forall other | other in now
        ensures now[other] == Was(clusters, other) || now[other] == WillBe(cs, other)
      {
        OverwrittenAt(clusters, cs, i, other);
        ListedPrefix(cs, i, other);
      }
    }
    OthersAside(clusters, cs, now, id);
  }

  lemma ListedPrefix(cs: seq<Cluster>, n: nat, id: string)
    requires n <= |cs| && DistinctIds(cs)
    ensures Listed(cs[..n], id).Some? ==> Listed(cs, id) == Listed(cs[..n], id)
  {
    hide Listed;
    ListedIs(cs[..n], id);
    ListedIs(cs, id);
    if Listed(cs[..n], id).Some? {
      var i :| 0 <= i < n && cs[..n][i] == Listed(cs[..n], id).value;
      assert cs[i] == cs[..n][i];
    }
  }

  /** A cluster that was not found can be removed in the second loop. */
  lemma Gone(clusters: map<string, Cluster>, cs: seq<Cluster>, now: map<string, Cluster>, id: string)
    requires Compatible(clusters, cs) && Listed(cs, id).None? && id in now
    requires forall other | other in now :: other in Overwritten(clusters, cs, |cs|) && now[other] == Overwritten(clusters, cs, |cs|)[other]
    ensures SaneNames(Was(now, id), NOTHING)
    ensures forall other | other in now && other != id :: Aside(Was(now, id), NOTHING, now[other])
  {
    hide SaneNames, Aside, Overwritten, Listed;
    assert cs[..|cs|] == cs;
    OverwrittenAt(clusters, cs, |cs|, id);
    assert WillBe(cs, id) == NOTHING && Was(now, id) == Was(clusters, id);
    assert Between(clusters, cs, now) by {
      forall other | other in now
        ensures now[other] == Was(clusters, other) || now[other] == WillBe(cs, other)
      {
        OverwrittenAt(clusters, cs, |cs|, other);
      }
    }
    OthersAside(clusters, cs, now, id);
  }

  // ---- the handler -----------------------------------------------------------------------

  lemma SetMain(t: Table, u: string, d: string, p: Option<Pool>)
    ensures SetCell(t, u, d, CellAt(t, u, d).(main := p)) == Put(t, (u, d), p)
  {
    ReplicaNameInjective(u, u);
  }

  lemma SetRo(t: Table, u: string, d: string, p: Option<Pool>)
    ensures SetCell(t, u, d, CellAt(t, u, d).(ro := p)) == Put(t, (ReplicaName(u), d), p)
  {
    ReplicaNameInjective(u, u);
  }

  lemma SetBoth(t: Table, u: string, d: string, p: Option<Pool>, q: Option<Pool>)
    ensures SetCell(t, u, d, Cell(p, q)) == Put(Put(t, (u, d), p), (ReplicaName(u), d), q)
  {
  }

  class Module {
    const replicaPools: bool
    var clusters: map<string, Cluster>
    var pools: Table

    constructor (replicaPools: bool)
      ensures this.replicaPools == replicaPools && clusters == map[] && pools == map[]
      ensures Right(replicaPools, clusters, pools)
    {
      this.replicaPools := replicaPools;
      clusters, pools := map[], map[];
    }

    method GetOrAddPool(user: User, d: string) returns (p: Pool)
      modifies this`pools
      ensures p == GetOrAdd(At(old(pools), (user.username, d)), user)
      ensures pools == old(pools)[(user.username, d) := p]
    {
      if (user.username, d) in pools {
        assert pools[(user.username, d) := pools[(user.username, d)]] == pools;
        return pools[(user.username, d)];
      }
      p := Pool(user, map[], map[]);
      pools := pools[(user.username, d) := p];
    }

    method RemovePool(username: string, d: string)
      modifies this`pools
      ensures pools == Put(old(pools), (username, d), None)
    {
      if (username, d) !in pools {
        assert pools - {(username, d)} == pools;
        return;
      }
      pools := pools - {(username, d)};
    }

    method AddPrimaryNode(user: User, d: string, primary: Node)
      modifies this`pools
      ensures pools == Step(replicaPools, old(pools), user, d, Primary(primary))
    {
      var k := (user.username, d);
      var p := GetOrAddPool(user, d);
      var r := Recipe(primary, user.username, p.creds, d);
      pools := pools[k := p.(recipes := p.recipes["primary" := r])];
      SetMain(old(pools), user.username, d, Some(p.(recipes := p.recipes["primary" := r])));
      assert old(pools)[k := p][k := p.(recipes := p.recipes["primary" := r])] ==
             old(pools)[k := p.(recipes := p.recipes["primary" := r])];
    }

    /** AddReplicaRecipe for every node. */
    method AddReplicaRecipes(k: Key, nodes: map<string, Node>, username: string, creds: User, d: string)
      requires k in pools
      modifies this`pools
      ensures pools == old(pools)[k := WithReplicas(old(pools)[k], nodes, username, creds, d)]
    {
      hide PartlyCooked, Recipes;
      var ids := Walk(nodes.Keys);
      var p := pools[k];
      var m := p.replicas;
      NothingCooked(m, nodes, username, creds, d);
      assert ids[..0] == [];
      assert pools == pools[k := p];
      for i := 0 to |ids|
        invariant pools == old(pools)[k := p.(replicas := m)] && PartlyCooked(m, p.replicas, nodes, ids[..i], username, creds, d)
      {
        CookOne(m, p.replicas, nodes, ids, i, username, creds, d);
        ghost var q := p.(replicas := m);
        m := m[ids[i] := Recipe(nodes[ids[i]], username, creds, d)];
        Overwrite(old(pools), k, q, p.(replicas := m));
        pools := pools[k := p.(replicas := m)];
      }
      assert ids[..|ids|] == ids;
      AllCooked(m, p.replicas, nodes, ids, username, creds, d);
    }

    /** AddRecipe for every node. */
    method AddRecipes(k: Key, nodes: map<string, Node>, username: string, creds: User, d: string)
      requires k in pools
      modifies this`pools
      ensures pools == old(pools)[k := WithRecipes(old(pools)[k], nodes, username, creds, d)]
    {
      hide PartlyCooked, Recipes;
      var ids := Walk(nodes.Keys);
      var p := pools[k];
      var m := p.recipes;
      NothingCooked(m, nodes, username, creds, d);
      assert ids[..0] == [];
      assert pools == pools[k := p];
      for i := 0 to |ids|
        invariant pools == old(pools)[k := p.(recipes := m)] && PartlyCooked(m, p.recipes, nodes, ids[..i], username, creds, d)
      {
        CookOne(m, p.recipes, nodes, ids, i, username, creds, d);
        ghost var q := p.(recipes := m);
        m := m[ids[i] := Recipe(nodes[ids[i]], username, creds, d)];
        Overwrite(old(pools), k, q, p.(recipes := m));
        pools := pools[k := p.(recipes := m)];
      }
      assert ids[..|ids|] == ids;
      AllCooked(m, p.recipes, nodes, ids, username, creds, d);
    }

    method AddReplicaNodes(user: User, d: string, replicas: map<string, Node>)
      modifies this`pools
      ensures pools == Step(replicaPools, old(pools), user, d, Replicas(replicas))
    {
      hide Step, Recipes;
      ghost var t := pools;
      var p := GetOrAddPool(user, d);
      if replicaPools {
        AddReplicaRecipes((user.username, d), replicas, user.username, p.creds, d);
        ReplicasInMain(t, user, d, replicas);
      } else {
        ReplicaNameInjective(user.username, user.username);
        var q := GetOrAddPool(ReplicaUser(user), d);
        AddRecipes((ReplicaName(user.username), d), replicas, user.username, p.creds, d);
        ReplicasInRo(t, user, d, replicas);
      }
    }

    method RemoveReplicaNodes(username: string, d: string, ids: set<string>)
      modifies this`pools
      ensures forall password :: pools == Step(replicaPools, old(pools), User(username, password), d, NoReplicas(ids))
    {
      ghost var c := CellAt(pools, username, d);
      if (username, d) !in pools {
        SetMain(pools, username, d, None);
        assert pools - {(username, d)} == pools;
        return;
      }
      var p := pools[(username, d)];
      if replicaPools {
        var left := ids;
        assert p.replicas - (ids - left) == p.replicas;
        assert pools[(username, d) := p] == pools;
        while left != {}
          invariant left <= ids
          invariant pools == old(pools)[(username, d) := p.(replicas := p.replicas - (ids - left))]
          decreases |left|
        {
          ghost var some := Member(left);
          var id :| id in left;
          var q := pools[(username, d)];
          assert (p.replicas - (ids - left)) - {id} == p.replicas - (ids - (left - {id}));
          pools := pools[(username, d) := q.(replicas := q.replicas - {id})];
          left := left - {id};
        }
        assert ids - {} == ids;
        SetMain(old(pools), username, d, Some(pools[(username, d)]));
        return;
      }
      RemovePool(ReplicaName(username), d);
      SetRo(old(pools), username, d, None);
    }

    method AddReplicaNode(user: User, d: string, id: string, replica: Node)
      modifies this`pools
      ensures pools == Step(replicaPools, old(pools), user, d, Replica(id, replica))
    {
      var p := GetOrAddPool(user, d);
      var r := Recipe(replica, user.username, p.creds, d);
      if replicaPools {
        pools := pools[(user.username, d) := p.(replicas := p.replicas[id := r])];
        SetMain(old(pools), user.username, d, Some(p.(replicas := p.replicas[id := r])));
        assert pools == old(pools)[(user.username, d) := p.(replicas := p.replicas[id := r])];
        return;
      }
      ReplicaNameInjective(user.username, user.username);
      var q := GetOrAddPool(ReplicaUser(user), d);
      pools := pools[(ReplicaName(user.username), d) := q.(recipes := q.recipes[id := r])];
      SetBoth(old(pools), user.username, d, Some(p), Some(q.(recipes := q.recipes[id := r])));
    }

    method RemoveReplicaNode(username: string, d: string, id: string)
      modifies this`pools
      ensures forall password :: pools == Step(replicaPools, old(pools), User(username, password), d, NoReplica(id))
    {
      var t := pools;
      if (username, d) !in pools {
        SetMain(pools, username, d, None);
        assert pools - {(username, d)} == pools;
        return;
      }
      var p := pools[(username, d)];
      if replicaPools {
        pools := pools[(username, d) := p.(replicas := p.replicas - {id})];
        SetMain(t, username, d, Some(p.(replicas := p.replicas - {id})));
        return;
      }
      var k := (ReplicaName(username), d);
      if k !in pools {
        SetRo(pools, username, d, None);
        assert pools - {k} == pools;
        return;
      }
      pools := pools[k := pools[k].(recipes := pools[k].recipes - {id})];
      SetRo(t, username, d, Some(pools[k]));
    }

    method RemovePrimaryNode(username: string, d: string)
      modifies this`pools
      ensures forall password :: pools == Step(replicaPools, old(pools), User(username, password), d, NoPrimary)
    {
      SetMain(pools, username, d, None);
      RemovePool(username, d);
    }

    /** The step of the handler for one user and one database. */
    method Perform(user: User, d: string, a: Action)
      modifies this`pools
      ensures pools == Step(replicaPools, old(pools), user, d, a)
    {
      hide Step;
      assert User(user.username, user.password) == user;
      match a
      case Primary(n) => AddPrimaryNode(user, d, n);
      case Replicas(nodes) => AddReplicaNodes(user, d, nodes);
      case NoReplicas(ids) => RemoveReplicaNodes(user.username, d, ids);
      case Replica(id, n) => AddReplicaNode(user, d, id, n);
      case NoReplica(id) => RemoveReplicaNode(user.username, d, id);
      case NoPrimary => RemovePrimaryNode(user.username, d);
    }

    /** The nested loops of replacePrimary, addReplicas, removeReplicas, addReplica and removeReplica. */
    method Each(users: seq<User>, dbs: seq<string>, a: Action)
      modifies this`pools
      ensures pools == RunUsers(replicaPools, old(pools), users, dbs, [a])
    {
      hide Step;
      for i := 0 to |users|
        invariant RunUsers(replicaPools, pools, users[i..], dbs, [a]) == RunUsers(replicaPools, old(pools), users, dbs, [a])
      {
        ghost var t := pools;
        for j := 0 to |dbs|
          invariant RunDbs(replicaPools, pools, users[i], dbs[j..], [a]) == RunDbs(replicaPools, t, users[i], dbs, [a])
        {
          assert dbs[j..][0] == dbs[j] && dbs[j..][1..] == dbs[j + 1..];
          One(replicaPools, pools, users[i], dbs[j], a);
          Perform(users[i], dbs[j], a);
        }
        assert dbs[|dbs|..] == [];
        assert users[i..][0] == users[i] && users[i..][1..] == users[i + 1..];
      }
      assert users[|users|..] == [];
    }

    method AddUser(ghost c: Cluster, primary: Node, replicas: map<string, Node>, dbs: seq<string>, user: User)
      requires c.primary == primary && c.replicas == replicas
      modifies this`pools
      ensures pools == RunDbs(replicaPools, old(pools), user, dbs, ToAdd(c))
    {
      hide Step, ToAdd;
      for j := 0 to |dbs|
        invariant RunDbs(replicaPools, pools, user, dbs[j..], ToAdd(c)) == RunDbs(replicaPools, old(pools), user, dbs, ToAdd(c))
      {
        assert dbs[j..][0] == dbs[j] && dbs[j..][1..] == dbs[j + 1..];
        Adding(replicaPools, pools, user, dbs[j], c);
        AddPrimaryNode(user, dbs[j], primary);
        AddReplicaNodes(user, dbs[j], replicas);
      }
      assert dbs[|dbs|..] == [];
    }

    method RemoveUser(replicas: map<string, Node>, dbs: seq<string>, username: string, ghost password: string)
      modifies this`pools
      ensures pools == RunDbs(replicaPools, old(pools), User(username, password), dbs, ToRemove(replicas))
    {
      hide Step, ToRemove;
      ghost var user := User(username, password);
      for j := 0 to |dbs|
        invariant RunDbs(replicaPools, pools, user, dbs[j..], ToRemove(replicas)) ==
                  RunDbs(replicaPools, old(pools), user, dbs, ToRemove(replicas))
      {
        assert dbs[j..][0] == dbs[j] && dbs[j..][1..] == dbs[j + 1..];
        Removing(replicaPools, pools, user, dbs[j], replicas);
        RemoveReplicaNodes(username, dbs[j], replicas.Keys);
        RemovePrimaryNode(username, dbs[j]);
      }
      assert dbs[|dbs|..] == [];
    }

    method AddDatabase(ghost c: Cluster, primary: Node, replicas: map<string, Node>, users: seq<User>, d: string)
      requires c.primary == primary && c.replicas == replicas
      modifies this`pools
      ensures pools == RunUsers(replicaPools, old(pools), users, [d], ToAdd(c))
    {
      hide Step, ToAdd;
      for i := 0 to |users|
        invariant RunUsers(replicaPools, pools, users[i..], [d], ToAdd(c)) == RunUsers(replicaPools, old(pools), users, [d], ToAdd(c))
      {
        assert users[i..][0] == users[i] && users[i..][1..] == users[i + 1..] && [d][1..] == [];
        Adding(replicaPools, pools, users[i], d, c);
        OneDb(replicaPools, pools, users[i], d, ToAdd(c));
        AddPrimaryNode(users[i], d, primary);
        AddReplicaNodes(users[i], d, replicas);
      }
      assert users[|users|..] == [];
    }

    method RemoveDatabase(replicas: map<string, Node>, users: seq<User>, d: string)
      modifies this`pools
      ensures pools == RunUsers(replicaPools, old(pools), users, [d], ToRemove(replicas))
    {
      hide Step, ToRemove;
      for i := 0 to |users|
        invariant RunUsers(replicaPools, pools, users[i..], [d], ToRemove(replicas)) ==
                  RunUsers(replicaPools, old(pools), users, [d], ToRemove(replicas))
      {
        assert users[i..][0] == users[i] && users[i..][1..] == users[i + 1..] && [d][1..] == [];
        assert User(users[i].username, users[i].password) == users[i];
        Removing(replicaPools, pools, users[i], d, replicas);
        OneDb(replicaPools, pools, users[i], d, ToRemove(replicas));
        RemoveReplicaNodes(users[i].username, d, replicas.Keys);
        RemovePrimaryNode(users[i].username, d);
      }
      assert users[|users|..] == [];
    }

    /** The replica changes of updated. */
    method ChangeReplicas(prev: Cluster, next: Cluster) returns (ghost adds: seq<string>, ghost drops: seq<string>)
      modifies this`pools
      ensures Enumerates(adds, next.replicas) && Enumerates(drops, prev.replicas)
      ensures pools == Reshape(replicaPools, old(pools), prev, next, adds, drops)
    {
      hide RunUsers;
      var ids := Walk(next.replicas.Keys);
      var olds := Walk(prev.replicas.Keys);
      adds, drops := ids, olds;
      if |prev.replicas| != 0 && |next.replicas| == 0 {
        Each(prev.users, prev.databases, NoReplicas(prev.replicas.Keys));
        return;
      }
      if |prev.replicas| == 0 && |next.replicas| != 0 {
        Each(prev.users, prev.databases, Replicas(next.replicas));
        return;
      }
      for i := 0 to |ids|
        invariant AddReplicas(replicaPools, pools, prev, next, ids[i..]) == AddReplicas(replicaPools, old(pools), prev, next, ids)
      {
        var id := ids[i];
        assert ids[i..][0] == id && ids[i..][1..] == ids[i + 1..];
        if id !in prev.replicas {
          Each(prev.users, prev.databases, Replica(id, next.replicas[id]));
        } else if prev.replicas[id] != next.replicas[id] {
          Each(prev.users, prev.databases, Replica(id, next.replicas[id]));
        }
      }
      assert ids[|ids|..] == [];
      ghost var t := pools;
      for i := 0 to |olds|
        invariant DropReplicas(replicaPools, pools, prev, next, olds[i..]) == DropReplicas(replicaPools, t, prev, next, olds)
      {
        assert olds[i..][0] == olds[i] && olds[i..][1..] == olds[i + 1..];
        if olds[i] !in next.replicas {
          Each(prev.users, prev.databases, NoReplica(olds[i]));
        }
      }
      assert olds[|olds|..] == [];
    }

    method FindUser(users: seq<User>, name: string) returns (user: Option<User>)
      ensures user == Find(users, name)
    {
      for i := 0 to |users|
        invariant Find(users[i..], name) == Find(users, name)
      {
        assert users[i..][0] == users[i] && users[i..][1..] == users[i + 1..];
        if users[i].username == name {
          return Some(users[i]);
        }
      }
      assert users[|users|..] == [];
      return None;
    }

    /** The user changes of updated. */
    method ChangeUsers(prev: Cluster, next: Cluster)
      modifies this`pools
      ensures pools == DropUsers(replicaPools, AddUsers(replicaPools, old(pools), prev, next, next.users), prev, next, prev.users)
    {
      hide RunDbs, ToAdd, ToRemove;
      for i := 0 to |next.users|
        invariant AddUsers(replicaPools, pools, prev, next, next.users[i..]) ==
                  AddUsers(replicaPools, old(pools), prev, next, next.users)
      {
        var user := next.users[i];
        assert next.users[i..][0] == user && next.users[i..][1..] == next.users[i + 1..];
        assert User(user.username, user.password) == user;
        var was := FindUser(prev.users, user.username);
        if was.None? {
          AddUser(next, next.primary, next.replicas, prev.databases, user);
        } else if user.password != was.value.password {
          RemoveUser(next.replicas, prev.databases, user.username, user.password);
          AddUser(next, next.primary, next.replicas, prev.databases, user);
        }
      }
      assert next.users[|next.users|..] == [];
      ghost var t := pools;
      for i := 0 to |prev.users|
        invariant DropUsers(replicaPools, pools, prev, next, prev.users[i..]) ==
                  DropUsers(replicaPools, t, prev, next, prev.users)
      {
        var user := prev.users[i];
        assert prev.users[i..][0] == user && prev.users[i..][1..] == prev.users[i + 1..];
        assert User(user.username, user.password) == user;
        var still := FindUser(next.users, user.username);
        if still.None? {
          RemoveUser(next.replicas, prev.databases, user.username, user.password);
        }
      }
      assert prev.users[|prev.users|..] == [];
    }

    /** The database changes of updated. */
    method ChangeDatabases(prev: Cluster, next: Cluster)
      modifies this`pools
      ensures pools == DropDatabases(replicaPools, AddDatabases(replicaPools, old(pools), prev, next, next.databases),
                                     prev, next, prev.databases)
    {
      hide RunUsers, ToAdd, ToRemove;
      var dbs := next.databases;
      for i := 0 to |dbs|
        invariant AddDatabases(replicaPools, pools, prev, next, dbs[i..]) == AddDatabases(replicaPools, old(pools), prev, next, dbs)
      {
        assert dbs[i..][0] == dbs[i] && dbs[i..][1..] == dbs[i + 1..];
        if dbs[i] !in prev.databases {
          AddDatabase(next, next.primary, next.replicas, next.users, dbs[i]);
        }
      }
      assert dbs[|dbs|..] == [];
      ghost var t := pools;
      dbs := prev.databases;
      for i := 0 to |dbs|
        invariant DropDatabases(replicaPools, pools, prev, next, dbs[i..]) == DropDatabases(replicaPools, t, prev, next, dbs)
      {
        assert dbs[i..][0] == dbs[i] && dbs[i..][1..] == dbs[i + 1..];
        if dbs[i] !in next.databases {
          RemoveDatabase(next.replicas, next.users, dbs[i]);
        }
      }
      assert dbs[|dbs|..] == [];
    }

    /** updated: a known cluster changed. */
    method Updated(prev: Cluster, next: Cluster) returns (ghost adds: seq<string>, ghost drops: seq<string>)
      modifies this
      ensures clusters == old(clusters)[next.id := next]
      ensures Enumerates(adds, next.replicas) && Enumerates(drops, prev.replicas)
      ensures pools == DiscoverySpec.Updated(replicaPools, old(pools), prev, next, adds, drops)
    {
      hide Enumerates, Reshape, AddUsers, DropUsers, AddDatabases, DropDatabases, RunUsers;
      clusters := clusters[next.id := next];
      if prev.primary != next.primary {
        Each(prev.users, prev.databases, Primary(next.primary));
      }
      adds, drops := ChangeReplicas(prev, next);
      ChangeUsers(prev, next);
      ChangeDatabases(prev, next);
    }

    /** The loop of added over the users of a new cluster. */
    method AddCluster(c: Cluster)
      modifies this
      ensures clusters == old(clusters)[c.id := c] && pools == DiscoverySpec.Added(replicaPools, old(pools), c)
    {
      hide RunDbs, ToAdd;
      clusters := clusters[c.id := c];
      for i := 0 to |c.users|
        invariant clusters == old(clusters)[c.id := c]
        invariant RunUsers(replicaPools, pools, c.users[i..], c.databases, ToAdd(c)) ==
                  RunUsers(replicaPools, old(pools), c.users, c.databases, ToAdd(c))
      {
        assert c.users[i..][0] == c.users[i] && c.users[i..][1..] == c.users[i + 1..];
        AddUser(c, c.primary, c.replicas, c.databases, c.users[i]);
      }
      assert c.users[|c.users|..] == [];
    }

    /** The loop of removed over the databases of a known cluster. */
    method RemoveCluster(id: string, c: Cluster)
      modifies this
      ensures clusters == old(clusters) - {id} && pools == DiscoverySpec.Removed(replicaPools, old(pools), c, c.databases)
    {
      hide RunUsers, ToRemove;
      clusters := clusters - {id};
      var dbs := c.databases;
      for i := 0 to |dbs|
        invariant clusters == old(clusters) - {id}
        invariant DiscoverySpec.Removed(replicaPools, pools, c, dbs[i..]) == DiscoverySpec.Removed(replicaPools, old(pools), c, dbs)
      {
        assert dbs[i..][0] == dbs[i] && dbs[i..][1..] == dbs[i + 1..];
        RemoveDatabase(c.replicas, c.users, dbs[i]);
      }
      assert dbs[|dbs|..] == [];
    }

    /** A known cluster changed: the table stays right for all the clusters. */
    method Change(c: Cluster)
      requires c.id in clusters && Right(replicaPools, clusters, pools) && SaneNames(clusters[c.id], c)
      requires forall other | other in clusters && other != c.id :: Aside(clusters[c.id], c, clusters[other])
      modifies this
      ensures clusters == old(clusters)[c.id := c] && Right(replicaPools, clusters, pools)
    {
      hide Right, SaneNames, Aside, Moves, Enumerates, DiscoverySpec.Updated;
      ghost var t := pools;
      ghost var adds, drops := Updated(clusters[c.id], c);
      UpdatedMoves(replicaPools, t, old(clusters)[c.id], c, adds, drops);
      MovesKeep(replicaPools, old(clusters), c.id, c, t, pools);
    }

    /** added: a cluster appeared, or one that is known changed. */
    method Added(c: Cluster)
      requires Right(replicaPools, clusters, pools) && SaneNames(Was(clusters, c.id), c)
      requires forall other | other in clusters && other != c.id :: Aside(Was(clusters, c.id), c, clusters[other])
      modifies this
      ensures clusters == old(clusters)[c.id := c] && Right(replicaPools, clusters, pools)
    {
      hide Right, SaneNames, Aside, Moves, DiscoverySpec.Added;
      if c.id in clusters {
        Change(c);
        return;
      }
      ghost var t, with := pools, clusters[c.id := NOTHING];
      AddCluster(c);
      AddedMoves(replicaPools, t, c);
      NothingAdded(replicaPools, old(clusters), t, c.id);
      MovesKeep(replicaPools, with, c.id, c, t, pools);
      assert with[c.id := c] == clusters;
    }

    /** removed: a cluster is gone. */
    method Removed(id: string)
      requires Right(replicaPools, clusters, pools) && SaneNames(Was(clusters, id), NOTHING)
      requires forall other | other in clusters && other != id :: Aside(Was(clusters, id), NOTHING, clusters[other])
      modifies this
      ensures clusters == old(clusters) - {id} && Right(replicaPools, clusters, pools)
    {
      hide Right, SaneNames, Aside, Moves, DiscoverySpec.Removed;
      if id !in clusters {
        assert clusters - {id} == clusters;
        return;
      }
      ghost var t := pools;
      RemoveCluster(id, clusters[id]);
      RemovedMoves(replicaPools, t, old(clusters)[id]);
      MovesKeep(replicaPools, old(clusters), id, NOTHING, t, pools);
      NothingRemoved(replicaPools, old(clusters), pools, id);
    }

    method IsListed(cs: seq<Cluster>, id: string) returns (listed: bool)
      ensures listed == Listed(cs, id).Some?
    {
      for i := 0 to |cs|
        invariant Listed(cs[i..], id) == Listed(cs, id)
      {
        assert cs[i..][0] == cs[i] && cs[i..][1..] == cs[i + 1..];
        if cs[i].id == id {
          return true;
        }
      }
      assert cs[|cs|..] == [];
      return false;
    }

    /** The first loop of reconcile: every cluster found is added or updated. */
    method AdoptAll(cs: seq<Cluster>)
      requires Right(replicaPools, clusters, pools) && Compatible(clusters, cs)
      modifies this
      ensures clusters == Overwritten(old(clusters), cs, |cs|) && Right(replicaPools, clusters, pools)
    {
      hide Right, Compatible, Aside, SaneNames;
      for i := 0 to |cs|
        invariant clusters == Overwritten(old(clusters), cs, i) && Right(replicaPools, clusters, pools)
      {
        var c := cs[i];
        Turn(old(clusters), cs, i);
        if c.id !in clusters {
          Added(c);
        } else {
          Change(c);
        }
      }
    }

    /** The second loop of reconcile: every cluster that was not found is removed. */
    method DropRest(ghost before: map<string, Cluster>, cs: seq<Cluster>)
      requires Compatible(before, cs) && clusters == Overwritten(before, cs, |cs|) && Right(replicaPools, clusters, pools)
      modifies this
      ensures clusters == ById(cs) && Right(replicaPools, clusters, pools)
    {
      assert DistinctIds(cs);
      hide Right, Compatible, Aside, SaneNames, Overwritten, Listed, ById;
      var ids := Walk(clusters.Keys);
      ghost var all := clusters;
      for i := 0 to |ids|
        invariant Right(replicaPools, clusters, pools)
        invariant forall id :: id in clusters <==> id in all && (Listed(cs, id).Some? || id !in ids[..i])
        invariant forall id | id in clusters :: clusters[id] == all[id]
      {
        var listed := IsListed(cs, ids[i]);
        if !listed {
          Gone(before, cs, clusters, ids[i]);
          Removed(ids[i]);
        }
      }
      assert ids[..|ids|] == ids;
      forall id
        ensures id in clusters <==> id in ById(cs)
        ensures id in clusters ==> clusters[id] == ById(cs)[id]
      {
        OverwrittenAt(before, cs, |cs|, id);
        ByIdIs(cs, id);
        assert cs[..|cs|] == cs;
      }
    }

    /**
     reconcile: whatever was known before, the known clusters are now those found, and the table is
     right for them. `found` is what the discoverer answers.
     */
    method Reconcile(found: Option<seq<Cluster>>) returns (ok: bool)
      requires Right(replicaPools, clusters, pools)
      requires found.Some? ==> Compatible(clusters, found.value)
      modifies this
      ensures ok <==> found.Some?
      ensures !ok ==> unchanged(this)
      ensures ok ==> clusters == ById(found.value) && Right(replicaPools, clusters, pools)
    {
      if found.None? {
        return false;
      }
      AdoptAll(found.value);
      DropRest(old(clusters), found.value);
      return true;
    }
  }

  lemma OneDb(rp: bool, t: Table, user: User, d: string, acts: seq<Action>)
    ensures RunDbs(rp, t, user, [d], acts) == RunActs(rp, t, user, d, acts)
  {
    hide RunActs;
    assert [d][1..] == [];
  }

  lemma One(rp: bool, t: Table, user: User, d: string, a: Action)
    ensures RunActs(rp, t, user, d, [a]) == Step(rp, t, user, d, a)
  {
    hide Step;
    assert [a][1..] == [];
  }

  lemma Two(rp: bool, t: Table, user: User, d: string, a: Action, b: Action)
    ensures RunActs(rp, t, user, d, [a, b]) == Step(rp, Step(rp, t, user, d, a), user, d, b)
  {
    hide Step;
    assert [a, b][1..] == [b];
    One(rp, Step(rp, t, user, d, a), user, d, b);
  }

  lemma Adding(rp: bool, t: Table, user: User, d: string, c: Cluster)
    ensures RunActs(rp, t, user, d, ToAdd(c)) ==
            Step(rp, Step(rp, t, user, d, Primary(c.primary)), user, d, Replicas(c.replicas))
  {
    Two(rp, t, user, d, Primary(c.primary), Replicas(c.replicas));
  }

  lemma Removing(rp: bool, t: Table, user: User, d: string, replicas: map<string, Node>)
    ensures RunActs(rp, t, user, d, ToRemove(replicas)) ==
            Step(rp, Step(rp, t, user, d, NoReplicas(replicas.Keys)), user, d, NoPrimary)
  {
    Two(rp, t, user, d, NoReplicas(replicas.Keys), NoPrimary);
  }

  ghost function WithReplicas(p: Pool, nodes: map<string, Node>, username: string, creds: User, d: string): Pool {
    p.(replicas := p.replicas + Recipes(nodes, username, creds, d))
  }

  ghost function WithRecipes(q: Pool, nodes: map<string, Node>, username: string, creds: User, d: string): Pool {
    q.(recipes := q.recipes + Recipes(nodes, username, creds, d))
  }

  /** The recipes once those of `ids` were added to `base`. */
  ghost predicate PartlyCooked(m: map<string, Recipe>, base: map<string, Recipe>, nodes: map<string, Node>, ids: seq<string>,
                               username: string, creds: User, d: string)
  {
    && (forall id | id in ids :: id in nodes)
    && (forall id :: id in m <==> id in base || id in ids)
    && (forall id | id in m :: m[id] == if id in ids then Recipe(nodes[id], username, creds, d) else base[id])
  }

  lemma NothingCooked(m: map<string, Recipe>, nodes: map<string, Node>, username: string, creds: User, d: string)
    ensures PartlyCooked(m, m, nodes, [], username, creds, d)
  {
  }

  lemma CookOne(m: map<string, Recipe>, base: map<string, Recipe>, nodes: map<string, Node>, ids: seq<string>, i: nat,
                username: string, creds: User, d: string)
    requires i < |ids| && ids[i] in nodes && PartlyCooked(m, base, nodes, ids[..i], username, creds, d)
    ensures PartlyCooked(m[ids[i] := Recipe(nodes[ids[i]], username, creds, d)], base, nodes, ids[..i + 1], username, creds, d)
  {
    assert ids[..i + 1] == ids[..i] + [ids[i]];
  }

  lemma AllCooked(m: map<string, Recipe>, base: map<string, Recipe>, nodes: map<string, Node>, ids: seq<string>,
                  username: string, creds: User, d: string)
    requires PartlyCooked(m, base, nodes, ids, username, creds, d) && forall id | id in nodes :: id in ids
    ensures m == base + Recipes(nodes, username, creds, d)
  {
    hide Recipes;
  }

  lemma Overwrite(t: Table, k: Key, q: Pool, p: Pool)
    ensures t[k := q][k := p] == t[k := p]
  {
  }

  lemma ReplicasInMain(t: Table, user: User, d: string, replicas: map<string, Node>)
    ensures var k := (user.username, d);
      var p := GetOrAdd(At(t, k), user);
      Step(true, t, user, d, Replicas(replicas)) == t[k := WithReplicas(p, replicas, user.username, p.creds, d)]
  {
    hide Recipes;
    var p := GetOrAdd(At(t, (user.username, d)), user);
    SetMain(t, user.username, d, Some(WithReplicas(p, replicas, user.username, p.creds, d)));
  }

  lemma ReplicasInRo(t: Table, user: User, d: string, replicas: map<string, Node>)
    ensures var k, k' := (user.username, d), (ReplicaName(user.username), d);
      var p, q := GetOrAdd(At(t, k), user), GetOrAdd(At(t, k'), ReplicaUser(user));
      Step(false, t, user, d, Replicas(replicas)) == t[k := p][k' := WithRecipes(q, replicas, user.username, p.creds, d)]
  {
    hide Recipes;
  }

  // ---- where updating is not building ----------------------------------------------------

  /**
   Dropping the only replica of a cluster with one user and one database, with pools that hold no
   replicas themselves: the updated table lacks the empty read-only pool that a restart creates.
   */
  lemma LastReplicaLost()
    ensures var next := Cluster("c", Node("p", 0), map[], ["db"], [User("u", "pw")]);
      var prev := next.(replicas := map["r" := Node("r", 0)]);
      DiscoverySpec.Updated(false, DiscoverySpec.Added(false, map[], prev), prev, next, [], ["r"]) !=
      DiscoverySpec.Added(false, map[], next)
  {
    hide DiscoverySpec.Updated, DiscoverySpec.Added;
    var next := Cluster("c", Node("p", 0), map[], ["db"], [User("u", "pw")]);
    var prev := next.(replicas := map["r" := Node("r", 0)]);
    ReplicaNameInjective("u", "u");
    IncrementalIsRebuild(false, prev, next, [], ["r"]);
    assert Find(prev.users, "u") == Some(User("u", "pw"));
    assert Kept(prev, next, "u", "db");
    assert "r" in prev.replicas;
  }
}
