/**
 The pool table of the discovery handler (lib/gat/handlers/discovery/module.go) as a value, what
 every step of the reconciliation does to it, and the proof that updating the table in place gives
 the table that would be built from scratch, precisely when it does.
 */
module DiscoverySpec {
  import opened Collections

  datatype Node = Node(address: string, priority: int)

  datatype User = User(username: string, password: string)

  datatype Cluster = Cluster(
    id: string, primary: Node, replicas: map<string, Node>, databases: seq<string>, users: seq<User>)

  /** What a server is dialled with; the settings shared by all recipes are left out. */
  datatype Recipe = Recipe(node: Node, username: string, creds: User, database: string)

  /** A pool with its credentials. Only a ReplicaPool has anything in `replicas`. */
  datatype Pool = Pool(creds: User, recipes: map<string, Recipe>, replicas: map<string, Recipe>)

  type Key = (string, string)

  type Table = map<Key, Pool>

  function ReplicaName(username: string): string {
    username + "_ro"
  }

  function ReplicaUser(user: User): User {
    User(ReplicaName(user.username), user.password)
  }

  /** The two pools that may exist for a user and a database. */
  datatype Cell = Cell(main: Option<Pool>, ro: Option<Pool>)

  const EMPTY := Cell(None, None)

  function At(t: Table, k: Key): Option<Pool> {
    if k in t then Some(t[k]) else None
  }

  function Put(t: Table, k: Key, p: Option<Pool>): Table {
    if p.Some? then t[k := p.value] else t - {k}
  }

  function CellAt(t: Table, u: string, d: string): Cell {
    Cell(At(t, (u, d)), At(t, (ReplicaName(u), d)))
  }

  function SetCell(t: Table, u: string, d: string, c: Cell): Table {
    Put(Put(t, (u, d), c.main), (ReplicaName(u), d), c.ro)
  }

  /** The steps of the handler on the pools of one user and database. */
  datatype Action =
    | Primary(node: Node)
    | Replicas(nodes: map<string, Node>)
    | NoReplicas(ids: set<string>)
    | Replica(id: string, node: Node)
    | NoReplica(id: string)
    | NoPrimary

  function GetOrAdd(p: Option<Pool>, user: User): Pool {
    if p.Some? then p.value else Pool(user, map[], map[])
  }

  /** The recipes of a number of nodes, for the same user and database. */
  ghost predicate Cooks(m: map<string, Recipe>, nodes: map<string, Node>, username: string, creds: User, d: string) {
    m.Keys == nodes.Keys && forall id | id in nodes :: m[id] == Recipe(nodes[id], username, creds, d)
  }

  ghost function Recipes(nodes: map<string, Node>, username: string, creds: User, d: string): (m: map<string, Recipe>)
    ensures Cooks(m, nodes, username, creds, d)
  {
    SomeCooks(nodes, username, creds, d);
    var m :| Cooks(m, nodes, username, creds, d);
    m
  }

  lemma {:induction false} SomeCooks(nodes: map<string, Node>, username: string, creds: User, d: string)
    ensures exists m :: Cooks(m, nodes, username, creds, d)
    decreases |nodes|
  {
    var some := Member(nodes.Keys);
    if nodes == map[] {
      assert Cooks(map[], nodes, username, creds, d);
    } else {
      var id := some.value;
      var rest := nodes - {id};
      assert rest.Keys == nodes.Keys - {id};
      SomeCooks(rest, username, creds, d);
      var m :| Cooks(m, rest, username, creds, d);
      assert Cooks(m[id := Recipe(nodes[id], username, creds, d)], nodes, username, creds, d);
    }
  }

  /** `rp` tells whether the factory makes pools that hold their replicas themselves. */
  ghost function Act(rp: bool, c: Cell, user: User, d: string, a: Action): Cell {
    match a
    case Primary(n) =>
      var p := GetOrAdd(c.main, user);
      c.(main := Some(p.(recipes := p.recipes["primary" := Recipe(n, user.username, p.creds, d)])))
    case Replicas(nodes) =>
      var p := GetOrAdd(c.main, user);
      var more := Recipes(nodes, user.username, p.creds, d);
      if rp then c.(main := Some(p.(replicas := p.replicas + more))) else
      var q := GetOrAdd(c.ro, ReplicaUser(user));
      Cell(Some(p), Some(q.(recipes := q.recipes + more)))
    case NoReplicas(ids) =>
      if c.main.None? then c
      else if rp then c.(main := Some(c.main.value.(replicas := c.main.value.replicas - ids)))
      else c.(ro := None)
    case Replica(id, n) =>
      var p := GetOrAdd(c.main, user);
      var r := Recipe(n, user.username, p.creds, d);
      if rp then c.(main := Some(p.(replicas := p.replicas[id := r]))) else
      var q := GetOrAdd(c.ro, ReplicaUser(user));
      Cell(Some(p), Some(q.(recipes := q.recipes[id := r])))
    case NoReplica(id) =>
      if c.main.None? then c
      else if rp then c.(main := Some(c.main.value.(replicas := c.main.value.replicas - {id})))
      else if c.ro.None? then c
      else c.(ro := Some(c.ro.value.(recipes := c.ro.value.recipes - {id})))
    case NoPrimary => c.(main := None)
  }

  ghost function ActAll(rp: bool, c: Cell, user: User, d: string, acts: seq<Action>): Cell
    decreases |acts|
  {
    if acts == [] then c else ActAll(rp, Act(rp, c, user, d, acts[0]), user, d, acts[1..])
  }

  ghost function Step(rp: bool, t: Table, user: User, d: string, a: Action): Table {
    SetCell(t, user.username, d, Act(rp, CellAt(t, user.username, d), user, d, a))
  }

  ghost function RunActs(rp: bool, t: Table, user: User, d: string, acts: seq<Action>): Table
    decreases |acts|
  {
    if acts == [] then t else RunActs(rp, Step(rp, t, user, d, acts[0]), user, d, acts[1..])
  }

  ghost function RunDbs(rp: bool, t: Table, user: User, dbs: seq<string>, acts: seq<Action>): Table
    decreases |dbs|
  {
    if dbs == [] then t else RunDbs(rp, RunActs(rp, t, user, dbs[0], acts), user, dbs[1..], acts)
  }

  ghost function RunUsers(rp: bool, t: Table, users: seq<User>, dbs: seq<string>, acts: seq<Action>): Table
    decreases |users|
  {
    if users == [] then t else RunUsers(rp, RunDbs(rp, t, users[0], dbs, acts), users[1..], dbs, acts)
  }

  // ---- the handler's operations ----------------------------------------------------------

  function ToAdd(c: Cluster): seq<Action> {
    [Primary(c.primary), Replicas(c.replicas)]
  }

  function ToRemove(replicas: map<string, Node>): seq<Action> {
    [NoReplicas(replicas.Keys), NoPrimary]
  }

  /** The table after a new cluster was added. */
  ghost function Added(rp: bool, t: Table, c: Cluster): Table {
    RunUsers(rp, t, c.users, c.databases, ToAdd(c))
  }

  ghost function Removed(rp: bool, t: Table, c: Cluster, dbs: seq<string>): Table
    decreases |dbs|
  {
    if dbs == [] then t
    else Removed(rp, RunUsers(rp, t, c.users, [dbs[0]], ToRemove(c.replicas)), c, dbs[1..])
  }

  ghost function AddReplicas(rp: bool, t: Table, prev: Cluster, next: Cluster, ids: seq<string>): Table
    requires forall id :: id in ids ==> id in next.replicas
    decreases |ids|
  {
    if ids == [] then t else
    var id := ids[0];
    var t' := if id in prev.replicas && prev.replicas[id] == next.replicas[id] then t
              else RunUsers(rp, t, prev.users, prev.databases, [Replica(id, next.replicas[id])]);
    AddReplicas(rp, t', prev, next, ids[1..])
  }

  ghost function DropReplicas(rp: bool, t: Table, prev: Cluster, next: Cluster, ids: seq<string>): Table
    decreases |ids|
  {
    if ids == [] then t else
    var t' := if ids[0] in next.replicas then t else RunUsers(rp, t, prev.users, prev.databases, [NoReplica(ids[0])]);
    DropReplicas(rp, t', prev, next, ids[1..])
  }

  /** The replica changes; the maps are walked in some order `adds` and `drops`. */
  ghost function Reshape(rp: bool, t: Table, prev: Cluster, next: Cluster, adds: seq<string>, drops: seq<string>): Table
    requires Enumerates(adds, next.replicas)
  {
    if prev.replicas != map[] && next.replicas == map[] then
      RunUsers(rp, t, prev.users, prev.databases, [NoReplicas(prev.replicas.Keys)])
    else if prev.replicas == map[] && next.replicas != map[] then
      RunUsers(rp, t, prev.users, prev.databases, [Replicas(next.replicas)])
    else
      DropReplicas(rp, AddReplicas(rp, t, prev, next, adds), prev, next, drops)
  }

  predicate Enumerates(ids: seq<string>, m: map<string, Node>) {
    (forall id | id in ids :: id in m) && (forall id | id in m :: id in ids)
  }

  /** The first user of that name. */
  function Find(users: seq<User>, name: string): Option<User> {
    if users == [] then None else if users[0].username == name then Some(users[0]) else Find(users[1..], name)
  }

  ghost function AddUsers(rp: bool, t: Table, prev: Cluster, next: Cluster, users: seq<User>): Table
    decreases |users|
  {
    if users == [] then t else
    var user := users[0];
    var was := Find(prev.users, user.username);
    var t' :=
      if was.None? then RunDbs(rp, t, user, prev.databases, ToAdd(next))
      else if was.value.password != user.password then
        RunDbs(rp, RunDbs(rp, t, user, prev.databases, ToRemove(next.replicas)), user, prev.databases, ToAdd(next))
      else t;
    AddUsers(rp, t', prev, next, users[1..])
  }

  ghost function DropUsers(rp: bool, t: Table, prev: Cluster, next: Cluster, users: seq<User>): Table
    decreases |users|
  {
    if users == [] then t else
    var t' := if Find(next.users, users[0].username).Some? then t
              else RunDbs(rp, t, users[0], prev.databases, ToRemove(next.replicas));
    DropUsers(rp, t', prev, next, users[1..])
  }

  ghost function AddDatabases(rp: bool, t: Table, prev: Cluster, next: Cluster, dbs: seq<string>): Table
    decreases |dbs|
  {
    if dbs == [] then t else
    var t' := if dbs[0] in prev.databases then t else RunUsers(rp, t, next.users, [dbs[0]], ToAdd(next));
    AddDatabases(rp, t', prev, next, dbs[1..])
  }

  ghost function DropDatabases(rp: bool, t: Table, prev: Cluster, next: Cluster, dbs: seq<string>): Table
    decreases |dbs|
  {
    if dbs == [] then t else
    var t' := if dbs[0] in next.databases then t else RunUsers(rp, t, next.users, [dbs[0]], ToRemove(next.replicas));
    DropDatabases(rp, t', prev, next, dbs[1..])
  }

  ghost function Nodes(rp: bool, t: Table, prev: Cluster, next: Cluster, adds: seq<string>, drops: seq<string>): Table
    requires Enumerates(adds, next.replicas)
  {
    var t1 := if prev.primary != next.primary
              then RunUsers(rp, t, prev.users, prev.databases, [Primary(next.primary)]) else t;
    Reshape(rp, t1, prev, next, adds, drops)
  }

  /** The table after a known cluster changed. */
  ghost function Updated(rp: bool, t: Table, prev: Cluster, next: Cluster, adds: seq<string>, drops: seq<string>): Table
    requires Enumerates(adds, next.replicas)
  {
    var t2 := Nodes(rp, t, prev, next, adds, drops);
    var t3 := AddUsers(rp, t2, prev, next, next.users);
    var t4 := DropUsers(rp, t3, prev, next, prev.users);
    var t5 := AddDatabases(rp, t4, prev, next, next.databases);
    DropDatabases(rp, t5, prev, next, prev.databases)
  }

  // ---- cells do not interfere ------------------------------------------------------------

  lemma ReplicaNameInjective(u: string, v: string)
    ensures ReplicaName(u) == ReplicaName(v) ==> u == v
    ensures ReplicaName(u) != u
  {
    assert |ReplicaName(u)| == |u| + 3;
    if ReplicaName(u) == ReplicaName(v) {
      assert u == ReplicaName(u)[..|u|] && v == ReplicaName(v)[..|v|];
      assert |ReplicaName(v)| == |v| + 3;
    }
  }

  /** Neither name is the read-only name of the other. */
  predicate Apart(u: string, v: string) {
    u != ReplicaName(v) && v != ReplicaName(u)
  }

  lemma SetCellAt(t: Table, u: string, d: string, c: Cell, v: string, e: string)
    requires Apart(u, v)
    ensures CellAt(SetCell(t, u, d, c), v, e) == if u == v && d == e then c else CellAt(t, v, e)
  {
    ReplicaNameInjective(u, v);
  }

  /** The keys of the pools of a user and a database. */
  predicate Owns(u: string, d: string, k: Key) {
    k.1 == d && (k.0 == u || k.0 == ReplicaName(u))
  }

  lemma {:induction false} ActsCell(rp: bool, t: Table, user: User, d: string, acts: seq<Action>, v: string, e: string)
    requires Apart(user.username, v)
    ensures CellAt(RunActs(rp, t, user, d, acts), v, e) ==
            if user.username == v && d == e then ActAll(rp, CellAt(t, v, e), user, d, acts) else CellAt(t, v, e)
    decreases |acts|
  {
    hide Act, SetCell, CellAt;
    if acts != [] {
      var t' := Step(rp, t, user, d, acts[0]);
      SetCellAt(t, user.username, d, Act(rp, CellAt(t, user.username, d), user, d, acts[0]), v, e);
      ActsCell(rp, t', user, d, acts[1..], v, e);
    }
  }

  lemma {:induction false} ActsFrame(rp: bool, t: Table, user: User, d: string, acts: seq<Action>, k: Key)
    requires !Owns(user.username, d, k)
    ensures At(RunActs(rp, t, user, d, acts), k) == At(t, k)
    decreases |acts|
  {
    hide Act;
    if acts != [] {
      ActsFrame(rp, Step(rp, t, user, d, acts[0]), user, d, acts[1..], k);
    }
  }

  /** Doing it twice is doing it once, so repeated databases and users make no difference. */
  ghost predicate Idempotent(rp: bool, user: User, d: string, acts: seq<Action>) {
    forall c :: ActAll(rp, ActAll(rp, c, user, d, acts), user, d, acts) == ActAll(rp, c, user, d, acts)
  }

  lemma {:induction false} DbsCell(rp: bool, t: Table, user: User, dbs: seq<string>, acts: seq<Action>, v: string, e: string)
    requires Apart(user.username, v) && Idempotent(rp, user, e, acts)
    ensures CellAt(RunDbs(rp, t, user, dbs, acts), v, e) ==
            if user.username == v && e in dbs then ActAll(rp, CellAt(t, v, e), user, e, acts) else CellAt(t, v, e)
    decreases |dbs|
  {
    hide ActAll, CellAt, RunActs;
    if dbs != [] {
      ActsCell(rp, t, user, dbs[0], acts, v, e);
      DbsCell(rp, RunActs(rp, t, user, dbs[0], acts), user, dbs[1..], acts, v, e);
    }
  }

  lemma {:induction false} DbsFrame(rp: bool, t: Table, user: User, dbs: seq<string>, acts: seq<Action>, k: Key)
    requires !(k.1 in dbs && Owns(user.username, k.1, k))
    ensures At(RunDbs(rp, t, user, dbs, acts), k) == At(t, k)
    decreases |dbs|
  {
    hide RunActs, At;
    if dbs != [] {
      ActsFrame(rp, t, user, dbs[0], acts, k);
      DbsFrame(rp, RunActs(rp, t, user, dbs[0], acts), user, dbs[1..], acts, k);
    }
  }

  /** Users of one name have one password. */
  predicate Consistent(users: seq<User>) {
    forall i, j :: 0 <= i < |users| && 0 <= j < |users| && users[i].username == users[j].username ==> users[i] == users[j]
  }

  /** No user's name is the read-only name of another, and v is neither of any of them. */
  predicate AllApart(users: seq<User>, v: string) {
    forall i :: 0 <= i < |users| ==> Apart(users[i].username, v)
  }

  ghost predicate AllIdempotent(rp: bool, users: seq<User>, e: string, acts: seq<Action>) {
    forall i :: 0 <= i < |users| ==> Idempotent(rp, users[i], e, acts)
  }

  lemma {:induction false} FindIs(users: seq<User>, v: string)
    ensures Find(users, v).Some? <==> exists i :: 0 <= i < |users| && users[i].username == v
    ensures Find(users, v).Some? ==> Find(users, v).value in users && Find(users, v).value.username == v
  {
    if users != [] {
      FindIs(users[1..], v);
      if users[0].username != v && Find(users[1..], v).Some? {
        assert Find(users[1..], v).value in users;
      }
      forall i | 0 <= i < |users| && users[i].username == v
        ensures Find(users, v).Some?
      {
        if i > 0 {
          assert users[1..][i - 1].username == v;
        }
      }
    }
  }

  lemma {:induction false} UsersCell(rp: bool, t: Table, users: seq<User>, dbs: seq<string>, acts: seq<Action>, v: string, e: string)
    requires AllApart(users, v) && Consistent(users) && AllIdempotent(rp, users, e, acts)
    ensures CellAt(RunUsers(rp, t, users, dbs, acts), v, e) ==
            if Find(users, v).Some? && e in dbs then ActAll(rp, CellAt(t, v, e), Find(users, v).value, e, acts)
            else CellAt(t, v, e)
    decreases |users|
  {
    hide ActAll, CellAt, RunDbs, Apart, Idempotent;
    if users != [] {
      var t', rest := RunDbs(rp, t, users[0], dbs, acts), users[1..];
      DbsCell(rp, t, users[0], dbs, acts, v, e);
      UsersCell(rp, t', rest, dbs, acts, v, e);
      FindIs(rest, v);
      if users[0].username == v && Find(rest, v).Some? && e in dbs {
        assert users[0] == Find(rest, v).value;
        Twice(rp, CellAt(t, v, e), users[0], e, acts);
      }
    }
  }

  lemma Twice(rp: bool, c: Cell, user: User, d: string, acts: seq<Action>)
    requires Idempotent(rp, user, d, acts)
    ensures ActAll(rp, ActAll(rp, c, user, d, acts), user, d, acts) == ActAll(rp, c, user, d, acts)
  {
  }

  lemma {:induction false} UsersFrame(rp: bool, t: Table, users: seq<User>, dbs: seq<string>, acts: seq<Action>, k: Key)
    requires k.1 in dbs ==> forall i :: 0 <= i < |users| ==> !Owns(users[i].username, k.1, k)
    ensures At(RunUsers(rp, t, users, dbs, acts), k) == At(t, k)
    decreases |users|
  {
    hide RunDbs, At, Owns;
    if users != [] {
      DbsFrame(rp, t, users[0], dbs, acts, k);
      UsersFrame(rp, RunDbs(rp, t, users[0], dbs, acts), users[1..], dbs, acts, k);
    }
  }

  // ---- what a cell should hold -----------------------------------------------------------

  /**
   The pools of a user and a database of the cluster. Without replicas there may still be an empty
   read-only pool, or none at all: then the cell is bare.
   */
  ghost function Full(rp: bool, primary: Node, replicas: map<string, Node>, user: User, d: string, bare: bool): Cell {
    var more := Recipes(replicas, user.username, user, d);
    Cell(
      Some(Pool(user, map["primary" := Recipe(primary, user.username, user, d)], if rp then more else map[])),
      if rp || (bare && replicas == map[]) then None else Some(Pool(ReplicaUser(user), more, map[])))
  }

  ghost function Want(rp: bool, c: Cluster, u: string, d: string, bare: bool): Cell {
    var user := Find(c.users, u);
    if user.Some? && d in c.databases then Full(rp, c.primary, c.replicas, user.value, d, bare) else EMPTY
  }

  lemma ActOne(rp: bool, c: Cell, user: User, d: string, a: Action)
    ensures ActAll(rp, c, user, d, [a]) == Act(rp, c, user, d, a)
  {
    hide Act;
    assert [a][1..] == [];
  }

  lemma ActTwo(rp: bool, c: Cell, user: User, d: string, a: Action, b: Action)
    ensures ActAll(rp, c, user, d, [a, b]) == Act(rp, Act(rp, c, user, d, a), user, d, b)
  {
    hide Act;
    assert [a, b][1..] == [b];
    ActOne(rp, Act(rp, c, user, d, a), user, d, b);
  }

  lemma RecipesOver(r: map<string, Recipe>, m: map<string, Recipe>)
    ensures (r + m) + m == r + m && map[] + m == m && m + m == m
  {
  }

  lemma SetAgain(r: map<string, Recipe>, id: string, x: Recipe)
    ensures r[id := x][id := x] == r[id := x]
  {
  }

  lemma NoRecipes(nodes: map<string, Node>, username: string, creds: User, d: string)
    ensures nodes == map[] ==> Recipes(nodes, username, creds, d) == map[]
  {
    assert Recipes(nodes, username, creds, d).Keys == nodes.Keys;
  }

  lemma OneIdempotent(rp: bool, user: User, d: string, a: Action)
    ensures Idempotent(rp, user, d, [a])
  {
    forall c
      ensures ActAll(rp, ActAll(rp, c, user, d, [a]), user, d, [a]) == ActAll(rp, c, user, d, [a])
    {
      var c' := Act(rp, c, user, d, a);
      ActOne(rp, c, user, d, a);
      ActOne(rp, c', user, d, a);
      ActAgain(rp, c, user, d, a);
    }
  }

  lemma ActAgain(rp: bool, c: Cell, user: User, d: string, a: Action)
    ensures Act(rp, Act(rp, c, user, d, a), user, d, a) == Act(rp, c, user, d, a)
  {
    var p, q := GetOrAdd(c.main, user), GetOrAdd(c.ro, ReplicaUser(user));
    if a.Primary? {
      SetAgain(p.recipes, "primary", Recipe(a.node, user.username, p.creds, d));
    } else if a.Replica? {
      SetAgain(p.replicas, a.id, Recipe(a.node, user.username, p.creds, d));
      SetAgain(q.recipes, a.id, Recipe(a.node, user.username, p.creds, d));
    } else if a.Replicas? {
      var more := Recipes(a.nodes, user.username, p.creds, d);
      RecipesOver(p.replicas, more);
      RecipesOver(q.recipes, more);
    } else if a.NoReplicas? && c.main.Some? {
      var r := c.main.value.replicas;
      assert (r - a.ids) - a.ids == r - a.ids;
    } else if a.NoReplica? && c.main.Some? {
      var r := c.main.value.replicas;
      assert (r - {a.id}) - {a.id} == r - {a.id};
      if c.ro.Some? {
        assert (q.recipes - {a.id}) - {a.id} == q.recipes - {a.id};
      }
    }
  }

  lemma AddIdempotent(rp: bool, user: User, d: string, c: Cluster)
    ensures Idempotent(rp, user, d, ToAdd(c))
  {
    forall x
      ensures ActAll(rp, ActAll(rp, x, user, d, ToAdd(c)), user, d, ToAdd(c)) == ActAll(rp, x, user, d, ToAdd(c))
    {
      var a, b := Primary(c.primary), Replicas(c.replicas);
      var y := Act(rp, Act(rp, x, user, d, a), user, d, b);
      ActTwo(rp, x, user, d, a, b);
      ActTwo(rp, y, user, d, a, b);
      var p := GetOrAdd(x.main, user);
      var more := Recipes(c.replicas, user.username, p.creds, d);
      RecipesOver(p.replicas, more);
      RecipesOver(GetOrAdd(x.ro, ReplicaUser(user)).recipes, more);
      SetAgain(p.recipes, "primary", Recipe(c.primary, user.username, p.creds, d));
      assert Act(rp, y, user, d, a) == y;
      ActAgain(rp, Act(rp, x, user, d, a), user, d, b);
    }
  }

  lemma RemoveIdempotent(rp: bool, user: User, d: string, replicas: map<string, Node>)
    ensures Idempotent(rp, user, d, ToRemove(replicas))
  {
    forall x
      ensures ActAll(rp, ActAll(rp, x, user, d, ToRemove(replicas)), user, d, ToRemove(replicas)) ==
              ActAll(rp, x, user, d, ToRemove(replicas))
    {
      var a, b := NoReplicas(replicas.Keys), NoPrimary;
      var y := Act(rp, Act(rp, x, user, d, a), user, d, b);
      ActTwo(rp, x, user, d, a, b);
      ActTwo(rp, y, user, d, a, b);
    }
  }

  lemma FullPrimary(rp: bool, p: Node, p': Node, r: map<string, Node>, user: User, d: string, bare: bool)
    ensures ActAll(rp, Full(rp, p, r, user, d, bare), user, d, [Primary(p')]) == Full(rp, p', r, user, d, bare)
  {
    ActOne(rp, Full(rp, p, r, user, d, bare), user, d, Primary(p'));
    var x, y := Recipe(p, user.username, user, d), Recipe(p', user.username, user, d);
    assert map["primary" := x]["primary" := y] == map["primary" := y];
  }

  lemma FullAdd(rp: bool, c: Cluster, user: User, d: string, bare: bool)
    ensures ActAll(rp, EMPTY, user, d, ToAdd(c)) == Full(rp, c.primary, c.replicas, user, d, false)
    ensures ActAll(rp, Full(rp, c.primary, c.replicas, user, d, bare), user, d, ToAdd(c)) ==
            Full(rp, c.primary, c.replicas, user, d, false)
  {
    var a, b := Primary(c.primary), Replicas(c.replicas);
    ActTwo(rp, EMPTY, user, d, a, b);
    ActTwo(rp, Full(rp, c.primary, c.replicas, user, d, bare), user, d, a, b);
    FullPrimary(rp, c.primary, c.primary, c.replicas, user, d, bare);
    ActOne(rp, Full(rp, c.primary, c.replicas, user, d, bare), user, d, a);
    RecipesOver(map[], Recipes(c.replicas, user.username, user, d));
    var x := Recipe(c.primary, user.username, user, d);
    assert map[]["primary" := x] == map["primary" := x];
  }

  lemma FullRemove(rp: bool, p: Node, r: map<string, Node>, user: User, d: string, bare: bool, other: User, gone: map<string, Node>)
    ensures ActAll(rp, Full(rp, p, r, user, d, bare), other, d, ToRemove(gone)) == EMPTY
    ensures ActAll(rp, EMPTY, other, d, ToRemove(gone)) == EMPTY
  {
    ActTwo(rp, Full(rp, p, r, user, d, bare), other, d, NoReplicas(gone.Keys), NoPrimary);
    ActTwo(rp, EMPTY, other, d, NoReplicas(gone.Keys), NoPrimary);
  }

  lemma FullReplicas(rp: bool, p: Node, none: map<string, Node>, r: map<string, Node>, user: User, d: string, bare: bool)
    requires none == map[]
    ensures ActAll(rp, Full(rp, p, none, user, d, bare), user, d, [Replicas(r)]) == Full(rp, p, r, user, d, false)
  {
    ActOne(rp, Full(rp, p, none, user, d, bare), user, d, Replicas(r));
    NoRecipes(none, user.username, user, d);
    var more := Recipes(r, user.username, user, d);
    RecipesOver(map[], more);
    var c := Full(rp, p, none, user, d, bare);
    assert GetOrAdd(c.main, user).replicas == map[];
    assert !rp ==> GetOrAdd(c.ro, ReplicaUser(user)) == Pool(ReplicaUser(user), map[], map[]);
    assert Act(rp, c, user, d, Replicas(r)).main == Full(rp, p, r, user, d, false).main;
    assert Act(rp, c, user, d, Replicas(r)).ro == Full(rp, p, r, user, d, false).ro;
  }

  lemma FullNoReplicas(rp: bool, p: Node, r: map<string, Node>, user: User, d: string, bare: bool)
    ensures ActAll(rp, Full(rp, p, r, user, d, bare), user, d, [NoReplicas(r.Keys)]) == Full(rp, p, map[], user, d, true)
  {
    ActOne(rp, Full(rp, p, r, user, d, bare), user, d, NoReplicas(r.Keys));
    NoRecipes(map[], user.username, user, d);
    assert (Recipes(r, user.username, user, d) - r.Keys).Keys == {};
  }

  lemma FullReplica(rp: bool, p: Node, r: map<string, Node>, user: User, d: string, id: string, n: Node)
    ensures ActAll(rp, Full(rp, p, r, user, d, false), user, d, [Replica(id, n)]) == Full(rp, p, r[id := n], user, d, false)
  {
    ActOne(rp, Full(rp, p, r, user, d, false), user, d, Replica(id, n));
    var x := Recipe(n, user.username, user, d);
    assert Recipes(r, user.username, user, d)[id := x] == Recipes(r[id := n], user.username, user, d);
  }

  lemma FullNoReplica(rp: bool, p: Node, r: map<string, Node>, user: User, d: string, id: string)
    ensures ActAll(rp, Full(rp, p, r, user, d, false), user, d, [NoReplica(id)]) == Full(rp, p, r - {id}, user, d, false)
  {
    ActOne(rp, Full(rp, p, r, user, d, false), user, d, NoReplica(id));
    assert Recipes(r, user.username, user, d) - {id} == Recipes(r - {id}, user.username, user, d);
  }

  // ---- one update, cell by cell ----------------------------------------------------------

  /** The premises on names: no conflicting duplicates, no user called like a read-only twin. */
  predicate Sane(prev: Cluster, next: Cluster, u: string) {
    && AllApart(prev.users, u) && AllApart(next.users, u)
    && Consistent(prev.users) && Consistent(next.users)
  }

  predicate Covers(c: Cluster, u: string, d: string) {
    Find(c.users, u).Some? && d in c.databases
  }

  function Overlay(r: map<string, Node>, was: map<string, Node>, now: map<string, Node>, ids: seq<string>): map<string, Node>
    requires forall id | id in ids :: id in now
    decreases |ids|
  {
    if ids == [] then r else
    var id := ids[0];
    Overlay(if id in was && was[id] == now[id] then r else r[id := now[id]], was, now, ids[1..])
  }

  function Trim(r: map<string, Node>, now: map<string, Node>, ids: seq<string>): map<string, Node>
    decreases |ids|
  {
    if ids == [] then r else Trim(if ids[0] in now then r else r - {ids[0]}, now, ids[1..])
  }

  lemma {:induction false} OverlayAt(r: map<string, Node>, was: map<string, Node>, now: map<string, Node>, ids: seq<string>, id: string)
    requires forall id | id in ids :: id in now
    ensures var o := Overlay(r, was, now, ids);
      if id in ids && !(id in was && was[id] == now[id]) then id in o && o[id] == now[id]
      else (id in o <==> id in r) && (id in o ==> o[id] == r[id])
    decreases |ids|
  {
    if ids != [] {
      var x := ids[0];
      OverlayAt(if x in was && was[x] == now[x] then r else r[x := now[x]], was, now, ids[1..], id);
    }
  }

  lemma {:induction false} TrimAt(r: map<string, Node>, now: map<string, Node>, ids: seq<string>, id: string)
    ensures var o := Trim(r, now, ids);
      (id in o <==> id in r && !(id in ids && id !in now)) && (id in o ==> o[id] == r[id])
    decreases |ids|
  {
    if ids != [] {
      TrimAt(if ids[0] in now then r else r - {ids[0]}, now, ids[1..], id);
    }
  }

  /** Adding what is new or changed and dropping what is gone, in any order of the ids, gives the new replicas. */
  lemma OverlayTrim(was: map<string, Node>, now: map<string, Node>, adds: seq<string>, drops: seq<string>)
    requires Enumerates(adds, now) && Enumerates(drops, was)
    ensures Trim(Overlay(was, was, now, adds), now, drops) == now
  {
    hide Overlay, Trim;
    var o := Overlay(was, was, now, adds);
    forall id
      ensures id in Trim(o, now, drops) <==> id in now
      ensures id in now ==> Trim(o, now, drops)[id] == now[id]
    {
      OverlayAt(was, was, now, adds, id);
      TrimAt(o, now, drops, id);
    }
  }

  lemma OneIdempotentAll(rp: bool, users: seq<User>, d: string, a: Action)
    ensures AllIdempotent(rp, users, d, [a])
  {
    forall i | 0 <= i < |users|
      ensures Idempotent(rp, users[i], d, [a])
    {
      OneIdempotent(rp, users[i], d, a);
    }
  }

  /** One action for every user and database of the old cluster. */
  lemma EveryCell(rp: bool, t: Table, c: Cluster, a: Action, u: string, d: string)
    requires AllApart(c.users, u) && Consistent(c.users)
    ensures CellAt(RunUsers(rp, t, c.users, c.databases, [a]), u, d) ==
            if Covers(c, u, d) then ActAll(rp, CellAt(t, u, d), Find(c.users, u).value, d, [a]) else CellAt(t, u, d)
  {
    OneIdempotentAll(rp, c.users, d, a);
    UsersCell(rp, t, c.users, c.databases, [a], u, d);
  }

  lemma {:induction false} AddReplicasCell(rp: bool, t: Table, prev: Cluster, next: Cluster, ids: seq<string>, u: string, d: string, p: Node, r: map<string, Node>)
    requires AllApart(prev.users, u) && Consistent(prev.users) && forall id | id in ids :: id in next.replicas
    requires Covers(prev, u, d) ==> CellAt(t, u, d) == Full(rp, p, r, Find(prev.users, u).value, d, false)
    ensures CellAt(AddReplicas(rp, t, prev, next, ids), u, d) ==
            if Covers(prev, u, d)
            then Full(rp, p, Overlay(r, prev.replicas, next.replicas, ids), Find(prev.users, u).value, d, false)
            else CellAt(t, u, d)
    decreases |ids|
  {
    hide Full, CellAt, ActAll, RunUsers;
    if ids != [] {
      var id := ids[0];
      if id in prev.replicas && prev.replicas[id] == next.replicas[id] {
        AddReplicasCell(rp, t, prev, next, ids[1..], u, d, p, r);
      } else {
        var n := next.replicas[id];
        EveryCell(rp, t, prev, Replica(id, n), u, d);
        if Covers(prev, u, d) {
          FullReplica(rp, p, r, Find(prev.users, u).value, d, id, n);
        }
        var t' := RunUsers(rp, t, prev.users, prev.databases, [Replica(id, n)]);
        AddReplicasCell(rp, t', prev, next, ids[1..], u, d, p, r[id := n]);
      }
    }
  }

  lemma {:induction false} DropReplicasCell(rp: bool, t: Table, prev: Cluster, next: Cluster, ids: seq<string>, u: string, d: string, p: Node, r: map<string, Node>)
    requires AllApart(prev.users, u) && Consistent(prev.users)
    requires Covers(prev, u, d) ==> CellAt(t, u, d) == Full(rp, p, r, Find(prev.users, u).value, d, false)
    ensures CellAt(DropReplicas(rp, t, prev, next, ids), u, d) ==
            if Covers(prev, u, d) then Full(rp, p, Trim(r, next.replicas, ids), Find(prev.users, u).value, d, false)
            else CellAt(t, u, d)
    decreases |ids|
  {
    hide Full, CellAt, ActAll, RunUsers;
    if ids != [] {
      var id := ids[0];
      if id in next.replicas {
        DropReplicasCell(rp, t, prev, next, ids[1..], u, d, p, r);
      } else {
        EveryCell(rp, t, prev, NoReplica(id), u, d);
        if Covers(prev, u, d) {
          FullNoReplica(rp, p, r, Find(prev.users, u).value, d, id);
        }
        var t' := RunUsers(rp, t, prev.users, prev.databases, [NoReplica(id)]);
        DropReplicasCell(rp, t', prev, next, ids[1..], u, d, p, r - {id});
      }
    }
  }

  lemma {:induction false} ReshapeCell(rp: bool, t: Table, prev: Cluster, next: Cluster, adds: seq<string>, drops: seq<string>, u: string, d: string, p: Node, bare: bool)
    requires AllApart(prev.users, u) && Consistent(prev.users)
    requires Enumerates(adds, next.replicas) && Enumerates(drops, prev.replicas)
    requires Covers(prev, u, d) ==> CellAt(t, u, d) == Full(rp, p, prev.replicas, Find(prev.users, u).value, d, bare)
    ensures CellAt(Reshape(rp, t, prev, next, adds, drops), u, d) ==
            if Covers(prev, u, d)
            then Full(rp, p, next.replicas, Find(prev.users, u).value, d, prev.replicas != map[] || bare)
            else CellAt(t, u, d)
  {
    hide CellAt, ActAll, RunUsers, AddReplicas, DropReplicas, Enumerates, Recipes, Apart;
    var users := prev.users;
    if prev.replicas != map[] && next.replicas == map[] {
      EveryCell(rp, t, prev, NoReplicas(prev.replicas.Keys), u, d);
      if Covers(prev, u, d) {
        FullNoReplicas(rp, p, prev.replicas, Find(users, u).value, d, bare);
      }
    } else if prev.replicas == map[] && next.replicas != map[] {
      EveryCell(rp, t, prev, Replicas(next.replicas), u, d);
      if Covers(prev, u, d) {
        FullReplicas(rp, p, prev.replicas, next.replicas, Find(users, u).value, d, bare);
      }
    } else if prev.replicas == map[] {
      NothingToDo(rp, t, prev, next, adds, drops);
    } else {
      EnumeratesIn(adds, next.replicas);
      AddReplicasCell(rp, t, prev, next, adds, u, d, p, prev.replicas);
      var t' := AddReplicas(rp, t, prev, next, adds);
      DropReplicasCell(rp, t', prev, next, drops, u, d, p, Overlay(prev.replicas, prev.replicas, next.replicas, adds));
      OverlayTrim(prev.replicas, next.replicas, adds, drops);
    }
  }

  lemma EnumeratesIn(ids: seq<string>, m: map<string, Node>)
    requires Enumerates(ids, m)
    ensures forall id | id in ids :: id in m
  {
  }

  lemma NothingToDo(rp: bool, t: Table, prev: Cluster, next: Cluster, adds: seq<string>, drops: seq<string>)
    requires prev.replicas == next.replicas == map[] && Enumerates(adds, next.replicas) && Enumerates(drops, prev.replicas)
    ensures (forall id | id in adds :: id in next.replicas)
    ensures DropReplicas(rp, AddReplicas(rp, t, prev, next, adds), prev, next, drops) == t
  {
    NoIds(adds, next.replicas);
    NoIds(drops, prev.replicas);
  }

  lemma NoIds(ids: seq<string>, m: map<string, Node>)
    requires Enumerates(ids, m)
    ensures m == map[] ==> ids == []
  {
    assert |ids| > 0 ==> ids[0] in m;
  }

  /** After the node changes: the old users and databases, on the new primary and replicas. */
  lemma NodesCell(rp: bool, t: Table, prev: Cluster, next: Cluster, adds: seq<string>, drops: seq<string>, u: string, d: string, bare: bool)
    requires AllApart(prev.users, u) && Consistent(prev.users)
    requires Enumerates(adds, next.replicas) && Enumerates(drops, prev.replicas)
    requires CellAt(t, u, d) == Want(rp, prev, u, d, bare)
    ensures CellAt(Nodes(rp, t, prev, next, adds, drops), u, d) ==
            if Covers(prev, u, d)
            then Full(rp, next.primary, next.replicas, Find(prev.users, u).value, d, prev.replicas != map[] || bare)
            else EMPTY
  {
    hide Full, CellAt, ActAll, RunUsers, Reshape, Enumerates, Apart;
    var t1 := t;
    if prev.primary != next.primary {
      t1 := RunUsers(rp, t, prev.users, prev.databases, [Primary(next.primary)]);
      EveryCell(rp, t, prev, Primary(next.primary), u, d);
      if Covers(prev, u, d) {
        FullPrimary(rp, prev.primary, next.primary, prev.replicas, Find(prev.users, u).value, d, bare);
      }
    }
    ReshapeCell(rp, t1, prev, next, adds, drops, u, d, next.primary, bare);
  }

  /** The user has not been there before, or with another password. */
  predicate Fresh(prev: Cluster, user: User) {
    Find(prev.users, user.username) != Some(user)
  }

  /** The cell after the node changes. */
  ghost function Moved(rp: bool, prev: Cluster, next: Cluster, u: string, d: string, bare: bool): Cell {
    if Covers(prev, u, d) then Full(rp, next.primary, next.replicas, Find(prev.users, u).value, d, bare) else EMPTY
  }

  /** The cell after new users and new passwords. */
  ghost function Joined(rp: bool, prev: Cluster, next: Cluster, u: string, d: string, bare: bool): Cell {
    var user := Find(next.users, u);
    if user.Some? && Fresh(prev, user.value) && d in prev.databases
    then Full(rp, next.primary, next.replicas, user.value, d, false) else Moved(rp, prev, next, u, d, bare)
  }

  lemma SameUser(users: seq<User>, user: User)
    requires Consistent(users) && user in users
    ensures Find(users, user.username) == Some(user)
  {
    FindIs(users, user.username);
    var i :| 0 <= i < |users| && users[i] == user;
  }

  /** Whatever the cell of a fresh user held, the user's pools are now those of the new cluster. */
  lemma JoinCell(rp: bool, t: Table, prev: Cluster, next: Cluster, user: User, d: string, bare: bool)
    requires Consistent(next.users) && user in next.users && Fresh(prev, user)
    requires CellAt(t, user.username, d) == Moved(rp, prev, next, user.username, d, bare)
          || CellAt(t, user.username, d) == Joined(rp, prev, next, user.username, d, bare)
    ensures var t' := if Find(prev.users, user.username).None? then t
                      else RunDbs(rp, t, user, prev.databases, ToRemove(next.replicas));
      CellAt(RunDbs(rp, t', user, prev.databases, ToAdd(next)), user.username, d) ==
      Joined(rp, prev, next, user.username, d, bare)
  {
    hide Full, CellAt, ActAll, RunDbs, ToAdd, ToRemove, Consistent;
    var u := user.username;
    ReplicaNameInjective(u, u);
    SameUser(next.users, user);
    AddIdempotent(rp, user, d, next);
    RemoveIdempotent(rp, user, d, next.replicas);
    FullAdd(rp, next, user, d, false);
    var t' := t;
    if Find(prev.users, u).Some? {
      t' := RunDbs(rp, t, user, prev.databases, ToRemove(next.replicas));
      DbsCell(rp, t, user, prev.databases, ToRemove(next.replicas), u, d);
      FullRemove(rp, next.primary, next.replicas, Find(prev.users, u).value, d, bare, user, next.replicas);
      FullRemove(rp, next.primary, next.replicas, user, d, false, user, next.replicas);
    }
    DbsCell(rp, t', user, prev.databases, ToAdd(next), u, d);
  }

  lemma {:induction false} AddUsersCell(rp: bool, t: Table, prev: Cluster, next: Cluster, users: seq<User>, u: string, d: string, bare: bool, done: bool)
    requires Sane(prev, next, u) && forall i :: 0 <= i < |users| ==> users[i] in next.users
    requires CellAt(t, u, d) == if done then Joined(rp, prev, next, u, d, bare) else Moved(rp, prev, next, u, d, bare)
    ensures CellAt(AddUsers(rp, t, prev, next, users), u, d) ==
            if done || Find(users, u).Some? then Joined(rp, prev, next, u, d, bare) else Moved(rp, prev, next, u, d, bare)
    decreases |users|
  {
    hide CellAt, RunDbs, ToAdd, ToRemove, Moved, Joined, Apart, Consistent;
    if users != [] {
      var user := users[0];
      FindIs(prev.users, user.username);
      var t' := AddUsers(rp, t, prev, next, [user]);
      OneUser(rp, t, prev, next, user);
      AddUserCell(rp, t, prev, next, user, u, d, bare, done);
      assert AddUsers(rp, t, prev, next, users) == AddUsers(rp, t', prev, next, users[1..]);
      AddUsersCell(rp, t', prev, next, users[1..], u, d, bare, done || user.username == u);
    }
  }

  lemma OneUser(rp: bool, t: Table, prev: Cluster, next: Cluster, user: User)
    ensures AddUsers(rp, t, prev, next, [user]) ==
      if !Fresh(prev, user) then t else
      var t' := if Find(prev.users, user.username).None? then t
                else RunDbs(rp, t, user, prev.databases, ToRemove(next.replicas));
      RunDbs(rp, t', user, prev.databases, ToAdd(next))
  {
    hide RunDbs, ToAdd, ToRemove;
    FindIs(prev.users, user.username);
    assert [user][1..] == [];
  }

  lemma AddUserCell(rp: bool, t: Table, prev: Cluster, next: Cluster, user: User, u: string, d: string, bare: bool, done: bool)
    requires Sane(prev, next, u) && user in next.users
    requires CellAt(t, u, d) == if done then Joined(rp, prev, next, u, d, bare) else Moved(rp, prev, next, u, d, bare)
    ensures CellAt(AddUsers(rp, t, prev, next, [user]), u, d) ==
            if done || user.username == u then Joined(rp, prev, next, u, d, bare) else Moved(rp, prev, next, u, d, bare)
  {
    hide CellAt, RunDbs, ToAdd, ToRemove, Moved, AddUsers, Full, Consistent;
    OneUser(rp, t, prev, next, user);
    if user.username == u {
      SameUser(next.users, user);
      if Fresh(prev, user) {
        JoinCell(rp, t, prev, next, user, d, bare);
      }
    } else {
      AddIdempotent(rp, user, d, next);
      RemoveIdempotent(rp, user, d, next.replicas);
      var t' := RunDbs(rp, t, user, prev.databases, ToRemove(next.replicas));
      DbsCell(rp, t, user, prev.databases, ToRemove(next.replicas), u, d);
      DbsCell(rp, t, user, prev.databases, ToAdd(next), u, d);
      DbsCell(rp, t', user, prev.databases, ToAdd(next), u, d);
    }
  }

  /** The cell once the old users are gone. */
  ghost function Settled(rp: bool, prev: Cluster, next: Cluster, u: string, d: string, bare: bool): Cell {
    var user := Find(next.users, u);
    if user.Some? && d in prev.databases
    then Full(rp, next.primary, next.replicas, user.value, d, bare && !Fresh(prev, user.value)) else EMPTY
  }

  lemma {:induction false} DropUsersCell(rp: bool, t: Table, prev: Cluster, next: Cluster, users: seq<User>, u: string, d: string)
    requires AllApart(prev.users, u) && forall i :: 0 <= i < |users| ==> users[i] in prev.users
    requires Find(next.users, u).None? ==>
      CellAt(t, u, d) == EMPTY || exists user, bare :: CellAt(t, u, d) == Full(rp, next.primary, next.replicas, user, d, bare)
    ensures CellAt(DropUsers(rp, t, prev, next, users), u, d) ==
            if Find(next.users, u).None? && Find(users, u).Some? && d in prev.databases then EMPTY else CellAt(t, u, d)
    decreases |users|
  {
    hide CellAt, RunDbs, ToRemove, Full, ActAll;
    if users != [] {
      var user := users[0];
      if Find(next.users, user.username).Some? {
        DropUsersCell(rp, t, prev, next, users[1..], u, d);
      } else {
        var t' := RunDbs(rp, t, user, prev.databases, ToRemove(next.replicas));
        RemoveIdempotent(rp, user, d, next.replicas);
        DbsCell(rp, t, user, prev.databases, ToRemove(next.replicas), u, d);
        if user.username == u && d in prev.databases {
          RemovedCell(rp, CellAt(t, u, d), next, user, d);
        }
        DropUsersCell(rp, t', prev, next, users[1..], u, d);
      }
    }
  }

  lemma RemovedCell(rp: bool, c: Cell, next: Cluster, user: User, d: string)
    requires c == EMPTY || exists w, bare :: c == Full(rp, next.primary, next.replicas, w, d, bare)
    ensures ActAll(rp, c, user, d, ToRemove(next.replicas)) == EMPTY
  {
    hide Full, ActAll, ToRemove;
    FullRemove(rp, next.primary, next.replicas, user, d, false, user, next.replicas);
    if c != EMPTY {
      var w, bare :| c == Full(rp, next.primary, next.replicas, w, d, bare);
      FullRemove(rp, next.primary, next.replicas, w, d, bare, user, next.replicas);
    }
  }

  lemma UsersPhase(rp: bool, t: Table, prev: Cluster, next: Cluster, u: string, d: string, bare: bool)
    requires Sane(prev, next, u) && CellAt(t, u, d) == Moved(rp, prev, next, u, d, bare)
    ensures CellAt(DropUsers(rp, AddUsers(rp, t, prev, next, next.users), prev, next, prev.users), u, d) ==
            Settled(rp, prev, next, u, d, bare)
  {
    hide CellAt, AddUsers, DropUsers, Full, Apart, Consistent;
    AddUsersCell(rp, t, prev, next, next.users, u, d, bare, false);
    FindIs(prev.users, u);
    FindIs(next.users, u);
    DropUsersCell(rp, AddUsers(rp, t, prev, next, next.users), prev, next, prev.users, u, d);
  }

  lemma AddIdempotentAll(rp: bool, users: seq<User>, d: string, c: Cluster)
    ensures AllIdempotent(rp, users, d, ToAdd(c)) && AllIdempotent(rp, users, d, ToRemove(c.replicas))
  {
    hide Idempotent;
    forall i | 0 <= i < |users|
      ensures Idempotent(rp, users[i], d, ToAdd(c)) && Idempotent(rp, users[i], d, ToRemove(c.replicas))
    {
      AddIdempotent(rp, users[i], d, c);
      RemoveIdempotent(rp, users[i], d, c.replicas);
    }
  }

  lemma {:induction false} AddDatabasesCell(rp: bool, t: Table, prev: Cluster, next: Cluster, dbs: seq<string>, u: string, d: string)
    requires AllApart(next.users, u) && Consistent(next.users)
    requires d !in prev.databases && Find(next.users, u).Some? ==>
      || CellAt(t, u, d) == EMPTY
      || CellAt(t, u, d) == Full(rp, next.primary, next.replicas, Find(next.users, u).value, d, false)
    ensures CellAt(AddDatabases(rp, t, prev, next, dbs), u, d) ==
            if d in dbs && d !in prev.databases && Find(next.users, u).Some?
            then Full(rp, next.primary, next.replicas, Find(next.users, u).value, d, false) else CellAt(t, u, d)
    decreases |dbs|
  {
    hide CellAt, RunUsers, ToAdd, Full, ActAll, Apart, Consistent;
    if dbs != [] {
      if dbs[0] in prev.databases {
        AddDatabasesCell(rp, t, prev, next, dbs[1..], u, d);
      } else {
        var t' := RunUsers(rp, t, next.users, [dbs[0]], ToAdd(next));
        AddIdempotentAll(rp, next.users, d, next);
        UsersCell(rp, t, next.users, [dbs[0]], ToAdd(next), u, d);
        if d == dbs[0] && Find(next.users, u).Some? {
          FullAdd(rp, next, Find(next.users, u).value, d, false);
        }
        AddDatabasesCell(rp, t', prev, next, dbs[1..], u, d);
      }
    }
  }

  lemma {:induction false} DropDatabasesCell(rp: bool, t: Table, prev: Cluster, next: Cluster, dbs: seq<string>, u: string, d: string)
    requires AllApart(next.users, u) && Consistent(next.users)
    requires d !in next.databases ==>
      CellAt(t, u, d) == EMPTY || exists user, bare :: CellAt(t, u, d) == Full(rp, next.primary, next.replicas, user, d, bare)
    ensures CellAt(DropDatabases(rp, t, prev, next, dbs), u, d) ==
            if d in dbs && d !in next.databases && Find(next.users, u).Some? then EMPTY else CellAt(t, u, d)
    decreases |dbs|
  {
    hide CellAt, RunUsers, ToRemove, Full, ActAll, Apart, Consistent;
    if dbs != [] {
      if dbs[0] in next.databases {
        DropDatabasesCell(rp, t, prev, next, dbs[1..], u, d);
      } else {
        var t' := RunUsers(rp, t, next.users, [dbs[0]], ToRemove(next.replicas));
        AddIdempotentAll(rp, next.users, d, next);
        UsersCell(rp, t, next.users, [dbs[0]], ToRemove(next.replicas), u, d);
        if d == dbs[0] && Find(next.users, u).Some? {
          RemovedCell(rp, CellAt(t, u, d), next, Find(next.users, u).value, d);
        }
        DropDatabasesCell(rp, t', prev, next, dbs[1..], u, d);
      }
    }
  }

  /** Kept by the update: the same user with the same password on a database of both. */
  predicate Kept(prev: Cluster, next: Cluster, u: string, d: string) {
    Find(prev.users, u).Some? && Find(prev.users, u) == Find(next.users, u) && d in prev.databases && d in next.databases
  }

  /** Whether the cell lacks the read-only pool that building it would give it. */
  predicate BareAfter(prev: Cluster, next: Cluster, u: string, d: string, bare: bool) {
    Kept(prev, next, u, d) && (prev.replicas != map[] || bare)
  }

  /** One update takes the cell of the old cluster to the cell of the new one. */
  lemma UpdatedCell(rp: bool, t: Table, prev: Cluster, next: Cluster, adds: seq<string>, drops: seq<string>, u: string, d: string, bare: bool)
    requires Sane(prev, next, u) && Enumerates(adds, next.replicas) && Enumerates(drops, prev.replicas)
    requires CellAt(t, u, d) == Want(rp, prev, u, d, bare)
    ensures CellAt(Updated(rp, t, prev, next, adds, drops), u, d) == Want(rp, next, u, d, BareAfter(prev, next, u, d, bare))
  {
    hide CellAt, Nodes, AddUsers, DropUsers, AddDatabases, DropDatabases, Full, Apart, Consistent, Enumerates;
    var t2 := Nodes(rp, t, prev, next, adds, drops);
    NodesCell(rp, t, prev, next, adds, drops, u, d, bare);
    UsersPhase(rp, t2, prev, next, u, d, prev.replicas != map[] || bare);
    var t4 := DropUsers(rp, AddUsers(rp, t2, prev, next, next.users), prev, next, prev.users);
    AddDatabasesCell(rp, t4, prev, next, next.databases, u, d);
    DropDatabasesCell(rp, AddDatabases(rp, t4, prev, next, next.databases), prev, next, prev.databases, u, d);
    FindIs(prev.users, u);
    FindIs(next.users, u);
  }

  // ---- what an update leaves alone -------------------------------------------------------

  ghost predicate Unowned(users: seq<User>, k: Key) {
    forall i :: 0 <= i < |users| ==> !Owns(users[i].username, k.1, k)
  }

  /** Not a pool of any user of either cluster on any database of either. */
  ghost predicate Outside(prev: Cluster, next: Cluster, k: Key) {
    k.1 in prev.databases || k.1 in next.databases ==> Unowned(prev.users, k) && Unowned(next.users, k)
  }

  lemma {:induction false} AddReplicasFrame(rp: bool, t: Table, prev: Cluster, next: Cluster, ids: seq<string>, k: Key)
    requires Outside(prev, next, k) && forall id | id in ids :: id in next.replicas
    ensures At(AddReplicas(rp, t, prev, next, ids), k) == At(t, k)
    decreases |ids|
  {
    hide RunUsers, At, Owns;
    if ids != [] {
      var n := next.replicas[ids[0]];
      var t' := RunUsers(rp, t, prev.users, prev.databases, [Replica(ids[0], n)]);
      UsersFrame(rp, t, prev.users, prev.databases, [Replica(ids[0], n)], k);
      AddReplicasFrame(rp, t, prev, next, ids[1..], k);
      AddReplicasFrame(rp, t', prev, next, ids[1..], k);
    }
  }

  lemma {:induction false} DropReplicasFrame(rp: bool, t: Table, prev: Cluster, next: Cluster, ids: seq<string>, k: Key)
    requires Outside(prev, next, k)
    ensures At(DropReplicas(rp, t, prev, next, ids), k) == At(t, k)
    decreases |ids|
  {
    hide RunUsers, At, Owns;
    if ids != [] {
      var t' := RunUsers(rp, t, prev.users, prev.databases, [NoReplica(ids[0])]);
      UsersFrame(rp, t, prev.users, prev.databases, [NoReplica(ids[0])], k);
      DropReplicasFrame(rp, t, prev, next, ids[1..], k);
      DropReplicasFrame(rp, t', prev, next, ids[1..], k);
    }
  }

  lemma NodesFrame(rp: bool, t: Table, prev: Cluster, next: Cluster, adds: seq<string>, drops: seq<string>, k: Key)
    requires Outside(prev, next, k) && Enumerates(adds, next.replicas)
    ensures At(Nodes(rp, t, prev, next, adds, drops), k) == At(t, k)
  {
    hide RunUsers, AddReplicas, DropReplicas, At, Owns;
    var t1 := t;
    if prev.primary != next.primary {
      t1 := RunUsers(rp, t, prev.users, prev.databases, [Primary(next.primary)]);
      UsersFrame(rp, t, prev.users, prev.databases, [Primary(next.primary)], k);
    }
    UsersFrame(rp, t1, prev.users, prev.databases, [NoReplicas(prev.replicas.Keys)], k);
    UsersFrame(rp, t1, prev.users, prev.databases, [Replicas(next.replicas)], k);
    AddReplicasFrame(rp, t1, prev, next, adds, k);
    DropReplicasFrame(rp, AddReplicas(rp, t1, prev, next, adds), prev, next, drops, k);
  }

  lemma {:induction false} AddUsersFrame(rp: bool, t: Table, prev: Cluster, next: Cluster, users: seq<User>, k: Key)
    requires k.1 in prev.databases ==> Unowned(users, k)
    ensures At(AddUsers(rp, t, prev, next, users), k) == At(t, k)
    decreases |users|
  {
    hide RunDbs, At, Owns, ToAdd, ToRemove;
    if users != [] {
      var user := users[0];
      var t' := AddUsers(rp, t, prev, next, [user]);
      OneUser(rp, t, prev, next, user);
      FindIs(prev.users, user.username);
      var r := RunDbs(rp, t, user, prev.databases, ToRemove(next.replicas));
      DbsFrame(rp, t, user, prev.databases, ToRemove(next.replicas), k);
      DbsFrame(rp, t, user, prev.databases, ToAdd(next), k);
      DbsFrame(rp, r, user, prev.databases, ToAdd(next), k);
      assert AddUsers(rp, t, prev, next, users) == AddUsers(rp, t', prev, next, users[1..]);
      AddUsersFrame(rp, t', prev, next, users[1..], k);
    }
  }

  lemma {:induction false} DropUsersFrame(rp: bool, t: Table, prev: Cluster, next: Cluster, users: seq<User>, k: Key)
    requires k.1 in prev.databases ==> Unowned(users, k)
    ensures At(DropUsers(rp, t, prev, next, users), k) == At(t, k)
    decreases |users|
  {
    hide RunDbs, At, Owns, ToRemove;
    if users != [] {
      DbsFrame(rp, t, users[0], prev.databases, ToRemove(next.replicas), k);
      DropUsersFrame(rp, t, prev, next, users[1..], k);
      DropUsersFrame(rp, RunDbs(rp, t, users[0], prev.databases, ToRemove(next.replicas)), prev, next, users[1..], k);
    }
  }

  lemma {:induction false} AddDatabasesFrame(rp: bool, t: Table, prev: Cluster, next: Cluster, dbs: seq<string>, k: Key)
    requires k.1 in dbs ==> Unowned(next.users, k)
    ensures At(AddDatabases(rp, t, prev, next, dbs), k) == At(t, k)
    decreases |dbs|
  {
    hide RunUsers, At, Owns, ToAdd;
    if dbs != [] {
      UsersFrame(rp, t, next.users, [dbs[0]], ToAdd(next), k);
      AddDatabasesFrame(rp, t, prev, next, dbs[1..], k);
      AddDatabasesFrame(rp, RunUsers(rp, t, next.users, [dbs[0]], ToAdd(next)), prev, next, dbs[1..], k);
    }
  }

  lemma {:induction false} DropDatabasesFrame(rp: bool, t: Table, prev: Cluster, next: Cluster, dbs: seq<string>, k: Key)
    requires k.1 in dbs ==> Unowned(next.users, k)
    ensures At(DropDatabases(rp, t, prev, next, dbs), k) == At(t, k)
    decreases |dbs|
  {
    hide RunUsers, At, Owns, ToRemove;
    if dbs != [] {
      UsersFrame(rp, t, next.users, [dbs[0]], ToRemove(next.replicas), k);
      DropDatabasesFrame(rp, t, prev, next, dbs[1..], k);
      DropDatabasesFrame(rp, RunUsers(rp, t, next.users, [dbs[0]], ToRemove(next.replicas)), prev, next, dbs[1..], k);
    }
  }

  /** An update touches no pool outside the users and databases of the two clusters. */
  lemma UpdatedFrame(rp: bool, t: Table, prev: Cluster, next: Cluster, adds: seq<string>, drops: seq<string>, k: Key)
    requires Outside(prev, next, k) && Enumerates(adds, next.replicas)
    ensures At(Updated(rp, t, prev, next, adds, drops), k) == At(t, k)
  {
    hide At, Nodes, AddUsers, DropUsers, AddDatabases, DropDatabases, Owns, Enumerates;
    var t2 := Nodes(rp, t, prev, next, adds, drops);
    var t3 := AddUsers(rp, t2, prev, next, next.users);
    var t4 := DropUsers(rp, t3, prev, next, prev.users);
    var t5 := AddDatabases(rp, t4, prev, next, next.databases);
    NodesFrame(rp, t, prev, next, adds, drops, k);
    AddUsersFrame(rp, t2, prev, next, next.users, k);
    DropUsersFrame(rp, t3, prev, next, prev.users, k);
    AddDatabasesFrame(rp, t4, prev, next, next.databases, k);
    DropDatabasesFrame(rp, t5, prev, next, prev.databases, k);
  }

  // ---- incremental is rebuild ------------------------------------------------------------

  /** Building a cluster where nothing is yet gives every cell what it should hold. */
  lemma AddedCell(rp: bool, t: Table, c: Cluster, u: string, d: string)
    requires Sane(c, c, u) && (Covers(c, u, d) ==> CellAt(t, u, d) == EMPTY)
    ensures CellAt(Added(rp, t, c), u, d) == if Covers(c, u, d) then Want(rp, c, u, d, false) else CellAt(t, u, d)
  {
    hide CellAt, RunUsers, ToAdd, Full, ActAll, Apart, Consistent;
    AddIdempotentAll(rp, c.users, d, c);
    UsersCell(rp, t, c.users, c.databases, ToAdd(c), u, d);
    if Covers(c, u, d) {
      FullAdd(rp, c, Find(c.users, u).value, d, false);
    }
  }

  /** All the names of both clusters meet the premises. */
  ghost predicate SaneNames(prev: Cluster, next: Cluster) {
    forall user | user in prev.users || user in next.users :: Sane(prev, next, user.username)
  }

  /** A key is outside, or of a cell of one of the users. */
  lemma KeyOfCell(prev: Cluster, next: Cluster, k: Key) returns (user: User)
    requires !Outside(prev, next, k)
    ensures (user in prev.users || user in next.users) && Owns(user.username, k.1, k)
  {
    if !Unowned(prev.users, k) {
      var i :| 0 <= i < |prev.users| && Owns(prev.users[i].username, k.1, k);
      user := prev.users[i];
    } else {
      var i :| 0 <= i < |next.users| && Owns(next.users[i].username, k.1, k);
      user := next.users[i];
    }
  }

  /** Where building differs from updating: a kept cell that lost its last replica. */
  predicate Loses(rp: bool, prev: Cluster, next: Cluster) {
    !rp && prev.replicas != map[] && next.replicas == map[]
  }

  lemma RebuiltCell(rp: bool, prev: Cluster, next: Cluster, adds: seq<string>, drops: seq<string>, u: string, d: string)
    requires Sane(prev, next, u) && Enumerates(adds, next.replicas) && Enumerates(drops, prev.replicas)
    ensures CellAt(Updated(rp, Added(rp, map[], prev), prev, next, adds, drops), u, d) ==
            Want(rp, next, u, d, Kept(prev, next, u, d) && prev.replicas != map[])
    ensures CellAt(Added(rp, map[], next), u, d) == Want(rp, next, u, d, false)
  {
    hide Updated, Added, Full, Apart, Consistent, Enumerates;
    AddedCell(rp, map[], prev, u, d);
    AddedCell(rp, map[], next, u, d);
    UpdatedCell(rp, Added(rp, map[], prev), prev, next, adds, drops, u, d, false);
  }

  /**
   From the table built for a cluster, the update gives exactly the table built for the new one if
   and only if it does not take the last replica, in pools kept by someone, of a factory whose
   pools cannot hold replicas themselves: there, building leaves an empty read-only pool.
   */
  lemma IncrementalIsRebuild(rp: bool, prev: Cluster, next: Cluster, adds: seq<string>, drops: seq<string>)
    requires SaneNames(prev, next) && Enumerates(adds, next.replicas) && Enumerates(drops, prev.replicas)
    ensures Updated(rp, Added(rp, map[], prev), prev, next, adds, drops) == Added(rp, map[], next) <==>
            !(Loses(rp, prev, next) && exists u, d :: Kept(prev, next, u, d))
  {
    hide Updated, Added, Apart, Consistent, Enumerates, Recipes;
    var t, b := Updated(rp, Added(rp, map[], prev), prev, next, adds, drops), Added(rp, map[], next);
    if Loses(rp, prev, next) && exists u, d :: Kept(prev, next, u, d) {
      var u, d :| Kept(prev, next, u, d);
      FindIs(prev.users, u);
      RebuiltCell(rp, prev, next, adds, drops, u, d);
      assert CellAt(t, u, d).ro != CellAt(b, u, d).ro;
    } else {
      forall k
        ensures At(t, k) == At(b, k)
      {
        SameKey(rp, prev, next, adds, drops, k);
      }
      Extensional(t, b);
    }
  }

  lemma SameKey(rp: bool, prev: Cluster, next: Cluster, adds: seq<string>, drops: seq<string>, k: Key)
    requires SaneNames(prev, next) && Enumerates(adds, next.replicas) && Enumerates(drops, prev.replicas)
    requires !(Loses(rp, prev, next) && exists u, d :: Kept(prev, next, u, d))
    ensures At(Updated(rp, Added(rp, map[], prev), prev, next, adds, drops), k) == At(Added(rp, map[], next), k)
  {
    hide Updated, Apart, Consistent, Enumerates, Recipes, RunUsers, Owns, ToAdd;
    if Outside(prev, next, k) {
      UpdatedFrame(rp, Added(rp, map[], prev), prev, next, adds, drops, k);
      UsersFrame(rp, map[], prev.users, prev.databases, ToAdd(prev), k);
      UsersFrame(rp, map[], next.users, next.databases, ToAdd(next), k);
    } else {
      var user := KeyOfCell(prev, next, k);
      var u := user.username;
      RebuiltCell(rp, prev, next, adds, drops, u, k.1);
      OwnedIsInCell(u, k);
    }
  }

  lemma OwnedIsInCell(u: string, k: Key)
    requires Owns(u, k.1, k)
    ensures k == (u, k.1) || k == (ReplicaName(u), k.1)
  {
  }

  lemma Extensional(t: Table, b: Table)
    requires forall k :: At(t, k) == At(b, k)
    ensures t == b
  {
    assert forall k :: (k in t <==> At(t, k).Some?) && (k in b <==> At(b, k).Some?);
    assert forall k :: k in t ==> t[k] == At(t, k).value;
    assert forall k :: k in b ==> b[k] == At(b, k).value;
  }
}
