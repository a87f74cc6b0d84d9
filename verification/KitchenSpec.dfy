/**
 Connection accounting of the kitchen (lib/gat/handlers/pool/spool/kitchen/chef.go with
 lib/gat/handlers/pool/recipe.go) as a state machine. Learn dials without the lock and Cook releases
 it while it dials, so both are several events, between which anything else may happen.
 */
module KitchenSpec {
  import opened Collections

  type RecipeId = nat
  type ConnId = nat

  /** A recipe: `count` is what it believes to have open, `dialling` how much of that is not registered yet. */
  datatype Recipe = Recipe(min: nat, max: nat, count: int, conns: set<ConnId>, dialling: nat)

  datatype State = State(
    recipes: map<RecipeId, Recipe>,
    byName: map<string, RecipeId>,
    byConn: map<ConnId, RecipeId>,
    order: seq<RecipeId>,
    seen: set<ConnId>)

  datatype Event =
    | Begin(recipe: RecipeId, min: nat, max: nat)                                           // Learn allocates
    | Abandon(recipe: RecipeId, n: nat)                                                     // Learn frees the rest
    | Register(name: string, recipe: RecipeId, added: seq<ConnId>, gone: seq<ConnId>)       // Learn under the lock
    | Forget(name: string, gone: seq<ConnId>)
    | Order(recipe: RecipeId)                                                               // Cook before its dial
    | Serve(recipe: RecipeId, conn: ConnId)                                                 // Cook after its dial
    | Spoil(recipe: RecipeId)                                                               // Cook after a failed dial
    | Burn(conn: ConnId)
    | Ignite(conn: ConnId)
    | Close(gone: seq<ConnId>)

  // ---- the recipe's counter --------------------------------------------------------------

  predicate MayAllocate(r: Recipe) {
    r.max == 0 || r.count < r.max
  }

  predicate MayFree(r: Recipe) {
    r.count > r.min
  }

  function DropConn(s: State, r: RecipeId, conn: ConnId): State
    requires r in s.recipes
  {
    var rec := s.recipes[r];
    s.(recipes := s.recipes[r := rec.(count := rec.count - 1, conns := rec.conns - {conn})], byConn := s.byConn - {conn})
  }

  function AddConn(s: State, r: RecipeId, conn: ConnId): State
    requires r in s.recipes
  {
    var rec := s.recipes[r];
    s.(recipes := s.recipes[r := rec.(conns := rec.conns + {conn}, dialling := if rec.dialling > 0 then rec.dialling - 1 else 0)],
       byConn := s.byConn[conn := r], seen := s.seen + {conn})
  }

  /** forget's loop over the connections of one recipe. */
  function DropAll(s: State, r: RecipeId, gone: seq<ConnId>): State
    requires r in s.recipes
    decreases |gone|
  {
    if gone == [] then s else DropAll(DropConn(s, r, gone[0]), r, gone[1..])
  }

  function AddAll(s: State, r: RecipeId, added: seq<ConnId>): State
    requires r in s.recipes
    decreases |added|
  {
    if added == [] then s else AddAll(AddConn(s, r, added[0]), r, added[1..])
  }

  /** Close's loop over all connections. */
  function CloseAll(s: State, gone: seq<ConnId>): State
    decreases |gone|
  {
    if gone == [] then s
    else if gone[0] in s.byConn && s.byConn[gone[0]] in s.recipes then CloseAll(DropConn(s, s.byConn[gone[0]], gone[0]), gone[1..])
    else CloseAll(s, gone[1..])
  }

  function Forgotten(s: State, name: string, gone: seq<ConnId>): State {
    if name !in s.byName || s.byName[name] !in s.recipes then s else
    var r := s.byName[name];
    var t := DropAll(s.(byName := s.byName - {name}), r, gone);
    t.(order := Without(t.order, r))
  }

  function Elems(conns: seq<ConnId>): set<ConnId> {
    set c | c in conns
  }

  // ---- steps -----------------------------------------------------------------------------

  predicate Fresh(conns: seq<ConnId>, s: State) {
    (forall c | c in conns :: c !in s.seen) && Distinct(conns)
  }

  /** The connections that forgetting the name will drop, in some order. */
  predicate GoneFor(s: State, name: string, gone: seq<ConnId>) {
    name in s.byName && s.byName[name] in s.recipes ==> Walks(gone, s.recipes[s.byName[name]].conns)
  }

  /** The premises: recipes are fresh when they are learnt, and no two dials give the same connection. */
  predicate Allowed(s: State, e: Event) {
    match e
    case Begin(r, min, max) => r !in s.recipes && (max == 0 || min <= max)
    case Abandon(r, n) => r in s.recipes && n <= s.recipes[r].dialling
    case Register(name, r, added, gone) =>
      && r in s.recipes && |added| == s.recipes[r].dialling && Fresh(added, s) && GoneFor(s, name, gone)
      && (forall other | other in s.byName :: s.byName[other] != r)
    case Forget(name, gone) => GoneFor(s, name, gone)
    case Order(r) => r in s.recipes
    case Serve(r, conn) => r in s.recipes && s.recipes[r].dialling > 0 && conn !in s.seen
    case Spoil(r) => r in s.recipes && s.recipes[r].dialling > 0
    case Burn(_) => true
    case Ignite(_) => true
    case Close(gone) => Walks(gone, s.byConn.Keys)
  }

  function Next(s: State, e: Event): State
    requires Allowed(s, e)
  {
    match e
    case Begin(r, min, max) => s.(recipes := s.recipes[r := Recipe(min, max, min, {}, min)])
    case Abandon(r, n) =>
      s.(recipes := s.recipes[r := s.recipes[r].(count := s.recipes[r].count - n, dialling := s.recipes[r].dialling - n)])
    case Register(name, r, added, gone) =>
      var t := Forgotten(s, name, gone);
      if r !in t.recipes then t else
      var u := AddAll(t.(byName := t.byName[name := r]), r, added);
      u.(order := u.order + [r])
    case Forget(name, gone) => Forgotten(s, name, gone)
    case Order(r) =>
      var rec := s.recipes[r];
      if MayAllocate(rec) then s.(recipes := s.recipes[r := rec.(count := rec.count + 1, dialling := rec.dialling + 1)]) else s
    case Serve(r, conn) => AddConn(s, r, conn)
    case Spoil(r) =>
      s.(recipes := s.recipes[r := s.recipes[r].(count := s.recipes[r].count - 1, dialling := s.recipes[r].dialling - 1)])
    case Burn(conn) => if conn in s.byConn && s.byConn[conn] in s.recipes then DropConn(s, s.byConn[conn], conn) else s
    case Ignite(conn) =>
      if conn in s.byConn && s.byConn[conn] in s.recipes && MayFree(s.recipes[s.byConn[conn]])
      then DropConn(s, s.byConn[conn], conn) else s
    case Close(gone) => CloseAll(s.(byName := map[], order := []), gone)
  }

  // ---- the invariant ---------------------------------------------------------------------

  /** What a recipe counts is what is registered with it and what is being dialled, within its limit. */
  predicate Counted(r: Recipe) {
    && r.count == |r.conns| + r.dialling
    && (r.max != 0 ==> r.count <= r.max && r.min <= r.max)
  }

  /** The two indexes of connections are inverse. */
  ghost predicate Books(recipes: map<RecipeId, Recipe>, byConn: map<ConnId, RecipeId>, seen: set<ConnId>) {
    && (forall r | r in recipes :: Counted(recipes[r]))
    && (forall c | c in byConn :: byConn[c] in recipes && c in recipes[byConn[c]].conns && c in seen)
    && (forall r, c | r in recipes && c in recipes[r].conns :: c in byConn && byConn[c] == r)
  }

  ghost predicate Known(names: map<string, RecipeId>, order: seq<RecipeId>, recipes: set<RecipeId>) {
    && (forall name | name in names :: names[name] in recipes)
    && (forall i :: 0 <= i < |order| ==> order[i] in recipes)
  }

  ghost predicate Named(names: map<string, RecipeId>, r: RecipeId) {
    exists name :: name in names && names[name] == r
  }

  /** The recipes to choose from are those that have a name, each listed once and under one name. */
  ghost predicate Listed(names: map<string, RecipeId>, order: seq<RecipeId>) {
    && Distinct(order)
    && (forall a, b | a in names && b in names && names[a] == names[b] :: a == b)
    && (forall r | r in order :: Named(names, r))
    && (forall name | name in names :: names[name] in order)
  }

  ghost predicate Tallied(s: State) {
    Books(s.recipes, s.byConn, s.seen) && Known(s.byName, s.order, s.recipes.Keys)
  }

  ghost predicate Inv(s: State) {
    Tallied(s) && Listed(s.byName, s.order)
  }

  lemma Unlisted(names: map<string, RecipeId>, order: seq<RecipeId>, name: string)
    requires Listed(names, order) && name in names
    ensures Listed(names - {name}, Without(order, names[name]))
  {
    var r := names[name];
    WithoutIs(order, r);
    forall q | q in Without(order, r)
      ensures Named(names - {name}, q)
    {
      assert Named(names, q);
      var other :| other in names && names[other] == q;
      assert other in names - {name} && (names - {name})[other] == q;
    }
  }

  lemma OneListed(names: map<string, RecipeId>, order: seq<RecipeId>, name: string, r: RecipeId)
    requires Listed(names, order) && name !in names && forall other | other in names :: names[other] != r
    ensures Listed(names[name := r], order + [r])
  {
    forall q | q in order + [r]
      ensures Named(names[name := r], q)
    {
      if q == r {
        assert names[name := r][name] == r;
      } else {
        assert q in order && Named(names, q);
        var other :| other in names && names[other] == q;
        assert names[name := r][other] == q;
      }
    }
    assert r in order ==> Named(names, r);
  }

  lemma DropConnKeeps(s: State, r: RecipeId, conn: ConnId)
    requires Tallied(s) && r in s.recipes && conn in s.recipes[r].conns
    ensures Tallied(DropConn(s, r, conn))
  {
    var t := DropConn(s, r, conn);
    assert Counted(s.recipes[r]) && Counted(t.recipes[r]);
    assert t.recipes.Keys == s.recipes.Keys;
    hide Counted;
    forall c | c in t.byConn
      ensures t.byConn[c] in t.recipes && c in t.recipes[t.byConn[c]].conns && c in t.seen
    {
      assert c in s.byConn && c != conn && t.byConn[c] == s.byConn[c];
    }
    forall q, c | q in t.recipes && c in t.recipes[q].conns
      ensures c in t.byConn && t.byConn[c] == q
    {
      assert c in s.recipes[q].conns;
      assert s.byConn[c] == q && s.byConn[conn] == r;
    }
  }

  lemma AddConnKeeps(s: State, r: RecipeId, conn: ConnId)
    requires Tallied(s) && r in s.recipes && s.recipes[r].dialling > 0 && conn !in s.seen
    ensures Tallied(AddConn(s, r, conn))
  {
    var t := AddConn(s, r, conn);
    assert conn !in s.byConn;
    assert conn !in s.recipes[r].conns;
    assert Counted(s.recipes[r]) && Counted(t.recipes[r]);
    assert t.recipes.Keys == s.recipes.Keys;
    hide Counted;
    forall c | c in t.byConn
      ensures t.byConn[c] in t.recipes && c in t.recipes[t.byConn[c]].conns && c in t.seen
    {
      if c != conn {
        assert c in s.byConn && t.byConn[c] == s.byConn[c];
      }
    }
    forall q, c | q in t.recipes && c in t.recipes[q].conns
      ensures c in t.byConn && t.byConn[c] == q
    {
      assert c in s.recipes[q].conns || (c == conn && q == r);
    }
  }

  /** The recipes are the same ones, with the same limits; the named one has these connections and dials. */
  predicate Only(s: State, t: State, r: RecipeId) {
    && r in t.recipes && t.recipes.Keys == s.recipes.Keys && t.byName == s.byName && t.order == s.order
    && (forall q | q in s.recipes && q != r :: t.recipes[q] == s.recipes[q])
  }

  lemma {:induction false} DropAllKeeps(s: State, r: RecipeId, gone: seq<ConnId>)
    requires Tallied(s) && r in s.recipes && (forall c | c in gone :: c in s.recipes[r].conns)
    requires Distinct(gone)
    ensures var t := DropAll(s, r, gone);
      && Tallied(t) && Only(s, t, r) && t.seen == s.seen
      && t.recipes[r].dialling == s.recipes[r].dialling
      && t.recipes[r].conns == s.recipes[r].conns - Elems(gone)
    decreases |gone|
  {
    hide Tallied, Only;
    if gone != [] {
      var t := DropConn(s, r, gone[0]);
      DropConnKeeps(s, r, gone[0]);
      assert Only(s, t, r) by {
        OnlyOne(s, t, r);
      }
      DropAllKeeps(t, r, gone[1..]);
      OnlyTwice(s, t, DropAll(t, r, gone[1..]), r);
      assert Elems(gone) == {gone[0]} + Elems(gone[1..]);
    } else {
      OnlyOne(s, s, r);
      assert s.recipes[r].conns - Elems(gone) == s.recipes[r].conns;
    }
  }

  lemma OnlyOne(s: State, t: State, r: RecipeId)
    requires r in s.recipes && r in t.recipes && t.byName == s.byName && t.order == s.order
    requires t.recipes == s.recipes[r := t.recipes[r]]
    ensures Only(s, t, r)
  {
  }

  lemma OnlyTwice(s: State, t: State, u: State, r: RecipeId)
    requires Only(s, t, r) && Only(t, u, r)
    ensures Only(s, u, r)
  {
  }

  lemma FreshRest(s: State, t: State, added: seq<ConnId>)
    requires Fresh(added, s) && added != [] && t.seen == s.seen + {added[0]}
    ensures Fresh(added[1..], t) && added[0] !in s.seen
  {
  }

  lemma {:induction false} AddAllKeeps(s: State, r: RecipeId, added: seq<ConnId>)
    requires Tallied(s) && r in s.recipes && |added| <= s.recipes[r].dialling && Fresh(added, s)
    ensures var t := AddAll(s, r, added);
      && Tallied(t) && Only(s, t, r)
      && t.recipes[r].dialling == s.recipes[r].dialling - |added|
      && t.recipes[r].conns == s.recipes[r].conns + Elems(added)
    decreases |added|
  {
    hide Tallied, Only;
    if added != [] {
      var t := AddConn(s, r, added[0]);
      AddConnKeeps(s, r, added[0]);
      OnlyOne(s, t, r);
      FreshRest(s, t, added);
      hide Fresh;
      AddAllKeeps(t, r, added[1..]);
      OnlyTwice(s, t, AddAll(t, r, added[1..]), r);
      assert Elems(added) == {added[0]} + Elems(added[1..]);
    } else {
      OnlyOne(s, s, r);
      assert s.recipes[r].conns + Elems(added) == s.recipes[r].conns;
    }
  }

  lemma {:induction false} CloseAllKeeps(s: State, gone: seq<ConnId>)
    requires Tallied(s)
    ensures var t := CloseAll(s, gone);
      && Tallied(t) && t.byConn == s.byConn - Elems(gone) && t.byName == s.byName && t.order == s.order
      && t.recipes.Keys == s.recipes.Keys
      && (forall r | r in s.recipes :: t.recipes[r].dialling == s.recipes[r].dialling)
    decreases |gone|
  {
    hide Tallied;
    if gone != [] {
      var c := gone[0];
      InvConn(s, c);
      if c in s.byConn {
        DropConnKeeps(s, s.byConn[c], c);
        CloseAllKeeps(DropConn(s, s.byConn[c], c), gone[1..]);
      } else {
        CloseAllKeeps(s, gone[1..]);
      }
      assert Elems(gone) == {gone[0]} + Elems(gone[1..]);
    } else {
      assert s.byConn - Elems(gone) == s.byConn;
    }
  }

  lemma InvConn(s: State, c: ConnId)
    requires Tallied(s)
    ensures c in s.byConn ==> s.byConn[c] in s.recipes && c in s.recipes[s.byConn[c]].conns
  {
  }

  lemma AllElems(conns: seq<ConnId>, s: set<ConnId>)
    requires Walks(conns, s)
    ensures Elems(conns) == s && s - Elems(conns) == {}
  {
  }

  lemma AllCounted(s: State, r: RecipeId)
    requires Tallied(s) && r in s.recipes
    ensures Counted(s.recipes[r])
  {
  }

  /** Forgetting closes every connection of the recipe; what it still counts is being dialled. */
  lemma ForgetCloses(s: State, name: string, gone: seq<ConnId>)
    requires Inv(s) && GoneFor(s, name, gone)
    ensures var t := Forgotten(s, name, gone);
      && Inv(t) && t.recipes.Keys == s.recipes.Keys && name !in t.byName && t.seen == s.seen
      && (forall other | other in t.byName :: other in s.byName && t.byName[other] == s.byName[other])
      && (forall q | q in s.recipes && (name !in s.byName || q != s.byName[name]) :: t.recipes[q] == s.recipes[q])
      && (name in s.byName ==> var rec := t.recipes[s.byName[name]]; rec.conns == {} && rec.count == rec.dialling)
  {
    assert name in s.byName ==> s.byName[name] in s.recipes;
    if name in s.byName {
      var r := s.byName[name];
      var s' := s.(byName := s.byName - {name});
      hide DropAll, Books, Elems;
      DropAllKeeps(s', r, gone);
      Unlisted(s.byName, s.order, name);
      hide Listed;
      WithoutIs(s.order, r);
      AllElems(gone, s.recipes[r].conns);
      AllCounted(DropAll(s', r, gone), r);
      var t := Forgotten(s, name, gone);
      forall i | 0 <= i < |t.order|
        ensures t.order[i] in t.recipes
      {
        assert t.order[i] in s.order;
      }
    }
  }

  lemma RegisterKeeps(s: State, name: string, r: RecipeId, added: seq<ConnId>, gone: seq<ConnId>)
    requires Inv(s) && Allowed(s, Register(name, r, added, gone))
    ensures Inv(Next(s, Register(name, r, added, gone)))
  {
    hide Forgotten, AddAll, Books, GoneFor;
    ForgetCloses(s, name, gone);
    var t := Forgotten(s, name, gone);
    var u := t.(byName := t.byName[name := r]);
    OneListed(t.byName, t.order, name, r);
    hide Listed;
    AddAllKeeps(u, r, added);
  }

  lemma NextKeeps(s: State, e: Event)
    requires Inv(s) && Allowed(s, e)
    ensures Inv(Next(s, e))
  {
    match e
    case Register(name, r, added, gone) => RegisterKeeps(s, name, r, added, gone);
    case Forget(name, gone) => ForgetCloses(s, name, gone);
    case Serve(r, conn) => AddConnKeeps(s, r, conn);
    case Burn(conn) =>
      if conn in s.byConn {
        DropConnKeeps(s, s.byConn[conn], conn);
      }
    case Ignite(conn) =>
      if conn in s.byConn {
        DropConnKeeps(s, s.byConn[conn], conn);
      }
    case Close(gone) =>
      assert Tallied(s.(byName := map[], order := []));
      CloseAllKeeps(s.(byName := map[], order := []), gone);
    case Begin(r, min, max) => CounterKeeps(s, Next(s, e), r);
    case Abandon(r, n) => CounterKeeps(s, Next(s, e), r);
    case Order(r) => CounterKeeps(s, Next(s, e), r);
    case Spoil(r) => CounterKeeps(s, Next(s, e), r);
  }

  /** Only the counter of one recipe changed. */
  lemma CounterKeeps(s: State, t: State, r: RecipeId)
    requires Tallied(s) && t == s.(recipes := t.recipes) && t.recipes.Keys == s.recipes.Keys + {r} && Counted(t.recipes[r])
    requires forall q | q in s.recipes && q != r :: t.recipes[q] == s.recipes[q]
    requires t.recipes[r].conns == if r in s.recipes then s.recipes[r].conns else {}
    ensures Tallied(t)
  {
    forall q, c | q in t.recipes && c in t.recipes[q].conns
      ensures c in t.byConn && t.byConn[c] == q
    {
      assert q in s.recipes && c in s.recipes[q].conns;
    }
    hide Counted;
  }

  // ---- runs ------------------------------------------------------------------------------

  ghost predicate Run(s: State, es: seq<Event>)
    decreases |es|
  {
    es == [] || (Allowed(s, es[0]) && Run(Next(s, es[0]), es[1..]))
  }

  ghost function After(s: State, es: seq<Event>): State
    requires Run(s, es)
    decreases |es|
  {
    if es == [] then s else After(Next(s, es[0]), es[1..])
  }

  function Init(): State {
    State(map[], map[], map[], [], {})
  }

  lemma {:induction false} RunKeeps(s: State, es: seq<Event>)
    requires Inv(s) && Run(s, es)
    ensures Inv(After(s, es))
    decreases |es|
  {
    hide Inv;
    if es != [] {
      NextKeeps(s, es[0]);
      RunKeeps(Next(s, es[0]), es[1..]);
    }
  }

  /** At every point of every interleaving the counters are exact and within their limits. */
  lemma AlwaysCounted(es: seq<Event>, r: RecipeId)
    requires Run(Init(), es) && r in After(Init(), es).recipes
    ensures var rec := After(Init(), es).recipes[r];
      rec.count == |rec.conns| + rec.dialling && (rec.max != 0 ==> rec.count <= rec.max)
  {
    RunKeeps(Init(), es);
  }

  /** At every point of every interleaving the two indexes of connections are inverse. */
  lemma AlwaysInverse(es: seq<Event>, r: RecipeId, c: ConnId)
    requires Run(Init(), es)
    ensures var s := After(Init(), es);
      (c in s.byConn && s.byConn[c] == r) <==> (r in s.recipes && c in s.recipes[r].conns)
  {
    RunKeeps(Init(), es);
  }

  /** At every point of every interleaving the recipes to choose from are those with a name, each once. */
  lemma AlwaysListed(es: seq<Event>, r: RecipeId)
    requires Run(Init(), es)
    ensures var s := After(Init(), es);
      (r in s.order <==> exists name :: name in s.byName && s.byName[name] == r) && Distinct(s.order)
  {
    RunKeeps(Init(), es);
    var s := After(Init(), es);
    assert r in s.order ==> Named(s.byName, r);
  }

  /** Learning a recipe gives it the name and exactly its new connections; the old one of that name has none left. */
  lemma RegisterGives(s: State, name: string, r: RecipeId, added: seq<ConnId>, gone: seq<ConnId>)
    requires Inv(s) && Allowed(s, Register(name, r, added, gone))
    ensures var t := Next(s, Register(name, r, added, gone));
      && name in t.byName && t.byName[name] == r && t.recipes.Keys == s.recipes.Keys && r in t.recipes
      && t.recipes[r].conns == s.recipes[r].conns + Elems(added) && t.recipes[r].dialling == 0
      && (name in s.byName ==> t.recipes[s.byName[name]].conns == {})
      && (forall c | c in added :: c in t.byConn && t.byConn[c] == r)
  {
    assert name in s.byName ==> s.byName[name] in s.recipes;
    hide Inv, Forgotten, AddAll, GoneFor;
    RegisterKeeps(s, name, r, added, gone);
    ForgetCloses(s, name, gone);
    var f := Forgotten(s, name, gone);
    var u := f.(byName := f.byName[name := r]);
    Renamed(f, name, r);
    AddAllKeeps(u, r, added);
    hide Tallied, Fresh;
    var t := Next(s, Register(name, r, added, gone));
    forall c | c in added
      ensures c in t.byConn && t.byConn[c] == r
    {
      assert c in t.recipes[r].conns;
      ConnKnown(t, r, c);
    }
  }

  lemma Renamed(s: State, name: string, r: RecipeId)
    requires Inv(s) && r in s.recipes
    ensures Tallied(s.(byName := s.byName[name := r]))
  {
    hide Books;
  }

  lemma ConnKnown(s: State, r: RecipeId, c: ConnId)
    requires Inv(s) && r in s.recipes && c in s.recipes[r].conns
    ensures c in s.byConn && s.byConn[c] == r
  {
  }

  /**
   Cook: a recipe counts one more exactly if that leaves it within its maximum; a dial that succeeds
   is then registered with it, and one that fails is uncounted.
   */
  lemma CookCounts(s: State, r: RecipeId, conn: ConnId)
    requires Inv(s) && r in s.recipes
    ensures var t := Next(s, Order(r));
      if s.recipes[r].max != 0 && s.recipes[r].count + 1 > s.recipes[r].max then t == s
      else
        && r in t.recipes && t.recipes[r].count == s.recipes[r].count + 1 && t.recipes[r].dialling > 0
        && Next(t, Spoil(r)).recipes == s.recipes
        && (conn !in t.seen ==>
              var u := Next(t, Serve(r, conn));
              && conn in u.byConn && u.byConn[conn] == r && u.recipes[r].conns == s.recipes[r].conns + {conn}
              && u.recipes[r].count == s.recipes[r].count + 1 && u.recipes[r].dialling == s.recipes[r].dialling)
  {
    var t := Next(s, Order(r));
    assert Counted(s.recipes[r]);
    if r in t.recipes && t.recipes[r].dialling > 0 && MayAllocate(s.recipes[r]) {
      var x := Next(t, Spoil(r)).recipes;
      assert x[r] == s.recipes[r] && x.Keys == s.recipes.Keys;
    }
  }

  /** Ignite takes a connection exactly where the recipe keeps its minimum without it, and Burn always. */
  lemma IgniteKeepsMinimum(s: State, conn: ConnId)
    requires Inv(s)
    ensures conn in s.byConn ==> s.byConn[conn] in s.recipes
    ensures Next(s, Burn(conn)).byConn == s.byConn - {conn}
    ensures var t := Next(s, Ignite(conn));
      if conn in s.byConn && s.recipes[s.byConn[conn]].min <= s.recipes[s.byConn[conn]].count - 1
      then t == Next(s, Burn(conn)) && t.recipes[s.byConn[conn]].count == s.recipes[s.byConn[conn]].count - 1
      else t == s
  {
    assert conn !in s.byConn ==> s.byConn - {conn} == s.byConn;
  }
}
