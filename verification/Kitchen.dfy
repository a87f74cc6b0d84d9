/**
 The Chef of lib/gat/handlers/pool/spool/kitchen/chef.go, its maps and recipes updated in place. Each
 method is one critical section, or the unlocked dials of Learn, and is proved to be the step of
 KitchenSpec that models it. What a dial yields is a parameter.
 */
module Kitchen {
  import opened Collections
  import opened KitchenSpec

  class Chef {
    var recipes: map<RecipeId, Recipe>
    var byName: map<string, RecipeId>
    var byConn: map<ConnId, RecipeId>
    var order: seq<RecipeId>
    ghost var seen: set<ConnId>

    ghost function View(): State
      reads this
    {
      State(recipes, byName, byConn, order, seen)
    }

    constructor ()
      ensures View() == Init() && Inv(View())
    {
      recipes, byName, byConn, order, seen := map[], map[], map[], [], {};
    }

    /** Free, and the connection leaves both indexes. */
    method Drop(r: RecipeId, conn: ConnId)
      requires r in recipes
      modifies this
      ensures View() == DropConn(old(View()), r, conn)
    {
      var rec := recipes[r];
      recipes := recipes[r := rec.(count := rec.count - 1, conns := rec.conns - {conn})];
      byConn := byConn - {conn};
    }

    method Forget(name: string) returns (gone: seq<ConnId>)
      requires Inv(View())
      modifies this
      ensures GoneFor(old(View()), name, gone) && View() == Forgotten(old(View()), name, gone) && Inv(View())
    {
      hide Inv, DropConn, Walks;
      if name !in byName {
        gone := [];
        return;
      }
      KnownName(View(), name);
      var r := byName[name];
      gone := Walk(recipes[r].conns);
      ForgetCloses(View(), name, gone);
      byName := byName - {name};
      ghost var s := View();
      for i := 0 to |gone|
        invariant r in recipes && DropAll(View(), r, gone[i..]) == DropAll(s, r, gone)
      {
        assert gone[i..][0] == gone[i] && gone[i..][1..] == gone[i + 1..];
        StillKnown(View(), r, gone[i]);
        Drop(r, gone[i]);
      }
      assert gone[|gone|..] == [];
      var left := RemoveFrom(order, r);
      order := left;
    }

    /** Learn frees what it will not dial. */
    method FreeRest(r: RecipeId, n: nat)
      requires Inv(View()) && Allowed(View(), Abandon(r, n))
      modifies this
      ensures View() == Next(old(View()), Abandon(r, n)) && Inv(View())
    {
      hide Inv;
      NextKeeps(View(), Abandon(r, n));
      ghost var rec := recipes[r];
      assert recipes == recipes[r := rec];
      for j := 0 to n
        invariant byName == old(byName) && byConn == old(byConn) && order == old(order) && seen == old(seen)
        invariant recipes == old(recipes)[r := rec.(count := rec.count - j, dialling := rec.dialling - j)]
      {
        recipes := recipes[r := recipes[r].(count := recipes[r].count - 1, dialling := recipes[r].dialling - 1)];
      }
    }

    /** Learn before it takes the lock: dials until one fails, and then frees what was not dialled. */
    method Dial(r: RecipeId, min: nat, max: nat, dials: seq<Option<ConnId>>) returns (added: seq<ConnId>, ghost es: seq<Event>)
      requires Inv(View()) && Allowed(View(), Begin(r, min, max)) && |dials| == min
      modifies this
      ensures Run(old(View()), es) && View() == After(old(View()), es) && Inv(View())
      ensures r in recipes && recipes[r].dialling == |added| <= min && recipes[r].conns == {}
      ensures forall i :: 0 <= i < |added| ==> dials[i] == Some(added[i])
      ensures |added| < min ==> dials[|added|].None?
      ensures recipes.Keys == old(recipes).Keys + {r} && byName == old(byName) && seen == old(seen)
    {
      hide Inv, Run, After;
      NextKeeps(View(), Begin(r, min, max));
      ghost var s := View();
      recipes := recipes[r := Recipe(min, max, min, {}, min)];
      ghost var t := View();
      added := [];
      var i := 0;
      while i < min && dials[i].Some?
        invariant i == |added| <= min && View() == t && forall j :: 0 <= j < i ==> dials[j] == Some(added[j])
      {
        added := added + [dials[i].value];
        i := i + 1;
      }
      if i < min {
        FreeRest(r, min - i);
        es := [Begin(r, min, max), Abandon(r, min - i)];
        TwoEvents(s, Begin(r, min, max), Abandon(r, min - i));
      } else {
        es := [Begin(r, min, max)];
        OneEvent(s, Begin(r, min, max));
      }
    }

    /** Learn under the lock: the old recipe of the name goes and the new one comes with its connections. */
    method Learn(name: string, r: RecipeId, added: seq<ConnId>) returns (removed: seq<ConnId>)
      requires Inv(View()) && r in recipes && |added| == recipes[r].dialling && Fresh(added, View())
      requires forall other | other in byName :: byName[other] != r
      modifies this
      ensures Allowed(old(View()), Register(name, r, added, removed))
      ensures View() == Next(old(View()), Register(name, r, added, removed)) && Inv(View())
    {
      hide Inv, Forgotten, AddConn, GoneFor, Fresh;
      removed := Forget(name);
      ForgetCloses(old(View()), name, removed);
      RegisterKeeps(old(View()), name, r, added, removed);
      byName := byName[name := r];
      ghost var s := View();
      for i := 0 to |added|
        invariant r in recipes && AddAll(View(), r, added[i..]) == AddAll(s, r, added)
      {
        assert added[i..][0] == added[i] && added[i..][1..] == added[i + 1..];
        AlsoKnown(View(), r, added[i]);
        Add(r, added[i]);
      }
      assert added[|added|..] == [];
      order := order + [r];
    }

    /** The connection enters both indexes. */
    method Add(r: RecipeId, conn: ConnId)
      requires r in recipes
      modifies this
      ensures View() == AddConn(old(View()), r, conn)
    {
      var rec := recipes[r];
      recipes := recipes[r := rec.(conns := rec.conns + {conn}, dialling := if rec.dialling > 0 then rec.dialling - 1 else 0)];
      byConn := byConn[conn := r];
      seen := seen + {conn};
    }

    /** Cook up to the dial: whether the recipe may have one more. */
    method Allocate(r: RecipeId) returns (ok: bool)
      requires Inv(View()) && r in recipes
      modifies this
      ensures ok <==> MayAllocate(old(recipes)[r])
      ensures View() == Next(old(View()), Order(r)) && Inv(View())
    {
      NextKeeps(View(), Order(r));
      var rec := recipes[r];
      if rec.max != 0 {
        if rec.count >= rec.max {
          return false;
        }
      }
      recipes := recipes[r := rec.(count := rec.count + 1, dialling := rec.dialling + 1)];
      return true;
    }

    /** Cook from the dial on, whatever was learnt or forgotten meanwhile. */
    method Cook(r: RecipeId, dialled: Option<ConnId>)
      requires Inv(View()) && r in recipes && recipes[r].dialling > 0 && (dialled.Some? ==> dialled.value !in seen)
      modifies this
      ensures View() == Next(old(View()), if dialled.Some? then Serve(r, dialled.value) else Spoil(r)) && Inv(View())
    {
      NextKeeps(View(), if dialled.Some? then Serve(r, dialled.value) else Spoil(r));
      if dialled.Some? {
        Add(r, dialled.value);
        return;
      }
      var rec := recipes[r];
      recipes := recipes[r := rec.(count := rec.count - 1, dialling := rec.dialling - 1)];
    }

    method Burn(conn: ConnId)
      requires Inv(View())
      modifies this
      ensures View() == Next(old(View()), Event.Burn(conn)) && Inv(View()) && conn !in byConn
    {
      NextKeeps(View(), Event.Burn(conn));
      if conn !in byConn {
        return;
      }
      Drop(byConn[conn], conn);
    }

    method Ignite(conn: ConnId) returns (ok: bool)
      requires Inv(View())
      modifies this
      ensures View() == Next(old(View()), Event.Ignite(conn)) && Inv(View())
      ensures ok <==> conn in old(byConn) && conn !in byConn
    {
      NextKeeps(View(), Event.Ignite(conn));
      if conn !in byConn {
        return false;
      }
      var r := byConn[conn];
      if recipes[r].count <= recipes[r].min {
        return false;
      }
      Drop(r, conn);
      return true;
    }

    /** The loop of Close. */
    method DropEvery(gone: seq<ConnId>)
      requires Tallied(View()) && (forall c | c in gone :: c in byConn) && Distinct(gone)
      modifies this
      ensures View() == CloseAll(old(View()), gone)
    {
      hide DropConn, Tallied, CloseAll;
      for i := 0 to |gone|
        invariant Tallied(View()) && CloseAll(View(), gone[i..]) == CloseAll(old(View()), gone)
        invariant forall j :: i <= j < |gone| ==> gone[j] in byConn
      {
        assert gone[i..][0] == gone[i] && gone[i..][1..] == gone[i + 1..];
        InvConn(View(), gone[i]);
        CloseOne(View(), gone[i..]);
        DropConnKeeps(View(), byConn[gone[i]], gone[i]);
        OthersStay(View(), byConn[gone[i]], gone[i]);
        Drop(byConn[gone[i]], gone[i]);
      }
      assert gone[|gone|..] == [];
      CloseNone(View());
    }

    method Close() returns (gone: seq<ConnId>)
      requires Inv(View())
      modifies this
      ensures Walks(gone, old(byConn).Keys) && View() == Next(old(View()), Event.Close(gone)) && Inv(View())
      ensures byConn == map[] && forall r | r in recipes :: recipes[r].count == recipes[r].dialling
    {
      hide Inv, Tallied, CloseAll, DropConn;
      gone := Walk(byConn.Keys);
      AllElems(gone, byConn.Keys);
      NextKeeps(View(), Event.Close(gone));
      ClosingTallied(View());
      byName, order := map[], [];
      CloseAllKeeps(View(), gone);
      DropEvery(gone);
      NothingOpen(View());
    }
  }

  lemma ClosingTallied(s: State)
    requires Inv(s)
    ensures Tallied(s.(byName := map[], order := []))
  {
  }

  lemma KnownName(s: State, name: string)
    requires Inv(s) && name in s.byName
    ensures s.byName[name] in s.recipes
  {
  }

  lemma StillKnown(s: State, r: RecipeId, conn: ConnId)
    requires r in s.recipes
    ensures r in DropConn(s, r, conn).recipes
  {
  }

  lemma AlsoKnown(s: State, r: RecipeId, conn: ConnId)
    requires r in s.recipes
    ensures r in AddConn(s, r, conn).recipes
  {
  }

  lemma OthersStay(s: State, r: RecipeId, conn: ConnId)
    requires r in s.recipes
    ensures DropConn(s, r, conn).byConn == s.byConn - {conn}
  {
  }

  lemma CloseOne(s: State, gone: seq<ConnId>)
    requires gone != [] && gone[0] in s.byConn && s.byConn[gone[0]] in s.recipes
    ensures CloseAll(s, gone) == CloseAll(DropConn(s, s.byConn[gone[0]], gone[0]), gone[1..])
  {
  }

  lemma CloseNone(s: State)
    ensures CloseAll(s, []) == s
  {
  }

  lemma NothingOpen(s: State)
    requires Tallied(s) && s.byConn.Keys == {}
    ensures s.byConn == map[] && forall r | r in s.recipes :: s.recipes[r].count == s.recipes[r].dialling
  {
    forall r | r in s.recipes
      ensures s.recipes[r].count == s.recipes[r].dialling
    {
      assert s.recipes[r].conns == {};
      assert Counted(s.recipes[r]);
    }
  }

  lemma OneEvent(s: State, e: Event)
    requires Allowed(s, e)
    ensures Run(s, [e]) && After(s, [e]) == Next(s, e)
  {
    assert [e][1..] == [];
  }

  lemma TwoEvents(s: State, e: Event, f: Event)
    requires Allowed(s, e) && Allowed(Next(s, e), f)
    ensures Run(s, [e, f]) && After(s, [e, f]) == Next(Next(s, e), f)
  {
    assert [e, f][1..] == [f];
    OneEvent(Next(s, e), f);
  }
}
