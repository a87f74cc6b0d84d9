/**
 The State of lib/fed/middlewares/eqp/state.go, two maps and three rings updated by every packet that
 passes, proved to follow EqpSpec, and the loops of lib/fed/middlewares/eqp/sync.go that bring a
 server to a client's state.
 */
module Eqp {
  import opened Collections
  import opened EqpSpec
  import Ring

  class State {
    var statements: map<string, Statement>
    var portals: map<string, Request>
    const parses: Ring.Ring<Request>
    const binds: Ring.Ring<Request>
    const closes: Ring.Ring<Request>

    ghost predicate Sound()
      reads parses, binds, closes
    {
      && parses != binds && parses != closes && binds != closes
      && parses.buf != binds.buf && parses.buf != closes.buf && binds.buf != closes.buf
      && parses.Valid() && binds.Valid() && closes.Valid()
    }

    ghost function View(): Mirror
      requires Sound()
      reads this, parses, binds, closes, parses.buf, binds.buf, closes.buf
    {
      Mirror(statements, portals, parses.Contents(), binds.Contents(), closes.Contents())
    }

    constructor ()
      ensures Sound() && fresh(parses) && fresh(binds) && fresh(closes)
      ensures fresh(parses.buf) && fresh(binds.buf) && fresh(closes.buf)
      ensures View() == EMPTY
    {
      statements, portals := map[], map[];
      parses := new Ring.Ring<Request>();
      binds := new Ring.Ring<Request>();
      closes := new Ring.Ring<Request>();
    }

    /** C2S; a Close that names neither a statement nor a portal is refused before it gets here. */
    method Send(r: Request)
      requires Sound()
      modifies this, parses, binds, closes, parses.buf, binds.buf, closes.buf
      ensures Sound() && View() == Sent(old(View()), r)
      ensures (parses.buf == old(parses.buf) || fresh(parses.buf)) && (binds.buf == old(binds.buf) || fresh(binds.buf))
      ensures closes.buf == old(closes.buf) || fresh(closes.buf)
    {
      hide Ring.Ring.Contents, Ring.Ring.Valid;
      match r
      case Parse(_, _) => parses.PushBack(r);
      case Bind(_, _) => binds.PushBack(r);
      case CloseStatement(_) => closes.PushBack(r);
      case ClosePortal(_) => closes.PushBack(r);
      case Query => statements, portals := statements - {""}, portals - {""};
      case _ =>
    }

    method ParseComplete()
      requires Sound()
      modifies this, parses, parses.buf
      ensures Sound() && View() == EqpSpec.ParseComplete(old(View())) && parses.buf == old(parses.buf)
    {
      hide Ring.Ring.Contents, Ring.Ring.Valid;
      var r := parses.PopFront();
      if r.Some? && r.value.Parse? {
        statements := statements[r.value.name := r.value.statement];
      }
    }

    method BindComplete()
      requires Sound()
      modifies this, binds, binds.buf
      ensures Sound() && View() == EqpSpec.BindComplete(old(View())) && binds.buf == old(binds.buf)
    {
      hide Ring.Ring.Contents, Ring.Ring.Valid;
      var r := binds.PopFront();
      if r.Some? && r.value.Bind? {
        portals := portals[r.value.portal := r.value];
      }
    }

    method CloseComplete()
      requires Sound()
      modifies this, closes, closes.buf
      ensures Sound() && View() == EqpSpec.CloseComplete(old(View())) && closes.buf == old(closes.buf)
    {
      hide Ring.Ring.Contents, Ring.Ring.Valid;
      var r := closes.PopFront();
      if r.None? {
        return;
      }
      match r.value
      case ClosePortal(portal) => portals := portals - {portal};
      case CloseStatement(name) => statements := statements - {name};
      case _ =>
    }

    method ClearPending()
      requires Sound()
      modifies parses, binds, closes
      ensures Sound() && View() == old(View()).(parses := [], binds := [], closes := [])
      ensures parses.buf == old(parses.buf) && binds.buf == old(binds.buf) && closes.buf == old(closes.buf)
    {
      parses.Clear();
      binds.Clear();
      closes.Clear();
    }

    method CommandComplete(tag: string)
      requires Sound()
      modifies this, parses, binds, closes
      ensures Sound() && View() == if tag == "DISCARD ALL" then EMPTY else old(View())
      ensures parses.buf == old(parses.buf) && binds.buf == old(binds.buf) && closes.buf == old(closes.buf)
    {
      if tag == "DISCARD ALL" {
        statements, portals := map[], map[];
        ClearPending();
      }
    }

    method ReadyForQuery(status: char)
      requires Sound()
      modifies this, parses, binds, closes
      ensures Sound() && View() == Ready(old(View()), status == 'I')
      ensures parses.buf == old(parses.buf) && binds.buf == old(binds.buf) && closes.buf == old(closes.buf)
    {
      if status == 'I' {
        portals := map[];
      }
      ClearPending();
    }
  }

  /** A server connection: its mirror sees every packet before it is written, and a write may fail. */
  class Conn {
    var mirror: Mirror
    var sent: seq<Request>
    var writes: nat

    constructor (mirror: Mirror, writes: nat)
      ensures this.mirror == mirror && sent == [] && this.writes == writes
    {
      this.mirror, sent, this.writes := mirror, [], writes;
    }

    method WritePacket(r: Request) returns (ok: bool)
      modifies this
      ensures mirror == Sent(old(mirror), r)
      ensures ok <==> old(writes) > 0
      ensures ok ==> sent == old(sent) + [r]
    {
      mirror := Sent(mirror, r);
      if writes == 0 {
        return false;
      }
      writes := writes - 1;
      sent := sent + [r];
      return true;
    }
  }

  /** What is left to send of some requests, and what the mirror will then have seen. */
  ghost predicate Upto(server: Conn, sent: seq<Request>, mirror: Mirror, all: seq<Request>, rest: seq<Request>)
    reads server
  {
    server.sent + rest == sent + all && SentAll(server.mirror, rest) == SentAll(mirror, all)
  }

  /** One more request sent. */
  lemma Further(sent: seq<Request>, mirror: Mirror, r: Request, rest: seq<Request>)
    ensures (sent + [r]) + rest == sent + ([r] + rest)
    ensures SentAll(Sent(mirror, r), rest) == SentAll(mirror, [r] + rest)
  {
    assert ([r] + rest)[1..] == rest;
  }

  lemma Finished(sent: seq<Request>, mirror: Mirror)
    ensures sent + [] == sent && SentAll(mirror, []) == mirror
  {
  }

  lemma {:induction false} Joined(sent: seq<Request>, mirror: Mirror, a: seq<Request>, b: seq<Request>)
    ensures (sent + a) + b == sent + (a + b) && SentAll(SentAll(mirror, a), b) == SentAll(mirror, a + b)
    decreases |a|
  {
    if a == [] {
      assert a + b == b;
    } else {
      Joined(sent, Sent(mirror, a[0]), a[1..], b);
      assert (a + b)[1..] == a[1..] + b;
    }
  }

  /** The first loop of SyncMiddleware: all portals of the server are closed. */
  method CloseAllPortals(server: Conn) returns (ok: bool, names: seq<string>)
    modifies server
    ensures Walks(names, old(server.mirror.portals).Keys)
    ensures ok ==> server.sent == old(server.sent) + ClosePortals(names) && server.mirror == SentAll(old(server.mirror), ClosePortals(names))
  {
    hide SentAll, Sent, Walks;
    names := Walk(server.mirror.portals.Keys);
    for i := 0 to |names|
      invariant Upto(server, old(server.sent), old(server.mirror), ClosePortals(names), ClosePortals(names[i..]))
    {
      Further(server.sent, server.mirror, ClosePortal(names[i]), ClosePortals(names[i + 1..]));
      assert names[i..][0] == names[i] && names[i..][1..] == names[i + 1..];
      ok := server.WritePacket(ClosePortal(names[i]));
      if !ok {
        return;
      }
    }
    assert names[|names|..] == [];
    Finished(server.sent, server.mirror);
    ok := true;
  }

  /** The second loop: statements that the client does not have like this are closed. */
  method CloseAllStale(server: Conn, want: map<string, Statement>) returns (ok: bool, names: seq<string>)
    modifies server
    ensures Walks(names, old(server.mirror.statements).Keys)
    ensures ok ==>
      var rs := CloseStale(old(server.mirror.statements), want, names);
      server.sent == old(server.sent) + rs && server.mirror == SentAll(old(server.mirror), rs)
  {
    hide SentAll, Sent, Walks;
    var have := server.mirror.statements;
    names := Walk(have.Keys);
    for i := 0 to |names|
      invariant Upto(server, old(server.sent), old(server.mirror), CloseStale(have, want, names), CloseStale(have, want, names[i..]))
    {
      var name := names[i];
      EqualWalk(names, have, name);
      assert names[i..][0] == name && names[i..][1..] == names[i + 1..];
      ghost var rest := CloseStale(have, want, names[i + 1..]);
      assert [] + rest == rest;
      if name in want {
        if have[name] == want[name] {
          continue;
        }
        if name == "" {
          continue;
        }
      }
      Further(server.sent, server.mirror, CloseStatement(name), rest);
      ok := server.WritePacket(CloseStatement(name));
      if !ok {
        return;
      }
    }
    assert names[|names|..] == [];
    Finished(server.sent, server.mirror);
    ok := true;
  }

  lemma EqualWalk<V>(names: seq<string>, m: map<string, V>, name: string)
    requires Walks(names, m.Keys) && name in names
    ensures name in m
  {
  }

  /** The third loop: statements that the server did not have like this are parsed. */
  method ParseAllMissing(server: Conn, have: map<string, Statement>, want: map<string, Statement>) returns (ok: bool, names: seq<string>)
    modifies server
    ensures Walks(names, want.Keys)
    ensures ok ==>
      var rs := ParseMissing(have, want, names);
      server.sent == old(server.sent) + rs && server.mirror == SentAll(old(server.mirror), rs)
  {
    hide SentAll, Sent, Walks;
    names := Walk(want.Keys);
    for i := 0 to |names|
      invariant Upto(server, old(server.sent), old(server.mirror), ParseMissing(have, want, names), ParseMissing(have, want, names[i..]))
    {
      var name := names[i];
      EqualWalk(names, want, name);
      assert names[i..][0] == name && names[i..][1..] == names[i + 1..];
      ghost var rest := ParseMissing(have, want, names[i + 1..]);
      assert [] + rest == rest;
      if name in have && have[name] == want[name] {
        continue;
      }
      Further(server.sent, server.mirror, Parse(name, want[name]), rest);
      ok := server.WritePacket(Parse(name, want[name]));
      if !ok {
        return;
      }
    }
    assert names[|names|..] == [];
    Finished(server.sent, server.mirror);
    ok := true;
  }

  /** The fourth loop: every portal of the client is bound, once. */
  method BindAll(server: Conn, portals: map<string, Request>) returns (ok: bool, rs: seq<Request>, names: seq<string>)
    requires forall name | name in portals :: portals[name].Bind?
    modifies server
    ensures AllBinds(rs) && Walks(names, portals.Keys) && BindsOf(rs, names, portals)
    ensures ok ==> server.sent == old(server.sent) + rs && server.mirror == SentAll(old(server.mirror), rs)
  {
    hide SentAll, Sent;
    names := Walk(portals.Keys);
    rs := seq(|names|, i requires 0 <= i < |names| => portals[names[i]]);
    for i := 0 to |rs|
      invariant Upto(server, old(server.sent), old(server.mirror), rs, rs[i..])
    {
      assert rs[i..] == [rs[i]] + rs[i + 1..];
      Further(server.sent, server.mirror, rs[i], rs[i + 1..]);
      ok := server.WritePacket(rs[i]);
      if !ok {
        return;
      }
    }
    assert rs[|rs|..] == [];
    Finished(server.sent, server.mirror);
    ok := true;
  }

  /**
   SyncMiddleware up to its final Sync, which is sent exactly when something else was: without a
   write error the server was sent the plan, in some order of the maps, and its mirror has seen it.
   */
  method SyncMiddleware(want: map<string, Statement>, portals: map<string, Request>, server: Conn)
    returns (ok: bool, needsSync: bool, ghost open: seq<string>, ghost held: seq<string>, ghost wanted: seq<string>,
             ghost binds: seq<Request>, ghost bound: seq<string>)
    requires forall name | name in portals :: portals[name].Bind?
    modifies server
    ensures ok ==>
      && Walks(open, old(server.mirror.portals).Keys) && Walks(held, old(server.mirror.statements).Keys)
      && Walks(wanted, want.Keys) && Walks(bound, portals.Keys) && BindsOf(binds, bound, portals) && AllBinds(binds)
      && var rs := Plan(old(server.mirror.statements), want, open, held, wanted, binds);
         server.sent == old(server.sent) + rs && server.mirror == SentAll(old(server.mirror), rs) && (needsSync <==> rs != [])
  {
    hide Walks, AllBinds, BindsOf, ClosePortals, CloseStale, ParseMissing, SentAll;
    open, held, wanted, binds, bound := [], [], [], [], [];
    ghost var sent, mirror := server.sent, server.mirror;
    var have, before := server.mirror.statements, |server.sent|;
    ok, open := CloseAllPortals(server);
    needsSync := false;
    if !ok {
      return;
    }
    ghost var a := ClosePortals(open);
    assert server.mirror.statements == have by {
      PortalClosesOnlyWait(mirror, open);
    }
    ok, held := CloseAllStale(server, want);
    if !ok {
      return;
    }
    ghost var b := CloseStale(have, want, held);
    ok, wanted := ParseAllMissing(server, have, want);
    if !ok {
      return;
    }
    ghost var c := ParseMissing(have, want, wanted);
    ok, binds, bound := BindAll(server, portals);
    if !ok {
      return;
    }
    Joined4(sent, mirror, a, b, c, binds);
    needsSync := |server.sent| > before;
  }

  lemma Joined4(sent: seq<Request>, mirror: Mirror, a: seq<Request>, b: seq<Request>, c: seq<Request>, d: seq<Request>)
    ensures (((sent + a) + b) + c) + d == sent + (a + (b + (c + d)))
    ensures SentAll(SentAll(SentAll(SentAll(mirror, a), b), c), d) == SentAll(mirror, a + (b + (c + d)))
  {
    hide SentAll;
    Joined(sent, SentAll(SentAll(mirror, a), b), c, d);
    Joined(sent, SentAll(mirror, a), b, c + d);
    Joined(sent, mirror, a, b + (c + d));
    assert (((sent + a) + b) + c) + d == sent + (a + (b + (c + d)));
  }

  /** Requests to close portals wait in the mirror: its statements are as they were. */
  lemma {:induction false} PortalClosesOnlyWait(mirror: Mirror, names: seq<string>)
    ensures SentAll(mirror, ClosePortals(names)).statements == mirror.statements
    decreases |names|
  {
    if names != [] {
      PortalClosesOnlyWait(Sent(mirror, ClosePortal(names[0])), names[1..]);
      assert ClosePortals(names)[1..] == ClosePortals(names[1..]);
    }
  }
}
