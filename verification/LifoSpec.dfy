/**
 The LIFO pooler of lib/gat/handlers/pool/poolers/lifo/pooler.go as a state machine. A state holds
 the fields of Pooler, the channels, and what each client is doing; an event is one critical
 section, or a client taking what its channel holds, so a run is any interleaving.
 */
module LifoSpec {
  import opened Collections

  type ServerId = nat
  type ClientId = nat
  type ChanId = nat

  datatype Chan = Empty | Full(server: ServerId) | Closed

  /** `ticket` tells when the client started to wait. */
  datatype Client = Resting | Waiting(ready: ChanId, ticket: nat) | Holding(server: ServerId)

  datatype State = State(
    servers: set<ServerId>,
    queue: seq<ServerId>,
    waiters: seq<ChanId>,
    closed: bool,
    pool: seq<ChanId>,
    chans: map<ChanId, Chan>,
    clients: map<ClientId, Client>,
    used: set<ServerId>,
    clock: nat)

  datatype Event =
    | AddServer(server: ServerId)
    | DeleteServer(server: ServerId)
    | Acquire(client: ClientId, spare: ChanId)
    | Receive(client: ClientId)
    | Timeout(client: ClientId)
    | Release(client: ClientId)
    | Close

  function Init(): State {
    State({}, [], [], false, [], map[], map[], {}, 0)
  }

  /** What one round through the ring leaves: everything else, in order. */
  function Except(s: seq<nat>, x: nat): seq<nat> {
    if s == [] then [] else (if s[0] == x then [] else [s[0]]) + Except(s[1..], x)
  }

  function CloseAll(chans: map<ChanId, Chan>, ws: seq<ChanId>): map<ChanId, Chan>
    decreases |ws|
  {
    if ws == [] then chans else CloseAll(chans[ws[0] := Closed], ws[1..])
  }

  function ClientOf(s: State, p: ClientId): Client {
    if p in s.clients then s.clients[p] else Resting
  }

  /** release: to the first waiter, else onto the stack of idle servers; a removed server is dropped. */
  function Releasing(s: State, server: ServerId): State {
    if server !in s.servers then s
    else if s.waiters != [] then s.(waiters := s.waiters[1..], chans := s.chans[s.waiters[0] := Full(server)])
    else s.(queue := s.queue + [server])
  }

  /** The premises: server ids are not reused, a client does one thing at a time, make is fresh. */
  predicate Allowed(s: State, e: Event) {
    match e
    case AddServer(server) => server !in s.used
    case DeleteServer(_) => true
    case Acquire(p, spare) => ClientOf(s, p).Resting? && spare !in s.chans
    case Receive(p) =>
      ClientOf(s, p).Waiting? && ClientOf(s, p).ready in s.chans && s.chans[ClientOf(s, p).ready] != Empty
    case Timeout(p) => ClientOf(s, p).Waiting?
    case Release(p) => ClientOf(s, p).Holding?
    case Close => true
  }

  /** A receive from a channel that is not empty; the channel is pooled unless it was closed. */
  function Received(s: State, p: ClientId, c: ChanId): State
    requires c in s.chans
  {
    match s.chans[c]
    case Full(server) =>
      s.(chans := s.chans[c := Empty], pool := s.pool + [c], clients := s.clients[p := Holding(server)])
    case _ => s.(clients := s.clients[p := Resting])
  }

  function Next(s: State, e: Event): State
    requires Allowed(s, e)
  {
    match e
    case AddServer(server) => Releasing(s.(servers := s.servers + {server}, used := s.used + {server}), server)
    case DeleteServer(server) => s.(queue := Without(s.queue, server), servers := s.servers - {server})
    case Acquire(p, spare) =>
      if s.closed then s
      else if s.queue != [] then
        s.(queue := s.queue[..|s.queue| - 1], clients := s.clients[p := Holding(s.queue[|s.queue| - 1])])
      else
        var c := if s.pool != [] then s.pool[|s.pool| - 1] else spare;
        s.(pool := if s.pool != [] then s.pool[..|s.pool| - 1] else [],
           chans := s.chans[c := Empty],
           waiters := s.waiters + [c],
           clients := s.clients[p := Waiting(c, s.clock)],
           clock := s.clock + 1)
    case Receive(p) => Received(s, p, s.clients[p].ready)
    case Timeout(p) =>
      var c := s.clients[p].ready;
      if c in s.waiters then
        s.(waiters := Except(s.waiters, c), pool := s.pool + [c], clients := s.clients[p := Resting])
      else if c in s.chans then Received(s, p, c)
      else s
    case Release(p) => Releasing(s.(clients := s.clients[p := Resting]), s.clients[p].server)
    case Close =>
      s.(closed := true, servers := {}, queue := [], waiters := [], chans := CloseAll(s.chans, s.waiters))
  }

  // ---- sequences without repetition ------------------------------------------------------

  /** Removing a waiter leaves the others as they stood, before and behind it. */
  lemma {:induction false} ExceptIs(s: seq<nat>, i: nat)
    requires i < |s| && Distinct(s)
    ensures Except(s, s[i]) == s[..i] + s[i + 1..]
  {
    var x := s[i];
    if i == 0 {
      ExceptOther(s[1..], x);
      assert s[..0] + s[1..] == s[1..];
    } else {
      assert s[0] != x && s[1..][i - 1] == x;
      ExceptIs(s[1..], i - 1);
      assert Except(s, x) == [s[0]] + Except(s[1..], x);
      hide Except;
      assert s[..i] == [s[0]] + s[1..][..i - 1];
      assert s[i + 1..] == s[1..][i..];
    }
  }

  lemma {:induction false} ExceptOther(s: seq<nat>, x: nat)
    requires x !in s
    ensures Except(s, x) == s
  {
    if s != [] {
      ExceptOther(s[1..], x);
    }
  }

  lemma {:induction false} CloseAllIs(chans: map<ChanId, Chan>, ws: seq<ChanId>, c: ChanId)
    ensures c in CloseAll(chans, ws) <==> c in chans || c in ws
    ensures c in CloseAll(chans, ws) ==> CloseAll(chans, ws)[c] == if c in ws then Closed else chans[c]
    decreases |ws|
  {
    if ws != [] {
      CloseAllIs(chans[ws[0] := Closed], ws[1..], c);
    }
  }

  // ---- the invariant ---------------------------------------------------------------------

  predicate Waits(s: State, p: ClientId, c: ChanId) {
    p in s.clients && s.clients[p].Waiting? && s.clients[p].ready == c
  }

  predicate Holds(s: State, p: ClientId, server: ServerId) {
    p in s.clients && s.clients[p] == Holding(server)
  }

  predicate Carries(s: State, c: ChanId, server: ServerId) {
    c in s.chans && s.chans[c] == Full(server)
  }

  ghost predicate Awaited(s: State, c: ChanId) {
    exists p :: Waits(s, p, c)
  }

  /** A queued channel is empty and one client waits on it; a pooled one is empty and free. */
  ghost predicate ChansUsed(s: State) {
    && Distinct(s.waiters) && Distinct(s.pool)
    && (forall c | c in s.waiters :: c in s.chans && s.chans[c] == Empty && c !in s.pool && Awaited(s, c))
    && (forall c | c in s.pool :: c in s.chans && s.chans[c] == Empty)
    && (forall p, c | Waits(s, p, c) :: c in s.chans && c !in s.pool && (c in s.waiters || s.chans[c] != Empty))
    && (forall p, q, c | Waits(s, p, c) && Waits(s, q, c) :: p == q)
    && (forall c, x | Carries(s, c, x) :: Awaited(s, c))
  }

  /** No server is in two places. */
  ghost predicate Exclusive(s: State) {
    && Distinct(s.queue)
    && (forall x | x in s.queue :: x in s.servers)
    && (forall c, x | Carries(s, c, x) :: x !in s.queue)
    && (forall p, x | Holds(s, p, x) :: x !in s.queue)
    && (forall c, c', x | Carries(s, c, x) && Carries(s, c', x) :: c == c')
    && (forall p, p', x | Holds(s, p, x) && Holds(s, p', x) :: p == p')
    && (forall p, c, x | Holds(s, p, x) && Carries(s, c, x) :: false)
  }

  ghost predicate Somewhere(s: State, x: ServerId) {
    || x in s.queue
    || (exists c :: Carries(s, c, x))
    || (exists p :: Holds(s, p, x))
  }

  /** No server is lost, and only known ones are about. */
  ghost predicate Accounted(s: State) {
    && (forall x | x in s.servers :: Somewhere(s, x) && x in s.used)
    && (forall c, x | Carries(s, c, x) :: x in s.used)
    && (forall p, x | Holds(s, p, x) :: x in s.used)
  }

  /** Waiters stand in the order in which they came. */
  ghost predicate Fifo(s: State) {
    && (forall p | p in s.clients && s.clients[p].Waiting? :: s.clients[p].ticket < s.clock)
    && (forall i, j, p, q | 0 <= i < j < |s.waiters| && Waits(s, p, s.waiters[i]) && Waits(s, q, s.waiters[j]) ::
          s.clients[p].ticket < s.clients[q].ticket)
  }

  /** Nobody waits while a server is idle, nor once the pooler is closed. */
  predicate Busy(s: State) {
    (s.waiters != [] ==> s.queue == []) && (s.closed ==> s.waiters == [])
  }

  ghost predicate Inv(s: State) {
    ChansUsed(s) && Exclusive(s) && Accounted(s) && Fifo(s) && Busy(s)
  }

  lemma InitHolds()
    ensures Inv(Init())
  {
  }

  // ---- every event keeps it --------------------------------------------------------------

  ghost predicate Nowhere(s: State, x: ServerId) {
    x !in s.queue && (forall c :: !Carries(s, c, x)) && (forall p :: !Holds(s, p, x))
  }

  ghost predicate AccountedBut(s: State, x: ServerId) {
    && (forall y | y in s.servers && y != x :: Somewhere(s, y))
    && (forall y | y in s.servers :: y in s.used)
    && (forall c, y | Carries(s, c, y) :: y in s.used)
    && (forall p, y | Holds(s, p, y) :: y in s.used)
  }

  /** The invariant while a server is on its way back. */
  ghost predicate Between(s: State, x: ServerId) {
    ChansUsed(s) && Exclusive(s) && AccountedBut(s, x) && Fifo(s) && Busy(s) && Nowhere(s, x) && x in s.used
  }

  ghost predicate SameWaits(s: State, t: State) {
    forall p, d :: Waits(t, p, d) <==> Waits(s, p, d)
  }

  ghost predicate SameHolds(s: State, t: State) {
    forall p, y :: Holds(t, p, y) <==> Holds(s, p, y)
  }

  ghost predicate SameCarries(s: State, t: State) {
    forall d, y :: Carries(t, d, y) <==> Carries(s, d, y)
  }

  lemma HandOverChans(s: State, x: ServerId)
    requires ChansUsed(s) && x in s.servers && s.waiters != []
    ensures ChansUsed(Releasing(s, x))
  {
    var t := Releasing(s, x);
    var c := s.waiters[0];
    assert forall d :: d in s.waiters <==> d == c || d in t.waiters;
    assert c !in t.waiters;
    assert SameWaits(s, t);
    assert forall d, y :: Carries(t, d, y) <==> Carries(s, d, y) || (d == c && y == x);
    hide Waits, Carries;
    forall d | Awaited(s, d)
      ensures Awaited(t, d)
    {
      var p :| Waits(s, p, d);
      assert Waits(t, p, d);
    }
  }

  lemma HandOverServers(s: State, x: ServerId)
    requires Exclusive(s) && AccountedBut(s, x) && Nowhere(s, x) && x in s.used
    requires x in s.servers && s.waiters != [] && s.waiters[0] in s.chans && s.chans[s.waiters[0]] == Empty
    ensures Exclusive(Releasing(s, x)) && Accounted(Releasing(s, x))
  {
    var t := Releasing(s, x);
    var c := s.waiters[0];
    assert SameHolds(s, t);
    assert forall d, y :: Carries(t, d, y) <==> Carries(s, d, y) || (d == c && y == x);
    hide Waits, Carries, Holds;
    forall y | y in t.servers
      ensures Somewhere(t, y)
    {
      if y == x {
        assert Carries(t, c, x);
      } else {
        assert Somewhere(s, y);
        if exists d :: Carries(s, d, y) {
          var d :| Carries(s, d, y);
          assert Carries(t, d, y);
        }
      }
    }
  }

  lemma HandOver(s: State, x: ServerId)
    requires Between(s, x) && x in s.servers && s.waiters != []
    ensures Inv(Releasing(s, x))
  {
    HandOverChans(s, x);
    assert s.waiters[0] in s.waiters;
    HandOverServers(s, x);
    hide ChansUsed, Exclusive, Accounted, AccountedBut, Nowhere;
    ShorterFifo(s, Releasing(s, x));
  }

  lemma ShorterFifo(s: State, t: State)
    requires Fifo(s) && t.clients == s.clients && t.clock == s.clock && s.waiters != [] && t.waiters == s.waiters[1..]
    ensures Fifo(t)
  {
    assert SameWaits(s, t);
  }

  lemma PutBack(s: State, x: ServerId)
    requires Between(s, x) && x in s.servers && s.waiters == []
    ensures Inv(Releasing(s, x))
  {
    var t := Releasing(s, x);
    assert forall p, d :: Waits(t, p, d) <==> Waits(s, p, d);
    assert forall p, y :: Holds(t, p, y) <==> Holds(s, p, y);
    assert forall d, y :: Carries(t, d, y) <==> Carries(s, d, y);
    assert forall y :: y in t.queue <==> y == x || y in s.queue;
    forall y | y in t.servers
      ensures Somewhere(t, y)
    {
      if y != x {
        assert Somewhere(s, y);
      }
    }
  }

  lemma ReleasingKeeps(s: State, x: ServerId)
    requires Between(s, x)
    ensures Inv(Releasing(s, x))
  {
    hide ChansUsed, Exclusive, Fifo, Busy, Nowhere;
    if x in s.servers {
      if s.waiters != [] {
        HandOver(s, x);
      } else {
        PutBack(s, x);
      }
    }
  }

  /** What does not touch clients or channels keeps all that is said about them. */
  lemma SameClients(s: State, t: State)
    requires ChansUsed(s) && Fifo(s)
    requires t.waiters == s.waiters && t.pool == s.pool && t.chans == s.chans && t.clients == s.clients && t.clock == s.clock
    ensures ChansUsed(t) && Fifo(t) && SameWaits(s, t) && SameHolds(s, t) && SameCarries(s, t)
  {
    assert SameWaits(s, t) && SameHolds(s, t) && SameCarries(s, t);
    assert Fifo(t);
    hide Waits, Holds, Carries, Fifo;
    forall c | Awaited(s, c)
      ensures Awaited(t, c)
    {
      var p :| Waits(s, p, c);
      assert Waits(t, p, c);
    }
  }

  lemma AddServerKeeps(s: State, x: ServerId)
    requires Inv(s) && Allowed(s, AddServer(x))
    ensures Inv(Next(s, AddServer(x)))
  {
    var t := s.(servers := s.servers + {x}, used := s.used + {x});
    SameClients(s, t);
    hide ChansUsed, Fifo, Waits, Holds, Carries;
    assert forall y | y in s.servers :: Somewhere(s, y) ==> Somewhere(t, y);
    assert Between(t, x);
    ReleasingKeeps(t, x);
  }

  lemma ReleaseKeeps(s: State, p: ClientId)
    requires Inv(s) && Allowed(s, Release(p))
    ensures Inv(Next(s, Release(p)))
  {
    var x := s.clients[p].server;
    var t := s.(clients := s.clients[p := Resting]);
    assert Holds(s, p, x);
    assert forall q, d :: Waits(t, q, d) <==> Waits(s, q, d);
    assert forall q, y :: Holds(t, q, y) <==> Holds(s, q, y) && q != p;
    assert forall d, y :: Carries(t, d, y) <==> Carries(s, d, y);
    forall y | y in t.servers && y != x
      ensures Somewhere(t, y)
    {
      assert Somewhere(s, y);
      if exists q :: Holds(s, q, y) {
        var q :| Holds(s, q, y);
        assert Holds(t, q, y);
      }
    }
    assert Between(t, x);
    ReleasingKeeps(t, x);
  }

  lemma DeleteServerKeeps(s: State, x: ServerId)
    requires Inv(s)
    ensures Inv(Next(s, DeleteServer(x)))
  {
    var t := Next(s, DeleteServer(x));
    WithoutIs(s.queue, x);
    assert s.queue == [] ==> t.queue == [];
    SameClients(s, t);
    hide ChansUsed, Fifo, Waits, Holds, Carries, Without;
    forall y | y in t.servers
      ensures Somewhere(t, y)
    {
      assert Somewhere(s, y);
      if exists c :: Carries(s, c, y) {
        var c :| Carries(s, c, y);
        assert Carries(t, c, y);
      } else if exists p :: Holds(s, p, y) {
        var p :| Holds(s, p, y);
        assert Holds(t, p, y);
      }
    }
  }

  lemma TakeIdle(s: State, p: ClientId, spare: ChanId)
    requires Inv(s) && Allowed(s, Acquire(p, spare)) && !s.closed && s.queue != []
    ensures Inv(Next(s, Acquire(p, spare)))
  {
    var t := Next(s, Acquire(p, spare));
    var x := s.queue[|s.queue| - 1];
    assert forall y :: y in s.queue <==> y == x || y in t.queue;
    assert x !in t.queue;
    assert forall q, d :: Waits(t, q, d) <==> Waits(s, q, d);
    assert forall q, y :: Holds(t, q, y) <==> Holds(s, q, y) || (q == p && y == x);
    assert forall d, y :: Carries(t, d, y) <==> Carries(s, d, y);
    forall y | y in t.servers
      ensures Somewhere(t, y)
    {
      assert Somewhere(s, y);
      if exists q :: Holds(s, q, y) {
        var q :| Holds(s, q, y);
        assert Holds(t, q, y);
      } else if y == x {
        assert Holds(t, p, x);
      }
    }
  }

  lemma QueueUpChans(s: State, t: State, p: ClientId, c: ChanId)
    requires ChansUsed(s) && ClientOf(s, p).Resting? && c !in s.waiters
    requires t.waiters == s.waiters + [c] && t.chans == s.chans[c := Empty] && t.clients == s.clients[p := Waiting(c, s.clock)]
    requires Distinct(t.pool) && c !in t.pool && (forall d | d in t.pool :: d in s.pool)
    requires (forall q :: !Waits(s, q, c)) && (forall y :: !Carries(s, c, y))
    ensures ChansUsed(t)
  {
    assert forall d :: d in t.waiters <==> d == c || d in s.waiters;
    assert forall q, d :: Waits(t, q, d) <==> Waits(s, q, d) || (q == p && d == c);
    assert SameCarries(s, t);
    hide Waits, Carries;
    assert Waits(t, p, c);
    forall d | Awaited(s, d)
      ensures Awaited(t, d)
    {
      var q :| Waits(s, q, d);
      assert Waits(t, q, d);
    }
  }

  lemma SameServers(s: State, t: State)
    requires Exclusive(s) && Accounted(s) && SameHolds(s, t) && SameCarries(s, t)
    requires t.queue == s.queue && t.servers == s.servers && t.used == s.used
    ensures Exclusive(t) && Accounted(t)
  {
    hide Waits, Carries, Holds;
    forall y | y in t.servers
      ensures Somewhere(t, y)
    {
      assert Somewhere(s, y);
      if exists c :: Carries(s, c, y) {
        var c :| Carries(s, c, y);
        assert Carries(t, c, y);
      } else if exists p :: Holds(s, p, y) {
        var p :| Holds(s, p, y);
        assert Holds(t, p, y);
      }
    }
  }

  lemma QueueUpFifo(s: State, t: State, p: ClientId, c: ChanId)
    requires Fifo(s) && ClientOf(s, p).Resting? && c !in s.waiters && (forall q :: !Waits(s, q, c))
    requires t.waiters == s.waiters + [c] && t.clients == s.clients[p := Waiting(c, s.clock)] && t.clock == s.clock + 1
    ensures Fifo(t)
  {
    assert forall q, d :: Waits(t, q, d) <==> Waits(s, q, d) || (q == p && d == c);
    assert forall q | q in s.clients && s.clients[q].Waiting? :: q != p;
    forall i, j, a, b | 0 <= i < j < |t.waiters| && Waits(t, a, t.waiters[i]) && Waits(t, b, t.waiters[j])
      ensures t.clients[a].ticket < t.clients[b].ticket
    {
      assert t.waiters[i] == s.waiters[i] && Waits(s, a, s.waiters[i]) && t.clients[a] == s.clients[a];
      if j < |s.waiters| {
        assert t.waiters[j] == s.waiters[j] && Waits(s, b, s.waiters[j]);
      } else {
        assert b == p;
      }
    }
  }

  lemma QueueUp(s: State, p: ClientId, spare: ChanId)
    requires Inv(s) && Allowed(s, Acquire(p, spare)) && !s.closed && s.queue == []
    ensures Inv(Next(s, Acquire(p, spare)))
  {
    var t := Next(s, Acquire(p, spare));
    var c := if s.pool != [] then s.pool[|s.pool| - 1] else spare;
    FreeChannel(s, c, spare);
    assert SameHolds(s, t);
    assert SameCarries(s, t);
    SameServers(s, t);
    assert forall d | d in t.pool :: d in s.pool;
    hide Exclusive, Accounted, Waits, Carries;
    QueueUpChans(s, t, p, c);
    QueueUpFifo(s, t, p, c);
  }

  lemma FreeChannel(s: State, c: ChanId, spare: ChanId)
    requires ChansUsed(s) && spare !in s.chans && c == if s.pool != [] then s.pool[|s.pool| - 1] else spare
    ensures c !in s.waiters && (forall q :: !Waits(s, q, c)) && (forall y :: !Carries(s, c, y))
    ensures s.pool != [] ==> c !in s.pool[..|s.pool| - 1] && Distinct(s.pool[..|s.pool| - 1])
  {
    hide Waits;
  }

  lemma AcquireKeeps(s: State, p: ClientId, spare: ChanId)
    requires Inv(s) && Allowed(s, Acquire(p, spare))
    ensures Inv(Next(s, Acquire(p, spare)))
  {
    hide Inv;
    if !s.closed {
      if s.queue != [] {
        TakeIdle(s, p, spare);
      } else {
        QueueUp(s, p, spare);
      }
    }
  }

  lemma TakeFullChans(s: State, p: ClientId, c: ChanId)
    requires ChansUsed(s) && Waits(s, p, c) && s.chans[c].Full?
    ensures ChansUsed(Received(s, p, c))
  {
    var t := Received(s, p, c);
    assert c !in s.waiters && c !in s.pool;
    assert forall d :: d in t.pool <==> d == c || d in s.pool;
    assert forall q, d :: Waits(t, q, d) <==> Waits(s, q, d) && q != p;
    assert forall d, y :: Carries(t, d, y) <==> Carries(s, d, y) && d != c;
    hide Waits, Carries;
    forall d | d != c && Awaited(s, d)
      ensures Awaited(t, d)
    {
      OnlyOne(s, p, c, d);
      var q :| Waits(s, q, d);
      assert Waits(t, q, d);
    }
  }

  lemma OnlyOne(s: State, p: ClientId, c: ChanId, d: ChanId)
    requires Waits(s, p, c) && d != c
    ensures !Waits(s, p, d)
  {
  }

  lemma TakeFullServers(s: State, p: ClientId, c: ChanId)
    requires Exclusive(s) && Accounted(s) && Waits(s, p, c) && c in s.chans && s.chans[c].Full?
    ensures Exclusive(Received(s, p, c)) && Accounted(Received(s, p, c))
  {
    var t := Received(s, p, c);
    var x := s.chans[c].server;
    assert Carries(s, c, x);
    assert forall q, y :: Holds(t, q, y) <==> Holds(s, q, y) || (q == p && y == x);
    assert forall d, y :: Carries(t, d, y) <==> Carries(s, d, y) && d != c;
    hide Waits, Carries, Holds;
    forall y | y in t.servers
      ensures Somewhere(t, y)
    {
      assert Somewhere(s, y);
      if exists d :: Carries(s, d, y) {
        var d :| Carries(s, d, y);
        if d == c {
          CarriesOne(s, c, x, y);
          assert Holds(t, p, y);
        } else {
          assert Carries(t, d, y);
        }
      } else if exists q :: Holds(s, q, y) {
        var q :| Holds(s, q, y);
        assert Holds(t, q, y);
      }
    }
  }

  lemma CarriesOne(s: State, c: ChanId, x: ServerId, y: ServerId)
    requires Carries(s, c, x) && Carries(s, c, y)
    ensures x == y
  {
  }

  lemma FewerWait(s: State, t: State, p: ClientId)
    requires Fifo(s) && t.waiters == s.waiters && t.clock == s.clock
    requires t.clients == s.clients[p := Resting] || exists x :: t.clients == s.clients[p := Holding(x)]
    ensures Fifo(t)
  {
    assert forall q, d :: Waits(t, q, d) <==> Waits(s, q, d) && q != p;
  }

  lemma TakeFull(s: State, p: ClientId, c: ChanId)
    requires Inv(s) && Waits(s, p, c) && s.chans[c].Full?
    ensures Inv(Received(s, p, c))
  {
    TakeFullChans(s, p, c);
    TakeFullServers(s, p, c);
    hide ChansUsed, Exclusive, Accounted, Fifo, Waits;
    FewerWait(s, Received(s, p, c), p);
  }

  lemma GiveUpChans(s: State, p: ClientId, c: ChanId, t: State)
    requires ChansUsed(s) && Waits(s, p, c) && t.chans == s.chans && t.clients == s.clients[p := Resting]
    requires (s.chans[c] == Closed && t.waiters == s.waiters && t.pool == s.pool) || (s.chans[c] == Empty && t.pool == s.pool + [c])
    requires Distinct(t.waiters) && forall d :: d in t.waiters <==> d in s.waiters && d != c
    ensures ChansUsed(t)
  {
    assert forall q, d :: Waits(t, q, d) <==> Waits(s, q, d) && q != p;
    assert SameCarries(s, t);
    assert forall y :: !Carries(s, c, y);
    hide Waits, Carries;
    forall d | d != c && Awaited(s, d)
      ensures Awaited(t, d)
    {
      OnlyOne(s, p, c, d);
      var q :| Waits(s, q, d);
      assert Waits(t, q, d);
    }
  }

  lemma GiveUpFifo(s: State, p: ClientId, i: nat, t: State)
    requires Fifo(s) && Distinct(s.waiters) && i < |s.waiters| && t.waiters == s.waiters[..i] + s.waiters[i + 1..]
    requires t.clients == s.clients[p := Resting] && t.clock == s.clock
    ensures Fifo(t)
  {
    assert forall q, d :: Waits(t, q, d) <==> Waits(s, q, d) && q != p;
    assert forall k :: 0 <= k < |t.waiters| ==> t.waiters[k] == s.waiters[if k < i then k else k + 1];
  }

  /** The client stops waiting on a closed channel, or on one that it takes out of the queue. */
  lemma GiveUp(s: State, p: ClientId, c: ChanId, t: State)
    requires Inv(s) && Waits(s, p, c)
    requires (s.chans[c] == Closed && t == s.(clients := s.clients[p := Resting]))
          || (c in s.waiters && t == s.(waiters := Except(s.waiters, c), pool := s.pool + [c], clients := s.clients[p := Resting]))
    ensures Inv(t)
  {
    assert SameHolds(s, t);
    assert SameCarries(s, t);
    SameServers(s, t);
    hide Exclusive, Accounted;
    if c in s.waiters {
      var i :| 0 <= i < |s.waiters| && s.waiters[i] == c;
      ExceptIs(s.waiters, i);
      Spliced(s.waiters, i);
      GiveUpChans(s, p, c, t);
      GiveUpFifo(s, p, i, t);
    } else {
      GiveUpChans(s, p, c, t);
      FewerWait(s, t, p);
    }
  }

  lemma Spliced(w: seq<nat>, i: nat)
    requires i < |w| && Distinct(w)
    ensures var v := w[..i] + w[i + 1..]; Distinct(v) && forall d :: d in v <==> d in w && d != w[i]
  {
    var v := w[..i] + w[i + 1..];
    forall d | d in w && d != w[i]
      ensures d in v
    {
      var j :| 0 <= j < |w| && w[j] == d;
      assert v[if j < i then j else j - 1] == d;
    }
  }

  /** A client that lost the race against its timeout finds something in its channel: the receive under the lock does not block. */
  lemma NeverBlocks(s: State, p: ClientId)
    requires Inv(s) && ClientOf(s, p).Waiting? && s.clients[p].ready !in s.waiters
    ensures s.clients[p].ready in s.chans && s.chans[s.clients[p].ready] != Empty
  {
    assert Waits(s, p, s.clients[p].ready);
  }

  lemma ReceiveKeeps(s: State, p: ClientId)
    requires Inv(s) && Allowed(s, Receive(p))
    ensures Inv(Next(s, Receive(p)))
  {
    hide Inv;
    var c := s.clients[p].ready;
    assert Waits(s, p, c);
    if s.chans[c].Full? {
      TakeFull(s, p, c);
    } else {
      GiveUp(s, p, c, Next(s, Receive(p)));
    }
  }

  lemma TimeoutKeeps(s: State, p: ClientId)
    requires Inv(s) && Allowed(s, Timeout(p))
    ensures Inv(Next(s, Timeout(p)))
  {
    hide Inv;
    var c := s.clients[p].ready;
    assert Waits(s, p, c);
    if c in s.waiters {
      GiveUp(s, p, c, Next(s, Timeout(p)));
    } else {
      NeverBlocks(s, p);
      if s.chans[c].Full? {
        TakeFull(s, p, c);
      } else {
        GiveUp(s, p, c, Next(s, Timeout(p)));
      }
    }
  }

  lemma CloseKeeps(s: State)
    requires Inv(s)
    ensures Inv(Next(s, Close))
  {
    hide CloseAll;
    var t := Next(s, Close);
    forall c
      ensures c in t.chans <==> c in s.chans || c in s.waiters
      ensures c in t.chans ==> t.chans[c] == if c in s.waiters then Closed else s.chans[c]
    {
      CloseAllIs(s.chans, s.waiters, c);
    }
    assert forall p, d :: Waits(t, p, d) <==> Waits(s, p, d);
    assert forall p, y :: Holds(t, p, y) <==> Holds(s, p, y);
    assert forall d, y :: Carries(t, d, y) <==> Carries(s, d, y);
  }

  lemma NextKeeps(s: State, e: Event)
    requires Inv(s) && Allowed(s, e)
    ensures Inv(Next(s, e))
  {
    hide Inv;
    match e
    case AddServer(x) => AddServerKeeps(s, x);
    case DeleteServer(x) => DeleteServerKeeps(s, x);
    case Acquire(p, spare) => AcquireKeeps(s, p, spare);
    case Receive(p) => ReceiveKeeps(s, p);
    case Timeout(p) => TimeoutKeeps(s, p);
    case Release(p) => ReleaseKeeps(s, p);
    case Close => CloseKeeps(s);
  }

  // ---- runs ------------------------------------------------------------------------------

  ghost predicate Run(s: State, es: seq<Event>)
    decreases |es|
  {
    es == [] || (Allowed(s, es[0]) && Run(Next(s, es[0]), es[1..]))
  }

  ghost function After(s: State, es: seq<Event>): State
    requires Run(s, es)
    decreases |es|
  {
    if es == [] then s else After(Next(s, es[0]), es[1..])
  }

  /** In every interleaving, from a new pooler on, the invariant holds. */
  lemma {:induction false} RunKeeps(s: State, es: seq<Event>)
    requires Inv(s) && Run(s, es)
    ensures Inv(After(s, es))
    decreases |es|
  {
    hide Inv;
    if es != [] {
      NextKeeps(s, es[0]);
      RunKeeps(Next(s, es[0]), es[1..]);
    }
  }

  /** At every point of every run, no two clients hold the same server, and none of theirs is idle or in a channel. */
  lemma NeverShared(es: seq<Event>, p: ClientId, x: ServerId)
    requires Run(Init(), es) && Holds(After(Init(), es), p, x)
    ensures var s := After(Init(), es);
      (forall q | Holds(s, q, x) :: q == p) && x !in s.queue && forall c :: !Carries(s, c, x)
  {
    InitHolds();
    RunKeeps(Init(), es);
  }

  /** At every point of every run, a server that was added and not deleted is somewhere. */
  lemma NeverLost(es: seq<Event>, x: ServerId)
    requires Run(Init(), es) && x in After(Init(), es).servers
    ensures Somewhere(After(Init(), es), x)
  {
    InitHolds();
    RunKeeps(Init(), es);
  }

  /** A server that comes back goes to the client that has waited longest. */
  lemma LongestWaitFirst(s: State, x: ServerId, p: ClientId, q: ClientId, c: ChanId, d: ChanId)
    requires Inv(s) && x in s.servers && Waits(s, p, c) && Waits(s, q, d) && c in s.waiters && d in s.waiters
    requires Carries(Releasing(s, x), c, x) && p != q
    ensures s.clients[p].ticket < s.clients[q].ticket
  {
    assert c == s.waiters[0];
    var j :| 0 <= j < |s.waiters| && s.waiters[j] == d;
    assert c == d ==> p == q;
  }

  // ---- last in, first out ----------------------------------------------------------------

  /** A run is one without its last event, and then that event. */
  lemma {:induction false} RunLast(s: State, es: seq<Event>)
    requires Run(s, es) && es != []
    ensures var n := |es| - 1;
      Run(s, es[..n]) && Allowed(After(s, es[..n]), es[n]) && After(s, es) == Next(After(s, es[..n]), es[n])
    decreases |es|
  {
    hide Allowed, Next;
    if |es| > 1 {
      RunLast(Next(s, es[0]), es[1..]);
      assert es[1..][..|es| - 2] == es[..|es| - 1][1..];
    } else {
      assert es[1..] == [] && es[..0] == [];
    }
  }

  /** The number of events after which an idle server became idle. */
  ghost function IdleSince(es: seq<Event>, x: ServerId): nat
    requires Run(Init(), es)
    decreases |es|
  {
    if es == [] then 0
    else
      RunLast(Init(), es);
      if x in After(Init(), es[..|es| - 1]).queue then IdleSince(es[..|es| - 1], x) else |es|
  }

  lemma QueueShifts(s: State, e: Event)
    requires Inv(s) && Allowed(s, e)
    ensures Shifted(s.queue, Next(s, e).queue)
  {
    match e
    case AddServer(x) => assert x !in s.queue;
    case DeleteServer(x) => WithoutShifts(s.queue, x);
    case Acquire(_, _) =>
      if s.queue != [] && !s.closed {
        assert Cut(s.queue, Next(s, e).queue, |s.queue| - 1);
      }
    case Release(p) => assert Holds(s, p, s.clients[p].server);
    case _ =>
  }

  /** At every point of every run the idle servers stand in the order in which they became idle. */
  lemma {:induction false} StackOrder(es: seq<Event>, i: nat, j: nat)
    requires Run(Init(), es) && i < j < |After(Init(), es).queue|
    ensures var q := After(Init(), es).queue; IdleSince(es, q[i]) < IdleSince(es, q[j])
    decreases |es|
  {
    var n := |es| - 1;
    RunLast(Init(), es);
    InitHolds();
    RunKeeps(Init(), es[..n]);
    var q, r := After(Init(), es[..n]).queue, After(Init(), es).queue;
    QueueShifts(After(Init(), es[..n]), es[n]);
    hide Inv, Next, Allowed, Shifted, Run, After;
    SinceBefore(es[..n]);
    ShiftedOrder(q, r, i, j);
    if InOrder(q, r[i], r[j]) {
      var a, b :| 0 <= a < b < |q| && q[a] == r[i] && q[b] == r[j];
      StackOrder(es[..n], a, b);
    }
  }

  lemma {:induction false} SinceBefore(es: seq<Event>)
    requires Run(Init(), es)
    ensures forall x :: IdleSince(es, x) <= |es|
    decreases |es|
  {
    hide Run, After;
    if es != [] {
      RunLast(Init(), es);
      SinceBefore(es[..|es| - 1]);
    }
  }

  /** In every run, a client that finds idle servers gets the one that became idle last. */
  lemma LastInFirstOut(es: seq<Event>, p: ClientId, spare: ChanId)
    requires Run(Init(), es) && Allowed(After(Init(), es), Acquire(p, spare))
    requires After(Init(), es).queue != [] && !After(Init(), es).closed
    ensures var s := After(Init(), es);
      var t := Next(s, Acquire(p, spare));
      && ClientOf(t, p).Holding?
      && var x := ClientOf(t, p).server;
      && x in s.queue
      && (forall y | y in s.queue && y != x :: IdleSince(es, y) < IdleSince(es, x))
      && (forall y :: y in t.queue <==> y in s.queue && y != x)
  {
    var s := After(Init(), es);
    InitHolds();
    RunKeeps(Init(), es);
    assert Distinct(s.queue);
    var n := |s.queue| - 1;
    forall y | y in s.queue && y != s.queue[n]
      ensures IdleSince(es, y) < IdleSince(es, s.queue[n])
    {
      var i :| 0 <= i < |s.queue| && s.queue[i] == y;
      StackOrder(es, i, n);
    }
  }

  // ---- servers come and go ---------------------------------------------------------------

  lemma GoneStep(s: State, e: Event, x: ServerId)
    requires Inv(s) && Allowed(s, e) && x in s.used && x !in s.servers
    ensures var t := Next(s, e);
      x in t.used && x !in t.servers && x !in t.queue && forall c | Carries(t, c, x) :: Carries(s, c, x)
  {
    NextKeeps(s, e);
    if e.Close? {
      forall c
        ensures Carries(Next(s, e), c, x) ==> Carries(s, c, x)
      {
        CloseAllIs(s.chans, s.waiters, c);
      }
    }
    hide ChansUsed, Accounted, Fifo, Busy;
  }

  /** A deleted server is not idle in any later state, and no later event puts it in a channel. */
  lemma {:induction false} DeletedForGood(s: State, es: seq<Event>, x: ServerId)
    requires Inv(s) && Run(s, es) && x in s.used && x !in s.servers
    ensures var t := After(s, es); x !in t.servers && x !in t.queue && forall c | Carries(t, c, x) :: Carries(s, c, x)
    decreases |es|
  {
    if es != [] {
      GoneStep(s, es[0], x);
      NextKeeps(s, es[0]);
      hide Inv, Next, Allowed, Carries;
      DeletedForGood(Next(s, es[0]), es[1..], x);
    } else {
      hide ChansUsed, Accounted, Fifo, Busy, Carries;
    }
  }

  /** Deleting takes the server out of the pool, wherever it is. */
  lemma DeleteTakesOut(s: State, x: ServerId)
    requires Inv(s) && x in s.servers
    ensures var t := Next(s, DeleteServer(x)); x in t.used && x !in t.servers && Inv(t)
  {
    NextKeeps(s, DeleteServer(x));
    assert x in s.used;
  }

  predicate Removes(e: Event, x: ServerId) {
    e == DeleteServer(x) || e.Close?
  }

  /** A server that was added is idle, in a channel or held until it is deleted or the pooler closes. */
  lemma AddedStays(s: State, es: seq<Event>, x: ServerId)
    requires Inv(s) && Allowed(s, AddServer(x)) && Run(Next(s, AddServer(x)), es)
    requires forall i | 0 <= i < |es| :: !Removes(es[i], x)
    ensures var t := After(Next(s, AddServer(x)), es); x in t.servers && Somewhere(t, x)
  {
    var t := Next(s, AddServer(x));
    NextKeeps(s, AddServer(x));
    RunKeeps(t, es);
    MemberStays(t, es, x);
    hide Next, Somewhere;
  }

  lemma {:induction false} MemberStays(s: State, es: seq<Event>, x: ServerId)
    requires Run(s, es) && x in s.servers
    requires forall i | 0 <= i < |es| :: !Removes(es[i], x)
    ensures x in After(s, es).servers
    decreases |es|
  {
    if es != [] {
      assert !Removes(es[0], x);
      assert x in Next(s, es[0]).servers;
      MemberStays(Next(s, es[0]), es[1..], x);
    }
  }

  /** Once the pooler is closed it stays so, and every client that waits has something to receive. */
  lemma {:induction false} CloseWakes(s: State, es: seq<Event>, p: ClientId)
    requires Inv(s) && s.closed && Run(s, es)
    ensures After(s, es).closed
    ensures ClientOf(After(s, es), p).Waiting? ==> Allowed(After(s, es), Receive(p))
    decreases |es|
  {
    if es != [] {
      NextKeeps(s, es[0]);
      assert Next(s, es[0]).closed;
      hide Inv, Next, Allowed;
      CloseWakes(Next(s, es[0]), es[1..], p);
    } else if ClientOf(s, p).Waiting? {
      assert Waits(s, p, s.clients[p].ready);
    }
  }
}
