/**
 The Pooler of lib/gat/handlers/pool/poolers/lifo/pooler.go: its fields updated in place under a
 lock, its waiters in the ring of module Ring. Each method is one critical section and is proved to
 be the step of LifoSpec that models it. Channels are part of the state; the channel that make
 would create is a parameter.
 */
module Lifo {
  import opened Collections
  import opened LifoSpec
  import Ring

  class Pooler {
    var servers: set<ServerId>
    var queue: seq<ServerId>
    const waiters: Ring.Ring<ChanId>
    var closed: bool
    var pool: seq<ChanId>
    var chans: map<ChanId, Chan>
    ghost var clients: map<ClientId, Client>
    ghost var used: set<ServerId>
    ghost var clock: nat

    ghost predicate Sound()
      reads waiters
    {
      waiters.Valid()
    }

    ghost function View(): State
      requires Sound()
      reads this, waiters, waiters.buf
    {
      State(servers, queue, waiters.Contents(), closed, pool, chans, clients, used, clock)
    }

    constructor ()
      ensures Sound() && fresh(waiters) && fresh(waiters.buf) && View() == Init() && Inv(View())
    {
      waiters := new Ring.Ring<ChanId>();
      servers, queue, closed, pool, chans := {}, [], false, [], map[];
      clients, used, clock := map[], {}, 0;
      new;
      InitHolds();
    }

    /** release, which the caller runs under the lock. */
    method DoRelease(server: ServerId)
      requires Sound()
      modifies this`queue, this`chans, waiters, waiters.buf
      ensures Sound() && (waiters.buf == old(waiters.buf) || fresh(waiters.buf))
      ensures View() == Releasing(old(View()), server)
    {
      hide Ring.Ring.Contents, Ring.Ring.Valid;
      if server !in servers {
        return;
      }
      var c := waiters.PopFront();
      if c.Some? {
        chans := chans[c.value := Full(server)];
        return;
      }
      queue := queue + [server];
    }

    method AddServer(server: ServerId)
      requires Sound() && Inv(View()) && Allowed(View(), Event.AddServer(server))
      modifies this, waiters, waiters.buf
      ensures Sound() && (waiters.buf == old(waiters.buf) || fresh(waiters.buf))
      ensures View() == Next(old(View()), Event.AddServer(server)) && Inv(View())
    {
      hide Inv, Releasing;
      NextKeeps(View(), Event.AddServer(server));
      servers := servers + {server};
      used := used + {server};
      DoRelease(server);
    }

    method DeleteServer(server: ServerId)
      requires Sound() && Inv(View())
      modifies this
      ensures Sound() && View() == Next(old(View()), Event.DeleteServer(server)) && Inv(View())
    {
      hide Inv;
      NextKeeps(View(), Event.DeleteServer(server));
      var q := RemoveFrom(queue, server);
      queue := q;
      servers := servers - {server};
    }

    /** The first critical section of Acquire: a server, a channel to wait on, or neither once closed. */
    method Acquire(ghost client: ClientId, spare: ChanId) returns (v: Option<ServerId>, c: Option<ChanId>)
      requires Sound() && Inv(View()) && Allowed(View(), Event.Acquire(client, spare))
      modifies this, waiters, waiters.buf
      ensures Sound() && (waiters.buf == old(waiters.buf) || fresh(waiters.buf))
      ensures View() == Next(old(View()), Event.Acquire(client, spare)) && Inv(View())
      ensures v.None? && c.None? <==> old(closed)
      ensures v.Some? ==> c.None? && ClientOf(View(), client) == Holding(v.value)
      ensures c.Some? ==> v.None? && ClientOf(View(), client) == Waiting(c.value, old(clock))
    {
      hide Ring.Ring.Contents, Ring.Ring.Valid;
      hide Inv;
      NextKeeps(View(), Event.Acquire(client, spare));
      if closed {
        return None, None;
      }
      if |queue| > 0 {
        var worker := queue[|queue| - 1];
        queue := queue[..|queue| - 1];
        clients := clients[client := Holding(worker)];
        return Some(worker), None;
      }
      var ready := spare;
      if |pool| > 0 {
        ready := pool[|pool| - 1];
        pool := pool[..|pool| - 1];
      }
      chans := chans[ready := Empty];
      waiters.PushBack(ready);
      clients := clients[client := Waiting(ready, clock)];
      clock := clock + 1;
      return None, Some(ready);
    }

    /** A receive from the channel, which has something to give. */
    method Take(ghost client: ClientId, c: ChanId) returns (v: Option<ServerId>)
      requires Sound() && c in chans && chans[c] != Empty
      modifies this`chans, this`pool, this`clients
      ensures View() == Received(old(View()), client, c)
      ensures v == if old(chans)[c].Full? then Some(old(chans)[c].server) else None
    {
      if chans[c].Full? {
        v := Some(chans[c].server);
        chans := chans[c := Empty];
        pool := pool + [c];
        clients := clients[client := Holding(v.value)];
      } else {
        v := None;
        clients := clients[client := Resting];
      }
    }

    /** Acquire goes on when its channel is ready. */
    method Receive(ghost client: ClientId, c: ChanId) returns (v: Option<ServerId>)
      requires Sound() && Inv(View()) && Allowed(View(), Event.Receive(client)) && clients[client].ready == c
      modifies this
      ensures Sound() && View() == Next(old(View()), Event.Receive(client)) && Inv(View())
      ensures ClientOf(View(), client) == if v.Some? then Holding(v.value) else Resting
    {
      hide Inv;
      NextKeeps(View(), Event.Receive(client));
      v := Take(client, c);
    }

    /** One round through the ring takes the channel out and leaves the order of the others. */
    method Rotate(c: ChanId) returns (found: bool)
      requires Sound()
      modifies waiters, waiters.buf
      ensures Sound() && (waiters.buf == old(waiters.buf) || fresh(waiters.buf))
      ensures found <==> c in old(waiters.Contents())
      ensures waiters.Contents() == Except(old(waiters.Contents()), c)
    {
      hide Ring.Ring.Contents, Ring.Ring.Valid, Except;
      ghost var w := waiters.Contents();
      var waitCount := waiters.Length();
      found := false;
      RotateEnds(w, c);
      for i := 0 to waitCount
        invariant waiters.Valid() && (waiters.buf == old(waiters.buf) || fresh(waiters.buf))
        invariant waiters.Contents() == w[i..] + Except(w[..i], c)
        invariant found <==> c in w[..i]
      {
        RotateStep(w, i, c);
        var cc := waiters.PopFront();
        if c == cc.value {
          found := true;
        } else {
          waiters.PushBack(cc.value);
        }
      }
    }

    /** The timeout fired: leave the queue, or take what a release has put in the channel meanwhile. */
    method Timeout(ghost client: ClientId, c: ChanId) returns (v: Option<ServerId>)
      requires Sound() && Inv(View()) && Allowed(View(), Event.Timeout(client)) && clients[client].ready == c
      modifies this, waiters, waiters.buf
      ensures Sound() && (waiters.buf == old(waiters.buf) || fresh(waiters.buf))
      ensures View() == Next(old(View()), Event.Timeout(client)) && Inv(View())
      ensures ClientOf(View(), client) == if v.Some? then Holding(v.value) else Resting
    {
      hide Inv;
      NextKeeps(View(), Event.Timeout(client));
      ghost var s := View();
      if c !in s.waiters {
        NeverBlocks(s, client);
        ExceptOther(s.waiters, c);
      }
      var found := Rotate(c);
      if found {
        pool := pool + [c];
        clients := clients[client := Resting];
        return None;
      }
      v := Take(client, c);
    }

    method Release(ghost client: ClientId, server: ServerId)
      requires Sound() && Inv(View()) && Allowed(View(), Event.Release(client)) && clients[client].server == server
      modifies this, waiters, waiters.buf
      ensures Sound() && (waiters.buf == old(waiters.buf) || fresh(waiters.buf))
      ensures View() == Next(old(View()), Event.Release(client)) && Inv(View())
    {
      hide Inv, Releasing;
      NextKeeps(View(), Event.Release(client));
      clients := clients[client := Resting];
      DoRelease(server);
    }

    method Close()
      requires Sound() && Inv(View())
      modifies this, waiters, waiters.buf
      ensures Sound() && waiters.buf == old(waiters.buf)
      ensures View() == Next(old(View()), Event.Close) && Inv(View())
    {
      hide Inv;
      NextKeeps(View(), Event.Close);
      closed := true;
      servers := {};
      queue := [];
      ghost var w := waiters.Contents();
      while true
        invariant waiters.Valid() && waiters.buf == old(waiters.buf)
        invariant CloseAll(chans, waiters.Contents()) == CloseAll(old(chans), w)
        invariant closed && servers == {} && queue == [] && pool == old(pool)
        invariant clients == old(clients) && used == old(used) && clock == old(clock)
        decreases |waiters.Contents()|
      {
        var c := waiters.PopFront();
        if c.None? {
          return;
        }
        chans := chans[c.value := Closed];
      }
    }
  }

  lemma RotateEnds(w: seq<nat>, c: nat)
    ensures w == w[0..] + Except(w[..0], c) && Except(w, c) == w[|w|..] + Except(w[..|w|], c)
    ensures c !in w[..0] && (c in w[..|w|] <==> c in w)
  {
    assert w[..0] == [] && w[..|w|] == w && w[|w|..] == [];
  }

  /** One step of the round: the first is taken off and, unless it is the one, put back last. */
  lemma RotateStep(w: seq<nat>, i: nat, c: nat)
    requires i < |w|
    ensures var x := w[i..] + Except(w[..i], c);
      && x != [] && x[0] == w[i]
      && w[i + 1..] + Except(w[..i + 1], c) == if w[i] == c then x[1..] else x[1..] + [w[i]]
    ensures c in w[..i + 1] <==> c in w[..i] || w[i] == c
  {
    ExceptNext(w, i, c);
    var x, e := w[i..] + Except(w[..i], c), Except(w[..i], c);
    assert x[1..] == w[i + 1..] + e;
    assert w[i + 1..] + e + [w[i]] == w[i + 1..] + (e + [w[i]]);
  }

  lemma ExceptNext(w: seq<nat>, i: nat, c: nat)
    requires i < |w|
    ensures Except(w[..i + 1], c) == Except(w[..i], c) + (if w[i] == c then [] else [w[i]])
    ensures c in w[..i + 1] <==> c in w[..i] || w[i] == c
  {
    assert w[..i + 1] == w[..i] + [w[i]];
    ExceptAppend(w[..i], w[i], c);
  }

  lemma {:induction false} ExceptAppend(s: seq<nat>, x: nat, c: nat)
    ensures Except(s + [x], c) == Except(s, c) + (if x == c then [] else [x])
  {
    if s != [] {
      ExceptAppend(s[1..], x, c);
      assert (s + [x])[1..] == s[1..] + [x];
    } else {
      assert [x][1..] == [];
    }
  }
}
