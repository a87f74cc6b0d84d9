/**
 The transaction bridge of lib/bouncer/backends/v0/query.go and context.go: relays one
 transaction between a backend and a peer that may send anything and may fail at any read or
 write. The loops are those of the source. The two connections are fields: a conforming backend
 (module Backend) and a peer, each lasting for a finite script.
 */
module Bridge {
  import opened Collections
  import opened Backend

  datatype Error = ConnectionLost | UnexpectedPacket(typ: char) | ExpectedIdle

  /** The peer received a prefix of what it ought to be told, all that was passed on while it is up. */
  ghost predicate Told(received: seq<Packet>, replies: seq<Packet>, passed: nat, up: bool) {
    received <= replies && passed <= |replies| && (up ==> received == replies[..passed])
  }

  /** One more packet to tell, which has not been passed on. */
  lemma ToldMore(received: seq<Packet>, replies: seq<Packet>, passed: nat, up: bool, p: Packet)
    requires Told(received, replies, passed, up)
    ensures Told(received, replies + [p], passed, up)
  {
    assert received <= replies + [p];
    assert (replies + [p])[..passed] == replies[..passed];
  }

  // ---- from the peer to the server -------------------------------------------------------

  /** Which loop reads from the peer: transaction's, eqp's or copyIn's. */
  datatype Mode = Top | Batch | Copying

  /** A packet read from the peer, or one that the bridge supplies because the peer is gone. */
  datatype Move = Got(mode: Mode, packet: Packet) | Supplied(mode: Mode, packet: Packet)

  /** What each loop passes on to the server. */
  predicate Accepts(mode: Mode, p: Packet) {
    match mode
    case Top => p.typ == 'Q' || p.typ == 'F' || IsExtended(p) || p.typ == 'H'
    case Batch => p.typ == 'S' || IsExtended(p) || p.typ == 'H'
    case Copying => p.typ == 'd' || p.typ == 'c' || p.typ == 'f'
  }

  /** A Sync between commands, which the bridge answers by itself. */
  predicate Phony(mode: Mode, p: Packet) {
    mode.Top? && p.typ == 'S'
  }

  /** What each loop supplies once the peer is gone: an ABORT query, a Sync or a CopyFail. */
  predicate Supplies(mode: Mode, p: Packet) {
    match mode
    case Top => p.typ == 'Q'
    case Batch => p.typ == 'S'
    case Copying => p.typ == 'f'
  }

  ghost function Reads(log: seq<Move>): seq<Packet> {
    if log == [] then []
    else Reads(log[..|log| - 1]) + if log[|log| - 1].Got? then [log[|log| - 1].packet] else []
  }

  ghost function Writes(log: seq<Move>): seq<Packet> {
    if log == [] then []
    else
      var m := log[|log| - 1];
      Writes(log[..|log| - 1]) + if m.Supplied? || Accepts(m.mode, m.packet) then [m.packet] else []
  }

  ghost function Phonies(log: seq<Move>): nat {
    if log == [] then 0
    else
      var m := log[|log| - 1];
      Phonies(log[..|log| - 1]) + if m.Got? && Phony(m.mode, m.packet) then 1 else 0
  }

  /** The peer has not failed: nothing was supplied, and nothing came that was not expected. */
  ghost predicate Clean(log: seq<Move>) {
    forall m | m in log :: m.Got? && (Accepts(m.mode, m.packet) || Phony(m.mode, m.packet))
  }

  /** Nothing is read after the peer has failed, and only what is due is supplied. */
  ghost predicate Legal(log: seq<Move>) {
    log == [] ||
    (var m := log[|log| - 1];
     Legal(log[..|log| - 1]) && if m.Got? then Clean(log[..|log| - 1]) else Supplies(m.mode, m.packet))
  }

  /** What the peer is to blame for: the first packet that was not expected. */
  ghost function Fault(log: seq<Move>): Option<Error> {
    if log == [] then None
    else
      var m := log[|log| - 1];
      if m.Got? && !Accepts(m.mode, m.packet) && !Phony(m.mode, m.packet) then Some(UnexpectedPacket(m.packet.typ))
      else Fault(log[..|log| - 1])
  }

  /** The error kept for the peer says so, or else that its connection was lost, if anything. */
  ghost predicate Blames(log: seq<Move>, err: Option<Error>) {
    err == Fault(log) || (Fault(log).None? && err == Some(ConnectionLost))
  }

  /** What was written to the server, and what is left of all that the peer sends, are what the log says. */
  ghost predicate Lawful(log: seq<Move>, wrote: seq<Packet>, rest: seq<Packet>, all: seq<Packet>, phony: nat) {
    Legal(log) && Writes(log) == wrote && Reads(log) + rest == all && Phonies(log) == phony
  }

  lemma LogMore(log: seq<Move>, m: Move)
    ensures Reads(log + [m]) == Reads(log) + if m.Got? then [m.packet] else []
    ensures Writes(log + [m]) == Writes(log) + if m.Supplied? || Accepts(m.mode, m.packet) then [m.packet] else []
    ensures Phonies(log + [m]) == Phonies(log) + if m.Got? && Phony(m.mode, m.packet) then 1 else 0
    ensures Legal(log + [m]) <==> Legal(log) && if m.Got? then Clean(log) else Supplies(m.mode, m.packet)
    ensures Clean(log + [m]) <==> Clean(log) && m.Got? && (Accepts(m.mode, m.packet) || Phony(m.mode, m.packet))
    ensures Fault(log + [m]) ==
      if m.Got? && !Accepts(m.mode, m.packet) && !Phony(m.mode, m.packet) then Some(UnexpectedPacket(m.packet.typ)) else Fault(log)
  {
    assert (log + [m])[..|log|] == log && (log + [m])[|log|] == m;
    assert forall x :: x in log + [m] <==> x in log || x == m;
  }

  /** The peer's next packet: to be written if the loop accepts it, to be answered if it is a phony Sync. */
  lemma LawfulGot(log: seq<Move>, wrote: seq<Packet>, rest: seq<Packet>, all: seq<Packet>, phony: nat, mode: Mode)
    requires Lawful(log, wrote, rest, all, phony) && Clean(log) && rest != []
    ensures var p, more := rest[0], log + [Got(mode, rest[0])];
      if Accepts(mode, p) then Lawful(more, wrote + [p], rest[1..], all, phony) && Clean(more)
      else if Phony(mode, p) then Lawful(more, wrote, rest[1..], all, phony + 1) && Clean(more)
      else Lawful(more, wrote, rest[1..], all, phony)
    ensures var p, more := rest[0], log + [Got(mode, rest[0])];
      Fault(more) == if Accepts(mode, p) || Phony(mode, p) then Fault(log) else Some(UnexpectedPacket(p.typ))
  {
    hide Reads, Writes, Phonies, Legal, Clean, Fault;
    LogMore(log, Got(mode, rest[0]));
    assert Reads(log) + rest == (Reads(log) + [rest[0]]) + rest[1..];
    assert wrote + [] == wrote;
  }

  lemma LawfulSupply(log: seq<Move>, wrote: seq<Packet>, rest: seq<Packet>, all: seq<Packet>, phony: nat, mode: Mode, p: Packet)
    requires Lawful(log, wrote, rest, all, phony) && Supplies(mode, p)
    ensures Lawful(log + [Supplied(mode, p)], wrote + [p], rest, all, phony) && Fault(log + [Supplied(mode, p)]) == Fault(log)
  {
    hide Reads, Writes, Phonies, Legal, Clean, Fault;
    LogMore(log, Supplied(mode, p));
    assert Reads(log) + [] == Reads(log);
  }

  lemma LawfulFirst(p: Packet, rest: seq<Packet>)
    ensures var log := [Got(Top, p)];
      if Accepts(Top, p) then Lawful(log, [p], rest, [p] + rest, 0) && Clean(log)
      else if Phony(Top, p) then Lawful(log, [], rest, [p] + rest, 1) && Clean(log)
      else Lawful(log, [], rest, [p] + rest, 0)
    ensures Fault([Got(Top, p)]) == if Accepts(Top, p) || Phony(Top, p) then None else Some(UnexpectedPacket(p.typ))
  {
    LawfulGot([], [], [p] + rest, [p] + rest, 0, Top);
    assert [] + [p] == [p] && [] + [Got(Top, p)] == [Got(Top, p)] && ([p] + rest)[1..] == rest;
  }

  /** As long as the peer is up, what it sent is what the server was sent, but for the phony Syncs. */
  lemma {:induction false} CleanRelays(log: seq<Move>)
    requires Clean(log)
    ensures |Reads(log)| == |Writes(log)| + Phonies(log)
    ensures Phonies(log) == 0 ==> Reads(log) == Writes(log)
  {
    if log != [] {
      var init, m := log[..|log| - 1], log[|log| - 1];
      assert m in log;
      CleanRelays(init);
    }
  }

  // ---- copy data -------------------------------------------------------------------------

  const COPY_FAIL := Packet('f', ' ')

  /** How much copy data comes first. */
  function DataFirst(q: seq<Packet>): (n: nat)
    ensures n <= |q| && (forall i | 0 <= i < n :: q[i].typ == 'd') && (n < |q| ==> q[n].typ != 'd')
  {
    if q == [] || q[0].typ != 'd' then 0 else 1 + DataFirst(q[1..])
  }

  /** The copy data and what ends it: the peer's own CopyDone or CopyFail, or a CopyFail in its place. */
  function CopyFeed(up: bool, q: seq<Packet>): seq<Packet> {
    var n := DataFirst(q);
    if !up then [COPY_FAIL]
    else if n < |q| && (q[n].typ == 'c' || q[n].typ == 'f') then q[..n + 1]
    else q[..n] + [COPY_FAIL]
  }

  /** What was sent, and what is still to come, of some copy data. */
  ghost predicate Feeding(inbox: seq<Packet>, up: bool, q: seq<Packet>, all: seq<Packet>) {
    inbox + CopyFeed(up, q) == all
  }

  lemma FeedStarts(inbox: seq<Packet>, up: bool, q: seq<Packet>)
    ensures Feeding(inbox, up, q, inbox + CopyFeed(up, q))
  {
  }

  lemma FeedEnds(inbox: seq<Packet>, up: bool, q: seq<Packet>, all: seq<Packet>)
    requires Feeding(inbox, up, q, all)
    ensures !up || q == [] ==> all == inbox + [COPY_FAIL]
    ensures up && q != [] && (q[0].typ == 'c' || q[0].typ == 'f') ==> all == inbox + [q[0]]
  {
    if q != [] {
      assert q[..1] == [q[0]];
    } else {
      assert q[..0] + [COPY_FAIL] == [COPY_FAIL];
    }
  }

  lemma FeedMore(inbox: seq<Packet>, q: seq<Packet>, all: seq<Packet>)
    requires Feeding(inbox, true, q, all) && q != []
    ensures q[0].typ == 'd' ==> Feeding(inbox + [q[0]], true, q[1..], all)
    ensures q[0].typ != 'd' && q[0].typ != 'c' && q[0].typ != 'f' ==> Feeding(inbox, false, q[1..], all)
  {
    var n := DataFirst(q);
    if q[0].typ == 'd' {
      assert q[..n] == [q[0]] + q[1..][..n - 1];
      assert n < |q| ==> q[..n + 1] == [q[0]] + q[1..][..n];
      assert CopyFeed(true, q) == [q[0]] + CopyFeed(true, q[1..]);
      assert (inbox + [q[0]]) + CopyFeed(true, q[1..]) == inbox + ([q[0]] + CopyFeed(true, q[1..]));
    } else {
      assert q[..0] + [COPY_FAIL] == [COPY_FAIL];
    }
  }

  class Binding {
    // the server connection: the backend, what it will do, and how many writes it survives
    var backend: State
    var script: seq<Action>
    var serverWrites: nat

    // the peer connection: what it will send, how many writes it survives, and what it got
    var peerScript: seq<Packet>
    var peerWrites: nat
    var received: seq<Packet>

    var peer: bool
    var packet: Packet
    var peerError: Option<Error>
    var txState: char

    /** How often Sync returned without waiting for the ReadyForQuery of the Sync it sent. */
    ghost var skips: nat
    /** What the peer ought to be told, and how much of it was passed on. */
    ghost var replies: seq<Packet>
    ghost var passed: nat
    /** A server read was issued with the backend stuck, or able to get stuck, before its next reply. */
    ghost var starved: bool
    /** What came from the peer or was supplied, what was written to the server, and the phony Syncs answered. */
    ghost var log: seq<Move>
    ghost var wrote: seq<Packet>
    ghost var phony: nat
    /** All that the peer sends: the first packet and its script. */
    ghost const all: seq<Packet>

    constructor (backend: State, script: seq<Action>, serverWrites: nat,
                 peer: bool, peerScript: seq<Packet>, peerWrites: nat, packet: Packet)
      ensures this.backend == backend && this.script == script && this.serverWrites == serverWrites
      ensures this.peer == peer && this.peerScript == peerScript && this.peerWrites == peerWrites
      ensures this.packet == packet && txState == '\0' && skips == 0 && replies == [] && !starved
      ensures received == [] && peerError.None?
      ensures Valid() && Even() && Fresh(Top) && wrote == [] && all == [packet] + peerScript
    {
      hide Lawful, Clean, Fault;
      this.backend, this.script, this.serverWrites := backend, script, serverWrites;
      this.peer, this.peerScript, this.peerWrites, this.received := peer, peerScript, peerWrites, [];
      this.packet, peerError, txState := packet, None, '\0';
      skips, replies, passed, starved := 0, [], 0, false;
      log, wrote, phony, all := [Got(Top, packet)], [], 0, [packet] + peerScript;
      LawfulFirst(packet, peerScript);
      assert [] + [packet] == [packet];
    }

    ghost predicate Valid()
      reads this`received, this`replies, this`passed, this`peer, this`peerError
    {
      Told(received, replies, passed, PeerOK())
    }

    /** Everything due to the peer has been passed on. */
    ghost predicate Even()
      reads this`passed, this`replies
    {
      passed == |replies|
    }

    /** The packet just read is the only one not passed on. */
    ghost predicate Odd()
      reads this`passed, this`replies, this`packet
    {
      passed + 1 == |replies| && replies[passed] == packet
    }

    predicate PeerOK()
      reads this`peer, this`peerError
    {
      peer && peerError.None?
    }

    /** The server was sent what the log says. */
    ghost predicate Logged()
      reads this`log, this`wrote, this`peerScript, this`phony
    {
      Lawful(log, wrote, peerScript, all, phony)
    }

    /** So it was, and the peer is up only if it sent what was expected. */
    ghost predicate Level()
      reads this`log, this`wrote, this`peerScript, this`phony, this`peer, this`peerError
    {
      Logged() && (PeerOK() ==> Clean(log)) && Blames(log, peerError)
    }

    /** While the peer is up, what it sent and what the server was sent are the same, but for the phony Syncs. */
    lemma Relayed()
      requires Level()
      ensures PeerOK() ==> |wrote| + phony + |peerScript| == |all| && (phony == 0 ==> wrote + peerScript == all)
    {
      if PeerOK() {
        CleanRelays(log);
      }
    }

    /** It will be so once `packet` is written. */
    ghost predicate Due()
      reads this`log, this`wrote, this`peerScript, this`phony, this`peer, this`peerError, this`packet
    {
      Lawful(log, wrote + [packet], peerScript, all, phony) && (PeerOK() ==> Clean(log)) && Blames(log, peerError)
    }

    /** It will be so once `packet`, a phony Sync, is answered. */
    ghost predicate PhonyDue()
      reads this`log, this`wrote, this`peerScript, this`phony, this`peer, this`peerError
    {
      Lawful(log, wrote, peerScript, all, phony + 1) && (PeerOK() ==> Clean(log)) && Blames(log, peerError)
    }

    /** It is so, but the peer is to blame for `packet`. */
    ghost predicate Blameworthy(err: Error)
      reads this`log, this`wrote, this`peerScript, this`phony
    {
      Logged() && Fault(log) == Some(err)
    }

    /** `packet` was just read from the peer. */
    ghost predicate Fresh(mode: Mode)
      reads this
    {
      if Accepts(mode, packet) then Due()
      else if Phony(mode, packet) then PhonyDue()
      else Blameworthy(UnexpectedPacket(packet.typ))
    }

    /** An escape is not undone, and there is none without a copy-in. */
    twostate predicate EscapeStays()
      reads this
    {
      && (old(backend.escaped) ==> backend.escaped)
      && (old(Calm(backend) && NoCopyIn(script)) ==> Calm(backend) && NoCopyIn(script))
    }

    /** ReadyForQuery still owed, were it not for the Syncs given up on. */
    ghost function Net(): int
      reads this
    {
      Owed(backend) + backend.swallowed - skips
    }

    /** Where an operation leaves the backend when it succeeds: idle, its status known. */
    ghost predicate Settled()
      reads this
    {
      backend.phase == Idle && Closed(backend.inbox) && txState == backend.status && IsStatus(txState)
    }

    // ---- context.go ----------------------------------------------------------------------

    method PeerFail(err: Error)
      requires Valid()
      modifies this`peer, this`peerError
      ensures Valid() && !PeerOK() && peerError == Some(err)
      ensures old(Blameworthy(err)) || (err == ConnectionLost && old(Level() && PeerOK())) ==> Level()
    {
      peer := false;
      peerError := Some(err);
    }

    method PeerRead(ghost mode: Mode) returns (ok: bool)
      requires Valid() && Level()
      modifies this`peer, this`peerError, this`packet, this`peerScript, this`log
      ensures Valid() && ok == PeerOK() && ok == (old(PeerOK()) && old(peerScript) != [])
      ensures ok ==> packet == old(peerScript)[0] && peerScript == old(peerScript)[1..] && Fresh(mode)
      ensures !ok ==> peerScript == old(peerScript) && Level()
    {
      hide Lawful, Clean, Fault;
      if !PeerOK() {
        return false;
      }
      if peerScript == [] {
        packet := Packet(' ', ' ');
        PeerFail(ConnectionLost);
        return false;
      }
      LawfulGot(log, wrote, peerScript, all, phony, mode);
      packet, peerScript := peerScript[0], peerScript[1..];
      log := log + [Got(mode, packet)];
      return true;
    }

    method PeerWrite()
      requires Valid() && Odd()
      modifies this`peer, this`peerError, this`passed, this`peerWrites, this`received
      ensures Valid() && Even()
      ensures PeerOK() <==> old(PeerOK()) && old(peerWrites) > 0
      ensures received == if PeerOK() then old(received) + [packet] else old(received)
      ensures PeerOK() ==> peerWrites == old(peerWrites) - 1
      ensures old(Level()) ==> Level()
    {
      if PeerOK() {
        if peerWrites == 0 {
          PeerFail(ConnectionLost);
        } else {
          peerWrites := peerWrites - 1;
          received := received + [packet];
        }
      }
      passed := passed + 1;
    }

    /** Answers a Sync of the peer that the backend never gets to see. */
    method PhonyReady()
      requires Valid() && Even() && Phony(Top, packet) && Fresh(Top)
      modifies this`peer, this`peerError, this`packet, this`passed, this`replies, this`peerWrites, this`received, this`phony
      ensures Valid() && Even() && replies == old(replies) + [Packet('Z', txState)] && phony == old(phony) + 1 && Level()
    {
      hide Lawful, Clean, Fault, Told;
      phony := phony + 1;
      ToldMore(received, replies, passed, PeerOK(), Packet('Z', txState));
      packet := Packet('Z', txState);
      replies := replies + [packet];
      PeerWrite();
    }

    /** The bridge supplies `packet` in the peer's place. */
    ghost method Supply(mode: Mode)
      requires Level() && !PeerOK() && Supplies(mode, packet)
      modifies this`log
      ensures Due() && log == old(log) + [Supplied(mode, packet)]
    {
      LawfulSupply(log, wrote, peerScript, all, phony, mode, packet);
      log := log + [Supplied(mode, packet)];
    }

    /** Lets the backend run until it replies, unless the connection breaks first. */
    method RunBackend() returns (reply: Option<Packet>)
      modifies this`backend, this`script
      ensures |script| <= |old(script)| && EscapeStays()
      ensures reply.Some? <==> Await(old(backend), old(script)).Some?
      ensures reply.Some? ==> Await(old(backend), old(script)) == Some(Answer(backend, reply.value, script)) && |script| < |old(script)|
    {
      hide Step, NoCopyIn;
      while script != []
        invariant Await(backend, script) == Await(old(backend), old(script)) && |script| <= |old(script)| && EscapeStays()
        decreases |script|
      {
        var o := Step(backend, script[0]);
        if o.None? {
          return None;
        }
        if backend.escaped {
          EscapedStays(backend, script[0]);
        }
        if Calm(backend) && NoCopyIn(script) {
          CalmStays(backend, script);
        }
        script := script[1..];
        backend := o.value.state;
        if o.value.reply.Some? {
          return o.value.reply;
        }
      }
      return None;
    }

    method ServerRead() returns (err: Option<Error>)
      requires Valid() && Even()
      modifies this`packet, this`replies, this`starved, this`backend, this`script
      ensures Valid() && starved == (old(starved) || !BoundToFinish(old(backend))) && |script| <= |old(script)| && EscapeStays()
      ensures err.Some? ==> err.value == ConnectionLost
      ensures err.None? ==> Await(old(backend), old(script)) == Some(Answer(backend, packet, script))
      ensures Await(old(backend), old(script)).Some? ==> err.None?
      ensures err.None? ==> Odd() && |script| < |old(script)|
      ensures err.None? ==>
        && Owed(backend) + Sent(Some(packet)) + backend.swallowed == old(Owed(backend) + backend.swallowed)
        && (packet.typ == 'Z' ==> backend.phase == Idle && backend.status == packet.status && IsStatus(packet.status))
        && (Closed(old(backend.inbox)) ==> Closed(backend.inbox))
    {
      hide Step, Await, Closed, BoundToFinish, Owed, NoCopyIn, Calm, Told;
      starved := starved || !BoundToFinish(backend);
      if Await(backend, script).Some? {
        AwaitConserves(backend, script);
      }
      var reply := RunBackend();
      if reply.None? {
        return Some(ConnectionLost);
      }
      packet := reply.value;
      ToldMore(received, replies, passed, PeerOK(), packet);
      replies := replies + [packet];
      return None;
    }

    method ServerWrite() returns (err: Option<Error>)
      modifies this`backend, this`serverWrites, this`wrote
      ensures EscapeStays()
      ensures err.None? <==> old(serverWrites) > 0
      ensures err.Some? ==> err.value == ConnectionLost && backend == old(backend) && wrote == old(wrote)
      ensures err.None? ==> backend == Send(old(backend), packet) && serverWrites == old(serverWrites) - 1
      ensures err.None? ==> wrote == old(wrote) + [packet] && (old(Due()) ==> Level())
    {
      hide Lawful, Clean, Fault;
      if serverWrites == 0 {
        return Some(ConnectionLost);
      }
      serverWrites := serverWrites - 1;
      backend := Send(backend, packet);
      wrote := wrote + [packet];
      return None;
    }

    // ---- query.go ------------------------------------------------------------------------

    /** One round of copyIn: the next packet of the peer, or a CopyFail. */
    method CopyPacket(ghost first: State, ghost feed: seq<Packet>) returns (done: bool, err: Option<Error>)
      requires Valid() && Even() && Level() && Fed(first, backend) && Feeding(backend.inbox, PeerOK(), peerScript, feed)
      modifies this`peer, this`peerError, this`packet, this`peerScript, this`backend, this`serverWrites, this`log, this`wrote
      ensures Valid() && Even() && |peerScript| <= |old(peerScript)| && EscapeStays() && (PeerOK() ==> old(PeerOK()))
      ensures err.Some? ==> err.value == ConnectionLost
      ensures err.None? ==> Fed(first, backend) && Level()
      ensures err.None? && done ==> HasEnd(backend.inbox) && backend.inbox == feed
      ensures err.None? && !done ==>
        Feeding(backend.inbox, PeerOK(), peerScript, feed) && |peerScript| < |old(peerScript)|
    {
      hide Step, Await, Commands, Closed, InCommand, InExtended, BoundToFinish, HasEnd, Tracked, BeforeEnd, Quiet,
           Querying, Syncing, Batching, Fed, Owed, OwesNow, Told, GotQuery, GotSync, NoCopyIn,
           Level, Due, Logged, PhonyDue, Blameworthy, Valid, Even, Odd, CopyFeed, Feeding;
      done, err := true, None;
      ghost var before := backend;
      FeedEnds(backend.inbox, PeerOK(), peerScript, feed);
      if PeerOK() && peerScript != [] {
        FeedMore(backend.inbox, peerScript, feed);
      }
      var ok := PeerRead(Copying);
      if !ok {
        packet := COPY_FAIL;
        Supply(Copying);
        err := ServerWrite();
        FedEnd(first, before, packet);
        return;
      }
      if packet.typ == 'd' {
        err := ServerWrite();
        FedAppend(first, before, packet);
        done := false;
      } else if packet.typ == 'c' || packet.typ == 'f' {
        err := ServerWrite();
        FedEnd(first, before, packet);
      } else {
        PeerFail(UnexpectedPacket(packet.typ));
        done := false;
      }
    }

    /**
     Relays copy-in data until the peer ends it or fails; the backend is not read from. The server is
     sent the data and its end as the peer sent them, or what came and a CopyFail.
     */
    method CopyIn() returns (err: Option<Error>)
      requires Valid() && Odd() && Level()
      modifies this`peer, this`peerError, this`packet, this`passed, this`peerWrites, this`received,
               this`peerScript, this`backend, this`serverWrites, this`log, this`wrote
      ensures Valid() && Even() && |peerScript| <= |old(peerScript)| && EscapeStays() && (PeerOK() ==> old(PeerOK()))
      ensures err.Some? ==> err.value == ConnectionLost
      ensures err.None? ==> Fed(old(backend), backend) && HasEnd(backend.inbox) && Level()
      ensures err.None? ==>
        backend.inbox == old(backend.inbox) + CopyFeed(old(PeerOK() && peerWrites > 0), old(peerScript))
    {
      hide Step, Await, Commands, Closed, InCommand, InExtended, BoundToFinish, HasEnd, Tracked, BeforeEnd, Quiet,
           Querying, Syncing, Batching, Fed, Owed, OwesNow, Told, GotQuery, GotSync, NoCopyIn,
           Level, Due, Logged, PhonyDue, Blameworthy, Valid, Even, Odd, CopyFeed, Feeding;
      PeerWrite();
      FedSelf(backend);
      ghost var feed := backend.inbox + CopyFeed(PeerOK(), peerScript);
      FeedStarts(backend.inbox, PeerOK(), peerScript);
      while true
        invariant Valid() && Even() && |peerScript| <= |old(peerScript)| && EscapeStays() && (PeerOK() ==> old(PeerOK()))
        invariant Fed(old(backend), backend) && Level() && Feeding(backend.inbox, PeerOK(), peerScript, feed)
        decreases |peerScript|
      {
        var done;
        done, err := CopyPacket(old(backend), feed);
        if err.Some? || done {
          return;
        }
      }
    }

    /** One round of copyOut: the next reply of the backend. */
    method CopyOutPacket() returns (done: bool, err: Option<Error>)
      requires Valid() && Even()
      modifies this`peer, this`peerError, this`packet, this`passed, this`replies, this`peerWrites, this`received,
               this`starved, this`backend, this`script
      ensures Valid() && |script| <= |old(script)| && EscapeStays() && (old(Level()) ==> Level()) && (PeerOK() ==> old(PeerOK()))
      ensures err.None? ==> Even() && Net() == old(Net()) && (Closed(old(backend.inbox)) ==> Closed(backend.inbox))
      ensures err.None? ==> |script| < |old(script)|
      ensures old(backend.phase.CopyOut? && Querying(backend)) ==>
        && starved == old(starved) && (err.Some? ==> err.value == ConnectionLost)
        && (err.None? ==> Querying(backend) && (done <==> !backend.phase.CopyOut?))
      ensures old(backend.phase.CopyOut? && Syncing(backend, skips)) ==>
        && starved == old(starved) && (err.Some? ==> err.value == ConnectionLost)
        && (err.None? ==> Syncing(backend, skips) && (done <==> !backend.phase.CopyOut?))
    {
      hide Step, Await, Commands, Closed, InCommand, InExtended, BoundToFinish, HasEnd, Tracked, BeforeEnd, Quiet,
           Querying, Syncing, Batching, Fed, Owed, OwesNow, Told, GotQuery, GotSync, NoCopyIn,
           Level, Due, Logged, PhonyDue, Blameworthy, Valid, Even, Odd;
      done := false;
      if backend.phase.CopyOut? {
        CopyOutRead(backend, script, skips);
      }
      err := ServerRead();
      if err.Some? {
        return;
      }
      if packet.typ in {'d', 'N', 'S', 'A'} {
        PeerWrite();
      } else if packet.typ == 'c' || packet.typ == 'E' {
        PeerWrite();
        done := true;
      } else {
        err := Some(UnexpectedPacket(packet.typ));
      }
    }

    /** Relays copy-out data until the backend ends it. */
    method CopyOut() returns (err: Option<Error>)
      requires Valid() && Odd()
      modifies this`peer, this`peerError, this`packet, this`passed, this`replies, this`peerWrites, this`received,
               this`starved, this`backend, this`script
      ensures Valid() && |script| <= |old(script)| && EscapeStays() && (old(Level()) ==> Level()) && (PeerOK() ==> old(PeerOK()))
      ensures err.None? ==> Even() && Net() == old(Net()) && (Closed(old(backend.inbox)) ==> Closed(backend.inbox))
      ensures old(backend.phase.CopyOut? && Querying(backend)) ==>
        && starved == old(starved) && (err.Some? ==> err.value == ConnectionLost)
        && (err.None? ==> Querying(backend) && !backend.phase.CopyOut?)
      ensures old(backend.phase.CopyOut? && Syncing(backend, skips)) ==>
        && starved == old(starved) && (err.Some? ==> err.value == ConnectionLost)
        && (err.None? ==> Syncing(backend, skips) && !backend.phase.CopyOut?)
    {
      hide Step, Await, Commands, Closed, InCommand, InExtended, BoundToFinish, HasEnd, Tracked, BeforeEnd, Quiet,
           Querying, Syncing, Batching, Fed, Owed, OwesNow, Told, GotQuery, GotSync, NoCopyIn,
           Level, Due, Logged, PhonyDue, Blameworthy, Valid, Even, Odd;
      PeerWrite();
      while true
        invariant Valid() && Even() && |script| <= |old(script)| && EscapeStays() && (old(Level()) ==> Level()) && (PeerOK() ==> old(PeerOK()))
        invariant Net() == old(Net()) && (Closed(old(backend.inbox)) ==> Closed(backend.inbox))
        invariant old(backend.phase.CopyOut? && Querying(backend)) ==>
          starved == old(starved) && backend.phase.CopyOut? && Querying(backend)
        invariant old(backend.phase.CopyOut? && Syncing(backend, skips)) ==>
          starved == old(starved) && backend.phase.CopyOut? && Syncing(backend, skips)
        decreases |script|
      {
        var done;
        done, err := CopyOutPacket();
        if err.Some? || done {
          return;
        }
      }
    }

    /** The body of query's switch: relays the reply just read. */
    method QueryCase() returns (done: bool, err: Option<Error>)
      requires Valid() && Odd() && Closed(backend.inbox) && Level()
      modifies this`peer, this`peerError, this`packet, this`passed, this`replies, this`peerWrites, this`received,
               this`peerScript, this`starved, this`backend, this`script, this`serverWrites, this`txState,
               this`log, this`wrote
      ensures Valid() && |script| <= |old(script)| && |peerScript| <= |old(peerScript)| && EscapeStays()
      ensures err.None? ==> Even() && done == (old(packet.typ) == 'Z') && Net() == old(Net()) && Closed(backend.inbox) && Level()
      ensures err.None? && done ==> backend == old(backend) && txState == old(packet.status)
      ensures old(GotQuery(backend, packet.typ)) ==>
        && starved == old(starved) && (err.Some? ==> err.value == ConnectionLost)
        && (err.None? && !done ==> Querying(backend) && !backend.phase.CopyOut?)
    {
      hide Step, Await, Commands, Closed, InCommand, InExtended, BoundToFinish, HasEnd, Tracked, BeforeEnd, Quiet,
           Querying, Syncing, Batching, Fed, Owed, OwesNow, Told, GotQuery, GotSync, NoCopyIn,
           Level, Due, Logged, PhonyDue, Blameworthy, Valid, Even, Odd;
      done, err := false, None;
      if GotQuery(backend, packet.typ) {
        GotQueryCases(backend, packet.typ);
      }
      if QueryReply(packet.typ) {
        PeerWrite();
      } else if packet.typ == 'G' {
        ghost var before := backend;
        err := CopyIn();
        if err.None? {
          FedQuerying(before, backend);
        }
      } else if packet.typ == 'H' {
        err := CopyOut();
      } else if packet.typ == 'Z' {
        txState := packet.status;
        PeerWrite();
        done := true;
      } else {
        err := Some(UnexpectedPacket(packet.typ));
      }
    }

    /** Sends `packet`, a Query, and relays until its ReadyForQuery. */
    method Query() returns (err: Option<Error>)
      requires Valid() && Even() && packet.typ == 'Q' && Due()
      modifies this`peer, this`peerError, this`packet, this`passed, this`replies, this`peerWrites, this`received,
               this`peerScript, this`starved, this`backend, this`script, this`serverWrites, this`txState,
               this`log, this`wrote
      ensures Valid() && |script| <= |old(script)| && |peerScript| <= |old(peerScript)| && EscapeStays()
      ensures err.None? ==> Even() && Net() == old(Net()) && Settled() && Level()
      ensures old(Quiet(backend)) ==> starved == old(starved) && (err.Some? ==> err.value == ConnectionLost)
      ensures old(Quiet(backend)) && err.None? ==> Quiet(backend)
    {
      hide Step, Await, Commands, Closed, InCommand, InExtended, BoundToFinish, HasEnd, Tracked, BeforeEnd, Quiet,
           Querying, Syncing, Batching, Fed, Owed, OwesNow, Told, GotQuery, GotSync, NoCopyIn,
           Level, Due, Logged, PhonyDue, Blameworthy, Valid, Even, Odd;
      SendOwes(backend, packet);
      if Quiet(backend) {
        SendCommand(backend, packet);
      }
      err := ServerWrite();
      if err.Some? {
        return;
      }
      while true
        invariant Valid() && Even() && |script| <= |old(script)| && |peerScript| <= |old(peerScript)| && EscapeStays()
        invariant Net() == old(Net()) + 1 && Closed(backend.inbox) && Level()
        invariant old(Quiet(backend)) ==> starved == old(starved) && Querying(backend) && !backend.phase.CopyOut?
        decreases |script|
      {
        if Querying(backend) && !backend.phase.CopyOut? {
          QueryRead(backend, script);
        }
        err := ServerRead();
        if err.Some? {
          return;
        }
        if GotQuery(backend, packet.typ) {
          GotQueryCases(backend, packet.typ);
        }
        var done;
        done, err := QueryCase();
        if err.Some? || done {
          return;
        }
      }
    }

    /** The body of functionCall's switch: relays the reply just read. */
    method FunctionCase() returns (done: bool, err: Option<Error>)
      requires Valid() && Odd()
      modifies this`peer, this`peerError, this`passed, this`peerWrites, this`received, this`txState
      ensures Valid() && (old(Level()) ==> Level())
      ensures err.None? <==> CallReply(packet.typ) || packet.typ == 'Z'
      ensures err.None? ==> Even() && done == (packet.typ == 'Z') && (done ==> txState == packet.status)
    {
      hide Told, Level;
      done, err := false, None;
      if CallReply(packet.typ) {
        PeerWrite();
      } else if packet.typ == 'Z' {
        txState := packet.status;
        PeerWrite();
        done := true;
      } else {
        err := Some(UnexpectedPacket(packet.typ));
      }
    }

    /** Sends `packet`, a FunctionCall, and relays until its ReadyForQuery. */
    method FunctionCall() returns (err: Option<Error>)
      requires Valid() && Even() && packet.typ == 'F' && Due()
      modifies this`peer, this`peerError, this`packet, this`passed, this`replies, this`peerWrites, this`received,
               this`starved, this`backend, this`script, this`serverWrites, this`txState, this`wrote
      ensures Valid() && |script| <= |old(script)| && EscapeStays()
      ensures err.None? ==> wrote == old(wrote) + [old(packet)]
      ensures err.None? ==> Even() && Net() == old(Net()) && Settled() && Level()
      ensures old(Quiet(backend)) ==> starved == old(starved) && (err.Some? ==> err.value == ConnectionLost)
      ensures old(Quiet(backend)) && err.None? ==> Quiet(backend)
    {
      hide Step, Await, Commands, Closed, InCommand, InExtended, BoundToFinish, HasEnd, Tracked, BeforeEnd, Quiet,
           Querying, Syncing, Batching, Fed, Owed, OwesNow, Told, GotQuery, GotSync, NoCopyIn,
           Level, Due, Logged, PhonyDue, Blameworthy, Valid, Even, Odd;
      SendOwes(backend, packet);
      if Quiet(backend) {
        SendCommand(backend, packet);
      }
      err := ServerWrite();
      if err.Some? {
        return;
      }
      while true
        invariant Valid() && Even() && |script| <= |old(script)| && EscapeStays()
        invariant wrote == old(wrote) + [old(packet)]
        invariant Net() == old(Net()) + 1 && Closed(backend.inbox) && Level()
        invariant old(Quiet(backend)) ==> starved == old(starved) && InCommand(backend, 'F')
        decreases |script|
      {
        CallRead(backend, script);
        err := ServerRead();
        if err.Some? {
          return;
        }
        var done;
        done, err := FunctionCase();
        if err.Some? || done {
          return;
        }
      }
    }

    /** The body of sync's switch: relays the reply just read. */
    method SyncCase() returns (done: bool, ok: bool, err: Option<Error>)
      requires Valid() && Odd() && Closed(backend.inbox) && Level()
      modifies this`peer, this`peerError, this`packet, this`passed, this`replies, this`peerWrites, this`received,
               this`peerScript, this`starved, this`backend, this`script, this`serverWrites, this`txState, this`skips,
               this`log, this`wrote
      ensures Valid() && |script| <= |old(script)| && |peerScript| <= |old(peerScript)| && EscapeStays() && (PeerOK() ==> old(PeerOK()))
      ensures err.None? ==> Even() && done == (old(packet.typ) == 'Z' || old(packet.typ) == 'G') && ok == (old(packet.typ) == 'Z')
      ensures err.None? ==> skips == old(skips) + (if done && !ok then 1 else 0)
      ensures err.None? ==> Net() == old(Net()) - (if done && !ok then 1 else 0) && Closed(backend.inbox) && Level()
      ensures err.None? && ok ==> backend == old(backend) && txState == old(packet.status)
      ensures old(GotSync(backend, packet.typ, skips)) ==>
        && starved == old(starved) && (err.Some? ==> err.value == ConnectionLost)
        && (err.None? && !done ==> Syncing(backend, skips) && !backend.phase.CopyOut?)
        && (err.None? && done && !ok ==> Batching(backend, skips))
    {
      hide Step, Await, Commands, Closed, InCommand, InExtended, BoundToFinish, HasEnd, Tracked, BeforeEnd, Quiet,
           Querying, Syncing, Batching, Fed, Owed, OwesNow, Told, GotQuery, GotSync, NoCopyIn,
           Level, Due, Logged, PhonyDue, Blameworthy, Valid, Even, Odd;
      done, ok, err := false, false, None;
      if GotSync(backend, packet.typ, skips) {
        GotSyncCases(backend, packet.typ, skips);
      }
      if SyncReply(packet.typ) {
        PeerWrite();
      } else if packet.typ == 'G' {
        ghost var before := backend;
        err := CopyIn();
        if err.None? {
          FedQuerying(before, backend);
          FedBatching(before, backend, skips + 1);
          skips := skips + 1;
          done := true;
        }
      } else if packet.typ == 'H' {
        err := CopyOut();
      } else if packet.typ == 'Z' {
        txState := packet.status;
        PeerWrite();
        done, ok := true, true;
      } else {
        err := Some(UnexpectedPacket(packet.typ));
      }
    }

    /**
     Sends `packet`, a Sync, and relays until its ReadyForQuery or, after a copy-in, gives up on
     it: the copy-in is expected to have swallowed the Sync.
     */
    method Sync() returns (ok: bool, err: Option<Error>)
      requires Valid() && Even() && packet.typ == 'S' && Due()
      modifies this`peer, this`peerError, this`packet, this`passed, this`replies, this`peerWrites, this`received,
               this`peerScript, this`starved, this`backend, this`script, this`serverWrites, this`txState, this`skips,
               this`log, this`wrote
      ensures Valid() && |script| <= |old(script)| && |peerScript| <= |old(peerScript)| && EscapeStays() && (PeerOK() ==> old(PeerOK()))
      ensures err.None? ==> Even() && Net() == old(Net()) && |script| < |old(script)| && Level()
      ensures err.None? ==> skips == old(skips) + (if ok then 0 else 1)
      ensures err.None? && ok ==> Settled()
      ensures old(Batching(backend, skips) && Net() == 0) ==>
        && starved == old(starved) && (err.Some? ==> err.value == ConnectionLost)
        && (err.None? ==> Batching(backend, skips))
    {
      hide Step, Await, Commands, Closed, InCommand, InExtended, BoundToFinish, HasEnd, Tracked, BeforeEnd, Quiet,
           Querying, Syncing, Batching, Fed, Owed, OwesNow, Told, GotQuery, GotSync, NoCopyIn,
           Level, Due, Logged, PhonyDue, Blameworthy, Valid, Even, Odd;
      SendOwes(backend, packet);
      if Batching(backend, skips) && Net() == 0 {
        SendSync(backend, packet, skips);
      }
      err := ServerWrite();
      if err.Some? {
        return false, err;
      }
      while true
        invariant Valid() && Even() && |script| <= |old(script)| && |peerScript| <= |old(peerScript)| && EscapeStays() && (PeerOK() ==> old(PeerOK()))
        invariant Net() == old(Net()) + 1 && Closed(backend.inbox) && skips == old(skips) && Level()
        invariant old(Batching(backend, skips) && Net() == 0) ==>
          starved == old(starved) && Syncing(backend, skips) && !backend.phase.CopyOut?
        decreases |script|
      {
        if Syncing(backend, skips) && !backend.phase.CopyOut? {
          SyncRead(backend, script, skips);
        }
        err := ServerRead();
        if err.Some? {
          return false, err;
        }
        if GotSync(backend, packet.typ, skips) {
          GotSyncCases(backend, packet.typ, skips);
        }
        var done;
        done, ok, err := SyncCase();
        if err.Some? || done {
          return;
        }
      }
    }

    /** Sends one message of a batch. */
    method WriteBatched() returns (err: Option<Error>)
      requires (IsExtended(packet) || packet.typ == 'H') && Due()
      modifies this`backend, this`serverWrites, this`wrote
      ensures EscapeStays() && if err.Some? then err.value == ConnectionLost else Level()
      ensures Net() == old(Net()) && (old(Batching(backend, skips)) ==> Batching(backend, skips))
    {
      hide Batching, Owed, Closed, NoCopyIn, Level, Due, Logged, PhonyDue, Blameworthy, Valid, Even, Odd;
      SendOwes(backend, packet);
      if Batching(backend, skips) {
        SendExtended(backend, packet, skips);
      }
      err := ServerWrite();
    }

    /** Sends `packet` and the rest of an extended-query batch, until a Sync is answered. */
    method Eqp() returns (err: Option<Error>)
      requires Valid() && Even() && (IsExtended(packet) || packet.typ == 'H') && Due()
      modifies this`peer, this`peerError, this`packet, this`passed, this`replies, this`peerWrites, this`received,
               this`peerScript, this`starved, this`backend, this`script, this`serverWrites, this`txState, this`skips,
               this`log, this`wrote
      ensures Valid() && |script| <= |old(script)| && |peerScript| <= |old(peerScript)| && EscapeStays()
      ensures err.None? ==> Even() && Net() == old(Net()) && Settled() && Level()
      ensures old(Batching(backend, skips) && Net() == 0) ==>
        && starved == old(starved) && (err.Some? ==> err.value == ConnectionLost)
        && (err.None? ==> Batching(backend, skips))
    {
      hide Step, Await, Commands, Closed, InCommand, InExtended, BoundToFinish, HasEnd, Tracked, BeforeEnd, Quiet,
           Querying, Syncing, Batching, Fed, Owed, OwesNow, Told, GotQuery, GotSync, NoCopyIn,
           Level, Due, Logged, PhonyDue, Blameworthy, Valid, Even, Odd;
      err := WriteBatched();
      if err.Some? {
        return;
      }
      while true
        invariant Valid() && Even() && |script| <= |old(script)| && |peerScript| <= |old(peerScript)| && EscapeStays()
        invariant Net() == old(Net()) && Level()
        invariant old(Batching(backend, skips) && Net() == 0) ==> starved == old(starved) && Batching(backend, skips)
        decreases |script| + |peerScript|, PeerOK()
      {
        var read := PeerRead(Batch);
        if !read {
          err := DrainSync();
          return;
        }
        if packet.typ == 'S' {
          var ok;
          ok, err := Sync();
          if err.Some? || ok {
            return;
          }
        } else if IsExtended(packet) || packet.typ == 'H' {
          err := WriteBatched();
          if err.Some? {
            return;
          }
        } else {
          PeerFail(UnexpectedPacket(packet.typ));
        }
      }
    }

    /** The inner loop of eqp once the peer is gone: Sync until one is answered. */
    method DrainSync() returns (err: Option<Error>)
      requires Valid() && Even() && Level() && !PeerOK()
      modifies this`peer, this`peerError, this`packet, this`passed, this`replies, this`peerWrites, this`received,
               this`peerScript, this`starved, this`backend, this`script, this`serverWrites, this`txState, this`skips,
               this`log, this`wrote
      ensures Valid() && |script| <= |old(script)| && |peerScript| <= |old(peerScript)| && EscapeStays()
      ensures err.None? ==> Even() && Net() == old(Net()) && Settled() && Level()
      ensures old(Batching(backend, skips) && Net() == 0) ==>
        && starved == old(starved) && (err.Some? ==> err.value == ConnectionLost)
        && (err.None? ==> Batching(backend, skips))
    {
      hide Step, Await, Commands, Closed, InCommand, InExtended, BoundToFinish, HasEnd, Tracked, BeforeEnd, Quiet,
           Querying, Syncing, Batching, Fed, Owed, OwesNow, Told, GotQuery, GotSync, NoCopyIn,
           Level, Due, Logged, PhonyDue, Blameworthy, Valid, Even, Odd;
      while true
        invariant Valid() && Even() && |script| <= |old(script)| && |peerScript| <= |old(peerScript)| && EscapeStays()
        invariant Net() == old(Net()) && Level() && !PeerOK()
        invariant old(Batching(backend, skips) && Net() == 0) ==> starved == old(starved) && Batching(backend, skips)
        decreases |script|
      {
        packet := Packet('S', ' ');
        Supply(Batch);
        var ok;
        ok, err := Sync();
        if err.Some? || ok {
          return;
        }
      }
    }

    /** Between commands: idle, and quiet unless a Sync has escaped. */
    ghost predicate Between()
      reads this
    {
      && Valid() && Even() && Net() == 0 && backend.phase == Idle && Closed(backend.inbox)
      && (!backend.escaped ==> Quiet(backend) && !starved)
    }

    /** The body of transaction's switch: handles the packet the peer sent. */
    method TransactionCase() returns (err: Option<Error>)
      requires Between() && txState != 'I' && Fresh(Top)
      modifies this`peer, this`peerError, this`packet, this`passed, this`replies, this`peerWrites, this`received,
               this`peerScript, this`starved, this`backend, this`script, this`serverWrites, this`txState, this`skips,
               this`log, this`wrote, this`phony
      ensures Valid() && |script| <= |old(script)| && |peerScript| <= |old(peerScript)| && EscapeStays()
      ensures err.None? ==> Between() && (txState == 'I' ==> backend.status == 'I') && Level()
      ensures err.Some? && !backend.escaped ==> !starved && err.value == ConnectionLost
    {
      hide Step, Await, Commands, Closed, InCommand, InExtended, BoundToFinish, HasEnd, Tracked, BeforeEnd, Quiet,
           Querying, Syncing, Batching, Fed, Owed, OwesNow, Told, GotQuery, GotSync, NoCopyIn,
           Level, Due, Logged, PhonyDue, Blameworthy, Valid, Even, Odd;
      if Quiet(backend) {
        QuietOwes(backend);
        QuietBatching(backend, skips);
      }
      err := None;
      if packet.typ == 'Q' {
        err := Query();
      } else if packet.typ == 'F' {
        err := FunctionCall();
      } else if packet.typ == 'S' {
        PhonyReady();
      } else if IsExtended(packet) || packet.typ == 'H' {
        err := Eqp();
        if err.None? {
          QuietIffNothingOwed(backend);
          if Batching(backend, skips) && !backend.escaped {
            BatchingIdle(backend, skips);
          }
        }
      } else {
        PeerFail(UnexpectedPacket(packet.typ));
      }
    }

    /**
     Relays one transaction. Whatever the peer does, success means that the backend is idle
     outside any transaction, that the commands it has not answered are exactly those Syncs that
     were given up on but not swallowed, and that the peer was told everything in order. If no
     Sync escapes its copy-in then nothing is left unread, the bridge never waits for a reply
     that is not coming and never meets a packet it does not expect. A backend that asks for no
     copy data lets none escape. The server was sent what the peer sent, in order, without the phony
     Syncs and what was not expected, and with what the bridge supplies once the peer is gone.
     */
    method Transaction() returns (err: Option<Error>)
      requires Valid() && Even() && Quiet(backend) && backend.swallowed == skips && txState == '\0' && !starved && Fresh(Top)
      modifies this`peer, this`peerError, this`packet, this`passed, this`replies, this`peerWrites, this`received,
               this`peerScript, this`starved, this`backend, this`script, this`serverWrites, this`txState, this`skips,
               this`log, this`wrote, this`phony
      ensures Valid()
      ensures err.None? ==> backend.phase == Idle && backend.status == 'I' && txState == 'I' && Even()
      ensures err.None? ==> Owed(backend) == skips - backend.swallowed
      ensures err.None? ==> (Quiet(backend) <==> skips == backend.swallowed)
      ensures !backend.escaped && err.None? ==> Quiet(backend)
      ensures !backend.escaped ==> !starved && (err.Some? ==> !err.value.UnexpectedPacket?)
      ensures !old(backend.escaped) && NoCopyIn(old(script)) ==> !backend.escaped
      ensures err.None? ==> Level() && (PeerOK() && phony == 0 ==> wrote + peerScript == all)
    {
      hide Step, Await, Commands, Closed, InCommand, InExtended, BoundToFinish, HasEnd, Tracked, BeforeEnd, Quiet,
           Querying, Syncing, Batching, Fed, Owed, OwesNow, Told, GotQuery, GotSync, NoCopyIn,
           Level, Due, Logged, PhonyDue, Blameworthy, Valid, Even, Odd;
      QuietOwes(backend);
      while true
        invariant Between() && txState != 'I' && EscapeStays() && Fresh(Top)
        decreases |script| + |peerScript|
      {
        err := TransactionCase();
        if err.Some? {
          return;
        }
        QuietIffNothingOwed(backend);
        if txState == 'I' {
          Relayed();
          return;
        }
        var read := PeerRead(Top);
        if !read {
          packet := Packet('Q', ' ');
          Supply(Top);
          err := Query();
          if err.Some? {
            return;
          }
          QuietIffNothingOwed(backend);
          if txState != 'I' {
            err := Some(ExpectedIdle);
          }
          Relayed();
          return;
        }
      }
    }
  }
}
