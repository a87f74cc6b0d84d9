/**
 Runs that show why the premises on the scheduler and on the bridge are needed.
 */
module Counterexamples {
  import opened Collections
  import S = SchedulerSpec
  import F = SchedulerFairness
  import B = Backend
  import Bridge

  const BothAdded := S.Initial.(
    users := map[0 := S.User(0, false), 1 := S.User(0, false)],
    clients := map[0 := S.Resting, 1 := S.Resting])

  const FirstQueued := BothAdded.(
    users := map[0 := S.User(0, true), 1 := S.User(0, false)],
    schedule := map[0 := S.Job(0, 0)],
    chans := map[0 := S.Empty],
    clients := map[0 := S.Waiting(0), 1 := S.Resting])

  const FirstServed := FirstQueued.(
    users := map[0 := S.User(0, false), 1 := S.User(0, false)],
    workers := map[0 := S.Worker(Some(0), 0)],
    schedule := map[],
    chans := map[0 := S.Full(0, 0)])

  const SecondQueued := FirstServed.(
    users := map[0 := S.User(0, false), 1 := S.User(0, true)],
    schedule := map[0 := S.Job(1, 1)],
    chans := map[0 := S.Full(0, 0), 1 := S.Empty],
    clients := map[0 := S.Waiting(0), 1 := S.Waiting(1)])

  lemma Adding()
    ensures S.Allowed(S.Initial, S.AddUser(0))
    ensures var s := S.Next(S.Initial, S.AddUser(0)); S.Allowed(s, S.AddUser(1)) && S.Next(s, S.AddUser(1)) == BothAdded
  {
    var s := S.Next(S.Initial, S.AddUser(0));
    assert s == S.Initial.(users := map[0 := S.User(0, false)], clients := map[0 := S.Resting]);
    var t := S.Next(s, S.AddUser(1));
    assert t.users == BothAdded.users && t.clients == BothAdded.clients;
  }

  lemma Queueing()
    ensures S.Allowed(BothAdded, S.Acquire(0, 0, 0)) && S.Next(BothAdded, S.Acquire(0, 0, 0)) == FirstQueued
  {
    var t := S.Next(BothAdded, S.Acquire(0, 0, 0));
    assert S.FirstFree(map[], 0) == 0;
    assert t.users == FirstQueued.users && t.clients == FirstQueued.clients;
  }

  lemma Serving()
    ensures S.Allowed(FirstQueued, S.AddWorker(0, 0)) && S.Next(FirstQueued, S.AddWorker(0, 0)) == FirstServed
  {
    var t := S.Next(FirstQueued, S.AddWorker(0, 0));
    assert S.MinKey(FirstQueued.schedule) == 0;
    assert FirstQueued.schedule - {0} == map[];
    assert t.users == FirstServed.users && t.workers == FirstServed.workers && t.chans == FirstServed.chans;
  }

  lemma QueueingBehind()
    ensures S.Allowed(FirstServed, S.Acquire(1, 0, 1)) && S.Next(FirstServed, S.Acquire(1, 0, 1)) == SecondQueued
  {
    var t := S.Next(FirstServed, S.Acquire(1, 0, 1));
    assert S.FirstFree(map[], 0) == 0;
    assert t.users == SecondQueued.users && t.clients == SecondQueued.clients && t.chans == SecondQueued.chans;
  }

  /** u waits on an empty channel that no job, no other client and not the pool has, and has no job itself. */
  ghost predicate Stranded(s: S.State, u: S.UserId, c: S.ChanId) {
    && u in s.clients && s.clients[u] == S.Waiting(c)
    && c in s.chans && s.chans[c].Empty? && c !in s.cc
    && (forall k | k in s.schedule :: s.schedule[k].user != u && s.schedule[k].ready != c)
    && (forall v | v in s.clients && v != u :: s.clients[v] != S.Waiting(c))
  }

  /** A timeout of user 0 leaves user 1 scheduled without a job, and a worker in a pooled channel. */
  ghost predicate LosesJob(s: S.State) {
    && S.Enabled(s, S.Timeout(0, 0))
    && var t := S.Next(s, S.Timeout(0, 0));
       && 1 in t.users && t.users[1].scheduled && t.schedule == map[] && Stranded(t, 1, 1)
       && t.cc == [0] && 0 in t.chans && t.chans[0] == S.Full(0, 0)
  }

  lemma GiveBackStrands(s: S.State, w: S.WorkerId, now: int, u: S.UserId, c: S.ChanId)
    requires Stranded(s, u, c)
    ensures Stranded(S.GiveBack(s, w, now), u, c)
  {
    hide S.MinKey;
  }

  lemma ReleaseStrands(s: S.State, e: S.Event, u: S.UserId, c: S.ChanId)
    requires Stranded(s, u, c) && S.Enabled(s, e) && (e.AddWorker? || e.Release?)
    ensures Stranded(S.Next(s, e), u, c)
  {
    hide S.GiveBack, S.ReleaseWorker;
    match e
    case AddWorker(w, now) =>
      var t := S.At(s, now);
      if !s.closed {
        F.AddIsGiveBack(t, w);
        GiveBackStrands(t.(workers := t.workers[w := S.Worker(None, now)]), w, now, u, c);
      }
    case Release(v, now) => GiveBackStrands(S.Rested(S.At(s, now), v), s.clients[v].worker, now, u, c);
  }

  lemma TimeoutStrands(s: S.State, v: S.UserId, now: int, u: S.UserId, c: S.ChanId)
    requires Stranded(s, u, c) && S.Enabled(s, S.Timeout(v, now)) && v != u
    ensures Stranded(S.Next(s, S.Timeout(v, now)), u, c)
  {
    hide S.GiveBack;
    var t, d := S.At(s, now), s.clients[v].ready;
    if v !in s.users && s.chans[d].Full? {
      GiveBackStrands(t.(clients := t.clients[v := S.Resting], chans := t.chans[d := S.Empty], cc := t.cc + [d]),
                      s.chans[d].worker, now, u, c);
    }
  }

  lemma AcquireStrands(s: S.State, v: S.UserId, now: int, spare: S.ChanId, u: S.UserId, c: S.ChanId)
    requires Stranded(s, u, c) && S.Enabled(s, S.Acquire(v, now, spare))
    ensures Stranded(S.Next(s, S.Acquire(v, now, spare)), u, c)
  {
    hide S.FirstFree;
  }

  lemma CloseStrands(s: S.State, u: S.UserId, c: S.ChanId)
    requires Stranded(s, u, c)
    ensures Stranded(S.Next(s, S.Close), u, c)
  {
    hide S.CloseChans;
  }

  lemma StrandedStays(s: S.State, e: S.Event, u: S.UserId, c: S.ChanId)
    requires Stranded(s, u, c) && S.Enabled(s, e) && !(e.Timeout? && e.user == u)
    ensures Stranded(S.Next(s, e), u, c) && F.Granted(s, e) != Some(u)
  {
    hide S.MinKey;
    assert F.Granted(s, e) != Some(u);
    hide F.Granted;
    match e
    case AddWorker(_, _) => ReleaseStrands(s, e, u, c);
    case Release(_, _) => ReleaseStrands(s, e, u, c);
    case Timeout(v, now) => TimeoutStrands(s, v, now, u, c);
    case Acquire(v, now, spare) => AcquireStrands(s, v, now, spare, u, c);
    case Close => CloseStrands(s, u, c);
    case DeleteWorker(_) =>
    case AddUser(_) =>
    case DeleteUser(_) =>
    case Receive(_) =>
  }

  predicate NoTimeout(es: seq<S.Event>, u: S.UserId) {
    forall i :: 0 <= i < |es| ==> !(es[i].Timeout? && es[i].user == u)
  }

  /** A run of critical sections, whatever became of the scheduler's own order. */
  ghost predicate Continues(s: S.State, es: seq<S.Event>)
    decreases |es|
  {
    es == [] || (S.Enabled(s, es[0]) && Continues(S.Next(s, es[0]), es[1..]))
  }

  /** u is handed no worker and its wait does not end. */
  ghost predicate NeverServed(s: S.State, es: seq<S.Event>, u: S.UserId, c: S.ChanId)
    requires Continues(s, es)
    decreases |es|
  {
    && u in s.clients && s.clients[u] == S.Waiting(c) && c in s.chans && s.chans[c].Empty?
    && (es != [] ==> F.Granted(s, es[0]) != Some(u) && NeverServed(S.Next(s, es[0]), es[1..], u, c))
  }

  /** However the run goes on, a stranded user is not served as long as it waits. */
  lemma {:induction false} StrandedForGood(s: S.State, es: seq<S.Event>, u: S.UserId, c: S.ChanId)
    requires Stranded(s, u, c) && Continues(s, es)
    requires NoTimeout(es, u)
    ensures NeverServed(s, es, u, c)
    decreases |es|
  {
    hide S.Next, S.Enabled, F.Granted;
    if es != [] {
      StrandedStays(s, es[0], u, c);
      StrandedForGood(S.Next(s, es[0]), es[1..], u, c);
    }
  }

  /**
   Both users start at stride 0. The first queues at key 0 and is handed a worker; the second
   queues at the key so freed. If the first now times out before it reads its channel, it removes
   the second one's job, which stays marked as scheduled and, in every continuation, is not served
   as long as it waits; and the first one's channel goes back to the pool with a worker in it.
   */
  lemma TimeoutTakesForeignJob()
    ensures var es := [S.AddUser(0), S.AddUser(1), S.Acquire(0, 0, 0), S.AddWorker(0, 0), S.Acquire(1, 0, 1)];
      S.Run(S.Initial, es) && S.After(S.Initial, es) == SecondQueued
    ensures !S.OwnSlot(SecondQueued, 0) && LosesJob(SecondQueued)
    ensures forall es | Continues(S.Next(SecondQueued, S.Timeout(0, 0)), es) && NoTimeout(es, 1) ::
      NeverServed(S.Next(SecondQueued, S.Timeout(0, 0)), es, 1, 1)
  {
    hide S.Next, S.Allowed, S.Run, S.After, S.OwnSlot, LosesJob;
    Nil(SecondQueued);
    Adding();
    Queueing();
    Serving();
    QueueingBehind();
    Cons(FirstServed, S.Acquire(1, 0, 1), []);
    var e3 := [S.Acquire(1, 0, 1)] + [];
    Cons(FirstQueued, S.AddWorker(0, 0), e3);
    var e2 := [S.AddWorker(0, 0)] + e3;
    Cons(BothAdded, S.Acquire(0, 0, 0), e2);
    var e1 := [S.Acquire(0, 0, 0)] + e2;
    Cons(S.Next(S.Initial, S.AddUser(0)), S.AddUser(1), e1);
    var e0 := [S.AddUser(1)] + e1;
    Cons(S.Initial, S.AddUser(0), e0);
    assert [S.AddUser(0)] + e0 == [S.AddUser(0), S.AddUser(1), S.Acquire(0, 0, 0), S.AddWorker(0, 0), S.Acquire(1, 0, 1)];
    TimingOut();
    var lost := S.Next(SecondQueued, S.Timeout(0, 0));
    forall es | Continues(lost, es) && NoTimeout(es, 1)
      ensures NeverServed(lost, es, 1, 1)
    {
      LostStrands(SecondQueued);
      StrandedForGood(lost, es, 1, 1);
    }
  }

  lemma LostStrands(s: S.State)
    requires LosesJob(s)
    ensures Stranded(S.Next(s, S.Timeout(0, 0)), 1, 1)
  {
  }

  lemma Nil(s: S.State)
    ensures S.Run(s, []) && S.After(s, []) == s
  {
  }

  lemma Cons(s: S.State, e: S.Event, es: seq<S.Event>)
    requires S.Allowed(s, e) && S.Run(S.Next(s, e), es)
    ensures S.Run(s, [e] + es) && S.After(s, [e] + es) == S.After(S.Next(s, e), es)
  {
    assert ([e] + es)[1..] == es;
  }

  lemma TimingOut()
    ensures !S.OwnSlot(SecondQueued, 0) && LosesJob(SecondQueued)
  {
    assert SecondQueued.schedule - {0} == map[];
  }

  // ---- a Sync that escapes ---------------------------------------------------------------

  const EXECUTE := B.Packet('E', ' ')
  const SYNC := B.Packet('S', ' ')
  const COPY_DONE := B.Packet('c', ' ')
  const COPY_IN := B.Packet('G', ' ')
  const ERROR := B.Packet('E', ' ')

  /** The backend starts a copy-in, fails it before it has read anything of it, and reads on. */
  const Failing := [B.Take('I'), B.Emit(COPY_IN), B.Emit(ERROR), B.Take('I')]

  lemma CopyInStarts(s: B.State)
    requires s.phase == B.Idle && s.inbox == [EXECUTE, SYNC] && !s.escaped
    ensures B.Await(s, Failing) == Some(B.Answer(s.(phase := B.CopyIn(true), inbox := [SYNC]), COPY_IN, Failing[2..]))
  {
    var r := s.(phase := B.Running('E'), inbox := [SYNC]);
    assert B.Step(s, Failing[0]) == Some(B.Outcome(r, None));
    assert !B.EndsCopy(SYNC) && [SYNC][1..] == [] && !B.HasEnd([SYNC]);
    assert B.Step(r, Failing[1]) == Some(B.Outcome(r.(phase := B.CopyIn(true)), Some(COPY_IN)));
    assert Failing[1..][0] == Failing[1] && Failing[1..][1..] == Failing[2..];
  }

  lemma CopyInFails(s: B.State)
    requires s.phase == B.CopyIn(true) && s.inbox == [SYNC, COPY_DONE, SYNC]
    ensures B.Await(s, Failing[2..]) == Some(B.Answer(s.(phase := B.Skipping, escaped := true), ERROR, Failing[3..]))
  {
    assert B.BeforeEnd(s.inbox) > 0;
    assert B.Step(s, Failing[2]) == Some(B.Outcome(s.(phase := B.Skipping, escaped := true), Some(ERROR)));
    assert Failing[2..][0] == Failing[2] && Failing[2..][1..] == Failing[3..];
  }

  lemma FirstSyncAnswered(s: B.State)
    requires s.phase == B.Skipping && s.inbox == [SYNC, COPY_DONE, SYNC]
    ensures var t := s.(phase := B.Idle, status := 'I', inbox := [COPY_DONE, SYNC]);
      && B.Await(s, Failing[3..]) == Some(B.Answer(t, B.Packet('Z', 'I'), []))
      && !B.Quiet(t) && B.Owed(t) == 1
  {
    var t := s.(phase := B.Idle, status := 'I', inbox := [COPY_DONE, SYNC]);
    assert s.inbox[1..] == t.inbox;
    assert B.Step(s, Failing[3]) == Some(B.Outcome(t, Some(B.Packet('Z', 'I'))));
    assert Failing[3..][0] == Failing[3] && Failing[3..][1..] == [];
    assert t.inbox[1] == SYNC && t.inbox[1..] == [SYNC] && [SYNC][1..] == [];
    assert B.Commands(t.inbox) == B.Commands([SYNC]) == 1;
  }

  /** Eqp sends the Execute, and Sync the Sync behind it. */
  method SendBatch() returns (b: Bridge.Binding)
    ensures fresh(b) && b.Valid() && b.Even() && b.PeerOK() && b.received == [] && b.peerWrites == 3
    ensures b.backend == B.State(B.Idle, [EXECUTE, SYNC], 'I', 0, false) && b.script == Failing && b.serverWrites == 2
    ensures b.peerScript == [COPY_DONE, SYNC] && b.skips == 0 && b.Level()
  {
    hide Bridge.Binding.Valid, Bridge.Binding.Even, Bridge.Binding.Odd, Bridge.Binding.Level, Bridge.Binding.Due,
         Bridge.Binding.Logged;
    b := new Bridge.Binding(B.State(B.Idle, [], 'I', 0, false), Failing, 4, true, [SYNC, COPY_DONE, SYNC], 3, EXECUTE);
    var e := b.ServerWrite();
    assert b.backend.inbox == [EXECUTE];
    var ok := b.PeerRead(Bridge.Batch);
    assert b.packet == SYNC && b.peerScript == [COPY_DONE, SYNC];
    e := b.ServerWrite();
    assert b.backend == B.State(B.Idle, [EXECUTE, SYNC], 'I', 0, false);
  }

  /** Sync reads that a copy-in starts. */
  method StartCopy() returns (b: Bridge.Binding)
    ensures fresh(b) && b.Valid() && b.Even() && b.PeerOK() && b.received == [COPY_IN] && b.peerWrites == 2
    ensures b.backend == B.State(B.CopyIn(true), [SYNC], 'I', 0, false) && b.script == Failing[2..] && b.serverWrites == 2
    ensures b.peerScript == [COPY_DONE, SYNC] && b.skips == 0 && b.Level()
  {
    hide B.Step, B.Await, B.Quiet, B.Owed, B.Closed, B.BoundToFinish, B.NoCopyIn, B.Calm,
         Bridge.Binding.Valid, Bridge.Binding.Even, Bridge.Binding.Odd, Bridge.Binding.Level, Bridge.Binding.Due,
         Bridge.Binding.Logged;
    b := SendBatch();
    CopyInStarts(b.backend);
    var e := b.ServerRead();
    b.PeerWrite();
    assert b.received == [COPY_IN];
  }

  /** CopyIn relays CopyDone, SyncCase gives up on the Sync, and Eqp reads and Sync sends the next one. */
  method EndCopy(b: Bridge.Binding)
    requires b.Valid() && b.Even() && b.PeerOK() && b.peerScript == [COPY_DONE, SYNC] && b.serverWrites == 2
    requires b.backend == B.State(B.CopyIn(true), [SYNC], 'I', 0, false) && b.skips == 0 && b.Level()
    modifies b`packet, b`peer, b`peerError, b`peerScript, b`backend, b`serverWrites, b`skips, b`log, b`wrote
    ensures b.Valid() && b.Even() && b.PeerOK() && b.skips == 1
    ensures b.backend == B.State(B.CopyIn(true), [SYNC, COPY_DONE, SYNC], 'I', 0, false)
  {
    hide Bridge.Binding.Valid, Bridge.Binding.Even, Bridge.Binding.Odd, Bridge.Binding.Level, Bridge.Binding.Due,
         Bridge.Binding.Logged;
    var ok := b.PeerRead(Bridge.Copying);
    assert b.packet == COPY_DONE && b.peerScript == [SYNC];
    var e := b.ServerWrite();
    assert b.backend.inbox == [SYNC, COPY_DONE];
    b.skips := b.skips + 1;
    ok := b.PeerRead(Bridge.Batch);
    e := b.ServerWrite();
    assert b.backend.inbox == [SYNC, COPY_DONE, SYNC];
  }

  /**
   The peer sends Execute and Sync, the backend starts a copy-in, the peer ends it, and the bridge
   gives up on that Sync and relays the next one; but the copy-in fails before it has read the first
   Sync. That Sync is then answered in place of the second, whose ReadyForQuery is left unread. The
   calls are those that Eqp, Sync, SyncCase and CopyIn make on these packets.
   */
  method EscapedSyncLeavesReply() returns (b: Bridge.Binding)
    ensures b.txState == 'I' && b.backend.phase == B.Idle && b.backend.status == 'I' && b.skips == 1
    ensures b.received == [COPY_IN, ERROR, B.Packet('Z', 'I')] && b.PeerOK()
    ensures b.backend.escaped && !B.Quiet(b.backend) && B.Owed(b.backend) == 1
  {
    hide B.Step, B.Await, B.Quiet, B.Owed, B.Closed, B.BoundToFinish, B.NoCopyIn, B.Calm,
         Bridge.Binding.Valid, Bridge.Binding.Even, Bridge.Binding.Odd, Bridge.Binding.Level, Bridge.Binding.Due,
         Bridge.Binding.Logged;
    b := StartCopy();
    EndCopy(b);
    CopyInFails(b.backend);
    var e := b.ServerRead();
    b.PeerWrite();
    FirstSyncAnswered(b.backend);
    e := b.ServerRead();
    b.txState := b.packet.status;
    b.PeerWrite();
  }
}
