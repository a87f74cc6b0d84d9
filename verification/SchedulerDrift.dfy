/**
 Three users share one worker of lib/rob/schedulers/v3, each always asks again at once, and every
 hold lasts one tick. Slots that are taken move users 0 and 2 on whenever they are queued and never
 user 1, which therefore holds the worker for half of the time and the others for a quarter each.
 */
module SchedulerDrift {
  import opened Collections
  import opened SchedulerSpec
  import opened SchedulerFairness
  import opened SchedulerTime

  predicate Others(x: UserId, y: UserId) {
    (x == 0 && y == 2) || (x == 2 && y == 0)
  }

  const FREE: map<ChanId, Chan> := map[0 := Empty, 1 := Empty, 2 := Empty]

  /** User 1 has the worker at key k, x is next and y behind it; each waits on the channel of its number. */
  function Round(k: int, t: int, x: UserId, y: UserId): State {
    State(false, [], map[0 := Worker(Some(1), t)], k,
          map[1 := User(k, false), x := User(k + 1, true), y := User(k + 2, true)],
          map[k + 1 := Job(x, x), k + 2 := Job(y, y)], [1], FREE,
          map[1 := Holding(0), x := Waiting(x), y := Waiting(y)], t)
  }

  // The states between the events of a round.

  function Released(k: int, t: int, x: UserId, y: UserId): State {
    State(false, [], map[0 := Worker(Some(x), t + 1)], k + 1,
          map[1 := User(k + 1, false), x := User(k + 1, false), y := User(k + 2, true)],
          map[k + 2 := Job(y, y)], [1], FREE[x := Full(0, x)],
          map[1 := Resting, x := Waiting(x), y := Waiting(y)], t + 1)
  }

  function Requeued(k: int, t: int, x: UserId, y: UserId): State {
    Released(k, t, x, y).(
      users := map[1 := User(k + 1, true), x := User(k + 1, false), y := User(k + 2, true)],
      schedule := map[k + 1 := Job(1, 1), k + 2 := Job(y, y)], cc := [],
      clients := map[1 := Waiting(1), x := Waiting(x), y := Waiting(y)])
  }

  function Received(k: int, t: int, x: UserId, y: UserId): State {
    Requeued(k, t, x, y).(chans := FREE, cc := [x], clients := map[1 := Waiting(1), x := Holding(0), y := Waiting(y)])
  }

  function ReleasedAgain(k: int, t: int, x: UserId, y: UserId): State {
    State(false, [], map[0 := Worker(Some(1), t + 2)], k + 1,
          map[1 := User(k + 1, false), x := User(k + 2, false), y := User(k + 2, true)],
          map[k + 2 := Job(y, y)], [x], FREE[1 := Full(0, 1)],
          map[1 := Waiting(1), x := Resting, y := Waiting(y)], t + 2)
  }

  function RequeuedAgain(k: int, t: int, x: UserId, y: UserId): State {
    ReleasedAgain(k, t, x, y).(
      users := map[1 := User(k + 1, false), x := User(k + 3, true), y := User(k + 2, true)],
      schedule := map[k + 2 := Job(y, y), k + 3 := Job(x, x)], cc := [],
      clients := map[1 := Waiting(1), x := Waiting(x), y := Waiting(y)])
  }

  lemma Three<T>(x: UserId, y: UserId, a: T, b: T, c: T, v: T)
    requires Others(x, y)
    ensures map[1 := a, x := b, y := c][1 := v] == map[1 := v, x := b, y := c]
    ensures map[1 := a, x := b, y := c][x := v] == map[1 := a, x := v, y := c]
    ensures map[1 := a, x := b, y := c] == map[1 := a, y := c, x := b]
  {
  }

  lemma Freed(c: ChanId, v: Chan)
    requires c in FREE
    ensures FREE[c := v][c := Empty] == FREE
  {
  }

  lemma Two(k: int, a: Job, b: Job)
    ensures map[k + 1 := a, k + 2 := b] - {k + 1} == map[k + 2 := b]
    ensures map[k + 2 := b][k + 1 := a] == map[k + 1 := a, k + 2 := b]
    ensures var m := map[k + 1 := a, k + 2 := b]; k + 1 in m && m != map[] && MinKey(m) == k + 1
  {
    var m := map[k + 1 := a, k + 2 := b];
    assert k + 1 in m && k + 2 in m;
    assert IsMin(m, MinKey(m));
  }

  /** A release that hands the worker to the job at k. */
  lemma Hands(s: State, u: UserId, now: int, w: WorkerId, since: int, k: int)
    requires Enabled(s, Release(u, now)) && !s.closed && s.clients[u] == Holding(w) && w in s.workers && u in s.users
    requires s.workers[w] == Worker(Some(u), since) && s.schedule != map[] && MinKey(s.schedule) == k
    requires s.schedule[k].user in s.users && s.schedule[k].user != u
    ensures var j := s.schedule[k];
      Next(s, Release(u, now)) ==
      s.(clock := now, clients := s.clients[u := Resting], floor := k, schedule := s.schedule - {k},
         users := s.users[u := s.users[u].(stride := s.users[u].stride + (now - since))][j.user := s.users[j.user].(scheduled := false)],
         workers := s.workers[w := Worker(None, now)][w := Worker(Some(j.user), now)],
         chans := s.chans[j.ready := Full(w, j.user)])
  {
    hide MinKey;
  }

  /** A request that is queued at k on the channel. */
  lemma Asks(s: State, u: UserId, now: int, spare: ChanId, k: int, ready: ChanId)
    requires Enabled(s, Acquire(u, now, spare)) && !s.closed && u in s.users && s.queue == []
    requires ready == if s.cc != [] then s.cc[|s.cc| - 1] else spare
    requires FirstFree(s.schedule, if s.users[u].stride < s.floor then s.floor else s.users[u].stride) == k
    ensures Next(s, Acquire(u, now, spare)) ==
      s.(clock := now, cc := if s.cc != [] then s.cc[..|s.cc| - 1] else s.cc,
         chans := if s.cc != [] then s.chans else s.chans[spare := Empty],
         schedule := s.schedule[k := Job(u, ready)], users := s.users[u := User(k, true)],
         clients := s.clients[u := Waiting(ready)])
  {
    hide FirstFree;
  }

  lemma Step1(k: int, t: int, x: UserId, y: UserId)
    requires Others(x, y)
    ensures Allowed(Round(k, t, x, y), Release(1, t + 1))
    ensures Next(Round(k, t, x, y), Release(1, t + 1)) == Released(k, t, x, y)
  {
    hide MinKey;
    var a, b, c := User(k, false), User(k + 1, true), User(k + 2, true);
    Two(k, Job(x, x), Job(y, y));
    Three(x, y, a, b, c, User(k + 1, false));
    Three(x, y, User(k + 1, false), b, c, User(k + 1, false));
    Three(x, y, Holding(0), Waiting(x), Waiting(y), Resting);
    Hands(Round(k, t, x, y), 1, t + 1, 0, t, k + 1);
    hide Next;
    assert map[0 := Worker(Some(1), t)][0 := Worker(None, t + 1)][0 := Worker(Some(x), t + 1)] == map[0 := Worker(Some(x), t + 1)];
  }

  lemma Step2(k: int, t: int, x: UserId, y: UserId)
    requires Others(x, y)
    ensures Allowed(Released(k, t, x, y), Acquire(1, t + 1, 3))
    ensures Next(Released(k, t, x, y), Acquire(1, t + 1, 3)) == Requeued(k, t, x, y)
  {
    var s := Released(k, t, x, y);
    assert FirstFree(s.schedule, k + 1) == k + 1;
    hide FirstFree;
    Two(k, Job(1, 1), Job(y, y));
    Three(x, y, User(k + 1, false), User(k + 1, false), User(k + 2, true), User(k + 1, true));
    Three(x, y, Resting, Waiting(x), Waiting(y), Waiting(1));
    Asks(s, 1, t + 1, 3, k + 1, 1);
    hide Next;
    assert s.cc[..0] == [];
  }

  lemma Step3(k: int, t: int, x: UserId, y: UserId)
    requires Others(x, y)
    ensures Allowed(Requeued(k, t, x, y), Receive(x)) && Next(Requeued(k, t, x, y), Receive(x)) == Received(k, t, x, y)
  {
    Freed(x, Full(0, x));
    Three(x, y, Waiting(1), Waiting(x), Waiting(y), Holding(0));
  }

  lemma Step4(k: int, t: int, x: UserId, y: UserId)
    requires Others(x, y)
    ensures Allowed(Received(k, t, x, y), Release(x, t + 2))
    ensures Next(Received(k, t, x, y), Release(x, t + 2)) == ReleasedAgain(k, t, x, y)
  {
    hide MinKey;
    var a, b, c := User(k + 1, true), User(k + 1, false), User(k + 2, true);
    Two(k, Job(1, 1), Job(y, y));
    Three(x, y, a, b, c, User(k + 2, false));
    Three(x, y, a, User(k + 2, false), c, User(k + 1, false));
    Three(x, y, Waiting(1), Holding(0), Waiting(y), Resting);
    Hands(Received(k, t, x, y), x, t + 2, 0, t + 1, k + 1);
    hide Next;
    assert map[0 := Worker(Some(x), t + 1)][0 := Worker(None, t + 2)][0 := Worker(Some(1), t + 2)] == map[0 := Worker(Some(1), t + 2)];
  }

  lemma Step5(k: int, t: int, x: UserId, y: UserId)
    requires Others(x, y)
    ensures Allowed(ReleasedAgain(k, t, x, y), Acquire(x, t + 2, 3))
    ensures Next(ReleasedAgain(k, t, x, y), Acquire(x, t + 2, 3)) == RequeuedAgain(k, t, x, y)
  {
    var s := ReleasedAgain(k, t, x, y);
    assert FirstFree(s.schedule, k + 2) == k + 3;
    hide FirstFree;
    Three(x, y, User(k + 1, false), User(k + 2, false), User(k + 2, true), User(k + 3, true));
    Three(x, y, Waiting(1), Resting, Waiting(y), Waiting(x));
    Asks(s, x, t + 2, 3, k + 3, x);
    hide Next;
    assert s.cc[..0] == [];
  }

  lemma Step6(k: int, t: int, x: UserId, y: UserId)
    requires Others(x, y)
    ensures Allowed(RequeuedAgain(k, t, x, y), Receive(1))
    ensures Next(RequeuedAgain(k, t, x, y), Receive(1)) == Round(k + 1, t + 2, y, x)
  {
    Freed(1, Full(0, 1));
    Three(x, y, Waiting(1), Waiting(x), Waiting(y), Holding(0));
    Three(x, y, Holding(0), Waiting(x), Waiting(y), Holding(0));
    Three(x, y, User(k + 1, false), User(k + 3, true), User(k + 2, true), User(k + 3, true));
  }

  // ---- one round and many ----------------------------------------------------------------

  /** Who has the worker in each of the states. */
  lemma WhoIsBusy(k: int, t: int, x: UserId, y: UserId, v: UserId)
    requires Others(x, y) && (v == 1 || v == x || v == y)
    ensures Busy(Round(k, t, x, y), v) <==> v == 1
    ensures Busy(Released(k, t, x, y), v) <==> v == x
    ensures Busy(Requeued(k, t, x, y), v) <==> v == x
    ensures Busy(Received(k, t, x, y), v) <==> v == x
    ensures Busy(ReleasedAgain(k, t, x, y), v) <==> v == 1
    ensures Busy(RequeuedAgain(k, t, x, y), v) <==> v == 1
    ensures Released(k, t, x, y).clock == t + 1 && ReleasedAgain(k, t, x, y).clock == t + 2
  {
  }

  lemma OneEvent(s: State, e: Event, n: State, rest: seq<Event>, v: UserId, since: int)
    requires Allowed(s, e) && Next(s, e) == n && Run(n, rest)
    ensures Run(s, [e] + rest) && After(s, [e] + rest) == After(n, rest)
    ensures HeldTime(s, [e] + rest, v, since) ==
            Ended(s, e, v, since) + HeldTime(n, rest, v, if !Busy(s, v) && Busy(n, v) then n.clock else since)
  {
    hide Next, Enabled, Busy, Ended;
    assert ([e] + rest)[1..] == rest;
  }

  function Turn(t: int, x: UserId): seq<Event> {
    [Release(1, t + 1), Acquire(1, t + 1, 3), Receive(x), Release(x, t + 2), Acquire(x, t + 2, 3), Receive(1)]
  }

  /** The first half of a round: user 1's hold ends, and that of x starts. */
  lemma FirstHalf(k: int, t: int, x: UserId, y: UserId, rest: seq<Event>, v: UserId, since: int)
    requires Others(x, y) && (v == 1 || v == x || v == y) && (v == 1 ==> since == t) && Run(Received(k, t, x, y), rest)
    ensures var s, es := Round(k, t, x, y), [Release(1, t + 1)] + ([Acquire(1, t + 1, 3)] + ([Receive(x)] + rest));
      && Run(s, es) && After(s, es) == After(Received(k, t, x, y), rest)
      && HeldTime(s, es, v, since) ==
         (if v == 1 then 1 else 0) + HeldTime(Received(k, t, x, y), rest, v, if v == x then t + 1 else since)
  {
    Step1(k, t, x, y);
    Step2(k, t, x, y);
    Step3(k, t, x, y);
    WhoIsBusy(k, t, x, y, v);
    hide Next, Allowed, Busy, Run, After, HeldTime, Round, Released, Requeued, Received;
    var s0, s1, s2, s3 := Round(k, t, x, y), Released(k, t, x, y), Requeued(k, t, x, y), Received(k, t, x, y);
    var mid := if v == x then t + 1 else since;
    var e3 := [Receive(x)] + rest;
    OneEvent(s2, Receive(x), s3, rest, v, mid);
    OneEvent(s1, Acquire(1, t + 1, 3), s2, e3, v, mid);
    OneEvent(s0, Release(1, t + 1), s1, [Acquire(1, t + 1, 3)] + e3, v, since);
  }

  /** The second half: that of x ends, and user 1's starts. */
  lemma SecondHalf(k: int, t: int, x: UserId, y: UserId, rest: seq<Event>, v: UserId, since: int)
    requires Others(x, y) && (v == 1 || v == x || v == y) && (v == x ==> since == t + 1) && Run(Round(k + 1, t + 2, y, x), rest)
    ensures var s, es := Received(k, t, x, y), [Release(x, t + 2)] + ([Acquire(x, t + 2, 3)] + ([Receive(1)] + rest));
      && Run(s, es) && After(s, es) == After(Round(k + 1, t + 2, y, x), rest)
      && HeldTime(s, es, v, since) ==
         (if v == x then 1 else 0) + HeldTime(Round(k + 1, t + 2, y, x), rest, v, if v == 1 then t + 2 else since)
  {
    Step4(k, t, x, y);
    Step5(k, t, x, y);
    Step6(k, t, x, y);
    WhoIsBusy(k, t, x, y, v);
    WhoIsBusy(k + 1, t + 2, y, x, v);
    hide Next, Allowed, Busy, Run, After, HeldTime, Round, Received, ReleasedAgain, RequeuedAgain;
    var s3, s4, s5, s6 := Received(k, t, x, y), ReleasedAgain(k, t, x, y), RequeuedAgain(k, t, x, y), Round(k + 1, t + 2, y, x);
    var end := if v == 1 then t + 2 else since;
    var e6 := [Receive(1)] + rest;
    OneEvent(s5, Receive(1), s6, rest, v, end);
    OneEvent(s4, Acquire(x, t + 2, 3), s5, e6, v, end);
    OneEvent(s3, Release(x, t + 2), s4, [Acquire(x, t + 2, 3)] + e6, v, since);
  }

  /** In a round, user 1 holds the worker for a tick, x does, and y does not. */
  lemma OneRound(k: int, t: int, x: UserId, y: UserId, rest: seq<Event>, v: UserId, since: int)
    requires Others(x, y) && (v == 1 || v == x || v == y) && (v == 1 ==> since == t) && Run(Round(k + 1, t + 2, y, x), rest)
    ensures var s := Round(k, t, x, y);
      && Run(s, Turn(t, x) + rest) && After(s, Turn(t, x) + rest) == After(Round(k + 1, t + 2, y, x), rest)
      && HeldTime(s, Turn(t, x) + rest, v, since) ==
         (if v == y then 0 else 1) + HeldTime(Round(k + 1, t + 2, y, x), rest, v, if v == 1 then t + 2 else if v == x then t + 1 else since)
  {
    hide Run, After, HeldTime, Round, Received;
    var half := [Release(x, t + 2)] + ([Acquire(x, t + 2, 3)] + ([Receive(1)] + rest));
    SecondHalf(k, t, x, y, rest, v, if v == x then t + 1 else since);
    FirstHalf(k, t, x, y, half, v, since);
    assert Turn(t, x) + rest == [Release(1, t + 1)] + ([Acquire(1, t + 1, 3)] + ([Receive(x)] + half));
  }

  function Rounds(n: nat, t: int, x: UserId, y: UserId): seq<Event> {
    if n == 0 then [] else Turn(t, x) + Rounds(n - 1, t + 2, y, x)
  }

  lemma {:induction false} ManyRounds(n: nat, k: int, t: int, x: UserId, y: UserId, sinceX: int, sinceY: int)
    requires Others(x, y)
    ensures var s, es := Round(k, t, x, y), Rounds(n, t, x, y);
      && Run(s, es) && HeldTime(s, es, 1, t) == n
      && HeldTime(s, es, x, sinceX) == (n + 1) / 2 && HeldTime(s, es, y, sinceY) == n / 2
    decreases n
  {
    hide Run, After, HeldTime, Turn;
    if n > 0 {
      var rest := Rounds(n - 1, t + 2, y, x);
      ManyRounds(n - 1, k + 1, t + 2, y, x, sinceY, t + 1);
      OneRound(k, t, x, y, rest, 1, t);
      OneRound(k, t, x, y, rest, x, sinceX);
      OneRound(k, t, x, y, rest, y, sinceY);
    } else {
      NoEvents(Round(k, t, x, y));
    }
  }

  lemma NoEvents(s: State)
    ensures Run(s, []) && After(s, []) == s && forall v, since :: HeldTime(s, [], v, since) == 0
  {
  }

  /** Whoever releases the worker asks for one at once. */
  predicate AsksAgain(es: seq<Event>) {
    forall i | 0 <= i < |es| && es[i].Release? ::
      i + 1 < |es| && es[i + 1].Acquire? && es[i + 1].user == es[i].user && es[i + 1].now == es[i].now
  }

  lemma {:induction false} RoundsAskAgain(n: nat, t: int, x: UserId, y: UserId)
    ensures AsksAgain(Rounds(n, t, x, y))
    decreases n
  {
    if n > 0 {
      var rest := Rounds(n - 1, t + 2, y, x);
      RoundsAskAgain(n - 1, t + 2, y, x);
      var es := Turn(t, x) + rest;
      forall i | 0 <= i < |es| && es[i].Release?
        ensures i + 1 < |es| && es[i + 1].Acquire? && es[i + 1].user == es[i].user && es[i + 1].now == es[i].now
      {
        if i >= 6 {
          assert es[i] == rest[i - 6];
        }
      }
    }
  }

  // ---- from a new scheduler on -----------------------------------------------------------

  const ADDED := Initial.(
    workers := map[0 := Worker(None, 0)], queue := [0],
    users := map[1 := User(0, false), 0 := User(0, false), 2 := User(0, false)],
    clients := map[1 := Resting, 0 := Resting, 2 := Resting])

  const TAKEN := ADDED.(
    workers := map[0 := Worker(Some(1), 0)], queue := [], clients := map[1 := Holding(0), 0 := Resting, 2 := Resting])

  const ONE_WAITS := TAKEN.(
    users := map[1 := User(0, false), 0 := User(0, true), 2 := User(0, false)],
    schedule := map[0 := Job(0, 0)], chans := map[0 := Empty],
    clients := map[1 := Holding(0), 0 := Waiting(0), 2 := Resting])

  const BOTH_WAIT := ONE_WAITS.(
    users := map[1 := User(0, false), 0 := User(0, true), 2 := User(1, true)],
    schedule := map[0 := Job(0, 0), 1 := Job(2, 2)], chans := map[0 := Empty, 2 := Empty],
    clients := map[1 := Holding(0), 0 := Waiting(0), 2 := Waiting(2)])

  const GIVEN := BOTH_WAIT.(
    workers := map[0 := Worker(Some(0), 0)],
    users := map[1 := User(0, false), 0 := User(0, false), 2 := User(1, true)],
    schedule := map[1 := Job(2, 2)], chans := map[0 := Full(0, 0), 2 := Empty],
    clients := map[1 := Resting, 0 := Waiting(0), 2 := Waiting(2)])

  /** A user joins while nobody is queued. */
  lemma Joins(s: State, u: UserId)
    requires !s.closed && s.schedule == map[] && u !in s.clients
    ensures Allowed(s, AddUser(u))
    ensures Next(s, AddUser(u)) == s.(users := s.users[u := User(s.floor, false)], clients := s.clients[u := Resting])
  {
  }

  lemma Adding(rest: seq<Event>)
    requires Run(ADDED, rest)
    ensures var es := [AddWorker(0, 0)] + ([AddUser(1)] + ([AddUser(0)] + ([AddUser(2)] + rest)));
      Run(Initial, es) && After(Initial, es) == After(ADDED, rest)
  {
    var s1 := Next(Initial, AddWorker(0, 0));
    assert s1 == Initial.(workers := map[0 := Worker(None, 0)], queue := [0]);
    Joins(s1, 1);
    var s2 := Next(s1, AddUser(1));
    Joins(s2, 0);
    var s3 := Next(s2, AddUser(0));
    Joins(s3, 2);
    assert Next(s3, AddUser(2)) == ADDED;
    hide Next, Run, After;
    OneEvent(s3, AddUser(2), ADDED, rest, 0, 0);
    OneEvent(s2, AddUser(0), s3, [AddUser(2)] + rest, 0, 0);
    OneEvent(s1, AddUser(1), s2, [AddUser(0)] + ([AddUser(2)] + rest), 0, 0);
    OneEvent(Initial, AddWorker(0, 0), s1, [AddUser(1)] + ([AddUser(0)] + ([AddUser(2)] + rest)), 0, 0);
  }

  lemma Taking()
    ensures Allowed(ADDED, Acquire(1, 0, 3)) && Next(ADDED, Acquire(1, 0, 3)) == TAKEN
  {
    Three(0, 2, Resting, Resting, Resting, Holding(0));
    assert ADDED.queue[..0] == [];
    assert map[0 := Worker(None, 0)][0 := Worker(Some(1), 0)] == map[0 := Worker(Some(1), 0)];
  }

  lemma Waiting0()
    ensures Allowed(TAKEN, Acquire(0, 0, 0)) && Next(TAKEN, Acquire(0, 0, 0)) == ONE_WAITS
  {
    assert FirstFree(map[], 0) == 0;
    Three(0, 2, User(0, false), User(0, false), User(0, false), User(0, true));
    Three(0, 2, Holding(0), Resting, Resting, Waiting(0));
  }

  lemma Waiting2()
    ensures Allowed(ONE_WAITS, Acquire(2, 0, 2)) && Next(ONE_WAITS, Acquire(2, 0, 2)) == BOTH_WAIT
  {
    assert FirstFree(ONE_WAITS.schedule, 0) == 1;
    var n := Next(ONE_WAITS, Acquire(2, 0, 2));
    assert n.users == BOTH_WAIT.users && n.clients == BOTH_WAIT.clients;
  }

  lemma Giving()
    ensures Allowed(BOTH_WAIT, Release(1, 0)) && Next(BOTH_WAIT, Release(1, 0)) == GIVEN
  {
    hide MinKey;
    Two(-1, Job(0, 0), Job(2, 2));
    Three(0, 2, User(0, false), User(0, true), User(1, true), User(0, false));
    Three(0, 2, Holding(0), Waiting(0), Waiting(2), Resting);
    Hands(BOTH_WAIT, 1, 0, 0, 0, 0);
    hide Next;
    assert map[0 := Worker(Some(1), 0)][0 := Worker(None, 0)][0 := Worker(Some(0), 0)] == map[0 := Worker(Some(0), 0)];
    assert BOTH_WAIT.chans[0 := Full(0, 0)] == GIVEN.chans;
  }

  lemma Asking()
    ensures Allowed(GIVEN, Acquire(1, 0, 1)) && Next(GIVEN, Acquire(1, 0, 1)) == Requeued(-1, -1, 0, 2)
  {
    assert FirstFree(GIVEN.schedule, 0) == 0;
    hide FirstFree;
    Two(-1, Job(1, 1), Job(2, 2));
    Three(0, 2, User(0, false), User(0, false), User(1, true), User(0, true));
    Three(0, 2, Resting, Waiting(0), Waiting(2), Waiting(1));
    Asks(GIVEN, 1, 0, 1, 0, 1);
    hide Next;
    AllMade();
  }

  lemma AllMade()
    ensures map[0 := Full(0, 0), 2 := Empty][1 := Empty] == FREE[0 := Full(0, 0)]
  {
  }

  const OPENING: seq<Event> := [
    AddWorker(0, 0), AddUser(1), AddUser(0), AddUser(2),
    Acquire(1, 0, 3), Acquire(0, 0, 0), Acquire(2, 0, 2), Release(1, 0), Acquire(1, 0, 1),
    Receive(0), Release(0, 1), Acquire(0, 1, 3), Receive(1)]

  lemma Onward(s: State, e: Event, n: State, rest: seq<Event>)
    requires Allowed(s, e) && Next(s, e) == n && Run(n, rest)
    ensures Run(s, [e] + rest) && After(s, [e] + rest) == After(n, rest)
  {
    assert ([e] + rest)[1..] == rest;
  }

  lemma Twice(s: State, d: Event, n: State, e: Event, m: State, rest: seq<Event>)
    requires Allowed(s, d) && Next(s, d) == n && Allowed(n, e) && Next(n, e) == m && Run(m, rest)
    ensures Run(s, [d] + ([e] + rest)) && After(s, [d] + ([e] + rest)) == After(m, rest)
  {
    hide Next, Allowed, Run, After;
    Onward(n, e, m, rest);
    Onward(s, d, n, [e] + rest);
  }

  lemma Queueing(rest: seq<Event>)
    requires Run(ONE_WAITS, rest)
    ensures var es := [Acquire(1, 0, 3)] + ([Acquire(0, 0, 0)] + rest);
      Run(ADDED, es) && After(ADDED, es) == After(ONE_WAITS, rest)
  {
    hide Next, Allowed, Run, After;
    Taking();
    Waiting0();
    Twice(ADDED, Acquire(1, 0, 3), TAKEN, Acquire(0, 0, 0), ONE_WAITS, rest);
  }

  lemma Handing(rest: seq<Event>)
    requires Run(GIVEN, rest)
    ensures var es := [Acquire(2, 0, 2)] + ([Release(1, 0)] + rest);
      Run(ONE_WAITS, es) && After(ONE_WAITS, es) == After(GIVEN, rest)
  {
    hide Next, Allowed, Run, After;
    Waiting2();
    Giving();
    Twice(ONE_WAITS, Acquire(2, 0, 2), BOTH_WAIT, Release(1, 0), GIVEN, rest);
  }

  lemma Turning()
    ensures var es := [Acquire(1, 0, 1)] + ([Receive(0)] + ([Release(0, 1)] + ([Acquire(0, 1, 3)] + ([Receive(1)] + []))));
      Run(GIVEN, es) && After(GIVEN, es) == Round(0, 1, 2, 0)
  {
    hide Next, Allowed, Run, After, HeldTime, Round, Received, Requeued;
    NoEvents(Round(0, 1, 2, 0));
    SecondHalf(-1, -1, 0, 2, [], 1, -1);
    var es := [Release(0, 1)] + ([Acquire(0, 1, 3)] + ([Receive(1)] + []));
    Asking();
    Step3(-1, -1, 0, 2);
    Twice(GIVEN, Acquire(1, 0, 1), Requeued(-1, -1, 0, 2), Receive(0), Received(-1, -1, 0, 2), es);
  }

  lemma Opens()
    ensures Run(Initial, OPENING) && After(Initial, OPENING) == Round(0, 1, 2, 0)
  {
    hide Run, After, Round;
    var es := [Acquire(1, 0, 1)] + ([Receive(0)] + ([Release(0, 1)] + ([Acquire(0, 1, 3)] + ([Receive(1)] + []))));
    Turning();
    Handing(es);
    var fs := [Acquire(2, 0, 2)] + ([Release(1, 0)] + es);
    Queueing(fs);
    var gs := [Acquire(1, 0, 3)] + ([Acquire(0, 0, 0)] + fs);
    Adding(gs);
    assert OPENING == [AddWorker(0, 0)] + ([AddUser(1)] + ([AddUser(0)] + ([AddUser(2)] + gs)));
  }

  /**
   Shares drift apart without bound: from a state that a new scheduler reaches there are runs in which
   all three users ask again at once, every hold lasts one tick, and user 1 gets as far ahead of the
   others as one likes.
   */
  lemma ShareDrifts(n: nat)
    ensures Run(Initial, OPENING) && After(Initial, OPENING) == Round(0, 1, 2, 0)
    ensures var s, es := Round(0, 1, 2, 0), Rounds(2 * n, 1, 2, 0);
      && Run(s, es) && AsksAgain(es)
      && HeldTime(s, es, 1, 1) == 2 * n && HeldTime(s, es, 0, 0) == n && HeldTime(s, es, 2, 0) == n
  {
    hide Run, After, HeldTime, Round, AsksAgain, Rounds;
    Opens();
    ManyRounds(2 * n, 0, 1, 2, 0, 0, 0);
    RoundsAskAgain(2 * n, 1, 2, 0);
  }
}
