/**
 A PostgreSQL backend as the bridge of lib/bouncer/backends/v0 sees it: a state machine that
 takes frontend messages from an inbox and emits replies, following section 55.2 (Message Flow)
 of the PostgreSQL 16 documentation. Packets are identified by their type byte; the only payload
 that matters is the transaction status carried by ReadyForQuery.

 The backend is driven by a finite script of actions, so that every finite run of every
 conforming backend is one script. An action that the protocol does not allow in the current
 state is not a step of a conforming backend.
 */
module Backend {
  import opened Collections

  datatype Packet = Packet(typ: char, status: char)

  predicate IsStatus(c: char) {
    c == 'I' || c == 'T' || c == 'E'
  }

  /** Frontend messages that the backend answers with a ReadyForQuery of their own. */
  predicate IsCommand(p: Packet) {
    p.typ == 'Q' || p.typ == 'F' || p.typ == 'S'
  }

  /** CopyData, CopyDone and CopyFail, which are dropped outside copy-in. */
  predicate IsCopy(p: Packet) {
    p.typ == 'd' || p.typ == 'c' || p.typ == 'f'
  }

  /** Parse, Bind, Close, Describe, Execute. */
  predicate IsExtended(p: Packet) {
    p.typ == 'P' || p.typ == 'B' || p.typ == 'C' || p.typ == 'D' || p.typ == 'E'
  }

  /** NoticeResponse, ParameterStatus and NotificationResponse may come at any time. */
  predicate IsAsync(p: Packet) {
    p.typ == 'N' || p.typ == 'S' || p.typ == 'A'
  }

  datatype Phase =
    | Idle                    // waiting for the next message
    | Simple(failed: bool)    // running the statements of a Query
    | Function(done: bool)    // running a FunctionCall
    | Running(msg: char)      // running one extended-query message
    | Skipping                // after an extended-query error: discards until Sync
    | CopyIn(extended: bool)
    | CopyOut(extended: bool)

  /**
   status is the one last reported. swallowed counts the commands that were discarded without a
   ReadyForQuery of their own. escaped records that a Sync sent before an extended-query copy-in
   was not swallowed by it, either because other messages of the batch stood between them or
   because the copy-in failed before reading the Sync.
   */
  datatype State = State(phase: Phase, inbox: seq<Packet>, status: char, swallowed: nat, escaped: bool)

  datatype Action = Emit(reply: Packet) | Take(status: char)

  datatype Outcome = Outcome(state: State, reply: Option<Packet>)

  function AfterFailure(extended: bool): Phase {
    if extended then Skipping else Simple(true)
  }

  function AfterCopy(extended: bool): Phase {
    if extended then Running('E') else Simple(false)
  }

  /** The phase after a reply of the given type, if the backend may send it now. */
  function Reply(phase: Phase, p: Packet): Option<Phase> {
    match phase
    case Idle => None
    case Skipping => None
    case Simple(failed) =>
      if p.typ == 'Z' && IsStatus(p.status) then Some(Idle)
      else if failed then None
      else if p.typ == 'C' || p.typ == 'T' || p.typ == 'D' || p.typ == 'I' then Some(phase)
      else if p.typ == 'E' then Some(Simple(true))
      else if p.typ == 'G' then Some(CopyIn(false))
      else if p.typ == 'H' then Some(CopyOut(false))
      else None
    case Function(done) =>
      if done then (if p.typ == 'Z' && IsStatus(p.status) then Some(Idle) else None)
      else if p.typ == 'V' || p.typ == 'E' then Some(Function(true))
      else None
    case Running(msg) =>
      if p.typ == 'E' then Some(Skipping)
      else if msg == 'P' && p.typ == '1' then Some(Idle)
      else if msg == 'B' && p.typ == '2' then Some(Idle)
      else if msg == 'C' && p.typ == '3' then Some(Idle)
      else if msg == 'D' && p.typ == 't' then Some(phase)
      else if msg == 'D' && (p.typ == 'T' || p.typ == 'n') then Some(Idle)
      else if msg == 'E' && p.typ == 'D' then Some(phase)
      else if msg == 'E' && (p.typ == 'C' || p.typ == 'I' || p.typ == 's') then Some(Idle)
      else if msg == 'E' && p.typ == 'G' then Some(CopyIn(true))
      else if msg == 'E' && p.typ == 'H' then Some(CopyOut(true))
      else None
    case CopyIn(extended) =>
      if p.typ == 'E' then Some(AfterFailure(extended)) else None
    case CopyOut(extended) =>
      if p.typ == 'd' then Some(phase)
      else if p.typ == 'c' then Some(AfterCopy(extended))
      else if p.typ == 'E' then Some(AfterFailure(extended))
      else None
  }

  function Lost(p: Packet): nat {
    if IsCommand(p) then 1 else 0
  }

  /** Takes the next message of the inbox; `status` is reported if it completes a Sync. */
  function TakeNext(s: State, status: char): Option<Outcome> {
    if s.inbox == [] then None else
    var m := s.inbox[0];
    var t := s.(inbox := s.inbox[1..]);
    match s.phase
    case Idle =>
      if m.typ == 'S' then Ready(t, status)
      else if m.typ == 'Q' then Some(Outcome(t.(phase := Simple(false)), None))
      else if m.typ == 'F' then Some(Outcome(t.(phase := Function(false)), None))
      else if IsExtended(m) then Some(Outcome(t.(phase := Running(m.typ)), None))
      else if m.typ == 'H' || IsCopy(m) then Some(Outcome(t, None))
      else None
    case Skipping =>
      if m.typ == 'S' then Ready(t, status)
      else Some(Outcome(t.(swallowed := t.swallowed + Lost(m)), None))
    case CopyIn(extended) =>
      if m.typ == 'd' || m.typ == 'H' then Some(Outcome(t, None))
      else if m.typ == 'S' then Some(Outcome(t.(swallowed := t.swallowed + 1), None))
      else if m.typ == 'c' then Some(Outcome(t.(phase := AfterCopy(extended)), None))
      else Some(Outcome(t.(phase := AfterFailure(extended), swallowed := t.swallowed + Lost(m)),
                        Some(Packet('E', ' '))))
    case _ => None
  }

  function Ready(s: State, status: char): Option<Outcome> {
    if !IsStatus(status) then None
    else Some(Outcome(s.(phase := Idle, status := status), Some(Packet('Z', status))))
  }

  function Commands(q: seq<Packet>): nat {
    if q == [] then 0 else Lost(q[0]) + Commands(q[1..])
  }

  /** CopyDone, CopyFail, or a message that aborts copy-in. */
  predicate EndsCopy(p: Packet) {
    p.typ != 'd' && p.typ != 'H' && p.typ != 'S'
  }

  predicate HasEnd(q: seq<Packet>) {
    q != [] && (EndsCopy(q[0]) || HasEnd(q[1..]))
  }

  function AfterEnd(q: seq<Packet>): seq<Packet> {
    if q == [] then [] else if EndsCopy(q[0]) then q[1..] else AfterEnd(q[1..])
  }

  /** The commands that copy-in will swallow before it ends. */
  function BeforeEnd(q: seq<Packet>): nat {
    if q == [] || EndsCopy(q[0]) then 0 else Lost(q[0]) + BeforeEnd(q[1..])
  }

  /** Going from s to the next phase, a Sync gets past an extended-query copy-in. */
  predicate Escapes(s: State, next: Phase) {
    || (next == CopyIn(true) && HasEnd(s.inbox))
    || (s.phase == CopyIn(true) && BeforeEnd(s.inbox) > 0)
  }

  /** One step of a conforming backend, or None if the action is not one. */
  function Step(s: State, a: Action): Option<Outcome> {
    match a
    case Take(status) => TakeNext(s, status)
    case Emit(p) =>
      if IsAsync(p) then Some(Outcome(s, Some(p)))
      else
        match Reply(s.phase, p)
        case None => None
        case Some(phase) =>
          Some(Outcome(s.(phase := phase,
                          status := if p.typ == 'Z' then p.status else s.status,
                          escaped := s.escaped || Escapes(s, phase)),
                       Some(p)))
  }

  // ---- ReadyForQuery accounting ----------------------------------------------------------

  predicate OwesNow(phase: Phase) {
    match phase
    case Simple(_) => true
    case Function(_) => true
    case CopyIn(extended) => !extended
    case CopyOut(extended) => !extended
    case _ => false
  }

  /** How many ReadyForQuery the backend would still send if nothing more were swallowed. */
  function Owed(s: State): nat {
    (if OwesNow(s.phase) then 1 else 0) + Commands(s.inbox)
  }

  function Sent(r: Option<Packet>): nat {
    if r.Some? && r.value.typ == 'Z' then 1 else 0
  }

  /** Every command is owed, answered or swallowed; nothing else is. */
  lemma StepConserves(s: State, a: Action)
    requires Step(s, a).Some?
    ensures var o := Step(s, a).value;
      Owed(o.state) + Sent(o.reply) + o.state.swallowed == Owed(s) + s.swallowed
  {
  }

  /** The status a ReadyForQuery reports is the backend's own, and it leaves the backend idle. */
  lemma ReadyIsIdle(s: State, a: Action)
    requires Step(s, a).Some?
    ensures var o := Step(s, a).value;
      o.reply.Some? && o.reply.value.typ == 'Z' ==>
        o.state.phase == Idle && o.state.status == o.reply.value.status && IsStatus(o.state.status)
  {
  }

  lemma {:induction false} CommandsAppend(q: seq<Packet>, p: Packet)
    ensures Commands(q + [p]) == Commands(q) + Lost(p)
  {
    if q == [] {
      assert q + [p] == [p];
    } else {
      assert (q + [p])[1..] == q[1..] + [p];
      CommandsAppend(q[1..], p);
    }
  }

  /** Every message that elicits a reply is followed by a command that completes it. */
  predicate Closed(q: seq<Packet>) {
    q == [] || (Closed(q[1..]) && (IsCommand(q[0]) || IsCopy(q[0]) || Commands(q[1..]) > 0))
  }

  lemma {:induction false} ClosedAppend(q: seq<Packet>, p: Packet)
    requires IsCommand(p) || (IsCopy(p) && Closed(q))
    ensures Closed(q + [p])
  {
    if q == [] {
      assert q + [p] == [p];
    } else {
      assert (q + [p])[1..] == q[1..] + [p];
      CommandsAppend(q[1..], p);
      ClosedAppend(q[1..], p);
    }
  }

  /** Nothing is running and nothing in the inbox will ever be answered. */
  predicate Quiet(s: State) {
    s.phase == Idle && forall i :: 0 <= i < |s.inbox| ==> IsCopy(s.inbox[i])
  }

  lemma {:induction false} NoCommands(q: seq<Packet>)
    ensures Commands(q) == 0 <==> forall i :: 0 <= i < |q| ==> !IsCommand(q[i])
  {
    if q != [] {
      NoCommands(q[1..]);
      assert forall i :: 0 < i < |q| ==> q[i] == q[1..][i - 1];
    }
  }

  lemma {:induction false} ClosedCopies(q: seq<Packet>)
    requires Closed(q) && Commands(q) == 0
    ensures forall i :: 0 <= i < |q| ==> IsCopy(q[i])
  {
    if q != [] {
      ClosedCopies(q[1..]);
      assert forall i :: 0 < i < |q| ==> q[i] == q[1..][i - 1];
    }
  }

  /** Once idle with a closed inbox, owing nothing is the same as being quiet. */
  lemma QuietIffNothingOwed(s: State)
    requires s.phase == Idle && Closed(s.inbox)
    ensures Quiet(s) <==> Owed(s) == 0
  {
    NoCommands(s.inbox);
    if Owed(s) == 0 {
      ClosedCopies(s.inbox);
    }
  }

  // ---- waiting for a reply ---------------------------------------------------------------

  datatype Answer = Answer(state: State, reply: Packet, script: seq<Action>)

  /** Lets the backend run until its next reply; None if the connection ends first. */
  function Await(s: State, script: seq<Action>): Option<Answer>
    decreases |script|
  {
    if script == [] then None else
    match Step(s, script[0])
    case None => None
    case Some(Outcome(t, Some(p))) => Some(Answer(t, p, script[1..]))
    case Some(Outcome(t, None)) => Await(t, script[1..])
  }

  lemma EscapedStays(s: State, a: Action)
    requires Step(s, a).Some? && s.escaped
    ensures Step(s, a).value.state.escaped
  {
  }

  /** The backend will not ask for copy data. */
  predicate NoCopyIn(script: seq<Action>) {
    forall i :: 0 <= i < |script| ==> !(script[i].Emit? && script[i].reply.typ == 'G')
  }

  predicate Calm(s: State) {
    !s.escaped && s.phase != CopyIn(true)
  }

  /** Without a copy-in no Sync can escape. */
  lemma CalmStays(s: State, script: seq<Action>)
    requires script != [] && NoCopyIn(script) && Calm(s) && Step(s, script[0]).Some?
    ensures Calm(Step(s, script[0]).value.state) && NoCopyIn(script[1..])
  {
  }

  lemma {:induction false} AwaitConserves(s: State, script: seq<Action>)
    requires Await(s, script).Some?
    ensures var a := Await(s, script).value;
      && |a.script| < |script|
      && Owed(a.state) + Sent(Some(a.reply)) + a.state.swallowed == Owed(s) + s.swallowed
      && (a.reply.typ == 'Z' ==>
            a.state.phase == Idle && a.state.status == a.reply.status && IsStatus(a.reply.status))
      && (Closed(s.inbox) ==> Closed(a.state.inbox))
    decreases |script|
  {
    StepConserves(s, script[0]);
    ReadyIsIdle(s, script[0]);
    var o := Step(s, script[0]).value;
    if o.reply.None? {
      AwaitConserves(o.state, script[1..]);
    }
  }

  // ---- one kind of command at a time -----------------------------------------------------

  /** A command is to be answered, and no copy-in has to be ended first; see BoundToFinish for what this means. */
  predicate Answerable(s: State) {
    match s.phase
    case CopyIn(extended) => HasEnd(s.inbox) && (extended ==> Commands(AfterEnd(s.inbox)) > 0)
    case _ => Owed(s) > 0
  }

  /** Only extended-query messages, Sync and copy traffic are in play. */
  predicate InExtended(s: State) {
    && !OwesNow(s.phase)
    && forall i :: 0 <= i < |s.inbox| ==> IsBatched(s.inbox[i])
  }

  predicate IsBatched(p: Packet) {
    IsExtended(p) || p.typ == 'S' || p.typ == 'H' || IsCopy(p)
  }

  /** Exactly one Query or FunctionCall is in play, of the given type. */
  predicate InCommand(s: State, typ: char) {
    match s.phase
    case Idle =>
      exists i :: 0 <= i < |s.inbox| && s.inbox[i].typ == typ &&
        forall j :: 0 <= j < |s.inbox| && j != i ==> IsCopy(s.inbox[j])
    case Simple(_) => typ == 'Q' && Copies(s.inbox)
    case CopyIn(extended) => typ == 'Q' && !extended && Copies(s.inbox)
    case CopyOut(extended) => typ == 'Q' && !extended && Copies(s.inbox)
    case Function(_) => typ == 'F' && Copies(s.inbox)
    case _ => false
  }

  predicate Copies(q: seq<Packet>) {
    forall i :: 0 <= i < |q| ==> IsCopy(q[i])
  }

  /** What the bridge's Query loop is prepared for. */
  predicate QueryReply(t: char) {
    t == 'C' || t == 'T' || t == 'D' || t == 'I' || t == 'E' || t == 'N' || t == 'S' || t == 'A'
  }

  predicate SyncReply(t: char) {
    || t == '1' || t == '2' || t == '3' || t == 'E' || t == 'T' || t == 'n' || t == 't'
    || t == 'C' || t == 'D' || t == 'I' || t == 's' || t == 'N' || t == 'S' || t == 'A'
  }

  /** The replies a copy-out relay is prepared for, and those that end it. */
  predicate CopyOutReply(t: char) {
    t == 'd' || t == 'N' || t == 'S' || t == 'A' || t == 'c' || t == 'E'
  }

  /** How the reply and the phases around it fit together when relaying. */
  predicate Relayed(s: State, t: State, reply: char, others: char -> bool) {
    && (t.phase.CopyOut? <==> reply == 'H' || (s.phase.CopyOut? && (reply == 'd' || reply == 'N' || reply == 'S' || reply == 'A')))
    && if s.phase.CopyOut? then CopyOutReply(reply) else others(reply) || reply == 'G' || reply == 'H' || reply == 'Z'
  }

  lemma CommandStep(s: State, a: Action, typ: char)
    requires (typ == 'Q' || typ == 'F') && InCommand(s, typ) && Step(s, a).Some?
    requires s.phase.CopyIn? ==> HasEnd(s.inbox)
    ensures var o := Step(s, a).value;
      && (o.reply.None? ==> InCommand(o.state, typ) && (o.state.phase.CopyOut? <==> s.phase.CopyOut?))
      && (o.reply.None? && o.state.phase.CopyIn? ==> HasEnd(o.state.inbox))
  {
  }

  lemma CommandReply(s: State, a: Action)
    requires InCommand(s, 'Q') && Step(s, a).Some? && Step(s, a).value.reply.Some?
    requires s.phase.CopyIn? ==> HasEnd(s.inbox)
    ensures var o := Step(s, a).value;
      var r := o.reply.value.typ;
      && Relayed(s, o.state, r, QueryReply)
      && (if r == 'Z' then Quiet(o.state) else InCommand(o.state, 'Q'))
      && (r == 'G' ==> o.state.phase == CopyIn(false))
      && (o.state.phase.CopyIn? && r != 'G' ==> HasEnd(o.state.inbox))
  {
  }

  /** A Query, awaited: the bridge's loop is prepared for every reply, and ReadyForQuery ends it. */
  lemma {:induction false} AwaitQuery(s: State, script: seq<Action>)
    requires InCommand(s, 'Q') && Await(s, script).Some?
    requires s.phase.CopyIn? ==> HasEnd(s.inbox)
    ensures var a := Await(s, script).value;
      && Relayed(s, a.state, a.reply.typ, QueryReply)
      && (if a.reply.typ == 'Z' then Quiet(a.state) else InCommand(a.state, 'Q'))
      && (a.reply.typ == 'G' ==> a.state.phase == CopyIn(false))
      && (a.state.phase.CopyIn? && a.reply.typ != 'G' ==> HasEnd(a.state.inbox))
    decreases |script|
  {
    var o := Step(s, script[0]).value;
    if o.reply.None? {
      CommandStep(s, script[0], 'Q');
      AwaitQuery(o.state, script[1..]);
    } else {
      CommandReply(s, script[0]);
    }
  }

  predicate CallReply(t: char) {
    t == 'E' || t == 'V' || t == 'N' || t == 'S' || t == 'A'
  }

  lemma {:induction false} AwaitCall(s: State, script: seq<Action>)
    requires InCommand(s, 'F') && Await(s, script).Some?
    ensures var a := Await(s, script).value;
      if a.reply.typ == 'Z' then Quiet(a.state)
      else CallReply(a.reply.typ) && InCommand(a.state, 'F')
    decreases |script|
  {
    var o := Step(s, script[0]).value;
    if o.reply.None? {
      CommandStep(s, script[0], 'F');
      AwaitCall(o.state, script[1..]);
    }
  }

  /** Of the `skips` Syncs given up on, those not swallowed yet are about to be. */
  predicate Tracked(s: State, skips: nat) {
    !s.escaped ==> skips == s.swallowed + (if s.phase == CopyIn(true) then BeforeEnd(s.inbox) else 0)
  }

  lemma {:induction false} CommandsSplit(q: seq<Packet>)
    ensures Commands(q) == BeforeEnd(q) + (if HasEnd(q) then Lost(FirstEnd(q)) + Commands(AfterEnd(q)) else 0)
  {
    if q != [] {
      CommandsSplit(q[1..]);
    }
  }

  function FirstEnd(q: seq<Packet>): Packet
    requires HasEnd(q)
  {
    if EndsCopy(q[0]) then q[0] else FirstEnd(q[1..])
  }

  lemma ExtendedStep(s: State, a: Action)
    requires InExtended(s) && Answerable(s) && Step(s, a).Some? && Step(s, a).value.reply.None?
    ensures var o := Step(s, a).value;
      InExtended(o.state) && Answerable(o.state) && (o.state.phase.CopyOut? <==> s.phase.CopyOut?)
  {
  }

  lemma {:induction false} AfterEndCommands(q: seq<Packet>)
    ensures Commands(AfterEnd(q)) <= Commands(q)
  {
    if q != [] {
      AfterEndCommands(q[1..]);
    }
  }

  lemma ExtendedReply(s: State, a: Action)
    requires InExtended(s) && Answerable(s) && Step(s, a).Some? && Step(s, a).value.reply.Some?
    ensures var o := Step(s, a).value;
      var r := o.reply.value.typ;
      && Relayed(s, o.state, r, SyncReply) && InExtended(o.state)
      && (r == 'G' ==> o.state.phase == CopyIn(true))
      && (r != 'G' && r != 'Z' ==> Answerable(o.state))
  {
    AfterEndCommands(s.inbox);
  }

  lemma {:induction false} AwaitSync(s: State, script: seq<Action>)
    requires InExtended(s) && Answerable(s) && Await(s, script).Some?
    ensures var a := Await(s, script).value;
      && Relayed(s, a.state, a.reply.typ, SyncReply) && InExtended(a.state)
      && (a.reply.typ == 'G' ==> a.state.phase == CopyIn(true))
      && (a.reply.typ != 'G' && a.reply.typ != 'Z' ==> Answerable(a.state))
    decreases |script|
  {
    var o := Step(s, script[0]).value;
    if o.reply.None? {
      ExtendedStep(s, script[0]);
      AwaitSync(o.state, script[1..]);
    } else {
      ExtendedReply(s, script[0]);
    }
  }

  // ---- what the bridge's writes do to the inbox ------------------------------------------

  lemma {:induction false} EndAppend(q: seq<Packet>, p: Packet)
    ensures HasEnd(q + [p]) <==> HasEnd(q) || EndsCopy(p)
    ensures HasEnd(q) ==> AfterEnd(q + [p]) == AfterEnd(q) + [p]
  {
    if q == [] {
      assert q + [p] == [p];
    } else {
      assert (q + [p])[1..] == q[1..] + [p];
      EndAppend(q[1..], p);
    }
  }

  /** Sending Sync makes an extended-query backend answerable. */
  lemma SyncAnswerable(s: State, p: Packet)
    requires InExtended(s) && p.typ == 'S' && (s.phase.CopyIn? ==> HasEnd(s.inbox))
    ensures InExtended(s.(inbox := s.inbox + [p])) && Answerable(s.(inbox := s.inbox + [p]))
  {
    CommandsAppend(s.inbox, p);
    EndAppend(s.inbox, p);
    CommandsAppend(AfterEnd(s.inbox), p);
  }

  /** As long as one answer is due, the count of swallowed Syncs follows the count of skipped ones. */
  lemma TrackedStep(s: State, a: Action, skips: nat)
    requires InExtended(s) && Step(s, a).Some? && Tracked(s, skips) && Owed(s) + s.swallowed == skips + 1
    ensures var o := Step(s, a).value;
      Tracked(o.state, if o.reply.Some? && o.reply.value.typ == 'G' then skips + 1 else skips)
  {
    CommandsSplit(s.inbox);
  }

  lemma {:induction false} AwaitTracked(s: State, script: seq<Action>, skips: nat)
    requires InExtended(s) && Answerable(s) && Await(s, script).Some?
    requires Tracked(s, skips) && Owed(s) + s.swallowed == skips + 1
    ensures var a := Await(s, script).value;
      Tracked(a.state, if a.reply.typ == 'G' then skips + 1 else skips)
    decreases |script|
  {
    TrackedStep(s, script[0], skips);
    var o := Step(s, script[0]).value;
    if o.reply.None? {
      StepConserves(s, script[0]);
      ExtendedStep(s, script[0]);
      AwaitTracked(o.state, script[1..], skips);
    }
  }

  lemma {:induction false} BeforeEndAppend(q: seq<Packet>, p: Packet)
    requires HasEnd(q) || Lost(p) == 0
    ensures BeforeEnd(q + [p]) == BeforeEnd(q)
  {
    if q == [] {
      assert q + [p] == [p];
    } else {
      assert (q + [p])[1..] == q[1..] + [p];
      if !EndsCopy(q[0]) {
        BeforeEndAppend(q[1..], p);
      }
    }
  }

  /** t is s with copy traffic added to its inbox. */
  predicate Fed(s: State, t: State) {
    && t == s.(inbox := t.inbox) && Commands(t.inbox) == Commands(s.inbox)
    && (Closed(s.inbox) ==> Closed(t.inbox))
    && (InExtended(s) ==> InExtended(t)) && (InCommand(s, 'Q') ==> InCommand(t, 'Q'))
    && BeforeEnd(t.inbox) == BeforeEnd(s.inbox)
  }

  lemma FedSelf(s: State)
    ensures Fed(s, s)
  {
  }

  lemma FedAppend(s: State, t: State, p: Packet)
    requires Fed(s, t) && IsCopy(p)
    ensures Fed(s, Send(t, p))
  {
    CommandsAppend(t.inbox, p);
    if Closed(t.inbox) {
      ClosedAppend(t.inbox, p);
    }
    BeforeEndAppend(t.inbox, p);
    if InCommand(t, 'Q') && t.phase == Idle {
      var i :| 0 <= i < |t.inbox| && t.inbox[i].typ == 'Q' &&
        forall j :: 0 <= j < |t.inbox| && j != i ==> IsCopy(t.inbox[j]);
      assert (t.inbox + [p])[i].typ == 'Q';
    }
  }

  lemma CommandAnswerable(s: State, typ: char)
    requires (typ == 'Q' || typ == 'F') && InCommand(s, typ) && (s.phase.CopyIn? ==> HasEnd(s.inbox))
    ensures Answerable(s)
  {
    NoCommands(s.inbox);
  }

  // ---- waiting is not in vain ------------------------------------------------------------

  /** A run of the backend, with nothing more sent to it, up to a ReadyForQuery. */
  ghost predicate Finishes(s: State, script: seq<Action>)
    decreases |script|
  {
    && script != [] && Step(s, script[0]).Some?
    && var o := Step(s, script[0]).value;
       (o.reply.Some? && o.reply.value.typ == 'Z') || Finishes(o.state, script[1..])
  }

  ghost predicate CanFinish(s: State) {
    exists script :: Finishes(s, script)
  }

  /** The state after some steps without a reply. */
  function Silently(s: State, script: seq<Action>): Option<State>
    decreases |script|
  {
    if script == [] then Some(s) else
    match Step(s, script[0])
    case Some(Outcome(t, None)) => Silently(t, script[1..])
    case _ => None
  }

  /** Whatever the backend does before its next reply, it can still go on to a ReadyForQuery by itself. */
  ghost predicate BoundToFinish(s: State) {
    forall script :: Silently(s, script).Some? ==> CanFinish(Silently(s, script).value)
  }

  lemma FinishesAfter(s: State, a: Action)
    requires Step(s, a).Some?
    requires var o := Step(s, a).value; (o.reply.Some? && o.reply.value.typ == 'Z') || CanFinish(o.state)
    ensures CanFinish(s)
  {
    var o := Step(s, a).value;
    if o.reply.Some? && o.reply.value.typ == 'Z' {
      assert Finishes(s, [a]);
    } else {
      var script :| Finishes(o.state, script);
      assert ([a] + script)[1..] == script;
      assert Finishes(s, [a] + script);
    }
  }

  /** Waiting can be in vain: after an error with no Sync to come there is no ReadyForQuery any more. */
  lemma {:induction false} SkippingForGood(s: State, script: seq<Action>)
    requires s.phase == Skipping && forall i :: 0 <= i < |s.inbox| ==> s.inbox[i].typ != 'S'
    ensures !Finishes(s, script)
    decreases |script|
  {
    if script != [] && Step(s, script[0]).Some? {
      SkippingForGood(Step(s, script[0]).value.state, script[1..]);
    }
  }

  /** A simple query or function call that is past its messages ends with an error and ReadyForQuery. */
  lemma SimpleFinishes(s: State)
    requires s.phase.Simple? || s.phase.Function?
    ensures CanFinish(s)
  {
    var ready := Emit(Packet('Z', 'I'));
    if s.phase == Function(false) {
      var e := Emit(Packet('E', ' '));
      FinishesAfter(Step(s, e).value.state, ready);
      FinishesAfter(s, e);
    } else {
      FinishesAfter(s, ready);
    }
  }

  lemma {:induction false} CommandFinishes(s: State, typ: char)
    requires (typ == 'Q' || typ == 'F') && InCommand(s, typ) && Answerable(s)
    ensures CanFinish(s)
    decreases |s.inbox|
  {
    if s.phase.CopyOut? {
      var e := Emit(Packet('E', ' '));
      SimpleFinishes(Step(s, e).value.state);
      FinishesAfter(s, e);
    } else if s.phase == Idle || s.phase.CopyIn? {
      var take := Take('I');
      var o := Step(s, take).value;
      if o.state.phase.Simple? || o.state.phase.Function? {
        SimpleFinishes(o.state);
      } else {
        CommandStep(s, take, typ);
        CommandAnswerable(o.state, typ);
        CommandFinishes(o.state, typ);
      }
      FinishesAfter(s, take);
    } else {
      SimpleFinishes(s);
    }
  }

  lemma {:induction false} SkippingFinishes(s: State)
    requires s.phase == Skipping && InExtended(s) && Answerable(s)
    ensures CanFinish(s)
    decreases |s.inbox|
  {
    var take := Take('I');
    if s.inbox[0].typ != 'S' {
      SkippingFinishes(Step(s, take).value.state);
    }
    FinishesAfter(s, take);
  }

  lemma {:induction false} ExtendedFinishes(s: State)
    requires InExtended(s) && Answerable(s)
    ensures CanFinish(s)
    decreases |s.inbox|
  {
    if s.phase == Skipping {
      SkippingFinishes(s);
    } else if s.phase.Running? || s.phase.CopyOut? {
      var e := Emit(Packet('E', ' '));
      SkippingFinishes(Step(s, e).value.state);
      FinishesAfter(s, e);
    } else {
      var take := Take('I');
      var o := Step(s, take).value;
      if o.reply.None? {
        ExtendedStep(s, take);
        ExtendedFinishes(o.state);
      } else if o.reply.value.typ != 'Z' {
        ExtendedReply(s, take);
        SkippingFinishes(o.state);
      }
      FinishesAfter(s, take);
    }
  }

  /** What the bridge waits for, it gets: the backend is not stuck before its next reply, nor can it become so. */
  lemma {:induction false} WaitsNotInVain(s: State, script: seq<Action>)
    requires (InExtended(s) || InCommand(s, 'Q') || InCommand(s, 'F')) && Answerable(s) && Silently(s, script).Some?
    ensures CanFinish(Silently(s, script).value)
    decreases |script|
  {
    hide Step, CanFinish;
    if script == [] {
      if InExtended(s) {
        ExtendedFinishes(s);
      } else {
        CommandFinishes(s, if InCommand(s, 'Q') then 'Q' else 'F');
      }
    } else {
      var t := Step(s, script[0]).value.state;
      if InExtended(s) {
        ExtendedStep(s, script[0]);
      } else {
        var typ := if InCommand(s, 'Q') then 'Q' else 'F';
        CommandStep(s, script[0], typ);
        CommandAnswerable(t, typ);
      }
      WaitsNotInVain(t, script[1..]);
    }
  }

  lemma AnswerableBound(s: State)
    requires (InExtended(s) || InCommand(s, 'Q') || InCommand(s, 'F')) && Answerable(s)
    ensures BoundToFinish(s)
  {
    hide CanFinish, InExtended, InCommand, Answerable, Silently;
    forall script | Silently(s, script).Some?
      ensures CanFinish(Silently(s, script).value)
    {
      WaitsNotInVain(s, script);
    }
  }

  /** A Query is in play and needs nothing more from the bridge. */
  predicate Querying(s: State) {
    InCommand(s, 'Q') && (s.phase.CopyIn? ==> HasEnd(s.inbox))
  }

  /** One Sync is to be answered and needs nothing more from the bridge. */
  predicate Syncing(s: State, skips: nat) {
    InExtended(s) && Answerable(s) && Tracked(s, skips) && Owed(s) + s.swallowed == skips + 1
  }

  /** The state right after a reply to a Query: one the bridge relays, with the rest still in play. */
  predicate GotQuery(s: State, r: char) {
    && (QueryReply(r) || r == 'G' || r == 'H' || r == 'Z')
    && (s.phase.CopyOut? <==> r == 'H')
    && (r == 'Z' ==> Quiet(s))
    && (r == 'G' ==> s.phase == CopyIn(false) && InCommand(s, 'Q'))
    && (r != 'Z' && r != 'G' ==> Querying(s))
  }

  /** The state right after a reply to a batch ended by Sync; `skips` counts this one on copy-in. */
  predicate GotSync(s: State, r: char, skips: nat) {
    && (SyncReply(r) || r == 'G' || r == 'H' || r == 'Z')
    && (s.phase.CopyOut? <==> r == 'H')
    && InExtended(s) && Tracked(s, if r == 'G' then skips + 1 else skips)
    && (r == 'G' ==> s.phase == CopyIn(true))
    && (r != 'G' && r != 'Z' ==> Syncing(s, skips))
  }

  lemma GotQueryCases(s: State, r: char)
    requires GotQuery(s, r)
    ensures QueryReply(r) || r == 'G' || r == 'H' || r == 'Z'
    ensures s.phase.CopyOut? <==> r == 'H'
    ensures r == 'Z' ==> Quiet(s)
    ensures r == 'G' ==> InCommand(s, 'Q')
    ensures r != 'Z' && r != 'G' ==> Querying(s)
  {
  }

  lemma GotSyncCases(s: State, r: char, skips: nat)
    requires GotSync(s, r, skips)
    ensures SyncReply(r) || r == 'G' || r == 'H' || r == 'Z'
    ensures s.phase.CopyOut? <==> r == 'H'
    ensures InExtended(s) && Tracked(s, if r == 'G' then skips + 1 else skips)
    ensures r != 'G' && r != 'Z' ==> Syncing(s, skips)
    ensures r == 'Z' && s.phase == Idle ==> Batching(s, skips)
  {
  }

  lemma QueryRead(s: State, script: seq<Action>)
    requires Querying(s) && !s.phase.CopyOut?
    ensures BoundToFinish(s)
    ensures Await(s, script).Some? ==> GotQuery(Await(s, script).value.state, Await(s, script).value.reply.typ)
  {
    hide BoundToFinish;
    CommandAnswerable(s, 'Q');
    AnswerableBound(s);
    if Await(s, script).Some? {
      AwaitQuery(s, script);
    }
  }

  lemma SyncRead(s: State, script: seq<Action>, skips: nat)
    requires Syncing(s, skips) && !s.phase.CopyOut?
    ensures BoundToFinish(s)
    ensures Await(s, script).Some? ==> GotSync(Await(s, script).value.state, Await(s, script).value.reply.typ, skips)
  {
    hide BoundToFinish;
    AnswerableBound(s);
    if Await(s, script).Some? {
      AwaitConserves(s, script);
      AwaitSync(s, script);
      AwaitTracked(s, script, skips);
    }
  }

  /** Reading during copy-out, for a Query or for a batch. */
  lemma CopyOutRead(s: State, script: seq<Action>, skips: nat)
    requires s.phase.CopyOut?
    ensures Querying(s) || Syncing(s, skips) ==> BoundToFinish(s)
    ensures (Querying(s) || Syncing(s, skips)) && Await(s, script).Some? ==>
      && CopyOutReply(Await(s, script).value.reply.typ)
      && (Await(s, script).value.state.phase.CopyOut? <==> Await(s, script).value.reply.typ !in {'c', 'E'})
      && (Querying(s) ==> Querying(Await(s, script).value.state))
      && (Syncing(s, skips) ==> Syncing(Await(s, script).value.state, skips))
  {
    hide BoundToFinish;
    if Querying(s) {
      CommandAnswerable(s, 'Q');
    }
    if Querying(s) || Syncing(s, skips) {
      AnswerableBound(s);
    }
    if Querying(s) {
      if Await(s, script).Some? {
        AwaitQuery(s, script);
      }
    }
    if Syncing(s, skips) && Await(s, script).Some? {
      AwaitConserves(s, script);
      AwaitSync(s, script);
      AwaitTracked(s, script, skips);
    }
  }

  lemma FedEnd(s: State, t: State, p: Packet)
    requires Fed(s, t) && (p.typ == 'c' || p.typ == 'f')
    ensures Fed(s, Send(t, p)) && HasEnd(Send(t, p).inbox)
  {
    FedAppend(s, t, p);
    EndAppend(t.inbox, p);
  }

  function Send(s: State, p: Packet): State {
    s.(inbox := s.inbox + [p])
  }

  lemma SendOwes(s: State, p: Packet)
    ensures Owed(Send(s, p)) == Owed(s) + (if IsCommand(p) then 1 else 0)
    ensures IsCommand(p) ==> Closed(Send(s, p).inbox)
  {
    CommandsAppend(s.inbox, p);
    if IsCommand(p) {
      ClosedAppend(s.inbox, p);
    }
  }

  lemma SendCommand(s: State, p: Packet)
    requires Quiet(s) && (p.typ == 'Q' || p.typ == 'F')
    ensures InCommand(Send(s, p), p.typ) && !Send(s, p).phase.CopyOut?
    ensures p.typ == 'Q' ==> Querying(Send(s, p))
  {
    assert Send(s, p).inbox[|s.inbox|].typ == p.typ;
  }

  lemma FedQuerying(s: State, t: State)
    requires Fed(s, t) && HasEnd(t.inbox)
    ensures Owed(t) == Owed(s) && t.swallowed == s.swallowed && t.phase == s.phase && t.escaped == s.escaped
    ensures Closed(s.inbox) ==> Closed(t.inbox)
    ensures InCommand(s, 'Q') ==> Querying(t)
  {
  }

  /** An extended-query batch may be ended by a Sync now. */
  predicate Batching(s: State, skips: nat) {
    InExtended(s) && Tracked(s, skips) && !s.phase.CopyOut? && (s.phase.CopyIn? ==> HasEnd(s.inbox))
  }

  lemma FedBatching(s: State, t: State, skips: nat)
    requires Fed(s, t) && HasEnd(t.inbox)
    ensures InExtended(s) && Tracked(s, skips) && !s.phase.CopyOut? ==> Batching(t, skips)
  {
  }

  lemma SendSync(s: State, p: Packet, skips: nat)
    requires Batching(s, skips) && p.typ == 'S' && Owed(s) + s.swallowed == skips
    ensures Syncing(Send(s, p), skips) && !Send(s, p).phase.CopyOut?
  {
    SendOwes(s, p);
    SyncAnswerable(s, p);
    if s.phase.CopyIn? {
      BeforeEndAppend(s.inbox, p);
    }
  }

  lemma SendExtended(s: State, p: Packet, skips: nat)
    requires Batching(s, skips) && (IsExtended(p) || p.typ == 'H')
    ensures Batching(Send(s, p), skips)
  {
    EndAppend(s.inbox, p);
    if s.phase.CopyIn? {
      BeforeEndAppend(s.inbox, p);
    }
  }

  lemma QuietBatching(s: State, skips: nat)
    requires Quiet(s) && (!s.escaped ==> s.swallowed == skips)
    ensures Batching(s, skips)
  {
  }

  /** Idle again after a batch: no Sync escaped, so as many were swallowed as given up on. */
  lemma BatchingIdle(s: State, skips: nat)
    requires Batching(s, skips) && s.phase == Idle && !s.escaped
    ensures s.swallowed == skips
  {
  }

  lemma CallRead(s: State, script: seq<Action>)
    ensures InCommand(s, 'F') ==> BoundToFinish(s)
    ensures InCommand(s, 'F') && Await(s, script).Some? ==>
      var a := Await(s, script).value;
      if a.reply.typ == 'Z' then Quiet(a.state) else CallReply(a.reply.typ) && InCommand(a.state, 'F')
  {
    hide BoundToFinish;
    if InCommand(s, 'F') {
      CommandAnswerable(s, 'F');
      AnswerableBound(s);
      if Await(s, script).Some? {
        AwaitCall(s, script);
      }
    }
  }

  lemma QuietOwes(s: State)
    requires Quiet(s)
    ensures s.phase == Idle && Owed(s) == 0 && Closed(s.inbox)
  {
    NoCommands(s.inbox);
    CopiesClosed(s.inbox);
  }

  lemma {:induction false} CopiesClosed(q: seq<Packet>)
    requires Copies(q)
    ensures Closed(q)
  {
    if q != [] {
      CopiesClosed(q[1..]);
    }
  }
}
