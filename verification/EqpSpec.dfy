/**
 The mirror that lib/fed/middlewares/eqp/state.go keeps of a backend's prepared statements and
 portals, and the backend it mirrors: one that executes the requests in order, skips to the next
 Sync after an error, and answers each Sync and each Query with ReadyForQuery. An event is a request
 that passes the mirror or a reply that does; the backend is taken to execute a request when the
 reply to it passes.
 */
module EqpSpec {
  import opened Collections

  /** A prepared statement as PostgreSQL keeps it. */
  datatype Statement = Statement(query: string, types: seq<int>)

  datatype Request =
    | Parse(name: string, statement: Statement)
    | Bind(portal: string, source: string)
    | CloseStatement(name: string)
    | ClosePortal(portal: string)
    | Execute(portal: string)
    | Sync
    | Query

  datatype Mirror = Mirror(
    statements: map<string, Statement>,
    portals: map<string, Request>,
    parses: seq<Request>,
    binds: seq<Request>,
    closes: seq<Request>)

  // ---- the mirror ------------------------------------------------------------------------

  /** C2S: a request on its way to the backend. */
  function Sent(m: Mirror, r: Request): Mirror {
    match r
    case Parse(_, _) => m.(parses := m.parses + [r])
    case Bind(_, _) => m.(binds := m.binds + [r])
    case CloseStatement(_) => m.(closes := m.closes + [r])
    case ClosePortal(_) => m.(closes := m.closes + [r])
    case Query => m.(statements := m.statements - {""}, portals := m.portals - {""})
    case _ => m
  }

  function ParseComplete(m: Mirror): Mirror {
    if m.parses == [] || !m.parses[0].Parse? then m.(parses := if m.parses == [] then [] else m.parses[1..])
    else m.(parses := m.parses[1..], statements := m.statements[m.parses[0].name := m.parses[0].statement])
  }

  function BindComplete(m: Mirror): Mirror {
    if m.binds == [] || !m.binds[0].Bind? then m.(binds := if m.binds == [] then [] else m.binds[1..])
    else m.(binds := m.binds[1..], portals := m.portals[m.binds[0].portal := m.binds[0]])
  }

  function CloseComplete(m: Mirror): Mirror {
    if m.closes == [] then m else
    var rest := m.(closes := m.closes[1..]);
    match m.closes[0]
    case CloseStatement(name) => rest.(statements := m.statements - {name})
    case ClosePortal(portal) => rest.(portals := m.portals - {portal})
    case _ => rest
  }

  const EMPTY := Mirror(map[], map[], [], [], [])

  /** ReadyForQuery: portals go with the transaction, and whatever is pending has failed. */
  function Ready(m: Mirror, idle: bool): Mirror {
    Mirror(m.statements, if idle then map[] else m.portals, [], [], [])
  }

  // ---- the backend -----------------------------------------------------------------------

  /** `statements` and `portals` are the backend's; `inbox` is what was sent since the last ReadyForQuery and not yet answered. */
  datatype State = State(
    mirror: Mirror,
    statements: map<string, Statement>,
    portals: map<string, Request>,
    inbox: seq<Request>,
    skipping: bool)

  datatype Event =
    | Send(request: Request)
    | Done                    // the first request succeeds
    | Fail                    // the first request gets ErrorResponse
    | Skip                    // the first request is passed over after an error
    | Tag                     // CommandComplete of a statement in a Query
    | Discard                 // CommandComplete "DISCARD ALL"
    | Answer(idle: bool)      // ReadyForQuery

  predicate Ends(r: Request) {
    r.Sync? || r.Query?
  }

  /**
   What can happen. Nothing is sent behind a Sync or a Query before it is answered: that is how the
   pooler relays batches. A name must be free to be parsed or bound again, except the empty one.
   */
  predicate Allowed(s: State, e: Event) {
    match e
    case Send(_) => forall r | r in s.inbox :: !Ends(r)
    case Done =>
      && s.inbox != [] && !s.skipping && !Ends(s.inbox[0])
      && (s.inbox[0].Parse? ==> s.inbox[0].name == "" || s.inbox[0].name !in s.statements)
      && (s.inbox[0].Bind? ==> s.inbox[0].portal == "" || s.inbox[0].portal !in s.portals)
    case Fail => s.inbox != [] && !s.skipping && !s.inbox[0].Sync?
    case Skip => s.inbox != [] && s.skipping && !s.inbox[0].Sync?
    case Tag => s.inbox != [] && !s.skipping && s.inbox[0].Query?
    case Discard => s.inbox != [] && !s.skipping && (s.inbox[0].Query? || s.inbox[0].Execute?)
    case Answer(_) => s.inbox != [] && (s.inbox[0].Sync? || (s.inbox[0].Query? && !s.skipping))
  }

  /**
   One step. The transaction that ends with an idle ReadyForQuery takes the portals with it, and a
   Query destroys the unnamed statement and the unnamed portal.
   */
  function Next(s: State, e: Event): State
    requires Allowed(s, e)
  {
    match e
    case Send(r) => s.(mirror := Sent(s.mirror, r), inbox := s.inbox + [r])
    case Done =>
      var rest := s.(inbox := s.inbox[1..]);
      (match s.inbox[0]
       case Parse(name, statement) =>
         rest.(statements := s.statements[name := statement], mirror := ParseComplete(s.mirror))
       case Bind(portal, _) => rest.(portals := s.portals[portal := s.inbox[0]], mirror := BindComplete(s.mirror))
       case CloseStatement(name) => rest.(statements := s.statements - {name}, mirror := CloseComplete(s.mirror))
       case ClosePortal(portal) => rest.(portals := s.portals - {portal}, mirror := CloseComplete(s.mirror))
       case _ => rest)
    case Fail => if s.inbox[0].Query? then s else s.(inbox := s.inbox[1..], skipping := true)
    case Skip => s.(inbox := s.inbox[1..])
    case Tag => s
    case Discard =>
      State(EMPTY, map[], map[], if s.inbox[0].Execute? then s.inbox[1..] else s.inbox, false)
    case Answer(idle) =>
      var gone := if s.inbox[0].Query? then {""} else {};
      State(Ready(s.mirror, idle), s.statements - gone, if idle then map[] else s.portals - gone, s.inbox[1..], false)
  }

  function Init(): State {
    State(EMPTY, map[], map[], [], false)
  }

  // ---- what the mirror knows -------------------------------------------------------------

  datatype Kind = Parsing | Binding | Closing

  predicate Is(r: Request, kind: Kind) {
    match kind
    case Parsing => r.Parse?
    case Binding => r.Bind?
    case Closing => r.CloseStatement? || r.ClosePortal?
  }

  /** Whether the mirror keeps the request until it is completed. */
  predicate Kept(r: Request) {
    Is(r, Parsing) || Is(r, Binding) || Is(r, Closing)
  }

  function Pending(rs: seq<Request>, kind: Kind): seq<Request> {
    if rs == [] then [] else (if Is(rs[0], kind) then [rs[0]] else []) + Pending(rs[1..], kind)
  }

  /** The two agree on every name but the empty one: which there are, and what they stand for. */
  ghost predicate SameNamed<T>(a: map<string, T>, b: map<string, T>) {
    forall name | name != "" :: (name in a <==> name in b) && (name in a ==> a[name] == b[name])
  }

  /** Each queue holds the unanswered requests of its kind, in order. */
  predicate Paired(s: State) {
    && s.mirror.parses == Pending(s.inbox, Parsing)
    && s.mirror.binds == Pending(s.inbox, Binding)
    && s.mirror.closes == Pending(s.inbox, Closing)
  }

  predicate OneEnd(rs: seq<Request>) {
    forall i :: 0 <= i < |rs| - 1 ==> !Ends(rs[i])
  }

  /** Portals as a mirror holds them, each under the name it was bound to. */
  predicate Filed(portals: map<string, Request>) {
    forall name | name in portals :: portals[name].Bind? && portals[name].portal == name
  }

  /** After an error nothing is completed any more until ReadyForQuery, which empties the queues. */
  ghost predicate Inv(s: State) {
    && SameNamed(s.mirror.statements, s.statements) && SameNamed(s.mirror.portals, s.portals)
    && (!s.skipping ==> Paired(s)) && OneEnd(s.inbox) && Filed(s.mirror.portals)
  }

  lemma {:induction false} Appended(rs: seq<Request>, r: Request, kind: Kind)
    ensures Pending(rs + [r], kind) == Pending(rs, kind) + if Is(r, kind) then [r] else []
  {
    hide Is;
    if rs == [] {
      assert [r][1..] == [];
    } else {
      Appended(rs[1..], r, kind);
      assert (rs + [r])[1..] == rs[1..] + [r];
    }
  }

  lemma SendKeeps(s: State, r: Request)
    requires Inv(s) && Allowed(s, Send(r))
    ensures Inv(Next(s, Send(r)))
  {
    hide Pending;
    Appended(s.inbox, r, Parsing);
    Appended(s.inbox, r, Binding);
    Appended(s.inbox, r, Closing);
  }

  lemma First(rs: seq<Request>, kind: Kind)
    requires rs != []
    ensures var p := Pending(rs, kind);
      if Is(rs[0], kind) then p != [] && p[0] == rs[0] && p[1..] == Pending(rs[1..], kind) else p == Pending(rs[1..], kind)
  {
  }

  lemma NamedAfterParse<T>(a: map<string, T>, b: map<string, T>, name: string, x: T)
    requires SameNamed(a, b)
    ensures SameNamed(a[name := x], b[name := x])
  {
  }

  lemma NamedAfterClose<T>(a: map<string, T>, b: map<string, T>, name: string)
    requires SameNamed(a, b)
    ensures SameNamed(a - {name}, b - {name})
  {
  }

  lemma RestEnds(rs: seq<Request>)
    requires OneEnd(rs) && rs != []
    ensures OneEnd(rs[1..])
  {
  }

  lemma DoneKeeps(s: State)
    requires Inv(s) && Allowed(s, Done)
    ensures Inv(Next(s, Done))
  {
    hide Pending, SameNamed, OneEnd;
    RestEnds(s.inbox);
    First(s.inbox, Parsing);
    First(s.inbox, Binding);
    First(s.inbox, Closing);
    match s.inbox[0]
    case Parse(name, x) => NamedAfterParse(s.mirror.statements, s.statements, name, x);
    case CloseStatement(name) => NamedAfterClose(s.mirror.statements, s.statements, name);
    case Bind(portal, _) => NamedAfterParse(s.mirror.portals, s.portals, portal, s.inbox[0]);
    case ClosePortal(portal) => NamedAfterClose(s.mirror.portals, s.portals, portal);
    case _ =>
  }

  /**
   "DISCARD ALL" empties the queues as well. What was sent behind it in the same batch will still be
   completed, so the mirror stays right if and only if nothing of the kind was.
   */
  lemma DiscardKeepsIff(s: State)
    requires Inv(s) && Allowed(s, Discard)
    ensures Inv(Next(s, Discard)) <==>
            s.inbox[0].Query? || forall r | r in s.inbox[1..] :: !Kept(r)
  {
    var rest := s.inbox[1..];
    if s.inbox[0].Query? {
      EndIsLast(s.inbox);
      NothingPending(s.inbox);
    } else {
      assert forall i :: 0 <= i < |rest| ==> rest[i] == s.inbox[i + 1];
      NothingPending(rest);
    }
  }

  lemma {:induction false} NothingPending(rs: seq<Request>)
    ensures Pending(rs, Parsing) == [] && Pending(rs, Binding) == [] && Pending(rs, Closing) == [] <==>
            forall r | r in rs :: !Kept(r)
  {
    if rs != [] {
      NothingPending(rs[1..]);
      First(rs, Parsing);
      First(rs, Binding);
      First(rs, Closing);
      hide Pending, Is;
      assert rs[0] in rs;
      assert (forall r | r in rs :: !Kept(r)) <==> !Kept(rs[0]) && forall r | r in rs[1..] :: !Kept(r) by {
        assert forall r :: r in rs <==> r == rs[0] || r in rs[1..];
      }
    }
  }

  lemma EndIsLast(rs: seq<Request>)
    requires OneEnd(rs) && rs != [] && Ends(rs[0])
    ensures rs == [rs[0]]
  {
  }

  lemma AnswerKeeps(s: State, idle: bool)
    requires Inv(s) && Allowed(s, Answer(idle))
    ensures Inv(Next(s, Answer(idle))) && Next(s, Answer(idle)).inbox == []
  {
    EndIsLast(s.inbox);
  }

  /** Everything behind a DISCARD ALL waits until it is answered. */
  predicate Patient(s: State, e: Event)
    requires Allowed(s, e)
  {
    e.Discard? ==> s.inbox[0].Query? || forall r | r in s.inbox[1..] :: !Kept(r)
  }

  lemma NextKeeps(s: State, e: Event)
    requires Inv(s) && Allowed(s, e) && Patient(s, e)
    ensures Inv(Next(s, e))
  {
    match e
    case Send(r) => SendKeeps(s, r);
    case Done => DoneKeeps(s);
    case Discard => DiscardKeepsIff(s);
    case Answer(idle) => AnswerKeeps(s, idle);
    case Fail =>
    case Skip =>
    case Tag =>
  }

  // ---- runs ------------------------------------------------------------------------------

  ghost predicate Run(s: State, es: seq<Event>)
    decreases |es|
  {
    es == [] || (Allowed(s, es[0]) && Run(Next(s, es[0]), es[1..]))
  }

  ghost predicate PatientRun(s: State, es: seq<Event>)
    requires Run(s, es)
    decreases |es|
  {
    es == [] || (Patient(s, es[0]) && PatientRun(Next(s, es[0]), es[1..]))
  }

  ghost function After(s: State, es: seq<Event>): State
    requires Run(s, es)
    decreases |es|
  {
    if es == [] then s else After(Next(s, es[0]), es[1..])
  }

  lemma {:induction false} RunKeeps(s: State, es: seq<Event>)
    requires Inv(s) && Run(s, es) && PatientRun(s, es)
    ensures Inv(After(s, es))
    decreases |es|
  {
    hide Inv;
    if es != [] {
      NextKeeps(s, es[0]);
      RunKeeps(Next(s, es[0]), es[1..]);
    }
  }

  /**
   Whatever the client sends and however the backend fails, at every ReadyForQuery the named
   statements and the named portals agree; at an idle one there are no portals.
   */
  lemma AgreeWhenReady(es: seq<Event>, idle: bool)
    requires Run(Init(), es) && PatientRun(Init(), es) && Allowed(After(Init(), es), Answer(idle))
    ensures var s := Next(After(Init(), es), Answer(idle));
      && SameNamed(s.mirror.statements, s.statements) && SameNamed(s.mirror.portals, s.portals)
      && s.inbox == [] && Paired(s) && (idle ==> s.mirror.portals == map[])
  {
    RunKeeps(Init(), es);
    AnswerKeeps(After(Init(), es), idle);
  }

  /**
   A prepared DISCARD ALL is executed with a Parse already sent behind it: the statement exists, and
   the mirror does not know it.
   */
  lemma ParseBehindDiscardIsLost()
    ensures var p := Parse("a", Statement("SELECT 1", []));
      var es := [Send(Parse("", Statement("DISCARD ALL", []))), Send(Bind("", "")), Send(Execute("")), Send(p), Send(Sync),
                 Done, Done, Discard, Done, Answer(true)];
      && Run(Init(), es)
      && var s := After(Init(), es);
         s.inbox == [] && "a" in s.statements && "a" !in s.mirror.statements
  {
    var d, b, x, p := Parse("", Statement("DISCARD ALL", [])), Bind("", ""), Execute(""), Parse("a", Statement("SELECT 1", []));
    var rs := [d, b, x, p];
    hide Next, Run, After, Allowed, Sends;
    BatchSent(d, b, x, p);
    DiscardEmpties(After(Init(), Sends(rs)), d, b, x, p);
    var rest := [Send(Sync), Done, Done, Discard, Done, Answer(true)];
    RunAppend(Init(), Sends(rs), rest);
    assert Sends(rs) + rest == [Send(d), Send(b), Send(x), Send(p), Send(Sync), Done, Done, Discard, Done, Answer(true)];
  }

  lemma BatchSent(d: Request, b: Request, x: Request, p: Request)
    requires !Ends(d) && !Ends(b) && !Ends(x) && !Ends(p)
    ensures var es := Sends([d, b, x, p]);
      && es == [Send(d), Send(b), Send(x), Send(p)]
      && Run(Init(), es) && After(Init(), es).inbox == [d, b, x, p] && !After(Init(), es).skipping
  {
    hide Sends, Next, Run, After, Allowed;
    SendAll(Init(), [d, b, x, p]);
    SendsFour(d, b, x, p);
    assert [] + [d, b, x, p] == [d, b, x, p];
  }

  lemma DiscardEmpties(s: State, d: Request, b: Request, x: Request, p: Request)
    requires s.inbox == [d, b, x, p] && !s.skipping && d.Parse? && d.name == "" && x.Execute? && p.Parse?
    requires b.Bind? && b.portal == ""
    ensures var es := [Send(Sync), Done, Done, Discard, Done, Answer(true)];
      Run(s, es) && After(s, es) == State(EMPTY, map[p.name := p.statement], map[], [], false)
  {
    var s2 := Next(s, Send(Sync));
    assert s2.inbox == [d, b, x, p, Sync];
    var s3 := Next(s2, Done);
    assert s3.inbox == [b, x, p, Sync];
    var s4 := Next(s3, Done);
    assert s4.inbox == [x, p, Sync];
    DiscardThenParse(s4, x, p);
    hide Next, Allowed;
    var es := [Discard, Done, Answer(true)];
    Onward(s3, Done, es);
    Onward(s2, Done, [Done] + es);
    Onward(s, Send(Sync), [Done] + ([Done] + es));
    assert [Send(Sync)] + ([Done] + ([Done] + es)) == [Send(Sync), Done, Done, Discard, Done, Answer(true)];
  }

  lemma DiscardThenParse(s: State, x: Request, p: Request)
    requires s.inbox == [x, p, Sync] && !s.skipping && x.Execute? && p.Parse?
    ensures var es := [Discard, Done, Answer(true)];
      Run(s, es) && After(s, es) == State(EMPTY, map[p.name := p.statement], map[], [], false)
  {
    var s5 := Next(s, Discard);
    assert s5 == State(EMPTY, map[], map[], [p, Sync], false);
    var s6 := Next(s5, Done);
    assert s6 == State(EMPTY, map[p.name := p.statement], map[], [Sync], false);
    var s7 := Next(s6, Answer(true));
    assert s7 == State(EMPTY, map[p.name := p.statement], map[], [], false);
    hide Next, Allowed;
    Just(s6, Answer(true));
    Onward(s5, Done, [Answer(true)]);
    Onward(s, Discard, [Done, Answer(true)]);
  }

  lemma SendsFour(a: Request, b: Request, c: Request, d: Request)
    ensures Sends([a, b, c, d]) == [Send(a), Send(b), Send(c), Send(d)]
  {
    assert [a, b, c, d][1..] == [b, c, d] && [b, c, d][1..] == [c, d] && [c, d][1..] == [d] && [d][1..] == [];
    assert Sends([d]) == [Send(d)];
    assert Sends([c, d]) == [Send(c), Send(d)];
  }

  lemma Just(s: State, e: Event)
    requires Allowed(s, e)
    ensures Run(s, [e]) && After(s, [e]) == Next(s, e)
  {
    assert [e][1..] == [];
  }

  lemma Onward(s: State, e: Event, es: seq<Event>)
    requires Allowed(s, e) && Run(Next(s, e), es)
    ensures Run(s, [e] + es) && After(s, [e] + es) == After(Next(s, e), es)
  {
    assert ([e] + es)[1..] == es;
  }

  // ---- the unnamed ones ------------------------------------------------------------------

  /** Replies that a Query gets before its ReadyForQuery. */
  predicate Within(e: Event) {
    e.Tag? || e.Fail? || e.Discard?
  }

  lemma {:induction false} QueryRuns(s: State, es: seq<Event>, idle: bool)
    requires Inv(s) && s.inbox == [Query] && !s.skipping
    requires "" !in s.mirror.statements && "" !in s.mirror.portals
    requires forall i :: 0 <= i < |es| ==> Within(es[i])
    ensures Run(s, es + [Answer(idle)])
    ensures var t := After(s, es + [Answer(idle)]);
      t.inbox == [] && t.mirror.statements == t.statements && t.mirror.portals == t.portals && "" !in t.statements && "" !in t.portals
    decreases |es|
  {
    if es == [] {
      assert es + [Answer(idle)] == [Answer(idle)];
      Just(s, Answer(idle));
      var t := Next(s, Answer(idle));
      AnswerKeeps(s, idle);
      SameAll(t.mirror.statements, t.statements);
      SameAll(t.mirror.portals, t.portals);
    } else {
      assert Within(es[0]);
      NextKeeps(s, es[0]);
      hide Inv;
      QueryRuns(Next(s, es[0]), es[1..], idle);
      Onward(s, es[0], es[1..] + [Answer(idle)]);
      assert [es[0]] + (es[1..] + [Answer(idle)]) == es + [Answer(idle)];
    }
  }

  lemma SameAll<T>(a: map<string, T>, b: map<string, T>)
    requires SameNamed(a, b) && "" !in a && "" !in b
    ensures a == b
  {
  }

  /**
   A Query sent with nothing pending destroys the unnamed statement and portal on both sides: after
   it, mirror and backend agree on every name.
   */
  lemma QueryAgreesOnAll(s: State, es: seq<Event>, idle: bool)
    requires Inv(s) && s.inbox == [] && !s.skipping
    requires forall i :: 0 <= i < |es| ==> Within(es[i])
    ensures var run := [Send(Query)] + (es + [Answer(idle)]);
      && Run(s, run)
      && var t := After(s, run);
         t.mirror.statements == t.statements && t.mirror.portals == t.portals && "" !in t.statements && "" !in t.portals
  {
    SendKeeps(s, Query);
    QueryRuns(Next(s, Send(Query)), es, idle);
    Onward(s, Send(Query), es + [Answer(idle)]);
  }

  ghost function MadeFrom(portals: map<string, Request>, name: string): set<string> {
    set p | p in portals && portals[p] == Bind(p, name)
  }

  /**
   The mirror leaves a portal open when the statement it was made from is closed. A backend that
   closes such portals too, as the Extended Query section of PostgreSQL's protocol documentation has
   it, still agrees with the mirror if and only if no named portal was made from the statement.
   */
  lemma ImplicitCloseIff(s: State, name: string)
    requires Inv(s) && Allowed(s, Done) && s.inbox[0] == CloseStatement(name)
    ensures var t := Next(s, Done);
      SameNamed(t.mirror.portals, t.portals - MadeFrom(t.portals, name)) <==> MadeFrom(s.portals, name) <= {""}
  {
    var t := Next(s, Done);
    assert s.mirror.closes == Pending(s.inbox, Closing);
    First(s.inbox, Closing);
    hide Pending;
    assert t.mirror.portals == s.mirror.portals && t.portals == s.portals;
    if p :| p in MadeFrom(s.portals, name) && p != "" {
      assert p in t.mirror.portals && p !in t.portals - MadeFrom(t.portals, name);
    }
  }

  // ---- bringing a server to a client's state ---------------------------------------------

  /** The statements once the backend has accepted all the requests. */
  function Executed(statements: map<string, Statement>, rs: seq<Request>): map<string, Statement>
    decreases |rs|
  {
    if rs == [] then statements else Executed(Effect(statements, rs[0]), rs[1..])
  }

  function Effect(statements: map<string, Statement>, r: Request): map<string, Statement> {
    match r
    case Parse(name, statement) => statements[name := statement]
    case CloseStatement(name) => statements - {name}
    case _ => statements
  }

  /** No Parse names a statement that is still open, other than the unnamed one. */
  ghost predicate Acceptable(statements: map<string, Statement>, rs: seq<Request>)
    decreases |rs|
  {
    rs == [] ||
    (&& !Ends(rs[0]) && !rs[0].Execute?
     && (rs[0].Parse? ==> rs[0].name == "" || rs[0].name !in statements)
     && Acceptable(Effect(statements, rs[0]), rs[1..]))
  }

  function PortalEffect(portals: map<string, Request>, r: Request): map<string, Request> {
    match r
    case Bind(portal, _) => portals[portal := r]
    case ClosePortal(portal) => portals - {portal}
    case _ => portals
  }

  /** The portals once the backend has accepted all the requests. */
  function Opened(portals: map<string, Request>, rs: seq<Request>): map<string, Request>
    decreases |rs|
  {
    if rs == [] then portals else Opened(PortalEffect(portals, rs[0]), rs[1..])
  }

  /** No Bind names a portal that is still open, other than the unnamed one. */
  ghost predicate Bindable(portals: map<string, Request>, rs: seq<Request>)
    decreases |rs|
  {
    rs == [] ||
    (&& (rs[0].Bind? ==> rs[0].portal == "" || rs[0].portal !in portals)
     && Bindable(PortalEffect(portals, rs[0]), rs[1..]))
  }

  function ClosePortals(names: seq<string>): seq<Request> {
    if names == [] then [] else [ClosePortal(names[0])] + ClosePortals(names[1..])
  }

  /** What the server has that the client does not want as it is; the unnamed statement is overwritten instead. */
  predicate Stale(have: map<string, Statement>, want: map<string, Statement>, name: string) {
    name in have && !(name in want && (want[name] == have[name] || name == ""))
  }

  predicate Missing(have: map<string, Statement>, want: map<string, Statement>, name: string) {
    name in want && !(name in have && have[name] == want[name])
  }

  function CloseStale(have: map<string, Statement>, want: map<string, Statement>, names: seq<string>): seq<Request> {
    if names == [] then []
    else (if Stale(have, want, names[0]) then [CloseStatement(names[0])] else []) + CloseStale(have, want, names[1..])
  }

  function ParseMissing(have: map<string, Statement>, want: map<string, Statement>, names: seq<string>): seq<Request> {
    if names == [] then []
    else
      (if Missing(have, want, names[0]) then [Parse(names[0], want[names[0]])] else []) + ParseMissing(have, want, names[1..])
  }

  predicate AllBinds(rs: seq<Request>) {
    forall i :: 0 <= i < |rs| ==> rs[i].Bind?
  }

  /** The requests are those that made the portals of these names. */
  predicate BindsOf(rs: seq<Request>, names: seq<string>, portals: map<string, Request>) {
    |rs| == |names| && forall i :: 0 <= i < |names| ==> names[i] in portals && rs[i] == portals[names[i]]
  }

  function At(m: map<string, Statement>, name: string): seq<Statement> {
    if name in m then [m[name]] else []
  }

  lemma {:induction false} ExecutedAppend(m: map<string, Statement>, a: seq<Request>, b: seq<Request>)
    ensures Executed(m, a + b) == Executed(Executed(m, a), b)
    ensures Acceptable(m, a) && Acceptable(Executed(m, a), b) ==> Acceptable(m, a + b)
    decreases |a|
  {
    if a == [] {
      assert a + b == b;
    } else {
      assert (a + b)[1..] == a[1..] + b;
      ExecutedAppend(Effect(m, a[0]), a[1..], b);
    }
  }

  lemma {:induction false} PortalsClosed(m: map<string, Statement>, names: seq<string>)
    ensures Executed(m, ClosePortals(names)) == m && Acceptable(m, ClosePortals(names))
    decreases |names|
  {
    if names != [] {
      PortalsClosed(m, names[1..]);
      assert ClosePortals(names)[1..] == ClosePortals(names[1..]);
    }
  }

  lemma {:induction false} BindsDone(m: map<string, Statement>, rs: seq<Request>)
    requires AllBinds(rs)
    ensures Executed(m, rs) == m && Acceptable(m, rs)
    decreases |rs|
  {
    if rs != [] {
      BindsDone(m, rs[1..]);
    }
  }

  lemma {:induction false} StaleClosed(m: map<string, Statement>, have: map<string, Statement>, want: map<string, Statement>, names: seq<string>, name: string)
    ensures At(Executed(m, CloseStale(have, want, names)), name) ==
            if name in names && Stale(have, want, name) then [] else At(m, name)
    ensures Acceptable(m, CloseStale(have, want, names))
    decreases |names|
  {
    hide Stale;
    if names != [] {
      var rs := CloseStale(have, want, names);
      if Stale(have, want, names[0]) {
        assert rs[0] == CloseStatement(names[0]) && rs[1..] == CloseStale(have, want, names[1..]);
          StaleClosed(m - {names[0]}, have, want, names[1..], name);
      } else {
        assert rs == CloseStale(have, want, names[1..]);
        StaleClosed(m, have, want, names[1..], name);
      }
    }
  }

  lemma {:induction false} MissingParsed(m: map<string, Statement>, have: map<string, Statement>, want: map<string, Statement>, names: seq<string>, name: string)
    ensures At(Executed(m, ParseMissing(have, want, names)), name) ==
            if name in names && Missing(have, want, name) then [want[name]] else At(m, name)
    decreases |names|
  {
    if names != [] {
      var rs := ParseMissing(have, want, names);
      if Missing(have, want, names[0]) {
        assert rs[0] == Parse(names[0], want[names[0]]) && rs[1..] == ParseMissing(have, want, names[1..]);
        MissingParsed(m[names[0] := want[names[0]]], have, want, names[1..], name);
      } else {
        assert rs == ParseMissing(have, want, names[1..]);
        MissingParsed(m, have, want, names[1..], name);
      }
    }
  }

  lemma {:induction false} MissingAcceptable(m: map<string, Statement>, have: map<string, Statement>, want: map<string, Statement>, names: seq<string>)
    requires Distinct(names)
    requires forall name | name in names && name != "" && Missing(have, want, name) :: name !in m
    ensures Acceptable(m, ParseMissing(have, want, names))
    decreases |names|
  {
    if names != [] {
      var rs := ParseMissing(have, want, names);
      if Missing(have, want, names[0]) {
        assert rs[0] == Parse(names[0], want[names[0]]) && rs[1..] == ParseMissing(have, want, names[1..]);
          MissingAcceptable(m[names[0] := want[names[0]]], have, want, names[1..]);
      } else {
        assert rs == ParseMissing(have, want, names[1..]);
        MissingAcceptable(m, have, want, names[1..]);
      }
    }
  }

  function Plan(have: map<string, Statement>, want: map<string, Statement>, open: seq<string>, held: seq<string>,
                wanted: seq<string>, binds: seq<Request>): seq<Request>
  {
    ClosePortals(open) + (CloseStale(have, want, held) + (ParseMissing(have, want, wanted) + binds))
  }

  /**
   The requests of SyncMiddleware, in whatever order the maps are walked: on every name on which the
   mirror knew the backend, the backend ends up with what the client has, and no Parse names a
   statement that is still open.
   */
  lemma PlanBrings(m: map<string, Statement>, have: map<string, Statement>, want: map<string, Statement>,
                   open: seq<string>, held: seq<string>, wanted: seq<string>, binds: seq<Request>)
    requires SameNamed(have, m) && Walks(held, have.Keys) && Walks(wanted, want.Keys) && AllBinds(binds)
    ensures Acceptable(m, Plan(have, want, open, held, wanted, binds))
    ensures forall name :: At(have, name) == At(m, name) ==>
      At(Executed(m, Plan(have, want, open, held, wanted, binds)), name) == At(want, name)
  {
    hide Executed, Acceptable, ClosePortals, CloseStale, ParseMissing;
    var a, b, c := ClosePortals(open), CloseStale(have, want, held), ParseMissing(have, want, wanted);
    var m2 := Executed(m, b);
    PortalsClosed(m, open);
    StaleClosed(m, have, want, held, "");
    forall name | name in wanted && name != "" && Missing(have, want, name)
      ensures name !in m2
    {
      StaleClosed(m, have, want, held, name);
    }
    MissingAcceptable(m2, have, want, wanted);
    BindsDone(Executed(m2, c), binds);
    ExecutedAppend(m2, c, binds);
    ExecutedAppend(m, b, c + binds);
    ExecutedAppend(m, a, b + (c + binds));
    forall name | At(have, name) == At(m, name)
      ensures At(Executed(m2, c), name) == At(want, name)
    {
      StaleClosed(m, have, want, held, name);
      MissingParsed(m2, have, want, wanted, name);
    }
  }

  lemma {:induction false} OpenedAppend(m: map<string, Request>, a: seq<Request>, b: seq<Request>)
    ensures Opened(m, a + b) == Opened(Opened(m, a), b)
    ensures Bindable(m, a) && Bindable(Opened(m, a), b) ==> Bindable(m, a + b)
    decreases |a|
  {
    if a == [] {
      assert a + b == b;
    } else {
      assert (a + b)[1..] == a[1..] + b;
      OpenedAppend(PortalEffect(m, a[0]), a[1..], b);
    }
  }

  lemma {:induction false} ClosedPortals(m: map<string, Request>, names: seq<string>, name: string)
    ensures name in Opened(m, ClosePortals(names)) <==> name in m && name !in names
    ensures Bindable(m, ClosePortals(names))
    decreases |names|
  {
    if names != [] {
      ClosedPortals(m - {names[0]}, names[1..], name);
      assert ClosePortals(names)[1..] == ClosePortals(names[1..]);
    }
  }

  predicate OnlyStatements(rs: seq<Request>) {
    forall i :: 0 <= i < |rs| ==> rs[i].Parse? || rs[i].CloseStatement?
  }

  lemma {:induction false} StatementsOnly(have: map<string, Statement>, want: map<string, Statement>, names: seq<string>)
    ensures OnlyStatements(CloseStale(have, want, names)) && OnlyStatements(ParseMissing(have, want, names))
  {
    if names != [] {
      StatementsOnly(have, want, names[1..]);
    }
  }

  lemma {:induction false} PortalsStay(m: map<string, Request>, rs: seq<Request>)
    requires OnlyStatements(rs)
    ensures Opened(m, rs) == m && Bindable(m, rs)
    decreases |rs|
  {
    if rs != [] {
      PortalsStay(m, rs[1..]);
    }
  }

  lemma {:induction false} PortalsBound(m: map<string, Request>, rs: seq<Request>, names: seq<string>, want: map<string, Request>)
    requires BindsOf(rs, names, want) && Filed(want) && Distinct(names)
    requires forall name | name in names && name != "" :: name !in m
    ensures Bindable(m, rs)
    ensures forall name :: if name in names then name in Opened(m, rs) && Opened(m, rs)[name] == want[name]
                           else (name in Opened(m, rs) <==> name in m) && (name in m ==> Opened(m, rs)[name] == m[name])
    decreases |rs|
  {
    if rs != [] {
      var name := names[0];
      assert rs[0] == want[name] && rs[0].portal == name;
      forall n | n in names[1..] && n != ""
        ensures n !in m[name := rs[0]]
      {
        assert n in names && n != name;
      }
      PortalsBound(m[name := rs[0]], rs[1..], names[1..], want);
      assert forall n :: n in names <==> n == name || n in names[1..];
    }
  }

  /** The same requests close every portal of the server that has a name and bind the client's. */
  lemma PlanBinds(m: map<string, Request>, known: map<string, Request>, want: map<string, Request>,
                  have: map<string, Statement>, statements: map<string, Statement>, open: seq<string>, held: seq<string>,
                  wanted: seq<string>, binds: seq<Request>, bound: seq<string>)
    requires SameNamed(known, m) && Walks(open, known.Keys) && Walks(bound, want.Keys) && BindsOf(binds, bound, want) && Filed(want)
    ensures var rs := Plan(have, statements, open, held, wanted, binds);
      Bindable(m, rs) && SameNamed(Opened(m, rs), want)
  {
    var a, b, c := ClosePortals(open), CloseStale(have, statements, held), ParseMissing(have, statements, wanted);
    var m1 := Opened(m, a);
    forall name | name != ""
      ensures name !in m1
    {
      ClosedPortals(m, open, name);
    }
    ClosedPortals(m, open, "");
    StatementsOnly(have, statements, held);
    StatementsOnly(have, statements, wanted);
    PortalsStay(m1, b);
    PortalsStay(m1, c);
    PortalsBound(m1, binds, bound, want);
    hide Opened, Bindable, ClosePortals, CloseStale, ParseMissing, BindsOf;
    OpenedAppend(m1, c, binds);
    OpenedAppend(m1, b, c + binds);
    OpenedAppend(m, a, b + (c + binds));
  }

  // ---- the whole exchange ----------------------------------------------------------------

  function Sends(rs: seq<Request>): seq<Event> {
    if rs == [] then [] else [Send(rs[0])] + Sends(rs[1..])
  }

  function Dones(n: nat): seq<Event> {
    if n == 0 then [] else [Done] + Dones(n - 1)
  }

  function SentAll(m: Mirror, rs: seq<Request>): Mirror
    decreases |rs|
  {
    if rs == [] then m else SentAll(Sent(m, rs[0]), rs[1..])
  }

  predicate NoDiscard(es: seq<Event>) {
    forall i :: 0 <= i < |es| ==> !es[i].Discard?
  }

  lemma {:induction false} PatientWithout(s: State, es: seq<Event>)
    requires Run(s, es) && NoDiscard(es)
    ensures PatientRun(s, es)
    decreases |es|
  {
    if es != [] {
      PatientWithout(Next(s, es[0]), es[1..]);
    }
  }

  lemma {:induction false} RunAppend(s: State, a: seq<Event>, b: seq<Event>)
    requires Run(s, a) && Run(After(s, a), b)
    ensures Run(s, a + b) && After(s, a + b) == After(After(s, a), b)
    decreases |a|
  {
    if a == [] {
      assert a + b == b;
    } else {
      assert (a + b)[1..] == a[1..] + b;
      RunAppend(Next(s, a[0]), a[1..], b);
    }
  }

  lemma {:induction false} SendAll(s: State, rs: seq<Request>)
    requires (forall r | r in s.inbox :: !Ends(r)) && (forall r | r in rs :: !Ends(r))
    ensures Run(s, Sends(rs)) && NoDiscard(Sends(rs))
    ensures After(s, Sends(rs)) == s.(mirror := SentAll(s.mirror, rs), inbox := s.inbox + rs)
    decreases |rs|
  {
    if rs == [] {
      assert s.inbox + rs == s.inbox;
    } else {
      SendAll(Next(s, Send(rs[0])), rs[1..]);
      Onward(s, Send(rs[0]), Sends(rs[1..]));
      assert s.inbox + [rs[0]] + rs[1..] == s.inbox + rs;
    }
  }

  lemma {:induction false} DoneAll(s: State, rs: seq<Request>)
    requires s.inbox == rs + [Sync] && !s.skipping && Acceptable(s.statements, rs) && Bindable(s.portals, rs)
    ensures Run(s, Dones(|rs|)) && NoDiscard(Dones(|rs|))
    ensures var t := After(s, Dones(|rs|)); 
      t.inbox == [Sync] && !t.skipping && t.statements == Executed(s.statements, rs) && t.portals == Opened(s.portals, rs)
    decreases |rs|
  {
    if rs != [] {
      assert s.inbox[0] == rs[0] && s.inbox[1..] == rs[1..] + [Sync];
      DoneAll(Next(s, Done), rs[1..]);
      Onward(s, Done, Dones(|rs| - 1));
    }
  }

  lemma {:induction false} AcceptableEnds(m: map<string, Statement>, rs: seq<Request>)
    requires Acceptable(m, rs)
    ensures forall r | r in rs :: !Ends(r)
    decreases |rs|
  {
    if rs != [] {
      AcceptableEnds(Effect(m, rs[0]), rs[1..]);
    }
  }

  function Exchange(rs: seq<Request>, idle: bool): seq<Event> {
    Sends(rs) + ([Send(Sync)] + (Dones(|rs|) + [Answer(idle)]))
  }

  /** Requests that the backend accepts one after the other, and then a Sync. */
  lemma ExchangeRuns(s: State, rs: seq<Request>, idle: bool)
    requires s.inbox == [] && !s.skipping && Acceptable(s.statements, rs) && Bindable(s.portals, rs)
    ensures var es := Exchange(rs, idle);
      && Run(s, es) && NoDiscard(es)
      && var t := After(s, es);
         t.inbox == [] && t.statements == Executed(s.statements, rs) && t.portals == (if idle then map[] else Opened(s.portals, rs))
         && (idle ==> t.mirror.portals == map[])
  {
    hide Sends, Dones, Acceptable, Executed, Bindable, Opened, SentAll, Paired, Run, After;
    AcceptableEnds(s.statements, rs);
    SendAll(s, rs);
    var s1 := After(s, Sends(rs));
    assert s1.inbox == rs;
    var s2 := Next(s1, Send(Sync));
    DoneAll(s2, rs);
    var s3 := After(s2, Dones(|rs|));
    var s4 := Next(s3, Answer(idle));
    assert s4.inbox == [];
    Just(s3, Answer(idle));
    RunAppend(s2, Dones(|rs|), [Answer(idle)]);
    Onward(s1, Send(Sync), Dones(|rs|) + [Answer(idle)]);
    RunAppend(s, Sends(rs), [Send(Sync)] + (Dones(|rs|) + [Answer(idle)]));
  }

  /**
   After an exchange all of whose requests the backend accepts, the named statements of the backend,
   and of the server's mirror, are the client's, whatever both sides held before. So are the named
   portals, unless the answer is idle and there are none.
   */
  lemma SyncAgrees(s: State, want: map<string, Statement>, portals: map<string, Request>, open: seq<string>,
                   held: seq<string>, wanted: seq<string>, binds: seq<Request>, bound: seq<string>, idle: bool)
    requires Inv(s) && s.inbox == [] && !s.skipping
    requires Walks(open, s.mirror.portals.Keys) && Walks(held, s.mirror.statements.Keys) && Walks(wanted, want.Keys)
    requires Walks(bound, portals.Keys) && BindsOf(binds, bound, portals) && AllBinds(binds) && Filed(portals)
    ensures var es := Exchange(Plan(s.mirror.statements, want, open, held, wanted, binds), idle);
      && Run(s, es)
      && var t := After(s, es);
      && SameNamed(t.statements, want) && SameNamed(t.mirror.statements, want)
      && (if idle then t.mirror.portals == map[] else SameNamed(t.portals, portals) && SameNamed(t.mirror.portals, portals))
      && t.inbox == [] && Inv(t)
  {
    var rs := Plan(s.mirror.statements, want, open, held, wanted, binds);
    PlanBrings(s.statements, s.mirror.statements, want, open, held, wanted, binds);
    PlanBinds(s.portals, s.mirror.portals, portals, s.mirror.statements, want, open, held, wanted, binds, bound);
    hide Plan, Walks, AllBinds, BindsOf, Filed, Exchange, Acceptable, Executed, Bindable, Opened, Paired, Run, After, NoDiscard;
    ExchangeRuns(s, rs, idle);
    var es := Exchange(rs, idle);
    PatientWithout(s, es);
    RunKeeps(s, es);
    var t := After(s, es);
    AtNamed(t.statements, want, s.mirror.statements, s.statements);
    SameThrough(t.mirror.statements, t.statements, want);
    if !idle {
      SameThrough(t.mirror.portals, t.portals, portals);
    }
  }

  lemma SameThrough<T>(a: map<string, T>, b: map<string, T>, c: map<string, T>)
    requires SameNamed(a, b) && SameNamed(b, c)
    ensures SameNamed(a, c)
  {
  }

  lemma AtNamed(a: map<string, Statement>, b: map<string, Statement>, have: map<string, Statement>, m: map<string, Statement>)
    requires SameNamed(have, m) && forall name :: At(have, name) == At(m, name) ==> At(a, name) == At(b, name)
    ensures SameNamed(a, b)
  {
    forall name | name != ""
      ensures (name in a <==> name in b) && (name in a ==> a[name] == b[name])
    {
      assert At(have, name) == At(m, name);
    }
  }
}
