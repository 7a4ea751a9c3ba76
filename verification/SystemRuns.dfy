/** The command service, the parameter service and the connection over one timer table, as
    core/system_impl.cpp runs them: what each of them demands of the other users of the table, the
    others meet. */
module SystemRuns {
  import opened Timers
  import opened TimerTraces
  import Commands
  import Parameters
  import Connection
  import C = CommandRuns
  import P = ParameterRuns
  import L = ConnectionRuns

  /** Each part with its own view of the table, the clock and the cookies. */
  datatype Whole = Whole(commands: C.System, parameters: P.System, connection: L.System)

  /** `Plugin` is a call of some other user of the table. */
  datatype Event =
    | OfCommands(c: C.Event)
    | OfParameters(p: P.Event)
    | OfConnection(l: L.Event)
    | Plugin(op: Op)
    | Elapse(ns: nat)

  const COMMAND_TIMERS: set<Callback> := {CommandTimeout}
  const PARAM_TIMERS: set<Callback> := {ParamTimeout}
  const LINK_TIMERS: set<Callback> := {HeartbeatTimeout, VersionTimeout}

  function SharedTable(w: Whole): Table {
    w.commands.service.timers
  }

  predicate NewTo(w: Whole, cookie: Cookie) {
    cookie !in w.commands.issued && cookie !in w.parameters.issued && cookie !in w.connection.issued
  }

  /** A handler of the service itself; a timer is fired by the part it belongs to. */
  predicate CommandsMay(w: Whole, e: C.Event) {
    && C.Enabled(w.commands, e)
    && match e
       case Submission(_) => true
       case Attend(_, cookie) => NewTo(w, cookie)
       case Ack(_, _, cookie) => NewTo(w, cookie)
       case Fire(due, _, cookie) => NewTo(w, cookie) && w.commands.service.timers[due].callback == CommandTimeout
       case _ => false
  }

  predicate ParametersMay(w: Whole, e: P.Event) {
    && P.Enabled(w.parameters, e)
    && match e
       case Attend(_, cookie) => NewTo(w, cookie)
       case Fire(due) => w.parameters.service.timers[due].callback == ParamTimeout
       case Tick(_) => false
       case Other(_) => false
       case _ => true
  }

  predicate ConnectionMay(w: Whole, e: L.Event) {
    && L.Enabled(w.connection, e)
    && match e
       case Beat(_, first, second) => NewTo(w, first) && NewTo(w, second)
       case VersionArrives(_, _, cookie) => NewTo(w, cookie)
       case TakeOut(due, _) => L.IsMine(w.connection.link.timers[due].callback)
       case CallBack => true
       case _ => false
  }

  predicate PluginMay(w: Whole, op: Op) {
    C.OthersMay(w.commands, op) && P.OthersMay(w.parameters, op) && L.OthersMay(w.connection, op)
  }

  /** Nothing runs once the process has aborted. */
  predicate Enabled(w: Whole, e: Event) {
    && w.parameters.service.phase != Parameters.Aborted
    && match e
       case OfCommands(c) => CommandsMay(w, c)
       case OfParameters(p) => ParametersMay(w, p)
       case OfConnection(l) => ConnectionMay(w, l)
       case Plugin(op) => PluginMay(w, op)
       case Elapse(_) => true
  }

  // ---------------------------------------------------------------- telling the others

  /** The same calls as the others see them. */
  function TellCommands(sys: C.System, ops: seq<Op>): C.System
    decreases ops
  {
    if ops == [] then sys else TellCommands(C.Step(sys, C.Other(ops[0])), ops[1..])
  }

  function TellParameters(sys: P.System, ops: seq<Op>): P.System
    decreases ops
  {
    if ops == [] then sys else TellParameters(P.Step(sys, P.Other(ops[0])), ops[1..])
  }

  function TellConnection(sys: L.System, ops: seq<Op>): L.System
    decreases ops
  {
    if ops == [] then sys else TellConnection(L.Step(sys, L.Other(ops[0])), ops[1..])
  }

  /** What an event does to the table. */
  function OpsOf(w: Whole, e: Event): seq<Op> {
    match e
    case OfCommands(c) => Flat(C.EffectOf(w.commands, c))
    case OfParameters(p) => Flat(P.EffectOf(w.parameters, p))
    case OfConnection(l) => Flat(L.EffectOf(w.connection, l))
    case Plugin(op) => [op]
    case Elapse(_) => []
  }

  /** A heartbeat may make the connection ask for the identity, which queues a command with the command
      service in the same step (core/system_impl.cpp:467-477). */
  predicate Requests(w: Whole, e: L.Event) {
    e.Beat? && Connection.RequestsOn(w.connection.link, e.component)
  }

  function WithRequest(sys: C.System, requests: bool): C.System {
    if requests then C.Step(sys, C.Submission(Connection.VERSION_COMMAND)) else sys
  }

  function Step(w: Whole, e: Event): Whole {
    var ops := OpsOf(w, e);
    if !Enabled(w, e) then w
    else match e
      case OfCommands(c) =>
        Whole(C.Step(w.commands, c), TellParameters(w.parameters, ops), TellConnection(w.connection, ops))
      case OfParameters(p) =>
        Whole(TellCommands(w.commands, ops), P.Step(w.parameters, p), TellConnection(w.connection, ops))
      case OfConnection(l) =>
        Whole(WithRequest(TellCommands(w.commands, ops), Requests(w, l)), TellParameters(w.parameters, ops),
              L.Step(w.connection, l))
      case Plugin(_) =>
        Whole(TellCommands(w.commands, ops), TellParameters(w.parameters, ops), TellConnection(w.connection, ops))
      case Elapse(ns) =>
        Whole(C.Step(w.commands, C.Tick(ns)), P.Step(w.parameters, P.Tick(ns)), L.Step(w.connection, L.Tick(ns)))
  }

  function Run(w: Whole, events: seq<Event>): Whole {
    if events == [] then w
    else Step(Run(w, events[..|events| - 1]), events[|events| - 1])
  }

  function Start(systemId: nat, clock: int): Whole {
    Whole(C.Start(clock), P.Start(clock), L.Start(systemId, clock))
  }

  // ---------------------------------------------------------------- the invariant

  /** One table, one clock. */
  predicate Agree(w: Whole) {
    && w.commands.service.timers == w.parameters.service.timers == w.connection.link.timers
    && w.commands.clock == w.parameters.clock == w.connection.clock
  }

  /** A cookie that some part remembers is never another part's entry, however old it is. */
  predicate NoneStolen(w: Whole) {
    && Owned(SharedTable(w), w.commands.service.cookie, CommandTimeout)
    && Owned(SharedTable(w), w.connection.link.heartbeatCookie, HeartbeatTimeout)
    && Owned(SharedTable(w), w.connection.link.versionCookie, VersionTimeout)
  }

  ghost predicate Inv(w: Whole) {
    && Agree(w) && NoneStolen(w)
    && C.Inv(w.commands) && P.Inv(w.parameters) && L.Inv(w.connection)
  }

  // ---------------------------------------------------------------- harmless calls are heard

  lemma {:induction false} CommandsHear(sys: C.System, ops: seq<Op>)
    requires C.Inv(sys) && AllHarmless(sys.service.timers, sys.issued, sys.clock, COMMAND_TIMERS, ops)
    ensures var sys' := TellCommands(sys, ops);
            && C.Inv(sys') && sys'.clock == sys.clock && sys'.issued == sys.issued + AllIssued(ops)
            && sys'.service == sys.service.(timers := ApplyAll(sys.service.timers, ops))
    decreases ops
  {
    hide C.Inv;
    if ops != [] {
      CommandsHearOne(sys, ops[0]);
      CommandsHear(C.Step(sys, C.Other(ops[0])), ops[1..]);
    }
  }

  lemma CommandsHearOne(sys: C.System, op: Op)
    requires C.Inv(sys) && Harmless(sys.service.timers, sys.issued, sys.clock, COMMAND_TIMERS, op)
    ensures var sys' := C.Step(sys, C.Other(op));
            var s' := sys.service.(timers := Apply(sys.service.timers, op));
            C.Inv(sys') && sys' == C.System(s', sys.clock, sys.issued + Issues(op))
  {
    C.StepKeepsInv(sys, C.Other(op));
    hide C.Inv, Apply;
    assert sys.issued + {} == sys.issued;
  }

  lemma {:induction false} ParametersHear(sys: P.System, ops: seq<Op>)
    requires P.Inv(sys) && AllHarmless(sys.service.timers, sys.issued, sys.clock, PARAM_TIMERS, ops)
    ensures var sys' := TellParameters(sys, ops);
            && P.Inv(sys') && sys'.clock == sys.clock && sys'.issued == sys.issued + AllIssued(ops)
            && sys'.service == sys.service.(timers := ApplyAll(sys.service.timers, ops))
    decreases ops
  {
    hide P.Inv;
    if ops != [] {
      ParametersHearOne(sys, ops[0]);
      ParametersHear(P.Step(sys, P.Other(ops[0])), ops[1..]);
    }
  }

  lemma ParametersHearOne(sys: P.System, op: Op)
    requires P.Inv(sys) && Harmless(sys.service.timers, sys.issued, sys.clock, PARAM_TIMERS, op)
    ensures var sys' := P.Step(sys, P.Other(op));
            var s' := sys.service.(timers := Apply(sys.service.timers, op));
            P.Inv(sys') && sys' == P.System(s', sys.clock, sys.issued + Issues(op))
  {
    P.StepKeepsInv(sys, P.Other(op));
    hide P.Inv, Apply, Parameters.SetParam, Parameters.GetParam, Parameters.StartNext, Parameters.ValueArrives,
         Parameters.ExtValueArrives, Parameters.ExtAckArrives, Parameters.Expire, Parameters.ClearCache;
    assert sys.issued + {} == sys.issued;
  }

  lemma {:induction false} ConnectionHears(sys: L.System, ops: seq<Op>)
    requires L.Inv(sys) && AllHarmless(sys.link.timers, sys.issued, sys.clock, LINK_TIMERS, ops)
    ensures var sys' := TellConnection(sys, ops);
            && L.Inv(sys')
            && sys' == sys.(link := sys.link.(timers := ApplyAll(sys.link.timers, ops)),
                            issued := sys.issued + AllIssued(ops))
    decreases ops
  {
    hide L.Inv;
    if ops == [] {
      assert sys.issued + {} == sys.issued;
    } else {
      ConnectionHearsOne(sys, ops[0]);
      ConnectionHears(L.Step(sys, L.Other(ops[0])), ops[1..]);
      assert sys.issued + Issues(ops[0]) + AllIssued(ops[1..]) == sys.issued + AllIssued(ops);
    }
  }

  lemma ConnectionHearsOne(sys: L.System, op: Op)
    requires L.Inv(sys) && Harmless(sys.link.timers, sys.issued, sys.clock, LINK_TIMERS, op)
    ensures var sys' := L.Step(sys, L.Other(op));
            && L.Inv(sys')
            && sys' == sys.(link := sys.link.(timers := Apply(sys.link.timers, op)), issued := sys.issued + Issues(op))
  {
    L.StepKeepsInv(sys, L.Other(op));
    hide L.Inv, Apply;
    assert sys.issued + {} == sys.issued;
  }

  // ---------------------------------------------------------------- each part is harmless

  function CookieOf(e: C.Event): set<Cookie> {
    match e
    case Attend(_, cookie) => {cookie}
    case Ack(_, _, cookie) => {cookie}
    case Fire(_, _, cookie) => {cookie}
    case _ => {}
  }

  lemma CommandsAreHarmless(w: Whole, e: C.Event, issued: set<Cookie>, mine: set<Callback>)
    requires CommandsMay(w, e) && NoneStolen(w) && CommandTimeout !in mine && CookieOf(e) !! issued
    ensures var ops := Flat(C.EffectOf(w.commands, e));
            && AllHarmless(SharedTable(w), issued, w.commands.clock, mine, ops) && AllIssued(ops) <= CookieOf(e)
  {
    var t, clock, s := SharedTable(w), w.commands.clock, w.commands.service;
    var ops := Flat(C.EffectOf(w.commands, e));
    NothingIsHarmless(t, issued, clock, mine);
    if |ops| == 1 {
      OneIsHarmless(t, issued, clock, mine, ops[0]);
      assert ops == [ops[0]];
    } else if |ops| == 2 {
      TwoAreHarmless(t, issued, clock, mine, ops[0], ops[1]);
      assert ops == [ops[0], ops[1]];
    }
    hide AllHarmless, AllIssued;
  }

  lemma ParametersAreHarmless(w: Whole, e: P.Event, issued: set<Cookie>, mine: set<Callback>)
    requires ParametersMay(w, e) && Agree(w) && P.Inv(w.parameters) && ParamTimeout !in mine
    requires e.Attend? ==> e.cookie !in issued
    ensures var ops := Flat(P.EffectOf(w.parameters, e));
            && AllHarmless(SharedTable(w), issued, w.commands.clock, mine, ops)
            && AllIssued(ops) <= if e.Attend? then {e.cookie} else {}
  {
    hide AllHarmless, AllIssued, P.CacheAgrees, P.Legal, P.Mirrors;
    var t, clock, s := SharedTable(w), w.commands.clock, w.parameters.service;
    var ops := Flat(P.EffectOf(w.parameters, e));
    assert s.phase == Parameters.SetBusy || s.phase == Parameters.GetBusy ==> s.cookie in P.ParamTimers(s.timers);
    NothingIsHarmless(t, issued, clock, mine);
    if |ops| == 1 {
      OneIsHarmless(t, issued, clock, mine, ops[0]);
      assert ops == [ops[0]];
    }
  }

  lemma ConnectionIsHarmless(w: Whole, e: L.Event, issued: set<Cookie>, mine: set<Callback>)
    requires ConnectionMay(w, e) && Agree(w) && NoneStolen(w) && mine !! LINK_TIMERS
    requires e.Beat? ==> e.first !in issued && e.second !in issued
    requires e.VersionArrives? ==> e.cookie !in issued
    ensures var ops := Flat(L.EffectOf(w.connection, e));
            && AllHarmless(SharedTable(w), issued, w.commands.clock, mine, ops)
            && AllIssued(ops) <= LinkCookies(e)
  {
    hide AllHarmless, AllIssued;
    var t, clock, s := SharedTable(w), w.commands.clock, w.connection.link;
    var ops := Flat(L.EffectOf(w.connection, e));
    NothingIsHarmless(t, issued, clock, mine);
    if |ops| == 1 {
      OneIsHarmless(t, issued, clock, mine, ops[0]);
      assert ops == [ops[0]];
    } else if |ops| == 2 {
      TwoAreHarmless(t, issued, clock, mine, ops[0], ops[1]);
      assert ops == [ops[0], ops[1]];
    }
  }

  function LinkCookies(e: L.Event): set<Cookie> {
    match e
    case Beat(_, first, second) => {first, second}
    case VersionArrives(_, _, cookie) => {cookie}
    case _ => {}
  }

  // ---------------------------------------------------------------- steps keep the invariant

  /** The cookies the parts remember are ones they know. */
  lemma Remembered(w: Whole)
    requires C.Inv(w.commands) && L.Inv(w.connection)
    ensures w.commands.service.cookie in w.commands.issued
    ensures w.connection.link.heartbeatCookie in w.connection.issued
    ensures w.connection.link.versionCookie in w.connection.issued
  {
    hide C.Consistent, C.InOrder, C.OnSchedule, L.NoticesAgree, L.PunctualLosses;
  }

  lemma OwnCommandCookie(w: Whole, e: C.Event)
    requires C.Inv(w.commands) && CommandsMay(w, e) && Owned(SharedTable(w), w.commands.service.cookie, CommandTimeout)
    ensures var s' := C.Step(w.commands, e).service; Owned(s'.timers, s'.cookie, CommandTimeout)
    ensures C.Step(w.commands, e).clock == w.commands.clock
  {
    hide C.Consistent, C.InOrder, C.OnSchedule;
    assert w.commands.service.timers.Keys <= w.commands.issued;
  }

  lemma CommandsStep(w: Whole, e: C.Event)
    requires Inv(w) && Enabled(w, OfCommands(e))
    ensures Inv(Step(w, OfCommands(e)))
  {
    hide C.Inv, P.Inv, L.Inv, CommandsMay, C.EffectOf, C.Step, Flat, AllHarmless, TellParameters, TellConnection,
         After, Owned;
    var ops, t := Flat(C.EffectOf(w.commands, e)), SharedTable(w);
    NewCookies(w, e);
    CommandsAreHarmless(w, e, w.parameters.issued, PARAM_TIMERS);
    CommandsAreHarmless(w, e, w.connection.issued, LINK_TIMERS);
    ParametersHear(w.parameters, ops);
    ConnectionHears(w.connection, ops);
    C.StepIsAnEffect(w.commands, e);
    C.StepKeepsInv(w.commands, e);
    FlatIsAfter(t, C.EffectOf(w.commands, e));
    Remembered(w);
    OwnCommandCookie(w, e);
    StaysOwned(t, ops, w.connection.link.heartbeatCookie, HeartbeatTimeout);
    StaysOwned(t, ops, w.connection.link.versionCookie, VersionTimeout);
  }

  lemma NewCookies(w: Whole, e: C.Event)
    requires CommandsMay(w, e)
    ensures CookieOf(e) !! w.commands.issued && CookieOf(e) !! w.parameters.issued && CookieOf(e) !! w.connection.issued
  {
    hide C.Enabled;
  }

  lemma ParametersStep(w: Whole, e: P.Event)
    requires Inv(w) && Enabled(w, OfParameters(e))
    ensures Inv(Step(w, OfParameters(e)))
  {
    hide C.Inv, P.Inv, L.Inv, P.EffectOf, P.Step, P.Enabled, Flat, AllHarmless, TellCommands, TellConnection,
         After, Owned;
    var ops, t := Flat(P.EffectOf(w.parameters, e)), SharedTable(w);
    ParametersAreHarmless(w, e, w.commands.issued, COMMAND_TIMERS);
    ParametersAreHarmless(w, e, w.connection.issued, LINK_TIMERS);
    CommandsHear(w.commands, ops);
    ConnectionHears(w.connection, ops);
    P.StepIsAnEffect(w.parameters, e);
    P.StepKeepsInv(w.parameters, e);
    ParametersKeepTime(w, e);
    FlatIsAfter(t, P.EffectOf(w.parameters, e));
    Remembered(w);
    StaysOwned(t, ops, w.commands.service.cookie, CommandTimeout);
    StaysOwned(t, ops, w.connection.link.heartbeatCookie, HeartbeatTimeout);
    StaysOwned(t, ops, w.connection.link.versionCookie, VersionTimeout);
  }

  lemma ParametersKeepTime(w: Whole, e: P.Event)
    requires ParametersMay(w, e)
    ensures P.Step(w.parameters, e).clock == w.parameters.clock
  {
  }

  predicate LinkOwns(s: Connection.Link) {
    Owned(s.timers, s.heartbeatCookie, HeartbeatTimeout) && Owned(s.timers, s.versionCookie, VersionTimeout)
  }

  lemma ConnectedOwns(s: Connection.Link, at: int, cookie: Cookie)
    requires LinkOwns(s) && cookie !in s.timers && cookie != s.versionCookie
    ensures LinkOwns(Connection.NowConnected(s, at, cookie))
  {
  }

  lemma IdentifyOwns(s: Connection.Link, systemId: nat, component: nat, at: int, cookie: Cookie)
    requires LinkOwns(s) && cookie !in s.timers && cookie != s.heartbeatCookie
    ensures LinkOwns(Connection.Identify(s, systemId, component, at, cookie))
    ensures var s' := Connection.Identify(s, systemId, component, at, cookie);
            && s'.timers.Keys <= s.timers.Keys + {cookie} && s'.versionCookie in {s.versionCookie, cookie}
  {
  }

  lemma OwnLinkCookies(w: Whole, e: L.Event)
    requires L.Inv(w.connection) && ConnectionMay(w, e) && LinkOwns(w.connection.link)
    ensures LinkOwns(L.Step(w.connection, e).link) && L.Step(w.connection, e).clock == w.connection.clock
  {
    hide L.NoticesAgree, L.PunctualLosses, Connection.NowConnected, Connection.Identify, LinkOwns;
    var s, clock := w.connection.link, w.connection.clock;
    assert s.timers.Keys <= w.connection.issued;
    match e {
      case Beat(component, first, second) =>
        IdentifyOwns(s, w.connection.systemId, component, clock, first);
        ConnectedOwns(Connection.Identify(s, w.connection.systemId, component, clock, first), clock, second);
      case VersionArrives(component, uid, cookie) =>
        var known := s.(uuid := Connection.VersionUuid(s, w.connection.systemId, uid), uuidInitialized := true);
        IdentityOwns(s, known.uuid, true);
        ConnectedOwns(known, clock, cookie);
        var connected := Connection.NowConnected(known, clock, cookie);
        LessOwns(connected, connected.versionCookie, false);
      case TakeOut(due, _) => LessOwns(s, due, s.versionPending);
      case CallBack => CallBackOwns(s);
      case _ =>
    }
  }

  lemma IdentityOwns(s: Connection.Link, uuid: nat, known: bool)
    requires LinkOwns(s)
    ensures LinkOwns(s.(uuid := uuid, uuidInitialized := known))
  {
  }

  lemma LessOwns(s: Connection.Link, c: Cookie, pending: bool)
    requires LinkOwns(s)
    ensures LinkOwns(s.(versionPending := pending, timers := Removed(s.timers, c)))
  {
  }

  lemma CallBackOwns(s: Connection.Link)
    requires LinkOwns(s)
    ensures LinkOwns(Connection.NowDisconnected(s)) && LinkOwns(s.(versionPending := false))
  {
  }

  lemma RequestKeeps(sys: C.System, requests: bool)
    requires C.Inv(sys)
    ensures var sys' := WithRequest(sys, requests);
            && C.Inv(sys') && sys'.clock == sys.clock && sys'.issued == sys.issued
            && sys'.service.timers == sys.service.timers && sys'.service.cookie == sys.service.cookie
  {
    C.StepKeepsInv(sys, C.Submission(Connection.VERSION_COMMAND));
    hide C.Inv;
  }

  lemma ConnectionStep(w: Whole, e: L.Event)
    requires Inv(w) && Enabled(w, OfConnection(e))
    ensures Inv(Step(w, OfConnection(e)))
  {
    hide C.Inv, P.Inv, L.Inv, L.EffectOf, L.Step, L.Enabled, Flat, AllHarmless, TellCommands, TellParameters,
         After, Owned, WithRequest, Requests;
    var ops, t := Flat(L.EffectOf(w.connection, e)), SharedTable(w);
    ConnectionIsHarmless(w, e, w.commands.issued, COMMAND_TIMERS);
    ConnectionIsHarmless(w, e, w.parameters.issued, PARAM_TIMERS);
    CommandsHear(w.commands, ops);
    RequestKeeps(TellCommands(w.commands, ops), Requests(w, e));
    ParametersHear(w.parameters, ops);
    L.StepIsAnEffect(w.connection, e);
    L.StepKeepsInv(w.connection, e);
    FlatIsAfter(t, L.EffectOf(w.connection, e));
    Remembered(w);
    OwnLinkCookies(w, e);
    StaysOwned(t, ops, w.commands.service.cookie, CommandTimeout);
  }

  lemma PluginIsHarmless(w: Whole, op: Op)
    requires Inv(w) && PluginMay(w, op)
    ensures AllHarmless(SharedTable(w), w.commands.issued, w.commands.clock, COMMAND_TIMERS, [op])
    ensures AllHarmless(SharedTable(w), w.parameters.issued, w.commands.clock, PARAM_TIMERS, [op])
    ensures AllHarmless(SharedTable(w), w.connection.issued, w.commands.clock, LINK_TIMERS, [op])
    ensures AllIssued([op]) == Issues(op)
  {
    hide C.Inv, P.Inv, L.Inv;
    OneIsHarmless(SharedTable(w), w.commands.issued, w.commands.clock, COMMAND_TIMERS, op);
    OneIsHarmless(SharedTable(w), w.parameters.issued, w.commands.clock, PARAM_TIMERS, op);
    OneIsHarmless(SharedTable(w), w.connection.issued, w.commands.clock, LINK_TIMERS, op);
  }

  lemma PluginStep(w: Whole, op: Op)
    requires Inv(w) && Enabled(w, Plugin(op))
    ensures Inv(Step(w, Plugin(op)))
  {
    hide C.Inv, P.Inv, L.Inv, AllHarmless, TellCommands, TellParameters, TellConnection, Owned, ApplyAll;
    var t := SharedTable(w);
    PluginIsHarmless(w, op);
    CommandsHear(w.commands, [op]);
    ParametersHear(w.parameters, [op]);
    ConnectionHears(w.connection, [op]);
    Remembered(w);
    StaysOwned(t, [op], w.commands.service.cookie, CommandTimeout);
    StaysOwned(t, [op], w.connection.link.heartbeatCookie, HeartbeatTimeout);
    StaysOwned(t, [op], w.connection.link.versionCookie, VersionTimeout);
  }

  lemma ElapseStep(w: Whole, ns: nat)
    requires Inv(w)
    ensures Inv(Step(w, Elapse(ns)))
  {
    hide C.Inv, P.Inv, L.Inv, Owned;
    C.StepKeepsInv(w.commands, C.Tick(ns));
    P.StepKeepsInv(w.parameters, P.Tick(ns));
    L.StepKeepsInv(w.connection, L.Tick(ns));
  }

  lemma StepKeepsInv(w: Whole, e: Event)
    requires Inv(w)
    ensures Inv(Step(w, e))
  {
    if Enabled(w, e) {
      hide Inv, Step;
      match e {
        case OfCommands(c) => CommandsStep(w, c);
        case OfParameters(p) => ParametersStep(w, p);
        case OfConnection(l) => ConnectionStep(w, l);
        case Plugin(op) => PluginStep(w, op);
        case Elapse(ns) => ElapseStep(w, ns);
      }
    }
  }

  lemma StartKeepsInv(systemId: nat, clock: int)
    ensures Inv(Start(systemId, clock))
  {
    C.RunKeepsInv(clock, []);
    P.StartIsSound(clock);
    L.RunKeepsInv(systemId, clock, []);
    hide C.Inv, P.Inv, L.Inv;
  }

  lemma {:induction false} RunKeepsInv(systemId: nat, clock: int, events: seq<Event>)
    ensures Inv(Run(Start(systemId, clock), events))
  {
    hide Inv, Step;
    if events == [] {
      StartKeepsInv(systemId, clock);
    } else {
      var init := events[..|events| - 1];
      RunKeepsInv(systemId, clock, init);
      StepKeepsInv(Run(Start(systemId, clock), init), events[|events| - 1]);
    }
  }

  // ---------------------------------------------------------------- what every run guarantees

  /** The parts always see the same table: every call one of them makes is one the others allow. */
  lemma OneTable(systemId: nat, clock: int, events: seq<Event>)
    ensures var w := Run(Start(systemId, clock), events);
            && w.commands.service.timers == w.parameters.service.timers == w.connection.link.timers
            && w.commands.clock == w.parameters.clock == w.connection.clock
  {
    hide Run, C.Inv, P.Inv, L.Inv;
    RunKeepsInv(systemId, clock, events);
  }

  lemma {:induction false} CommandsHeardIsRun(start: C.System, events: seq<C.Event>, ops: seq<Op>)
    returns (longer: seq<C.Event>)
    ensures C.Run(start, longer) == TellCommands(C.Run(start, events), ops)
    decreases ops
  {
    hide C.Step;
    longer := events;
    if ops != [] {
      var next := events + [C.Other(ops[0])];
      assert next[..|events|] == events;
      longer := CommandsHeardIsRun(start, next, ops[1..]);
    }
  }

  lemma {:induction false} ParametersHeardIsRun(start: P.System, events: seq<P.Event>, ops: seq<Op>)
    returns (longer: seq<P.Event>)
    ensures P.Run(start, longer) == TellParameters(P.Run(start, events), ops)
    decreases ops
  {
    hide P.Step;
    longer := events;
    if ops != [] {
      var next := events + [P.Other(ops[0])];
      assert next[..|events|] == events;
      longer := ParametersHeardIsRun(start, next, ops[1..]);
    }
  }

  lemma {:induction false} ConnectionHeardIsRun(start: L.System, events: seq<L.Event>, ops: seq<Op>)
    returns (longer: seq<L.Event>)
    ensures L.Run(start, longer) == TellConnection(L.Run(start, events), ops)
    decreases ops
  {
    hide L.Step;
    longer := events;
    if ops != [] {
      var next := events + [L.Other(ops[0])];
      assert next[..|events|] == events;
      longer := ConnectionHeardIsRun(start, next, ops[1..]);
    }
  }

  lemma CommandsRunOn(start: C.System, events: seq<C.Event>, e: C.Event)
    ensures C.Run(start, events + [e]) == C.Step(C.Run(start, events), e)
  {
    hide C.Step;
    assert (events + [e])[..|events|] == events;
  }

  lemma ParametersRunOn(start: P.System, events: seq<P.Event>, e: P.Event)
    ensures P.Run(start, events + [e]) == P.Step(P.Run(start, events), e)
  {
    hide P.Step;
    assert (events + [e])[..|events|] == events;
  }

  lemma ConnectionRunsOn(start: L.System, events: seq<L.Event>, e: L.Event)
    ensures L.Run(start, events + [e]) == L.Step(L.Run(start, events), e)
  {
    hide L.Step;
    assert (events + [e])[..|events|] == events;
  }

  lemma RequestIsRun(start: C.System, events: seq<C.Event>, requests: bool)
    returns (longer: seq<C.Event>)
    ensures C.Run(start, longer) == WithRequest(C.Run(start, events), requests)
  {
    hide C.Run, C.Step;
    longer := events;
    if requests {
      CommandsRunOn(start, events, C.Submission(Connection.VERSION_COMMAND));
      longer := events + [C.Submission(Connection.VERSION_COMMAND)];
    }
  }

  lemma PartsOfStep(c: C.System, p: P.System, l: L.System, w: Whole, e: Event, cs: seq<C.Event>, ps: seq<P.Event>,
      ls: seq<L.Event>)
    returns (cs': seq<C.Event>, ps': seq<P.Event>, ls': seq<L.Event>)
    requires w == Whole(C.Run(c, cs), P.Run(p, ps), L.Run(l, ls)) && Enabled(w, e)
    ensures Step(w, e) == Whole(C.Run(c, cs'), P.Run(p, ps'), L.Run(l, ls'))
  {
    hide C.Step, P.Step, L.Step, C.Run, P.Run, L.Run, TellCommands, TellParameters, TellConnection, Enabled, OpsOf,
         WithRequest, Requests;
    var ops := OpsOf(w, e);
    cs' := CommandsHeardIsRun(c, cs, ops);
    ps' := ParametersHeardIsRun(p, ps, ops);
    ls' := ConnectionHeardIsRun(l, ls, ops);
    match e {
      case OfCommands(own) =>
        CommandsRunOn(c, cs, own);
        cs' := cs + [own];
      case OfParameters(own) =>
        ParametersRunOn(p, ps, own);
        ps' := ps + [own];
      case OfConnection(own) =>
        ConnectionRunsOn(l, ls, own);
        ls' := ls + [own];
        cs' := RequestIsRun(c, cs', Requests(w, own));
      case Plugin(_) =>
      case Elapse(ns) =>
        CommandsRunOn(c, cs, C.Tick(ns));
        ParametersRunOn(p, ps, P.Tick(ns));
        ConnectionRunsOn(l, ls, L.Tick(ns));
        cs', ps', ls' := cs + [C.Tick(ns)], ps + [P.Tick(ns)], ls + [L.Tick(ns)];
    }
  }

  /** And each part's state is one of its own runs, so all that holds of those holds of the whole. */
  lemma {:induction false} PartsAreRuns(systemId: nat, clock: int, events: seq<Event>)
    returns (cs: seq<C.Event>, ps: seq<P.Event>, ls: seq<L.Event>)
    ensures Run(Start(systemId, clock), events)
         == Whole(C.Run(C.Start(clock), cs), P.Run(P.Start(clock), ps), L.Run(L.Start(systemId, clock), ls))
  {
    hide Step, C.Step, P.Step, L.Step, C.Start, P.Start, L.Start, Enabled;
    cs, ps, ls := [], [], [];
    if events != [] {
      var init, e := events[..|events| - 1], events[|events| - 1];
      cs, ps, ls := PartsAreRuns(systemId, clock, init);
      var w := Run(Start(systemId, clock), init);
      if Enabled(w, e) {
        cs, ps, ls := PartsOfStep(C.Start(clock), P.Start(clock), L.Start(systemId, clock), w, e, cs, ps, ls);
      } else {
        NotEnabled(w, e);
      }
    }
  }

  lemma NotEnabled(w: Whole, e: Event)
    requires !Enabled(w, e)
    ensures Step(w, e) == w
  {
  }

  // ---------------------------------------------------------------- the connection's own commands

  /** How many requests for the identity the command service was handed. */
  function VersionCommands(w: Whole): nat {
    multiset(w.commands.service.submitted)[520]
  }

  /** How often others than the connection submitted a command of this number. */
  function Submitted(systemId: nat, clock: int, events: seq<Event>, command: nat): nat {
    if events == [] then 0
    else
      var init, e := events[..|events| - 1], events[|events| - 1];
      Submitted(systemId, clock, init, command)
      + if e == OfCommands(C.Submission(command)) && Enabled(Run(Start(systemId, clock), init), e) then 1 else 0
  }

  lemma {:induction false} TellingSubmitsNothing(sys: C.System, ops: seq<Op>)
    ensures TellCommands(sys, ops).service.submitted == sys.service.submitted
    decreases ops
  {
    hide Apply, C.OthersMay;
    if ops != [] {
      TellingSubmitsNothing(C.Step(sys, C.Other(ops[0])), ops[1..]);
    }
  }

  lemma {:induction false} TellingRequestsNothing(sys: L.System, ops: seq<Op>)
    ensures TellConnection(sys, ops).link.versionRequests == sys.link.versionRequests
    decreases ops
  {
    hide Apply, L.OthersMay;
    if ops != [] {
      TellingRequestsNothing(L.Step(sys, L.Other(ops[0])), ops[1..]);
    }
  }

  lemma OnlySubmissionsSubmit(sys: C.System, e: C.Event)
    ensures C.Step(sys, e).service.submitted == sys.service.submitted + if e.Submission? then [e.command] else []
  {
    hide Apply, Expired, Removed, Added;
  }

  lemma OnlyHeartbeatsRequest(w: Whole, e: L.Event)
    requires L.Enabled(w.connection, e)
    ensures L.Step(w.connection, e).link.versionRequests
         == w.connection.link.versionRequests + if Requests(w, e) then 1 else 0
  {
    hide Apply, Expired, Removed, Added, Refreshed, Connection.VersionUuid;
  }

  lemma StepSubmits(w: Whole, e: Event)
    ensures var own := e == OfCommands(C.Submission(520)) && Enabled(w, e);
            VersionCommands(Step(w, e)) + w.connection.link.versionRequests
            == VersionCommands(w) + Step(w, e).connection.link.versionRequests + if own then 1 else 0
  {
    hide C.Step, P.Step, L.Step, TellCommands, TellConnection, TellParameters, Requests, OpsOf, P.Enabled,
         ParametersMay, PluginMay;
    if Enabled(w, e) {
      var ops := OpsOf(w, e);
      TellingSubmitsNothing(w.commands, ops);
      TellingRequestsNothing(w.connection, ops);
      match e {
        case OfCommands(c) => OnlySubmissionsSubmit(w.commands, c);
        case OfConnection(l) =>
          OnlyHeartbeatsRequest(w, l);
          OnlySubmissionsSubmit(TellCommands(w.commands, ops), C.Submission(Connection.VERSION_COMMAND));
        case OfParameters(_) =>
        case Plugin(_) =>
        case Elapse(ns) =>
          OnlySubmissionsSubmit(w.commands, C.Tick(ns));
          TickRequestsNothing(w.connection, ns);
      }
    }
  }

  lemma TickRequestsNothing(sys: L.System, ns: nat)
    ensures L.Step(sys, L.Tick(ns)).link == sys.link
  {
  }

  /** Every request for the identity is a command of the command service, one for one: the commands of
      that number submitted are those of the connection and those of other callers. */
  lemma {:induction false} RequestsAreSubmitted(systemId: nat, clock: int, events: seq<Event>)
    ensures var w := Run(Start(systemId, clock), events);
            VersionCommands(w)
            == w.connection.link.versionRequests + Submitted(systemId, clock, events, 520)
  {
    hide Step, Enabled;
    if events != [] {
      var init := events[..|events| - 1];
      RequestsAreSubmitted(systemId, clock, init);
      StepSubmits(Run(Start(systemId, clock), init), events[|events| - 1]);
    }
  }
}
