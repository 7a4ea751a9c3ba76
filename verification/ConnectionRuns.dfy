/** Whole runs of the connection life cycle. The expiry pass takes a timer out of the table in one
    step and calls its handler in a later one, so messages may be handled in between. */
module ConnectionRuns {
  import opened Wrappers
  import opened Timers
  import opened TimerTraces
  import opened Connection

  /** A handler the pass is about to call: the pass's clock reading, and when the last message that
      keeps the connection alive had been handled before the timer was taken out. */
  datatype Call = Call(callback: Callback, now: int, aliveBefore: int)

  datatype Loss = Loss(aliveBefore: int, now: int)

  datatype System = System(
    systemId: nat,
    link: Link,
    clock: int,
    issued: set<Cookie>,
    calling: Option<Call>,
    lastAlive: int,
    losses: seq<Loss>)

  datatype Event =
    | Beat(component: nat, first: Cookie, second: Cookie)
    | VersionArrives(component: nat, uid: nat, cookie: Cookie)
    | TakeOut(due: Cookie, now: int)
    | CallBack
    | Tick(ns: nat)
    | Other(op: Op)

  predicate IsMine(callback: Callback) {
    callback == HeartbeatTimeout || callback == VersionTimeout
  }

  predicate OthersMay(sys: System, op: Op) {
    match op
    case Add(cookie, callback, _, clock) => cookie !in sys.issued && !IsMine(callback) && clock == sys.clock
    case Refresh(cookie, clock) => cookie in sys.link.timers ==> !IsMine(sys.link.timers[cookie].callback)
    case Remove(cookie) => cookie in sys.link.timers ==> !IsMine(sys.link.timers[cookie].callback)
  }

  predicate Enabled(sys: System, e: Event) {
    match e
    case Beat(_, first, second) => first !in sys.issued && second !in sys.issued && first != second
    case VersionArrives(_, _, cookie) => cookie !in sys.issued
    case TakeOut(due, now) => sys.calling.None? && now <= sys.clock && due in Expired(sys.link.timers, now)
    case CallBack => sys.calling.Some?
    case Tick(_) => true
    case Other(op) => OthersMay(sys, op)
  }

  function Step(sys: System, e: Event): System {
    var s := sys.link;
    if !Enabled(sys, e) then sys
    else match e
      case Beat(component, first, second) =>
        sys.(link := Heartbeat(s, sys.systemId, component, sys.clock, first, second),
             issued := sys.issued + {first, second}, lastAlive := sys.clock)
      case VersionArrives(component, uid, cookie) =>
        sys.(link := Version(s, sys.systemId, component, uid, sys.clock, cookie),
             issued := sys.issued + {cookie},
             lastAlive := if component == AUTOPILOT then sys.clock else sys.lastAlive)
      case TakeOut(due, now) =>
        sys.(link := s.(timers := Removed(s.timers, due)),
             calling := Some(Call(s.timers[due].callback, now, sys.lastAlive)))
      case CallBack =>
        var call := sys.calling.value;
        (match call.callback
         case HeartbeatTimeout =>
           sys.(link := NowDisconnected(s), calling := None,
                losses := sys.losses + [Loss(call.aliveBefore, call.now)])
         case VersionTimeout => sys.(link := s.(versionPending := false), calling := None)
         case _ => sys.(calling := None))
      case Tick(ns) => sys.(clock := sys.clock + ns)
      case Other(op) =>
        sys.(link := s.(timers := Apply(s.timers, op)),
             issued := if op.Add? then sys.issued + {op.cookie} else sys.issued)
  }

  function Run(sys: System, events: seq<Event>): System {
    if events == [] then sys
    else Step(Run(sys, events[..|events| - 1]), events[|events| - 1])
  }

  function Start(systemId: nat, clock: int): System {
    System(systemId, Connection.FRESH, clock, {NULL_COOKIE}, None, clock, [])
  }

  // ---------------------------------------------------------------- the invariant

  function HeartbeatTimers(t: Table): set<Cookie> {
    set c | c in t && t[c].callback == HeartbeatTimeout
  }

  const GRACE := HEARTBEAT_TIMEOUT_MS * NS_PER_MS

  /** Strictly alternating, discovery first. */
  predicate Alternates(notices: seq<Notice>) {
    forall i :: 0 <= i < |notices| ==> (notices[i].Discovered? <==> i % 2 == 0)
  }

  predicate AllCarry(notices: seq<Notice>, uuid: nat) {
    forall i :: 0 <= i < |notices| ==> notices[i].uuid == uuid
  }

  /** A connected system has one heartbeat timer, either live in the table or being called. */
  predicate TimerAgrees(sys: System) {
    var calling := sys.calling.Some? && sys.calling.value.callback == HeartbeatTimeout;
    && (calling ==> sys.link.connected)
    && HeartbeatTimers(sys.link.timers)
       == (if sys.link.connected && !calling then {sys.link.heartbeatCookie} else {})
    && sys.link.timers.Keys + {sys.link.heartbeatCookie, sys.link.versionCookie, NULL_COOKIE} <= sys.issued
    && (sys.link.versionCookie != NULL_COOKIE ==> sys.link.versionCookie !in HeartbeatTimers(sys.link.timers))
    && NULL_COOKIE !in sys.link.timers
  }

  predicate NoticesAgree(link: Link) {
    Alternates(link.notices) && (link.connected <==> |link.notices| % 2 == 1)
  }

  predicate PunctualLosses(sys: System) {
    && sys.lastAlive <= sys.clock
    && (forall c :: c in HeartbeatTimers(sys.link.timers) ==>
          && sys.link.timers[c].durationMs == HEARTBEAT_TIMEOUT_MS
          && sys.link.timers[c].deadline >= sys.lastAlive + GRACE)
    && (sys.calling.Some? && sys.calling.value.callback == HeartbeatTimeout ==>
          sys.calling.value.now - sys.calling.value.aliveBefore > GRACE)
    && forall i :: 0 <= i < |sys.losses| ==> sys.losses[i].now - sys.losses[i].aliveBefore > GRACE
  }

  predicate Inv(sys: System) {
    TimerAgrees(sys) && NoticesAgree(sys.link) && PunctualLosses(sys)
  }

  lemma ConnectedKeeps(sys: System, cookie: Cookie)
    requires Inv(sys) && cookie !in sys.issued
    ensures Inv(sys.(link := NowConnected(sys.link, sys.clock, cookie), issued := sys.issued + {cookie},
                     lastAlive := sys.clock))
  {
    var s := sys.link;
    var s' := NowConnected(s, sys.clock, cookie);
    if !s.connected && s.uuidInitialized {
      assert HeartbeatTimers(s'.timers) == {cookie};
    } else if s.connected {
      assert HeartbeatTimers(s'.timers) == HeartbeatTimers(s.timers);
    }
  }

  lemma RequestKeeps(sys: System, cookie: Cookie)
    requires Inv(sys) && cookie !in sys.issued
    ensures Inv(sys.(link := RequestVersion(sys.link, sys.clock, cookie), issued := sys.issued + {cookie}))
  {
    assert HeartbeatTimers(RequestVersion(sys.link, sys.clock, cookie).timers) == HeartbeatTimers(sys.link.timers);
  }

  /** Nothing depends on the counter and the identity, nor on cookies burnt. */
  lemma IdentityKeeps(sys: System, beats: nat, uuid: nat, known: bool, cookie: Cookie)
    requires Inv(sys)
    ensures Inv(sys.(link := sys.link.(nonAutopilotHeartbeats := beats, uuid := uuid, uuidInitialized := known),
                     issued := sys.issued + {cookie}))
  {
  }

  lemma IdentifyKeeps(sys: System, component: nat, cookie: Cookie)
    requires Inv(sys) && cookie !in sys.issued
    ensures Inv(sys.(link := Identify(sys.link, sys.systemId, component, sys.clock, cookie),
                     issued := sys.issued + {cookie}))
  {
    hide Inv, RequestVersion;
    var s' := Identify(sys.link, sys.systemId, component, sys.clock, cookie);
    if component == AUTOPILOT && !HaveUuid(sys.link) {
      RequestKeeps(sys, cookie);
    } else {
      IdentityKeeps(sys, s'.nonAutopilotHeartbeats, s'.uuid, s'.uuidInitialized, cookie);
    }
  }

  lemma BeatKeeps(sys: System, component: nat, first: Cookie, second: Cookie)
    requires Inv(sys) && Enabled(sys, Beat(component, first, second))
    ensures Inv(Step(sys, Beat(component, first, second)))
  {
    hide Inv, Identify, NowConnected;
    var identified := sys.(link := Identify(sys.link, sys.systemId, component, sys.clock, first),
                           issued := sys.issued + {first});
    IdentifyKeeps(sys, component, first);
    ConnectedKeeps(identified, second);
    assert identified.issued + {second} == sys.issued + {first, second};
  }

  lemma KnownKeeps(sys: System, uuid: nat)
    requires Inv(sys)
    ensures Inv(sys.(link := sys.link.(uuid := uuid, uuidInitialized := true)))
  {
  }

  lemma ForgetRequestKeeps(sys: System)
    requires Inv(sys)
    ensures Inv(sys.(link := sys.link.(versionPending := false,
                                       timers := Removed(sys.link.timers, sys.link.versionCookie))))
  {
    assert HeartbeatTimers(Removed(sys.link.timers, sys.link.versionCookie)) == HeartbeatTimers(sys.link.timers);
  }

  lemma VersionKeeps(sys: System, component: nat, uid: nat, cookie: Cookie)
    requires Inv(sys) && cookie !in sys.issued
    ensures Inv(Step(sys, VersionArrives(component, uid, cookie)))
  {
    if component == AUTOPILOT {
      hide Inv, NowConnected, VersionUuid;
      var uuid := VersionUuid(sys.link, sys.systemId, uid);
      var known := sys.(link := sys.link.(uuid := uuid, uuidInitialized := true));
      KnownKeeps(sys, uuid);
      ConnectedKeeps(known, cookie);
      ForgetRequestKeeps(known.(link := NowConnected(known.link, sys.clock, cookie),
                                issued := sys.issued + {cookie}, lastAlive := sys.clock));
    }
  }

  lemma TakeOutKeeps(sys: System, due: Cookie, now: int)
    requires Inv(sys) && Enabled(sys, TakeOut(due, now))
    ensures Inv(Step(sys, TakeOut(due, now)))
  {
    var s := sys.link;
    assert HeartbeatTimers(Removed(s.timers, due)) == HeartbeatTimers(s.timers) - {due};
    assert s.timers[due].callback == HeartbeatTimeout ==> due in HeartbeatTimers(s.timers);
  }

  lemma OtherKeeps(sys: System, op: Op)
    requires Inv(sys) && OthersMay(sys, op)
    ensures Inv(Step(sys, Other(op)))
  {
    assert HeartbeatTimers(Apply(sys.link.timers, op)) == HeartbeatTimers(sys.link.timers);
  }

  lemma CallBackKeeps(sys: System)
    requires Inv(sys) && sys.calling.Some?
    ensures Inv(Step(sys, CallBack))
  {
  }

  lemma TickKeeps(sys: System, ns: nat)
    requires Inv(sys)
    ensures Inv(Step(sys, Tick(ns)))
  {
  }

  lemma StepKeepsInv(sys: System, e: Event)
    requires Inv(sys)
    ensures Inv(Step(sys, e))
  {
    hide Inv;
    if Enabled(sys, e) {
      match e {
        case Beat(component, first, second) => BeatKeeps(sys, component, first, second);
        case VersionArrives(component, uid, cookie) => VersionKeeps(sys, component, uid, cookie);
        case TakeOut(due, now) => TakeOutKeeps(sys, due, now);
        case CallBack => CallBackKeeps(sys);
        case Tick(ns) => TickKeeps(sys, ns);
        case Other(op) => OtherKeeps(sys, op);
      }
    }
  }

  lemma {:induction false} RunKeepsInv(systemId: nat, clock: int, events: seq<Event>)
    ensures Inv(Run(Start(systemId, clock), events))
  {
    if events != [] {
      var init := events[..|events| - 1];
      hide Inv, Step;
      RunKeepsInv(systemId, clock, init);
      StepKeepsInv(Run(Start(systemId, clock), init), events[|events| - 1]);
    }
  }

  // ---------------------------------------------------------------- what every run guarantees

  /** Discovery and loss alternate, discovery first, also when messages are handled between taking
      the heartbeat timer out and calling its handler. */
  lemma NoticesAlternate(systemId: nat, clock: int, events: seq<Event>)
    ensures Alternates(Run(Start(systemId, clock), events).link.notices)
  {
    RunKeepsInv(systemId, clock, events);
  }

  lemma StepCountsLosses(sys: System, e: Event)
    requires Inv(sys) && |sys.losses| == |sys.link.notices| / 2
    ensures |Step(sys, e).losses| == |Step(sys, e).link.notices| / 2
  {
    hide PunctualLosses, Alternates, HeartbeatTimers, OthersMay, Heartbeat, Version;
    var s := sys.link;
    if Enabled(sys, e) {
      match e {
        case Beat(component, first, second) => HeartbeatAnnounces(s, sys.systemId, component, sys.clock, first, second);
        case VersionArrives(component, uid, cookie) =>
          VersionAnnounces(s, sys.systemId, component, uid, sys.clock, cookie);
        case _ =>
      }
    }
  }

  lemma HeartbeatAnnounces(s: Link, systemId: nat, component: nat, at: int, first: Cookie, second: Cookie)
    requires NoticesAgree(s)
    ensures |Heartbeat(s, systemId, component, at, first, second).notices| / 2 == |s.notices| / 2
  {
  }

  lemma VersionAnnounces(s: Link, systemId: nat, component: nat, uid: nat, at: int, cookie: Cookie)
    requires NoticesAgree(s)
    ensures |Version(s, systemId, component, uid, at, cookie).notices| / 2 == |s.notices| / 2
  {
  }

  lemma {:induction false} EveryLossIsRecorded(systemId: nat, clock: int, events: seq<Event>)
    ensures var sys := Run(Start(systemId, clock), events);
            |sys.losses| == |sys.link.notices| / 2
  {
    if events != [] {
      hide Inv, Step;
      var init := events[..|events| - 1];
      EveryLossIsRecorded(systemId, clock, init);
      RunKeepsInv(systemId, clock, init);
      StepCountsLosses(Run(Start(systemId, clock), init), events[|events| - 1]);
    }
  }

  /** Every loss, that is every second notice, is reported only when more than three seconds lie
      between the last message that kept the connection alive, handled before the timer was taken out,
      and the pass's clock reading. */
  lemma LostOnlyAfterSilence(systemId: nat, clock: int, events: seq<Event>)
    ensures var sys := Run(Start(systemId, clock), events);
            && |sys.losses| == |sys.link.notices| / 2
            && forall i :: 0 <= i < |sys.losses| ==>
                 && sys.link.notices[2 * i + 1].Lost?
                 && sys.losses[i].now - sys.losses[i].aliveBefore > 3_000 * NS_PER_MS
  {
    hide Inv, Run;
    RunKeepsInv(systemId, clock, events);
    EveryLossIsRecorded(systemId, clock, events);
    LossesAreSilent(Run(Start(systemId, clock), events));
  }

  lemma LossesAreSilent(sys: System)
    requires Inv(sys) && |sys.losses| == |sys.link.notices| / 2
    ensures forall i :: 0 <= i < |sys.losses| ==>
              sys.link.notices[2 * i + 1].Lost? && sys.losses[i].now - sys.losses[i].aliveBefore > GRACE
  {
    hide TimerAgrees;
    forall i | 0 <= i < |sys.losses|
      ensures sys.link.notices[2 * i + 1].Lost?
    {
      assert (2 * i + 1) % 2 == 1;
    }
  }

  predicate Identified(link: Link) {
    && (link.uuidInitialized <==> link.uuid != 0)
    && (link.notices != [] ==> link.uuid != 0)
    && AllCarry(link.notices, link.uuid)
  }

  lemma ConnectedKeepsIdentity(s: Link, at: int, cookie: Cookie)
    requires Identified(s)
    ensures Identified(NowConnected(s, at, cookie)) && NowConnected(s, at, cookie).uuid == s.uuid
  {
  }

  lemma IdentifyKeepsIdentity(s: Link, systemId: nat, component: nat, at: int, cookie: Cookie)
    requires systemId != 0 && Identified(s)
    ensures Identified(Identify(s, systemId, component, at, cookie))
  {
  }

  lemma StepKeepsIdentity(sys: System, e: Event)
    requires sys.systemId != 0 && Inv(sys) && Identified(sys.link)
    ensures Identified(Step(sys, e).link) && Step(sys, e).systemId == sys.systemId
  {
    hide NowConnected, Identify;
    if Enabled(sys, e) {
      var s := sys.link;
      match e {
        case Beat(component, first, second) =>
          IdentifyKeepsIdentity(s, sys.systemId, component, sys.clock, first);
          ConnectedKeepsIdentity(Identify(s, sys.systemId, component, sys.clock, first), sys.clock, second);
        case VersionArrives(_, uid, cookie) =>
          var known := s.(uuid := VersionUuid(s, sys.systemId, uid), uuidInitialized := true);
          ConnectedKeepsIdentity(known, sys.clock, cookie);
        case _ =>
      }
    }
  }

  lemma {:induction false} IdentityIsStable(systemId: nat, clock: int, events: seq<Event>)
    requires systemId != 0
    ensures Identified(Run(Start(systemId, clock), events).link)
    ensures Run(Start(systemId, clock), events).systemId == systemId
  {
    if events != [] {
      IdentityIsStable(systemId, clock, events[..|events| - 1]);
      RunKeepsInv(systemId, clock, events[..|events| - 1]);
      StepKeepsIdentity(Run(Start(systemId, clock), events[..|events| - 1]), events[|events| - 1]);
    }
  }

  /** Every notification carries one and the same non-zero identity. */
  ghost predicate OneIdentity(notices: seq<Notice>) {
    exists uuid :: uuid != 0 && AllCarry(notices, uuid)
  }

  /** This holds in every run exactly if the system has a non-zero MAVLink id. */
  lemma OneIdentityIffSystemIdNonZero(systemId: nat, clock: int)
    ensures (forall events :: OneIdentity(Run(Start(systemId, clock), events).link.notices)) <==> systemId != 0
  {
    if systemId != 0 {
      forall events
        ensures OneIdentity(Run(Start(systemId, clock), events).link.notices)
      {
        IdentityIsStable(systemId, clock, events);
        var link := Run(Start(systemId, clock), events).link;
        assert AllCarry(link.notices, if link.uuid != 0 then link.uuid else 1);
      }
    } else {
      ZeroIdentityIsAnnounced(clock);
      var bad := [VersionArrives(AUTOPILOT, 0, 1)];
      assert Run(Start(systemId, clock), bad).link.notices[0].uuid == 0;
      assert !OneIdentity(Run(Start(systemId, clock), bad).link.notices);
    }
  }

  /** With id zero and no hardware identity, the system is announced under identity zero. */
  lemma ZeroIdentityIsAnnounced(clock: int)
    ensures Run(Start(0, clock), [VersionArrives(AUTOPILOT, 0, 1)]).link.notices == [Discovered(0)]
  {
    var e := VersionArrives(AUTOPILOT, 0, 1);
    assert [e][..0] == [];
    assert Run(Start(0, clock), [e]) == Step(Start(0, clock), e);
  }

  // ---------------------------------------------------------------- which identity it is

  /** Heartbeats of components that are no autopilot. */
  function OtherHeartbeats(systemId: nat, clock: int, events: seq<Event>): nat {
    if events == [] then 0
    else
      var init, e := events[..|events| - 1], events[|events| - 1];
      OtherHeartbeats(systemId, clock, init)
      + if e.Beat? && e.component != 1 && Enabled(Run(Start(systemId, clock), init), e) then 1 else 0
  }

  /** The identity the messages of a run establish, or zero: the first version message of the autopilot
      gives its hardware id, or the system id if that is zero; the tenth heartbeat of other components,
      if it comes before, gives the system id. */
  function Established(systemId: nat, clock: int, events: seq<Event>): nat {
    if events == [] then 0
    else
      var init, e := events[..|events| - 1], events[|events| - 1];
      var before := Established(systemId, clock, init);
      if before != 0 || !Enabled(Run(Start(systemId, clock), init), e) then before
      else if e.VersionArrives? && e.component == 1 then if e.uid != 0 then e.uid else systemId
      else if e.Beat? && e.component != 1 && OtherHeartbeats(systemId, clock, init) == 9 then systemId
      else 0
  }

  predicate Knows(link: Link, identity: nat, beats: nat) {
    && link.uuid == identity && (link.uuidInitialized <==> identity != 0)
    && (identity == 0 ==> link.nonAutopilotHeartbeats == beats < 10)
  }

  lemma KnowsMore(sys: System, e: Event, identity: nat, beats: nat)
    requires sys.systemId != 0 && Knows(sys.link, identity, beats) && Enabled(sys, e)
    ensures var other := e.Beat? && e.component != 1;
            var more := if identity != 0 then identity
                        else if e.VersionArrives? && e.component == 1 then if e.uid != 0 then e.uid else sys.systemId
                        else if other && beats == 9 then sys.systemId else 0;
            Knows(Step(sys, e).link, more, if other then beats + 1 else beats)
  {
    hide Added, Refreshed, Removed, Apply, Expired;
  }

  /** In every run of a system with an id, that is its identity, and every notification carries it. */
  lemma {:induction false} IdentityIsEstablished(systemId: nat, clock: int, events: seq<Event>)
    requires systemId != 0
    ensures var link, identity := Run(Start(systemId, clock), events).link, Established(systemId, clock, events);
            && (forall n :: n in link.notices ==> n.uuid == identity != 0)
            && Knows(link, identity, OtherHeartbeats(systemId, clock, events))
  {
    hide Step, Enabled;
    IdentityIsStable(systemId, clock, events);
    if events == [] {
      NothingKnown(systemId, clock);
    } else {
      var init, e := events[..|events| - 1], events[|events| - 1];
      IdentityIsEstablished(systemId, clock, init);
      IdentityIsStable(systemId, clock, init);
      var sys := Run(Start(systemId, clock), init);
      if Enabled(sys, e) {
        KnowsMore(sys, e, Established(systemId, clock, init), OtherHeartbeats(systemId, clock, init));
      } else {
        DisabledDoesNothing(sys, e);
      }
    }
  }

  lemma NothingKnown(systemId: nat, clock: int)
    ensures Knows(Start(systemId, clock).link, 0, 0)
  {
  }

  lemma DisabledDoesNothing(sys: System, e: Event)
    requires !Enabled(sys, e)
    ensures Step(sys, e) == sys
  {
  }

  // ---------------------------------------------------------------- what each event does

  /** A message that tells that the system is there. */
  predicate KeepsAlive(e: Event) {
    e.Beat? || (e.VersionArrives? && e.component == 1)
  }

  function OfHeartbeat(sys: System): bool {
    sys.calling.Some? && sys.calling.value.callback == HeartbeatTimeout
  }

  /** A system whose identity is known is connected by every such message, announced if it was not
      connected, and has three seconds until the next, unless its timeout is being handled. A system
      whose identity is not known is neither connected nor announced. */
  lemma MessageConnects(systemId: nat, clock: int, events: seq<Event>, e: Event)
    requires Enabled(Run(Start(systemId, clock), events), e) && KeepsAlive(e)
    ensures var sys := Run(Start(systemId, clock), events);
            var link, link' := sys.link, Step(sys, e).link;
            && (link.connected ==> link.uuidInitialized)
            && (link'.connected <==> link'.uuidInitialized)
            && link'.notices
               == link.notices + (if link'.connected && !link.connected then [Discovered(link'.uuid)] else [])
            && (link'.connected && !OfHeartbeat(sys) ==>
                  && link'.heartbeatCookie in link'.timers
                  && link'.timers[link'.heartbeatCookie].deadline == sys.clock + 3_000 * 1_000_000)
  {
    hide Run;
    RunKeepsInv(systemId, clock, events);
    ConnectedMeansKnown(systemId, clock, events);
    var sys := Run(Start(systemId, clock), events);
    HeartbeatTimerLives(sys);
    match e {
      case Beat(component, first, second) =>
        Identifies(sys.link, sys.systemId, component, sys.clock, first);
        Connects(Identify(sys.link, sys.systemId, component, sys.clock, first), sys.clock, second, OfHeartbeat(sys));
      case VersionArrives(component, uid, cookie) =>
        var known := sys.link.(uuid := VersionUuid(sys.link, sys.systemId, uid), uuidInitialized := true);
        Connects(known, sys.clock, cookie, OfHeartbeat(sys));
    }
  }

  /** The heartbeat timer of a connected system, unless it is just being called. */
  predicate TimerLives(link: Link, called: bool) {
    link.connected && !called ==>
      && link.heartbeatCookie in link.timers && link.timers[link.heartbeatCookie].durationMs == 3_000
      && link.heartbeatCookie != link.versionCookie
  }

  lemma HeartbeatTimerLives(sys: System)
    requires Inv(sys)
    ensures TimerLives(sys.link, OfHeartbeat(sys))
  {
    hide Alternates;
    var link := sys.link;
    if link.connected && !OfHeartbeat(sys) {
      assert link.heartbeatCookie in HeartbeatTimers(link.timers);
    }
  }

  lemma Identifies(s: Link, systemId: nat, component: nat, at: int, cookie: Cookie)
    requires s.connected ==> s.uuidInitialized
    ensures var s' := Identify(s, systemId, component, at, cookie);
            && s'.connected == s.connected && s'.notices == s.notices && (s.uuidInitialized ==> s'.uuidInitialized)
            && s'.heartbeatCookie == s.heartbeatCookie
            && (s.connected ==> s'.timers == s.timers && s'.versionCookie == s.versionCookie)
  {
  }

  lemma Connects(s: Link, at: int, cookie: Cookie, called: bool)
    requires (s.connected ==> s.uuidInitialized) && TimerLives(s, called) && cookie !in s.timers
    ensures var s' := NowConnected(s, at, cookie);
            && s'.uuidInitialized == s.uuidInitialized && (s'.connected <==> s'.uuidInitialized)
            && s'.notices == s.notices + (if s'.connected && !s.connected then [Discovered(s'.uuid)] else [])
            && (s'.connected && !called ==>
                  && s'.heartbeatCookie in s'.timers
                  && s'.timers[s'.heartbeatCookie].deadline == at + 3_000 * 1_000_000)
  {
  }

  lemma {:induction false} ConnectedMeansKnown(systemId: nat, clock: int, events: seq<Event>)
    ensures var link := Run(Start(systemId, clock), events).link; link.connected ==> link.uuidInitialized
  {
    if events != [] {
      var init := events[..|events| - 1];
      ConnectedMeansKnown(systemId, clock, init);
      hide Run, Added, Refreshed, Removed, Apply, Expired;
      assert Run(Start(systemId, clock), events) == Step(Run(Start(systemId, clock), init), events[|events| - 1]);
    }
  }

  /** A heartbeat of an autopilot whose identity is not known asks for it, and the answer is pending for
      half a second. */
  lemma HeartbeatAsks(systemId: nat, clock: int, events: seq<Event>, first: Cookie, second: Cookie)
    requires var sys := Run(Start(systemId, clock), events);
             Enabled(sys, Beat(1, first, second)) && !sys.link.uuidInitialized
    ensures var sys := Run(Start(systemId, clock), events);
            var link' := Step(sys, Beat(1, first, second)).link;
            && link'.versionPending && link'.versionRequests == sys.link.versionRequests + 1
            && link'.versionCookie == first && first in link'.timers
            && link'.timers[first] == Timeout(VersionTimeout, sys.clock + 500 * 1_000_000, 500)
  {
    hide Run, NoticesAgree, PunctualLosses;
    RunKeepsInv(systemId, clock, events);
    ConnectedMeansKnown(systemId, clock, events);
  }

  /** A version message of the autopilot settles it. */
  lemma VersionSettles(sys: System, uid: nat, cookie: Cookie)
    requires Enabled(sys, VersionArrives(1, uid, cookie))
    ensures var link' := Step(sys, VersionArrives(1, uid, cookie)).link;
            !link'.versionPending && link'.versionCookie !in link'.timers && link'.uuidInitialized
  {
    hide VersionUuid;
  }

  /** Calling the heartbeat timer's handler disconnects the system and says so; calling the other's ends
      the wait for a version. */
  lemma CallBackDisconnects(sys: System)
    requires Enabled(sys, CallBack)
    ensures var link, link' := sys.link, Step(sys, CallBack).link;
            match sys.calling.value.callback
            case HeartbeatTimeout =>
              link' == link.(connected := false, notices := link.notices + [Lost(link.uuid)])
            case VersionTimeout => link' == link.(versionPending := false)
            case _ => link' == link
  {
  }

  /** Time, other users of the table, taking a timer out and the messages of other components' versions
      leave the system as it is. */
  lemma OthersLeaveTheSystem(sys: System, e: Event)
    requires Enabled(sys, e) && !KeepsAlive(e) && !e.CallBack?
    ensures Step(sys, e).link == sys.link.(timers := Step(sys, e).link.timers)
  {
  }

  // ---------------------------------------------------------------- what a run does to the table

  function ConnectOps(s: Link, at: int, cookie: Cookie): seq<Op> {
    if !s.connected && s.uuidInitialized then [Add(cookie, HeartbeatTimeout, HEARTBEAT_TIMEOUT_MS, at)]
    else if s.connected then [Op.Refresh(s.heartbeatCookie, at)]
    else []
  }

  function RequestOps(s: Link, component: nat, at: int, cookie: Cookie): seq<Op> {
    if component == AUTOPILOT && !HaveUuid(s) && !s.uuidInitialized
    then [Add(cookie, VersionTimeout, VERSION_TIMEOUT_MS, at)] else []
  }

  /** The calls on the table that a handler makes. */
  function OpsOf(sys: System, e: Event): seq<Op> {
    var s := sys.link;
    match e
    case Beat(component, first, second) =>
      RequestOps(s, component, sys.clock, first)
      + ConnectOps(Identify(s, sys.systemId, component, sys.clock, first), sys.clock, second)
    case VersionArrives(component, uid, cookie) =>
      if component != AUTOPILOT then []
      else ConnectOps(s.(uuidInitialized := true), sys.clock, cookie) + [Remove(s.versionCookie)]
    case Other(op) => [op]
    case _ => []
  }

  function EffectOf(sys: System, e: Event): Effect {
    if !Enabled(sys, e) then Uses([])
    else if e.TakeOut? then Fires(e.due, [])
    else Uses(OpsOf(sys, e))
  }

  lemma ConnectIsOps(s: Link, at: int, cookie: Cookie)
    ensures NowConnected(s, at, cookie).timers == ApplyAll(s.timers, ConnectOps(s, at, cookie))
  {
    NoOps(s.timers);
    if ConnectOps(s, at, cookie) != [] {
      OneOp(s.timers, ConnectOps(s, at, cookie)[0]);
    }
  }

  lemma IdentifyIsOps(s: Link, systemId: nat, component: nat, at: int, cookie: Cookie)
    ensures Identify(s, systemId, component, at, cookie).timers
         == ApplyAll(s.timers, RequestOps(s, component, at, cookie))
  {
    NoOps(s.timers);
    OneOp(s.timers, Add(cookie, VersionTimeout, VERSION_TIMEOUT_MS, at));
  }

  lemma StepIsAnEffect(sys: System, e: Event)
    ensures Step(sys, e).link.timers == After(sys.link.timers, EffectOf(sys, e))
  {
    var s := sys.link;
    NoOps(s.timers);
    if Enabled(sys, e) {
      match e {
        case Beat(component, first, second) =>
          hide ApplyAll, Identify, NowConnected, RequestOps, ConnectOps;
          var identified := Identify(s, sys.systemId, component, sys.clock, first);
          IdentifyIsOps(s, sys.systemId, component, sys.clock, first);
          ConnectIsOps(identified, sys.clock, second);
          ApplyAllAppends(s.timers, RequestOps(s, component, sys.clock, first),
                          ConnectOps(identified, sys.clock, second));
        case VersionArrives(component, uid, cookie) =>
          var known := s.(uuid := VersionUuid(s, sys.systemId, uid), uuidInitialized := true);
          ConnectIsOps(known, sys.clock, cookie);
          var connected := NowConnected(known, sys.clock, cookie);
          OneOp(connected.timers, Remove(s.versionCookie));
          ApplyAllAppends(s.timers, ConnectOps(known, sys.clock, cookie), [Remove(s.versionCookie)]);
        case Other(op) => OneOp(s.timers, op);
        case TakeOut(due, now) => NoOps(Removed(s.timers, due));
        case CallBack =>
        case Tick(_) =>
      }
    }
  }
}
