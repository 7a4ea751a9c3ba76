/** The connection life cycle of core/system_impl.cpp: heartbeats, the identity of the system, and
    the notifications that it was discovered or lost. */
module Connection {
  import opened Timers
  import Commands

  const AUTOPILOT := 1
  const HEARTBEATS_WITHOUT_UUID := 10
  const HEARTBEAT_TIMEOUT_MS := 3_000
  const VERSION_TIMEOUT_MS := 500
  /** MAV_CMD_REQUEST_AUTOPILOT_CAPABILITIES. */
  const VERSION_COMMAND := 520

  datatype Notice = Discovered(uuid: nat) | Lost(uuid: nat)

  datatype Link = Link(
    connected: bool,
    uuid: nat,
    uuidInitialized: bool,
    nonAutopilotHeartbeats: nat,
    versionPending: bool,
    versionRequests: nat,
    heartbeatCookie: Cookie,
    versionCookie: Cookie,
    timers: Table,
    notices: seq<Notice>)

  const FRESH := Link(false, 0, false, 0, false, 0, NULL_COOKIE, NULL_COOKIE, map[], [])

  predicate HaveUuid(s: Link) {
    s.uuid != 0 && s.uuidInitialized
  }

  // ---------------------------------------------------------------- handlers as steps

  function NowConnected(s: Link, at: int, cookie: Cookie): Link {
    if !s.connected && s.uuidInitialized then
      s.(connected := true, notices := s.notices + [Discovered(s.uuid)], heartbeatCookie := cookie,
         timers := Added(s.timers, cookie, HeartbeatTimeout, HEARTBEAT_TIMEOUT_MS, at))
    else if s.connected then s.(timers := Refreshed(s.timers, s.heartbeatCookie, at))
    else s
  }

  function NowDisconnected(s: Link): Link {
    s.(connected := false, notices := s.notices + [Lost(s.uuid)])
  }

  function RequestVersion(s: Link, at: int, cookie: Cookie): Link {
    if s.uuidInitialized then s
    else s.(versionPending := true, versionRequests := s.versionRequests + 1, versionCookie := cookie,
            timers := Added(s.timers, cookie, VersionTimeout, VERSION_TIMEOUT_MS, at))
  }

  /** What a request for the identity, if one goes out, queues with the command service. */
  function WithRequest(c: Commands.Service, requests: bool): Commands.Service {
    if requests then Commands.Submit(c, VERSION_COMMAND) else c
  }

  predicate RequestsOn(s: Link, component: nat) {
    component == AUTOPILOT && !HaveUuid(s) && !s.uuidInitialized
  }

  /** The first half of handling a heartbeat: finding out who the system is. `systemId` is the
      sender of every message of this system. The counter has eight bits. */
  function Identify(s: Link, systemId: nat, component: nat, at: int, cookie: Cookie): Link {
    if component == AUTOPILOT && !HaveUuid(s) then RequestVersion(s, at, cookie)
    else if component != AUTOPILOT && !HaveUuid(s) then
      var counted := s.(nonAutopilotHeartbeats := (s.nonAutopilotHeartbeats + 1) % 0x100);
      if counted.nonAutopilotHeartbeats >= HEARTBEATS_WITHOUT_UUID
      then counted.(uuid := systemId, uuidInitialized := true)
      else counted
    else s
  }

  function Heartbeat(s: Link, systemId: nat, component: nat, at: int, first: Cookie, second: Cookie): Link {
    NowConnected(Identify(s, systemId, component, at, first), at, second)
  }

  function VersionUuid(s: Link, systemId: nat, uid: nat): nat {
    if s.uuid != 0 then s.uuid else if uid != 0 then uid else systemId
  }

  function Version(s: Link, systemId: nat, component: nat, uid: nat, at: int, cookie: Cookie): Link {
    if component != AUTOPILOT then s
    else
      var known := s.(uuid := VersionUuid(s, systemId, uid), uuidInitialized := true);
      var connected := NowConnected(known, at, cookie);
      connected.(versionPending := false, timers := Removed(connected.timers, connected.versionCookie))
  }

  // ---------------------------------------------------------------- the object

  class SystemImpl {
    const systemId: nat
    var connected: bool
    var uuid: nat
    var uuidInitialized: bool
    var nonAutopilotHeartbeats: nat
    var autopilotVersionPending: bool
    var versionRequests: nat
    var heartbeatTimeoutCookie: Cookie
    var autopilotVersionTimedOutCookie: Cookie
    const timeouts: TimeoutHandler
    const commands: Commands.MavlinkCommands
    ghost var notices: seq<Notice>

    constructor (systemId: nat, timeouts: TimeoutHandler, commands: Commands.MavlinkCommands)
      ensures this.systemId == systemId && this.timeouts == timeouts && this.commands == commands
      ensures View() == FRESH.(timers := timeouts.timeouts)
    {
      this.systemId := systemId;
      connected, uuid, uuidInitialized, nonAutopilotHeartbeats := false, 0, false, 0;
      autopilotVersionPending, versionRequests := false, 0;
      heartbeatTimeoutCookie, autopilotVersionTimedOutCookie := NULL_COOKIE, NULL_COOKIE;
      this.timeouts, this.commands := timeouts, commands;
      notices := [];
    }

    ghost function View(): Link
      reads this, timeouts
    {
      Link(connected, uuid, uuidInitialized, nonAutopilotHeartbeats, autopilotVersionPending, versionRequests,
           heartbeatTimeoutCookie, autopilotVersionTimedOutCookie, timeouts.timeouts, notices)
    }

    method ProcessHeartbeat(component: nat, clock: int, first: Cookie, second: Cookie)
      requires commands.timeouts == timeouts && commands.Ready()
      modifies this, timeouts, commands, commands.workQueue
      ensures View() == Heartbeat(old(View()), systemId, component, clock, first, second)
      ensures commands.Ready() && commands.View()
           == WithRequest(old(commands.View()), RequestsOn(old(View()), component)).(timers := timeouts.timeouts)
    {
      var haveUuid := uuid != 0 && uuidInitialized;
      if component == AUTOPILOT && !haveUuid {
        RequestAutopilotVersion(clock, first);
      } else if component != AUTOPILOT && !haveUuid {
        nonAutopilotHeartbeats := (nonAutopilotHeartbeats + 1) % 0x100;
        if nonAutopilotHeartbeats >= HEARTBEATS_WITHOUT_UUID {
          uuid := systemId;
          uuidInitialized := true;
        }
      }
      SetConnected(clock, second);
    }

    method RequestAutopilotVersion(clock: int, cookie: Cookie)
      requires commands.timeouts == timeouts && commands.Ready()
      modifies this, timeouts, commands, commands.workQueue
      ensures View() == RequestVersion(old(View()), clock, cookie)
      ensures commands.Ready() && commands.View()
           == WithRequest(old(commands.View()), !old(uuidInitialized)).(timers := timeouts.timeouts)
    {
      if uuidInitialized {
        return;
      }
      autopilotVersionPending := true;
      versionRequests := versionRequests + 1;
      commands.QueueCommandAsync(VERSION_COMMAND);
      autopilotVersionTimedOutCookie := timeouts.Add(VersionTimeout, VERSION_TIMEOUT_MS, clock, cookie);
    }

    method ProcessAutopilotVersion(component: nat, uid: nat, clock: int, cookie: Cookie)
      modifies this, timeouts
      ensures View() == Version(old(View()), systemId, component, uid, clock, cookie)
    {
      if component != AUTOPILOT {
        return;
      }
      if uuid == 0 && uid != 0 {
        uuid := uid;
      } else if uuid == 0 && uid == 0 {
        uuid := systemId;
      }
      uuidInitialized := true;
      SetConnected(clock, cookie);
      autopilotVersionPending := false;
      timeouts.Remove(autopilotVersionTimedOutCookie);
    }

    method SetConnected(clock: int, cookie: Cookie)
      modifies this, timeouts
      ensures View() == NowConnected(old(View()), clock, cookie)
    {
      if !connected && uuidInitialized {
        notices := notices + [Discovered(uuid)];
        connected := true;
        heartbeatTimeoutCookie := timeouts.Add(HeartbeatTimeout, HEARTBEAT_TIMEOUT_MS, clock, cookie);
      } else if connected {
        timeouts.Refresh(heartbeatTimeoutCookie, clock);
      }
    }

    method HeartbeatsTimedOut()
      modifies this
      ensures View() == NowDisconnected(old(View()))
    {
      connected := false;
      notices := notices + [Lost(uuid)];
    }
  }
}
