/** Whole runs of the command service: any interleaving of its handlers, the expiry of timers, the
    passing of time, and other users of the timer table. */
module CommandRuns {
  import opened Timers
  import opened TimerTraces
  import opened Commands

  /** `issued` are the cookies handed out so far; an address is not handed out twice. */
  datatype System = System(service: Service, clock: int, issued: set<Cookie>)

  datatype Event =
    | Submission(command: nat)
    | Attend(sent: bool, cookie: Cookie)
    | Ack(command: nat, result: AckResult, cookie: Cookie)
    | Fire(due: Cookie, sent: bool, cookie: Cookie)
    | Tick(ns: nat)
    | Other(op: Op)

  function CommandTimers(t: Table): set<Cookie> {
    set c | c in t && t[c].callback == CommandTimeout
  }

  /** Other users of the table register their own callbacks and use only their own cookies. */
  predicate OthersMay(sys: System, op: Op) {
    match op
    case Add(cookie, callback, _, clock) =>
      cookie !in sys.issued && callback != CommandTimeout && clock == sys.clock
    case Refresh(cookie, clock) => cookie !in CommandTimers(sys.service.timers) && clock == sys.clock
    case Remove(cookie) => cookie !in CommandTimers(sys.service.timers)
  }

  predicate Enabled(sys: System, e: Event) {
    match e
    case Submission(_) => true
    case Attend(_, cookie) => cookie !in sys.issued
    case Ack(_, _, cookie) => cookie !in sys.issued
    case Fire(due, _, cookie) => cookie !in sys.issued && due in Expired(sys.service.timers, sys.clock)
    case Tick(_) => true
    case Other(op) => OthersMay(sys, op)
  }

  /** Events that are not enabled do nothing, so every sequence of events is a run. */
  function Step(sys: System, e: Event): System {
    var s := sys.service;
    if !Enabled(sys, e) then sys
    else match e
      case Submission(command) => sys.(service := Submit(s, command))
      case Attend(sent, cookie) =>
        System(StartNext(s, sys.clock, sent, cookie), sys.clock, sys.issued + {cookie})
      case Ack(command, result, cookie) =>
        System(Acknowledge(s, sys.clock, command, result, cookie), sys.clock, sys.issued + {cookie})
      case Fire(due, sent, cookie) =>
        var taken := s.(timers := Removed(s.timers, due));
        if s.timers[due].callback == CommandTimeout then
          System(Expire(taken, sys.clock, sent, cookie), sys.clock, sys.issued + {cookie})
        else sys.(service := taken)
      case Tick(ns) => sys.(clock := sys.clock + ns)
      case Other(op) =>
        System(s.(timers := Apply(s.timers, op)), sys.clock,
               if op.Add? then sys.issued + {op.cookie} else sys.issued)
  }

  function Run(sys: System, events: seq<Event>): System {
    if events == [] then sys
    else Step(Run(sys, events[..|events| - 1]), events[|events| - 1])
  }

  function Start(clock: int): System {
    System(Commands.FRESH, clock, {NULL_COOKIE})
  }

  // ---------------------------------------------------------------- reading a history

  function Finished(tr: seq<Output>): nat {
    if tr == [] then 0
    else Finished(tr[..|tr| - 1]) + (if tr[|tr| - 1].Finish? then 1 else 0)
  }

  predicate Sends(o: Output, id: nat) {
    o.Transmit? && o.id == id
  }

  function Transmits(tr: seq<Output>, id: nat): nat {
    if tr == [] then 0
    else Transmits(tr[..|tr| - 1], id) + (if Sends(tr[|tr| - 1], id) then 1 else 0)
  }

  predicate AllSent(tr: seq<Output>, id: nat) {
    forall i :: 0 <= i < |tr| && Sends(tr[i], id) ==> tr[i].ok
  }

  /** When the first attempt to send was made; 0 if there was none. */
  function FirstSent(tr: seq<Output>, id: nat): int {
    if tr == [] then 0
    else if Transmits(tr[..|tr| - 1], id) > 0 || !Sends(tr[|tr| - 1], id) then FirstSent(tr[..|tr| - 1], id)
    else tr[|tr| - 1].at
  }

  const TRIES := RETRIES + 1
  const TIMEOUT_NS := TIMEOUT_MS * NS_PER_MS

  /** What may happen next: only the oldest unfinished command is sent or finished; it is sent at
      most four times and never again after a failure to send; it times out only after four
      successful sends, more than two seconds after the first. */
  predicate LegalNext(tr: seq<Output>, o: Output) {
    && o.id == Finished(tr)
    && match o
       case Transmit(id, _, _) => Transmits(tr, id) < TRIES && AllSent(tr, id)
       case Finish(id, TimedOut, at) =>
         Transmits(tr, id) == TRIES && AllSent(tr, id) && at > FirstSent(tr, id) + TRIES * TIMEOUT_NS
       case Finish(id, ConnectionError, at) => !AllSent(tr, id)
       case _ => true
  }

  predicate Legal(tr: seq<Output>) {
    tr == [] || (Legal(tr[..|tr| - 1]) && LegalNext(tr[..|tr| - 1], tr[|tr| - 1]))
  }

  lemma Extend(tr: seq<Output>, o: Output, id: nat)
    ensures Finished(tr + [o]) == Finished(tr) + (if o.Finish? then 1 else 0)
    ensures Transmits(tr + [o], id) == Transmits(tr, id) + (if Sends(o, id) then 1 else 0)
    ensures AllSent(tr + [o], id) == (AllSent(tr, id) && (Sends(o, id) ==> o.ok))
    ensures FirstSent(tr + [o], id)
         == (if Transmits(tr, id) > 0 || !Sends(o, id) then FirstSent(tr, id) else o.at)
    ensures Legal(tr) && LegalNext(tr, o) ==> Legal(tr + [o])
  {
    var longer := tr + [o];
    assert longer[..|longer| - 1] == tr;
    assert longer[|tr|] == o;
    assert forall i :: 0 <= i < |tr| ==> longer[i] == tr[i];
  }

  /** Commands after the oldest unfinished one have not been sent. */
  lemma {:induction false} LaterUnsent(tr: seq<Output>, id: nat)
    requires Legal(tr) && id >= Finished(tr)
    ensures id > Finished(tr) || (tr != [] && tr[|tr| - 1].Finish?) ==> Transmits(tr, id) == 0 && AllSent(tr, id)
  {
    if tr != [] {
      LaterUnsent(tr[..|tr| - 1], id);
      Extend(tr[..|tr| - 1], tr[|tr| - 1], id);
      assert tr == tr[..|tr| - 1] + [tr[|tr| - 1]];
    }
  }

  // ---------------------------------------------------------------- the invariant

  /** State, queue and timers agree (core/mavlink_commands.cpp:233-241 doubts the first line). */
  predicate Consistent(s: Service) {
    && (s.phase != Idle ==> s.queue != [])
    && match s.phase
       case Idle => CommandTimers(s.timers) == {}
       case Waiting => CommandTimers(s.timers) == {s.cookie}
       case InProgress => CommandTimers(s.timers) <= {s.cookie}
  }

  /** The queue holds the unfinished commands in order; only the front may have used retries. */
  predicate InOrder(s: Service) {
    && Finished(s.trace) + |s.queue| == |s.submitted|
    && forall i :: 0 <= i < |s.queue| ==>
         && s.queue[i].id == Finished(s.trace) + i
         && s.queue[i].command == s.submitted[s.queue[i].id]
         && s.queue[i].timeoutMs == TIMEOUT_MS
         && s.queue[i].retriesToDo <= RETRIES
         && (i > 0 || s.phase == Idle ==> s.queue[i].retriesToDo == RETRIES)
  }

  /** While waiting, the front has been sent once more than it has used retries, and the live timer
      is due no earlier than that many timeouts after the first transmission. */
  predicate OnSchedule(s: Service) {
    && Legal(s.trace)
    && (s.phase == Idle ==> Transmits(s.trace, Finished(s.trace)) == 0)
    && AllSent(s.trace, Finished(s.trace))
    && (s.phase == Waiting && s.queue != [] && s.cookie in s.timers && s.queue[0].retriesToDo <= RETRIES ==>
          var id, tries := Finished(s.trace), TRIES - s.queue[0].retriesToDo;
          && Transmits(s.trace, id) == tries
          && s.timers[s.cookie].deadline >= FirstSent(s.trace, id) + tries * TIMEOUT_NS)
  }

  function Keys(s: Service): set<Cookie> {
    s.timers.Keys + {s.cookie}
  }

  predicate Inv(sys: System) {
    Keys(sys.service) <= sys.issued && Consistent(sys.service) && InOrder(sys.service) && OnSchedule(sys.service)
  }

  lemma StartNextKeeps(s: Service, at: int, sent: bool, cookie: Cookie)
    requires Consistent(s) && InOrder(s) && OnSchedule(s)
    requires cookie !in s.timers
    ensures var s' := StartNext(s, at, sent, cookie); Consistent(s') && InOrder(s') && OnSchedule(s')
    ensures Keys(StartNext(s, at, sent, cookie)) <= Keys(s) + {cookie}
  {
    hide Finished, Transmits, FirstSent, AllSent, Legal;
    if s.queue != [] && s.phase == Idle {
      var tried := Attempt(s, s.queue[0].id, sent, at);
      Extend(s.trace, Transmit(s.queue[0].id, sent, at), s.queue[0].id);
      if !sent {
        CompleteKeeps(tried, ConnectionError, at);
      } else {
        var s' := StartNext(s, at, sent, cookie);
        assert CommandTimers(s'.timers) == {cookie};
        assert s'.timers[s'.cookie].deadline == at + TIMEOUT_NS;
      }
    }
  }

  lemma CompleteKeeps(s: Service, outcome: Outcome, at: int)
    requires s.queue != [] && CommandTimers(s.timers) == {}
    requires InOrder(s) && Legal(s.trace)
    requires LegalNext(s.trace, Finish(s.queue[0].id, outcome, at))
    ensures var s' := Complete(s, outcome, at); Consistent(s') && InOrder(s') && OnSchedule(s')
  {
    hide Finished, Transmits, FirstSent, AllSent, Legal;
    var s' := Complete(s, outcome, at);
    Extend(s.trace, Finish(s.queue[0].id, outcome, at), s.queue[0].id);
    LaterUnsent(s'.trace, Finished(s'.trace));
  }

  lemma AcknowledgeKeeps(s: Service, at: int, command: nat, result: AckResult, cookie: Cookie)
    requires Consistent(s) && InOrder(s) && OnSchedule(s)
    requires cookie !in s.timers
    ensures var s' := Acknowledge(s, at, command, result, cookie);
            Consistent(s') && InOrder(s') && OnSchedule(s')
    ensures Keys(Acknowledge(s, at, command, result, cookie)) <= Keys(s) + {cookie}
  {
    hide Finished, Transmits, FirstSent, AllSent, Legal;
    if s.queue != [] && s.queue[0].command == command && result != Unknown && result != Progressing {
      CompleteKeeps(Disarmed(s), FinalOutcome(result), at);
    }
  }

  lemma RetransmitKeeps(s: Service, taken: Service, at: int, sent: bool, cookie: Cookie)
    requires Consistent(s) && InOrder(s) && OnSchedule(s)
    requires s.phase == Waiting && s.queue[0].retriesToDo > 0 && s.timers[s.cookie].deadline < at
    requires taken == s.(timers := taken.timers) && CommandTimers(taken.timers) == {}
    requires cookie !in taken.timers
    ensures var s' := Expire(taken, at, sent, cookie); Consistent(s') && InOrder(s') && OnSchedule(s')
  {
    hide Finished, Transmits, FirstSent, AllSent, Legal;
    assert s.cookie in CommandTimers(s.timers);
    var work := s.queue[0];
    Extend(s.trace, Transmit(work.id, sent, at), work.id);
    if !sent {
      CompleteKeeps(Attempt(taken, work.id, sent, at), ConnectionError, at);
    } else {
      var s' := Expire(taken, at, sent, cookie);
      assert CommandTimers(s'.timers) == {cookie};
      assert s'.timers[s'.cookie].deadline == at + TIMEOUT_NS;
    }
  }

  /** `due` was the live timer of the waiting service and has just left the table. */
  lemma ExpireKeeps(s: Service, due: Cookie, at: int, sent: bool, cookie: Cookie)
    requires Consistent(s) && InOrder(s) && OnSchedule(s)
    requires due in CommandTimers(s.timers) && s.timers[due].deadline < at
    requires cookie !in s.timers
    ensures var s' := Expire(s.(timers := Removed(s.timers, due)), at, sent, cookie);
            Consistent(s') && InOrder(s') && OnSchedule(s')
    ensures Keys(Expire(s.(timers := Removed(s.timers, due)), at, sent, cookie)) <= Keys(s) + {cookie}
  {
    hide Finished, Transmits, FirstSent, AllSent, Legal;
    assert due == s.cookie;
    var taken := s.(timers := Removed(s.timers, due));
    assert CommandTimers(taken.timers) == {};
    if s.phase == Waiting {
      if s.queue[0].retriesToDo > 0 {
        RetransmitKeeps(s, taken, at, sent, cookie);
      } else {
        CompleteKeeps(taken, TimedOut, at);
      }
    }
  }

  lemma SubmitKeeps(s: Service, command: nat)
    requires Consistent(s) && InOrder(s) && OnSchedule(s)
    ensures var s' := Submit(s, command); Consistent(s') && InOrder(s') && OnSchedule(s')
  {
    hide Finished, Transmits, FirstSent, AllSent, Legal;
    var s' := Submit(s, command);
    assert forall i :: 0 <= i < |s.queue| ==> s'.queue[i] == s.queue[i];
  }

  lemma OtherKeeps(sys: System, op: Op)
    requires Inv(sys) && OthersMay(sys, op)
    ensures var s' := sys.service.(timers := Apply(sys.service.timers, op));
            && Consistent(s') && InOrder(s') && OnSchedule(s')
            && Keys(s') <= Keys(sys.service) + (if op.Add? then {op.cookie} else {})
  {
    hide Finished, Transmits, FirstSent, AllSent, Legal;
    var s := sys.service;
    assert CommandTimers(Apply(s.timers, op)) == CommandTimers(s.timers);
    assert s.cookie in CommandTimers(s.timers) ==> Apply(s.timers, op)[s.cookie] == s.timers[s.cookie];
  }

  lemma StepKeepsInv(sys: System, e: Event)
    requires Inv(sys)
    ensures Inv(Step(sys, e))
  {
    hide Consistent, InOrder, OnSchedule, StartNext, Acknowledge, Expire;
    if Enabled(sys, e) {
      var s := sys.service;
      match e {
        case Submission(command) => SubmitKeeps(s, command);
        case Attend(sent, cookie) => StartNextKeeps(s, sys.clock, sent, cookie);
        case Ack(command, result, cookie) => AcknowledgeKeeps(s, sys.clock, command, result, cookie);
        case Fire(due, sent, cookie) =>
          if s.timers[due].callback == CommandTimeout {
            ExpireKeeps(s, due, sys.clock, sent, cookie);
          } else {
            OtherKeeps(sys, Remove(due));
          }
        case Tick(ns) =>
        case Other(op) => OtherKeeps(sys, op);
      }
    }
  }

  lemma {:induction false} RunKeepsInv(clock: int, events: seq<Event>)
    ensures Inv(Run(Start(clock), events))
  {
    if events != [] {
      RunKeepsInv(clock, events[..|events| - 1]);
      StepKeepsInv(Run(Start(clock), events[..|events| - 1]), events[|events| - 1]);
    }
  }

  // ---------------------------------------------------------------- what every run guarantees

  lemma StateAndTimersAgree(clock: int, events: seq<Event>)
    ensures var s := Run(Start(clock), events).service;
            && (s.phase != Idle ==> s.queue != [])
            && (s.phase == Idle ==> CommandTimers(s.timers) == {})
            && (s.phase == Waiting ==> CommandTimers(s.timers) == {s.cookie})
            && (s.phase == InProgress ==> CommandTimers(s.timers) <= {s.cookie})
  {
    hide Run, Step, InOrder, OnSchedule, Finished;
    RunKeepsInv(clock, events);
  }

  /** The identities of the finished commands, in the order their results were handed out. */
  function FinishIds(tr: seq<Output>): seq<nat> {
    if tr == [] then []
    else FinishIds(tr[..|tr| - 1]) + (if tr[|tr| - 1].Finish? then [tr[|tr| - 1].id] else [])
  }

  function UpTo(n: nat): seq<nat> {
    seq(n, i => i)
  }

  lemma {:induction false} FinishedInOrder(tr: seq<Output>)
    requires Legal(tr)
    ensures FinishIds(tr) == UpTo(Finished(tr))
  {
    if tr != [] {
      FinishedInOrder(tr[..|tr| - 1]);
    }
  }

  lemma {:induction false} LegalAt(tr: seq<Output>, p: nat)
    requires Legal(tr) && p < |tr|
    ensures Legal(tr[..p]) && LegalNext(tr[..p], tr[p])
  {
    var init := tr[..|tr| - 1];
    if p < |init| {
      LegalAt(init, p);
      assert init[..p] == tr[..p];
    }
  }

  /** Once a command has its result, nothing about its transmissions changes. */
  lemma {:induction false} SettledOnceFinished(tr: seq<Output>, p: nat, id: nat)
    requires Legal(tr) && p <= |tr| && Finished(tr[..p]) > id
    ensures Finished(tr) > id
    ensures Transmits(tr, id) == Transmits(tr[..p], id)
    ensures AllSent(tr, id) == AllSent(tr[..p], id) && FirstSent(tr, id) == FirstSent(tr[..p], id)
  {
    if p == |tr| {
      assert tr[..p] == tr;
    } else {
      var init := tr[..|tr| - 1];
      assert init[..p] == tr[..p];
      SettledOnceFinished(init, p, id);
      Extend(init, tr[|tr| - 1], id);
      assert tr == init + [tr[|tr| - 1]];
    }
  }

  lemma {:induction false} AtMostFour(tr: seq<Output>, id: nat)
    requires Legal(tr)
    ensures Transmits(tr, id) <= TRIES
  {
    if tr != [] {
      AtMostFour(tr[..|tr| - 1], id);
    }
  }

  function Ids(queue: seq<Work>): seq<nat> {
    seq(|queue|, i requires 0 <= i < |queue| => queue[i].id)
  }

  function Names(queue: seq<Work>): seq<nat> {
    seq(|queue|, i requires 0 <= i < |queue| => queue[i].command)
  }

  lemma QueueFollows(s: Service)
    requires InOrder(s)
    ensures UpTo(Finished(s.trace)) + Ids(s.queue) == UpTo(|s.submitted|)
    ensures Finished(s.trace) <= |s.submitted| && Names(s.queue) == s.submitted[Finished(s.trace)..]
  {
    hide Finished;
  }

  /** Results come out in the order of submission, one each: what has finished followed by what is
      queued is what was submitted. */
  lemma CompletedThenQueuedIsSubmitted(clock: int, events: seq<Event>)
    ensures var s := Run(Start(clock), events).service;
            && FinishIds(s.trace) + Ids(s.queue) == UpTo(|s.submitted|)
            && |FinishIds(s.trace)| <= |s.submitted|
            && Names(s.queue) == s.submitted[|FinishIds(s.trace)|..]
  {
    hide Run, Finished, FinishIds, InOrder, Ids, Names;
    RunKeepsInv(clock, events);
    QueueFollows(Run(Start(clock), events).service);
    FinishedInOrder(Run(Start(clock), events).service.trace);
  }

  /** A command is sent, and its result given, only when exactly its predecessors have results. */
  lemma OneInFlight(clock: int, events: seq<Event>, p: nat)
    requires p < |Run(Start(clock), events).service.trace|
    ensures var tr := Run(Start(clock), events).service.trace;
            FinishIds(tr[..p]) == UpTo(tr[p].id)
  {
    hide Run, Finished, FinishIds, Consistent, InOrder;
    RunKeepsInv(clock, events);
    var tr := Run(Start(clock), events).service.trace;
    LegalAt(tr, p);
    FinishedInOrder(tr[..p]);
  }

  lemma NeverMoreThanFourSends(clock: int, events: seq<Event>, id: nat)
    ensures Transmits(Run(Start(clock), events).service.trace, id) <= 4
  {
    hide Run, Transmits, Consistent, InOrder;
    RunKeepsInv(clock, events);
    AtMostFour(Run(Start(clock), events).service.trace, id);
  }

  /** A command reported as timed out was sent exactly four times, each send succeeded, and the
      report came strictly more than two seconds after the first. */
  lemma TimedOutMeansFourSends(clock: int, events: seq<Event>, p: nat)
    requires var tr := Run(Start(clock), events).service.trace;
             p < |tr| && tr[p].Finish? && tr[p].outcome == TimedOut
    ensures var tr := Run(Start(clock), events).service.trace;
            && Transmits(tr, tr[p].id) == 4 && AllSent(tr, tr[p].id)
            && tr[p].at - FirstSent(tr, tr[p].id) > 2_000 * NS_PER_MS
  {
    hide Run, Finished, Transmits, FirstSent, AllSent, Consistent, InOrder, Legal;
    RunKeepsInv(clock, events);
    var tr := Run(Start(clock), events).service.trace;
    LegalAt(tr, p);
    Extend(tr[..p], tr[p], tr[p].id);
    assert tr[..p + 1] == tr[..p] + [tr[p]];
    SettledOnceFinished(tr, p + 1, tr[p].id);
  }

  // ---------------------------------------------------------------- waiting without an answer

  /** Sends succeed and no acknowledgement names `command`. */
  predicate Quiet(e: Event, command: nat) {
    && (e.Ack? ==> e.command != command)
    && (e.Fire? ==> e.sent)
  }

  predicate FiresCommand(sys: System, e: Event) {
    e.Fire? && Enabled(sys, e) && sys.service.timers[e.due].callback == CommandTimeout
  }

  function Firings(sys: System, events: seq<Event>): nat {
    if events == [] then 0
    else
      var init := events[..|events| - 1];
      Firings(sys, init) + (if FiresCommand(Run(sys, init), events[|events| - 1]) then 1 else 0)
  }

  lemma QuietStep(sys: System, e: Event)
    requires Inv(sys) && sys.service.phase == Waiting && Quiet(e, sys.service.queue[0].command)
    requires FiresCommand(sys, e) ==> sys.service.queue[0].retriesToDo > 0
    ensures var s, s' := sys.service, Step(sys, e).service;
            && s'.phase == Waiting && s'.queue != []
            && s'.queue[0] == (if FiresCommand(sys, e)
                               then s.queue[0].(retriesToDo := s.queue[0].retriesToDo - 1) else s.queue[0])
  {
    hide InOrder, OnSchedule;
    if FiresCommand(sys, e) {
      assert e.due in CommandTimers(sys.service.timers);
    }
  }

  lemma {:induction false} QuietWait(sys: System, events: seq<Event>)
    requires Inv(sys) && sys.service.phase == Waiting
    requires forall i :: 0 <= i < |events| ==> Quiet(events[i], sys.service.queue[0].command)
    requires Firings(sys, events) <= sys.service.queue[0].retriesToDo
    ensures Inv(Run(sys, events))
    ensures var s, s' := sys.service, Run(sys, events).service;
            && s'.phase == Waiting && s'.queue != []
            && s'.queue[0] == s.queue[0].(retriesToDo := s.queue[0].retriesToDo - Firings(sys, events))
  {
    hide InOrder, OnSchedule, Step, FiresCommand;
    if events != [] {
      var init, e := events[..|events| - 1], events[|events| - 1];
      QuietWait(sys, init);
      QuietStep(Run(sys, init), e);
      StepKeepsInv(Run(sys, init), e);
    }
  }

  /** A started command that gets no answer times out on the firing after its last retry: with the
      three retries it starts with, on the fourth. */
  lemma UnansweredTimesOut(sys: System, events: seq<Event>, last: Event)
    requires Inv(sys) && sys.service.phase == Waiting
    requires forall i :: 0 <= i < |events| ==> Quiet(events[i], sys.service.queue[0].command)
    requires Firings(sys, events) == sys.service.queue[0].retriesToDo
    requires FiresCommand(Run(sys, events), last)
    ensures var s' := Run(sys, events + [last]).service;
            && s'.phase == Idle
            && s'.trace == Run(sys, events).service.trace
                         + [Finish(sys.service.queue[0].id, TimedOut, Run(sys, events).clock)]
  {
    hide InOrder, OnSchedule;
    QuietWait(sys, events);
    assert (events + [last])[..|events|] == events;
    assert last.due in CommandTimers(Run(sys, events).service.timers);
  }

  /** A command in progress is never sent again, nor given up, until it is acknowledged: its timer
      is ignored when it fires. */
  lemma {:induction false} InProgressWaitsForAck(sys: System, events: seq<Event>)
    requires Inv(sys) && sys.service.phase == InProgress
    requires forall i :: 0 <= i < |events| ==> events[i].Ack? ==> events[i].command != sys.service.queue[0].command
    ensures Inv(Run(sys, events))
    ensures var s, s' := sys.service, Run(sys, events).service;
            s'.phase == InProgress && s'.queue != [] && s'.queue[0] == s.queue[0] && s'.trace == s.trace
  {
    hide InOrder, OnSchedule;
    if events != [] {
      var init := events[..|events| - 1];
      InProgressWaitsForAck(sys, init);
      StepKeepsInv(Run(sys, init), events[|events| - 1]);
    }
  }

  /** That is reachable: after a progress report the timer fires, and the command stays in front with
      neither a live timer nor a result. */
  lemma ProgressThenSilence()
    ensures var late := Tick(1_500_000_001);
            var events := [Submission(7), Attend(true, 1), Ack(7, Progressing, 2), late, Fire(2, true, 3)];
            var s := Run(Start(0), events).service;
            && s.phase == InProgress && s.queue == [Work(0, 7, RETRIES, TIMEOUT_MS)] && s.timers == map[]
            && s.trace == [Transmit(0, true, 0)]
  {
    hide Run, Step, Start;
    RunOfFive(Start(0), Submission(7), Attend(true, 1), Ack(7, Progressing, 2), Tick(1_500_000_001), Fire(2, true, 3));
    ProgressSteps();
  }

  lemma ProgressSteps()
    ensures var s := Step(Step(Step(Step(Step(Start(0), Submission(7)), Attend(true, 1)), Ack(7, Progressing, 2)),
                               Tick(1_500_000_001)), Fire(2, true, 3)).service;
            && s.phase == InProgress && s.queue == [Work(0, 7, RETRIES, TIMEOUT_MS)] && s.timers == map[]
            && s.trace == [Transmit(0, true, 0)]
  {
    ProgressReported();
    var s3 := Step(Step(Step(Start(0), Submission(7)), Attend(true, 1)), Ack(7, Progressing, 2));
    hide Start, Submit, StartNext, Acknowledge, Expire;
    var s4 := Step(s3, Tick(1_500_000_001));
    assert 2 in Expired(s4.service.timers, s4.clock);
    assert Removed(s4.service.timers, 2) == map[];
    hide Expired, Removed;
    FiresInProgress(s4);
  }

  lemma ProgressReported()
    ensures var sys := Step(Step(Step(Start(0), Submission(7)), Attend(true, 1)), Ack(7, Progressing, 2));
            && sys.service.timers == map[2 := Timeout(CommandTimeout, 1_500 * NS_PER_MS, 1_500)]
            && sys.service.queue == [Work(0, 7, RETRIES, TIMEOUT_MS)] && sys.service.phase == InProgress
            && sys.service.trace == [Transmit(0, true, 0)] && sys.clock == 0 && 3 !in sys.issued
  {
    var s2 := Step(Step(Start(0), Submission(7)), Attend(true, 1));
    assert s2.service.timers == map[1 := Timeout(CommandTimeout, 500 * NS_PER_MS, 500)];
    assert s2.service.queue == [Work(0, 7, RETRIES, TIMEOUT_MS)] && s2.issued == {NULL_COOKIE, 1};
  }

  lemma FiresInProgress(sys: System)
    requires sys.service.phase == InProgress && 2 in sys.service.timers && 2 in Expired(sys.service.timers, sys.clock)
    requires 3 !in sys.issued
    ensures Step(sys, Fire(2, true, 3)).service == sys.service.(timers := Removed(sys.service.timers, 2))
  {
  }

  // ---------------------------------------------------------------- acknowledged before it is sent

  predicate Answers(sys: System, e: Event) {
    && e.Ack? && Enabled(sys, e) && e.result != Unknown
    && sys.service.queue != [] && sys.service.queue[0].command == e.command
  }

  /** An acknowledgement that matches the front while no command is in flight. */
  predicate Premature(sys: System, e: Event) {
    Answers(sys, e) && sys.service.phase == Idle
  }

  predicate NonePremature(sys: System, events: seq<Event>) {
    events == []
    || (NonePremature(sys, events[..|events| - 1])
        && !Premature(Run(sys, events[..|events| - 1]), events[|events| - 1]))
  }

  predicate SentIfBusy(s: Service) {
    s.phase != Idle ==> Transmits(s.trace, Finished(s.trace)) > 0
  }

  lemma BusyStep(sys: System, e: Event)
    requires Inv(sys) && SentIfBusy(sys.service) && !Premature(sys, e)
    ensures SentIfBusy(Step(sys, e).service)
  {
    hide Consistent, OnSchedule, Finished, Transmits, FirstSent, AllSent, Legal;
    var s := sys.service;
    if s.queue != [] {
      Extend(s.trace, Transmit(s.queue[0].id, true, sys.clock), s.queue[0].id);
    }
  }

  lemma {:induction false} BusyMeansSent(clock: int, events: seq<Event>)
    requires NonePremature(Start(clock), events)
    ensures SentIfBusy(Run(Start(clock), events).service)
  {
    hide Inv, Step, Premature, SentIfBusy;
    if events == [] {
      assert SentIfBusy(Start(clock).service) by { BusyAtStart(clock); }
    } else {
      var init := events[..|events| - 1];
      BusyMeansSent(clock, init);
      RunKeepsInv(clock, init);
      BusyStep(Run(Start(clock), init), events[|events| - 1]);
    }
  }

  lemma BusyAtStart(clock: int)
    ensures SentIfBusy(Start(clock).service)
  {
  }

  /** In a run without premature acknowledgements so far, the next one is taken for a command that
      was never sent exactly if it is premature. */
  lemma AnswersUnsentIffPremature(clock: int, events: seq<Event>, e: Event)
    requires NonePremature(Start(clock), events)
    requires Answers(Run(Start(clock), events), e)
    ensures var sys := Run(Start(clock), events);
            Transmits(sys.service.trace, sys.service.queue[0].id) == 0 <==> Premature(sys, e)
  {
    BusyMeansSent(clock, events);
    RunKeepsInv(clock, events);
  }

  /** Every acknowledgement of the run that decides or prolongs a command found it transmitted. */
  predicate AnswersFindSent(sys: System, events: seq<Event>) {
    events == []
    || (var init, e := events[..|events| - 1], events[|events| - 1];
        AnswersFindSent(sys, init)
        && (Answers(Run(sys, init), e) ==>
              Transmits(Run(sys, init).service.trace, Run(sys, init).service.queue[0].id) > 0))
  }

  /** That holds of a run exactly if none of its acknowledgements was premature. */
  lemma {:induction false} AnswersFindSentIff(clock: int, events: seq<Event>)
    ensures AnswersFindSent(Start(clock), events) <==> NonePremature(Start(clock), events)
  {
    hide Answers, Transmits, Run;
    if events != [] {
      var init, e := events[..|events| - 1], events[|events| - 1];
      AnswersFindSentIff(clock, init);
      PrematureAnswers(Run(Start(clock), init), e);
      if NonePremature(Start(clock), init) && Answers(Run(Start(clock), init), e) {
        AnswersUnsentIffPremature(clock, init, e);
      }
    }
  }

  lemma PrematureAnswers(sys: System, e: Event)
    ensures Premature(sys, e) ==> Answers(sys, e)
    ensures Answers(sys, e) ==> sys.service.queue != []
  {
  }

  /** It does happen: a repeated acknowledgement of one command finishes the next equal one. */
  lemma RepeatedAckFinishesUnsentCommand()
    ensures var events := [Submission(7), Submission(7), Attend(true, 1), Ack(7, Accepted, 2), Ack(7, Accepted, 3)];
            var tr := Run(Start(0), events).service.trace;
            tr == [Transmit(0, true, 0), Finish(0, Success, 0), Finish(1, Success, 0)] && Transmits(tr, 1) == 0
  {
    hide Run, Transmits, Step, Start;
    RunOfFive(Start(0), Submission(7), Submission(7), Attend(true, 1), Ack(7, Accepted, 2), Ack(7, Accepted, 3));
    RepeatedAckSteps();
    var o0, o1, o2 := Transmit(0, true, 0), Finish(0, Success, 0), Finish(1, Success, 0);
    Extend([], o0, 1);
    Extend([o0], o1, 1);
    Extend([o0, o1], o2, 1);
    NothingSent();
    assert [] + [o0] == [o0] && [o0] + [o1] == [o0, o1] && [o0, o1] + [o2] == [o0, o1, o2];
  }

  lemma RepeatedAckSteps()
    ensures Step(Step(Step(Step(Step(Start(0), Submission(7)), Submission(7)), Attend(true, 1)),
                      Ack(7, Accepted, 2)), Ack(7, Accepted, 3)).service.trace
         == [Transmit(0, true, 0), Finish(0, Success, 0), Finish(1, Success, 0)]
  {
    var w0, w1 := Work(0, 7, RETRIES, TIMEOUT_MS), Work(1, 7, RETRIES, TIMEOUT_MS);
    var s2 := Step(Step(Start(0), Submission(7)), Submission(7));
    assert s2.service == Commands.FRESH.(queue := [w0, w1], submitted := [7, 7]);
    hide Acknowledge;
    var s3 := Step(s2, Attend(true, 1));
    assert s3.issued == {NULL_COOKIE, 1};
    var s4 := Step(s3, Ack(7, Accepted, 2));
    AckFinishesFront(s3, 2);
    assert s4.service.queue == [w1] && s4.service.trace == [Transmit(0, true, 0), Finish(0, Success, 0)];
    AckFinishesFront(s4, 3);
  }

  lemma AckFinishesFront(sys: System, cookie: Cookie)
    requires sys.service.queue != [] && sys.service.queue[0].command == 7 && cookie !in sys.issued
    ensures var s, s' := sys.service, Step(sys, Ack(7, Accepted, cookie));
            && s'.service.queue == s.queue[1..] && s'.clock == sys.clock && s'.issued == sys.issued + {cookie}
            && s'.service.trace == s.trace + [Finish(s.queue[0].id, Success, sys.clock)]
  {
  }

  lemma NothingSent()
    ensures Transmits([], 1) == 0
  {
  }

  lemma RunOfFive(sys: System, a: Event, b: Event, c: Event, d: Event, e: Event)
    ensures Run(sys, [a, b, c, d, e]) == Step(Step(Step(Step(Step(sys, a), b), c), d), e)
  {
    assert [a][..0] == [] && Run(sys, [a]) == Step(sys, a);
    assert [a, b][..1] == [a] && Run(sys, [a, b]) == Step(Run(sys, [a]), b);
    assert [a, b, c][..2] == [a, b] && Run(sys, [a, b, c]) == Step(Run(sys, [a, b]), c);
    assert [a, b, c, d][..3] == [a, b, c] && Run(sys, [a, b, c, d]) == Step(Run(sys, [a, b, c]), d);
    assert [a, b, c, d, e][..4] == [a, b, c, d];
  }

  // ---------------------------------------------------------------- where results come from

  predicate FromAck(o: Output) {
    o.Finish? && (o.outcome == Success || o.outcome == CommandDenied)
  }

  /** `e` is the acknowledgement, of the command with that result. */
  predicate Explains(e: Event, o: Output, submitted: seq<nat>)
    requires FromAck(o)
  {
    && e.Ack? && o.id < |submitted| && e.command == submitted[o.id]
    && e.result != Unknown && e.result != Progressing && (o.outcome == Success <==> e.result == Accepted)
  }

  lemma StepExplains(sys: System, e: Event)
    requires Inv(sys)
    ensures var s, s' := sys.service, Step(sys, e).service;
            && s.trace <= s'.trace && s.submitted <= s'.submitted
            && forall q :: |s.trace| <= q < |s'.trace| && FromAck(s'.trace[q]) ==>
                 Explains(e, s'.trace[q], s'.submitted)
  {
    hide Consistent, OnSchedule, Finished, CommandTimers;
  }

  /** Success or denial is only reported for a command that was acknowledged so, by the event of the
      run that makes the report. */
  lemma {:induction false} ResultMeansAck(clock: int, events: seq<Event>, p: nat) returns (k: nat)
    requires var tr := Run(Start(clock), events).service.trace; p < |tr| && FromAck(tr[p])
    ensures var s := Run(Start(clock), events).service;
            k < |events| && Explains(events[k], s.trace[p], s.submitted)
    ensures |Run(Start(clock), events[..k]).service.trace| <= p < |Run(Start(clock), events[..k + 1]).service.trace|
    decreases |events|
  {
    hide Step, Inv, Explains, FromAck;
    NoneAtStart(clock);
    var init := events[..|events| - 1];
    RunKeepsInv(clock, init);
    StepExplains(Run(Start(clock), init), events[|events| - 1]);
    if p < |Run(Start(clock), init).service.trace| {
      k := ResultMeansAck(clock, init, p);
      assert init[..k] == events[..k] && init[..k + 1] == events[..k + 1];
      StillExplains(events[k], Run(Start(clock), events).service.trace[p],
                    Run(Start(clock), init).service.submitted, Run(Start(clock), events).service.submitted);
    } else {
      k := |events| - 1;
      assert events[..k + 1] == events;
    }
  }

  lemma NoneAtStart(clock: int)
    ensures Start(clock).service.trace == []
  {
  }

  lemma StillExplains(e: Event, o: Output, before: seq<nat>, after: seq<nat>)
    requires FromAck(o) && Explains(e, o, before) && before <= after
    ensures Explains(e, o, after)
  {
  }

  // ---------------------------------------------------------------- what each event does

  /** The command timer is the one live one, and due so many milliseconds from now. */
  predicate ArmedFor(s: Service, cookie: Cookie, ms: nat, clock: int) {
    && s.cookie == cookie && CommandTimers(s.timers) == {cookie}
    && s.timers[cookie].deadline == clock + ms * 1_000_000
  }

  /** A command is done with: it has its result, and the service is free for the next. */
  predicate Finishes(s: Service, s': Service, outputs: seq<Output>) {
    && s.queue != [] && s' == s.(phase := Idle, queue := s.queue[1..], timers := s'.timers,
                                 trace := s.trace + outputs)
    && CommandTimers(s'.timers) == {}
  }

  /** A submitted command is queued behind the others with three retries of half a second. */
  lemma SubmissionQueues(clock: int, events: seq<Event>, command: nat)
    ensures var s, s' := Run(Start(clock), events).service, Run(Start(clock), events + [Submission(command)]).service;
            s' == s.(queue := s.queue + [Work(|s.submitted|, command, 3, 500)], submitted := s.submitted + [command])
  {
    hide Run;
    RunOn(Start(clock), events, Submission(command));
  }

  lemma RunOn(sys: System, events: seq<Event>, e: Event)
    ensures Run(sys, events + [e]) == Step(Run(sys, events), e)
  {
    hide Step;
    assert (events + [e])[..|events|] == events;
  }

  /** An idle service sends its oldest command and waits half a second for the answer; if it cannot be
      sent, that is its result. A busy service, and one without commands, does nothing. */
  lemma AttendSends(clock: int, events: seq<Event>, sent: bool, cookie: Cookie)
    requires Enabled(Run(Start(clock), events), Attend(sent, cookie))
    ensures var sys := Run(Start(clock), events);
            var s, s' := sys.service, Step(sys, Attend(sent, cookie)).service;
            if s.phase != Idle || s.queue == [] then s' == s
            else if sent then
              && s' == s.(phase := Waiting, cookie := cookie, timers := s'.timers,
                          trace := s.trace + [Transmit(s.queue[0].id, true, sys.clock)])
              && ArmedFor(s', cookie, 500, sys.clock)
            else
              Finishes(s, s', [Transmit(s.queue[0].id, false, sys.clock),
                               Finish(s.queue[0].id, ConnectionError, sys.clock)])
  {
    hide Run, OnSchedule, Finished;
    RunKeepsInv(clock, events);
    var sys := Run(Start(clock), events);
    var s, s' := sys.service, Step(sys, Attend(sent, cookie)).service;
    if s.phase == Idle && s.queue != [] && !sent {
      assert s.trace + [Transmit(s.queue[0].id, false, sys.clock)] + [Finish(s.queue[0].id, ConnectionError, sys.clock)]
          == s.trace + [Transmit(s.queue[0].id, false, sys.clock), Finish(s.queue[0].id, ConnectionError, sys.clock)];
    }
  }

  predicate NamesFront(s: Service, command: nat) {
    s.queue != [] && s.queue[0].command == command
  }

  /** Every final acknowledgement of the oldest command gives it its result: success exactly if it was
      accepted, else denial. */
  lemma FinalAckFinishes(clock: int, events: seq<Event>, command: nat, result: AckResult, cookie: Cookie)
    requires var sys := Run(Start(clock), events);
             Enabled(sys, Ack(command, result, cookie)) && NamesFront(sys.service, command)
    requires result !in {Progressing, Unknown}
    ensures var sys := Run(Start(clock), events);
            var s, s' := sys.service, Step(sys, Ack(command, result, cookie)).service;
            Finishes(s, s', [Finish(s.queue[0].id, if result == Accepted then Success else CommandDenied, sys.clock)])
  {
    hide Run, OnSchedule, Finished;
    RunKeepsInv(clock, events);
  }

  /** A progress report gives the oldest command the time of all its remaining retries, and no result. */
  lemma ProgressAckWaits(clock: int, events: seq<Event>, command: nat, cookie: Cookie)
    requires var sys := Run(Start(clock), events);
             Enabled(sys, Ack(command, Progressing, cookie)) && NamesFront(sys.service, command)
    ensures var sys := Run(Start(clock), events);
            var s, s' := sys.service, Step(sys, Ack(command, Progressing, cookie)).service;
            && s' == s.(phase := InProgress, cookie := cookie, timers := s'.timers)
            && ArmedFor(s', cookie, s.queue[0].retriesToDo * 500, sys.clock)
  {
    hide Run, OnSchedule, Finished;
    RunKeepsInv(clock, events);
  }

  /** Any other acknowledgement changes nothing. */
  lemma OtherAckIsIgnored(sys: System, command: nat, result: AckResult, cookie: Cookie)
    requires result == Unknown || !NamesFront(sys.service, command)
    ensures Step(sys, Ack(command, result, cookie)).service == sys.service
  {
  }

  /** When the timer of a waiting command fires, the command is sent again for one of its retries; when
      they are used up it has timed out, and a failed send is its result. */
  lemma FiringResends(clock: int, events: seq<Event>, due: Cookie, sent: bool, cookie: Cookie)
    requires FiresCommand(Run(Start(clock), events), Fire(due, sent, cookie))
    requires Run(Start(clock), events).service.phase == Waiting
    ensures var sys := Run(Start(clock), events);
            var s, s' := sys.service, Step(sys, Fire(due, sent, cookie)).service;
            && s.queue != [] && due == s.cookie && s.timers[due].deadline < sys.clock
            && var front := s.queue[0];
               if front.retriesToDo == 0 then Finishes(s, s', [Finish(front.id, TimedOut, sys.clock)])
               else if sent then
                 && s' == s.(cookie := cookie, timers := s'.timers,
                             queue := [front.(retriesToDo := front.retriesToDo - 1)] + s.queue[1..],
                             trace := s.trace + [Transmit(front.id, true, sys.clock)])
                 && ArmedFor(s', cookie, 500, sys.clock)
               else
                 Finishes(s, s', [Transmit(front.id, false, sys.clock), Finish(front.id, ConnectionError, sys.clock)])
  {
    hide Run, OnSchedule, Finished;
    RunKeepsInv(clock, events);
    var sys := Run(Start(clock), events);
    var s, front := sys.service, sys.service.queue[0];
    assert due in CommandTimers(s.timers);
    assert CommandTimers(Removed(s.timers, due)) == {};
    if front.retriesToDo > 0 {
      if sent {
        assert s.queue[0 := front.(retriesToDo := front.retriesToDo - 1)]
            == [front.(retriesToDo := front.retriesToDo - 1)] + s.queue[1..];
      } else {
        assert s.trace + [Transmit(front.id, false, sys.clock)] + [Finish(front.id, ConnectionError, sys.clock)]
            == s.trace + [Transmit(front.id, false, sys.clock), Finish(front.id, ConnectionError, sys.clock)];
      }
    }
  }

  /** Time, other users of the table, their timers, and a timer that fires while nothing waits for it
      leave the service as it is. */
  lemma OthersLeaveTheService(sys: System, e: Event)
    requires Enabled(sys, e)
    requires e.Tick? || e.Other? || (e.Fire? && (!FiresCommand(sys, e) || sys.service.phase != Waiting))
    ensures Step(sys, e).service == sys.service.(timers := Step(sys, e).service.timers)
  {
  }

  // ---------------------------------------------------------------- what a run does to the table

  /** The calls on the table that a handler makes. */
  function OpsOf(s: Service, e: Event, at: int): seq<Op> {
    match e
    case Attend(sent, cookie) =>
      if s.queue != [] && s.phase == Idle && sent then [Add(cookie, CommandTimeout, s.queue[0].timeoutMs, at)] else []
    case Ack(command, result, cookie) =>
      if s.queue == [] || s.queue[0].command != command || result == Unknown then []
      else if result == Progressing then
        [Remove(s.cookie), Add(cookie, CommandTimeout, s.queue[0].retriesToDo * s.queue[0].timeoutMs, at)]
      else [Remove(s.cookie)]
    case Fire(due, sent, cookie) =>
      if due in s.timers && s.timers[due].callback == CommandTimeout && s.phase == Waiting && s.queue != []
         && s.queue[0].retriesToDo > 0 && sent
      then [Add(cookie, CommandTimeout, s.queue[0].timeoutMs, at)] else []
    case Other(op) => [op]
    case _ => []
  }

  function EffectOf(sys: System, e: Event): Effect {
    if !Enabled(sys, e) then Uses([])
    else if e.Fire? then Fires(e.due, OpsOf(sys.service, e, sys.clock))
    else Uses(OpsOf(sys.service, e, sys.clock))
  }

  function Effects(sys: System, events: seq<Event>): (effects: seq<Effect>)
    ensures |effects| == |events|
  {
    if events == [] then []
    else
      var init := events[..|events| - 1];
      Effects(sys, init) + [EffectOf(Run(sys, init), events[|events| - 1])]
  }

  lemma StepIsAnEffect(sys: System, e: Event)
    ensures Step(sys, e).service.timers == After(sys.service.timers, EffectOf(sys, e))
    ensures Timely(EffectOf(sys, e).ops, sys.clock) && sys.clock <= Step(sys, e).clock
    ensures EffectOf(sys, e).Fires? ==> EffectOf(sys, e).cookie in Expired(sys.service.timers, sys.clock)
  {
    var s, ops := sys.service, EffectOf(sys, e).ops;
    var t := if EffectOf(sys, e).Fires? then Removed(s.timers, e.due) else s.timers;
    NoOps(t);
    if |ops| == 1 {
      OneOp(t, ops[0]);
    } else if |ops| == 2 {
      TwoOps(t, ops[0], ops[1]);
    }
    hide ApplyAll, Expired, CommandTimers;
  }

  /** Every run of the service and the other users is a trace of the timer table, made at the run's
      own clock. */
  lemma {:induction false} RunIsATrace(sys: System, events: seq<Event>)
    ensures Run(sys, events).service.timers == AfterAll(sys.service.timers, Effects(sys, events))
    ensures AllTimely(Effects(sys, events), sys.clock) && sys.clock <= Run(sys, events).clock
  {
    hide Step, EffectOf, After;
    if events != [] {
      var init := events[..|events| - 1];
      RunIsATrace(sys, init);
      StepIsAnEffect(Run(sys, init), events[|events| - 1]);
      assert Effects(sys, events)[..|init|] == Effects(sys, init);
    }
  }

  /** So a stretch of a run that fires what one expiry pass at `now` fires, and leaves nothing due, has
      fired exactly the entries due, each once, except those refreshed or removed first. */
  lemma PassOfARun(sys: System, events: seq<Event>, now: int) returns (before: seq<Op>, script: nat -> seq<Op>)
    requires now <= sys.clock && FiresExpired(sys.service.timers, Effects(sys, events), now)
    requires Expired(Run(sys, events).service.timers, now) == {}
    ensures var fired := Fired(Effects(sys, events));
            && Pass(ApplyAll(sys.service.timers, before), fired, script, now, Run(sys, events).service.timers)
            && (forall i, j :: 0 <= i < j < |fired| ==> fired[i] != fired[j])
            && (forall c :: c in fired ==> c in Expired(sys.service.timers, now))
            && (forall c :: c in Expired(sys.service.timers, now) && c !in fired ==>
                  c in Touched(before) + TouchedBefore(script, |fired|))
  {
    hide Run, Effects, Pass, Expired, ApplyAll, Fired, FiresExpired, Touched;
    RunIsATrace(sys, events);
    before, script := CompleteTraceFiresTheDue(sys.service.timers, Effects(sys, events), now);
  }
}
