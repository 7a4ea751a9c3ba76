/** Whole runs of the parameter service: any interleaving of its handlers, the expiry of timers, the
    passing of time, and other users of the timer table. */
module ParameterRuns {
  import opened BoundedInts
  import opened Wrappers
  import opened Timers
  import opened TimerTraces
  import opened ParamValues
  import opened Parameters

  datatype System = System(service: Service, clock: int, issued: set<Cookie>)

  datatype Event =
    | SetRequest(setWork: SetWork)
    | GetRequest(getWork: GetWork)
    | Attend(sent: bool, cookie: Cookie)
    | Value4(id: ParamId, tag: Tag, bytes: seq<byte>)
    | ExtValue(id: ParamId, tag: Tag, bytes: seq<byte>)
    | ExtAcked(id: ParamId, result: ExtAck)
    | Fire(due: Cookie)
    | Reset
    | Tick(ns: nat)
    | Other(op: Op)

  function ParamTimers(t: Table): set<Cookie> {
    set c | c in t && t[c].callback == ParamTimeout
  }

  predicate OthersMay(sys: System, op: Op) {
    match op
    case Add(cookie, callback, _, clock) =>
      cookie !in sys.issued && callback != ParamTimeout && clock == sys.clock
    case Refresh(cookie, clock) => cookie !in ParamTimers(sys.service.timers) && clock == sys.clock
    case Remove(cookie) => cookie !in ParamTimers(sys.service.timers)
  }

  /** Once the process has aborted, no handler of the service runs. */
  predicate Enabled(sys: System, e: Event) {
    match e
    case Attend(_, cookie) => sys.service.phase != Aborted && cookie !in sys.issued
    case Value4(_, _, bytes) => sys.service.phase != Aborted && |bytes| == 4
    case ExtValue(_, _, bytes) => sys.service.phase != Aborted && |bytes| == BUFFER
    case Fire(due) => sys.service.phase != Aborted && due in Expired(sys.service.timers, sys.clock)
    case Tick(_) => true
    case Other(op) => OthersMay(sys, op)
    case _ => sys.service.phase != Aborted
  }

  /** Events that are not enabled do nothing, so every sequence of events is a run. */
  function Step(sys: System, e: Event): System {
    var s := sys.service;
    if !Enabled(sys, e) then sys
    else match e
      case SetRequest(work) => sys.(service := SetParam(s, work))
      case GetRequest(work) => sys.(service := GetParam(s, work))
      case Attend(sent, cookie) => System(StartNext(s, sys.clock, sent, cookie), sys.clock, sys.issued + {cookie})
      case Value4(id, tag, bytes) => sys.(service := ValueArrives(s, id, Unpacked4(tag, bytes)))
      case ExtValue(id, tag, bytes) => sys.(service := ExtValueArrives(s, id, tag, bytes))
      case ExtAcked(id, result) => sys.(service := ExtAckArrives(s, sys.clock, id, result))
      case Fire(due) =>
        var taken := s.(timers := Removed(s.timers, due));
        sys.(service := if s.timers[due].callback == ParamTimeout then Expire(taken) else taken)
      case Reset => sys.(service := ClearCache(s))
      case Tick(ns) => sys.(clock := sys.clock + ns)
      case Other(op) =>
        System(s.(timers := Apply(s.timers, op)), sys.clock,
               if op.Add? then sys.issued + {op.cookie} else sys.issued)
  }

  function Run(sys: System, events: seq<Event>): System {
    if events == [] then sys
    else Step(Run(sys, events[..|events| - 1]), events[|events| - 1])
  }

  function Start(clock: int): System {
    System(Parameters.FRESH, clock, {NULL_COOKIE})
  }

  // ---------------------------------------------------------------- reading a history

  function AcceptedSets(tr: seq<Output>): seq<SetWork> {
    if tr == [] then []
    else AcceptedSets(tr[..|tr| - 1]) + (match tr[|tr| - 1] case SetAccepted(w) => [w] case _ => [])
  }

  function AcceptedGets(tr: seq<Output>): seq<GetWork> {
    if tr == [] then []
    else AcceptedGets(tr[..|tr| - 1]) + (match tr[|tr| - 1] case GetAccepted(w) => [w] case _ => [])
  }

  function AnsweredSets(tr: seq<Output>): seq<SetWork> {
    if tr == [] then []
    else AnsweredSets(tr[..|tr| - 1]) + (match tr[|tr| - 1] case SetDone(w, _) => [w] case _ => [])
  }

  function AnsweredGets(tr: seq<Output>): seq<GetWork> {
    if tr == [] then []
    else AnsweredGets(tr[..|tr| - 1]) + (match tr[|tr| - 1] case GetDone(w, _) => [w] case _ => [])
  }

  /** The request sent and not yet answered, as the phase that waits for it. */
  function InFlight(tr: seq<Output>): Phase {
    if tr == [] then Idle
    else match tr[|tr| - 1]
      case SendSet(_, _, _) => SetBusy
      case SendGet(_, _, _) => GetBusy
      case SetDone(_, _) => Idle
      case GetDone(_, _) => Idle
      case AbortGet(_) => Idle
      case _ => InFlight(tr[..|tr| - 1])
  }

  /** The value a successful completion of a set or get establishes for a name. */
  predicate Confirms(o: Output, name: string) {
    match o
    case SetDone(w, ok) => ok && w.name == name
    case GetDone(w, answer) => answer.Some? && w.name == name
    case _ => false
  }

  function ConfirmedValue(o: Output, name: string): Value
    requires Confirms(o, name)
  {
    match o
    case SetDone(w, _) => w.value
    case GetDone(_, answer) => answer.value
  }

  /** The most recent confirmed value of a name since the last reset, by position. */
  ghost predicate LatestConfirmed(tr: seq<Output>, name: string, p: int) {
    && 0 <= p < |tr| && Confirms(tr[p], name)
    && forall q :: p < q < |tr| ==> !Confirms(tr[q], name) && !tr[q].CacheReset?
  }

  // ---------------------------------------------------------------- the invariant

  predicate Mirrors(s: Service) {
    && AcceptedSets(s.trace) == AnsweredSets(s.trace) + s.sets
    && AcceptedGets(s.trace) == AnsweredGets(s.trace) + s.gets
    && InFlight(s.trace) == (if s.phase == Aborted then Idle else s.phase)
    && (s.phase == SetBusy ==> s.sets != [])
    && (s.phase == GetBusy ==> s.gets != [])
    && (s.phase == Aborted ==>
          s.trace != []
          && ((s.sets != [] && !Sendable(s.sets[0].value, s.sets[0].extended)
               && s.trace[|s.trace| - 1] == AbortSet(s.sets[0]))
              || (s.gets != [] && s.trace[|s.trace| - 1] == AbortGet(s.gets[0]))))
  }

  /** The cache entry of a name, or its absence, is its latest confirmed value. */
  ghost predicate HoldsLatest(cache: map<string, Value>, tr: seq<Output>, name: string) {
    && (name in cache ==>
          exists p :: LatestConfirmed(tr, name, p) && cache[name] == ConfirmedValue(tr[p], name))
    && (forall p :: LatestConfirmed(tr, name, p) ==>
          name in cache && cache[name] == ConfirmedValue(tr[p], name))
  }

  ghost predicate CacheAgrees(cache: map<string, Value>, tr: seq<Output>) {
    forall name :: HoldsLatest(cache, tr, name)
  }

  function CacheAfter(cache: map<string, Value>, o: Output): map<string, Value> {
    match o
    case SetDone(w, ok) => if ok then cache[w.name := w.value] else cache
    case GetDone(w, answer) => if answer.Some? then cache[w.name := answer.value] else cache
    case CacheReset => map[]
    case _ => cache
  }

  /** What may happen next: one request in flight, oldest first in each queue, sets before gets. */
  predicate LegalNext(tr: seq<Output>, o: Output) {
    var sets, gets := |AnsweredSets(tr)|, |AnsweredGets(tr)|;
    match o
    case SendSet(w, m, _) =>
      InFlight(tr) == Idle && sets < |AcceptedSets(tr)| && AcceptedSets(tr)[sets] == w
      && Sendable(w.value, w.extended) && m == SetMessage(w)
    case SendGet(w, m, _) =>
      InFlight(tr) == Idle && sets == |AcceptedSets(tr)| && gets < |AcceptedGets(tr)| && AcceptedGets(tr)[gets] == w
      && m == GetMessage(w)
    case SetDone(w, _) => InFlight(tr) == SetBusy && sets < |AcceptedSets(tr)| && AcceptedSets(tr)[sets] == w
    case GetDone(w, _) => InFlight(tr) == GetBusy && gets < |AcceptedGets(tr)| && AcceptedGets(tr)[gets] == w
    case SetAccepted(w) => |w.name| <= PARAM_ID_LEN
    case GetAccepted(w) => |w.name| <= PARAM_ID_LEN
    case AbortGet(w) => InFlight(tr) == GetBusy && gets < |AcceptedGets(tr)| && AcceptedGets(tr)[gets] == w
    case AbortSet(w) =>
      InFlight(tr) == Idle && sets < |AcceptedSets(tr)| && AcceptedSets(tr)[sets] == w && !Sendable(w.value, w.extended)
    case _ => true
  }

  predicate Legal(tr: seq<Output>) {
    tr == [] || (Legal(tr[..|tr| - 1]) && LegalNext(tr[..|tr| - 1], tr[|tr| - 1]))
  }

  predicate TimerAgrees(s: Service) {
    match s.phase
    case Idle => ParamTimers(s.timers) == {}
    case Aborted => ParamTimers(s.timers) <= {s.cookie}
    case _ => ParamTimers(s.timers) == {s.cookie}
  }

  ghost predicate Sound(s: Service) {
    Mirrors(s) && Legal(s.trace) && CacheAgrees(s.cache, s.trace) && TimerAgrees(s)
  }

  function Keys(s: Service): set<Cookie> {
    s.timers.Keys + {s.cookie}
  }

  ghost predicate Inv(sys: System) {
    Keys(sys.service) <= sys.issued && Sound(sys.service)
  }

  lemma Extend(tr: seq<Output>, o: Output)
    ensures AcceptedSets(tr + [o]) == AcceptedSets(tr) + (match o case SetAccepted(w) => [w] case _ => [])
    ensures AcceptedGets(tr + [o]) == AcceptedGets(tr) + (match o case GetAccepted(w) => [w] case _ => [])
    ensures AnsweredSets(tr + [o]) == AnsweredSets(tr) + (match o case SetDone(w, _) => [w] case _ => [])
    ensures AnsweredGets(tr + [o]) == AnsweredGets(tr) + (match o case GetDone(w, _) => [w] case _ => [])
    ensures InFlight(tr + [o]) == match o
                                  case SendSet(_, _, _) => SetBusy
                                  case SendGet(_, _, _) => GetBusy
                                  case SetDone(_, _) => Idle
                                  case GetDone(_, _) => Idle
                                  case AbortGet(_) => Idle
                                  case _ => InFlight(tr)
    ensures Legal(tr) && LegalNext(tr, o) ==> Legal(tr + [o])
  {
    assert (tr + [o])[..|tr|] == tr;
  }

  /** How one more output changes which values are the latest. */
  lemma LatestAfter(tr: seq<Output>, o: Output, name: string)
    ensures Confirms(o, name) ==> forall p :: LatestConfirmed(tr + [o], name, p) <==> p == |tr|
    ensures !Confirms(o, name) && o.CacheReset? ==> forall p :: !LatestConfirmed(tr + [o], name, p)
    ensures !Confirms(o, name) && !o.CacheReset? ==>
              forall p :: LatestConfirmed(tr + [o], name, p) <==> LatestConfirmed(tr, name, p)
  {
    var longer := tr + [o];
    assert longer[|tr|] == o;
    assert forall q :: 0 <= q < |tr| ==> longer[q] == tr[q];
  }

  lemma CacheFollows(s: Service, o: Output, s': Service)
    requires CacheAgrees(s.cache, s.trace) && s'.trace == s.trace + [o] && s'.cache == CacheAfter(s.cache, o)
    ensures CacheAgrees(s'.cache, s'.trace)
  {
    forall name
      ensures HoldsLatest(s'.cache, s'.trace, name)
    {
      assert HoldsLatest(s.cache, s.trace, name);
      LatestAfter(s.trace, o, name);
      if Confirms(o, name) {
        assert LatestConfirmed(s'.trace, name, |s.trace|);
      } else if name in s'.cache {
        var p :| LatestConfirmed(s.trace, name, p) && s.cache[name] == ConfirmedValue(s.trace[p], name);
        assert LatestConfirmed(s'.trace, name, p) && s'.trace[p] == s.trace[p];
      }
    }
  }

  lemma FinishSetKeeps(s: Service, ok: bool)
    requires Mirrors(s) && Legal(s.trace) && CacheAgrees(s.cache, s.trace) && s.phase == SetBusy
    ensures var s' := FinishSet(s, ok); Mirrors(s') && Legal(s'.trace) && s'.phase == Idle
    ensures var s' := FinishSet(s, ok); CacheAgrees(s'.cache, s'.trace)
  {
    hide AcceptedSets, AcceptedGets, AnsweredSets, AnsweredGets, InFlight, Legal, CacheAgrees, HoldsLatest, Sendable;
    var o := SetDone(s.sets[0], ok);
    Extend(s.trace, o);
    CacheFollows(s, o, FinishSet(s, ok));
  }

  lemma FinishGetKeeps(s: Service, answer: Option<Value>)
    requires Mirrors(s) && Legal(s.trace) && CacheAgrees(s.cache, s.trace) && s.phase == GetBusy
    ensures var s' := FinishGet(s, answer); Mirrors(s') && Legal(s'.trace) && s'.phase == Idle
    ensures var s' := FinishGet(s, answer); CacheAgrees(s'.cache, s'.trace)
  {
    hide AcceptedSets, AcceptedGets, AnsweredSets, AnsweredGets, InFlight, Legal, CacheAgrees, HoldsLatest, Sendable;
    var o := GetDone(s.gets[0], answer);
    Extend(s.trace, o);
    CacheFollows(s, o, FinishGet(s, answer));
  }

  /** One output that answers and sends nothing. */
  lemma RequestKeeps(s: Service, o: Output, s': Service)
    requires Mirrors(s) && Legal(s.trace) && CacheAgrees(s.cache, s.trace) && s.phase != Aborted
    requires s' == Emit(s.(sets := s'.sets, gets := s'.gets, cache := CacheAfter(s.cache, o)), o)
    requires match o
             case SetAccepted(w) =>
               |w.name| <= PARAM_ID_LEN && s'.sets == s.sets + [w] && s'.gets == s.gets
             case GetAccepted(w) => |w.name| <= PARAM_ID_LEN && s'.sets == s.sets && s'.gets == s.gets + [w]
             case _ => (o.CacheHit? || o.Refused? || o.CacheReset?) && s'.sets == s.sets && s'.gets == s.gets
    ensures Mirrors(s') && Legal(s'.trace) && CacheAgrees(s'.cache, s'.trace)
  {
    hide AcceptedSets, AcceptedGets, AnsweredSets, AnsweredGets, InFlight, Legal, CacheAgrees, HoldsLatest, Sendable;
    Extend(s.trace, o);
    CacheFollows(s, o, s');
  }

  lemma SendSetKeeps(s: Service, at: int, sent: bool, cookie: Cookie)
    requires Sound(s) && cookie !in s.timers && s.phase == Idle && s.sets != []
    requires Sendable(s.sets[0].value, s.sets[0].extended)
    ensures Sound(StartNext(s, at, sent, cookie))
  {
    hide AcceptedSets, AcceptedGets, AnsweredSets, AnsweredGets, InFlight, Legal, CacheAgrees, HoldsLatest,
         SetMessage, GetMessage, Sendable;
    var o := SendSet(s.sets[0], SetMessage(s.sets[0]), sent);
    Extend(s.trace, o);
    var tried := Emit(s, o).(phase := SetBusy);
    CacheFollows(s, o, tried);
    assert Mirrors(tried) && Legal(tried.trace);
    if sent {
      assert ParamTimers(Armed(tried, at, cookie).timers) == {cookie};
    } else {
      FinishSetKeeps(tried, false);
      assert StartNext(s, at, sent, cookie) == FinishSet(tried, false);
    }
  }

  lemma AbortKeeps(s: Service, at: int, sent: bool, cookie: Cookie)
    requires Sound(s) && s.phase == Idle && s.sets != [] && !Sendable(s.sets[0].value, s.sets[0].extended)
    ensures Sound(StartNext(s, at, sent, cookie))
  {
    hide AcceptedSets, AcceptedGets, AnsweredSets, AnsweredGets, InFlight, Legal, CacheAgrees, HoldsLatest, Sendable;
    var o := AbortSet(s.sets[0]);
    Extend(s.trace, o);
    CacheFollows(s, o, StartNext(s, at, sent, cookie));
  }

  lemma SendGetKeeps(s: Service, at: int, sent: bool, cookie: Cookie)
    requires Sound(s) && cookie !in s.timers && s.phase == Idle && s.sets == [] && s.gets != []
    ensures Sound(StartNext(s, at, sent, cookie))
  {
    hide AcceptedSets, AcceptedGets, AnsweredSets, AnsweredGets, InFlight, Legal, CacheAgrees, HoldsLatest,
         SetMessage, GetMessage, Sendable;
    var o := SendGet(s.gets[0], GetMessage(s.gets[0]), sent);
    Extend(s.trace, o);
    var tried := Emit(s, o).(phase := GetBusy);
    CacheFollows(s, o, tried);
    assert Mirrors(tried) && Legal(tried.trace);
    if sent {
      assert ParamTimers(Armed(tried, at, cookie).timers) == {cookie};
    } else {
      FinishGetKeeps(tried, None);
      assert StartNext(s, at, sent, cookie) == FinishGet(tried, None);
    }
  }

  lemma DisarmedSetKeeps(s: Service, ok: bool)
    requires Sound(s) && s.phase == SetBusy
    ensures Sound(Disarmed(FinishSet(s, ok)))
  {
    hide AcceptedSets, AcceptedGets, AnsweredSets, AnsweredGets, InFlight, Legal, CacheAgrees;
    FinishSetKeeps(s, ok);
    assert ParamTimers(Disarmed(FinishSet(s, ok)).timers) == {};
  }

  lemma DisarmedGetKeeps(s: Service, answer: Option<Value>)
    requires Sound(s) && s.phase == GetBusy
    ensures Sound(Disarmed(FinishGet(s, answer)))
  {
    hide AcceptedSets, AcceptedGets, AnsweredSets, AnsweredGets, InFlight, Legal, CacheAgrees;
    FinishGetKeeps(s, answer);
    assert ParamTimers(Disarmed(FinishGet(s, answer)).timers) == {};
  }

  lemma ExtAckKeeps(s: Service, at: int, id: ParamId, result: ExtAck)
    requires Sound(s)
    ensures Sound(ExtAckArrives(s, at, id, result))
  {
    hide CacheAgrees, Legal;
    if s.phase == SetBusy {
      if result == AckInProgress {
        assert ParamTimers(Refreshed(s.timers, s.cookie, at)) == ParamTimers(s.timers);
      } else {
        DisarmedSetKeeps(s, result == AckAccepted);
      }
    }
  }

  lemma FireKeeps(s: Service, due: Cookie)
    requires Sound(s) && due in ParamTimers(s.timers) && s.phase != Aborted
    ensures Sound(Expire(s.(timers := Removed(s.timers, due))))
  {
    hide CacheAgrees, Legal;
    assert due == s.cookie;
    var taken := s.(timers := Removed(s.timers, due));
    assert ParamTimers(taken.timers) == {};
    if s.phase == SetBusy {
      FinishSetKeeps(taken, false);
    } else {
      FinishGetKeeps(taken, None);
    }
  }

  lemma OtherKeeps(sys: System, op: Op)
    requires Sound(sys.service) && OthersMay(sys, op)
    ensures Sound(sys.service.(timers := Apply(sys.service.timers, op)))
  {
    hide CacheAgrees, Legal, AcceptedSets, AcceptedGets, AnsweredSets, AnsweredGets, InFlight;
    assert ParamTimers(Apply(sys.service.timers, op)) == ParamTimers(sys.service.timers);
  }

  lemma RequestsKeep(sys: System, e: Event)
    requires Sound(sys.service) && Enabled(sys, e) && (e.SetRequest? || e.GetRequest? || e.Reset?)
    ensures Sound(Step(sys, e).service)
  {
    hide Mirrors, Legal, CacheAgrees, Sendable;
    var s, s' := sys.service, Step(sys, e).service;
    RequestKeeps(s, s'.trace[|s.trace|], s');
  }

  lemma AttendKeeps(sys: System, sent: bool, cookie: Cookie)
    requires Sound(sys.service) && cookie !in sys.service.timers
    ensures Sound(StartNext(sys.service, sys.clock, sent, cookie))
  {
    hide Sound, Sendable;
    var s := sys.service;
    if s.phase == Idle && s.sets != [] && !Sendable(s.sets[0].value, s.sets[0].extended) {
      AbortKeeps(s, sys.clock, sent, cookie);
    } else if s.phase == Idle && s.sets != [] {
      SendSetKeeps(s, sys.clock, sent, cookie);
    } else if s.phase == Idle && s.gets != [] {
      SendGetKeeps(s, sys.clock, sent, cookie);
    }
  }

  lemma UnknownTypeKeeps(s: Service)
    requires Sound(s) && s.phase == GetBusy
    ensures Sound(Emit(s.(phase := Aborted), AbortGet(s.gets[0])))
  {
    hide AcceptedSets, AcceptedGets, AnsweredSets, AnsweredGets, InFlight, Legal, CacheAgrees, HoldsLatest, Sendable;
    var o := AbortGet(s.gets[0]);
    Extend(s.trace, o);
    CacheFollows(s, o, Emit(s.(phase := Aborted), o));
  }

  lemma ArrivalKeeps(s: Service, id: ParamId, value: Value)
    requires Sound(s)
    ensures Sound(ValueArrives(s, id, value))
  {
    hide Sound;
    if s.phase == SetBusy {
      DisarmedSetKeeps(s, true);
    } else if s.phase == GetBusy {
      DisarmedGetKeeps(s, Some(value));
    }
  }

  lemma ExtArrivalKeeps(s: Service, id: ParamId, tag: Tag, bytes: seq<byte>)
    requires Sound(s) && |bytes| == BUFFER
    ensures Sound(ExtValueArrives(s, id, tag, bytes))
  {
    hide Sound, Unpacked;
    if s.phase == GetBusy && tag == UNKNOWN {
      UnknownTypeKeeps(s);
    } else if s.phase == GetBusy {
      DisarmedGetKeeps(s, Some(Unpacked(tag, bytes)));
    }
  }

  lemma StepKeepsSound(sys: System, e: Event)
    requires Inv(sys)
    ensures Sound(Step(sys, e).service)
  {
    hide Sound, SetParam, GetParam, StartNext, ValueArrives, ExtValueArrives, ExtAckArrives, Expire, ClearCache,
         Sendable, Unpacked, Unpacked4;
    if Enabled(sys, e) {
      match e {
        case SetRequest(_) => RequestsKeep(sys, e);
        case GetRequest(_) => RequestsKeep(sys, e);
        case Reset => RequestsKeep(sys, e);
        case Attend(sent, cookie) => AttendKeeps(sys, sent, cookie);
        case Value4(id, tag, bytes) => ArrivalKeeps(sys.service, id, Unpacked4(tag, bytes));
        case ExtValue(id, tag, bytes) => ExtArrivalKeeps(sys.service, id, tag, bytes);
        case ExtAcked(id, result) => ExtAckKeeps(sys.service, sys.clock, id, result);
        case Fire(due) =>
          if sys.service.timers[due].callback == ParamTimeout {
            FireKeeps(sys.service, due);
          } else {
            OtherKeeps(sys, Remove(due));
          }
        case Tick(_) =>
        case Other(op) => OtherKeeps(sys, op);
      }
    }
  }

  lemma StepKeepsIssued(sys: System, e: Event)
    requires Keys(sys.service) <= sys.issued
    ensures Keys(Step(sys, e).service) <= Step(sys, e).issued
  {
    hide Sendable, Unpacked, Unpacked4, SetMessage, GetMessage;
  }

  lemma StepKeepsInv(sys: System, e: Event)
    requires Inv(sys)
    ensures Inv(Step(sys, e))
  {
    hide Sound, Step, Keys;
    StepKeepsSound(sys, e);
    StepKeepsIssued(sys, e);
  }

  lemma StartIsSound(clock: int)
    ensures Inv(Start(clock))
  {
    assert forall name :: HoldsLatest(map[], [], name);
  }

  lemma {:induction false} RunKeepsInv(clock: int, events: seq<Event>)
    ensures Inv(Run(Start(clock), events))
  {
    hide Step, Inv;
    if events == [] {
      StartIsSound(clock);
    } else {
      RunKeepsInv(clock, events[..|events| - 1]);
      StepKeepsInv(Run(Start(clock), events[..|events| - 1]), events[|events| - 1]);
    }
  }

  // ---------------------------------------------------------------- what every run guarantees

  lemma StateAndTimersAgree(clock: int, events: seq<Event>)
    ensures var s := Run(Start(clock), events).service;
            && (s.phase == SetBusy ==> s.sets != [])
            && (s.phase == GetBusy ==> s.gets != [])
            && (s.phase == SetBusy || s.phase == GetBusy ==> ParamTimers(s.timers) == {s.cookie})
            && (s.phase == Idle ==> ParamTimers(s.timers) == {})
  {
    hide Run, CacheAgrees, Legal;
    RunKeepsInv(clock, events);
  }

  /** Each queue is answered in the order of acceptance, each request at most once: the answered
      requests followed by the queued ones are the accepted ones. */
  lemma AnsweredThenQueuedIsAccepted(clock: int, events: seq<Event>)
    ensures var s := Run(Start(clock), events).service;
            && AnsweredSets(s.trace) + s.sets == AcceptedSets(s.trace)
            && AnsweredGets(s.trace) + s.gets == AcceptedGets(s.trace)
  {
    hide Run, CacheAgrees, Legal, TimerAgrees;
    RunKeepsInv(clock, events);
  }

  lemma {:induction false} LegalAt(tr: seq<Output>, p: nat)
    requires Legal(tr) && p < |tr|
    ensures Legal(tr[..p]) && LegalNext(tr[..p], tr[p])
  {
    var init := tr[..|tr| - 1];
    if p < |init| {
      LegalAt(init, p);
      assert init[..p] == tr[..p];
    }
  }

  /** A request is sent only while none is in flight, the oldest of its queue first, and a get only
      when every accepted set has been answered; only the request in flight is answered. */
  lemma OneRequestInFlight(clock: int, events: seq<Event>, p: nat)
    requires p < |Run(Start(clock), events).service.trace|
    ensures var tr := Run(Start(clock), events).service.trace;
            var before := tr[..p];
            && (tr[p].SendSet? || tr[p].SendGet? ==> InFlight(before) == Idle)
            && (tr[p].SendSet? ==> AnsweredSets(before) + [tr[p].set_] <= AcceptedSets(before))
            && (tr[p].SendGet? ==> AnsweredSets(before) == AcceptedSets(before))
            && (tr[p].SendGet? ==> AnsweredGets(before) + [tr[p].get_] <= AcceptedGets(before))
            && (tr[p].SetDone? ==> InFlight(before) == SetBusy)
            && (tr[p].SetDone? ==> AnsweredSets(before) + [tr[p].set_] <= AcceptedSets(before))
            && (tr[p].GetDone? ==> InFlight(before) == GetBusy)
            && (tr[p].GetDone? ==> AnsweredGets(before) + [tr[p].get_] <= AcceptedGets(before))
  {
    hide Run, CacheAgrees, Legal, TimerAgrees, Mirrors, AcceptedSets, AcceptedGets, AnsweredSets,
         AnsweredGets, InFlight;
    RunKeepsInv(clock, events);
    var tr := Run(Start(clock), events).service.trace;
    LegalAt(tr, p);
    AnsweredIsPrefix(tr[..p]);
  }

  lemma {:induction false} AnsweredIsPrefix(tr: seq<Output>)
    requires Legal(tr)
    ensures Backed(tr)
  {
    if tr != [] {
      var init, o := tr[..|tr| - 1], tr[|tr| - 1];
      AnsweredIsPrefix(init);
      hide LegalNext, Backed;
      StaysBacked(init, o);
      assert tr == init + [o];
    }
  }

  /** The answered requests are the first of the accepted ones, none of which has too long a name. */
  predicate Backed(tr: seq<Output>) {
    && AnsweredSets(tr) <= AcceptedSets(tr) && AnsweredGets(tr) <= AcceptedGets(tr)
    && (forall i :: 0 <= i < |AcceptedSets(tr)| ==> |AcceptedSets(tr)[i].name| <= PARAM_ID_LEN)
    && (forall i :: 0 <= i < |AcceptedGets(tr)| ==> |AcceptedGets(tr)[i].name| <= PARAM_ID_LEN)
  }

  lemma StaysBacked(tr: seq<Output>, o: Output)
    requires Backed(tr) && LegalNext(tr, o)
    ensures Backed(tr + [o])
  {
    hide AcceptedSets, AcceptedGets, AnsweredSets, AnsweredGets, InFlight, Legal, SetMessage, GetMessage, Sendable;
    Extend(tr, o);
  }

  /** The cache maps a name to exactly the value of its most recent successful set or get since the
      last reset, so while the process lives a get is answered at once with `value` exactly if that is
      this value. */
  lemma GetAnsweredAtOnceIffConfirmed(clock: int, events: seq<Event>, work: GetWork, value: Value)
    ensures var sys := Run(Start(clock), events);
            var tr := sys.service.trace;
            Step(sys, GetRequest(work)).service.trace == tr + [CacheHit(work.name, value)]
            <==> sys.service.phase != Aborted
                 && exists p :: LatestConfirmed(tr, work.name, p) && ConfirmedValue(tr[p], work.name) == value
  {
    hide Run, Legal, TimerAgrees, Mirrors, AcceptedSets, AcceptedGets, AnsweredSets, AnsweredGets, InFlight;
    RunKeepsInv(clock, events);
    var s := Run(Start(clock), events).service;
    assert HoldsLatest(s.cache, s.trace, work.name);
    if s.phase != Aborted {
      assert (s.trace + [CacheHit(work.name, value)])[|s.trace|] == CacheHit(work.name, value);
    }
    forall p | LatestConfirmed(s.trace, work.name, p)
      ensures |work.name| <= PARAM_ID_LEN
    {
      LegalAt(s.trace, p);
      AnsweredIsPrefix(s.trace[..p]);
    }
  }

  // ---------------------------------------------------------------- where answers come from

  /** A successful answer and the message that caused it: a get is answered with the value the message
      carries, a set confirmed by a message that names the parameter; a reply of an unknown type ends the
      process. */
  predicate Explains(e: Event, o: Output) {
    match o
    case GetDone(w, Some(value)) =>
      || (e.Value4? && |e.bytes| == 4 && SameId(w.name, e.id) && value == Unpacked4(e.tag, e.bytes))
      || (e.ExtValue? && |e.bytes| == BUFFER && SameId(w.name, e.id) && e.tag != UNKNOWN
          && value == Unpacked(e.tag, e.bytes))
    case AbortGet(w) => e.ExtValue? && SameId(w.name, e.id) && e.tag == UNKNOWN
    case SetDone(w, true) =>
      (e.Value4? && SameId(w.name, e.id)) || (e.ExtAcked? && SameId(w.name, e.id) && e.result == AckAccepted)
    case _ => true
  }

  lemma AttendExplains(s: Service, at: int, sent: bool, cookie: Cookie, e: Event)
    ensures var tr, tr' := s.trace, StartNext(s, at, sent, cookie).trace;
            tr <= tr' && forall q :: |tr| <= q < |tr'| ==> Explains(e, tr'[q])
  {
    hide SetMessage, GetMessage, Sendable, Added, Unpacked, Unpacked4;
  }

  lemma Value4Explains(s: Service, id: ParamId, tag: Tag, bytes: seq<byte>, e: Event)
    requires e == Value4(id, tag, bytes) && |bytes| == 4
    ensures var tr, tr' := s.trace, ValueArrives(s, id, Unpacked4(tag, bytes)).trace;
            tr <= tr' && forall q :: |tr| <= q < |tr'| ==> Explains(e, tr'[q])
  {
    hide Unpacked, Unpacked4, SameId, Removed;
  }

  lemma ExtValueExplains(s: Service, id: ParamId, tag: Tag, bytes: seq<byte>, e: Event)
    requires e == ExtValue(id, tag, bytes) && |bytes| == BUFFER
    ensures var tr, tr' := s.trace, ExtValueArrives(s, id, tag, bytes).trace;
            tr <= tr' && forall q :: |tr| <= q < |tr'| ==> Explains(e, tr'[q])
  {
    hide Unpacked, Unpacked4, SameId, Removed;
  }

  lemma ExtAckExplains(s: Service, at: int, id: ParamId, result: ExtAck, e: Event)
    requires e == ExtAcked(id, result)
    ensures var tr, tr' := s.trace, ExtAckArrives(s, at, id, result).trace;
            tr <= tr' && forall q :: |tr| <= q < |tr'| ==> Explains(e, tr'[q])
  {
    hide Unpacked, Unpacked4, SameId, Removed, Refreshed;
  }

  lemma StepExplains(sys: System, e: Event)
    ensures var tr, tr' := sys.service.trace, Step(sys, e).service.trace;
            tr <= tr' && forall q :: |tr| <= q < |tr'| ==> Explains(e, tr'[q])
  {
    hide StartNext, ValueArrives, ExtValueArrives, ExtAckArrives, Sendable, Expired, Apply, Unpacked, Unpacked4;
    if Enabled(sys, e) {
      match e {
        case Attend(sent, cookie) => AttendExplains(sys.service, sys.clock, sent, cookie, e);
        case Value4(id, tag, bytes) => Value4Explains(sys.service, id, tag, bytes, e);
        case ExtValue(id, tag, bytes) => ExtValueExplains(sys.service, id, tag, bytes, e);
        case ExtAcked(id, result) => ExtAckExplains(sys.service, sys.clock, id, result, e);
        case _ =>
      }
    }
  }

  /** Outputs are never taken back. */
  lemma {:induction false} TraceGrows(sys: System, events: seq<Event>)
    ensures sys.service.trace <= Run(sys, events).service.trace
  {
    hide Step;
    if events != [] {
      TraceGrows(sys, events[..|events| - 1]);
      StepExplains(Run(sys, events[..|events| - 1]), events[|events| - 1]);
    }
  }

  /** After a successful set, every get of the name is answered at once with the value set, until
      another completion for the name or a reset. */
  lemma SetIsReadBack(clock: int, events: seq<Event>, later: seq<Event>, extended: bool)
    requires var tr := Run(Start(clock), events).service.trace;
             tr != [] && tr[|tr| - 1].SetDone? && tr[|tr| - 1].ok
    requires var tr := Run(Start(clock), events).service.trace;
             var tr' := Run(Start(clock), events + later).service.trace;
             forall q :: |tr| <= q < |tr'| ==> !Confirms(tr'[q], tr[|tr| - 1].set_.name) && !tr'[q].CacheReset?
    requires Run(Start(clock), events + later).service.phase != Aborted
    ensures var work := Run(Start(clock), events).service.trace[|Run(Start(clock), events).service.trace| - 1].set_;
            var sys' := Run(Start(clock), events + later);
            Step(sys', GetRequest(GetWork(work.name, extended))).service.trace
            == sys'.service.trace + [CacheHit(work.name, work.value)]
  {
    hide Run, Step;
    var tr := Run(Start(clock), events).service.trace;
    var work := tr[|tr| - 1].set_;
    RunAppends(Start(clock), events, later);
    TraceGrows(Run(Start(clock), events), later);
    var tr' := Run(Start(clock), events + later).service.trace;
    assert tr'[|tr| - 1] == tr[|tr| - 1];
    assert LatestConfirmed(tr', work.name, |tr| - 1);
    GetAnsweredAtOnceIffConfirmed(clock, events + later, GetWork(work.name, extended), work.value);
  }

  lemma {:induction false} RunAppends(sys: System, events: seq<Event>, later: seq<Event>)
    ensures Run(sys, events + later) == Run(Run(sys, events), later)
  {
    hide Step;
    if later == [] {
      assert events + later == events;
    } else {
      var init := later[..|later| - 1];
      RunAppends(sys, events, init);
      assert (events + later)[..|events + later| - 1] == events + init;
    }
  }

  /** A busy service always has a live timer, and when it fires the request in flight fails and the
      service is free again. */
  lemma TimerFreesTheService(clock: int, events: seq<Event>)
    requires Run(Start(clock), events).service.phase in {SetBusy, GetBusy}
    ensures var sys := Run(Start(clock), events);
            var s := sys.service;
            && s.cookie in s.timers
            && (s.timers[s.cookie].deadline < sys.clock ==>
                  var s' := Step(sys, Fire(s.cookie)).service;
                  && s'.phase == Idle && s'.cache == s.cache
                  && s'.trace == s.trace + [if s.phase == SetBusy then SetDone(s.sets[0], false)
                                            else GetDone(s.gets[0], None)])
  {
    hide Run, CacheAgrees, Legal;
    RunKeepsInv(clock, events);
    var s := Run(Start(clock), events).service;
    assert s.cookie in ParamTimers(s.timers);
  }

  /** Every successful answer is given by the very step that handles a message which explains it. */
  lemma {:induction false} AnswerMeansReply(clock: int, events: seq<Event>, p: nat) returns (k: nat)
    requires p < |Run(Start(clock), events).service.trace|
    ensures k < |events| && Explains(events[k], Run(Start(clock), events).service.trace[p])
    ensures |Run(Start(clock), events[..k]).service.trace| <= p < |Run(Start(clock), events[..k + 1]).service.trace|
    decreases |events|
  {
    hide Step, Inv, Explains;
    NoneAtStart(clock);
    var init := events[..|events| - 1];
    RunKeepsInv(clock, init);
    StepExplains(Run(Start(clock), init), events[|events| - 1]);
    if p < |Run(Start(clock), init).service.trace| {
      k := AnswerMeansReply(clock, init, p);
      assert init[..k] == events[..k] && init[..k + 1] == events[..k + 1];
    } else {
      k := |events| - 1;
      assert events[..k + 1] == events;
    }
  }

  lemma NoneAtStart(clock: int)
    ensures Start(clock).service.trace == []
  {
  }

  // ---------------------------------------------------------------- the end of the process

  predicate AnswersGet(s: Service, id: ParamId) {
    s.phase == GetBusy && s.gets != [] && SameId(s.gets[0].name, id)
  }

  predicate AnswersSet(s: Service, id: ParamId) {
    s.phase == SetBusy && s.sets != [] && SameId(s.sets[0].name, id)
  }

  /** An idle service is about to pack a value the protocol asked for cannot carry. */
  predicate PacksUnsendable(s: Service) {
    s.phase == Idle && s.sets != [] && !Sendable(s.sets[0].value, s.sets[0].extended)
  }

  /** The process ends exactly when the service packs a value that cannot be sent, or an extended reply
      of unknown type answers the get in flight. */
  lemma AbortsIff(sys: System, e: Event)
    requires sys.service.phase != Aborted
    ensures Step(sys, e).service.phase == Aborted
       <==> Enabled(sys, e)
            && ((e.Attend? && PacksUnsendable(sys.service))
                || (e.ExtValue? && AnswersGet(sys.service, e.id) && e.tag == UNKNOWN))
  {
    hide Sendable, SetMessage, GetMessage, Unpacked, Unpacked4, SameId;
  }

  /** So a process never ends all of whose accepted sets can be sent, if no extended reply has an unknown
      type. */
  lemma SendableNeverAborts(clock: int, events: seq<Event>)
    requires var accepted := AcceptedSets(Run(Start(clock), events).service.trace);
             forall i :: 0 <= i < |accepted| ==> Sendable(accepted[i].value, accepted[i].extended)
    requires forall i :: 0 <= i < |events| && events[i].ExtValue? ==> events[i].tag != UNKNOWN
    ensures Run(Start(clock), events).service.phase != Aborted
  {
    hide Run, Sendable, AcceptedSets, AnsweredSets, Legal, CacheAgrees, SameId, Unpacked, Unpacked4;
    RunKeepsInv(clock, events);
    var s := Run(Start(clock), events).service;
    if s.phase == Aborted {
      if s.sets != [] {
        assert AcceptedSets(s.trace)[|AnsweredSets(s.trace)|] == s.sets[0];
      }
      var k := AnswerMeansReply(clock, events, |s.trace| - 1);
    }
  }

  /** Without any set, one such reply is enough. */
  lemma UnknownTypeAborts(bytes: seq<byte>)
    requires |bytes| == BUFFER
    ensures var work := GetWork("P", true);
            var s := Run(Start(0), [GetRequest(work), Attend(true, 1), ExtValue("P\0", UNKNOWN, bytes)]).service;
            && s.phase == Aborted && s.cache == map[] && AcceptedSets(s.trace) == []
            && s.trace == [GetAccepted(work), SendGet(work, GetMessage(work), true), AbortGet(work)]
  {
    var work := GetWork("P", true);
    var a, b, c := GetRequest(work), Attend(true, 1), ExtValue("P\0", UNKNOWN, bytes);
    GetIsSent(work, 1);
    TerminatedFieldMatchesIff("P", "P", "");
    assert "P" + "\0" + "" == "P\0";
    hide SameId, Terminated, Take, GetMessage, Step, Unpacked;
    UnknownTypeStep(Step(Step(Start(0), a), b), work, "P\0", bytes);
    RunOfThree(Start(0), a, b, c);
    var o1, o2, o3 := GetAccepted(work), SendGet(work, GetMessage(work), true), AbortGet(work);
    assert [o1, o2] + [o3] == [o1, o2, o3] && [o1] + [o2] == [o1, o2] && [] + [o1] == [o1];
    Extend([], o1);
    Extend([o1], o2);
    Extend([o1, o2], o3);
  }

  lemma GetIsSent(work: GetWork, cookie: Cookie)
    requires |work.name| <= PARAM_ID_LEN && cookie != NULL_COOKIE
    ensures var s := Step(Step(Start(0), GetRequest(work)), Attend(true, cookie)).service;
            && s.phase == GetBusy && s.gets == [work] && s.cache == map[]
            && s.trace == [GetAccepted(work), SendGet(work, GetMessage(work), true)]
  {
    hide GetMessage;
    var s1 := Step(Start(0), GetRequest(work));
    assert s1.service.gets == [work] && s1.service.trace == [GetAccepted(work)];
  }

  lemma UnknownTypeStep(sys: System, work: GetWork, id: ParamId, bytes: seq<byte>)
    requires sys.service.phase == GetBusy && sys.service.gets == [work] && SameId(work.name, id) && |bytes| == BUFFER
    ensures Step(sys, ExtValue(id, UNKNOWN, bytes)).service
         == sys.service.(phase := Aborted, trace := sys.service.trace + [AbortGet(work)])
  {
    hide SameId, Unpacked;
  }

  lemma RunOfThree(sys: System, a: Event, b: Event, c: Event)
    ensures Run(sys, [a, b, c]) == Step(Step(Step(sys, a), b), c)
  {
    hide Step;
    assert [a][..0] == [] && Run(sys, [a]) == Step(sys, a);
    assert [a, b][..1] == [a] && Run(sys, [a, b]) == Step(Run(sys, [a]), b);
    assert [a, b, c][..2] == [a, b];
  }

  // ---------------------------------------------------------------- what each event does

  /** The parameter timer is the one live one, and due half a second from now. */
  predicate ArmedAt(s: Service, cookie: Cookie, clock: int) {
    && s.cookie == cookie && ParamTimers(s.timers) == {cookie}
    && s.timers[cookie].deadline == clock + 500 * 1_000_000 && s.timers[cookie].durationMs == 500
  }

  /** The oldest set is done with and its caller told so; a success fixes the value of the name. */
  predicate SetEnds(s: Service, s': Service, outputs: seq<Output>, ok: bool) {
    && s.sets != []
    && s' == s.(phase := Idle, sets := s.sets[1..], timers := s'.timers, cache := s'.cache,
                trace := s.trace + outputs + [SetDone(s.sets[0], ok)])
    && s'.cache == (if ok then s.cache[s.sets[0].name := s.sets[0].value] else s.cache)
    && ParamTimers(s'.timers) == {}
  }

  predicate GetEnds(s: Service, s': Service, outputs: seq<Output>, answer: Option<Value>) {
    && s.gets != []
    && s' == s.(phase := Idle, gets := s.gets[1..], timers := s'.timers, cache := s'.cache,
                trace := s.trace + outputs + [GetDone(s.gets[0], answer)])
    && s'.cache == (if answer.Some? then s.cache[s.gets[0].name := answer.value] else s.cache)
    && ParamTimers(s'.timers) == {}
  }

  /** A set of a name of at most seventeen characters is queued behind the others, any other refused. */
  lemma SetIsQueuedIffShort(sys: System, work: SetWork)
    requires sys.service.phase != Aborted
    ensures var s, s' := sys.service, Step(sys, SetRequest(work)).service;
            s' == if |work.name| <= 17 then s.(sets := s.sets + [work], trace := s.trace + [SetAccepted(work)])
                  else s.(trace := s.trace + [Refused(work.name)])
  {
    hide Sendable;
  }

  /** A get of a cached name is answered at once, of another name of at most seventeen characters queued
      behind the others, of any longer name refused. */
  lemma GetIsAnsweredQueuedOrRefused(sys: System, work: GetWork)
    requires sys.service.phase != Aborted
    ensures var s, s' := sys.service, Step(sys, GetRequest(work)).service;
            s' == if |work.name| > 17 then s.(trace := s.trace + [Refused(work.name)])
                  else if work.name in s.cache then
                    s.(trace := s.trace + [CacheHit(work.name, s.cache[work.name])])
                  else s.(gets := s.gets + [work], trace := s.trace + [GetAccepted(work)])
  {
    hide Sendable;
  }

  /** An idle service sends its oldest set, or without sets its oldest get, and waits half a second for
      the answer; if it cannot be sent, the request has failed. Otherwise nothing happens. */
  lemma AttendSends(clock: int, events: seq<Event>, sent: bool, cookie: Cookie)
    requires Enabled(Run(Start(clock), events), Attend(sent, cookie))
    requires !PacksUnsendable(Run(Start(clock), events).service)
    ensures var sys := Run(Start(clock), events);
            var s, s' := sys.service, Step(sys, Attend(sent, cookie)).service;
            if s.phase != Idle || (s.sets == [] && s.gets == []) then s' == s
            else
              var o := if s.sets != [] then SendSet(s.sets[0], SetMessage(s.sets[0]), sent)
                       else SendGet(s.gets[0], GetMessage(s.gets[0]), sent);
              if sent then
                && s' == s.(phase := if s.sets != [] then SetBusy else GetBusy, cookie := cookie,
                            timers := s'.timers, trace := s.trace + [o])
                && ArmedAt(s', cookie, sys.clock)
              else if s.sets != [] then SetEnds(s, s', [o], false)
              else GetEnds(s, s', [o], None)
  {
    hide Run, CacheAgrees, Legal, Mirrors, Sendable, SetMessage, GetMessage;
    RunKeepsInv(clock, events);
  }

  /** A value that names the get in flight is its answer, also for later gets. It is the value that the
      message carries. */
  lemma ReplyAnswersGet(clock: int, events: seq<Event>, e: Event)
    requires var sys := Run(Start(clock), events);
             && Enabled(sys, e) && (e.Value4? || (e.ExtValue? && e.tag != UNKNOWN))
             && AnswersGet(sys.service, e.id)
    ensures var s, s' := Run(Start(clock), events).service, Run(Start(clock), events + [e]).service;
            GetEnds(s, s', [], Some(if e.Value4? then Unpacked4(e.tag, e.bytes) else Unpacked(e.tag, e.bytes)))
  {
    hide Run, CacheAgrees, Legal, Mirrors, Sendable, SameId, Unpacked, Unpacked4;
    RunOn(Start(clock), events, e);
    RunKeepsInv(clock, events);
    assert Run(Start(clock), events).service.trace + [] == Run(Start(clock), events).service.trace;
  }

  /** A set in flight succeeds on a plain value of its name, and on an extended acceptance. */
  lemma ReplyConfirmsSet(clock: int, events: seq<Event>, e: Event)
    requires var sys := Run(Start(clock), events);
             && Enabled(sys, e) && (e.Value4? || (e.ExtAcked? && e.result == AckAccepted))
             && AnswersSet(sys.service, e.id)
    ensures var s, s' := Run(Start(clock), events).service, Run(Start(clock), events + [e]).service;
            SetEnds(s, s', [], true)
  {
    hide Run, CacheAgrees, Legal, Mirrors, Sendable, SameId, Unpacked, Unpacked4;
    RunOn(Start(clock), events, e);
    RunKeepsInv(clock, events);
    assert Run(Start(clock), events).service.trace + [] == Run(Start(clock), events).service.trace;
  }

  /** Progress gives a set in flight another half second; any other extended answer fails it. */
  lemma OtherAckFailsSet(clock: int, events: seq<Event>, id: ParamId, result: ExtAck)
    requires var sys := Run(Start(clock), events);
             Enabled(sys, ExtAcked(id, result)) && result != AckAccepted && AnswersSet(sys.service, id)
    ensures var sys := Run(Start(clock), events);
            var s, s' := sys.service, Run(Start(clock), events + [ExtAcked(id, result)]).service;
            if result == AckInProgress then s' == s.(timers := s'.timers) && ArmedAt(s', s.cookie, sys.clock)
            else SetEnds(s, s', [], false)
  {
    hide Run, CacheAgrees, Legal, Mirrors, Sendable, SameId;
    RunOn(Start(clock), events, ExtAcked(id, result));
    RunKeepsInv(clock, events);
    TimersLastHalfASecond(clock, events);
    assert Run(Start(clock), events).service.trace + [] == Run(Start(clock), events).service.trace;
    var s := Run(Start(clock), events).service;
    assert s.cookie in ParamTimers(s.timers);
  }

  /** The next get of the name is then answered with that value. */
  lemma ConfirmedIsReadBack(clock: int, events: seq<Event>, e: Event, extended: bool)
    requires var sys := Run(Start(clock), events);
             && Enabled(sys, e) && (e.Value4? || (e.ExtAcked? && e.result == AckAccepted))
             && AnswersSet(sys.service, e.id)
    ensures var work, sys' := Run(Start(clock), events).service.sets[0], Run(Start(clock), events + [e]);
            Step(sys', GetRequest(GetWork(work.name, extended))).service.trace
            == sys'.service.trace + [CacheHit(work.name, work.value)]
  {
    hide Run, Step, SameId;
    ReplyConfirmsSet(clock, events, e);
    assert events + [e] + [] == events + [e];
    SetIsReadBack(clock, events + [e], [], extended);
  }

  /** After a reset every get of a name of at most seventeen characters goes to the network again. */
  lemma ResetForgets(sys: System, work: GetWork)
    requires sys.service.phase != Aborted && |work.name| <= 17
    ensures var reset := Step(sys, Reset);
            && reset.service == sys.service.(cache := map[], trace := sys.service.trace + [CacheReset])
            && Step(reset, GetRequest(work)).service.gets == sys.service.gets + [work]
  {
    hide Sendable;
  }

  /** Time, other users of the table and their timers leave the service as it is. */
  lemma OthersLeaveTheService(sys: System, e: Event)
    requires Enabled(sys, e)
    requires e.Tick? || e.Other? || (e.Fire? && sys.service.timers[e.due].callback != ParamTimeout)
    ensures Step(sys, e).service == sys.service.(timers := Step(sys, e).service.timers)
  {
    hide Sendable;
  }

  /** A reply changes nothing if it does not name the request in flight or is not of its kind: an
      extended value is no answer to a set, an extended acknowledgement none to a get. */
  lemma OtherRepliesAreIgnored(sys: System, e: Event)
    requires Enabled(sys, e) && (e.Value4? || e.ExtValue? || e.ExtAcked?)
    requires !(AnswersGet(sys.service, e.id) && !e.ExtAcked?) && !(AnswersSet(sys.service, e.id) && !e.ExtValue?)
    ensures Step(sys, e).service == sys.service
  {
    hide SameId, Unpacked, Unpacked4;
  }

  /** No parameter timer is due later than half a second from now. */
  ghost predicate HalfSeconds(sys: System) {
    forall c :: c in ParamTimers(sys.service.timers) ==>
      sys.service.timers[c].durationMs == 500 && sys.service.timers[c].deadline <= sys.clock + 500 * 1_000_000
  }

  lemma HalfSecondStep(sys: System, e: Event)
    requires HalfSeconds(sys)
    ensures HalfSeconds(Step(sys, e))
  {
    hide Sendable, SetMessage, GetMessage, SameId, Unpacked, Unpacked4;
  }

  /** So a request in flight without progress fails, or is answered, within half a second. */
  lemma {:induction false} TimersLastHalfASecond(clock: int, events: seq<Event>)
    ensures HalfSeconds(Run(Start(clock), events))
  {
    hide Step;
    if events != [] {
      TimersLastHalfASecond(clock, events[..|events| - 1]);
      HalfSecondStep(Run(Start(clock), events[..|events| - 1]), events[|events| - 1]);
    }
  }

  lemma RunOn(sys: System, events: seq<Event>, e: Event)
    ensures Run(sys, events + [e]) == Step(Run(sys, events), e)
  {
    hide Step;
    assert (events + [e])[..|events|] == events;
  }

  // ---------------------------------------------------------------- what a run does to the table

  /** The calls on the table that a handler makes. */
  function OpsOf(s: Service, e: Event, at: int): seq<Op> {
    match e
    case Attend(sent, cookie) =>
      if s.phase == Idle && (s.sets != [] || s.gets != []) && sent
         && (s.sets != [] ==> Sendable(s.sets[0].value, s.sets[0].extended))
      then [Add(cookie, ParamTimeout, TIMEOUT_MS, at)]
      else []
    case Value4(id, _, _) => if AnswersGet(s, id) || AnswersSet(s, id) then [Remove(s.cookie)] else []
    case ExtValue(id, tag, _) => if AnswersGet(s, id) && tag != UNKNOWN then [Remove(s.cookie)] else []
    case ExtAcked(id, result) =>
      if !AnswersSet(s, id) then []
      else if result == AckInProgress then [Op.Refresh(s.cookie, at)]
      else [Remove(s.cookie)]
    case Other(op) => [op]
    case _ => []
  }

  function EffectOf(sys: System, e: Event): Effect {
    if !Enabled(sys, e) then Uses([])
    else if e.Fire? then Fires(e.due, [])
    else Uses(OpsOf(sys.service, e, sys.clock))
  }

  function Effects(sys: System, events: seq<Event>): (effects: seq<Effect>)
    ensures |effects| == |events|
  {
    if events == [] then []
    else
      var init := events[..|events| - 1];
      Effects(sys, init) + [EffectOf(Run(sys, init), events[|events| - 1])]
  }

  lemma ArrivalIsAnEffect(sys: System, e: Event)
    requires Enabled(sys, e) && (e.Value4? || e.ExtValue? || e.ExtAcked?)
    ensures Step(sys, e).service.timers == ApplyAll(sys.service.timers, OpsOf(sys.service, e, sys.clock))
  {
    hide ApplyAll, Expired, SameId, Unpacked, Unpacked4, SetParam, GetParam, StartNext, Expire;
    var s, ops := sys.service, OpsOf(sys.service, e, sys.clock);
    NoOps(s.timers);
    if |ops| == 1 {
      OneOp(s.timers, ops[0]);
    }
  }

  lemma StepIsAnEffect(sys: System, e: Event)
    ensures Step(sys, e).service.timers == After(sys.service.timers, EffectOf(sys, e))
    ensures Timely(EffectOf(sys, e).ops, sys.clock) && sys.clock <= Step(sys, e).clock
    ensures EffectOf(sys, e).Fires? ==> EffectOf(sys, e).cookie in Expired(sys.service.timers, sys.clock)
  {
    hide ApplyAll, Expired, ParamTimers, Sendable, SetMessage, GetMessage, Unpacked, Unpacked4, SameId,
         ValueArrives, ExtValueArrives, ExtAckArrives;
    if Enabled(sys, e) && (e.Value4? || e.ExtValue? || e.ExtAcked?) {
      ArrivalIsAnEffect(sys, e);
    }
    var s, ops := sys.service, EffectOf(sys, e).ops;
    var t := if EffectOf(sys, e).Fires? then Removed(s.timers, e.due) else s.timers;
    NoOps(t);
    if |ops| == 1 {
      OneOp(t, ops[0]);
    }
  }

  /** Every run of the service and the other users is a trace of the timer table, made at the run's
      own clock. */
  lemma {:induction false} RunIsATrace(sys: System, events: seq<Event>)
    ensures Run(sys, events).service.timers == AfterAll(sys.service.timers, Effects(sys, events))
    ensures AllTimely(Effects(sys, events), sys.clock) && sys.clock <= Run(sys, events).clock
  {
    hide Step, EffectOf, After;
    if events != [] {
      var init := events[..|events| - 1];
      RunIsATrace(sys, init);
      StepIsAnEffect(Run(sys, init), events[|events| - 1]);
      assert Effects(sys, events)[..|init|] == Effects(sys, init);
    }
  }
}
