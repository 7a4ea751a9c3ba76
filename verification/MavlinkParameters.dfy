/** The parameter service of core/mavlink_parameters.cpp: a queue of sets, a queue of gets, one
    request in flight, and a cache. Each handler is one atomic step. */
module Parameters {
  import opened BoundedInts
  import opened Queues
  import opened Wrappers
  import opened Timers
  import opened ParamValues

  /** `Aborted` is the end of the process: the service was made to pack a value that has no wire form, or
      to unpack one of an unknown type. */
  datatype Phase = Idle | SetBusy | GetBusy | Aborted

  const PARAM_ID_LEN := 17
  const TIMEOUT_MS := 500

  /** What a message holds from its name field on: the field is not always terminated, and comparing 17
      characters of it may look at what follows it in the message. */
  type ParamId = string

  datatype SetWork = SetWork(name: string, value: Value, extended: bool)
  datatype GetWork = GetWork(name: string, extended: bool)

  datatype ExtAck = AckAccepted | AckInProgress | AckOther

  datatype Message =
    | ParamSet(id: string, tag: Tag, bytes: seq<byte>)
    | ParamExtSet(id: string, tag: Tag, bytes: seq<byte>)
    | ParamExtSetCustom(id: string)
    | ParamRequestRead(id: string)
    | ParamExtRequestRead(id: string)

  /** Everything a caller or the network sees, in order. `SetDone` and `GetDone` are the answers to
      accepted requests, `CacheHit` is a get answered at once, `Refused` a name that is too long. */
  datatype Output =
    | SetAccepted(set_: SetWork)
    | GetAccepted(get_: GetWork)
    | SendSet(set_: SetWork, message: Message, sent: bool)
    | SendGet(get_: GetWork, message: Message, sent: bool)
    | SetDone(set_: SetWork, ok: bool)
    | GetDone(get_: GetWork, answer: Option<Value>)
    | CacheHit(name: string, value: Value)
    | Refused(name: string)
    | CacheReset
    | AbortSet(set_: SetWork)
    | AbortGet(get_: GetWork)

  datatype Service = Service(
    phase: Phase,
    sets: seq<SetWork>,
    gets: seq<GetWork>,
    cache: map<string, Value>,
    cookie: Cookie,
    timers: Table,
    trace: seq<Output>)

  const FRESH := Service(Idle, [], [], map[], NULL_COOKIE, map[], [])

  // ---------------------------------------------------------------- messages

  /** The plain protocol can only carry the types it can read; an empty value has no wire form. */
  predicate Sendable(value: Value, extended: bool) {
    if extended then value != Null else Packed4(value).Some?
  }

  /** A C string: the characters before the first terminator. */
  function Terminated(s: string): string {
    if s == "" || s[0] == '\0' then "" else [s[0]] + Terminated(s[1..])
  }

  function Take(s: string, n: nat): string {
    if |s| <= n then s else s[..n]
  }

  /** `strncmp` over 17 characters. */
  predicate SameId(name: string, id: ParamId) {
    Take(Terminated(name), PARAM_ID_LEN) == Take(Terminated(id), PARAM_ID_LEN)
  }

  lemma {:induction false} TerminatedAt(text: string, tail: string)
    requires '\0' !in text && (tail == "" || tail[0] == '\0')
    ensures Terminated(text + tail) == text
  {
    if text != "" {
      TerminatedAt(text[1..], tail);
      assert (text + tail)[1..] == text[1..] + tail;
    }
  }

  /** A terminated name field names exactly one parameter, whatever follows it. */
  lemma TerminatedFieldMatchesIff(name: string, text: string, tail: string)
    requires '\0' !in name && '\0' !in text && |name| <= PARAM_ID_LEN && |text| < PARAM_ID_LEN
    ensures SameId(name, text + "\0" + tail) <==> name == text
  {
    TerminatedAt(name, "");
    assert name + "" == name && text + "\0" + tail == text + ("\0" + tail);
    TerminatedAt(text, "\0" + tail);
  }

  /** A field that its sixteen characters fill, not followed by a terminator, names the parameter whose
      name is one character longer, and no other. */
  lemma FullFieldMatchesIff(name: string, text: string, next: char, tail: string)
    requires '\0' !in name && '\0' !in text && next != '\0'
    requires |name| <= PARAM_ID_LEN && |text| == PARAM_ID_LEN - 1
    ensures SameId(name, text + [next] + tail) <==> name == text + [next]
  {
    TerminatedAt(name, "");
    assert name + "" == name;
    var id := text + [next] + tail;
    TerminatedStart(text + [next], tail);
    assert Take(Terminated(id), PARAM_ID_LEN) == text + [next];
  }

  lemma {:induction false} TerminatedStart(text: string, tail: string)
    requires '\0' !in text
    ensures Terminated(text + tail) == text + Terminated(tail)
  {
    if text == "" {
      assert text + tail == tail;
    } else {
      TerminatedStart(text[1..], tail);
      assert (text + tail)[1..] == text[1..] + tail;
      assert Terminated(text + tail) == [text[0]] + Terminated(text[1..] + tail);
      assert text == [text[0]] + text[1..];
    }
  }

  function WireName(name: string): string {
    Take(Terminated(name), PARAM_ID_LEN - 1)
  }

  function Zeros(n: nat): seq<byte> {
    seq(n, _ => 0)
  }

  /** What is sent for a custom value depends on the memory at its address, which is not modelled. */
  function SetMessage(work: SetWork): Message
    requires Sendable(work.value, work.extended)
  {
    if work.extended && work.value.Custom? then ParamExtSetCustom(WireName(work.name))
    else if work.extended then
      ParamExtSet(WireName(work.name), TagOf(work.value),
                  Packed(work.value) + Zeros(BUFFER)[|Packed(work.value)|..])
    else
      ParamSet(WireName(work.name), Packed4(work.value).value.0, Packed4(work.value).value.1)
  }

  function GetMessage(work: GetWork): Message {
    if work.extended then ParamExtRequestRead(WireName(work.name)) else ParamRequestRead(WireName(work.name))
  }

  /** A receiver that unpacks the message of a set of a scalar type finds exactly the value, and the name
      exactly if that has at most sixteen characters and no terminator. */
  lemma SetMessageCarriesTheValue(work: SetWork)
    requires Sendable(work.value, work.extended)
    ensures var m := SetMessage(work);
            && (m.id == work.name <==> |work.name| < PARAM_ID_LEN && '\0' !in work.name)
            && (m.ParamExtSet? <==> work.extended && !work.value.Custom?)
            && (m.ParamSet? <==> !work.extended)
            && (m.ParamExtSet? ==> |m.bytes| == BUFFER && Unpacked(m.tag, m.bytes) == work.value)
            && (m.ParamSet? ==> |m.bytes| == 4 && Unpacked4(m.tag, m.bytes) == work.value)
  {
    SetMessageNames(work);
    SetMessageValue(work);
    hide SetMessage, Unpacked, Unpacked4, Sendable;
  }

  lemma SetMessageNames(work: SetWork)
    requires Sendable(work.value, work.extended)
    ensures SetMessage(work).id == work.name <==> |work.name| < PARAM_ID_LEN && '\0' !in work.name
    ensures SetMessage(work).ParamExtSet? <==> work.extended && !work.value.Custom?
    ensures SetMessage(work).ParamSet? <==> !work.extended
  {
    hide WireName, Packed, Packed4;
    WireNameIsNameIff(work.name);
  }

  lemma SetMessageValue(work: SetWork)
    requires Sendable(work.value, work.extended)
    ensures var m := SetMessage(work);
            && (m.ParamExtSet? ==> |m.bytes| == BUFFER && Unpacked(m.tag, m.bytes) == work.value)
            && (m.ParamSet? ==> |m.bytes| == 4 && Unpacked4(m.tag, m.bytes) == work.value)
  {
    hide WireName, Terminated, Take, Unpacked, Unpacked4, Packed4;
    if work.extended {
      PackingRoundTrip(work.value, Zeros(BUFFER));
    } else {
      Packing4RoundTrip(work.value);
    }
  }

  /** The extended protocol carries anything but an empty value, the plain one floats and signed 32-bit
      integers. */
  lemma SendableIff(value: Value, extended: bool)
    ensures Sendable(value, extended) <==> if extended then !value.Null? else value.Real32? || value.Int32?
  {
  }

  /** The message of a get is of the extended protocol exactly if the request is, and names the parameter
      exactly if the name has at most sixteen characters and no terminator. */
  lemma GetMessageNamesTheParameter(work: GetWork)
    ensures var m := GetMessage(work);
            && (m.ParamExtRequestRead? <==> work.extended) && (m.ParamRequestRead? <==> !work.extended)
            && (m.id == work.name <==> |work.name| <= 16 && '\0' !in work.name)
  {
    hide WireName;
    WireNameIsNameIff(work.name);
  }

  lemma WireNameIsNameIff(name: string)
    ensures WireName(name) == name <==> |name| < PARAM_ID_LEN && '\0' !in name
  {
    NoTerminatorIn(name);
    if '\0' !in name {
      TerminatedAt(name, "");
      assert name + "" == name;
    }
  }

  lemma {:induction false} NoTerminatorIn(s: string)
    ensures '\0' !in Terminated(s) && |Terminated(s)| <= |s|
  {
    if s != "" && s[0] != '\0' {
      NoTerminatorIn(s[1..]);
    }
  }

  // ---------------------------------------------------------------- handlers as steps

  function Emit(s: Service, o: Output): Service {
    s.(trace := s.trace + [o])
  }

  function Armed(s: Service, at: int, cookie: Cookie): Service {
    s.(timers := Added(s.timers, cookie, ParamTimeout, TIMEOUT_MS, at), cookie := cookie)
  }

  function Disarmed(s: Service): Service {
    s.(timers := Removed(s.timers, s.cookie))
  }

  function FinishSet(s: Service, ok: bool): Service
    requires s.sets != []
  {
    Emit(s.(phase := Idle, sets := s.sets[1..],
            cache := if ok then s.cache[s.sets[0].name := s.sets[0].value] else s.cache),
         SetDone(s.sets[0], ok))
  }

  function FinishGet(s: Service, answer: Option<Value>): Service
    requires s.gets != []
  {
    Emit(s.(phase := Idle, gets := s.gets[1..],
            cache := if answer.Some? then s.cache[s.gets[0].name := answer.value] else s.cache),
         GetDone(s.gets[0], answer))
  }

  function SetParam(s: Service, work: SetWork): Service {
    if |work.name| > PARAM_ID_LEN then Emit(s, Refused(work.name))
    else Emit(s.(sets := s.sets + [work]), SetAccepted(work))
  }

  function GetParam(s: Service, work: GetWork): Service {
    if |work.name| > PARAM_ID_LEN then Emit(s, Refused(work.name))
    else if work.name in s.cache then Emit(s, CacheHit(work.name, s.cache[work.name]))
    else Emit(s.(gets := s.gets + [work]), GetAccepted(work))
  }

  function StartNext(s: Service, at: int, sent: bool, cookie: Cookie): Service {
    if s.phase != Idle then s
    else if s.sets != [] && !Sendable(s.sets[0].value, s.sets[0].extended) then
      Emit(s.(phase := Aborted), AbortSet(s.sets[0]))
    else if s.sets != [] then
      var tried := Emit(s, SendSet(s.sets[0], SetMessage(s.sets[0]), sent));
      if sent then Armed(tried.(phase := SetBusy), at, cookie) else FinishSet(tried, false)
    else if s.gets != [] then
      var tried := Emit(s, SendGet(s.gets[0], GetMessage(s.gets[0]), sent));
      if sent then Armed(tried.(phase := GetBusy), at, cookie) else FinishGet(tried, None)
    else s
  }

  /** PARAM_VALUE answers a get with the value it carries and confirms a set. */
  function ValueArrives(s: Service, id: ParamId, value: Value): Service {
    if s.phase == GetBusy && s.gets != [] && SameId(s.gets[0].name, id) then
      Disarmed(FinishGet(s, Some(value)))
    else if s.phase == SetBusy && s.sets != [] && SameId(s.sets[0].name, id) then
      Disarmed(FinishSet(s, true))
    else s
  }

  /** PARAM_EXT_VALUE only answers gets, and must not have a type the client does not know. */
  function ExtValueArrives(s: Service, id: ParamId, tag: Tag, bytes: seq<byte>): Service
    requires |bytes| == BUFFER
  {
    if s.phase == GetBusy && s.gets != [] && SameId(s.gets[0].name, id) then
      if tag == UNKNOWN then Emit(s.(phase := Aborted), AbortGet(s.gets[0]))
      else Disarmed(FinishGet(s, Some(Unpacked(tag, bytes))))
    else s
  }

  function ExtAckArrives(s: Service, at: int, id: ParamId, result: ExtAck): Service {
    if s.phase == SetBusy && s.sets != [] && SameId(s.sets[0].name, id) then
      match result
      case AckAccepted => Disarmed(FinishSet(s, true))
      case AckInProgress => s.(timers := Refreshed(s.timers, s.cookie, at))
      case AckOther => Disarmed(FinishSet(s, false))
    else s
  }

  /** The handler of the parameter timer, which has already left the table. */
  function Expire(s: Service): Service {
    if s.phase == GetBusy && s.gets != [] then FinishGet(s, None)
    else if s.phase == SetBusy && s.sets != [] then FinishSet(s, false)
    else s
  }

  function ClearCache(s: Service): Service {
    Emit(s.(cache := map[]), CacheReset)
  }

  // ---------------------------------------------------------------- the service object

  class MavlinkParameters {
    var state: Phase
    const setParamQueue: LockedQueue<SetWork>
    const getParamQueue: LockedQueue<GetWork>
    var cache: map<string, Value>
    var timeoutCookie: Cookie
    const timeouts: TimeoutHandler
    ghost var trace: seq<Output>

    constructor (timeouts: TimeoutHandler)
      ensures this.timeouts == timeouts && fresh(setParamQueue) && fresh(getParamQueue) && Ready()
      ensures View() == FRESH.(timers := timeouts.timeouts)
    {
      state := Idle;
      setParamQueue := new LockedQueue<SetWork>();
      getParamQueue := new LockedQueue<GetWork>();
      cache := map[];
      timeoutCookie := NULL_COOKIE;
      this.timeouts := timeouts;
      trace := [];
    }

    /** Between handlers nobody holds a queue, as long as the process lives. */
    ghost predicate Ready()
      reads this, setParamQueue, getParamQueue
    {
      && (setParamQueue as object) != getParamQueue
      && !setParamQueue.held && !getParamQueue.held && state != Aborted
    }

    ghost function View(): Service
      reads this, setParamQueue, getParamQueue, timeouts
    {
      Service(state, setParamQueue.items, getParamQueue.items, cache, timeoutCookie, timeouts.timeouts, trace)
    }

    method SetParamAsync(name: string, value: Value, extended: bool)
      requires Ready()
      modifies this, setParamQueue
      ensures Ready() && View() == SetParam(old(View()), SetWork(name, value, extended))
    {
      if |name| > PARAM_ID_LEN {
        trace := trace + [Refused(name)];
        return;
      }
      var work := SetWork(name, value, extended);
      setParamQueue.PushBack(work);
      trace := trace + [SetAccepted(work)];
    }

    method GetParamAsync(name: string, extended: bool)
      requires Ready()
      modifies this, getParamQueue
      ensures Ready() && View() == GetParam(old(View()), GetWork(name, extended))
    {
      if |name| > PARAM_ID_LEN {
        trace := trace + [Refused(name)];
        return;
      }
      if name in cache {
        trace := trace + [CacheHit(name, cache[name])];
        return;
      }
      var work := GetWork(name, extended);
      getParamQueue.PushBack(work);
      trace := trace + [GetAccepted(work)];
    }

    method DoWork(clock: int, sent: bool, cookie: Cookie)
      requires Ready()
      modifies this, setParamQueue, getParamQueue, timeouts
      ensures View() == StartNext(old(View()), clock, sent, cookie) && (state != Aborted ==> Ready())
    {
      hide SetMessage, GetMessage, Sendable;
      if state != Idle {
        return;
      }
      var setWork := setParamQueue.BorrowFront();
      var getWork := getParamQueue.BorrowFront();
      if setWork.None? && getWork.None? {
        return;
      }
      if setWork.Some? {
        getParamQueue.ReturnFront();
        state := SetBusy;
        if !Sendable(setWork.value.value, setWork.value.extended) {
          state := Aborted;
          trace := trace + [AbortSet(setWork.value)];
          return;
        }
        trace := trace + [SendSet(setWork.value, SetMessage(setWork.value), sent)];
        if !sent {
          trace := trace + [SetDone(setWork.value, false)];
          state := Idle;
          setParamQueue.PopFront();
          return;
        }
        timeoutCookie := timeouts.Add(ParamTimeout, TIMEOUT_MS, clock, cookie);
        setParamQueue.ReturnFront();
      } else {
        setParamQueue.ReturnFront();
        state := GetBusy;
        trace := trace + [SendGet(getWork.value, GetMessage(getWork.value), sent)];
        if !sent {
          trace := trace + [GetDone(getWork.value, None)];
          state := Idle;
          getParamQueue.PopFront();
          return;
        }
        timeoutCookie := timeouts.Add(ParamTimeout, TIMEOUT_MS, clock, cookie);
        getParamQueue.ReturnFront();
      }
    }

    method ResetCache()
      requires Ready()
      modifies this
      ensures Ready() && View() == ClearCache(old(View()))
    {
      cache := map[];
      trace := trace + [CacheReset];
    }

    method ProcessParamValue(id: ParamId, tag: Tag, bytes: seq<byte>)
      requires Ready() && |bytes| == 4
      modifies this, setParamQueue, getParamQueue, timeouts
      ensures Ready() && View() == ValueArrives(old(View()), id, Unpacked4(tag, bytes))
    {
      hide Unpacked4, SameId;
      if state == Idle {
        return;
      }
      if state == GetBusy {
        var work := getParamQueue.BorrowFront();
        if work.Some? {
          if SameId(work.value.name, id) {
            var value := Unpacked4(tag, bytes);
            cache := cache[work.value.name := value];
            trace := trace + [GetDone(work.value, Some(value))];
            state := Idle;
            timeouts.Remove(timeoutCookie);
            getParamQueue.PopFront();
          } else {
            getParamQueue.ReturnFront();
          }
        }
      } else if state == SetBusy {
        var work := setParamQueue.BorrowFront();
        if work.Some? {
          if SameId(work.value.name, id) {
            cache := cache[work.value.name := work.value.value];
            trace := trace + [SetDone(work.value, true)];
            state := Idle;
            timeouts.Remove(timeoutCookie);
            setParamQueue.PopFront();
          } else {
            setParamQueue.ReturnFront();
          }
        }
      }
    }

    method ProcessParamExtValue(id: ParamId, tag: Tag, bytes: seq<byte>)
      requires Ready() && |bytes| == BUFFER
      modifies this, getParamQueue, timeouts
      ensures View() == ExtValueArrives(old(View()), id, tag, bytes) && (state != Aborted ==> Ready())
    {
      hide Unpacked, SameId;
      if state == Idle {
        return;
      }
      if state == GetBusy {
        var work := getParamQueue.BorrowFront();
        if work.Some? {
          if SameId(work.value.name, id) {
            if tag == UNKNOWN {
              state := Aborted;
              trace := trace + [AbortGet(work.value)];
              return;
            }
            var value := Unpacked(tag, bytes);
            cache := cache[work.value.name := value];
            trace := trace + [GetDone(work.value, Some(value))];
            state := Idle;
            timeouts.Remove(timeoutCookie);
            getParamQueue.PopFront();
          } else {
            getParamQueue.ReturnFront();
          }
        }
      }
    }

    method ProcessParamExtAck(clock: int, id: ParamId, result: ExtAck)
      requires Ready()
      modifies this, setParamQueue, timeouts
      ensures Ready() && View() == ExtAckArrives(old(View()), clock, id, result)
    {
      hide SameId;
      if state != SetBusy {
        return;
      }
      var work := setParamQueue.BorrowFront();
      if work.Some? {
        if SameId(work.value.name, id) {
          match result {
            case AckAccepted =>
              cache := cache[work.value.name := work.value.value];
              trace := trace + [SetDone(work.value, true)];
              state := Idle;
              timeouts.Remove(timeoutCookie);
              setParamQueue.PopFront();
            case AckInProgress =>
              timeouts.Refresh(timeoutCookie, clock);
              setParamQueue.ReturnFront();
            case AckOther =>
              trace := trace + [SetDone(work.value, false)];
              state := Idle;
              timeouts.Remove(timeoutCookie);
              setParamQueue.PopFront();
          }
        } else {
          setParamQueue.ReturnFront();
        }
      }
    }

    method ReceiveTimeout()
      requires Ready()
      modifies this, setParamQueue, getParamQueue
      ensures Ready() && View() == Expire(old(View()))
    {
      if state == Idle {
        return;
      }
      if state == GetBusy {
        var work := getParamQueue.BorrowFront();
        if work.Some? {
          trace := trace + [GetDone(work.value, None)];
          state := Idle;
          getParamQueue.PopFront();
        }
      } else if state == SetBusy {
        var n := setParamQueue.Size();
        if n > 0 {
          var work := setParamQueue.BorrowFront();
          trace := trace + [SetDone(work.value, false)];
          state := Idle;
          setParamQueue.PopFront();
        }
      }
    }
  }
}
