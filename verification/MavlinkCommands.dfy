/** The command service of core/mavlink_commands.cpp: one command in flight, retransmitted on
    timeout, over the shared timer table. Each handler is one atomic step. */
module Commands {
  import opened Queues
  import opened Wrappers
  import opened Timers

  datatype Phase = Idle | Waiting | InProgress

  /** The MAV_RESULT of an acknowledgement. */
  datatype AckResult = Accepted | Denied | Unsupported | TemporarilyRejected | Failed | Progressing | Unknown

  datatype Outcome = Success | ConnectionError | CommandDenied | TimedOut

  const RETRIES := 3
  const TIMEOUT_MS := 500

  /** `id` is the position of the command in the order of submission. */
  datatype Work = Work(id: nat, command: nat, retriesToDo: nat, timeoutMs: nat)

  /** What the outside sees: attempts to send a message, and results handed to callers. */
  datatype Output =
    | Transmit(id: nat, ok: bool, at: int)
    | Finish(id: nat, outcome: Outcome, at: int)

  /** The state of the service, the table it shares, and the history of both ends. */
  datatype Service = Service(
    phase: Phase,
    queue: seq<Work>,
    cookie: Cookie,
    timers: Table,
    submitted: seq<nat>,
    trace: seq<Output>)

  const FRESH := Service(Idle, [], NULL_COOKIE, map[], [], [])

  // ---------------------------------------------------------------- handlers as steps

  function Submit(s: Service, command: nat): Service {
    s.(queue := s.queue + [Work(|s.submitted|, command, RETRIES, TIMEOUT_MS)],
       submitted := s.submitted + [command])
  }

  function Attempt(s: Service, id: nat, ok: bool, at: int): Service {
    s.(trace := s.trace + [Transmit(id, ok, at)])
  }

  /** Go idle, drop the front and report its result. */
  function Complete(s: Service, outcome: Outcome, at: int): Service
    requires s.queue != []
  {
    s.(phase := Idle, queue := s.queue[1..], trace := s.trace + [Finish(s.queue[0].id, outcome, at)])
  }

  function Armed(s: Service, durationMs: nat, at: int, cookie: Cookie): Service {
    s.(timers := Added(s.timers, cookie, CommandTimeout, durationMs, at), cookie := cookie)
  }

  function Disarmed(s: Service): Service {
    s.(timers := Removed(s.timers, s.cookie))
  }

  function StartNext(s: Service, at: int, sent: bool, cookie: Cookie): Service {
    if s.queue == [] || s.phase != Idle then s
    else
      var tried := Attempt(s, s.queue[0].id, sent, at);
      if sent then Armed(tried.(phase := Waiting), s.queue[0].timeoutMs, at, cookie)
      else Complete(tried, ConnectionError, at)
  }

  function FinalOutcome(result: AckResult): Outcome {
    if result == Accepted then Success else CommandDenied
  }

  function Acknowledge(s: Service, at: int, command: nat, result: AckResult, cookie: Cookie): Service {
    if s.queue == [] || s.queue[0].command != command then s
    else if result == Unknown then s
    else if result == Progressing then
      Armed(Disarmed(s.(phase := InProgress)), s.queue[0].retriesToDo * s.queue[0].timeoutMs, at, cookie)
    else Complete(Disarmed(s), FinalOutcome(result), at)
  }

  /** The handler of the command timer, which has already left the table. */
  function Expire(s: Service, at: int, sent: bool, cookie: Cookie): Service {
    if s.phase != Waiting then s
    else if s.queue == [] then s.(phase := Idle)
    else if s.queue[0].retriesToDo > 0 then
      var tried := Attempt(s, s.queue[0].id, sent, at);
      if !sent then Complete(tried, ConnectionError, at)
      else
        var work := s.queue[0].(retriesToDo := s.queue[0].retriesToDo - 1);
        Armed(tried.(queue := s.queue[0 := work]), work.timeoutMs, at, cookie)
    else Complete(s, TimedOut, at)
  }

  // ---------------------------------------------------------------- the service object

  class MavlinkCommands {
    var state: Phase
    const workQueue: LockedQueue<Work>
    var timeoutCookie: Cookie
    const timeouts: TimeoutHandler
    var submitted: seq<nat>
    ghost var trace: seq<Output>

    constructor (timeouts: TimeoutHandler)
      ensures this.timeouts == timeouts && fresh(workQueue) && Ready()
      ensures View() == FRESH.(timers := timeouts.timeouts)
    {
      state := Idle;
      workQueue := new LockedQueue<Work>();
      timeoutCookie := NULL_COOKIE;
      this.timeouts := timeouts;
      submitted := [];
      trace := [];
    }

    /** Between handlers nobody holds the queue. */
    ghost predicate Ready()
      reads this, workQueue
    {
      !workQueue.held
    }

    ghost function View(): Service
      reads this, workQueue, timeouts
    {
      Service(state, workQueue.items, timeoutCookie, timeouts.timeouts, submitted, trace)
    }

    method QueueCommandAsync(command: nat)
      requires Ready()
      modifies this, workQueue
      ensures Ready() && View() == Submit(old(View()), command)
    {
      var work := Work(|submitted|, command, RETRIES, TIMEOUT_MS);
      workQueue.PushBack(work);
      submitted := submitted + [command];
    }

    method SendMessage(work: Work, clock: int, sent: bool) returns (ok: bool)
      modifies this`trace
      ensures ok == sent && trace == old(trace) + [Transmit(work.id, sent, clock)]
    {
      trace := trace + [Transmit(work.id, sent, clock)];
      ok := sent;
    }

    method CallCallback(work: Work, outcome: Outcome, clock: int)
      modifies this`trace
      ensures trace == old(trace) + [Finish(work.id, outcome, clock)]
    {
      trace := trace + [Finish(work.id, outcome, clock)];
    }

    method RegisterTimeout(durationMs: nat, clock: int, cookie: Cookie)
      requires Ready()
      modifies this`timeoutCookie, timeouts
      ensures Ready() && View() == Armed(old(View()), durationMs, clock, cookie)
    {
      timeoutCookie := timeouts.Add(CommandTimeout, durationMs, clock, cookie);
    }

    method DoWork(clock: int, sent: bool, cookie: Cookie)
      requires Ready()
      modifies this, workQueue, timeouts
      ensures Ready() && View() == StartNext(old(View()), clock, sent, cookie)
    {
      var front := workQueue.BorrowFront();
      if front.None? {
        return;
      }
      var work := front.value;
      match state {
        case Idle =>
          var ok := SendMessage(work, clock, sent);
          if !ok {
            workQueue.PopFront();
            state := Idle;
            CallCallback(work, ConnectionError, clock);
          } else {
            state := Waiting;
            workQueue.ReturnFront();
            RegisterTimeout(work.timeoutMs, clock, cookie);
          }
        case Waiting => workQueue.ReturnFront();
        case InProgress => workQueue.ReturnFront();
      }
    }

    method ReceiveCommandAck(clock: int, command: nat, result: AckResult, cookie: Cookie)
      requires Ready()
      modifies this, workQueue, timeouts
      ensures Ready() && View() == Acknowledge(old(View()), clock, command, result, cookie)
    {
      var front := workQueue.BorrowFront();
      if front.None? {
        return;
      }
      var work := front.value;
      if work.command != command {
        workQueue.ReturnFront();
        return;
      }
      if result == Unknown {
        workQueue.ReturnFront();
      } else if result == Progressing {
        state := InProgress;
        timeouts.Remove(timeoutCookie);
        workQueue.ReturnFront();
        RegisterTimeout(work.retriesToDo * work.timeoutMs, clock, cookie);
      } else {
        state := Idle;
        timeouts.Remove(timeoutCookie);
        workQueue.PopFront();
        CallCallback(work, FinalOutcome(result), clock);
      }
    }

    method ReceiveTimeout(clock: int, sent: bool, cookie: Cookie)
      requires Ready()
      modifies this, workQueue, timeouts
      ensures Ready() && View() == Expire(old(View()), clock, sent, cookie)
    {
      if state != Waiting {
        return;
      }
      var front := workQueue.BorrowFront();
      if front.None? {
        state := Idle;
        return;
      }
      var work := front.value;
      if work.retriesToDo > 0 {
        var ok := SendMessage(work, clock, sent);
        if !ok {
          state := Idle;
          workQueue.PopFront();
          CallCallback(work, ConnectionError, clock);
        } else {
          workQueue.WriteFront(work.(retriesToDo := work.retriesToDo - 1));
          workQueue.ReturnFront();
          RegisterTimeout(work.timeoutMs, clock, cookie);
        }
      } else {
        state := Idle;
        workQueue.PopFront();
        CallCallback(work, TimedOut, clock);
      }
    }
  }
}
