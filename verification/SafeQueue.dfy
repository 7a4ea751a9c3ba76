/** The condition-variable queue of core/safe_queue.h. A step is one stretch of a thread that holds
    the mutex: it ends by returning or by waiting on the condition variable. */
module BlockingQueue {

  type Thread = nat
  type Item = nat

  /** `blocked` threads wait and have not been notified; `woken` ones have been, or woke by
      themselves, and have yet to get the mutex back. The last two are the history of both ends. */
  datatype Monitor = Monitor(
    queue: seq<Item>,
    shouldExit: bool,
    blocked: set<Thread>,
    woken: set<Thread>,
    enqueued: seq<Item>,
    handed: seq<Item>)

  const EMPTY := Monitor([], false, {}, {}, [], [])

  /** What an attempt to dequeue comes to. */
  datatype Attempt = Got(item: Item) | Quit | Waits

  function AttemptIn(m: Monitor): Attempt {
    if m.queue != [] then Got(m.queue[0]) else if m.shouldExit then Quit else Waits
  }

  /** `notify_one` wakes any one of the blocked threads, here `choice`. */
  function Enqueued(m: Monitor, item: Item, choice: Thread): Monitor {
    var m' := m.(queue := m.queue + [item], enqueued := m.enqueued + [item]);
    if choice in m.blocked then m'.(blocked := m.blocked - {choice}, woken := m.woken + {choice}) else m'
  }

  /** A thread enters `dequeue`, or resumes after a wake-up and tests the loop condition again. */
  function Dequeued(m: Monitor, t: Thread): Monitor {
    var m' := m.(woken := m.woken - {t});
    match AttemptIn(m)
    case Got(item) => m'.(queue := m.queue[1..], handed := m.handed + [item])
    case Quit => m'
    case Waits => m'.(blocked := m.blocked + {t})
  }

  /** A condition variable may return from `wait` without a notification. */
  function WakeSpuriously(m: Monitor, t: Thread): Monitor {
    m.(blocked := m.blocked - {t}, woken := m.woken + {t})
  }

  function Stopped(m: Monitor): Monitor {
    m.(shouldExit := true, blocked := {}, woken := m.woken + m.blocked)
  }

  class SafeQueue {
    var queue: seq<Item>
    var shouldExit: bool
    var blocked: set<Thread>
    var woken: set<Thread>
    ghost var enqueued: seq<Item>
    ghost var handed: seq<Item>

    constructor ()
      ensures View() == EMPTY
    {
      queue, shouldExit, blocked, woken := [], false, {}, {};
      enqueued, handed := [], [];
    }

    ghost function View(): Monitor
      reads this
    {
      Monitor(queue, shouldExit, blocked, woken, enqueued, handed)
    }

    method NotifyOne(choice: Thread)
      modifies this`blocked, this`woken
      ensures blocked == old(blocked) - {choice}
      ensures woken == old(woken) + (if choice in old(blocked) then {choice} else {})
    {
      if choice in blocked {
        blocked := blocked - {choice};
        woken := woken + {choice};
      }
    }

    method Enqueue(item: Item, choice: Thread)
      requires blocked != {} ==> choice in blocked
      modifies this
      ensures View() == Enqueued(old(View()), item, choice)
    {
      queue := queue + [item];
      enqueued := enqueued + [item];
      NotifyOne(choice);
    }

    method Dequeue(t: Thread) returns (attempt: Attempt)
      requires t !in blocked
      modifies this
      ensures attempt == AttemptIn(old(View())) && View() == Dequeued(old(View()), t)
    {
      woken := woken - {t};
      if queue == [] {
        if shouldExit {
          return Quit;
        }
        blocked := blocked + {t};
        return Waits;
      }
      var item := queue[0];
      queue := queue[1..];
      handed := handed + [item];
      return Got(item);
    }

    method Stop()
      modifies this
      ensures View() == Stopped(old(View()))
    {
      shouldExit := true;
      woken := woken + blocked;
      blocked := {};
    }
  }

  // ---------------------------------------------------------------- any interleaving of steps

  datatype Event =
    | Enqueues(item: Item, choice: Thread)
    | Dequeues(thread: Thread)
    | WakesSpuriously(thread: Thread)
    | Stops

  predicate Enabled(m: Monitor, e: Event) {
    match e
    case Enqueues(_, choice) => m.blocked != {} ==> choice in m.blocked
    case Dequeues(t) => t !in m.blocked
    case WakesSpuriously(t) => t in m.blocked
    case Stops => true
  }

  function Step(m: Monitor, e: Event): Monitor {
    if !Enabled(m, e) then m
    else match e
      case Enqueues(item, choice) => Enqueued(m, item, choice)
      case Dequeues(t) => Dequeued(m, t)
      case WakesSpuriously(t) => WakeSpuriously(m, t)
      case Stops => Stopped(m)
  }

  function Run(m: Monitor, events: seq<Event>): Monitor {
    if events == [] then m
    else Step(Run(m, events[..|events| - 1]), events[|events| - 1])
  }

  predicate Inv(m: Monitor) {
    && m.blocked !! m.woken
    && (m.blocked != {} ==> |m.queue| <= |m.woken|)
    && (m.shouldExit ==> m.blocked == {})
    && m.handed + m.queue == m.enqueued
  }

  lemma EnqueuedKeeps(m: Monitor, item: Item, choice: Thread)
    requires Inv(m) && Enabled(m, Enqueues(item, choice))
    ensures Inv(Enqueued(m, item, choice))
  {
    assert m.handed + (m.queue + [item]) == (m.handed + m.queue) + [item];
  }

  lemma DequeuedKeeps(m: Monitor, t: Thread)
    requires Inv(m) && t !in m.blocked
    ensures Inv(Dequeued(m, t))
  {
    if m.queue != [] {
      assert m.handed + [m.queue[0]] + m.queue[1..] == m.handed + m.queue;
    }
  }

  lemma StepKeepsInv(m: Monitor, e: Event)
    requires Inv(m)
    ensures Inv(Step(m, e))
  {
    hide Enqueued, Dequeued;
    if Enabled(m, e) {
      match e {
        case Enqueues(item, choice) => EnqueuedKeeps(m, item, choice);
        case Dequeues(t) => DequeuedKeeps(m, t);
        case WakesSpuriously(t) =>
        case Stops =>
      }
    }
  }

  lemma EitherBlockedOrWoken(m: Monitor)
    requires Inv(m)
    ensures m.blocked !! m.woken
  {
  }

  /** Only a dequeue changes who waits, and that by one thread. */
  lemma WaitersOtherwise(m: Monitor, e: Event)
    requires !e.Dequeues?
    ensures Step(m, e).blocked + Step(m, e).woken == m.blocked + m.woken
  {
  }

  lemma WaitersAfterDequeue(m: Monitor, t: Thread)
    requires t !in m.blocked
    ensures var m' := Dequeued(m, t);
            m'.blocked + m'.woken == m.blocked + m.woken - {t} + (if AttemptIn(m) == Waits then {t} else {})
  {
  }

  lemma {:induction false} RunKeepsInv(events: seq<Event>)
    ensures Inv(Run(EMPTY, events))
  {
    if events != [] {
      RunKeepsInv(events[..|events| - 1]);
      StepKeepsInv(Run(EMPTY, events[..|events| - 1]), events[|events| - 1]);
    }
  }

  /** No wake-up is lost: while a thread is blocked, every queued item has a woken thread that is
      still to come and fetch it. */
  lemma NoLostWakeUp(events: seq<Event>)
    ensures var m := Run(EMPTY, events); m.blocked != {} ==> |m.queue| <= |m.woken|
  {
    RunKeepsInv(events);
  }

  /** What was handed out, followed by what is queued, is what was put in. */
  lemma HandedOutInOrder(events: seq<Event>)
    ensures var m := Run(EMPTY, events); m.handed + m.queue == m.enqueued && m.handed <= m.enqueued
  {
    RunKeepsInv(events);
  }

  /** Once stopped, no thread is ever blocked again. */
  lemma NobodyBlockedAfterStop(events: seq<Event>, later: seq<Event>)
    ensures Run(EMPTY, events + [Stops] + later).blocked == {}
  {
    RunKeepsInv(events + [Stops] + later);
    assert (events + [Stops])[..|events|] == events;
    ExitIsFinal(events + [Stops], later);
  }

  lemma {:induction false} ExitIsFinal(events: seq<Event>, later: seq<Event>)
    requires Run(EMPTY, events).shouldExit
    ensures Run(EMPTY, events + later).shouldExit
  {
    if later == [] {
      assert events + later == events;
    } else {
      ExitIsFinal(events, later[..|later| - 1]);
      assert (events + later)[..|events + later| - 1] == events + later[..|later| - 1];
    }
  }

  // ---------------------------------------------------------------- what each step does

  /** With items queued a thread gets the oldest, also after a stop; without any it leaves after a stop
      and else waits. What it is told is the same. */
  lemma DequeueHandsOutTheOldest(m: Monitor, t: Thread)
    requires t !in m.blocked
    ensures var m' := Step(m, Dequeues(t));
            && m'.shouldExit == m.shouldExit && m'.enqueued == m.enqueued && m'.woken == m.woken - {t}
            && if m.queue != [] then
                 && m'.queue == m.queue[1..] && m'.handed == m.handed + [m.queue[0]] && m'.blocked == m.blocked
                 && AttemptIn(m) == Got(m.queue[0])
               else
                 && m'.queue == [] && m'.handed == m.handed
                 && if m.shouldExit then m'.blocked == m.blocked && AttemptIn(m) == Quit
                    else m'.blocked == m.blocked + {t} && AttemptIn(m) == Waits
  {
  }

  /** So in every run a thread leaves without an item only when the queue is stopped and has none. */
  lemma QuitsOnlyWhenEmpty(events: seq<Event>, t: Thread)
    requires t !in Run(EMPTY, events).blocked && AttemptIn(Run(EMPTY, events)) == Quit
    ensures var m := Run(EMPTY, events); m.shouldExit && m.queue == [] && m.handed == m.enqueued
  {
    hide Run;
    RunKeepsInv(events);
    DequeueHandsOutTheOldest(Run(EMPTY, events), t);
  }

  /** A new item is last and wakes one blocked thread; a stop wakes all of them for good. */
  lemma EnqueueWakesOneStopWakesAll(m: Monitor, item: Item, choice: Thread)
    requires Enabled(m, Enqueues(item, choice))
    ensures var m' := Step(m, Enqueues(item, choice));
            && m'.queue == m.queue + [item] && m'.enqueued == m.enqueued + [item] && m'.handed == m.handed
            && m'.shouldExit == m.shouldExit
            && (m.blocked != {} ==> m'.blocked == m.blocked - {choice} && m'.woken == m.woken + {choice})
            && (m.blocked == {} ==> m'.blocked == {} && m'.woken == m.woken)
    ensures Step(m, Stops) == m.(shouldExit := true, blocked := {}, woken := m.woken + m.blocked)
  {
  }
}
