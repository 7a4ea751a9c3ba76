/** The worker pool of core/thread_pool.cpp over the blocking queue. */
module ThreadPools {
  import opened BlockingQueue

  /** Where a worker stands: at the loop test, about to lock the queue, waiting inside `dequeue`
      (blocked or woken, as the queue records), running a function, or returned. */
  datatype Place = AtTest | Entering | InWait | Running(item: Item) | Exited

  datatype Pool = Pool(queue: Monitor, shouldStop: bool, workers: map<Thread, Place>, done: seq<Item>)

  // ---------------------------------------------------------------- steps

  function Began(numThreads: nat): map<Thread, Place> {
    if numThreads == 0 then map[] else Began(numThreads - 1)[numThreads - 1 := AtTest]
  }

  function AfterAttempt(attempt: Attempt): Place {
    match attempt
    case Got(item) => Running(item)
    case Quit => AtTest
    case Waits => InWait
  }

  /** The worker can take its next step; only a blocked worker cannot. */
  predicate Ready(p: Pool, t: Thread) {
    t in p.workers && p.workers[t] != Exited && (p.workers[t] == InWait ==> t in p.queue.woken)
  }

  function WorkerStep(p: Pool, t: Thread): Pool
    requires Ready(p, t)
  {
    var place := p.workers[t];
    if place.AtTest? then p.(workers := p.workers[t := if p.shouldStop then Exited else Entering])
    else if place.Running? then p.(workers := p.workers[t := AtTest], done := p.done + [place.item])
    else p.(queue := Dequeued(p.queue, t), workers := p.workers[t := AfterAttempt(AttemptIn(p.queue))])
  }

  class ThreadPool {
    var shouldStop: bool
    const numThreads: nat
    var workers: map<Thread, Place>
    const workQueue: SafeQueue
    ghost var done: seq<Item>

    constructor (numThreads: nat)
      ensures fresh(workQueue) && this.numThreads == numThreads
      ensures View() == Pool(EMPTY, false, map[], [])
    {
      shouldStop := false;
      this.numThreads := numThreads;
      workers := map[];
      workQueue := new SafeQueue();
      done := [];
    }

    ghost function View(): Pool
      reads this, workQueue
    {
      Pool(workQueue.View(), shouldStop, workers, done)
    }

    method Start()
      requires workers == map[]
      modifies this
      ensures View() == old(View()).(shouldStop := false, workers := Began(numThreads))
    {
      shouldStop := false;
      for i := 0 to numThreads
        invariant workers == Began(i) && !shouldStop && done == old(done)
      {
        workers := workers[i := AtTest];
      }
    }

    /** The two effects of `stop` before it joins the workers; other threads run in between. */
    method StopQueue()
      modifies workQueue
      ensures View() == old(View()).(queue := Stopped(old(View()).queue))
    {
      workQueue.Stop();
    }

    method SetShouldStop()
      modifies this
      ensures View() == old(View()).(shouldStop := true)
    {
      shouldStop := true;
    }

    method Enqueue(item: Item, choice: Thread)
      requires workQueue.blocked != {} ==> choice in workQueue.blocked
      modifies workQueue
      ensures View() == old(View()).(queue := Enqueued(old(View()).queue, item, choice))
    {
      workQueue.Enqueue(item, choice);
    }

    method Work(t: Thread)
      requires Ready(View(), t) && t !in workQueue.blocked
      modifies this, workQueue
      ensures View() == WorkerStep(old(View()), t)
    {
      var place := workers[t];
      if place.AtTest? {
        workers := workers[t := if shouldStop then Exited else Entering];
      } else if place.Running? {
        done := done + [place.item];
        workers := workers[t := AtTest];
      } else {
        var attempt := workQueue.Dequeue(t);
        workers := workers[t := AfterAttempt(attempt)];
      }
    }
  }

  // ---------------------------------------------------------------- whole runs

  datatype Event =
    | Adds(item: Item, choice: Thread)
    | Works(thread: Thread)
    | Wakes(thread: Thread)
    | StopsQueue
    | SetsStop

  predicate Enabled(p: Pool, e: Event) {
    match e
    case Adds(_, choice) => p.queue.blocked != {} ==> choice in p.queue.blocked
    case Works(t) => Ready(p, t)
    case Wakes(t) => t in p.queue.blocked
    case StopsQueue => true
    case SetsStop => p.queue.shouldExit
  }

  function Step(p: Pool, e: Event): Pool {
    if !Enabled(p, e) then p
    else match e
      case Adds(item, choice) => p.(queue := Enqueued(p.queue, item, choice))
      case Works(t) => WorkerStep(p, t)
      case Wakes(t) => p.(queue := WakeSpuriously(p.queue, t))
      case StopsQueue => p.(queue := Stopped(p.queue))
      case SetsStop => p.(shouldStop := true)
  }

  function Run(p: Pool, events: seq<Event>): Pool {
    if events == [] then p
    else Step(Run(p, events[..|events| - 1]), events[|events| - 1])
  }

  function Start(numThreads: nat): Pool {
    Pool(EMPTY, false, Began(numThreads), [])
  }

  function Waiting(workers: map<Thread, Place>): set<Thread> {
    set t | t in workers && workers[t] == InWait
  }

  /** The queue and the workers agree on who waits. */
  predicate Inv(p: Pool) {
    && BlockingQueue.Inv(p.queue)
    && p.queue.blocked + p.queue.woken == Waiting(p.workers)
    && (p.shouldStop ==> p.queue.shouldExit)
  }

  lemma {:induction false} BeganWorkers(n: nat)
    ensures forall t :: t in Began(n) <==> 0 <= t < n
    ensures forall t :: t in Began(n) ==> Began(n)[t] == AtTest
  {
    if n > 0 {
      BeganWorkers(n - 1);
    }
  }

  lemma WaitingAfter(workers: map<Thread, Place>, t: Thread, place: Place)
    ensures Waiting(workers[t := place]) == Waiting(workers) - {t} + (if place == InWait then {t} else {})
  {
  }

  lemma LocalWorkKeeps(p: Pool, t: Thread, place: Place, done: seq<Item>)
    requires Inv(p) && t in p.workers && p.workers[t] != InWait && place != InWait
    ensures Inv(p.(workers := p.workers[t := place], done := done))
  {
    hide BlockingQueue.Inv;
    WaitingAfter(p.workers, t, place);
    assert t !in Waiting(p.workers);
    hide Waiting;
  }

  lemma DequeueKeeps(p: Pool, t: Thread)
    requires Inv(p) && Ready(p, t) && (p.workers[t] == Entering || p.workers[t] == InWait)
    ensures Inv(p.(queue := Dequeued(p.queue, t), workers := p.workers[t := AfterAttempt(AttemptIn(p.queue))]))
  {
    assert t !in p.queue.blocked by {
      EitherBlockedOrWoken(p.queue);
      assert t in Waiting(p.workers) <==> p.workers[t] == InWait;
    }
    hide BlockingQueue.Inv, Waiting;
    WaitingAfter(p.workers, t, AfterAttempt(AttemptIn(p.queue)));
    WaitersAfterDequeue(p.queue, t);
    BlockingQueue.StepKeepsInv(p.queue, Dequeues(t));
  }

  lemma WorkKeeps(p: Pool, t: Thread)
    requires Inv(p) && Ready(p, t)
    ensures Inv(WorkerStep(p, t))
  {
    hide Inv;
    var p' := WorkerStep(p, t);
    if p.workers[t].AtTest? || p.workers[t].Running? {
      LocalWorkKeeps(p, t, p'.workers[t], p'.done);
    } else {
      DequeueKeeps(p, t);
    }
  }

  lemma QueueStepKeeps(p: Pool, e: BlockingQueue.Event)
    requires Inv(p) && !e.Dequeues?
    ensures Inv(p.(queue := BlockingQueue.Step(p.queue, e)))
  {
    hide BlockingQueue.Inv, Waiting;
    BlockingQueue.StepKeepsInv(p.queue, e);
    BlockingQueue.WaitersOtherwise(p.queue, e);
  }

  lemma SetStopKeeps(p: Pool)
    requires Inv(p) && p.queue.shouldExit
    ensures Inv(p.(shouldStop := true))
  {
    hide BlockingQueue.Inv;
  }

  lemma StepKeepsInv(p: Pool, e: Event)
    requires Inv(p)
    ensures Inv(Step(p, e)) && Step(p, e).workers.Keys == p.workers.Keys
  {
    hide BlockingQueue.Inv, Waiting, Inv, Enqueued, Stopped;
    if Enabled(p, e) {
      match e {
        case Adds(item, choice) => QueueStepKeeps(p, Enqueues(item, choice));
        case Works(t) => WorkKeeps(p, t);
        case Wakes(t) => QueueStepKeeps(p, WakesSpuriously(t));
        case StopsQueue => QueueStepKeeps(p, Stops);
        case SetsStop => SetStopKeeps(p);
      }
    }
  }

  lemma {:induction false} RunKeepsInv(n: nat, events: seq<Event>)
    ensures Inv(Run(Start(n), events)) && Run(Start(n), events).workers.Keys == Began(n).Keys
  {
    if events == [] {
      BeganWorkers(n);
    } else {
      RunKeepsInv(n, events[..|events| - 1]);
      StepKeepsInv(Run(Start(n), events[..|events| - 1]), events[|events| - 1]);
    }
  }

  // ---------------------------------------------------------------- what is run

  function Occurs(s: seq<Item>, x: Item): nat {
    if s == [] then 0 else Occurs(s[..|s| - 1], x) + (if s[|s| - 1] == x then 1 else 0)
  }

  lemma OccursAfter(s: seq<Item>, last: Item, x: Item)
    ensures Occurs(s + [last], x) == Occurs(s, x) + (if last == x then 1 else 0)
  {
    assert (s + [last])[..|s|] == s;
  }

  function Holds(place: Place, x: Item): nat {
    if place == Running(x) then 1 else 0
  }

  /** How many of the workers below `n` are running `x`. */
  function InHand(workers: map<Thread, Place>, x: Item, n: nat): nat {
    if n == 0 then 0
    else InHand(workers, x, n - 1) + (if n - 1 in workers then Holds(workers[n - 1], x) else 0)
  }

  lemma {:induction false} InHandAfter(workers: map<Thread, Place>, t: Thread, place: Place, x: Item, n: nat)
    requires t in workers
    ensures InHand(workers[t := place], x, n)
         == InHand(workers, x, n) + (if t < n then Holds(place, x) - Holds(workers[t], x) else 0)
  {
    if n > 0 {
      InHandAfter(workers, t, place, x, n - 1);
    }
  }

  lemma {:induction false} InHandOfIdle(workers: map<Thread, Place>, x: Item, n: nat)
    requires forall t :: t in workers ==> workers[t] == AtTest
    ensures InHand(workers, x, n) == 0
  {
    if n > 0 {
      InHandOfIdle(workers, x, n - 1);
    }
  }

  /** Every function handed out is run exactly once: each is finished or in the hands of one worker. */
  predicate Conserved(p: Pool, x: Item, n: nat) {
    Occurs(p.queue.handed, x) == Occurs(p.done, x) + InHand(p.workers, x, n)
  }

  lemma StepConserves(p: Pool, e: Event, x: Item, n: nat)
    requires Conserved(p, x, n) && p.workers.Keys == Began(n).Keys
    ensures Conserved(Step(p, e), x, n)
  {
    hide Occurs, InHand, Began;
    if e.Works? && Enabled(p, e) {
      BeganWorkers(n);
      assert e.thread in Began(n);
      WorkConserves(p, e.thread, x, n);
    }
  }

  lemma ConservedAtStart(x: Item, n: nat)
    ensures Conserved(Start(n), x, n)
  {
    BeganWorkers(n);
    InHandOfIdle(Began(n), x, n);
  }

  /** Every function handed out is run exactly once: each is finished or in the hands of one worker. */
  lemma {:induction false} HandedOutIsRunOnce(n: nat, events: seq<Event>, x: Item)
    ensures var p := Run(Start(n), events);
            Occurs(p.queue.handed, x) == Occurs(p.done, x) + InHand(p.workers, x, n)
  {
    hide Occurs, InHand, Step, Began, Inv;
    if events == [] {
      ConservedAtStart(x, n);
    } else {
      HandedOutIsRunOnce(n, events[..|events| - 1], x);
      RunKeepsInv(n, events[..|events| - 1]);
      StepConserves(Run(Start(n), events[..|events| - 1]), events[|events| - 1], x, n);
    }
  }

  lemma WorkConserves(p: Pool, t: Thread, x: Item, n: nat)
    requires Ready(p, t) && t < n
    ensures var p' := WorkerStep(p, t);
            Occurs(p'.queue.handed, x) - Occurs(p'.done, x) - InHand(p'.workers, x, n)
            == Occurs(p.queue.handed, x) - Occurs(p.done, x) - InHand(p.workers, x, n)
  {
    var p' := WorkerStep(p, t);
    InHandAfter(p.workers, t, p'.workers[t], x, n);
    if p.workers[t].Running? {
      OccursAfter(p.done, p.workers[t].item, x);
    } else if p.queue.queue != [] {
      OccursAfter(p.queue.handed, p.queue.queue[0], x);
    }
  }

  /** The functions handed out are the first of those added, in order. */
  lemma HandedOutInOrder(n: nat, events: seq<Event>)
    ensures var p := Run(Start(n), events); p.queue.handed + p.queue.queue == p.queue.enqueued
  {
    RunKeepsInv(n, events);
  }

  // ---------------------------------------------------------------- shutting down

  /** How many more steps of its own a worker can take once the pool is stopped. */
  function StepsLeft(place: Place): nat {
    match place
    case Exited => 0
    case AtTest => 1
    case Running(_) => 2
    case _ => 3
  }

  /** How often worker `t` takes a step. */
  function StepsOf(p: Pool, events: seq<Event>, t: Thread): nat {
    if events == [] then 0
    else
      var init := events[..|events| - 1];
      StepsOf(p, init, t)
      + (if events[|events| - 1] == Works(t) && Enabled(Run(p, init), Works(t)) then 1 else 0)
  }

  /** After `stop` every worker that has not returned can go on, and it returns after at most three
      more steps of its own, so joining the workers never waits for a blocked one. */
  lemma StoppedStep(p: Pool, e: Event, t: Thread)
    requires Inv(p) && p.shouldStop && t in p.workers
    ensures var p', step := Step(p, e), e == Works(t) && Enabled(p, e);
            && p'.shouldStop && t in p'.workers
            && StepsLeft(p'.workers[t]) + (if step then 1 else 0) <= StepsLeft(p.workers[t])
  {
    NobodyBlocked(p);
    hide Inv;
  }

  lemma NobodyBlocked(p: Pool)
    requires Inv(p) && p.shouldStop
    ensures p.queue.shouldExit && p.queue.blocked == {}
    ensures forall t :: t in p.workers && p.workers[t] == InWait ==> t in p.queue.woken
  {
    forall t | t in p.workers && p.workers[t] == InWait
      ensures t in p.queue.woken
    {
      assert t in Waiting(p.workers);
      assert t in p.queue.blocked + p.queue.woken;
    }
  }

  lemma {:induction false} StoppedWorkersReturn(p: Pool, events: seq<Event>, t: Thread)
    requires Inv(p) && p.shouldStop && t in p.workers
    ensures var p' := Run(p, events);
            && Inv(p') && p'.shouldStop && t in p'.workers
            && (p'.workers[t] == Exited || Ready(p', t))
            && StepsOf(p, events, t) + StepsLeft(p'.workers[t]) <= StepsLeft(p.workers[t]) <= 3
  {
    hide Inv, Step, Enabled;
    if events != [] {
      var init := events[..|events| - 1];
      StoppedWorkersReturn(p, init, t);
      StepKeepsInv(Run(p, init), events[|events| - 1]);
      StoppedStep(Run(p, init), events[|events| - 1], t);
    }
    NobodyBlocked(Run(p, events));
  }

  // ---------------------------------------------------------------- what a worker does

  /** A worker only ever leaves a pool that was told to stop. */
  lemma {:induction false} WorkersStayUntilStopped(n: nat, events: seq<Event>, t: Thread)
    requires t < n
    ensures var p := Run(Start(n), events); t in p.workers && (p.workers[t] == Exited ==> p.shouldStop)
  {
    BeganWorkers(n);
    if events != [] {
      var init := events[..|events| - 1];
      WorkersStayUntilStopped(n, init, t);
      RunKeepsInv(n, init);
      hide Inv;
      StaysOrStopped(Run(Start(n), init), events[|events| - 1], t);
    }
  }

  lemma StaysOrStopped(p: Pool, e: Event, t: Thread)
    requires t in p.workers && (p.workers[t] == Exited ==> p.shouldStop)
    ensures var p' := Step(p, e); t in p'.workers && (p'.workers[t] == Exited ==> p'.shouldStop)
  {
    hide Enqueued, Dequeued, Stopped;
  }

  /** At the queue a worker takes the oldest function if there is one, else it goes back to its loop test
      after a stop, or waits. */
  predicate Takes(p: Pool, p': Pool, t: Thread)
    requires t in p'.workers
  {
    if p.queue.queue != [] then
      && p'.workers[t] == Running(p.queue.queue[0]) && p'.queue.queue == p.queue.queue[1..]
      && p'.queue.handed == p.queue.handed + [p.queue.queue[0]]
    else
      && p'.workers[t] == (if p.queue.shouldExit then AtTest else InWait)
      && p'.queue.queue == [] && p'.queue.handed == p.queue.handed
  }

  /** One step of a worker: at its loop test it leaves exactly if the pool was told to stop, and what it
      took from the queue it runs. */
  lemma WorkerTakesAndRuns(p: Pool, t: Thread)
    requires Ready(p, t)
    ensures var p' := Step(p, Works(t));
            && t in p'.workers && p'.shouldStop == p.shouldStop
            && (forall u :: u in p.workers && u != t ==> u in p'.workers && p'.workers[u] == p.workers[u])
            && if p.workers[t].AtTest? then
                 && p'.workers[t] == (if p.shouldStop then Exited else Entering)
                 && p'.queue == p.queue && p'.done == p.done
               else if p.workers[t].Running? then
                 && p'.workers[t] == AtTest && p'.queue == p.queue && p'.done == p.done + [p.workers[t].item]
               else Takes(p, p', t) && p'.done == p.done
  {
  }

  predicate AtQueue(place: Place) {
    place == Entering || place == InWait
  }

  /** Events among which nobody but `t` takes from the queue, and the pool is not stopped. */
  predicate Undisturbed(p: Pool, events: seq<Event>, t: Thread) {
    events == []
    || (var init, e := events[..|events| - 1], events[|events| - 1];
        && Undisturbed(p, init, t) && !e.StopsQueue? && !e.SetsStop?
        && (e.Works? && e.thread != t && e.thread in Run(p, init).workers ==>
              !AtQueue(Run(p, init).workers[e.thread])))
  }

  /** How far a worker has come that was at its loop test when `item` was the oldest function. */
  predicate HasCome(p: Pool, p': Pool, t: Thread, item: Item, steps: nat) {
    && t in p'.workers && !p'.shouldStop && p.done <= p'.done
    && match steps
       case 0 => p'.workers[t] == AtTest && p'.queue.queue != [] && p'.queue.queue[0] == item
       case 1 => p'.workers[t] == Entering && p'.queue.queue != [] && p'.queue.queue[0] == item
       case 2 => p'.workers[t] == Running(item)
       case _ => p'.workers[t] == AtTest && item in p'.done[|p.done|..]
  }

  lemma ComesOn(p: Pool, p': Pool, e: Event, t: Thread, item: Item, steps: nat)
    requires HasCome(p, p', t, item, steps) && steps <= 3 && (e == Works(t) && Enabled(p', e) ==> steps < 3)
    requires !e.StopsQueue? && !e.SetsStop?
    requires e.Works? && e.thread != t && e.thread in p'.workers ==> !AtQueue(p'.workers[e.thread])
    ensures HasCome(p, Step(p', e), t, item, if e == Works(t) && Enabled(p', e) then steps + 1 else steps)
  {
    hide WorkerStep, Takes;
    if e.Works? && Enabled(p', e) {
      WorkerTakesAndRuns(p', e.thread);
      if p'.queue.queue != [] {
        TakesFront(p', Step(p', e), e.thread);
      }
      if p'.workers[e.thread].Running? {
        DoneGrows(p.done, p'.done, p'.workers[e.thread].item);
      }
    }
  }

  lemma TakesFront(p: Pool, p': Pool, t: Thread)
    requires t in p'.workers && p.queue.queue != []
    ensures Takes(p, p', t) ==> p'.workers[t] == Running(p.queue.queue[0])
  {
  }

  lemma DoneGrows(before: seq<Item>, done: seq<Item>, item: Item)
    requires before <= done
    ensures before <= done + [item] && (done + [item])[|before|..] == done[|before|..] + [item]
  {
  }

  /** A worker at its loop test in a pool that is not stopped needs three steps of its own to run the
      oldest function, whatever else goes on that takes nothing from the queue. */
  lemma {:induction false} WorkerRunsTheOldest(p: Pool, events: seq<Event>, t: Thread)
    requires t in p.workers && p.workers[t] == AtTest && !p.shouldStop && p.queue.queue != []
    requires Undisturbed(p, events, t) && StepsOf(p, events, t) <= 3
    ensures HasCome(p, Run(p, events), t, p.queue.queue[0], StepsOf(p, events, t))
  {
    hide Step, Enabled, HasCome;
    if events == [] {
      HasNotMoved(p, t);
    } else {
      var init := events[..|events| - 1];
      WorkerRunsTheOldest(p, init, t);
      ComesOn(p, Run(p, init), events[|events| - 1], t, p.queue.queue[0], StepsOf(p, init, t));
    }
  }

  lemma HasNotMoved(p: Pool, t: Thread)
    requires t in p.workers && p.workers[t] == AtTest && !p.shouldStop && p.queue.queue != []
    ensures HasCome(p, p, t, p.queue.queue[0], 0)
  {
  }
}
