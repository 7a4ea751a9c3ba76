/** The periodic scheduler of core/call_every_handler.cpp. The clock counts nanoseconds and intervals
    are whole milliseconds. A pass reads the clock anew at every entry it visits. */
module CallEvery {
  import Timers

  type Cookie = Timers.Cookie
  type Iterator = Timers.Iterator

  const NS_PER_MS := Timers.NS_PER_MS

  datatype Entry = Entry(lastTime: int, intervalMs: nat)

  type Entries = map<Cookie, Entry>

  /** One call made on the scheduler while a callback runs, with the clock it reads. */
  datatype Op =
    | Add(cookie: Cookie, intervalMs: nat, clock: int)
    | Change(cookie: Cookie, intervalMs: nat)
    | Reset(cookie: Cookie, clock: int)
    | Remove(cookie: Cookie)

  function Apply(t: Entries, op: Op): Entries {
    match op
    case Add(c, intervalMs, clock) => if c in t then t else t[c := Entry(clock, intervalMs)]
    case Change(c, intervalMs) => if c in t then t[c := t[c].(intervalMs := intervalMs)] else t
    case Reset(c, clock) => if c in t then t[c := t[c].(lastTime := clock)] else t
    case Remove(c) => t - {c}
  }

  function ApplyAll(t: Entries, ops: seq<Op>): Entries
    decreases ops
  {
    if ops == [] then t else ApplyAll(Apply(t, ops[0]), ops[1..])
  }

  predicate Evicts(t: Entries, ops: seq<Op>)
    decreases ops
  {
    ops != [] && ((ops[0].Remove? && ops[0].cookie in t) || Evicts(Apply(t, ops[0]), ops[1..]))
  }

  predicate Timely(ops: seq<Op>, now: int) {
    forall op :: op in ops ==> (op.Add? || op.Reset? ==> op.clock >= now)
  }

  /** Nothing among `ops` changes, resets or removes the entry of `c`; other entries may go. */
  predicate LeavesAlone(ops: seq<Op>, c: Cookie) {
    forall op :: op in ops && op.cookie == c ==> op.Add?
  }

  // ---------------------------------------------------------------- one entry

  predicate Due(e: Entry, now: int) {
    now - e.lastTime > e.intervalMs * NS_PER_MS
  }

  /** A pass calls a due entry once, and moves its time by exactly one interval. */
  function Visited(e: Entry, now: int): Entry {
    if Due(e, now) then e.(lastTime := e.lastTime + e.intervalMs * NS_PER_MS) else e
  }

  /** An entry after passes at the given times, and how often it was called. */
  function AfterPasses(e: Entry, times: seq<int>): (Entry, nat) {
    if times == [] then (e, 0)
    else
      var n := |times| - 1;
      var (before, calls) := AfterPasses(e, times[..n]);
      (Visited(before, times[n]), if Due(before, times[n]) then calls + 1 else calls)
  }

  /** The largest k with k intervals lying strictly between registration and `now`, or zero. */
  function Whole(sinceNs: int, intervalNs: int): (k: nat)
    requires intervalNs > 0
    ensures sinceNs > 0 ==> k * intervalNs < sinceNs <= (k + 1) * intervalNs
    ensures sinceNs <= 0 ==> k == 0
  {
    if sinceNs <= 0 then 0
    else
      WholeBounds(sinceNs, intervalNs);
      (sinceNs - 1) / intervalNs
  }

  lemma WholeBounds(s: int, i: int)
    requires s > 0 && i > 0
    ensures (s - 1) / i >= 0
    ensures (s - 1) / i * i < s <= ((s - 1) / i + 1) * i
  {
    var q := (s - 1) / i;
    assert (s - 1) == q * i + (s - 1) % i;
    assert (q + 1) * i == q * i + i;
  }

  lemma Multiples(a: int, b: int, i: int)
    requires a <= b && i >= 0
    ensures a * i <= b * i
  {
    assert b * i == a * i + (b - a) * i;
  }

  /** Whether `k` more intervals have passed is whether `k` is within the largest such number. */
  lemma WholeIsLargest(s: int, i: int, k: nat)
    requires i > 0 && k > 0
    ensures k * i < s <==> k <= Whole(s, i)
  {
    var w := Whole(s, i);
    if k <= w {
      Multiples(k, w, i);
    } else {
      Multiples(w + 1, k, i);
      Multiples(0, k, i);
    }
  }

  function Period(e: Entry): int {
    e.intervalMs * NS_PER_MS
  }

  /** Calls of an entry after passes at the given times. */
  function Calls(e: Entry, times: seq<int>): nat {
    AfterPasses(e, times).1
  }

  /** An entry never drifts: its time is its registration and one interval for every call. */
  lemma {:induction false} NoDrift(e: Entry, times: seq<int>)
    ensures AfterPasses(e, times).0 == e.(lastTime := e.lastTime + Calls(e, times) * Period(e))
  {
    if times != [] {
      var front := times[..|times| - 1];
      NoDrift(e, front);
      var c, i := Calls(e, front), Period(e);
      assert (c + 1) * i == c * i + i;
    }
  }

  ghost predicate Increasing(times: seq<int>) {
    forall j, k :: 0 <= j < k < |times| ==> times[j] <= times[k]
  }

  /** How many calls are due by a time. */
  function DueBy(e: Entry, now: int): nat
    requires e.intervalMs > 0
  {
    Whole(now - e.lastTime, Period(e))
  }

  /** A pass makes one of the calls due, if any is outstanding; it never calls too early. */
  lemma {:induction false} OneCallAPass(e: Entry, times: seq<int>)
    requires e.intervalMs > 0 && times != [] && Increasing(times)
    ensures var before, due := Calls(e, times[..|times| - 1]), DueBy(e, times[|times| - 1]);
            Calls(e, times) == if before < due then before + 1 else due
    decreases |times|
  {
    hide Whole;
    var n := |times| - 1;
    var front, now := times[..n], times[n];
    var c, i := Calls(e, front), Period(e);
    NoDrift(e, front);
    assert (c + 1) * i == c * i + i;
    WholeIsLargest(now - e.lastTime, i, c + 1);
    if front != [] {
      OneCallAPass(e, front);
      DueGrows(e, front[n - 1], now);
    }
  }

  lemma DueGrows(e: Entry, earlier: int, later: int)
    requires e.intervalMs > 0 && earlier <= later
    ensures DueBy(e, earlier) <= DueBy(e, later)
  {
    hide Whole;
    var k := DueBy(e, earlier);
    if k > 0 {
      WholeIsLargest(earlier - e.lastTime, Period(e), k);
      WholeIsLargest(later - e.lastTime, Period(e), k);
    }
  }

  /** The time before the first pass is that of the registration. */
  function Before(e: Entry, times: seq<int>, j: nat): int
    requires j < |times|
  {
    if j == 0 then e.lastTime else times[j - 1]
  }

  function CallsAt(e: Entry, times: seq<int>, j: nat): nat
    requires j < |times|
  {
    Calls(e, times[..j + 1])
  }

  ghost predicate OnSchedule(e: Entry, times: seq<int>)
    requires e.intervalMs > 0
  {
    forall j :: 0 <= j < |times| ==> CallsAt(e, times, j) == DueBy(e, times[j])
  }

  /** Every pass leaves exactly the calls made that are due, if and only if between no pass and the
      next more than one call becomes due. */
  lemma OnScheduleIff(e: Entry, times: seq<int>)
    requires e.intervalMs > 0 && Increasing(times)
    ensures OnSchedule(e, times)
       <==> forall j :: 0 <= j < |times| ==> DueBy(e, times[j]) <= DueBy(e, Before(e, times, j)) + 1
  {
    hide DueBy, CallsAt;
    if OnSchedule(e, times) {
      forall j | 0 <= j < |times|
        ensures DueBy(e, times[j]) <= DueBy(e, Before(e, times, j)) + 1
      {
        StepOfSchedule(e, times, j);
      }
    }
    if forall j :: 0 <= j < |times| ==> DueBy(e, times[j]) <= DueBy(e, Before(e, times, j)) + 1 {
      KeepsUp(e, times);
    }
  }

  lemma StepOfSchedule(e: Entry, times: seq<int>, j: nat)
    requires e.intervalMs > 0 && Increasing(times) && j < |times|
    ensures var before := if j == 0 then 0 else CallsAt(e, times, j - 1);
            CallsAt(e, times, j) == if before < DueBy(e, times[j]) then before + 1 else DueBy(e, times[j])
    ensures j == 0 ==> DueBy(e, Before(e, times, j)) == 0
  {
    var part := times[..j + 1];
    assert part[..j] == times[..j];
    OneCallAPass(e, part);
  }

  lemma CallsAtFront(e: Entry, times: seq<int>, n: nat, j: nat)
    requires j < n <= |times|
    ensures CallsAt(e, times[..n], j) == CallsAt(e, times, j) && Before(e, times[..n], j) == Before(e, times, j)
  {
    assert times[..n][..j + 1] == times[..j + 1];
  }

  lemma {:induction false} KeepsUp(e: Entry, times: seq<int>)
    requires e.intervalMs > 0 && Increasing(times)
    requires forall j :: 0 <= j < |times| ==> DueBy(e, times[j]) <= DueBy(e, Before(e, times, j)) + 1
    ensures OnSchedule(e, times)
    decreases |times|
  {
    hide DueBy, CallsAt, Before;
    if times != [] {
      var n := |times| - 1;
      var front := times[..n];
      forall j | 0 <= j < n
        ensures CallsAt(e, front, j) == CallsAt(e, times, j) && Before(e, front, j) == Before(e, times, j)
      {
        CallsAtFront(e, times, n, j);
      }
      KeepsUp(e, front);
      StepOfSchedule(e, times, n);
      BeforeIs(e, times, n);
    }
  }

  lemma BeforeIs(e: Entry, times: seq<int>, j: nat)
    requires j < |times|
    ensures j > 0 ==> Before(e, times, j) == times[j - 1]
  {
  }

  /** With passes no further apart than the interval, after every pass the number of calls is the
      largest k for which k intervals lie strictly between registration and the pass. */
  lemma PeriodicCalls(e: Entry, times: seq<int>)
    requires e.intervalMs > 0 && Increasing(times)
    requires forall j :: 0 <= j < |times| ==> times[j] - Before(e, times, j) <= Period(e)
    ensures OnSchedule(e, times)
  {
    hide OnSchedule;
    forall j | 0 <= j < |times|
      ensures DueBy(e, times[j]) <= DueBy(e, Before(e, times, j)) + 1
    {
      OneMoreDue(e, Before(e, times, j), times[j]);
    }
    OnScheduleIff(e, times);
  }

  lemma OneMoreDue(e: Entry, earlier: int, later: int)
    requires e.intervalMs > 0 && later - earlier <= Period(e)
    ensures DueBy(e, later) <= DueBy(e, earlier) + 1
  {
    hide Whole;
    var k, i := DueBy(e, earlier), Period(e);
    WholeIsLargest(earlier - e.lastTime, i, k + 1);
    WholeIsLargest(later - e.lastTime, i, k + 2);
    assert (k + 2) * i == (k + 1) * i + i;
  }

  // ---------------------------------------------------------------- a pass

  function Next(t: Entries, key: Cookie): (it: Iterator)
    ensures it.At? ==> it.key in t && it.key > key
    ensures forall c :: c in t && c > key ==> it.At? && it.key <= c
  {
    var later := set c | c in t && c > key;
    assert forall c :: c in t && c > key ==> c in later;
    Timers.First(later)
  }

  /** What a pass starts from and meets: the entries, whether something was removed before it, the clock
      at its n-th visit, and everything done to the scheduler around its k-th call. */
  datatype Pass = Pass(orig: Entries, pending: bool, readings: nat -> int, script: nat -> seq<Op>)

  /** How far a pass has come: `it` is where it would go on if it were not broken off. */
  datatype Walk = Walk(entries: Entries, it: Iterator, called: seq<Cookie>, visited: seq<Cookie>, broken: bool)

  predicate Ended(w: Walk) {
    w.it.End? || w.broken
  }

  /** What one visit does to the entries, before the pass moves on. */
  function Step(t: Entries, key: Cookie, ops: seq<Op>, now: int): Entries
    requires key in t
  {
    if Due(t[key], now) then ApplyAll(t[key := Visited(t[key], now)], ops) else t
  }

  predicate StepEvicts(t: Entries, key: Cookie, ops: seq<Op>, now: int)
    requires key in t
  {
    Due(t[key], now) && Evicts(t[key := Visited(t[key], now)], ops)
  }

  function NextVisit(p: Pass, w: Walk): Walk
    requires w.it.At? && w.it.key in w.entries
  {
    var key, now, ops := w.it.key, p.readings(|w.visited|), p.script(|w.called|);
    var t := Step(w.entries, key, ops, now);
    Walk(t, Next(t, key), if Due(w.entries[key], now) then w.called + [key] else w.called, w.visited + [key],
         p.pending || StepEvicts(w.entries, key, ops, now))
  }

  /** The pass after `n` visits, or where it ended before. A removal breaks it off behind the entry
      around whose call it happened, an earlier one behind the first entry. */
  function WalkAfter(p: Pass, n: nat): (w: Walk)
    ensures w.it.At? ==> w.it.key in w.entries
    ensures |w.visited| <= n && (!Ended(w) ==> |w.visited| == n)
  {
    if n == 0 then Walk(p.orig, Timers.First(p.orig.Keys), [], [], false)
    else
      var w := WalkAfter(p, n - 1);
      if Ended(w) then w else NextVisit(p, w)
  }

  lemma AtFirst(p: Pass)
    ensures WalkAfter(p, 0) == Walk(p.orig, Timers.First(p.orig.Keys), [], [], false)
    ensures Timers.First(p.orig.Keys).End? <==> p.orig == map[]
  {
    assert p.orig.Keys == {} <==> p.orig == map[];
  }

  lemma VisitIs(p: Pass, w: Walk, n: nat)
    requires w == WalkAfter(p, n) && !Ended(w)
    ensures WalkAfter(p, n + 1) == NextVisit(p, w) && |w.visited| == n
    ensures var w', key, now, ops := NextVisit(p, w), w.it.key, p.readings(n), p.script(|w.called|);
            && w'.entries == Step(w.entries, key, ops, now) && w'.it == Next(w'.entries, key)
            && w'.called == (if Due(w.entries[key], now) then w.called + [key] else w.called)
            && |w'.visited| == n + 1
            && w'.broken == (p.pending || StepEvicts(w.entries, key, ops, now))
  {
    hide Step, StepEvicts, Due;
  }

  // ---------------------------------------------------------------- entries nobody touches

  ghost predicate Quiet(script: nat -> seq<Op>, c: Cookie) {
    forall k: nat :: LeavesAlone(script(k), c)
  }

  lemma {:induction false} LeftAlone(t: Entries, ops: seq<Op>, c: Cookie)
    requires LeavesAlone(ops, c) && c in t
    ensures c in ApplyAll(t, ops) && ApplyAll(t, ops)[c] == t[c]
    decreases ops
  {
    if ops != [] {
      assert ops[0] in ops;
      LeftAlone(Apply(t, ops[0]), ops[1..], c);
    }
  }

  ghost predicate Reaches(it: Iterator, c: Cookie) {
    it.End? || c < it.key
  }

  /** The clock at the visits of an entry. */
  function SeenAt(visited: seq<Cookie>, readings: nat -> int, c: Cookie): seq<int> {
    if visited == [] then []
    else
      var n := |visited| - 1;
      SeenAt(visited[..n], readings, c) + (if visited[n] == c then [readings(n)] else [])
  }

  /** An entry is what its visits made of it. It was visited once if the pass came as far as it, and
      otherwise not. */
  ghost predicate Follows(p: Pass, w: Walk, c: Cookie)
    requires c in p.orig
  {
    var seen := SeenAt(w.visited, p.readings, c);
    && c in w.entries
    && (w.entries[c], multiset(w.called)[c]) == AfterPasses(p.orig[c], seen)
    && |seen| == if Reaches(w.it, c) then 1 else 0
  }

  lemma VisitOf(p: Pass, w: Walk, c: Cookie)
    requires w.it.At? && w.it.key in w.entries && c in w.entries && Quiet(p.script, c)
    ensures var w', own, now := NextVisit(p, w), c == w.it.key, p.readings(|w.visited|);
            var due := own && Due(w.entries[c], now);
            && c in w'.entries && w'.entries[c] == (if own then Visited(w.entries[c], now) else w.entries[c])
            && multiset(w'.called)[c] == multiset(w.called)[c] + (if due then 1 else 0)
            && SeenAt(w'.visited, p.readings, c) == SeenAt(w.visited, p.readings, c) + (if own then [now] else [])
            && (Reaches(w'.it, c) <==> own || Reaches(w.it, c))
  {
    hide ApplyAll, Due, Evicts, Quiet;
    var key, ops := w.it.key, p.script(|w.called|);
    var t := w.entries[key := Visited(w.entries[key], p.readings(|w.visited|))];
    assert (w.visited + [key])[..|w.visited|] == w.visited;
    assert LeavesAlone(ops, c) by {
      QuietAt(p.script, c, |w.called|);
    }
    LeftAlone(t, ops, c);
  }

  lemma QuietAt(script: nat -> seq<Op>, c: Cookie, k: nat)
    requires Quiet(script, c)
    ensures LeavesAlone(script(k), c)
  {
  }

  lemma VisitFollows(p: Pass, w: Walk, c: Cookie)
    requires w.it.At? && w.it.key in w.entries && c in p.orig && Quiet(p.script, c) && Follows(p, w, c)
    ensures Follows(p, NextVisit(p, w), c)
  {
    hide NextVisit, Due, Visited, SeenAt, AfterPasses, Quiet;
    VisitOf(p, w, c);
    var seen, now := SeenAt(w.visited, p.readings, c), p.readings(|w.visited|);
    if w.it.key == c {
      assert seen == [];
      OnePass(p.orig[c], [], now);
    } else {
      assert seen + [] == seen;
    }
  }

  lemma OnePass(e: Entry, times: seq<int>, now: int)
    ensures AfterPasses(e, []) == (e, 0)
    ensures var (before, calls) := AfterPasses(e, times);
            AfterPasses(e, times + [now]) == (Visited(before, now), if Due(before, now) then calls + 1 else calls)
  {
    hide Visited, Due;
    assert (times + [now])[..|times|] == times;
  }

  /** Whatever the callbacks do: an entry that none of them touches. */
  lemma {:induction false} WalkFollows(p: Pass, n: nat, c: Cookie)
    requires c in p.orig && Quiet(p.script, c)
    ensures Follows(p, WalkAfter(p, n), c)
  {
    hide NextVisit, Quiet;
    if n == 0 {
      assert SeenAt([], p.readings, c) == [];
    } else {
      WalkFollows(p, n - 1, c);
      var w := WalkAfter(p, n - 1);
      if !Ended(w) {
        VisitFollows(p, w, c);
      }
    }
  }

  /** The pass calls such an entry exactly if it comes as far as it and more than the interval has passed
      since its last time at its own visit; that time then moves on by one interval. */
  lemma CalledIffElapsed(p: Pass, n: nat, c: Cookie)
    requires c in p.orig && Quiet(p.script, c)
    ensures var w, e := WalkAfter(p, n), p.orig[c];
            var seen := SeenAt(w.visited, p.readings, c);
            var called := seen != [] && seen[0] - e.lastTime > e.intervalMs * 1_000_000;
            && (seen != [] <==> w.it.End? || c < w.it.key)
            && (c in w.called <==> called)
            && c in w.entries
            && w.entries[c] == Entry(if called then e.lastTime + e.intervalMs * 1_000_000 else e.lastTime, e.intervalMs)
  {
    hide WalkAfter, SeenAt, Quiet;
    WalkFollows(p, n, c);
    var seen := SeenAt(WalkAfter(p, n).visited, p.readings, c);
    if seen != [] {
      assert seen == [] + [seen[0]];
      OnePass(p.orig[c], [], seen[0]);
    }
  }

  /** Some removal among `ops` finds its entry. */
  lemma {:induction false} EvictsIff(t: Entries, ops: seq<Op>)
    ensures Evicts(t, ops)
       <==> exists i :: 0 <= i < |ops| && ops[i].Remove? && ops[i].cookie in ApplyAll(t, ops[..i])
    decreases ops
  {
    if ops != [] {
      var op, rest := ops[0], ops[1..];
      EvictsIff(Apply(t, op), rest);
      forall i | 0 <= i < |rest|
        ensures ApplyAll(t, ops[..i + 1]) == ApplyAll(Apply(t, op), rest[..i])
      {
        assert ops[..i + 1][1..] == rest[..i];
      }
      assert ops[..0] == [];
      if i :| 0 <= i < |rest| && rest[i].Remove? && rest[i].cookie in ApplyAll(Apply(t, op), rest[..i]) {
        assert ops[i + 1] == rest[i];
      }
      if i :| 0 <= i < |ops| && ops[i].Remove? && ops[i].cookie in ApplyAll(t, ops[..i]) {
        assert i > 0 ==> rest[i - 1] == ops[i];
      }
    }
  }

  /** A pass goes on to the next entry in order, and is broken off by the first visit exactly if something
      was removed before it, and by any visit around whose call an entry was removed. */
  lemma BreaksIffRemoved(p: Pass, n: nat)
    requires !Ended(WalkAfter(p, n))
    ensures var w, w' := WalkAfter(p, n), WalkAfter(p, n + 1);
            var key, e, ops := w.it.key, w.entries[w.it.key], p.script(|w.called|);
            var due, moved := p.readings(n) - e.lastTime > e.intervalMs * 1_000_000,
                              Entry(e.lastTime + e.intervalMs * 1_000_000, e.intervalMs);
            && (w'.broken <==>
                  || p.pending
                  || (due && exists i :: 0 <= i < |ops| && ops[i].Remove?
                                         && ops[i].cookie in ApplyAll(w.entries[key := moved], ops[..i])))
            && w'.entries == (if due then ApplyAll(w.entries[key := moved], ops) else w.entries)
            && w'.called == (if due then w.called + [key] else w.called)
            && (w'.it.End? <==> forall c :: c in w'.entries ==> c <= key)
            && (w'.it.At? ==> key < w'.it.key && forall c :: c in w'.entries && c > key ==> w'.it.key <= c)
  {
    hide ApplyAll, Evicts, WalkAfter;
    var w := WalkAfter(p, n);
    var key, now, ops := w.it.key, p.readings(n), p.script(|w.called|);
    VisitIs(p, w, n);
    EvictsIff(w.entries[key := Visited(w.entries[key], now)], ops);
  }

  /** A new entry counts its interval from its registration. */
  lemma AddedCounts(t: Entries, c: Cookie, ms: nat, at: int, ops: seq<Op>)
    requires c !in t && LeavesAlone(ops, c)
    ensures var t' := ApplyAll(t, [Op.Add(c, ms, at)] + ops); c in t' && t'[c] == Entry(at, ms)
  {
    assert ([Op.Add(c, ms, at)] + ops)[1..] == ops;
    LeftAlone(Apply(t, Op.Add(c, ms, at)), ops, c);
  }

  /** A change of the interval keeps the last time, and a reset the interval. */
  lemma ChangeAndReset(t: Entries, c: Cookie, ms: nat, at: int, ops: seq<Op>)
    requires c in t && LeavesAlone(ops, c)
    ensures var t' := ApplyAll(t, [Op.Change(c, ms)] + ops); c in t' && t'[c] == Entry(t[c].lastTime, ms)
    ensures var t' := ApplyAll(t, [Op.Reset(c, at)] + ops); c in t' && t'[c] == Entry(at, t[c].intervalMs)
  {
    assert ([Op.Change(c, ms)] + ops)[1..] == ops && ([Op.Reset(c, at)] + ops)[1..] == ops;
    LeftAlone(Apply(t, Op.Change(c, ms)), ops, c);
    LeftAlone(Apply(t, Op.Reset(c, at)), ops, c);
  }

  /** A removed entry is gone, unless it is added again. */
  lemma {:induction false} RemovedIsGone(t: Entries, c: Cookie, ops: seq<Op>)
    requires forall op :: op in ops ==> op.cookie != c
    ensures c !in ApplyAll(t, [Op.Remove(c)] + ops)
  {
    assert ([Op.Remove(c)] + ops)[1..] == ops;
    StaysAway(Apply(t, Op.Remove(c)), ops, c);
  }

  lemma {:induction false} StaysAway(t: Entries, ops: seq<Op>, c: Cookie)
    requires c !in t && forall op :: op in ops ==> op.cookie != c
    ensures c !in ApplyAll(t, ops)
    decreases ops
  {
    if ops != [] {
      assert ops[0] in ops;
      StaysAway(Apply(t, ops[0]), ops[1..], c);
    }
  }

  // ---------------------------------------------------------------- when a pass ends

  ghost predicate Ends(p: Pass) {
    exists n: nat :: Ended(WalkAfter(p, n))
  }

  function Registered(ops: seq<Op>): nat
    decreases ops
  {
    if ops == [] then 0 else (if ops[0].Add? then 1 else 0) + Registered(ops[1..])
  }

  /** How many registrations the first `k` calls make. */
  function Added(script: nat -> seq<Op>, k: nat): nat {
    if k == 0 then 0 else Added(script, k - 1) + Registered(script(k - 1))
  }

  ghost predicate RegistersAtMost(p: Pass, m: nat) {
    forall n: nat :: Added(p.script, |WalkAfter(p, n).called|) <= m
  }

  /** The callbacks of the pass register finitely many entries. */
  ghost predicate RegistersFew(p: Pass) {
    exists m: nat :: RegistersAtMost(p, m)
  }

  ghost function Behind(t: Entries, key: Cookie): set<Cookie> {
    set c | c in t && c > key
  }

  ghost function Left(w: Walk): set<Cookie> {
    if w.it.End? then {} else set c | c in w.entries && c >= w.it.key
  }

  lemma {:induction false} BehindGrows(t: Entries, ops: seq<Op>, key: Cookie)
    ensures |Behind(ApplyAll(t, ops), key)| <= |Behind(t, key)| + Registered(ops)
    decreases ops
  {
    if ops != [] {
      var op, t' := ops[0], Apply(t, ops[0]);
      BehindGrows(t', ops[1..], key);
      if op.Add? {
        Subset(Behind(t', key), Behind(t, key) + {op.cookie});
      } else {
        Subset(Behind(t', key), Behind(t, key));
      }
    }
  }

  lemma {:induction false} Subset<T>(a: set<T>, b: set<T>)
    requires a <= b
    ensures |a| <= |b|
  {
    assert b == a + (b - a);
  }

  lemma VisitLeaves(p: Pass, w: Walk)
    requires w.it.At? && w.it.key in w.entries
    ensures var w' := NextVisit(p, w);
            |Left(w')| + 1 + Added(p.script, |w.called|) <= |Left(w)| + Added(p.script, |w'.called|)
  {
    hide ApplyAll, Due, Visited, Evicts, Registered, Left, Behind;
    var key, ops := w.it.key, p.script(|w.called|);
    var e, w' := Visited(w.entries[key], p.readings(|w.visited|)), NextVisit(p, w);
    LeftIsBehind(p, w);
    SameBehind(w.entries, key, e);
    BehindGrows(w.entries[key := e], ops, key);
  }

  lemma SameBehind(t: Entries, key: Cookie, e: Entry)
    ensures Behind(t[key := e], key) == Behind(t, key)
  {
  }

  lemma LeftIsBehind(p: Pass, w: Walk)
    requires w.it.At? && w.it.key in w.entries
    ensures |Left(w)| == |Behind(w.entries, w.it.key)| + 1
    ensures Left(NextVisit(p, w)) == Behind(NextVisit(p, w).entries, w.it.key)
  {
    hide Step, StepEvicts, Due;
    assert Left(w) == Behind(w.entries, w.it.key) + {w.it.key};
  }

  /** A pass has at most as many visits as there were entries and were registered since. */
  lemma {:induction false} VisitsLeft(p: Pass, n: nat)
    ensures var w := WalkAfter(p, n);
            |w.visited| + |Left(w)| <= |p.orig.Keys| + Added(p.script, |w.called|)
  {
    hide NextVisit, Left, Added;
    var w := WalkAfter(p, n);
    if n == 0 {
      LeftAtFirst(p);
    } else {
      VisitsLeft(p, n - 1);
      var before := WalkAfter(p, n - 1);
      if !Ended(before) {
        VisitLeaves(p, before);
        VisitIs(p, before, n - 1);
      }
    }
  }

  lemma LeftAtFirst(p: Pass)
    ensures |Left(WalkAfter(p, 0))| == |p.orig.Keys| && Added(p.script, 0) == 0
  {
    assert Left(WalkAfter(p, 0)) == p.orig.Keys;
  }

  lemma StillGoing(p: Pass, n: nat, m: nat)
    requires RegistersAtMost(p, m) && !Ended(WalkAfter(p, n))
    ensures n < |p.orig.Keys| + m
  {
    hide WalkAfter, Added;
    var w := WalkAfter(p, n);
    VisitsLeft(p, n);
    assert w.it.key in Left(w);
    assert Added(p.script, |WalkAfter(p, n).called|) <= m;
  }

  lemma {:induction false} AddedMore(script: nat -> seq<Op>, j: nat, k: nat)
    requires j <= k
    ensures Added(script, j) <= Added(script, k)
  {
    if j < k {
      AddedMore(script, j, k - 1);
    }
  }

  lemma {:induction false} EndedStays(p: Pass, m: nat, n: nat)
    requires m <= n && Ended(WalkAfter(p, m))
    ensures WalkAfter(p, n) == WalkAfter(p, m)
  {
    if m < n {
      EndedStays(p, m, n - 1);
    }
  }

  lemma {:induction false} CalledGrows(p: Pass, m: nat, n: nat)
    requires m <= n
    ensures |WalkAfter(p, m).called| <= |WalkAfter(p, n).called|
  {
    hide Step, StepEvicts, Due;
    if m < n {
      CalledGrows(p, m, n - 1);
    }
  }

  /** A pass ends if and only if its callbacks register finitely many entries. */
  lemma EndsIffRegistersFew(p: Pass)
    ensures Ends(p) <==> RegistersFew(p)
  {
    hide WalkAfter, Added, Ended;
    if n: nat :| Ended(WalkAfter(p, n)) {
      var m := Added(p.script, |WalkAfter(p, n).called|);
      forall k: nat
        ensures Added(p.script, |WalkAfter(p, k).called|) <= m
      {
        if k <= n {
          CalledGrows(p, k, n);
        } else {
          EndedStays(p, n, k);
        }
        AddedMore(p.script, |WalkAfter(p, k).called|, |WalkAfter(p, n).called|);
      }
      assert RegistersAtMost(p, m);
    }
    if m: nat :| RegistersAtMost(p, m) {
      var n := |p.orig.Keys| + m;
      if !Ended(WalkAfter(p, n)) {
        StillGoing(p, n, m);
      }
    }
  }

  /** The whole pass. */
  ghost function EndOf(p: Pass): (w: Walk)
    requires Ends(p)
    ensures Ended(w) && w == WalkAfter(p, |w.visited|)
  {
    var n: nat :| Ended(WalkAfter(p, n));
    EndedEarly(p, n);
    WalkAfter(p, n)
  }

  lemma {:induction false} EndedEarly(p: Pass, n: nat)
    ensures WalkAfter(p, n) == WalkAfter(p, |WalkAfter(p, n).visited|)
  {
    hide NextVisit;
    if n > 0 && Ended(WalkAfter(p, n - 1)) {
      EndedEarly(p, n - 1);
    } else if n > 0 {
      VisitIs(p, WalkAfter(p, n - 1), n - 1);
    }
  }

  lemma EndIsUnique(p: Pass, n: nat)
    requires Ended(WalkAfter(p, n))
    ensures Ends(p) && EndOf(p) == WalkAfter(p, n)
  {
    hide WalkAfter, Ended;
    var m := |EndOf(p).visited|;
    if m <= n {
      EndedStays(p, m, n);
    } else {
      EndedStays(p, n, m);
    }
  }

  // ---------------------------------------------------------------- what a caller can see to

  /** From the given call on nothing is registered. */
  ghost predicate NoneNew(script: nat -> seq<Op>, bound: nat) {
    forall k: nat :: k >= bound ==> forall op :: op in script(k) ==> !op.Add?
  }

  predicate Patient(op: Op, start: int, ms: nat) {
    && (op.Add? || op.Change? ==> op.intervalMs >= ms)
    && (op.Add? || op.Reset? ==> op.clock >= start)
  }

  /** One call of each of so many entries sets no interval below `ms`, and one visit of each and of all
      they register takes at most that long. */
  ghost predicate BriefFor(entries: nat, readings: nat -> int, script: nat -> seq<Op>, ms: nat) {
    && (forall k: nat :: k < entries ==> forall op :: op in script(k) ==> Patient(op, readings(0), ms))
    && forall n: nat :: n < entries + Added(script, entries) ==> readings(n) - readings(0) <= ms * NS_PER_MS
  }

  ghost predicate Brief(p: Pass, ms: nat) {
    BriefFor(|p.orig.Keys|, p.readings, p.script, ms)
  }

  lemma {:induction false} NoneRegistered(ops: seq<Op>)
    requires forall op :: op in ops ==> !op.Add?
    ensures Registered(ops) == 0
    decreases ops
  {
    if ops != [] {
      assert ops[0] in ops;
      NoneRegistered(ops[1..]);
    }
  }

  lemma {:induction false} AddedUntil(script: nat -> seq<Op>, bound: nat, k: nat)
    requires NoneNew(script, bound)
    ensures Added(script, k) <= Added(script, bound)
  {
    if k > bound {
      AddedUntil(script, bound, k - 1);
      NoneRegistered(script(k - 1));
    } else {
      AddedMore(script, k, bound);
    }
  }

  /** Callbacks that at some time stop registering let the pass end. */
  lemma NoneNewEnds(p: Pass, bound: nat)
    requires NoneNew(p.script, bound)
    ensures Ends(p)
  {
    hide WalkAfter, Added, NoneNew;
    forall n: nat
      ensures Added(p.script, |WalkAfter(p, n).called|) <= Added(p.script, bound)
    {
      AddedUntil(p.script, bound, |WalkAfter(p, n).called|);
    }
    assert RegistersAtMost(p, Added(p.script, bound));
    EndsIffRegistersFew(p);
  }

  /** Entries that came since the base count an interval of at least `ms` from `start` on or later. */
  ghost predicate NewWait(t: Entries, base: set<Cookie>, start: int, ms: nat) {
    forall c :: c in t && c !in base ==> t[c].lastTime >= start && t[c].intervalMs >= ms
  }

  lemma {:induction false} StillWait(t: Entries, ops: seq<Op>, base: set<Cookie>, start: int, ms: nat)
    requires NewWait(t, base, start, ms) && forall op :: op in ops ==> Patient(op, start, ms)
    ensures NewWait(ApplyAll(t, ops), base, start, ms)
    decreases ops
  {
    if ops != [] {
      assert ops[0] in ops;
      StillWait(Apply(t, ops[0]), ops[1..], base, start, ms);
    }
  }

  lemma BriefNotDue(e: Entry, start: int, now: int, ms: nat)
    requires e.lastTime >= start && e.intervalMs >= ms && now - start <= ms * NS_PER_MS
    ensures !Due(e, now)
  {
  }

  /** In a brief pass only the entries it began with are called. */
  ghost predicate OnlyOld(p: Pass, w: Walk, ms: nat) {
    && NewWait(w.entries, p.orig.Keys, p.readings(0), ms)
    && |w.called| + |Ahead(p.orig.Keys, w.it)| <= |p.orig.Keys|
  }

  lemma BriefVisit(p: Pass, w: Walk, n: nat, ms: nat)
    requires Brief(p, ms) && w == WalkAfter(p, n) && !Ended(w) && OnlyOld(p, w, ms)
    ensures OnlyOld(p, NextVisit(p, w), ms)
  {
    hide WalkAfter, Due, ApplyAll, Evicts, Visited, Added, Patient;
    var key, now, ops, w' := w.it.key, p.readings(n), p.script(|w.called|), NextVisit(p, w);
    VisitIs(p, w, n);
    VisitsLeft(p, n);
    assert key in Left(w);
    assert key in p.orig ==> key in Ahead(p.orig.Keys, w.it);
    AheadShrinks(p.orig.Keys, w'.entries, key);
    AddedMore(p.script, |w.called|, |p.orig.Keys|);
    assert now - p.readings(0) <= ms * NS_PER_MS;
    if key in p.orig {
      KeepsWait(w.entries, key, now, p.orig.Keys, p.readings(0), ms);
      StillWait(w.entries[key := Visited(w.entries[key], now)], ops, p.orig.Keys, p.readings(0), ms);
    } else {
      BriefNotDue(w.entries[key], p.readings(0), now, ms);
    }
  }

  lemma KeepsWait(t: Entries, key: Cookie, now: int, base: set<Cookie>, start: int, ms: nat)
    requires NewWait(t, base, start, ms) && key in t && key in base
    ensures NewWait(t[key := Visited(t[key], now)], base, start, ms)
  {
    hide Visited;
  }

  ghost function Ahead(keys: set<Cookie>, it: Iterator): set<Cookie> {
    if it.End? then {} else set c | c in keys && c >= it.key
  }

  lemma AheadShrinks(keys: set<Cookie>, t: Entries, key: Cookie)
    ensures |Ahead(keys, Next(t, key))| + (if key in keys then 1 else 0) <= |Ahead(keys, Timers.At(key))|
  {
    var now, later := Ahead(keys, Timers.At(key)), Ahead(keys, Next(t, key));
    if key in keys {
      Subset(later + {key}, now);
    } else {
      Subset(later, now);
    }
  }

  lemma {:induction false} BriefWalk(p: Pass, n: nat, ms: nat)
    requires Brief(p, ms)
    ensures OnlyOld(p, WalkAfter(p, n), ms)
  {
    hide NextVisit, Brief, OnlyOld;
    if n == 0 {
      OnlyOldAtFirst(p, ms);
    } else {
      BriefWalk(p, n - 1, ms);
      if !Ended(WalkAfter(p, n - 1)) {
        BriefVisit(p, WalkAfter(p, n - 1), n - 1, ms);
      }
    }
  }

  lemma OnlyOldAtFirst(p: Pass, ms: nat)
    ensures OnlyOld(p, WalkAfter(p, 0), ms)
  {
    assert Ahead(p.orig.Keys, WalkAfter(p, 0).it) == p.orig.Keys;
  }

  /** Callbacks may register and change whatever they like if no interval is shorter than the pass. */
  lemma BriefEnds(p: Pass, ms: nat)
    requires Brief(p, ms)
    ensures Ends(p)
    ensures |EndOf(p).called| <= |p.orig.Keys|
  {
    hide WalkAfter, Added, Brief, Ahead;
    forall n: nat
      ensures |WalkAfter(p, n).called| <= |p.orig.Keys|
      ensures Added(p.script, |WalkAfter(p, n).called|) <= Added(p.script, |p.orig.Keys|)
    {
      BriefWalk(p, n, ms);
      AddedMore(p.script, |WalkAfter(p, n).called|, |p.orig.Keys|);
    }
    assert RegistersAtMost(p, Added(p.script, |p.orig.Keys|));
    EndsIffRegistersFew(p);
  }

  /** The k-th callback registers one more entry, behind all others. */
  ghost predicate Chain(p: Pass, cookies: nat -> Cookie, entries: nat -> Entry) {
    && p.orig == map[cookies(0) := entries(0)]
    && (forall j: nat, k: nat :: j < k ==> cookies(j) < cookies(k))
    && forall k: nat ::
         p.script(k) == [Op.Add(cookies(k + 1), entries(k + 1).intervalMs, entries(k + 1).lastTime)]
  }

  lemma {:induction false} ChainGoesOn(p: Pass, cookies: nat -> Cookie, entries: nat -> Entry, n: nat)
    requires Chain(p, cookies, entries) && !p.pending
    requires forall j: nat :: j < n ==> Due(entries(j), p.readings(j))
    ensures var w := WalkAfter(p, n);
            && !Ended(w) && w.it.key == cookies(n) && |w.called| == n && w.entries[cookies(n)] == entries(n)
            && forall c :: c in w.entries ==> c <= cookies(n)
  {
    hide Due, Visited, WalkAfter;
    AtFirst(p);
    assert cookies(0) in p.orig;
    if n > 0 {
      ChainGoesOn(p, cookies, entries, n - 1);
      ChainStep(p, cookies, entries, n, WalkAfter(p, n - 1));
    }
  }

  lemma ChainStep(p: Pass, cookies: nat -> Cookie, entries: nat -> Entry, n: nat, w: Walk)
    requires Chain(p, cookies, entries) && !p.pending && n > 0 && Due(entries(n - 1), p.readings(n - 1))
    requires w == WalkAfter(p, n - 1) && !Ended(w) && w.it.key == cookies(n - 1) && |w.called| == n - 1
    requires w.entries[cookies(n - 1)] == entries(n - 1) && forall c :: c in w.entries ==> c <= cookies(n - 1)
    ensures var w' := WalkAfter(p, n);
            && !Ended(w') && w'.it.key == cookies(n) && |w'.called| == n
            && w'.entries == w.entries[cookies(n - 1) := Visited(entries(n - 1), p.readings(n - 1))]
                                      [cookies(n) := entries(n)]
            && forall c :: c in w'.entries ==> c <= cookies(n)
  {
    hide Due, Visited, WalkAfter, ApplyAll, Evicts;
    var t := w.entries[cookies(n - 1) := Visited(entries(n - 1), p.readings(n - 1))];
    VisitIs(p, w, n - 1);
    assert cookies(n - 1) < cookies(n);
    assert p.script(n - 1) == [Op.Add(cookies(n), entries(n).intervalMs, entries(n).lastTime)];
    OneOp(t, Op.Add(cookies(n), entries(n).intervalMs, entries(n).lastTime));
    assert cookies(n) in WalkAfter(p, n).entries;
  }

  lemma OneOp(t: Entries, op: Op)
    ensures ApplyAll(t, [op]) == Apply(t, op)
    ensures Evicts(t, [op]) <==> op.Remove? && op.cookie in t
  {
    assert [op][1..] == [];
  }

  lemma {:induction false} ChainStops(p: Pass, cookies: nat -> Cookie, entries: nat -> Entry, n: nat)
    requires Chain(p, cookies, entries) && !p.pending && !Due(entries(n), p.readings(n))
    ensures Ends(p)
  {
    if j: nat :| j < n && !Due(entries(j), p.readings(j)) {
      ChainStops(p, cookies, entries, j);
    } else {
      ChainGoesOn(p, cookies, entries, n);
      assert Ended(WalkAfter(p, n + 1));
    }
  }

  /** Callbacks that each register one more entry: the pass ends if and only if the interval of one of
      them has not passed when its turn comes, or something was removed before the pass. */
  lemma ChainEndsIff(p: Pass, cookies: nat -> Cookie, entries: nat -> Entry)
    requires Chain(p, cookies, entries)
    ensures Ends(p) <==> p.pending || exists n: nat :: !Due(entries(n), p.readings(n))
  {
    hide Due, Chain, WalkAfter;
    if p.pending {
      PendingEnds(p);
    } else if n: nat :| !Due(entries(n), p.readings(n)) {
      ChainStops(p, cookies, entries, n);
    } else {
      forall n: nat
        ensures !Ended(WalkAfter(p, n))
      {
        ChainGoesOn(p, cookies, entries, n);
      }
    }
  }

  lemma PendingEnds(p: Pass)
    requires p.pending
    ensures Ends(p)
  {
    assert Ended(WalkAfter(p, 1));
  }

  /** A callback that registers one more entry with interval zero at a higher address, under a clock
      that moves on by ten nanoseconds a visit. */
  function Registering(): Pass {
    Pass(map[1 := Entry(0, 0)], false, (n: nat) => 10 * n + 10, (k: nat) => [Op.Add(k + 2, 0, 10 * k + 11)])
  }

  lemma RegisteringNeverEnds()
    ensures !Ends(Registering())
  {
    hide Ends;
    var p, cookies := Registering(), (n: nat) => n + 1;
    var entries := (n: nat) => if n == 0 then Entry(0, 0) else Entry(10 * n + 1, 0);
    assert Chain(p, cookies, entries);
    ChainEndsIff(p, cookies, entries);
  }

  /** Two entries are due, and the first callback removes its own. */
  function RemovingItself(): Pass {
    Pass(map[1 := Entry(0, 0), 2 := Entry(0, 0)], false, (n: nat) => 10,
         (k: nat) => if k == 0 then [Op.Remove(1)] else [])
  }

  /** The pass breaks off behind the first entry and leaves the second uncalled, due and untouched. */
  lemma RemovalLeavesDueUncalled()
    ensures var p := RemovingItself();
            var w := WalkAfter(p, 1);
            && Ended(w) && w.called == [1] && Quiet(p.script, 2)
            && w.it == Timers.At(2) && 2 in w.entries && Due(w.entries[2], p.readings(1))
  {
    hide ApplyAll, Evicts, WalkAfter;
    var p := RemovingItself();
    var w := WalkAfter(p, 0);
    AtFirst(p);
    assert 1 in p.orig && 2 in p.orig;
    VisitIs(p, w, 0);
    OneOp(p.orig[1 := Entry(0, 0)], Op.Remove(1));
    assert p.orig[1 := Entry(0, 0)] - {1} == map[2 := Entry(0, 0)];
  }

  class CallEveryHandler {
    var entries: Entries
    var iteratorInvalidated: bool

    constructor ()
      ensures entries == map[] && !iteratorInvalidated
    {
      entries, iteratorInvalidated := map[], false;
    }

    method Add(intervalMs: nat, clock: int, newCookie: Cookie) returns (cookie: Cookie)
      modifies this
      ensures entries == Apply(old(entries), Op.Add(newCookie, intervalMs, clock))
      ensures iteratorInvalidated == old(iteratorInvalidated) && cookie == newCookie
    {
      var newEntry := Entry(clock, intervalMs);
      if newCookie !in entries {
        entries := entries[newCookie := newEntry];
      }
      cookie := newCookie;
    }

    method Change(intervalMs: nat, cookie: Cookie)
      modifies this
      ensures entries == Apply(old(entries), Op.Change(cookie, intervalMs))
      ensures iteratorInvalidated == old(iteratorInvalidated)
    {
      if cookie in entries {
        entries := entries[cookie := entries[cookie].(intervalMs := intervalMs)];
      }
    }

    method Reset(cookie: Cookie, clock: int)
      modifies this
      ensures entries == Apply(old(entries), Op.Reset(cookie, clock))
      ensures iteratorInvalidated == old(iteratorInvalidated)
    {
      if cookie in entries {
        entries := entries[cookie := entries[cookie].(lastTime := clock)];
      }
    }

    method Remove(cookie: Cookie)
      modifies this
      ensures entries == Apply(old(entries), Op.Remove(cookie))
      ensures iteratorInvalidated == (old(iteratorInvalidated) || cookie in old(entries))
    {
      if cookie in entries {
        entries := entries - {cookie};
        iteratorInvalidated := true;
      }
    }

    /** A callback, and whatever other threads do meanwhile. */
    method Perform(ops: seq<Op>)
      modifies this
      ensures entries == ApplyAll(old(entries), ops)
      ensures iteratorInvalidated == (old(iteratorInvalidated) || Evicts(old(entries), ops))
    {
      var rest := ops;
      while rest != []
        invariant ApplyAll(entries, rest) == ApplyAll(old(entries), ops)
        invariant (iteratorInvalidated || Evicts(entries, rest))
               == (old(iteratorInvalidated) || Evicts(old(entries), ops))
        decreases |rest|
      {
        match rest[0] {
          case Add(cookie, intervalMs, clock) => var _ := Add(intervalMs, clock, cookie);
          case Change(cookie, intervalMs) => Change(intervalMs, cookie);
          case Reset(cookie, clock) => Reset(cookie, clock);
          case Remove(cookie) => Remove(cookie);
        }
        rest := rest[1..];
      }
    }

    /** One pass over the entries, with the clock read at each visit: everything done to the scheduler
        around the k-th call is `script(k)`. `EndsIffRegistersFew` says that no other pass ends. */
    method RunOnce(readings: nat -> int, script: nat -> seq<Op>) returns (called: seq<Cookie>, ghost walk: Walk)
      requires RegistersFew(Pass(entries, iteratorInvalidated, readings, script))
      modifies this
      ensures iteratorInvalidated == (old(iteratorInvalidated) && old(entries) == map[])
      ensures var p := Pass(old(entries), old(iteratorInvalidated), readings, script);
              Ends(p) && walk == EndOf(p) && entries == walk.entries && called == walk.called
      ensures forall c :: c in old(entries) && Quiet(script, c) ==>
                Follows(Pass(old(entries), old(iteratorInvalidated), readings, script), walk, c)
    {
      hide NextVisit, WalkAfter, Quiet, Follows, Step, StepEvicts, RegistersAtMost;
      ghost var p := Pass(entries, iteratorInvalidated, readings, script);
      ghost var m: nat :| RegistersAtMost(p, m);
      called := [];
      var visits, it, stopped := 0, Timers.First(entries.Keys), false;
      walk := WalkAfter(p, 0);
      AtFirst(p);
      while it.At? && !stopped
        invariant walk == WalkAfter(p, visits) && visits == |walk.visited|
        invariant entries == walk.entries && called == walk.called && stopped == walk.broken
        invariant !stopped ==> it == walk.it
        invariant visits == 0 ==> !stopped && (it.End? <==> p.orig == map[])
        invariant visits > 0 ==> p.orig != map[]
        invariant p.pending && visits > 0 ==> stopped
        invariant iteratorInvalidated == (p.pending && visits == 0)
        decreases |p.orig.Keys| + m - visits
      {
        var cookie := it.key;
        StillGoing(p, visits, m);
        VisitIs(p, walk, visits);
        walk := NextVisit(p, walk);
        var due := Visit(cookie, readings(visits), script(|called|));
        if due {
          called := called + [cookie];
        }
        visits := visits + 1;
        if iteratorInvalidated {
          iteratorInvalidated, stopped := false, true;
        } else {
          it := Next(entries, cookie);
        }
      }
      EndIsUnique(p, visits);
      forall c | c in p.orig && Quiet(script, c)
        ensures Follows(p, walk, c)
      {
        WalkFollows(p, visits, c);
      }
    }

    method Visit(cookie: Cookie, now: int, ops: seq<Op>) returns (due: bool)
      requires cookie in entries
      modifies this
      ensures due == Due(old(entries)[cookie], now) && entries == Step(old(entries), cookie, ops, now)
      ensures iteratorInvalidated == (old(iteratorInvalidated) || StepEvicts(old(entries), cookie, ops, now))
    {
      due := now - entries[cookie].lastTime > entries[cookie].intervalMs * NS_PER_MS;
      if due {
        var entry := entries[cookie];
        entries := entries[cookie := entry.(lastTime := entry.lastTime + entry.intervalMs * NS_PER_MS)];
        Perform(ops);
      }
    }
  }

  // ---------------------------------------------------------------- many passes

  /** How often an entry was called. */
  function Total(called: seq<seq<Cookie>>, c: Cookie): nat {
    if called == [] then 0 else Total(called[..|called| - 1], c) + multiset(called[|called| - 1])[c]
  }

  /** The clock at the visits of an entry in any number of passes. */
  function SeenIn(visited: seq<seq<Cookie>>, readings: seq<nat -> int>, c: Cookie): seq<int>
    requires |visited| == |readings|
  {
    if visited == [] then []
    else
      var n := |visited| - 1;
      SeenIn(visited[..n], readings[..n], c) + SeenAt(visited[n], readings[n], c)
  }

  /** Entry `c` has been visited at the given times and nothing else happened to it. */
  ghost predicate Followed(orig: Entries, t: Entries, called: seq<seq<Cookie>>, c: Cookie, times: seq<int>)
    requires c in orig
  {
    c in t && (t[c], Total(called, c)) == AfterPasses(orig[c], times)
  }

  /** Neither callbacks nor anybody between the passes touches the entry. */
  ghost predicate QuietFor(between: seq<seq<Op>>, scripts: seq<nat -> seq<Op>>, c: Cookie) {
    && (forall r :: 0 <= r < |scripts| ==> Quiet(scripts[r], c))
    && forall r :: 0 <= r < |between| ==> LeavesAlone(between[r], c)
  }

  /** Every pass that came as far as the entry visited it once, and no other did. */
  ghost predicate OncePerPass(visited: seq<seq<Cookie>>, readings: seq<nat -> int>, stops: seq<Iterator>, c: Cookie)
    requires |visited| == |readings| == |stops|
  {
    forall r :: 0 <= r < |stops| ==> |SeenAt(visited[r], readings[r], c)| == if Reaches(stops[r], c) then 1 else 0
  }

  /** A pass adds its visit of an entry, if it made one, to what happened to the entry before. */
  lemma FollowedOn(orig: Entries, before: Entries, called: seq<seq<Cookie>>, c: Cookie, times: seq<int>, p: Pass,
      w: Walk)
    requires c in orig && Followed(orig, before, called, c, times)
    requires c in p.orig && c in before && p.orig[c] == before[c] && Follows(p, w, c)
    ensures Followed(orig, w.entries, called + [w.called], c, times + SeenAt(w.visited, p.readings, c))
  {
    hide AfterPasses, SeenAt;
    var seen := SeenAt(w.visited, p.readings, c);
    assert (called + [w.called])[..|called|] == called;
    if |seen| == 0 {
      assert seen == [] && times + seen == times;
      OnePass(p.orig[c], [], 0);
    } else {
      assert seen == [] + [seen[0]] && times + seen == times + [seen[0]];
      OnePass(p.orig[c], [], seen[0]);
      OnePass(orig[c], times, seen[0]);
    }
  }

  lemma SeenInMore(visited: seq<seq<Cookie>>, readings: seq<nat -> int>, more: seq<Cookie>, reading: nat -> int,
      c: Cookie)
    requires |visited| == |readings|
    ensures SeenIn(visited + [more], readings + [reading], c)
         == SeenIn(visited, readings, c) + SeenAt(more, reading, c)
  {
    hide SeenAt;
    assert (visited + [more])[..|visited|] == visited && (readings + [reading])[..|readings|] == readings;
  }

  /** Every one of the passes to come ends. */
  ghost predicate AllEnd(t: Entries, pending: bool, readings: seq<nat -> int>, between: seq<seq<Op>>,
      scripts: seq<nat -> seq<Op>>)
    requires |readings| == |scripts| == |between|
    decreases |scripts|
  {
    scripts == []
    || (var p := Pass(ApplyAll(t, between[0]), pending || Evicts(t, between[0]), readings[0], scripts[0]);
        Ends(p) && AllEnd(EndOf(p).entries, p.pending && p.orig == map[], readings[1..], between[1..], scripts[1..]))
  }

  ghost predicate SomeTimeNoneNew(script: nat -> seq<Op>) {
    exists bound: nat :: NoneNew(script, bound)
  }

  /** However the entries stand: passes whose callbacks at some time stop registering all end. */
  lemma {:induction false} NoneNewAllEnd(t: Entries, pending: bool, readings: seq<nat -> int>, between: seq<seq<Op>>,
      scripts: seq<nat -> seq<Op>>)
    requires |readings| == |scripts| == |between|
    requires forall script :: script in scripts ==> SomeTimeNoneNew(script)
    ensures AllEnd(t, pending, readings, between, scripts)
    decreases |scripts|
  {
    hide NoneNew, Ends, EndOf;
    if scripts != [] {
      var p := Pass(ApplyAll(t, between[0]), pending || Evicts(t, between[0]), readings[0], scripts[0]);
      assert scripts[0] in scripts && forall script :: script in scripts[1..] ==> script in scripts;
      var bound: nat :| NoneNew(scripts[0], bound);
      NoneNewEnds(p, bound);
      NoneNewAllEnd(EndOf(p).entries, p.pending && p.orig == map[], readings[1..], between[1..], scripts[1..]);
    }
  }

  /** Passes that are brief, the first for so many entries and each later one for as many more as were
      registered until then. */
  ghost predicate AllBrief(entries: nat, readings: seq<nat -> int>, between: seq<seq<Op>>,
      scripts: seq<nat -> seq<Op>>, ms: nat)
    requires |readings| == |scripts| == |between|
    decreases |scripts|
  {
    scripts == []
    || (var more := entries + Registered(between[0]);
        && BriefFor(more, readings[0], scripts[0], ms)
        && AllBrief(more + Added(scripts[0], more), readings[1..], between[1..], scripts[1..], ms))
  }

  lemma {:induction false} KeysGrow(t: Entries, ops: seq<Op>)
    ensures |ApplyAll(t, ops).Keys| <= |t.Keys| + Registered(ops)
    decreases ops
  {
    if ops != [] {
      var op := ops[0];
      KeysGrow(Apply(t, op), ops[1..]);
      Subset(Apply(t, op).Keys, if op.Add? then t.Keys + {op.cookie} else t.Keys);
    }
  }

  lemma {:induction false} WalkKeys(p: Pass, n: nat)
    ensures |WalkAfter(p, n).entries.Keys| <= |p.orig.Keys| + Added(p.script, |WalkAfter(p, n).called|)
  {
    hide NextVisit, Step, Added, Registered;
    AtFirst(p);
    if n > 0 {
      WalkKeys(p, n - 1);
      var w := WalkAfter(p, n - 1);
      if !Ended(w) {
        VisitIs(p, w, n - 1);
        StepKeys(w.entries, w.it.key, p.script(|w.called|), p.readings(n - 1));
        AddedNext(p.script, |w.called|);
      }
    }
  }

  lemma AddedNext(script: nat -> seq<Op>, k: nat)
    ensures Added(script, k + 1) == Added(script, k) + Registered(script(k))
  {
  }

  lemma StepKeys(t: Entries, key: Cookie, ops: seq<Op>, now: int)
    requires key in t
    ensures |Step(t, key, ops, now).Keys| <= |t.Keys| + if Due(t[key], now) then Registered(ops) else 0
  {
    var e := Visited(t[key], now);
    KeysGrow(t[key := e], ops);
    assert t[key := e].Keys == t.Keys;
  }

  lemma BriefForFewer(entries: nat, more: nat, readings: nat -> int, script: nat -> seq<Op>, ms: nat)
    requires BriefFor(more, readings, script, ms) && entries <= more
    ensures BriefFor(entries, readings, script, ms)
  {
    AddedMore(script, entries, more);
    hide Added, Patient;
  }

  /** Brief passes over at most so many entries at the start all end. */
  lemma {:induction false} BriefAllEnd(t: Entries, pending: bool, readings: seq<nat -> int>, between: seq<seq<Op>>,
      scripts: seq<nat -> seq<Op>>, entries: nat, ms: nat)
    requires |readings| == |scripts| == |between| && |t.Keys| <= entries
    requires AllBrief(entries, readings, between, scripts, ms)
    ensures AllEnd(t, pending, readings, between, scripts)
    decreases |scripts|
  {
    hide BriefFor, Ends, WalkAfter, ApplyAll, Registered, Added;
    if scripts != [] {
      var p := Pass(ApplyAll(t, between[0]), pending || Evicts(t, between[0]), readings[0], scripts[0]);
      var more := entries + Registered(between[0]);
      KeysGrow(t, between[0]);
      BriefForFewer(|p.orig.Keys|, more, readings[0], scripts[0], ms);
      BriefEnds(p, ms);
      WalkKeys(p, |EndOf(p).visited|);
      AddedMore(p.script, |EndOf(p).called|, more);
      BriefAllEnd(EndOf(p).entries, p.pending && p.orig == map[], readings[1..], between[1..], scripts[1..],
                  more + Added(scripts[0], more), ms);
    }
  }

  /** The passes of a run. */
  ghost function Passes(t: Entries, pending: bool, readings: seq<nat -> int>, between: seq<seq<Op>>,
      scripts: seq<nat -> seq<Op>>): (walks: seq<Walk>)
    requires |readings| == |scripts| == |between| && AllEnd(t, pending, readings, between, scripts)
    ensures |walks| == |scripts|
    decreases |scripts|
  {
    if scripts == [] then []
    else
      var p := Pass(ApplyAll(t, between[0]), pending || Evicts(t, between[0]), readings[0], scripts[0]);
      [EndOf(p)] + Passes(EndOf(p).entries, p.pending && p.orig == map[], readings[1..], between[1..], scripts[1..])
  }

  /** What a run returns is read off its passes. */
  ghost predicate OfPasses(walks: seq<Walk>, called: seq<seq<Cookie>>, visited: seq<seq<Cookie>>,
      stops: seq<Iterator>) {
    && |walks| == |called| == |visited| == |stops|
    && forall r :: 0 <= r < |walks| ==>
         called[r] == walks[r].called && visited[r] == walks[r].visited && stops[r] == walks[r].it
  }

  lemma AllEndAt(t: Entries, pending: bool, readings: seq<nat -> int>, between: seq<seq<Op>>,
      scripts: seq<nat -> seq<Op>>, r: nat)
    requires |readings| == |scripts| == |between| && r < |scripts|
    requires AllEnd(t, pending, readings[r..], between[r..], scripts[r..])
    ensures var p := Pass(ApplyAll(t, between[r]), pending || Evicts(t, between[r]), readings[r], scripts[r]);
            && Ends(p)
            && AllEnd(EndOf(p).entries, p.pending && p.orig == map[], readings[r + 1..], between[r + 1..],
                      scripts[r + 1..])
            && Passes(t, pending, readings[r..], between[r..], scripts[r..])
               == [EndOf(p)] + Passes(EndOf(p).entries, p.pending && p.orig == map[], readings[r + 1..],
                                      between[r + 1..], scripts[r + 1..])
  {
    hide ApplyAll, Evicts, Ends, EndOf;
    assert readings[r..][1..] == readings[r + 1..] && between[r..][1..] == between[r + 1..];
    assert scripts[r..][1..] == scripts[r + 1..];
  }

  /** One more pass, from the point of view of an entry nobody touches. */
  lemma RoundFollowed(orig: Entries, before: Entries, called: seq<seq<Cookie>>, visited: seq<seq<Cookie>>,
      stops: seq<Iterator>, readings: seq<nat -> int>, ops: seq<Op>, p: Pass, w: Walk, c: Cookie)
    requires |visited| == |stops| == |readings| && c in orig && LeavesAlone(ops, c)
    requires Followed(orig, before, called, c, SeenIn(visited, readings, c)) && OncePerPass(visited, readings, stops, c)
    requires p.orig == ApplyAll(before, ops) && (c in p.orig ==> Follows(p, w, c))
    ensures Followed(orig, w.entries, called + [w.called], c,
                     SeenIn(visited + [w.visited], readings + [p.readings], c))
    ensures OncePerPass(visited + [w.visited], readings + [p.readings], stops + [w.it], c)
  {
    hide Followed, Follows, SeenIn, SeenAt, ApplyAll, LeavesAlone;
    FollowedIn(orig, before, called, c, SeenIn(visited, readings, c));
    LeftAlone(before, ops, c);
    FollowedOn(orig, before, called, c, SeenIn(visited, readings, c), p, w);
    SeenInMore(visited, readings, w.visited, p.readings, c);
    FollowsOnce(p, w, c);
  }

  /** One round of that loop: what others do, and a pass. */
  method Round(handler: CallEveryHandler, readings: nat -> int, ops: seq<Op>, script: nat -> seq<Op>)
    returns (called: seq<Cookie>, ghost p: Pass, ghost walk: Walk)
    requires Ends(Pass(ApplyAll(handler.entries, ops), handler.iteratorInvalidated || Evicts(handler.entries, ops),
                       readings, script))
    modifies handler
    ensures p == Pass(ApplyAll(old(handler.entries), ops),
                      old(handler.iteratorInvalidated) || Evicts(old(handler.entries), ops), readings, script)
    ensures Ends(p) && walk == EndOf(p) && handler.entries == walk.entries && called == walk.called
    ensures handler.iteratorInvalidated == (p.pending && p.orig == map[])
    ensures forall c :: c in p.orig && Quiet(script, c) ==> Follows(p, walk, c)
  {
    hide Quiet, Follows, WalkAfter, RegistersFew, Ends, EndOf;
    handler.Perform(ops);
    p := Pass(handler.entries, handler.iteratorInvalidated, readings, script);
    EndsIffRegistersFew(p);
    called, walk := handler.RunOnce(readings, script);
  }

  lemma NothingRemovedAt(t: Entries, between: seq<seq<Op>>, scripts: seq<nat -> seq<Op>>, r: nat, p: Pass)
    requires NothingRemoved(between, scripts) && r < |between| == |scripts|
    requires p.script == scripts[r] && p.pending == Evicts(t, between[r]) && Ends(p)
    ensures !p.pending && EndOf(p).it.End?
  {
    hide NoRemoval, WalkAfter;
    NoRemovalNoEviction(t, between[r]);
    NoRemovalNoStop(p, |EndOf(p).visited|);
  }

  /** What the passes so far made of every entry that nobody touches. */
  ghost predicate AllFollowed(orig: Entries, t: Entries, called: seq<seq<Cookie>>, visited: seq<seq<Cookie>>,
      stops: seq<Iterator>, readings: seq<nat -> int>, between: seq<seq<Op>>, scripts: seq<nat -> seq<Op>>)
    requires |visited| == |stops| == |readings|
  {
    forall c :: c in orig && QuietFor(between, scripts, c) ==>
      Followed(orig, t, called, c, SeenIn(visited, readings, c)) && OncePerPass(visited, readings, stops, c)
  }

  lemma RoundAllFollowed(orig: Entries, before: Entries, called: seq<seq<Cookie>>, visited: seq<seq<Cookie>>,
      stops: seq<Iterator>, readings: seq<nat -> int>, between: seq<seq<Op>>, scripts: seq<nat -> seq<Op>>, r: nat,
      p: Pass, w: Walk)
    requires |visited| == |stops| == |readings| && r < |between| == |scripts| && p.script == scripts[r]
    requires AllFollowed(orig, before, called, visited, stops, readings, between, scripts)
    requires p.orig == ApplyAll(before, between[r])
    requires forall c :: c in p.orig && Quiet(p.script, c) ==> Follows(p, w, c)
    ensures AllFollowed(orig, w.entries, called + [w.called], visited + [w.visited], stops + [w.it],
                        readings + [p.readings], between, scripts)
  {
    hide Followed, Follows, SeenIn, OncePerPass, ApplyAll, QuietFor, Quiet, LeavesAlone;
    forall c | c in orig && QuietFor(between, scripts, c)
      ensures Followed(orig, w.entries, called + [w.called], c,
                       SeenIn(visited + [w.visited], readings + [p.readings], c))
      ensures OncePerPass(visited + [w.visited], readings + [p.readings], stops + [w.it], c)
    {
      QuietForAt(between, scripts, c, r);
      RoundFollowed(orig, before, called, visited, stops, readings, between[r], p, w, c);
    }
  }

  /** The loop of a system's thread, as far as the scheduler is concerned; others act between its
      passes. An entry left alone has seen exactly the visits of the passes that came as far as it. */
  method Rounds(handler: CallEveryHandler, readings: seq<nat -> int>, between: seq<seq<Op>>,
      scripts: seq<nat -> seq<Op>>)
    returns (called: seq<seq<Cookie>>, ghost visited: seq<seq<Cookie>>, ghost stops: seq<Iterator>)
    requires |readings| == |scripts| == |between|
    requires AllEnd(handler.entries, handler.iteratorInvalidated, readings, between, scripts)
    modifies handler
    ensures |visited| == |stops| == |scripts|
    ensures OfPasses(Passes(old(handler.entries), old(handler.iteratorInvalidated), readings, between, scripts), called,
                     visited, stops)
    ensures scripts != [] ==>
              handler.entries == Passes(old(handler.entries), old(handler.iteratorInvalidated), readings, between,
                                        scripts)[|scripts| - 1].entries
    ensures AllFollowed(old(handler.entries), handler.entries, called, visited, stops, readings, between, scripts)
    ensures !old(handler.iteratorInvalidated) && NothingRemoved(between, scripts) ==>
              forall r :: 0 <= r < |stops| ==> stops[r].End?
  {
    hide AllFollowed, Quiet, Follows, WalkAfter, Ends, AllEnd, Passes, EndOf, OfPasses, NothingRemoved, ApplyAll,
         Evicts;
    called, visited, stops := [], [], [];
    ghost var orig := handler.entries;
    NothingYet(orig);
    assert readings[0..] == readings && between[0..] == between && scripts[0..] == scripts;
    ghost var all := Passes(orig, handler.iteratorInvalidated, readings, between, scripts);
    ghost var walks: seq<Walk> := [];
    NoPasses();
    for r := 0 to |scripts|
      invariant |visited| == |stops| == r
      invariant AllEnd(handler.entries, handler.iteratorInvalidated, readings[r..], between[r..], scripts[r..])
      invariant all == walks + Passes(handler.entries, handler.iteratorInvalidated, readings[r..], between[r..],
                                      scripts[r..])
      invariant OfPasses(walks, called, visited, stops) && |walks| == r
      invariant r > 0 ==> handler.entries == walks[r - 1].entries
      invariant AllFollowed(orig, handler.entries, called, visited, stops, readings[..r], between, scripts)
      invariant !old(handler.iteratorInvalidated) && NothingRemoved(between, scripts) ==>
                  !handler.iteratorInvalidated && forall q :: 0 <= q < r ==> stops[q].End?
    {
      ghost var before, was, seen, stopped := handler.entries, called, visited, stops;
      AllEndAt(before, handler.iteratorInvalidated, readings, between, scripts, r);
      ghost var pending := handler.iteratorInvalidated;
      var now;
      ghost var p, walk;
      now, p, walk := Round(handler, readings[r], between[r], scripts[r]);
      called, visited, stops := called + [now], visited + [walk.visited], stops + [walk.it];
      OnePassMore(walks, walk, was, seen, stopped,
                  Passes(handler.entries, handler.iteratorInvalidated, readings[r + 1..], between[r + 1..],
                         scripts[r + 1..]));
      walks := walks + [walk];
      if !pending && NothingRemoved(between, scripts) {
        NothingRemovedAt(before, between, scripts, r, p);
      }
      assert readings[..r] + [readings[r]] == readings[..r + 1];
      RoundAllFollowed(orig, before, was, seen, stopped, readings[..r], between, scripts, r, p, walk);
    }
    assert readings[..|scripts|] == readings;
    assert all == walks;
  }

  lemma QuietForAt(between: seq<seq<Op>>, scripts: seq<nat -> seq<Op>>, c: Cookie, r: nat)
    requires QuietFor(between, scripts, c) && r < |between| == |scripts|
    ensures LeavesAlone(between[r], c) && Quiet(scripts[r], c)
  {
  }

  lemma NoPasses()
    ensures OfPasses([], [], [], [])
  {
  }

  lemma OnePassMore(walks: seq<Walk>, walk: Walk, called: seq<seq<Cookie>>, visited: seq<seq<Cookie>>,
      stops: seq<Iterator>, rest: seq<Walk>)
    requires OfPasses(walks, called, visited, stops)
    ensures OfPasses(walks + [walk], called + [walk.called], visited + [walk.visited], stops + [walk.it])
    ensures walks + ([walk] + rest) == walks + [walk] + rest
  {
  }

  lemma NothingYet(orig: Entries)
    ensures forall between, scripts :: AllFollowed(orig, orig, [], [], [], [], between, scripts)
  {
  }

  lemma FollowedIn(orig: Entries, t: Entries, called: seq<seq<Cookie>>, c: Cookie, times: seq<int>)
    requires c in orig && Followed(orig, t, called, c, times)
    ensures c in t
  {
  }

  lemma FollowsOnce(p: Pass, w: Walk, c: Cookie)
    requires c in p.orig && Follows(p, w, c)
    ensures |SeenAt(w.visited, p.readings, c)| == if Reaches(w.it, c) then 1 else 0
  {
  }

  predicate NoRemoval(ops: seq<Op>) {
    forall op :: op in ops ==> !op.Remove?
  }

  ghost predicate NothingRemoved(between: seq<seq<Op>>, scripts: seq<nat -> seq<Op>>) {
    && (forall r :: 0 <= r < |between| ==> NoRemoval(between[r]))
    && forall r, k: nat :: 0 <= r < |scripts| ==> NoRemoval(scripts[r](k))
  }

  lemma {:induction false} NoRemovalNoEviction(t: Entries, ops: seq<Op>)
    requires NoRemoval(ops)
    ensures !Evicts(t, ops)
    decreases ops
  {
    if ops != [] {
      assert ops[0] in ops;
      NoRemovalNoEviction(Apply(t, ops[0]), ops[1..]);
    }
  }

  lemma {:induction false} NoRemovalNoStop(p: Pass, n: nat)
    requires !p.pending && forall k: nat :: NoRemoval(p.script(k))
    ensures !WalkAfter(p, n).broken
  {
    hide NoRemoval, Step, Due, Visited;
    if n > 0 {
      NoRemovalNoStop(p, n - 1);
      var w := WalkAfter(p, n - 1);
      if !Ended(w) {
        var key := w.it.key;
        NoRemovalNoEviction(w.entries[key := Visited(w.entries[key], p.readings(|w.visited|))], p.script(|w.called|));
      }
    }
  }

  /** The clock never runs backwards, neither within a pass nor from one pass to a later one. */
  ghost predicate Forward(visited: seq<seq<Cookie>>, readings: seq<nat -> int>)
    requires |visited| == |readings|
  {
    && (forall r, j: nat, k: nat :: 0 <= r < |readings| && j <= k < |visited[r]| ==> readings[r](j) <= readings[r](k))
    && forall q, r, j: nat, k: nat :: 0 <= q < r < |readings| && j < |visited[q]| && k < |visited[r]| ==>
         readings[q](j) <= readings[r](k)
  }

  lemma {:induction false} SeenAtIncreases(visited: seq<Cookie>, readings: nat -> int, c: Cookie)
    requires forall j: nat, k: nat :: j <= k < |visited| ==> readings(j) <= readings(k)
    ensures Increasing(SeenAt(visited, readings, c))
    ensures forall x :: x in SeenAt(visited, readings, c) ==> exists j: nat :: j < |visited| && x == readings(j)
  {
    if visited != [] {
      var n := |visited| - 1;
      SeenAtIncreases(visited[..n], readings, c);
      var front := SeenAt(visited[..n], readings, c);
      forall k | 0 <= k < |front|
        ensures front[k] <= readings(n)
      {
        assert front[k] in front;
      }
    }
  }

  /** So what a run of passes sees of an entry meets what the results about one entry ask for. */
  lemma {:induction false} SeenInIncreases(visited: seq<seq<Cookie>>, readings: seq<nat -> int>, c: Cookie)
    requires |visited| == |readings| && Forward(visited, readings)
    ensures Increasing(SeenIn(visited, readings, c))
    ensures forall x :: x in SeenIn(visited, readings, c) ==> exists r, j: nat ::
              0 <= r < |visited| && j < |visited[r]| && x == readings[r](j)
    decreases |visited|
  {
    if visited != [] {
      var n := |visited| - 1;
      SeenInIncreases(visited[..n], readings[..n], c);
      SeenAtIncreases(visited[n], readings[n], c);
      var front, last := SeenIn(visited[..n], readings[..n], c), SeenAt(visited[n], readings[n], c);
      forall j, k | 0 <= j < |front| && 0 <= k < |last|
        ensures front[j] <= last[k]
      {
        assert front[j] in front && last[k] in last;
      }
    }
  }
}
