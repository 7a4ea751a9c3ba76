/** The timer table of core/timeout_handler.cpp and its re-entrant expiry pass.

    The clock counts nanoseconds and durations are whole milliseconds, as in
    core/global_include.cpp:36-40. A cookie is the heap address of an entry.
 */
module Timers {

  type Cookie = int

  const NULL_COOKIE: Cookie := 0
  const NS_PER_MS := 1_000_000

  /** Whose handler an entry calls. `Foreign` stands for every other user of the table. */
  datatype Callback = CommandTimeout | ParamTimeout | HeartbeatTimeout | VersionTimeout | Foreign(id: nat)

  datatype Timeout = Timeout(callback: Callback, deadline: int, durationMs: nat)

  type Table = map<Cookie, Timeout>

  function Future(clock: int, durationMs: nat): int {
    clock + durationMs * NS_PER_MS
  }

  /** `std::map::insert`: an entry that is already there is not replaced. */
  function Added(t: Table, cookie: Cookie, callback: Callback, durationMs: nat, clock: int): Table {
    if cookie in t then t else t[cookie := Timeout(callback, Future(clock, durationMs), durationMs)]
  }

  function Refreshed(t: Table, cookie: Cookie, clock: int): Table {
    if cookie in t then t[cookie := t[cookie].(deadline := Future(clock, t[cookie].durationMs))] else t
  }

  function Removed(t: Table, cookie: Cookie): Table {
    t - {cookie}
  }

  /** One call made on the table while a callback runs, with the clock it reads. */
  datatype Op =
    | Add(cookie: Cookie, callback: Callback, durationMs: nat, clock: int)
    | Refresh(cookie: Cookie, clock: int)
    | Remove(cookie: Cookie)

  function Apply(t: Table, op: Op): Table {
    match op
    case Add(cookie, callback, durationMs, clock) => Added(t, cookie, callback, durationMs, clock)
    case Refresh(cookie, clock) => Refreshed(t, cookie, clock)
    case Remove(cookie) => Removed(t, cookie)
  }

  function ApplyAll(t: Table, ops: seq<Op>): Table
    decreases ops
  {
    if ops == [] then t else ApplyAll(Apply(t, ops[0]), ops[1..])
  }

  /** Some removal among `ops` finds its entry, which invalidates the iterator of a running pass. */
  predicate Evicts(t: Table, ops: seq<Op>)
    decreases ops
  {
    ops != [] && ((ops[0].Remove? && ops[0].cookie in t) || Evicts(Apply(t, ops[0]), ops[1..]))
  }

  /** Calls that read the clock no earlier than the pass did, as every callback's do: the clock never
      runs backwards. Another thread may have read it before the pass and add its entry during the
      pass; `DueOrLate` is about such calls. */
  predicate Timely(ops: seq<Op>, now: int) {
    forall i :: 0 <= i < |ops| ==> (ops[i].Remove? || ops[i].clock >= now)
  }

  function Touched(ops: seq<Op>): set<Cookie> {
    set i | 0 <= i < |ops| && !ops[i].Add? :: ops[i].cookie
  }

  function Expired(t: Table, now: int): set<Cookie> {
    set c | c in t && t[c].deadline < now
  }

  // ---------------------------------------------------------------- passes

  /** The table after the given entries fired in order, where everything done to the table around
      the k-th callback is `script(k)`. */
  function Replay(t: Table, fired: seq<Cookie>, script: nat -> seq<Op>): Table {
    if fired == [] then t
    else
      var k := |fired| - 1;
      ApplyAll(Removed(Replay(t, fired[..k], script), fired[k]), script(k))
  }

  /** Every firing took an entry that was live and expired at that moment. */
  ghost predicate Legit(t: Table, fired: seq<Cookie>, script: nat -> seq<Op>, now: int) {
    forall i :: 0 <= i < |fired| ==> fired[i] in Expired(Replay(t, fired[..i], script), now)
  }

  /** `t'` is what a complete pass at `now` leaves behind. */
  ghost predicate Pass(t: Table, fired: seq<Cookie>, script: nat -> seq<Op>, now: int, t': Table) {
    && t' == Replay(t, fired, script)
    && Legit(t, fired, script, now)
    && Expired(t', now) == {}
  }

  /** What callbacks before the k-th refreshed or removed. */
  function TouchedBefore(script: nat -> seq<Op>, k: nat): set<Cookie> {
    if k == 0 then {} else TouchedBefore(script, k - 1) + Touched(script(k - 1))
  }

  function Elements(s: seq<Cookie>): set<Cookie> {
    set i | 0 <= i < |s| :: s[i]
  }

  lemma {:induction false} ApplyAllExpired(t: Table, ops: seq<Op>, now: int)
    requires Timely(ops, now)
    ensures Expired(ApplyAll(t, ops), now) == Expired(t, now) - Touched(ops)
    decreases ops
  {
    if ops == [] {
      assert Touched(ops) == {};
    } else {
      var op, rest := ops[0], ops[1..];
      ApplyAllExpired(Apply(t, op), rest, now);
      assert Touched(ops) == (if op.Add? then {} else {op.cookie}) + Touched(rest) by {
        forall c | c in Touched(ops)
          ensures c in (if op.Add? then {} else {op.cookie}) + Touched(rest)
        {
          var i :| 0 <= i < |ops| && !ops[i].Add? && ops[i].cookie == c;
          if i > 0 {
            assert rest[i - 1] == ops[i];
          }
        }
        forall c | c in Touched(rest)
          ensures c in Touched(ops)
        {
          var i :| 0 <= i < |rest| && !rest[i].Add? && rest[i].cookie == c;
          assert ops[i + 1] == rest[i];
        }
      }
      assert op == ops[0];
      assert Expired(Apply(t, op), now) == Expired(t, now) - (if op.Add? then {} else {op.cookie});
    }
  }

  lemma {:induction false} NoEvictionKeepsKeys(t: Table, ops: seq<Op>)
    requires !Evicts(t, ops)
    ensures t.Keys <= ApplyAll(t, ops).Keys
    decreases ops
  {
    if ops != [] {
      assert t.Keys <= Apply(t, ops[0]).Keys;
      NoEvictionKeepsKeys(Apply(t, ops[0]), ops[1..]);
    }
  }

  /** What is still due after some firings: exactly the entries due at the start that neither fired
      nor were refreshed or removed since. Nothing becomes due during a pass. */
  lemma {:induction false} DueAfterFirings(t: Table, fired: seq<Cookie>, script: nat -> seq<Op>, now: int)
    requires forall k: nat :: Timely(script(k), now)
    ensures Expired(Replay(t, fired, script), now)
         == Expired(t, now) - Elements(fired) - TouchedBefore(script, |fired|)
  {
    if fired == [] {
      assert Elements(fired) == {};
    } else {
      hide ApplyAll, Timely, Touched;
      var k := |fired| - 1;
      var before := Replay(t, fired[..k], script);
      DueAfterFirings(t, fired[..k], script, now);
      ApplyAllExpired(Removed(before, fired[k]), script(k), now);
      RemovedExpired(before, fired[k], now);
      LastElement(fired);
    }
  }

  /** What was added or refreshed with a clock reading from before the pass. */
  function Late(ops: seq<Op>, now: int): set<Cookie> {
    set i | 0 <= i < |ops| && !ops[i].Remove? && ops[i].clock < now :: ops[i].cookie
  }

  function LateBefore(script: nat -> seq<Op>, k: nat, now: int): set<Cookie> {
    if k == 0 then {} else LateBefore(script, k - 1, now) + Late(script(k - 1), now)
  }

  lemma {:induction false} ApplyAllLate(t: Table, ops: seq<Op>, now: int)
    ensures Expired(t, now) - Touched(ops) <= Expired(ApplyAll(t, ops), now) <= Expired(t, now) + Late(ops, now)
    decreases ops
  {
    if ops != [] {
      var op, rest := ops[0], ops[1..];
      ApplyAllLate(Apply(t, op), rest, now);
      RestOf(ops, now);
      OneLate(t, op, now);
    }
  }

  lemma RestOf(ops: seq<Op>, now: int)
    requires ops != []
    ensures Late(ops[..1], now) <= Late(ops, now) && Touched(ops[..1]) <= Touched(ops)
    ensures Late(ops[1..], now) <= Late(ops, now) && Touched(ops[1..]) <= Touched(ops)
  {
    var rest := ops[1..];
    forall c | c in Late(rest, now)
      ensures c in Late(ops, now)
    {
      var i :| 0 <= i < |rest| && !rest[i].Remove? && rest[i].clock < now && rest[i].cookie == c;
      assert ops[i + 1] == rest[i];
    }
    forall c | c in Touched(rest)
      ensures c in Touched(ops)
    {
      var i :| 0 <= i < |rest| && !rest[i].Add? && rest[i].cookie == c;
      assert ops[i + 1] == rest[i];
    }
  }

  lemma OneLate(t: Table, op: Op, now: int)
    ensures var late := if !op.Remove? && op.clock < now then {op.cookie} else {};
            var touched := if op.Add? then {} else {op.cookie};
            Expired(t, now) - touched <= Expired(Apply(t, op), now) <= Expired(t, now) + late
  {
  }

  /** With any calls in between: what is due during a pass was due at its start or came late, and what
      was due at its start and neither fired nor was touched still is. */
  lemma {:induction false} DueOrLate(t: Table, fired: seq<Cookie>, script: nat -> seq<Op>, now: int)
    ensures Expired(Replay(t, fired, script), now) <= Expired(t, now) + LateBefore(script, |fired|, now)
    ensures Expired(t, now) - Elements(fired) - TouchedBefore(script, |fired|)
         <= Expired(Replay(t, fired, script), now)
  {
    if fired == [] {
      assert Elements(fired) == {};
    } else {
      hide ApplyAll, Late, Touched, Expired;
      var k := |fired| - 1;
      var before := Replay(t, fired[..k], script);
      DueOrLate(t, fired[..k], script, now);
      ApplyAllLate(Removed(before, fired[k]), script(k), now);
      RemovedExpired(before, fired[k], now);
      LastElement(fired);
    }
  }

  lemma RemovedExpired(t: Table, c: Cookie, now: int)
    ensures Expired(Removed(t, c), now) == Expired(t, now) - {c}
  {
  }

  lemma LastElement(s: seq<Cookie>)
    requires s != []
    ensures Elements(s) == Elements(s[..|s| - 1]) + {s[|s| - 1]}
  {
    var k := |s| - 1;
    assert s == s[..k] + [s[k]];
  }

  /** The set of callbacks a pass calls, whatever those callbacks do to the table: exactly the
      entries due at entry that no earlier callback of the pass refreshed or removed, each once. */
  lemma PassFiresExactlyTheDue(t: Table, fired: seq<Cookie>, script: nat -> seq<Op>, now: int, t': Table)
    requires forall k: nat :: Timely(script(k), now)
    requires Pass(t, fired, script, now, t')
    ensures forall c :: c in t' ==> t'[c].deadline >= now
    ensures forall i, j :: 0 <= i < j < |fired| ==> fired[i] != fired[j]
    ensures forall i :: 0 <= i < |fired| ==>
              fired[i] in Expired(t, now) && fired[i] !in TouchedBefore(script, i)
    ensures forall c :: c in Expired(t, now) && c !in fired ==> c in TouchedBefore(script, |fired|)
  {
    DueAfterFirings(t, fired, script, now);
    forall c | c in t'
      ensures t'[c].deadline >= now
    {
      assert c !in Expired(t', now);
    }
    forall i | 0 <= i < |fired|
      ensures fired[i] in Expired(t, now) && fired[i] !in TouchedBefore(script, i)
      ensures fired[i] !in Elements(fired[..i])
    {
      DueAfterFirings(t, fired[..i], script, now);
    }
    forall i, j | 0 <= i < j < |fired|
      ensures fired[i] != fired[j]
    {
      assert fired[..j][i] in Elements(fired[..j]);
    }
    forall c | c in Expired(t, now) && c !in fired
      ensures c in TouchedBefore(script, |fired|)
    {
      assert c !in Expired(t', now);
    }
  }

  // ---------------------------------------------------------------- iteration in key order

  /** A `std::map` iterator: at an entry, or past the end. */
  datatype Iterator = End | At(key: Cookie)

  predicate IsLeast(s: set<Cookie>, k: Cookie) {
    k in s && forall j :: j in s ==> k <= j
  }

  lemma {:induction false} LeastExists(s: set<Cookie>)
    requires s != {}
    ensures exists k :: IsLeast(s, k)
  {
    assert (forall x :: x !in s) ==> s == {};
    var x :| x in s;
    var rest := s - {x};
    assert s == rest + {x};
    if rest == {} {
      assert IsLeast(s, x);
    } else {
      LeastExists(rest);
      var k :| IsLeast(rest, k);
      assert IsLeast(s, if x < k then x else k);
    }
  }

  function First(s: set<Cookie>): (it: Iterator)
    ensures it.End? <==> s == {}
    ensures it.At? ==> it.key in s && forall j :: j in s ==> it.key <= j
  {
    if s == {} then End
    else
      LeastExists(s);
      var k :| IsLeast(s, k);
      At(k)
  }

  function Begin(t: Table): Iterator {
    First(t.Keys)
  }

  /** `++it`. */
  function Next(t: Table, key: Cookie): (it: Iterator)
    ensures it.At? ==> it.key in t && it.key > key
    ensures forall c :: c in t && c > key ==> it.At? && it.key <= c
  {
    var later := set c | c in t && c > key;
    assert forall c :: c in t && c > key ==> c in later;
    First(later)
  }

  ghost function Ahead(t: Table, it: Iterator): set<Cookie> {
    if it.End? then {} else set c | c in t && c >= it.key
  }

  /** Everything due lies at the iterator or after it. */
  ghost predicate DueAhead(t: Table, it: Iterator, now: int) {
    forall c :: c in Expired(t, now) ==> it.At? && it.key <= c
  }

  lemma SkipStep(t: Table, key: Cookie, now: int)
    requires key in t && t[key].deadline >= now && DueAhead(t, At(key), now)
    ensures DueAhead(t, Next(t, key), now)
    ensures Ahead(t, Next(t, key)) < Ahead(t, At(key))
  {
    assert key in Ahead(t, At(key)) && key !in Ahead(t, Next(t, key));
  }

  /** A firing leaves fewer entries due; unless it evicted something, the advanced iterator still
      denotes an entry and nothing due is behind it. */
  lemma FiringStep(t: Table, key: Cookie, ops: seq<Op>, now: int)
    requires Timely(ops, now) && key in Expired(t, now) && DueAhead(t, At(key), now)
    ensures Expired(ApplyAll(Removed(t, key), ops), now) < Expired(t, now)
    ensures !Evicts(Removed(t, key), ops) ==>
              var t', it := ApplyAll(Removed(t, key), ops), Next(t, key);
              DueAhead(t', it, now) && (it.At? ==> it.key in t')
  {
    var t' := ApplyAll(Removed(t, key), ops);
    ApplyAllExpired(Removed(t, key), ops, now);
    assert key in Expired(t, now) && key !in Expired(t', now);
    if !Evicts(Removed(t, key), ops) {
      NoEvictionKeepsKeys(Removed(t, key), ops);
      assert forall c :: c in Expired(t', now) ==> c in Expired(t, now);
    }
  }

  lemma LegitExtends(t: Table, fired: seq<Cookie>, cookie: Cookie, script: nat -> seq<Op>, now: int)
    requires Legit(t, fired, script, now) && cookie in Expired(Replay(t, fired, script), now)
    ensures Legit(t, fired + [cookie], script, now)
    ensures Replay(t, fired + [cookie], script)
         == ApplyAll(Removed(Replay(t, fired, script), cookie), script(|fired|))
  {
    var longer := fired + [cookie];
    assert longer[..|fired|] == fired;
    forall i | 0 <= i < |longer|
      ensures longer[i] in Expired(Replay(t, longer[..i], script), now)
    {
      assert i < |fired| ==> longer[..i] == fired[..i];
    }
  }

  class TimeoutHandler {
    var timeouts: Table
    var iteratorInvalidated: bool

    constructor ()
      ensures timeouts == map[] && !iteratorInvalidated
    {
      timeouts := map[];
      iteratorInvalidated := false;
    }

    method Add(callback: Callback, durationMs: nat, clock: int, newCookie: Cookie) returns (cookie: Cookie)
      modifies this
      ensures timeouts == Added(old(timeouts), newCookie, callback, durationMs, clock)
      ensures iteratorInvalidated == old(iteratorInvalidated)
      ensures cookie == newCookie
    {
      var timeout := Timeout(callback, Future(clock, durationMs), durationMs);
      if newCookie !in timeouts {
        timeouts := timeouts[newCookie := timeout];
      }
      cookie := newCookie;
    }

    method Refresh(cookie: Cookie, clock: int)
      modifies this
      ensures timeouts == Refreshed(old(timeouts), cookie, clock)
      ensures iteratorInvalidated == old(iteratorInvalidated)
    {
      if cookie in timeouts {
        var entry := timeouts[cookie];
        timeouts := timeouts[cookie := entry.(deadline := Future(clock, entry.durationMs))];
      }
    }

    method Remove(cookie: Cookie)
      modifies this
      ensures timeouts == Removed(old(timeouts), cookie)
      ensures iteratorInvalidated == (old(iteratorInvalidated) || cookie in old(timeouts))
    {
      if cookie in timeouts {
        timeouts := timeouts - {cookie};
        iteratorInvalidated := true;
      }
    }

    /** A callback, and whatever other threads do meanwhile. */
    method Perform(ops: seq<Op>)
      modifies this
      ensures timeouts == ApplyAll(old(timeouts), ops)
      ensures iteratorInvalidated == (old(iteratorInvalidated) || Evicts(old(timeouts), ops))
    {
      var rest := ops;
      while rest != []
        invariant ApplyAll(timeouts, rest) == ApplyAll(old(timeouts), ops)
        invariant (iteratorInvalidated || Evicts(timeouts, rest))
               == (old(iteratorInvalidated) || Evicts(old(timeouts), ops))
        decreases |rest|
      {
        match rest[0] {
          case Add(cookie, callback, durationMs, clock) => var _ := Add(callback, durationMs, clock, cookie);
          case Refresh(cookie, clock) => Refresh(cookie, clock);
          case Remove(cookie) => Remove(cookie);
        }
        rest := rest[1..];
      }
    }

    /** Erases the entry before calling it, then lets go of the lock for the call. */
    method Fire(cookie: Cookie, ops: seq<Op>)
      requires cookie in timeouts
      modifies this
      ensures timeouts == ApplyAll(Removed(old(timeouts), cookie), ops)
      ensures iteratorInvalidated == (old(iteratorInvalidated) || Evicts(Removed(old(timeouts), cookie), ops))
    {
      timeouts := timeouts - {cookie};
      Perform(ops);
    }

    /** The expiry pass. It terminates for every script because a firing shrinks the set of due
        entries, a restart needs a firing or a flag left over from before, and otherwise the
        iterator advances. */
    method RunOnce(now: int, script: nat -> seq<Op>) returns (fired: seq<Cookie>)
      requires forall k: nat :: Timely(script(k), now)
      modifies this
      ensures Pass(old(timeouts), fired, script, now, timeouts)
      ensures iteratorInvalidated == (old(iteratorInvalidated) && old(timeouts) == map[])
    {
      fired := [];
      var it := Begin(timeouts);
      while it.At?
        invariant it.At? ==> it.key in timeouts
        invariant timeouts == Replay(old(timeouts), fired, script)
        invariant Legit(old(timeouts), fired, script, now)
        invariant DueAhead(timeouts, it, now)
        invariant iteratorInvalidated ==> old(iteratorInvalidated) && (old(timeouts) == map[] || it.At?)
        invariant old(timeouts) == map[] ==>
                    timeouts == map[] && it.End? && iteratorInvalidated == old(iteratorInvalidated)
        decreases Expired(timeouts, now), iteratorInvalidated, Ahead(timeouts, it)
      {
        ghost var before := timeouts;
        var cookie := it.key;
        if timeouts[cookie].deadline < now {
          it := Next(timeouts, cookie);
          var k := |fired|;
          Fire(cookie, script(k));
          FiringStep(before, cookie, script(k), now);
          LegitExtends(old(timeouts), fired, cookie, script, now);
          fired := fired + [cookie];
        } else {
          it := Next(timeouts, cookie);
          SkipStep(before, cookie, now);
        }

        if iteratorInvalidated {
          iteratorInvalidated := false;
          it := Begin(timeouts);
        }
      }
    }
  }
}
