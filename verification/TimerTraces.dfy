/** What any run of the table's users amounts to for the table: firings, each with what its callback
    does, and calls from outside. Such a trace is a `Replay`, so all that is known about a pass of
    core/timeout_handler.cpp:50-83 holds for the runs of the services. */
module TimerTraces {
  import opened Timers

  /** Calls on the table in one step, after the entry that fires in it, if any, was taken out. */
  datatype Effect = Fires(cookie: Cookie, ops: seq<Op>) | Uses(ops: seq<Op>)

  function After(t: Table, e: Effect): Table {
    ApplyAll(if e.Fires? then Removed(t, e.cookie) else t, e.ops)
  }

  function AfterAll(t: Table, effects: seq<Effect>): Table {
    if effects == [] then t else After(AfterAll(t, effects[..|effects| - 1]), effects[|effects| - 1])
  }

  function Fired(effects: seq<Effect>): seq<Cookie> {
    if effects == [] then []
    else
      var e := effects[|effects| - 1];
      Fired(effects[..|effects| - 1]) + (if e.Fires? then [e.cookie] else [])
  }

  predicate AllTimely(effects: seq<Effect>, now: int) {
    forall i :: 0 <= i < |effects| ==> Timely(effects[i].ops, now)
  }

  /** Every firing takes an entry that has expired by `now`. */
  predicate FiresExpired(t: Table, effects: seq<Effect>, now: int) {
    effects == []
    || (var n := |effects| - 1;
        FiresExpired(t, effects[..n], now)
        && (effects[n].Fires? ==> effects[n].cookie in Expired(AfterAll(t, effects[..n]), now)))
  }

  lemma NoOps(t: Table)
    ensures ApplyAll(t, []) == t
  {
  }

  lemma OneOp(t: Table, op: Op)
    ensures ApplyAll(t, [op]) == Apply(t, op)
  {
  }

  lemma TwoOps(t: Table, first: Op, second: Op)
    ensures ApplyAll(t, [first, second]) == Apply(Apply(t, first), second)
  {
    assert [first, second][1..] == [second];
    OneOp(Apply(t, first), second);
  }

  lemma {:induction false} ApplyAllAppends(t: Table, a: seq<Op>, b: seq<Op>)
    ensures ApplyAll(t, a + b) == ApplyAll(ApplyAll(t, a), b)
    decreases a
  {
    if a == [] {
      assert a + b == b;
    } else {
      assert (a + b)[1..] == a[1..] + b;
      ApplyAllAppends(Apply(t, a[0]), a[1..], b);
    }
  }

  lemma {:induction false} ReplayAgrees(t: Table, fired: seq<Cookie>, f: nat -> seq<Op>, g: nat -> seq<Op>)
    requires forall k: nat :: k < |fired| ==> f(k) == g(k)
    ensures Replay(t, fired, f) == Replay(t, fired, g)
  {
    if fired != [] {
      ReplayAgrees(t, fired[..|fired| - 1], f, g);
    }
  }

  function Extended(script: nat -> seq<Op>, n: nat, ops: seq<Op>): nat -> seq<Op> {
    (k: nat) => if k == n then ops else script(k)
  }

  lemma ReplayFires(t: Table, fired: seq<Cookie>, script: nat -> seq<Op>, cookie: Cookie, ops: seq<Op>)
    ensures Replay(t, fired + [cookie], Extended(script, |fired|, ops))
         == ApplyAll(Removed(Replay(t, fired, script), cookie), ops)
  {
    hide ApplyAll;
    var longer := fired + [cookie];
    assert longer[..|fired|] == fired;
    ReplayAgrees(t, fired, script, Extended(script, |fired|, ops));
  }

  lemma ReplayUses(t: Table, fired: seq<Cookie>, script: nat -> seq<Op>, ops: seq<Op>)
    requires fired != []
    ensures Replay(t, fired, Extended(script, |fired| - 1, script(|fired| - 1) + ops))
         == ApplyAll(Replay(t, fired, script), ops)
  {
    var k := |fired| - 1;
    var front, later := fired[..k], Extended(script, k, script(k) + ops);
    assert fired == front + [fired[k]];
    ReplayAgrees(t, front, script, later);
    ApplyAllAppends(Removed(Replay(t, front, script), fired[k]), script(k), ops);
    hide ApplyAll;
  }

  lemma TimelyAppends(a: seq<Op>, b: seq<Op>, now: int)
    requires Timely(a, now) && Timely(b, now)
    ensures Timely(a + b, now)
  {
  }

  /** Any trace is a replay of its firings, where calls from outside count as done around the firing
      before them, or before the first. */
  lemma {:induction false} TraceIsReplay(t: Table, effects: seq<Effect>, now: int)
    returns (before: seq<Op>, script: nat -> seq<Op>)
    requires AllTimely(effects, now) && FiresExpired(t, effects, now)
    ensures Timely(before, now) && forall k: nat :: Timely(script(k), now)
    ensures AfterAll(t, effects) == Replay(ApplyAll(t, before), Fired(effects), script)
    ensures Legit(ApplyAll(t, before), Fired(effects), script, now)
  {
    hide ApplyAll, Replay, Timely, Expired, Legit;
    if effects == [] {
      before, script := [], k => [];
      EmptyReplay(t, script, now);
    } else {
      var n := |effects| - 1;
      var e := effects[n];
      before, script := TraceIsReplay(t, effects[..n], now);
      var fired, start := Fired(effects[..n]), ApplyAll(t, before);
      assert Timely(e.ops, now);
      assert Fired(effects) == fired + (if e.Fires? then [e.cookie] else []);
      assert fired + [] == fired;
      if e.Fires? {
        FiringIsLegit(start, fired, script, e.cookie, e.ops, now);
        ReplayFires(start, fired, script, e.cookie, e.ops);
        script := Extended(script, |fired|, e.ops);
      } else if fired == [] {
        UsesBefore(t, before, script, e.ops, now);
        before := before + e.ops;
      } else {
        UsesKeepLegit(start, fired, script, e.ops, now);
        ReplayUses(start, fired, script, e.ops);
        TimelyAppends(script(|fired| - 1), e.ops, now);
        script := Extended(script, |fired| - 1, script(|fired| - 1) + e.ops);
      }
    }
  }

  lemma EmptyReplay(t: Table, script: nat -> seq<Op>, now: int)
    requires forall k: nat :: script(k) == []
    ensures Timely([], now) && (forall k: nat :: Timely(script(k), now))
    ensures t == Replay(ApplyAll(t, []), [], script) && Legit(ApplyAll(t, []), [], script, now)
  {
  }

  lemma FiringIsLegit(t: Table, fired: seq<Cookie>, script: nat -> seq<Op>, cookie: Cookie, ops: seq<Op>, now: int)
    requires Legit(t, fired, script, now) && cookie in Expired(Replay(t, fired, script), now)
    ensures Legit(t, fired + [cookie], Extended(script, |fired|, ops), now)
  {
    hide Expired, Replay, ApplyAll;
    var longer := fired + [cookie];
    forall i | 0 <= i < |longer|
      ensures longer[i] in Expired(Replay(t, longer[..i], Extended(script, |fired|, ops)), now)
    {
      assert longer[..i] == fired[..i];
      ReplayAgrees(t, fired[..i], script, Extended(script, |fired|, ops));
    }
  }

  lemma UsesKeepLegit(t: Table, fired: seq<Cookie>, script: nat -> seq<Op>, ops: seq<Op>, now: int)
    requires fired != [] && Legit(t, fired, script, now)
    ensures Legit(t, fired, Extended(script, |fired| - 1, script(|fired| - 1) + ops), now)
  {
    hide Expired, Replay, ApplyAll;
    var later := Extended(script, |fired| - 1, script(|fired| - 1) + ops);
    forall i | 0 <= i < |fired|
      ensures fired[i] in Expired(Replay(t, fired[..i], later), now)
    {
      ReplayAgrees(t, fired[..i], script, later);
    }
  }

  lemma UsesBefore(t: Table, before: seq<Op>, script: nat -> seq<Op>, ops: seq<Op>, now: int)
    requires Timely(before, now) && Timely(ops, now)
    ensures Timely(before + ops, now)
    ensures Replay(ApplyAll(t, before + ops), [], script) == ApplyAll(Replay(ApplyAll(t, before), [], script), ops)
    ensures Legit(ApplyAll(t, before + ops), [], script, now)
  {
    ApplyAllAppends(t, before, ops);
    TimelyAppends(before, ops, now);
  }

  /** So a trace whose firings are those of a complete pass has fired exactly the entries due that no
      callback or other caller refreshed or removed first. */
  lemma CompleteTraceFiresTheDue(t: Table, effects: seq<Effect>, now: int)
    returns (before: seq<Op>, script: nat -> seq<Op>)
    requires AllTimely(effects, now) && FiresExpired(t, effects, now) && Expired(AfterAll(t, effects), now) == {}
    ensures Timely(before, now) && Pass(ApplyAll(t, before), Fired(effects), script, now, AfterAll(t, effects))
    ensures forall i, j :: 0 <= i < j < |Fired(effects)| ==> Fired(effects)[i] != Fired(effects)[j]
    ensures forall c :: c in Fired(effects) ==> c in Expired(t, now)
    ensures forall c :: c in Expired(t, now) && c !in Fired(effects) ==>
              c in Touched(before) + TouchedBefore(script, |Fired(effects)|)
  {
    hide ApplyAll, Replay, Expired, Legit, Touched;
    before, script := TraceIsReplay(t, effects, now);
    var start, t' := ApplyAll(t, before), AfterAll(t, effects);
    ApplyAllExpired(t, before, now);
    PassFiresExactlyTheDue(start, Fired(effects), script, now, t');
  }

  // ---------------------------------------------------------------- users of one table

  /** All that an effect does to the table, the taking out of the entry that fires included. */
  function Flat(e: Effect): seq<Op> {
    if e.Fires? then [Remove(e.cookie)] + e.ops else e.ops
  }

  lemma FlatIsAfter(t: Table, e: Effect)
    ensures ApplyAll(t, Flat(e)) == After(t, e)
  {
    if e.Fires? {
      ApplyAllAppends(t, [Remove(e.cookie)], e.ops);
      OneOp(t, Remove(e.cookie));
    }
  }

  function TimersOf(t: Table, mine: set<Callback>): set<Cookie> {
    set c | c in t && t[c].callback in mine
  }

  function Issues(op: Op): set<Cookie> {
    if op.Add? then {op.cookie} else {}
  }

  function AllIssued(ops: seq<Op>): set<Cookie> {
    if ops == [] then {} else Issues(ops[0]) + AllIssued(ops[1..])
  }

  /** Somebody else's calls: they add under new cookies, their own callbacks, at the clock, and touch no
      timer of mine. */
  predicate Harmless(t: Table, issued: set<Cookie>, clock: int, mine: set<Callback>, op: Op) {
    match op
    case Add(cookie, callback, _, at) => cookie !in issued && callback !in mine && at == clock
    case Refresh(cookie, at) => cookie !in TimersOf(t, mine) && at == clock
    case Remove(cookie) => cookie !in TimersOf(t, mine)
  }

  predicate AllHarmless(t: Table, issued: set<Cookie>, clock: int, mine: set<Callback>, ops: seq<Op>)
    decreases ops
  {
    ops == []
    || (Harmless(t, issued, clock, mine, ops[0])
        && AllHarmless(Apply(t, ops[0]), issued + Issues(ops[0]), clock, mine, ops[1..]))
  }

  lemma NothingIsHarmless(t: Table, issued: set<Cookie>, clock: int, mine: set<Callback>)
    ensures AllHarmless(t, issued, clock, mine, []) && AllIssued([]) == {}
  {
  }

  lemma OneIsHarmless(t: Table, issued: set<Cookie>, clock: int, mine: set<Callback>, op: Op)
    requires Harmless(t, issued, clock, mine, op)
    ensures AllHarmless(t, issued, clock, mine, [op]) && AllIssued([op]) == Issues(op)
  {
    hide Harmless;
  }

  lemma TwoAreHarmless(t: Table, issued: set<Cookie>, clock: int, mine: set<Callback>, a: Op, b: Op)
    requires Harmless(t, issued, clock, mine, a)
    requires Harmless(Apply(t, a), issued + Issues(a), clock, mine, b)
    ensures AllHarmless(t, issued, clock, mine, [a, b]) && AllIssued([a, b]) == Issues(a) + Issues(b)
  {
    hide Harmless, Apply;
    assert [a, b][1..] == [b];
    OneIsHarmless(Apply(t, a), issued + Issues(a), clock, mine, b);
    assert AllIssued([a, b]) == Issues(a) + AllIssued([b]);
  }

  /** `c`, if it is live, belongs to `callback`. */
  predicate Owned(t: Table, c: Cookie, callback: Callback) {
    c in t ==> t[c].callback == callback
  }

  lemma {:induction false} StaysOwned(t: Table, ops: seq<Op>, c: Cookie, callback: Callback)
    requires Owned(t, c, callback) && c !in AllIssued(ops)
    ensures Owned(ApplyAll(t, ops), c, callback)
    decreases ops
  {
    if ops != [] {
      StaysOwned(Apply(t, ops[0]), ops[1..], c, callback);
    }
  }
}
