/** When the entries of the timer table of core/timeout_handler.cpp fire, in terms of the calls made on
    them. */
module TimerDeadlines {
  import opened Timers

  /** Nothing among `ops` refreshes or removes the entry of `c`; other entries may go. */
  predicate LeavesAlone(ops: seq<Op>, c: Cookie) {
    forall op :: op in ops && op.cookie == c ==> op.Add?
  }

  lemma {:induction false} EntryStays(t: Table, ops: seq<Op>, c: Cookie)
    requires c in t && LeavesAlone(ops, c)
    ensures c in ApplyAll(t, ops) && ApplyAll(t, ops)[c] == t[c]
    decreases ops
  {
    if ops != [] {
      assert ops[0] in ops;
      EntryStays(Apply(t, ops[0]), ops[1..], c);
    }
  }

  /** A pass calls an entry that nobody touches during it exactly if its deadline lies before the pass. */
  lemma UntouchedFiresIffDue(t: Table, fired: seq<Cookie>, script: nat -> seq<Op>, now: int, t': Table, c: Cookie)
    requires (forall k: nat :: Timely(script(k), now)) && Pass(t, fired, script, now, t')
    requires c in t && c !in TouchedBefore(script, |fired|)
    ensures c in fired <==> t[c].deadline < now
  {
    hide Pass, TouchedBefore;
    PassFiresExactlyTheDue(t, fired, script, now, t');
  }

  /** A callback finds its own entry gone: it may add one under the same cookie again, but not refresh it. */
  lemma CallbackFindsItsEntryGone(t: Table, fired: seq<Cookie>, script: nat -> seq<Op>, callback: Callback, ms: nat,
      at: int)
    requires fired != []
    ensures var k, c, t' := |fired| - 1, fired[|fired| - 1], Replay(t, fired, script);
            && (script(k) == [] ==> c !in t')
            && (script(k) == [Op.Refresh(c, at)] ==> c !in t')
            && (script(k) == [Op.Add(c, callback, ms, at)] ==>
                  c in t' && t'[c] == Timeout(callback, at + ms * 1_000_000, ms))
  {
    hide ApplyAll;
    var k, c := |fired| - 1, fired[|fired| - 1];
    var left := Removed(Replay(t, fired[..k], script), c);
    OneCall(left, Op.Refresh(c, at));
    OneCall(left, Op.Add(c, callback, ms, at));
  }

  lemma OneCall(t: Table, op: Op)
    ensures ApplyAll(t, [op]) == Apply(t, op) && ApplyAll(t, []) == t
  {
    assert [op][1..] == [];
  }

  /** So an entry added for so many milliseconds, and left alone since, is called by a pass exactly if
      more time than that has passed since its registration. */
  lemma AddedFiresIffElapsed(t: Table, c: Cookie, callback: Callback, ms: nat, at: int, ops: seq<Op>,
      fired: seq<Cookie>, script: nat -> seq<Op>, now: int, t': Table)
    requires c !in t && LeavesAlone(ops, c) && forall k: nat :: Timely(script(k), now)
    requires Pass(ApplyAll(t, [Op.Add(c, callback, ms, at)] + ops), fired, script, now, t')
    requires c !in TouchedBefore(script, |fired|)
    ensures c in fired <==> now - at > ms * 1_000_000
    ensures var t1 := ApplyAll(t, [Op.Add(c, callback, ms, at)] + ops); c in t1 && t1[c].callback == callback
  {
    hide Pass, TouchedBefore;
    var op := Op.Add(c, callback, ms, at);
    assert ([op] + ops)[1..] == ops;
    EntryStays(Apply(t, op), ops, c);
    UntouchedFiresIffDue(ApplyAll(t, [op] + ops), fired, script, now, t', c);
  }

  /** A refresh starts its time anew. */
  lemma RefreshedFiresIffElapsed(t: Table, c: Cookie, at: int, ops: seq<Op>, fired: seq<Cookie>,
      script: nat -> seq<Op>, now: int, t': Table)
    requires c in t && LeavesAlone(ops, c) && forall k: nat :: Timely(script(k), now)
    requires Pass(ApplyAll(t, [Op.Refresh(c, at)] + ops), fired, script, now, t')
    requires c !in TouchedBefore(script, |fired|)
    ensures c in fired <==> now - at > t[c].durationMs * 1_000_000
  {
    hide Pass, TouchedBefore;
    var op := Op.Refresh(c, at);
    assert ([op] + ops)[1..] == ops;
    EntryStays(Apply(t, op), ops, c);
    UntouchedFiresIffDue(ApplyAll(t, [op] + ops), fired, script, now, t', c);
  }

  lemma {:induction false} EntryStaysAway(t: Table, ops: seq<Op>, c: Cookie)
    requires c !in t && forall op :: op in ops ==> op.cookie != c
    ensures c !in ApplyAll(t, ops)
    decreases ops
  {
    if ops != [] {
      assert ops[0] in ops;
      EntryStaysAway(Apply(t, ops[0]), ops[1..], c);
    }
  }

  /** A removed entry is never called, unless it is added again. */
  lemma RemovedNeverFires(t: Table, c: Cookie, ops: seq<Op>, fired: seq<Cookie>, script: nat -> seq<Op>, now: int,
      t': Table)
    requires (forall op :: op in ops ==> op.cookie != c) && forall k: nat :: Timely(script(k), now)
    requires Pass(ApplyAll(t, [Op.Remove(c)] + ops), fired, script, now, t')
    ensures c !in fired
  {
    hide Pass, TouchedBefore;
    var op := Op.Remove(c);
    assert ([op] + ops)[1..] == ops;
    EntryStaysAway(Apply(t, op), ops, c);
    PassFiresExactlyTheDue(ApplyAll(t, [op] + ops), fired, script, now, t');
  }
}
