/** The repair of a revolution's angles: nodes without a distance get the angle their place suggests,
    and the revolution is rotated to begin after its wrap (src/ydlidar_driver.cpp:665-737). Degrees are
    reals. */
module AngleRepair {
  import opened LidarNodes
  import opened LidarPackage

  const HALF_TURN := 180 * 64

  function Angle(n: Node): nat {
    n.angle / 2
  }

  function WithAngle(n: Node, t: nat): (r: Node)
    ensures Angle(r) == t && r.angle % 2 == n.angle % 2
  {
    n.(angle := 2 * t + n.angle % 2)
  }

  predicate Measured(n: Node) {
    n.distance != 0
  }

  predicate Words(nodes: seq<Node>) {
    forall k :: 0 <= k < |nodes| ==> nodes[k].angle < 0x1_0000
  }

  predicate SomeMeasured(nodes: seq<Node>) {
    exists k :: 0 <= k < |nodes| && Measured(nodes[k])
  }

  function FirstMeasured(nodes: seq<Node>): (i: nat)
    requires SomeMeasured(nodes)
    ensures i < |nodes| && Measured(nodes[i]) && forall k :: 0 <= k < i ==> !Measured(nodes[k])
  {
    if Measured(nodes[0]) then 0
    else
      var k :| 0 <= k < |nodes| && Measured(nodes[k]);
      assert nodes[1..][k - 1] == nodes[k];
      1 + FirstMeasured(nodes[1..])
  }

  lemma FirstMeasuredIs(nodes: seq<Node>, i: nat)
    requires i < |nodes| && Measured(nodes[i]) && forall k :: 0 <= k < i ==> !Measured(nodes[k])
    ensures SomeMeasured(nodes) && FirstMeasured(nodes) == i
  {
    hide Measured, FirstMeasured;
    assert SomeMeasured(nodes);
  }

  // ---------------------------------------------------------------- the closed form

  function Increment(count: nat): (inc: real)
    requires count > 0
    ensures 0.0 < inc <= 360.0
  {
    360.0 / count as real
  }

  /** The increment in 1/64 degree, rounded up. */
  function BackStep(count: nat): (step: nat)
    requires count > 0
    ensures 64.0 * Increment(count) <= step as real < 64.0 * Increment(count) + 1.0
  {
    -(-64.0 * Increment(count)).Floor
  }

  /** The angle of the first node: its own, or that of the first measured node less one rounded-up
      increment a place, but not below zero. */
  function FrontAngle(nodes: seq<Node>): (front: nat)
    requires Words(nodes) && SomeMeasured(nodes)
    ensures front < 0x8000
  {
    var i := FirstMeasured(nodes);
    BackwardsBound(Angle(nodes[i]), BackStep(|nodes|), i);
    Backwards(Angle(nodes[i]), BackStep(|nodes|), i)
  }

  function Backwards(angle: nat, step: nat, places: nat): nat {
    if places * step < angle then angle - places * step else 0
  }

  lemma BackwardsBound(angle: nat, step: nat, places: nat)
    ensures Backwards(angle, step, places) <= angle
  {
    assert places * step >= 0;
  }

  lemma OneMoreBackwards(angle: nat, step: nat, places: nat)
    ensures Backwards(angle, step, places + 1)
         == if Backwards(angle, step, places) < step then 0 else Backwards(angle, step, places) - step
  {
    assert (places + 1) * step == places * step + step;
  }

  /** The angle `i` increments after the front, within one turn. */
  function ExpectedAngle(front: nat, i: nat, count: nat): (t: nat)
    requires front < 0x8000 && i < count
    ensures t < 0x8000
  {
    WithinOneTurn(i, count);
    var x := front as real + 64.0 * Along(i, count);
    if x > CIRCLE as real then (x - CIRCLE as real).Floor else x.Floor
  }

  /** `i` increments, in degrees. */
  function Along(i: nat, count: nat): real
    requires count > 0
  {
    i as real * Increment(count)
  }

  lemma WithinOneTurn(i: nat, count: nat)
    requires i < count
    ensures 0.0 <= Along(i, count) < 360.0
  {
    hide Increment;
    assert 0.0 <= i as real < count as real;
    IncrementsFillTheTurn(count);
    ScaledLess(i as real, count as real, Increment(count), 360.0);
  }

  lemma IncrementsFillTheTurn(count: nat)
    requires count > 0
    ensures count as real * Increment(count) == 360.0
  {
  }

  lemma ScaledLess(a: real, b: real, c: real, whole: real)
    requires 0.0 <= a < b && c > 0.0 && b * c == whole
    ensures 0.0 <= a * c < whole
  {
  }

  function RepairedNode(nodes: seq<Node>, k: nat): Node
    requires k < |nodes| && Words(nodes) && SomeMeasured(nodes)
  {
    if Measured(nodes[k]) then nodes[k]
    else if k == 0 then WithAngle(nodes[0], FrontAngle(nodes))
    else WithAngle(nodes[k], ExpectedAngle(FrontAngle(nodes), k, |nodes|))
  }

  function Repaired(nodes: seq<Node>): (r: seq<Node>)
    requires Words(nodes) && SomeMeasured(nodes)
    ensures |r| == |nodes|
  {
    seq(|nodes|, k requires 0 <= k < |nodes| => RepairedNode(nodes, k))
  }

  /** Only nodes without a distance change, and of them only the angle: each keeps its check bit. */
  lemma RepairKeeps(nodes: seq<Node>, k: nat)
    requires Words(nodes) && SomeMeasured(nodes) && k < |nodes|
    ensures Measured(nodes[k]) ==> Repaired(nodes)[k] == nodes[k]
    ensures Repaired(nodes)[k].distance == nodes[k].distance
    ensures Repaired(nodes)[k].syncQuality == nodes[k].syncQuality
    ensures Repaired(nodes)[k].angle % 2 == nodes[k].angle % 2
    ensures Repaired(nodes)[k].angle < 0x1_0000
  {
    hide FrontAngle, ExpectedAngle, SomeMeasured;
    var r := RepairedNode(nodes, k);
    assert r.angle == 2 * Angle(r) + nodes[k].angle % 2;
  }

  // ---------------------------------------------------------------- the rotation

  predicate Drops(nodes: seq<Node>, i: nat)
    requires 0 < i < |nodes|
  {
    Angle(nodes[i - 1]) - Angle(nodes[i]) > HALF_TURN
  }

  /** The place of the first drop of more than half a turn from position `i` on, or zero. */
  function FirstDrop(nodes: seq<Node>, i: nat): (z: nat)
    requires 0 < i
    ensures z != 0 ==> i <= z < |nodes| && Drops(nodes, z)
    ensures forall k :: i <= k < |nodes| && (z == 0 || k < z) ==> !Drops(nodes, k)
    decreases |nodes| - i
  {
    if i >= |nodes| then 0 else if Drops(nodes, i) then i else FirstDrop(nodes, i + 1)
  }

  function Rotated(nodes: seq<Node>): (r: seq<Node>)
    ensures |r| == |nodes| && multiset(r) == multiset(nodes)
  {
    var z := FirstDrop(nodes, 1);
    assert nodes == nodes[..z] + nodes[z..];
    nodes[z..] + nodes[..z]
  }

  predicate Ascending(nodes: seq<Node>) {
    forall j, k :: 0 <= j < k < |nodes| ==> Angle(nodes[j]) <= Angle(nodes[k])
  }

  /** Ascending from place `z` around to the place before it, with a drop of more than half a turn at
      `z` unless that is where the sequence starts. */
  predicate AscendingFrom(nodes: seq<Node>, z: nat) {
    && z <= |nodes| && Ascending(nodes[z..]) && Ascending(nodes[..z])
    && (0 < z < |nodes| ==> Drops(nodes, z) && Angle(nodes[|nodes| - 1]) <= Angle(nodes[0]))
  }

  lemma NoDropIn(nodes: seq<Node>, from: nat, to: nat)
    requires from <= to <= |nodes| && Ascending(nodes[from..to])
    ensures forall i :: from < i < to ==> !Drops(nodes, i)
  {
    var part := nodes[from..to];
    forall i | from < i < to
      ensures !Drops(nodes, i)
    {
      assert part[i - 1 - from] == nodes[i - 1] && part[i - from] == nodes[i];
    }
  }

  /** The rotated sequence ascends exactly if the sequence was a rotation of an ascending one that
      wraps by more than half a turn. */
  lemma RotatedAscendsIff(nodes: seq<Node>)
    ensures Ascending(Rotated(nodes)) <==> exists z :: AscendingFrom(nodes, z)
  {
    if Ascending(Rotated(nodes)) {
      AscendsOnlyIf(nodes);
    }
    if z :| AscendingFrom(nodes, z) {
      AscendsIf(nodes, z);
    }
  }

  lemma AscendsOnlyIf(nodes: seq<Node>)
    requires Ascending(Rotated(nodes))
    ensures AscendingFrom(nodes, FirstDrop(nodes, 1))
  {
    hide Angle, Drops;
    var z, n, r := FirstDrop(nodes, 1), |nodes|, Rotated(nodes);
    RotatedIs(nodes, z);
    assert nodes[z..] == r[..n - z] && nodes[..z] == r[n - z..];
    if 0 < z < n {
      assert r[n - z - 1] == nodes[n - 1] && r[n - z] == nodes[0];
    }
  }

  lemma AscendsIf(nodes: seq<Node>, z: nat)
    requires AscendingFrom(nodes, z)
    ensures Ascending(Rotated(nodes))
  {
    assert nodes[0..z] == nodes[..z] && nodes[z..|nodes|] == nodes[z..];
    NoDropIn(nodes, 0, z);
    NoDropIn(nodes, z, |nodes|);
    if 0 < z < |nodes| {
      assert FirstDrop(nodes, 1) == z;
      Joined(nodes[z..], nodes[..z]);
    } else {
      assert FirstDrop(nodes, 1) == 0;
      assert nodes[0..] + nodes[..0] == nodes == nodes[..|nodes|];
    }
  }

  lemma Joined(a: seq<Node>, b: seq<Node>)
    requires a != [] && b != [] && Ascending(a) && Ascending(b) && Angle(a[|a| - 1]) <= Angle(b[0])
    ensures Ascending(a + b)
  {
    hide Angle;
    assert forall j :: 0 <= j < |a| ==> Angle(a[j]) <= Angle(a[|a| - 1]);
    assert forall k :: 0 <= k < |b| ==> Angle(b[0]) <= Angle(b[k]);
  }

  // ---------------------------------------------------------------- in place

  /** `a` is `b` but for the angle of a node without a distance. */
  predicate Alike(a: Node, b: Node) {
    && a.angle < 0x1_0000 && a.distance == b.distance && a.syncQuality == b.syncQuality
    && a.angle % 2 == b.angle % 2 && (Measured(b) ==> a == b)
  }

  ghost predicate AllAlike(nodes: seq<Node>, orig: seq<Node>) {
    |nodes| == |orig| && forall k :: 0 <= k < |orig| ==> Alike(nodes[k], orig[k])
  }

  /** Stores an angle in degrees, beside the check bit. */
  function Rewritten(n: Node, degrees: real): Node {
    n.(angle := (ToUint16(degrees * 64.0) * 2 + n.angle % 2) % 0x1_0000)
  }

  lemma RewrittenIs(n: Node, degrees: real, t: nat)
    requires t < 0x8000 && t as real <= degrees * 64.0 < t as real + 1.0
    ensures Rewritten(n, degrees) == WithAngle(n, t)
  {
    assert ToUint16(degrees * 64.0) == t;
  }

  function NotBelowZero(degrees: real): real {
    if degrees < 0.0 then 0.0 else degrees
  }

  /** One rounded-down increment back, not below zero. */
  lemma OneBack(n: Node, next: Node, count: nat)
    requires count > 0 && next.angle < 0x1_0000
    ensures Rewritten(n, NotBelowZero(Angle(next) as real / 64.0 - Increment(count)))
         == WithAngle(n, if Angle(next) < BackStep(count) then 0 else Angle(next) - BackStep(count))
  {
    var degrees := Angle(next) as real / 64.0 - Increment(count);
    assert degrees * 64.0 == Angle(next) as real - 64.0 * Increment(count);
    if degrees < 0.0 {
      RewrittenIs(n, 0.0, 0);
    } else {
      RewrittenIs(n, degrees, Angle(next) - BackStep(count));
    }
  }

  function Turned(degrees: real): real {
    if degrees > 360.0 then degrees - 360.0 else degrees
  }

  lemma TurnedForward(n: Node, front: nat, i: nat, count: nat)
    requires front < 0x8000 && i < count
    ensures Rewritten(n, Turned(front as real / 64.0 + Along(i, count)))
         == WithAngle(n, ExpectedAngle(front, i, count))
  {
    hide Increment, Rewritten, Along;
    WithinOneTurn(i, count);
    var y := Along(i, count);
    assert (front as real / 64.0 + y) * 64.0 == front as real + 64.0 * y;
    RewrittenIs(n, Turned(front as real / 64.0 + y), ExpectedAngle(front, i, count));
  }

  lemma RewrittenAlike(n: Node, orig: Node, degrees: real)
    requires !Measured(orig) && Alike(n, orig)
    ensures Alike(Rewritten(n, degrees), orig)
  {
  }

  lemma AlikeItself(nodes: seq<Node>)
    requires Words(nodes)
    ensures AllAlike(nodes, nodes)
  {
  }

  lemma AlikeIsWord(a: Node, b: Node)
    requires Alike(a, b)
    ensures a.angle < 0x1_0000
  {
  }

  // ---------------------------------------------------------------- in place

  lemma BackwardsStart(a: nat, step: nat)
    ensures Backwards(a, step, 0) == a
  {
  }

  /** From the first measured node back to the front. */
  method ExtrapolateBack(nodes: array<Node>, first: nat, count: nat, inc: real, ghost orig: seq<Node>)
    requires first < count == |orig| <= nodes.Length && inc == Increment(count) && nodes[..count] == orig
    requires Words(orig) && SomeMeasured(orig) && first == FirstMeasured(orig)
    modifies nodes
    ensures AllAlike(nodes[..count], orig) && nodes[count..] == old(nodes[count..])
    ensures Angle(nodes[0]) == FrontAngle(orig)
  {
    hide SomeMeasured, BackStep, Increment, Rewritten, Backwards, Alike;
    var i := first;
    ghost var a := Angle(orig[first]);
    ghost var step := BackStep(count);
    BackwardsStart(a, step);
    AlikeItself(orig);
    while i != 0
      invariant 0 <= i <= first
      invariant AllAlike(nodes[..count], orig) && nodes[count..] == old(nodes[count..])
      invariant Angle(nodes[i]) == Backwards(a, step, first - i)
    {
      i := i - 1;
      var degrees := Angle(nodes[i + 1]) as real / 64.0 - inc;
      if degrees < 0.0 {
        degrees := 0.0;
      }
      AlikeIsWord(nodes[..count][i + 1], orig[i + 1]);
      OneBack(nodes[i], nodes[i + 1], count);
      OneMoreBackwards(a, step, first - i - 1);
      RewrittenAlike(nodes[i], orig[i], degrees);
      nodes[i] := Rewritten(nodes[i], degrees);
    }
  }

  /** One rounded-down increment on, within one turn. */
  function OneOn(angle: nat, count: nat): (t: nat)
    requires count > 1 && angle < 0x8000
    ensures t < 0x8000
  {
    HalfATurnAtMost(count);
    var x := angle as real + 64.0 * Increment(count);
    if x > CIRCLE as real then (x - CIRCLE as real).Floor else x.Floor
  }

  lemma HalfATurnAtMost(count: nat)
    requires count > 1
    ensures Increment(count) <= 180.0
  {
  }

  /** So many increments on, each rounded down by itself. */
  function Forwards(angle: nat, count: nat, places: nat): (t: nat)
    requires count > 1 && angle < 0x8000
    ensures t < 0x8000
  {
    if places == 0 then angle else OneOn(Forwards(angle, count, places - 1), count)
  }

  lemma OneForward(n: Node, angle: nat, count: nat)
    requires count > 1 && angle < 0x8000
    ensures Rewritten(n, Turned(angle as real / 64.0 + Increment(count))) == WithAngle(n, OneOn(angle, count))
  {
    hide Increment, Rewritten;
    assert (angle as real / 64.0 + Increment(count)) * 64.0 == angle as real + 64.0 * Increment(count);
    RewrittenIs(n, Turned(angle as real / 64.0 + Increment(count)), OneOn(angle, count));
  }

  /** `n` as the forward extrapolation leaves it, `places` behind a node with that angle. */
  function Continued(n: Node, angle: nat, count: nat, places: nat): Node
    requires count > 1 && angle < 0x8000
  {
    WithAngle(n, Forwards(angle, count, places))
  }

  /** From the last measured node to the end. */
  method ExtrapolateForward(nodes: array<Node>, last: nat, count: nat, inc: real, ghost orig: seq<Node>)
    requires last < count == |orig| <= nodes.Length && inc == Increment(count)
    requires AllAlike(nodes[..count], orig) && forall k :: last < k < count ==> !Measured(orig[k])
    modifies nodes
    ensures AllAlike(nodes[..count], orig)
    ensures forall k :: 0 <= k < nodes.Length && (k <= last || count <= k) ==> nodes[k] == old(nodes[k])
    ensures old(nodes[last]).angle < 0x1_0000
    ensures forall k :: last < k < count ==>
              nodes[k] == Continued(old(nodes[k]), Angle(old(nodes[last])), count, k - last)
  {
    hide Increment, Rewritten, Alike, OneOn, Turned, WithAngle;
    var i := last;
    ghost var angle := Angle(nodes[last]);
    assert Alike(nodes[..count][last], orig[last]);
    AlikeIsWord(nodes[last], orig[last]);
    while i != count - 1
      invariant last <= i < count
      invariant AllAlike(nodes[..count], orig)
      invariant forall k :: 0 <= k < nodes.Length && (k <= last || i < k) ==> nodes[k] == old(nodes[k])
      invariant count > 1 ==> Angle(nodes[i]) == Forwards(angle, count, i - last)
      invariant forall k :: last < k <= i ==> nodes[k] == Continued(old(nodes[k]), angle, count, k - last)
    {
      i := i + 1;
      var degrees := Turned(Angle(nodes[i - 1]) as real / 64.0 + inc);
      assert Alike(nodes[..count][i], orig[i]);
      OneForward(nodes[i], Angle(nodes[i - 1]), count);
      RewrittenAlike(nodes[i], orig[i], degrees);
      nodes[i] := Rewritten(nodes[i], degrees);
    }
  }

  /** Every node without a distance but the first, from the front's angle. */
  method InterpolateAll(nodes: array<Node>, count: nat, inc: real, ghost orig: seq<Node>)
    requires 0 < count == |orig| <= nodes.Length && inc == Increment(count)
    requires Words(orig) && SomeMeasured(orig)
    requires AllAlike(nodes[..count], orig) && Angle(nodes[0]) == FrontAngle(orig)
    modifies nodes
    ensures nodes[..count] == Repaired(orig) && nodes[count..] == old(nodes[count..])
  {
    hide Increment, Rewritten, Alike, SomeMeasured, FrontAngle, RepairedNode, Along, Turned;
    var front := Angle(nodes[0]);
    FirstRepaired(nodes[0], orig);
    for i := 1 to count
      invariant AllAlike(nodes[..count], orig) && nodes[count..] == old(nodes[count..])
      invariant forall k :: 0 <= k < i ==> nodes[k] == RepairedNode(orig, k)
    {
      assert Alike(nodes[..count][i], orig[i]);
      LaterRepaired(nodes[i], orig, i, inc, front);
      if nodes[i].distance == 0 {
        nodes[i] := Rewritten(nodes[i], Turned(front as real / 64.0 + i as real * inc));
      }
      assert nodes[i] == RepairedNode(orig, i);
    }
  }

  lemma FirstRepaired(n: Node, orig: seq<Node>)
    requires orig != [] && Words(orig) && SomeMeasured(orig)
    requires Alike(n, orig[0]) && Angle(n) == FrontAngle(orig)
    ensures n == RepairedNode(orig, 0)
  {
    hide SomeMeasured, FrontAngle;
    assert n.angle == 2 * Angle(n) + n.angle % 2;
  }

  lemma LaterRepaired(n: Node, orig: seq<Node>, i: nat, inc: real, front: nat)
    requires 0 < i < |orig| && Words(orig) && SomeMeasured(orig) && Alike(n, orig[i])
    requires inc == Increment(|orig|) && front == FrontAngle(orig)
    ensures n.distance == 0 ==> Rewritten(n, Turned(front as real / 64.0 + i as real * inc)) == RepairedNode(orig, i)
    ensures n.distance != 0 ==> n == RepairedNode(orig, i)
    ensures Alike(RepairedNode(orig, i), orig[i])
  {
    hide SomeMeasured, FrontAngle, Rewritten, ExpectedAngle, Increment, Turned;
    var count := |orig|;
    TurnedForward(n, front, i, count);
    assert front as real / 64.0 + Along(i, count) == front as real / 64.0 + i as real * inc;
    if n.distance == 0 {
      var t := ExpectedAngle(front, i, count);
      RewrittenAlike(n, orig[i], Turned(front as real / 64.0 + Along(i, count)));
      assert RepairedNode(orig, i) == WithAngle(orig[i], t) == WithAngle(n, t);
    }
  }

  method FirstDropOf(nodes: array<Node>, count: nat) returns (zero: nat)
    requires 0 < count <= nodes.Length
    ensures zero == FirstDrop(nodes[..count], 1)
  {
    zero := 0;
    var pre := Angle(nodes[0]) as real / 64.0;
    var i := 1;
    while i < count && zero == 0
      invariant 1 <= i <= count && pre == Angle(nodes[i - 1]) as real / 64.0
      invariant FirstDrop(nodes[..count], 1) == if zero == 0 then FirstDrop(nodes[..count], i) else zero
      decreases count - i, zero == 0
    {
      var degree := Angle(nodes[i]) as real / 64.0;
      if pre - degree > 180.0 {
        zero := i;
      } else {
        pre := degree;
        i := i + 1;
      }
    }
  }

  /** The two halves in a second buffer, the later one first. */
  method RotatedCopy(nodes: array<Node>, count: nat, zero: nat) returns (buffer: array<Node>)
    requires zero <= count <= nodes.Length
    ensures fresh(buffer) && buffer[..] == nodes[zero..count] + nodes[..zero]
  {
    buffer := new Node[count](_ => Node(0, 0, 0));
    for i := zero to count
      invariant buffer[..i - zero] == nodes[zero..i]
    {
      buffer[i - zero] := nodes[i];
    }
    for i := 0 to zero
      invariant buffer[..count - zero + i] == nodes[zero..count] + nodes[..i]
    {
      buffer[i + count - zero] := nodes[i];
    }
    assert buffer[..] == buffer[..count];
  }

  method CopyBack(nodes: array<Node>, buffer: array<Node>)
    requires buffer != nodes && buffer.Length <= nodes.Length
    modifies nodes
    ensures nodes[..buffer.Length] == buffer[..] && nodes[buffer.Length..] == old(nodes[buffer.Length..])
  {
    for i := 0 to buffer.Length
      invariant nodes[..i] == buffer[..i] && nodes[buffer.Length..] == old(nodes[buffer.Length..])
    {
      nodes[i] := buffer[i];
    }
    assert buffer[..] == buffer[..buffer.Length];
  }

  method FindFirst(nodes: array<Node>, count: nat) returns (first: nat)
    requires count <= nodes.Length
    ensures first <= count && (first < count <==> SomeMeasured(nodes[..count]))
    ensures first < count ==> first == FirstMeasured(nodes[..count])
  {
    hide FirstMeasured;
    first := 0;
    while first < count && nodes[first].distance == 0
      invariant first <= count && forall k :: 0 <= k < first ==> !Measured(nodes[..count][k])
    {
      first := first + 1;
    }
    if first < count {
      assert Measured(nodes[..count][first]);
      FirstMeasuredIs(nodes[..count], first);
    }
  }

  method FindLast(nodes: array<Node>, count: nat, first: nat) returns (last: nat)
    requires first < count <= nodes.Length && Measured(nodes[first])
    ensures first <= last < count && Measured(nodes[last])
    ensures forall k :: last < k < count ==> !Measured(nodes[k])
  {
    last := count - 1;
    while nodes[last].distance == 0
      invariant first <= last < count && forall k :: last < k < count ==> !Measured(nodes[k])
      decreases last
    {
      last := last - 1;
    }
  }

  /** All the angles, given the first measured node. */
  method Repair(nodes: array<Node>, first: nat, count: nat)
    requires first < count <= nodes.Length && Words(nodes[..count])
    requires SomeMeasured(nodes[..count]) && first == FirstMeasured(nodes[..count])
    modifies nodes
    ensures nodes[..count] == Repaired(old(nodes[..count])) && nodes[count..] == old(nodes[count..])
  {
    hide Increment, Repaired, Alike, FrontAngle, Words, SomeMeasured;
    ghost var orig := nodes[..count];
    var inc := Increment(count);
    ExtrapolateBack(nodes, first, count, inc, orig);
    SameDistances(nodes[..count], orig);
    assert Measured(nodes[..count][first]);
    var last := FindLast(nodes, count, first);
    ExtrapolateForward(nodes, last, count, inc, orig);
    InterpolateAll(nodes, count, inc, orig);
  }

  /** Fails, without a change, exactly if no node has a distance. */
  method AscendScanData(nodes: array<Node>, count: nat) returns (ok: bool)
    requires count <= nodes.Length && Words(nodes[..count])
    modifies nodes
    ensures ok == SomeMeasured(old(nodes[..count])) && nodes[count..] == old(nodes[count..])
    ensures ok ==> nodes[..count] == Rotated(Repaired(old(nodes[..count])))
    ensures !ok ==> nodes[..] == old(nodes[..])
  {
    hide Repaired, Words, Rotated, FirstMeasured, SomeMeasured, FirstDrop;
    var first := FindFirst(nodes, count);
    if first == count {
      return false;
    }
    Repair(nodes, first, count);
    var zero := FirstDropOf(nodes, count);
    RotatedIs(nodes[..count], zero);
    var buffer := RotatedCopy(nodes, count, zero);
    assert nodes[zero..count] == nodes[..count][zero..] && nodes[..zero] == nodes[..count][..zero];
    CopyBack(nodes, buffer);
    ok := true;
  }

  lemma SameDistances(nodes: seq<Node>, orig: seq<Node>)
    requires AllAlike(nodes, orig)
    ensures forall k :: 0 <= k < |orig| ==> Measured(nodes[k]) == Measured(orig[k])
  {
    forall k | 0 <= k < |orig|
      ensures Measured(nodes[k]) == Measured(orig[k])
    {
      assert Alike(nodes[k], orig[k]);
    }
  }

  lemma RotatedIs(nodes: seq<Node>, zero: nat)
    requires zero == FirstDrop(nodes, 1)
    ensures zero <= |nodes| && Rotated(nodes) == nodes[zero..] + nodes[..zero]
  {
  }
}
