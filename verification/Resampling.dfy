/** The resampling of a revolution onto a grid of equal angles, and the scan made from the grid
    (src/CYdLidar.cpp:86-186). Degrees and ranges are reals. */
module Resampling {
  import opened BoundedInts
  import opened AngleRepair
  import opened LidarNodes
  import opened Wrappers
  import opened Revolutions

  // ---------------------------------------------------------------- the grid

  /** The angle of a node, in degrees, after the turn by which a reversed lidar is corrected. */
  function Heading(n: Node, reversion: bool): (degrees: real)
    requires n.angle < 0x1_0000
    ensures 0.0 <= degrees < 512.0
  {
    var degrees := Angle(n) as real / 64.0;
    if !reversion then degrees
    else if degrees + 180.0 >= 360.0 then degrees + 180.0 - 360.0 else degrees + 180.0
  }

  /** The node as it is put into the grid; a corrected angle loses its check bit. */
  function Seen(n: Node, reversion: bool): Node
    requires n.angle < 0x1_0000
  {
    if reversion then n.(angle := ToUint16(Heading(n, true) * 64.0) * 2 % 0x1_0000) else n
  }

  /** Nothing of the corrected angle is lost when it is stored. */
  lemma SeenAtHeading(n: Node, reversion: bool)
    requires n.angle < 0x1_0000
    ensures Angle(Seen(n, reversion)) as real / 64.0 == Heading(n, reversion)
    ensures Seen(n, reversion).distance == n.distance && Seen(n, reversion).syncQuality == n.syncQuality
  {
    if reversion {
      var degrees := Angle(n) as real / 64.0;
      var t := Angle(n) + (if degrees + 180.0 >= 360.0 then -HALF_TURN else HALF_TURN);
      assert t as real == Heading(n, true) * 64.0;
      assert ToUint16(Heading(n, true) * 64.0) == t;
    }
  }

  /** An angle in grid steps. */
  function Steps(degrees: real, all: nat): (q: real)
    requires all > 0 && degrees >= 0.0
    ensures q >= 0.0 && q * Increment(all) == degrees
  {
    Quotient(degrees, Increment(all));
    degrees / Increment(all)
  }

  lemma Quotient(a: real, b: real)
    requires a >= 0.0 && b > 0.0
    ensures a / b >= 0.0 && a / b * b == a
  {
  }

  /** The number of the grid angle nearest to an angle, halves rounded up; an angle within half a
      step of a full turn has none. */
  function Nearest(degrees: real, all: nat): (bin: Option<nat>)
    requires all > 0 && degrees >= 0.0
    ensures bin.Some? ==> bin.value < all
  {
    var r := (Steps(degrees, all) + 0.5).Floor;
    if r < all then Some(r) else None
  }

  lemma HalfAStep(b: real, q: real, inc: real, grid: real, degrees: real)
    requires b - 0.5 <= q <= b + 0.5 && inc > 0.0
    requires grid == b * inc && degrees == q * inc
    ensures grid - inc / 2.0 <= degrees <= grid + inc / 2.0
  {
    var d := q - b;
    assert degrees == grid + d * inc;
    assert -0.5 * inc <= d * inc <= 0.5 * inc;
  }

  /** A node goes to a grid angle at most half a step away from it. */
  lemma NearestIsWithinHalfAStep(degrees: real, all: nat)
    requires all > 0 && degrees >= 0.0 && Nearest(degrees, all).Some?
    ensures var grid := Along(Nearest(degrees, all).value, all);
            grid - Increment(all) / 2.0 <= degrees <= grid + Increment(all) / 2.0
  {
    hide Increment, Steps;
    var b, q, inc := Nearest(degrees, all).value as real, Steps(degrees, all), Increment(all);
    HalfAStep(b, q, inc, Along(Nearest(degrees, all).value, all), degrees);
  }

  /** The angles no bin takes are exactly those from half a step before the full turn on, although
      grid angle zero lies as close behind it. */
  lemma NoBinIff(degrees: real, all: nat)
    requires all > 0 && degrees >= 0.0
    ensures Nearest(degrees, all).None? <==> degrees >= 360.0 - Increment(all) / 2.0
  {
    hide Increment, Steps;
    IncrementsFillTheTurn(all);
    LastHalfStep(all as real, Steps(degrees, all), Increment(all), degrees);
  }

  lemma LastHalfStep(all: real, q: real, inc: real, degrees: real)
    requires inc > 0.0 && all * inc == 360.0 && q * inc == degrees
    ensures q + 0.5 >= all <==> degrees >= 360.0 - inc / 2.0
  {
    var d := q + 0.5 - all;
    assert degrees - (360.0 - inc / 2.0) == d * inc;
  }

  /** Whether an angle is closer to grid angle `inter` than to the one behind it. */
  predicate Closer(degrees: real, inter: nat, step: real) {
    degrees - inter as real * step < (inter + 1) as real * step - degrees
  }

  lemma CloserIff(degrees: real, inter: nat, step: real, q: real)
    requires step > 0.0 && q * step == degrees
    ensures Closer(degrees, inter, step) <==> q < inter as real + 0.5
  {
    var k := inter as real;
    assert (inter + 1) as real == k + 1.0;
    Neighbours(q, k, step);
  }

  lemma Neighbours(q: real, k: real, step: real)
    requires step > 0.0
    ensures q * step - k * step < (k + 1.0) * step - q * step <==> q < k + 0.5
  {
    var d := q - k - 0.5;
    assert q * step - k * step - ((k + 1.0) * step - q * step) == 2.0 * (d * step);
  }

  /** The bin the driver chooses from the two neighbouring grid angles is the nearest one. */
  lemma CloserNeighbour(degrees: real, all: nat, inter: nat)
    requires all > 0 && degrees >= 0.0 && inter == Steps(degrees, all).Floor
    ensures Closer(degrees, inter, Increment(all)) ==>
              Nearest(degrees, all) == if inter < all then Some(inter) else None
    ensures !Closer(degrees, inter, Increment(all)) ==>
              Nearest(degrees, all) == if inter < all - 1 then Some(inter + 1) else None
  {
    hide Increment, Steps, Closer;
    CloserIff(degrees, inter, Increment(all), Steps(degrees, all));
  }

  predicate GoesTo(n: Node, all: nat, reversion: bool, bin: nat)
    requires all > 0 && n.angle < 0x1_0000
  {
    Measured(n) && Nearest(Heading(n, reversion), all) == Some(bin)
  }

  /** What the grid holds at `bin`: the last node with a distance that is nearest to it. */
  function Last(nodes: seq<Node>, all: nat, reversion: bool, bin: nat): Node
    requires all > 0 && Words(nodes)
  {
    if nodes == [] then Node(0, 0, 0)
    else
      var front, n := nodes[..|nodes| - 1], nodes[|nodes| - 1];
      if GoesTo(n, all, reversion, bin) then Seen(n, reversion)
      else Last(front, all, reversion, bin)
  }

  /** Exactly that: if any node goes to a bin, the last one of them is there. */
  lemma {:induction false} LastIsLast(nodes: seq<Node>, all: nat, reversion: bool, bin: nat, j: nat)
    requires all > 0 && Words(nodes) && j < |nodes| && GoesTo(nodes[j], all, reversion, bin)
    requires forall k :: j < k < |nodes| ==> !GoesTo(nodes[k], all, reversion, bin)
    ensures Last(nodes, all, reversion, bin) == Seen(nodes[j], reversion)
  {
    hide Nearest, Heading, Seen;
    if j < |nodes| - 1 {
      assert !GoesTo(nodes[|nodes| - 1], all, reversion, bin);
      LastIsLast(nodes[..|nodes| - 1], all, reversion, bin, j);
    } else {
      assert GoesTo(nodes[|nodes| - 1], all, reversion, bin);
    }
  }

  lemma {:induction false} LastComesFromANode(nodes: seq<Node>, all: nat, reversion: bool, bin: nat) returns (j: nat)
    requires all > 0 && Words(nodes) && Measured(Last(nodes, all, reversion, bin))
    ensures j < |nodes| && GoesTo(nodes[j], all, reversion, bin)
    ensures Last(nodes, all, reversion, bin) == Seen(nodes[j], reversion)
  {
    hide Nearest, Heading, Seen;
    j := |nodes| - 1;
    if !GoesTo(nodes[j], all, reversion, bin) {
      j := LastComesFromANode(nodes[..j], all, reversion, bin);
    }
  }

  // ---------------------------------------------------------------- positions in the scan

  /** The driver's two-branch index reversal. */
  function Index(i: nat, all: nat): (index: nat)
    requires i < all
    ensures index < all
  {
    if i < all / 2 then all / 2 - 1 - i else all - 1 - (i - all / 2)
  }

  /** It is one reflection of the whole circle, so it is its own inverse, for even and odd grids. */
  lemma IndexIsAReflection(i: nat, all: nat)
    requires i < all
    ensures Index(i, all) == (all / 2 - 1 - i) % all
    ensures Index(Index(i, all), all) == i
  {
    Reduced(Index(i, all), all);
  }

  lemma Reduced(x: nat, all: nat)
    requires x < all
    ensures x % all == x && (x - all) % all == x
  {
    assert x - all == all * -1 + x;
  }

  lemma IndexHitsOnce(i: nat, k: nat, all: nat)
    requires i < all && k < all
    ensures Index(k, all) == i <==> Index(i, all) == k
  {
  }

  // ---------------------------------------------------------------- the scan

  /** Conversion to an integer: towards zero. */
  function Trunc(x: real): (t: int)
    ensures x >= 0.0 ==> t >= 0 && t as real <= x < t as real + 1.0
    ensures x < 0.0 ==> t <= 0 && t as real - 1.0 < x <= t as real
  {
    if x >= 0.0 then x.Floor else -(-x).Floor
  }

  function Signed(degrees: real): real {
    if degrees > 180.0 then 360.0 - degrees else -degrees
  }

  predicate Ignores(ranges: seq<real>, degrees: real)
    requires |ranges| % 2 == 0
  {
    exists j :: 0 <= j < |ranges| / 2 && Within(ranges, j, degrees)
  }

  predicate Within(ranges: seq<real>, j: nat, degrees: real)
    requires |ranges| % 2 == 0 && j < |ranges| / 2
  {
    ranges[2 * j] < degrees <= ranges[2 * j + 1]
  }

  /** The range shown for a node of the grid. */
  function RangeShown(n: Node, ignored: seq<real>, minRange: real, maxRange: real): (r: real)
    requires |ignored| % 2 == 0
    ensures r == 0.0 || minRange <= r <= maxRange
    ensures r == 0.0 || r == n.distance as real / 4000.0
  {
    var range := n.distance as real / 4000.0;
    if ignored != [] && Ignores(ignored, Signed(Angle(n) as real / 64.0)) then 0.0
    else if range > maxRange || range < minRange then 0.0
    else range
  }

  /** The range at a position of the scan: that of the grid angle which the reversal puts there. */
  function RangeAt(grid: seq<Node>, nodeStart: int, pos: int, ignored: seq<real>, minRange: real, maxRange: real): real
    requires |ignored| % 2 == 0
  {
    if 0 <= pos + nodeStart < |grid| then RangeShown(grid[Index(pos + nodeStart, |grid|)], ignored, minRange, maxRange)
    else 0.0
  }

  function IntensityAt(grid: seq<Node>, nodeStart: int, pos: int): nat {
    if 0 <= pos + nodeStart < |grid| then grid[Index(pos + nodeStart, |grid|)].syncQuality / 4 else 0
  }

  /** What a revolution puts into the grid. */
  function Grid(nodes: seq<Node>, all: nat, reversion: bool): (grid: seq<Node>)
    requires all > 0 && Words(nodes)
    ensures |grid| == all
  {
    seq(all, bin requires 0 <= bin < all => Last(nodes, all, reversion, bin))
  }

  /** One node put into a grid. */
  function Put(grid: seq<Node>, n: Node, reversion: bool): seq<Node>
    requires grid != [] && n.angle < 0x1_0000
  {
    var bin := Nearest(Heading(n, reversion), |grid|);
    if bin.Some? then grid[bin.value := Seen(n, reversion)] else grid
  }

  lemma GridOfMore(nodes: seq<Node>, n: Node, all: nat, reversion: bool)
    requires all > 0 && n.angle < 0x1_0000 && Words(nodes) && Words(nodes + [n])
    ensures Grid(nodes + [n], all, reversion)
         == if Measured(n) then Put(Grid(nodes, all, reversion), n, reversion) else Grid(nodes, all, reversion)
  {
    hide Nearest, Heading, Seen;
    assert (nodes + [n])[..|nodes|] == nodes;
  }

  datatype Scan = Scan(ranges: seq<real>, intensities: seq<nat>)

  class CYdLidar {
    var nodeCounts: nat
    var eachAngle: real
    var fixedResolution: bool
    var reversion: bool
    var minAngle: real
    var maxAngle: real
    var minRange: real
    var maxRange: real
    var ignoreArray: seq<real>

    constructor ()
      ensures nodeCounts == 720 && minAngle == -180.0 && maxAngle == 180.0 && ignoreArray == []
    {
      nodeCounts, eachAngle, fixedResolution, reversion := 720, 0.5, false, false;
      minAngle, maxAngle, minRange, maxRange, ignoreArray := -180.0, 180.0, 0.08, 16.0, [];
    }

    /** Puts the nodes into the grid. */
    method Compensate(nodes: array<Node>, count: nat, all: nat) returns (grid: array<Node>)
      requires count <= nodes.Length && all > 0 && Words(nodes[..count]) && eachAngle == Increment(all)
      modifies nodes
      ensures fresh(grid) && grid[..] == Grid(old(nodes[..count]), all, reversion)
      ensures nodes[count..] == old(nodes[count..])
    {
      hide Increment, Grid, Words, Put;
      ghost var orig := nodes[..count];
      grid := new Node[all](_ => Node(0, 0, 0));
      EmptyGrid(all, reversion);
      assert grid[..] == Grid([], all, reversion);
      assert orig[..0] == [];
      for i := 0 to count
        invariant forall k :: i <= k < count ==> nodes[k] == orig[k]
        invariant nodes[count..] == old(nodes[count..])
        invariant Words(orig[..i]) && grid[..] == Grid(orig[..i], all, reversion)
      {
        WordsOfPrefix(orig, i);
        assert orig[..i] + [orig[i]] == orig[..i + 1];
        GridOfMore(orig[..i], orig[i], all, reversion);
        if nodes[i].distance != 0 {
          PutNode(nodes, i, grid, all);
        }
      }
      assert orig[..count] == orig;
    }

    method PutNode(nodes: array<Node>, i: nat, grid: array<Node>, all: nat)
      requires i < nodes.Length && nodes[i].angle < 0x1_0000 && nodes != grid
      requires all > 0 && grid.Length == all && eachAngle == Increment(all)
      modifies nodes, grid
      ensures forall k :: 0 <= k < nodes.Length && k != i ==> nodes[k] == old(nodes[k])
      ensures grid[..] == Put(old(grid[..]), old(nodes[i]), reversion)
    {
      hide Increment, Nearest, Closer, Seen;
      var angle := Angle(nodes[i]) as real / 64.0;
      if reversion {
        angle := angle + 180.0;
        if angle >= 360.0 {
          angle := angle - 360.0;
        }
        nodes[i] := nodes[i].(angle := ToUint16(angle * 64.0) * 2 % 0x1_0000);
      }
      SeenIs(old(nodes[i]), reversion, angle);
      Quotient(angle, eachAngle);
      var inter: nat := (angle / eachAngle).Floor;
      CloserNeighbour(angle, all, inter);
      if Closer(angle, inter, eachAngle) {
        if inter < all {
          grid[inter] := nodes[i];
        }
      } else if inter < all - 1 {
        grid[inter + 1] := nodes[i];
      }
    }

    method InIgnoredRange(angle: real) returns (inside: bool)
      requires |ignoreArray| % 2 == 0
      ensures inside == Ignores(ignoreArray, angle)
    {
      var j := 0;
      inside := false;
      while j < |ignoreArray| && !inside
        invariant 0 <= j <= |ignoreArray| && j % 2 == 0
        invariant inside ==> Ignores(ignoreArray, angle)
        invariant !inside ==> forall k :: 0 <= k < j / 2 ==> !Within(ignoreArray, k, angle)
        decreases |ignoreArray| - j, !inside
      {
        assert ignoreArray[j] < angle <= ignoreArray[j + 1] <==> Within(ignoreArray, j / 2, angle);
        if ignoreArray[j] < angle && angle <= ignoreArray[j + 1] {
          inside := true;
        } else {
          j := j + 2;
        }
      }
    }

    method RangeOf(n: Node) returns (range: real)
      requires |ignoreArray| % 2 == 0
      ensures range == RangeShown(n, ignoreArray, minRange, maxRange)
    {
      range := n.distance as real / 4.0 / 1000.0;
      if |ignoreArray| != 0 {
        var angle := Angle(n) as real / 64.0;
        if angle > 180.0 {
          angle := 360.0 - angle;
        } else {
          angle := -angle;
        }
        var inside := InIgnoredRange(angle);
        if inside {
          range := 0.0;
        }
      }
      if range > maxRange || range < minRange {
        range := 0.0;
      }
    }

    /** Fills the scan from the grid, one grid angle at a time. */
    method FillScan(grid: array<Node>, counts: nat, nodeStart: int) returns (scan: Scan)
      requires |ignoreArray| % 2 == 0
      ensures Shows(scan, grid[..], counts, nodeStart, ignoreArray, minRange, maxRange)
    {
      hide RangeShown, Index, RangeAt, IntensityAt, Done;
      var ranges := new real[counts](_ => 0.0);
      var intensities := new nat[counts](_ => 0);
      var all := grid.Length;
      ghost var nodes := grid[..];
      NoneDone(all);
      for i := 0 to all
        invariant grid[..] == nodes
        invariant forall p :: 0 <= p < counts ==>
                    ranges[p] == if Done(p + nodeStart, i, all)
                                 then RangeAt(nodes, nodeStart, p, ignoreArray, minRange, maxRange) else 0.0
        invariant forall p :: 0 <= p < counts ==>
                    intensities[p] == if Done(p + nodeStart, i, all) then IntensityAt(nodes, nodeStart, p) else 0
      {
        var range := RangeOf(grid[i]);
        var intensity := grid[i].syncQuality / 4;
        var index: nat;
        if i < all / 2 {
          index := all / 2 - 1 - i;
        } else {
          index := all - 1 - (i - all / 2);
        }
        IndexIs(i, all);
        OneMoreDone(i, all);
        var pos := index - nodeStart;
        ShownAt(nodes, nodeStart, i, ignoreArray, minRange, maxRange);
        if 0 <= pos < counts {
          ranges[pos] := range;
          intensities[pos] := intensity;
        }
      }
      AllDone(all);
      NothingBeyond(nodes, nodeStart, ignoreArray, minRange, maxRange);
      scan := Scan(ranges[..], intensities[..]);
    }

    /** From the repaired nodes to the scan. */
    method Resample(nodes: array<Node>, count: nat, all: nat) returns (scan: Scan)
      requires count <= nodes.Length && Words(nodes[..count]) && all > 0 && |ignoreArray| % 2 == 0
      modifies nodes, this`eachAngle, this`minAngle, this`maxAngle
      ensures minAngle == Smaller(old(minAngle), old(maxAngle)) && maxAngle == -Smaller(-old(minAngle), -old(maxAngle))
      ensures ShowsNodes(scan, old(nodes[..count]), all)
    {
      hide Increment, Grid, Words, Counts, NodeStart, Shows;
      eachAngle := Increment(all);
      var grid := Compensate(nodes, count, all);
      if maxAngle < minAngle {
        minAngle, maxAngle := maxAngle, minAngle;
      }
      var counts := Counts(all, minAngle, maxAngle);
      var angleStart := Trunc(180.0 + minAngle);
      var nodeStart := Trunc(all as real * (angleStart as real / 360.0));
      StartsAt(all, minAngle);
      assert nodeStart == NodeStart(all, minAngle);
      scan := FillScan(grid, counts, nodeStart);
    }

    /** One revolution, from the grabbed nodes to the scan. */
    method DoProcessSimple(nodes: array<Node>, count: nat) returns (ok: bool, scan: Scan)
      requires count <= nodes.Length && Words(nodes[..count]) && nodeCounts > 0 && |ignoreArray| % 2 == 0
      modifies nodes, this`eachAngle, this`minAngle, this`maxAngle
      ensures ok == SomeMeasured(old(nodes[..count]))
      ensures ok ==> minAngle == Smaller(old(minAngle), old(maxAngle))
      ensures ok ==> maxAngle == -Smaller(-old(minAngle), -old(maxAngle))
      ensures ok ==> ShowsNodes(scan, RepairedRevolution(old(nodes[..count])),
                                if fixedResolution then count else nodeCounts)
    {
      hide Words, RepairedRevolution, SomeMeasured, Repaired, Rotated, ShowsNodes;
      scan := Scan([], []);
      ghost var orig := nodes[..count];
      ok := AscendScanData(nodes, count);
      if ok {
        RevolutionIs(orig);
        NotEmpty(orig);
        scan := Resample(nodes, count, if fixedResolution then count else nodeCounts);
      }
    }

    /** The scan shows the window that the angles name of the grid made from `nodes`. */
    ghost predicate ShowsNodes(scan: Scan, nodes: seq<Node>, all: nat)
      requires Words(nodes) && all > 0 && minAngle <= maxAngle && |ignoreArray| % 2 == 0
      reads this
    {
      Shows(scan, Grid(nodes, all, reversion), Counts(all, minAngle, maxAngle), NodeStart(all, minAngle),
            ignoreArray, minRange, maxRange)
    }
  }

  function Smaller(a: real, b: real): real {
    if a < b then a else b
  }

  /** How many positions the window from `minAngle` to `maxAngle` has. */
  function Counts(all: nat, minAngle: real, maxAngle: real): nat
    requires minAngle <= maxAngle
  {
    assert all as real * ((maxAngle - minAngle) / 360.0) >= 0.0;
    Trunc(all as real * ((maxAngle - minAngle) / 360.0))
  }

  /** The index of its first position; only whole degrees of the start angle count. */
  function NodeStart(all: nat, minAngle: real): int {
    Trunc(all as real * (Trunc(180.0 + minAngle) as real / 360.0))
  }

  lemma StartsAt(all: nat, minAngle: real)
    ensures NodeStart(all, minAngle) == Trunc(all as real * (Trunc(180.0 + minAngle) as real / 360.0))
  {
  }

  ghost predicate Shows(scan: Scan, grid: seq<Node>, counts: nat, nodeStart: int, ignored: seq<real>, minRange: real,
      maxRange: real)
    requires |ignored| % 2 == 0
  {
    && |scan.ranges| == |scan.intensities| == counts
    && (forall p :: 0 <= p < counts ==> scan.ranges[p] == RangeAt(grid, nodeStart, p, ignored, minRange, maxRange))
    && (forall p :: 0 <= p < counts ==> scan.intensities[p] == IntensityAt(grid, nodeStart, p))
  }

  /** The revolution as the grid receives it. */
  function RepairedRevolution(nodes: seq<Node>): (r: seq<Node>)
    requires Words(nodes) && SomeMeasured(nodes)
    ensures Words(r) && |r| == |nodes|
  {
    RepairedWords(nodes);
    Rotated(Repaired(nodes))
  }

  lemma RevolutionIs(nodes: seq<Node>)
    requires Words(nodes) && SomeMeasured(nodes)
    ensures RepairedRevolution(nodes) == Rotated(Repaired(nodes))
  {
  }

  lemma NotEmpty(nodes: seq<Node>)
    requires SomeMeasured(nodes)
    ensures nodes != []
  {
  }

  lemma RepairedWords(nodes: seq<Node>)
    requires Words(nodes) && SomeMeasured(nodes)
    ensures Words(Rotated(Repaired(nodes)))
  {
    hide SomeMeasured, RepairedNode;
    var r := Repaired(nodes);
    forall k | 0 <= k < |r|
      ensures r[k].angle < 0x1_0000
    {
      RepairKeeps(nodes, k);
    }
    RotatedIs(r, FirstDrop(r, 1));
  }

  /** What the driver publishes from a stream of bytes is ready to be processed. */
  lemma PublishedAreWords(stream: seq<byte>, sampleBytes: nat, previous: real, shown: seq<byte>, correct: nat -> int,
      from: nat, to: nat, k: nat)
    requires (sampleBytes == 2 || sampleBytes == 3) && |shown| == sampleBytes
    requires from <= to <= |Decoded(stream, sampleBytes, previous, shown, correct)|
    requires k < |Published(Decoded(stream, sampleBytes, previous, shown, correct)[from..to])|
    ensures Words(Published(Decoded(stream, sampleBytes, previous, shown, correct)[from..to])[k])
  {
    hide Decoded, Published;
    var nodes := Decoded(stream, sampleBytes, previous, shown, correct);
    DecodedAnglesFit(stream, sampleBytes, previous, shown, correct);
    PublishedFromStream(nodes[from..to], k);
    var revolution := Published(nodes[from..to])[k];
    forall i | 0 <= i < |revolution|
      ensures revolution[i].angle < 0x1_0000
    {
      assert revolution[i] in nodes[from..to];
      assert revolution[i] in nodes;
    }
  }

  /** The repair neither invents nor loses a measurement. */
  lemma MeasurementsSurvive(nodes: seq<Node>, n: Node)
    requires Words(nodes) && SomeMeasured(nodes) && Measured(n)
    ensures n in RepairedRevolution(nodes) <==> n in nodes
  {
    hide SomeMeasured, RepairedNode, Measured;
    var r := Repaired(nodes);
    forall k | 0 <= k < |nodes|
      ensures Measured(nodes[k]) ==> r[k] == nodes[k]
      ensures Measured(r[k]) ==> r[k] == nodes[k]
    {
      RepairKeeps(nodes, k);
      SameMeasure(r[k], nodes[k]);
    }
    RotatedIs(r, FirstDrop(r, 1));
  }

  lemma SameMeasure(a: Node, b: Node)
    requires a.distance == b.distance
    ensures Measured(a) == Measured(b)
  {
  }

  /** Every range shown is zero, or within the limits, not in an ignored range, and measured by a node
      of the revolution within half a grid step of the grid angle its position stands for. */
  lemma RangeIsMeasured(nodes: seq<Node>, all: nat, reversion: bool, nodeStart: int, pos: int, ignored: seq<real>,
      minRange: real, maxRange: real) returns (n: Node)
    requires Words(nodes) && SomeMeasured(nodes) && all > 0 && |ignored| % 2 == 0
    requires var grid := Grid(RepairedRevolution(nodes), all, reversion);
             RangeAt(grid, nodeStart, pos, ignored, minRange, maxRange) != 0.0
    ensures n in nodes && n.angle < 0x1_0000 && 0 <= pos + nodeStart < all
    ensures var grid := Grid(RepairedRevolution(nodes), all, reversion);
            var range := RangeAt(grid, nodeStart, pos, ignored, minRange, maxRange);
            range == n.distance as real / 4000.0 && minRange <= range <= maxRange
    ensures !Ignores(ignored, Signed(Heading(n, reversion)))
    ensures var grid := Along(Index(pos + nodeStart, all), all);
            grid - Increment(all) / 2.0 <= Heading(n, reversion) <= grid + Increment(all) / 2.0
  {
    hide SomeMeasured, RepairedRevolution, Nearest, Heading, Seen, Along, Signed, Ignores, Increment;
    var repaired, bin := RepairedRevolution(nodes), Index(pos + nodeStart, all);
    var shown := Last(repaired, all, reversion, bin);
    var j := LastComesFromANode(repaired, all, reversion, bin);
    n := repaired[j];
    SeenAtHeading(n, reversion);
    NearestIsWithinHalfAStep(Heading(n, reversion), all);
    MeasurementsSurvive(nodes, n);
    NothingIgnored(Signed(Heading(n, reversion)));
  }

  lemma NothingIgnored(degrees: real)
    ensures !Ignores([], degrees)
  {
  }

  /** Conversely, of the nodes nearest to a grid angle the last one is shown, if its range is within
      the limits and not ignored and its position within the window. */
  lemma NearestNodeIsShown(nodes: seq<Node>, all: nat, reversion: bool, nodeStart: int, bin: nat, j: nat,
      ignored: seq<real>,
      minRange: real, maxRange: real)
    requires Words(nodes) && all > 0 && |ignored| % 2 == 0 && j < |nodes| && GoesTo(nodes[j], all, reversion, bin)
    requires forall k :: j < k < |nodes| ==> !GoesTo(nodes[k], all, reversion, bin)
    requires minRange <= nodes[j].distance as real / 4000.0 <= maxRange
    requires !Ignores(ignored, Signed(Heading(nodes[j], reversion)))
    ensures bin < all
    ensures RangeAt(Grid(nodes, all, reversion), nodeStart, Index(bin, all) - nodeStart, ignored, minRange, maxRange)
         == nodes[j].distance as real / 4000.0
  {
    LastIsLast(nodes, all, reversion, bin, j);
    SeenAtHeading(nodes[j], reversion);
    IndexIsAReflection(bin, all);
    hide Heading, Seen, Signed, Ignores, Increment, Index;
  }

  /** The first `i` grid angles include the one shown at an index. */
  predicate Done(index: int, i: nat, all: nat) {
    0 <= index < all && Index(index, all) < i
  }

  lemma OneMoreDone(i: nat, all: nat)
    requires i < all
    ensures forall k :: Done(k, i + 1, all) <==> Done(k, i, all) || k == Index(i, all)
  {
    forall k
      ensures Done(k, i + 1, all) <==> Done(k, i, all) || k == Index(i, all)
    {
      if 0 <= k < all {
        IndexHitsOnce(i, k, all);
      }
    }
  }

  /** What the two places for grid angle `i` hold. */
  lemma ShownAt(nodes: seq<Node>, nodeStart: int, i: nat, ignored: seq<real>, minRange: real, maxRange: real)
    requires i < |nodes| && |ignored| % 2 == 0
    ensures var pos := Index(i, |nodes|) - nodeStart;
            && RangeAt(nodes, nodeStart, pos, ignored, minRange, maxRange)
               == RangeShown(nodes[i], ignored, minRange, maxRange)
            && IntensityAt(nodes, nodeStart, pos) == nodes[i].syncQuality / 4
  {
    hide RangeShown;
    IndexIsAReflection(i, |nodes|);
  }

  lemma NothingBeyond(nodes: seq<Node>, nodeStart: int, ignored: seq<real>, minRange: real, maxRange: real)
    requires |ignored| % 2 == 0
    ensures forall p :: !(0 <= p + nodeStart < |nodes|) ==>
              RangeAt(nodes, nodeStart, p, ignored, minRange, maxRange) == 0.0 && IntensityAt(nodes, nodeStart, p) == 0
  {
    hide RangeShown;
  }

  lemma NoneDone(all: nat)
    ensures forall k :: !Done(k, 0, all)
  {
  }

  lemma IndexIs(i: nat, all: nat)
    requires i < all
    ensures Index(i, all) == if i < all / 2 then all / 2 - 1 - i else all - 1 - (i - all / 2)
  {
  }

  lemma AllDone(all: nat)
    ensures forall k :: Done(k, all, all) <==> 0 <= k < all
  {
  }

  lemma SeenIs(n: Node, reversion: bool, degrees: real)
    requires n.angle < 0x1_0000 && degrees == Heading(n, reversion)
    ensures Seen(n, reversion) == if reversion then n.(angle := ToUint16(degrees * 64.0) * 2 % 0x1_0000) else n
  {
  }

  lemma EmptyGrid(all: nat, reversion: bool)
    requires all > 0
    ensures Words([]) && Grid([], all, reversion) == seq(all, _ => Node(0, 0, 0))
  {
  }

  lemma WordsOfPrefix(nodes: seq<Node>, i: nat)
    requires i < |nodes| && Words(nodes)
    ensures Words(nodes[..i]) && Words(nodes[..i + 1]) && nodes[i].angle < 0x1_0000
  {
  }

  // ---------------------------------------------------------------- from measurement to scan, in numbers

  /** Where a measurement was made, in degrees: as its angle word says, or half a turn on. */
  function Direction(n: Node, reversion: bool): real {
    var degrees := (n.angle / 2) as real / 64.0;
    if !reversion then degrees else if degrees < 180.0 then degrees + 180.0 else degrees - 180.0
  }

  lemma DirectionIsHeading(n: Node, reversion: bool)
    requires n.angle < 0x1_0000
    ensures Heading(n, reversion) == Direction(n, reversion)
  {
  }

  /** The same in steps of the grid. */
  function Place(degrees: real, all: nat): real {
    degrees * all as real / 360.0
  }

  /** A node goes to a grid angle exactly if it has a distance and lies at most half a step before it, or
      less than that behind it. */
  lemma GoesToIff(n: Node, all: nat, reversion: bool, bin: nat)
    requires all > 0 && n.angle < 0x1_0000
    ensures var place := Place(Direction(n, reversion), all);
            GoesTo(n, all, reversion, bin)
            <==> n.distance != 0 && bin < all && bin as real - 0.5 <= place < bin as real + 0.5
  {
    hide Heading, Direction, Steps, Increment, Place;
    DirectionIsHeading(n, reversion);
    StepsAre(Heading(n, reversion), all);
    RoundsTo(Place(Direction(n, reversion), all), bin);
  }

  lemma StepsAre(degrees: real, all: nat)
    requires all > 0 && degrees >= 0.0
    ensures Steps(degrees, all) == Place(degrees, all)
  {
    hide Steps;
    IncrementsFillTheTurn(all);
    Shares(Steps(degrees, all), Increment(all), all as real, degrees);
  }

  lemma Shares(q: real, inc: real, all: real, degrees: real)
    requires q * inc == degrees && all * inc == 360.0
    ensures q == degrees * all / 360.0
  {
    assert degrees * all == q * (inc * all);
  }

  lemma RoundsTo(x: real, bin: nat)
    ensures (x + 0.5).Floor == bin <==> bin as real - 0.5 <= x < bin as real + 0.5
  {
  }

  /** The angle that the ignored ranges are compared with: clockwise positive, from -180 to 180 degrees. */
  function Clockwise(degrees: real): real {
    if degrees <= 180.0 then -degrees else 360.0 - degrees
  }

  /** A range is not shown outside the limits, nor from within an ignored range of angles. */
  predicate Hidden(range: real, clockwise: real, ignored: seq<real>, minRange: real, maxRange: real)
    requires |ignored| % 2 == 0
  {
    || range < minRange || range > maxRange
    || exists i :: 0 <= i < |ignored| / 2 && Within(ignored, i, clockwise)
  }

  /** The scan of a window, as the driver fills it from a revolution. */
  ghost predicate IsScan(scan: Scan, nodes: seq<Node>, all: nat, reversion: bool, minAngle: real, maxAngle: real,
      ignored: seq<real>, minRange: real, maxRange: real)
    requires Words(nodes) && all > 0 && minAngle <= maxAngle && |ignored| % 2 == 0
  {
    Shows(scan, Grid(nodes, all, reversion), Counts(all, minAngle, maxAngle), NodeStart(all, minAngle), ignored,
          minRange, maxRange)
  }

  /** A measurement nearest to grid angle `bin`, and the last such, is shown at the position that mirrors
      the grid and starts with the window: its range is a four-thousandth of the distance word, in
      metres, or zero outside the limits or in an ignored range, and its intensity the quality without
      the two lowest bits. */
  lemma MeasurementIsShown(scan: Scan, nodes: seq<Node>, all: nat, reversion: bool, minAngle: real, maxAngle: real,
      ignored: seq<real>, minRange: real, maxRange: real, bin: nat, j: nat)
    requires Words(nodes) && all > 0 && minAngle <= maxAngle && |ignored| % 2 == 0
    requires IsScan(scan, nodes, all, reversion, minAngle, maxAngle, ignored, minRange, maxRange)
    requires j < |nodes| && GoesTo(nodes[j], all, reversion, bin)
    requires forall k :: j < k < |nodes| ==> !GoesTo(nodes[k], all, reversion, bin)
    ensures var n, pos := nodes[j], (all / 2 - 1 - bin) % all - NodeStart(all, minAngle);
            var range := n.distance as real / 4000.0;
            var hidden := Hidden(range, Clockwise(Direction(n, reversion)), ignored, minRange, maxRange);
            && |scan.ranges| == |scan.intensities|
            && (0 <= pos < |scan.ranges| ==>
                  && scan.ranges[pos] == (if hidden then 0.0 else range)
                  && scan.intensities[pos] == n.syncQuality / 4)
  {
    hide NodeStart, Counts, Hidden, Heading, Direction, Seen, Increment, Nearest, Clockwise, Signed, Ignores,
         RangeShown;
    LastIsLast(nodes, all, reversion, bin, j);
    SeenAtHeading(nodes[j], reversion);
    DirectionIsHeading(nodes[j], reversion);
    IndexIsAReflection(bin, all);
    ShownAt(Grid(nodes, all, reversion), NodeStart(all, minAngle), bin, ignored, minRange, maxRange);
    RangeIs(Seen(nodes[j], reversion), Direction(nodes[j], reversion), ignored, minRange, maxRange);
  }

  lemma RangeIs(n: Node, degrees: real, ignored: seq<real>, minRange: real, maxRange: real)
    requires |ignored| % 2 == 0 && (n.angle / 2) as real / 64.0 == degrees
    ensures var range := n.distance as real / 4000.0;
            RangeShown(n, ignored, minRange, maxRange)
            == if Hidden(range, Clockwise(degrees), ignored, minRange, maxRange) then 0.0 else range
  {
    hide Within;
    assert Signed(Angle(n) as real / 64.0) == Clockwise(degrees);
  }

  /** The window has a position for every whole step it spans, and begins at the step of the whole degree
      its start angle is cut to. */
  lemma WindowIs(all: nat, minAngle: real, maxAngle: real)
    requires minAngle <= maxAngle && minAngle >= -180.0
    ensures var counts, steps := Counts(all, minAngle, maxAngle), all as real * ((maxAngle - minAngle) / 360.0);
            counts as real <= steps < counts as real + 1.0
    ensures var first, degree := NodeStart(all, minAngle), (180.0 + minAngle).Floor;
            first as real <= all as real * (degree as real / 360.0) < first as real + 1.0
  {
    NotNegative(all as real, (180.0 + minAngle).Floor as real);
    NotNegative(all as real, maxAngle - minAngle);
  }

  lemma NotNegative(all: real, degrees: real)
    requires all >= 0.0 && degrees >= 0.0
    ensures all * (degrees / 360.0) >= 0.0
  {
  }
}
