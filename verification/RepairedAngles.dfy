/** The repaired angles of src/ydlidar_driver.cpp:665-737 in whole units of 1/64 degree. */
module RepairedAngles {
  import opened AngleRepair
  import opened LidarNodes

  /** The front gets the first measured angle less a whole number of units a place, the 360 degrees shared
      out among the nodes and rounded up, but not below zero. */
  lemma FrontIsMeasuredBack(nodes: seq<Node>, i: nat) returns (step: nat)
    requires Words(nodes) && i < |nodes| && nodes[i].distance != 0 && forall k :: 0 <= k < i ==> nodes[k].distance == 0
    ensures SomeMeasured(nodes) && 23040 <= step * |nodes| < 23040 + |nodes|
    ensures var first := nodes[i].angle / 2;
            Repaired(nodes)[0].angle / 2 == if i * step < first then first - i * step else 0
  {
    assert Measured(nodes[i]);
    FirstMeasuredIs(nodes, i);
    step := BackStep(|nodes|);
    Shared(step, |nodes|, Increment(|nodes|));
    hide BackStep;
    assert Repaired(nodes)[0] == RepairedNode(nodes, 0);
    if i == 0 {
      assert 0 * step == 0;
    }
  }

  lemma Shared(step: nat, count: nat, inc: real)
    requires count > 0 && inc == 360.0 / count as real && 64.0 * inc <= step as real < 64.0 * inc + 1.0
    ensures 23040 <= step * count < 23040 + count
  {
    ShareRounded(inc, count as real, step as real);
    Product(step, count);
    WholeShare(step * count, count);
  }

  lemma ShareRounded(inc: real, c: real, s: real)
    requires c > 0.0 && inc == 360.0 / c && 64.0 * inc <= s < 64.0 * inc + 1.0
    ensures 23040.0 <= s * c < 23040.0 + c
  {
    OneTurn(inc, c);
    Spread(64.0 * inc, s, c, 23040.0);
  }

  lemma OneTurn(inc: real, c: real)
    requires c > 0.0 && inc == 360.0 / c
    ensures 64.0 * inc * c == 23040.0
  {
    assert inc * c == 360.0;
  }

  lemma Spread(x: real, s: real, c: real, whole: real)
    requires c > 0.0 && x <= s < x + 1.0 && x * c == whole
    ensures whole <= s * c < whole + c
  {
    var e := SmallProduct(s - x, c);
    assert s * c == x * c + (s - x) * c;
    assert s * c == whole + e;
  }

  lemma SmallProduct(d: real, c: real) returns (e: real)
    requires 0.0 <= d < 1.0 && c > 0.0
    ensures e == d * c && 0.0 <= e < c
  {
    e := d * c;
    assert c - e == (1.0 - d) * c;
  }

  lemma WholeShare(p: nat, count: nat)
    requires 23040.0 <= p as real < 23040.0 + count as real
    ensures 23040 <= p < 23040 + count
  {
  }

  lemma Product(a: nat, b: nat)
    ensures a as real * b as real == (a * b) as real
  {
  }

  /** Every later node without a distance gets the front's angle and its place's share of the full turn,
      within one turn, in whole units. */
  lemma GapsAreFilledEvenly(nodes: seq<Node>, k: nat)
    requires Words(nodes) && SomeMeasured(nodes) && 0 < k < |nodes| && nodes[k].distance == 0
    ensures var front, angle := Repaired(nodes)[0].angle / 2, Repaired(nodes)[k].angle / 2;
            var x := front as real + (23040.0 * k as real) / |nodes| as real;
            var turned := if x > 23040.0 then x - 23040.0 else x;
            angle as real <= turned < angle as real + 1.0
  {
    hide SomeMeasured, ExpectedAngle, FrontAngle, Along;
    ShareOf(k, |nodes|);
    FrontOfRepaired(nodes);
    ExpectedIs(FrontAngle(nodes), k, |nodes|);
    assert Repaired(nodes)[k] == RepairedNode(nodes, k);
  }

  lemma FrontOfRepaired(nodes: seq<Node>)
    requires Words(nodes) && SomeMeasured(nodes) && nodes != []
    ensures Repaired(nodes)[0].angle / 2 == FrontAngle(nodes)
  {
    assert Repaired(nodes)[0] == RepairedNode(nodes, 0);
    if Measured(nodes[0]) {
      FirstMeasuredIs(nodes, 0);
      assert 0 * BackStep(|nodes|) == 0;
    }
  }

  lemma ShareOf(k: nat, count: nat)
    requires count > 0
    ensures 64.0 * Along(k, count) == (23040.0 * k as real) / count as real
  {
    var c, inc := count as real, Increment(count);
    assert inc * c == 360.0;
    Scaled(k as real, inc, c);
  }

  lemma Scaled(k: real, inc: real, c: real)
    requires c > 0.0 && inc * c == 360.0
    ensures 64.0 * (k * inc) == (23040.0 * k) / c
  {
    assert 64.0 * (k * inc) * c == 64.0 * k * (inc * c);
    var q := (23040.0 * k) / c;
    assert q * c == 23040.0 * k;
  }

  lemma ExpectedIs(front: nat, k: nat, count: nat)
    requires front < 0x8000 && k < count
    ensures var x := front as real + 64.0 * Along(k, count);
            var turned := if x > 23040.0 then x - 23040.0 else x;
            ExpectedAngle(front, k, count) as real <= turned < ExpectedAngle(front, k, count) as real + 1.0
  {
    hide Along;
  }

  /** The revolution is cut where the angle first falls by more than 180 degrees, if it does anywhere. */
  lemma CutAtFirstFall(nodes: seq<Node>, z: nat)
    requires z < |nodes| || z == 0
    requires z == 0 || nodes[z - 1].angle / 2 - nodes[z].angle / 2 > 180 * 64
    requires forall i :: 0 < i < (if z == 0 then |nodes| else z) ==>
               nodes[i - 1].angle / 2 - nodes[i].angle / 2 <= 180 * 64
    ensures Rotated(nodes) == nodes[z..] + nodes[..z]
  {
    hide FirstDrop;
    var d := FirstDrop(nodes, 1);
    assert d != 0 ==> Drops(nodes, d);
    assert z != 0 ==> Drops(nodes, z);
  }
}
