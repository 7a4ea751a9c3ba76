/** From measurements to bytes and back: the packages a lidar sends, byte by byte as
    include/ydlidar_driver.h:89-112 lays them out, and the nodes that src/ydlidar_driver.cpp:344-600
    makes of them. */
module LidarWire {
  import opened BoundedInts
  import opened Bitwise
  import opened HeaderSearch
  import opened LidarNodes
  import opened LidarPackage
  import opened Wrappers

  datatype Sample = Sample(quality: byte, distance: uint16)

  /** What one package reports. Angles are in 1/64 degree. */
  datatype Report = Report(ringStart: bool, first: nat, last: nat, samples: seq<Sample>)

  predicate Sendable(r: Report) {
    |r.samples| <= 255 && r.first < 0x8000 && r.last < 0x8000
  }

  // ---------------------------------------------------------------- the bytes of a package

  /** A sixteen-bit field, its low byte first. */
  function Field(w: nat): (bytes: seq<byte>)
    requires w < 0x1_0000
    ensures |bytes| == 2
  {
    [w % 0x100, w / 0x100]
  }

  function SampleBytes(s: Sample, intensities: bool): seq<byte> {
    (if intensities then [s.quality] else []) + Field(s.distance)
  }

  function Body(samples: seq<Sample>, intensities: bool): seq<byte> {
    if samples == [] then []
    else Body(samples[..|samples| - 1], intensities) + SampleBytes(samples[|samples| - 1], intensities)
  }

  /** Angles travel doubled, with the check bit set. */
  function Head(r: Report, checksum: nat): (bytes: seq<byte>)
    requires Sendable(r) && checksum < 0x1_0000
    ensures |bytes| == 10
  {
    [0xAA, 0x55, if r.ringStart then 1 else 0, |r.samples|]
    + Field(2 * r.first + 1) + Field(2 * r.last + 1) + Field(checksum)
  }

  function Bytes(r: Report, checksum: nat, intensities: bool): seq<byte>
    requires Sendable(r) && checksum < 0x1_0000
  {
    Head(r, checksum) + Body(r.samples, intensities)
  }

  function SampleNumbers(samples: seq<Sample>, intensities: bool): seq<nat> {
    if samples == [] then []
    else
      var s := samples[|samples| - 1];
      SampleNumbers(samples[..|samples| - 1], intensities) + (if intensities then [s.quality] else []) + [s.distance]
  }

  /** The checksum is the exclusive or of the sixteen-bit fields, each quality counting as one. */
  function Checksum(r: Report, intensities: bool): nat
    requires Sendable(r)
  {
    XorAll([0x55AA, (if r.ringStart then 1 else 0) + 0x100 * |r.samples|, 2 * r.first + 1, 2 * r.last + 1]
           + SampleNumbers(r.samples, intensities))
  }

  // ---------------------------------------------------------------- the frame it is

  function Width(intensities: bool): (n: nat)
    ensures n == 2 || n == 3
  {
    if intensities then 3 else 2
  }

  lemma FieldIsWord(w: nat)
    requires w < 0x1_0000
    ensures Word(Field(w)[0], Field(w)[1]) == w
  {
  }

  lemma {:induction false} BodySize(samples: seq<Sample>, intensities: bool)
    ensures |Body(samples, intensities)| == |samples| * Width(intensities)
    ensures Whole(|Body(samples, intensities)|, Width(intensities))
  {
    hide Whole;
    if samples != [] {
      BodySize(samples[..|samples| - 1], intensities);
      OneMore(|samples| - 1, Width(intensities));
    }
    FramesAreWhole(|samples|, Width(intensities));
  }

  lemma OneMore(n: nat, width: nat)
    ensures (n + 1) * width == n * width + width
  {
  }

  lemma HeadBytes(r: Report, checksum: nat)
    requires Sendable(r) && checksum < 0x1_0000
    ensures var head, first, last := Head(r, checksum), Field(2 * r.first + 1), Field(2 * r.last + 1);
            && head[0] == 0xAA && head[1] == 0x55 && head[2] == (if r.ringStart then 1 else 0)
            && head[3] == |r.samples| && head[4] == first[0] && head[5] == first[1]
            && head[6] == last[0] && head[7] == last[1]
            && head[8] == Field(checksum)[0] && head[9] == Field(checksum)[1]
  {
    hide Field;
  }

  lemma HeadFits(r: Report, checksum: nat)
    requires Sendable(r) && checksum < 0x1_0000
    ensures Fitting(Package, Head(r, checksum))
  {
    hide Head;
    HeadBytes(r, checksum);
  }

  function FrameOf(r: Report, checksum: nat, intensities: bool): (f: Frame)
    requires Sendable(r) && checksum < 0x1_0000
    ensures WellFormed(f, Width(intensities))
  {
    HeadFits(r, checksum);
    BodySize(r.samples, intensities);
    Frame(Head(r, checksum), Body(r.samples, intensities))
  }

  /** The header's fields are read back as they were sent. */
  lemma HeadIsRead(r: Report, checksum: nat)
    requires Sendable(r) && checksum < 0x1_0000
    ensures var head := Head(r, checksum);
            && SampleNum(head) == |r.samples| && FirstAngle(head) == r.first && LastAngle(head) == r.last
            && head[2] == (if r.ringStart then 1 else 0) && Word(head[8], head[9]) == checksum
            && HeadWords(head) == [0x55AA, (if r.ringStart then 1 else 0) + 0x100 * |r.samples|, 2 * r.first + 1,
                                   2 * r.last + 1]
  {
    hide Word, Head, Field;
    HeadBytes(r, checksum);
    FieldIsWord(2 * r.first + 1);
    FieldIsWord(2 * r.last + 1);
    FieldIsWord(checksum);
    FrontWords(r.ringStart, |r.samples|);
  }

  lemma FrontWords(ringStart: bool, n: byte)
    ensures Word(0xAA, 0x55) == 0x55AA
    ensures Word(if ringStart then 1 else 0, n) == (if ringStart then 1 else 0) + 0x100 * n
  {
  }

  lemma {:induction false} BodyWords(samples: seq<Sample>, intensities: bool)
    ensures Whole(|Body(samples, intensities)|, Width(intensities))
    ensures SampleWords(Body(samples, intensities), Width(intensities)) == SampleNumbers(samples, intensities)
  {
    BodySize(samples, intensities);
    hide SampleWords, Whole;
    if samples == [] {
      NoWords(Width(intensities));
    } else {
      var front, s := samples[..|samples| - 1], samples[|samples| - 1];
      BodySize(front, intensities);
      BodyWords(front, intensities);
      OneMoreSample(Body(front, intensities), s, intensities);
    }
  }

  lemma NoWords(sampleBytes: nat)
    requires sampleBytes == 2 || sampleBytes == 3
    ensures Whole(0, sampleBytes) && SampleWords([], sampleBytes) == []
  {
  }

  lemma OneMoreSample(front: seq<byte>, s: Sample, intensities: bool)
    requires Whole(|front|, Width(intensities)) && Whole(|front + SampleBytes(s, intensities)|, Width(intensities))
    ensures SampleWords(front + SampleBytes(s, intensities), Width(intensities))
         == SampleWords(front, Width(intensities)) + (if intensities then [s.quality] else []) + [s.distance]
  {
    var last := SampleBytes(s, intensities);
    assert (front + last)[..|front|] == front && (front + last)[|front|..] == last;
    FieldIsWord(s.distance);
    hide Whole;
  }

  /** A package is accepted exactly if it carries the checksum of its fields. */
  lemma AcceptedIff(r: Report, checksum: nat, intensities: bool)
    requires Sendable(r) && checksum < 0x1_0000
    ensures Verdict(FrameOf(r, checksum, intensities), Width(intensities)) <==> checksum == Checksum(r, intensities)
  {
    hide XorAll, SampleWords, HeadWords, Word, Body, Head, SampleNum, FirstAngle, LastAngle, Fitting;
    HeadIsRead(r, checksum);
    BodyWords(r.samples, intensities);
  }

  lemma {:induction false} SampleIsRead(samples: seq<Sample>, intensities: bool, i: nat)
    requires i < |samples|
    ensures i * Width(intensities) + Width(intensities) <= |Body(samples, intensities)|
    ensures Body(samples, intensities)[i * Width(intensities)..i * Width(intensities) + Width(intensities)]
         == SampleBytes(samples[i], intensities)
  {
    var n, w := |samples| - 1, Width(intensities);
    var front, last := Body(samples[..n], intensities), SampleBytes(samples[n], intensities);
    BodySize(samples[..n], intensities);
    if i < n {
      SampleIsRead(samples[..n], intensities, i);
      assert (front + last)[i * w..i * w + w] == front[i * w..i * w + w];
    } else {
      assert i * w == |front|;
      assert (front + last)[|front|..|front| + w] == last;
    }
  }

  // ---------------------------------------------------------------- what is made of it

  /** A package whose angles say how far apart its samples are. */
  predicate Spaced(r: Report) {
    |r.samples| == 1 || r.last >= r.first || (r.first > 270 * 64 && r.last < 90 * 64)
  }

  /** The way from the first sample to the last, over the full turn if the angles wrap. */
  function Span(r: Report): int {
    if r.last >= r.first then r.last - r.first else 360 * 64 + r.last - r.first
  }

  /** What earlier packages leave behind: their step, and the bytes of the first sample that came last. */
  datatype Memory = Memory(step: real, area: seq<byte>)

  /** The step between two samples; a package whose angles do not say it takes the one before. */
  function StepOf(r: Report, before: real): real {
    if |r.samples| == 1 then 0.0
    else if Spaced(r) then Span(r) as real / (|r.samples| - 1) as real else before
  }

  function MemoryAfter(r: Report, intensities: bool, m: Memory): Memory {
    Memory(if |r.samples| == 1 then m.step else StepOf(r, m.step),
           if r.samples == [] then m.area else SampleBytes(r.samples[0], intensities))
  }

  /** The samples nodes are made of: those of the package, or one from the memory if it has none. */
  function Taken(r: Report, intensities: bool, m: Memory): (samples: seq<Sample>)
    requires |m.area| == Width(intensities)
    ensures samples != []
  {
    if r.samples != [] then r.samples
    else
      var w := Width(intensities);
      [Sample(if intensities then m.area[0] else 0, m.area[w - 2] as int + 0x100 * m.area[w - 1] as int)]
  }

  /** Where a sample was seen, before any turn is taken off. */
  function Heading(r: Report, step: real, i: nat, distance: nat, correct: nat -> int): real {
    r.first as real + step * i as real + (if distance >= 4 then correct(distance) else 0) as real
  }

  /** An angle word holds the whole part of the heading, brought within the circle, and the check bit. */
  predicate Holds(angle: nat, heading: real) {
    var turned := if heading < 0.0 then heading + 23040.0
                  else if heading > 23040.0 then heading - 23040.0 else heading;
    angle % 2 == 1 && (angle / 2) as real <= turned < (angle / 2) as real + 1.0
  }

  predicate WithinATurn(heading: real) {
    -23040.0 <= heading <= 46080.0
  }

  predicate NodeIs(node: Node, r: Report, sample: Sample, heading: real, intensities: bool) {
    && node.distance == sample.distance
    && node.syncQuality == (if intensities then sample.quality else if r.ringStart then 41 else 42)
    && (WithinATurn(heading) ==> Holds(node.angle, heading))
  }

  /** The nodes show the report: distances and qualities in order, the ring start, and the angles. */
  predicate Shows(nodes: seq<Node>, r: Report, intensities: bool, correct: nat -> int, m: Memory)
    requires |m.area| == Width(intensities)
  {
    var samples := Taken(r, intensities, m);
    && |nodes| == |samples|
    && forall i :: 0 <= i < |nodes| ==>
         NodeIs(nodes[i], r, samples[i], Heading(r, StepOf(r, m.step), i, samples[i].distance, correct), intensities)
  }

  /** The headings of a package that says how far apart its samples are lie within a turn. */
  lemma SpacedLiesWithin(r: Report, before: real, i: nat, distance: nat, correct: nat -> int)
    requires Sendable(r) && Spaced(r) && Bounded(correct) && (i < |r.samples| || i == 0)
    ensures WithinATurn(Heading(r, StepOf(r, before), i, distance, correct))
  {
    if i == 0 {
      assert StepOf(r, before) * 0.0 == 0.0;
    } else {
      StepIsInterval(r, before);
      RawBetweenFirstAndLast(|r.samples|, r.first, r.last, before, i);
    }
  }

  lemma StepIsInterval(r: Report, before: real)
    ensures StepOf(r, before) == Interval(|r.samples|, r.first, r.last, before)
    ensures MemoryAfter(r, true, Memory(before, [])).step == Remembered(|r.samples|, r.first, r.last, before)
  {
  }

  lemma StoredHolds(heading: real)
    requires WithinATurn(heading)
    ensures Holds(Stored(heading), heading)
  {
    var turned := if heading < 0.0 then heading + CIRCLE as real
                  else if heading > CIRCLE as real then heading - CIRCLE as real else heading;
    assert 0.0 <= turned <= CIRCLE as real;
    var q := ToUint16(turned);
    assert Stored(heading) == (2 * q + 1) % 0x1_0000;
  }

  /** The bytes a node is made of. */
  lemma TakenIsRead(r: Report, checksum: nat, intensities: bool, i: nat, m: Memory)
    requires Sendable(r) && checksum < 0x1_0000 && |m.area| == Width(intensities)
    requires i < |Taken(r, intensities, m)|
    ensures SampleNum(Head(r, checksum)) == |r.samples|
    ensures var s := SampleAt(FrameOf(r, checksum, intensities), Width(intensities), i, m.area);
            var w, sample := Width(intensities), Taken(r, intensities, m)[i];
            Word(s[w - 2], s[w - 1]) == sample.distance && (intensities ==> s[0] == sample.quality)
  {
    hide Head, Fitting, SampleNum, Field;
    HeadIsRead(r, checksum);
    if r.samples != [] {
      SampleIsRead(r.samples, intensities, i);
      FieldIsWord(r.samples[i].distance);
    }
  }

  lemma NodeShows(r: Report, checksum: nat, intensities: bool, i: nat, m: Memory, correct: nat -> int)
    requires Sendable(r) && checksum < 0x1_0000 && checksum == Checksum(r, intensities)
    requires |m.area| == Width(intensities) && i < |Taken(r, intensities, m)|
    ensures SampleNum(Head(r, checksum)) == |r.samples|
    ensures var f := FrameOf(r, checksum, intensities);
            var node := NodeOf(f, Width(intensities), IntervalOf(f, m.step), i, m.area, correct);
            var sample := Taken(r, intensities, m)[i];
            NodeIs(node, r, sample, Heading(r, StepOf(r, m.step), i, sample.distance, correct), intensities)
  {
    hide XorAll, Verdict, Body, Head, Stored, Interval, StepOf, Holds, WithinATurn, Checksum, Fitting, Word, Field,
         FirstAngle, LastAngle, SampleNum, SampleAt, Taken;
    AcceptedIff(r, checksum, intensities);
    HeadIsRead(r, checksum);
    TakenIsRead(r, checksum, intensities, i, m);
    StepIsInterval(r, m.step);
    var heading := Heading(r, StepOf(r, m.step), i, Taken(r, intensities, m)[i].distance, correct);
    if WithinATurn(heading) {
      StoredHolds(heading);
    }
  }

  /** After a wrong checksum every node is empty: no distance, no angle, and no sync node. */
  predicate ShowsNothing(nodes: seq<Node>, count: nat) {
    |nodes| == count && forall i :: 0 <= i < count ==> nodes[i] == Node(42, 1, 0)
  }

  datatype Packet = Packet(report: Report, checksum: nat)

  predicate AllSendable(packets: seq<Packet>) {
    forall p :: p in packets ==> Sendable(p.report) && p.checksum < 0x1_0000
  }

  function Stream(packets: seq<Packet>, intensities: bool): seq<byte>
    requires AllSendable(packets)
  {
    if packets == [] then []
    else Bytes(packets[0].report, packets[0].checksum, intensities) + Stream(packets[1..], intensities)
  }

  predicate PacketShows(nodes: seq<Node>, p: Packet, intensities: bool, correct: nat -> int, m: Memory)
    requires Sendable(p.report) && |m.area| == Width(intensities)
  {
    if p.checksum == Checksum(p.report, intensities) then Shows(nodes, p.report, intensities, correct, m)
    else ShowsNothing(nodes, |Taken(p.report, intensities, m)|)
  }

  lemma FrameShows(p: Packet, intensities: bool, m: Memory, correct: nat -> int)
    requires Sendable(p.report) && p.checksum < 0x1_0000 && |m.area| == Width(intensities)
    ensures var f := FrameOf(p.report, p.checksum, intensities);
            PacketShows(FrameNodes(f, Width(intensities), m.step, m.area, correct), p, intensities, correct, m)
  {
    hide Verdict, Body, Head, Heading, Checksum, Fitting, NodeOf, IntervalOf, SampleNum, NodeIs, StepOf;
    var r, w := p.report, Width(intensities);
    var f := FrameOf(r, p.checksum, intensities);
    AcceptedIff(r, p.checksum, intensities);
    HeadIsRead(r, p.checksum);
    var samples := Taken(r, intensities, m);
    forall i | 0 <= i < |samples|
      ensures p.checksum == Checksum(r, intensities) ==>
                NodeIs(NodeOf(f, w, IntervalOf(f, m.step), i, m.area, correct), r, samples[i],
                       Heading(r, StepOf(r, m.step), i, samples[i].distance, correct), intensities)
      ensures p.checksum != Checksum(r, intensities) ==>
                NodeOf(f, w, IntervalOf(f, m.step), i, m.area, correct) == Node(42, 1, 0)
    {
      if p.checksum == Checksum(r, intensities) {
        NodeShows(r, p.checksum, intensities, i, m, correct);
      } else {
        RejectedNode(f, w, IntervalOf(f, m.step), i, m.area, correct);
      }
    }
  }

  lemma RejectedNode(f: Frame, sampleBytes: nat, interval: real, i: nat, shown: seq<byte>, correct: nat -> int)
    requires (sampleBytes == 2 || sampleBytes == 3) && WellFormed(f, sampleBytes) && |shown| == sampleBytes
    requires (SampleNum(f.head) == 0 || i < SampleNum(f.head)) && !Verdict(f, sampleBytes)
    ensures NodeOf(f, sampleBytes, interval, i, shown, correct) == Node(42, 1, 0)
  {
  }

  function Flat(nodes: seq<seq<Node>>): seq<Node> {
    if nodes == [] then [] else nodes[0] + Flat(nodes[1..])
  }

  /** What the packages before the k-th leave behind. A wrong checksum makes no difference to it. */
  function MemoryAt(packets: seq<Packet>, k: nat, intensities: bool, m: Memory): (at: Memory)
    requires k <= |packets| && |m.area| == Width(intensities)
    ensures |at.area| == Width(intensities)
  {
    if k == 0 then m
    else MemoryAt(packets[1..], k - 1, intensities, MemoryAfter(packets[0].report, intensities, m))
  }

  lemma MemoryIs(p: Packet, intensities: bool, m: Memory)
    requires Sendable(p.report) && p.checksum < 0x1_0000 && |m.area| == Width(intensities)
    ensures var f := FrameOf(p.report, p.checksum, intensities);
            MemoryAfter(p.report, intensities, m)
            == Memory(RememberedOf(f, m.step), Shown(f, Width(intensities), m.area))
  {
    hide Body, Head, Fitting, SampleNum, StepOf, Remembered;
    HeadIsRead(p.report, p.checksum);
    StepIsInterval(p.report, m.step);
    if p.report.samples != [] {
      SampleIsRead(p.report.samples, intensities, 0);
      assert 0 * Width(intensities) == 0;
    }
  }

  /** What a lidar measured is what its bytes decode to: packages sent back to back show, one after
      another, exactly their reports, or nothing where the checksum is wrong. */
  lemma {:induction false} StreamShows(packets: seq<Packet>, intensities: bool, m: Memory, correct: nat -> int)
    returns (nodes: seq<seq<Node>>)
    requires AllSendable(packets) && |m.area| == Width(intensities)
    ensures Decoded(Stream(packets, intensities), Width(intensities), m.step, m.area, correct) == Flat(nodes)
    ensures |nodes| == |packets|
    ensures forall k :: 0 <= k < |packets| ==>
              PacketShows(nodes[k], packets[k], intensities, correct, MemoryAt(packets, k, intensities, m))
    decreases |packets|
  {
    hide Decoded, FrameNodes, Shown, RememberedOf, PacketShows, Sendable, FrameOf, Bytes, MemoryAfter;
    if packets == [] {
      NothingDecoded(Width(intensities), m.step, m.area, correct);
      nodes := [];
    } else {
      var p, w := packets[0], Width(intensities);
      assert p in packets;
      var f := FrameOf(p.report, p.checksum, intensities);
      PacketInFront(p, Stream(packets[1..], intensities), intensities, m.step, m.area, correct);
      MemoryIs(p, intensities, m);
      var later := StreamShows(packets[1..], intensities, MemoryAfter(p.report, intensities, m), correct);
      FrameShows(p, intensities, m, correct);
      nodes := [FrameNodes(f, w, m.step, m.area, correct)] + later;
    }
  }

  lemma NothingDecoded(sampleBytes: nat, previous: real, shown: seq<byte>, correct: nat -> int)
    requires (sampleBytes == 2 || sampleBytes == 3) && |shown| == sampleBytes
    ensures Decoded([], sampleBytes, previous, shown, correct) == []
  {
    NothingToRead(sampleBytes);
  }

  lemma PacketInFront(p: Packet, rest: seq<byte>, intensities: bool, previous: real, shown: seq<byte>,
      correct: nat -> int)
    requires Sendable(p.report) && p.checksum < 0x1_0000 && |shown| == Width(intensities)
    ensures var f, w := FrameOf(p.report, p.checksum, intensities), Width(intensities);
            Decoded(Bytes(p.report, p.checksum, intensities) + rest, w, previous, shown, correct)
            == FrameNodes(f, w, previous, shown, correct)
               + Decoded(rest, w, RememberedOf(f, previous), Shown(f, w, shown), correct)
  {
    hide NextFrame, FrameNodes, Shown, RememberedOf, Head, Body, Fitting, SampleNum;
    var f := FrameOf(p.report, p.checksum, intensities);
    FrameAtFront(f, rest, Width(intensities));
    assert (f.head + f.samples + rest)[|f.head| + |f.samples|..] == rest;
  }

  /** With no correction the first node of a package stands at its first angle and the last at its last. */
  lemma EndsAreExact(nodes: seq<Node>, r: Report, intensities: bool, correct: nat -> int, m: Memory)
    requires Sendable(r) && |m.area| == Width(intensities) && Shows(nodes, r, intensities, correct, m)
    requires |r.samples| > 1 && r.first <= r.last <= 23040 && forall d: nat :: correct(d) == 0
    ensures nodes[0].angle == 2 * r.first + 1 && nodes[|nodes| - 1].angle == 2 * r.last + 1
  {
    hide Holds, Heading, StepOf;
    var n := |r.samples|;
    EndHeadings(r, m.step, r.samples[0].distance, r.samples[n - 1].distance, correct);
    HoldsWhole(nodes[0].angle, r.first);
    HoldsWhole(nodes[n - 1].angle, r.last);
  }

  lemma EndHeadings(r: Report, before: real, near: nat, far: nat, correct: nat -> int)
    requires |r.samples| > 1 && r.first <= r.last && forall d: nat :: correct(d) == 0
    ensures Heading(r, StepOf(r, before), 0, near, correct) == r.first as real
    ensures Heading(r, StepOf(r, before), |r.samples| - 1, far, correct) == r.last as real
  {
    DivideBack(Span(r) as real, (|r.samples| - 1) as real);
  }

  lemma DivideBack(d: real, m: real)
    requires m > 0.0
    ensures d / m * m == d && d / m * 0.0 == 0.0
  {
  }

  lemma HoldsWhole(angle: nat, a: nat)
    requires Holds(angle, a as real) && a <= 23040
    ensures angle == 2 * a + 1
  {
  }

  /** The right checksum always fits its field. */
  lemma ChecksumFits(r: Report, intensities: bool)
    requires Sendable(r)
    ensures Checksum(r, intensities) < 0x1_0000
  {
    hide Xor, XorAll, Power2, SampleNumbers;
    NumbersFit(r.samples, intensities);
    SixteenBits();
    XorAllFits([0x55AA, (if r.ringStart then 1 else 0) + 0x100 * |r.samples|, 2 * r.first + 1, 2 * r.last + 1]
               + SampleNumbers(r.samples, intensities), 16);
  }

  lemma SixteenBits()
    ensures Power2(16) == 0x1_0000
  {
    assert Power2(4) == 0x10;
    assert Power2(8) == 0x100;
    assert Power2(12) == 0x1000;
  }

  lemma {:induction false} NumbersFit(samples: seq<Sample>, intensities: bool)
    ensures forall w :: w in SampleNumbers(samples, intensities) ==> w < 0x1_0000
  {
    if samples != [] {
      NumbersFit(samples[..|samples| - 1], intensities);
    }
  }
}
