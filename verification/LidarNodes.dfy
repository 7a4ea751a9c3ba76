/** What the packages of the lidar mean: the measured nodes, their angles, and the node stream a
    byte stream stands for (src/ydlidar_driver.cpp:430-448, 530-597). */
module LidarNodes {
  import opened BoundedInts
  import opened HeaderSearch
  import opened LidarPackage
  import opened Wrappers

  /** `angle` is an angle in 1/64 degree, shifted left past a check bit, in sixteen bits. */
  datatype Node = Node(syncQuality: nat, angle: nat, distance: nat)

  const CHECKBIT := 1

  // ---------------------------------------------------------------- angles

  function FirstAngle(head: seq<byte>): (a: nat)
    requires |head| == PACKAGE_PAID_BYTES
    ensures a < 0x8000
  {
    Word(head[4], head[5]) / 2
  }

  function LastAngle(head: seq<byte>): (a: nat)
    requires |head| == PACKAGE_PAID_BYTES
    ensures a < 0x8000
  {
    Word(head[6], head[7]) / 2
  }

  predicate Wraps(first: nat, last: nat) {
    last < first && first > 270 * 64 && last < 90 * 64
  }

  /** The step between two samples; a package that neither ascends nor wraps reuses the step of the
      package before. */
  function Interval(n: nat, first: nat, last: nat, previous: real): real {
    if n == 1 then 0.0
    else if last >= first then (last - first) as real / (n - 1) as real
    else if Wraps(first, last) then (CIRCLE + last - first) as real / (n - 1) as real
    else previous
  }

  /** The step remembered for later packages. */
  function Remembered(n: nat, first: nat, last: nat, previous: real): real {
    if n == 1 then previous else Interval(n, first, last, previous)
  }

  /** Conversion to sixteen bits. C++ leaves it undefined for a number whose whole part does not fit. */
  function ToUint16(x: real): (q: nat)
    ensures q < 0x1_0000
    ensures 0.0 <= x < 65536.0 ==> q as real <= x < q as real + 1.0
  {
    x.Floor % 0x1_0000
  }

  /** Brings an angle that a correction pushed out of the circle back by one turn. */
  function Stored(raw: real): nat {
    var q := if raw < 0.0 then ToUint16(raw + CIRCLE as real)
             else if raw > CIRCLE as real then ToUint16(raw - CIRCLE as real)
             else ToUint16(raw);
    (2 * q + CHECKBIT) % 0x1_0000
  }

  function Raw(first: nat, interval: real, index: nat, correction: int): real {
    first as real + interval * index as real + correction as real
  }

  /** The i-th of n - 1 equal steps lies between nothing and the whole way. */
  lemma StepsStayWithin(d: real, n: nat, i: nat)
    requires n > 1 && i < n
    ensures d >= 0.0 ==> 0.0 <= d / (n - 1) as real * i as real <= d
    ensures d < 0.0 ==> d <= d / (n - 1) as real * i as real <= 0.0
  {
    var m, k, q := (n - 1) as real, i as real, d / (n - 1) as real;
    assert q * m == d;
    assert 0.0 <= k <= m;
    if d >= 0.0 {
      assert q >= 0.0;
      assert q * k <= q * m;
    } else {
      assert q <= 0.0;
      assert q * k >= q * m;
    }
  }

  /** Without its correction, the angle lies between the first angle and the last, the last one
      turn further on if the package wraps. */
  lemma RawBetweenFirstAndLast(n: nat, first: nat, last: nat, previous: real, i: nat)
    requires first < 0x8000 && last < 0x8000 && i < n
    requires n == 1 || last >= first || Wraps(first, last)
    ensures 0.0 <= Raw(first, Interval(n, first, last, previous), i, 0) <= 32767.0
  {
    if n > 1 {
      var d := (if last >= first then last - first else CIRCLE + last - first) as real;
      var p := d / (n - 1) as real * i as real;
      StepsStayWithin(d, n, i);
      assert Raw(first, Interval(n, first, last, previous), i, 0) == first as real + p;
      assert first as real + d == (if last >= first then last else CIRCLE + last) as real;
    }
  }

  lemma StoredOf(raw: real)
    requires -5760.0 <= raw <= 38527.0
    ensures Stored(raw) % 2 == CHECKBIT && 0 <= Stored(raw) / 2 <= CIRCLE
  {
    var turned := if raw < 0.0 then raw + CIRCLE as real
                  else if raw > CIRCLE as real then raw - CIRCLE as real
                  else raw;
    assert 0.0 <= turned <= CIRCLE as real;
    var q := ToUint16(turned);
    assert q as real <= turned;
    assert Stored(raw) == (2 * q + CHECKBIT) % 0x1_0000;
  }

  /** For a package of one sample, an ascending one or a wrapping one, every sample and every
      correction of at most ninety degrees, the stored angle lies within the circle and keeps the
      check bit: nothing is lost by the shift into sixteen bits. */
  lemma StoredAngleWithinCircle(n: nat, first: nat, last: nat, previous: real, i: nat, correction: int)
    requires first < 0x8000 && last < 0x8000 && i < n
    requires n == 1 || last >= first || Wraps(first, last)
    requires -90 * 64 <= correction <= 90 * 64
    ensures var a := Stored(Raw(first, Interval(n, first, last, previous), i, correction));
            a % 2 == CHECKBIT && 0 <= a / 2 <= CIRCLE
  {
    var interval := Interval(n, first, last, previous);
    RawBetweenFirstAndLast(n, first, last, previous, i);
    assert Raw(first, interval, i, correction) == Raw(first, interval, i, 0) + correction as real;
    StoredOf(Raw(first, interval, i, correction));
  }

  // ---------------------------------------------------------------- nodes

  /** The bytes a sample is read from. A package without samples still yields a node, read from
      whatever the sample area last showed. */
  function SampleAt(f: Frame, sampleBytes: nat, i: nat, shown: seq<byte>): (s: seq<byte>)
    requires WellFormed(f, sampleBytes) && |shown| == sampleBytes
    requires SampleNum(f.head) == 0 || i < SampleNum(f.head)
    ensures |s| == sampleBytes
  {
    if SampleNum(f.head) == 0 then shown
    else
      WithinSamples(SampleNum(f.head), sampleBytes, i);
      f.samples[i * sampleBytes..i * sampleBytes + sampleBytes]
  }

  lemma WithinSamples(n: nat, k: nat, i: nat)
    requires i < n
    ensures 0 <= i * k && i * k + k <= n * k
  {
    assert (i + 1) * k <= n * k by {
      assert n * k == (i + 1) * k + (n - i - 1) * k;
    }
  }

  /** The correction for the distance is only applied from four units on; `correct` stands for its
      trigonometry. */
  function Correction(distance: nat, correct: nat -> int): int {
    if distance / 4 != 0 then correct(distance) else 0
  }

  function SyncQuality(head: seq<byte>): nat
    requires |head| == PACKAGE_PAID_BYTES
  {
    NODE_DEFAULT_QUALITY + (if head[2] == CT_NORMAL then NODE_NOT_SYNC else NODE_SYNC)
  }

  function NodeOf(f: Frame, sampleBytes: nat, interval: real, i: nat, shown: seq<byte>, correct: nat -> int): Node
    requires (sampleBytes == 2 || sampleBytes == 3) && WellFormed(f, sampleBytes) && |shown| == sampleBytes
    requires SampleNum(f.head) == 0 || i < SampleNum(f.head)
  {
    if Verdict(f, sampleBytes) then
      var s := SampleAt(f, sampleBytes, i, shown);
      var distance := Word(s[sampleBytes - 2], s[sampleBytes - 1]);
      Node(if sampleBytes == 3 then s[0] else SyncQuality(f.head),
           Stored(Raw(FirstAngle(f.head), interval, i, Correction(distance, correct))),
           distance)
    else Node(NODE_DEFAULT_QUALITY + NODE_NOT_SYNC, CHECKBIT, 0)
  }

  function IntervalOf(f: Frame, previous: real): real
    requires |f.head| == PACKAGE_PAID_BYTES
  {
    Interval(SampleNum(f.head), FirstAngle(f.head), LastAngle(f.head), previous)
  }

  function RememberedOf(f: Frame, previous: real): real
    requires |f.head| == PACKAGE_PAID_BYTES
  {
    Remembered(SampleNum(f.head), FirstAngle(f.head), LastAngle(f.head), previous)
  }

  function NodeCount(f: Frame): (n: nat)
    requires |f.head| == PACKAGE_PAID_BYTES
    ensures n > 0
  {
    if SampleNum(f.head) == 0 then 1 else SampleNum(f.head)
  }

  /** A package yields one node a sample, in order. */
  function FrameNodes(f: Frame, sampleBytes: nat, previous: real, shown: seq<byte>,
      correct: nat -> int): (nodes: seq<Node>)
    requires (sampleBytes == 2 || sampleBytes == 3) && WellFormed(f, sampleBytes) && |shown| == sampleBytes
    ensures |nodes| == NodeCount(f)
  {
    seq(NodeCount(f), i requires 0 <= i < NodeCount(f) =>
      NodeOf(f, sampleBytes, IntervalOf(f, previous), i, shown, correct))
  }

  function Shown(f: Frame, sampleBytes: nat, shown: seq<byte>): (s: seq<byte>)
    requires WellFormed(f, sampleBytes) && |shown| == sampleBytes
    ensures |s| == sampleBytes
  {
    SampleAt(f, sampleBytes, 0, shown)
  }

  /** The nodes a stream of bytes stands for: those of its complete packages, one after another. */
  function Decoded(stream: seq<byte>, sampleBytes: nat, previous: real, shown: seq<byte>,
      correct: nat -> int): seq<Node>
    requires (sampleBytes == 2 || sampleBytes == 3) && |shown| == sampleBytes
    decreases |stream|
  {
    match NextFrame(stream, sampleBytes)
    case None => []
    case Some((f, size)) =>
      FrameNodes(f, sampleBytes, previous, shown, correct)
      + Decoded(stream[size..], sampleBytes, RememberedOf(f, previous), Shown(f, sampleBytes, shown), correct)
  }

  // ---------------------------------------------------------------- round trip

  /** The bytes of packages sent back to back. */
  function Wire(frames: seq<Frame>): seq<byte> {
    if frames == [] then [] else frames[0].head + frames[0].samples + Wire(frames[1..])
  }

  /** Their nodes. */
  function NodesOf(frames: seq<Frame>, sampleBytes: nat, previous: real, shown: seq<byte>,
      correct: nat -> int): seq<Node>
    requires (sampleBytes == 2 || sampleBytes == 3) && |shown| == sampleBytes
    requires forall f :: f in frames ==> WellFormed(f, sampleBytes)
  {
    if frames == [] then []
    else
      var f := frames[0];
      FrameNodes(f, sampleBytes, previous, shown, correct)
      + NodesOf(frames[1..], sampleBytes, RememberedOf(f, previous), Shown(f, sampleBytes, shown), correct)
  }

  /** A package at the front of a stream is the one read next, and all of it. */
  lemma FrameAtFront(f: Frame, rest: seq<byte>, sampleBytes: nat)
    requires WellFormed(f, sampleBytes)
    ensures NextFrame(f.head + f.samples + rest, sampleBytes) == Some((f, |f.head| + |f.samples|))
  {
    hide HeaderEnd, Fitting;
    var s := f.head + f.samples + rest;
    assert s[..PACKAGE_PAID_BYTES] == f.head;
    CompleteHeader(Package, s);
    assert s[0..PACKAGE_PAID_BYTES] == f.head;
    assert s[PACKAGE_PAID_BYTES..PACKAGE_PAID_BYTES + |f.samples|] == f.samples;
  }

  /** What was sent is what is decoded. */
  lemma {:induction false} WireRoundTrip(frames: seq<Frame>, sampleBytes: nat, previous: real, shown: seq<byte>,
      correct: nat -> int)
    requires (sampleBytes == 2 || sampleBytes == 3) && |shown| == sampleBytes
    requires forall f :: f in frames ==> WellFormed(f, sampleBytes)
    ensures Decoded(Wire(frames), sampleBytes, previous, shown, correct)
         == NodesOf(frames, sampleBytes, previous, shown, correct)
    decreases |frames|
  {
    hide NextFrame, FrameNodes, Shown, RememberedOf, Fitting;
    if frames == [] {
      NothingToRead(sampleBytes);
    } else {
      var f, rest := frames[0], Wire(frames[1..]);
      FrameAtFront(f, rest, sampleBytes);
      assert Wire(frames)[|f.head| + |f.samples|..] == rest;
      WireRoundTrip(frames[1..], sampleBytes, RememberedOf(f, previous), Shown(f, sampleBytes, shown), correct);
    }
  }

  lemma NothingToRead(sampleBytes: nat)
    ensures NextFrame([], sampleBytes) == None
  {
  }

  /** Every node of a stream fits the sixteen bits of its angle word. */
  lemma {:induction false} DecodedAnglesFit(stream: seq<byte>, sampleBytes: nat, previous: real, shown: seq<byte>,
      correct: nat -> int)
    requires (sampleBytes == 2 || sampleBytes == 3) && |shown| == sampleBytes
    ensures forall n :: n in Decoded(stream, sampleBytes, previous, shown, correct) ==> n.angle < 0x1_0000
    decreases |stream|
  {
    hide NextFrame, Shown, RememberedOf, IntervalOf, Verdict, Raw, FirstAngle, SyncQuality, SampleAt;
    if NextFrame(stream, sampleBytes).Some? {
      var (f, size) := NextFrame(stream, sampleBytes).value;
      DecodedAnglesFit(stream[size..], sampleBytes, RememberedOf(f, previous), Shown(f, sampleBytes, shown), correct);
    }
  }

  // ---------------------------------------------------------------- angles of a whole stream

  /** One sample at most, an ascending package, or a wrapping one. */
  predicate Steady(head: seq<byte>)
    requires |head| == PACKAGE_PAID_BYTES
  {
    SampleNum(head) <= 1 || LastAngle(head) >= FirstAngle(head) || Wraps(FirstAngle(head), LastAngle(head))
  }

  /** Every package is steady unless its checksum is wrong. */
  predicate AllSteady(frames: seq<Frame>, sampleBytes: nat)
    requires sampleBytes == 2 || sampleBytes == 3
  {
    forall f :: f in frames ==> WellFormed(f, sampleBytes) && (Verdict(f, sampleBytes) ==> Steady(f.head))
  }

  /** No correction is more than ninety degrees. */
  ghost predicate Bounded(correct: nat -> int) {
    forall d: nat :: -90 * 64 <= correct(d) <= 90 * 64
  }

  predicate WithinCircle(n: Node) {
    n.angle % 2 == CHECKBIT && 0 <= n.angle / 2 <= CIRCLE
  }

  lemma NodeWithinCircle(f: Frame, sampleBytes: nat, previous: real, i: nat, shown: seq<byte>, correct: nat -> int)
    requires (sampleBytes == 2 || sampleBytes == 3) && WellFormed(f, sampleBytes) && |shown| == sampleBytes
    requires i < NodeCount(f) && Bounded(correct) && (Verdict(f, sampleBytes) ==> Steady(f.head))
    ensures WithinCircle(NodeOf(f, sampleBytes, IntervalOf(f, previous), i, shown, correct))
  {
    hide Stored, Raw, Verdict, Fitting, SampleAt, Interval, Word;
    if Verdict(f, sampleBytes) {
      var s := SampleAt(f, sampleBytes, i, shown);
      var correction := Correction(Word(s[sampleBytes - 2], s[sampleBytes - 1]), correct);
      AngleWithinCircle(SampleNum(f.head), FirstAngle(f.head), LastAngle(f.head), previous, i, correction);
    }
  }

  lemma AngleWithinCircle(n: nat, first: nat, last: nat, previous: real, i: nat, correction: int)
    requires first < 0x8000 && last < 0x8000 && (i < n || i == 0)
    requires n <= 1 || last >= first || Wraps(first, last)
    requires -90 * 64 <= correction <= 90 * 64
    ensures var a := Stored(Raw(first, Interval(n, first, last, previous), i, correction));
            a % 2 == CHECKBIT && 0 <= a / 2 <= CIRCLE
  {
    hide Stored, Interval;
    if n == 0 {
      assert Raw(first, Interval(n, first, last, previous), 0, correction) == (first + correction) as real;
      StoredOf((first + correction) as real);
    } else {
      StoredAngleWithinCircle(n, first, last, previous, i, correction);
    }
  }

  /** The complete packages of a stream. */
  function Frames(stream: seq<byte>, sampleBytes: nat): seq<Frame>
    decreases |stream|
  {
    match NextFrame(stream, sampleBytes)
    case None => []
    case Some((f, size)) => [f] + Frames(stream[size..], sampleBytes)
  }

  /** Every node of a stream whose accepted packages are steady lies within the circle. */
  lemma {:induction false} DecodedWithinCircle(stream: seq<byte>, sampleBytes: nat, previous: real, shown: seq<byte>,
      correct: nat -> int)
    requires (sampleBytes == 2 || sampleBytes == 3) && |shown| == sampleBytes && Bounded(correct)
    requires AllSteady(Frames(stream, sampleBytes), sampleBytes)
    ensures forall n :: n in Decoded(stream, sampleBytes, previous, shown, correct) ==> WithinCircle(n)
    decreases |stream|
  {
    hide NextFrame, Shown, RememberedOf, Verdict, NodeOf, IntervalOf, Steady, WithinCircle, Bounded, Fitting;
    if NextFrame(stream, sampleBytes).Some? {
      var (f, size) := NextFrame(stream, sampleBytes).value;
      var frames := Frames(stream[size..], sampleBytes);
      assert f in [f] + frames && forall g :: g in frames ==> g in [f] + frames;
      DecodedWithinCircle(stream[size..], sampleBytes, RememberedOf(f, previous), Shown(f, sampleBytes, shown),
                          correct);
      forall i | 0 <= i < NodeCount(f)
        ensures WithinCircle(NodeOf(f, sampleBytes, IntervalOf(f, previous), i, shown, correct))
      {
        NodeWithinCircle(f, sampleBytes, previous, i, shown, correct);
      }
    }
  }

  /** The packages of a stream are those that were sent. */
  lemma {:induction false} FramesOfWire(frames: seq<Frame>, sampleBytes: nat)
    requires forall f :: f in frames ==> WellFormed(f, sampleBytes)
    ensures Frames(Wire(frames), sampleBytes) == frames
    decreases |frames|
  {
    hide NextFrame, Fitting;
    if frames == [] {
      NothingToRead(sampleBytes);
    } else {
      var f, rest := frames[0], Wire(frames[1..]);
      FrameAtFront(f, rest, sampleBytes);
      assert Wire(frames)[|f.head| + |f.samples|..] == rest;
      FramesOfWire(frames[1..], sampleBytes);
    }
  }

  /** So what was sent in steady packages decodes to nodes within the circle. */
  lemma WireWithinCircle(frames: seq<Frame>, sampleBytes: nat, previous: real, shown: seq<byte>, correct: nat -> int)
    requires (sampleBytes == 2 || sampleBytes == 3) && |shown| == sampleBytes && Bounded(correct)
    requires AllSteady(frames, sampleBytes)
    ensures forall n :: n in NodesOf(frames, sampleBytes, previous, shown, correct) ==> WithinCircle(n)
  {
    hide Decoded, NodesOf, Frames, Steady, Verdict, WithinCircle;
    FramesOfWire(frames, sampleBytes);
    WireRoundTrip(frames, sampleBytes, previous, shown, correct);
    DecodedWithinCircle(Wire(frames), sampleBytes, previous, shown, correct);
  }
}
