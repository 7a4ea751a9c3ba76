/** The package format of the lidar (src/ydlidar_driver.cpp:344-600): what a stream of bytes means,
    one whole package at a time. `YDlidarDriver` reads it byte by byte. */
module LidarPackage {
  import opened BoundedInts
  import opened Bitwise
  import opened HeaderSearch
  import opened Wrappers

  const PH := 0x55AA
  const PACKAGE_PAID_BYTES := 10
  const CIRCLE := 360 * 64
  const NODE_DEFAULT_QUALITY := 40
  const NODE_SYNC := 1
  const NODE_NOT_SYNC := 2

  function Word(lo: byte, hi: byte): (w: nat)
    ensures w < 0x1_0000
  {
    lo + hi * 0x100
  }

  datatype Frame = Frame(head: seq<byte>, samples: seq<byte>)

  predicate WellFormed(f: Frame, sampleBytes: nat) {
    && |f.head| == PACKAGE_PAID_BYTES && Fitting(Package, f.head)
    && |f.samples| == SampleNum(f.head) * sampleBytes
  }

  function SampleNum(head: seq<byte>): nat
    requires |head| == PACKAGE_PAID_BYTES
  {
    head[3]
  }

  /** The first complete package of a stream, and how many bytes lie up to its end. */
  function NextFrame(stream: seq<byte>, sampleBytes: nat): (r: Option<(Frame, nat)>)
    ensures r.Some? ==> WellFormed(r.value.0, sampleBytes) && 0 < r.value.1 <= |stream|
  {
    match HeaderEnd(Package, stream)
    case None => None
    case Some(end) =>
      HeaderFits(Package, stream);
      var head := stream[end - PACKAGE_PAID_BYTES..end];
      var size := end + SampleNum(head) * sampleBytes;
      if size > |stream| then None else Some((Frame(head, stream[end..size]), size))
  }

  // ---------------------------------------------------------------- the checksum

  /** So many bytes hold whole samples. */
  predicate Whole(length: int, sampleBytes: nat) {
    if sampleBytes == 2 then length % 2 == 0 else length % 3 == 0
  }

  lemma OneSampleLess(length: nat, sampleBytes: nat)
    requires (sampleBytes == 2 || sampleBytes == 3) && Whole(length, sampleBytes) && length > 0
    ensures length >= sampleBytes && Whole(length - sampleBytes, sampleBytes)
  {
  }

  lemma FramesAreWhole(count: nat, sampleBytes: nat)
    requires sampleBytes == 2 || sampleBytes == 3
    ensures Whole(count * sampleBytes, sampleBytes)
  {
    if sampleBytes == 2 {
      assert count * sampleBytes == 2 * count;
    } else {
      assert count * sampleBytes == 3 * count;
    }
  }

  /** The words a sample contributes: its distance, after its quality if it has one. */
  function SampleWords(samples: seq<byte>, sampleBytes: nat): seq<nat>
    requires sampleBytes == 2 || sampleBytes == 3
    requires Whole(|samples|, sampleBytes)
    decreases |samples|
  {
    if samples == [] then []
    else
      var n := |samples| - sampleBytes;
      OneSampleLess(|samples|, sampleBytes);
      SampleWords(samples[..n], sampleBytes) + WordsOf(samples[n..])
  }

  function WordsOf(sample: seq<byte>): seq<nat>
    requires |sample| == 2 || |sample| == 3
  {
    if |sample| == 2 then [Word(sample[0], sample[1])]
    else [sample[0], Word(sample[1], sample[2])]
  }

  function HeadWords(head: seq<byte>): seq<nat>
    requires |head| == PACKAGE_PAID_BYTES
  {
    [Word(head[0], head[1]), Word(head[2], head[3]), Word(head[4], head[5]), Word(head[6], head[7])]
  }

  /** Every word the checksum covers: the header up to the checksum field, and the samples. */
  function CheckedWords(f: Frame, sampleBytes: nat): seq<nat>
    requires sampleBytes == 2 || sampleBytes == 3
    requires WellFormed(f, sampleBytes)
  {
    FramesAreWhole(SampleNum(f.head), sampleBytes);
    HeadWords(f.head) + SampleWords(f.samples, sampleBytes)
  }

  predicate Verdict(f: Frame, sampleBytes: nat)
    requires sampleBytes == 2 || sampleBytes == 3
    requires WellFormed(f, sampleBytes)
  {
    XorAll(CheckedWords(f, sampleBytes)) == Word(f.head[8], f.head[9])
  }

  /** A package in which exactly one checked word was altered, framing intact, is rejected if the
      original was accepted. */
  lemma OneAlteredWordIsRejected(f: Frame, g: Frame, sampleBytes: nat, i: nat)
    requires (sampleBytes == 2 || sampleBytes == 3) && WellFormed(f, sampleBytes) && WellFormed(g, sampleBytes)
    requires |f.samples| == |g.samples| && f.head[8..] == g.head[8..]
    requires i < |CheckedWords(f, sampleBytes)| == |CheckedWords(g, sampleBytes)|
    requires CheckedWords(g, sampleBytes) == CheckedWords(f, sampleBytes)[i := CheckedWords(g, sampleBytes)[i]]
    requires CheckedWords(g, sampleBytes)[i] != CheckedWords(f, sampleBytes)[i]
    requires Verdict(f, sampleBytes)
    ensures !Verdict(g, sampleBytes)
  {
    hide Xor;
    OneChangedWordChangesXor(CheckedWords(f, sampleBytes), i, CheckedWords(g, sampleBytes)[i]);
    assert f.head[8] == f.head[8..][0] && f.head[9] == f.head[8..][1];
    assert g.head[8] == g.head[8..][0] && g.head[9] == g.head[8..][1];
  }

  /** The exclusive or as it builds up byte by byte; a word counts once its second byte is in. */
  function RunningXor(samples: seq<byte>, sampleBytes: nat): nat
    requires sampleBytes == 2 || sampleBytes == 3
  {
    if samples == [] then 0
    else
      var n := |samples| - 1;
      var before := RunningXor(samples[..n], sampleBytes);
      if EndsWord(n, sampleBytes) then Xor(before, Word(samples[n - 1], samples[n]))
      else if IsQuality(n, sampleBytes) then Xor(before, samples[n])
      else before
  }

  predicate EndsWord(n: nat, sampleBytes: nat) {
    if sampleBytes == 2 then n % 2 == 1 else n % 3 == 2
  }

  predicate IsQuality(n: nat, sampleBytes: nat) {
    sampleBytes == 3 && n % 3 == 0
  }

  lemma NextByte(samples: seq<byte>, b: byte, sampleBytes: nat)
    requires sampleBytes == 2 || sampleBytes == 3
    ensures EndsWord(|samples|, sampleBytes) ==>
              RunningXor(samples + [b], sampleBytes)
              == Xor(RunningXor(samples, sampleBytes), Word(samples[|samples| - 1], b))
    ensures IsQuality(|samples|, sampleBytes) ==>
              RunningXor(samples + [b], sampleBytes) == Xor(RunningXor(samples, sampleBytes), b)
    ensures !EndsWord(|samples|, sampleBytes) && !IsQuality(|samples|, sampleBytes) ==>
              RunningXor(samples + [b], sampleBytes) == RunningXor(samples, sampleBytes)
  {
    assert (samples + [b])[..|samples|] == samples;
  }

  lemma NoSamples(sampleBytes: nat)
    requires sampleBytes == 2 || sampleBytes == 3
    ensures RunningXor([], sampleBytes) == XorAll(SampleWords([], sampleBytes))
  {
  }

  lemma LastSample(samples: seq<byte>, sampleBytes: nat)
    requires (sampleBytes == 2 || sampleBytes == 3) && Whole(|samples|, sampleBytes) && samples != []
    ensures |samples| >= sampleBytes && Whole(|samples| - sampleBytes, sampleBytes)
    ensures var n := |samples| - sampleBytes;
            && SampleWords(samples, sampleBytes) == SampleWords(samples[..n], sampleBytes) + WordsOf(samples[n..])
            && samples == samples[..n] + samples[n..]
  {
    hide WordsOf;
  }

  lemma {:induction false} RunningXorOfPairs(samples: seq<byte>)
    requires |samples| % 2 == 0
    ensures RunningXor(samples, 2) == XorAll(SampleWords(samples, 2))
    decreases |samples|
  {
    hide Xor, RunningXor, SampleWords;
    if samples == [] {
      NoSamples(2);
    } else {
      LastSample(samples, 2);
      var n := |samples| - 2;
      RunningXorOfPairs(samples[..n]);
      PairFollows(samples[..n], samples[n], samples[n + 1]);
      XorOfLast(SampleWords(samples[..n], 2), Word(samples[n], samples[n + 1]));
      assert samples == samples[..n] + [samples[n]] + [samples[n + 1]];
    }
  }

  lemma PairFollows(front: seq<byte>, lo: byte, hi: byte)
    requires |front| % 2 == 0
    ensures RunningXor(front + [lo] + [hi], 2) == Xor(RunningXor(front, 2), Word(lo, hi))
  {
    hide Xor, RunningXor;
    NextByte(front, lo, 2);
    NextByte(front + [lo], hi, 2);
  }

  lemma {:induction false} RunningXorOfTriples(samples: seq<byte>)
    requires |samples| % 3 == 0
    ensures RunningXor(samples, 3) == XorAll(SampleWords(samples, 3))
    decreases |samples|
  {
    hide Xor, RunningXor, SampleWords;
    if samples == [] {
      NoSamples(3);
    } else {
      LastSample(samples, 3);
      var n := |samples| - 3;
      var words, q, d := SampleWords(samples[..n], 3), samples[n], Word(samples[n + 1], samples[n + 2]);
      RunningXorOfTriples(samples[..n]);
      TripleFollows(samples[..n], samples[n], samples[n + 1], samples[n + 2]);
      XorOfLast(words, q);
      XorOfLast(words + [q], d);
      assert WordsOf(samples[n..]) == [q, d] && words + [q] + [d] == words + [q, d];
      assert samples == samples[..n] + [samples[n]] + [samples[n + 1]] + [samples[n + 2]];
    }
  }

  lemma TripleFollows(front: seq<byte>, q: byte, lo: byte, hi: byte)
    requires |front| % 3 == 0
    ensures RunningXor(front + [q] + [lo] + [hi], 3) == Xor(Xor(RunningXor(front, 3), q), Word(lo, hi))
  {
    hide Xor, RunningXor;
    QualityAndLow(front, q, lo);
    HighFollows(front + [q], lo, hi);
  }

  lemma QualityAndLow(front: seq<byte>, q: byte, lo: byte)
    requires |front| % 3 == 0
    ensures RunningXor(front + [q] + [lo], 3) == Xor(RunningXor(front, 3), q)
  {
    hide Xor, RunningXor;
    NextByte(front, q, 3);
    NextByte(front + [q], lo, 3);
  }

  lemma HighFollows(front: seq<byte>, lo: byte, hi: byte)
    requires |front| % 3 == 1
    ensures RunningXor(front + [lo] + [hi], 3) == Xor(RunningXor(front + [lo], 3), Word(lo, hi))
  {
    hide Xor, RunningXor;
    NextByte(front + [lo], hi, 3);
  }

  lemma RunningXorIsXorOfWords(samples: seq<byte>, sampleBytes: nat)
    requires (sampleBytes == 2 || sampleBytes == 3) && Whole(|samples|, sampleBytes)
    ensures RunningXor(samples, sampleBytes) == XorAll(SampleWords(samples, sampleBytes))
  {
    if sampleBytes == 2 {
      RunningXorOfPairs(samples);
    } else {
      RunningXorOfTriples(samples);
    }
  }

  /** The order in which the driver folds the words in does not matter. */
  lemma FoldedInAnyOrder(f: Frame, sampleBytes: nat)
    requires (sampleBytes == 2 || sampleBytes == 3) && WellFormed(f, sampleBytes)
    ensures XorAll(CheckedWords(f, sampleBytes))
         == Xor(Xor(Xor(Xor(PH, Word(f.head[4], f.head[5])), RunningXor(f.samples, sampleBytes)),
                    Word(f.head[2], f.head[3])),
                Word(f.head[6], f.head[7]))
  {
    hide Xor;
    FramesAreWhole(SampleNum(f.head), sampleBytes);
    XorAppend(HeadWords(f.head), SampleWords(f.samples, sampleBytes));
    RunningXorIsXorOfWords(f.samples, sampleBytes);
    assert Fits(Package, 0, f.head[0]) && Fits(Package, 1, f.head[1]);
    assert Word(0xAA, 0x55) == PH;
    var b, c, d := Word(f.head[2], f.head[3]), Word(f.head[4], f.head[5]), Word(f.head[6], f.head[7]);
    XorOfFour(PH, b, c, d);
    XorRearranged(PH, b, c, d, RunningXor(f.samples, sampleBytes));
  }

  lemma XorOfFour(a: nat, b: nat, c: nat, d: nat)
    ensures XorAll([a, b, c, d]) == Xor(Xor(Xor(a, b), c), d)
  {
    hide Xor;
    assert [a, b, c, d] == [] + [a] + [b] + [c] + [d];
    XorOfLast([], a);
    XorZero(a);
    XorOfLast([] + [a], b);
    XorOfLast([] + [a] + [b], c);
    XorOfLast([] + [a] + [b] + [c], d);
  }

  lemma XorRearranged(a: nat, b: nat, c: nat, d: nat, e: nat)
    ensures Xor(Xor(Xor(Xor(a, b), c), d), e) == Xor(Xor(Xor(Xor(a, c), e), b), d)
  {
    XorAssociates(a, b, c);
    XorCommutes(b, c);
    XorAssociates(a, c, b);
    var ac := Xor(a, c);
    assert Xor(Xor(a, b), c) == Xor(ac, b);
    XorAssociates(ac, b, d);
    XorAssociates(ac, Xor(b, d), e);
    XorCommutes(Xor(b, d), e);
    XorAssociates(ac, e, Xor(b, d));
    XorAssociates(Xor(ac, e), b, d);
  }
}
