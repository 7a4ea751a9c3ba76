/** The byte-by-byte package reader of src/ydlidar_driver.cpp, over a serial port that delivers its
    input in arbitrary pieces. */
module Ydlidar {
  import opened BoundedInts
  import opened Bitwise
  import opened HeaderSearch
  import opened LidarNodes
  import opened LidarPackage
  import opened Wrappers
  import opened SerialPort

  const PACKAGE_SAMPLE_MAX := 0x100
  const BUFFER := PACKAGE_PAID_BYTES + 3 * PACKAGE_SAMPLE_MAX
  const ANS_HEADER_BYTES := 7

  lemma SliceOfSlice(bytes: seq<byte>, from: nat, n: nat, at: nat, k: nat)
    requires from + n <= |bytes| && at + k <= n
    ensures bytes[from + at..from + at + k] == bytes[from..from + n][at..at + k]
  {
    var inner := bytes[from..from + n];
    var l, r := bytes[from + at..from + at + k], inner[at..at + k];
    forall j | 0 <= j < k
      ensures l[j] == r[j]
    {
      assert inner[at + j] == bytes[from + (at + j)];
    }
  }

  lemma SliceOfTail(bytes: seq<byte>, from: nat, at: nat, k: nat)
    requires from + at + k <= |bytes|
    ensures bytes[from + at..from + at + k] == bytes[from..][at..at + k]
  {
    assert bytes[from..|bytes|] == bytes[from..];
    SliceOfSlice(bytes, from, |bytes| - from, at, k);
  }

  // ---------------------------------------------------------------- the response header

  method ResponseChunk(recvPos: nat, chunk: seq<byte>, header: array<byte>, ghost stream: seq<byte>, ghost p: nat)
    returns (next: nat)
    requires header.Length == ANS_HEADER_BYTES && recvPos + |chunk| <= ANS_HEADER_BYTES
    requires p + |chunk| <= |stream| && chunk == stream[p..p + |chunk|]
    requires Synced(Response, stream, p, header[..recvPos])
    modifies header
    ensures next <= ANS_HEADER_BYTES && Synced(Response, stream, p + |chunk|, header[..next])
  {
    hide Synced;
    next := recvPos;
    for i := 0 to |chunk|
      invariant next + |chunk| - i <= ANS_HEADER_BYTES
      invariant Synced(Response, stream, p + i, header[..next])
    {
      ghost var acc := header[..next];
      var currentByte := chunk[i];
      assert currentByte == stream[p + i];
      SyncedNext(Response, stream, p + i, acc);
      if next == 0 && currentByte != 0xA5 {
      } else if next == 1 && currentByte != 0x5A {
        next := 0;
        assert header[..next] == [];
      } else {
        header[next] := currentByte;
        next := next + 1;
        assert header[..next] == acc + [currentByte];
      }
    }
  }

  /** Reads up to the end of the first response header and not a byte further, whatever pieces the
      bytes arrive in. */
  method WaitResponseHeader(port: Serial, header: array<byte>) returns (ok: bool)
    requires port.pos <= |port.input| && header.Length == ANS_HEADER_BYTES
    modifies port, header
    ensures old(port.pos) <= port.pos <= |port.input|
    ensures !ok ==> port.arrivals == []
    ensures ok ==> HeaderEnd(Response, port.input[old(port.pos)..]) == Some(port.pos - old(port.pos))
    ensures var end := HeaderEnd(Response, port.input[old(port.pos)..]);
            end.Some? && Useful(old(port.arrivals)) >= end.value ==> ok
    ensures ok ==> Useful(port.arrivals) + (port.pos - old(port.pos)) >= Useful(old(port.arrivals))
    ensures ok ==> port.pos >= ANS_HEADER_BYTES && header[..] == port.input[port.pos - ANS_HEADER_BYTES..port.pos]
  {
    hide HeaderEnd, Synced, Useful;
    ghost var start, stream, useful := port.pos, port.input[port.pos..], Useful(port.arrivals);
    SyncedAtStart(Response, stream);
    var recvPos: nat := 0;
    assert header[..0] == [];
    while recvPos < ANS_HEADER_BYTES
      invariant recvPos <= ANS_HEADER_BYTES && start <= port.pos <= |port.input|
      invariant Synced(Response, stream, port.pos - start, header[..recvPos])
      invariant HeaderEnd(Response, stream).Some? ==> Useful(port.arrivals) + (port.pos - start) >= useful
      decreases |port.arrivals|
    {
      if HeaderEnd(Response, stream).Some? {
        EndIsAhead(Response, stream, port.pos - start, header[..recvPos]);
      }
      ghost var p := port.pos - start;
      var got, chunk := port.Receive(ANS_HEADER_BYTES - recvPos);
      if !got {
        return false;
      }
      SliceOfTail(port.input, start, p, |chunk|);
      recvPos := ResponseChunk(recvPos, chunk, header, stream, p);
    }
    SyncedHeader(Response, stream, port.pos - start, header[..ANS_HEADER_BYTES]);
    assert header[..] == header[..ANS_HEADER_BYTES];
    ok := true;
  }

  // ---------------------------------------------------------------- packages in the buffer

  lemma SamplesFit(n: byte, sampleBytes: nat)
    requires sampleBytes == 2 || sampleBytes == 3
    ensures 0 <= n * sampleBytes && PACKAGE_PAID_BYTES + n * sampleBytes + sampleBytes <= BUFFER
    ensures n > 0 ==> n * sampleBytes >= sampleBytes
  {
    if sampleBytes == 2 {
      assert n * sampleBytes == n * 2;
    } else {
      assert n * sampleBytes == n * 3;
    }
  }

  /** How many bytes follow a header. */
  function BodyBytes(head: seq<byte>, sampleBytes: nat): nat
    requires |head| == PACKAGE_PAID_BYTES
  {
    SampleNum(head) * sampleBytes
  }

  lemma HeaderComesFirst(stream: seq<byte>, sampleBytes: nat)
    requires NextFrame(stream, sampleBytes).Some?
    ensures HeaderEnd(Package, stream).Some?
    ensures HeaderEnd(Package, stream).value <= NextFrame(stream, sampleBytes).value.1
  {
    hide HeaderEnd, Fitting;
  }

  /** The package whose header ends at `mid` ends as many bytes later as the header announces. */
  lemma BodyComesNext(input: seq<byte>, start: nat, mid: nat, head: seq<byte>, sampleBytes: nat)
    requires start + PACKAGE_PAID_BYTES <= mid <= |input| && head == input[mid - PACKAGE_PAID_BYTES..mid]
    requires HeaderEnd(Package, input[start..]) == Some(mid - start)
    ensures Fitting(Package, head)
    ensures NextFrame(input[start..], sampleBytes).Some? ==>
              NextFrame(input[start..], sampleBytes).value.1 == mid - start + BodyBytes(head, sampleBytes)
              <= |input| - start
  {
    hide HeaderEnd, Fitting, SampleNum;
    HeaderFits(Package, input[start..]);
    assert head == input[start..][mid - start - PACKAGE_PAID_BYTES..mid - start];
  }

  lemma FrameFound(input: seq<byte>, start: nat, mid: nat, stop: nat, head: seq<byte>, sampleBytes: nat)
    requires start + PACKAGE_PAID_BYTES <= mid <= stop <= |input| && head == input[mid - PACKAGE_PAID_BYTES..mid]
    requires HeaderEnd(Package, input[start..]) == Some(mid - start) && stop == mid + BodyBytes(head, sampleBytes)
    ensures WellFormed(Frame(head, input[mid..stop]), sampleBytes)
    ensures NextFrame(input[start..], sampleBytes) == Some((Frame(head, input[mid..stop]), stop - start))
  {
    hide HeaderEnd, Fitting, SampleNum;
    HeaderFits(Package, input[start..]);
    assert head == input[start..][mid - start - PACKAGE_PAID_BYTES..mid - start];
    assert input[mid..stop] == input[start..][mid - start..stop - start];
  }

  lemma VerdictOf(f: Frame, sampleBytes: nat)
    requires (sampleBytes == 2 || sampleBytes == 3) && WellFormed(f, sampleBytes)
    ensures var base := Xor(PH, Word(f.head[4], f.head[5]));
            var folded := Xor(base, RunningXor(f.samples, sampleBytes));
            Verdict(f, sampleBytes) <==>
              Xor(Xor(folded, Word(f.head[2], f.head[3])), Word(f.head[6], f.head[7])) == Word(f.head[8], f.head[9])
  {
    hide Xor, RunningXor, CheckedWords, Word, Fitting;
    FoldedInAnyOrder(f, sampleBytes);
  }

  /** `bytes` hold the package `f`; the place of the first sample shows that sample, or `shown`. */
  ghost predicate InBytes(bytes: seq<byte>, f: Frame, sampleBytes: nat, shown: seq<byte>)
    requires WellFormed(f, sampleBytes) && |shown| == sampleBytes
  {
    && PACKAGE_PAID_BYTES + |f.samples| + sampleBytes <= |bytes|
    && bytes[..PACKAGE_PAID_BYTES] == f.head
    && bytes[PACKAGE_PAID_BYTES..PACKAGE_PAID_BYTES + |f.samples|] == f.samples
    && bytes[PACKAGE_PAID_BYTES..PACKAGE_PAID_BYTES + sampleBytes] == Shown(f, sampleBytes, shown)
  }

  lemma HasComeIn(bytes: seq<byte>, f: Frame, sampleBytes: nat, shown: seq<byte>)
    requires (sampleBytes == 2 || sampleBytes == 3) && WellFormed(f, sampleBytes) && |shown| == sampleBytes
    requires |bytes| == BUFFER && |f.samples| <= BUFFER - PACKAGE_PAID_BYTES
    requires bytes[..PACKAGE_PAID_BYTES + |f.samples|] == f.head + f.samples
    requires f.samples == [] ==> bytes[PACKAGE_PAID_BYTES..PACKAGE_PAID_BYTES + sampleBytes] == shown
    ensures InBytes(bytes, f, sampleBytes, shown)
  {
    hide Fitting;
    SamplesFit(SampleNum(f.head), sampleBytes);
    assert bytes[..PACKAGE_PAID_BYTES] == (f.head + f.samples)[..PACKAGE_PAID_BYTES];
    assert bytes[PACKAGE_PAID_BYTES..PACKAGE_PAID_BYTES + |f.samples|] == (f.head + f.samples)[PACKAGE_PAID_BYTES..];
    if SampleNum(f.head) != 0 {
      SliceOfSlice(bytes, PACKAGE_PAID_BYTES, |f.samples|, 0, sampleBytes);
      assert 0 * sampleBytes == 0;
    }
  }

  lemma HeadInBytes(bytes: seq<byte>, f: Frame, sampleBytes: nat, shown: seq<byte>)
    requires WellFormed(f, sampleBytes) && |shown| == sampleBytes && InBytes(bytes, f, sampleBytes, shown)
    ensures |bytes| >= PACKAGE_PAID_BYTES && bytes[2] == f.head[2] && bytes[3] == f.head[3]
  {
    hide Shown, Fitting;
    assert bytes[2] == bytes[..PACKAGE_PAID_BYTES][2] && bytes[3] == bytes[..PACKAGE_PAID_BYTES][3];
  }

  /** Where the bytes of sample `i` lie in the buffer. */
  lemma SampleInBytes(bytes: seq<byte>, f: Frame, sampleBytes: nat, shown: seq<byte>, i: nat)
    requires (sampleBytes == 2 || sampleBytes == 3) && WellFormed(f, sampleBytes) && |shown| == sampleBytes
    requires InBytes(bytes, f, sampleBytes, shown) && i < NodeCount(f)
    ensures PACKAGE_PAID_BYTES + i * sampleBytes + sampleBytes <= |bytes|
    ensures bytes[PACKAGE_PAID_BYTES + i * sampleBytes..PACKAGE_PAID_BYTES + i * sampleBytes + sampleBytes]
         == SampleAt(f, sampleBytes, i, shown)
  {
    hide Fitting;
    if SampleNum(f.head) == 0 {
      assert i * sampleBytes == 0;
    } else {
      WithinSamples(SampleNum(f.head), sampleBytes, i);
      SliceOfSlice(bytes, PACKAGE_PAID_BYTES, |f.samples|, i * sampleBytes, sampleBytes);
    }
  }

  /** The nodes of a stream are those of its first package and those of the rest. */
  lemma DecodedFromFirst(stream: seq<byte>, sampleBytes: nat, before: real, shown: seq<byte>, correct: nat -> int,
      f: Frame, size: nat)
    requires (sampleBytes == 2 || sampleBytes == 3) && |shown| == sampleBytes
    requires NextFrame(stream, sampleBytes) == Some((f, size))
    ensures Decoded(stream, sampleBytes, before, shown, correct)
         == FrameNodes(f, sampleBytes, before, shown, correct)
            + Decoded(stream[size..], sampleBytes, RememberedOf(f, before), Shown(f, sampleBytes, shown), correct)
  {
    hide NextFrame, FrameNodes, Shown, RememberedOf;
  }

  lemma DecodedEmptyIff(stream: seq<byte>, sampleBytes: nat, before: real, shown: seq<byte>, correct: nat -> int)
    requires (sampleBytes == 2 || sampleBytes == 3) && |shown| == sampleBytes
    ensures Decoded(stream, sampleBytes, before, shown, correct) == [] <==> NextFrame(stream, sampleBytes).None?
  {
    hide NextFrame, Shown, RememberedOf;
  }

  class YDlidarDriver {
    const sampleBytes: nat
    const correct: nat -> int
    const port: Serial
    const buffer: array<byte>

    var packageSampleIndex: nat
    var firstSampleAngle: nat
    var lastSampleAngle: nat
    var intervalSampleAngle: real
    var intervalSampleAngleLastPackage: real
    var checkSun: nat
    var checkSunCal: nat
    var sampleNumAndCt: nat
    var lastSampleAngleCal: nat
    var valu8Tou16: nat
    var checkSunResult: bool

    /** The package being handed out, the remembered step and the sample area before it came. */
    ghost var frame: Frame
    ghost var previous: real
    ghost var shownBefore: seq<byte>

    constructor (intensities: bool, correct: nat -> int, port: Serial)
      requires port.pos <= |port.input|
      ensures this.port == port && this.correct == correct && fresh(buffer)
      ensures sampleBytes == (if intensities then 3 else 2)
      ensures Valid() && packageSampleIndex == 0
    {
      sampleBytes := if intensities then 3 else 2;
      this.correct := correct;
      this.port := port;
      buffer := new byte[BUFFER](_ => 0);
      packageSampleIndex := 0;
      intervalSampleAngle, intervalSampleAngleLastPackage := 0.0, 0.0;
      checkSunResult := false;
    }

    ghost predicate Shaped()
      reads this, port
    {
      && buffer.Length == BUFFER && (sampleBytes == 2 || sampleBytes == 3)
      && port.pos <= |port.input|
    }

    /** The package `frame` is in the buffer and its header in the fields. */
    ghost predicate Loaded()
      requires Shaped()
      reads this, port, buffer
    {
      && WellFormed(frame, sampleBytes) && |shownBefore| == sampleBytes
      && InBytes(buffer[..], frame, sampleBytes, shownBefore)
      && firstSampleAngle == FirstAngle(frame.head)
      && intervalSampleAngle == IntervalOf(frame, previous)
      && checkSunResult == Verdict(frame, sampleBytes)
    }

    ghost predicate Valid()
      reads this, port, buffer
    {
      Shaped() && (packageSampleIndex != 0 ==> Loaded() && packageSampleIndex < NodeCount(frame))
    }

    /** What the sample area shows in the place of the first sample. */
    ghost function Area(): (s: seq<byte>)
      requires Shaped()
      reads this, port, buffer
      ensures |s| == sampleBytes
    {
      buffer[PACKAGE_PAID_BYTES..PACKAGE_PAID_BYTES + sampleBytes]
    }

    ghost function CurrentNodes(): (nodes: seq<Node>)
      requires Shaped() && Loaded()
      reads this, port, buffer
      ensures |nodes| == NodeCount(frame)
    {
      FrameNodes(frame, sampleBytes, previous, shownBefore, correct)
    }

    /** The nodes of the unread input. */
    ghost function Unread(): seq<Node>
      requires Shaped()
      reads this, port, buffer
    {
      Decoded(port.input[port.pos..], sampleBytes, intervalSampleAngleLastPackage, Area(), correct)
    }

    /** The nodes still to come: the rest of the current package and those of the unread input. */
    ghost function Remaining(): seq<Node>
      requires Valid()
      reads this, port, buffer
    {
      (if packageSampleIndex == 0 then [] else CurrentNodes()[packageSampleIndex..]) + Unread()
    }

    // -------------------------------------------------------------- the header

    /** The bytes `acc` of a header are accounted for in the fields. */
    ghost predicate HeaderFields(acc: seq<byte>, before: real)
      reads this
    {
      var n := |acc|;
      && n <= PACKAGE_PAID_BYTES
      && (2 <= n < 6 ==> checkSunCal == PH)
      && (6 <= n ==> checkSunCal == Xor(PH, Word(acc[4], acc[5])))
      && (n == 3 ==> sampleNumAndCt == acc[2])
      && (4 <= n ==> sampleNumAndCt == Word(acc[2], acc[3]))
      && (n == 5 ==> firstSampleAngle == acc[4])
      && (6 <= n ==> firstSampleAngle == Word(acc[4], acc[5]) / 2)
      && (n == 7 ==> lastSampleAngle == acc[6])
      && (n < 8 ==> intervalSampleAngleLastPackage == before)
      && (8 <= n ==>
            && lastSampleAngleCal == Word(acc[6], acc[7]) && lastSampleAngle == lastSampleAngleCal / 2
            && intervalSampleAngle == Interval(acc[3], firstSampleAngle, lastSampleAngle, before)
            && intervalSampleAngleLastPackage == Remembered(acc[3], firstSampleAngle, lastSampleAngle, before))
      && (n == 9 ==> checkSun == acc[8])
      && (n == 10 ==> checkSun == Word(acc[8], acc[9]))
    }

    lemma HeaderStart()
      ensures HeaderFields([], intervalSampleAngleLastPackage)
    {
    }

    /** One round of the byte loop: `num` is the byte the header's fourth position received. */
    method HeaderByte(recvPos: nat, b: byte, num: byte, ghost acc: seq<byte>, ghost before: real) returns (fits: bool)
      requires |acc| == recvPos < PACKAGE_PAID_BYTES && HeaderFields(acc, before)
      requires recvPos == 7 ==> num == acc[3]
      modifies this
      ensures fits == Fits(Package, recvPos, b) && HeaderFields(Extended(Package, acc, b), before)
      ensures packageSampleIndex == old(packageSampleIndex)
    {
      hide Xor, Interval, Remembered;
      fits := true;
      match recvPos {
        case 0 =>
          if b != 0xAA {
            return false;
          }
        case 1 =>
          checkSunCal := PH;
          if b != 0x55 {
            return false;
          }
        case 2 =>
          sampleNumAndCt := b;
          if b != CT_NORMAL && b != CT_RING_START {
            return false;
          }
        case 3 =>
          sampleNumAndCt := sampleNumAndCt + b * 0x100;
        case 4 =>
          if !CheckBit(b) {
            return false;
          }
          firstSampleAngle := b;
        case 5 =>
          firstSampleAngle := firstSampleAngle + b * 0x100;
          checkSunCal := Xor(checkSunCal, firstSampleAngle);
          firstSampleAngle := firstSampleAngle / 2;
        case 6 =>
          if !CheckBit(b) {
            return false;
          }
          lastSampleAngle := b;
        case 7 =>
          lastSampleAngle := b * 0x100 + lastSampleAngle;
          lastSampleAngleCal := lastSampleAngle;
          lastSampleAngle := lastSampleAngle / 2;
          SetInterval(num);
        case 8 =>
          checkSun := b;
        case _ =>
          checkSun := checkSun + b * 0x100;
      }
    }

    method SetInterval(n: nat)
      modifies this`intervalSampleAngle, this`intervalSampleAngleLastPackage
      ensures intervalSampleAngle
           == Interval(n, firstSampleAngle, lastSampleAngle, old(intervalSampleAngleLastPackage))
      ensures intervalSampleAngleLastPackage
           == Remembered(n, firstSampleAngle, lastSampleAngle, old(intervalSampleAngleLastPackage))
    {
      if n == 1 {
        intervalSampleAngle := 0.0;
      } else if lastSampleAngle < firstSampleAngle {
        if firstSampleAngle > 270 * 64 && lastSampleAngle < 90 * 64 {
          intervalSampleAngle := (CIRCLE + lastSampleAngle - firstSampleAngle) as real / (n - 1) as real;
          intervalSampleAngleLastPackage := intervalSampleAngle;
        } else {
          intervalSampleAngle := intervalSampleAngleLastPackage;
        }
      } else {
        intervalSampleAngle := (lastSampleAngle - firstSampleAngle) as real / (n - 1) as real;
        intervalSampleAngleLastPackage := intervalSampleAngle;
      }
    }

    /** The byte loop over what one read returned, `p` bytes into `stream`. */
    method HeaderChunk(recvPos: nat, chunk: seq<byte>, ghost stream: seq<byte>, ghost p: nat, ghost before: real)
      returns (next: nat)
      requires Shaped() && recvPos + |chunk| <= PACKAGE_PAID_BYTES
      requires p + |chunk| <= |stream| && chunk == stream[p..p + |chunk|]
      requires Synced(Package, stream, p, buffer[..recvPos]) && HeaderFields(buffer[..recvPos], before)
      modifies this, buffer
      ensures Shaped() && packageSampleIndex == old(packageSampleIndex) && next <= PACKAGE_PAID_BYTES
      ensures Synced(Package, stream, p + |chunk|, buffer[..next]) && HeaderFields(buffer[..next], before)
      ensures buffer[PACKAGE_PAID_BYTES..] == old(buffer[PACKAGE_PAID_BYTES..])
    {
      hide HeaderFields, Synced, Fits;
      next := recvPos;
      for i := 0 to |chunk|
        invariant Shaped() && packageSampleIndex == old(packageSampleIndex)
        invariant next + |chunk| - i <= PACKAGE_PAID_BYTES
        invariant Synced(Package, stream, p + i, buffer[..next]) && HeaderFields(buffer[..next], before)
        invariant buffer[PACKAGE_PAID_BYTES..] == old(buffer[PACKAGE_PAID_BYTES..])
      {
        ghost var acc := buffer[..next];
        assert chunk[i] == stream[p + i];
        SyncedNext(Package, stream, p + i, acc);
        var fits := HeaderByte(next, chunk[i], buffer[3], acc, before);
        if fits {
          buffer[next] := chunk[i];
          next := next + 1;
          assert buffer[..next] == acc + [chunk[i]];
        } else {
          next := 0;
          assert buffer[..next] == [];
        }
      }
    }

    /** Reads up to the end of the next header and not a byte further. */
    method ReadHeader() returns (ok: bool)
      requires Shaped()
      modifies this, buffer, port
      ensures Shaped() && packageSampleIndex == old(packageSampleIndex) && old(port.pos) <= port.pos
      ensures buffer[PACKAGE_PAID_BYTES..] == old(buffer[PACKAGE_PAID_BYTES..])
      ensures !ok ==> port.arrivals == []
      ensures ok ==> HeaderEnd(Package, port.input[old(port.pos)..]) == Some(port.pos - old(port.pos))
      ensures var end := HeaderEnd(Package, port.input[old(port.pos)..]);
              end.Some? && Useful(old(port.arrivals)) >= end.value ==> ok
      ensures ok ==> Useful(port.arrivals) + (port.pos - old(port.pos)) >= Useful(old(port.arrivals))
      ensures ok ==> port.pos >= old(port.pos) + PACKAGE_PAID_BYTES
      ensures ok ==> buffer[..PACKAGE_PAID_BYTES] == port.input[port.pos - PACKAGE_PAID_BYTES..port.pos]
      ensures ok ==> HeaderFields(buffer[..PACKAGE_PAID_BYTES], old(intervalSampleAngleLastPackage))
    {
      HeaderStart();
      hide HeaderFields, HeaderEnd, Synced, Useful;
      ghost var start, stream, before := port.pos, port.input[port.pos..], intervalSampleAngleLastPackage;
      ghost var useful := Useful(port.arrivals);
      SyncedAtStart(Package, stream);
      var recvPos: nat := 0;
      assert buffer[..0] == [];
      while recvPos < PACKAGE_PAID_BYTES
        invariant Shaped() && packageSampleIndex == old(packageSampleIndex)
        invariant recvPos <= PACKAGE_PAID_BYTES && start <= port.pos
        invariant Synced(Package, stream, port.pos - start, buffer[..recvPos])
        invariant HeaderFields(buffer[..recvPos], before)
        invariant buffer[PACKAGE_PAID_BYTES..] == old(buffer[PACKAGE_PAID_BYTES..])
        invariant HeaderEnd(Package, stream).Some? ==> Useful(port.arrivals) + (port.pos - start) >= useful
        decreases |port.arrivals|
      {
        if HeaderEnd(Package, stream).Some? {
          EndIsAhead(Package, stream, port.pos - start, buffer[..recvPos]);
        }
        ghost var p := port.pos - start;
        var got, chunk := port.Receive(PACKAGE_PAID_BYTES - recvPos);
        if !got {
          return false;
        }
        SliceOfTail(port.input, start, p, |chunk|);
        recvPos := HeaderChunk(recvPos, chunk, stream, p, before);
      }
      SyncedHeader(Package, stream, port.pos - start, buffer[..PACKAGE_PAID_BYTES]);
      ok := true;
    }

    // -------------------------------------------------------------- the samples

    /** The sample bytes `samples` are folded into the checksum after `base`; of a word of which only
        the first byte is in, that byte is kept. */
    ghost predicate SamplesFolded(samples: seq<byte>, base: nat)
      requires sampleBytes == 2 || sampleBytes == 3
      reads this
    {
      && checkSunCal == Xor(base, RunningXor(samples, sampleBytes))
      && (EndsWord(|samples|, sampleBytes) ==> samples != [] && valu8Tou16 == samples[|samples| - 1])
    }

    lemma SamplesStart(base: nat)
      requires (sampleBytes == 2 || sampleBytes == 3) && checkSunCal == base
      ensures SamplesFolded([], base)
    {
      XorZero(base);
    }

    method SampleByte(recvPos: nat, b: byte, ghost samples: seq<byte>, ghost base: nat)
      requires (sampleBytes == 2 || sampleBytes == 3) && recvPos == |samples| && SamplesFolded(samples, base)
      modifies this`checkSunCal, this`valu8Tou16
      ensures SamplesFolded(samples + [b], base)
    {
      hide Xor, RunningXor;
      NextByte(samples, b, sampleBytes);
      XorAssociates(base, RunningXor(samples, sampleBytes), b);
      if sampleBytes == 3 {
        if recvPos % 3 == 2 {
          valu8Tou16 := valu8Tou16 + b * 0x100;
          XorAssociates(base, RunningXor(samples, sampleBytes), valu8Tou16);
          checkSunCal := Xor(checkSunCal, valu8Tou16);
        } else if recvPos % 3 == 1 {
          valu8Tou16 := b;
        } else {
          checkSunCal := Xor(checkSunCal, b);
        }
      } else {
        if recvPos % 2 == 1 {
          valu8Tou16 := valu8Tou16 + b * 0x100;
          XorAssociates(base, RunningXor(samples, sampleBytes), valu8Tou16);
          checkSunCal := Xor(checkSunCal, valu8Tou16);
        } else {
          valu8Tou16 := b;
        }
      }
    }

    /** The bytes `samples` stand in the buffer behind the header `head`. */
    ghost predicate InBuffer(head: seq<byte>, samples: seq<byte>)
      requires buffer.Length == BUFFER
      reads buffer
    {
      PACKAGE_PAID_BYTES + |samples| <= BUFFER && buffer[..PACKAGE_PAID_BYTES + |samples|] == head + samples
    }

    method SampleChunk(recvPos: nat, chunk: seq<byte>, ghost head: seq<byte>, ghost samples: seq<byte>, ghost base: nat)
      requires Shaped() && recvPos == |samples| && PACKAGE_PAID_BYTES + recvPos + |chunk| <= BUFFER
      requires |head| == PACKAGE_PAID_BYTES && InBuffer(head, samples) && SamplesFolded(samples, base)
      modifies this`checkSunCal, this`valu8Tou16, buffer
      ensures Shaped() && InBuffer(head, samples + chunk) && SamplesFolded(samples + chunk, base)
      ensures chunk == [] ==> buffer[..] == old(buffer[..])
    {
      hide SamplesFolded;
      assert samples + chunk[..0] == samples;
      for i := 0 to |chunk|
        invariant Shaped() && InBuffer(head, samples + chunk[..i]) && SamplesFolded(samples + chunk[..i], base)
        invariant i == 0 ==> buffer[..] == old(buffer[..])
      {
        ghost var front := samples + chunk[..i];
        SampleByte(recvPos + i, chunk[i], front, base);
        buffer[PACKAGE_PAID_BYTES + recvPos + i] := chunk[i];
        assert front + [chunk[i]] == samples + chunk[..i + 1];
        assert buffer[..PACKAGE_PAID_BYTES + recvPos + i + 1] == head + front + [chunk[i]];
      }
      assert samples + chunk[..|chunk|] == samples + chunk;
    }

    /** Reads exactly `size` more bytes. */
    method ReadSamples(size: nat, ghost head: seq<byte>, ghost base: nat) returns (ok: bool)
      requires Shaped() && PACKAGE_PAID_BYTES + size <= BUFFER && checkSunCal == base
      requires |head| == PACKAGE_PAID_BYTES && InBuffer(head, [])
      modifies this`checkSunCal, this`valu8Tou16, buffer, port
      ensures Shaped() && old(port.pos) <= port.pos
      ensures !ok ==> port.arrivals == []
      ensures ok ==> port.pos == old(port.pos) + size
      ensures old(port.pos) + size <= |port.input| && Useful(old(port.arrivals)) > size ==> ok
      ensures ok ==> Useful(port.arrivals) + size + 1 >= Useful(old(port.arrivals))
      ensures ok ==> InBuffer(head, port.input[old(port.pos)..port.pos])
      ensures ok ==> SamplesFolded(port.input[old(port.pos)..port.pos], base)
      ensures ok && size == 0 ==> buffer[..] == old(buffer[..])
    {
      SamplesStart(base);
      hide SamplesFolded, InBuffer, Useful;
      var recvPos: nat, done := 0, false;
      ghost var start, useful := port.pos, Useful(port.arrivals);
      assert port.input[start..start] == [];
      while !done
        invariant Shaped() && recvPos <= size && (done ==> recvPos == size) && port.pos == start + recvPos
        invariant InBuffer(head, port.input[start..port.pos]) && SamplesFolded(port.input[start..port.pos], base)
        invariant recvPos == 0 ==> buffer[..] == old(buffer[..])
        invariant !done && recvPos == size ==> size == 0
        invariant start + size <= |port.input| ==>
                    Useful(port.arrivals) + recvPos + (if done then 1 else 0) >= useful
        decreases |port.arrivals|, !done
      {
        ghost var samples := port.input[start..port.pos];
        var got, chunk := port.Receive(size - recvPos);
        if !got {
          return false;
        }
        assert samples + chunk == port.input[start..port.pos];
        SampleChunk(recvPos, chunk, head, samples, base);
        recvPos := recvPos + |chunk|;
        done := recvPos == size;
      }
      ok := true;
    }

    // -------------------------------------------------------------- packages and nodes

    lemma HeaderRead(head: seq<byte>, before: real)
      requires |head| == PACKAGE_PAID_BYTES && HeaderFields(head, before)
      ensures checkSunCal == Xor(PH, Word(head[4], head[5]))
      ensures sampleNumAndCt == Word(head[2], head[3]) && lastSampleAngleCal == Word(head[6], head[7])
      ensures checkSun == Word(head[8], head[9]) && firstSampleAngle == FirstAngle(head)
      ensures intervalSampleAngle == Interval(SampleNum(head), FirstAngle(head), LastAngle(head), before)
      ensures intervalSampleAngleLastPackage == Remembered(SampleNum(head), FirstAngle(head), LastAngle(head), before)
    {
      hide Xor, Interval, Remembered, Word;
    }

    /** Checks the package that has come in, and makes it the current one. */
    method Accept(ghost f: Frame, ghost before: real, ghost shown: seq<byte>)
      requires Shaped() && WellFormed(f, sampleBytes) && |shown| == sampleBytes
      requires InBytes(buffer[..], f, sampleBytes, shown)
      requires firstSampleAngle == FirstAngle(f.head) && intervalSampleAngle == IntervalOf(f, before)
      requires checkSunCal == Xor(Xor(PH, Word(f.head[4], f.head[5])), RunningXor(f.samples, sampleBytes))
      requires sampleNumAndCt == Word(f.head[2], f.head[3]) && lastSampleAngleCal == Word(f.head[6], f.head[7])
      requires checkSun == Word(f.head[8], f.head[9])
      modifies this`checkSunCal, this`checkSunResult, this`frame, this`previous, this`shownBefore
      ensures Loaded() && frame == f && previous == before && shownBefore == shown
    {
      hide Xor, RunningXor, Verdict, Word, Fitting, InBytes, FirstAngle, IntervalOf;
      VerdictOf(f, sampleBytes);
      checkSunCal := Xor(checkSunCal, sampleNumAndCt);
      checkSunCal := Xor(checkSunCal, lastSampleAngleCal);
      checkSunResult := checkSunCal == checkSun;
      frame, previous, shownBefore := f, before, shown;
    }

    /** Reads the samples behind the header in the buffer and checks the package. */
    method ReadBody(ghost head: seq<byte>, ghost before: real, ghost shown: seq<byte>) returns (ok: bool)
      requires Shaped() && |head| == PACKAGE_PAID_BYTES && Fitting(Package, head)
      requires buffer[..PACKAGE_PAID_BYTES] == head && HeaderFields(head, before) && Area() == shown
      modifies this, buffer, port
      ensures Shaped() && packageSampleIndex == old(packageSampleIndex) && old(port.pos) <= port.pos
      ensures !ok ==> port.arrivals == []
      ensures ok ==> port.pos == old(port.pos) + BodyBytes(head, sampleBytes)
      ensures var size := BodyBytes(head, sampleBytes);
              old(port.pos) + size <= |port.input| && Useful(old(port.arrivals)) > size ==> ok
      ensures ok ==> Useful(port.arrivals) + (port.pos - old(port.pos)) + 1 >= Useful(old(port.arrivals))
      ensures ok ==> frame == Frame(head, port.input[old(port.pos)..port.pos])
      ensures ok ==> Loaded() && previous == before && shownBefore == shown
      ensures ok ==> Area() == Shown(frame, sampleBytes, shown)
      ensures ok ==> intervalSampleAngleLastPackage == RememberedOf(frame, before)
    {
      hide Xor, RunningXor, Verdict, Fitting, Interval, Remembered, InBytes, Shown, HeaderFields, FirstAngle,
           LastAngle, Word, Loaded, Useful;
      HeaderRead(head, before);
      var num := buffer[3];
      SamplesFit(num, sampleBytes);
      ghost var start, base := port.pos, checkSunCal;
      assert buffer[..PACKAGE_PAID_BYTES + 0] == head + [];
      ok := ReadSamples(num * sampleBytes, head, base);
      if !ok {
        return;
      }
      ghost var f := Frame(head, port.input[start..port.pos]);
      assert buffer[..][..PACKAGE_PAID_BYTES + |f.samples|] == head + f.samples;
      HasComeIn(buffer[..], f, sampleBytes, shown);
      Accept(f, before, shown);
      AreaShows();
    }

    lemma AreaShows()
      requires Shaped() && Loaded()
      ensures Area() == Shown(frame, sampleBytes, shownBefore)
    {
      hide Shown, Fitting, Verdict, IntervalOf, FirstAngle;
      assert Area() == buffer[..][PACKAGE_PAID_BYTES..PACKAGE_PAID_BYTES + sampleBytes];
    }

    /** Reads the next package and not a byte further, whatever pieces its bytes arrive in. */
    method ReadPackage() returns (ok: bool)
      requires Shaped()
      modifies this, buffer, port
      ensures Shaped() && packageSampleIndex == old(packageSampleIndex)
      ensures !ok ==> port.arrivals == []
      ensures var next := NextFrame(port.input[old(port.pos)..], sampleBytes);
              next.Some? && Useful(old(port.arrivals)) > next.value.1 ==> ok
      ensures ok ==> Useful(port.arrivals) + (port.pos - old(port.pos)) + 1 >= Useful(old(port.arrivals))
      ensures ok ==> old(port.pos) <= port.pos
      ensures ok ==> NextFrame(port.input[old(port.pos)..], sampleBytes) == Some((frame, port.pos - old(port.pos)))
      ensures ok ==> previous == old(intervalSampleAngleLastPackage) && shownBefore == old(Area()) && Loaded()
      ensures ok ==> Area() == Shown(frame, sampleBytes, shownBefore)
      ensures ok ==> intervalSampleAngleLastPackage == RememberedOf(frame, previous)
    {
      hide HeaderFields, HeaderEnd, Fitting, NextFrame, Loaded, Shown, RememberedOf, Useful, BodyBytes, SampleNum;
      ghost var start, before, shown := port.pos, intervalSampleAngleLastPackage, Area();
      assert shown == buffer[PACKAGE_PAID_BYTES..][..sampleBytes];
      if NextFrame(port.input[start..], sampleBytes).Some? {
        HeaderComesFirst(port.input[start..], sampleBytes);
      }
      ok := ReadHeader();
      if !ok {
        return;
      }
      assert Area() == buffer[PACKAGE_PAID_BYTES..][..sampleBytes];
      ghost var head, mid := buffer[..PACKAGE_PAID_BYTES], port.pos;
      BodyComesNext(port.input, start, mid, head, sampleBytes);
      ok := ReadBody(head, before, shown);
      if !ok {
        return;
      }
      FrameFound(port.input, start, mid, port.pos, head, sampleBytes);
    }

    /** The same, in terms of nodes. */
    method NextPackage() returns (ok: bool)
      requires Shaped()
      modifies this, buffer, port
      ensures Shaped() && packageSampleIndex == old(packageSampleIndex)
      ensures !ok ==> port.arrivals == []
      ensures old(port.Enough()) ==> (ok <==> old(Unread()) != []) && (ok ==> port.Enough())
      ensures ok ==> Loaded() && old(Unread()) == CurrentNodes() + Unread()
    {
      hide NextFrame, Loaded, Shown, RememberedOf, Decoded, FrameNodes, Useful;
      ghost var start, before, shown := port.pos, intervalSampleAngleLastPackage, Area();
      DecodedEmptyIff(port.input[start..], sampleBytes, before, shown, correct);
      ok := ReadPackage();
      if ok {
        ghost var size := port.pos - start;
        DecodedFromFirst(port.input[start..], sampleBytes, before, shown, correct, frame, size);
        assert port.input[start..][size..] == port.input[port.pos..];
      }
    }

    /** The node of the sample at `packageSampleIndex`. */
    method MakeNode() returns (node: Node)
      requires Shaped() && Loaded() && packageSampleIndex < NodeCount(frame)
      ensures node == NodeOf(frame, sampleBytes, intervalSampleAngle, packageSampleIndex, shownBefore, correct)
    {
      hide Verdict, Fitting, Stored, Raw, SampleAt, InBytes, FirstAngle, IntervalOf, Shown;
      HeadInBytes(buffer[..], frame, sampleBytes, shownBefore);
      SampleInBytes(buffer[..], frame, sampleBytes, shownBefore, packageSampleIndex);
      ghost var s := SampleAt(frame, sampleBytes, packageSampleIndex, shownBefore);
      var quality := NODE_DEFAULT_QUALITY + (if buffer[2] == CT_NORMAL then NODE_NOT_SYNC else NODE_SYNC);
      if checkSunResult {
        var at := PACKAGE_PAID_BYTES + packageSampleIndex * sampleBytes;
        assert s == buffer[at..at + sampleBytes];
        var distance;
        if sampleBytes == 3 {
          quality := buffer[at];
          distance := Word(buffer[at + 1], buffer[at + 2]);
        } else {
          distance := Word(buffer[at], buffer[at + 1]);
        }
        var correction := if distance / 4 != 0 then correct(distance) else 0;
        var raw := Raw(firstSampleAngle, intervalSampleAngle, packageSampleIndex, correction);
        node := Node(quality, Stored(raw), distance);
      } else {
        node := Node(NODE_DEFAULT_QUALITY + NODE_NOT_SYNC, CHECKBIT, 0);
      }
    }

    /** Hands out the current node and moves to the next. */
    method TakeNode() returns (node: Node)
      requires Shaped() && Loaded() && packageSampleIndex < NodeCount(frame)
      modifies this`packageSampleIndex
      ensures Valid() && old(CurrentNodes()[packageSampleIndex..] + Unread()) == [node] + Remaining()
    {
      hide Verdict, Fitting, SampleAt, InBytes, FirstAngle, NodeOf, Shown, Decoded, IntervalOf;
      HeadInBytes(buffer[..], frame, sampleBytes, shownBefore);
      node := MakeNode();
      ghost var nodes, i := CurrentNodes(), packageSampleIndex;
      assert nodes[i] == node;
      packageSampleIndex := packageSampleIndex + 1;
      if packageSampleIndex >= buffer[3] {
        packageSampleIndex := 0;
      }
      assert nodes[i..] == [node] + nodes[i + 1..];
    }

    /** Hands out one node: the first of those still to come. If enough waits find something, it fails
        only when no node is to come. */
    method WaitPackage() returns (ok: bool, node: Node)
      requires Valid()
      modifies this, buffer, port
      ensures !ok ==> port.arrivals == []
      ensures old(port.Enough()) ==> (ok <==> old(Remaining()) != []) && (ok ==> port.Enough())
      ensures ok ==> Valid() && old(Remaining()) == [node] + Remaining()
    {
      hide Loaded, FrameNodes, Decoded, Useful;
      node := Node(0, 0, 0);
      if packageSampleIndex == 0 {
        ok := NextPackage();
        if !ok {
          return;
        }
        assert CurrentNodes()[0..] == CurrentNodes();
      }
      ok := true;
      node := TakeNode();
    }

    /** Collects `count` nodes: the first `count` of those still to come, however the bytes arrive. If
        enough waits find something, it fails only when fewer are to come. */
    method WaitScanData(count: nat) returns (ok: bool, nodes: seq<Node>)
      requires Valid()
      modifies this, buffer, port
      ensures !ok ==> port.arrivals == []
      ensures old(port.Enough()) ==> (ok <==> count <= |old(Remaining())|) && (ok ==> port.Enough())
      ensures ok ==> Valid() && |nodes| == count && old(Remaining()) == nodes + Remaining()
    {
      hide Valid, Remaining, Serial.Enough;
      nodes := [];
      while |nodes| < count
        invariant old(port.Enough()) ==> port.Enough()
        invariant Valid() && |nodes| <= count && old(Remaining()) == nodes + Remaining()
        decreases count - |nodes|
      {
        var got, node := WaitPackage();
        if !got {
          return false, nodes;
        }
        OneMore(old(Remaining()), nodes, node, Remaining());
        nodes := nodes + [node];
      }
      ok := true;
    }

    lemma OneMore(all: seq<Node>, nodes: seq<Node>, node: Node, rest: seq<Node>)
      requires all == nodes + ([node] + rest)
      ensures all == nodes + [node] + rest
    {
    }
  }
}
