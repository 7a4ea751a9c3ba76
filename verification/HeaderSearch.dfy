/** How the driver finds a header in a stream of bytes (src/ydlidar_driver.cpp:232-278, 357-464): it
    collects fitting bytes and starts over behind the first byte that does not fit. */
module HeaderSearch {
  import opened BoundedInts
  import opened Wrappers

  datatype Format = Response | Package

  const CT_NORMAL: byte := 0
  const CT_RING_START: byte := 1

  function Size(format: Format): (n: nat)
    ensures n > 0
  {
    if format.Response? then 7 else 10
  }

  predicate CheckBit(b: byte) {
    b % 2 == 1
  }

  /** Whether a byte may stand at a position of the header. */
  predicate Fits(format: Format, position: nat, b: byte) {
    if format.Response? then
      (position == 0 ==> b == 0xA5) && (position == 1 ==> b == 0x5A)
    else
      && (position == 0 ==> b == 0xAA)
      && (position == 1 ==> b == 0x55)
      && (position == 2 ==> b == CT_NORMAL || b == CT_RING_START)
      && (position == 4 || position == 6 ==> CheckBit(b))
  }

  predicate Fitting(format: Format, bytes: seq<byte>) {
    forall i :: 0 <= i < |bytes| ==> Fits(format, i, bytes[i])
  }

  /** The first position that rules the bytes out as a header, or their length. */
  function BadByte(format: Format, bytes: seq<byte>): (j: nat)
    ensures j <= |bytes| && Fitting(format, bytes[..j])
    ensures j < |bytes| ==> !Fits(format, j, bytes[j])
  {
    if bytes == [] then 0
    else
      var front := bytes[..|bytes| - 1];
      var j := BadByte(format, front);
      assert front[..j] == bytes[..j];
      if j < |front| || !Fits(format, j, bytes[j]) then j
      else
        assert bytes[..j + 1] == front + [bytes[j]];
        j + 1
  }

  lemma BadByteIsFirst(format: Format, bytes: seq<byte>, n: nat)
    requires n <= |bytes| && Fitting(format, bytes[..n])
    requires n < |bytes| ==> !Fits(format, n, bytes[n])
    ensures BadByte(format, bytes) == n
  {
    hide BadByte, Fits;
  }

  /** Where the first header found in a stream ends. The search resumes behind the byte that did not
      fit, even if that byte could have begun a header. */
  function HeaderEnd(format: Format, stream: seq<byte>): (end: Option<nat>)
    ensures end.Some? ==> Size(format) <= end.value <= |stream|
    decreases |stream|
  {
    if |stream| < Size(format) then None
    else
      var j := BadByte(format, stream[..Size(format)]);
      if j == Size(format) then Some(j) else Shift(HeaderEnd(format, stream[j + 1..]), j + 1)
  }

  function Shift(end: Option<nat>, offset: nat): Option<nat> {
    match end
    case None => None
    case Some(e) => Some(offset + e)
  }

  lemma HeaderEndIs(format: Format, s: seq<byte>)
    ensures HeaderEnd(format, s)
         == if |s| < Size(format) then None
            else
              var j := BadByte(format, s[..Size(format)]);
              if j == Size(format) then Some(j) else Shift(HeaderEnd(format, s[j + 1..]), j + 1)
  {
    hide BadByte;
  }

  /** What is found is a header. */
  lemma {:induction false} HeaderFits(format: Format, stream: seq<byte>)
    requires HeaderEnd(format, stream).Some?
    ensures Fitting(format, stream[HeaderEnd(format, stream).value - Size(format)..HeaderEnd(format, stream).value])
    decreases |stream|
  {
    hide Fits, BadByte, Fitting, HeaderEnd;
    HeaderEndIs(format, stream);
    var n := Size(format);
    var j := BadByte(format, stream[..n]);
    if j == n {
      assert stream[0..n] == stream[..n][..j];
    } else {
      var rest := stream[j + 1..];
      HeaderFits(format, rest);
      var end := HeaderEnd(format, rest).value;
      assert HeaderEnd(format, stream).value == j + 1 + end;
      assert stream[j + 1 + end - n..j + 1 + end] == rest[end - n..end];
    }
  }

  /** Rejecting a byte moves the search for a header behind it. */
  lemma RejectedByte(format: Format, s: seq<byte>, n: nat)
    requires n < Size(format) && n < |s| && Fitting(format, s[..n]) && !Fits(format, n, s[n])
    ensures HeaderEnd(format, s) == Shift(HeaderEnd(format, s[n + 1..]), n + 1)
  {
    hide Fits, Fitting, BadByte, HeaderEnd;
    HeaderEndIs(format, s);
    if |s| >= Size(format) {
      var front := s[..Size(format)];
      assert front[..n] == s[..n] && front[n] == s[n];
      BadByteIsFirst(format, front, n);
    } else {
      HeaderEndIs(format, s[n + 1..]);
    }
  }

  lemma CompleteHeader(format: Format, s: seq<byte>)
    requires |s| >= Size(format) && Fitting(format, s[..Size(format)])
    ensures HeaderEnd(format, s) == Some(Size(format))
  {
    hide Fits, Fitting, BadByte, HeaderEnd;
    HeaderEndIs(format, s);
    var front := s[..Size(format)];
    assert front[..Size(format)] == front;
    BadByteIsFirst(format, front, Size(format));
  }

  /** What is found begins with the two synchronisation bytes of its format and has its length; of a
      package the type is one of two and both angles carry their check bit. */
  lemma FoundBytes(format: Format, stream: seq<byte>)
    requires HeaderEnd(format, stream).Some?
    ensures var end := HeaderEnd(format, stream).value;
            if format.Response? then 7 <= end && stream[end - 7] == 0xA5 && stream[end - 6] == 0x5A
            else
              && 10 <= end && stream[end - 10] == 0xAA && stream[end - 9] == 0x55 && stream[end - 8] <= 1
              && stream[end - 6] % 2 == 1 && stream[end - 4] % 2 == 1
  {
    hide HeaderEnd;
    HeaderFits(format, stream);
    var end, n := HeaderEnd(format, stream).value, Size(format);
    var header := stream[end - n..end];
    assert Fits(format, 0, header[0]) && Fits(format, 1, header[1]) && Fits(format, 2, header[2]);
    assert Fits(format, 4, header[4]) && Fits(format, 6, header[6]);
  }

  /** And a header at the front of a stream is found there. */
  lemma FrontIsFound(stream: seq<byte>)
    ensures |stream| >= 7 && stream[..2] == [0xA5, 0x5A] ==> HeaderEnd(Response, stream) == Some(7)
    ensures |stream| >= 10 && stream[..2] == [0xAA, 0x55] && stream[2] <= 1 && stream[4] % 2 == stream[6] % 2 == 1 ==>
              HeaderEnd(Package, stream) == Some(10)
  {
    hide HeaderEnd;
    if |stream| >= 7 && stream[..2] == [0xA5, 0x5A] {
      assert stream[..2][0] == 0xA5 && stream[..2][1] == 0x5A;
      CompleteHeader(Response, stream);
    }
    if |stream| >= 10 && stream[..2] == [0xAA, 0x55] && stream[2] <= 1 && stream[4] % 2 == stream[6] % 2 == 1 {
      assert stream[..2][0] == 0xAA && stream[..2][1] == 0x55;
      CompleteHeader(Package, stream);
    }
  }

  // ---------------------------------------------------------------- one byte at a time

  /** After `p` bytes of a stream, `acc` holds the bytes of a header begun, and the search for a
      header may be taken up where they start. */
  ghost predicate Synced(format: Format, stream: seq<byte>, p: nat, acc: seq<byte>) {
    && |acc| <= p <= |stream| && |acc| <= Size(format)
    && acc == stream[p - |acc|..p] && Fitting(format, acc)
    && HeaderEnd(format, stream) == Shift(HeaderEnd(format, stream[p - |acc|..]), p - |acc|)
  }

  function Extended(format: Format, acc: seq<byte>, b: byte): seq<byte> {
    if Fits(format, |acc|, b) then acc + [b] else []
  }

  lemma SyncedAtStart(format: Format, stream: seq<byte>)
    ensures Synced(format, stream, 0, [])
  {
    hide HeaderEnd;
    assert stream[0..] == stream;
  }

  lemma SyncedNext(format: Format, stream: seq<byte>, p: nat, acc: seq<byte>)
    requires Synced(format, stream, p, acc) && p < |stream| && |acc| < Size(format)
    ensures Synced(format, stream, p + 1, Extended(format, acc, stream[p]))
  {
    hide HeaderEnd, Fits;
    var rest := stream[p - |acc|..];
    assert rest[..|acc|] == acc && rest[|acc|] == stream[p];
    if Fits(format, |acc|, stream[p]) {
      assert stream[p + 1 - |acc + [stream[p]]|..] == rest;
    } else {
      RejectedByte(format, rest, |acc|);
      assert rest[|acc| + 1..] == stream[p + 1..];
    }
  }

  lemma SyncedHeader(format: Format, stream: seq<byte>, p: nat, acc: seq<byte>)
    requires Synced(format, stream, p, acc) && |acc| == Size(format)
    ensures HeaderEnd(format, stream) == Some(p) && Size(format) <= p && acc == stream[p - Size(format)..p]
  {
    hide HeaderEnd, Fits, Fitting;
    var rest := stream[p - Size(format)..];
    assert rest[..Size(format)] == acc;
    CompleteHeader(format, rest);
  }

  /** While a header is incomplete, the end of the first one lies ahead. */
  lemma EndIsAhead(format: Format, stream: seq<byte>, p: nat, acc: seq<byte>)
    requires Synced(format, stream, p, acc) && |acc| < Size(format) && HeaderEnd(format, stream).Some?
    ensures p < HeaderEnd(format, stream).value <= |stream|
  {
    hide Fitting;
  }

  // ---------------------------------------------------------------- headers behind other bytes

  /** The bytes of a header that `junk` leaves begun, if the search has not found one by then. */
  function Residue(format: Format, junk: seq<byte>): (acc: Option<seq<byte>>)
    ensures acc.Some? ==> |acc.value| < Size(format)
  {
    if junk == [] then Some([])
    else
      match Residue(format, junk[..|junk| - 1])
      case None => None
      case Some(acc) =>
        var next := Extended(format, acc, junk[|junk| - 1]);
        if |next| < Size(format) then Some(next) else None
  }

  lemma {:induction false} ResidueIsSynced(format: Format, stream: seq<byte>, n: nat)
    requires n <= |stream|
    ensures var acc := Residue(format, stream[..n]);
            if acc.Some? then Synced(format, stream, n, acc.value)
            else HeaderEnd(format, stream).Some? && HeaderEnd(format, stream).value <= n
  {
    hide HeaderEnd, Synced, Extended;
    if n == 0 {
      SyncedAtStart(format, stream);
    } else {
      ResidueIsSynced(format, stream, n - 1);
      assert stream[..n][..n - 1] == stream[..n - 1];
      var acc := Residue(format, stream[..n - 1]);
      if acc.Some? {
        SyncedNext(format, stream, n - 1, acc.value);
        var next := Extended(format, acc.value, stream[n - 1]);
        ExtendedFits(format, acc.value, stream[n - 1]);
        if |next| == Size(format) {
          SyncedHeader(format, stream, n, next);
        }
      }
    }
  }

  lemma ExtendedFits(format: Format, acc: seq<byte>, b: byte)
    requires |acc| < Size(format)
    ensures |Extended(format, acc, b)| <= Size(format)
  {
  }

  /** A header begun earlier cannot end where one that begins here does. */
  lemma BegunEndsElsewhere(format: Format, stream: seq<byte>, p: nat, acc: seq<byte>)
    requires Synced(format, stream, p, acc) && 0 < |acc| < Size(format)
    ensures HeaderEnd(format, stream) != Some(p + Size(format))
  {
    hide Fits, Fitting, BadByte;
    var rest := stream[p - |acc|..];
    if |rest| >= Size(format) {
      var front := rest[..Size(format)];
      assert front[..|acc|] == acc;
      BadByteBehind(format, front, |acc|);
    }
  }

  lemma BadByteBehind(format: Format, bytes: seq<byte>, n: nat)
    requires n <= |bytes| && Fitting(format, bytes[..n])
    ensures BadByte(format, bytes) >= n
  {
    hide BadByte, Fits;
  }

  /** A header behind any bytes is found, and found first, if and only if those bytes neither hold a
      header already nor leave one begun. */
  lemma HeaderFoundIff(format: Format, junk: seq<byte>, header: seq<byte>, rest: seq<byte>)
    requires |header| == Size(format) && Fitting(format, header)
    ensures HeaderEnd(format, junk + header + rest) == Some(|junk| + Size(format))
       <==> Residue(format, junk) == Some([])
  {
    hide HeaderEnd, Fitting, Residue, Synced;
    var stream, n := junk + header + rest, |junk|;
    assert stream[..n] == junk;
    ResidueIsSynced(format, stream, n);
    var acc := Residue(format, junk);
    if acc == Some([]) {
      JunkIsSkipped(format, junk, header + rest);
      assert (header + rest)[..Size(format)] == header;
      CompleteHeader(format, header + rest);
      assert junk + (header + rest) == stream;
    } else if acc.Some? {
      BegunEndsElsewhere(format, stream, n, acc.value);
    }
  }

  /** Bytes that leave nothing begun delay the search and change nothing else. */
  lemma JunkIsSkipped(format: Format, junk: seq<byte>, stream: seq<byte>)
    requires Residue(format, junk) == Some([])
    ensures HeaderEnd(format, junk + stream) == Shift(HeaderEnd(format, stream), |junk|)
  {
    hide HeaderEnd, Residue;
    var s := junk + stream;
    assert s[..|junk|] == junk && s[|junk|..] == stream;
    ResidueIsSynced(format, s, |junk|);
  }

  /** Such are, among others, bytes none of which could begin a header. */
  lemma {:induction false} NoFirstByteLeavesNothing(format: Format, junk: seq<byte>)
    requires forall b :: b in junk ==> !Fits(format, 0, b)
    ensures Residue(format, junk) == Some([])
  {
    hide Fits;
    if junk != [] {
      NoFirstByteLeavesNothing(format, junk[..|junk| - 1]);
      assert junk[|junk| - 1] in junk;
    }
  }

  /** A truncated header in front of a whole one is such that the whole one is missed. */
  lemma TruncatedHeaderHidesHeader(format: Format, begun: seq<byte>, header: seq<byte>, rest: seq<byte>)
    requires 0 < |begun| < Size(format) && Fitting(format, begun)
    requires |header| == Size(format) && Fitting(format, header)
    ensures HeaderEnd(format, begun + header + rest) != Some(|begun| + Size(format))
  {
    hide HeaderEnd;
    ResidueOfBegun(format, begun);
    HeaderFoundIff(format, begun, header, rest);
  }

  lemma {:induction false} ResidueOfBegun(format: Format, begun: seq<byte>)
    requires |begun| < Size(format) && Fitting(format, begun)
    ensures Residue(format, begun) == Some(begun)
  {
    hide Fits;
    if begun != [] {
      var n := |begun| - 1;
      ResidueOfBegun(format, begun[..n]);
      assert begun == begun[..n] + [begun[n]];
    }
  }

  /** The shortest: one stray first synchronisation byte. The search goes on behind the header's own
      first byte. */
  lemma StraySyncByteHidesHeader(format: Format, header: seq<byte>, rest: seq<byte>)
    requires |header| == Size(format) && Fitting(format, header)
    ensures HeaderEnd(format, header + rest) == Some(Size(format))
    ensures HeaderEnd(format, [header[0]] + header + rest) == Shift(HeaderEnd(format, header[1..] + rest), 2)
  {
    hide HeaderEnd;
    assert Fits(format, 0, header[0]) && Fits(format, 1, header[1]);
    assert (header + rest)[..Size(format)] == header;
    CompleteHeader(format, header + rest);
    var s := [header[0]] + header + rest;
    assert s[..1] == [header[0]] && s[1] == header[0] && s[2..] == header[1..] + rest;
    RejectedByte(format, s, 1);
  }
}
