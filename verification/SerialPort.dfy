/** The serial port under the lidar driver: it delivers its input in arbitrary pieces. */
module SerialPort {
  import opened BoundedInts

  /** How many of the waits to come find something. */
  function Useful(arrivals: seq<nat>): nat {
    if arrivals == [] then 0 else (if arrivals[0] > 0 then 1 else 0) + Useful(arrivals[1..])
  }

  /** `arrivals` says how much each wait for data finds; when it runs out, the next wait times out. */
  class Serial {
    const input: seq<byte>
    var pos: nat
    var arrivals: seq<nat>

    constructor (input: seq<byte>, arrivals: seq<nat>)
      ensures this.input == input && pos == 0 && this.arrivals == arrivals
    {
      this.input, pos, this.arrivals := input, 0, arrivals;
    }

    /** Enough waits find something to read all the input, with one more for every byte: the driver also
        waits for the samples of a package that has none. */
    ghost predicate Enough()
      reads this
    {
      Useful(arrivals) >= 2 * (|input| - pos)
    }

    method WaitForData() returns (ok: bool, available: nat)
      requires pos <= |input|
      modifies this`arrivals
      ensures ok <==> old(arrivals) != []
      ensures ok ==> arrivals == old(arrivals)[1..]
      ensures ok ==> available == if old(arrivals)[0] <= |input| - pos then old(arrivals)[0] else |input| - pos
      ensures !ok ==> arrivals == []
    {
      if arrivals == [] {
        return false, 0;
      }
      available := if arrivals[0] <= |input| - pos then arrivals[0] else |input| - pos;
      arrivals := arrivals[1..];
      ok := true;
    }

    method GetData(size: nat) returns (data: seq<byte>)
      requires pos + size <= |input|
      modifies this`pos
      ensures pos == old(pos) + size && data == input[old(pos)..pos]
    {
      data := input[pos..pos + size];
      pos := pos + size;
    }

    /** What every loop of the driver does in a round: waits for data and gets what has come, at most
        `remain` bytes (src/ydlidar_driver.cpp:240-253, 360-375, 470-482). */
    method Receive(remain: nat) returns (ok: bool, data: seq<byte>)
      requires pos <= |input|
      modifies this`arrivals, this`pos
      ensures pos == old(pos) + |data| <= |input| && data == input[old(pos)..pos] && |data| <= remain
      ensures if ok then |arrivals| < |old(arrivals)| else arrivals == [] && Useful(old(arrivals)) == 0
      ensures ok && remain > 0 && old(pos) < |input| ==> Useful(arrivals) + |data| >= Useful(old(arrivals))
      ensures ok ==> Useful(arrivals) + 1 >= Useful(old(arrivals))
    {
      var available;
      ok, available := WaitForData();
      if !ok {
        return false, [];
      }
      if available > remain {
        available := remain;
      }
      data := GetData(available);
    }
  }
}
