/** How the scan thread splits the stream of nodes into revolutions (src/ydlidar_driver.cpp:288-342,
    629-650). */
module Revolutions {
  import opened LidarNodes
  import opened SerialPort
  import opened Ydlidar

  const MAX_SCAN_NODES := 2048
  const BATCH := 128

  predicate Sync(node: Node) {
    node.syncQuality % 2 == 1
  }

  /** Where the sync nodes are, in order. */
  function SyncPositions(nodes: seq<Node>): seq<nat> {
    if nodes == [] then []
    else
      var n := |nodes| - 1;
      SyncPositions(nodes[..n]) + (if Sync(nodes[n]) then [n] else [])
  }

  /** They are exactly the positions of sync nodes, each once and in order. */
  lemma {:induction false} SyncPositionsExact(nodes: seq<Node>)
    ensures forall p :: p in SyncPositions(nodes) <==> 0 <= p < |nodes| && Sync(nodes[p])
    ensures forall j, k :: 0 <= j < k < |SyncPositions(nodes)| ==> SyncPositions(nodes)[j] < SyncPositions(nodes)[k]
  {
    if nodes != [] {
      var n := |nodes| - 1;
      var front := nodes[..n];
      SyncPositionsExact(front);
      assert forall p :: 0 <= p < n ==> front[p] == nodes[p];
      forall k | 0 <= k < |SyncPositions(front)|
        ensures SyncPositions(front)[k] < n
      {
        assert SyncPositions(front)[k] in SyncPositions(front);
      }
    }
  }

  function Cut(nodes: seq<Node>): (r: seq<Node>)
    ensures |r| < MAX_SCAN_NODES && r <= nodes
  {
    if |nodes| < MAX_SCAN_NODES then nodes else nodes[..MAX_SCAN_NODES - 1]
  }

  /** The nodes from one sync node up to the next. */
  function Revolution(nodes: seq<Node>, k: nat): seq<Node>
    requires k + 1 < |SyncPositions(nodes)|
  {
    SyncPositionsExact(nodes);
    var p := SyncPositions(nodes);
    assert p[k] in p && p[k + 1] in p;
    nodes[p[k]..p[k + 1]]
  }

  /** The nodes since the last sync node, or all of them if there was none. */
  function Open(nodes: seq<Node>): seq<Node> {
    SyncPositionsExact(nodes);
    var p := SyncPositions(nodes);
    if p == [] then nodes
    else
      assert p[|p| - 1] in p;
      nodes[p[|p| - 1]..]
  }

  /** What a stream of nodes makes the thread publish: a sync node closes the revolution before it, if
      that began with a sync node. `PublishedRevolutions` says what that comes to. */
  function Published(nodes: seq<Node>): seq<seq<Node>> {
    if nodes == [] then []
    else
      var n := |nodes| - 1;
      var front := nodes[..n];
      Published(front) + (if Sync(nodes[n]) && SyncPositions(front) != [] then [Cut(Open(front))] else [])
  }

  lemma SyncPositionsOfMore(nodes: seq<Node>, node: Node)
    ensures SyncPositions(nodes + [node]) == SyncPositions(nodes) + (if Sync(node) then [|nodes|] else [])
  {
    assert (nodes + [node])[..|nodes|] == nodes;
  }

  lemma RevolutionOfMore(nodes: seq<Node>, node: Node, k: nat)
    requires k + 1 < |SyncPositions(nodes)|
    ensures k + 1 < |SyncPositions(nodes + [node])| && Revolution(nodes + [node], k) == Revolution(nodes, k)
  {
    hide Sync, SyncPositions;
    SyncPositionsOfMore(nodes, node);
    SyncPositionsExact(nodes);
    var p := SyncPositions(nodes);
    assert p[k] in p && p[k + 1] in p;
    assert p[k] < p[k + 1];
    assert (nodes + [node])[p[k]..p[k + 1]] == nodes[p[k]..p[k + 1]];
  }

  lemma NoSyncYet()
    ensures SyncPositions([]) == []
  {
  }

  /** The published scans are the revolutions of the stream, each from one sync node up to the next. */
  lemma {:induction false} PublishedRevolutions(nodes: seq<Node>)
    ensures |Published(nodes)| == if SyncPositions(nodes) == [] then 0 else |SyncPositions(nodes)| - 1
    ensures forall k :: 0 <= k < |Published(nodes)| ==> Published(nodes)[k] == Cut(Revolution(nodes, k))
  {
    hide Sync, SyncPositions, Cut, Open, Revolution;
    if nodes == [] {
      NoSyncYet();
    } else {
      var n := |nodes| - 1;
      var front := nodes[..n];
      assert nodes == front + [nodes[n]];
      PublishedRevolutions(front);
      SyncPositionsOfMore(front, nodes[n]);
      forall k | 0 <= k < |Published(nodes)|
        ensures Published(nodes)[k] == Cut(Revolution(nodes, k))
      {
        if k < |Published(front)| {
          RevolutionOfMore(front, nodes[n], k);
        } else {
          OpenIsNext(front, nodes[n]);
        }
      }
    }
  }

  /** The same in numbers: the k-th scan lies between two nodes with the sync bit and none in between,
      and is cut to 2047 nodes. */
  lemma PublishedBetweenSyncBits(nodes: seq<Node>, k: nat)
    requires k < |Published(nodes)|
    ensures k + 1 < |SyncPositions(nodes)|
    ensures var from, to := SyncPositions(nodes)[k], SyncPositions(nodes)[k + 1];
            && from < to < |nodes| && nodes[from].syncQuality % 2 == 1 && nodes[to].syncQuality % 2 == 1
            && (forall i :: from < i < to ==> nodes[i].syncQuality % 2 == 0)
            && Published(nodes)[k] == if to - from <= 2047 then nodes[from..to] else nodes[from..from + 2047]
  {
    hide SyncPositions, Published;
    PublishedRevolutions(nodes);
    SyncPositionsExact(nodes);
    var p := SyncPositions(nodes);
    assert p[k] in p && p[k + 1] in p;
    forall i | p[k] < i < p[k + 1]
      ensures !Sync(nodes[i])
    {
      NoneBetween(p, k, i);
    }
  }

  lemma NoneBetween(p: seq<nat>, k: nat, i: nat)
    requires k + 1 < |p| && forall a, b :: 0 <= a < b < |p| ==> p[a] < p[b]
    requires p[k] < i < p[k + 1]
    ensures i !in p
  {
    forall j | 0 <= j < |p|
      ensures p[j] != i
    {
      assert j < k ==> p[j] < p[k];
      assert j > k + 1 ==> p[k + 1] < p[j];
    }
  }

  /** A sync node makes the open revolution a whole one. */
  lemma OpenIsNext(nodes: seq<Node>, node: Node)
    requires Sync(node) && SyncPositions(nodes) != []
    ensures |SyncPositions(nodes + [node])| == |SyncPositions(nodes)| + 1
    ensures Revolution(nodes + [node], |SyncPositions(nodes)| - 1) == Open(nodes)
  {
    hide Sync, SyncPositions;
    SyncPositionsOfMore(nodes, node);
    SyncPositionsExact(nodes);
    var p := SyncPositions(nodes);
    assert p[|p| - 1] in p;
    assert (nodes + [node])[p[|p| - 1]..|nodes|] == nodes[p[|p| - 1]..];
  }

  lemma PublishedOfMore(nodes: seq<Node>, node: Node)
    ensures Published(nodes + [node])
         == Published(nodes) + (if Sync(node) && SyncPositions(nodes) != [] then [Cut(Open(nodes))] else [])
  {
    hide Sync, SyncPositions, Cut, Open;
    assert (nodes + [node])[..|nodes|] == nodes;
  }

  lemma OpenOfMore(nodes: seq<Node>, node: Node)
    ensures Open(nodes + [node]) == if Sync(node) then [node] else Open(nodes) + [node]
  {
    hide Sync, SyncPositions;
    SyncPositionsOfMore(nodes, node);
    var p := SyncPositions(nodes);
    if !Sync(node) && p != [] {
      var last := p[|p| - 1];
      SyncPositionsExact(nodes);
      assert last in p;
      assert (nodes + [node])[last..] == nodes[last..] + [node];
    }
  }

  /** The open revolution starts with a sync node as soon as there was one. */
  lemma OpenStartsWithSync(nodes: seq<Node>)
    ensures Open(nodes) == [] <==> nodes == []
    ensures nodes != [] ==> (Sync(Open(nodes)[0]) <==> SyncPositions(nodes) != [])
  {
    hide SyncPositions;
    SyncPositionsExact(nodes);
    var p := SyncPositions(nodes);
    if p == [] && nodes != [] {
      assert 0 !in p;
    } else if p != [] {
      assert p[|p| - 1] in p;
    }
  }

  lemma CutOfMore(nodes: seq<Node>, node: Node)
    ensures Cut(nodes + [node]) == if |Cut(nodes)| == MAX_SCAN_NODES - 1 then Cut(nodes) else Cut(nodes) + [node]
  {
    if |nodes| >= MAX_SCAN_NODES {
      assert (nodes + [node])[..MAX_SCAN_NODES - 1] == nodes[..MAX_SCAN_NODES - 1];
    } else if |nodes| == MAX_SCAN_NODES - 1 {
      assert (nodes + [node])[..MAX_SCAN_NODES - 1] == nodes;
    }
  }

  /** Publishing only ever hands on nodes of the stream. */
  lemma PublishedFromStream(nodes: seq<Node>, k: nat)
    requires k < |Published(nodes)|
    ensures forall n :: n in Published(nodes)[k] ==> n in nodes
  {
    hide SyncPositions, Sync, Published;
    PublishedRevolutions(nodes);
    SyncPositionsExact(nodes);
    var p := SyncPositions(nodes);
    assert p[k] in p && p[k + 1] in p;
    var part := nodes[p[k]..p[k + 1]];
    forall n | n in Cut(part)
      ensures n in nodes
    {
      assert n in part;
    }
  }

  class ScanCache {
    const localScan: array<Node>
    var scanCount: nat
    /** The published revolution; it has no nodes once it was taken. */
    var scanNodes: seq<Node>

    /** Every node so far, and every revolution published. */
    ghost var stream: seq<Node>
    ghost var published: seq<seq<Node>>

    constructor ()
      ensures Valid() && fresh(localScan) && stream == [] && published == [] && scanNodes == []
    {
      localScan := new Node[MAX_SCAN_NODES](_ => Node(0, 0, 0));
      scanCount, scanNodes := 0, [];
      stream, published := [], [];
    }

    ghost predicate Valid()
      reads this, localScan
    {
      && localScan.Length == MAX_SCAN_NODES && scanCount < MAX_SCAN_NODES
      && localScan[..scanCount] == Cut(Open(stream))
      && (Sync(localScan[0]) <==> SyncPositions(stream) != [])
      && published == Published(stream)
    }

    method CacheNode(node: Node)
      requires Valid()
      modifies this, localScan
      ensures Valid() && stream == old(stream) + [node]
      ensures scanNodes == if published == old(published) then old(scanNodes) else published[|published| - 1]
    {
      hide Sync, SyncPositions, Published, Open, Cut;
      ghost var nodes := stream;
      stream := stream + [node];
      PublishedOfMore(nodes, node);
      OpenOfMore(nodes, node);
      if Sync(node) {
        if Sync(localScan[0]) {
          scanNodes := localScan[..scanCount];
          published := published + [scanNodes];
        }
        scanCount := 0;
        ShortCut([node]);
      } else {
        CutOfMore(Open(nodes), node);
      }
      SyncPositionsOfMore(nodes, node);
      FirstSlot(nodes);
      localScan[scanCount] := node;
      scanCount := scanCount + 1;
      if scanCount == MAX_SCAN_NODES {
        scanCount := scanCount - 1;
      }
    }

    lemma ShortCut(nodes: seq<Node>)
      requires |nodes| < MAX_SCAN_NODES
      ensures Cut(nodes) == nodes
    {
    }

    lemma FirstSlot(nodes: seq<Node>)
      ensures Cut(Open(nodes)) == [] ==> SyncPositions(nodes) == []
    {
      OpenStartsWithSync(nodes);
    }

    /** The loop over one batch. */
    method CacheBatch(buffer: seq<Node>)
      requires Valid()
      modifies this, localScan
      ensures Valid() && stream == old(stream) + buffer
    {
      hide Valid;
      for pos := 0 to |buffer|
        invariant Valid() && stream == old(stream) + buffer[..pos]
      {
        CacheNode(buffer[pos]);
        assert buffer[..pos] + [buffer[pos]] == buffer[..pos + 1];
      }
      assert buffer[..|buffer|] == buffer;
    }

    /** Hands out the first `count` nodes of the published revolution, once. */
    method Grab(count: nat) returns (ok: bool, nodes: seq<Node>)
      requires Valid()
      modifies this`scanNodes
      ensures Valid() && (ok <==> old(scanNodes) != [])
      ensures ok ==> nodes == old(scanNodes)[..if count < |old(scanNodes)| then count else |old(scanNodes)|]
      ensures ok ==> scanNodes == []
    {
      if scanNodes == [] {
        return false, [];
      }
      ok, nodes := true, scanNodes[..if count < |scanNodes| then count else |scanNodes|];
      scanNodes := [];
    }
  }

  lemma Taken(all: seq<Node>, start: nat, from: nat, batch: seq<Node>, rest: seq<Node>)
    requires start <= from <= |all| && all[from..] == batch + rest
    ensures from + |batch| <= |all| && all[from + |batch|..] == rest
    ensures all[start..from + |batch|] == all[start..from] + batch
  {
    assert all == all[..from] + (batch + rest);
  }

  /** The scan thread for `batches` batches: the first batch is dropped, and the rest of the node stream
      is split, whatever pieces the bytes arrived in. If enough waits find something, it gets through
      exactly if the bytes hold that many nodes. */
  method CacheScanData(driver: YDlidarDriver, batches: nat) returns (ok: bool, cache: ScanCache)
    requires driver.Valid()
    modifies driver, driver.buffer, driver.port
    ensures !ok ==> driver.port.arrivals == []
    ensures old(driver.port.Enough()) ==> (ok <==> 128 * (batches + 1) <= |old(driver.Remaining())|)
    ensures ok ==> driver.Valid() && cache.Valid() && 128 * (batches + 1) <= |old(driver.Remaining())|
    ensures ok ==> cache.published == Published(old(driver.Remaining())[128..128 * (batches + 1)])
  {
    hide YDlidarDriver.Valid, YDlidarDriver.Remaining, Serial.Enough, Published, SyncPositions, Sync, Open, Cut;
    ghost var all, done := driver.Remaining(), BATCH;
    cache := new ScanCache();
    var dropped;
    ok, dropped := driver.WaitScanData(BATCH);
    if !ok {
      return;
    }
    assert all[0..] == all;
    Taken(all, 0, 0, dropped, driver.Remaining());
    assert all[BATCH..BATCH] == [];
    for i := 0 to batches
      invariant driver.Valid() && cache.Valid() && fresh(cache) && fresh(cache.localScan)
      invariant done == BATCH * (i + 1) <= |all| && all[done..] == driver.Remaining()
      invariant ok && cache.stream == all[BATCH..done]
      invariant old(driver.port.Enough()) ==> driver.port.Enough()
    {
      var nodes;
      ok, nodes := driver.WaitScanData(BATCH);
      if !ok {
        return;
      }
      Taken(all, BATCH, done, nodes, driver.Remaining());
      cache.CacheBatch(nodes);
      done := done + BATCH;
    }
  }
}
