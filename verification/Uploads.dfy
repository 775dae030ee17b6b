/**
 The resumable upload of frontend/src/resumableFileTransfer.ts against an arbitrary environment:
 `reports(k)` is what the k-th wait for acknowledgements observes. Both multi-target modes return
 the chunks they sent and the acknowledgements they accepted, and are specified by them.
 */
module Uploads {
  import opened Options

  /** One agent's acknowledgement. */
  datatype Status = Status(client: string, next: int, size: Option<int>, skipped: bool)

  /** What waiting for a job ends with: a failure or outage, or the status outputs of a completed job. */
  datatype Report = Broken | Completed(outputs: seq<Status>)

  datatype Chunk = Chunk(offset: int, end: int, clients: seq<string>)

  datatype Result = Failed(reason: string) | Committed(offsets: map<string, int>)

  // ---- waiting for acknowledgements --------------------------------------------------------------

  function FindClient(statuses: seq<Status>, client: string): (i: int)
    ensures -1 <= i < |statuses|
    ensures i >= 0 ==> statuses[i].client == client
    ensures i < 0 ==> forall k | 0 <= k < |statuses| :: statuses[k].client != client
  {
    if statuses == [] then -1
    else if statuses[|statuses| - 1].client == client then |statuses| - 1
    else FindClient(statuses[..|statuses| - 1], client)
  }

  predicate DistinctClients(statuses: seq<Status>) {
    forall i, j | 0 <= i < j < |statuses| :: statuses[i].client != statuses[j].client
  }

  predicate OnlyClients(statuses: seq<Status>, expected: seq<string>) {
    forall i | 0 <= i < |statuses| :: statuses[i].client in expected
  }

  /** The latest output of each expected client, in order of first appearance. */
  function Gather(outputs: seq<Status>, expected: seq<string>): (r: seq<Status>)
    ensures DistinctClients(r) && OnlyClients(r, expected)
  {
    if outputs == [] then []
    else
      var front, last := Gather(outputs[..|outputs| - 1], expected), outputs[|outputs| - 1];
      var i := FindClient(front, last.client);
      if last.client !in expected then front else if i >= 0 then front[i := last] else front + [last]
  }

  ghost predicate IsLatestAt(outputs: seq<Status>, s: Status, k: nat) {
    k < |outputs| && outputs[k] == s && forall j | k < j < |outputs| :: outputs[j].client != s.client
  }

  /** The last output of an expected client. */
  ghost predicate IsLatest(outputs: seq<Status>, expected: seq<string>, s: Status) {
    s.client in expected && exists k :: IsLatestAt(outputs, s, k)
  }

  lemma LatestAfter(outputs: seq<Status>, last: Status, expected: seq<string>, s: Status)
    ensures IsLatest(outputs + [last], expected, s) <==>
            if s.client == last.client then s == last && s.client in expected else IsLatest(outputs, expected, s)
  {
    var all, n := outputs + [last], |outputs|;
    if k: nat :| IsLatestAt(all, s, k) {
      assert all[n] == last;
      if k < n {
        assert forall j | k < j < n :: outputs[j] == all[j];
        assert IsLatestAt(outputs, s, k) && s.client != last.client;
      }
    }
    if k: nat :| IsLatestAt(outputs, s, k) {
      assert s.client != last.client ==> IsLatestAt(all, s, k);
    }
    assert s == last ==> IsLatestAt(all, s, n);
  }

  /** Exactly the last output of each expected client is gathered. */
  lemma {:induction false} GatherKeepsLatest(outputs: seq<Status>, expected: seq<string>, s: Status)
    ensures s in Gather(outputs, expected) <==> IsLatest(outputs, expected, s)
  {
    if outputs != [] {
      var n := |outputs| - 1;
      var front, last := Gather(outputs[..n], expected), outputs[n];
      GatherKeepsLatest(outputs[..n], expected, s);
      assert outputs == outputs[..n] + [last];
      LatestAfter(outputs[..n], last, expected, s);
      PutLatest(front, last, s);
    }
  }

  lemma PutLatest(front: seq<Status>, last: Status, s: Status)
    requires DistinctClients(front)
    ensures var i := FindClient(front, last.client);
            s in (if i >= 0 then front[i := last] else front + [last]) <==> if s.client == last.client then s == last else s in front
  {
    var i := FindClient(front, last.client);
    var all := if i >= 0 then front[i := last] else front + [last];
    if i >= 0 {
      assert all[i] == last;
      if s in front && s.client != last.client {
        var k :| 0 <= k < |front| && front[k] == s;
        assert all[k] == s;
      }
    } else {
      assert all[|front|] == last;
    }
  }

  function Await(report: Report, expected: seq<string>): (r: Option<seq<Status>>)
    ensures r.Some? ==> DistinctClients(r.value) && OnlyClients(r.value, expected) && |r.value| == |expected|
  {
    if report.Broken? then None
    else
      var statuses := Gather(report.outputs, expected);
      if |statuses| == |expected| then Some(statuses) else None
  }

  function Clients(statuses: seq<Status>): seq<string> {
    seq(|statuses|, i requires 0 <= i < |statuses| => statuses[i].client)
  }

  lemma {:induction false} DistinctSize(xs: seq<string>)
    requires forall i, j | 0 <= i < j < |xs| :: xs[i] != xs[j]
    ensures |set x | x in xs| == |xs|
  {
    if xs != [] {
      var front, last := xs[..|xs| - 1], xs[|xs| - 1];
      DistinctSize(front);
      assert last !in front;
      assert (set x | x in xs) == (set x | x in front) + {last};
    }
  }

  lemma {:induction false} AtMostLength(xs: seq<string>)
    ensures |set x | x in xs| <= |xs|
  {
    if xs != [] {
      var front, last := xs[..|xs| - 1], xs[|xs| - 1];
      AtMostLength(front);
      assert (set x | x in xs) == (set x | x in front) + {last};
    }
  }

  lemma {:induction false} EqualByCount<T>(a: set<T>, b: set<T>)
    requires a <= b && |b| <= |a|
    ensures a == b
  {
    if a != {} {
      var x :| x in a;
      EqualByCount(a - {x}, b - {x});
    }
  }

  /** An accepted wait has exactly one acknowledgement from every expected client. */
  lemma AwaitCovers(report: Report, expected: seq<string>, client: string)
    requires Await(report, expected).Some?
    ensures client in expected <==> client in Clients(Await(report, expected).value)
  {
    var clients := Clients(Await(report, expected).value);
    var a, b := set x | x in clients, set x | x in expected;
    DistinctSize(clients);
    AtMostLength(expected);
    assert a <= b;
    EqualByCount(a, b);
    assert client in clients <==> client in a;
  }

  // ---- checks on one wait -------------------------------------------------------------------------

  predicate StatusFits(s: Status, size: int) {
    0 <= s.next <= size && (s.size.None? || s.size.value == size)
  }

  predicate AllFit(statuses: seq<Status>, size: int) {
    forall i | 0 <= i < |statuses| :: StatusFits(statuses[i], size)
  }

  predicate Uniform(statuses: seq<Status>) {
    forall i | 0 <= i < |statuses| :: statuses[i].next == statuses[0].next
  }

  method UniformNextOffset(statuses: seq<Status>, size: int) returns (next: Option<int>)
    ensures next.Some? <==> statuses != [] && AllFit(statuses, size) && Uniform(statuses)
    ensures next.Some? ==> next.value == statuses[0].next
  {
    if statuses == [] || statuses[0].next < 0 || statuses[0].next > size {
      return None;
    }
    var k := 0;
    while k < |statuses|
      invariant 0 <= k <= |statuses|
      invariant forall i | 0 <= i < k :: StatusFits(statuses[i], size) && statuses[i].next == statuses[0].next
    {
      if statuses[k].next != statuses[0].next || (statuses[k].size.Some? && statuses[k].size.value != size) {
        return None;
      }
      k := k + 1;
    }
    next := Some(statuses[0].next);
  }

  /** The map holds exactly the acknowledged offsets. */
  ghost predicate IsOffsetMap(offsets: map<string, int>, statuses: seq<Status>) {
    && (forall i | 0 <= i < |statuses| :: statuses[i].client in offsets && offsets[statuses[i].client] == statuses[i].next)
    && (forall c | c in offsets :: c in Clients(statuses))
  }

  method TargetOffsetsFromStatuses(statuses: seq<Status>, size: int) returns (offsets: Option<map<string, int>>)
    requires DistinctClients(statuses)
    ensures offsets.Some? <==> AllFit(statuses, size)
    ensures offsets.Some? ==> IsOffsetMap(offsets.value, statuses)
  {
    var found: map<string, int> := map[];
    var k := 0;
    while k < |statuses|
      invariant 0 <= k <= |statuses| && AllFit(statuses[..k], size)
      invariant IsOffsetMap(found, statuses[..k])
    {
      var s := statuses[k];
      if s.next < 0 || s.next > size || (s.size.Some? && s.size.value != size) {
        assert !StatusFits(statuses[k], size);
        return None;
      }
      found := found[s.client := s.next];
      assert statuses[..k + 1] == statuses[..k] + [s];
      assert Clients(statuses[..k + 1]) == Clients(statuses[..k]) + [s.client];
      k := k + 1;
    }
    assert statuses[..k] == statuses;
    offsets := Some(found);
  }

  predicate HasAll(offsets: map<string, int>, clients: seq<string>) {
    forall c | c in clients :: c in offsets
  }

  predicate AllAt(offsets: map<string, int>, size: int) {
    forall c | c in offsets :: offsets[c] == size
  }

  function ActiveStatuses(statuses: seq<Status>): seq<Status> {
    if statuses == [] then []
    else (if statuses[0].skipped then [] else [statuses[0]]) + ActiveStatuses(statuses[1..])
  }

  // ---- what a run has sent and heard ---------------------------------------------------------------

  /** The offset that a client acknowledged last. */
  function LastAck(replies: seq<seq<Status>>, client: string): Option<int> {
    if replies == [] then None
    else
      var last := replies[|replies| - 1];
      var i := FindClient(last, client);
      if i >= 0 then Some(last[i].next) else LastAck(replies[..|replies| - 1], client)
  }

  /** Whom the k-th wait expects: all clients at the start, then the receivers of the chunk just sent. */
  function Expected(clientIds: seq<string>, log: seq<Chunk>, k: nat): seq<string>
    requires k <= |log|
  {
    if k == 0 then clientIds else log[k - 1].clients
  }

  /** The accepted acknowledgements are those the environment reported, one wait per chunk. */
  ghost predicate Heard(reports: nat -> Report, clientIds: seq<string>, log: seq<Chunk>, replies: seq<seq<Status>>) {
    && |log| <= |replies| <= |log| + 1
    && forall k: nat | k < |replies| :: Await(reports(k), Expected(clientIds, log, k)) == Some(replies[k])
  }

  function ChunkEnd(offset: int, size: int, chunkSize: int): int {
    if offset + chunkSize < size then offset + chunkSize else size
  }

  /** A chunk carries the next bytes of the file and starts where each of its receivers last acknowledged. */
  ghost predicate StartsAtAcks(chunk: Chunk, replies: seq<seq<Status>>, size: int, chunkSize: int) {
    && 0 <= chunk.offset < size && chunk.end == ChunkEnd(chunk.offset, size, chunkSize)
    && forall c | c in chunk.clients :: LastAck(replies, c) == Some(chunk.offset)
  }

  /** Every acknowledgement lies inside the file and lies beyond the chunk's start. */
  ghost predicate Rises(chunk: Chunk, reply: seq<Status>, size: int) {
    forall i | 0 <= i < |reply| :: chunk.offset < reply[i].next <= size
  }

  ghost predicate Sound(size: int, chunkSize: int, log: seq<Chunk>, replies: seq<seq<Status>>) {
    && |log| <= |replies|
    && (forall k: nat | k < |log| :: StartsAtAcks(log[k], replies[..k + 1], size, chunkSize))
    && (forall k: nat | k < |log| && k + 1 < |replies| :: Rises(log[k], replies[k + 1], size))
  }

  lemma LastAckAfter(replies: seq<seq<Status>>, reply: seq<Status>, offsets: map<string, int>, client: string)
    requires IsOffsetMap(offsets, reply)
    ensures LastAck(replies + [reply], client) ==
            if client in offsets then Some(offsets[client]) else LastAck(replies, client)
  {
    assert (replies + [reply])[..|replies|] == replies;
    if client in offsets {
      var i :| 0 <= i < |reply| && Clients(reply)[i] == client;
    }
  }

  /** The map holds every client's last acknowledged offset, inside the file. */
  ghost predicate Tracks(offsets: map<string, int>, replies: seq<seq<Status>>, size: int) {
    forall c | c in offsets :: 0 <= offsets[c] <= size && LastAck(replies, c) == Some(offsets[c])
  }

  lemma TracksAfter(offsets: map<string, int>, replies: seq<seq<Status>>, size: int, reply: seq<Status>, acked: map<string, int>)
    requires Tracks(offsets, replies, size) && IsOffsetMap(acked, reply) && AllFit(reply, size)
    ensures Tracks(offsets + acked, replies + [reply], size)
  {
    forall c | c in offsets + acked
      ensures 0 <= (offsets + acked)[c] <= size && LastAck(replies + [reply], c) == Some((offsets + acked)[c])
    {
      LastAckAfter(replies, reply, acked, c);
      if c in acked {
        var i :| 0 <= i < |reply| && Clients(reply)[i] == c;
        assert StatusFits(reply[i], size);
      }
    }
  }

  /** Sending one more chunk keeps the record sound. */
  lemma SendKeepsSound(size: int, chunkSize: int, log: seq<Chunk>, replies: seq<seq<Status>>, chunk: Chunk)
    requires Sound(size, chunkSize, log, replies) && |replies| == |log| + 1 && StartsAtAcks(chunk, replies, size, chunkSize)
    ensures Sound(size, chunkSize, log + [chunk], replies)
  {
    assert replies[..|log| + 1] == replies;
  }

  /** Hearing its acknowledgements keeps the record sound. */
  lemma HearKeepsSound(size: int, chunkSize: int, log: seq<Chunk>, replies: seq<seq<Status>>, reply: seq<Status>)
    requires Sound(size, chunkSize, log, replies) && |replies| == |log| > 0 && Rises(log[|log| - 1], reply, size)
    ensures Sound(size, chunkSize, log, replies + [reply])
  {
    forall k: nat | k < |log|
      ensures StartsAtAcks(log[k], (replies + [reply])[..k + 1], size, chunkSize)
    {
      assert (replies + [reply])[..k + 1] == replies[..k + 1];
    }
  }

  lemma SendKeepsHeard(reports: nat -> Report, clientIds: seq<string>, log: seq<Chunk>, replies: seq<seq<Status>>, chunk: Chunk)
    requires Heard(reports, clientIds, log, replies) && |replies| == |log| + 1
    ensures Heard(reports, clientIds, log + [chunk], replies)
  {
    assert forall k: nat | k < |replies| :: Expected(clientIds, log + [chunk], k) == Expected(clientIds, log, k);
  }

  lemma HearKeepsHeard(reports: nat -> Report, clientIds: seq<string>, log: seq<Chunk>, replies: seq<seq<Status>>, reply: seq<Status>)
    requires Heard(reports, clientIds, log, replies) && |replies| == |log| > 0
    requires Await(reports(|replies|), log[|log| - 1].clients) == Some(reply)
    ensures Heard(reports, clientIds, log, replies + [reply])
  {
  }

  /** A run between two chunks: all that was sent has been acknowledged and is tracked. */
  ghost predicate Settled(reports: nat -> Report, clientIds: seq<string>, size: int, chunkSize: int,
                          log: seq<Chunk>, replies: seq<seq<Status>>, offsets: map<string, int>) {
    Heard(reports, clientIds, log, replies) && Sound(size, chunkSize, log, replies) && |replies| == |log| + 1 && Tracks(offsets, replies, size)
  }

  /** The receivers all answer, inside the file and beyond the chunk's start, with one offset if that is asked. */
  ghost predicate ChunkAccepted(report: Report, chunk: Chunk, size: int, uniform: bool) {
    var reply := Await(report, chunk.clients);
    && reply.Some? && AllFit(reply.value, size) && (uniform ==> Uniform(reply.value))
    && forall i | 0 <= i < |reply.value| :: chunk.offset < reply.value[i].next
  }

  /** The run stopped at a chunk whose wait was not acceptable. */
  ghost predicate Stopped(reports: nat -> Report, size: int, uniform: bool, log: seq<Chunk>, replies: seq<seq<Status>>) {
    |replies| == |log| > 0 && !ChunkAccepted(reports(|log|), log[|log| - 1], size, uniform)
  }

  /** Sends one chunk and waits for its acknowledgements. */
  method Exchange(reports: nat -> Report, clientIds: seq<string>, size: int, chunkSize: int,
                  log: seq<Chunk>, replies: seq<seq<Status>>, offset: int, clients: seq<string>)
    returns (log': seq<Chunk>, reply: Option<seq<Status>>)
    requires Heard(reports, clientIds, log, replies) && Sound(size, chunkSize, log, replies) && |replies| == |log| + 1
    requires 0 <= offset < size && 1 <= chunkSize
    requires forall c | c in clients :: LastAck(replies, c) == Some(offset)
    ensures |log'| == |log| + 1 && log' == log + [log'[|log|]] && log'[|log|].offset == offset && log'[|log|].clients == clients
    ensures Heard(reports, clientIds, log', replies) && Sound(size, chunkSize, log', replies)
    ensures reply == Await(reports(|replies|), clients)
  {
    var chunk := Chunk(offset, ChunkEnd(offset, size, chunkSize), clients);
    SendKeepsSound(size, chunkSize, log, replies, chunk);
    SendKeepsHeard(reports, clientIds, log, replies, chunk);
    log' := log + [chunk];
    reply := Await(reports(|replies|), clients);
  }

  /** The acknowledged offsets of an accepted wait are those of exactly the expected clients. */
  lemma AckedByClients(report: Report, clients: seq<string>, reply: seq<Status>, acked: map<string, int>)
    requires Await(report, clients) == Some(reply) && IsOffsetMap(acked, reply)
    ensures forall c :: c in acked <==> c in clients
    ensures forall c | c in acked :: exists i | 0 <= i < |reply| :: reply[i].client == c && reply[i].next == acked[c]
  {
    forall c
      ensures c in acked <==> c in clients
      ensures c in acked ==> exists i | 0 <= i < |reply| :: reply[i].client == c && reply[i].next == acked[c]
    {
      AwaitCovers(report, clients, c);
      if c in Clients(reply) {
        var i :| 0 <= i < |reply| && Clients(reply)[i] == c;
        assert reply[i].client == c && reply[i].next == acked[c];
      }
    }
  }

  /** Acknowledgements that all make progress settle the chunk that was just sent. */
  lemma SettleChunk(reports: nat -> Report, clientIds: seq<string>, size: int, chunkSize: int, log: seq<Chunk>, replies: seq<seq<Status>>,
                    offsets: map<string, int>, reply: seq<Status>, acked: map<string, int>)
    requires Heard(reports, clientIds, log, replies) && Sound(size, chunkSize, log, replies) && |replies| == |log| > 0
    requires Tracks(offsets, replies, size)
    requires Await(reports(|replies|), log[|log| - 1].clients) == Some(reply)
    requires IsOffsetMap(acked, reply) && AllFit(reply, size)
    requires forall i | 0 <= i < |reply| :: log[|log| - 1].offset < reply[i].next
    ensures Settled(reports, clientIds, size, chunkSize, log, replies + [reply], offsets + acked)
  {
    TracksAfter(offsets, replies, size, reply, acked);
    assert forall i | 0 <= i < |reply| :: StatusFits(reply[i], size);
    HearKeepsSound(size, chunkSize, log, replies, reply);
    HearKeepsHeard(reports, clientIds, log, replies, reply);
  }

  // ---- the same-offset mode -------------------------------------------------------------------------

  ghost predicate AllActiveAt(offsets: map<string, int>, active: seq<string>, offset: int) {
    forall c | c in active :: c in offsets && offsets[c] == offset
  }

  ghost predicate OthersKept(before: map<string, int>, after: map<string, int>, active: seq<string>) {
    forall c | c in before && c !in active :: c in after && after[c] == before[c]
  }

  /** Uniform acknowledgements of the active clients move them all to the common offset. */
  lemma UniformAcks(report: Report, active: seq<string>, reply: seq<Status>, offsets: map<string, int>, acked: map<string, int>)
    requires Await(report, active) == Some(reply) && IsOffsetMap(acked, reply) && Uniform(reply) && reply != []
    requires forall c | c in active :: c in offsets
    ensures AllActiveAt(offsets + acked, active, reply[0].next) && (offsets + acked).Keys == offsets.Keys
    ensures OthersKept(offsets, offsets + acked, active)
  {
    AckedByClients(report, active, reply, acked);
    assert acked.Keys <= offsets.Keys;
  }

  /** One round of the same-offset mode; without progress it gives up. */
  method RoundTogether(reports: nat -> Report, clientIds: seq<string>, size: int, chunkSize: int, active: seq<string>,
                       nextOffset: int, log: seq<Chunk>, replies: seq<seq<Status>>, offsets: map<string, int>)
    returns (next: Option<int>, log': seq<Chunk>, replies': seq<seq<Status>>, offsets': map<string, int>)
    requires 1 <= chunkSize && 0 <= nextOffset < size && active != []
    requires Settled(reports, clientIds, size, chunkSize, log, replies, offsets) && AllActiveAt(offsets, active, nextOffset)
    ensures Heard(reports, clientIds, log', replies') && Sound(size, chunkSize, log', replies')
    ensures |log'| == |log| + 1 && log' == log + [log'[|log|]] && log'[|log|].clients == active
    ensures next.Some? ==>
              && nextOffset < next.value <= size && Settled(reports, clientIds, size, chunkSize, log', replies', offsets')
              && AllActiveAt(offsets', active, next.value) && offsets'.Keys == offsets.Keys && OthersKept(offsets, offsets', active)
    ensures next.None? ==> Stopped(reports, size, true, log', replies')
  {
    next, replies', offsets' := None, replies, offsets;
    var reply;
    log', reply := Exchange(reports, clientIds, size, chunkSize, log, replies, nextOffset, active);
    if reply.None? {
      return;
    }
    var acknowledged := UniformNextOffset(reply.value, size);
    if acknowledged.None? || acknowledged.value <= nextOffset {
      return;
    }
    var acked := TargetOffsetsFromStatuses(reply.value, size);
    if acked.None? {
      return;
    }
    UniformAcks(reports(|replies|), active, reply.value, offsets, acked.value);
    SettleChunk(reports, clientIds, size, chunkSize, log', replies, offsets, reply.value, acked.value);
    assert StatusFits(reply.value[0], size);
    next, replies', offsets' := acknowledged, replies + [reply.value], offsets + acked.value;
  }

  /** Sends chunks to all active clients at one common offset until the file is through. */
  method SendTogether(reports: nat -> Report, clientIds: seq<string>, size: int, chunkSize: int, active: seq<string>,
                      start: int, startReplies: seq<seq<Status>>, startOffsets: map<string, int>)
    returns (ok: bool, log: seq<Chunk>, replies: seq<seq<Status>>, offsets: map<string, int>)
    requires 1 <= chunkSize && 0 <= start <= size && active != []
    requires Settled(reports, clientIds, size, chunkSize, [], startReplies, startOffsets)
    requires AllActiveAt(startOffsets, active, start)
    ensures Heard(reports, clientIds, log, replies) && Sound(size, chunkSize, log, replies)
    ensures ok ==> Settled(reports, clientIds, size, chunkSize, log, replies, offsets)
    ensures ok ==> offsets.Keys == startOffsets.Keys && AllActiveAt(offsets, active, size) && OthersKept(startOffsets, offsets, active)
    ensures !ok ==> Stopped(reports, size, true, log, replies)
    ensures forall k | 0 <= k < |log| :: log[k].clients == active
  {
    ok, log, replies, offsets := false, [], startReplies, startOffsets;
    var nextOffset := start;
    while nextOffset < size
      invariant 0 <= nextOffset <= size && Settled(reports, clientIds, size, chunkSize, log, replies, offsets)
      invariant offsets.Keys == startOffsets.Keys && AllActiveAt(offsets, active, nextOffset) && OthersKept(startOffsets, offsets, active)
      invariant forall k | 0 <= k < |log| :: log[k].clients == active
      decreases size - nextOffset
    {
      var next;
      next, log, replies, offsets := RoundTogether(reports, clientIds, size, chunkSize, active, nextOffset, log, replies, offsets);
      if next.None? {
        return;
      }
      nextOffset := next.value;
    }
    ok := true;
  }

  // ---- the independent-offsets mode -------------------------------------------------------------------

  datatype Group = Group(offset: int, clients: seq<string>)

  /** `order` lists the clients of the offset map in the order the map is walked. */
  ghost predicate Lists(order: seq<string>, offsets: map<string, int>) {
    forall c :: c in offsets <==> c in order
  }

  method MinimumTargetOffset(order: seq<string>, offsets: map<string, int>) returns (min: int)
    requires order != [] && Lists(order, offsets)
    ensures (exists c | c in offsets :: offsets[c] == min) && forall c | c in offsets :: min <= offsets[c]
  {
    min := offsets[order[0]];
    var k := 1;
    while k < |order|
      invariant 1 <= k <= |order|
      invariant exists i | 0 <= i < k :: offsets[order[i]] == min
      invariant forall i | 0 <= i < k :: min <= offsets[order[i]]
    {
      if offsets[order[k]] < min {
        min := offsets[order[k]];
      }
      k := k + 1;
    }
  }

  /** Each unfinished client is in the group of its own offset, and the groups ascend. */
  ghost predicate IsGrouping(groups: seq<Group>, offsets: map<string, int>, size: int) {
    && (forall i | 0 <= i < |groups| :: GroupFits(groups[i], offsets, size))
    && (forall i, j | 0 <= i < j < |groups| :: groups[i].offset < groups[j].offset)
    && (forall c | c in offsets && offsets[c] < size :: exists i | 0 <= i < |groups| :: c in groups[i].clients)
  }

  ghost predicate GroupFits(group: Group, offsets: map<string, int>, size: int) {
    group.offset < size && group.clients != [] && forall c | c in group.clients :: c in offsets && offsets[c] == group.offset
  }

  ghost predicate Placed(groups: seq<Group>, client: string, offset: int) {
    exists i | 0 <= i < |groups| :: groups[i].offset == offset && client in groups[i].clients
  }

  ghost predicate Ordered(groups: seq<Group>) {
    && (forall i, j | 0 <= i < j < |groups| :: groups[i].offset < groups[j].offset)
    && (forall i | 0 <= i < |groups| :: groups[i].clients != [])
  }

  /** Adds a client to the group of its offset; a new group goes to its place in the ascending order. */
  function AddTarget(groups: seq<Group>, client: string, offset: int): (r: seq<Group>)
    requires Ordered(groups)
    ensures Ordered(r) && r != []
    ensures r[0].offset == if groups != [] && groups[0].offset < offset then groups[0].offset else offset
  {
    if groups == [] || offset < groups[0].offset then [Group(offset, [client])] + groups
    else if offset == groups[0].offset then [Group(offset, groups[0].clients + [client])] + groups[1..]
    else [groups[0]] + AddTarget(groups[1..], client, offset)
  }

  lemma PlacedInCons(g: Group, rest: seq<Group>, c: string, o: int)
    ensures Placed([g] + rest, c, o) <==> (g.offset == o && c in g.clients) || Placed(rest, c, o)
  {
    var groups := [g] + rest;
    if g.offset == o && c in g.clients {
      assert groups[0] == g;
    }
    if i :| 0 <= i < |rest| && rest[i].offset == o && c in rest[i].clients {
      assert groups[i + 1] == rest[i];
    }
  }

  lemma {:induction false} AddTargetPlaces(groups: seq<Group>, client: string, offset: int, c: string, o: int)
    requires Ordered(groups)
    ensures Placed(AddTarget(groups, client, offset), c, o) <==> (c == client && o == offset) || Placed(groups, c, o)
  {
    if groups == [] || offset < groups[0].offset {
      PlacedInCons(Group(offset, [client]), groups, c, o);
    } else {
      PlacedInCons(groups[0], groups[1..], c, o);
      assert groups == [groups[0]] + groups[1..];
      if offset == groups[0].offset {
        PlacedInCons(Group(offset, groups[0].clients + [client]), groups[1..], c, o);
      } else {
        AddTargetPlaces(groups[1..], client, offset, c, o);
        PlacedInCons(groups[0], AddTarget(groups[1..], client, offset), c, o);
      }
    }
  }

  /** The unfinished clients among the first `k` listed are placed at their offsets, and nobody else is. */
  ghost predicate Collected(groups: seq<Group>, order: seq<string>, k: nat, offsets: map<string, int>, size: int)
    requires k <= |order|
  {
    forall c, o :: Placed(groups, c, o) <==> c in order[..k] && c in offsets && offsets[c] == o && o < size
  }

  lemma CollectedIsGrouping(groups: seq<Group>, order: seq<string>, offsets: map<string, int>, size: int)
    requires Lists(order, offsets) && Ordered(groups) && Collected(groups, order, |order|, offsets, size)
    ensures IsGrouping(groups, offsets, size)
  {
    assert order[..|order|] == order;
    forall i | 0 <= i < |groups|
      ensures GroupFits(groups[i], offsets, size)
    {
      assert groups[i].clients[0] in groups[i].clients;
      assert forall c | c in groups[i].clients :: Placed(groups, c, groups[i].offset);
    }
    forall c | c in offsets && offsets[c] < size
      ensures exists i | 0 <= i < |groups| :: c in groups[i].clients
    {
      assert Placed(groups, c, offsets[c]);
    }
  }

  method TargetsGroupedByOffset(order: seq<string>, offsets: map<string, int>, size: int) returns (groups: seq<Group>)
    requires Lists(order, offsets)
    ensures IsGrouping(groups, offsets, size)
  {
    groups := [];
    var k := 0;
    while k < |order|
      invariant 0 <= k <= |order| && Ordered(groups) && Collected(groups, order, k, offsets, size)
    {
      var client := order[k];
      var offset := offsets[client];
      assert order[..k + 1] == order[..k] + [client];
      if offset < size {
        forall c, o
          ensures Placed(AddTarget(groups, client, offset), c, o) <==> (c == client && o == offset) || Placed(groups, c, o)
        {
          AddTargetPlaces(groups, client, offset, c, o);
        }
        groups := AddTarget(groups, client, offset);
      }
      k := k + 1;
    }
    CollectedIsGrouping(groups, order, offsets, size);
  }

  /** The bytes that the listed clients have not acknowledged yet. */
  ghost function Remaining(order: seq<string>, offsets: map<string, int>, size: int): int
    requires forall i | 0 <= i < |order| :: order[i] in offsets
  {
    if order == [] then 0
    else Remaining(order[..|order| - 1], offsets, size) + size - offsets[order[|order| - 1]]
  }

  lemma {:induction false} RemainingFalls(order: seq<string>, a: map<string, int>, b: map<string, int>, size: int)
    requires forall i | 0 <= i < |order| :: order[i] in a && order[i] in b && a[order[i]] <= b[order[i]] <= size
    ensures 0 <= Remaining(order, b, size) <= Remaining(order, a, size)
    ensures (exists i | 0 <= i < |order| :: a[order[i]] < b[order[i]]) ==> Remaining(order, b, size) < Remaining(order, a, size)
  {
    if order != [] {
      RemainingFalls(order[..|order| - 1], a, b, size);
      if exists i | 0 <= i < |order| :: a[order[i]] < b[order[i]] {
        var i :| 0 <= i < |order| && a[order[i]] < b[order[i]];
        assert i < |order| - 1 ==> a[order[..|order| - 1][i]] < b[order[..|order| - 1][i]];
      }
    }
  }

  /** Every client of the group acknowledged an offset beyond the group's. */
  predicate AllBeyond(acked: map<string, int>, group: Group) {
    forall c | c in group.clients :: c in acked && acked[c] > group.offset
  }

  /** Sends one chunk to one group; without progress by every receiver it gives up. */
  method ServeGroup(reports: nat -> Report, clientIds: seq<string>, size: int, chunkSize: int, group: Group,
                    log: seq<Chunk>, replies: seq<seq<Status>>, offsets: map<string, int>)
    returns (acked: Option<map<string, int>>, log': seq<Chunk>, replies': seq<seq<Status>>)
    requires 1 <= chunkSize && Settled(reports, clientIds, size, chunkSize, log, replies, offsets) && GroupFits(group, offsets, size)
    ensures Heard(reports, clientIds, log', replies') && Sound(size, chunkSize, log', replies')
    ensures acked.Some? ==>
              && Settled(reports, clientIds, size, chunkSize, log', replies', offsets + acked.value)
              && AllBeyond(acked.value, group) && forall c :: c in acked.value <==> c in group.clients
    ensures acked.None? ==> Stopped(reports, size, false, log', replies')
  {
    acked, replies' := None, replies;
    var reply;
    assert 0 <= group.offset by {
      assert group.clients[0] in group.clients;
    }
    log', reply := Exchange(reports, clientIds, size, chunkSize, log, replies, group.offset, group.clients);
    if reply.None? {
      return;
    }
    var found := TargetOffsetsFromStatuses(reply.value, size);
    if found.None? {
      return;
    }
    AckedByClients(reports(|replies|), group.clients, reply.value, found.value);
    if !AllBeyond(found.value, group) {
      return;
    }
    SettleChunk(reports, clientIds, size, chunkSize, log', replies, offsets, reply.value, found.value);
    acked, replies' := found, replies + [reply.value];
  }

  /** Where a round over the groups stands after serving the first `done` of them. */
  ghost predicate RoundAt(groups: seq<Group>, done: nat, before: map<string, int>, now: map<string, int>) {
    && now.Keys == before.Keys
    && (forall c | c in before :: before[c] <= now[c])
    && (forall i, c | 0 <= i < done && i < |groups| && c in groups[i].clients :: c in before && before[c] < now[c])
    && (forall i, c | done <= i < |groups| && c in groups[i].clients :: c in before && now[c] == before[c])
  }

  lemma RoundStep(groups: seq<Group>, done: nat, before: map<string, int>, now: map<string, int>, acked: map<string, int>, size: int)
    requires IsGrouping(groups, before, size) && done < |groups| && RoundAt(groups, done, before, now)
    requires AllBeyond(acked, groups[done]) && forall c :: c in acked <==> c in groups[done].clients
    ensures RoundAt(groups, done + 1, before, now + acked)
  {
    var next := now + acked;
    assert GroupFits(groups[done], before, size);
    assert acked.Keys <= now.Keys;
    forall c | c in before
      ensures before[c] <= next[c]
    {
      assert c in acked ==> before[c] == groups[done].offset < acked[c];
    }
    forall i, c | 0 <= i < done + 1 && c in groups[i].clients
      ensures c in before && before[c] < next[c]
    {
      assert GroupFits(groups[i], before, size);
      assert i < done ==> c !in acked;
    }
    forall i, c | done + 1 <= i < |groups| && c in groups[i].clients
      ensures c in before && next[c] == before[c]
    {
      assert GroupFits(groups[i], before, size);
      assert c !in acked;
    }
  }

  /** One pass over the groups of the current offsets. */
  method RoundApart(reports: nat -> Report, clientIds: seq<string>, size: int, chunkSize: int, groups: seq<Group>,
                    log: seq<Chunk>, replies: seq<seq<Status>>, offsets: map<string, int>)
    returns (ok: bool, log': seq<Chunk>, replies': seq<seq<Status>>, offsets': map<string, int>)
    requires 1 <= chunkSize && Settled(reports, clientIds, size, chunkSize, log, replies, offsets) && IsGrouping(groups, offsets, size)
    ensures Heard(reports, clientIds, log', replies') && Sound(size, chunkSize, log', replies')
    ensures ok ==> Settled(reports, clientIds, size, chunkSize, log', replies', offsets') && RoundAt(groups, |groups|, offsets, offsets')
    ensures !ok ==> Stopped(reports, size, false, log', replies')
  {
    ok, log', replies', offsets' := false, log, replies, offsets;
    var g := 0;
    while g < |groups|
      invariant 0 <= g <= |groups|
      invariant Settled(reports, clientIds, size, chunkSize, log', replies', offsets') && RoundAt(groups, g, offsets, offsets')
    {
      assert GroupFits(groups[g], offsets, size);
      assert GroupFits(groups[g], offsets', size);
      var acked;
      acked, log', replies' := ServeGroup(reports, clientIds, size, chunkSize, groups[g], log', replies', offsets');
      if acked.None? {
        return;
      }
      RoundStep(groups, g, offsets, offsets', acked.value, size);
      offsets' := offsets' + acked.value;
      g := g + 1;
    }
    ok := true;
  }

  /** A full round over a non-empty grouping acknowledges at least one byte. */
  lemma RoundProgress(order: seq<string>, groups: seq<Group>, before: map<string, int>, now: map<string, int>, size: int, slow: string)
    requires Lists(order, before) && IsGrouping(groups, before, size) && RoundAt(groups, |groups|, before, now)
    requires slow in before && before[slow] < size && forall c | c in now :: now[c] <= size
    ensures Lists(order, now) && 0 <= Remaining(order, now, size) < Remaining(order, before, size)
  {
    var i :| 0 <= i < |groups| && slow in groups[i].clients;
    var k :| 0 <= k < |order| && order[k] == slow;
    assert before[order[k]] < now[order[k]];
    RemainingFalls(order, before, now, size);
  }

  /** Sends chunks to groups of clients, each at its own offset, until every client is through. */
  method SendApart(reports: nat -> Report, clientIds: seq<string>, size: int, chunkSize: int, order: seq<string>,
                   startReplies: seq<seq<Status>>, startOffsets: map<string, int>)
    returns (ok: bool, log: seq<Chunk>, replies: seq<seq<Status>>, offsets: map<string, int>)
    requires 1 <= chunkSize && order != [] && Lists(order, startOffsets)
    requires Settled(reports, clientIds, size, chunkSize, [], startReplies, startOffsets)
    ensures Heard(reports, clientIds, log, replies) && Sound(size, chunkSize, log, replies)
    ensures ok ==> Settled(reports, clientIds, size, chunkSize, log, replies, offsets)
    ensures ok ==> offsets.Keys == startOffsets.Keys && AllAt(offsets, size)
    ensures !ok ==> Stopped(reports, size, false, log, replies)
  {
    ok, log, replies, offsets := false, [], startReplies, startOffsets;
    var lowest := MinimumTargetOffset(order, offsets);
    while lowest < size
      invariant Settled(reports, clientIds, size, chunkSize, log, replies, offsets) && Lists(order, offsets)
      invariant offsets.Keys == startOffsets.Keys
      invariant (exists c | c in offsets :: offsets[c] == lowest) && forall c | c in offsets :: lowest <= offsets[c]
      decreases Remaining(order, offsets, size)
    {
      var groups := TargetsGroupedByOffset(order, offsets, size);
      ghost var slow :| slow in offsets && offsets[slow] == lowest;
      ghost var before := offsets;
      var served;
      served, log, replies, offsets := RoundApart(reports, clientIds, size, chunkSize, groups, log, replies, offsets);
      if !served {
        return;
      }
      RoundProgress(order, groups, before, offsets, size, slow);
      lowest := MinimumTargetOffset(order, offsets);
    }
    ok := true;
  }

  // ---- the whole upload ---------------------------------------------------------------------------------

  /** The start wait is answered by all clients, inside the file. A client that needs no upload is
      at the end already unless chunks will bring it there. */
  ghost predicate StartAccepted(report: Report, clientIds: seq<string>, size: int, sameOffset: bool) {
    var reply := Await(report, clientIds);
    && reply.Some? && AllFit(reply.value, size)
    && (sameOffset ==> Uniform(ActiveStatuses(reply.value)))
    && (sameOffset || ActiveStatuses(reply.value) == [] ==> SkippedAtEnd(reply.value, size))
  }

  ghost predicate SkippedAtEnd(statuses: seq<Status>, size: int) {
    forall i | 0 <= i < |statuses| && statuses[i].skipped :: statuses[i].next == size
  }

  ghost predicate CommitAccepted(report: Report, active: seq<string>, size: int) {
    var reply := Await(report, active);
    reply.Some? && AllFit(reply.value, size) && forall i | 0 <= i < |reply.value| :: reply.value[i].next == size
  }

  ghost predicate OthersAt(offsets: map<string, int>, active: seq<string>, size: int) {
    forall c | c in offsets && c !in active :: offsets[c] == size
  }

  lemma MergedAtEnd(reply: seq<Status>, size: int, active: seq<string>, offsets: map<string, int>, acked: map<string, int>)
    requires IsOffsetMap(acked, reply) && forall c :: c in acked <==> c in active
    ensures AllAt(offsets + acked, size) <==> (forall i | 0 <= i < |reply| :: reply[i].next == size) && OthersAt(offsets, active, size)
  {
    var merged := offsets + acked;
    if AllAt(merged, size) {
      forall i | 0 <= i < |reply|
        ensures reply[i].next == size
      {
        assert merged[reply[i].client] == acked[reply[i].client];
      }
      forall c | c in offsets && c !in active
        ensures offsets[c] == size
      {
        assert merged[c] == offsets[c];
      }
    } else {
      var c :| c in merged && merged[c] != size;
      if c in acked {
        var i :| 0 <= i < |reply| && Clients(reply)[i] == c;
        assert reply[i].next == merged[c];
      } else {
        assert c in offsets && merged[c] == offsets[c];
      }
    }
  }

  /** The final wait: the active clients confirm, and every client must be at the end of the file. */
  method Commit(reports: nat -> Report, k: nat, clientIds: seq<string>, size: int, active: seq<string>,
                sameOffset: bool, offsets: map<string, int>)
    returns (result: Result)
    requires active != [] && HasAll(offsets, clientIds) && HasAll(offsets, active)
    ensures result.Committed? ==> HasAll(result.offsets, clientIds) && AllAt(result.offsets, size)
    ensures result.Committed? <==> CommitAccepted(reports(k), active, size) && OthersAt(offsets, active, size)
  {
    var reply := Await(reports(k), active);
    if reply.None? {
      return Failed("upload commit was not acknowledged");
    }
    var acked := TargetOffsetsFromStatuses(reply.value, size);
    if acked.None? {
      return Failed("upload commit has an invalid offset");
    }
    AckedByClients(reports(k), active, reply.value, acked.value);
    var merged := offsets + acked.value;
    MergedAtEnd(reply.value, size, active, offsets, acked.value);
    if sameOffset {
      var committed := UniformNextOffset(reply.value, size);
      if committed != Some(size) {
        return Failed("upload commit is incomplete");
      }
    }
    if !HasAll(merged, clientIds) || !AllAt(merged, size) {
      return Failed("upload commit expected all targets at the end");
    }
    result := Committed(merged);
  }

  lemma {:induction false} ActiveAreListed(statuses: seq<Status>, s: Status)
    ensures s in ActiveStatuses(statuses) <==> s in statuses && !s.skipped
  {
    if statuses != [] {
      ActiveAreListed(statuses[1..], s);
      assert statuses == [statuses[0]] + statuses[1..];
    }
  }

  lemma ActiveClient(statuses: seq<Status>, c: string)
    ensures c in Clients(ActiveStatuses(statuses)) <==> exists i | 0 <= i < |statuses| :: statuses[i].client == c && !statuses[i].skipped
  {
    var active := ActiveStatuses(statuses);
    if c in Clients(active) {
      var i :| 0 <= i < |active| && Clients(active)[i] == c;
      ActiveAreListed(statuses, active[i]);
    }
    if i :| 0 <= i < |statuses| && statuses[i].client == c && !statuses[i].skipped {
      ActiveAreListed(statuses, statuses[i]);
      var j :| 0 <= j < |active| && active[j] == statuses[i];
      assert Clients(active)[j] == c;
    }
  }

  /** What the start's offset map says about the clients that take part and about the others. */
  lemma ActiveOffsets(statuses: seq<Status>, size: int, offsets: map<string, int>)
    requires DistinctClients(statuses) && IsOffsetMap(offsets, statuses)
    ensures HasAll(offsets, Clients(ActiveStatuses(statuses)))
    ensures OthersAt(offsets, Clients(ActiveStatuses(statuses)), size) <==> SkippedAtEnd(statuses, size)
    ensures Uniform(ActiveStatuses(statuses)) && ActiveStatuses(statuses) != [] ==>
              AllActiveAt(offsets, Clients(ActiveStatuses(statuses)), ActiveStatuses(statuses)[0].next)
  {
    var active := ActiveStatuses(statuses);
    forall c | c in offsets
      ensures exists i | 0 <= i < |statuses| :: statuses[i].client == c
    {
      var i :| 0 <= i < |statuses| && Clients(statuses)[i] == c;
      assert statuses[i].client == c;
    }
    forall i | 0 <= i < |statuses|
      ensures statuses[i].skipped <==> statuses[i].client !in Clients(active)
    {
      ActiveClient(statuses, statuses[i].client);
    }
    forall c | c in Clients(active)
      ensures c in offsets && (Uniform(active) ==> offsets[c] == active[0].next)
    {
      var i :| 0 <= i < |active| && Clients(active)[i] == c;
      ActiveAreListed(statuses, active[i]);
    }
  }

  /** Sends the whole file in the chosen mode. */
  method SendAll(reports: nat -> Report, clientIds: seq<string>, size: int, chunkSize: int, sameOffset: bool,
                 start: seq<Status>, startOffsets: map<string, int>)
    returns (ok: bool, log: seq<Chunk>, replies: seq<seq<Status>>, offsets: map<string, int>)
    requires 1 <= chunkSize && Settled(reports, clientIds, size, chunkSize, [], [start], startOffsets)
    requires DistinctClients(start) && AllFit(start, size) && IsOffsetMap(startOffsets, start) && ActiveStatuses(start) != []
    ensures Heard(reports, clientIds, log, replies) && Sound(size, chunkSize, log, replies)
    ensures ok ==> |replies| == |log| + 1 && replies[0] == start && offsets.Keys == startOffsets.Keys
    ensures ok && sameOffset ==> OthersKept(startOffsets, offsets, Clients(ActiveStatuses(start)))
    ensures ok && !sameOffset ==> AllAt(offsets, size)
    ensures ok && sameOffset ==> Uniform(ActiveStatuses(start))
    ensures !ok ==> Stopped(reports, size, sameOffset, log, replies) || (sameOffset && log == [] && replies == [start] && !Uniform(ActiveStatuses(start)))
  {
    ok, log, replies, offsets := false, [], [start], startOffsets;
    var active := ActiveStatuses(start);
    ActiveOffsets(start, size, startOffsets);
    ActiveAreListed(start, active[0]);
    if sameOffset {
      var next := UniformNextOffset(active, size);
      forall i | 0 <= i < |active|
        ensures StatusFits(active[i], size)
      {
        ActiveAreListed(start, active[i]);
      }
      if next.None? {
        return;
      }
      ok, log, replies, offsets := SendTogether(reports, clientIds, size, chunkSize, Clients(active), next.value, replies, offsets);
    } else {
      ok, log, replies, offsets := SendApart(reports, clientIds, size, chunkSize, Clients(start), replies, offsets);
    }
    assert Await(reports(0), Expected(clientIds, [], 0)) == Some(start);
    assert ok ==> Await(reports(0), Expected(clientIds, log, 0)) == Some(replies[0]);
  }

  /** All waits were answered acceptably: the start, every chunk sent, and the commit if anybody was active. */
  ghost predicate Verdict(reports: nat -> Report, clientIds: seq<string>, size: int, sameOffset: bool,
                          log: seq<Chunk>, replies: seq<seq<Status>>) {
    && StartAccepted(reports(0), clientIds, size, sameOffset)
    && |replies| == |log| + 1
    && (var active := ActiveStatuses(replies[0]);
        active == [] || CommitAccepted(reports(|replies|), Clients(active), size))
  }

  method SendAndCommit(reports: nat -> Report, clientIds: seq<string>, size: int, chunkSize: int, sameOffset: bool,
                       start: seq<Status>, startOffsets: map<string, int>)
    returns (result: Result, log: seq<Chunk>, replies: seq<seq<Status>>)
    requires 1 <= chunkSize && Settled(reports, clientIds, size, chunkSize, [], [start], startOffsets)
    requires DistinctClients(start) && AllFit(start, size) && IsOffsetMap(startOffsets, start) && ActiveStatuses(start) != []
    requires HasAll(startOffsets, clientIds) && Await(reports(0), clientIds) == Some(start)
    ensures Heard(reports, clientIds, log, replies) && Sound(size, chunkSize, log, replies)
    ensures result.Committed? ==> HasAll(result.offsets, clientIds) && AllAt(result.offsets, size)
    ensures result.Committed? <==> Verdict(reports, clientIds, size, sameOffset, log, replies)
    ensures |replies| == |log| ==> Stopped(reports, size, sameOffset, log, replies)
  {
    var ok, offsets;
    ok, log, replies, offsets := SendAll(reports, clientIds, size, chunkSize, sameOffset, start, startOffsets);
    if !ok {
      return Failed("upload made no progress"), log, replies;
    }
    ActiveOffsets(start, size, startOffsets);
    var active := Clients(ActiveStatuses(start));
    assert sameOffset ==> (OthersAt(offsets, active, size) <==> OthersAt(startOffsets, active, size));
    result := Commit(reports, |replies|, clientIds, size, active, sameOffset, offsets);
  }

  /** An accepted start wait settles the run before the first chunk. */
  lemma StartSettles(reports: nat -> Report, clientIds: seq<string>, size: int, chunkSize: int, start: seq<Status>, offsets: map<string, int>)
    requires Await(reports(0), clientIds) == Some(start) && AllFit(start, size) && IsOffsetMap(offsets, start)
    ensures Settled(reports, clientIds, size, chunkSize, [], [start], offsets) && HasAll(offsets, clientIds)
    ensures ActiveStatuses(start) == [] ==> (AllAt(offsets, size) <==> SkippedAtEnd(start, size))
  {
    AckedByClients(reports(0), clientIds, start, offsets);
    TracksAfter(map[], [], size, start, offsets);
    assert map[] + offsets == offsets && [] + [start] == [start];
    ActiveOffsets(start, size, offsets);
  }

  /** Against any environment: every chunk starts where its receivers last acknowledged, acknowledged
      offsets stay inside the file and rise with every chunk, the upload ends, and it succeeds exactly
      when all its waits were answered acceptably; then every requested client is at the end of the file. */
  method RunUpload(reports: nat -> Report, clientIds: seq<string>, size: int, chunkSize: int, sameOffset: bool)
    returns (result: Result, log: seq<Chunk>, replies: seq<seq<Status>>)
    requires 0 <= size && 1 <= chunkSize
    ensures Heard(reports, clientIds, log, replies) && Sound(size, chunkSize, log, replies)
    ensures result.Committed? ==> HasAll(result.offsets, clientIds) && AllAt(result.offsets, size)
    ensures result.Committed? <==> Verdict(reports, clientIds, size, sameOffset, log, replies)
    ensures |replies| == |log| > 0 ==> Stopped(reports, size, sameOffset, log, replies)
  {
    result, log, replies := Failed("upload start was not acknowledged"), [], [];
    var start := Await(reports(0), clientIds);
    if start.None? {
      return;
    }
    replies := [start.value];
    var found := TargetOffsetsFromStatuses(start.value, size);
    if found.None? {
      return;
    }
    var offsets := found.value;
    StartSettles(reports, clientIds, size, chunkSize, start.value, offsets);
    if ActiveStatuses(start.value) == [] {
      if AllAt(offsets, size) {
        result := Committed(offsets);
      }
      return;
    }
    result, log, replies := SendAndCommit(reports, clientIds, size, chunkSize, sameOffset, start.value, offsets);
  }
}
