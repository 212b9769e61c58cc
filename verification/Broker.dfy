/** The durable request queue: a stream read by one consumer group, its pending entries with
    delivery counts, and a dead-letter stream.  Every command is atomic; what a client does
    between two commands is the protocol's business. */
module Broker {
  import opened Basics

  /** A ride request; `matchAttempts` counts the batches that found it no driver. */
  datatype Request = Request(requestId: string, lat: real, lng: real, matchAttempts: nat)

  /** A stream entry.  `origin` remembers which entry a republished request came from;
      an entry without a request id cannot be decoded. */
  datatype Entry = Good(request: Request, origin: Option<nat>) | Malformed

  datatype DeadRecord = DeadRecord(originalId: nat, requestId: string)

  /** A request as handed to a batch, with the broker's entry id and its delivery count. */
  datatype Message = Message(id: nat, request: Request, deliveries: nat)

  /** Entries are numbered by their position.  `count` keeps each entry's deliveries, also
      after it was acked; the group has been offered the entries before `cursor`. */
  datatype Broker = Broker(stream: seq<Entry>, cursor: nat, pel: set<nat>, count: seq<nat>, dead: seq<DeadRecord>)

  datatype Command = Add(entry: Entry) | AddDead(record: DeadRecord) | Ack(ids: set<nat>)

  /** Commands a client issues in order; a failure abandons the rest. */
  type Operation = seq<Command>

  function Apply(b: Broker, c: Command): Broker
  {
    match c
    case Add(e) => b.(stream := b.stream + [e], count := b.count + [0])
    case AddDead(r) => b.(dead := b.dead + [r])
    case Ack(ids) => b.(pel := b.pel - ids)
  }

  function RunAll(b: Broker, op: Operation): Broker
    decreases |op|
  {
    if op == [] then b else RunAll(Apply(b, op[0]), op[1..])
  }

  ghost predicate Countable(b: Broker)
  {
    |b.count| == |b.stream| && b.cursor <= |b.stream|
  }

  /** Deliveries are counted up for every listed entry. */
  function Counted(count: seq<nat>, ids: seq<nat>): (r: seq<nat>)
    requires forall k :: 0 <= k < |ids| ==> ids[k] < |count|
    ensures |r| == |count|
  {
    if ids == [] then count
    else
      var rest := Counted(count, ids[..|ids| - 1]);
      var id := ids[|ids| - 1];
      rest[id := rest[id] + 1]
  }

  lemma {:induction false} CountedOnce(count: seq<nat>, ids: seq<nat>, id: nat)
    requires (forall k :: 0 <= k < |ids| ==> ids[k] < |count|) && Distinct(ids) && id < |count|
    ensures Counted(count, ids)[id] == count[id] + if id in ids then 1 else 0
  {
    if ids != [] {
      CountedOnce(count, ids[..|ids| - 1], id);
      assert ids == ids[..|ids| - 1] + [ids[|ids| - 1]];
    }
  }

  function Span(from: nat, n: nat): (r: seq<nat>)
    ensures |r| == n && Distinct(r) && forall k :: 0 <= k < n ==> r[k] == from + k
  {
    seq(n, k requires 0 <= k < n => from + k)
  }

  /** XREADGROUP: the next `n` entries, never offered before, become pending. */
  function Read(b: Broker, n: nat): Broker
    requires Countable(b) && b.cursor + n <= |b.stream|
  {
    b.(cursor := b.cursor + n, pel := b.pel + Elements(Span(b.cursor, n)), count := Counted(b.count, Span(b.cursor, n)))
  }

  /** XCLAIM: the listed entries change hands and are counted once more. */
  function Claim(b: Broker, ids: seq<nat>): Broker
    requires Countable(b) && forall k :: 0 <= k < |ids| ==> ids[k] < |b.stream|
  {
    b.(count := Counted(b.count, ids))
  }

  // ---- What clients make of the entries they get ------------------------------------------------

  function DeadLetterOp(m: Message): Operation
  {
    [AddDead(DeadRecord(m.id, m.request.requestId)), Ack({m.id})]
  }

  function MalformedOp(id: nat): Operation
  {
    [AddDead(DeadRecord(id, "")), Ack({id})]
  }

  /** Publish the successor first, ack the original second. */
  function RepublishOp(m: Message): Operation
  {
    [Add(Good(m.request.(matchAttempts := m.request.matchAttempts + 1), Some(m.id))), Ack({m.id})]
  }

  /** Entries that decode and are not poison, with their delivery counts. */
  function HandedOut(b: Broker, ids: seq<nat>, maxDeliveries: nat): seq<Message>
    requires Countable(b) && forall k :: 0 <= k < |ids| ==> ids[k] < |b.stream|
  {
    if ids == [] then []
    else
      var rest := HandedOut(b, ids[..|ids| - 1], maxDeliveries);
      var id := ids[|ids| - 1];
      if b.stream[id].Good? && b.count[id] <= maxDeliveries then
        rest + [Message(id, b.stream[id].request, b.count[id])]
      else rest
  }

  /** The other entries go to the dead-letter stream. */
  function SetAside(b: Broker, ids: seq<nat>, maxDeliveries: nat): seq<Operation>
    requires Countable(b) && forall k :: 0 <= k < |ids| ==> ids[k] < |b.stream|
  {
    if ids == [] then []
    else
      var rest := SetAside(b, ids[..|ids| - 1], maxDeliveries);
      var id := ids[|ids| - 1];
      if b.stream[id].Malformed? then rest + [MalformedOp(id)]
      else if b.count[id] > maxDeliveries then rest + [DeadLetterOp(Message(id, b.stream[id].request, b.count[id]))]
      else rest
  }

  /** What Consume builds from the entries it read: everything is on its first delivery. */
  method SortFresh(b: Broker, ids: seq<nat>, ghost maxDeliveries: nat) returns (out: seq<Message>, aside: seq<Operation>)
    requires Countable(b) && forall k :: 0 <= k < |ids| ==> ids[k] < |b.stream| && b.count[ids[k]] == 1
    requires 1 <= maxDeliveries
    ensures out == HandedOut(b, ids, maxDeliveries) && aside == SetAside(b, ids, maxDeliveries)
  {
    out, aside := [], [];
    for k := 0 to |ids|
      invariant out == HandedOut(b, ids[..k], maxDeliveries) && aside == SetAside(b, ids[..k], maxDeliveries)
    {
      assert ids[..k + 1][..k] == ids[..k];
      var entry := b.stream[ids[k]];
      if entry.Malformed? {
        aside := aside + [MalformedOp(ids[k])];
        continue;
      }
      out := out + [Message(ids[k], entry.request, 1)];
    }
    assert ids[..|ids|] == ids;
  }

  ghost predicate IsPoison(b: Broker, id: nat, maxDeliveries: nat)
    requires Countable(b) && id < |b.stream|
  {
    b.stream[id].Good? && b.count[id] > maxDeliveries
  }

  /** What Reclaim builds from the entries it claimed, given the counts reported before the
      claim: malformed or poisonous entries are set aside.  It gives up at the first poisonous
      entry that cannot be written aside (those in `lost`), and leaves the rest pending. */
  method SortClaimed(b: Broker, ids: seq<nat>, reported: map<nat, nat>, maxDeliveries: nat, lost: set<nat>)
    returns (out: seq<Message>, aside: seq<Operation>, failed: bool, ghost upTo: nat)
    requires Countable(b)
    requires forall k :: 0 <= k < |ids| ==> ids[k] < |b.stream| && ids[k] in reported && b.count[ids[k]] == reported[ids[k]] + 1
    ensures upTo <= |ids| && out == HandedOut(b, ids[..upTo], maxDeliveries) && aside == SetAside(b, ids[..upTo], maxDeliveries)
    ensures forall k :: 0 <= k < upTo && ids[k] in lost && IsPoison(b, ids[k], maxDeliveries) ==> failed && k == upTo - 1
    ensures if failed then 0 < upTo && ids[upTo - 1] in lost && IsPoison(b, ids[upTo - 1], maxDeliveries) else upTo == |ids|
  {
    out, aside, failed, upTo := [], [], false, 0;
    for k := 0 to |ids|
      invariant out == HandedOut(b, ids[..k], maxDeliveries) && aside == SetAside(b, ids[..k], maxDeliveries)
      invariant forall j :: 0 <= j < k ==> !(ids[j] in lost && IsPoison(b, ids[j], maxDeliveries))
    {
      assert ids[..k + 1][..k] == ids[..k];
      var entry := b.stream[ids[k]];
      if entry.Malformed? {
        aside := aside + [MalformedOp(ids[k])];
        continue;
      }
      var m := Message(ids[k], entry.request, reported[ids[k]] + 1);
      if m.deliveries > maxDeliveries {
        aside := aside + [DeadLetterOp(m)];
        if m.id in lost {
          failed, upTo := true, k + 1;
          return;
        }
        continue;
      }
      out := out + [m];
    }
    upTo := |ids|;
    assert ids[..|ids|] == ids;
  }

  // ---- Settling a solved batch ---------------------------------------------------------------------

  ghost predicate Exhausted(m: Message, maxMatchAttempts: nat)
  {
    m.request.matchAttempts + 1 >= maxMatchAttempts
  }

  ghost function UnmatchedOps(msgs: seq<Message>, matched: set<string>, maxMatchAttempts: nat): seq<Operation>
  {
    if msgs == [] then []
    else
      var rest := UnmatchedOps(msgs[..|msgs| - 1], matched, maxMatchAttempts);
      var m := msgs[|msgs| - 1];
      if m.request.requestId in matched then rest
      else if Exhausted(m, maxMatchAttempts) then rest + [DeadLetterOp(m)]
      else rest + [RepublishOp(m)]
  }

  ghost function MatchedIds(msgs: seq<Message>, matched: set<string>): set<nat>
  {
    set m | m in msgs && m.request.requestId in matched :: m.id
  }

  lemma NobodyMatched(matched: set<string>)
    ensures MatchedIds([], matched) == {}
  {
  }

  lemma LastMatched(msgs: seq<Message>, m: Message, matched: set<string>)
    ensures MatchedIds(msgs + [m], matched) == MatchedIds(msgs, matched) + if m.request.requestId in matched then {m.id} else {}
  {
  }

  /** Matched messages are acked together at the end; an unmatched one is dead-lettered when
      its attempts are used up and republished otherwise. */
  ghost function Settlement(msgs: seq<Message>, matched: set<string>, maxMatchAttempts: nat): seq<Operation>
  {
    UnmatchedOps(msgs, matched, maxMatchAttempts)
    + if MatchedIds(msgs, matched) == {} then [] else [[Ack(MatchedIds(msgs, matched))]]
  }

  /** How many riders were written aside for good: their record is not among the `lost`. */
  ghost function ExhaustedCount(msgs: seq<Message>, matched: set<string>, maxMatchAttempts: nat, lost: set<nat>): nat
  {
    if msgs == [] then 0
    else
      var m := msgs[|msgs| - 1];
      ExhaustedCount(msgs[..|msgs| - 1], matched, maxMatchAttempts, lost)
      + if m.request.requestId !in matched && Exhausted(m, maxMatchAttempts) && m.id !in lost then 1 else 0
  }

  /** The riders of these messages who come back for a later window: unmatched, with attempts
      left. */
  ghost function ComingBack(msgs: seq<Message>, matched: set<string>, maxMatchAttempts: nat): (r: set<nat>)
    ensures forall i: nat :: i in r <==>
              i < |msgs| && msgs[i].request.requestId !in matched && msgs[i].request.matchAttempts + 1 < maxMatchAttempts
  {
    set i: nat | i < |msgs| && msgs[i].request.requestId !in matched && msgs[i].request.matchAttempts + 1 < maxMatchAttempts
  }

  /** Those who are out of attempts and whose record is not among the `lost`. */
  ghost function GivenUp(msgs: seq<Message>, matched: set<string>, maxMatchAttempts: nat, lost: set<nat>): (r: set<nat>)
    ensures forall i: nat :: i in r <==>
              && i < |msgs| && msgs[i].request.requestId !in matched && maxMatchAttempts <= msgs[i].request.matchAttempts + 1
              && msgs[i].id !in lost
  {
    set i: nat | i < |msgs| && msgs[i].request.requestId !in matched && maxMatchAttempts <= msgs[i].request.matchAttempts + 1
                 && msgs[i].id !in lost
  }

  lemma {:induction false} GivenUpCounted(msgs: seq<Message>, matched: set<string>, max: nat, lost: set<nat>)
    ensures ExhaustedCount(msgs, matched, max, lost) == |GivenUp(msgs, matched, max, lost)|
  {
    hide GivenUp;
    NobodyYet(matched, max, lost);
    if msgs != [] {
      var init, m := msgs[..|msgs| - 1], msgs[|msgs| - 1];
      GivenUpCounted(init, matched, max, lost);
      GivenUpStep(init, m, matched, max, lost);
      assert msgs == init + [m];
    }
  }

  lemma NobodyYet(matched: set<string>, max: nat, lost: set<nat>)
    ensures GivenUp([], matched, max, lost) == {} && ComingBack([], matched, max) == {}
  {
  }

  lemma GivenUpStep(init: seq<Message>, m: Message, matched: set<string>, max: nat, lost: set<nat>)
    ensures GivenUp(init + [m], matched, max, lost) == GivenUp(init, matched, max, lost)
         + if m.request.requestId !in matched && max <= m.request.matchAttempts + 1 && m.id !in lost then {|init|} else {}
    ensures |init| !in GivenUp(init, matched, max, lost)
  {
  }

  lemma ComingBackStep(init: seq<Message>, m: Message, matched: set<string>, max: nat)
    ensures ComingBack(init + [m], matched, max) == ComingBack(init, matched, max)
         + if m.request.requestId !in matched && m.request.matchAttempts + 1 < max then {|init|} else {}
    ensures |init| !in ComingBack(init, matched, max)
  {
  }

  lemma {:induction false} ComingBackCounted(msgs: seq<Message>, matched: set<string>, max: nat)
    ensures |UnmatchedOps(msgs, matched, max)| == |ComingBack(msgs, matched, max)| + ExhaustedCount(msgs, matched, max, {})
  {
    hide DeadLetterOp, RepublishOp, ComingBack;
    NobodyYet(matched, max, {});
    if msgs != [] {
      var init, m := msgs[..|msgs| - 1], msgs[|msgs| - 1];
      ComingBackCounted(init, matched, max);
      ComingBackStep(init, m, matched, max);
      assert msgs == init + [m];
    }
  }

  method Settle(msgs: seq<Message>, matched: set<string>, maxMatchAttempts: nat, lost: set<nat>)
    returns (ops: seq<Operation>, requeue: nat, exhausted: nat)
    ensures ops == Settlement(msgs, matched, maxMatchAttempts)
    ensures requeue + ExhaustedCount(msgs, matched, maxMatchAttempts, {}) == |UnmatchedOps(msgs, matched, maxMatchAttempts)|
    ensures exhausted == ExhaustedCount(msgs, matched, maxMatchAttempts, lost)
    ensures requeue == |ComingBack(msgs, matched, maxMatchAttempts)| && exhausted == |GivenUp(msgs, matched, maxMatchAttempts, lost)|
  {
    hide DeadLetterOp, RepublishOp, MatchedIds;
    NobodyMatched(matched);
    var ackIds: set<nat> := {};
    ops, requeue, exhausted := [], 0, 0;
    for i := 0 to |msgs|
      invariant ops == UnmatchedOps(msgs[..i], matched, maxMatchAttempts)
      invariant requeue + ExhaustedCount(msgs[..i], matched, maxMatchAttempts, {}) == |ops|
      invariant exhausted == ExhaustedCount(msgs[..i], matched, maxMatchAttempts, lost)
      invariant ackIds == MatchedIds(msgs[..i], matched)
    {
      var m := msgs[i];
      assert msgs[..i + 1] == msgs[..i] + [m];
      assert msgs[..i + 1][..i] == msgs[..i];
      LastMatched(msgs[..i], m, matched);
      if m.request.requestId in matched {
        ackIds := ackIds + {m.id};
        continue;
      }
      if m.request.matchAttempts + 1 >= maxMatchAttempts {
        ops := ops + [DeadLetterOp(m)];
        if m.id in lost {
          continue;
        }
        exhausted := exhausted + 1;
        continue;
      }
      ops := ops + [RepublishOp(m)];
      requeue := requeue + 1;
    }
    assert msgs[..|msgs|] == msgs;
    ComingBackCounted(msgs, matched, maxMatchAttempts);
    GivenUpCounted(msgs, matched, maxMatchAttempts, lost);
    if ackIds != {} {
      ops := ops + [[Ack(ackIds)]];
    }
  }

  /** A batch the engine rejected for good is set aside as a whole. */
  function DeadLetterAll(msgs: seq<Message>): seq<Operation>
  {
    seq(|msgs|, i requires 0 <= i < |msgs| => DeadLetterOp(msgs[i]))
  }
}
