/** One batch through a batcher: candidate drivers, the engine's verdict, and settling every
    message. */
module Batcher {
  import opened Basics
  import opened Broker
  import opened BatcherProtocol
  import MS = MatchingService
  import BO = BatchOutcome
  import opened MatchingNetwork

  datatype DriverLocation = DriverLocation(id: string, lat: real, lng: real)

  /** What came back from the engine: matches by rider id, a status, or no answer in time. */
  datatype EngineReply = Answered(matched: seq<string>) | Refused(status: MS.Status) | NoAnswer

  /** Could the same batch succeed later?  An unanswered one could; a refused one could not. */
  predicate Retryable(reply: EngineReply)
  {
    match reply
    case Refused(InvalidArgument) => false
    case Refused(FailedPrecondition) => false
    case Refused(ResourceExhausted) => false
    case Refused(Cancelled) => false
    case _ => true
  }

  ghost function Listed(nearby: seq<seq<DriverLocation>>): seq<DriverLocation>
  {
    if nearby == [] then [] else Listed(nearby[..|nearby| - 1]) + nearby[|nearby| - 1]
  }

  ghost predicate IsLast(listed: seq<DriverLocation>, p: nat)
    requires p < |listed|
  {
    forall q :: p < q < |listed| ==> listed[q].id != listed[p].id
  }

  /** Exactly the listed drivers, each once, at the position listed last. */
  ghost predicate IsDriverSet(listed: seq<DriverLocation>, drivers: map<string, DriverLocation>)
  {
    && (forall p :: 0 <= p < |listed| ==> listed[p].id in drivers)
    && forall id :: id in drivers ==> exists p: nat :: p < |listed| && listed[p].id == id && drivers[id] == listed[p] && IsLast(listed, p)
  }

  lemma DriverListed(listed: seq<DriverLocation>, d: DriverLocation, drivers: map<string, DriverLocation>)
    requires IsDriverSet(listed, drivers)
    ensures IsDriverSet(listed + [d], drivers[d.id := d])
  {
    var more, after := listed + [d], drivers[d.id := d];
    assert IsLast(more, |listed|);
    forall id | id in after
      ensures exists p: nat :: p < |more| && more[p].id == id && after[id] == more[p] && IsLast(more, p)
    {
      if id == d.id {
        assert more[|listed|] == d;
      } else {
        var p: nat :| p < |listed| && listed[p].id == id && drivers[id] == listed[p] && IsLast(listed, p);
        assert more[p] == listed[p] && IsLast(more, p);
      }
    }
  }

  method CollectDrivers(nearby: seq<seq<DriverLocation>>) returns (drivers: map<string, DriverLocation>)
    ensures IsDriverSet(Listed(nearby), drivers)
  {
    hide IsDriverSet;
    drivers := map[];
    NoneListed();
    for i := 0 to |nearby|
      invariant IsDriverSet(Listed(nearby[..i]), drivers)
    {
      assert nearby[i][..0] == [];
      assert Listed(nearby[..i]) + [] == Listed(nearby[..i]);
      for k := 0 to |nearby[i]|
        invariant IsDriverSet(Listed(nearby[..i]) + nearby[i][..k], drivers)
      {
        DriverListed(Listed(nearby[..i]) + nearby[i][..k], nearby[i][k], drivers);
        assert Listed(nearby[..i]) + nearby[i][..k] + [nearby[i][k]] == Listed(nearby[..i]) + nearby[i][..k + 1];
        drivers := drivers[nearby[i][k].id := nearby[i][k]];
      }
      assert nearby[i][..|nearby[i]|] == nearby[i];
      assert nearby[..i + 1][..i] == nearby[..i];
    }
    assert nearby[..|nearby|] == nearby;
  }

  lemma NoneListed()
    ensures IsDriverSet([], map[])
  {
  }

  method DeadLetterEach(msgs: seq<Message>) returns (ops: seq<Operation>)
    ensures ops == DeadLetterAll(msgs) && GivesEachUp(msgs, ops)
  {
    ops := [];
    for i := 0 to |msgs|
      invariant |ops| == i && forall k :: 0 <= k < i ==> ops[k] == DeadLetterOp(msgs[k])
    {
      ops := ops + [DeadLetterOp(msgs[i])];
    }
  }

  class Batcher {
    const cfg: Config
    var batches: nat
    var requests: nat
    var matched: nat
    var unmatched: nat
    var requeued: nat
    var exhausted: nat
    var deadLettered: nat
    var solveErrors: nat

    constructor (cfg: Config)
      ensures this.cfg == cfg && batches == requests == matched == unmatched == 0
      ensures requeued == exhausted == deadLettered == solveErrors == 0
    {
      this.cfg := cfg;
      batches, requests, matched, unmatched := 0, 0, 0, 0;
      requeued, exhausted, deadLettered, solveErrors := 0, 0, 0, 0;
    }

    /** Decides the fate of every message of the batch.  `nearby` is the driver lookup, if it
        succeeded, `reply` what the engine says, should it be asked, and `lost` the messages
        whose dead-letter record cannot be written. */
    method ProcessBatch(msgs: seq<Message>, nearby: Option<seq<seq<DriverLocation>>>, reply: EngineReply, lost: set<nat>)
      returns (verdict: Verdict, todo: seq<Operation>)
      requires reply.Refused? ==> !reply.status.Ok?
      modifies this
      ensures msgs == [] ==> todo == [] && unchanged(this)
      ensures msgs != [] ==>
                && verdict == VerdictOf(nearby, reply)
                && todo == AfterVerdict(cfg, Worker(map[], msgs, []), verdict).todo
                && batches == old(batches) + 1 && requests == old(requests) + |msgs|
                && solveErrors == old(solveErrors) + (if verdict.EngineUnavailable? || verdict.EngineRejected? then 1 else 0)
                && deadLettered == old(deadLettered) + (if verdict.EngineRejected? then |msgs| else 0)
      ensures msgs != [] && verdict.Solved? ==>
                var gone := ExhaustedCount(msgs, verdict.matched, cfg.maxMatchAttempts, lost);
                var again := |UnmatchedOps(msgs, verdict.matched, cfg.maxMatchAttempts)|
                             - ExhaustedCount(msgs, verdict.matched, cfg.maxMatchAttempts, {});
                && matched == old(matched) + |verdict.matched| && unmatched == old(unmatched) + again + gone
                && exhausted == old(exhausted) + gone && requeued == old(requeued) + again
      ensures msgs != [] && !verdict.Solved? ==>
                && matched == old(matched) && unmatched == old(unmatched) && exhausted == old(exhausted)
                && requeued == old(requeued) + (if verdict.EngineRejected? then 0 else |msgs|)
      // The same, outcome by outcome.
      ensures msgs != [] && nearby.None? ==> verdict == LookupFailed && todo == []
      ensures msgs != [] && nearby.Some? && !SomebodyNearby(nearby.value) ==> verdict == NoDrivers && todo == []
      ensures msgs != [] && nearby.Some? && SomebodyNearby(nearby.value) ==>
                && (reply == NoAnswer ==>
                      verdict == EngineUnavailable && todo == [] && deadLettered == old(deadLettered)
                      && requeued == old(requeued) + |msgs|)
                && (reply.Refused? <==> verdict == EngineRejected)
                && (reply.Refused? ==>
                      GivesEachUp(msgs, todo) && deadLettered == old(deadLettered) + |msgs| && requeued == old(requeued))
                && (reply.Answered? ==>
                      var ids := set id | id in reply.matched;
                      && verdict == Solved(ids) && deadLettered == old(deadLettered) && matched == old(matched) + |ids|
                      && requeued == old(requeued) + |ComingBack(msgs, ids, cfg.maxMatchAttempts)|
                      && exhausted == old(exhausted) + |GivenUp(msgs, ids, cfg.maxMatchAttempts, lost)|)
    {
      hide UnmatchedOps, ExhaustedCount, IsDriverSet, NobodyNearby, SomebodyNearby, MatchedIds, DeadLetterAll, Settlement, Listed,
        GivesEachUp, ComingBack, GivenUp;
      verdict, todo := LookupFailed, [];
      if msgs == [] {
        return;
      }
      batches := batches + 1;
      requests := requests + |msgs|;
      if nearby.None? {
        requeued := requeued + |msgs|;
        return;
      }
      SomebodyOrNobody(nearby.value);
      var drivers := CollectDrivers(nearby.value);
      NoDriversMeansEmpty(nearby.value, drivers);
      if drivers == map[] {
        requeued := requeued + |msgs|;
        verdict := NoDrivers;
        return;
      }
      if !reply.Answered? {
        solveErrors := solveErrors + 1;
        if Retryable(reply) {
          requeued := requeued + |msgs|;
          verdict := EngineUnavailable;
        } else {
          todo := DeadLetterEach(msgs);
          deadLettered := deadLettered + |msgs|;
          verdict := EngineRejected;
        }
        return;
      }
      var matchedRequests := Elements(reply.matched);
      verdict := Solved(matchedRequests);
      var requeue, spent;
      todo, requeue, spent := Settle(msgs, matchedRequests, cfg.maxMatchAttempts, lost);
      matched := matched + |matchedRequests|;
      unmatched := unmatched + requeue + spent;
      requeued := requeued + requeue;
      exhausted := exhausted + spent;
    }
  }

  ghost predicate SomebodyNearby(nearby: seq<seq<DriverLocation>>)
  {
    exists i, d :: 0 <= i < |nearby| && d in nearby[i]
  }

  /** One operation for each message: its record first, then its ack. */
  ghost predicate GivesEachUp(msgs: seq<Message>, todo: seq<Operation>)
  {
    && |todo| == |msgs|
    && forall i :: 0 <= i < |msgs| ==> todo[i] == [AddDead(DeadRecord(msgs[i].id, msgs[i].request.requestId)), Ack({msgs[i].id})]
  }

  lemma SomebodyOrNobody(nearby: seq<seq<DriverLocation>>)
    ensures SomebodyNearby(nearby) <==> !NobodyNearby(nearby)
  {
    if !NobodyNearby(nearby) {
      var i :| 0 <= i < |nearby| && nearby[i] != [];
      assert nearby[i][0] in nearby[i];
    }
  }

  ghost predicate NobodyNearby(nearby: seq<seq<DriverLocation>>)
  {
    forall i :: 0 <= i < |nearby| ==> nearby[i] == []
  }

  ghost function VerdictOf(nearby: Option<seq<seq<DriverLocation>>>, reply: EngineReply): Verdict
  {
    if nearby.None? then LookupFailed
    else if NobodyNearby(nearby.value) then NoDrivers
    else if reply.Answered? then Solved(Elements(reply.matched))
    else if Retryable(reply) then EngineUnavailable
    else EngineRejected
  }

  lemma NoDriversMeansEmpty(nearby: seq<seq<DriverLocation>>, drivers: map<string, DriverLocation>)
    requires IsDriverSet(Listed(nearby), drivers)
    ensures drivers == map[] <==> NobodyNearby(nearby)
  {
    hide IsDriverSet, Listed, NobodyNearby;
    ListedNone(nearby);
    EmptyDriverSet(Listed(nearby), drivers);
  }

  lemma EmptyDriverSet(listed: seq<DriverLocation>, drivers: map<string, DriverLocation>)
    requires IsDriverSet(listed, drivers)
    ensures drivers == map[] <==> listed == []
  {
    if listed != [] {
      assert listed[0].id in drivers;
    }
    if drivers != map[] {
      var id :| id in drivers;
      var p: nat :| p < |listed| && listed[p].id == id;
    }
  }

  lemma {:induction false} ListedNone(nearby: seq<seq<DriverLocation>>)
    ensures Listed(nearby) == [] <==> NobodyNearby(nearby)
  {
    if nearby != [] {
      var init, last := nearby[..|nearby| - 1], nearby[|nearby| - 1];
      ListedNone(init);
      assert NobodyNearby(nearby) <==> NobodyNearby(init) && last == [] by {
        assert nearby == init + [last];
      }
    }
  }

  // ---- The batching loop ----------------------------------------------------------------------------

  /** What one pass of the loop finds: shutdown, the timer, or a consume that returned (perhaps
      early, perhaps with the window over) or failed. */
  datatype Event = Cancelled | TimerFired | Consumed(waiting: seq<Message>, windowOver: bool) | ConsumeFailed

  datatype FlushReason = Timer | Full | Shutdown

  datatype Flush = Flush(msgs: seq<Message>, reason: FlushReason)

  ghost function Joined(batches: seq<Flush>): seq<Message>
  {
    if batches == [] then [] else Joined(batches[..|batches| - 1]) + batches[|batches| - 1].msgs
  }

  ghost function Flat(taken: seq<seq<Message>>): seq<Message>
  {
    if taken == [] then [] else Flat(taken[..|taken| - 1]) + taken[|taken| - 1]
  }

  /** The window is over: the timer says so, or a consume that came back in time to notice. */
  predicate IsDue(e: Event)
  {
    e.TimerFired? || (e.Consumed? && e.windowOver)
  }

  function Least(m: nat, n: nat): nat
  {
    if m < n then m else n
  }

  /** `held[k]` is what is pending before pass `k`, `taken[k]` what that pass takes from the
      queue: a prefix of what waits, as long as the room in the batch allows. */
  ghost predicate IsTaken(events: seq<Event>, maxBatchSize: nat, held: seq<seq<Message>>, taken: seq<seq<Message>>)
  {
    && |taken| <= |events| && |held| == |taken| + 1
    && forall k :: 0 <= k < |taken| ==>
         && |held[k]| <= maxBatchSize
         && if events[k].Consumed? then
              taken[k] <= events[k].waiting && |taken[k]| == Least(|events[k].waiting|, maxBatchSize - |held[k]|)
            else taken[k] == []
  }

  /** The batches flushed in the passes before `k`. */
  ghost function FlushedBefore(batches: seq<Flush>, at: seq<nat>, k: nat): seq<Flush>
    requires |at| == |batches|
  {
    if batches == [] then []
    else
      FlushedBefore(batches[..|batches| - 1], at[..|at| - 1], k) + if at[|at| - 1] < k then [batches[|batches| - 1]] else []
  }

  /** Nothing appears or vanishes: what was taken before a pass is what was flushed before it
      and what is still held. */
  ghost predicate IsAccounted(batches: seq<Flush>, at: seq<nat>, held: seq<seq<Message>>, taken: seq<seq<Message>>)
    requires |held| == |taken| + 1
  {
    && |at| == |batches|
    && forall k :: 0 <= k <= |taken| ==> Joined(FlushedBefore(batches, at, k)) + held[k] == Flat(taken[..k])
  }

  /** What was held and what was taken go out together in a pass that gives this reason, and
      leave nothing behind. */
  ghost predicate GoesOut(e: Event, maxBatchSize: nat, b: Flush, before: seq<Message>, got: seq<Message>, after: seq<Message>)
  {
    && b.msgs == before + got != [] && after == []
    && match b.reason
       case Timer => IsDue(e) && |b.msgs| < maxBatchSize
       case Shutdown => e.Cancelled?
       case Full => e.Consumed? && |b.msgs| == maxBatchSize
  }

  /** One batch a pass, in order. */
  ghost predicate IsScheduled(at: seq<nat>, passes: nat)
  {
    && (forall b :: 0 <= b < |at| ==> at[b] < passes)
    && (forall b, c :: 0 <= b < c < |at| ==> at[b] < at[c])
  }

  /** A pass after which nothing is left of something sends a batch out. */
  ghost predicate IsPrompt(at: seq<nat>, held: seq<seq<Message>>, taken: seq<seq<Message>>)
    requires |held| == |taken| + 1
  {
    forall k: nat :: k < |taken| && held[k + 1] == [] && held[k] + taken[k] != [] ==> k in at
  }

  /** Batch `b` goes out in pass `at[b]`. */
  ghost predicate IsTimely(events: seq<Event>, maxBatchSize: nat, batches: seq<Flush>, at: seq<nat>,
                           held: seq<seq<Message>>, taken: seq<seq<Message>>)
    requires |taken| <= |events| && |held| == |taken| + 1
  {
    && |at| == |batches| && IsScheduled(at, |taken|) && IsPrompt(at, held, taken)
    && forall b :: 0 <= b < |at| ==>
         GoesOut(events[at[b]], maxBatchSize, batches[b], held[at[b]], taken[at[b]], held[at[b] + 1])
  }

  /** A pass in which the window is over or shutdown is noticed leaves nothing behind, and so
      does one that fills the batch; any other pass just adds what it took. */
  ghost predicate IsDrained(events: seq<Event>, maxBatchSize: nat, held: seq<seq<Message>>, taken: seq<seq<Message>>)
    requires |taken| <= |events| && |held| == |taken| + 1
  {
    forall k :: 0 <= k < |taken| ==>
      held[k + 1] == if IsDue(events[k]) || events[k].Cancelled? || |held[k] + taken[k]| == maxBatchSize then []
                     else held[k] + taken[k]
  }

  ghost predicate GoodFlush(b: Flush, maxBatchSize: nat)
  {
    1 <= |b.msgs| <= maxBatchSize && (b.reason == Full <==> |b.msgs| == maxBatchSize)
  }

  lemma JoinedSnoc(batches: seq<Flush>, b: Flush)
    ensures Joined(batches + [b]) == Joined(batches) + b.msgs
  {
    assert (batches + [b])[..|batches|] == batches;
  }

  lemma FlatSnoc(taken: seq<seq<Message>>, t: seq<Message>)
    ensures Flat(taken + [t]) == Flat(taken) + t
  {
    assert (taken + [t])[..|taken|] == taken;
  }

  /** Every message taken from the queue goes into exactly one batch, in the order taken and as
      soon as the window is over or the batch is full; no batch is empty or too large, and
      shutdown leaves nothing behind. */
  method Run(events: seq<Event>, maxBatchSize: nat)
    returns (batches: seq<Flush>, pending: seq<Message>, stopped: bool, ghost at: seq<nat>, ghost held: seq<seq<Message>>,
             ghost taken: seq<seq<Message>>)
    requires 1 <= maxBatchSize
    ensures IsTaken(events, maxBatchSize, held, taken) && (|taken| == |events| || stopped)
    ensures held[0] == [] && held[|taken|] == pending
    ensures Joined(batches) + pending == Flat(taken)
    ensures IsAccounted(batches, at, held, taken)
    ensures IsTimely(events, maxBatchSize, batches, at, held, taken)
    ensures IsDrained(events, maxBatchSize, held, taken)
    ensures forall b :: b in batches ==> GoodFlush(b, maxBatchSize)
    ensures |pending| < maxBatchSize && (stopped ==> pending == [])
    ensures stopped <==> exists k :: 0 <= k < |events| && events[k].Cancelled?
    ensures !stopped && events != [] && IsDue(events[|events| - 1]) ==> pending == []
  {
    hide Joined, Flat, IsTaken, IsAccounted, IsTimely, IsDrained, GoodFlush, FlushedBefore;
    batches, pending, stopped, at, held, taken := [], [], false, [], [[]], [];
    NothingYetFlushed(events, maxBatchSize);
    for i := 0 to |events|
      invariant !stopped && |taken| == i && |held| == i + 1 && held[0] == [] && held[i] == pending && |pending| < maxBatchSize
      invariant Batching(events, maxBatchSize, batches, at, held, taken)
      invariant forall k :: 0 <= k < i ==> !events[k].Cancelled?
      invariant i > 0 && IsDue(events[i - 1]) ==> pending == []
    {
      ghost var before := pending;
      ghost var got: seq<Message> := [];
      var flushed: seq<Flush> := [];
      match events[i] {
        case Cancelled =>
          if |pending| > 0 {
            flushed := [Flush(pending, Shutdown)];
            pending := [];
          }
          stopped := true;
        case TimerFired =>
          if |pending| > 0 {
            flushed := [Flush(pending, Timer)];
            pending := [];
          }
        case ConsumeFailed =>
        case Consumed(waiting, windowOver) =>
          var room := maxBatchSize - |pending|;
          var msgs := if |waiting| <= room then waiting else waiting[..room];
          got := msgs;
          pending := pending + msgs;
          if |pending| >= maxBatchSize {
            flushed := [Flush(pending, Full)];
            pending := [];
          } else if |pending| > 0 && windowOver {
            flushed := [Flush(pending, Timer)];
            pending := [];
          }
      }
      assert before + [] == before;
      PassDone(events, maxBatchSize, batches, at, held, taken, flushed, got, pending);
      batches := batches + flushed;
      at := at + seq(|flushed|, _ => i);
      taken := taken + [got];
      held := held + [pending];
      if stopped {
        RunDone(events, maxBatchSize, batches, at, held, taken);
        return;
      }
    }
    RunDone(events, maxBatchSize, batches, at, held, taken);
  }

  /** What holds between two passes. */
  ghost predicate Batching(events: seq<Event>, maxBatchSize: nat, batches: seq<Flush>, at: seq<nat>,
                           held: seq<seq<Message>>, taken: seq<seq<Message>>)
  {
    && IsTaken(events, maxBatchSize, held, taken)
    && IsAccounted(batches, at, held, taken)
    && IsTimely(events, maxBatchSize, batches, at, held, taken)
    && IsDrained(events, maxBatchSize, held, taken)
    && forall b :: b in batches ==> GoodFlush(b, maxBatchSize)
  }

  lemma NothingYetFlushed(events: seq<Event>, maxBatchSize: nat)
    ensures Batching(events, maxBatchSize, [], [], [[]], [])
  {
  }

  function ReasonOf(e: Event): FlushReason
  {
    if e.Cancelled? then Shutdown else Timer
  }

  /** What one pass does to the batch it holds: `all` is that batch with what it took. */
  ghost predicate IsPass(e: Event, maxBatchSize: nat, before: seq<Message>, got: seq<Message>, after: seq<Message>, flushed: seq<Flush>)
  {
    var all := before + got;
    var full := e.Consumed? && |all| == maxBatchSize;
    && |all| <= maxBatchSize
    && (if e.Consumed? then got <= e.waiting && |got| == Least(|e.waiting|, maxBatchSize - |before|) else got == [])
    && after == (if full || IsDue(e) || e.Cancelled? then [] else all)
    && flushed == if all == [] then [] else if full then [Flush(all, Full)]
                  else if IsDue(e) || e.Cancelled? then [Flush(all, ReasonOf(e))] else []
  }

  lemma PassDone(events: seq<Event>, maxBatchSize: nat, batches: seq<Flush>, at: seq<nat>, held: seq<seq<Message>>,
                 taken: seq<seq<Message>>, flushed: seq<Flush>, got: seq<Message>, after: seq<Message>)
    requires Batching(events, maxBatchSize, batches, at, held, taken) && |taken| < |events| && |held| == |taken| + 1
    requires |held[|taken|]| < maxBatchSize && IsPass(events[|taken|], maxBatchSize, held[|taken|], got, after, flushed)
    ensures Batching(events, maxBatchSize, batches + flushed, at + seq(|flushed|, _ => |taken|), held + [after], taken + [got])
  {
    hide Joined, Flat, IsTaken, IsAccounted, IsTimely, IsDrained, GoodFlush, IsPass;
    PassTakes(events, maxBatchSize, held, taken, flushed, got, after);
    TimelyEarlier(events, maxBatchSize, batches, at, held, taken);
    PassAccounts(events, maxBatchSize, batches, at, held, taken, flushed, got, after);
    PassIsTimely(events, maxBatchSize, batches, at, held, taken, flushed, got, after);
    PassDrains(events, maxBatchSize, held, taken, flushed, got, after);
    PassIsGood(events[|taken|], maxBatchSize, held[|taken|], flushed, got, after);
  }

  lemma TimelyEarlier(events: seq<Event>, maxBatchSize: nat, batches: seq<Flush>, at: seq<nat>, held: seq<seq<Message>>,
                      taken: seq<seq<Message>>)
    requires |taken| <= |events| && |held| == |taken| + 1 && IsTimely(events, maxBatchSize, batches, at, held, taken)
    ensures |at| == |batches| && forall b :: 0 <= b < |at| ==> at[b] < |taken|
  {
  }

  lemma PassTakes(events: seq<Event>, maxBatchSize: nat, held: seq<seq<Message>>, taken: seq<seq<Message>>,
                  flushed: seq<Flush>, got: seq<Message>, after: seq<Message>)
    requires IsTaken(events, maxBatchSize, held, taken) && |taken| < |events|
    requires |held[|taken|]| < maxBatchSize && IsPass(events[|taken|], maxBatchSize, held[|taken|], got, after, flushed)
    ensures IsTaken(events, maxBatchSize, held + [after], taken + [got])
  {
  }

  lemma PassIsGood(e: Event, maxBatchSize: nat, before: seq<Message>, flushed: seq<Flush>, got: seq<Message>, after: seq<Message>)
    requires |before| < maxBatchSize && IsPass(e, maxBatchSize, before, got, after, flushed)
    ensures forall b :: b in flushed ==> GoodFlush(b, maxBatchSize)
    ensures |after| < maxBatchSize && (IsDue(e) || e.Cancelled? ==> after == []) && |flushed| <= 1
  {
  }

  lemma PassDrains(events: seq<Event>, maxBatchSize: nat, held: seq<seq<Message>>, taken: seq<seq<Message>>,
                   flushed: seq<Flush>, got: seq<Message>, after: seq<Message>)
    requires |taken| < |events| && |held| == |taken| + 1 && IsDrained(events, maxBatchSize, held, taken)
    requires |held[|taken|]| < maxBatchSize && IsPass(events[|taken|], maxBatchSize, held[|taken|], got, after, flushed)
    ensures IsDrained(events, maxBatchSize, held + [after], taken + [got])
  {
  }

  lemma PassGoesOut(e: Event, maxBatchSize: nat, before: seq<Message>, flushed: seq<Flush>, got: seq<Message>, after: seq<Message>)
    requires |before| < maxBatchSize && IsPass(e, maxBatchSize, before, got, after, flushed)
    ensures forall b :: 0 <= b < |flushed| ==> GoesOut(e, maxBatchSize, flushed[b], before, got, after)
    ensures |flushed| <= 1 && (after == [] && before + got != [] ==> |flushed| == 1)
  {
  }

  lemma OneMorePass(at: seq<nat>, held: seq<seq<Message>>, taken: seq<seq<Message>>, n: nat, got: seq<Message>, after: seq<Message>)
    requires |held| == |taken| + 1 && IsScheduled(at, |taken|) && IsPrompt(at, held, taken) && n <= 1
    requires after == [] && held[|taken|] + got != [] ==> n == 1
    ensures IsScheduled(at + seq(n, _ => |taken|), |taken| + 1)
    ensures IsPrompt(at + seq(n, _ => |taken|), held + [after], taken + [got])
  {
    var at', held', taken' := at + seq(n, _ => |taken|), held + [after], taken + [got];
    forall k: nat | k < |taken'| && held'[k + 1] == [] && held'[k] + taken'[k] != [] ensures k in at' {
      if k < |taken| {
        assert held'[k + 1] == held[k + 1] && held'[k] == held[k] && taken'[k] == taken[k];
        assert k in at;
      } else {
        assert at'[|at|] == k;
      }
    }
  }

  lemma PassIsTimely(events: seq<Event>, maxBatchSize: nat, batches: seq<Flush>, at: seq<nat>, held: seq<seq<Message>>,
                     taken: seq<seq<Message>>, flushed: seq<Flush>, got: seq<Message>, after: seq<Message>)
    requires |taken| < |events| && |held| == |taken| + 1 && IsTimely(events, maxBatchSize, batches, at, held, taken)
    requires |held[|taken|]| < maxBatchSize && IsPass(events[|taken|], maxBatchSize, held[|taken|], got, after, flushed)
    ensures IsTimely(events, maxBatchSize, batches + flushed, at + seq(|flushed|, _ => |taken|), held + [after], taken + [got])
  {
    hide IsPass, GoesOut, IsPrompt, IsDue;
    PassGoesOut(events[|taken|], maxBatchSize, held[|taken|], flushed, got, after);
    OneMorePass(at, held, taken, |flushed|, got, after);
    var more, at', held', taken' := batches + flushed, at + seq(|flushed|, _ => |taken|), held + [after], taken + [got];
    forall b | 0 <= b < |at'|
      ensures GoesOut(events[at'[b]], maxBatchSize, more[b], held'[at'[b]], taken'[at'[b]], held'[at'[b] + 1])
    {
      if b < |at| {
        assert more[b] == batches[b] && at'[b] == at[b] < |taken|;
      }
    }
  }

  lemma {:induction false} FlushedEarlier(batches: seq<Flush>, at: seq<nat>, k: nat)
    requires |at| == |batches| && forall b :: 0 <= b < |at| ==> at[b] < k
    ensures FlushedBefore(batches, at, k) == batches
  {
    if batches != [] {
      FlushedEarlier(batches[..|batches| - 1], at[..|at| - 1], k);
    }
  }

  lemma FlushedLater(batches: seq<Flush>, at: seq<nat>, flushed: seq<Flush>, now: nat, k: nat)
    requires |at| == |batches| && |flushed| <= 1 && k <= now
    ensures FlushedBefore(batches + flushed, at + seq(|flushed|, _ => now), k) == FlushedBefore(batches, at, k)
  {
    var more, at' := batches + flushed, at + seq(|flushed|, _ => now);
    if flushed == [] {
      assert more == batches && at' == at;
    } else {
      assert more[..|more| - 1] == batches && at'[..|at'| - 1] == at;
    }
  }

  lemma PassAccounts(events: seq<Event>, maxBatchSize: nat, batches: seq<Flush>, at: seq<nat>, held: seq<seq<Message>>,
                     taken: seq<seq<Message>>, flushed: seq<Flush>, got: seq<Message>, after: seq<Message>)
    requires |taken| < |events| && |held| == |taken| + 1 && IsAccounted(batches, at, held, taken)
    requires forall b :: 0 <= b < |at| ==> at[b] < |taken|
    requires |held[|taken|]| < maxBatchSize && IsPass(events[|taken|], maxBatchSize, held[|taken|], got, after, flushed)
    ensures IsAccounted(batches + flushed, at + seq(|flushed|, _ => |taken|), held + [after], taken + [got])
  {
    hide Joined, Flat, FlushedBefore, IsPass;
    var more, at', held', taken' := batches + flushed, at + seq(|flushed|, _ => |taken|), held + [after], taken + [got];
    var n := |taken|;
    PassIsGood(events[n], maxBatchSize, held[n], flushed, got, after);
    forall k | 0 <= k <= |taken'| ensures Joined(FlushedBefore(more, at', k)) + held'[k] == Flat(taken'[..k]) {
      if k <= n {
        FlushedLater(batches, at, flushed, n, k);
        assert taken'[..k] == taken[..k] && held'[k] == held[k];
        assert Joined(FlushedBefore(batches, at, k)) + held[k] == Flat(taken[..k]);
      } else {
        FlushedEarlier(batches, at, n);
        FlushedEarlier(more, at', n + 1);
        assert taken[..n] == taken && taken'[..k] == taken';
        assert Joined(batches) + held[n] == Flat(taken);
        FlatSnoc(taken, got);
        PassBalances(events[n], maxBatchSize, batches, held[n], flushed, got, after);
        assert Joined(batches) + (held[n] + got) == Joined(batches) + held[n] + got;
      }
    }
  }

  lemma PassBalances(e: Event, maxBatchSize: nat, batches: seq<Flush>, before: seq<Message>, flushed: seq<Flush>,
                     got: seq<Message>, after: seq<Message>)
    requires |before| < maxBatchSize && IsPass(e, maxBatchSize, before, got, after, flushed)
    ensures Joined(batches + flushed) + after == Joined(batches) + (before + got)
  {
    hide Joined;
    if flushed == [] {
      assert batches + flushed == batches;
    } else {
      JoinedSnoc(batches, flushed[0]);
      assert batches + flushed == batches + [flushed[0]];
    }
  }

  lemma RunDone(events: seq<Event>, maxBatchSize: nat, batches: seq<Flush>, at: seq<nat>, held: seq<seq<Message>>, taken: seq<seq<Message>>)
    requires Batching(events, maxBatchSize, batches, at, held, taken)
    ensures |held| == |taken| + 1 && Joined(batches) + held[|taken|] == Flat(taken)
  {
    hide Joined, Flat, FlushedBefore, IsTimely;
    TimelyEarlier(events, maxBatchSize, batches, at, held, taken);
    FlushedEarlier(batches, at, |taken|);
    assert taken[..|taken|] == taken;
  }

  // ---- Settling, when no command fails -------------------------------------------------------------

  ghost function RunOps(b: Broker, ops: seq<Operation>): Broker
    decreases |ops|
  {
    if ops == [] then b else RunAll(RunOps(b, ops[..|ops| - 1]), ops[|ops| - 1])
  }

  lemma RunOpsAppend(b: Broker, ops: seq<Operation>, op: Operation)
    ensures RunOps(b, ops + [op]) == RunAll(RunOps(b, ops), op)
  {
    assert (ops + [op])[..|ops|] == ops;
  }

  lemma RunPair(b: Broker, c: Command, d: Command)
    ensures RunAll(b, [c, d]) == Apply(Apply(b, c), d)
  {
    hide Apply;
    assert [c, d][1..] == [d];
    RunOne(Apply(b, c), d);
  }

  lemma RunOne(b: Broker, c: Command)
    ensures RunAll(b, [c]) == Apply(b, c)
  {
    hide Apply;
    assert [c][1..] == [];
  }

  /** Either way of settling an unmatched message takes it off the pending list. */
  lemma RunUnmatched(b: Broker, m: Message)
    ensures RunAll(b, DeadLetterOp(m))
         == b.(dead := b.dead + [DeadRecord(m.id, m.request.requestId)], pel := b.pel - {m.id})
    ensures RunAll(b, RepublishOp(m))
         == b.(stream := b.stream + [Good(m.request.(matchAttempts := m.request.matchAttempts + 1), Some(m.id))],
               count := b.count + [0], pel := b.pel - {m.id})
  {
    RunPair(b, DeadLetterOp(m)[0], DeadLetterOp(m)[1]);
    RunPair(b, RepublishOp(m)[0], RepublishOp(m)[1]);
  }

  ghost function UnmatchedIds(msgs: seq<Message>, matched: set<string>): set<nat>
  {
    set m | m in msgs && m.request.requestId !in matched :: m.id
  }

  /** The entries published for the riders who wait for a later window. */
  ghost function Successors(msgs: seq<Message>, matched: set<string>, max: nat): seq<Entry>
  {
    if msgs == [] then []
    else
      var rest := Successors(msgs[..|msgs| - 1], matched, max);
      var m := msgs[|msgs| - 1];
      if m.request.requestId in matched || Exhausted(m, max) then rest
      else rest + [Good(m.request.(matchAttempts := m.request.matchAttempts + 1), Some(m.id))]
  }

  ghost function Records(msgs: seq<Message>, matched: set<string>, max: nat): seq<DeadRecord>
  {
    if msgs == [] then []
    else
      var rest := Records(msgs[..|msgs| - 1], matched, max);
      var m := msgs[|msgs| - 1];
      if m.request.requestId in matched || !Exhausted(m, max) then rest
      else rest + [DeadRecord(m.id, m.request.requestId)]
  }

  lemma {:induction false} UnmatchedSettled(b: Broker, msgs: seq<Message>, matched: set<string>, max: nat)
    ensures var c := RunOps(b, UnmatchedOps(msgs, matched, max));
            && c.pel == b.pel - UnmatchedIds(msgs, matched)
            && c.stream == b.stream + Successors(msgs, matched, max)
            && c.dead == b.dead + Records(msgs, matched, max)
  {
    hide UnmatchedIds, DeadLetterOp, RepublishOp, RunAll, RunOps, Exhausted;
    if msgs == [] {
      RunNone(b);
      NoIds(matched);
    } else {
      var init, m := msgs[..|msgs| - 1], msgs[|msgs| - 1];
      var ops := UnmatchedOps(init, matched, max);
      UnmatchedSettled(b, init, matched, max);
      LastId(msgs, matched);
      RunOpsAppend(b, ops, DeadLetterOp(m));
      RunOpsAppend(b, ops, RepublishOp(m));
      RunUnmatched(RunOps(b, ops), m);
    }
  }

  lemma RunNone(b: Broker)
    ensures RunOps(b, []) == b
  {
  }

  lemma NoIds(matched: set<string>)
    ensures UnmatchedIds([], matched) == {}
  {
  }

  lemma LastId(msgs: seq<Message>, matched: set<string>)
    requires msgs != []
    ensures var init, m := msgs[..|msgs| - 1], msgs[|msgs| - 1];
            UnmatchedIds(msgs, matched) == UnmatchedIds(init, matched) + if m.request.requestId in matched then {} else {m.id}
  {
    assert msgs == msgs[..|msgs| - 1] + [msgs[|msgs| - 1]];
  }

  ghost function AllIds(msgs: seq<Message>): set<nat>
  {
    set m | m in msgs :: m.id
  }

  /** When every command goes through, settling a solved batch leaves none of its messages
      pending and touches no other; unmatched riders come back exactly once each, or are
      reported exactly once each. */
  lemma SettlementIsComplete(b: Broker, msgs: seq<Message>, matched: set<string>, max: nat)
    ensures var c := RunOps(b, Settlement(msgs, matched, max));
            && c.pel == b.pel - AllIds(msgs)
            && c.stream == b.stream + Successors(msgs, matched, max)
            && c.dead == b.dead + Records(msgs, matched, max)
  {
    hide UnmatchedOps, Successors, Records, UnmatchedIds, MatchedIds, AllIds, RunOps, RunAll;
    UnmatchedSettled(b, msgs, matched, max);
    EitherMatched(msgs, matched);
    var ops := UnmatchedOps(msgs, matched, max);
    var acks := MatchedIds(msgs, matched);
    if acks == {} {
      assert Settlement(msgs, matched, max) == ops;
    } else {
      RunOpsAppend(b, ops, [Ack(acks)]);
      RunOne(RunOps(b, ops), Ack(acks));
    }
  }

  lemma EitherMatched(msgs: seq<Message>, matched: set<string>)
    ensures AllIds(msgs) == UnmatchedIds(msgs, matched) + MatchedIds(msgs, matched)
  {
  }

  /** The entry that brings a rider back: the same request, one attempt later. */
  ghost predicate IsReturnOf(m: Message, e: Entry)
  {
    && e.Good? && e.origin == Some(m.id)
    && e.request.requestId == m.request.requestId && e.request.lat == m.request.lat && e.request.lng == m.request.lng
    && e.request.matchAttempts == m.request.matchAttempts + 1
  }

  lemma {:induction false} SuccessorsAre(msgs: seq<Message>, matched: set<string>, max: nat, e: Entry)
    ensures e in Successors(msgs, matched, max) <==>
              exists m :: m in msgs && m.request.requestId !in matched && m.request.matchAttempts + 1 < max && IsReturnOf(m, e)
  {
    if msgs != [] {
      var init, last := msgs[..|msgs| - 1], msgs[|msgs| - 1];
      assert msgs == init + [last];
      SuccessorsAre(init, matched, max, e);
      if IsReturnOf(last, e) {
        assert e == Good(last.request.(matchAttempts := last.request.matchAttempts + 1), Some(last.id));
      }
    }
  }

  lemma {:induction false} RecordsAre(msgs: seq<Message>, matched: set<string>, max: nat, d: DeadRecord)
    ensures d in Records(msgs, matched, max) <==>
              exists m :: m in msgs && m.request.requestId !in matched && max <= m.request.matchAttempts + 1
                          && d == DeadRecord(m.id, m.request.requestId)
  {
    if msgs != [] {
      var init, last := msgs[..|msgs| - 1], msgs[|msgs| - 1];
      assert msgs == init + [last];
      RecordsAre(init, matched, max, d);
    }
  }

  /** What settling adds to the stream and to the dead-letter stream for the entry `id`. */
  ghost predicate ComesBack(b: Broker, c: Broker, id: nat)
  {
    exists j :: |b.stream| <= j < |c.stream| && c.stream[j].Good? && c.stream[j].origin == Some(id)
  }

  ghost predicate IsRecorded(b: Broker, c: Broker, id: nat)
  {
    exists j :: |b.dead| <= j < |c.dead| && c.dead[j].originalId == id
  }

  /** An unmatched rider comes back exactly while its attempts, this one included, are below the
      limit, and is recorded dead exactly from then on. */
  lemma SettlementDecides(b: Broker, msgs: seq<Message>, matched: set<string>, max: nat, i: nat)
    requires i < |msgs| && msgs[i].request.requestId !in matched
    requires forall k :: 0 <= k < |msgs| && k != i ==> msgs[k].id != msgs[i].id
    ensures var c, m := RunOps(b, Settlement(msgs, matched, max)), msgs[i];
            && (ComesBack(b, c, m.id) <==> m.request.matchAttempts + 1 < max)
            && (IsRecorded(b, c, m.id) <==> max <= m.request.matchAttempts + 1)
            && (forall j :: |b.stream| <= j < |c.stream| && c.stream[j].Good? && c.stream[j].origin == Some(m.id) ==>
                  IsReturnOf(m, c.stream[j]))
            && (forall j :: |b.dead| <= j < |c.dead| && c.dead[j].originalId == m.id ==>
                  c.dead[j].requestId == m.request.requestId)
  {
    hide RunOps, Settlement, Successors, Records;
    SettlementIsComplete(b, msgs, matched, max);
    var c, m := RunOps(b, Settlement(msgs, matched, max)), msgs[i];
    var more, gone := Successors(msgs, matched, max), Records(msgs, matched, max);
    forall j | |b.stream| <= j < |c.stream| && c.stream[j].Good? && c.stream[j].origin == Some(m.id)
      ensures IsReturnOf(m, c.stream[j]) && m.request.matchAttempts + 1 < max
    {
      assert c.stream[j] == more[j - |b.stream|];
      SuccessorsAre(msgs, matched, max, c.stream[j]);
    }
    forall j | |b.dead| <= j < |c.dead| && c.dead[j].originalId == m.id
      ensures c.dead[j].requestId == m.request.requestId && max <= m.request.matchAttempts + 1
    {
      assert c.dead[j] == gone[j - |b.dead|];
      RecordsAre(msgs, matched, max, c.dead[j]);
    }
    if m.request.matchAttempts + 1 < max {
      NewEntryFound(b.stream, more, matched, msgs, max, m);
    } else {
      NewRecordFound(b.dead, gone, matched, msgs, max, m);
    }
  }

  lemma NewEntryFound(stream: seq<Entry>, more: seq<Entry>, matched: set<string>, msgs: seq<Message>, max: nat, m: Message)
    requires more == Successors(msgs, matched, max) && m in msgs && m.request.requestId !in matched
    requires m.request.matchAttempts + 1 < max
    ensures exists j :: |stream| <= j < |stream + more| && (stream + more)[j].Good? && (stream + more)[j].origin == Some(m.id)
  {
    hide Successors;
    var e := Good(m.request.(matchAttempts := m.request.matchAttempts + 1), Some(m.id));
    assert IsReturnOf(m, e);
    SuccessorsAre(msgs, matched, max, e);
    var k :| 0 <= k < |more| && more[k] == e;
    assert (stream + more)[|stream| + k] == e;
  }

  lemma NewRecordFound(dead: seq<DeadRecord>, gone: seq<DeadRecord>, matched: set<string>, msgs: seq<Message>, max: nat, m: Message)
    requires gone == Records(msgs, matched, max) && m in msgs && m.request.requestId !in matched
    requires max <= m.request.matchAttempts + 1
    ensures exists j :: |dead| <= j < |dead + gone| && (dead + gone)[j].originalId == m.id
  {
    hide Records;
    var d := DeadRecord(m.id, m.request.requestId);
    RecordsAre(msgs, matched, max, d);
    var k :| 0 <= k < |gone| && gone[k] == d;
    assert (dead + gone)[|dead| + k] == d;
  }

  // ---- The batch as the engine sees it ------------------------------------------------------------------

  ghost function RiderParties(msgs: seq<Message>): seq<MS.Party>
  {
    seq(|msgs|, i requires 0 <= i < |msgs| =>
      MS.Party(msgs[i].request.requestId, MS.LatLng(MS.Finite(msgs[i].request.lat), MS.Finite(msgs[i].request.lng))))
  }

  ghost predicate DistinctRequests(msgs: seq<Message>)
  {
    forall i, j :: 0 <= i < j < |msgs| ==> msgs[i].request.requestId != msgs[j].request.requestId
  }

  ghost predicate GoodRequests(msgs: seq<Message>)
  {
    forall i :: 0 <= i < |msgs| ==>
      && msgs[i].request.requestId != ""
      && -90.0 <= msgs[i].request.lat <= 90.0 && -180.0 <= msgs[i].request.lng <= 180.0
  }

  /** What a batcher asks: its messages' riders and the collected drivers. */
  ghost predicate IsBatchRequest(msgs: seq<Message>, r: MS.Request)
  {
    && r.riders == RiderParties(msgs) && MS.GoodParties(r.drivers, |r.drivers|)
    && r.maxCandidatesPerRider >= 0 && r.maxPairingCost == MS.Finite(0.0)
  }

  /** The engine takes the batch exactly when no request occurs in it twice (and all are
      well-formed). */
  lemma AcceptedIffDistinct(msgs: seq<Message>, r: MS.Request)
    requires IsBatchRequest(msgs, r)
    ensures MS.IsAcceptable(r) <==> DistinctRequests(msgs) && GoodRequests(msgs)
  {
    assert |r.riders| == |msgs|;
    assert forall i :: 0 <= i < |msgs| ==> r.riders[i].id == msgs[i].request.requestId;
    if DistinctRequests(msgs) && GoodRequests(msgs) {
      assert MS.GoodParties(r.riders, |r.riders|);
    }
    if MS.GoodParties(r.riders, |r.riders|) {
      forall i, j | 0 <= i < j < |msgs| ensures msgs[i].request.requestId != msgs[j].request.requestId {
        assert r.riders[i].id != r.riders[j].id;
      }
      forall i | 0 <= i < |msgs|
        ensures msgs[i].request.requestId != ""
        ensures -90.0 <= msgs[i].request.lat <= 90.0 && -180.0 <= msgs[i].request.lng <= 180.0
      {
        assert MS.GoodCoordinate(r.riders[i].at);
      }
    }
  }

  /** At-least-once delivery can put a request and its republished copy into one batch.  The
      engine refuses such a batch for good, so all of its riders are dead-lettered. */
  lemma DuplicateRejectsWholeBatch(msgs: seq<Message>, r: MS.Request, options: MS.Options, status: MS.Status,
                                   cfg: Config, nearby: seq<seq<DriverLocation>>)
    requires IsBatchRequest(msgs, r) && !DistinctRequests(msgs) && !NobodyNearby(nearby)
    requires status == if !MS.FitsLimits(r, options) then MS.ResourceExhausted
                       else if MS.IsAcceptable(r) then MS.Ok else MS.InvalidArgument
    ensures VerdictOf(Some(nearby), Refused(status)) == EngineRejected
    ensures forall m :: m in msgs ==> DeadLetterOp(m) in AfterVerdict(cfg, Worker(map[], msgs, []), EngineRejected).todo
  {
    AcceptedIffDistinct(msgs, r);
    forall m | m in msgs ensures DeadLetterOp(m) in DeadLetterAll(msgs) {
      var i :| 0 <= i < |msgs| && msgs[i] == m;
      assert DeadLetterAll(msgs)[i] == DeadLetterOp(m);
    }
  }

  /** The engine only reports riders of the batch, so a solved verdict never matches strangers. */
  lemma {:induction false} MatchesAreRiders(rows: seq<BO.Match>, all: multiset<string>, id: string)
    requires BO.RiderIds(rows) <= all && id in Elements(RowIds(rows))
    ensures id in all
  {
    if rows != [] {
      var init, last := rows[..|rows| - 1], rows[|rows| - 1];
      if id != last.riderId {
        var i :| 0 <= i < |rows| && RowIds(rows)[i] == id;
        assert RowIds(init)[i] == id;
        MatchesAreRiders(init, all, id);
      }
    }
  }

  /** So what the engine matched is always among what the batcher holds. */
  lemma EngineMatchesBatch(msgs: seq<Message>, r: MS.Request, edges: seq<MatchEdge>, a: seq<int>, response: MS.Response)
    requires IsBatchRequest(msgs, r) && MS.IsAcceptable(r) && MS.IsSettled(r, edges, a, response)
    ensures Elements(RowIds(response.matches)) <= BatchIds(msgs)
  {
    hide MS.IsSettled, MS.GoodParties, BO.RiderIds, BO.UnmatchedIds, RowIds;
    forall id | id in Elements(RowIds(response.matches)) ensures id in BatchIds(msgs) {
      MS.EachPartyOnce(r, edges, a, response, id);
      MatchesAreRiders(response.matches, multiset(MS.IdsOf(r.riders)), id);
      assert id in MS.IdsOf(r.riders);
      var i :| 0 <= i < |MS.IdsOf(r.riders)| && MS.IdsOf(r.riders)[i] == id;
      assert msgs[i].request.requestId == id;
    }
  }

  ghost function RowIds(rows: seq<BO.Match>): seq<string>
  {
    seq(|rows|, i requires 0 <= i < |rows| => rows[i].riderId)
  }
}
