/** Two runs of the queue protocol that its documentation does not reckon with, and the exact
    rule by which a claimed entry is given up. */
module QueueRuns {
  import opened Basics
  import opened Broker
  import opened BatcherProtocol
  import opened Batcher

  ghost predicate Steps(cfg: Config, s: State, a: Action, t: State)
  {
    Enabled(cfg, s, a) && t == Next(cfg, s, a)
  }

  lemma Extend(cfg: Config, states: seq<State>, actions: seq<Action>, a: Action, t: State)
    requires IsRun(cfg, states, actions) && Steps(cfg, states[|states| - 1], a, t)
    ensures IsRun(cfg, states + [t], actions + [a])
  {
    hide Enabled, Next, Init;
    var more, acts := states + [t], actions + [a];
    forall i | 0 <= i < |acts| ensures Enabled(cfg, more[i], acts[i]) && more[i + 1] == Next(cfg, more[i], acts[i]) {
      if i < |actions| {
        assert more[i] == states[i] && more[i + 1] == states[i + 1];
      }
    }
  }

  function Posted(r: Request): Entry
  {
    Good(r, None)
  }

  // ---- A claimed entry is given up exactly when its count has reached the limit ---------------

  lemma {:induction false} HandedOutExactly(b: Broker, ids: seq<nat>, max: nat, m: Message)
    requires Countable(b) && forall k :: 0 <= k < |ids| ==> ids[k] < |b.stream|
    ensures m in HandedOut(b, ids, max) <==>
              m.id in ids && b.stream[m.id].Good? && b.count[m.id] <= max
              && m == Message(m.id, b.stream[m.id].request, b.count[m.id])
  {
    if ids != [] {
      HandedOutExactly(b, ids[..|ids| - 1], max, m);
      assert ids == ids[..|ids| - 1] + [ids[|ids| - 1]];
    }
  }

  lemma {:induction false} SetAsideExactly(b: Broker, ids: seq<nat>, max: nat, id: nat, deliveries: nat)
    requires Countable(b) && forall k :: 0 <= k < |ids| ==> ids[k] < |b.stream|
    requires id in ids && b.stream[id].Good?
    ensures DeadLetterOp(Message(id, b.stream[id].request, deliveries)) in SetAside(b, ids, max) <==> b.count[id] > max
  {
    SetAsideAmong(b, ids, max, id, deliveries);
  }

  lemma {:induction false} SetAsideAmong(b: Broker, ids: seq<nat>, max: nat, id: nat, deliveries: nat)
    requires Countable(b) && (forall k :: 0 <= k < |ids| ==> ids[k] < |b.stream|) && id < |b.stream| && b.stream[id].Good?
    ensures DeadLetterOp(Message(id, b.stream[id].request, deliveries)) in SetAside(b, ids, max) <==>
              id in ids && b.count[id] > max
  {
    if ids != [] {
      var init, last := ids[..|ids| - 1], ids[|ids| - 1];
      SetAsideAmong(b, init, max, id, deliveries);
      assert ids == init + [last];
      var op := DeadLetterOp(Message(id, b.stream[id].request, deliveries));
      assert op[0] == AddDead(DeadRecord(id, b.stream[id].request.requestId));
      if b.stream[last].Malformed? {
        assert MalformedOp(last)[0] == AddDead(DeadRecord(last, ""));
      } else {
        assert DeadLetterOp(Message(last, b.stream[last].request, b.count[last]))[0]
            == AddDead(DeadRecord(last, b.stream[last].request.requestId));
      }
    }
  }

  /** A claimed entry that cannot be decoded is written aside under its own id and acked. */
  lemma {:induction false} MalformedIsSetAside(b: Broker, ids: seq<nat>, max: nat, id: nat)
    requires Countable(b) && (forall k :: 0 <= k < |ids| ==> ids[k] < |b.stream|) && id in ids && b.stream[id].Malformed?
    ensures [AddDead(DeadRecord(id, "")), Ack({id})] in SetAside(b, ids, max)
    ensures forall m :: m in HandedOut(b, ids, max) ==> m.id != id
  {
    var init, last := ids[..|ids| - 1], ids[|ids| - 1];
    assert ids == init + [last];
    if id in init {
      MalformedIsSetAside(b, init, max, id);
    }
    forall m | m in HandedOut(b, ids, max) ensures m.id != id {
      HandedOutExactly(b, ids, max, m);
    }
  }

  /** Whatever became of the batches it was in, a well-formed entry is handed out again while
      its count before the claim is below the limit, and set aside from then on. */
  lemma GivenUpExactlyAtLimit(cfg: Config, s: State, w: nat, ids: seq<nat>, id: nat)
    requires Enabled(cfg, s, Reclaim(w, ids, true)) && id in ids && s.broker.stream[id].Good?
    ensures var t := Next(cfg, s, Reclaim(w, ids, true)).workers[w];
            var m := Message(id, s.broker.stream[id].request, s.broker.count[id] + 1);
            && (DeadLetterOp(m) in t.todo <==> s.broker.count[id] >= cfg.maxDeliveries)
            && (m in HandedOut(Claim(s.broker, ids), ids, cfg.maxDeliveries) <==> s.broker.count[id] < cfg.maxDeliveries)
            && t.held == s.workers[w].held + HandedOut(Claim(s.broker, ids), ids, cfg.maxDeliveries)
  {
    hide HandedOut, SetAside, DeadLetterOp, Counted;
    var b := Claim(s.broker, ids);
    CountedOnce(s.broker.count, ids, id);
    var m := Message(id, s.broker.stream[id].request, s.broker.count[id] + 1);
    HandedOutExactly(b, ids, cfg.maxDeliveries, m);
    SetAsideExactly(b, ids, cfg.maxDeliveries, id, m.deliveries);
  }

  // ---- A rider without drivers is dead-lettered as over-delivered -------------------------------

  ghost function Deliveries(k: nat): (log: seq<HandOut>)
    ensures |log| == k
  {
    seq(k, i requires 0 <= i < k => HandOut(0, i + 1))
  }

  /** The request has been in `k` batches, none of which had a driver nearby. */
  ghost function Waiting(r: Request, k: nat): State
  {
    State(Broker([Posted(r)], 1, {0}, [k], []), [IDLE], {}, {r.requestId}, Deliveries(k))
  }

  ghost function Counts(r: Request, k: nat): State
  {
    Waiting(r, k).(workers := [Worker(map[0 := k], [], [])])
  }

  ghost function InHand(r: Request, k: nat): State
  {
    Waiting(r, k).(workers := [Worker(map[], [Message(0, r, k)], [])])
  }

  ghost function NewRequest(id: string, lat: real, lng: real): Request
  {
    Request(id, lat, lng, 0)
  }

  lemma FirstBatch(cfg: Config, id: string, lat: real, lng: real) returns (states: seq<State>, actions: seq<Action>)
    requires cfg.Valid() && id != ""
    ensures IsRun(cfg, states, actions) && states[|states| - 1] == Waiting(NewRequest(id, lat, lng), 1)
    ensures actions == [Accept(id, lat, lng, true), Consume(0, 1, true), Process(0, NoDrivers)]
  {
    var r := NewRequest(id, lat, lng);
    var s0 := State(Broker([], 0, {}, [], []), [IDLE], {}, {}, []);
    var s1 := State(Broker([Posted(r)], 0, {}, [0], []), [IDLE], {}, {id}, []);
    states, actions := [s0], [];
    assert IsRun(cfg, states, actions);
    assert Steps(cfg, s0, Accept(id, lat, lng, true), s1);
    FirstDelivery(cfg, r, s1);
    NobodyFound(cfg, r, 1);
    hide Steps, IsRun;
    Extend(cfg, states, actions, Accept(id, lat, lng, true), s1);
    states, actions := [s0, s1], [Accept(id, lat, lng, true)];
    assert [s0] + [s1] == states;
    Extend(cfg, states, actions, Consume(0, 1, true), InHand(r, 1));
    states, actions := states + [InHand(r, 1)], actions + [Consume(0, 1, true)];
    Extend(cfg, states, actions, Process(0, NoDrivers), Waiting(r, 1));
    states, actions := states + [Waiting(r, 1)], actions + [Process(0, NoDrivers)];
  }

  lemma FirstDelivery(cfg: Config, r: Request, s1: State)
    requires cfg.Valid() && s1 == State(Broker([Posted(r)], 0, {}, [0], []), [IDLE], {}, {r.requestId}, [])
    ensures Steps(cfg, s1, Consume(0, 1, true), InHand(r, 1))
  {
    OneRead(r, cfg.maxDeliveries);
    assert Deliveries(1) == [HandOut(0, 1)];
    hide Read, HandedOut, SetAside;
  }

  lemma OneRead(r: Request, max: nat)
    requires 1 <= max
    ensures Read(Broker([Posted(r)], 0, {}, [0], []), 1) == Broker([Posted(r)], 1, {0}, [1], [])
    ensures Span(0, 1) == [0]
    ensures HandedOut(Broker([Posted(r)], 1, {0}, [1], []), [0], max) == [Message(0, r, 1)]
    ensures SetAside(Broker([Posted(r)], 1, {0}, [1], []), [0], max) == []
  {
    assert Span(0, 1) == [0];
    NothingSetAside(Broker([Posted(r)], 1, {0}, [1], []), [0], max);
    hide HandedOut, SetAside;
    CountOne(0);
    assert Elements([0]) == {0};
  }

  lemma CountOne(k: nat)
    ensures Counted([k], [0]) == [k + 1]
  {
    CountedOnce([k], [0], 0);
  }

  lemma NobodyFound(cfg: Config, r: Request, k: nat)
    ensures Steps(cfg, InHand(r, k), Process(0, NoDrivers), Waiting(r, k))
  {
  }

  lemma Look(cfg: Config, r: Request, k: nat)
    ensures Steps(cfg, Waiting(r, k), ReadPending(0, {0}), Counts(r, k))
  {
    var t := Next(cfg, Waiting(r, k), ReadPending(0, {0}));
    assert t.workers[0].reported == map[0 := k];
    assert t.workers == Counts(r, k).workers;
  }

  lemma Again(cfg: Config, r: Request, k: nat)
    requires k < cfg.maxDeliveries
    ensures Steps(cfg, Counts(r, k), Reclaim(0, [0], true), InHand(r, k + 1))
  {
    OneClaim(r, k, cfg.maxDeliveries);
    assert Deliveries(k + 1) == Deliveries(k) + [HandOut(0, k + 1)];
    hide Claim, HandedOut, SetAside;
  }

  lemma OneClaim(r: Request, k: nat, max: nat)
    ensures var c := Broker([Posted(r)], 1, {0}, [k + 1], []);
            && Claim(Broker([Posted(r)], 1, {0}, [k], []), [0]) == c
            && HandedOut(c, [0], max) == (if k < max then [Message(0, r, k + 1)] else [])
            && SetAside(c, [0], max) == (if k < max then [] else [DeadLetterOp(Message(0, r, k + 1))])
  {
    hide DeadLetterOp;
    CountOne(k);
    assert [0][..0] == [];
  }

  /** `k` batches in a row that find no driver. */
  lemma {:induction false} NoDriversFor(cfg: Config, id: string, lat: real, lng: real, k: nat)
    returns (states: seq<State>, actions: seq<Action>)
    requires cfg.Valid() && id != "" && 1 <= k <= cfg.maxDeliveries
    ensures IsRun(cfg, states, actions) && states[|states| - 1] == Waiting(NewRequest(id, lat, lng), k)
    ensures forall i :: 0 <= i < |actions| && actions[i].Process? ==> actions[i].verdict == NoDrivers
  {
    if k == 1 {
      states, actions := FirstBatch(cfg, id, lat, lng);
    } else {
      states, actions := NoDriversFor(cfg, id, lat, lng, k - 1);
      states, actions := OneMoreBatch(cfg, NewRequest(id, lat, lng), k - 1, states, actions);
    }
  }

  lemma OneMoreBatch(cfg: Config, r: Request, k: nat, states0: seq<State>, actions0: seq<Action>)
    returns (states: seq<State>, actions: seq<Action>)
    requires k < cfg.maxDeliveries && IsRun(cfg, states0, actions0) && states0[|states0| - 1] == Waiting(r, k)
    ensures IsRun(cfg, states, actions) && states[|states| - 1] == Waiting(r, k + 1)
    ensures actions == actions0 + [ReadPending(0, {0}), Reclaim(0, [0], true), Process(0, NoDrivers)]
  {
    hide Steps, IsRun, Waiting, Counts, InHand;
    Look(cfg, r, k);
    Again(cfg, r, k);
    NobodyFound(cfg, r, k + 1);
    Extend(cfg, states0, actions0, ReadPending(0, {0}), Counts(r, k));
    states, actions := states0 + [Counts(r, k)], actions0 + [ReadPending(0, {0})];
    Extend(cfg, states, actions, Reclaim(0, [0], true), InHand(r, k + 1));
    states, actions := states + [InHand(r, k + 1)], actions + [Reclaim(0, [0], true)];
    Extend(cfg, states, actions, Process(0, NoDrivers), Waiting(r, k + 1));
    states, actions := states + [Waiting(r, k + 1)], actions + [Process(0, NoDrivers)];
  }

  /** For every configuration and request there is a run in which each of maxDeliveries
      batches finds no driver, and then the rider, whose match attempts never moved, is
      written aside as poison: the record stands, and nothing is left pending. */
  lemma NoDriversIsDeadLettered(cfg: Config, id: string, lat: real, lng: real)
    returns (states: seq<State>, actions: seq<Action>)
    requires cfg.Valid() && id != ""
    ensures IsRun(cfg, states, actions)
    ensures forall i :: 0 <= i < |actions| && actions[i].Process? ==> actions[i].verdict == NoDrivers
    ensures var end := states[|states| - 1];
            && end.accepted == {id} && end.matched == {} && end.log == Deliveries(cfg.maxDeliveries)
            && end.broker.stream == [Good(Request(id, lat, lng, 0), None)]
            && end.broker.dead == [DeadRecord(0, id)] && end.broker.pel == {} && end.broker.cursor == 1
  {
    var r, k := NewRequest(id, lat, lng), cfg.maxDeliveries;
    states, actions := NoDriversFor(cfg, id, lat, lng, k);
    Look(cfg, r, k);
    GivenUp(cfg, r);
    Recorded(cfg, r);
    Acked(cfg, r);
    hide Steps, IsRun;
    Extend(cfg, states, actions, ReadPending(0, {0}), Counts(r, k));
    states, actions := states + [Counts(r, k)], actions + [ReadPending(0, {0})];
    Extend(cfg, states, actions, Reclaim(0, [0], true), Poisoned(cfg, r));
    states, actions := states + [Poisoned(cfg, r)], actions + [Reclaim(0, [0], true)];
    Extend(cfg, states, actions, Issue(0), Aside(cfg, r));
    states, actions := states + [Aside(cfg, r)], actions + [Issue(0)];
    Extend(cfg, states, actions, Issue(0), Dead(cfg, r));
    states, actions := states + [Dead(cfg, r)], actions + [Issue(0)];
  }

  /** Claimed once too often, ... */
  ghost function Poisoned(cfg: Config, r: Request): State
  {
    var k := cfg.maxDeliveries;
    Waiting(r, k + 1).(workers := [Worker(map[], [], [DeadLetterOp(Message(0, r, k + 1))])], log := Deliveries(k))
  }

  /** ... written aside, ... */
  ghost function Aside(cfg: Config, r: Request): State
  {
    var s := Poisoned(cfg, r);
    s.(broker := s.broker.(dead := [DeadRecord(0, r.requestId)]), workers := [Worker(map[], [], [[Ack({0})]])])
  }

  /** ... and acked. */
  ghost function Dead(cfg: Config, r: Request): State
  {
    var s := Aside(cfg, r);
    s.(broker := s.broker.(pel := {}), workers := [Worker(map[], [], [[]])])
  }

  lemma Recorded(cfg: Config, r: Request)
    ensures Steps(cfg, Poisoned(cfg, r), Issue(0), Aside(cfg, r))
  {
    hide Deliveries;
    var op := DeadLetterOp(Message(0, r, cfg.maxDeliveries + 1));
    assert op[1..] == [Ack({0})];
    var t := Next(cfg, Poisoned(cfg, r), Issue(0));
    assert t.workers[0].todo == [[Ack({0})]];
    assert t.workers == Aside(cfg, r).workers && t.broker == Aside(cfg, r).broker;
  }

  lemma Acked(cfg: Config, r: Request)
    ensures Steps(cfg, Aside(cfg, r), Issue(0), Dead(cfg, r))
  {
    hide Deliveries;
    var op: Operation := [Ack({0})];
    assert op[1..] == [];
    var t := Next(cfg, Aside(cfg, r), Issue(0));
    assert t.workers[0].todo == [[]];
    assert t.workers == Dead(cfg, r).workers && t.broker == Dead(cfg, r).broker;
  }

  lemma GivenUp(cfg: Config, r: Request)
    ensures Steps(cfg, Counts(r, cfg.maxDeliveries), Reclaim(0, [0], true), Poisoned(cfg, r))
  {
    var end := Poisoned(cfg, r);
    OneClaim(r, cfg.maxDeliveries, cfg.maxDeliveries);
    hide Claim, HandedOut, SetAside, DeadLetterOp, Deliveries;
    var log := Deliveries(cfg.maxDeliveries);
    assert log + Logged([]) == log;
    var t := Next(cfg, Counts(r, cfg.maxDeliveries), Reclaim(0, [0], true));
    assert t.workers[0].held == [];
    assert t.workers == end.workers && t.log == end.log && t.broker == end.broker;
  }

  // ---- A request and its republished copy meet in one batch ---------------------------------------

  ghost function Copy(r: Request): Entry
  {
    Good(r.(matchAttempts := r.matchAttempts + 1), Some(0))
  }

  /** The republish of worker 0 failed on its ack; worker 1 gets the copy, and later
      takes over both. */
  ghost function MeetingStates(r: Request): seq<State>
  {
    var b0 := Broker([], 0, {}, [], []);
    var b1 := Broker([Posted(r)], 0, {}, [0], []);
    var b2 := Broker([Posted(r)], 1, {0}, [1], []);
    var b3 := Broker([Posted(r), Copy(r)], 1, {0}, [1, 0], []);
    var b4 := Broker([Posted(r), Copy(r)], 2, {0, 1}, [1, 1], []);
    var b5 := Broker([Posted(r), Copy(r)], 2, {0, 1}, [2, 2], []);
    var m0, acc := Message(0, r, 1), {r.requestId};
    var log1, log2 := [HandOut(0, 1)], [HandOut(0, 1), HandOut(1, 1)];
    [
      State(b0, [IDLE, IDLE], {}, {}, []),
      State(b1, [IDLE, IDLE], {}, acc, []),
      State(b2, [Worker(map[], [m0], []), IDLE], {}, acc, log1),
      State(b2, [Worker(map[], [], [RepublishOp(m0)]), IDLE], {}, acc, log1),
      State(b3, [Worker(map[], [], [[Ack({0})]]), IDLE], {}, acc, log1),
      State(b3, [IDLE, IDLE], {}, acc, log1),
      State(b4, [IDLE, Worker(map[], [Message(1, Copy(r).request, 1)], [])], {}, acc, log2),
      State(b4, [IDLE, IDLE], {}, acc, log2),
      State(b4, [IDLE, Worker(map[0 := 1, 1 := 1], [], [])], {}, acc, log2),
      State(b5, [IDLE, Worker(map[], [Message(0, r, 2), Message(1, Copy(r).request, 2)], [])], {}, acc,
            log2 + [HandOut(0, 2), HandOut(1, 2)])
    ]
  }

  ghost function MeetingActions(r: Request): seq<Action>
  {
    [
      Accept(r.requestId, r.lat, r.lng, true), Consume(0, 1, true), Process(0, Solved({})), Issue(0), Fail(0, false),
      Consume(1, 1, true), Process(1, NoDrivers), ReadPending(1, {0, 1}), Reclaim(1, [0, 1], true)
    ]
  }

  ghost predicate StepAt(cfg: Config, r: Request, i: nat)
    requires i < 9
  {
    Steps(cfg, MeetingStates(r)[i], MeetingActions(r)[i], MeetingStates(r)[i + 1])
  }

  lemma MeetingAccepted(cfg: Config, r: Request)
    requires r.requestId != "" && r.matchAttempts == 0
    ensures StepAt(cfg, r, 0)
  {
  }

  lemma MeetingHandedOut(cfg: Config, r: Request)
    requires cfg.Valid()
    ensures StepAt(cfg, r, 1)
  {
    OneRead(r, cfg.maxDeliveries);
    hide Read, HandedOut, SetAside;
  }

  lemma MeetingUnmatched(cfg: Config, r: Request)
    requires 2 <= cfg.maxMatchAttempts && r.matchAttempts == 0
    ensures StepAt(cfg, r, 2)
  {
    OneUnmatched(Message(0, r, 1), cfg.maxMatchAttempts);
    hide Settlement, RepublishOp;
  }

  /** The republish is under way, ... */
  lemma CopyPublished(cfg: Config, r: Request)
    ensures StepAt(cfg, r, 3)
  {
    var op := RepublishOp(Message(0, r, 1));
    assert op[1..] == [Ack({0})];
    var t := Next(cfg, MeetingStates(r)[3], Issue(0));
    assert t.workers[0].todo == [[Ack({0})]];
    assert t.broker == MeetingStates(r)[4].broker;
  }

  /** ... and its ack fails. */
  lemma CopyNotAcked(cfg: Config, r: Request)
    ensures StepAt(cfg, r, 4)
  {
    var t := Next(cfg, MeetingStates(r)[4], Fail(0, false));
    assert t.workers[0].todo == [];
    assert t.workers == MeetingStates(r)[5].workers;
  }

  lemma OneUnmatched(m: Message, max: nat)
    requires !Exhausted(m, max)
    ensures Settlement([m], {}, max) == [RepublishOp(m)]
  {
    hide RepublishOp, DeadLetterOp;
    assert [m][..0] == [];
    assert UnmatchedOps([m][..0], {}, max) == [];
    assert UnmatchedOps([m], {}, max) == [RepublishOp(m)];
    assert MatchedIds([m], {}) == {};
  }

  /** The copy goes to the other worker, in whose batch there is no driver. */
  lemma CopyTaken(cfg: Config, r: Request)
    requires 1 <= cfg.maxDeliveries
    ensures StepAt(cfg, r, 5) && StepAt(cfg, r, 6)
  {
    SecondRead(r, cfg.maxDeliveries);
    hide Read, HandedOut, SetAside;
    assert StepAt(cfg, r, 5);
    assert StepAt(cfg, r, 6);
  }

  /** That worker takes over both. */
  lemma BothTaken(cfg: Config, r: Request)
    requires 2 <= cfg.maxDeliveries
    ensures StepAt(cfg, r, 7) && StepAt(cfg, r, 8)
  {
    var s := MeetingStates(r)[7];
    var t := Next(cfg, s, ReadPending(1, {0, 1}));
    assert t.workers[1].reported == map[0 := 1, 1 := 1];
    assert t.workers == MeetingStates(r)[8].workers;
    assert StepAt(cfg, r, 7);
    LastTaken(cfg, r);
  }

  lemma LastTaken(cfg: Config, r: Request)
    requires 2 <= cfg.maxDeliveries
    ensures StepAt(cfg, r, 8)
  {
    BothClaimed(r, cfg.maxDeliveries);
    hide Claim, HandedOut, SetAside;
    var both := [Message(0, r, 2), Message(1, Copy(r).request, 2)];
    assert Logged(both) == [HandOut(0, 2), HandOut(1, 2)];
    assert [] + both == both;
    var t := Next(cfg, MeetingStates(r)[8], Reclaim(1, [0, 1], true));
    assert t.log == MeetingStates(r)[9].log;
    assert t.workers == MeetingStates(r)[9].workers;
    assert t.broker == MeetingStates(r)[9].broker;
  }

  lemma SecondRead(r: Request, max: nat)
    requires 1 <= max
    ensures var c := Broker([Posted(r), Copy(r)], 2, {0, 1}, [1, 1], []);
            && Read(Broker([Posted(r), Copy(r)], 1, {0}, [1, 0], []), 1) == c && Span(1, 1) == [1]
            && HandedOut(c, [1], max) == [Message(1, Copy(r).request, 1)] && SetAside(c, [1], max) == []
  {
    assert Span(1, 1) == [1];
    NothingSetAside(Broker([Posted(r), Copy(r)], 2, {0, 1}, [1, 1], []), [1], max);
    hide HandedOut, SetAside;
    CountedOnce([1, 0], [1], 0);
    CountedOnce([1, 0], [1], 1);
    assert Elements([1]) == {1};
    assert Counted([1, 0], [1]) == [1, 1];
  }

  lemma BothClaimed(r: Request, max: nat)
    requires 2 <= max
    ensures var c := Broker([Posted(r), Copy(r)], 2, {0, 1}, [2, 2], []);
            && Claim(Broker([Posted(r), Copy(r)], 2, {0, 1}, [1, 1], []), [0, 1]) == c
            && HandedOut(c, [0, 1], max) == [Message(0, r, 2), Message(1, Copy(r).request, 2)]
            && SetAside(c, [0, 1], max) == []
  {
    CountedOnce([1, 1], [0, 1], 0);
    CountedOnce([1, 1], [0, 1], 1);
    assert Counted([1, 1], [0, 1]) == [2, 2];
    NothingSetAside(Broker([Posted(r), Copy(r)], 2, {0, 1}, [2, 2], []), [0, 1], max);
    hide HandedOut, SetAside;
  }

  lemma {:induction false} NothingSetAside(b: Broker, ids: seq<nat>, max: nat)
    requires Countable(b) && forall k :: 0 <= k < |ids| ==> ids[k] < |b.stream|
    requires forall k :: 0 <= k < |ids| ==> b.stream[ids[k]].Good? && b.count[ids[k]] <= max
    ensures SetAside(b, ids, max) == []
    ensures |HandedOut(b, ids, max)| == |ids|
    ensures forall k :: 0 <= k < |ids| ==> HandedOut(b, ids, max)[k] == Message(ids[k], b.stream[ids[k]].request, b.count[ids[k]])
  {
    if ids != [] {
      NothingSetAside(b, ids[..|ids| - 1], max);
    }
  }

  /** For every accepted request there is a run of two workers at whose end one of them holds
      both the request and its republished copy. */
  lemma CopiesMeetInOneBatch(cfg: Config, r: Request)
    requires 2 <= cfg.maxDeliveries && 2 <= cfg.maxMatchAttempts && r.requestId != "" && r.matchAttempts == 0
    ensures IsRun(cfg, MeetingStates(r), MeetingActions(r))
    ensures var held := MeetingStates(r)[9].workers[1].held;
            && |held| == 2 && held[0].request.requestId == held[1].request.requestId == r.requestId
            && !DistinctRequests(held)
  {
    hide MeetingStates, MeetingActions, Init, Enabled, Next, DistinctRequests, Copy;
    TwoCopies(r);
    MeetingAccepted(cfg, r);
    MeetingHandedOut(cfg, r);
    MeetingUnmatched(cfg, r);
    CopyPublished(cfg, r);
    CopyNotAcked(cfg, r);
    CopyTaken(cfg, r);
    BothTaken(cfg, r);
    MeetingShape(r);
    var states, actions := MeetingStates(r), MeetingActions(r);
    forall i | 0 <= i < |actions| ensures Steps(cfg, states[i], actions[i], states[i + 1]) {
      assert StepAt(cfg, r, i);
    }
  }

  lemma TwoCopies(r: Request)
    ensures !DistinctRequests([Message(0, r, 2), Message(1, Copy(r).request, 2)]) && Copy(r).request.requestId == r.requestId
  {
    var second := Copy(r).request;
    assert second == r.(matchAttempts := r.matchAttempts + 1);
    assert second.requestId == r.requestId;
    var m0, m1 := Message(0, r, 2), Message(1, second, 2);
    var held := [m0, m1];
    assert held[0] == m0 && held[1] == m1;
    assert held[0].request.requestId == held[1].request.requestId;
  }

  lemma MeetingShape(r: Request)
    ensures |MeetingStates(r)| == 10 && |MeetingActions(r)| == 9 && Init(MeetingStates(r)[0])
    ensures |MeetingStates(r)[9].workers| == 2
    ensures MeetingStates(r)[9].workers[1].held == [Message(0, r, 2), Message(1, Copy(r).request, 2)]
  {
  }
}
