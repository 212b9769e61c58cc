/** Any number of batchers sharing one queue, each of which may crash, or lose a reply,
    between any two broker commands: no accepted ride request is ever lost. */
module BatcherProtocol {
  import opened Basics
  import opened Broker

  datatype Config = Config(maxDeliveries: nat, maxMatchAttempts: nat)
  {
    ghost predicate Valid()
    {
      1 <= maxDeliveries && 1 <= maxMatchAttempts
    }
  }

  /** One batching or reclaiming loop: the counts it last read, the messages it holds, and the
      operations it still has to issue. */
  datatype Worker = Worker(reported: map<nat, nat>, held: seq<Message>, todo: seq<Operation>)

  const IDLE := Worker(map[], [], [])

  /** A message leaving the queue for a batch, on its n-th delivery. */
  datatype HandOut = HandOut(id: nat, deliveries: nat)

  /** `matched` and `accepted` are the request ids the engine has matched and the API has
      acknowledged; `log` lists every hand-out so far. */
  datatype State = State(broker: Broker, workers: seq<Worker>, matched: set<string>, accepted: set<string>, log: seq<HandOut>)

  /** How a batch ended.  Three outcomes leave the messages pending. */
  datatype Verdict = LookupFailed | NoDrivers | EngineUnavailable | EngineRejected | Solved(matched: set<string>)

  datatype Action =
    | Accept(requestId: string, lat: real, lng: real, replied: bool)
    | Corrupt
    | Consume(w: nat, n: nat, replied: bool)
    | ReadPending(w: nat, seen: set<nat>)
    | Reclaim(w: nat, ids: seq<nat>, replied: bool)
    | Process(w: nat, verdict: Verdict)
    | Issue(w: nat)
    | Fail(w: nat, applied: bool)
    | Crash(w: nat)

  function Logged(msgs: seq<Message>): seq<HandOut>
  {
    seq(|msgs|, i requires 0 <= i < |msgs| => HandOut(msgs[i].id, msgs[i].deliveries))
  }

  ghost function BatchIds(msgs: seq<Message>): set<string>
  {
    set m | m in msgs :: m.request.requestId
  }

  ghost predicate Enabled(cfg: Config, s: State, a: Action)
  {
    && Countable(s.broker)
    && match a
       case Accept(id, _, _, _) => id != ""
       case Corrupt => true
       case Consume(w, n, _) => w < |s.workers| && s.workers[w].todo == [] && s.broker.cursor + n <= |s.broker.stream|
       case ReadPending(w, ids) => w < |s.workers| && ids <= s.broker.pel && forall id :: id in ids ==> id < |s.broker.stream|
       // An entry claimed by somebody else since the counts were read is not idle, so it is skipped.
       case Reclaim(w, ids, _) =>
         && w < |s.workers| && s.workers[w].todo == [] && Distinct(ids)
         && forall k :: 0 <= k < |ids| ==>
              && ids[k] < |s.broker.stream| && ids[k] in s.broker.pel && ids[k] in s.workers[w].reported
              && s.broker.count[ids[k]] == s.workers[w].reported[ids[k]]
       case Process(w, v) =>
         && w < |s.workers| && s.workers[w].todo == [] && s.workers[w].held != []
         && (v.Solved? ==> v.matched <= BatchIds(s.workers[w].held))
       case Issue(w) => w < |s.workers| && s.workers[w].todo != []
       case Fail(w, _) => w < |s.workers| && s.workers[w].todo != [] && s.workers[w].todo[0] != []
       case Crash(w) => w < |s.workers|
  }

  function Taken(b: Broker, ids: seq<nat>, maxDeliveries: nat, w: Worker): Worker
    requires Countable(b) && forall k :: 0 <= k < |ids| ==> ids[k] < |b.stream|
  {
    Worker(map[], w.held + HandedOut(b, ids, maxDeliveries), SetAside(b, ids, maxDeliveries))
  }

  ghost function AfterVerdict(cfg: Config, w: Worker, v: Verdict): Worker
  {
    w.(held := [],
       todo := match v
               case Solved(matched) => Settlement(w.held, matched, cfg.maxMatchAttempts)
               case EngineRejected => DeadLetterAll(w.held)
               case _ => [])
  }

  ghost function Next(cfg: Config, s: State, a: Action): State
    requires Enabled(cfg, s, a)
  {
    match a
    case Accept(id, lat, lng, replied) =>
      s.(broker := Apply(s.broker, Add(Good(Request(id, lat, lng, 0), None))), accepted := if replied then s.accepted + {id} else s.accepted)
    case Corrupt =>
      s.(broker := Apply(s.broker, Add(Malformed)))
    case Consume(w, n, replied) =>
      var ids, b := Span(s.broker.cursor, n), Read(s.broker, n);
      if !replied then s.(broker := b)
      else s.(broker := b, workers := s.workers[w := Taken(b, ids, cfg.maxDeliveries, s.workers[w])],
              log := s.log + Logged(HandedOut(b, ids, cfg.maxDeliveries)))
    case ReadPending(w, ids) =>
      s.(workers := s.workers[w := s.workers[w].(reported := map id | id in ids :: s.broker.count[id])])
    case Reclaim(w, ids, replied) =>
      var b := Claim(s.broker, ids);
      if !replied then s.(broker := b)
      else s.(broker := b, workers := s.workers[w := Taken(b, ids, cfg.maxDeliveries, s.workers[w])],
              log := s.log + Logged(HandedOut(b, ids, cfg.maxDeliveries)))
    case Process(w, v) =>
      s.(workers := s.workers[w := AfterVerdict(cfg, s.workers[w], v)],
         matched := if v.Solved? then s.matched + v.matched else s.matched)
    case Issue(w) =>
      var op, rest := s.workers[w].todo[0], s.workers[w].todo[1..];
      if op == [] then s.(workers := s.workers[w := s.workers[w].(todo := rest)])
      else s.(broker := Apply(s.broker, op[0]), workers := s.workers[w := s.workers[w].(todo := [op[1..]] + rest)])
    case Fail(w, applied) =>
      s.(broker := if applied then Apply(s.broker, s.workers[w].todo[0][0]) else s.broker,
         workers := s.workers[w := s.workers[w].(todo := s.workers[w].todo[1..])])
    case Crash(w) =>
      s.(workers := s.workers[w := IDLE])
  }

  ghost predicate Init(s: State)
  {
    && s.broker == Broker([], 0, {}, [], [])
    && (forall w :: 0 <= w < |s.workers| ==> s.workers[w] == IDLE)
    && s.matched == {} && s.accepted == {} && s.log == []
  }

  ghost predicate IsRun(cfg: Config, states: seq<State>, actions: seq<Action>)
  {
    && |states| == |actions| + 1 && Init(states[0])
    && forall i :: 0 <= i < |actions| ==> Enabled(cfg, states[i], actions[i]) && states[i + 1] == Next(cfg, states[i], actions[i])
  }

  // ---- What may be acked --------------------------------------------------------------------------

  ghost predicate IsSuccessor(b: Broker, id: nat, j: nat)
  {
    && id < j < |b.stream| && b.stream[j].Good? && b.stream[j].origin == Some(id)
    && id < |b.stream| && b.stream[id].Good? && b.stream[j].request.requestId == b.stream[id].request.requestId
  }

  ghost predicate HasRecord(b: Broker, id: nat)
  {
    && id < |b.stream|
    && exists r :: r in b.dead && r.originalId == id && (b.stream[id].Good? ==> r.requestId == b.stream[id].request.requestId)
  }

  /** Giving the entry up loses nothing: it was matched, dead-lettered or published again. */
  ghost predicate Justified(b: Broker, matched: set<string>, id: nat)
  {
    || HasRecord(b, id)
    || (id < |b.stream| && b.stream[id].Good? && b.stream[id].request.requestId in matched)
    || exists j :: IsSuccessor(b, id, j)
  }

  ghost predicate NothingLost(b: Broker, matched: set<string>)
  {
    forall id: nat :: id < b.cursor && id !in b.pel ==> Justified(b, matched, id)
  }

  /** The command, once applied, justifies giving up the entry. */
  ghost predicate Justifies(b: Broker, c: Command, id: nat)
  {
    && id < |b.stream|
    && match c
       case Add(e) => e.Good? && e.origin == Some(id) && b.stream[id].Good?
                      && e.request.requestId == b.stream[id].request.requestId
       case AddDead(r) => r.originalId == id && (b.stream[id].Good? ==> r.requestId == b.stream[id].request.requestId)
       case Ack(_) => false
  }

  /** Every ack in the operation comes after what justifies it. */
  ghost predicate AcksJustified(b: Broker, matched: set<string>, op: Operation)
  {
    forall p, id :: 0 <= p < |op| && op[p].Ack? && id in op[p].ids ==>
      Justified(b, matched, id) || exists q :: 0 <= q < p && Justifies(b, op[q], id)
  }

  ghost predicate Faithful(b: Broker, m: Message)
  {
    m.id < |b.stream| && b.stream[m.id].Good? && b.stream[m.id].request == m.request
  }

  ghost predicate WorkerSafe(b: Broker, matched: set<string>, w: Worker)
  {
    && (forall m :: m in w.held ==> Faithful(b, m))
    && (forall op :: op in w.todo ==> AcksJustified(b, matched, op))
  }

  ghost predicate AllSafe(b: Broker, matched: set<string>, ws: seq<Worker>)
  {
    forall w :: 0 <= w < |ws| ==> WorkerSafe(b, matched, ws[w])
  }

  ghost predicate BrokerOk(b: Broker)
  {
    && Countable(b)
    && forall id :: id in b.pel ==> id < b.cursor
  }

  ghost predicate AcceptedStored(s: State)
  {
    forall r :: r in s.accepted ==> exists id: nat :: id < |s.broker.stream| && Carries(s.broker, id, r)
  }

  ghost predicate Carries(b: Broker, id: nat, r: string)
    requires id < |b.stream|
  {
    b.stream[id].Good? && b.stream[id].request.requestId == r
  }

  ghost predicate Safe(s: State)
  {
    && BrokerOk(s.broker)
    && NothingLost(s.broker, s.matched)
    && AcceptedStored(s)
    && AllSafe(s.broker, s.matched, s.workers)
  }

  // ---- Nothing justified ever stops being so ---------------------------------------------------------

  ghost predicate Grew(b: Broker, c: Broker)
  {
    b.stream <= c.stream && b.dead <= c.dead
  }

  lemma JustifiedKept(b: Broker, c: Broker, matched: set<string>, more: set<string>, id: nat)
    requires Grew(b, c) && matched <= more && Justified(b, matched, id)
    ensures Justified(c, more, id)
  {
    if HasRecord(b, id) {
      var r :| r in b.dead && r.originalId == id && (b.stream[id].Good? ==> r.requestId == b.stream[id].request.requestId);
      assert r in c.dead;
    } else if !(id < |b.stream| && b.stream[id].Good? && b.stream[id].request.requestId in matched) {
      var j :| IsSuccessor(b, id, j);
      assert IsSuccessor(c, id, j);
    }
  }

  lemma AcksJustifiedKept(b: Broker, c: Broker, matched: set<string>, more: set<string>, op: Operation)
    requires Grew(b, c) && matched <= more && AcksJustified(b, matched, op)
    ensures AcksJustified(c, more, op)
  {
    hide Justified;
    forall p, id | 0 <= p < |op| && op[p].Ack? && id in op[p].ids
      ensures Justified(c, more, id) || exists q :: 0 <= q < p && Justifies(c, op[q], id)
    {
      if Justified(b, matched, id) {
        JustifiedKept(b, c, matched, more, id);
      } else {
        var q :| 0 <= q < p && Justifies(b, op[q], id);
        assert Justifies(c, op[q], id);
      }
    }
  }

  lemma WorkerKept(b: Broker, c: Broker, matched: set<string>, more: set<string>, w: Worker)
    requires Grew(b, c) && matched <= more && WorkerSafe(b, matched, w)
    ensures WorkerSafe(c, more, w)
  {
    hide AcksJustified;
    forall op | op in w.todo ensures AcksJustified(c, more, op) {
      AcksJustifiedKept(b, c, matched, more, op);
    }
  }

  lemma WorkersKept(b: Broker, c: Broker, matched: set<string>, more: set<string>, ws: seq<Worker>)
    requires Grew(b, c) && matched <= more && AllSafe(b, matched, ws)
    ensures AllSafe(c, more, ws)
  {
    hide WorkerSafe;
    forall w | 0 <= w < |ws| ensures WorkerSafe(c, more, ws[w]) {
      WorkerKept(b, c, matched, more, ws[w]);
    }
  }

  lemma LostKept(b: Broker, c: Broker, matched: set<string>, more: set<string>)
    requires Grew(b, c) && matched <= more && NothingLost(b, matched) && b.cursor == c.cursor && b.pel <= c.pel
    ensures NothingLost(c, more)
  {
    hide Justified;
    forall id: nat | id < c.cursor && id !in c.pel ensures Justified(c, more, id) {
      JustifiedKept(b, c, matched, more, id);
    }
  }

  lemma StoredKept(b: Broker, c: Broker, accepted: set<string>)
    requires Grew(b, c)
    requires forall r :: r in accepted ==> exists id: nat :: id < |b.stream| && Carries(b, id, r)
    ensures forall r :: r in accepted ==> exists id: nat :: id < |c.stream| && Carries(c, id, r)
  {
    forall r | r in accepted ensures exists id: nat :: id < |c.stream| && Carries(c, id, r) {
      var id: nat :| id < |b.stream| && Carries(b, id, r);
      assert Carries(c, id, r);
    }
  }

  // ---- The operations clients build are safe ------------------------------------------------------------

  lemma DeadLetterSafe(b: Broker, matched: set<string>, m: Message)
    requires Faithful(b, m)
    ensures AcksJustified(b, matched, DeadLetterOp(m))
  {
    var op := DeadLetterOp(m);
    assert Justifies(b, op[0], m.id);
  }

  lemma RepublishSafe(b: Broker, matched: set<string>, m: Message)
    requires Faithful(b, m)
    ensures AcksJustified(b, matched, RepublishOp(m))
  {
    var op := RepublishOp(m);
    assert Justifies(b, op[0], m.id);
  }

  lemma MalformedSafe(b: Broker, matched: set<string>, id: nat)
    requires id < |b.stream| && b.stream[id].Malformed?
    ensures AcksJustified(b, matched, MalformedOp(id))
  {
    assert Justifies(b, MalformedOp(id)[0], id);
  }

  lemma {:induction false} TakenSafe(b: Broker, matched: set<string>, ids: seq<nat>, maxDeliveries: nat)
    requires Countable(b) && forall k :: 0 <= k < |ids| ==> ids[k] < |b.stream|
    ensures forall m :: m in HandedOut(b, ids, maxDeliveries) ==> Faithful(b, m)
    ensures forall op :: op in SetAside(b, ids, maxDeliveries) ==> AcksJustified(b, matched, op)
  {
    hide AcksJustified, DeadLetterOp, MalformedOp;
    if ids != [] {
      TakenSafe(b, matched, ids[..|ids| - 1], maxDeliveries);
      var id := ids[|ids| - 1];
      if b.stream[id].Malformed? {
        MalformedSafe(b, matched, id);
      } else {
        DeadLetterSafe(b, matched, Message(id, b.stream[id].request, b.count[id]));
      }
    }
  }

  lemma {:induction false} UnmatchedSafe(b: Broker, matched: set<string>, msgs: seq<Message>, now: set<string>, max: nat)
    requires forall m :: m in msgs ==> Faithful(b, m)
    ensures forall op :: op in UnmatchedOps(msgs, now, max) ==> AcksJustified(b, matched, op)
  {
    hide AcksJustified, DeadLetterOp, RepublishOp, Faithful;
    if msgs != [] {
      var m := msgs[|msgs| - 1];
      assert m in msgs;
      UnmatchedSafe(b, matched, msgs[..|msgs| - 1], now, max);
      DeadLetterSafe(b, matched, m);
      RepublishSafe(b, matched, m);
    }
  }

  lemma SettlementSafe(b: Broker, matched: set<string>, msgs: seq<Message>, now: set<string>, max: nat)
    requires (forall m :: m in msgs ==> Faithful(b, m)) && now <= matched
    ensures forall op :: op in Settlement(msgs, now, max) ==> AcksJustified(b, matched, op)
  {
    UnmatchedSafe(b, matched, msgs, now, max);
    var acks: Operation := [Ack(MatchedIds(msgs, now))];
    assert AcksJustified(b, matched, acks) by {
      forall id | id in MatchedIds(msgs, now) ensures Justified(b, matched, id) {
        var m :| m in msgs && m.request.requestId in now && m.id == id;
        assert Faithful(b, m);
      }
    }
  }

  lemma DeadLetterAllSafe(b: Broker, matched: set<string>, msgs: seq<Message>)
    requires forall m :: m in msgs ==> Faithful(b, m)
    ensures forall op :: op in DeadLetterAll(msgs) ==> AcksJustified(b, matched, op)
  {
    hide AcksJustified, DeadLetterOp, Faithful;
    forall op | op in DeadLetterAll(msgs) ensures AcksJustified(b, matched, op) {
      var i :| 0 <= i < |msgs| && DeadLetterAll(msgs)[i] == op;
      DeadLetterSafe(b, matched, msgs[i]);
    }
  }

  // ---- Issuing one command ---------------------------------------------------------------------------------

  lemma ApplyGrows(b: Broker, c: Command)
    ensures Grew(b, Apply(b, c)) && Apply(b, c).cursor == b.cursor
    ensures BrokerOk(b) ==> BrokerOk(Apply(b, c))
  {
  }

  /** A justified-by command justifies as soon as it is applied. */
  lemma NowJustified(b: Broker, matched: set<string>, c: Command, id: nat)
    requires Justifies(b, c, id)
    ensures Justified(Apply(b, c), matched, id)
  {
    var d := Apply(b, c);
    match c
    case Add(e) =>
      assert IsSuccessor(d, id, |b.stream|);
    case AddDead(r) =>
      assert r in d.dead;
    case Ack(_) =>
  }

  lemma IssueKeepsNothingLost(b: Broker, matched: set<string>, op: Operation)
    requires op != [] && BrokerOk(b) && NothingLost(b, matched) && AcksJustified(b, matched, op)
    ensures NothingLost(Apply(b, op[0]), matched)
  {
    hide Justified;
    var d := Apply(b, op[0]);
    forall id: nat | id < d.cursor && id !in d.pel ensures Justified(d, matched, id) {
      if id !in b.pel {
        JustifiedKept(b, d, matched, matched, id);
      } else {
        assert Justified(b, matched, id);
        JustifiedKept(b, d, matched, matched, id);
      }
    }
  }

  lemma IssueKeepsRest(b: Broker, matched: set<string>, op: Operation)
    requires op != [] && AcksJustified(b, matched, op)
    ensures AcksJustified(Apply(b, op[0]), matched, op[1..])
  {
    hide Justified;
    var d, rest := Apply(b, op[0]), op[1..];
    forall p, id | 0 <= p < |rest| && rest[p].Ack? && id in rest[p].ids
      ensures Justified(d, matched, id) || exists q :: 0 <= q < p && Justifies(d, rest[q], id)
    {
      assert op[p + 1].Ack? && id in op[p + 1].ids;
      if Justified(b, matched, id) {
        JustifiedKept(b, d, matched, matched, id);
      } else {
        var q :| 0 <= q < p + 1 && Justifies(b, op[q], id);
        if q == 0 {
          NowJustified(b, matched, op[0], id);
        } else {
          assert rest[q - 1] == op[q];
          assert Justifies(d, rest[q - 1], id);
        }
      }
    }
  }

  // ---- Every step keeps the invariant ------------------------------------------------------------------------

  lemma WorkerReplaced(s: State, b: Broker, matched: set<string>, w: nat, v: Worker)
    requires w < |s.workers| && WorkerSafe(b, matched, v) && AllSafe(b, matched, s.workers)
    ensures AllSafe(b, matched, s.workers[w := v])
  {
  }

  lemma ReadKeeps(s: State, n: nat)
    requires Safe(s) && s.broker.cursor + n <= |s.broker.stream|
    ensures BrokerOk(Read(s.broker, n)) && NothingLost(Read(s.broker, n), s.matched) && Grew(s.broker, Read(s.broker, n))
  {
    hide Justified, WorkerSafe, Carries;
    var b, c := s.broker, Read(s.broker, n);
    forall id: nat | id < c.cursor && id !in c.pel ensures Justified(c, s.matched, id) {
      SpanCovers(b.cursor, n, id);
      JustifiedKept(b, c, s.matched, s.matched, id);
    }
  }

  lemma SpanCovers(from: nat, n: nat, id: nat)
    ensures from <= id < from + n ==> id in Elements(Span(from, n))
  {
    assert from <= id < from + n ==> Span(from, n)[id - from] == id;
  }

  lemma TakeKeeps(cfg: Config, s: State, b: Broker, ids: seq<nat>, w: nat, log: seq<HandOut>)
    requires Safe(s) && w < |s.workers| && Countable(b) && (forall k :: 0 <= k < |ids| ==> ids[k] < |b.stream|)
    requires BrokerOk(b) && NothingLost(b, s.matched) && Grew(s.broker, b)
    ensures Safe(s.(broker := b, log := log))
    ensures Safe(s.(broker := b, workers := s.workers[w := Taken(b, ids, cfg.maxDeliveries, s.workers[w])], log := log))
  {
    hide NothingLost, AcksJustified, Carries, Justified, HandedOut, SetAside;
    WorkersKept(s.broker, b, s.matched, s.matched, s.workers);
    StoredKept(s.broker, b, s.accepted);
    TakenSafe(b, s.matched, ids, cfg.maxDeliveries);
    WorkerReplaced(s, b, s.matched, w, Taken(b, ids, cfg.maxDeliveries, s.workers[w]));
  }

  lemma PublishKeeps(cfg: Config, s: State, a: Action)
    requires Safe(s) && Enabled(cfg, s, a) && (a.Accept? || a.Corrupt?)
    ensures Safe(Next(cfg, s, a))
  {
    hide WorkerSafe, NothingLost;
    var e := if a.Accept? then Good(Request(a.requestId, a.lat, a.lng, 0), None) else Malformed;
    var b := Apply(s.broker, Add(e));
    WorkersKept(s.broker, b, s.matched, s.matched, s.workers);
    LostKept(s.broker, b, s.matched, s.matched);
    StoredKept(s.broker, b, s.accepted);
    if a.Accept? {
      assert Carries(b, |s.broker.stream|, a.requestId);
    }
  }

  lemma ConsumeKeeps(cfg: Config, s: State, a: Action)
    requires Safe(s) && Enabled(cfg, s, a) && (a.Consume? || a.Reclaim?)
    ensures Safe(Next(cfg, s, a))
  {
    hide Safe, WorkerSafe, NothingLost, AcksJustified, Carries, HandedOut, SetAside, Counted;
    SafeBroker(s);
    if a.Consume? {
      ReadKeeps(s, a.n);
      var b, ids := Read(s.broker, a.n), Span(s.broker.cursor, a.n);
      TakeKeeps(cfg, s, b, ids, a.w, s.log);
      TakeKeeps(cfg, s, b, ids, a.w, s.log + Logged(HandedOut(b, ids, cfg.maxDeliveries)));
    } else {
      var b := Claim(s.broker, a.ids);
      LostKept(s.broker, b, s.matched, s.matched);
      TakeKeeps(cfg, s, b, a.ids, a.w, s.log);
      TakeKeeps(cfg, s, b, a.ids, a.w, s.log + Logged(HandedOut(b, a.ids, cfg.maxDeliveries)));
    }
  }

  lemma SafeBroker(s: State)
    requires Safe(s)
    ensures BrokerOk(s.broker) && NothingLost(s.broker, s.matched)
  {
  }

  lemma ProcessKeeps(cfg: Config, s: State, a: Action)
    requires Safe(s) && Enabled(cfg, s, a) && a.Process?
    ensures Safe(Next(cfg, s, a))
  {
    hide AcksJustified, NothingLost, Carries, Settlement, DeadLetterAll, Faithful;
    var t := Next(cfg, s, a);
    WorkersKept(s.broker, s.broker, s.matched, t.matched, s.workers);
    LostKept(s.broker, s.broker, s.matched, t.matched);
    var w := s.workers[a.w];
    if a.verdict.Solved? {
      SettlementSafe(s.broker, t.matched, w.held, a.verdict.matched, cfg.maxMatchAttempts);
    } else {
      DeadLetterAllSafe(s.broker, t.matched, w.held);
    }
    WorkerReplaced(s, s.broker, t.matched, a.w, AfterVerdict(cfg, w, a.verdict));
  }

  lemma IssueKeeps(cfg: Config, s: State, a: Action)
    requires Safe(s) && Enabled(cfg, s, a) && (a.Issue? || a.Fail?)
    ensures Safe(Next(cfg, s, a))
  {
    hide AcksJustified, NothingLost, Carries, Faithful, Apply;
    var w := s.workers[a.w];
    var op := w.todo[0];
    assert AcksJustified(s.broker, s.matched, op);
    if op == [] || (a.Fail? && !a.applied) {
      WorkerReplaced(s, s.broker, s.matched, a.w, w.(todo := w.todo[1..]));
    } else {
      var b := Apply(s.broker, op[0]);
      ApplyGrows(s.broker, op[0]);
      IssueKeepsNothingLost(s.broker, s.matched, op);
      IssueKeepsRest(s.broker, s.matched, op);
      WorkersKept(s.broker, b, s.matched, s.matched, s.workers);
      StoredKept(s.broker, b, s.accepted);
      WorkerReplaced(s, b, s.matched, a.w, w.(todo := w.todo[1..]));
      WorkerReplaced(s, b, s.matched, a.w, w.(todo := [op[1..]] + w.todo[1..]));
    }
  }

  lemma StepKeepsSafe(cfg: Config, s: State, a: Action)
    requires Safe(s) && Enabled(cfg, s, a)
    ensures Safe(Next(cfg, s, a))
  {
    match a
    case Accept(_, _, _, _) => PublishKeeps(cfg, s, a);
    case Corrupt => PublishKeeps(cfg, s, a);
    case Consume(_, _, _) => ConsumeKeeps(cfg, s, a);
    case Reclaim(_, _, _) => ConsumeKeeps(cfg, s, a);
    case Process(_, _) => ProcessKeeps(cfg, s, a);
    case Issue(_) => IssueKeeps(cfg, s, a);
    case Fail(_, _) => IssueKeeps(cfg, s, a);
    case ReadPending(w, ids) => QuietKeeps(cfg, s, a);
    case Crash(w) => QuietKeeps(cfg, s, a);
  }

  lemma QuietKeeps(cfg: Config, s: State, a: Action)
    requires Safe(s) && Enabled(cfg, s, a) && (a.ReadPending? || a.Crash?)
    ensures Safe(Next(cfg, s, a))
  {
    hide AcksJustified, NothingLost, Carries, Faithful;
    WorkerReplaced(s, s.broker, s.matched, a.w, Next(cfg, s, a).workers[a.w]);
  }

  lemma {:induction false} RunIsSafe(cfg: Config, states: seq<State>, actions: seq<Action>, i: nat)
    requires IsRun(cfg, states, actions) && i < |states|
    ensures Safe(states[i])
  {
    hide Safe, Enabled, Next;
    if i == 0 {
      StartIsSafe(states[0]);
    } else {
      RunIsSafe(cfg, states, actions, i - 1);
      StepKeepsSafe(cfg, states[i - 1], actions[i - 1]);
    }
  }

  lemma StartIsSafe(s: State)
    requires Init(s)
    ensures Safe(s)
  {
  }

  // ---- No accepted request is lost ------------------------------------------------------------------------------

  ghost predicate Undelivered(b: Broker, r: string)
  {
    exists id: nat :: b.cursor <= id < |b.stream| && Carries(b, id, r)
  }

  ghost predicate Pending(b: Broker, r: string)
  {
    exists id: nat :: id in b.pel && id < |b.stream| && Carries(b, id, r)
  }

  ghost predicate DeadLettered(b: Broker, r: string)
  {
    exists d :: d in b.dead && d.requestId == r
  }

  /** The last entry that carries the request has no successor, so if it was given up it was
      matched or dead-lettered. */
  lemma {:induction false} LastCarrier(b: Broker, matched: set<string>, r: string, id: nat)
    requires NothingLost(b, matched) && id < |b.stream| && Carries(b, id, r)
    ensures Undelivered(b, r) || Pending(b, r) || DeadLettered(b, r) || r in matched
    decreases |b.stream| - id
  {
    if id < b.cursor && id !in b.pel {
      assert Justified(b, matched, id);
      if exists j :: IsSuccessor(b, id, j) {
        var j :| IsSuccessor(b, id, j);
        LastCarrier(b, matched, r, j);
      }
    }
  }

  /** In every run, each accepted request is at each moment waiting in the stream, pending with
      some batcher, in the dead-letter stream, or matched. */
  lemma AcceptedIsNeverLost(cfg: Config, states: seq<State>, actions: seq<Action>, i: nat, r: string)
    requires IsRun(cfg, states, actions) && i < |states| && r in states[i].accepted
    ensures Undelivered(states[i].broker, r) || Pending(states[i].broker, r)
         || DeadLettered(states[i].broker, r) || r in states[i].matched
  {
    hide IsRun, NothingLost, WorkerSafe, Undelivered, Pending, DeadLettered, Carries;
    RunIsSafe(cfg, states, actions, i);
    var s := states[i];
    var id: nat :| id < |s.broker.stream| && Carries(s.broker, id, r);
    LastCarrier(s.broker, s.matched, r, id);
  }
}
