/** The bounds on redelivery and republishing are attained: a rider nobody ever matches goes
    through all its attempts, each on all its deliveries, before it is recorded dead. */
module LongestLine {
  import opened Basics
  import opened Broker
  import opened BatcherProtocol
  import opened HandOutBound
  import opened QueueRuns

  /** The k-th entry of the line. */
  function Link(r: Request, k: nat): Entry
  {
    Good(Request(r.requestId, r.lat, r.lng, k), if k == 0 then None else Some(k - 1))
  }

  function Links(r: Request, n: nat): (s: seq<Entry>)
    ensures |s| == n && forall k :: 0 <= k < n ==> s[k] == Link(r, k)
  {
    seq(n, k requires 0 <= k < n => Link(r, k))
  }

  /** All earlier entries were delivered as often as allowed, the last one `d` times. */
  function Delivered(cfg: Config, k: nat, d: nat): (s: seq<nat>)
    ensures |s| == k + 1 && s[k] == d && forall i :: 0 <= i < k ==> s[i] == cfg.maxDeliveries
  {
    seq(k, _ => cfg.maxDeliveries) + [d]
  }

  ghost function HandedOutSoFar(cfg: Config, k: nat, d: nat): seq<HandOut>
    decreases k, d
  {
    if d > 0 then HandedOutSoFar(cfg, k, d - 1) + [HandOut(k, d)]
    else if k > 0 then HandedOutSoFar(cfg, k - 1, cfg.maxDeliveries)
    else []
  }

  function Carried(r: Request, k: nat, d: nat): Message
  {
    Message(k, Request(r.requestId, r.lat, r.lng, k), d)
  }

  /** The k-th entry was delivered `d` times and is still pending; the worker is `w`. */
  ghost function Stage(cfg: Config, r: Request, k: nat, d: nat, w: Worker): State
  {
    State(Broker(Links(r, k + 1), k + 1, {k}, Delivered(cfg, k, d), []), [w], {}, {r.requestId}, HandedOutSoFar(cfg, k, d))
  }

  ghost function Holding(cfg: Config, r: Request, k: nat, d: nat): State
  {
    Stage(cfg, r, k, d, Worker(map[], [Carried(r, k, d)], []))
  }

  /** The k-th entry is in the stream and nobody has read it. */
  ghost function Fresh(cfg: Config, r: Request, k: nat): State
  {
    State(Broker(Links(r, k + 1), k, {}, Delivered(cfg, k, 0), []), [IDLE], {}, {r.requestId}, HandedOutSoFar(cfg, k, 0))
  }

  ghost function Ended(cfg: Config, r: Request): State
    requires cfg.Valid()
  {
    var k: nat := cfg.maxMatchAttempts - 1;
    State(Broker(Links(r, k + 1), k + 1, {}, Delivered(cfg, k, cfg.maxDeliveries), [DeadRecord(k, r.requestId)]),
          [Worker(map[], [], [[]])], {}, {r.requestId}, HandedOutSoFar(cfg, k, cfg.maxDeliveries))
  }

  // ---- One step at a time ------------------------------------------------------------------------

  lemma CountLast(cfg: Config, k: nat, d: nat)
    ensures Counted(Delivered(cfg, k, d), [k]) == Delivered(cfg, k, d + 1)
  {
    hide Delivered;
    var before, after := Delivered(cfg, k, d), Delivered(cfg, k, d + 1);
    forall i | 0 <= i < |after| ensures Counted(before, [k])[i] == after[i] {
      CountedOnce(before, [k], i);
    }
  }

  lemma AllHandedOut(cfg: Config, r: Request, b: Broker, k: nat, d: nat)
    requires b.stream == Links(r, k + 1) && b.count == Delivered(cfg, k, d) && b.cursor <= |b.stream| && d <= cfg.maxDeliveries
    ensures HandedOut(b, [k], cfg.maxDeliveries) == [Carried(r, k, d)] && SetAside(b, [k], cfg.maxDeliveries) == []
  {
    hide HandedOut, SetAside, Links, Delivered;
    NothingSetAside(b, [k], cfg.maxDeliveries);
  }

  lemma StepRead(cfg: Config, r: Request, k: nat)
    requires cfg.Valid()
    ensures Steps(cfg, Fresh(cfg, r, k), Consume(0, 1, true), Holding(cfg, r, k, 1))
  {
    hide Links, Delivered, HandedOut, SetAside, Counted, HandedOutSoFar;
    var s := Fresh(cfg, r, k);
    CountLast(cfg, k, 0);
    assert Span(k, 1) == [k];
    assert Elements([k]) == {k};
    var b := Read(s.broker, 1);
    AllHandedOut(cfg, r, b, k, 1);
    LogGrows(cfg, k, 0);
    assert Logged([Carried(r, k, 1)]) == [HandOut(k, 1)];
    var t := Next(cfg, s, Consume(0, 1, true));
    assert t.workers[0].held == [Carried(r, k, 1)];
    assert t.workers == Holding(cfg, r, k, 1).workers && t.broker == Holding(cfg, r, k, 1).broker;
  }

  lemma LogGrows(cfg: Config, k: nat, d: nat)
    ensures HandedOutSoFar(cfg, k, d + 1) == HandedOutSoFar(cfg, k, d) + [HandOut(k, d + 1)]
    ensures HandedOutSoFar(cfg, k + 1, 0) == HandedOutSoFar(cfg, k, cfg.maxDeliveries)
  {
  }

  lemma StepWait(cfg: Config, r: Request, k: nat, d: nat)
    ensures Steps(cfg, Holding(cfg, r, k, d), Process(0, NoDrivers), Stage(cfg, r, k, d, IDLE))
  {
    hide Links, Delivered, HandedOutSoFar;
  }

  lemma StepLook(cfg: Config, r: Request, k: nat, d: nat)
    ensures Steps(cfg, Stage(cfg, r, k, d, IDLE), ReadPending(0, {k}), Stage(cfg, r, k, d, Worker(map[k := d], [], [])))
  {
    hide Links, Delivered, HandedOutSoFar;
    var t := Next(cfg, Stage(cfg, r, k, d, IDLE), ReadPending(0, {k}));
    assert t.workers[0].reported == map[k := d];
    assert t.workers == [Worker(map[k := d], [], [])];
  }

  lemma StepReclaim(cfg: Config, r: Request, k: nat, d: nat)
    requires d < cfg.maxDeliveries
    ensures Steps(cfg, Stage(cfg, r, k, d, Worker(map[k := d], [], [])), Reclaim(0, [k], true), Holding(cfg, r, k, d + 1))
  {
    hide Links, Delivered, HandedOut, SetAside, Counted, HandedOutSoFar;
    var s := Stage(cfg, r, k, d, Worker(map[k := d], [], []));
    CountLast(cfg, k, d);
    var b := Claim(s.broker, [k]);
    AllHandedOut(cfg, r, b, k, d + 1);
    LogGrows(cfg, k, d);
    assert Logged([Carried(r, k, d + 1)]) == [HandOut(k, d + 1)];
    var t := Next(cfg, s, Reclaim(0, [k], true));
    assert t.workers[0].held == [Carried(r, k, d + 1)];
    assert t.workers == Holding(cfg, r, k, d + 1).workers && t.broker == Holding(cfg, r, k, d + 1).broker;
  }

  lemma OneGivenUp(m: Message, max: nat)
    requires max <= m.request.matchAttempts + 1
    ensures Settlement([m], {}, max) == [DeadLetterOp(m)]
  {
    hide RepublishOp, DeadLetterOp;
    assert [m][..0] == [];
    assert UnmatchedOps([m][..0], {}, max) == [];
    assert UnmatchedOps([m], {}, max) == [DeadLetterOp(m)];
    assert MatchedIds([m], {}) == {};
  }

  lemma StepUnmatched(cfg: Config, r: Request, k: nat, d: nat)
    requires k < cfg.maxMatchAttempts
    ensures var op := if k + 1 < cfg.maxMatchAttempts then RepublishOp(Carried(r, k, d)) else DeadLetterOp(Carried(r, k, d));
            Steps(cfg, Holding(cfg, r, k, d), Process(0, Solved({})), Stage(cfg, r, k, d, Worker(map[], [], [op])))
  {
    hide Links, Delivered, HandedOutSoFar, Settlement, RepublishOp, DeadLetterOp;
    if k + 1 < cfg.maxMatchAttempts {
      OneUnmatched(Carried(r, k, d), cfg.maxMatchAttempts);
    } else {
      OneGivenUp(Carried(r, k, d), cfg.maxMatchAttempts);
    }
  }

  /** Publishing the next entry, acking the old one, and being done with it. */
  ghost function Published(cfg: Config, r: Request, k: nat, pel: set<nat>, todo: seq<Operation>): State
  {
    Fresh(cfg, r, k + 1).(broker := Fresh(cfg, r, k + 1).broker.(pel := pel), workers := [Worker(map[], [], todo)])
  }

  lemma StepPublish(cfg: Config, r: Request, k: nat)
    ensures var d := cfg.maxDeliveries;
            Steps(cfg, Stage(cfg, r, k, d, Worker(map[], [], [RepublishOp(Carried(r, k, d))])), Issue(0), Published(cfg, r, k, {k}, [[Ack({k})]]))
  {
    hide HandedOutSoFar, Links, Delivered;
    var d := cfg.maxDeliveries;
    var op := RepublishOp(Carried(r, k, d));
    assert op[1..] == [Ack({k})];
    var s := Stage(cfg, r, k, d, Worker(map[], [], [op]));
    var t, u := Next(cfg, s, Issue(0)), Published(cfg, r, k, {k}, [[Ack({k})]]);
    LogGrows(cfg, k, d);
    assert t.workers[0].todo == [[Ack({k})]];
    assert t.broker.stream == Links(r, k + 2);
    assert t.broker.count == Delivered(cfg, k + 1, 0);
    assert t.workers == u.workers && t.broker == u.broker;
  }

  lemma StepAck(cfg: Config, r: Request, k: nat)
    ensures Steps(cfg, Published(cfg, r, k, {k}, [[Ack({k})]]), Issue(0), Published(cfg, r, k, {}, [[]]))
  {
    hide HandedOutSoFar, Links, Delivered;
    var op: Operation := [Ack({k})];
    assert op[1..] == [];
    var t, u := Next(cfg, Published(cfg, r, k, {k}, [[Ack({k})]]), Issue(0)), Published(cfg, r, k, {}, [[]]);
    assert t.workers[0].todo == [[]];
    assert t.broker.pel == {};
    assert t.workers == u.workers && t.broker == u.broker;
  }

  lemma StepFinish(cfg: Config, r: Request, k: nat)
    ensures Steps(cfg, Published(cfg, r, k, {}, [[]]), Issue(0), Fresh(cfg, r, k + 1))
  {
    hide HandedOutSoFar, Links, Delivered;
    var t := Next(cfg, Published(cfg, r, k, {}, [[]]), Issue(0));
    assert t.workers[0].todo == [];
    assert t.workers == [IDLE];
  }

  ghost function Writing(cfg: Config, r: Request): State
    requires cfg.Valid()
  {
    var k: nat := cfg.maxMatchAttempts - 1;
    Ended(cfg, r).(broker := Ended(cfg, r).broker.(pel := {k}), workers := [Worker(map[], [], [[Ack({k})]])])
  }

  lemma StepRecord(cfg: Config, r: Request)
    requires cfg.Valid()
    ensures var k, d := cfg.maxMatchAttempts - 1, cfg.maxDeliveries;
            Steps(cfg, Stage(cfg, r, k, d, Worker(map[], [], [DeadLetterOp(Carried(r, k, d))])), Issue(0), Writing(cfg, r))
  {
    hide HandedOutSoFar, Links, Delivered;
    var k, d := cfg.maxMatchAttempts - 1, cfg.maxDeliveries;
    var op := DeadLetterOp(Carried(r, k, d));
    assert op[1..] == [Ack({k})];
    var t := Next(cfg, Stage(cfg, r, k, d, Worker(map[], [], [op])), Issue(0));
    assert t.workers[0].todo == [[Ack({k})]];
    assert t.broker.dead == [DeadRecord(k, r.requestId)];
    assert t.workers == Writing(cfg, r).workers && t.broker == Writing(cfg, r).broker;
  }

  lemma StepRest(cfg: Config, r: Request)
    requires cfg.Valid()
    ensures Steps(cfg, Writing(cfg, r), Issue(0), Ended(cfg, r))
  {
    hide HandedOutSoFar, Links, Delivered;
    var op: Operation := [Ack({(cfg.maxMatchAttempts - 1) as nat})];
    assert op[1..] == [];
    var t := Next(cfg, Writing(cfg, r), Issue(0));
    assert t.workers[0].todo == [[]];
    assert t.workers == Ended(cfg, r).workers && t.broker == Ended(cfg, r).broker;
  }

  // ---- The whole run --------------------------------------------------------------------------------

  ghost predicate Reaches(cfg: Config, s: State)
  {
    exists states, actions :: IsRun(cfg, states, actions) && states[|states| - 1] == s
  }

  lemma Onwards(cfg: Config, s: State, a: Action, t: State)
    requires Reaches(cfg, s) && Steps(cfg, s, a, t)
    ensures Reaches(cfg, t)
  {
    hide Steps, Enabled, Next, Init;
    var states, actions :| IsRun(cfg, states, actions) && states[|states| - 1] == s;
    Extend(cfg, states, actions, a, t);
    var more := states + [t];
    assert more[|more| - 1] == t;
  }

  lemma FirstEntry(cfg: Config, r: Request)
    requires cfg.Valid() && r.requestId != "" && r.matchAttempts == 0
    ensures Reaches(cfg, Fresh(cfg, r, 0))
  {
    var s0 := State(Broker([], 0, {}, [], []), [IDLE], {}, {}, []);
    assert IsRun(cfg, [s0], []) && [s0][|[s0]| - 1] == s0;
    assert Reaches(cfg, s0);
    var a := Accept(r.requestId, r.lat, r.lng, true);
    var t := Next(cfg, s0, a);
    assert t.broker.stream == Links(r, 1);
    assert t.broker.count == Delivered(cfg, 0, 0);
    assert Steps(cfg, s0, a, Fresh(cfg, r, 0));
    Onwards(cfg, s0, a, Fresh(cfg, r, 0));
  }

  lemma {:induction false} EveryDelivery(cfg: Config, r: Request, k: nat, d: nat)
    requires cfg.Valid() && r.requestId != "" && r.matchAttempts == 0 && k < cfg.maxMatchAttempts && 1 <= d <= cfg.maxDeliveries
    ensures Reaches(cfg, Holding(cfg, r, k, d))
    decreases k, d
  {
    hide Reaches, Steps, Holding, Fresh, Stage, Published, RepublishOp, DeadLetterOp;
    if d > 1 {
      EveryDelivery(cfg, r, k, d - 1);
      StepWait(cfg, r, k, d - 1);
      StepLook(cfg, r, k, d - 1);
      StepReclaim(cfg, r, k, d - 1);
      Onwards(cfg, Holding(cfg, r, k, d - 1), Process(0, NoDrivers), Stage(cfg, r, k, d - 1, IDLE));
      Onwards(cfg, Stage(cfg, r, k, d - 1, IDLE), ReadPending(0, {k}), Stage(cfg, r, k, d - 1, Worker(map[k := d - 1], [], [])));
      Onwards(cfg, Stage(cfg, r, k, d - 1, Worker(map[k := d - 1], [], [])), Reclaim(0, [k], true), Holding(cfg, r, k, d));
    } else {
      if k == 0 {
        FirstEntry(cfg, r);
      } else {
        EveryDelivery(cfg, r, k - 1, cfg.maxDeliveries);
        NextEntry(cfg, r, k - 1);
      }
      StepRead(cfg, r, k);
      Onwards(cfg, Fresh(cfg, r, k), Consume(0, 1, true), Holding(cfg, r, k, 1));
    }
  }

  lemma NextEntry(cfg: Config, r: Request, k: nat)
    requires cfg.Valid() && k + 1 < cfg.maxMatchAttempts && Reaches(cfg, Holding(cfg, r, k, cfg.maxDeliveries))
    ensures Reaches(cfg, Fresh(cfg, r, k + 1))
  {
    hide Reaches, Steps, Holding, Fresh, Stage, Published, RepublishOp, DeadLetterOp;
    var d := cfg.maxDeliveries;
    var todo := Stage(cfg, r, k, d, Worker(map[], [], [RepublishOp(Carried(r, k, d))]));
    StepUnmatched(cfg, r, k, d);
    StepPublish(cfg, r, k);
    StepAck(cfg, r, k);
    StepFinish(cfg, r, k);
    Onwards(cfg, Holding(cfg, r, k, d), Process(0, Solved({})), todo);
    Onwards(cfg, todo, Issue(0), Published(cfg, r, k, {k}, [[Ack({k})]]));
    Onwards(cfg, Published(cfg, r, k, {k}, [[Ack({k})]]), Issue(0), Published(cfg, r, k, {}, [[]]));
    Onwards(cfg, Published(cfg, r, k, {}, [[]]), Issue(0), Fresh(cfg, r, k + 1));
  }

  lemma ReachesEnd(cfg: Config, r: Request)
    requires cfg.Valid() && r.requestId != "" && r.matchAttempts == 0
    ensures Reaches(cfg, Ended(cfg, r))
  {
    hide Reaches, Steps, Holding, Stage, DeadLetterOp, RepublishOp, Writing, Ended;
    var k, d := cfg.maxMatchAttempts - 1, cfg.maxDeliveries;
    var todo := Stage(cfg, r, k, d, Worker(map[], [], [DeadLetterOp(Carried(r, k, d))]));
    EveryDelivery(cfg, r, k, d);
    StepUnmatched(cfg, r, k, d);
    StepRecord(cfg, r);
    StepRest(cfg, r);
    Onwards(cfg, Holding(cfg, r, k, d), Process(0, Solved({})), todo);
    Onwards(cfg, todo, Issue(0), Writing(cfg, r));
    Onwards(cfg, Writing(cfg, r), Issue(0), Ended(cfg, r));
  }

  // ---- How long it is -----------------------------------------------------------------------------------

  lemma {:induction false} HandOutCount(cfg: Config, k: nat, d: nat)
    ensures |HandedOutSoFar(cfg, k, d)| == k * cfg.maxDeliveries + d
    ensures forall h :: h in HandedOutSoFar(cfg, k, d) ==> h.id <= k
    decreases k, d
  {
    if d > 0 {
      HandOutCount(cfg, k, d - 1);
    } else if k > 0 {
      HandOutCount(cfg, k - 1, cfg.maxDeliveries);
    }
  }

  /** For every valid configuration and every request there is a run that ends with the rider
      recorded dead, whose line has exactly maxMatchAttempts entries and was handed out exactly
      maxMatchAttempts * maxDeliveries times: neither bound can be improved. */
  lemma BoundIsAttained(cfg: Config, r: Request) returns (states: seq<State>, actions: seq<Action>, line: seq<nat>)
    requires cfg.Valid() && r.requestId != "" && r.matchAttempts == 0
    ensures IsRun(cfg, states, actions)
    ensures var end := states[|states| - 1];
            && IsLine(end.broker, line) && |line| == cfg.maxMatchAttempts
            && (forall k :: 0 <= k < |line| ==> Carries(end.broker, line[k], r.requestId)
                                                && end.broker.stream[line[k]].request.matchAttempts == k)
            && |HandOutsOf(end.log, line)| == cfg.maxMatchAttempts * cfg.maxDeliveries
            && r.requestId in end.accepted && end.matched == {} && end.broker.pel == {}
            && end.broker.dead == [DeadRecord(cfg.maxMatchAttempts - 1, r.requestId)]
  {
    ReachesEnd(cfg, r);
    states, actions :| IsRun(cfg, states, actions) && states[|states| - 1] == Ended(cfg, r);
    line := seq(cfg.maxMatchAttempts, k => k);
    LineOfEnd(cfg, r, line);
    LinesAreBounded(cfg, states, actions, |states| - 1, line);
    HandOutsOfEnd(cfg, states[|states| - 1].log, line);
    hide IsRun, IsLine;
  }

  lemma LineOfEnd(cfg: Config, r: Request, line: seq<nat>)
    requires cfg.Valid() && |line| == cfg.maxMatchAttempts && forall k :: 0 <= k < |line| ==> line[k] == k
    ensures IsLine(Ended(cfg, r).broker, line)
  {
  }

  lemma OneMoreEntry(entries: int, deliveries: int)
    ensures (entries - 1) * deliveries + deliveries == entries * deliveries
  {
  }

  lemma HandOutsOfEnd(cfg: Config, log: seq<HandOut>, line: seq<nat>)
    requires cfg.Valid() && log == HandedOutSoFar(cfg, cfg.maxMatchAttempts - 1, cfg.maxDeliveries) && Distinct(log)
    requires |line| == cfg.maxMatchAttempts && forall k :: 0 <= k < |line| ==> line[k] == k
    ensures |HandOutsOf(log, line)| == cfg.maxMatchAttempts * cfg.maxDeliveries
  {
    hide HandedOutSoFar, Distinct;
    HandOutCount(cfg, cfg.maxMatchAttempts - 1, cfg.maxDeliveries);
    forall h | h in log ensures h.id in line {
      assert line[h.id] == h.id;
    }
    assert HandOutsOf(log, line) == Elements(log);
    DistinctSize(log);
    OneMoreEntry(cfg.maxMatchAttempts, cfg.maxDeliveries);
  }
}
