/** Redelivery and republishing cannot go on forever: one rider's request is handed to at most
    maxMatchAttempts * maxDeliveries batches along any line of successors. */
module HandOutBound {
  import opened Basics
  import opened Broker
  import opened BatcherProtocol

  ghost predicate LineageOk(cfg: Config, b: Broker, e: Entry, before: nat)
    requires before <= |b.stream|
  {
    e.Good? ==>
      && e.request.matchAttempts < cfg.maxMatchAttempts
      && (e.origin.Some? ==>
            && e.origin.value < before && b.stream[e.origin.value].Good?
            && e.request.matchAttempts == b.stream[e.origin.value].request.matchAttempts + 1)
  }

  ghost predicate StreamOk(cfg: Config, b: Broker)
  {
    && Countable(b)
    && (forall id: nat :: id < |b.stream| ==> LineageOk(cfg, b, b.stream[id], id))
    && (forall id: nat :: b.cursor <= id < |b.count| ==> b.count[id] == 0)
    && (forall id :: id in b.pel ==> id < b.cursor && 1 <= b.count[id])
  }

  /** Whatever a client is about to publish continues the line of an entry by one attempt. */
  ghost predicate AddsOk(cfg: Config, b: Broker, op: Operation)
  {
    forall p :: 0 <= p < |op| && op[p].Add? ==> LineageOk(cfg, b, op[p].entry, |b.stream|)
  }

  ghost predicate WorkerOk(cfg: Config, b: Broker, w: Worker)
  {
    && (forall m :: m in w.held ==> Faithful(b, m))
    && forall op :: op in w.todo ==> AddsOk(cfg, b, op)
  }

  ghost predicate WorkersOk(cfg: Config, b: Broker, ws: seq<Worker>)
  {
    forall i :: 0 <= i < |ws| ==> WorkerOk(cfg, b, ws[i])
  }

  ghost predicate LogEntryOk(cfg: Config, b: Broker, h: HandOut)
  {
    h.id < b.cursor && h.id < |b.stream| && h.id < |b.count| && b.stream[h.id].Good?
    && 1 <= h.deliveries <= cfg.maxDeliveries && h.deliveries <= b.count[h.id]
  }

  /** Each hand-out happens on a delivery of its own; later ones carry higher counts. */
  ghost predicate LogOk(cfg: Config, b: Broker, log: seq<HandOut>)
  {
    && (forall i :: 0 <= i < |log| ==> LogEntryOk(cfg, b, log[i]))
    && forall i, j :: 0 <= i < j < |log| && log[i].id == log[j].id ==> log[i].deliveries < log[j].deliveries
  }

  ghost predicate Bounded(cfg: Config, s: State)
  {
    StreamOk(cfg, s.broker) && WorkersOk(cfg, s.broker, s.workers) && LogOk(cfg, s.broker, s.log)
  }

  // ---- Growth keeps lineage ---------------------------------------------------------------------

  ghost predicate Onward(b: Broker, c: Broker)
  {
    && Countable(b) && Countable(c)
    && b.stream <= c.stream && b.cursor <= c.cursor
    && forall id: nat :: id < |b.count| ==> b.count[id] <= c.count[id]
  }

  lemma AddsKept(cfg: Config, b: Broker, c: Broker, op: Operation)
    requires b.stream <= c.stream && AddsOk(cfg, b, op)
    ensures AddsOk(cfg, c, op)
  {
  }

  lemma WorkerStays(cfg: Config, b: Broker, c: Broker, w: Worker)
    requires b.stream <= c.stream && WorkerOk(cfg, b, w)
    ensures WorkerOk(cfg, c, w)
  {
    hide AddsOk;
    forall op | op in w.todo ensures AddsOk(cfg, c, op) {
      AddsKept(cfg, b, c, op);
    }
  }

  lemma WorkersStay(cfg: Config, b: Broker, c: Broker, ws: seq<Worker>)
    requires b.stream <= c.stream && WorkersOk(cfg, b, ws)
    ensures WorkersOk(cfg, c, ws)
  {
    hide WorkerOk;
    forall i | 0 <= i < |ws| ensures WorkerOk(cfg, c, ws[i]) {
      WorkerStays(cfg, b, c, ws[i]);
    }
  }

  lemma WorkerSwapped(cfg: Config, b: Broker, ws: seq<Worker>, w: nat, v: Worker)
    requires w < |ws| && WorkersOk(cfg, b, ws) && WorkerOk(cfg, b, v)
    ensures WorkersOk(cfg, b, ws[w := v])
  {
    hide WorkerOk;
  }

  lemma LogStays(cfg: Config, b: Broker, c: Broker, log: seq<HandOut>)
    requires Onward(b, c) && LogOk(cfg, b, log)
    ensures LogOk(cfg, c, log)
  {
    forall i | 0 <= i < |log| ensures LogEntryOk(cfg, c, log[i]) {
      assert LogEntryOk(cfg, b, log[i]);
    }
  }

  // ---- One command ---------------------------------------------------------------------------------

  lemma ApplyBounded(cfg: Config, b: Broker, c: Command)
    requires StreamOk(cfg, b) && (c.Add? ==> LineageOk(cfg, b, c.entry, |b.stream|))
    ensures StreamOk(cfg, Apply(b, c)) && Onward(b, Apply(b, c))
  {
    var d := Apply(b, c);
    forall id: nat | id < |d.stream| ensures LineageOk(cfg, d, d.stream[id], id) {
      if id < |b.stream| {
        assert LineageOk(cfg, b, b.stream[id], id);
      }
    }
  }

  lemma CountsOnward(cfg: Config, b: Broker, c: Broker, ids: seq<nat>)
    requires StreamOk(cfg, b) && Distinct(ids) && forall k :: 0 <= k < |ids| ==> ids[k] < |b.stream|
    requires c.stream == b.stream && b.cursor <= c.cursor <= |c.stream| && c.count == Counted(b.count, ids)
    requires forall k :: 0 <= k < |ids| ==> ids[k] < c.cursor
    requires c.pel == b.pel + Elements(ids)
    ensures StreamOk(cfg, c) && Onward(b, c)
    ensures forall id: nat :: id < |b.count| ==> c.count[id] == b.count[id] + if id in ids then 1 else 0
  {
    forall id: nat | id < |b.count| ensures c.count[id] == b.count[id] + if id in ids then 1 else 0 {
      CountedOnce(b.count, ids, id);
    }
    forall id: nat | id < |c.stream| ensures LineageOk(cfg, c, c.stream[id], id) {
      assert LineageOk(cfg, b, b.stream[id], id);
    }
  }

  // ---- Taking messages --------------------------------------------------------------------------------

  lemma {:induction false} HandedOutMembers(b: Broker, ids: seq<nat>, max: nat, k: nat)
    requires Countable(b) && (forall i :: 0 <= i < |ids| ==> ids[i] < |b.stream|) && Distinct(ids)
    requires k < |HandedOut(b, ids, max)|
    ensures var m := HandedOut(b, ids, max)[k];
            m.id in ids && m.id < |b.stream| && b.stream[m.id].Good? && m.deliveries == b.count[m.id] <= max
    ensures forall j :: 0 <= j < k ==> HandedOut(b, ids, max)[j].id != HandedOut(b, ids, max)[k].id
  {
    if ids != [] {
      var init, id := ids[..|ids| - 1], ids[|ids| - 1];
      var rest := HandedOut(b, init, max);
      assert ids == init + [id];
      if k < |rest| {
        HandedOutMembers(b, init, max, k);
      } else {
        forall j | 0 <= j < k ensures rest[j].id != id {
          HandedOutMembers(b, init, max, j);
        }
      }
    }
  }

  lemma {:induction false} AsideAddsNothing(cfg: Config, b: Broker, ids: seq<nat>, max: nat)
    requires Countable(b) && forall k :: 0 <= k < |ids| ==> ids[k] < |b.stream|
    ensures forall op :: op in SetAside(b, ids, max) ==> AddsOk(cfg, b, op)
  {
    if ids != [] {
      AsideAddsNothing(cfg, b, ids[..|ids| - 1], max);
    }
  }

  /** Freshly counted deliveries extend the log without repeating a hand-out. */
  lemma LogExtended(cfg: Config, b: Broker, c: Broker, ids: seq<nat>, log: seq<HandOut>)
    requires Onward(b, c) && LogOk(cfg, b, log) && Distinct(ids)
    requires forall k :: 0 <= k < |ids| ==> ids[k] < |b.stream| && ids[k] < c.cursor && c.count[ids[k]] == b.count[ids[k]] + 1
    ensures LogOk(cfg, c, log + Logged(HandedOut(c, ids, cfg.maxDeliveries)))
  {
    hide HandedOut;
    LogStays(cfg, b, c, log);
    var msgs := HandedOut(c, ids, cfg.maxDeliveries);
    var more := Logged(msgs);
    forall k | 0 <= k < |more|
      ensures LogEntryOk(cfg, c, more[k]) && more[k].id in ids && more[k].deliveries == c.count[more[k].id]
      ensures forall j :: 0 <= j < k ==> more[j].id != more[k].id
    {
      HandedOutMembers(c, ids, cfg.maxDeliveries, k);
    }
    forall i, j | 0 <= i < j < |log + more| && (log + more)[i].id == (log + more)[j].id
      ensures (log + more)[i].deliveries < (log + more)[j].deliveries
    {
      if i < |log| <= j {
        assert LogEntryOk(cfg, b, log[i]);
      }
    }
  }

  lemma TakeBounded(cfg: Config, s: State, b: Broker, ids: seq<nat>, w: nat)
    requires Bounded(cfg, s) && w < |s.workers| && StreamOk(cfg, b) && Onward(s.broker, b) && Distinct(ids)
    requires forall k :: 0 <= k < |ids| ==>
               ids[k] < |s.broker.stream| && ids[k] < b.cursor && b.count[ids[k]] == s.broker.count[ids[k]] + 1
    ensures Bounded(cfg, s.(broker := b))
    ensures Bounded(cfg, s.(broker := b, workers := s.workers[w := Taken(b, ids, cfg.maxDeliveries, s.workers[w])],
                            log := s.log + Logged(HandedOut(b, ids, cfg.maxDeliveries))))
  {
    hide StreamOk, LogOk, WorkersOk, HandedOut, SetAside, AddsOk, AcksJustified;
    WorkersStay(cfg, s.broker, b, s.workers);
    LogStays(cfg, s.broker, b, s.log);
    LogExtended(cfg, s.broker, b, ids, s.log);
    AsideAddsNothing(cfg, b, ids, cfg.maxDeliveries);
    TakenSafe(b, {}, ids, cfg.maxDeliveries);
    OneWorker(cfg, b, s.workers, w);
    WorkerSwapped(cfg, b, s.workers, w, Taken(b, ids, cfg.maxDeliveries, s.workers[w]));
  }

  lemma OneWorker(cfg: Config, b: Broker, ws: seq<Worker>, w: nat)
    requires WorkersOk(cfg, b, ws) && w < |ws|
    ensures WorkerOk(cfg, b, ws[w])
  {
  }

  // ---- Settling ---------------------------------------------------------------------------------------

  lemma {:induction false} UnmatchedAddsOk(cfg: Config, b: Broker, msgs: seq<Message>, now: set<string>)
    requires StreamOk(cfg, b) && forall m :: m in msgs ==> Faithful(b, m)
    ensures forall op :: op in UnmatchedOps(msgs, now, cfg.maxMatchAttempts) ==> AddsOk(cfg, b, op)
  {
    hide StreamOk;
    if msgs != [] {
      var m := msgs[|msgs| - 1];
      assert m in msgs;
      UnmatchedAddsOk(cfg, b, msgs[..|msgs| - 1], now);
    }
  }

  lemma VerdictAddsOk(cfg: Config, b: Broker, w: Worker, v: Verdict)
    requires StreamOk(cfg, b) && WorkerOk(cfg, b, w)
    ensures WorkerOk(cfg, b, AfterVerdict(cfg, w, v))
  {
    hide StreamOk, UnmatchedOps;
    if v.Solved? {
      UnmatchedAddsOk(cfg, b, w.held, v.matched);
    }
  }

  // ---- Every step -------------------------------------------------------------------------------------

  lemma TakeStepBounded(cfg: Config, s: State, a: Action)
    requires Bounded(cfg, s) && Enabled(cfg, s, a) && (a.Consume? || a.Reclaim?)
    ensures Bounded(cfg, Next(cfg, s, a))
  {
    hide Bounded, LogOk, WorkersOk, HandedOut, SetAside, Counted;
    BoundedStream(cfg, s);
    if a.Consume? {
      var ids, b := Span(s.broker.cursor, a.n), Read(s.broker, a.n);
      CountsOnward(cfg, s.broker, b, ids);
      TakeBounded(cfg, s, b, ids, a.w);
    } else {
      var b := Claim(s.broker, a.ids);
      assert b.pel == s.broker.pel + Elements(a.ids);
      CountsOnward(cfg, s.broker, b, a.ids);
      TakeBounded(cfg, s, b, a.ids, a.w);
    }
  }

  lemma BoundedStream(cfg: Config, s: State)
    requires Bounded(cfg, s)
    ensures StreamOk(cfg, s.broker)
  {
  }

  lemma CommandStepBounded(cfg: Config, s: State, c: Command, w: nat, v: Worker)
    requires Bounded(cfg, s) && w < |s.workers| && WorkerOk(cfg, s.broker, v)
    requires c.Add? ==> LineageOk(cfg, s.broker, c.entry, |s.broker.stream|)
    ensures Bounded(cfg, s.(broker := Apply(s.broker, c), workers := s.workers[w := v]))
  {
    hide StreamOk, LogOk, WorkersOk, WorkerOk, LineageOk;
    var b := Apply(s.broker, c);
    ApplyBounded(cfg, s.broker, c);
    WorkersStay(cfg, s.broker, b, s.workers);
    WorkerStays(cfg, s.broker, b, v);
    WorkerSwapped(cfg, b, s.workers, w, v);
    LogStays(cfg, s.broker, b, s.log);
  }

  lemma IssueBounded(cfg: Config, s: State, a: Action)
    requires Bounded(cfg, s) && Enabled(cfg, s, a) && (a.Issue? || a.Fail?)
    ensures Bounded(cfg, Next(cfg, s, a))
  {
    hide StreamOk, LogOk, LineageOk, Apply;
    var w := s.workers[a.w];
    var op := w.todo[0];
    assert AddsOk(cfg, s.broker, op);
    var dropped := w.(todo := w.todo[1..]);
    assert WorkerOk(cfg, s.broker, dropped);
    if op == [] || (a.Fail? && !a.applied) {
      WorkerSwapped(cfg, s.broker, s.workers, a.w, dropped);
    } else if a.Fail? {
      CommandStepBounded(cfg, s, op[0], a.w, dropped);
    } else {
      CommandStepBounded(cfg, s, op[0], a.w, w.(todo := [op[1..]] + w.todo[1..]));
    }
  }

  lemma PublishBounded(cfg: Config, s: State, a: Action)
    requires cfg.Valid() && Bounded(cfg, s) && Enabled(cfg, s, a) && (a.Accept? || a.Corrupt?)
    ensures Bounded(cfg, Next(cfg, s, a))
  {
    hide StreamOk, LogOk, WorkersOk;
    var e := if a.Accept? then Good(Request(a.requestId, a.lat, a.lng, 0), None) else Malformed;
    var b := Apply(s.broker, Add(e));
    ApplyBounded(cfg, s.broker, Add(e));
    WorkersStay(cfg, s.broker, b, s.workers);
    LogStays(cfg, s.broker, b, s.log);
  }

  lemma LocalBounded(cfg: Config, s: State, a: Action)
    requires Bounded(cfg, s) && Enabled(cfg, s, a) && (a.Process? || a.ReadPending? || a.Crash?)
    ensures Bounded(cfg, Next(cfg, s, a))
  {
    hide StreamOk, LogOk, AddsOk, Settlement, DeadLetterAll;
    OneWorker(cfg, s.broker, s.workers, a.w);
    if a.Process? {
      VerdictAddsOk(cfg, s.broker, s.workers[a.w], a.verdict);
    }
    WorkerSwapped(cfg, s.broker, s.workers, a.w, Next(cfg, s, a).workers[a.w]);
  }

  lemma StepKeepsBounded(cfg: Config, s: State, a: Action)
    requires cfg.Valid() && Bounded(cfg, s) && Enabled(cfg, s, a)
    ensures Bounded(cfg, Next(cfg, s, a))
  {
    match a
    case Accept(_, _, _, _) => PublishBounded(cfg, s, a);
    case Corrupt => PublishBounded(cfg, s, a);
    case Consume(_, _, _) => TakeStepBounded(cfg, s, a);
    case Reclaim(_, _, _) => TakeStepBounded(cfg, s, a);
    case Process(_, _) => LocalBounded(cfg, s, a);
    case ReadPending(_, _) => LocalBounded(cfg, s, a);
    case Crash(_) => LocalBounded(cfg, s, a);
    case Issue(_) => IssueBounded(cfg, s, a);
    case Fail(_, _) => IssueBounded(cfg, s, a);
  }

  lemma {:induction false} RunIsBounded(cfg: Config, states: seq<State>, actions: seq<Action>, i: nat)
    requires cfg.Valid() && IsRun(cfg, states, actions) && i < |states|
    ensures Bounded(cfg, states[i])
  {
    hide Bounded, Enabled, Next;
    if i == 0 {
      StartIsBounded(cfg, states[0]);
    } else {
      RunIsBounded(cfg, states, actions, i - 1);
      StepKeepsBounded(cfg, states[i - 1], actions[i - 1]);
    }
  }

  lemma StartIsBounded(cfg: Config, s: State)
    requires Init(s)
    ensures Bounded(cfg, s)
  {
  }

  // ---- The bound ------------------------------------------------------------------------------------------

  /** One hand-out leads to another: the same entry delivered again, or its successor. */
  ghost predicate LeadsTo(b: Broker, h: HandOut, g: HandOut)
  {
    || (h.id == g.id && h.deliveries < g.deliveries)
    || (g.id < |b.stream| && b.stream[g.id].Good? && b.stream[g.id].origin == Some(h.id))
  }

  /** Attempts left, then deliveries left. */
  ghost function Rank(cfg: Config, b: Broker, h: HandOut): int
    requires LogEntryOk(cfg, b, h)
  {
    (cfg.maxMatchAttempts - 1 - b.stream[h.id].request.matchAttempts) * cfg.maxDeliveries + (cfg.maxDeliveries - h.deliveries)
  }

  lemma RankInRange(cfg: Config, b: Broker, h: HandOut)
    requires StreamOk(cfg, b) && LogEntryOk(cfg, b, h)
    ensures 0 <= Rank(cfg, b, h) < cfg.maxMatchAttempts * cfg.maxDeliveries
  {
    assert LineageOk(cfg, b, b.stream[h.id], h.id);
    var left := cfg.maxMatchAttempts - 1 - b.stream[h.id].request.matchAttempts;
    assert 0 <= left * cfg.maxDeliveries <= (cfg.maxMatchAttempts - 1) * cfg.maxDeliveries by {
      Times(left, cfg.maxMatchAttempts - 1, cfg.maxDeliveries);
    }
    assert (cfg.maxMatchAttempts - 1) * cfg.maxDeliveries + cfg.maxDeliveries == cfg.maxMatchAttempts * cfg.maxDeliveries;
  }

  lemma Times(a: int, b: int, m: nat)
    requires 0 <= a <= b
    ensures 0 <= a * m <= b * m
  {
  }

  /** Every hand-out uses up a delivery or an attempt. */
  lemma RankDecreases(cfg: Config, b: Broker, h: HandOut, g: HandOut)
    requires StreamOk(cfg, b) && LogEntryOk(cfg, b, h) && LogEntryOk(cfg, b, g) && LeadsTo(b, h, g)
    ensures Rank(cfg, b, g) < Rank(cfg, b, h)
  {
    if !(h.id == g.id && h.deliveries < g.deliveries) {
      assert LineageOk(cfg, b, b.stream[g.id], g.id);
      var left := cfg.maxMatchAttempts - 1 - b.stream[g.id].request.matchAttempts;
      assert (left + 1) * cfg.maxDeliveries == left * cfg.maxDeliveries + cfg.maxDeliveries;
    }
  }

  ghost predicate IsChain(b: Broker, log: seq<HandOut>, chain: seq<HandOut>)
  {
    && (forall k :: 0 <= k < |chain| ==> chain[k] in log)
    && forall k :: 0 < k < |chain| ==> LeadsTo(b, chain[k - 1], chain[k])
  }

  lemma {:induction false} ChainDescends(cfg: Config, s: State, chain: seq<HandOut>, k: nat)
    requires Bounded(cfg, s) && IsChain(s.broker, s.log, chain) && k < |chain|
    ensures LogEntryOk(cfg, s.broker, chain[k])
    ensures Rank(cfg, s.broker, chain[k]) < cfg.maxMatchAttempts * cfg.maxDeliveries - k
  {
    hide StreamOk, LeadsTo;
    assert chain[k] in s.log;
    if k == 0 {
      RankInRange(cfg, s.broker, chain[0]);
    } else {
      ChainDescends(cfg, s, chain, k - 1);
      RankDecreases(cfg, s.broker, chain[k - 1], chain[k]);
    }
  }

  /** In every run, no chain of hand-outs is longer than maxMatchAttempts * maxDeliveries. */
  lemma ChainsAreBounded(cfg: Config, states: seq<State>, actions: seq<Action>, i: nat, chain: seq<HandOut>)
    requires cfg.Valid() && IsRun(cfg, states, actions) && i < |states|
    requires IsChain(states[i].broker, states[i].log, chain)
    ensures |chain| <= cfg.maxMatchAttempts * cfg.maxDeliveries
  {
    hide IsRun, LogOk, WorkersOk, StreamOk, LeadsTo, Rank;
    RunIsBounded(cfg, states, actions, i);
    if chain == [] {
      Times(0, cfg.maxMatchAttempts, cfg.maxDeliveries);
    } else {
      ChainDescends(cfg, states[i], chain, |chain| - 1);
      BoundedStream(cfg, states[i]);
      RankInRange(cfg, states[i].broker, chain[|chain| - 1]);
    }
  }

  // ---- All hand-outs of one line of successors, in whatever order they happened ------------------------------

  ghost predicate IsLine(b: Broker, line: seq<nat>)
  {
    && (forall k :: 0 <= k < |line| ==> line[k] < |b.stream| && b.stream[line[k]].Good?)
    && forall k :: 0 < k < |line| ==> b.stream[line[k]].origin == Some(line[k - 1])
  }

  lemma {:induction false} LineAttempts(cfg: Config, b: Broker, line: seq<nat>, k: nat)
    requires StreamOk(cfg, b) && IsLine(b, line) && k < |line|
    ensures k <= b.stream[line[k]].request.matchAttempts < cfg.maxMatchAttempts
  {
    assert LineageOk(cfg, b, b.stream[line[k]], line[k]);
    if k > 0 {
      LineAttempts(cfg, b, line, k - 1);
    }
  }

  ghost function HandOutsOf(log: seq<HandOut>, ids: seq<nat>): set<HandOut>
  {
    set h | h in log && h.id in ids
  }

  lemma {:induction false} FewDeliveries(hs: set<HandOut>, id: nat, max: nat)
    requires forall h :: h in hs ==> h.id == id && 1 <= h.deliveries <= max
    ensures |hs| <= max
  {
    if max == 0 {
      assert hs == {};
    } else {
      var top := HandOut(id, max);
      FewDeliveries(hs - {top}, id, max - 1);
    }
  }

  lemma {:induction false} FewHandOuts(cfg: Config, b: Broker, log: seq<HandOut>, ids: seq<nat>)
    requires LogOk(cfg, b, log)
    ensures |HandOutsOf(log, ids)| <= |ids| * cfg.maxDeliveries
  {
    hide LogOk, HandOutsOf;
    if ids == [] {
      NoHandOuts(log);
    } else {
      var init, id := ids[..|ids| - 1], ids[|ids| - 1];
      FewHandOuts(cfg, b, log, init);
      FewOfOne(cfg, b, log, id);
      OneMoreId(log, init, id);
      assert ids == init + [id];
      UnionSize(HandOutsOf(log, ids), HandOutsOf(log, init), HandOutsOf(log, [id]));
      assert |ids| * cfg.maxDeliveries == |init| * cfg.maxDeliveries + cfg.maxDeliveries;
    }
  }

  lemma NoHandOuts(log: seq<HandOut>)
    ensures HandOutsOf(log, []) == {}
  {
  }

  lemma OneMoreId(log: seq<HandOut>, ids: seq<nat>, id: nat)
    ensures HandOutsOf(log, ids + [id]) == HandOutsOf(log, ids) + HandOutsOf(log, [id])
  {
  }

  lemma FewOfOne(cfg: Config, b: Broker, log: seq<HandOut>, id: nat)
    requires LogOk(cfg, b, log)
    ensures |HandOutsOf(log, [id])| <= cfg.maxDeliveries
  {
    FewDeliveries(HandOutsOf(log, [id]), id, cfg.maxDeliveries);
  }

  lemma UnionSize(u: set<HandOut>, a: set<HandOut>, b: set<HandOut>)
    requires u <= a + b
    ensures |u| <= |a| + |b|
  {
    SubsetSize(u, a + b);
    assert |a + b| <= |a| + |b|;
  }

  /** However crashes, redeliveries and late republishing interleave, the entries of one line
      of successors are handed out at most maxMatchAttempts * maxDeliveries times, each time on
      a delivery of its own. */
  lemma LinesAreBounded(cfg: Config, states: seq<State>, actions: seq<Action>, i: nat, line: seq<nat>)
    requires cfg.Valid() && IsRun(cfg, states, actions) && i < |states| && IsLine(states[i].broker, line)
    ensures |line| <= cfg.maxMatchAttempts
    ensures |HandOutsOf(states[i].log, line)| <= cfg.maxMatchAttempts * cfg.maxDeliveries
    ensures forall j, k :: 0 <= j < k < |states[i].log| ==> states[i].log[j] != states[i].log[k]
  {
    hide IsRun, WorkersOk, StreamOk, LogEntryOk, HandOutsOf;
    RunIsBounded(cfg, states, actions, i);
    var s := states[i];
    if line != [] {
      LineAttempts(cfg, s.broker, line, |line| - 1);
    }
    FewHandOuts(cfg, s.broker, s.log, line);
    Times(|line|, cfg.maxMatchAttempts, cfg.maxDeliveries);
  }
}
