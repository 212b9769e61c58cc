/** Admission against shutdown in the driver-stream server: handlers, connection goroutines
    and shutdown calls interleave at every lock, counter and flag operation. */
module IngestShutdown {

  /** Where one goroutine stands. */
  datatype Phase =
    // a request handler
    | Arrived                  // about to take the admission lock
    | AdmitLocked              // holds the lock, has not looked at the flag
    | SawOpen                  // holds the lock, saw the flag unset, about to call Add
    | AdmitCounted             // holds the lock, has called Add
    | SawClosed                // holds the lock, saw the flag set
    | Token                    // admitted; holds a wait-group token
    | OverLimit                // took a slot beyond the limit, about to give it back
    | Slot                     // holds a slot: authentication and upgrade are under way
    | Upgraded                 // upgraded, about to call Add for the connection
    | Spawning                 // about to start the connection's goroutine
    | Leaving                  // only the deferred Done is left
    // a connection goroutine
    | Serving
    | Unslotted                // gave its slot back, the deferred Done is left
    // a shutdown call
    | Called
    | CloseLocked              // holds the lock
    | Flagged                  // holds the lock, has set the flag and closed the channel
    | Waiting
    | WaitOver                 // the wait group was seen at zero
    | Returned(ok: bool)
    // any of them
    | Gone

  datatype State = State(closed: bool, locked: bool, counter: int, active: int, procs: seq<Phase>)

  datatype Step =
    | Arrive | Call
    | Lock(i: nat) | Look(i: nat) | AddToken(i: nat) | Unlock(i: nat)
    | TakeSlot(i: nat) | GiveBack(i: nat) | Upgrade(i: nat) | AddForConn(i: nat) | Start(i: nat)
    | DropSlot(i: nat) | Done(i: nat)
    | SetFlag(i: nat) | SeeZero(i: nat) | ReturnNil(i: nat) | TimeOut(i: nat)

  function Tokens(p: Phase): nat
  {
    match p
    case AdmitCounted => 1
    case Token => 1
    case OverLimit => 1
    case Slot => 1
    case Upgraded => 1
    case Spawning => 2
    case Leaving => 1
    case Serving => 1
    case Unslotted => 1
    case _ => 0
  }

  function Slots(p: Phase): nat
  {
    match p
    case OverLimit => 1
    case Slot => 1
    case Upgraded => 1
    case Spawning => 1
    case Serving => 1
    case _ => 0
  }

  /** Slots that were granted, as opposed to taken and about to be given back. */
  function Granted(p: Phase): nat
  {
    if p.OverLimit? then 0 else Slots(p)
  }

  function Holds(p: Phase): nat
  {
    if p.AdmitLocked? || p.SawOpen? || p.AdmitCounted? || p.SawClosed? || p.CloseLocked? || p.Flagged? then 1 else 0
  }

  function At(s: State, i: nat, p: Phase): State
    requires i < |s.procs|
  {
    s.(procs := s.procs[i := p])
  }

  ghost predicate Enabled(s: State, t: Step)
  {
    match t
    case Arrive => true
    case Call => true
    case Lock(i) => i < |s.procs| && (s.procs[i].Arrived? || s.procs[i].Called?) && !s.locked
    case Look(i) => i < |s.procs| && s.procs[i].AdmitLocked?
    case AddToken(i) => i < |s.procs| && s.procs[i].SawOpen?
    case Unlock(i) => i < |s.procs| && (s.procs[i].AdmitCounted? || s.procs[i].SawClosed? || s.procs[i].Flagged?)
    case TakeSlot(i) => i < |s.procs| && s.procs[i].Token?
    case GiveBack(i) => i < |s.procs| && (s.procs[i].OverLimit? || s.procs[i].Slot?)
    case Upgrade(i) => i < |s.procs| && s.procs[i].Slot?
    case AddForConn(i) => i < |s.procs| && s.procs[i].Upgraded?
    case Start(i) => i < |s.procs| && s.procs[i].Spawning?
    case DropSlot(i) => i < |s.procs| && s.procs[i].Serving?
    case Done(i) => i < |s.procs| && (s.procs[i].Leaving? || s.procs[i].Unslotted?)
    case SetFlag(i) => i < |s.procs| && s.procs[i].CloseLocked?
    case SeeZero(i) => i < |s.procs| && s.procs[i].Waiting? && s.counter == 0
    case ReturnNil(i) => i < |s.procs| && s.procs[i].WaitOver?
    case TimeOut(i) => i < |s.procs| && (s.procs[i].Waiting? || s.procs[i].WaitOver?)
  }

  /** `max` is the connection limit. */
  function Next(max: int, s: State, t: Step): State
    requires Enabled(s, t)
  {
    match t
    case Arrive => s.(procs := s.procs + [Arrived])
    case Call => s.(procs := s.procs + [Called])
    case Lock(i) => At(s, i, if s.procs[i].Arrived? then AdmitLocked else CloseLocked).(locked := true)
    case Look(i) => At(s, i, if s.closed then SawClosed else SawOpen)
    case AddToken(i) => At(s, i, AdmitCounted).(counter := s.counter + 1)
    case Unlock(i) =>
      At(s, i, if s.procs[i].AdmitCounted? then Token else if s.procs[i].SawClosed? then Gone else Waiting).(locked := false)
    case TakeSlot(i) => At(s, i, if s.active + 1 > max then OverLimit else Slot).(active := s.active + 1)
    case GiveBack(i) => At(s, i, Leaving).(active := s.active - 1)
    case Upgrade(i) => At(s, i, Upgraded)
    case AddForConn(i) => At(s, i, Spawning).(counter := s.counter + 1)
    case Start(i) => s.(procs := s.procs[i := Leaving] + [Serving])
    case DropSlot(i) => At(s, i, Unslotted).(active := s.active - 1)
    case Done(i) => At(s, i, Gone).(counter := s.counter - 1)
    case SetFlag(i) => At(s, i, Flagged).(closed := true)
    case SeeZero(i) => At(s, i, WaitOver)
    case ReturnNil(i) => At(s, i, Returned(true))
    case TimeOut(i) => At(s, i, Returned(false))
  }

  ghost predicate IsRun(max: int, states: seq<State>, steps: seq<Step>)
  {
    && |states| == |steps| + 1
    && states[0] == State(false, false, 0, 0, [])
    && forall i :: 0 <= i < |steps| ==> Enabled(states[i], steps[i]) && states[i + 1] == Next(max, states[i], steps[i])
  }

  // ---- Counting over the goroutines -----------------------------------------------------------

  ghost function Sum(ps: seq<Phase>, weight: Phase -> nat): nat
  {
    if ps == [] then 0 else Sum(ps[..|ps| - 1], weight) + weight(ps[|ps| - 1])
  }

  lemma {:induction false} SumUpdate(ps: seq<Phase>, weight: Phase -> nat, i: nat, p: Phase)
    requires i < |ps|
    ensures Sum(ps[i := p], weight) == Sum(ps, weight) - weight(ps[i]) + weight(p)
  {
    var last := |ps| - 1;
    if i < last {
      assert ps[i := p][..last] == ps[..last][i := p];
      SumUpdate(ps[..last], weight, i, p);
    } else {
      assert ps[i := p][..last] == ps[..last];
    }
  }

  lemma SumAppend(ps: seq<Phase>, weight: Phase -> nat, p: Phase)
    ensures Sum(ps + [p], weight) == Sum(ps, weight) + weight(p)
  {
    assert (ps + [p])[..|ps|] == ps;
  }

  lemma {:induction false} SumAtLeast(ps: seq<Phase>, weight: Phase -> nat, i: nat)
    requires i < |ps|
    ensures weight(ps[i]) <= Sum(ps, weight)
  {
    if i < |ps| - 1 {
      SumAtLeast(ps[..|ps| - 1], weight, i);
    }
  }

  lemma {:induction false} SumMonotone(ps: seq<Phase>, v: Phase -> nat, w: Phase -> nat)
    requires forall p :: v(p) <= w(p)
    ensures Sum(ps, v) <= Sum(ps, w)
  {
    if ps != [] {
      SumMonotone(ps[..|ps| - 1], v, w);
    }
  }

  /** The four sums after one goroutine moved. */
  lemma Moved(ps: seq<Phase>, i: nat, p: Phase)
    requires i < |ps|
    ensures Sum(ps[i := p], Tokens) == Sum(ps, Tokens) - Tokens(ps[i]) + Tokens(p)
    ensures Sum(ps[i := p], Slots) == Sum(ps, Slots) - Slots(ps[i]) + Slots(p)
    ensures Sum(ps[i := p], Granted) == Sum(ps, Granted) - Granted(ps[i]) + Granted(p)
    ensures Sum(ps[i := p], Holds) == Sum(ps, Holds) - Holds(ps[i]) + Holds(p)
  {
    SumUpdate(ps, Tokens, i, p);
    SumUpdate(ps, Slots, i, p);
    SumUpdate(ps, Granted, i, p);
    SumUpdate(ps, Holds, i, p);
  }

  lemma Added(ps: seq<Phase>, p: Phase)
    ensures Sum(ps + [p], Tokens) == Sum(ps, Tokens) + Tokens(p)
    ensures Sum(ps + [p], Slots) == Sum(ps, Slots) + Slots(p)
    ensures Sum(ps + [p], Granted) == Sum(ps, Granted) + Granted(p)
    ensures Sum(ps + [p], Holds) == Sum(ps, Holds) + Holds(p)
  {
    SumAppend(ps, Tokens, p);
    SumAppend(ps, Slots, p);
    SumAppend(ps, Granted, p);
    SumAppend(ps, Holds, p);
  }

  // ---- The invariant ----------------------------------------------------------------------------

  /** The counters are exactly what the goroutines hold; the lock has one holder. */
  ghost predicate Counted(s: State)
  {
    && s.counter == Sum(s.procs, Tokens)
    && s.active == Sum(s.procs, Slots)
    && Sum(s.procs, Holds) == (if s.locked then 1 else 0)
  }

  /** Nobody is between seeing the server open and registering once it has closed, and a
      shutdown past its flag has closed it. */
  ghost predicate FlagOk(s: State)
  {
    forall i :: 0 <= i < |s.procs| ==>
      && (s.procs[i].SawOpen? ==> !s.closed)
      && (s.procs[i].Flagged? || s.procs[i].Waiting? || s.procs[i].WaitOver? || s.procs[i].Returned? ==> s.closed)
  }

  /** A wait that ended, ended for good. */
  ghost predicate DrainedOk(s: State)
  {
    forall i :: 0 <= i < |s.procs| && (s.procs[i].WaitOver? || s.procs[i] == Returned(true)) ==> s.counter == 0
  }

  ghost predicate Inv(max: int, s: State)
  {
    Counted(s) && FlagOk(s) && DrainedOk(s) && Sum(s.procs, Granted) <= max
  }

  /** One goroutine moved and the counters moved with it. */
  lemma MoveCounted(s: State, n: State, i: nat, p: Phase)
    requires Counted(s) && i < |s.procs| && n.procs == s.procs[i := p]
    requires n.counter - s.counter == Tokens(p) - Tokens(s.procs[i])
    requires n.active - s.active == Slots(p) - Slots(s.procs[i])
    requires (if n.locked then 1 else 0) - (if s.locked then 1 else 0) == Holds(p) - Holds(s.procs[i])
    ensures Counted(n)
  {
    hide Sum, Tokens, Slots, Holds;
    Moved(s.procs, i, p);
  }

  lemma GrowthCounted(s: State, n: State, p: Phase)
    requires Counted(s) && n.procs == s.procs + [p] && Holds(p) == 0 && n.locked == s.locked
    requires n.counter == s.counter + Tokens(p) && n.active == s.active + Slots(p)
    ensures Counted(n)
  {
    hide Sum, Tokens, Slots, Holds;
    Added(s.procs, p);
  }

  lemma StartCounted(s: State, i: nat)
    requires Counted(s) && i < |s.procs| && s.procs[i].Spawning?
    ensures Counted(s.(procs := s.procs[i := Leaving] + [Serving]))
  {
    hide Sum;
    Moved(s.procs, i, Leaving);
    Added(s.procs[i := Leaving], Serving);
  }

  lemma LockMoves(max: int, s: State, t: Step)
    requires Counted(s) && Enabled(s, t) && (t.Lock? || t.Look? || t.AddToken? || t.Unlock? || t.SetFlag?)
    ensures Counted(Next(max, s, t))
  {
    hide Sum, Counted;
    LockHeld(s, t.i);
    MoveCounted(s, Next(max, s, t), t.i, Next(max, s, t).procs[t.i]);
  }

  lemma LockHeld(s: State, i: nat)
    requires Counted(s) && i < |s.procs|
    ensures Holds(s.procs[i]) == 1 ==> s.locked
  {
    SumAtLeast(s.procs, Holds, i);
  }

  lemma SlotMoves(max: int, s: State, t: Step)
    requires Counted(s) && Enabled(s, t)
    requires t.TakeSlot? || t.GiveBack? || t.Upgrade? || t.AddForConn? || t.DropSlot? || t.Done?
    ensures Counted(Next(max, s, t))
  {
    hide Sum, Counted;
    MoveCounted(s, Next(max, s, t), t.i, Next(max, s, t).procs[t.i]);
  }

  lemma WaitMoves(max: int, s: State, t: Step)
    requires Counted(s) && Enabled(s, t) && (t.SeeZero? || t.ReturnNil? || t.TimeOut?)
    ensures Counted(Next(max, s, t))
  {
    hide Sum, Counted;
    MoveCounted(s, Next(max, s, t), t.i, Next(max, s, t).procs[t.i]);
  }

  lemma CountedKept(max: int, s: State, t: Step)
    requires Counted(s) && Enabled(s, t)
    ensures Counted(Next(max, s, t))
  {
    hide Counted;
    if t.Arrive? || t.Call? {
      GrowthCounted(s, Next(max, s, t), if t.Arrive? then Arrived else Called);
    } else if t.Start? {
      StartCounted(s, t.i);
    } else if t.Lock? || t.Look? || t.AddToken? || t.Unlock? || t.SetFlag? {
      LockMoves(max, s, t);
    } else if t.SeeZero? || t.ReturnNil? || t.TimeOut? {
      WaitMoves(max, s, t);
    } else {
      SlotMoves(max, s, t);
    }
  }

  lemma HolderIsAlone(s: State, i: nat, j: nat)
    requires Counted(s) && i < |s.procs| && j < |s.procs| && i != j && Holds(s.procs[i]) == 1
    ensures Holds(s.procs[j]) == 0
  {
    SumUpdate(s.procs, Holds, i, Gone);
    SumAtLeast(s.procs[i := Gone], Holds, j);
  }

  /** The flag only flips under the lock, when no handler is inside its critical section. */
  lemma FlagKept(max: int, s: State, t: Step)
    requires Counted(s) && FlagOk(s) && Enabled(s, t)
    ensures FlagOk(Next(max, s, t))
  {
    hide Counted, Sum;
    if t.SetFlag? {
      forall j: nat | j < |s.procs| && j != t.i ensures !s.procs[j].SawOpen? {
        HolderIsAlone(s, t.i, j);
      }
    }
  }

  /** The only calls of Add. */
  ghost predicate IsAdd(t: Step)
  {
    t.AddToken? || t.AddForConn?
  }

  lemma AddFindsToken(s: State, t: Step)
    requires Counted(s) && FlagOk(s) && Enabled(s, t) && IsAdd(t) && s.closed
    ensures s.counter >= 1
  {
    SumAtLeast(s.procs, Tokens, t.i);
  }

  lemma DrainedStays(max: int, s: State, t: Step)
    requires Counted(s) && FlagOk(s) && Enabled(s, t) && s.closed && s.counter == 0
    ensures Next(max, s, t).closed && Next(max, s, t).counter == 0
  {
    if IsAdd(t) {
      AddFindsToken(s, t);
    }
    if t.Done? {
      SumAtLeast(s.procs, Tokens, t.i);
    }
  }

  lemma DrainedKept(max: int, s: State, t: Step)
    requires Counted(s) && FlagOk(s) && DrainedOk(s) && Enabled(s, t)
    ensures DrainedOk(Next(max, s, t))
  {
    hide Counted, Sum;
    var n := Next(max, s, t);
    if s.closed && s.counter == 0 {
      DrainedStays(max, s, t);
      hide Next;
    } else {
      forall i | 0 <= i < |n.procs| && (n.procs[i].WaitOver? || n.procs[i] == Returned(true)) ensures n.counter == 0 {
        assert i < |s.procs| && (n.procs[i] != s.procs[i] ==> t.SeeZero? || t.ReturnNil?);
      }
    }
  }

  lemma GrantedTaken(s: State)
    requires Counted(s)
    ensures Sum(s.procs, Granted) <= s.active
  {
    SumMonotone(s.procs, Granted, Slots);
  }

  /** A slot is granted only while the total, granted or not, is within the limit. */
  lemma GrantedKept(max: int, s: State, t: Step)
    requires Counted(s) && Enabled(s, t) && Sum(s.procs, Granted) <= max
    ensures Sum(Next(max, s, t).procs, Granted) <= max
  {
    hide Sum, Counted;
    var n := Next(max, s, t);
    if t.Arrive? || t.Call? {
      Added(s.procs, if t.Arrive? then Arrived else Called);
    } else if t.Start? {
      Moved(s.procs, t.i, Leaving);
      Added(s.procs[t.i := Leaving], Serving);
    } else {
      Moved(s.procs, t.i, n.procs[t.i]);
      GrantedTaken(s);
    }
  }

  lemma {:induction false} RunKeeps(max: int, states: seq<State>, steps: seq<Step>, i: nat)
    requires IsRun(max, states, steps) && i < |states| && 0 <= max
    ensures Inv(max, states[i])
  {
    hide Counted, FlagOk, DrainedOk, Enabled, Next;
    if i == 0 {
      StartOk(states[0]);
    } else {
      RunKeeps(max, states, steps, i - 1);
      CountedKept(max, states[i - 1], steps[i - 1]);
      FlagKept(max, states[i - 1], steps[i - 1]);
      DrainedKept(max, states[i - 1], steps[i - 1]);
      GrantedKept(max, states[i - 1], steps[i - 1]);
    }
  }

  lemma StartOk(s: State)
    requires s == State(false, false, 0, 0, [])
    ensures Counted(s) && FlagOk(s) && DrainedOk(s) && Sum(s.procs, Granted) == 0
  {
  }

  // ---- The promises -----------------------------------------------------------------------------------

  /** Once the server has begun to close, no Add raises the wait group from zero, so none
      races with a Wait that is about to return. */
  lemma NoAddFromZero(max: int, states: seq<State>, steps: seq<Step>, i: nat)
    requires IsRun(max, states, steps) && 0 <= max && i < |steps| && IsAdd(steps[i]) && states[i].closed
    ensures states[i].counter >= 1
  {
    hide Counted, FlagOk, DrainedOk, Next;
    RunKeeps(max, states, steps, i);
    AddFindsToken(states[i], steps[i]);
  }

  /** Never more connections than the limit hold a granted slot. */
  lemma SlotsWithinLimit(max: int, states: seq<State>, steps: seq<Step>, i: nat)
    requires IsRun(max, states, steps) && 0 <= max && i < |states|
    ensures Sum(states[i].procs, Granted) <= max
  {
    hide Counted, FlagOk, DrainedOk, Next, Enabled;
    RunKeeps(max, states, steps, i);
  }

  /** Nothing is left running: no slot, no token, no connection goroutine, nobody admitted. */
  ghost predicate Quiet(s: State)
  {
    && s.active == 0 && s.counter == 0
    && forall k :: 0 <= k < |s.procs| ==> Tokens(s.procs[k]) == 0 && Slots(s.procs[k]) == 0
  }

  lemma DrainedIsQuiet(s: State)
    requires Counted(s) && s.counter == 0
    ensures Quiet(s)
  {
    SumMonotone(s.procs, Slots, Tokens);
    forall k: nat | k < |s.procs| ensures Tokens(s.procs[k]) == 0 && Slots(s.procs[k]) == 0 {
      SumAtLeast(s.procs, Tokens, k);
    }
  }

  lemma {:induction false} StaysDrained(max: int, states: seq<State>, steps: seq<Step>, i: nat, j: nat)
    requires IsRun(max, states, steps) && 0 <= max && i <= j < |states| && states[i].closed && states[i].counter == 0
    ensures states[j].closed && states[j].counter == 0
    decreases j - i
  {
    hide Counted, FlagOk, DrainedOk, Next, Enabled;
    if i < j {
      StaysDrained(max, states, steps, i, j - 1);
      RunKeeps(max, states, steps, j - 1);
      DrainedStays(max, states[j - 1], steps[j - 1]);
    }
  }

  /** Once some shutdown call returned nil, the server is quiet, and stays so forever. */
  lemma ShutdownIsFinal(max: int, states: seq<State>, steps: seq<Step>, i: nat, k: nat, j: nat)
    requires IsRun(max, states, steps) && 0 <= max && i <= j < |states|
    requires k < |states[i].procs| && states[i].procs[k] == Returned(true)
    ensures Quiet(states[j])
  {
    hide Counted, Next, Enabled, IsRun, Quiet;
    RunKeeps(max, states, steps, i);
    RunKeeps(max, states, steps, j);
    StaysDrained(max, states, steps, i, j);
    DrainedIsQuiet(states[j]);
  }

  /** Whoever asks after the flag is set is turned away: from then on, nobody registers as
      admitted. */
  lemma {:induction false} ClosedAdmitsNobody(max: int, states: seq<State>, steps: seq<Step>, i: nat, j: nat)
    requires IsRun(max, states, steps) && 0 <= max && i <= j < |states| && states[i].closed
    ensures states[j].closed && (j < |steps| ==> !steps[j].AddToken?)
    decreases j - i
  {
    hide Counted, DrainedOk;
    RunKeeps(max, states, steps, j);
    if i < j {
      ClosedAdmitsNobody(max, states, steps, i, j - 1);
    }
  }
}
