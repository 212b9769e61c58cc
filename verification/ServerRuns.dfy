/** Runs in which the driver-stream server does its work: it serves as many connections at once
    as its limit allows, and a shutdown that waits for them succeeds. */
module ServerRuns {
  import opened IngestShutdown

  // ---- A slot is refused only when the server is full --------------------------------------------

  predicate HoldsSlot(p: Phase)
  {
    p.OverLimit? || p.Slot? || p.Upgraded? || p.Spawning? || p.Serving?
  }

  ghost function Holders(ps: seq<Phase>): (r: set<nat>)
    ensures forall i: nat :: i in r <==> i < |ps| && HoldsSlot(ps[i])
  {
    set i: nat | i < |ps| && HoldsSlot(ps[i])
  }

  lemma {:induction false} SlotsAreHolders(ps: seq<Phase>)
    ensures Sum(ps, Slots) == |Holders(ps)|
  {
    if ps == [] {
      assert Holders(ps) == {};
    } else {
      var init, last := ps[..|ps| - 1], ps[|ps| - 1];
      SlotsAreHolders(init);
      assert Holders(ps) == Holders(init) + if HoldsSlot(last) then {|init|} else {};
    }
  }

  /** Who asks for a slot gets one exactly while fewer than `max` goroutines hold one. */
  lemma RefusedOnlyWhenFull(max: int, s: State, i: nat)
    requires Counted(s) && Enabled(s, TakeSlot(i))
    ensures var t := Next(max, s, TakeSlot(i));
            && |t.procs| == |s.procs|
            && (t.procs[i] == Slot <==> |Holders(s.procs)| < max)
            && (t.procs[i] == OverLimit <==> max <= |Holders(s.procs)|)
  {
    hide Sum, Holders;
    SlotsAreHolders(s.procs);
  }

  // ---- Runs, step by step ------------------------------------------------------------------------------

  ghost predicate Reaches(max: int, s: State)
  {
    exists states, steps :: IsRun(max, states, steps) && states[|states| - 1] == s
  }

  lemma ReachesStart(max: int)
    ensures Reaches(max, State(false, false, 0, 0, []))
  {
    var s := State(false, false, 0, 0, []);
    assert IsRun(max, [s], []) && [s][|[s]| - 1] == s;
  }

  lemma Onwards(max: int, s: State, t: Step, n: State)
    requires Reaches(max, s) && Enabled(s, t) && n == Next(max, s, t)
    ensures Reaches(max, n)
  {
    hide Enabled, Next;
    var states, steps :| IsRun(max, states, steps) && states[|states| - 1] == s;
    var more, further := states + [n], steps + [t];
    forall i | 0 <= i < |further| ensures Enabled(more[i], further[i]) && more[i + 1] == Next(max, more[i], further[i]) {
      if i < |steps| {
        assert more[i] == states[i] && more[i + 1] == states[i + 1];
      }
    }
    assert IsRun(max, more, further) && more[|more| - 1] == n;
  }

  /** Every even goroutine is a handler that has finished, every odd one its connection. */
  function Connections(n: nat): (ps: seq<Phase>)
    ensures |ps| == 2 * n
    ensures forall i :: 0 <= i < n ==> ps[2 * i] == Gone && ps[2 * i + 1] == Serving
  {
    if n == 0 then [] else Connections(n - 1) + [Gone, Serving]
  }

  function Busy(n: nat): State
  {
    State(false, false, n, n, Connections(n))
  }

  /** `n` connections are served and one more handler is in this phase. */
  function With(n: nat, p: Phase, locked: bool, counter: int, active: int): State
  {
    State(false, locked, counter, active, Connections(n) + [p])
  }

  lemma Become(n: nat, p: Phase, q: Phase)
    ensures (Connections(n) + [p])[2 * n := q] == Connections(n) + [q]
    ensures (Connections(n) + [p])[2 * n] == p
  {
  }

  /** Admission: the handler gets its token. */
  lemma Admitted(max: int, n: nat)
    requires Reaches(max, Busy(n))
    ensures Reaches(max, With(n, Token, false, n + 1, n))
  {
    hide Connections, Reaches;
    var i := 2 * n;
    Onwards(max, Busy(n), Arrive, With(n, Arrived, false, n, n));
    Become(n, Arrived, AdmitLocked);
    Onwards(max, With(n, Arrived, false, n, n), Lock(i), With(n, AdmitLocked, true, n, n));
    Become(n, AdmitLocked, SawOpen);
    Onwards(max, With(n, AdmitLocked, true, n, n), Look(i), With(n, SawOpen, true, n, n));
    Become(n, SawOpen, AdmitCounted);
    Onwards(max, With(n, SawOpen, true, n, n), AddToken(i), With(n, AdmitCounted, true, n + 1, n));
    Become(n, AdmitCounted, Token);
    Onwards(max, With(n, AdmitCounted, true, n + 1, n), Unlock(i), With(n, Token, false, n + 1, n));
  }

  /** The handler gets a slot, upgrades, and leaves the connection behind. */
  lemma Served(max: int, n: nat)
    requires n < max && Reaches(max, With(n, Token, false, n + 1, n))
    ensures Reaches(max, Busy(n + 1))
  {
    hide Connections, Reaches;
    var i := 2 * n;
    Become(n, Token, Slot);
    Onwards(max, With(n, Token, false, n + 1, n), TakeSlot(i), With(n, Slot, false, n + 1, n + 1));
    Become(n, Slot, Upgraded);
    Onwards(max, With(n, Slot, false, n + 1, n + 1), Upgrade(i), With(n, Upgraded, false, n + 1, n + 1));
    Become(n, Upgraded, Spawning);
    Onwards(max, With(n, Upgraded, false, n + 1, n + 1), AddForConn(i), With(n, Spawning, false, n + 2, n + 1));
    Become(n, Spawning, Leaving);
    Parted(max, n);
  }

  lemma Parted(max: int, n: nat)
    requires Reaches(max, With(n, Spawning, false, n + 2, n + 1))
    ensures Reaches(max, Busy(n + 1))
  {
    hide Reaches;
    var i := 2 * n;
    var both := State(false, false, n + 2, n + 1, Connections(n) + [Leaving] + [Serving]);
    Become(n, Spawning, Leaving);
    Onwards(max, With(n, Spawning, false, n + 2, n + 1), Start(i), both);
    assert both.procs[i] == Leaving;
    assert both.procs[i := Gone] == Connections(n) + [Gone, Serving];
    Onwards(max, both, Done(i), Busy(n + 1));
  }

  /** Any number of connections up to the limit can be served at once. */
  lemma {:induction false} ServesUpToLimit(max: int, n: nat)
    requires n <= max
    ensures Reaches(max, Busy(n))
  {
    hide Reaches;
    if n == 0 {
      ReachesStart(max);
      assert Connections(0) == [];
    } else {
      ServesUpToLimit(max, n - 1);
      Admitted(max, n - 1);
      Served(max, n - 1);
    }
  }

  lemma NothingHeld(weight: Phase -> nat)
    ensures Sum([], weight) == 0
  {
  }

  lemma {:induction false} ConnectionsHoldSlots(n: nat)
    ensures Sum(Connections(n), Slots) == n
  {
    hide Sum;
    if n == 0 {
      NothingHeld(Slots);
    } else {
      ConnectionsHoldSlots(n - 1);
      SumAppend(Connections(n - 1), Slots, Gone);
      SumAppend(Connections(n - 1) + [Gone], Slots, Serving);
      assert Connections(n) == Connections(n - 1) + [Gone] + [Serving];
    }
  }

  /** There is a run at whose end exactly `max` goroutines hold a slot, and each of them is
      serving its connection. */
  lemma FullHouse(max: nat) returns (states: seq<State>, steps: seq<Step>)
    ensures IsRun(max, states, steps)
    ensures var end := states[|states| - 1];
            |Holders(end.procs)| == max && forall i :: i in Holders(end.procs) ==> end.procs[i] == Serving
  {
    ServesUpToLimit(max, max);
    states, steps :| IsRun(max, states, steps) && states[|states| - 1] == Busy(max);
    ConnectionsHoldSlots(max);
    SlotsAreHolders(Connections(max));
    hide IsRun;
    OnlyServing(max);
  }

  lemma {:induction false} OnlyServing(n: nat)
    ensures forall i :: i in Holders(Connections(n)) ==> Connections(n)[i] == Serving
  {
    if n > 0 {
      OnlyServing(n - 1);
      forall i | i in Holders(Connections(n)) ensures Connections(n)[i] == Serving {
        if i < 2 * (n - 1) {
          assert Connections(n)[i] == Connections(n - 1)[i];
          assert i in Holders(Connections(n - 1));
        }
      }
    }
  }

  // ---- ... and a shutdown that waits for them succeeds ------------------------------------------------------

  /** The first `k` connections have ended, and their goroutines with them. */
  function Thinned(n: nat, k: nat): (ps: seq<Phase>)
    requires k <= n
    ensures |ps| == 2 * n
  {
    seq(2 * n, i requires 0 <= i < 2 * n => if i % 2 == 1 && i / 2 >= k then Serving else Gone)
  }

  function Draining(n: nat, k: nat, p: Phase): State
    requires k <= n
  {
    State(true, false, n - k, n - k, Thinned(n, k) + [p])
  }

  lemma AllThere(n: nat)
    ensures Connections(n) == Thinned(n, 0)
  {
    forall i | 0 <= i < 2 * n ensures Connections(n)[i] == Thinned(n, 0)[i] {
      assert i == 2 * (i / 2) || i == 2 * (i / 2) + 1;
    }
  }

  lemma Closing(max: int, n: nat)
    requires Reaches(max, Busy(n))
    ensures Reaches(max, Draining(n, 0, Waiting))
  {
    hide Connections, Reaches, Thinned;
    var i := 2 * n;
    AllThere(n);
    Onwards(max, Busy(n), Call, With(n, Called, false, n, n));
    Become(n, Called, CloseLocked);
    Onwards(max, With(n, Called, false, n, n), Lock(i), With(n, CloseLocked, true, n, n));
    Become(n, CloseLocked, Flagged);
    var flagged := State(true, true, n, n, Connections(n) + [Flagged]);
    Onwards(max, With(n, CloseLocked, true, n, n), SetFlag(i), flagged);
    Become(n, Flagged, Waiting);
    Onwards(max, flagged, Unlock(i), Draining(n, 0, Waiting));
  }

  lemma OneEnds(max: int, n: nat, k: nat)
    requires k < n && Reaches(max, Draining(n, k, Waiting))
    ensures Reaches(max, Draining(n, k + 1, Waiting))
  {
    hide Reaches;
    var i := 2 * k + 1;
    var s := Draining(n, k, Waiting);
    assert i % 2 == 1 && i / 2 == k;
    var t := Next(max, s, DropSlot(i));
    Onwards(max, s, DropSlot(i), t);
    var ended, thinned := t.procs[i := Gone], Thinned(n, k + 1);
    forall j | 0 <= j < 2 * n ensures ended[j] == thinned[j] {
      assert j % 2 == 1 && j / 2 == k ==> j == i;
    }
    assert ended == thinned + [Waiting];
    Onwards(max, t, Done(i), Draining(n, k + 1, Waiting));
  }

  lemma {:induction false} AllEnd(max: int, n: nat, k: nat)
    requires k <= n && Reaches(max, Draining(n, 0, Waiting))
    ensures Reaches(max, Draining(n, k, Waiting))
  {
    hide Reaches, Draining;
    if k > 0 {
      AllEnd(max, n, k - 1);
      OneEnds(max, n, k - 1);
    }
  }

  /** There is a run in which `n` connections are served at once, a shutdown is called, they
      end, and it returns nil. */
  lemma ShutdownSucceeds(max: int, n: nat)
    requires n <= max
    ensures Reaches(max, Draining(n, n, Returned(true)))
  {
    hide Reaches, Thinned;
    ServesUpToLimit(max, n);
    Closing(max, n);
    AllEnd(max, n, n);
    var i := 2 * n;
    var waiting, over := Draining(n, n, Waiting), Draining(n, n, WaitOver);
    assert waiting.procs[i := WaitOver] == over.procs;
    Onwards(max, waiting, SeeZero(i), over);
    assert over.procs[i := Returned(true)] == Draining(n, n, Returned(true)).procs;
    Onwards(max, over, ReturnNil(i), Draining(n, n, Returned(true)));
  }
}
