/** What a batch response means: every rider answered once, no driver used twice, and the
    reasons given to unmatched riders. */
module BatchOutcome {
  import opened Basics
  import opened MatchingNetwork
  import opened CostMatrix

  datatype Reason = NoDriverAvailable | NoCandidatesInShortlist | AllCandidatesAboveCutoff | Unreachable

  datatype Match = Match(riderId: string, driverId: string, etaSeconds: Option<int>)

  datatype Unmatched = Unmatched(riderId: string, reason: Reason)

  ghost predicate HasOffer(edges: seq<MatchEdge>, i: int)
  {
    exists e :: e in edges && e.rider == i
  }

  // ---- The cost ceiling -------------------------------------------------------------------------

  /** The edges within the limit, in their order; without a limit, all of them. */
  function Within(edges: seq<MatchEdge>, limit: Option<int>): (r: seq<MatchEdge>)
    ensures forall e :: e in r <==> e in edges && (limit.Some? ==> e.cost <= limit.value)
  {
    if limit.None? then edges
    else if edges == [] then []
    else
      var last := edges[|edges| - 1];
      assert edges == edges[..|edges| - 1] + [last];
      Within(edges[..|edges| - 1], limit) + if last.cost <= limit.value then [last] else []
  }

  lemma {:induction false} WithinKeepsPairsOnce(edges: seq<MatchEdge>, limit: Option<int>)
    requires PairsOnce(edges)
    ensures PairsOnce(Within(edges, limit))
  {
    if limit.Some? && edges != [] {
      var last := edges[|edges| - 1];
      WithinKeepsPairsOnce(edges[..|edges| - 1], limit);
      if last.cost <= limit.value {
        PairAdded(Within(edges[..|edges| - 1], limit), last);
      }
    }
  }

  // ---- The rows of the response -------------------------------------------------------------------

  /** Whole seconds for a cost in integer units, halves rounded up. */
  function EtaOf(cost: int): int
  {
    (cost as real / COST_SCALE + 0.5).Floor
  }

  ghost function MatchRow(riders: seq<string>, drivers: seq<string>, kept: seq<MatchEdge>, a: seq<int>, timed: bool, i: nat): Match
    requires i < |riders| == |a| && 0 <= a[i] < |drivers|
  {
    Match(riders[i], drivers[a[i]], if timed then Some(EtaOf(PairCost(kept, i, a[i]))) else None)
  }

  /** Why rider `i` went unmatched, most specific reason first. */
  ghost function ReasonFor(edges: seq<MatchEdge>, kept: seq<MatchEdge>, timed: bool, i: nat): Reason
  {
    if !HasOffer(edges, i) then (if timed then Unreachable else NoCandidatesInShortlist)
    else if !HasOffer(kept, i) then AllCandidatesAboveCutoff
    else NoDriverAvailable
  }

  ghost predicate InRangeAnswer(riders: seq<string>, drivers: seq<string>, a: seq<int>)
  {
    |a| == |riders| && forall i :: 0 <= i < |a| ==> a[i] == -1 || 0 <= a[i] < |drivers|
  }

  ghost function MatchRows(riders: seq<string>, drivers: seq<string>, kept: seq<MatchEdge>, a: seq<int>, timed: bool,
                           m: nat): seq<Match>
    requires InRangeAnswer(riders, drivers, a) && m <= |a|
  {
    if m == 0 then []
    else
      var rows := MatchRows(riders, drivers, kept, a, timed, m - 1);
      if a[m - 1] >= 0 then rows + [MatchRow(riders, drivers, kept, a, timed, m - 1)] else rows
  }

  ghost function UnmatchedRows(riders: seq<string>, edges: seq<MatchEdge>, kept: seq<MatchEdge>, a: seq<int>, timed: bool,
                               m: nat): seq<Unmatched>
    requires m <= |a| == |riders|
  {
    if m == 0 then []
    else
      var rows := UnmatchedRows(riders, edges, kept, a, timed, m - 1);
      if a[m - 1] < 0 then rows + [Unmatched(riders[m - 1], ReasonFor(edges, kept, timed, m - 1))] else rows
  }

  lemma {:induction false} MatchRowOrigin(riders: seq<string>, drivers: seq<string>, kept: seq<MatchEdge>, a: seq<int>,
                                          timed: bool, m: nat, row: Match) returns (i: nat)
    requires InRangeAnswer(riders, drivers, a) && m <= |a| && row in MatchRows(riders, drivers, kept, a, timed, m)
    ensures i < m && a[i] >= 0 && row == MatchRow(riders, drivers, kept, a, timed, i)
  {
    hide MatchRow;
    i := m - 1;
    if a[i] < 0 || row != MatchRow(riders, drivers, kept, a, timed, i) {
      i := MatchRowOrigin(riders, drivers, kept, a, timed, m - 1, row);
    }
  }

  lemma {:induction false} MatchRowPresent(riders: seq<string>, drivers: seq<string>, kept: seq<MatchEdge>, a: seq<int>,
                                           timed: bool, m: nat, i: nat)
    requires InRangeAnswer(riders, drivers, a) && i < m <= |a| && a[i] >= 0
    ensures MatchRow(riders, drivers, kept, a, timed, i) in MatchRows(riders, drivers, kept, a, timed, m)
  {
    hide MatchRow;
    if i < m - 1 {
      MatchRowPresent(riders, drivers, kept, a, timed, m - 1, i);
    }
  }

  lemma {:induction false} UnmatchedRowOrigin(riders: seq<string>, edges: seq<MatchEdge>, kept: seq<MatchEdge>, a: seq<int>,
                                              timed: bool, m: nat, row: Unmatched) returns (i: nat)
    requires m <= |a| == |riders| && row in UnmatchedRows(riders, edges, kept, a, timed, m)
    ensures i < m && a[i] < 0 && row == Unmatched(riders[i], ReasonFor(edges, kept, timed, i))
  {
    hide ReasonFor;
    i := m - 1;
    if a[i] >= 0 || row != Unmatched(riders[i], ReasonFor(edges, kept, timed, i)) {
      i := UnmatchedRowOrigin(riders, edges, kept, a, timed, m - 1, row);
    }
  }

  // ---- Each rider once ------------------------------------------------------------------------------

  ghost function RiderIds(rows: seq<Match>): multiset<string>
  {
    if rows == [] then multiset{} else RiderIds(rows[..|rows| - 1]) + multiset{rows[|rows| - 1].riderId}
  }

  ghost function DriverIds(rows: seq<Match>): multiset<string>
  {
    if rows == [] then multiset{} else DriverIds(rows[..|rows| - 1]) + multiset{rows[|rows| - 1].driverId}
  }

  ghost function UnmatchedIds(rows: seq<Unmatched>): multiset<string>
  {
    if rows == [] then multiset{} else UnmatchedIds(rows[..|rows| - 1]) + multiset{rows[|rows| - 1].riderId}
  }

  lemma RowAppended(rows: seq<Match>, row: Match)
    ensures RiderIds(rows + [row]) == RiderIds(rows) + multiset{row.riderId}
    ensures DriverIds(rows + [row]) == DriverIds(rows) + multiset{row.driverId}
  {
    assert (rows + [row])[..|rows|] == rows;
  }

  lemma UnmatchedAppended(rows: seq<Unmatched>, row: Unmatched)
    ensures UnmatchedIds(rows + [row]) == UnmatchedIds(rows) + multiset{row.riderId}
  {
    assert (rows + [row])[..|rows|] == rows;
  }

  /** Matched and unmatched riders together are exactly the riders of the batch, each as
      often as it was submitted. */
  lemma {:induction false} EveryRiderOnce(riders: seq<string>, drivers: seq<string>, edges: seq<MatchEdge>,
                                          kept: seq<MatchEdge>, a: seq<int>, timed: bool, m: nat)
    requires InRangeAnswer(riders, drivers, a) && m <= |a|
    ensures RiderIds(MatchRows(riders, drivers, kept, a, timed, m))
          + UnmatchedIds(UnmatchedRows(riders, edges, kept, a, timed, m)) == multiset(riders[..m])
  {
    hide MatchRow, ReasonFor, RiderIds, DriverIds, UnmatchedIds, HasOffer;
    NoRows();
    if m > 0 {
      EveryRiderOnce(riders, drivers, edges, kept, a, timed, m - 1);
      OneMoreId(riders, m - 1);
      if a[m - 1] >= 0 {
        RowAppended(MatchRows(riders, drivers, kept, a, timed, m - 1), MatchRow(riders, drivers, kept, a, timed, m - 1));
        RowNames(riders, drivers, kept, a, timed, m - 1);
      } else {
        UnmatchedAppended(UnmatchedRows(riders, edges, kept, a, timed, m - 1),
                          Unmatched(riders[m - 1], ReasonFor(edges, kept, timed, m - 1)));
      }
    }
  }

  lemma OneMoreId(ids: seq<string>, k: nat)
    requires k < |ids|
    ensures multiset(ids[..k + 1]) == multiset(ids[..k]) + multiset{ids[k]}
  {
    assert ids[..k + 1] == ids[..k] + [ids[k]];
  }

  ghost function UsedBy(drivers: seq<string>, a: seq<int>, m: nat): set<string>
    requires m <= |a| && forall i :: 0 <= i < |a| ==> a[i] == -1 || 0 <= a[i] < |drivers|
  {
    set i | 0 <= i < m && a[i] >= 0 :: drivers[a[i]]
  }

  /** With distinct driver ids, no driver appears in two matches. */
  lemma {:induction false} NoDriverTwice(riders: seq<string>, drivers: seq<string>, kept: seq<MatchEdge>, a: seq<int>,
                                         timed: bool, m: nat)
    requires InRangeAnswer(riders, drivers, a) && m <= |a| && Distinct(drivers)
    requires forall i, j :: 0 <= i < j < |a| && a[i] != -1 ==> a[i] != a[j]
    ensures DriverIds(MatchRows(riders, drivers, kept, a, timed, m)) == multiset(UsedBy(drivers, a, m))
  {
    hide MatchRow, RiderIds, DriverIds, UnmatchedIds, UsedBy, Distinct;
    NoRows();
    UsedNone(drivers, a);
    if m > 0 {
      NoDriverTwice(riders, drivers, kept, a, timed, m - 1);
      if a[m - 1] >= 0 {
        RowAppended(MatchRows(riders, drivers, kept, a, timed, m - 1), MatchRow(riders, drivers, kept, a, timed, m - 1));
        RowNames(riders, drivers, kept, a, timed, m - 1);
        UsedStep(drivers, a, m - 1);
      } else {
        UsedSkips(drivers, a, m - 1);
      }
    }
  }

  lemma NoRows()
    ensures RiderIds([]) == DriverIds([]) == UnmatchedIds([]) == multiset{}
  {
  }

  lemma RowNames(riders: seq<string>, drivers: seq<string>, kept: seq<MatchEdge>, a: seq<int>, timed: bool, i: nat)
    requires i < |riders| == |a| && 0 <= a[i] < |drivers|
    ensures MatchRow(riders, drivers, kept, a, timed, i).riderId == riders[i]
    ensures MatchRow(riders, drivers, kept, a, timed, i).driverId == drivers[a[i]]
  {
  }

  lemma UsedNone(drivers: seq<string>, a: seq<int>)
    requires forall i :: 0 <= i < |a| ==> a[i] == -1 || 0 <= a[i] < |drivers|
    ensures UsedBy(drivers, a, 0) == {}
  {
  }

  lemma UsedSkips(drivers: seq<string>, a: seq<int>, m: nat)
    requires m < |a| && (forall i :: 0 <= i < |a| ==> a[i] == -1 || 0 <= a[i] < |drivers|) && a[m] < 0
    ensures UsedBy(drivers, a, m + 1) == UsedBy(drivers, a, m)
  {
  }

  lemma UsedStep(drivers: seq<string>, a: seq<int>, m: nat)
    requires m < |a| && (forall i :: 0 <= i < |a| ==> a[i] == -1 || 0 <= a[i] < |drivers|) && a[m] >= 0
    requires Distinct(drivers) && forall i, j :: 0 <= i < j < |a| && a[i] != -1 ==> a[i] != a[j]
    ensures UsedBy(drivers, a, m + 1) == UsedBy(drivers, a, m) + {drivers[a[m]]}
    ensures drivers[a[m]] !in UsedBy(drivers, a, m)
  {
    forall i | 0 <= i < m && a[i] >= 0 ensures drivers[a[i]] != drivers[a[m]] {
      assert a[i] != a[m];
      if a[i] < a[m] {
        assert drivers[a[i]] != drivers[a[m]];
      } else {
        assert drivers[a[m]] != drivers[a[i]];
      }
    }
  }

  // ---- What the reasons mean ---------------------------------------------------------------------------

  lemma {:induction false} OneMoreMatched(a: seq<int>, i: nat, d: int, m: nat)
    requires i < |a| && m <= |a| && a[i] == -1 && 0 <= d
    ensures MatchedUpTo(a[i := d], m) == MatchedUpTo(a, m) + if i < m then 1 else 0
  {
    if m > 0 {
      OneMoreMatched(a, i, d, m - 1);
    }
  }

  /** A rider left without a driver although it had usable edges: every driver it could
      have taken serves another rider. */
  lemma NoDriverAvailableMeansTaken(riders: nat, drivers: nat, kept: seq<MatchEdge>, a: seq<int>, i: nat, e: MatchEdge)
    requires IsOptimal(riders, drivers, kept, a) && i < riders && a[i] == -1
    requires e in kept && e.rider == i && 0 <= e.driver < drivers
    ensures exists h :: 0 <= h < riders && h != i && a[h] == e.driver
  {
    if forall h :: 0 <= h < riders ==> a[h] != e.driver {
      FreeDriverAddsOne(riders, drivers, kept, a, i, e);
    }
  }

  /** Giving an idle rider a free driver it was offered matches one rider more. */
  lemma FreeDriverAddsOne(riders: nat, drivers: nat, kept: seq<MatchEdge>, a: seq<int>, i: nat, e: MatchEdge)
    requires IsLegal(riders, drivers, kept, a) && i < riders && a[i] == -1
    requires e in kept && e.rider == i && 0 <= e.driver < drivers && forall h :: 0 <= h < riders ==> a[h] != e.driver
    ensures IsLegal(riders, drivers, kept, a[i := e.driver])
    ensures Matched(a[i := e.driver]) == Matched(a) + 1
  {
    var k :| 0 <= k < |kept| && kept[k] == e;
    assert IsOffered(kept, i, e.driver);
    OneMoreMatched(a, i, e.driver, riders);
  }

  /** If every pair is offered, a rider stays unmatched only when every driver is busy. */
  lemma DenseLeavesNobodyIdle(riders: nat, drivers: nat, kept: seq<MatchEdge>, a: seq<int>, i: nat, j: nat)
    requires IsOptimal(riders, drivers, kept, a) && i < riders && a[i] == -1 && j < drivers
    requires forall h, d :: 0 <= h < riders && 0 <= d < drivers ==> IsOffered(kept, h, d)
    ensures exists h :: 0 <= h < riders && h != i && a[h] == j
  {
    assert IsOffered(kept, i, j);
    var k :| 0 <= k < |kept| && kept[k].rider == i && kept[k].driver == j;
    NoDriverAvailableMeansTaken(riders, drivers, kept, a, i, kept[k]);
  }

  /** Where no pair is offered twice, the price of a pair is that of its one edge. */
  lemma OnlyPrice(kept: seq<MatchEdge>, k: nat)
    requires PairsOnce(kept) && k < |kept|
    ensures PairCost(kept, kept[k].rider, kept[k].driver) == kept[k].cost
  {
    assert Pick(kept, kept[k].rider, kept[k].driver, |kept|) == k;
  }

  /** A matched rider's edge respects the ceiling. */
  lemma MatchedWithinCeiling(riders: nat, drivers: nat, edges: seq<MatchEdge>, limit: Option<int>, a: seq<int>, i: nat)
    requires PairsOnce(edges) && IsLegal(riders, drivers, Within(edges, limit), a) && i < riders && a[i] != -1
    ensures exists e :: && e in edges && e.rider == i && e.driver == a[i]
                        && e.cost == PairCost(Within(edges, limit), i, a[i])
                        && (limit.Some? ==> e.cost <= limit.value)
  {
    var kept := Within(edges, limit);
    assert IsOffered(kept, i, a[i]);
    var k :| 0 <= k < |kept| && kept[k].rider == i && kept[k].driver == a[i];
    WithinKeepsPairsOnce(edges, limit);
    OnlyPrice(kept, k);
    assert kept[k] in kept;
  }

  /** Rounding twice: the reported whole seconds stay within half a second (and half a unit)
      of the driving time. */
  lemma EtaIsClose(secs: real, cost: int)
    requires cost == (secs * COST_SCALE + 0.5).Floor
    ensures -0.5005 <= EtaOf(cost) as real - secs <= 0.5005
  {
    assert cost as real <= secs * COST_SCALE + 0.5 < cost as real + 1.0;
    var x := cost as real / COST_SCALE;
    assert x * COST_SCALE == cost as real;
    assert EtaOf(cost) as real <= x + 0.5 < EtaOf(cost) as real + 1.0;
  }
}
