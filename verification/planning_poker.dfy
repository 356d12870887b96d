/** Finding the players with the lowest and the highest estimate in a
    planning-poker round (planning_poker/src/main.rs). The Rust function
    returns references into the slice; here it returns their indices. */
module PlanningPoker {
  import opened Wrappers

  datatype Estimate = Estimate(player: string, estimate: nat)

  datatype PlanningPokerError = NotEnoughPlayers(got: nat)

  /** `lo` is the first index holding the smallest estimate. */
  ghost predicate IsLowest(es: seq<Estimate>, lo: nat) {
    && lo < |es|
    && (forall j :: 0 <= j < |es| ==> es[lo].estimate <= es[j].estimate)
    && (forall j :: 0 <= j < lo ==> es[j].estimate > es[lo].estimate)
  }

  /** `hi` holds the largest estimate, and ties are broken in the order in
      which the Rust loop meets them: index 1 (the starting candidate)
      first, then index 0, then indices 2, 3, ... in order. */
  ghost predicate IsHighest(es: seq<Estimate>, hi: nat) {
    && 2 <= |es|
    && hi < |es|
    && (forall j :: 0 <= j < |es| ==> es[j].estimate <= es[hi].estimate)
    && (hi != 1 ==> es[1].estimate < es[hi].estimate)
    && (hi >= 2 ==> es[0].estimate < es[hi].estimate)
    && (forall j :: 2 <= j < hi ==> es[j].estimate < es[hi].estimate)
  }

  method FindExtremes(es: seq<Estimate>) returns (r: Result<(nat, nat), PlanningPokerError>)
    ensures |es| < 2 <==> r.Err?
    ensures r.Err? ==> r.error == NotEnoughPlayers(|es|)
    ensures r.Ok? ==> IsLowest(es, r.value.0) && IsHighest(es, r.value.1)
  {
    if |es| < 2 {
      return Err(NotEnoughPlayers(|es|));
    }
    var lowest := 0;
    var highest := 1;
    var i := 0;
    while i < |es|
      invariant 0 <= i <= |es|
      invariant lowest < |es| && lowest <= (if i == 0 then 0 else i - 1)
      invariant forall j :: 0 <= j < i ==> es[lowest].estimate <= es[j].estimate
      invariant forall j :: 0 <= j < lowest ==> es[j].estimate > es[lowest].estimate
      invariant highest < |es| && (highest == 1 || highest < i)
      invariant forall j :: 0 <= j < i ==> es[j].estimate <= es[highest].estimate
      invariant highest != 1 ==> es[1].estimate < es[highest].estimate
      invariant highest >= 2 ==> es[0].estimate < es[highest].estimate
      invariant forall j :: 2 <= j < highest ==> es[j].estimate < es[highest].estimate
    {
      if es[i].estimate < es[lowest].estimate {
        lowest := i;
      }
      if es[i].estimate > es[highest].estimate {
        highest := i;
      }
      i := i + 1;
    }
    r := Ok((lowest, highest));
  }

  /** The lowest and highest estimates are unique answers: the contract of
      `FindExtremes` leaves no choice. */
  lemma ExtremesDetermined(es: seq<Estimate>, lo1: nat, hi1: nat, lo2: nat, hi2: nat)
    requires IsLowest(es, lo1) && IsHighest(es, hi1)
    requires IsLowest(es, lo2) && IsHighest(es, hi2)
    ensures lo1 == lo2 && hi1 == hi2
  {
  }

  /** All equal estimates give the first player as lowest and the second as
      highest. */
  lemma AllEqualExample(lo: nat, hi: nat)
    requires var es := [Estimate("player_1", 2), Estimate("player_2", 2), Estimate("player_3", 2)];
      IsLowest(es, lo) && IsHighest(es, hi)
    ensures lo == 0 && hi == 1
  {
  }

  /** Estimates [4, 2] give (1, 0); adding a third estimate 1 gives (2, 0). */
  lemma DistinctExamples(lo: nat, hi: nat, lo3: nat, hi3: nat)
    requires var es := [Estimate("player_1", 4), Estimate("player_2", 2)];
      IsLowest(es, lo) && IsHighest(es, hi)
    requires var es := [Estimate("player_1", 4), Estimate("player_2", 2), Estimate("player_3", 1)];
      IsLowest(es, lo3) && IsHighest(es, hi3)
    ensures lo == 1 && hi == 0
    ensures lo3 == 2 && hi3 == 0
  {
    var es := [Estimate("player_1", 4), Estimate("player_2", 2), Estimate("player_3", 1)];
    assert es[lo3].estimate <= es[2].estimate;
    assert es[0].estimate <= es[hi3].estimate;
  }
}
