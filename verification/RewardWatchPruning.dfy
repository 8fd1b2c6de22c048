/** How far rounds may fall back before the watcher shows that it drops old rows. */
module RewardWatchPruning {
  import opened Wrappers
  import DelinquentDigest
  import opened RewardWatch
  import opened RewardWatchRuns

  // ---- a run in which dropping a row shows ---------------------------------------------

  /** A round in which no orchestrator has called reward yet: one page, and nothing on it. */
  const NO_REWARDS: DelinquentDigest.EventPages := [[]]

  lemma NobodyIsRewarded()
    ensures AddressesIn(Some(NO_REWARDS)) == Some({})
  {
    var pages: seq<DelinquentDigest.EventPage> := NO_REWARDS;
    assert pages == [[]] && pages[..0] == [];
    assert DelinquentDigest.RewardedAddresses(pages)
      == DelinquentDigest.RewardedAddresses(pages[..0]) + DelinquentDigest.PageAddresses(pages[0]) == {};
  }

  const NOBODY := CurrentView(None, [], _ => Unavailable, _ => false, None)
  const UNINDEXED := ClosedView(None, None, [], _ => Unavailable, _ => false)

  /** One rung, due at the end of a round of one block. */
  const ONE_RUNG := Settings(100, 1, 100, 1, false)

  /** A tick that finds nothing to do. */
  function Quiet(round: int): Tick {
    Tick(round, 0, 0, UNINDEXED, 0, NOBODY, 0)
  }

  /** The round before `round` is settled, with nobody subscribed. */
  function Settling(round: int): Tick {
    Tick(round, 0, 0, ClosedView(Some(true), Some(NO_REWARDS), [], _ => Unavailable, _ => false), 2, NOBODY, 0)
  }

  /** An orchestrator with subscribers that has not called reward by the end of `round`. */
  function Late(round: int, orch: Address): Tick {
    Tick(round, 0, 12, UNINDEXED, 0, CurrentView(Some(NO_REWARDS), [orch], _ => Active, _ => true, None), 2)
  }

  lemma QuietDoesNothing(prunes: bool, st: State, round: int)
    ensures TickEffects(ONE_RUNG, prunes, st, Quiet(round)) == []
  {
  }

  lemma SettlingPrunes(prunes: bool, st: State, round: int)
    requires st.missedDone.Some? && st.missedDone.value < round - 1
    ensures TickEffects(ONE_RUNG, prunes, st, Settling(round))
      == [SetMissedDone(round - 1), PruneBefore(round - PRUNE_KEEP_ROUNDS)]
  {
    var t := Settling(round);
    assert Pass([], MissedSteps(st.rows, t)) == [];
    assert MissedPlan(st, t) == [SetMissedDone(round - 1), PruneBefore(round - PRUNE_KEEP_ROUNDS)];
  }

  lemma LateClimbs(prunes: bool, st: State, round: int, orch: Address)
    ensures TickEffects(ONE_RUNG, prunes, st, Late(round, orch))
      == if AlertsSent(st.rows, round, orch) >= 1 then [] else [LadderDm(round, orch), SetAlertsSent(round, orch, 1)]
  {
    var t := Late(round, orch);
    assert MissedEffects(st, t) == [];
    assert Pct(ONE_RUNG, t) == 100.0;
    assert Due(ONE_RUNG, t) == 1;
    NobodyIsRewarded();
    var resolved, ladder := ResolvedSteps(t, {}), LadderSteps(st.rows, t, {}, 1);
    assert [orch][..0] == [];
    assert Pass([orch], resolved) == Pass([], resolved) + resolved(orch);
    assert Pass([orch], ladder) == Pass([], ladder) + ladder(orch);
  }

  /** `round` is settled and dropped by tick `i`, which observes `high`, and observed by tick `j`; the rest is quiet. */
  datatype Fall = Fall(rounds: seq<int>, i: nat, j: nat)

  /** The later of the two is more than eight rounds below the earlier. */
  predicate FallsTooFar(f: Fall) {
    f.i < f.j < |f.rounds| && f.rounds[f.i] > f.rounds[f.j] + PRUNE_KEEP_ROUNDS
  }

  function TickOf(f: Fall, orch: Address, k: nat): Tick
    requires k < |f.rounds|
  {
    if k == f.i then Settling(f.rounds[k]) else if k == f.j then Late(f.rounds[k], orch) else Quiet(f.rounds[k])
  }

  /** The first `n` ticks. */
  function TicksOf(f: Fall, orch: Address, n: nat): (ticks: seq<Tick>)
    requires n <= |f.rounds|
    ensures |ticks| == n && forall k | 0 <= k < n :: ticks[k] == TickOf(f, orch, k)
    decreases n
  {
    if n == 0 then [] else TicksOf(f, orch, n - 1) + [TickOf(f, orch, n - 1)]
  }

  /** The one rung of the round is recorded already. */
  function Start(f: Fall, orch: Address): State
    requires FallsTooFar(f)
  {
    State(map[(f.rounds[f.j], orch) := WatchRow(1, None, None)], Some(f.rounds[f.i] - 2), None)
  }

  function LogOf(prunes: bool, f: Fall, orch: Address, n: nat): seq<Effect>
    requires FallsTooFar(f)
  {
    var high, round := f.rounds[f.i], f.rounds[f.j];
    (if n > f.i then [SetMissedDone(high - 1), PruneBefore(high - PRUNE_KEEP_ROUNDS)] else [])
    + if n > f.j && prunes then [LadderDm(round, orch), SetAlertsSent(round, orch, 1)] else []
  }

  lemma ApplyTwo(prunes: bool, st: State, e: Effect, f: Effect)
    ensures ApplyAll(prunes, st, [e, f]) == Apply(prunes, Apply(prunes, st, e), f)
  {
    assert [e, f][..1] == [e] && [e][..0] == [];
    assert ApplyAll(prunes, st, [e]) == Apply(prunes, ApplyAll(prunes, st, []), e);
  }

  /** The store between the two ticks. */
  lemma StoreAfterSettling(prunes: bool, f: Fall, orch: Address)
    requires FallsTooFar(f)
    ensures AlertsSent(ApplyAll(prunes, Start(f, orch), LogOf(prunes, f, orch, f.j)).rows, f.rounds[f.j], orch)
      == if prunes then 0 else 1
  {
    var high := f.rounds[f.i];
    ApplyTwo(prunes, Start(f, orch), SetMissedDone(high - 1), PruneBefore(high - PRUNE_KEEP_ROUNDS));
    assert LogOf(prunes, f, orch, f.j) == [SetMissedDone(high - 1), PruneBefore(high - PRUNE_KEEP_ROUNDS)];
  }

  /** What tick `k` does. */
  function EffectsOf(prunes: bool, f: Fall, orch: Address, k: nat): seq<Effect>
    requires FallsTooFar(f)
  {
    var high, round := f.rounds[f.i], f.rounds[f.j];
    if k == f.i then [SetMissedDone(high - 1), PruneBefore(high - PRUNE_KEEP_ROUNDS)]
    else if k == f.j && prunes then [LadderDm(round, orch), SetAlertsSent(round, orch, 1)]
    else []
  }

  lemma EffectsAreRecorded(f: Fall, orch: Address, k: nat)
    requires FallsTooFar(f)
    ensures !Unrecorded(EffectsOf(true, f, orch, k), f.rounds[f.j], orch)
  {
    if k == f.j {
      assert EffectsOf(true, f, orch, k)[1] == SetAlertsSent(f.rounds[k], orch, 1);
    }
  }

  lemma LogOfSnoc(prunes: bool, f: Fall, orch: Address, k: nat)
    requires FallsTooFar(f)
    ensures LogOf(prunes, f, orch, k + 1) == LogOf(prunes, f, orch, k) + EffectsOf(prunes, f, orch, k)
  {
  }

  lemma TickOfDoes(prunes: bool, f: Fall, orch: Address, k: nat)
    requires FallsTooFar(f) && k < |f.rounds|
    ensures var st := ApplyAll(prunes, Start(f, orch), LogOf(prunes, f, orch, k));
      TickEffects(ONE_RUNG, prunes, st, TickOf(f, orch, k)) == EffectsOf(prunes, f, orch, k)
  {
    var st := ApplyAll(prunes, Start(f, orch), LogOf(prunes, f, orch, k));
    if k == f.i {
      assert LogOf(prunes, f, orch, k) == [];
      SettlingPrunes(prunes, st, f.rounds[k]);
    } else if k == f.j {
      StoreAfterSettling(prunes, f, orch);
      LateClimbs(prunes, st, f.rounds[k], orch);
    } else {
      QuietDoesNothing(prunes, st, f.rounds[k]);
    }
  }

  /** A run with one more tick, whose effects are known. */
  lemma OneMoreTick(s: Settings, prunes: bool, st: State, ticks: seq<Tick>, t: Tick, es: seq<Effect>)
    requires ValidSettings(s) && TickEffects(s, prunes, Final(s, prunes, st, ticks), t) == es
    ensures Log(s, prunes, st, ticks + [t]) == Log(s, prunes, st, ticks) + es
    ensures prunes ==> forall round, orch ::
      UnrecordedTicks(s, st, ticks + [t], round, orch)
        == UnrecordedTicks(s, st, ticks, round, orch) + if Unrecorded(es, round, orch) then 1 else 0
  {
    assert (ticks + [t])[..|ticks|] == ticks;
  }

  /** What the run does; and it records every rung it sends. */
  lemma {:induction false} FallDoes(prunes: bool, f: Fall, orch: Address, n: nat)
    requires FallsTooFar(f) && n <= |f.rounds|
    ensures Log(ONE_RUNG, prunes, Start(f, orch), TicksOf(f, orch, n)) == LogOf(prunes, f, orch, n)
    ensures prunes ==> UnrecordedTicks(ONE_RUNG, Start(f, orch), TicksOf(f, orch, n), f.rounds[f.j], orch) == 0
    decreases n
  {
    if n > 0 {
      FallDoes(prunes, f, orch, n - 1);
      TickOfDoes(prunes, f, orch, n - 1);
      var es := EffectsOf(prunes, f, orch, n - 1);
      OneMoreTick(ONE_RUNG, prunes, Start(f, orch), TicksOf(f, orch, n - 1), TickOf(f, orch, n - 1), es);
      LogOfSnoc(prunes, f, orch, n - 1);
      EffectsAreRecorded(f, orch, n - 1);
    }
  }

  lemma FallIsARun(f: Fall, orch: Address)
    requires FallsTooFar(f)
    ensures Rounds(TicksOf(f, orch, |f.rounds|)) == f.rounds && ValidTicks(TicksOf(f, orch, |f.rounds|))
  {
  }

  /** Over the whole run the watcher messages once more than the ladder allows, and than one that keeps every row. */
  lemma FallShows(f: Fall, orch: Address)
    requires FallsTooFar(f)
    ensures var st, ticks := Start(f, orch), TicksOf(f, orch, |f.rounds|);
      !LadderBounded(ONE_RUNG, st, ticks, f.rounds[f.j], orch) && !PruningInvisible(ONE_RUNG, st, ticks)
  {
    var n := |f.rounds|;
    FallDoes(true, f, orch, n);
    FallDoes(false, f, orch, n);
    assert LogOf(true, f, orch, n)[2] == LadderDm(f.rounds[f.j], orch);
    assert multiset(LogOf(true, f, orch, n))[LadderDm(f.rounds[f.j], orch)] > 0;
  }

  // ---- the exact conditions --------------------------------------------------------------

  /**
    Over every order in which rounds can be observed: pruning never shows, whatever the store, the settings
    and everything else a tick sees, exactly when no round is more than eight below one observed before it.
  */
  lemma PruningInvisibleExactly(rounds: seq<int>)
    ensures (forall s, st, ticks | ValidSettings(s) && Rounds(ticks) == rounds :: PruningInvisible(s, st, ticks))
      <==> StayRecent(rounds)
  {
    if StayRecent(rounds) {
      forall s, st, ticks | ValidSettings(s) && Rounds(ticks) == rounds ensures PruningInvisible(s, st, ticks) {
        PruningIsInvisible(s, st, ticks);
      }
    } else {
      var i, j :| 0 <= i < j < |rounds| && rounds[j] < rounds[i] - PRUNE_KEEP_ROUNDS;
      var f := Fall(rounds, i, j);
      FallIsARun(f, "");
      FallShows(f, "");
    }
  }

  /**
    And the ladder of one round is bounded in all of them exactly when that round is not observed again
    after one more than eight above it.
  */
  lemma LadderBoundedExactly(rounds: seq<int>, round: int)
    ensures (forall s, st, ticks, orch | ValidSettings(s) && ValidTicks(ticks) && Rounds(ticks) == rounds ::
               LadderBounded(s, st, ticks, round, orch))
      <==> SeenWhileKept(rounds, round)
  {
    if SeenWhileKept(rounds, round) {
      forall s, st, ticks, orch | ValidSettings(s) && ValidTicks(ticks) && Rounds(ticks) == rounds
        ensures LadderBounded(s, st, ticks, round, orch)
      {
        LadderIsBounded(s, st, ticks, round, orch);
      }
    } else {
      var i, j :| 0 <= i < j < |rounds| && rounds[j] == round && rounds[i] > round + PRUNE_KEEP_ROUNDS;
      var f := Fall(rounds, i, j);
      FallIsARun(f, "");
      FallShows(f, "");
    }
  }
}
