/** The missed-reward message is sent once, and a row's stamps are written once. */
module RewardWatchRows {
  import opened Wrappers
  import opened RewardWatch
  import opened RewardWatchRuns
  import opened RewardWatchCursors

  // ---- at most one missed-reward message -------------------------------------------

  function AboutMissed(round: int, orch: Address): Effect -> bool {
    e => e == MissedDm(round, orch) || (e.MarkMissedNotified? && e.round == round && e.orch == orch)
  }

  predicate Marked(es: seq<Effect>, round: int, orch: Address) {
    exists i | 0 <= i < |es| :: es[i].MarkMissedNotified? && es[i].round == round && es[i].orch == orch
  }

  /** A tick that messaged the subscribers of `orch` and failed before marking it. */
  predicate Unmarked(es: seq<Effect>, round: int, orch: Address) {
    MissedDm(round, orch) in es && !Marked(es, round, orch)
  }

  function UnmarkedTicks(s: Settings, st: State, ticks: seq<Tick>, round: int, orch: Address): nat
    requires ValidSettings(s)
  {
    if ticks == [] then 0
    else
      var init := ticks[..|ticks| - 1];
      UnmarkedTicks(s, st, init, round, orch)
      + if Unmarked(TickEffects(s, true, Final(s, true, st, init), ticks[|ticks| - 1]), round, orch) then 1 else 0
  }

  lemma {:induction false} NotifiedAfter(st: State, es: seq<Effect>, round: int, orch: Address)
    requires Spares(es, round)
    ensures WasMissedNotified(ApplyAll(true, st, es).rows, round, orch)
      <==> WasMissedNotified(st.rows, round, orch) || Marked(es, round, orch)
  {
    if es != [] {
      var init := es[..|es| - 1];
      assert forall i | 0 <= i < |init| :: init[i] == es[i];
      NotifiedAfter(st, init, round, orch);
      var last := es[|es| - 1];
      var marksNow := last.MarkMissedNotified? && last.round == round && last.orch == orch;
      assert Marked(es, round, orch) <==> (Marked(init, round, orch) || marksNow);
    }
  }

  lemma MissedStepConcerns(st: State, t: Tick, o: Address, e: Effect, round: int, orch: Address)
    requires t.closed.Rewarded().Some? && e in MissedSteps(st.rows, t)(o)
    ensures AboutMissed(round, orch)(e) <==> round == t.round - 1 && orch == o
  {
  }

  lemma MissedPassSelected(st: State, t: Tick, round: int, orch: Address)
    requires ClosedRoundDue(st, t) && ValidTick(t)
    ensures Select(Pass(t.closed.subscribed, MissedSteps(st.rows, t)), AboutMissed(round, orch))
      <= if round == t.round - 1 then MissedSteps(st.rows, t)(orch) else []
  {
    var step, about := MissedSteps(st.rows, t), AboutMissed(round, orch);
    forall o, e | e in step(o) ensures about(e) <==> round == t.round - 1 && orch == o {
      MissedStepConcerns(st, t, o, e, round, orch);
    }
    SelectPass(t.closed.subscribed, step, orch, about);
    if round == t.round - 1 {
      SelectAll(step(orch), about);
    } else {
      SelectNone(step(orch), about);
    }
  }

  lemma MissedTailSelected(a: int, b: int, round: int, orch: Address)
    ensures Select([SetMissedDone(a), PruneBefore(b)], AboutMissed(round, orch)) == []
  {
    SelectNone([SetMissedDone(a), PruneBefore(b)], AboutMissed(round, orch));
  }

  lemma MissedPlanDropsTail(st: State, t: Tick, round: int, orch: Address)
    requires ClosedRoundDue(st, t)
    ensures Select(MissedPlan(st, t), AboutMissed(round, orch))
      == Select(Pass(t.closed.subscribed, MissedSteps(st.rows, t)), AboutMissed(round, orch))
  {
    MissedTailSelected(t.round - 1, t.round - PRUNE_KEEP_ROUNDS, round, orch);
    SelectDropsTail(Pass(t.closed.subscribed, MissedSteps(st.rows, t)),
      [SetMissedDone(t.round - 1), PruneBefore(t.round - PRUNE_KEEP_ROUNDS)], AboutMissed(round, orch));
  }

  lemma MissedPlanSelected(st: State, t: Tick, round: int, orch: Address)
    requires ClosedRoundDue(st, t) && ValidTick(t)
    ensures Select(MissedPlan(st, t), AboutMissed(round, orch))
      <= if round == t.round - 1 then MissedSteps(st.rows, t)(orch) else []
  {
    MissedPlanDropsTail(st, t, round, orch);
    MissedPassSelected(st, t, round, orch);
  }

  lemma SelectDropsTail(a: seq<Effect>, b: seq<Effect>, about: Effect -> bool)
    requires Select(b, about) == []
    ensures Select(a + b, about) == Select(a, about)
  {
    SelectSplits(a, b, about);
  }

  lemma CurrentSelected(st: State, t: Tick, due: int, digestDue: bool, credit: nat, round: int, orch: Address)
    ensures Select(Performed(PlanAt(st, t, due, digestDue), credit), AboutMissed(round, orch)) == []
  {
    var current := Performed(PlanAt(st, t, due, digestDue), credit);
    forall e | e in current ensures !AboutMissed(round, orch)(e) {
      PlanContains(st, t, due, digestDue, e);
    }
    SelectNone(current, AboutMissed(round, orch));
  }

  /** What one tick does about one missed reward: a start of message-then-mark, and nothing once marked. */
  lemma TickMissedSelected(s: Settings, st: State, t: Tick, round: int, orch: Address)
    requires ValidSettings(s) && ValidTick(t)
    ensures var sel := Select(TickEffects(s, true, st, t), AboutMissed(round, orch));
      && |sel| <= 2
      && (WasMissedNotified(st.rows, round, orch) ==> sel == [])
      && (sel == [] || sel == [MissedDm(round, orch)] || sel == [MarkMissedNotified(round, orch, t.now)]
          || sel == [MissedDm(round, orch), MarkMissedNotified(round, orch, t.now)])
  {
    var about := AboutMissed(round, orch);
    CurrentSelected(AfterMissed(st, t), t, Due(s, t), DigestDue(s, t), t.currentCredit, round, orch);
    SelectSplits(MissedEffects(st, t), Performed(CurrentPlan(s, AfterMissed(st, t), t), t.currentCredit), about);
    SelectPrefix(MissedPlan(st, t), t.missedCredit, about);
    if ClosedRoundDue(st, t) {
      MissedPlanSelected(st, t, round, orch);
      MissedStepShape(st, t, round, orch, Select(MissedEffects(st, t), about));
    }
  }

  lemma MissedStepShape(st: State, t: Tick, round: int, orch: Address, sel: seq<Effect>)
    requires t.closed.Rewarded().Some?
    requires sel <= if round == t.round - 1 then MissedSteps(st.rows, t)(orch) else []
    ensures |sel| <= 2 && (WasMissedNotified(st.rows, round, orch) ==> sel == [])
    ensures sel == [] || sel == [MissedDm(round, orch)] || sel == [MarkMissedNotified(round, orch, t.now)]
      || sel == [MissedDm(round, orch), MarkMissedNotified(round, orch, t.now)]
  {
  }

  lemma SelectedMissed(es: seq<Effect>, round: int, orch: Address)
    ensures multiset(es)[MissedDm(round, orch)] == multiset(Select(es, AboutMissed(round, orch)))[MissedDm(round, orch)]
    ensures Marked(es, round, orch) <==> Marked(Select(es, AboutMissed(round, orch)), round, orch)
  {
    var about := AboutMissed(round, orch);
    SelectKeeps(es, about, MissedDm(round, orch));
    if Marked(es, round, orch) {
      var i :| 0 <= i < |es| && es[i].MarkMissedNotified? && es[i].round == round && es[i].orch == orch;
      SelectKeeps(es, about, es[i]);
    }
    var sel := Select(es, about);
    if Marked(sel, round, orch) {
      var i :| 0 <= i < |sel| && sel[i].MarkMissedNotified? && sel[i].round == round && sel[i].orch == orch;
      SelectKeeps(es, about, sel[i]);
    }
  }

  lemma TickMissesOnce(s: Settings, st: State, t: Tick, round: int, orch: Address)
    requires ValidSettings(s) && ValidTick(t)
    ensures var es := TickEffects(s, true, st, t);
      multiset(es)[MissedDm(round, orch)]
        <= (if Marked(es, round, orch) && !WasMissedNotified(st.rows, round, orch) then 1 else 0)
           + if Unmarked(es, round, orch) then 1 else 0
  {
    var es := TickEffects(s, true, st, t);
    var sel := Select(es, AboutMissed(round, orch));
    TickMissedSelected(s, st, t, round, orch);
    SelectedMissed(es, round, orch);
    assert MissedDm(round, orch) in es <==> multiset(es)[MissedDm(round, orch)] > 0;
    assert multiset(sel)[MissedDm(round, orch)] <= 1;
    if sel != [] && sel[|sel| - 1].MarkMissedNotified? {
      assert Marked(sel, round, orch);
    }
  }

  /** The closed round `round` is settled: the cursor has reached it. */
  predicate Past(st: State, round: int) {
    st.missedDone.Some? && st.missedDone.value >= round
  }

  /** A tick that drops the rows of a round has settled a later one first. */
  lemma TickSparesOrSettles(s: Settings, st: State, t: Tick, round: int)
    requires ValidSettings(s)
    ensures var es := TickEffects(s, true, st, t);
      Spares(es, round) || Past(ApplyAll(true, st, es), round)
  {
    var missed, es := MissedEffects(st, t), TickEffects(s, true, st, t);
    TickMissedMarks(s, true, st, t);
    if i :| 0 <= i < |es| && es[i].PruneBefore? && es[i].round > round {
      if i < |missed| {
        MissedPlanShape(st, t, i);
        MissedPlanShape(st, t, i - 1);
        assert es[i - 1] == SetMissedDone(t.round - 1);
      } else {
        PlanContains(ApplyAll(true, st, missed), t, Due(s, t), DigestDue(s, t), es[i]);
      }
    }
  }

  /** Once a round is settled it stays so, and no tick messages anyone about it. */
  lemma PastStays(s: Settings, st: State, t: Tick, round: int, orch: Address)
    requires ValidSettings(s) && Past(st, round)
    ensures Past(ApplyAll(true, st, TickEffects(s, true, st, t)), round)
    ensures MissedDm(round, orch) !in TickEffects(s, true, st, t)
  {
    TickMissedMarks(s, true, st, t);
    var es := TickEffects(s, true, st, t);
    forall i | 0 <= i < |es| ensures es[i] != MissedDm(round, orch) {
    }
  }

  /** How often the subscribers of `orch` have been messaged, beyond the ticks that failed to mark it. */
  function Excess(s: Settings, st: State, ticks: seq<Tick>, round: int, orch: Address): int
    requires ValidSettings(s)
  {
    multiset(Log(s, true, st, ticks))[MissedDm(round, orch)] - UnmarkedTicks(s, st, ticks, round, orch)
  }

  lemma ExcessSnoc(s: Settings, st: State, ticks: seq<Tick>, round: int, orch: Address)
    requires ValidSettings(s) && ticks != []
    ensures var mid := Final(s, true, st, ticks[..|ticks| - 1]);
      var es := TickEffects(s, true, mid, ticks[|ticks| - 1]);
      && Final(s, true, st, ticks) == ApplyAll(true, mid, es)
      && Excess(s, st, ticks, round, orch)
        == Excess(s, st, ticks[..|ticks| - 1], round, orch)
           + multiset(es)[MissedDm(round, orch)] - (if Unmarked(es, round, orch) then 1 else 0)
  {
    RunSnoc(s, true, st, ticks);
  }

  /** What a run has done about one missed reward, as long as its row cannot have been dropped, and after that. */
  predicate MissedSoFar(s: Settings, st: State, ticks: seq<Tick>, round: int, orch: Address)
    requires ValidSettings(s)
  {
    var fin, excess := Final(s, true, st, ticks), Excess(s, st, ticks, round, orch);
    var before, after := WasMissedNotified(st.rows, round, orch), WasMissedNotified(fin.rows, round, orch);
    && excess <= (if before then 0 else 1)
    && (Past(fin, round) || ((before ==> after) && excess <= if after && !before then 1 else 0))
  }

  lemma MissedOneMore(s: Settings, st: State, ticks: seq<Tick>, round: int, orch: Address)
    requires ValidSettings(s) && ticks != [] && ValidTick(ticks[|ticks| - 1])
    requires MissedSoFar(s, st, ticks[..|ticks| - 1], round, orch)
    ensures MissedSoFar(s, st, ticks, round, orch)
  {
    var mid, t := Final(s, true, st, ticks[..|ticks| - 1]), ticks[|ticks| - 1];
    var es := TickEffects(s, true, mid, t);
    ExcessSnoc(s, st, ticks, round, orch);
    if Past(mid, round) {
      PastStays(s, mid, t, round, orch);
    } else {
      TickMissesOnce(s, mid, t, round, orch);
      TickSparesOrSettles(s, mid, t, round);
      if Spares(es, round) {
        NotifiedAfter(mid, es, round, orch);
      }
    }
  }

  lemma {:induction false} RunMissesOnce(s: Settings, st: State, ticks: seq<Tick>, round: int, orch: Address)
    requires ValidSettings(s) && ValidTicks(ticks)
    ensures MissedSoFar(s, st, ticks, round, orch)
  {
    if ticks != [] {
      var init := ticks[..|ticks| - 1];
      assert forall i | 0 <= i < |init| :: init[i] == ticks[i];
      RunMissesOnce(s, st, init, round, orch);
      MissedOneMore(s, st, ticks, round, orch);
    }
  }

  /**
    Over any run, whatever order rounds are reported in and whatever rows are dropped, the subscribers of
    one orchestrator get one missed-reward message about a round at most, plus one for every tick that
    failed between messaging and marking; none if it was marked before the run.
  */
  lemma MissedIsSentOnce(s: Settings, st: State, ticks: seq<Tick>, round: int, orch: Address)
    requires ValidSettings(s) && ValidTicks(ticks)
    ensures multiset(Log(s, true, st, ticks))[MissedDm(round, orch)]
      <= (if WasMissedNotified(st.rows, round, orch) then 0 else 1) + UnmarkedTicks(s, st, ticks, round, orch)
  {
    RunMissesOnce(s, st, ticks, round, orch);
  }

  // ---- write-once stamps -------------------------------------------------------------

  /** `b` has every row `a` has of `round`, with every stamp already in it. */
  ghost predicate KeepsStamps(a: Rows, b: Rows, round: int) {
    forall o | (round, o) in a ::
      && (round, o) in b
      && (a[(round, o)].resolvedAt.Some? ==> b[(round, o)].resolvedAt == a[(round, o)].resolvedAt)
      && (a[(round, o)].missedNotifiedAt.Some? ==> b[(round, o)].missedNotifiedAt == a[(round, o)].missedNotifiedAt)
  }

  /** Whatever is performed, pruning included, a row that is not pruned stays and its stamps keep their first values. */
  lemma {:induction false} StampsAreWrittenOnce(prunes: bool, st: State, es: seq<Effect>, round: int)
    requires !prunes || Spares(es, round)
    ensures KeepsStamps(st.rows, ApplyAll(prunes, st, es).rows, round)
  {
    if es != [] {
      var init := es[..|es| - 1];
      assert forall i | 0 <= i < |init| :: init[i] == es[i];
      StampsAreWrittenOnce(prunes, st, init, round);
    }
  }

  /** The first time `es` says that `orch` called reward in `round`. */
  function FirstResolved(es: seq<Effect>, round: int, orch: Address): Option<int> {
    if es == [] then None
    else
      var before, e := FirstResolved(es[..|es| - 1], round, orch), es[|es| - 1];
      if before.Some? then before
      else if e.MarkResolved? && e.round == round && e.orch == orch then Some(e.at)
      else None
  }

  /** The first time `es` says that the subscribers of `orch` are told of a missed `round`. */
  function FirstNotified(es: seq<Effect>, round: int, orch: Address): Option<int> {
    if es == [] then None
    else
      var before, e := FirstNotified(es[..|es| - 1], round, orch), es[|es| - 1];
      if before.Some? then before
      else if e.MarkMissedNotified? && e.round == round && e.orch == orch then Some(e.at)
      else None
  }

  /** A row's two stamps are those it had, or else the first times written. */
  lemma {:induction false} StampsTell(prunes: bool, st: State, es: seq<Effect>, round: int, orch: Address)
    requires !prunes || Spares(es, round)
    ensures var before, after := RowOr(st.rows, round, orch), RowOr(ApplyAll(prunes, st, es).rows, round, orch);
      && after.resolvedAt
        == (if before.resolvedAt.Some? then before.resolvedAt else FirstResolved(es, round, orch))
      && after.missedNotifiedAt
        == (if before.missedNotifiedAt.Some? then before.missedNotifiedAt else FirstNotified(es, round, orch))
  {
    if es != [] {
      var init := es[..|es| - 1];
      assert forall i | 0 <= i < |init| :: init[i] == es[i];
      StampsTell(prunes, st, init, round, orch);
    }
  }

  /** The pruning watcher spares every round until it has settled one at least eight above it. */
  lemma {:induction false} RunSpares(s: Settings, prunes: bool, st: State, ticks: seq<Tick>, round: int)
    requires ValidSettings(s) && forall i | 0 <= i < |ticks| :: ticks[i].round <= round + PRUNE_KEEP_ROUNDS
    ensures Spares(Log(s, prunes, st, ticks), round)
  {
    if ticks != [] {
      var init, t := ticks[..|ticks| - 1], ticks[|ticks| - 1];
      assert forall i | 0 <= i < |init| :: init[i] == ticks[i];
      RunSpares(s, prunes, st, init, round);
      TickSpares(s, prunes, Final(s, prunes, st, init), t, round);
      RunSnoc(s, prunes, st, ticks);
    }
  }

  /**
    Over every run of the watcher as it is, pruning included: as long as no observed round is more than
    eight above it, a round keeps its rows and the stamps in them.
  */
  lemma StampsLastEightRounds(s: Settings, st: State, ticks: seq<Tick>, round: int)
    requires ValidSettings(s) && forall i | 0 <= i < |ticks| :: ticks[i].round <= round + PRUNE_KEEP_ROUNDS
    ensures KeepsStamps(st.rows, Final(s, true, st, ticks).rows, round)
  {
    RunSpares(s, true, st, ticks, round);
    StampsAreWrittenOnce(true, st, Log(s, true, st, ticks), round);
  }
}
