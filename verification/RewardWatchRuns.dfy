/** What holds over whole runs of the reward-call watch, whatever fails and whatever the clock does. */
module RewardWatchRuns {
  import opened Sequences
  import opened RoundProgress
  import opened RewardWatch

  // ---- selecting the effects that concern one (round, orchestrator) ----------------

  function Select(es: seq<Effect>, about: Effect -> bool): seq<Effect> {
    if es == [] then []
    else Select(es[..|es| - 1], about) + if about(es[|es| - 1]) then [es[|es| - 1]] else []
  }

  lemma {:induction false} SelectSplits(a: seq<Effect>, b: seq<Effect>, about: Effect -> bool)
    ensures Select(a + b, about) == Select(a, about) + Select(b, about)
  {
    if b == [] {
      assert a + b == a;
    } else {
      assert (a + b)[..|a + b| - 1] == a + b[..|b| - 1];
      SelectSplits(a, b[..|b| - 1], about);
    }
  }

  lemma SelectPrefix(es: seq<Effect>, credit: nat, about: Effect -> bool)
    ensures Select(Performed(es, credit), about) <= Select(es, about)
  {
    if credit < |es| {
      SelectSplits(es[..credit], es[credit..], about);
      assert es == es[..credit] + es[credit..];
    }
  }

  lemma {:induction false} SelectNone(es: seq<Effect>, about: Effect -> bool)
    requires forall e | e in es :: !about(e)
    ensures Select(es, about) == []
  {
    if es != [] {
      SelectNone(es[..|es| - 1], about);
    }
  }

  lemma {:induction false} SelectAll(es: seq<Effect>, about: Effect -> bool)
    requires forall e | e in es :: about(e)
    ensures Select(es, about) == es
  {
    if es != [] {
      SelectAll(es[..|es| - 1], about);
      assert es == es[..|es| - 1] + [es[|es| - 1]];
    }
  }

  lemma {:induction false} SelectKeeps(es: seq<Effect>, about: Effect -> bool, e: Effect)
    requires about(e)
    ensures e in Select(es, about) <==> e in es
    ensures multiset(Select(es, about))[e] == multiset(es)[e]
  {
    if es != [] {
      SelectKeeps(es[..|es| - 1], about, e);
      assert es == es[..|es| - 1] + [es[|es| - 1]];
    }
  }

  /** A pass over distinct orchestrators does for one of them only what its own step does. */
  lemma {:induction false} SelectPass(orchs: seq<Address>, step: Address -> seq<Effect>, orch: Address,
                                      about: Effect -> bool)
    requires Distinct(orchs)
    requires forall o, e | o != orch && e in step(o) :: !about(e)
    ensures Select(Pass(orchs, step), about) == if orch in orchs then Select(step(orch), about) else []
  {
    if orchs != [] {
      var init, last := orchs[..|orchs| - 1], orchs[|orchs| - 1];
      SelectPass(init, step, orch, about);
      SelectSplits(Pass(init, step), step(last), about);
      if last == orch {
        assert orch !in init;
      } else {
        SelectNone(step(last), about);
      }
    }
  }

  // ---- the ladder ----------------------------------------------------------------

  function AboutLadder(round: int, orch: Address): Effect -> bool {
    e => e == LadderDm(round, orch) || (e.SetAlertsSent? && e.round == round && e.orch == orch)
  }

  /** Nothing in `es` removes the rows of `round`. */
  ghost predicate Spares(es: seq<Effect>, round: int) {
    forall i | 0 <= i < |es| && es[i].PruneBefore? :: es[i].round <= round
  }

  /** A tick spares every round that is not more than eight below its own. */
  lemma TickSpares(s: Settings, prunes: bool, st: State, t: Tick, round: int)
    requires ValidSettings(s) && t.round <= round + PRUNE_KEEP_ROUNDS
    ensures Spares(TickEffects(s, prunes, st, t), round)
  {
    var missed, es := MissedEffects(st, t), TickEffects(s, prunes, st, t);
    forall i | 0 <= i < |es| && es[i].PruneBefore? ensures es[i].round <= round {
      if i < |missed| {
        MissedPlanShape(st, t, i);
      } else {
        PlanContains(ApplyAll(prunes, st, missed), t, Due(s, t), DigestDue(s, t), es[i]);
      }
    }
  }

  lemma AlertsUnderEffect(st: State, e: Effect, round: int, orch: Address)
    requires e.PruneBefore? ==> e.round <= round
    ensures AlertsSent(Apply(true, st, e).rows, round, orch)
      == if e.SetAlertsSent? && e.round == round && e.orch == orch then e.alerts else AlertsSent(st.rows, round, orch)
  {
  }

  /** The rungs recorded after performing `es`, read off the ladder effects alone. */
  function Climb(alerts: int, ladder: seq<Effect>): int {
    if ladder == [] then alerts
    else if ladder[|ladder| - 1].SetAlertsSent? then ladder[|ladder| - 1].alerts
    else Climb(alerts, ladder[..|ladder| - 1])
  }

  lemma ClimbSnoc(alerts: int, ladder: seq<Effect>, e: Effect)
    ensures Climb(alerts, ladder + [e]) == if e.SetAlertsSent? then e.alerts else Climb(alerts, ladder)
  {
    assert (ladder + [e])[..|ladder|] == ladder;
  }

  lemma {:induction false} AlertsAfter(st: State, es: seq<Effect>, round: int, orch: Address)
    requires Spares(es, round)
    ensures AlertsSent(ApplyAll(true, st, es).rows, round, orch)
      == Climb(AlertsSent(st.rows, round, orch), Select(es, AboutLadder(round, orch)))
  {
    if es != [] {
      var init, last := es[..|es| - 1], es[|es| - 1];
      assert forall i | 0 <= i < |init| :: init[i] == es[i];
      AlertsAfter(st, init, round, orch);
      AlertsUnderEffect(ApplyAll(true, st, init), last, round, orch);
      var before := Select(init, AboutLadder(round, orch));
      ClimbSnoc(AlertsSent(st.rows, round, orch), before, last);
      assert before + [] == before;
    }
  }

  lemma MissedSpares(st: State, t: Tick, round: int)
    requires t.round <= round + PRUNE_KEEP_ROUNDS
    ensures Spares(MissedEffects(st, t), round)
  {
    var missed := MissedEffects(st, t);
    forall i | 0 <= i < |missed| && missed[i].PruneBefore? ensures missed[i].round <= round {
      MissedPlanShape(st, t, i);
    }
  }

  lemma MissedEffectsAreNoLadder(st: State, t: Tick, round: int, orch: Address)
    ensures Select(MissedEffects(st, t), AboutLadder(round, orch)) == []
  {
    forall e | e in MissedEffects(st, t) ensures !AboutLadder(round, orch)(e) {
      var i :| 0 <= i < |MissedPlan(st, t)| && MissedPlan(st, t)[i] == e;
      MissedPlanShape(st, t, i);
    }
    SelectNone(MissedEffects(st, t), AboutLadder(round, orch));
  }

  /** The store the second pass of a tick reads. */
  function AfterMissed(st: State, t: Tick): State {
    ApplyAll(true, st, MissedEffects(st, t))
  }

  function LadderFor(st: State, t: Tick, due: int, round: int, orch: Address): seq<Effect> {
    if t.current.Rewarded().Some? && t.round == round
    then LadderStep(AfterMissed(st, t).rows, t, t.current.Rewarded().value, due, orch) else []
  }

  lemma LadderStepConcerns(rows: Rows, t: Tick, rewarded: set<Address>, due: int, o: Address, e: Effect, round: int,
                           orch: Address)
    requires e in LadderSteps(rows, t, rewarded, due)(o)
    ensures AboutLadder(round, orch)(e) <==> round == t.round && orch == o
  {
  }

  lemma LadderPlanSelected(rows: Rows, t: Tick, rewarded: set<Address>, due: int, round: int, orch: Address)
    requires Distinct(t.current.subscribed)
    ensures Select(LadderPlan(rows, t, rewarded, due), AboutLadder(round, orch))
      <= if t.round == round then LadderStep(rows, t, rewarded, due, orch) else []
  {
    var step, about := LadderSteps(rows, t, rewarded, due), AboutLadder(round, orch);
    forall o, e | e in step(o) ensures about(e) <==> round == t.round && orch == o {
      LadderStepConcerns(rows, t, rewarded, due, o, e, round, orch);
    }
    SelectPass(t.current.subscribed, step, orch, about);
    if round == t.round {
      SelectAll(step(orch), about);
    } else {
      SelectNone(step(orch), about);
    }
  }

  lemma ResolvedSelected(t: Tick, rewarded: set<Address>, round: int, orch: Address)
    ensures Select(Pass(t.current.subscribed, ResolvedSteps(t, rewarded)), AboutLadder(round, orch)) == []
  {
    var resolved := Pass(t.current.subscribed, ResolvedSteps(t, rewarded));
    forall e | e in resolved ensures !AboutLadder(round, orch)(e) {
      PassContains(t.current.subscribed, ResolvedSteps(t, rewarded), e);
    }
    SelectNone(resolved, AboutLadder(round, orch));
  }

  lemma PlanLadder(st: State, t: Tick, due: int, digestDue: bool, round: int, orch: Address)
    requires ValidTick(t)
    ensures Select(PlanAt(AfterMissed(st, t), t, due, digestDue), AboutLadder(round, orch))
      <= LadderFor(st, t, due, round, orch)
  {
    if t.current.Rewarded().Some? {
      var st1, rewarded := AfterMissed(st, t), t.current.Rewarded().value;
      ResolvedSelected(t, rewarded, round, orch);
      LadderPlanSelected(st1.rows, t, rewarded, due, round, orch);
      DigestSelected(st1, t, rewarded, digestDue, round, orch);
      SelectMiddle(Pass(t.current.subscribed, ResolvedSteps(t, rewarded)), LadderPlan(st1.rows, t, rewarded, due),
        if digestDue then DigestPlan(st1, t, rewarded) else [], AboutLadder(round, orch));
    }
  }

  lemma DigestSelected(st: State, t: Tick, rewarded: set<Address>, digestDue: bool, round: int, orch: Address)
    ensures Select(if digestDue then DigestPlan(st, t, rewarded) else [], AboutLadder(round, orch)) == []
  {
    SelectNone(if digestDue then DigestPlan(st, t, rewarded) else [], AboutLadder(round, orch));
  }

  lemma SelectMiddle(a: seq<Effect>, b: seq<Effect>, c: seq<Effect>, about: Effect -> bool)
    requires Select(a, about) == [] && Select(c, about) == []
    ensures Select(a + b + c, about) == Select(b, about)
  {
    SelectSplits(a + b, c, about);
    SelectSplits(a, b, about);
  }

  /** What one tick does on the ladder of one orchestrator: a start of message-then-record, if anything. */
  lemma TickLadder(s: Settings, st: State, t: Tick, round: int, orch: Address)
    requires ValidSettings(s) && ValidTick(t)
    ensures Select(TickEffects(s, true, st, t), AboutLadder(round, orch)) <= LadderFor(st, t, Due(s, t), round, orch)
    ensures t.round == round ==> AlertsSent(AfterMissed(st, t).rows, round, orch) == AlertsSent(st.rows, round, orch)
  {
    var about := AboutLadder(round, orch);
    var plan := CurrentPlan(s, AfterMissed(st, t), t);
    MissedEffectsAreNoLadder(st, t, round, orch);
    SelectSplits(MissedEffects(st, t), Performed(plan, t.currentCredit), about);
    SelectPrefix(plan, t.currentCredit, about);
    PlanLadder(st, t, Due(s, t), DigestDue(s, t), round, orch);
    if t.round == round {
      MissedSpares(st, t, round);
      AlertsAfter(st, MissedEffects(st, t), round, orch);
    }
  }

  predicate Recorded(es: seq<Effect>, round: int, orch: Address) {
    exists i | 0 <= i < |es| :: es[i].SetAlertsSent? && es[i].round == round && es[i].orch == orch
  }

  /** A tick that messaged the subscribers of `orch` and failed before recording the rung. */
  predicate Unrecorded(es: seq<Effect>, round: int, orch: Address) {
    LadderDm(round, orch) in es && !Recorded(es, round, orch)
  }

  function UnrecordedTicks(s: Settings, st: State, ticks: seq<Tick>, round: int, orch: Address): nat
    requires ValidSettings(s)
  {
    if ticks == [] then 0
    else
      var init := ticks[..|ticks| - 1];
      UnrecordedTicks(s, st, init, round, orch)
      + if Unrecorded(TickEffects(s, true, Final(s, true, st, init), ticks[|ticks| - 1]), round, orch) then 1 else 0
  }

  lemma SelectedLadder(es: seq<Effect>, round: int, orch: Address)
    ensures multiset(es)[LadderDm(round, orch)] == multiset(Select(es, AboutLadder(round, orch)))[LadderDm(round, orch)]
    ensures Recorded(es, round, orch) <==> Recorded(Select(es, AboutLadder(round, orch)), round, orch)
  {
    var about := AboutLadder(round, orch);
    SelectKeeps(es, about, LadderDm(round, orch));
    if Recorded(es, round, orch) {
      var i :| 0 <= i < |es| && es[i].SetAlertsSent? && es[i].round == round && es[i].orch == orch;
      SelectKeeps(es, about, es[i]);
    }
    if Recorded(Select(es, about), round, orch) {
      var i :| 0 <= i < |Select(es, about)| && Select(es, about)[i].SetAlertsSent?
        && Select(es, about)[i].round == round && Select(es, about)[i].orch == orch;
      SelectKeeps(es, about, Select(es, about)[i]);
    }
  }

  /** The climb of one tick, once it is known to be a start of message-then-record. */
  lemma LadderClimbs(before: int, sel: seq<Effect>, step: seq<Effect>, round: int, orch: Address, due: int)
    requires sel <= step && (step != [] ==> before < due)
    requires step == [] || step == [SetAlertsSent(round, orch, due)]
      || step == [LadderDm(round, orch), SetAlertsSent(round, orch, due)]
    ensures if Recorded(sel, round, orch) then before < Climb(before, sel) == due else Climb(before, sel) == before
    ensures multiset(sel)[LadderDm(round, orch)]
      <= Climb(before, sel) - before + if Unrecorded(sel, round, orch) then 1 else 0
  {
    assert sel == [] || sel == [step[0]] || sel == [step[0], step[1]];
    if sel == [LadderDm(round, orch)] {
      assert sel[..0] == [];
    }
    if sel != [] && sel[|sel| - 1].SetAlertsSent? {
      assert Recorded(sel, round, orch);
    }
  }

  /** The climb of one tick, its effects taken as a whole. */
  lemma TickSelects(s: Settings, st: State, t: Tick, round: int, orch: Address)
    requires ValidSettings(s) && ValidTick(t)
    ensures var es, before := TickEffects(s, true, st, t), AlertsSent(st.rows, round, orch);
      var climbed := Climb(before, Select(es, AboutLadder(round, orch)));
      && (if Recorded(es, round, orch) then before < climbed <= MaxRungs(s.firstAlertPct, s.realertStepPct)
        else climbed == before)
      && multiset(es)[LadderDm(round, orch)]
        <= climbed - before + (if Unrecorded(es, round, orch) then 1 else 0)
      && (t.round != round ==> LadderDm(round, orch) !in es && !Recorded(es, round, orch))
  {
    var es := TickEffects(s, true, st, t);
    var sel := Select(es, AboutLadder(round, orch));
    TickLadder(s, st, t, round, orch);
    SelectedLadder(es, round, orch);
    assert LadderDm(round, orch) in es <==> multiset(es)[LadderDm(round, orch)] > 0;
    assert LadderDm(round, orch) in sel <==> multiset(sel)[LadderDm(round, orch)] > 0;
    LadderClimbs(AlertsSent(st.rows, round, orch), sel,
      LadderFor(st, t, Due(s, t), round, orch), round, orch, Due(s, t));
    ProgressMonotone(t.startedAt, t.now, t.now, s.roundLengthBlocks);
    DueIsBounded(Pct(s, t), s.firstAlertPct, s.realertStepPct);
  }

  /**
    A recorded fan-out strictly raises the count, never past a full round's rungs; without one the count
    stays, unless the tick is so far above the round that it may drop the row.
  */
  lemma TickClimbs(s: Settings, st: State, t: Tick, round: int, orch: Address)
    requires ValidSettings(s) && ValidTick(t)
    ensures var es := TickEffects(s, true, st, t);
      var before, after := AlertsSent(st.rows, round, orch), AlertsSent(ApplyAll(true, st, es).rows, round, orch);
      && (Recorded(es, round, orch) ==> before < after <= MaxRungs(s.firstAlertPct, s.realertStepPct))
      && (!Recorded(es, round, orch) && t.round <= round + PRUNE_KEEP_ROUNDS ==> after == before)
      && multiset(es)[LadderDm(round, orch)]
        <= (if Recorded(es, round, orch) then after - before else 0) + (if Unrecorded(es, round, orch) then 1 else 0)
      && (t.round != round ==> LadderDm(round, orch) !in es && !Recorded(es, round, orch))
  {
    TickSelects(s, st, t, round, orch);
    if t.round <= round + PRUNE_KEEP_ROUNDS {
      TickSpares(s, true, st, t, round);
      AlertsAfter(st, TickEffects(s, true, st, t), round, orch);
    }
  }

  ghost predicate ValidTicks(ticks: seq<Tick>) {
    forall i | 0 <= i < |ticks| :: ValidTick(ticks[i])
  }

  /** One more tick of a run. */
  lemma RunSnoc(s: Settings, prunes: bool, st: State, ticks: seq<Tick>)
    requires ValidSettings(s) && ticks != []
    ensures var init, t := ticks[..|ticks| - 1], ticks[|ticks| - 1];
      var es := TickEffects(s, prunes, Final(s, prunes, st, init), t);
      && Log(s, prunes, st, ticks) == Log(s, prunes, st, init) + es
      && Final(s, prunes, st, ticks) == ApplyAll(prunes, Final(s, prunes, st, init), es)
  {
    var init := ticks[..|ticks| - 1];
    ApplyAllSplits(prunes, st, Log(s, prunes, st, init),
      TickEffects(s, prunes, Final(s, prunes, st, init), ticks[|ticks| - 1]));
  }

  /** Whenever `round` is observed, no round more than eight above it has been observed before. */
  predicate SeenWhileKept(rounds: seq<int>, round: int) {
    forall i, j | 0 <= i < j < |rounds| && rounds[j] == round :: rounds[i] <= round + PRUNE_KEEP_ROUNDS
  }

  /** Until a round more than eight above it is observed, every fan-out shows in the count, but for the unrecorded. */
  predicate Tracked(s: Settings, st: State, ticks: seq<Tick>, round: int, orch: Address)
    requires ValidSettings(s)
  {
    var before, after := AlertsSent(st.rows, round, orch), AlertsSent(Final(s, true, st, ticks).rows, round, orch);
    && before <= after <= Max(before, MaxRungs(s.firstAlertPct, s.realertStepPct))
    && multiset(Log(s, true, st, ticks))[LadderDm(round, orch)]
      <= after - before + UnrecordedTicks(s, st, ticks, round, orch)
  }

  /** The rungs of a full round not yet recorded when the run starts, and the ticks that failed to record one. */
  predicate LadderBounded(s: Settings, st: State, ticks: seq<Tick>, round: int, orch: Address)
    requires ValidSettings(s)
  {
    multiset(Log(s, true, st, ticks))[LadderDm(round, orch)]
      <= Max(0, MaxRungs(s.firstAlertPct, s.realertStepPct) - AlertsSent(st.rows, round, orch))
         + UnrecordedTicks(s, st, ticks, round, orch)
  }

  /** The counts of one more tick of a run. */
  lemma CountSnoc(s: Settings, st: State, ticks: seq<Tick>, round: int, orch: Address)
    requires ValidSettings(s) && ticks != []
    ensures var init := ticks[..|ticks| - 1];
      var mid := Final(s, true, st, init);
      var es := TickEffects(s, true, mid, ticks[|ticks| - 1]);
      && Final(s, true, st, ticks) == ApplyAll(true, mid, es)
      && UnrecordedTicks(s, st, ticks, round, orch)
        == UnrecordedTicks(s, st, init, round, orch) + (if Unrecorded(es, round, orch) then 1 else 0)
      && forall e :: multiset(Log(s, true, st, ticks))[e] == multiset(Log(s, true, st, init))[e] + multiset(es)[e]
  {
    RunSnoc(s, true, st, ticks);
  }

  lemma {:induction false} RunTracks(s: Settings, st: State, ticks: seq<Tick>, round: int, orch: Address)
    requires ValidSettings(s) && ValidTicks(ticks)
    requires forall i | 0 <= i < |ticks| :: ticks[i].round <= round + PRUNE_KEEP_ROUNDS
    ensures Tracked(s, st, ticks, round, orch)
  {
    if ticks != [] {
      var init := ticks[..|ticks| - 1];
      assert forall i | 0 <= i < |init| :: init[i] == ticks[i];
      RunTracks(s, st, init, round, orch);
      TrackedSnoc(s, st, ticks, round, orch);
    }
  }

  lemma TrackedSnoc(s: Settings, st: State, ticks: seq<Tick>, round: int, orch: Address)
    requires ValidSettings(s) && ticks != [] && ValidTick(ticks[|ticks| - 1])
    requires ticks[|ticks| - 1].round <= round + PRUNE_KEEP_ROUNDS
    requires Tracked(s, st, ticks[..|ticks| - 1], round, orch)
    ensures Tracked(s, st, ticks, round, orch)
  {
    TickClimbs(s, Final(s, true, st, ticks[..|ticks| - 1]), ticks[|ticks| - 1], round, orch);
    CountSnoc(s, st, ticks, round, orch);
  }

  /** A tick that observes another round adds nothing. */
  lemma OtherRoundAdds(s: Settings, st: State, ticks: seq<Tick>, round: int, orch: Address)
    requires ValidSettings(s) && ValidTicks(ticks) && ticks != [] && ticks[|ticks| - 1].round != round
    requires LadderBounded(s, st, ticks[..|ticks| - 1], round, orch)
    ensures LadderBounded(s, st, ticks, round, orch)
  {
    var init := ticks[..|ticks| - 1];
    TickClimbs(s, Final(s, true, st, init), ticks[|ticks| - 1], round, orch);
    CountSnoc(s, st, ticks, round, orch);
  }

  /**
    Whatever the clock does, over any run the subscribers of one orchestrator are messaged about one
    round at most once for each rung of a full round not yet recorded when the run starts, plus once
    for every tick that failed between messaging them and recording it, as long as the round is not
    observed again after one more than eight above it.
  */
  lemma {:induction false} LadderIsBounded(s: Settings, st: State, ticks: seq<Tick>, round: int, orch: Address)
    requires ValidSettings(s) && ValidTicks(ticks) && SeenWhileKept(Rounds(ticks), round)
    ensures LadderBounded(s, st, ticks, round, orch)
  {
    if i :| 0 <= i < |ticks| && ticks[i].round > round + PRUNE_KEEP_ROUNDS {
      var init := ticks[..|ticks| - 1];
      assert Rounds(ticks)[..|init|] == Rounds(init);
      LadderIsBounded(s, st, init, round, orch);
      assert ticks[|ticks| - 1].round != round;
      OtherRoundAdds(s, st, ticks, round, orch);
    } else {
      RunTracks(s, st, ticks, round, orch);
    }
  }
}
