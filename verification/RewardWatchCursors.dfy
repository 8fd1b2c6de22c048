/** The two once-per-round cursors of the reward-call watch, over every run. */
module RewardWatchCursors {
  import opened Wrappers
  import opened RewardWatch
  import opened RewardWatchRuns
  import DelinquentDigest
  import Sorting
  import opened Text

  function DigestMark(st: State): int {
    if st.digestDone.Some? then st.digestDone.value else 0
  }

  predicate ConcernsDigest(e: Effect) {
    e.PostDigest? || e.SetDigestDone?
  }

  predicate ConcernsMissed(e: Effect) {
    e.MissedDm? || e.MarkMissedNotified? || e.SetMissedDone?
  }

  // ---- the digest cursor -----------------------------------------------------------

  /** The cursor after performing `es`, when the writes in `es` only ever raise it. */
  lemma {:induction false} DigestCursorAfter(prunes: bool, st: State, es: seq<Effect>)
    requires forall i | 0 <= i < |es| && es[i].SetDigestDone? :: es[i].round > DigestMark(st)
    requires forall i, j | 0 <= i < j < |es| :: es[i].SetDigestDone? ==> !ConcernsDigest(es[j])
    ensures DigestMark(ApplyAll(prunes, st, es)) >= DigestMark(st)
    ensures forall i | 0 <= i < |es| && es[i].SetDigestDone? :: DigestMark(ApplyAll(prunes, st, es)) == es[i].round
    ensures (forall i | 0 <= i < |es| :: !es[i].SetDigestDone?) ==> ApplyAll(prunes, st, es).digestDone == st.digestDone
  {
    if es != [] {
      var init := es[..|es| - 1];
      assert forall i | 0 <= i < |init| :: init[i] == es[i];
      DigestCursorAfter(prunes, st, init);
      if es[|es| - 1].SetDigestDone? {
        assert forall i | 0 <= i < |init| :: !init[i].SetDigestDone?;
      }
    }
  }

  /** In one tick the digest is posted and then recorded, last of all, for a round above the cursor. */
  lemma TickDigest(s: Settings, prunes: bool, st: State, t: Tick, i: int)
    requires ValidSettings(s) && 0 <= i < |TickEffects(s, prunes, st, t)|
      && ConcernsDigest(TickEffects(s, prunes, st, t)[i])
    ensures var es := TickEffects(s, prunes, st, t);
      es[i].round == t.round > DigestMark(st) && (es[i].SetDigestDone? ==> i == |es| - 1)
  {
    var missed := MissedEffects(st, t);
    forall j | 0 <= j < |missed| ensures !ConcernsDigest(missed[j]) && missed[j] != SetDigestDone(t.round) {
      MissedPlanShape(st, t, j);
    }
    DigestCursorAfter(prunes, st, missed);
    PlanDigest(ApplyAll(prunes, st, missed), t, Due(s, t), DigestDue(s, t), i - |missed|);
  }

  lemma NoDigestBefore(st: State, t: Tick, rewarded: set<Address>, due: int, e: Effect)
    requires e in Pass(t.current.subscribed, ResolvedSteps(t, rewarded)) + LadderPlan(st.rows, t, rewarded, due)
    ensures !ConcernsDigest(e)
  {
    if e in Pass(t.current.subscribed, ResolvedSteps(t, rewarded)) {
      PassContains(t.current.subscribed, ResolvedSteps(t, rewarded), e);
    } else {
      PassContains(t.current.subscribed, LadderSteps(st.rows, t, rewarded, due), e);
    }
  }

  lemma PlanDigest(st: State, t: Tick, due: int, digestDue: bool, i: int)
    requires 0 <= i < |PlanAt(st, t, due, digestDue)| && ConcernsDigest(PlanAt(st, t, due, digestDue)[i])
    ensures var plan := PlanAt(st, t, due, digestDue);
      plan[i].round == t.round > DigestMark(st) && (plan[i].SetDigestDone? ==> i == |plan| - 1)
  {
    var rewarded := t.current.Rewarded().value;
    var before := Pass(t.current.subscribed, ResolvedSteps(t, rewarded)) + LadderPlan(st.rows, t, rewarded, due);
    var digest := if digestDue then DigestPlan(st, t, rewarded) else [];
    assert PlanAt(st, t, due, digestDue) == before + digest;
    if i < |before| {
      NoDigestBefore(st, t, rewarded, due, before[i]);
    }
    assert |digest| <= 2;
  }

  /** Once a round's digest is recorded, nothing about the digest of that or an earlier round happens again. */
  ghost predicate DigestsAscend(es: seq<Effect>) {
    forall i, j | 0 <= i < j < |es| && es[i].SetDigestDone? && ConcernsDigest(es[j]) :: es[i].round < es[j].round
  }

  ghost predicate DigestsBelow(es: seq<Effect>, mark: int) {
    forall i | 0 <= i < |es| && es[i].SetDigestDone? :: es[i].round <= mark
  }

  lemma TickDigests(s: Settings, prunes: bool, st: State, t: Tick)
    requires ValidSettings(s)
    ensures var es, after := TickEffects(s, prunes, st, t), ApplyAll(prunes, st, TickEffects(s, prunes, st, t));
      && (forall i | 0 <= i < |es| && ConcernsDigest(es[i]) ::
        es[i].round > DigestMark(st) && (es[i].SetDigestDone? ==> i == |es| - 1))
      && DigestMark(after) >= DigestMark(st) && DigestsBelow(es, DigestMark(after))
  {
    var es := TickEffects(s, prunes, st, t);
    forall i | 0 <= i < |es| && ConcernsDigest(es[i])
      ensures es[i].round == t.round > DigestMark(st) && (es[i].SetDigestDone? ==> i == |es| - 1)
    {
      TickDigest(s, prunes, st, t, i);
    }
    DigestCursorAfter(prunes, st, es);
  }

  lemma DigestsAscendSnoc(before: seq<Effect>, es: seq<Effect>, mark: int)
    requires DigestsAscend(before) && DigestsBelow(before, mark)
    requires forall i | 0 <= i < |es| && ConcernsDigest(es[i]) ::
      es[i].round > mark && (es[i].SetDigestDone? ==> i == |es| - 1)
    ensures DigestsAscend(before + es)
  {
    var log := before + es;
    forall i, j | 0 <= i < j < |log| && log[i].SetDigestDone? && ConcernsDigest(log[j])
      ensures log[i].round < log[j].round
    {
      if i < |before| <= j {
        assert log[i] == before[i] && log[j] == es[j - |before|];
      }
    }
  }

  /**
    Each recorded digest is for a higher round than any recorded before it, whatever order the
    explorer reports rounds in, and no digest is posted once its round or a later one is recorded.
  */
  lemma {:induction false} DigestCursorAscends(s: Settings, prunes: bool, st: State, ticks: seq<Tick>)
    requires ValidSettings(s)
    ensures DigestsAscend(Log(s, prunes, st, ticks))
    ensures DigestsBelow(Log(s, prunes, st, ticks), DigestMark(Final(s, prunes, st, ticks)))
    ensures DigestMark(Final(s, prunes, st, ticks)) >= DigestMark(st)
    ensures forall e | e in Log(s, prunes, st, ticks) && ConcernsDigest(e) :: e.round > DigestMark(st)
  {
    if ticks != [] {
      var init, t := ticks[..|ticks| - 1], ticks[|ticks| - 1];
      DigestCursorAscends(s, prunes, st, init);
      RunSnoc(s, prunes, st, ticks);
      var mid := Final(s, prunes, st, init);
      var es := TickEffects(s, prunes, mid, t);
      TickDigests(s, prunes, mid, t);
      DigestsAscendSnoc(Log(s, prunes, st, init), es, DigestMark(mid));
    }
  }

  // ---- whom a digest lists -----------------------------------------------------------

  /** The delinquents of all pages, in the order of the pages. */
  function Listed(pages: seq<seq<DelinquentDigest.OrchRow>>, rewarded: set<Address>): seq<DelinquentDigest.OrchRow> {
    DelinquentDigest.DelinquentsOf(DelinquentDigest.Flatten(pages), rewarded)
  }

  /** `row` is on a page of the orchestrators, active, and on no page of the round's reward events. */
  ghost predicate Missing(t: Tick, row: DelinquentDigest.OrchRow)
    requires t.current.rewards.Some? && t.current.orchestrators.Some?
  {
    && row in DelinquentDigest.Flatten(t.current.orchestrators.value) && row.isActive
    && !DelinquentDigest.RewardedIn(t.current.rewards.value, Lower(row.address))
  }

  /** `e` is the digest of tick `t`: whoever is missing, as often as listed, by descending stake. */
  ghost predicate DigestOf(e: Effect, t: Tick) {
    && e.PostDigest? && t.current.rewards.Some? && t.current.orchestrators.Some? && e.round == t.round
    && e.delinquents != [] && Sorting.Sorted(e.delinquents, DelinquentDigest.ByStake())
    && multiset(e.delinquents) == multiset(Listed(t.current.orchestrators.value, t.current.Rewarded().value))
    && forall row :: row in e.delinquents <==> Missing(t, row)
  }

  lemma TickDigestLists(s: Settings, prunes: bool, st: State, t: Tick, e: Effect)
    requires ValidSettings(s) && e in TickEffects(s, prunes, st, t) && e.PostDigest?
    ensures DigestOf(e, t)
  {
    var missed := MissedEffects(st, t);
    var mid := ApplyAll(prunes, st, missed);
    if e in missed {
      var i :| 0 <= i < |missed| && missed[i] == e;
      MissedPlanShape(st, t, i);
    } else {
      PlanDigestLists(mid, t, Due(s, t), DigestDue(s, t), e);
    }
  }

  lemma PlanDigestLists(st: State, t: Tick, due: int, digestDue: bool, e: Effect)
    requires e in PlanAt(st, t, due, digestDue) && e.PostDigest?
    ensures DigestOf(e, t)
  {
    var rewarded := t.current.Rewarded().value;
    if e in Pass(t.current.subscribed, ResolvedSteps(t, rewarded)) + LadderPlan(st.rows, t, rewarded, due) {
      NoDigestBefore(st, t, rewarded, due, e);
    }
    DelinquentDigest.DigestListIs(t.current.orchestrators.value, rewarded);
    forall row ensures row in e.delinquents <==> Missing(t, row) {
      DelinquentDigest.RewardedAddressesAre(t.current.rewards.value, Lower(row.address));
    }
  }

  /** Every digest ever posted lists, largest stake first, exactly the delinquents of a tick of the run. */
  lemma {:induction false} DigestListsDelinquents(s: Settings, prunes: bool, st: State, ticks: seq<Tick>, e: Effect)
    requires ValidSettings(s) && e in Log(s, prunes, st, ticks) && e.PostDigest?
    ensures exists i :: 0 <= i < |ticks| && DigestOf(e, ticks[i])
  {
    var init, last := ticks[..|ticks| - 1], |ticks| - 1;
    if e in Log(s, prunes, st, init) {
      DigestListsDelinquents(s, prunes, st, init, e);
      var i :| 0 <= i < |init| && DigestOf(e, init[i]);
      assert DigestOf(e, ticks[i]);
    } else {
      TickDigestLists(s, prunes, Final(s, prunes, st, init), ticks[last], e);
    }
  }

  // ---- the missed-reward cursor ------------------------------------------------------

  /**
    In one tick the closed round's messages and marks all precede the cursor write, all for one round above the cursor.
  */
  lemma TickMissed(s: Settings, prunes: bool, st: State, t: Tick, i: int)
    requires ValidSettings(s) && 0 <= i < |TickEffects(s, prunes, st, t)|
      && ConcernsMissed(TickEffects(s, prunes, st, t)[i])
    ensures var es := TickEffects(s, prunes, st, t);
      && st.missedDone.Some? && st.missedDone.value < t.round - 1 == es[i].round
      && (es[i].SetMissedDone? ==> forall j | i < j < |es| :: !ConcernsMissed(es[j]))
  {
    var missed := MissedEffects(st, t);
    var es := TickEffects(s, prunes, st, t);
    forall j | |missed| <= j < |es| ensures !ConcernsMissed(es[j]) {
      PlanContains(ApplyAll(prunes, st, missed), t, Due(s, t), DigestDue(s, t), es[j]);
    }
    forall j | 0 <= j < |missed|
      ensures ConcernsMissed(missed[j]) ==> missed[j].round == t.round - 1
      ensures missed[j].SetMissedDone? ==> j == |MissedPlan(st, t)| - 2
      ensures j == |MissedPlan(st, t)| - 1 ==> !ConcernsMissed(missed[j])
    {
      MissedPlanShape(st, t, j);
      if ConcernsMissed(missed[j]) {
        MissedPassRound(st, t, j);
      }
    }
  }

  lemma MissedPassRound(st: State, t: Tick, i: int)
    requires ClosedRoundDue(st, t) && 0 <= i < |MissedPlan(st, t)| && ConcernsMissed(MissedPlan(st, t)[i])
    ensures MissedPlan(st, t)[i].round == t.round - 1
  {
    var pass := Pass(t.closed.subscribed, MissedSteps(st.rows, t));
    if i < |pass| {
      PassContains(t.closed.subscribed, MissedSteps(st.rows, t), pass[i]);
    }
  }

  lemma {:induction false} MissedCursorAfter(prunes: bool, st: State, es: seq<Effect>)
    requires forall i | 0 <= i < |es| && es[i].SetMissedDone? ::
      st.missedDone.Some? && es[i].round > st.missedDone.value
    requires forall i, j | 0 <= i < j < |es| :: es[i].SetMissedDone? ==> !ConcernsMissed(es[j])
    ensures st.missedDone.Some? ==>
      ApplyAll(prunes, st, es).missedDone.Some? && ApplyAll(prunes, st, es).missedDone.value >= st.missedDone.value
    ensures forall i | 0 <= i < |es| && es[i].SetMissedDone? :: ApplyAll(prunes, st, es).missedDone == Some(es[i].round)
    ensures (forall i | 0 <= i < |es| :: !es[i].SetMissedDone?) ==> ApplyAll(prunes, st, es).missedDone == st.missedDone
  {
    if es != [] {
      var init := es[..|es| - 1];
      assert forall i | 0 <= i < |init| :: init[i] == es[i];
      MissedCursorAfter(prunes, st, init);
      if es[|es| - 1].SetMissedDone? {
        assert forall i | 0 <= i < |init| :: !init[i].SetMissedDone?;
      }
    }
  }

  /** Once a closed round is recorded as done, no message, mark or write about it or an earlier one follows. */
  ghost predicate MissedAscend(es: seq<Effect>) {
    forall i, j | 0 <= i < j < |es| && es[i].SetMissedDone? && ConcernsMissed(es[j]) :: es[i].round < es[j].round
  }

  ghost predicate MissedBelow(es: seq<Effect>, mark: Option<int>) {
    forall i | 0 <= i < |es| && es[i].SetMissedDone? :: mark.Some? && es[i].round <= mark.value
  }

  lemma TickMissedMarks(s: Settings, prunes: bool, st: State, t: Tick)
    requires ValidSettings(s)
    ensures var es, after := TickEffects(s, prunes, st, t), ApplyAll(prunes, st, TickEffects(s, prunes, st, t));
      && (forall i | 0 <= i < |es| && ConcernsMissed(es[i]) :: st.missedDone.Some? && es[i].round > st.missedDone.value)
      && (forall i, j | 0 <= i < j < |es| && es[i].SetMissedDone? :: !ConcernsMissed(es[j]))
      && (st.missedDone.Some? <==> after.missedDone.Some?)
      && (st.missedDone.Some? ==> after.missedDone.value >= st.missedDone.value)
      && MissedBelow(es, after.missedDone)
  {
    var es := TickEffects(s, prunes, st, t);
    forall i | 0 <= i < |es| && ConcernsMissed(es[i])
      ensures st.missedDone.Some? && st.missedDone.value < es[i].round
      ensures es[i].SetMissedDone? ==> forall j | i < j < |es| :: !ConcernsMissed(es[j])
    {
      TickMissed(s, prunes, st, t, i);
    }
    MissedCursorAfter(prunes, st, es);
  }

  lemma MissedAscendSnoc(before: seq<Effect>, es: seq<Effect>, mark: Option<int>)
    requires MissedAscend(before) && MissedBelow(before, mark)
    requires forall i | 0 <= i < |es| && ConcernsMissed(es[i]) :: mark.Some? && es[i].round > mark.value
    requires forall i, j | 0 <= i < j < |es| && es[i].SetMissedDone? :: !ConcernsMissed(es[j])
    ensures MissedAscend(before + es)
  {
    var log := before + es;
    forall i, j | 0 <= i < j < |log| && log[i].SetMissedDone? && ConcernsMissed(log[j])
      ensures log[i].round < log[j].round
    {
      if i < |before| <= j {
        assert log[i] == before[i] && log[j] == es[j - |before|];
      }
    }
  }

  /**
    The missed-reward cursor only ever rises, whatever order the explorer reports rounds in, and a
    closed round once recorded is never messaged about again.
  */
  lemma {:induction false} MissedCursorAscends(s: Settings, prunes: bool, st: State, ticks: seq<Tick>)
    requires ValidSettings(s)
    ensures MissedAscend(Log(s, prunes, st, ticks))
    ensures MissedBelow(Log(s, prunes, st, ticks), Final(s, prunes, st, ticks).missedDone)
    ensures forall e | e in Log(s, prunes, st, ticks) && ConcernsMissed(e) ::
      st.missedDone.Some? && e.round > st.missedDone.value
    ensures st.missedDone.Some? <==> Final(s, prunes, st, ticks).missedDone.Some?
    ensures st.missedDone.Some? ==> Final(s, prunes, st, ticks).missedDone.value >= st.missedDone.value
  {
    if ticks != [] {
      var init, t := ticks[..|ticks| - 1], ticks[|ticks| - 1];
      MissedCursorAscends(s, prunes, st, init);
      RunSnoc(s, prunes, st, ticks);
      var mid := Final(s, prunes, st, init);
      var es := TickEffects(s, prunes, mid, t);
      TickMissedMarks(s, prunes, mid, t);
      MissedAscendSnoc(Log(s, prunes, st, init), es, mid.missedDone);
    }
  }

  /** A fresh deployment, whose cursor is absent, never sends a missed-reward message and never prunes. */
  lemma {:induction false} AbsentCursorIsAbsorbing(s: Settings, prunes: bool, st: State, ticks: seq<Tick>)
    requires ValidSettings(s) && st.missedDone.None?
    ensures Final(s, prunes, st, ticks).missedDone.None?
    ensures forall e | e in Log(s, prunes, st, ticks) :: !ConcernsMissed(e) && !e.PruneBefore?
  {
    MissedCursorAscends(s, prunes, st, ticks);
    if ticks != [] {
      var init, t := ticks[..|ticks| - 1], ticks[|ticks| - 1];
      AbsentCursorIsAbsorbing(s, prunes, st, init);
      var mid := Final(s, prunes, st, init);
      forall e | e in TickEffects(s, prunes, mid, t) ensures !e.PruneBefore? {
        assert MissedEffects(mid, t) == [];
        PlanContains(ApplyAll(prunes, mid, []), t, Due(s, t), DigestDue(s, t), e);
      }
    }
  }
}
