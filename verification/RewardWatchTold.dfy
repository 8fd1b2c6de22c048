/** Exactly what one tick of the reward-call watch does, and to whom, told from the pages, the rows and the clock. */
module RewardWatchTold {
  import opened Sequences
  import opened Wrappers
  import opened RoundProgress
  import opened RewardWatch
  import opened RewardWatchRuns
  import opened RewardWatchCursors
  import opened RewardWatchRows
  import opened Text
  import DelinquentDigest

  /** `o` is on some page of the round's reward events. */
  ghost predicate Called(rewards: Option<DelinquentDigest.EventPages>, o: Address) {
    rewards.Some? && DelinquentDigest.RewardedIn(rewards.value, Lower(o))
  }

  /** The previous round is not settled yet, is fully indexed, and its reward events could be fetched. */
  predicate SettlesRound(st: State, t: Tick) {
    && st.missedDone.Some? && st.missedDone.value < t.round - 1
    && t.closed.indexed == Some(true) && t.closed.rewards.Some?
  }

  /** Subscribed to, active, on no reward page of the round just closed, and not marked for it yet. */
  ghost predicate Missed(st: State, t: Tick, o: Address) {
    && SettlesRound(st, t) && o in t.closed.subscribed && t.closed.profile(o).Active?
    && !Called(t.closed.rewards, o)
    && ((t.round - 1, o) in st.rows ==> st.rows[(t.round - 1, o)].missedNotifiedAt.None?)
  }

  /** Subscribed to, active, on no reward page of the current round so far, with fewer alerts recorded than are due. */
  ghost predicate Late(s: Settings, st: State, t: Tick, o: Address)
    requires ValidSettings(s)
  {
    && t.current.rewards.Some? && o in t.current.subscribed && t.current.profile(o).Active?
    && !Called(t.current.rewards, o)
    && (if (t.round, o) in st.rows then st.rows[(t.round, o)].alertsSent else 0) < Due(s, t)
    && Due(s, t) > 0
  }

  /** The digest is wanted, the round is far enough, everything could be fetched, and none is recorded yet. */
  predicate DigestOwed(s: Settings, st: State, t: Tick)
    requires ValidSettings(s)
  {
    && s.postDigest && Pct(s, t) >= s.digestPct as real
    && t.current.rewards.Some? && t.current.orchestrators.Some?
    && (if st.digestDone.Some? then st.digestDone.value else 0) < t.round
  }

  /** What a tick that nothing stops does. */
  ghost predicate Owed(s: Settings, st: State, t: Tick, e: Effect)
    requires ValidSettings(s)
  {
    match e
    case MissedDm(r, o) => r == t.round - 1 && Missed(st, t, o) && t.closed.hasSubscribers(o)
    case MarkMissedNotified(r, o, at) => r == t.round - 1 && at == t.now && Missed(st, t, o)
    case SetMissedDone(r) => r == t.round - 1 && SettlesRound(st, t)
    case PruneBefore(r) => r == t.round - 8 && SettlesRound(st, t)
    case MarkResolved(r, o, at) =>
      r == t.round && at == t.now && o in t.current.subscribed && Called(t.current.rewards, o)
    case LadderDm(r, o) => r == t.round && Late(s, st, t, o) && t.current.hasSubscribers(o)
    case SetAlertsSent(r, o, n) => r == t.round && n == Due(s, t) && Late(s, st, t, o)
    case PostDigest(r, list) =>
      r == t.round && DigestOwed(s, st, t) && list != [] && list == Delinquents(t, t.current.Rewarded().value)
    case SetDigestDone(r) => r == t.round && DigestOwed(s, st, t)
  }

  lemma PassHas(orchs: seq<Address>, step: Address -> seq<Effect>, e: Effect)
    ensures e in Pass(orchs, step) <==> exists o :: o in orchs && e in step(o)
  {
    if e in Pass(orchs, step) {
      PassContains(orchs, step, e);
    }
    if o :| o in orchs && e in step(o) {
      StepInPass(orchs, step, o, e);
    }
  }

  lemma {:induction false} StepInPass(orchs: seq<Address>, step: Address -> seq<Effect>, o: Address, e: Effect)
    requires o in orchs && e in step(o)
    ensures e in Pass(orchs, step)
  {
    var init, last := orchs[..|orchs| - 1], orchs[|orchs| - 1];
    if o in init {
      StepInPass(init, step, o, e);
    } else {
      assert o == last;
    }
  }

  lemma CalledIsRewarded(rewards: Option<DelinquentDigest.EventPages>, o: Address)
    ensures Called(rewards, o) <==> AddressesIn(rewards).Some? && Lower(o) in AddressesIn(rewards).value
  {
    if rewards.Some? {
      DelinquentDigest.RewardedAddressesAre(rewards.value, Lower(o));
    }
  }

  lemma MissedStepHas(st: State, t: Tick, o: Address, e: Effect)
    requires SettlesRound(st, t) && o in t.closed.subscribed
    ensures e in MissedSteps(st.rows, t)(o) <==>
      || (e == MissedDm(t.round - 1, o) && Missed(st, t, o) && t.closed.hasSubscribers(o))
      || (e == MarkMissedNotified(t.round - 1, o, t.now) && Missed(st, t, o))
  {
    CalledIsRewarded(t.closed.rewards, o);
  }

  predicate InMissedPass(e: Effect) {
    e.MissedDm? || e.MarkMissedNotified? || e.SetMissedDone? || e.PruneBefore?
  }

  lemma MissedPassHas(s: Settings, st: State, t: Tick, e: Effect)
    requires ValidSettings(s) && SettlesRound(st, t)
    ensures e in Pass(t.closed.subscribed, MissedSteps(st.rows, t))
      <==> (e.MissedDm? || e.MarkMissedNotified?) && Owed(s, st, t, e)
  {
    var step := MissedSteps(st.rows, t);
    PassHas(t.closed.subscribed, step, e);
    forall o | o in t.closed.subscribed ensures e in step(o) <==>
        || (e == MissedDm(t.round - 1, o) && Missed(st, t, o) && t.closed.hasSubscribers(o))
        || (e == MarkMissedNotified(t.round - 1, o, t.now) && Missed(st, t, o))
    {
      MissedStepHas(st, t, o, e);
    }
    if (e.MissedDm? || e.MarkMissedNotified?) && Owed(s, st, t, e) {
      assert e.orch in t.closed.subscribed && e in step(e.orch);
    }
  }

  lemma MissedPlanHas(s: Settings, st: State, t: Tick, e: Effect)
    requires ValidSettings(s)
    ensures e in MissedPlan(st, t) <==> InMissedPass(e) && Owed(s, st, t, e)
  {
    if SettlesRound(st, t) {
      MissedPassHas(s, st, t, e);
    }
  }

  lemma ResolvedHas(s: Settings, st: State, t: Tick, e: Effect)
    requires ValidSettings(s) && t.current.rewards.Some?
    ensures e in Pass(t.current.subscribed, ResolvedSteps(t, t.current.Rewarded().value))
      <==> e.MarkResolved? && Owed(s, st, t, e)
  {
    var step := ResolvedSteps(t, t.current.Rewarded().value);
    PassHas(t.current.subscribed, step, e);
    forall o ensures e in step(o) <==> e == MarkResolved(t.round, o, t.now) && Called(t.current.rewards, o) {
      CalledIsRewarded(t.current.rewards, o);
    }
    if e.MarkResolved? && Owed(s, st, t, e) {
      assert e.orch in t.current.subscribed && e in step(e.orch);
    }
  }

  lemma LadderStepHas(s: Settings, st: State, t: Tick, o: Address, e: Effect)
    requires ValidSettings(s) && t.current.rewards.Some? && o in t.current.subscribed && Due(s, t) > 0
    ensures e in LadderSteps(st.rows, t, t.current.Rewarded().value, Due(s, t))(o) <==>
      || (e == LadderDm(t.round, o) && Late(s, st, t, o) && t.current.hasSubscribers(o))
      || (e == SetAlertsSent(t.round, o, Due(s, t)) && Late(s, st, t, o))
  {
    CalledIsRewarded(t.current.rewards, o);
  }

  lemma LadderHas(s: Settings, st: State, t: Tick, e: Effect)
    requires ValidSettings(s) && t.current.rewards.Some?
    ensures e in LadderPlan(st.rows, t, t.current.Rewarded().value, Due(s, t))
      <==> (e.LadderDm? || e.SetAlertsSent?) && Owed(s, st, t, e)
  {
    if Due(s, t) > 0 {
      var step := LadderSteps(st.rows, t, t.current.Rewarded().value, Due(s, t));
      PassHas(t.current.subscribed, step, e);
      forall o | o in t.current.subscribed ensures e in step(o) <==>
          || (e == LadderDm(t.round, o) && Late(s, st, t, o) && t.current.hasSubscribers(o))
          || (e == SetAlertsSent(t.round, o, Due(s, t)) && Late(s, st, t, o))
      {
        LadderStepHas(s, st, t, o, e);
      }
      if (e.LadderDm? || e.SetAlertsSent?) && Owed(s, st, t, e) {
        assert e.orch in t.current.subscribed && e in step(e.orch);
      }
    }
  }

  lemma DigestHas(s: Settings, st: State, t: Tick, e: Effect)
    requires ValidSettings(s) && t.current.rewards.Some?
    ensures e in (if DigestDue(s, t) then DigestPlan(st, t, t.current.Rewarded().value) else [])
      <==> (e.PostDigest? || e.SetDigestDone?) && Owed(s, st, t, e)
  {
  }

  lemma CurrentPlanHas(s: Settings, st: State, t: Tick, e: Effect)
    requires ValidSettings(s)
    ensures e in CurrentPlan(s, st, t) <==> !InMissedPass(e) && Owed(s, st, t, e)
  {
    if t.current.rewards.Some? {
      ResolvedHas(s, st, t, e);
      LadderHas(s, st, t, e);
      DigestHas(s, st, t, e);
    }
  }

  // ---- the whole tick -------------------------------------------------------------------------

  /** The first pass changes nothing the second one goes by. */
  lemma AfterMissedOwes(s: Settings, st: State, t: Tick, e: Effect)
    requires ValidSettings(s) && !InMissedPass(e)
    ensures Owed(s, AfterMissed(st, t), t, e) == Owed(s, st, t, e)
  {
    var missed := MissedEffects(st, t);
    forall i | 0 <= i < |missed| ensures !missed[i].SetDigestDone? {
      MissedPlanShape(st, t, i);
    }
    DigestCursorAfter(true, st, missed);
    if e.LadderDm? || e.SetAlertsSent? {
      MissedSpares(st, t, t.round);
      MissedEffectsAreNoLadder(st, t, t.round, e.orch);
      AlertsAfter(st, missed, t.round, e.orch);
    }
  }

  /** Whatever fails, a tick does only what it owes. */
  lemma TickDoesOnly(s: Settings, st: State, t: Tick, e: Effect)
    requires ValidSettings(s) && e in TickEffects(s, true, st, t)
    ensures Owed(s, st, t, e)
  {
    MissedPlanHas(s, st, t, e);
    CurrentPlanHas(s, AfterMissed(st, t), t, e);
    if !InMissedPass(e) {
      AfterMissedOwes(s, st, t, e);
    }
  }

  /** Neither pass of the tick fails. */
  predicate NothingFails(s: Settings, st: State, t: Tick)
    requires ValidSettings(s)
  {
    t.missedCredit >= |MissedPlan(st, t)| && t.currentCredit >= |CurrentPlan(s, AfterMissed(st, t), t)|
  }

  /**
    A tick in which nothing fails messages, marks, records, prunes and posts exactly what it owes: in particular
    it tells of a missed reward the subscribers of exactly those orchestrators that are subscribed to, active, on no
    reward page of the closed round and not told yet, and of a late one likewise.
  */
  lemma TickDoesExactly(s: Settings, st: State, t: Tick, e: Effect)
    requires ValidSettings(s) && NothingFails(s, st, t)
    ensures e in TickEffects(s, true, st, t) <==> Owed(s, st, t, e)
  {
    MissedPlanHas(s, st, t, e);
    CurrentPlanHas(s, AfterMissed(st, t), t, e);
    if !InMissedPass(e) {
      AfterMissedOwes(s, st, t, e);
    }
  }

  /** Tick `i` of the run owes `e`, from the store as it is then. */
  ghost predicate OwedAt(s: Settings, st: State, ticks: seq<Tick>, i: nat, e: Effect)
    requires ValidSettings(s) && i < |ticks|
  {
    Owed(s, Final(s, true, st, ticks[..i]), ticks[i], e)
  }

  lemma OwedInPrefix(s: Settings, st: State, ticks: seq<Tick>, n: nat, i: nat, e: Effect)
    requires ValidSettings(s) && i < n <= |ticks|
    ensures OwedAt(s, st, ticks[..n], i, e) == OwedAt(s, st, ticks, i, e)
  {
    assert ticks[..n][..i] == ticks[..i];
  }

  /** Over every run: whatever was done was owed by one of its ticks. */
  lemma {:induction false} RunDoesOnly(s: Settings, st: State, ticks: seq<Tick>, e: Effect)
    requires ValidSettings(s) && e in Log(s, true, st, ticks)
    ensures exists i :: 0 <= i < |ticks| && OwedAt(s, st, ticks, i, e)
  {
    var n := |ticks| - 1;
    var init := ticks[..n];
    if e in Log(s, true, st, init) {
      RunDoesOnly(s, st, init, e);
      var i :| 0 <= i < n && OwedAt(s, st, init, i, e);
      OwedInPrefix(s, st, ticks, n, i, e);
    } else {
      RunSnoc(s, true, st, ticks);
      TickDoesOnly(s, Final(s, true, st, init), ticks[n], e);
      assert OwedAt(s, st, ticks, n, e);
    }
  }

  // ---- and nothing twice ------------------------------------------------------------------------

  /** The orchestrator an effect is about. */
  function OrchOf(e: Effect): Address {
    match e
    case LadderDm(_, o) => o
    case SetAlertsSent(_, o, _) => o
    case MarkResolved(_, o, _) => o
    case MissedDm(_, o) => o
    case MarkMissedNotified(_, o, _) => o
    case _ => ""
  }

  /** Each step does `e` once at most, and only the step of the orchestrator `e` is about does it. */
  ghost predicate StepsOnce(step: Address -> seq<Effect>, e: Effect) {
    forall o :: multiset(step(o))[e] <= if o == OrchOf(e) then 1 else 0
  }

  lemma {:induction false} PassOnce(orchs: seq<Address>, step: Address -> seq<Effect>, e: Effect)
    requires Distinct(orchs) && StepsOnce(step, e)
    ensures multiset(Pass(orchs, step))[e] <= if OrchOf(e) in orchs then 1 else 0
  {
    if orchs != [] {
      PassOnce(orchs[..|orchs| - 1], step, e);
      assert multiset(step(orchs[|orchs| - 1]))[e] <= if orchs[|orchs| - 1] == OrchOf(e) then 1 else 0;
    }
  }

  lemma MissedStepsOnce(rows: Rows, t: Tick, e: Effect)
    requires t.closed.rewards.Some?
    ensures StepsOnce(MissedSteps(rows, t), e)
  {
    forall o ensures multiset(MissedSteps(rows, t)(o))[e] <= if o == OrchOf(e) then 1 else 0 {
    }
  }

  lemma LadderStepsOnce(rows: Rows, t: Tick, rewarded: set<Address>, due: int, e: Effect)
    ensures StepsOnce(LadderSteps(rows, t, rewarded, due), e)
  {
    forall o ensures multiset(LadderSteps(rows, t, rewarded, due)(o))[e] <= if o == OrchOf(e) then 1 else 0 {
    }
  }

  lemma ResolvedStepsOnce(t: Tick, rewarded: set<Address>, e: Effect)
    ensures StepsOnce(ResolvedSteps(t, rewarded), e)
  {
    forall o ensures multiset(ResolvedSteps(t, rewarded)(o))[e] <= if o == OrchOf(e) then 1 else 0 {
    }
  }

  lemma PlanOnceOf(pass: seq<Effect>, tail: seq<Effect>, e: Effect)
    requires multiset(pass)[e] <= 1 && multiset(tail)[e] <= 1 && (e in tail ==> e !in pass)
    ensures multiset(pass + tail)[e] <= 1
  {
    assert e in pass <==> multiset(pass)[e] > 0;
    assert e in tail <==> multiset(tail)[e] > 0;
  }

  lemma ThreeOnce(a: seq<Effect>, b: seq<Effect>, c: seq<Effect>, e: Effect)
    requires multiset(a)[e] <= 1 && multiset(b)[e] <= 1 && multiset(c)[e] <= 1
    requires (e in b ==> e !in a) && (e in c ==> e !in a && e !in b)
    ensures multiset(a + b + c)[e] <= 1
  {
    PlanOnceOf(a, b, e);
    PlanOnceOf(a + b, c, e);
  }

  lemma MissedPlanOnce(s: Settings, st: State, t: Tick, e: Effect)
    requires ValidSettings(s) && ValidTick(t)
    ensures multiset(MissedPlan(st, t))[e] <= 1
  {
    if SettlesRound(st, t) {
      MissedStepsOnce(st.rows, t, e);
      PassOnce(t.closed.subscribed, MissedSteps(st.rows, t), e);
      MissedPassHas(s, st, t, e);
      PlanOnceOf(Pass(t.closed.subscribed, MissedSteps(st.rows, t)),
        [SetMissedDone(t.round - 1), PruneBefore(t.round - PRUNE_KEEP_ROUNDS)], e);
    }
  }

  lemma ResolvedOnce(t: Tick, rewarded: set<Address>, e: Effect)
    requires ValidTick(t)
    ensures var pass := Pass(t.current.subscribed, ResolvedSteps(t, rewarded));
      multiset(pass)[e] <= 1 && (e in pass ==> e.MarkResolved?)
  {
    ResolvedStepsOnce(t, rewarded, e);
    PassOnce(t.current.subscribed, ResolvedSteps(t, rewarded), e);
    if e in Pass(t.current.subscribed, ResolvedSteps(t, rewarded)) {
      ResolvedContains(t, rewarded, e);
    }
  }

  lemma LadderOnce(rows: Rows, t: Tick, rewarded: set<Address>, due: int, e: Effect)
    requires ValidTick(t)
    ensures var plan := LadderPlan(rows, t, rewarded, due);
      multiset(plan)[e] <= 1 && (e in plan ==> e.LadderDm? || e.SetAlertsSent?)
  {
    LadderStepsOnce(rows, t, rewarded, due, e);
    PassOnce(t.current.subscribed, LadderSteps(rows, t, rewarded, due), e);
    if e in LadderPlan(rows, t, rewarded, due) {
      LadderContains(rows, t, rewarded, due, e);
    }
  }

  lemma DigestOnce(st: State, t: Tick, rewarded: set<Address>, e: Effect)
    ensures var plan := DigestPlan(st, t, rewarded);
      multiset(plan)[e] <= 1 && (e in plan ==> e.PostDigest? || e.SetDigestDone?)
  {
  }

  lemma RoundPlanOnce(st: State, t: Tick, rewarded: set<Address>, due: int, digestDue: bool, e: Effect)
    requires ValidTick(t)
    ensures multiset(
      Pass(t.current.subscribed, ResolvedSteps(t, rewarded)) + LadderPlan(st.rows, t, rewarded, due)
        + (if digestDue then DigestPlan(st, t, rewarded) else []))[e] <= 1
  {
    var resolved := Pass(t.current.subscribed, ResolvedSteps(t, rewarded));
    var digest := if digestDue then DigestPlan(st, t, rewarded) else [];
    ResolvedOnce(t, rewarded, e);
    LadderOnce(st.rows, t, rewarded, due, e);
    DigestOnce(st, t, rewarded, e);
    ThreeOnce(resolved, LadderPlan(st.rows, t, rewarded, due), digest, e);
  }

  lemma CurrentPlanOnce(st: State, t: Tick, due: int, digestDue: bool, e: Effect)
    requires ValidTick(t)
    ensures multiset(PlanAt(st, t, due, digestDue))[e] <= 1
  {
    if t.current.rewards.Some? {
      RoundPlanOnce(st, t, t.current.Rewarded().value, due, digestDue, e);
    }
  }

  lemma PrefixOnce(plan: seq<Effect>, credit: nat, e: Effect)
    ensures multiset(Performed(plan, credit))[e] <= multiset(plan)[e]
  {
    if credit < |plan| {
      assert plan == plan[..credit] + plan[credit..];
    }
  }

  /** No tick does the same thing twice. */
  lemma TickDoesOnce(s: Settings, st: State, t: Tick, e: Effect)
    requires ValidSettings(s) && ValidTick(t)
    ensures multiset(TickEffects(s, true, st, t))[e] <= 1
  {
    var plan := CurrentPlan(s, AfterMissed(st, t), t);
    MissedPlanOnce(s, st, t, e);
    CurrentPlanOnce(AfterMissed(st, t), t, Due(s, t), DigestDue(s, t), e);
    PrefixOnce(MissedPlan(st, t), t.missedCredit, e);
    PrefixOnce(plan, t.currentCredit, e);
    MissedPlanHas(s, st, t, e);
    CurrentPlanHas(s, AfterMissed(st, t), t, e);
    PlanOnceOf(MissedEffects(st, t), Performed(plan, t.currentCredit), e);
  }

  // ---- runs in which nothing fails -------------------------------------------------------------------

  /** Tick `i` of the run does not fail. */
  ghost predicate TickGoesThrough(s: Settings, st: State, ticks: seq<Tick>, i: nat)
    requires ValidSettings(s) && i < |ticks|
  {
    NothingFails(s, Final(s, true, st, ticks[..i]), ticks[i])
  }

  /** No tick of the run fails. */
  ghost predicate NothingEverFails(s: Settings, st: State, ticks: seq<Tick>)
    requires ValidSettings(s)
  {
    forall i | 0 <= i < |ticks| :: TickGoesThrough(s, st, ticks, i)
  }

  /** A tick that does not fail marks what it has told and records the rungs it has climbed. */
  lemma NoneLeftOpen(s: Settings, st: State, t: Tick, round: int, orch: Address)
    requires ValidSettings(s) && NothingFails(s, st, t)
    ensures !Unmarked(TickEffects(s, true, st, t), round, orch)
    ensures !Unrecorded(TickEffects(s, true, st, t), round, orch)
  {
    var es := TickEffects(s, true, st, t);
    if MissedDm(round, orch) in es {
      TickDoesExactly(s, st, t, MissedDm(round, orch));
      TickDoesExactly(s, st, t, MarkMissedNotified(round, orch, t.now));
      var i :| 0 <= i < |es| && es[i] == MarkMissedNotified(round, orch, t.now);
    }
    if LadderDm(round, orch) in es {
      TickDoesExactly(s, st, t, LadderDm(round, orch));
      TickDoesExactly(s, st, t, SetAlertsSent(round, orch, Due(s, t)));
      var i :| 0 <= i < |es| && es[i] == SetAlertsSent(round, orch, Due(s, t));
    }
  }

  lemma GoesThroughInPrefix(s: Settings, st: State, ticks: seq<Tick>, n: nat, i: nat)
    requires ValidSettings(s) && i < n <= |ticks| && TickGoesThrough(s, st, ticks, i)
    ensures TickGoesThrough(s, st, ticks[..n], i)
  {
    assert ticks[..n][..i] == ticks[..i];
  }

  lemma {:induction false} NothingLeftOpen(s: Settings, st: State, ticks: seq<Tick>, round: int, orch: Address)
    requires ValidSettings(s) && NothingEverFails(s, st, ticks)
    ensures UnmarkedTicks(s, st, ticks, round, orch) == 0 && UnrecordedTicks(s, st, ticks, round, orch) == 0
  {
    if ticks != [] {
      var n := |ticks| - 1;
      var init := ticks[..n];
      forall i | 0 <= i < n ensures TickGoesThrough(s, st, init, i) {
        GoesThroughInPrefix(s, st, ticks, n, i);
      }
      NothingLeftOpen(s, st, init, round, orch);
      LastLeftClosed(s, st, ticks, round, orch);
    }
  }

  lemma LastLeftClosed(s: Settings, st: State, ticks: seq<Tick>, round: int, orch: Address)
    requires ValidSettings(s) && ticks != [] && TickGoesThrough(s, st, ticks, |ticks| - 1)
    ensures UnmarkedTicks(s, st, ticks, round, orch) == UnmarkedTicks(s, st, ticks[..|ticks| - 1], round, orch)
    ensures UnrecordedTicks(s, st, ticks, round, orch) == UnrecordedTicks(s, st, ticks[..|ticks| - 1], round, orch)
  {
    NoneLeftOpen(s, Final(s, true, st, ticks[..|ticks| - 1]), ticks[|ticks| - 1], round, orch);
  }

  /**
    Over every run in which nothing fails, subscribers are told of one missed reward once at most, and of a late
    one, unless its round is observed again after one more than eight above it, at most as often as a full round
    has rungs.
  */
  lemma ToldOnceUnlessFailed(s: Settings, st: State, ticks: seq<Tick>, round: int, orch: Address)
    requires ValidSettings(s) && ValidTicks(ticks) && NothingEverFails(s, st, ticks)
    ensures multiset(Log(s, true, st, ticks))[MissedDm(round, orch)] <= 1
    ensures SeenWhileKept(Rounds(ticks), round) ==>
      multiset(Log(s, true, st, ticks))[LadderDm(round, orch)]
        <= Max(0, MaxRungs(s.firstAlertPct, s.realertStepPct) - AlertsSent(st.rows, round, orch))
  {
    NothingLeftOpen(s, st, ticks, round, orch);
    MissedIsSentOnce(s, st, ticks, round, orch);
    if SeenWhileKept(Rounds(ticks), round) {
      LadderIsBounded(s, st, ticks, round, orch);
    }
  }
}
