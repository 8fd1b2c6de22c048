/**
  The reward-call watch: one tick of reward_watch_poller.rs over the rows of reward_watch.rs
  and the two round cursors of state/repo.rs. A tick is the sequence of effects it sets out to
  perform; a failure or a crash after any one of them leaves a prefix of that sequence.
*/
module RewardWatch {
  import opened Sequences
  import opened Wrappers
  import opened RoundProgress
  import opened Text
  import DelinquentDigest

  type Address = string

  const PRUNE_KEEP_ROUNDS := 8

  // ---- stored state ------------------------------------------------------------

  datatype WatchRow = WatchRow(alertsSent: int, resolvedAt: Option<int>, missedNotifiedAt: Option<int>)

  type Rows = map<(int, Address), WatchRow>

  function AlertsSent(rows: Rows, round: int, orch: Address): int {
    if (round, orch) in rows then rows[(round, orch)].alertsSent else 0
  }

  predicate WasMissedNotified(rows: Rows, round: int, orch: Address) {
    (round, orch) in rows && rows[(round, orch)].missedNotifiedAt.Some?
  }

  /** The row an upsert starts from. */
  function RowOr(rows: Rows, round: int, orch: Address): WatchRow {
    if (round, orch) in rows then rows[(round, orch)] else WatchRow(0, None, None)
  }

  function Coalesce(stamp: Option<int>, at: int): Option<int> {
    if stamp.Some? then stamp else Some(at)
  }

  function Pruned(rows: Rows, before: int): Rows {
    map k | k in rows && k.0 >= before :: rows[k]
  }

  datatype State = State(rows: Rows, missedDone: Option<int>, digestDone: Option<int>)

  // ---- effects -----------------------------------------------------------------

  datatype Effect =
    | LadderDm(round: int, orch: Address)
    | SetAlertsSent(round: int, orch: Address, alerts: int)
    | MarkResolved(round: int, orch: Address, at: int)
    | MissedDm(round: int, orch: Address)
    | MarkMissedNotified(round: int, orch: Address, at: int)
    | SetMissedDone(round: int)
    | PruneBefore(round: int)
    | PostDigest(round: int, delinquents: seq<DelinquentDigest.OrchRow>)
    | SetDigestDone(round: int)

  /** What an effect does to the store. `prunes` is false for a store that keeps every row. */
  function Apply(prunes: bool, st: State, e: Effect): State {
    match e
    case SetAlertsSent(r, o, n) => st.(rows := st.rows[(r, o) := RowOr(st.rows, r, o).(alertsSent := n)])
    case MarkResolved(r, o, at) =>
      var row := RowOr(st.rows, r, o);
      st.(rows := st.rows[(r, o) := row.(resolvedAt := Coalesce(row.resolvedAt, at))])
    case MarkMissedNotified(r, o, at) =>
      var row := RowOr(st.rows, r, o);
      st.(rows := st.rows[(r, o) := row.(missedNotifiedAt := Coalesce(row.missedNotifiedAt, at))])
    case SetMissedDone(r) => st.(missedDone := Some(r))
    case PruneBefore(r) => if prunes then st.(rows := Pruned(st.rows, r)) else st
    case SetDigestDone(r) => st.(digestDone := Some(r))
    case _ => st
  }

  function ApplyAll(prunes: bool, st: State, es: seq<Effect>): State {
    if es == [] then st else Apply(prunes, ApplyAll(prunes, st, es[..|es| - 1]), es[|es| - 1])
  }

  /** What is left of a plan when only `credit` effects go through. */
  function Performed(plan: seq<Effect>, credit: nat): seq<Effect> {
    if |plan| <= credit then plan else plan[..credit]
  }

  // ---- what the explorer, the subscriptions and the clock say during one tick ----

  datatype Profile = Unavailable | Inactive | Active

  datatype Settings = Settings(firstAlertPct: int, realertStepPct: int,
    digestPct: int, roundLengthBlocks: int, postDigest: bool)

  predicate ValidSettings(s: Settings) {
    1 <= s.firstAlertPct <= 100 && s.realertStepPct >= 1
      && s.firstAlertPct <= s.digestPct <= 100 && s.roundLengthBlocks >= 1
  }

  function AddressesIn(rewards: Option<DelinquentDigest.EventPages>): Option<set<Address>> {
    if rewards.Some? then Some(DelinquentDigest.RewardedAddresses(rewards.value)) else None
  }

  /**
    `indexed`: the first page of the closed round, if fetched, and whether it carries `to_block`;
    `rewards`: the pages of the round's reward events, if all could be fetched.
  */
  datatype ClosedView = ClosedView(
    indexed: Option<bool>, rewards: Option<DelinquentDigest.EventPages>, subscribed: seq<Address>,
    profile: Address -> Profile, hasSubscribers: Address -> bool)
  {
    function Rewarded(): Option<set<Address>> {
      AddressesIn(rewards)
    }
  }

  /** `orchestrators`: the pages of all orchestrators, if the digest can fetch them. */
  datatype CurrentView = CurrentView(
    rewards: Option<DelinquentDigest.EventPages>, subscribed: seq<Address>,
    profile: Address -> Profile, hasSubscribers: Address -> bool,
    orchestrators: Option<seq<seq<DelinquentDigest.OrchRow>>>)
  {
    function Rewarded(): Option<set<Address>> {
      AddressesIn(rewards)
    }
  }

  /** The credits say after how many effects each of the two passes fails, if it fails. */
  datatype Tick = Tick(
    round: int, startedAt: int, now: int,
    closed: ClosedView, missedCredit: nat, current: CurrentView, currentCredit: nat)

  /** Both queries for subscribed orchestrators select distinct addresses. */
  ghost predicate ValidTick(t: Tick) {
    Distinct(t.closed.subscribed) && Distinct(t.current.subscribed)
  }

  // ---- the plan of a tick --------------------------------------------------------

  /** A pass over the subscribed orchestrators, one after the other. */
  function Pass(orchs: seq<Address>, step: Address -> seq<Effect>): seq<Effect> {
    if orchs == [] then [] else Pass(orchs[..|orchs| - 1], step) + step(orchs[|orchs| - 1])
  }

  function MissedStep(rows: Rows, prev: int, now: int, rewarded: set<Address>, c: ClosedView,
                      orch: Address): seq<Effect> {
    if Lower(orch) in rewarded || WasMissedNotified(rows, prev, orch) || !c.profile(orch).Active? then []
    else (if c.hasSubscribers(orch) then [MissedDm(prev, orch)] else []) + [MarkMissedNotified(prev, orch, now)]
  }

  /** The cursor is only ever read as "treat the previous round as handled" while it is absent. */
  predicate ClosedRoundDue(st: State, t: Tick) {
    && st.missedDone.Some? && st.missedDone.value < t.round - 1
    && t.closed.indexed == Some(true) && t.closed.Rewarded().Some?
  }

  function MissedSteps(rows: Rows, t: Tick): Address -> seq<Effect>
    requires t.closed.Rewarded().Some?
  {
    o => MissedStep(rows, t.round - 1, t.now, t.closed.Rewarded().value, t.closed, o)
  }

  function MissedPlan(st: State, t: Tick): seq<Effect> {
    if !ClosedRoundDue(st, t) then []
    else
      Pass(t.closed.subscribed, MissedSteps(st.rows, t))
      + [SetMissedDone(t.round - 1), PruneBefore(t.round - PRUNE_KEEP_ROUNDS)]
  }

  function ResolvedStep(t: Tick, rewarded: set<Address>, orch: Address): seq<Effect> {
    if Lower(orch) in rewarded then [MarkResolved(t.round, orch, t.now)] else []
  }

  function LadderStep(rows: Rows, t: Tick, rewarded: set<Address>, due: int, orch: Address): seq<Effect> {
    if Lower(orch) in rewarded || AlertsSent(rows, t.round, orch) >= due || !t.current.profile(orch).Active? then []
    else
      (if t.current.hasSubscribers(orch) then [LadderDm(t.round, orch)] else [])
      + [SetAlertsSent(t.round, orch, due)]
  }

  function ResolvedSteps(t: Tick, rewarded: set<Address>): Address -> seq<Effect> {
    o => ResolvedStep(t, rewarded, o)
  }

  function LadderSteps(rows: Rows, t: Tick, rewarded: set<Address>, due: int): Address -> seq<Effect> {
    o => LadderStep(rows, t, rewarded, due, o)
  }

  /** Whom the digest of this tick would list. */
  function Delinquents(t: Tick, rewarded: set<Address>): seq<DelinquentDigest.OrchRow>
    requires t.current.orchestrators.Some?
  {
    DelinquentDigest.DigestList(t.current.orchestrators.value, rewarded)
  }

  function DigestPlan(st: State, t: Tick, rewarded: set<Address>): seq<Effect> {
    if t.current.orchestrators.None? then []
    else if (if st.digestDone.Some? then st.digestDone.value else 0) >= t.round then []
    else
      (if Delinquents(t, rewarded) == [] then [] else [PostDigest(t.round, Delinquents(t, rewarded))])
      + [SetDigestDone(t.round)]
  }

  function LadderPlan(rows: Rows, t: Tick, rewarded: set<Address>, due: int): seq<Effect> {
    if due > 0 then Pass(t.current.subscribed, LadderSteps(rows, t, rewarded, due)) else []
  }

  /** The second pass, once it is known how many rungs are due and whether the digest is. */
  function PlanAt(st: State, t: Tick, due: int, digestDue: bool): seq<Effect> {
    match t.current.Rewarded()
    case None => []
    case Some(rewarded) =>
      Pass(t.current.subscribed, ResolvedSteps(t, rewarded))
      + LadderPlan(st.rows, t, rewarded, due)
      + if digestDue then DigestPlan(st, t, rewarded) else []
  }

  function Pct(s: Settings, t: Tick): real
    requires ValidSettings(s)
  {
    ElapsedPct(t.startedAt, t.now, s.roundLengthBlocks)
  }

  function Due(s: Settings, t: Tick): int
    requires ValidSettings(s)
  {
    DueAlerts(Pct(s, t), s.firstAlertPct, s.realertStepPct)
  }

  predicate DigestDue(s: Settings, t: Tick)
    requires ValidSettings(s)
  {
    s.postDigest && Pct(s, t) >= s.digestPct as real
  }

  function CurrentPlan(s: Settings, st: State, t: Tick): seq<Effect>
    requires ValidSettings(s)
  {
    PlanAt(st, t, Due(s, t), DigestDue(s, t))
  }

  function MissedEffects(st: State, t: Tick): seq<Effect> {
    Performed(MissedPlan(st, t), t.missedCredit)
  }

  /** A failed closed-round pass is logged and the tick goes on. */
  function TickEffects(s: Settings, prunes: bool, st: State, t: Tick): seq<Effect>
    requires ValidSettings(s)
  {
    var missed := MissedEffects(st, t);
    missed + Performed(CurrentPlan(s, ApplyAll(prunes, st, missed), t), t.currentCredit)
  }

  // ---- runs ----------------------------------------------------------------------

  function Log(s: Settings, prunes: bool, st: State, ticks: seq<Tick>): seq<Effect>
    requires ValidSettings(s)
  {
    if ticks == [] then []
    else
      var before := Log(s, prunes, st, ticks[..|ticks| - 1]);
      before + TickEffects(s, prunes, ApplyAll(prunes, st, before), ticks[|ticks| - 1])
  }

  function Final(s: Settings, prunes: bool, st: State, ticks: seq<Tick>): State
    requires ValidSettings(s)
  {
    ApplyAll(prunes, st, Log(s, prunes, st, ticks))
  }

  lemma {:induction false} ApplyAllSplits(prunes: bool, st: State, a: seq<Effect>, b: seq<Effect>)
    ensures ApplyAll(prunes, st, a + b) == ApplyAll(prunes, ApplyAll(prunes, st, a), b)
  {
    if b == [] {
      assert a + b == a;
    } else {
      assert (a + b)[..|a + b| - 1] == a + b[..|b| - 1];
      ApplyAllSplits(prunes, st, a, b[..|b| - 1]);
    }
  }

  // ---- pruning is invisible --------------------------------------------------------

  /** Two stores that agree on the cursors and on every round from `floor` up. */
  ghost predicate Agree(a: State, b: State, floor: Option<int>) {
    && a.missedDone == b.missedDone && a.digestDone == b.digestDone
    && (floor.Some? ==> a.missedDone.Some? && a.missedDone.value >= floor.value + PRUNE_KEEP_ROUNDS - 1)
    && forall r, o | floor.None? || r >= floor.value :: AgreeAt(a.rows, b.rows, r, o)
  }

  predicate AgreeAt(a: Rows, b: Rows, round: int, orch: Address) {
    ((round, orch) in a <==> (round, orch) in b) && RowOr(a, round, orch) == RowOr(b, round, orch)
  }

  lemma EffectKeepsAgreement(a: State, b: State, floor: Option<int>, e: Effect)
    requires Agree(a, b, floor) && !e.PruneBefore?
    requires e.SetMissedDone? && floor.Some? ==> e.round >= floor.value + PRUNE_KEEP_ROUNDS - 1
    ensures Agree(Apply(true, a, e), Apply(false, b, e), floor)
  {
    var a', b' := Apply(true, a, e), Apply(false, b, e);
    forall r, o | floor.None? || r >= floor.value ensures AgreeAt(a'.rows, b'.rows, r, o) {
      assert AgreeAt(a.rows, b.rows, r, o);
    }
  }

  lemma PruneKeepsAgreement(a: State, b: State, floor: Option<int>, before: int)
    requires Agree(a, b, floor) && (floor.Some? ==> before > floor.value)
    requires a.missedDone.Some? && a.missedDone.value >= before + PRUNE_KEEP_ROUNDS - 1
    ensures Agree(Apply(true, a, PruneBefore(before)), Apply(false, b, PruneBefore(before)), Some(before))
  {
    forall r, o | r >= before ensures AgreeAt(Pruned(a.rows, before), b.rows, r, o) {
      assert AgreeAt(a.rows, b.rows, r, o);
    }
  }

  lemma {:induction false} EffectsKeepAgreement(a: State, b: State, floor: Option<int>, es: seq<Effect>)
    requires Agree(a, b, floor)
    requires forall i | 0 <= i < |es| :: !es[i].PruneBefore?
    requires forall i | 0 <= i < |es| ::
      es[i].SetMissedDone? && floor.Some? ==> es[i].round >= floor.value + PRUNE_KEEP_ROUNDS - 1
    ensures Agree(ApplyAll(true, a, es), ApplyAll(false, b, es), floor)
  {
    if es != [] {
      var init := es[..|es| - 1];
      assert forall i | 0 <= i < |init| :: init[i] == es[i];
      EffectsKeepAgreement(a, b, floor, init);
      EffectKeepsAgreement(ApplyAll(true, a, init), ApplyAll(false, b, init), floor, es[|es| - 1]);
    }
  }

  /** What a pass may contain is what its steps may contain. */
  lemma {:induction false} PassContains(orchs: seq<Address>, step: Address -> seq<Effect>, e: Effect)
    requires e in Pass(orchs, step)
    ensures exists o :: o in orchs && e in step(o)
  {
    var init, last := orchs[..|orchs| - 1], orchs[|orchs| - 1];
    if e in Pass(init, step) {
      PassContains(init, step, e);
    } else {
      assert last in orchs && e in step(last);
    }
  }

  lemma {:induction false} PassCong(orchs: seq<Address>, f: Address -> seq<Effect>, g: Address -> seq<Effect>)
    requires forall o | o in orchs :: f(o) == g(o)
    ensures Pass(orchs, f) == Pass(orchs, g)
  {
    if orchs != [] {
      PassCong(orchs[..|orchs| - 1], f, g);
    }
  }

  lemma MissedPlansAgree(a: State, b: State, floor: Option<int>, t: Tick)
    requires Agree(a, b, floor)
    ensures MissedPlan(a, t) == MissedPlan(b, t)
    ensures floor.Some? && ClosedRoundDue(a, t) ==> t.round - PRUNE_KEEP_ROUNDS > floor.value
  {
    if ClosedRoundDue(a, t) {
      var f, g := MissedSteps(a.rows, t), MissedSteps(b.rows, t);
      forall o ensures f(o) == g(o) {
        assert AgreeAt(a.rows, b.rows, t.round - 1, o);
      }
      PassCong(t.closed.subscribed, f, g);
    }
  }

  lemma PlansAgree(a: State, b: State, floor: Option<int>, t: Tick, due: int, digestDue: bool)
    requires Agree(a, b, floor) && (floor.Some? ==> t.round >= floor.value)
    ensures PlanAt(a, t, due, digestDue) == PlanAt(b, t, due, digestDue)
  {
    if t.current.Rewarded().Some? {
      var rewarded := t.current.Rewarded().value;
      var f, g := LadderSteps(a.rows, t, rewarded, due), LadderSteps(b.rows, t, rewarded, due);
      forall o ensures f(o) == g(o) {
        assert AgreeAt(a.rows, b.rows, t.round, o);
      }
      PassCong(t.current.subscribed, f, g);
    }
  }

  /** Where a tick of the pruning watcher leaves the floor of agreement. */
  function NextFloor(st: State, t: Tick, floor: Option<int>): Option<int> {
    if ClosedRoundDue(st, t) && t.missedCredit >= |MissedPlan(st, t)| then Some(t.round - PRUNE_KEEP_ROUNDS) else floor
  }

  lemma MissedPlanShape(st: State, t: Tick, i: int)
    requires ClosedRoundDue(st, t) && 0 <= i < |MissedPlan(st, t)|
    ensures |MissedPlan(st, t)| >= 2
    ensures i == |MissedPlan(st, t)| - 1 ==> MissedPlan(st, t)[i] == PruneBefore(t.round - PRUNE_KEEP_ROUNDS)
    ensures i == |MissedPlan(st, t)| - 2 ==> MissedPlan(st, t)[i] == SetMissedDone(t.round - 1)
    ensures i < |MissedPlan(st, t)| - 2 ==> MissedPlan(st, t)[i].MissedDm? || MissedPlan(st, t)[i].MarkMissedNotified?
  {
    var step := MissedSteps(st.rows, t);
    var pass := Pass(t.closed.subscribed, step);
    if i < |pass| {
      PassContains(t.closed.subscribed, step, pass[i]);
    }
  }

  lemma MissedPassKeepsAgreement(a: State, b: State, floor: Option<int>, t: Tick)
    requires Agree(a, b, floor)
    ensures Agree(ApplyAll(true, a, MissedEffects(a, t)),
      ApplyAll(false, b, MissedEffects(a, t)), NextFloor(a, t, floor))
  {
    if ClosedRoundDue(a, t) {
      MissedPlansAgree(a, b, floor, t);
      var plan, es := MissedPlan(a, t), MissedEffects(a, t);
      forall i | 0 <= i < |plan|
        ensures i < |plan| - 1 ==> !plan[i].PruneBefore? && (plan[i].SetMissedDone? ==> plan[i].round == t.round - 1)
        ensures i == |plan| - 1 ==> plan[i] == PruneBefore(t.round - PRUNE_KEEP_ROUNDS)
        ensures i == |plan| - 2 ==> plan[i] == SetMissedDone(t.round - 1)
      {
        MissedPlanShape(a, t, i);
      }
      if t.missedCredit < |plan| {
        EffectsKeepAgreement(a, b, floor, es);
      } else {
        MissedPlanShape(a, t, 0);
        var init := plan[..|plan| - 1];
        EffectsKeepAgreement(a, b, floor, init);
        assert init[|init| - 1] == SetMissedDone(t.round - 1);
        PruneKeepsAgreement(ApplyAll(true, a, init), ApplyAll(false, b, init), floor, t.round - PRUNE_KEEP_ROUNDS);
      }
    }
  }

  lemma ResolvedContains(t: Tick, rewarded: set<Address>, e: Effect)
    requires e in Pass(t.current.subscribed, ResolvedSteps(t, rewarded))
    ensures e.MarkResolved?
  {
    PassContains(t.current.subscribed, ResolvedSteps(t, rewarded), e);
  }

  lemma LadderContains(rows: Rows, t: Tick, rewarded: set<Address>, due: int, e: Effect)
    requires e in LadderPlan(rows, t, rewarded, due)
    ensures e.LadderDm? || e.SetAlertsSent?
  {
    PassContains(t.current.subscribed, LadderSteps(rows, t, rewarded, due), e);
  }

  lemma DigestContains(st: State, t: Tick, rewarded: set<Address>, e: Effect)
    requires e in DigestPlan(st, t, rewarded)
    ensures e.PostDigest? || e.SetDigestDone?
  {
  }

  lemma PlanContains(st: State, t: Tick, due: int, digestDue: bool, e: Effect)
    requires e in PlanAt(st, t, due, digestDue)
    ensures e.LadderDm? || e.SetAlertsSent? || e.MarkResolved? || e.PostDigest? || e.SetDigestDone?
  {
    var rewarded := t.current.Rewarded().value;
    if e in Pass(t.current.subscribed, ResolvedSteps(t, rewarded)) {
      ResolvedContains(t, rewarded, e);
    } else if e in LadderPlan(st.rows, t, rewarded, due) {
      LadderContains(st.rows, t, rewarded, due, e);
    } else {
      DigestContains(st, t, rewarded, e);
    }
  }

  lemma TickKeepsAgreement(s: Settings, a: State, b: State, floor: Option<int>, t: Tick)
    requires ValidSettings(s) && Agree(a, b, floor) && (floor.Some? ==> t.round >= floor.value)
    ensures TickEffects(s, true, a, t) == TickEffects(s, false, b, t)
    ensures Agree(ApplyAll(true, a, TickEffects(s, true, a, t)),
      ApplyAll(false, b, TickEffects(s, true, a, t)), NextFloor(a, t, floor))
  {
    MissedPlansAgree(a, b, floor, t);
    MissedPassKeepsAgreement(a, b, floor, t);
    var missed := MissedEffects(a, t);
    var a', b' := ApplyAll(true, a, missed), ApplyAll(false, b, missed);
    PlansAgree(a', b', NextFloor(a, t, floor), t, Due(s, t), DigestDue(s, t));
    var current := Performed(CurrentPlan(s, a', t), t.currentCredit);
    forall i | 0 <= i < |current| ensures !current[i].PruneBefore? && !current[i].SetMissedDone? {
      PlanContains(a', t, Due(s, t), DigestDue(s, t), current[i]);
    }
    EffectsKeepAgreement(a', b', NextFloor(a, t, floor), current);
    ApplyAllSplits(true, a, missed, current);
    ApplyAllSplits(false, b, missed, current);
  }

  /** The rounds a run observes, in its order. */
  function Rounds(ticks: seq<Tick>): (r: seq<int>)
    ensures |r| == |ticks| && forall i | 0 <= i < |ticks| :: r[i] == ticks[i].round
  {
    if ticks == [] then [] else Rounds(ticks[..|ticks| - 1]) + [ticks[|ticks| - 1].round]
  }

  /** No observed round is more than eight below one observed before it. */
  predicate StayRecent(rounds: seq<int>) {
    forall i, j | 0 <= i < j < |rounds| :: rounds[j] >= rounds[i] - PRUNE_KEEP_ROUNDS
  }

  lemma {:induction false} PruningSimulation(s: Settings, st: State, ticks: seq<Tick>) returns (floor: Option<int>)
    requires ValidSettings(s) && StayRecent(Rounds(ticks))
    ensures Log(s, true, st, ticks) == Log(s, false, st, ticks)
    ensures Agree(Final(s, true, st, ticks), Final(s, false, st, ticks), floor)
    ensures floor.Some? ==> exists j | 0 <= j < |ticks| :: floor.value == ticks[j].round - PRUNE_KEEP_ROUNDS
  {
    if ticks == [] {
      floor := None;
    } else {
      var init, t := ticks[..|ticks| - 1], ticks[|ticks| - 1];
      assert Rounds(ticks)[..|init|] == Rounds(init);
      floor := PruningSimulation(s, st, init);
      var a, b := Final(s, true, st, init), Final(s, false, st, init);
      TickKeepsAgreement(s, a, b, floor, t);
      var es := TickEffects(s, true, a, t);
      ApplyAllSplits(true, st, Log(s, true, st, init), es);
      ApplyAllSplits(false, st, Log(s, false, st, init), es);
      if NextFloor(a, t, floor) != floor {
        assert NextFloor(a, t, floor) == Some(ticks[|ticks| - 1].round - PRUNE_KEEP_ROUNDS);
      }
      floor := NextFloor(a, t, floor);
    }
  }

  /** Over this run the pruning watcher does what one that keeps every row does. */
  predicate PruningInvisible(s: Settings, st: State, ticks: seq<Tick>)
    requires ValidSettings(s)
  {
    var a, b := Final(s, true, st, ticks), Final(s, false, st, ticks);
    Log(s, true, st, ticks) == Log(s, false, st, ticks) && a.missedDone == b.missedDone && a.digestDone == b.digestDone
  }

  /**
    Dropping old rows never shows: from any store, over any run whose rounds never fall more than
    eight below an earlier one (so over every run with non-decreasing rounds), the pruning watcher
    sends the same messages, makes the same writes and holds the same cursors as one that never prunes.
  */
  lemma PruningIsInvisible(s: Settings, st: State, ticks: seq<Tick>)
    requires ValidSettings(s) && StayRecent(Rounds(ticks))
    ensures PruningInvisible(s, st, ticks)
  {
    var _ := PruningSimulation(s, st, ticks);
  }
}
