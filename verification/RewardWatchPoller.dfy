/** The watcher as the program runs it: a repository object, two cursors, and loops that stop at the first failure. */
module RewardWatchPoller {
  import opened Wrappers
  import RewardWatch
  import DelinquentDigest
  import opened Text

  type Rows = RewardWatch.Rows
  type Address = RewardWatch.Address
  type Effect = RewardWatch.Effect
  type Tick = RewardWatch.Tick

  /** The `reward_watch_state` table; each method is one statement of reward_watch.rs. */
  class RewardWatchRepo {
    var rows: Rows

    constructor ()
      ensures rows == map[]
    {
      rows := map[];
    }

    method AlertsSent(round: int, orch: Address) returns (n: int)
      ensures n == RewardWatch.AlertsSent(rows, round, orch)
    {
      n := if (round, orch) in rows then rows[(round, orch)].alertsSent else 0;
    }

    method SetAlertsSent(round: int, orch: Address, alerts: int)
      modifies this
      ensures rows == old(rows)[(round, orch) := RewardWatch.RowOr(old(rows), round, orch).(alertsSent := alerts)]
    {
      if (round, orch) in rows {
        rows := rows[(round, orch) := rows[(round, orch)].(alertsSent := alerts)];
      } else {
        rows := rows[(round, orch) := RewardWatch.WatchRow(alerts, None, None)];
      }
    }

    method MarkResolved(round: int, orch: Address, at: int)
      modifies this
      ensures var row := RewardWatch.RowOr(old(rows), round, orch);
        rows == old(rows)[(round, orch) := row.(resolvedAt := RewardWatch.Coalesce(row.resolvedAt, at))]
    {
      if (round, orch) in rows {
        var row := rows[(round, orch)];
        rows := rows[(round, orch) := row.(resolvedAt := if row.resolvedAt.Some? then row.resolvedAt else Some(at))];
      } else {
        rows := rows[(round, orch) := RewardWatch.WatchRow(0, Some(at), None)];
      }
    }

    method WasMissedNotified(round: int, orch: Address) returns (b: bool)
      ensures b == RewardWatch.WasMissedNotified(rows, round, orch)
    {
      b := (round, orch) in rows && rows[(round, orch)].missedNotifiedAt.Some?;
    }

    method MarkMissedNotified(round: int, orch: Address, at: int)
      modifies this
      ensures var row := RewardWatch.RowOr(old(rows), round, orch);
        rows == old(rows)[(round, orch) := row.(missedNotifiedAt := RewardWatch.Coalesce(row.missedNotifiedAt, at))]
    {
      if (round, orch) in rows {
        var row := rows[(round, orch)];
        rows := rows[(round, orch) := row.(
          missedNotifiedAt := if row.missedNotifiedAt.Some? then row.missedNotifiedAt else Some(at))];
      } else {
        rows := rows[(round, orch) := RewardWatch.WatchRow(0, None, Some(at))];
      }
    }

    method PruneBefore(before: int)
      modifies this
      ensures rows == RewardWatch.Pruned(old(rows), before)
      ensures forall r, o :: (r, o) in rows <==> (r, o) in old(rows) && r >= before
    {
      var doomed := set k | k in rows && k.0 < before;
      rows := rows - doomed;
      assert rows == RewardWatch.Pruned(old(rows), before);
    }
  }

  lemma {:induction false} PassPrefix(orchs: seq<Address>, i: nat, step: Address -> seq<Effect>)
    requires i <= |orchs|
    ensures RewardWatch.Pass(orchs[..i], step) <= RewardWatch.Pass(orchs, step)
  {
    if i == |orchs| {
      assert orchs[..i] == orchs;
    } else {
      var init := orchs[..|orchs| - 1];
      PassPrefix(init, i, step);
      assert init[..i] == orchs[..i];
    }
  }

  lemma PassSnoc(orchs: seq<Address>, i: nat, step: Address -> seq<Effect>)
    requires i < |orchs|
    ensures RewardWatch.Pass(orchs[..i + 1], step) == RewardWatch.Pass(orchs[..i], step) + step(orchs[i])
  {
    assert orchs[..i + 1][..i] == orchs[..i];
  }

  /** A pass that stopped within its step number `i` did part of the whole. */
  lemma PassPart(orchs: seq<Address>, i: nat, step: Address -> seq<Effect>, es: seq<Effect>)
    requires i < |orchs| && es <= step(orchs[i])
    ensures RewardWatch.Pass(orchs[..i], step) + es <= RewardWatch.Pass(orchs, step)
  {
    PassSnoc(orchs, i, step);
    PassPrefix(orchs, i + 1, step);
  }

  class Poller {
    const watch: RewardWatchRepo
    var missedDone: Option<int>
    var digestDone: Option<int>
    /** Every effect performed so far. */
    var log: seq<Effect>
    /** How many more effects go through before one fails. */
    var credit: nat

    constructor (watch: RewardWatchRepo, missedDone: Option<int>, digestDone: Option<int>)
      ensures this.watch == watch && this.missedDone == missedDone && this.digestDone == digestDone && log == []
    {
      this.watch, this.missedDone, this.digestDone := watch, missedDone, digestDone;
      log, credit := [], 0;
    }

    ghost function Store(): RewardWatch.State
      reads this, watch
    {
      RewardWatch.State(watch.rows, missedDone, digestDone)
    }

    method Perform(e: Effect) returns (ok: bool)
      modifies this, watch
      ensures ok == (old(credit) > 0)
      ensures ok ==>
        credit == old(credit) - 1 && log == old(log) + [e] && Store() == RewardWatch.Apply(true, old(Store()), e)
      ensures !ok ==> credit == 0 && log == old(log) && Store() == old(Store())
    {
      if credit == 0 {
        return false;
      }
      match e {
        case SetAlertsSent(r, o, n) => watch.SetAlertsSent(r, o, n);
        case MarkResolved(r, o, at) => watch.MarkResolved(r, o, at);
        case MarkMissedNotified(r, o, at) => watch.MarkMissedNotified(r, o, at);
        case PruneBefore(r) => watch.PruneBefore(r);
        case SetMissedDone(r) => missedDone := Some(r);
        case SetDigestDone(r) => digestDone := Some(r);
        case _ =>
      }
      log, credit, ok := log + [e], credit - 1, true;
    }

    /** `es`, and nothing else, has been performed since the store was `st` and the log `before`. */
    ghost predicate Did(st: RewardWatch.State, before: seq<Effect>, allowance: nat, es: seq<Effect>)
      reads this, watch
    {
      log == before + es && credit == allowance - |es| && Store() == RewardWatch.ApplyAll(true, st, es)
    }

    /** Perform `e` after `done`, or stop. */
    method PerformNext(e: Effect, ghost st: RewardWatch.State, ghost before: seq<Effect>, ghost allowance: nat,
                       ghost done: seq<Effect>)
      returns (ok: bool)
      requires Did(st, before, allowance, done)
      modifies this, watch
      ensures if ok then Did(st, before, allowance, done + [e]) else credit == 0 && Did(st, before, allowance, done)
    {
      ok := Perform(e);
      DidSnoc(st, done, e);
    }

    /** A message to the subscribers, if there are any, and then the write that remembers it. */
    method AnnounceAndRecord(hasSubscribers: bool, dm: Effect, record: Effect,
                             ghost st: RewardWatch.State, ghost before: seq<Effect>, ghost allowance: nat,
                             ghost done: seq<Effect>)
      returns (ok: bool, ghost es: seq<Effect>)
      requires Did(st, before, allowance, done)
      modifies this, watch
      ensures es <= (if hasSubscribers then [dm] else []) + [record]
      ensures ok ==> es == (if hasSubscribers then [dm] else []) + [record]
      ensures Did(st, before, allowance, done + es) && (!ok ==> credit == 0)
      ensures !ok ==> |es| < |(if hasSubscribers then [dm] else []) + [record]|
    {
      es := [];
      assert done + es == done;
      if hasSubscribers {
        ok := PerformNext(dm, st, before, allowance, done);
        if !ok {
          return;
        }
        es := [dm];
      }
      ok := PerformNext(record, st, before, allowance, done + es);
      if ok {
        assert done + es + [record] == done + (es + [record]);
        es := es + [record];
      }
    }

    /** One subscribed orchestrator in the closed-round pass, after the effects `done` on others. */
    method MissedOne(t: Tick, rewarded: set<Address>, orch: Address,
                     ghost st: RewardWatch.State, ghost before: seq<Effect>, ghost allowance: nat,
                     ghost done: seq<Effect>)
      returns (ok: bool, ghost es: seq<Effect>)
      requires t.closed.Rewarded() == Some(rewarded) && Did(st, before, allowance, done)
      requires RewardWatch.WasMissedNotified(Store().rows, t.round - 1, orch)
        == RewardWatch.WasMissedNotified(st.rows, t.round - 1, orch)
      modifies this, watch
      ensures Did(st, before, allowance, done + es) && (!ok ==> credit == 0)
      ensures es <= RewardWatch.MissedSteps(st.rows, t)(orch)
        && (ok ==> es == RewardWatch.MissedSteps(st.rows, t)(orch))
    {
      var prev := t.round - 1;
      var notified := watch.WasMissedNotified(prev, orch);
      if Lower(orch) in rewarded || notified || !t.closed.profile(orch).Active? {
        assert done + [] == done;
        return true, [];
      }
      ok, es := AnnounceAndRecord(t.closed.hasSubscribers(orch), RewardWatch.MissedDm(prev, orch),
        RewardWatch.MarkMissedNotified(prev, orch, t.now), st, before, allowance, done);
    }

    /** The loop over subscribed orchestrators of the closed-round pass. */
    method MissedPass(t: Tick, rewarded: set<Address>,
                      ghost st: RewardWatch.State, ghost before: seq<Effect>, ghost allowance: nat)
      returns (ok: bool, ghost performed: seq<Effect>)
      requires RewardWatch.ValidTick(t) && t.closed.Rewarded() == Some(rewarded) && Did(st, before, allowance, [])
      modifies this, watch
      ensures Did(st, before, allowance, performed) && (!ok ==> credit == 0)
      ensures ok ==> performed == RewardWatch.Pass(t.closed.subscribed, RewardWatch.MissedSteps(st.rows, t))
      ensures performed <= RewardWatch.Pass(t.closed.subscribed, RewardWatch.MissedSteps(st.rows, t))
    {
      var subscribed := t.closed.subscribed;
      ghost var step := RewardWatch.MissedSteps(st.rows, t);
      performed := [];
      for i := 0 to |subscribed|
        invariant performed == RewardWatch.Pass(subscribed[..i], step) && Did(st, before, allowance, performed)
      {
        MissedPassLeavesOthers(st, t, subscribed[..i], subscribed[i]);
        ghost var es;
        ok, es := MissedOne(t, rewarded, subscribed[i], st, before, allowance, performed);
        performed := performed + es;
        if !ok {
          PassPart(subscribed, i, step, es);
          return;
        }
        PassSnoc(subscribed, i, step);
      }
      assert subscribed[..|subscribed|] == subscribed;
      ok := true;
    }

    /** The closed round is recorded as done, and the rows of old rounds are dropped. */
    method SettleRound(t: Tick, ghost st: RewardWatch.State, ghost before: seq<Effect>, ghost allowance: nat,
                       ghost done: seq<Effect>)
      returns (ghost performed: seq<Effect>)
      requires Did(st, before, allowance, done)
      modifies this, watch
      ensures Did(st, before, allowance, performed)
      ensures var both := [RewardWatch.SetMissedDone(t.round - 1),
        RewardWatch.PruneBefore(t.round - RewardWatch.PRUNE_KEEP_ROUNDS)];
        performed <= done + both && (performed == done + both || credit == 0)
    {
      performed := done;
      var ok := PerformNext(RewardWatch.SetMissedDone(t.round - 1), st, before, allowance, performed);
      if !ok {
        return;
      }
      performed := performed + [RewardWatch.SetMissedDone(t.round - 1)];
      ok := PerformNext(RewardWatch.PruneBefore(t.round - RewardWatch.PRUNE_KEEP_ROUNDS),
        st, before, allowance, performed);
      if ok {
        performed := performed + [RewardWatch.PruneBefore(t.round - RewardWatch.PRUNE_KEEP_ROUNDS)];
      }
    }

    method ProcessClosedRound(t: Tick)
      requires RewardWatch.ValidTick(t) && credit == t.missedCredit
      modifies this, watch
      ensures log == old(log) + RewardWatch.MissedEffects(old(Store()), t)
      ensures Store() == RewardWatch.ApplyAll(true, old(Store()), RewardWatch.MissedEffects(old(Store()), t))
    {
      ghost var st, before, allowance := Store(), log, credit;
      var prev := t.round - 1;
      // An absent cursor reads as the previous round, which is then never due.
      var done := if missedDone.Some? then missedDone.value else prev;
      if done >= prev || t.closed.indexed != Some(true) || t.closed.rewards.None? {
        return;
      }
      var rewarded := DelinquentDigest.RewardedOrchs(t.closed.rewards.value);
      ghost var plan := RewardWatch.MissedPlan(st, t);
      assert log == before + [];
      ghost var performed;
      var ok;
      ok, performed := MissedPass(t, rewarded, st, before, allowance);
      if !ok {
        Stopped(plan, performed, allowance);
        return;
      }
      performed := SettleRound(t, st, before, allowance, performed);
      if performed != plan {
        Stopped(plan, performed, allowance);
      }
    }

    /** The loop that marks subscribed orchestrators as having called reward. */
    method ResolvedPass(t: Tick, rewarded: set<Address>, ghost st: RewardWatch.State, ghost before: seq<Effect>,
                        ghost allowance: nat)
      returns (ok: bool, ghost performed: seq<Effect>)
      requires Did(st, before, allowance, [])
      modifies this, watch
      ensures Did(st, before, allowance, performed) && (!ok ==> credit == 0)
      ensures ok ==> performed == RewardWatch.Pass(t.current.subscribed, RewardWatch.ResolvedSteps(t, rewarded))
      ensures performed <= RewardWatch.Pass(t.current.subscribed, RewardWatch.ResolvedSteps(t, rewarded))
    {
      var subscribed := t.current.subscribed;
      ghost var step := RewardWatch.ResolvedSteps(t, rewarded);
      performed := [];
      for i := 0 to |subscribed|
        invariant performed == RewardWatch.Pass(subscribed[..i], step) && Did(st, before, allowance, performed)
      {
        var orch := subscribed[i];
        PassSnoc(subscribed, i, step);
        PassPrefix(subscribed, i + 1, step);
        if Lower(orch) in rewarded {
          assert step(orch) == [RewardWatch.MarkResolved(t.round, orch, t.now)];
          ok := PerformNext(RewardWatch.MarkResolved(t.round, orch, t.now), st, before, allowance, performed);
          if !ok {
            return;
          }
          performed := performed + step(orch);
        } else {
          assert step(orch) == [] && performed + [] == performed;
        }
      }
      assert subscribed[..|subscribed|] == subscribed;
      ok := true;
    }

    /** One subscribed orchestrator on the ladder, after the effects `done`. */
    method LadderOne(t: Tick, rewarded: set<Address>, due: int, orch: Address,
                     ghost st: RewardWatch.State, ghost before: seq<Effect>, ghost allowance: nat,
                     ghost done: seq<Effect>)
      returns (ok: bool, ghost es: seq<Effect>)
      requires Did(st, before, allowance, done)
      requires RewardWatch.AlertsSent(Store().rows, t.round, orch) == RewardWatch.AlertsSent(st.rows, t.round, orch)
      modifies this, watch
      ensures Did(st, before, allowance, done + es) && (!ok ==> credit == 0)
      ensures var step := RewardWatch.LadderSteps(st.rows, t, rewarded, due)(orch);
        es <= step && (ok ==> es == step)
    {
      if Lower(orch) in rewarded {
        assert done + [] == done;
        return true, [];
      }
      var sent := watch.AlertsSent(t.round, orch);
      if sent >= due || !t.current.profile(orch).Active? {
        assert done + [] == done;
        return true, [];
      }
      ok, es := AnnounceAndRecord(t.current.hasSubscribers(orch), RewardWatch.LadderDm(t.round, orch),
        RewardWatch.SetAlertsSent(t.round, orch, due), st, before, allowance, done);
    }

    /** The ladder loop. `st` is the store when the pass began and `resolved` what the loop before this one did. */
    method LadderLoop(t: Tick, rewarded: set<Address>, due: int,
                      ghost st: RewardWatch.State, ghost before: seq<Effect>, ghost allowance: nat,
                      ghost resolved: seq<Effect>)
      returns (ok: bool, ghost performed: seq<Effect>)
      requires RewardWatch.ValidTick(t) && Did(st, before, allowance, resolved)
      requires forall e | e in resolved :: e.MarkResolved?
      modifies this, watch
      ensures Did(st, before, allowance, resolved + performed) && (!ok ==> credit == 0)
      ensures ok ==>
        performed == RewardWatch.Pass(t.current.subscribed, RewardWatch.LadderSteps(st.rows, t, rewarded, due))
      ensures performed <= RewardWatch.Pass(t.current.subscribed, RewardWatch.LadderSteps(st.rows, t, rewarded, due))
    {
      var subscribed := t.current.subscribed;
      ghost var step := RewardWatch.LadderSteps(st.rows, t, rewarded, due);
      performed := [];
      ghost var all := resolved;
      for i := 0 to |subscribed|
        invariant performed == RewardWatch.Pass(subscribed[..i], step) && all == resolved + performed
        invariant Did(st, before, allowance, all)
      {
        LadderPassLeavesOthers(st, t, rewarded, due, resolved, subscribed[..i], subscribed[i]);
        ghost var es;
        ok, es := LadderOne(t, rewarded, due, subscribed[i], st, before, allowance, all);
        all, performed := all + es, performed + es;
        assert all == resolved + performed;
        if !ok {
          PassPart(subscribed, i, step, es);
          return;
        }
        PassSnoc(subscribed, i, step);
      }
      assert subscribed[..|subscribed|] == subscribed;
      ok := true;
    }

    method LadderPass(t: Tick, rewarded: set<Address>, due: int,
                      ghost st: RewardWatch.State, ghost before: seq<Effect>, ghost allowance: nat,
                      ghost resolved: seq<Effect>)
      returns (ok: bool, ghost performed: seq<Effect>)
      requires RewardWatch.ValidTick(t) && Did(st, before, allowance, resolved)
      requires forall e | e in resolved :: e.MarkResolved?
      modifies this, watch
      ensures Did(st, before, allowance, resolved + performed) && (!ok ==> credit == 0)
      ensures ok ==> performed == RewardWatch.LadderPlan(st.rows, t, rewarded, due)
      ensures performed <= RewardWatch.LadderPlan(st.rows, t, rewarded, due)
    {
      if due > 0 {
        ok, performed := LadderLoop(t, rewarded, due, st, before, allowance, resolved);
      } else {
        ok, performed := true, [];
        assert resolved + [] == resolved;
      }
    }

    /** Post the round's digest, if it lists anyone, and record it. */
    method PostDigestOnce(t: Tick, rewarded: set<Address>,
                          ghost st: RewardWatch.State, ghost before: seq<Effect>, ghost allowance: nat,
                          ghost done: seq<Effect>)
      returns (ok: bool, ghost performed: seq<Effect>)
      requires Did(st, before, allowance, done) && Store().digestDone == st.digestDone
      modifies this, watch
      ensures Did(st, before, allowance, done + performed) && (!ok ==> credit == 0)
      ensures performed <= RewardWatch.DigestPlan(st, t, rewarded)
        && (ok ==> performed == RewardWatch.DigestPlan(st, t, rewarded))
    {
      performed := [];
      assert done + [] == done;
      var posted := if digestDone.Some? then digestDone.value else 0;
      if posted >= t.round || t.current.orchestrators.None? {
        return true, [];
      }
      var delinquents := DelinquentDigest.CollectDelinquents(t.current.orchestrators.value, rewarded);
      if delinquents != [] {
        var post := RewardWatch.PostDigest(t.round, delinquents);
        ok := PerformNext(post, st, before, allowance, done);
        if !ok {
          return;
        }
        performed := [post];
      }
      ok := PerformNext(RewardWatch.SetDigestDone(t.round), st, before, allowance, done + performed);
      if ok {
        assert done + performed + [RewardWatch.SetDigestDone(t.round)]
          == done + (performed + [RewardWatch.SetDigestDone(t.round)]);
        performed := performed + [RewardWatch.SetDigestDone(t.round)];
      }
    }

    /** The second pass of a tick: resolve, climb the ladder, post the digest. */
    method CurrentPass(t: Tick, due: int, digestDue: bool)
      requires RewardWatch.ValidTick(t) && credit == t.currentCredit
      modifies this, watch
      ensures log
        == old(log) + RewardWatch.Performed(RewardWatch.PlanAt(old(Store()), t, due, digestDue), t.currentCredit)
      ensures Store() == RewardWatch.ApplyAll(true, old(Store()),
        RewardWatch.Performed(RewardWatch.PlanAt(old(Store()), t, due, digestDue), t.currentCredit))
    {
      ghost var st, before, allowance := Store(), log, credit;
      if t.current.rewards.None? {
        return;
      }
      var rewarded := DelinquentDigest.RewardedOrchs(t.current.rewards.value);
      assert log == before + [];
      ghost var resolved, ladder, digest, plan;
      plan := RewardWatch.PlanAt(st, t, due, digestDue);
      var ok;
      ok, resolved := ResolvedPass(t, rewarded, st, before, allowance);
      if !ok {
        PartOfPlan(st, t, rewarded, due, digestDue, resolved, allowance);
        return;
      }
      forall e | e in resolved ensures e.MarkResolved? {
        RewardWatch.PassContains(t.current.subscribed, RewardWatch.ResolvedSteps(t, rewarded), e);
      }
      ok, ladder := LadderPass(t, rewarded, due, st, before, allowance, resolved);
      if !ok || !digestDue {
        PartOfPlan(st, t, rewarded, due, digestDue, resolved + ladder, allowance);
        return;
      }
      DigestUntouched(st, t, rewarded, due);
      ok, digest := PostDigestOnce(t, rewarded, st, before, allowance, resolved + ladder);
      PartOfPlan(st, t, rewarded, due, digestDue, resolved + ladder + digest, allowance);
    }

    /** Both passes. A failed closed-round pass does not stop the second one. */
    method TwoPasses(t: Tick, due: int, digestDue: bool)
      requires RewardWatch.ValidTick(t)
      modifies this, watch
      ensures var missed := RewardWatch.MissedEffects(old(Store()), t);
        var mid := RewardWatch.ApplyAll(true, old(Store()), missed);
        var current := RewardWatch.Performed(RewardWatch.PlanAt(mid, t, due, digestDue), t.currentCredit);
        log == old(log) + missed + current && Store() == RewardWatch.ApplyAll(true, mid, current)
    {
      credit := t.missedCredit;
      ProcessClosedRound(t);
      credit := t.currentCredit;
      CurrentPass(t, due, digestDue);
    }

    /** One tick. */
    method PollOnce(s: RewardWatch.Settings, t: Tick)
      requires RewardWatch.ValidSettings(s) && RewardWatch.ValidTick(t)
      modifies this, watch
      ensures log == old(log) + RewardWatch.TickEffects(s, true, old(Store()), t)
      ensures Store() == RewardWatch.ApplyAll(true, old(Store()), RewardWatch.TickEffects(s, true, old(Store()), t))
    {
      TickIsTwoPasses(s, Store(), t, log);
      TwoPasses(t, RewardWatch.Due(s, t), RewardWatch.DigestDue(s, t));
    }
  }

  lemma TickIsTwoPasses(s: RewardWatch.Settings, st: RewardWatch.State, t: Tick, log: seq<Effect>)
    requires RewardWatch.ValidSettings(s)
    ensures var missed := RewardWatch.MissedEffects(st, t);
      var mid := RewardWatch.ApplyAll(true, st, missed);
      var current := RewardWatch.Performed(RewardWatch.PlanAt(mid, t,
        RewardWatch.Due(s, t), RewardWatch.DigestDue(s, t)), t.currentCredit);
      && log + missed + current == log + RewardWatch.TickEffects(s, true, st, t)
      && RewardWatch.ApplyAll(true, st, RewardWatch.TickEffects(s, true, st, t))
        == RewardWatch.ApplyAll(true, mid, current)
  {
    var missed := RewardWatch.MissedEffects(st, t);
    var mid := RewardWatch.ApplyAll(true, st, missed);
    RewardWatch.ApplyAllSplits(true, st, missed,
      RewardWatch.Performed(RewardWatch.CurrentPlan(s, mid, t), t.currentCredit));
  }

  /** What the three parts of the second pass performed is what the plan allows. */
  lemma PartOfPlan(st: RewardWatch.State, t: Tick, rewarded: set<Address>, due: int, digestDue: bool,
                   performed: seq<Effect>, allowance: nat)
    requires t.current.Rewarded() == Some(rewarded)
    requires performed <= RewardWatch.PlanAt(st, t, due, digestDue)
    requires |performed| <= allowance
    requires performed == RewardWatch.PlanAt(st, t, due, digestDue) || |performed| == allowance
    ensures performed == RewardWatch.Performed(RewardWatch.PlanAt(st, t, due, digestDue), allowance)
  {
  }

  lemma {:induction false} DigestUntouched(st: RewardWatch.State, t: Tick, rewarded: set<Address>, due: int)
    ensures RewardWatch.ApplyAll(true, st,
      RewardWatch.Pass(t.current.subscribed, RewardWatch.ResolvedSteps(t, rewarded))
      + RewardWatch.LadderPlan(st.rows, t, rewarded, due)).digestDone == st.digestDone
  {
    var done := RewardWatch.Pass(t.current.subscribed, RewardWatch.ResolvedSteps(t, rewarded))
      + RewardWatch.LadderPlan(st.rows, t, rewarded, due);
    forall e | e in done ensures !e.SetDigestDone? {
      if e in RewardWatch.Pass(t.current.subscribed, RewardWatch.ResolvedSteps(t, rewarded)) {
        RewardWatch.PassContains(t.current.subscribed, RewardWatch.ResolvedSteps(t, rewarded), e);
      } else {
        RewardWatch.PassContains(t.current.subscribed, RewardWatch.LadderSteps(st.rows, t, rewarded, due), e);
      }
    }
    NoDigestWrite(st, done);
  }

  lemma {:induction false} NoDigestWrite(st: RewardWatch.State, es: seq<Effect>)
    requires forall e | e in es :: !e.SetDigestDone?
    ensures RewardWatch.ApplyAll(true, st, es).digestDone == st.digestDone
  {
    if es != [] {
      NoDigestWrite(st, es[..|es| - 1]);
    }
  }

  lemma {:induction false} UntouchedNotified(st: RewardWatch.State, es: seq<Effect>, round: int, orch: Address)
    requires forall e | e in es :: e.MissedDm? || (e.MarkMissedNotified? && e.orch != orch)
    ensures RewardWatch.WasMissedNotified(RewardWatch.ApplyAll(true, st, es).rows, round, orch)
      == RewardWatch.WasMissedNotified(st.rows, round, orch)
  {
    if es != [] {
      UntouchedNotified(st, es[..|es| - 1], round, orch);
    }
  }

  lemma MissedPassLeavesOthers(st: RewardWatch.State, t: Tick, orchs: seq<Address>, orch: Address)
    requires t.closed.Rewarded().Some? && orch !in orchs
    ensures var done := RewardWatch.Pass(orchs, RewardWatch.MissedSteps(st.rows, t));
      RewardWatch.WasMissedNotified(RewardWatch.ApplyAll(true, st, done).rows, t.round - 1, orch)
        == RewardWatch.WasMissedNotified(st.rows, t.round - 1, orch)
  {
    var done := RewardWatch.Pass(orchs, RewardWatch.MissedSteps(st.rows, t));
    forall e | e in done ensures e.MissedDm? || (e.MarkMissedNotified? && e.orch != orch) {
      RewardWatch.PassContains(orchs, RewardWatch.MissedSteps(st.rows, t), e);
    }
    UntouchedNotified(st, done, t.round - 1, orch);
  }

  lemma {:induction false} UntouchedAlerts(st: RewardWatch.State, es: seq<Effect>, round: int, orch: Address)
    requires forall e | e in es :: e.LadderDm? || e.MarkResolved? || (e.SetAlertsSent? && e.orch != orch)
    ensures RewardWatch.AlertsSent(RewardWatch.ApplyAll(true, st, es).rows, round, orch)
      == RewardWatch.AlertsSent(st.rows, round, orch)
  {
    if es != [] {
      UntouchedAlerts(st, es[..|es| - 1], round, orch);
    }
  }

  lemma LadderPassLeavesOthers(st: RewardWatch.State, t: Tick, rewarded: set<Address>, due: int, resolved: seq<Effect>,
                               orchs: seq<Address>, orch: Address)
    requires orch !in orchs && forall e | e in resolved :: e.MarkResolved?
    ensures var done := resolved + RewardWatch.Pass(orchs, RewardWatch.LadderSteps(st.rows, t, rewarded, due));
      RewardWatch.AlertsSent(RewardWatch.ApplyAll(true, st, done).rows, t.round, orch)
        == RewardWatch.AlertsSent(st.rows, t.round, orch)
  {
    var pass := RewardWatch.Pass(orchs, RewardWatch.LadderSteps(st.rows, t, rewarded, due));
    forall e | e in resolved + pass ensures e.LadderDm? || e.MarkResolved? || (e.SetAlertsSent? && e.orch != orch) {
      if e !in resolved {
        RewardWatch.PassContains(orchs, RewardWatch.LadderSteps(st.rows, t, rewarded, due), e);
      }
    }
    UntouchedAlerts(st, resolved + pass, t.round, orch);
  }

  /** One more effect on top of those performed. */
  lemma DidSnoc(st: RewardWatch.State, es: seq<Effect>, e: Effect)
    ensures RewardWatch.ApplyAll(true, st, es + [e]) == RewardWatch.Apply(true, RewardWatch.ApplyAll(true, st, es), e)
  {
    assert (es + [e])[..|es|] == es;
  }

  /** A pass that stopped because the credit ran out has performed exactly what the plan allows. */
  lemma Stopped(plan: seq<Effect>, performed: seq<Effect>, allowance: nat)
    requires performed <= plan && |performed| == allowance < |plan|
    ensures performed == RewardWatch.Performed(plan, allowance)
  {
  }
}
