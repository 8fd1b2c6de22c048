/** The poster as the program runs it: two stored tables and attempts that stop at the first failure. */
module SummaryPoster {
  import opened Wrappers
  import opened Calendar
  import opened SummaryPeriods
  import opened SummaryGate

  const CADENCES: seq<Cadence> := [Daily, Weekly, Monthly]

  /** What one attempt of a tick reads: the clock, the rollup, its own count, and how many effects go through. */
  datatype Input = Input(now: Clock, summary: Option<Summary>, localCount: nat, credit: nat)

  ghost predicate ValidInputs(inputs: seq<Input>) {
    |inputs| == 3 && forall i | 0 <= i < 3 :: ValidClock(inputs[i].now)
  }

  /** The three attempts of a tick. */
  ghost predicate AttemptsOf(inputs: seq<Input>, run: seq<Attempt>)
    requires ValidInputs(inputs)
  {
    |run| == 3 && forall i | 0 <= i < 3 ::
      run[i] == Look(CADENCES[i], inputs[i].now, inputs[i].summary, inputs[i].localCount, inputs[i].credit)
  }

  class Poster {
    const readiness: Readiness
    var posted: set<(Cadence, Date)>
    var snapshots: map<(Cadence, Date), Summary>
    /** How many more effects go through before one fails. */
    var credit: nat
    /** Every effect performed so far and the attempt it belongs to. */
    ghost var log: seq<Entry>

    constructor (readiness: Readiness, posted: set<(Cadence, Date)>, snapshots: map<(Cadence, Date), Summary>)
      ensures this.readiness == readiness && Stored() == Store(posted, snapshots) && log == []
    {
      this.readiness, this.posted, this.snapshots, credit := readiness, posted, snapshots, 0;
      log := [];
    }

    ghost function Stored(): Store
      reads this
    {
      Store(posted, snapshots)
    }

    /** The first `n` effects of `plan`, and nothing else, have been performed since the store was `st`. */
    ghost predicate Did(st: Store, before: seq<Entry>, a: Attempt, plan: seq<Effect>, n: nat)
      reads this
    {
      n <= |plan| && n + credit == a.credit && Stored() == ApplyAll(st, plan[..n])
        && log == before + Entries(a, plan[..n])
    }

    method Perform(e: Effect, ghost st: Store, ghost before: seq<Entry>, ghost a: Attempt, ghost plan: seq<Effect>,
                   ghost n: nat)
      returns (ok: bool)
      requires Did(st, before, a, plan, n) && n < |plan| && e == plan[n]
      modifies this
      ensures ok ==> Did(st, before, a, plan, n + 1)
      ensures !ok ==> n == a.credit && Did(st, before, a, plan, n)
    {
      if credit == 0 {
        return false;
      }
      assert plan[..n + 1][..n] == plan[..n];
      match e {
        case SaveSnapshot(c, p, s) => snapshots := snapshots[(c, p) := s];
        case Send(_, _, _) =>
        case MarkPosted(c, p) => posted := posted + {(c, p)};
      }
      credit, ok := credit - 1, true;
      log := log + [Entry(a, e)];
    }

    /** One look at the last closed period of one cadence. */
    method MaybePost(cadence: Cadence, now: Clock, summary: Option<Summary>, localCount: nat, allowance: nat,
                     ghost a: Attempt)
      requires ValidClock(now) && a == Look(cadence, now, summary, localCount, allowance)
      modifies this
      ensures log == old(log) + Entries(a, Effects(readiness, old(Stored()), a))
      ensures Stored() == ApplyAll(old(Stored()), Effects(readiness, old(Stored()), a))
    {
      ghost var st, before := Stored(), log;
      credit := allowance;
      var (period, _, _) := LastClosed(cadence, now.today);
      if (cadence, period) in posted {
        return;
      }
      var since := SinceClose(cadence, now);
      if since < SettleFor(readiness, cadence) || summary.None? {
        return;
      }
      ghost var plan := Plan(readiness, false, a);
      var ready := ParseCount(summary.value.usdRowsPriced) >= ParseCount(summary.value.ticketCount);
      var ok;
      ghost var n := 0;
      if !ready {
        ok := Perform(SaveSnapshot(cadence, period, summary.value), st, before, a, plan, n);
        n := if ok then 1 else 0;
        if !ok || since < readiness.maxDefer {
          assert plan[..n] == Effects(readiness, st, a);
          return;
        }
      }
      ok := Perform(Send(cadence, period, !ready), st, before, a, plan, n);
      if ok {
        ok := Perform(MarkPosted(cadence, period), st, before, a, plan, n + 1);
        n := if ok then n + 2 else n + 1;
      }
      assert plan[..n] == Effects(readiness, st, a);
    }

    /** One tick: the three cadences in turn, whatever became of the one before. */
    method RunOnce(inputs: seq<Input>, ghost run: seq<Attempt>)
      requires ValidInputs(inputs) && AttemptsOf(inputs, run)
      modifies this
      ensures log == old(log) + Log(readiness, old(Stored()), run, 3)
      ensures Stored() == Final(readiness, old(Stored()), run, 3)
      ensures run[0].cadence == Daily && run[1].cadence == Weekly && run[2].cadence == Monthly
    {
      ghost var st, before := Stored(), log;
      for i := 0 to 3
        invariant log == before + Log(readiness, st, run, i) && Stored() == Final(readiness, st, run, i)
      {
        assert run[i] == Look(CADENCES[i], inputs[i].now, inputs[i].summary, inputs[i].localCount, inputs[i].credit);
        MaybePost(CADENCES[i], inputs[i].now, inputs[i].summary, inputs[i].localCount, inputs[i].credit, run[i]);
        LogStep(readiness, st, run, i, before);
      }
    }
  }

  lemma LogStep(r: Readiness, st: Store, run: seq<Attempt>, k: nat, before: seq<Entry>)
    requires k < |run|
    ensures before + Log(r, st, run, k) + Entries(run[k], Effects(r, Final(r, st, run, k), run[k]))
      == before + Log(r, st, run, k + 1)
    ensures ApplyAll(Final(r, st, run, k), Effects(r, Final(r, st, run, k), run[k])) == Final(r, st, run, k + 1)
  {
  }
}
