/**
  When a summary is posted (summary_poster.rs): one attempt looks at the last closed period of a
  cadence, and a run is any sequence of attempts, each of which may fail after any of its effects.
*/
module SummaryGate {
  import opened Wrappers
  import opened Calendar
  import opened SummaryPeriods

  const DAY := 86400
  const I64_MAX := 0x7fff_ffff_ffff_ffff

  /** A count field, if it reads as a number; the cast to a 64-bit integer truncates and saturates. */
  function ParseCount(raw: Option<real>): int {
    if raw.None? || raw.value < 0.0 then 0
    else if raw.value.Floor > I64_MAX then I64_MAX
    else raw.value.Floor
  }

  /** The rollup as fetched; `rest` stands for its two sums and for how the counts are spelt. */
  datatype Summary = Summary(ticketCount: Option<real>, usdRowsPriced: Option<real>, rest: string)

  predicate Enriched(s: Summary) {
    ParseCount(s.usdRowsPriced) >= ParseCount(s.ticketCount)
  }

  datatype Readiness = Readiness(settleDaily: nat, settleWeekly: nat, settleMonthly: nat, maxDefer: nat)

  function SettleFor(r: Readiness, c: Cadence): nat {
    match c
    case Daily => r.settleDaily
    case Weekly => r.settleWeekly
    case Monthly => r.settleMonthly
  }

  datatype Clock = Clock(today: Date, second: int)

  predicate ValidClock(k: Clock) {
    Valid(k.today) && 0 <= k.second < DAY
  }

  function Now(k: Clock): int
    requires ValidClock(k)
  {
    DayNumber(k.today) * DAY + k.second
  }

  /** Midnight after the last day of the period. */
  function CloseOf(c: Cadence, k: Clock): int
    requires ValidClock(k)
  {
    LastClosedIsWhole(c, k.today);
    NextDay(LastClosed(c, k.today).2);
    DayNumber(Next(LastClosed(c, k.today).2)) * DAY
  }

  function SinceClose(c: Cadence, k: Clock): int
    requires ValidClock(k)
  {
    Now(k) - CloseOf(c, k)
  }

  /** The clock is always inside the period that follows the one being reported. */
  lemma GateWindow(c: Cadence, k: Clock)
    requires ValidClock(k)
    ensures 0 <= SinceClose(c, k) < Length(c, k.today) * DAY
  {
    LastClosedIsWhole(c, k.today);
    CurrentIsWhole(c, k.today);
    var (first, last) := Current(c, k.today);
    var lo, hi, n := DayNumber(first), DayNumber(last), DayNumber(k.today);
    assert CloseOf(c, k) == lo * DAY;
    assert lo <= n <= hi && hi - lo + 1 == Length(c, k.today);
  }

  /** It is the time since the first midnight of the period the clock is in. */
  lemma SinceCloseExactly(c: Cadence, k: Clock, first: Date)
    requires ValidClock(k) && Valid(first) && Current(c, k.today).0 == first
    ensures SinceClose(c, k) == (DayNumber(k.today) - DayNumber(first)) * 86400 + k.second
  {
    LastClosedIsWhole(c, k.today);
    assert Next(LastClosed(c, k.today).2) == first;
  }

  // ---- one attempt ------------------------------------------------------------------------------

  datatype Effect =
    | SaveSnapshot(cadence: Cadence, period: Date, summary: Summary)
    | Send(cadence: Cadence, period: Date, incomplete: bool)
    | MarkPosted(cadence: Cadence, period: Date)

  datatype Store = Store(posted: set<(Cadence, Date)>, snapshots: map<(Cadence, Date), Summary>)

  function Apply(st: Store, e: Effect): Store {
    match e
    case SaveSnapshot(c, p, s) => st.(snapshots := st.snapshots[(c, p) := s])
    case Send(_, _, _) => st
    case MarkPosted(c, p) => st.(posted := st.posted + {(c, p)})
  }

  function ApplyAll(st: Store, es: seq<Effect>): Store {
    if es == [] then st else Apply(ApplyAll(st, es[..|es| - 1]), es[|es| - 1])
  }

  /**
    `period` is the date of the last closed period and `since` the seconds since it closed, both as
    computed from `clock`; `summary` is absent when a fetch or a read failed; `localCount` is how many
    tickets of the period the bot itself has stored; `credit` is how many effects go through.
  */
  datatype Attempt = Attempt(cadence: Cadence, clock: Clock,
    period: Date, since: int, summary: Option<Summary>, localCount: nat, credit: nat)

  predicate Faithful(a: Attempt) {
    ValidClock(a.clock) && a.period == LastClosed(a.cadence, a.clock.today).0
      && a.since == SinceClose(a.cadence, a.clock)
  }

  /** An attempt at the time `now`. */
  function Look(c: Cadence, now: Clock, summary: Option<Summary>, localCount: nat, credit: nat): (a: Attempt)
    requires ValidClock(now)
    ensures Faithful(a)
  {
    Attempt(c, now, LastClosed(c, now.today).0, SinceClose(c, now), summary, localCount, credit)
  }

  predicate Settled(r: Readiness, a: Attempt) {
    a.since >= SettleFor(r, a.cadence)
  }

  function Plan(r: Readiness, posted: bool, a: Attempt): seq<Effect> {
    if posted || !Settled(r, a) || a.summary.None? then []
    else if Enriched(a.summary.value) then [Send(a.cadence, a.period, false), MarkPosted(a.cadence, a.period)]
    else if a.since < r.maxDefer then [SaveSnapshot(a.cadence, a.period, a.summary.value)]
    else [SaveSnapshot(a.cadence, a.period, a.summary.value),
      Send(a.cadence, a.period, true), MarkPosted(a.cadence, a.period)]
  }

  function Effects(r: Readiness, st: Store, a: Attempt): seq<Effect> {
    var plan := Plan(r, (a.cadence, a.period) in st.posted, a);
    if |plan| <= a.credit then plan else plan[..a.credit]
  }

  // ---- runs -------------------------------------------------------------------------------------

  datatype Entry = Entry(attempt: Attempt, effect: Effect)

  ghost predicate FaithfulRun(run: seq<Attempt>) {
    forall i | 0 <= i < |run| :: Faithful(run[i])
  }

  function Final(r: Readiness, st: Store, run: seq<Attempt>, k: nat): Store
    requires k <= |run|
    decreases k
  {
    if k == 0 then st
    else
      var before := Final(r, st, run, k - 1);
      ApplyAll(before, Effects(r, before, run[k - 1]))
  }

  function Entries(a: Attempt, es: seq<Effect>): (log: seq<Entry>)
    ensures |log| == |es| && forall i | 0 <= i < |es| :: log[i] == Entry(a, es[i])
  {
    if es == [] then [] else Entries(a, es[..|es| - 1]) + [Entry(a, es[|es| - 1])]
  }

  /** Every effect of the first `k` attempts. */
  function Log(r: Readiness, st: Store, run: seq<Attempt>, k: nat): seq<Entry>
    requires k <= |run|
    decreases k
  {
    if k == 0 then []
    else Log(r, st, run, k - 1) + Entries(run[k - 1], Effects(r, Final(r, st, run, k - 1), run[k - 1]))
  }

  lemma LogSplits(r: Readiness, st: Store, run: seq<Attempt>, k: nat, i: nat)
    requires 0 < k <= |run| && i < |Log(r, st, run, k)|
    ensures var n, es := |Log(r, st, run, k - 1)|, Effects(r, Final(r, st, run, k - 1), run[k - 1]);
      && |Log(r, st, run, k)| == n + |es|
      && Log(r, st, run, k)[i] == if i < n then Log(r, st, run, k - 1)[i] else Entry(run[k - 1], es[i - n])
  {
  }

  /** What the source promises of a single effect. */
  predicate Proper(r: Readiness, e: Entry) {
    && e.effect.cadence == e.attempt.cadence && e.effect.period == e.attempt.period && Settled(r, e.attempt)
    && e.attempt.summary.Some?
    && (e.effect.Send? ==> (e.effect.incomplete <==> !Enriched(e.attempt.summary.value)))
    && (e.effect.Send? && e.effect.incomplete ==> e.attempt.since >= r.maxDefer)
    && (e.effect.MarkPosted? ==> Enriched(e.attempt.summary.value) || e.attempt.since >= r.maxDefer)
  }

  lemma EffectsAreProper(r: Readiness, st: Store, a: Attempt, i: int)
    requires 0 <= i < |Effects(r, st, a)|
    ensures Proper(r, Entry(a, Effects(r, st, a)[i]))
    ensures (a.cadence, a.period) !in st.posted
    ensures Effects(r, st, a)[i].MarkPosted? <==> i > 0 && Effects(r, st, a)[i - 1].Send?
    ensures Effects(r, st, a)[i].MarkPosted? ==> i == |Effects(r, st, a)| - 1
    ensures Effects(r, st, a)[i].Send? && i == |Effects(r, st, a)| - 1 ==>
      a.credit == if Effects(r, st, a)[i].incomplete then 2 else 1
  {
  }

  /** Entry `i` is the `p`-th effect of attempt `m`. */
  lemma {:induction false} EntryComesFrom(r: Readiness, st: Store, run: seq<Attempt>, k: nat, i: nat)
    returns (m: nat, p: nat)
    requires k <= |run| && i < |Log(r, st, run, k)|
    ensures m < k && p < |Effects(r, Final(r, st, run, m), run[m])|
    ensures Log(r, st, run, k)[i] == Entry(run[m], Effects(r, Final(r, st, run, m), run[m])[p])
    decreases k
  {
    LogSplits(r, st, run, k, i);
    var before := Log(r, st, run, k - 1);
    if i < |before| {
      m, p := EntryComesFrom(r, st, run, k - 1, i);
      assert Log(r, st, run, k)[i] == before[i];
    } else {
      m, p := k - 1, i - |before|;
    }
  }

  lemma EntriesAreProper(r: Readiness, st: Store, run: seq<Attempt>, k: nat, i: nat)
    requires k <= |run| && i < |Log(r, st, run, k)|
    ensures Proper(r, Log(r, st, run, k)[i]) && Log(r, st, run, k)[i].attempt in run
  {
    var m, p := EntryComesFrom(r, st, run, k, i);
    EffectsAreProper(r, Final(r, st, run, m), run[m], p);
  }

  /**
    Nothing is sent or recorded before the period has closed and settled, nor after the next period
    has closed; the incomplete footer is there exactly when fewer rows are priced than counted, and
    then the deadline has passed.
  */
  lemma EveryEffectIsProper(r: Readiness, st: Store, run: seq<Attempt>, k: nat, i: nat)
    requires k <= |run| && FaithfulRun(run) && i < |Log(r, st, run, k)|
    ensures var e := Log(r, st, run, k)[i];
      && e.attempt in run && Faithful(e.attempt) && Proper(r, e)
      && SettleFor(r, e.attempt.cadence) <= e.attempt.since < Length(e.attempt.cadence, e.attempt.clock.today) * DAY
  {
    EntriesAreProper(r, st, run, k, i);
    var a := Log(r, st, run, k)[i].attempt;
    GateWindow(a.cadence, a.clock);
  }

  lemma {:induction false} ApplyAllPosts(st: Store, es: seq<Effect>)
    ensures st.posted <= ApplyAll(st, es).posted
    ensures forall i | 0 <= i < |es| && es[i].MarkPosted? :: (es[i].cadence, es[i].period) in ApplyAll(st, es).posted
  {
    if es != [] {
      ApplyAllPosts(st, es[..|es| - 1]);
    }
  }

  /** Posted once is posted for good. */
  lemma {:induction false} PostedGrows(r: Readiness, st: Store, run: seq<Attempt>, j: nat, k: nat)
    requires j <= k <= |run|
    ensures Final(r, st, run, j).posted <= Final(r, st, run, k).posted
    decreases k
  {
    if j < k {
      PostedGrows(r, st, run, j, k - 1);
      var before := Final(r, st, run, k - 1);
      ApplyAllPosts(before, Effects(r, before, run[k - 1]));
    }
  }

  lemma {:induction false} RecordedIsPosted(r: Readiness, st: Store, run: seq<Attempt>, k: nat, i: nat)
    requires k <= |run| && i < |Log(r, st, run, k)| && Log(r, st, run, k)[i].effect.MarkPosted?
    ensures var e := Log(r, st, run, k)[i].effect; (e.cadence, e.period) in Final(r, st, run, k).posted
    decreases k
  {
    var before := Final(r, st, run, k - 1);
    ApplyAllPosts(before, Effects(r, before, run[k - 1]));
    LogSplits(r, st, run, k, i);
    if i < |Log(r, st, run, k - 1)| {
      RecordedIsPosted(r, st, run, k - 1, i);
    }
  }

  lemma NothingAfterMark(r: Readiness, st: Store, a: Attempt, i: nat, j: nat)
    requires i < j < |Effects(r, st, a)|
    ensures !Effects(r, st, a)[i].MarkPosted?
  {
  }

  predicate SamePeriod(d: Effect, e: Effect) {
    d.cadence == e.cadence && d.period == e.period
  }

  /** Once a period is recorded as posted, nothing more happens for it: each is recorded at most once. */
  lemma {:induction false} RecordedIsFinal(r: Readiness, st: Store, run: seq<Attempt>, k: nat, i: nat, j: nat)
    requires k <= |run| && i < j < |Log(r, st, run, k)| && Log(r, st, run, k)[i].effect.MarkPosted?
    ensures !SamePeriod(Log(r, st, run, k)[i].effect, Log(r, st, run, k)[j].effect)
    decreases k
  {
    LogSplits(r, st, run, k, i);
    LogSplits(r, st, run, k, j);
    var n, before, a := |Log(r, st, run, k - 1)|, Final(r, st, run, k - 1), run[k - 1];
    if j < n {
      RecordedIsFinal(r, st, run, k - 1, i, j);
    } else if i < n {
      RecordedIsPosted(r, st, run, k - 1, i);
      EffectsAreProper(r, before, a, j - n);
    } else {
      NothingAfterMark(r, before, a, i - n, j - n);
    }
  }

  /** A period already recorded when the run begins is left alone. */
  lemma PostedBeforeIsLeftAlone(r: Readiness, st: Store, run: seq<Attempt>, k: nat, i: nat)
    requires k <= |run| && i < |Log(r, st, run, k)|
    ensures var e := Log(r, st, run, k)[i].effect; (e.cadence, e.period) !in st.posted
  {
    var m, p := EntryComesFrom(r, st, run, k, i);
    PostedGrows(r, st, run, 0, m);
    EffectsAreProper(r, Final(r, st, run, m), run[m], p);
  }

  lemma SendThenMark(r: Readiness, st: Store, a: Attempt, i: nat)
    requires i < |Effects(r, st, a)| && Effects(r, st, a)[i].Send?
    ensures var es := Effects(r, st, a);
      if i + 1 < |es| then es[i + 1] == MarkPosted(es[i].cadence, es[i].period)
      else a.credit == if es[i].incomplete then 2 else 1
  {
  }

  /** Entry `i` is followed by the record of what it sent, or its attempt was cut off right there. */
  predicate RecordedNext(log: seq<Entry>, i: nat)
    requires i < |log| && log[i].effect.Send?
  {
    var e := log[i];
    (i + 1 < |log| && log[i + 1] == Entry(e.attempt, MarkPosted(e.effect.cadence, e.effect.period)))
    || e.attempt.credit == (if e.effect.incomplete then 2 else 1)
  }

  lemma RecordedInEither(before: seq<Entry>, part: seq<Entry>, i: nat)
    requires i < |before| + |part| && (before + part)[i].effect.Send?
    requires i < |before| ==> RecordedNext(before, i)
    requires i >= |before| ==> RecordedNext(part, i - |before|)
    ensures RecordedNext(before + part, i)
  {
  }

  lemma AttemptRecords(r: Readiness, st: Store, a: Attempt, i: nat)
    requires i < |Effects(r, st, a)| && Effects(r, st, a)[i].Send?
    ensures RecordedNext(Entries(a, Effects(r, st, a)), i)
  {
    SendThenMark(r, st, a, i);
  }

  /** An accepted summary is recorded by the very next write unless that write fails. */
  lemma {:induction false} SentThenRecorded(r: Readiness, st: Store, run: seq<Attempt>, k: nat, i: nat)
    requires k <= |run| && i < |Log(r, st, run, k)| && Log(r, st, run, k)[i].effect.Send?
    ensures RecordedNext(Log(r, st, run, k), i)
    decreases k
  {
    LogSplits(r, st, run, k, i);
    var before, st', a := Log(r, st, run, k - 1), Final(r, st, run, k - 1), run[k - 1];
    if i < |before| {
      SentThenRecorded(r, st, run, k - 1, i);
    } else {
      AttemptRecords(r, st', a, i - |before|);
    }
    RecordedInEither(before, Entries(a, Effects(r, st', a)), i);
  }

  /** The period is not recorded, its figures could be read, and its cadence's own floor has passed. */
  predicate IsDue(r: Readiness, st: Store, a: Attempt) {
    && (a.cadence, a.period) !in st.posted && a.summary.Some?
    && (a.cadence == Daily ==> a.since >= r.settleDaily)
    && (a.cadence == Weekly ==> a.since >= r.settleWeekly)
    && (a.cadence == Monthly ==> a.since >= r.settleMonthly)
  }

  lemma AmongFirst(es: seq<Effect>, n: nat, e: Effect)
    requires |es| <= 3
    ensures e in (if |es| <= n then es else es[..n])
      <==> (|es| > 0 && n > 0 && e == es[0]) || (|es| > 1 && n > 1 && e == es[1]) || (|es| > 2 && n > 2 && e == es[2])
  {
  }

  /** Which effects an attempt has, effect by effect, up to the one at which it is cut off. */
  lemma AttemptDoesExactly(r: Readiness, st: Store, a: Attempt, e: Effect)
    ensures e in Effects(r, st, a) <==>
      IsDue(r, st, a) && e.cadence == a.cadence && e.period == a.period
      && match e
         case SaveSnapshot(_, _, s) => a.credit >= 1 && s == a.summary.value && !Enriched(s)
         case Send(_, _, false) => a.credit >= 1 && Enriched(a.summary.value)
         case Send(_, _, true) => a.credit >= 2 && !Enriched(a.summary.value) && a.since >= r.maxDefer
         case MarkPosted(_, _) =>
           if Enriched(a.summary.value) then a.credit >= 2 else a.credit >= 3 && a.since >= r.maxDefer
  {
    AmongFirst(Plan(r, (a.cadence, a.period) in st.posted, a), a.credit, e);
  }

  // ---- how often a period is sent ---------------------------------------------------------------

  predicate About(a: Attempt, c: Cadence, p: Date) {
    a.cadence == c && a.period == p
  }

  /** The attempt sends its summary. */
  predicate SendsIt(r: Readiness, st: Store, a: Attempt) {
    exists i | 0 <= i < |Effects(r, st, a)| :: Effects(r, st, a)[i].Send?
  }

  /** The attempt sends the summary and does not get to record it. */
  predicate LosesMark(r: Readiness, st: Store, a: Attempt) {
    var es := Effects(r, st, a);
    es != [] && es[|es| - 1].Send?
  }

  /** One attempt sends at most once, only its own period, and then records it or loses the mark. */
  lemma SendIsOnlyOne(r: Readiness, st: Store, a: Attempt, i: nat)
    requires i < |Effects(r, st, a)| && Effects(r, st, a)[i].Send?
    ensures var es := Effects(r, st, a);
      && es[i].cadence == a.cadence && es[i].period == a.period && (a.cadence, a.period) !in st.posted
      && (LosesMark(r, st, a) || es[|es| - 1] == MarkPosted(a.cadence, a.period))
      && forall j | 0 <= j < |es| :: es[j].Send? ==> j == i
  {
  }

  /** How many of the first `k` attempts sent the summary of `p`; each of them sent it once (`SendIsOnlyOne`). */
  function Sends(r: Readiness, st: Store, run: seq<Attempt>, k: nat, c: Cadence, p: Date): nat
    requires k <= |run|
    decreases k
  {
    if k == 0 then 0
    else
      Sends(r, st, run, k - 1, c, p)
      + if About(run[k - 1], c, p) && SendsIt(r, Final(r, st, run, k - 1), run[k - 1]) then 1 else 0
  }

  /** How many of them did not get to record it. */
  function LostMarks(r: Readiness, st: Store, run: seq<Attempt>, k: nat, c: Cadence, p: Date): nat
    requires k <= |run|
    decreases k
  {
    if k == 0 then 0
    else
      LostMarks(r, st, run, k - 1, c, p)
      + if About(run[k - 1], c, p) && LosesMark(r, Final(r, st, run, k - 1), run[k - 1]) then 1 else 0
  }

  lemma {:induction false} NothingPosted(st: Store, es: seq<Effect>, c: Cadence, p: Date)
    requires forall i | 0 <= i < |es| && es[i].MarkPosted? :: (es[i].cadence, es[i].period) != (c, p)
    ensures (c, p) in ApplyAll(st, es).posted <==> (c, p) in st.posted
  {
    if es != [] {
      NothingPosted(st, es[..|es| - 1], c, p);
    }
  }

  /** An attempt that sends either loses the mark or records the period, which was not recorded; no other does. */
  lemma AttemptSends(r: Readiness, st: Store, a: Attempt, c: Cadence, p: Date)
    ensures var after, sends := ApplyAll(st, Effects(r, st, a)).posted, About(a, c, p) && SendsIt(r, st, a);
      && (LosesMark(r, st, a) ==> SendsIt(r, st, a))
      && (sends ==> (c, p) !in st.posted && ((c, p) in after <==> !LosesMark(r, st, a)))
      && (!sends ==> ((c, p) in after <==> (c, p) in st.posted))
  {
    var es := Effects(r, st, a);
    if About(a, c, p) && SendsIt(r, st, a) {
      var i :| 0 <= i < |es| && es[i].Send?;
      SendIsOnlyOne(r, st, a, i);
      ApplyAllPosts(st, es);
    }
    if !(About(a, c, p) && SendsIt(r, st, a)) || LosesMark(r, st, a) {
      forall i | 0 <= i < |es| && es[i].MarkPosted? ensures (es[i].cadence, es[i].period) != (c, p) {
        EffectsAreProper(r, st, a, i);
      }
      NothingPosted(st, es, c, p);
    }
  }

  /**
    However attempts fail, the summary of one period is sent exactly as often as an accepted one was not
    recorded, and once more if it was recorded in the end; not at all if the period was recorded before.
  */
  lemma {:induction false} SentOnceUnlessMarkIsLost(r: Readiness, st: Store, run: seq<Attempt>, k: nat,
                                                    c: Cadence, p: Date)
    requires k <= |run|
    ensures var start, now := (c, p) in st.posted, (c, p) in Final(r, st, run, k).posted;
      && (start ==> now && Sends(r, st, run, k, c, p) == 0)
      && Sends(r, st, run, k, c, p) == LostMarks(r, st, run, k, c, p) + if now && !start then 1 else 0
    decreases k
  {
    if k > 0 {
      SentOnceUnlessMarkIsLost(r, st, run, k - 1, c, p);
      AttemptSends(r, Final(r, st, run, k - 1), run[k - 1], c, p);
      PostedGrows(r, st, run, k - 1, k);
    }
  }

  ghost predicate ClockAdvances(run: seq<Attempt>)
    requires FaithfulRun(run)
  {
    forall i, j | 0 <= i <= j < |run| :: DayNumber(run[i].clock.today) <= DayNumber(run[j].clock.today)
  }

  lemma {:induction false} EntriesInOrder(r: Readiness, st: Store, run: seq<Attempt>, k: nat, i: nat, j: nat)
    returns (m: nat, n: nat)
    requires k <= |run| && i < j < |Log(r, st, run, k)|
    ensures m <= n < k && Log(r, st, run, k)[i].attempt == run[m] && Log(r, st, run, k)[j].attempt == run[n]
    decreases k
  {
    LogSplits(r, st, run, k, i);
    LogSplits(r, st, run, k, j);
    if j < |Log(r, st, run, k - 1)| {
      m, n := EntriesInOrder(r, st, run, k - 1, i, j);
    } else {
      n := k - 1;
      var p;
      m, p := EntryComesFrom(r, st, run, k, i);
    }
  }

  lemma LaterPeriod(a: Attempt, b: Attempt)
    requires Faithful(a) && Faithful(b) && a.cadence == b.cadence && a.period != b.period
    requires DayNumber(a.clock.today) <= DayNumber(b.clock.today)
    ensures Before(a.period, b.period)
  {
    LastClosedAscends(a.cadence, a.clock.today, b.clock.today);
    DayNumbersOrder(a.period, b.period);
  }

  /** While the clock does not go back, each cadence records its periods in calendar order. */
  lemma PeriodsAscend(r: Readiness, st: Store, run: seq<Attempt>, k: nat, i: nat, j: nat)
    requires k <= |run| && FaithfulRun(run) && ClockAdvances(run) && i < j < |Log(r, st, run, k)|
    requires Log(r, st, run, k)[i].effect.MarkPosted? && Log(r, st, run, k)[j].effect.MarkPosted?
    requires Log(r, st, run, k)[i].effect.cadence == Log(r, st, run, k)[j].effect.cadence
    ensures Before(Log(r, st, run, k)[i].effect.period, Log(r, st, run, k)[j].effect.period)
  {
    var m, n := EntriesInOrder(r, st, run, k, i, j);
    RecordedIsFinal(r, st, run, k, i, j);
    EntriesAreProper(r, st, run, k, i);
    EntriesAreProper(r, st, run, k, j);
    LaterPeriod(run[m], run[n]);
  }

  lemma ReadyAttemptPosts(r: Readiness, st: Store, a: Attempt)
    requires Settled(r, a) && a.summary.Some? && a.credit >= 3 && (Enriched(a.summary.value) || a.since >= r.maxDefer)
    ensures (a.cadence, a.period) in ApplyAll(st, Effects(r, st, a)).posted
  {
    var es := Effects(r, st, a);
    ApplyAllPosts(st, es);
    if (a.cadence, a.period) !in st.posted {
      assert es[|es| - 1] == MarkPosted(a.cadence, a.period);
    }
  }

  /** An attempt that finds its period settled and priced, or overdue, and whose writes succeed, leaves it recorded. */
  lemma ReadyPeriodIsPosted(r: Readiness, st: Store, run: seq<Attempt>, m: nat, k: nat)
    requires m < k <= |run|
    requires Settled(r, run[m]) && run[m].summary.Some? && run[m].credit >= 3
    requires Enriched(run[m].summary.value) || run[m].since >= r.maxDefer
    ensures (run[m].cadence, run[m].period) in Final(r, st, run, k).posted
  {
    ReadyAttemptPosts(r, Final(r, st, run, m), run[m]);
    PostedGrows(r, st, run, m + 1, k);
  }

  lemma {:induction false} LastSnapshot(st: Store, es: seq<Effect>, c: Cadence, p: Date, s: Summary)
    requires es != [] && es[0] == SaveSnapshot(c, p, s) && forall i | 1 <= i < |es| :: !es[i].SaveSnapshot?
    ensures (c, p) in ApplyAll(st, es).snapshots && ApplyAll(st, es).snapshots[(c, p)] == s
  {
    if |es| > 1 {
      LastSnapshot(st, es[..|es| - 1], c, p, s);
    } else {
      assert es[..0] == [];
    }
  }

  /** A settled rollup that is not fully priced is remembered for the next look, whether or not it is posted. */
  lemma UnreadyIsRemembered(r: Readiness, st: Store, a: Attempt)
    requires Settled(r, a) && a.summary.Some? && !Enriched(a.summary.value)
      && (a.cadence, a.period) !in st.posted && a.credit >= 1
    ensures var st' := ApplyAll(st, Effects(r, st, a));
      (a.cadence, a.period) in st'.snapshots && st'.snapshots[(a.cadence, a.period)] == a.summary.value
  {
    LastSnapshot(st, Effects(r, st, a), a.cadence, a.period, a.summary.value);
  }

  // ---- the backstop ---------------------------------------------------------------------------------

  /** At `k` an unpriced rollup would be posted with the incomplete footer. */
  predicate BackstopFires(r: Readiness, c: Cadence, k: Clock) {
    ValidClock(k) && SinceClose(c, k) >= SettleFor(r, c) && SinceClose(c, k) >= r.maxDefer
  }

  /** It would at some moment of the period `today` lies in. */
  ghost predicate BackstopCanFire(r: Readiness, c: Cadence, today: Date)
    requires Valid(today)
  {
    exists k :: BackstopFires(r, c, k) && Current(c, k.today) == Current(c, today)
      && LastClosed(c, k.today) == LastClosed(c, today)
  }

  lemma BackstopTooLate(r: Readiness, c: Cadence, today: Date)
    requires Valid(today) && BackstopCanFire(r, c, today)
    ensures r.maxDefer < Length(c, today) * DAY && SettleFor(r, c) < Length(c, today) * DAY
  {
    var k :| BackstopFires(r, c, k) && Current(c, k.today) == Current(c, today);
    GateWindow(c, k);
    CurrentIsWhole(c, k.today);
    CurrentIsWhole(c, today);
  }

  lemma LastMoment(c: Cadence, today: Date) returns (k: Clock)
    requires Valid(today)
    ensures ValidClock(k) && Current(c, k.today) == Current(c, today) && LastClosed(c, k.today) == LastClosed(c, today)
    ensures SinceClose(c, k) == Length(c, today) * DAY - 1
  {
    var (first, last) := Current(c, today);
    k := Clock(last, DAY - 1);
    CurrentIsWhole(c, today);
    CurrentIsWhole(c, last);
    WholeSpans(c, first, last);
    WholePeriodsAreDisjoint(c, last, first, last, Current(c, last).0, Current(c, last).1);
    LastClosedIsWhole(c, today);
    LastClosedExactly(c, last, LastClosed(c, today).1, LastClosed(c, today).2);
    assert CloseOf(c, k) == DayNumber(first) * DAY;
  }

  /**
    The backstop for the period closed last before `today` can fire at some moment exactly when the
    settlement floor and the deferral are both shorter than the period `today` lies in; otherwise a
    period that is never priced is never posted at all.
  */
  lemma BackstopReachable(r: Readiness, c: Cadence, today: Date)
    requires Valid(today)
    ensures BackstopCanFire(r, c, today)
      <==> r.maxDefer < Length(c, today) * DAY && SettleFor(r, c) < Length(c, today) * DAY
  {
    if BackstopCanFire(r, c, today) {
      BackstopTooLate(r, c, today);
    } else {
      var k := LastMoment(c, today);
      assert !BackstopFires(r, c, k);
    }
  }

  /** With a deferral of a day or more, as the 48-hour default is, no daily summary is ever sent incomplete. */
  lemma DailyIsNeverIncomplete(r: Readiness, st: Store, run: seq<Attempt>, k: nat, i: nat)
    requires k <= |run| && FaithfulRun(run) && r.maxDefer >= DAY && i < |Log(r, st, run, k)|
    ensures !(Log(r, st, run, k)[i].effect.Send? && Log(r, st, run, k)[i].effect.cadence.Daily?
      && Log(r, st, run, k)[i].effect.incomplete)
  {
    EveryEffectIsProper(r, st, run, k, i);
  }

  // ---- what the configuration documents -------------------------------------------------------------

  /** The explorer counts no fewer tickets than the bot has stored. */
  predicate NotBehind(a: Attempt) {
    a.summary.Some? && ParseCount(a.summary.value.ticketCount) >= a.localCount
  }

  /** The stored observation of the period is the rollup as it is now. */
  predicate Stable(st: Store, a: Attempt) {
    (a.cadence, a.period) in st.snapshots && a.summary == Some(st.snapshots[(a.cadence, a.period)])
  }

  /** When src/config.rs:140-147 lets a summary be posted as complete. */
  predicate Documented(st: Store, a: Attempt) {
    a.summary.Some? && Enriched(a.summary.value) && NotBehind(a) && Stable(st, a)
  }

  predicate SendsComplete(r: Readiness, st: Store, a: Attempt) {
    Send(a.cadence, a.period, false) in Effects(r, st, a)
  }

  /** The attempt stores what it observed. */
  predicate Saves(r: Readiness, st: Store, a: Attempt) {
    Effects(r, st, a) != [] && Effects(r, st, a)[0].SaveSnapshot?
  }

  /** One of the first `k` attempts has stored an observation of `p`. */
  predicate SavedBefore(r: Readiness, st: Store, run: seq<Attempt>, k: nat, c: Cadence, p: Date)
    requires k <= |run|
    decreases k
  {
    k > 0 && (SavedBefore(r, st, run, k - 1, c, p)
              || (About(run[k - 1], c, p) && Saves(r, Final(r, st, run, k - 1), run[k - 1])))
  }

  lemma {:induction false} OtherSnapshots(st: Store, es: seq<Effect>, c: Cadence, p: Date)
    requires forall i | 0 <= i < |es| && es[i].SaveSnapshot? :: (es[i].cadence, es[i].period) != (c, p)
    ensures var st' := ApplyAll(st, es).snapshots;
      ((c, p) in st' <==> (c, p) in st.snapshots) && ((c, p) in st' ==> st'[(c, p)] == st.snapshots[(c, p)])
  {
    if es != [] {
      OtherSnapshots(st, es[..|es| - 1], c, p);
    }
  }

  /** Only a rollup that is not fully priced is ever stored. */
  lemma AttemptSnapshot(r: Readiness, st: Store, a: Attempt, c: Cadence, p: Date)
    ensures var after := ApplyAll(st, Effects(r, st, a)).snapshots;
      if About(a, c, p) && Saves(r, st, a) then (c, p) in after && !Enriched(after[(c, p)])
      else ((c, p) in after <==> (c, p) in st.snapshots) && ((c, p) in after ==> after[(c, p)] == st.snapshots[(c, p)])
  {
    var es := Effects(r, st, a);
    if About(a, c, p) && Saves(r, st, a) {
      LastSnapshot(st, es, c, p, a.summary.value);
    } else {
      OtherSnapshots(st, es, c, p);
    }
  }

  lemma {:induction false} SnapshotTells(r: Readiness, st: Store, run: seq<Attempt>, k: nat, c: Cadence, p: Date)
    requires k <= |run|
    ensures var now := Final(r, st, run, k).snapshots;
      if SavedBefore(r, st, run, k, c, p) then (c, p) in now && !Enriched(now[(c, p)])
      else ((c, p) in now <==> (c, p) in st.snapshots) && ((c, p) in now ==> now[(c, p)] == st.snapshots[(c, p)])
    decreases k
  {
    if k > 0 {
      SnapshotTells(r, st, run, k - 1, c, p);
      AttemptSnapshot(r, Final(r, st, run, k - 1), run[k - 1], c, p);
    }
  }

  /**
    Over every run: a summary sent as complete meets what is documented exactly when the explorer is not
    behind the bot, and the store the run began with already held this very rollup, which is fully priced,
    and no attempt since has stored another.
  */
  lemma DocumentedExactly(r: Readiness, st: Store, run: seq<Attempt>, m: nat)
    requires m < |run| && SendsComplete(r, Final(r, st, run, m), run[m])
    ensures Documented(Final(r, st, run, m), run[m])
      <==> NotBehind(run[m]) && Stable(st, run[m]) && !SavedBefore(r, st, run, m, run[m].cadence, run[m].period)
  {
    SnapshotTells(r, st, run, m, run[m].cadence, run[m].period);
  }

  /**
    The poster itself never stores a fully priced rollup, so from a store it has written, or an empty one,
    no summary sent as complete is ever the second of two equal observations.
  */
  lemma NeverDocumented(r: Readiness, st: Store, run: seq<Attempt>, m: nat)
    requires forall k | k in st.snapshots :: !Enriched(st.snapshots[k])
    requires m < |run| && SendsComplete(r, Final(r, st, run, m), run[m])
    ensures !Documented(Final(r, st, run, m), run[m])
  {
    DocumentedExactly(r, st, run, m);
  }

  lemma CompleteSendIsPriced(r: Readiness, st: Store, a: Attempt)
    requires SendsComplete(r, st, a)
    ensures a.summary.Some? && Enriched(a.summary.value) && (a.cadence, a.period) !in st.posted
  {
  }

  lemma PricedAttemptPosts(r: Readiness, st: Store, a: Attempt)
    requires Settled(r, a) && a.summary.Some? && Enriched(a.summary.value) && a.credit >= 2
    ensures (a.cadence, a.period) in ApplyAll(st, Effects(r, st, a)).posted
  {
    var es := Effects(r, st, a);
    ApplyAllPosts(st, es);
    if (a.cadence, a.period) !in st.posted {
      assert es[1] == MarkPosted(a.cadence, a.period);
    }
  }

  /** Nor does an equal rollup at an earlier look make it so: then the send or the mark of that look failed. */
  lemma SeenTwiceMeansFailed(r: Readiness, st: Store, run: seq<Attempt>, l: nat, m: nat)
    requires l < m < |run| && SendsComplete(r, Final(r, st, run, m), run[m])
    requires About(run[l], run[m].cadence, run[m].period) && Settled(r, run[l]) && run[l].summary == run[m].summary
    ensures run[l].credit < 2
  {
    CompleteSendIsPriced(r, Final(r, st, run, m), run[m]);
    if run[l].credit >= 2 {
      PricedAttemptPosts(r, Final(r, st, run, l), run[l]);
      PostedGrows(r, st, run, l + 1, m);
    }
  }

  /** The explorer knows one ticket, priced, and the bot has stored two: the summary goes out as complete. */
  lemma BehindIsSent(r: Readiness, st: Store, a: Attempt)
    requires Settled(r, a) && (a.cadence, a.period) !in st.posted && a.credit >= 1
    requires a.summary == Some(Summary(Some(1.0), Some(1.0), "")) && a.localCount == 2
    ensures SendsComplete(r, st, a) && !NotBehind(a)
  {
    assert Effects(r, st, a)[0] == Send(a.cadence, a.period, false);
  }

  // ---- what counts as priced -------------------------------------------------------------------------

  predicate Readable(count: Option<real>) {
    count.Some? && count.value >= 0.0
  }

  /** What the gate is meant to say: both counts are there, and every ticket counted is priced. */
  predicate FullyPriced(s: Summary) {
    Readable(s.ticketCount) && Readable(s.usdRowsPriced) && s.usdRowsPriced.value >= s.ticketCount.value
  }

  /**
    The tickets counted are unreadable or negative; or fewer than one, and those priced unreadable; or the
    two differ by less than their whole parts show, or only beyond 64 bits.
  */
  predicate SlipsThrough(s: Summary) {
    if !Readable(s.ticketCount) then true
    else if !Readable(s.usdRowsPriced) then s.ticketCount.value < 1.0
    else
      && s.usdRowsPriced.value < s.ticketCount.value
      && (s.usdRowsPriced.value.Floor == s.ticketCount.value.Floor
          || s.usdRowsPriced.value.Floor >= 9223372036854775807)
  }

  /**
    Over every rollup: the gate takes it for complete exactly when it is fully priced or slips through, and never both.
  */
  lemma EnrichedExactly(s: Summary)
    ensures Enriched(s) <==> FullyPriced(s) || SlipsThrough(s)
    ensures !(FullyPriced(s) && SlipsThrough(s))
  {
  }

  /** A settled rollup that slips through is sent without the incomplete footer and recorded. */
  lemma SlippedIsSentComplete(r: Readiness, st: Store, a: Attempt)
    requires Settled(r, a) && a.summary.Some? && SlipsThrough(a.summary.value)
      && (a.cadence, a.period) !in st.posted && a.credit >= 2
    ensures Effects(r, st, a) == [Send(a.cadence, a.period, false), MarkPosted(a.cadence, a.period)]
  {
    EnrichedExactly(a.summary.value);
  }

  /** No ticket count, less than one ticket and no priced count, and 4.1 of 4.7 priced: each is sent as complete. */
  lemma UnreadableCountPasses(r: Readiness, st: Store, a: Attempt)
    requires Settled(r, a) && (a.cadence, a.period) !in st.posted && a.credit >= 2
    requires a.summary == Some(Summary(None, Some(0.0), "")) || a.summary == Some(Summary(Some(0.9), None, ""))
      || a.summary == Some(Summary(Some(4.7), Some(4.1), ""))
    ensures Send(a.cadence, a.period, false) in Effects(r, st, a) && !FullyPriced(a.summary.value)
  {
    SlippedIsSentComplete(r, st, a);
  }
}
