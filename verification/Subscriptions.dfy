/**
  The subscriptions table (subscriptions/repo.rs) and what the fan-out of one message does to it
  (reward_watch_poller.rs, reward_poller.rs and cut_change_poller.rs share the loop).
*/
module Subscriptions {
  import opened Wrappers

  /** A subscriber and an orchestrator. */
  type Key = (string, string)

  datatype Row = Row(failures: int, blocked: bool)

  type Table = map<Key, Row>

  // ---- statements ------------------------------------------------------------------------------

  function Inserted(t: Table, k: Key): Table {
    if k in t then t else t[k := Row(0, false)]
  }

  function Incremented(t: Table, k: Key): Table {
    if k in t then t[k := t[k].(failures := t[k].failures + 1)] else t
  }

  function FailureCount(t: Table, k: Key): int {
    if k in t then t[k].failures else 0
  }

  function Cleared(t: Table, k: Key): Table {
    if k in t && (t[k].failures > 0 || t[k].blocked) then t[k := Row(0, false)] else t
  }

  function SetBlocked(t: Table, k: Key): Table {
    if k in t then t[k := t[k].(blocked := true)] else t
  }

  // ---- one message to one subscriber ---------------------------------------------------------------

  /** `Skipped`: the stored user id is not a number. */
  datatype Outcome = Skipped | Delivered | Closed | Transient

  /** How sending ended, and how many of the writes that follow go through before one fails. */
  datatype Result = Result(outcome: Outcome, writes: nat)

  /** `seenBlocked` is the flag as read when the subscribers were listed. False: the fan-out is abandoned. */
  function DeliverTo(t: Table, k: Key, seenBlocked: bool, r: Result, threshold: int): (Table, bool) {
    match r.outcome
    case Skipped => (t, true)
    case Transient => (t, true)
    case Delivered => (if r.writes > 0 then Cleared(t, k) else t, true)
    case Closed =>
      if r.writes == 0 then (t, false)
      else
        var t' := Incremented(t, k);
        if FailureCount(t', k) < threshold || seenBlocked then (t', true)
        else if r.writes == 1 then (t', false)
        else (SetBlocked(t', k), true)
  }

  /** The same, seen from the subscriber's own row when the flag is current and every write succeeds. */
  function RowAfter(row: Row, o: Outcome, threshold: int): Row {
    match o
    case Skipped => row
    case Transient => row
    case Delivered => if row.failures > 0 || row.blocked then Row(0, false) else row
    case Closed => Row(row.failures + 1, row.blocked || row.failures + 1 >= threshold)
  }

  predicate Agrees(row: Row, threshold: int) {
    row.blocked <==> row.failures >= threshold
  }

  /**
    The refusal is counted and reaches the threshold on a subscription that is not flagged, and the flag is
    not raised: it was read as set and has been lifted since, or the write that raises it fails.
  */
  predicate FlagLeftDown(row: Row, seenBlocked: bool, r: Result, threshold: int) {
    && r.outcome.Closed? && r.writes >= 1 && !row.blocked && row.failures + 1 >= threshold
    && (seenBlocked || r.writes == 1)
  }

  /** One delivery, whichever writes fail, keeps flag and counter in agreement exactly unless the flag is left down. */
  lemma StaleFlagExactly(t: Table, k: Key, seenBlocked: bool, r: Result, threshold: int)
    requires threshold >= 1 && k in t && t[k].failures >= 0 && Agrees(t[k], threshold)
    ensures var (t', ok) := DeliverTo(t, k, seenBlocked, r, threshold);
      && t'.Keys == t.Keys
      && (Agrees(t'[k], threshold) <==> !FlagLeftDown(t[k], seenBlocked, r, threshold))
      && (r.writes >= 2 ==> ok)
  {
  }

  /**
    What becomes of one row, whichever writes fail: a delivery whose write goes through leaves it with no refusals
    and no flag; a refusal that could be written is counted, and raises the flag if the count has reached the
    threshold, the flag was not seen raised and its write goes through too; anything else leaves the row alone.
  */
  lemma DeliveryExactly(t: Table, k: Key, seenBlocked: bool, r: Result, threshold: int)
    requires k in t
    ensures var (t', ok) := DeliverTo(t, k, seenBlocked, r, threshold);
      var row, row' := t[k], if k in t' then Some(t'[k]) else None;
      && (r.outcome == Delivered && r.writes >= 1 && row.failures >= 0 ==> row'.Some? && row'.value == Row(0, false))
      && (r.outcome == Closed && r.writes >= 1 ==>
            && row'.Some? && row'.value.failures == row.failures + 1
            && (row'.value.blocked <==>
                  row.blocked || (row.failures + 1 >= threshold && !seenBlocked && r.writes >= 2)))
      && (r.outcome == Skipped || r.outcome == Transient || r.writes == 0 ==> row' == Some(row))
      && (ok <==> r.outcome == Closed ==>
            r.writes >= 2 || (r.writes == 1 && (row.failures + 1 < threshold || seenBlocked)))
  {
  }

  /** A subscriber who has left meanwhile gets no row, and a refusal of theirs counts as none. */
  lemma NobodyIsAdded(t: Table, k: Key, seenBlocked: bool, r: Result, threshold: int)
    requires k !in t
    ensures var (t', ok) := DeliverTo(t, k, seenBlocked, r, threshold);
      && t' == t
      && (ok <==> r.outcome == Closed ==> r.writes >= 2 || (r.writes == 1 && (0 < threshold || seenBlocked)))
  {
  }

  /** Two fan-outs that interleave on one subscription: the counter reaches the threshold and the flag stays down. */
  lemma InterleavingDisagrees(k: Key)
    ensures var (cleared, _) := DeliverTo(map[k := Row(1, true)], k, true, Result(Delivered, 1), 1);
      var (t, _) := DeliverTo(cleared, k, true, Result(Closed, 2), 1);
      t[k] == Row(1, false) && !Agrees(t[k], 1)
  {
  }

  // ---- a fan-out ------------------------------------------------------------------------------------

  datatype FanOut = FanOut(subs: seq<Key>, results: seq<Result>)

  /** The subscribers are listed from the table, each once. */
  ghost predicate ValidFanOut(t: Table, f: FanOut) {
    && |f.results| == |f.subs| && (forall i | 0 <= i < |f.subs| :: f.subs[i] in t)
    && forall i, j | 0 <= i < j < |f.subs| :: f.subs[i] != f.subs[j]
  }

  /** After the first `n` subscribers; `seen` is the table the subscribers were listed from. */
  function Fanned(seen: Table, f: FanOut, threshold: int, n: nat): (Table, bool)
    requires n <= |f.subs| == |f.results| && forall i | 0 <= i < |f.subs| :: f.subs[i] in seen
    decreases n
  {
    if n == 0 then (seen, true)
    else
      var (t, ok) := Fanned(seen, f, threshold, n - 1);
      if ok then DeliverTo(t, f.subs[n - 1], seen[f.subs[n - 1]].blocked, f.results[n - 1], threshold) else (t, false)
  }

  predicate BlockedOnlyAbove(t: Table, threshold: int) {
    forall k | k in t :: t[k].blocked ==> t[k].failures >= threshold
  }

  /** Delivery never adds or removes a subscription, and whatever writes fail, nobody is flagged below the threshold. */
  lemma {:induction false} DeliveryKeepsRows(seen: Table, f: FanOut, threshold: int, n: nat)
    requires ValidFanOut(seen, f) && n <= |f.subs| && BlockedOnlyAbove(seen, threshold)
    ensures Fanned(seen, f, threshold, n).0.Keys == seen.Keys
    ensures BlockedOnlyAbove(Fanned(seen, f, threshold, n).0, threshold)
    decreases n
  {
    if n > 0 {
      DeliveryKeepsRows(seen, f, threshold, n - 1);
    }
  }

  ghost predicate WritesSucceed(f: FanOut) {
    forall i | 0 <= i < |f.results| :: f.results[i].writes >= 2
  }

  /** Where `k` comes among the first `n` subscribers, or `n`. */
  function Find(subs: seq<Key>, k: Key, n: nat): (i: nat)
    requires n <= |subs|
    ensures i <= n && (i < n ==> subs[i] == k) && (forall j | 0 <= j < i :: subs[j] != k)
    decreases n
  {
    if n == 0 then 0
    else
      var i := Find(subs, k, n - 1);
      if i < n - 1 then i else if subs[n - 1] == k then n - 1 else n
  }

  lemma DeliveredRow(t: Table, user: Key, r: Result, threshold: int, k: Key)
    requires user in t && r.writes >= 2
    ensures var (t', ok) := DeliverTo(t, user, t[user].blocked, r, threshold);
      && ok && (k in t' <==> k in t)
      && (k in t ==> t'[k] == if k == user then RowAfter(t[k], r.outcome, threshold) else t[k])
  {
  }

  lemma {:induction false} FannedRow(seen: Table, f: FanOut, threshold: int, n: nat, k: Key)
    requires ValidFanOut(seen, f) && WritesSucceed(f) && n <= |f.subs|
    ensures var (t, ok) := Fanned(seen, f, threshold, n);
      var i := Find(f.subs, k, n);
      && ok && (k in t <==> k in seen)
      && (k in seen ==> t[k] == if i < n then RowAfter(seen[k], f.results[i].outcome, threshold) else seen[k])
    decreases n
  {
    if n > 0 {
      var last := f.subs[n - 1];
      FannedRow(seen, f, threshold, n - 1, k);
      FannedRow(seen, f, threshold, n - 1, last);
      forall i | 0 <= i < n - 1 ensures f.subs[i] != last {
      }
      DeliveredRow(Fanned(seen, f, threshold, n - 1).0, last, f.results[n - 1], threshold, k);
    }
  }

  // ---- runs ------------------------------------------------------------------------------------------

  /** Fan-outs and commands that do not interleave. */
  datatype Action = Subscribe(key: Key) | Unsubscribe(key: Key) | Send(fanOut: FanOut)

  predicate CanAct(t: Table, a: Action) {
    a.Send? ==> |a.fanOut.subs| == |a.fanOut.results| && forall i | 0 <= i < |a.fanOut.subs| :: a.fanOut.subs[i] in t
  }

  function Act(t: Table, a: Action, threshold: int): Table
    requires CanAct(t, a)
  {
    match a
    case Subscribe(k) => Inserted(t, k)
    case Unsubscribe(k) => t - {k}
    case Send(f) => Fanned(t, f, threshold, |f.subs|).0
  }

  /** The tables `run` goes through, starting from an empty one. */
  ghost predicate IsRun(run: seq<Action>, tables: seq<Table>, threshold: int) {
    && |tables| == |run| + 1 && tables[0] == map[]
    && forall i | 0 <= i < |run| :: CanAct(tables[i], run[i]) && tables[i + 1] == Act(tables[i], run[i], threshold)
  }

  ghost predicate Clean(run: seq<Action>, tables: seq<Table>)
    requires |tables| == |run| + 1
  {
    forall i | 0 <= i < |run| && run[i].Send? :: ValidFanOut(tables[i], run[i].fanOut) && WritesSucceed(run[i].fanOut)
  }

  datatype Event = Subscribed | Unsubscribed | Sent(outcome: Outcome)

  /** What one action means for `k`, if anything. */
  function Concerns(a: Action, k: Key): Option<Event> {
    match a
    case Subscribe(k') => if k == k' then Some(Subscribed) else None
    case Unsubscribe(k') => if k == k' then Some(Unsubscribed) else None
    case Send(f) =>
      var i := Find(f.subs, k, |f.subs|);
      if i < |f.subs| && i < |f.results| then Some(Sent(f.results[i].outcome)) else None
  }

  /** What happened to `k` in the first `n` actions. */
  function History(run: seq<Action>, k: Key, n: nat): seq<Event>
    requires n <= |run|
    decreases n
  {
    if n == 0 then []
    else
      var before := History(run, k, n - 1);
      match Concerns(run[n - 1], k)
      case None => before
      case Some(e) => before + [e]
  }

  predicate Live(h: seq<Event>) {
    h != [] && match h[|h| - 1]
      case Subscribed => true
      case Unsubscribed => false
      case Sent(_) => Live(h[..|h| - 1])
  }

  /** Refused messages since the last delivered one, or since the subscription was last made. */
  function RefusedSince(h: seq<Event>): nat {
    if h == [] then 0
    else
      var init := h[..|h| - 1];
      match h[|h| - 1]
      case Subscribed => if Live(init) then RefusedSince(init) else 0
      case Unsubscribed => 0
      case Sent(Delivered) => 0
      case Sent(Closed) => RefusedSince(init) + 1
      case Sent(_) => RefusedSince(init)
  }

  /** What the table holds for `k` after the history `h`. */
  ghost predicate Tells(t: Table, k: Key, h: seq<Event>, threshold: int) {
    && (k in t <==> Live(h))
    && (k in t ==> t[k] == Row(RefusedSince(h), RefusedSince(h) >= threshold))
  }

  lemma ActTells(t: Table, a: Action, k: Key, h: seq<Event>, threshold: int)
    requires threshold >= 1 && Tells(t, k, h, threshold) && CanAct(t, a)
    requires a.Send? ==> ValidFanOut(t, a.fanOut) && WritesSucceed(a.fanOut)
    ensures Tells(Act(t, a, threshold), k, if Concerns(a, k).Some? then h + [Concerns(a, k).value] else h, threshold)
  {
    if Concerns(a, k).Some? {
      assert (h + [Concerns(a, k).value])[..|h|] == h;
    }
    if a.Send? {
      FannedRow(t, a.fanOut, threshold, |a.fanOut.subs|, k);
    }
  }

  /**
    Over any sequence of subscriptions, unsubscriptions and fan-outs from any of the dispatchers: a row
    is there exactly while its subscription is live, its counter is the number of refused messages since
    the last delivered one (transient errors do not count), and it is flagged exactly from the threshold up.
  */
  lemma {:induction false} CounterTellsHistory(run: seq<Action>, tables: seq<Table>, threshold: int, n: nat, k: Key)
    requires threshold >= 1 && IsRun(run, tables, threshold) && Clean(run, tables) && n <= |run|
    ensures Tells(tables[n], k, History(run, k, n), threshold)
    decreases n
  {
    if n > 0 {
      CounterTellsHistory(run, tables, threshold, n - 1, k);
      ActTells(tables[n - 1], run[n - 1], k, History(run, k, n - 1), threshold);
    }
  }

  ghost predicate AlwaysAgrees(threshold: int) {
    forall run, tables, k | IsRun(run, tables, threshold) && Clean(run, tables) && k in tables[|run|] ::
      Agrees(tables[|run|][k], threshold)
  }

  /** Flag and counter agree in every such run exactly when the threshold is at least one. */
  lemma AgreementExactly(threshold: int)
    ensures AlwaysAgrees(threshold) <==> threshold >= 1
  {
    if threshold >= 1 {
      forall run, tables, k | IsRun(run, tables, threshold) && Clean(run, tables) && k in tables[|run|]
        ensures Agrees(tables[|run|][k], threshold)
      {
        CounterTellsHistory(run, tables, threshold, |run|, k);
      }
    } else {
      var k := ("1", "0x1");
      var run, tables := [Subscribe(k)], [map[], map[k := Row(0, false)]];
      assert tables[1] == Inserted(tables[0], k);
      assert IsRun(run, tables, threshold) && Clean(run, tables) && k in tables[|run|];
      assert !Agrees(tables[|run|][k], threshold);
    }
  }

  // ---- the repository and the loop as the program runs them ---------------------------------------------

  class SubscriptionsRepo {
    var rows: Table

    constructor ()
      ensures rows == map[]
    {
      rows := map[];
    }

    method Insert(k: Key) returns (created: bool)
      modifies this
      ensures rows == Inserted(old(rows), k) && created == (k !in old(rows))
    {
      created := k !in rows;
      if created {
        rows := rows[k := Row(0, false)];
      }
    }

    method Delete(k: Key) returns (removed: bool)
      modifies this
      ensures rows == old(rows) - {k} && removed == (k in old(rows))
    {
      removed := k in rows;
      rows := rows - {k};
    }

    method IncrementDmFailure(k: Key) returns (count: int)
      modifies this
      ensures rows == Incremented(old(rows), k) && count == FailureCount(rows, k)
    {
      if k in rows {
        rows := rows[k := rows[k].(failures := rows[k].failures + 1)];
        return rows[k].failures;
      }
      count := 0;
    }

    method ClearDmFailure(k: Key)
      modifies this
      ensures rows == Cleared(old(rows), k)
    {
      if k in rows && (rows[k].failures > 0 || rows[k].blocked) {
        rows := rows[k := Row(0, false)];
      }
    }

    method SetDmBlocked(k: Key)
      modifies this
      ensures rows == SetBlocked(old(rows), k)
    {
      if k in rows {
        rows := rows[k := rows[k].(blocked := true)];
      }
    }

    /** Send one message to every listed subscriber; `flags` are the blocked flags as listed. */
    method DmFanOut(f: FanOut, flags: seq<bool>, threshold: int) returns (ok: bool)
      requires |f.subs| == |f.results| == |flags|
      requires forall i | 0 <= i < |f.subs| :: f.subs[i] in rows && flags[i] == rows[f.subs[i]].blocked
      modifies this
      ensures (rows, ok) == Fanned(old(rows), f, threshold, |f.subs|)
    {
      ghost var seen := rows;
      ok := true;
      for i := 0 to |f.subs|
        invariant (rows, true) == Fanned(seen, f, threshold, i)
      {
        var k, r := f.subs[i], f.results[i];
        match r.outcome {
          case Skipped =>
          case Transient =>
          case Delivered =>
            if r.writes > 0 {
              ClearDmFailure(k);
            }
          case Closed =>
            if r.writes == 0 {
              StopsEarly(seen, f, threshold, i + 1);
              return false;
            }
            var count := IncrementDmFailure(k);
            if count >= threshold && !flags[i] {
              if r.writes == 1 {
                StopsEarly(seen, f, threshold, i + 1);
                return false;
              }
              SetDmBlocked(k);
            }
        }
      }
    }
  }

  /** An abandoned fan-out goes no further. */
  lemma {:induction false} AbandonedStays(seen: Table, f: FanOut, threshold: int, n: nat, m: nat)
    requires n <= m <= |f.subs| == |f.results| && (forall i | 0 <= i < |f.subs| :: f.subs[i] in seen)
    requires !Fanned(seen, f, threshold, n).1
    ensures Fanned(seen, f, threshold, m) == Fanned(seen, f, threshold, n)
    decreases m
  {
    if n < m {
      AbandonedStays(seen, f, threshold, n, m - 1);
    }
  }

  lemma StopsEarly(seen: Table, f: FanOut, threshold: int, n: nat)
    requires n <= |f.subs| == |f.results| && forall i | 0 <= i < |f.subs| :: f.subs[i] in seen
    ensures !Fanned(seen, f, threshold, n).1 ==> Fanned(seen, f, threshold, |f.subs|) == Fanned(seen, f, threshold, n)
  {
    if !Fanned(seen, f, threshold, n).1 {
      AbandonedStays(seen, f, threshold, n, |f.subs|);
    }
  }
}
