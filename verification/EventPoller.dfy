/** A poller as the program runs it: a repository object and a paging loop that may die after any statement. */
module EventPoller {
  import opened Wrappers
  import T = Tickets
  import opened EventIngest

  /** The `events` and `cursors` tables; `credit` is how many more statements run before the process dies. */
  class StateRepo {
    var events: T.Table
    var cursor: Option<nat>
    var credit: nat

    constructor ()
      ensures events == map[] && cursor == None && credit == 0
    {
      events, cursor, credit := map[], None, 0;
    }

    ghost function Store(): Store
      reads this
    {
      EventIngest.Store(events, cursor)
    }

    /** `INSERT OR IGNORE`: whether a row was added. */
    method InsertOrIgnore(e: T.Entry) returns (ok: bool, inserted: bool)
      modifies this
      ensures ok == (old(credit) > 0)
      ensures ok ==>
        credit == old(credit) - 1 && Store() == Exec(old(Store()), InsertRow(e)) && inserted == (e.id !in old(events))
      ensures !ok ==> credit == 0 && Store() == old(Store()) && !inserted
    {
      ok, inserted := credit > 0, false;
      if ok {
        credit := credit - 1;
        if e.id !in events {
          events := events[e.id := T.NewRow(e)];
          inserted := true;
        }
      }
    }

    method RepairPendingEventValuation(id: T.Id, usd: Option<real>, price: Option<real>) returns (ok: bool)
      modifies this
      ensures ok == (old(credit) > 0)
      ensures ok ==> credit == old(credit) - 1 && Store() == Exec(old(Store()), RepairRow(id, usd, price))
      ensures !ok ==> credit == 0 && Store() == old(Store())
    {
      ok := credit > 0;
      if ok {
        credit := credit - 1;
        if id in events && !events[id].sent {
          var row := events[id];
          if T.Positive(usd) && !T.Positive(row.amountUsd) {
            row := row.(amountUsd := usd);
          }
          if T.Positive(price) && !T.Positive(row.nativeUsdPrice) {
            row := row.(nativeUsdPrice := price);
          }
          events := events[id := row];
        }
      }
    }

    method SetCursor(pos: nat) returns (ok: bool)
      modifies this
      ensures ok == (old(credit) > 0)
      ensures ok ==> credit == old(credit) - 1 && Store() == Exec(old(Store()), EventIngest.SetCursor(pos))
      ensures !ok ==> credit == 0 && Store() == old(Store())
    {
      ok := credit > 0;
      if ok {
        cursor, credit := Some(pos), credit - 1;
      }
    }

    /** Since the store was `st`, with `allowance` statements to go, exactly `ss` has run. */
    ghost predicate Did(st: Store, allowance: nat, ss: seq<Stmt>)
      reads this
    {
      credit == allowance - |ss| && Store() == ExecAll(st, ss)
    }

    /** `insert_event`, `insert_reward_event` or `insert_delegator_event`, as the stream has it. */
    method InsertEvent(e: Listed, ghost st: Store, ghost allowance: nat, ghost done: seq<Stmt>)
      returns (ok: bool, inserted: bool, ghost ss: seq<Stmt>)
      requires Did(st, allowance, done)
      modifies this
      ensures ss <= InsertStmts(e) && Did(st, allowance, done + ss)
      ensures if ok then ss == InsertStmts(e) else credit == 0 && |ss| < |InsertStmts(e)|
      ensures |events| == |old(events)| + if inserted then 1 else 0
    {
      ss, inserted := [], false;
      assert done + ss == done;
      if !Storable(e) {
        ok := credit > 0;
        if ok {
          credit, ss := credit - 1, [Skip];
          ExecSnoc(st, done, Skip);
        }
        return;
      }
      var entry := e.entry;
      ok, inserted := InsertOrIgnore(entry);
      if !ok {
        return;
      }
      ss := [InsertRow(entry)];
      ExecSnoc(st, done, InsertRow(entry));
      if e.stream.Tickets? && (entry.amountUsd.Some? || entry.nativeUsdPrice.Some?) {
        ok := RepairPendingEventValuation(entry.id, entry.amountUsd, entry.nativeUsdPrice);
        if ok {
          ExecSnoc(st, done + ss, RepairRow(entry.id, entry.amountUsd, entry.nativeUsdPrice));
          assert done + InsertStmts(e) == done + ss + [RepairRow(entry.id, entry.amountUsd, entry.nativeUsdPrice)];
          ss := InsertStmts(e);
        }
      }
    }

    /** The loop over one page. */
    method InsertPage(stream: Stream, listings: seq<T.Listing>, ex: Explorer, from: nat, end: nat, ghost st: Store,
                      ghost allowance: nat, ghost done: seq<Stmt>)
      returns (ok: bool, inserted: nat, ghost ss: seq<Stmt>)
      requires Did(st, allowance, done) && from <= end <= |ex.log| && ex.log == LogOf(stream, listings)
      modifies this
      ensures ss <= PageStmts(ex.log, from, end) && Did(st, allowance, done + ss)
      ensures if ok then ss == PageStmts(ex.log, from, end) else credit == 0 && |ss| < |PageStmts(ex.log, from, end)|
      ensures |events| == |old(events)| + inserted
    {
      ss, inserted, ok := [], 0, true;
      assert done + ss == done;
      for i := from to end
        invariant ss == PageStmts(ex.log, from, i) && Did(st, allowance, done + ss)
        invariant |events| == |old(events)| + inserted
      {
        var added;
        ghost var es;
        assert ex.log[i] == Seen(stream, listings[i]);
        ok, added, es := InsertEvent(Seen(stream, listings[i]), st, allowance, done + ss);
        OneMoreListed(ex.log, from, i, end, done, ss, es);
        ss := ss + es;
        inserted := inserted + if added then 1 else 0;
        if !ok {
          return;
        }
      }
      ok := true;
    }

    /** One turn of the paging loop at `pos`: fetch, insert, store the next cursor. */
    method RunPage(stream: Stream, listings: seq<T.Listing>, ex: Explorer, pos: nat, ghost st: Store,
                   ghost allowance: nat, ghost done: seq<Stmt>)
      returns (ok: bool, more: bool, inserted: nat, ghost ss: seq<Stmt>)
      requires Did(st, allowance, done) && ex.log == LogOf(stream, listings)
      modifies this
      ensures Did(st, allowance, done + ss) && |events| == |old(events)| + inserted
      ensures !ok ==> credit == 0 && ss <= Plan(ex, pos) && |ss| < |Plan(ex, pos)|
      ensures ok && !more ==> ss == Plan(ex, pos)
      ensures ok && more ==> PageEnd(ex, pos) > pos && Plan(ex, pos) == ss + Plan(ex, PageEnd(ex, pos))
    {
      var end := PageEnd(ex, pos);
      if end == pos {
        assert done + [] == done;
        return true, false, 0, [];
      }
      PlanShape(ex, pos);
      ghost var page := PageStmts(ex.log, pos, end);
      ok, inserted, ss := InsertPage(stream, listings, ex, pos, end, st, allowance, done);
      more := false;
      if !ok || !ex.hasNext(pos) {
        return;
      }
      ok := SetCursor(end);
      if !ok {
        return;
      }
      ExecSnoc(st, done + page, EventIngest.SetCursor(end));
      ss := page + [EventIngest.SetCursor(end)];
      assert done + ss == done + page + [EventIngest.SetCursor(end)];
      more := end - pos >= PAGE_LIMIT;
      assert !more ==> ss + Rest(ex, pos) == ss;
    }

    /** One run of the poller over what the explorer lists: how many rows it added, if it lived to say. */
    method RunOnce(stream: Stream, listings: seq<T.Listing>, ex: Explorer) returns (ok: bool, inserted: nat)
      requires ex.log == LogOf(stream, listings)
      modifies this
      ensures Store() == ExecAll(old(Store()), Performed(Plan(ex, Position(old(Store()))), old(credit)))
      ensures ok <==> old(credit) >= |Plan(ex, Position(old(Store())))|
      ensures |events| == |old(events)| + inserted
    {
      ghost var st, allowance, plan := Store(), credit, Plan(ex, Position(Store()));
      ghost var done: seq<Stmt> := [];
      inserted := 0;
      var pos := if cursor.Some? then cursor.value else 0;
      var more := true;
      ok := true;
      while more
        invariant Did(st, allowance, done) && |events| == |old(events)| + inserted
        invariant ok && more ==> done + Plan(ex, pos) == plan
        invariant ok && !more ==> done == plan
        invariant !ok ==> !more && |done| == allowance < |plan| && done <= plan
        decreases more, |ex.log| - pos
      {
        var added;
        ghost var ss;
        ok, more, added, ss := RunPage(stream, listings, ex, pos, st, allowance, done);
        Extends(plan, done, Plan(ex, pos), ss);
        inserted, done := inserted + added, done + ss;
        if !ok {
          more := false;
        } else if more {
          assert done + Plan(ex, PageEnd(ex, pos)) == plan;
          pos := PageEnd(ex, pos);
        }
      }
      assert done == Performed(plan, allowance);
    }
  }

  lemma Extends(plan: seq<Stmt>, done: seq<Stmt>, rest: seq<Stmt>, ss: seq<Stmt>)
    requires plan == done + rest
    ensures ss <= rest ==> done + ss <= plan
    ensures forall later :: rest == ss + later ==> plan == (done + ss) + later
  {
    forall later | rest == ss + later ensures plan == (done + ss) + later {
      assert done + (ss + later) == (done + ss) + later;
    }
  }

  lemma StartOfWhole(done: seq<Stmt>, ss: seq<Stmt>, es: seq<Stmt>, part: seq<Stmt>, whole: seq<Stmt>)
    requires es <= part && ss + part <= whole
    ensures done + ss + es == done + (ss + es) && ss + es <= whole
    ensures |es| < |part| ==> |ss + es| < |whole|
  {
    assert ss + es <= ss + part;
  }

  lemma OneMoreListed(log: seq<Listed>, from: nat, i: nat, end: nat, done: seq<Stmt>, ss: seq<Stmt>, es: seq<Stmt>)
    requires from <= i < end <= |log| && ss == PageStmts(log, from, i) && es <= InsertStmts(log[i])
    ensures done + ss + es == done + (ss + es) && ss + es <= PageStmts(log, from, end)
    ensures |es| < |InsertStmts(log[i])| ==> |ss + es| < |PageStmts(log, from, end)|
  {
    PagePrefixOf(log, from, i + 1, end);
    StartOfWhole(done, ss, es, InsertStmts(log[i]), PageStmts(log, from, end));
  }

  lemma {:induction false} PagePrefixOf(log: seq<Listed>, from: nat, i: nat, end: nat)
    requires from <= i <= end <= |log|
    ensures PageStmts(log, from, i) <= PageStmts(log, from, end)
    decreases end
  {
    if i < end {
      PagePrefixOf(log, from, i, end - 1);
    }
  }
}
